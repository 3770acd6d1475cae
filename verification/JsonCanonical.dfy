/** RFC 8785 canonical texts: one text for a value up to member order, and the grammar reads the value back. */
module JsonCanonical {
  import opened Common
  import opened Decimal
  import opened Lex
  import opened JsonGrammar
  import JsonScanner

  /** A JavaScript number, as the 64 bits of its IEEE 754 double. */
  type Double = x: int | 0 <= x < 0x1_0000_0000_0000_0000

  const NEGATIVE_ZERO: Double := 0x8000_0000_0000_0000

  /** `Number.isFinite`: the eleven bits of the exponent are not all set. */
  predicate IsFinite(x: Double) {
    x / 0x10_0000_0000_0000 % 0x800 != 0x7ff
  }

  /** `===` does not tell the two zeros apart. */
  function Unsign(x: Double): Double {
    if x == NEGATIVE_ZERO then 0 else x
  }

  /** `Number::toString` and the reading of a JSON number, which RFC 8785 section 3.2.2.3 takes from ECMAScript. */
  datatype Numerals = Numerals(text: Double -> Str, value: Str -> Double)

  /** A finite number is written as a JSON number that reads back as it; both zeros are written alike. */
  ghost predicate NumberLaw(fp: Numerals, x: Double) {
    && IsNumber(fp.text(x)) && fp.value(fp.text(x)) == Unsign(x)
    && fp.text(x) == fp.text(Unsign(x))
  }

  ghost predicate Lawful(fp: Numerals) {
    forall x :: IsFinite(x) ==> NumberLaw(fp, x)
  }

  /** The values a payload holds. */
  datatype Value =
    | Null
    | Bool(b: bool)
    | Num(x: Double)
    | String(s: Str)
    | List(items: Items)
    | Object(fields: Fields)

  datatype Items = Nil | Cons(head: Value, tail: Items)

  datatype Fields = NoFields | Field(name: Str, value: Value, rest: Fields)

  // ------------------------------------------------------------ values

  predicate HighSurrogate(u: unit) {
    0xd800 <= u <= 0xdbff
  }

  predicate LowSurrogate(u: unit) {
    0xdc00 <= u <= 0xdfff
  }

  /** `s.isWellFormed()`: every surrogate is half of a pair. */
  predicate WellFormed(s: Str) {
    if s == [] then true
    else if HighSurrogate(s[0]) then |s| >= 2 && LowSurrogate(s[1]) && WellFormed(s[2..])
    else !LowSurrogate(s[0]) && WellFormed(s[1..])
  }

  function Names(fs: Fields): set<Str> {
    if fs.NoFields? then {} else {fs.name} + Names(fs.rest)
  }

  /** A JavaScript object holds each name once. */
  predicate Proper(v: Value) {
    match v
    case List(items) => ProperItems(items)
    case Object(fields) => ProperFields(fields)
    case _ => true
  }

  predicate ProperItems(xs: Items) {
    xs.Cons? ==> Proper(xs.head) && ProperItems(xs.tail)
  }

  predicate ProperFields(fs: Fields) {
    fs.Field? ==> fs.name !in Names(fs.rest) && Proper(fs.value) && ProperFields(fs.rest)
  }

  function Get(fs: Fields, name: Str): (v: Value)
    requires name in Names(fs)
    ensures Size(v) < SizeFields(fs)
  {
    if fs.name == name then fs.value else Get(fs.rest, name)
  }

  function Size(v: Value): nat {
    match v
    case List(items) => 1 + SizeItems(items)
    case Object(fields) => 1 + SizeFields(fields)
    case _ => 1
  }

  function SizeItems(xs: Items): nat {
    if xs.Nil? then 0 else 1 + Size(xs.head) + SizeItems(xs.tail)
  }

  function SizeFields(fs: Fields): nat {
    if fs.NoFields? then 0 else 1 + Size(fs.value) + SizeFields(fs.rest)
  }

  /** Equal up to the order of members and the sign of zero, at every depth. */
  ghost predicate Same(v: Value, w: Value)
    decreases Size(v)
  {
    match (v, w)
    case (Num(x), Num(y)) => Unsign(x) == Unsign(y)
    case (List(a), List(b)) => SameItems(a, b)
    case (Object(f), Object(g)) => Names(f) == Names(g) && forall k :: k in Names(f) ==> Same(Get(f, k), Get(g, k))
    case _ => v == w
  }

  ghost predicate SameItems(a: Items, b: Items)
    decreases SizeItems(a)
  {
    match (a, b)
    case (Cons(x, xs), Cons(y, ys)) => Same(x, y) && SameItems(xs, ys)
    case _ => a == b
  }

  // ------------------------------------------------------------ the order of members

  // Property names are ordered by their UTF-16 code units: `Less` on the sequences of units.
  ghost predicate Sorted(fs: Fields) {
    fs.Field? ==> (forall k :: k in Names(fs.rest) ==> Less(fs.name, k)) && Sorted(fs.rest)
  }

  function Insert(name: Str, v: Value, fs: Fields): (r: Fields)
    ensures SizeFields(r) == 1 + Size(v) + SizeFields(fs)
    ensures Names(r) == Names(fs) + {name}
  {
    if fs.NoFields? || Less(name, fs.name) then Field(name, v, fs)
    else Field(fs.name, fs.value, Insert(name, v, fs.rest))
  }

  /** `Object.keys(value).sort()`, carrying the values along. */
  function Sort(fs: Fields): (r: Fields)
    ensures SizeFields(r) == SizeFields(fs) && Names(r) == Names(fs)
  {
    if fs.NoFields? then NoFields else Insert(fs.name, fs.value, Sort(fs.rest))
  }

  lemma {:induction false} InsertSorts(name: Str, v: Value, fs: Fields)
    requires Sorted(fs) && ProperFields(fs) && name !in Names(fs) && Proper(v)
    ensures Sorted(Insert(name, v, fs)) && ProperFields(Insert(name, v, fs))
    ensures Get(Insert(name, v, fs), name) == v
    ensures forall k :: k in Names(fs) ==> Get(Insert(name, v, fs), k) == Get(fs, k)
  {
    if fs.Field? {
      if Less(name, fs.name) {
        forall k | k in Names(fs)
          ensures Less(name, k)
        {
          if k != fs.name {
            LessTransitive(name, fs.name, k);
          }
        }
      } else {
        LessTotal(name, fs.name);
        InsertSorts(name, v, fs.rest);
      }
    }
  }

  lemma {:induction false} SortSorts(fs: Fields)
    requires ProperFields(fs)
    ensures Sorted(Sort(fs)) && ProperFields(Sort(fs))
    ensures forall k :: k in Names(fs) ==> Get(Sort(fs), k) == Get(fs, k)
  {
    if fs.Field? {
      SortSorts(fs.rest);
      InsertSorts(fs.name, fs.value, Sort(fs.rest));
    }
  }

  /** A sorted list of fields is determined by what it maps each name to. */
  lemma {:induction false} SortedUnique(f: Fields, g: Fields)
    requires Sorted(f) && Sorted(g) && ProperFields(f) && ProperFields(g)
    requires Names(f) == Names(g) && forall k :: k in Names(f) ==> Get(f, k) == Get(g, k)
    ensures f == g
  {
    assert g.Field? ==> g.name in Names(g);
    if f.Field? {
      assert f.name in Names(g);
      assert g.Field?;
      assert g.name in Names(f);
      if f.name != g.name {
        assert Less(f.name, g.name) && Less(g.name, f.name);
        LessAsymmetric(f.name, g.name);
      }
      assert Names(f.rest) == Names(f) - {f.name} && Names(g.rest) == Names(g) - {f.name};
      assert forall k :: k in Names(f.rest) ==> Get(f.rest, k) == Get(f, k) && Get(g.rest, k) == Get(g, k);
      SortedUnique(f.rest, g.rest);
    }
  }

  /** The representative of a value: members sorted and zeros positive, at every depth. */
  function Norm(v: Value): (r: Value)
    ensures Size(r) == Size(v)
    decreases Size(v)
  {
    match v
    case Num(x) => Num(Unsign(x))
    case List(items) => List(NormItems(items))
    case Object(fields) => Object(NormFields(Sort(fields)))
    case _ => v
  }

  function NormItems(xs: Items): (r: Items)
    ensures SizeItems(r) == SizeItems(xs)
    decreases SizeItems(xs)
  {
    if xs.Nil? then Nil else Cons(Norm(xs.head), NormItems(xs.tail))
  }

  function NormFields(fs: Fields): (r: Fields)
    ensures SizeFields(r) == SizeFields(fs) && Names(r) == Names(fs)
    decreases SizeFields(fs)
  {
    if fs.NoFields? then NoFields else Field(fs.name, Norm(fs.value), NormFields(fs.rest))
  }

  lemma {:induction false} NormFieldsGet(fs: Fields)
    requires ProperFields(fs)
    ensures Sorted(fs) ==> Sorted(NormFields(fs))
    ensures forall k :: k in Names(fs) ==> Get(NormFields(fs), k) == Norm(Get(fs, k))
    decreases SizeFields(fs)
  {
    if fs.Field? {
      NormFieldsGet(fs.rest);
    }
  }

  lemma {:induction false} NormProper(v: Value)
    requires Proper(v)
    ensures Proper(Norm(v))
    decreases Size(v), 1
  {
    match v
    case List(items) => NormItemsProper(items);
    case Object(fields) =>
      SortSorts(fields);
      NormFieldsProper(Sort(fields));
    case _ =>
  }

  lemma {:induction false} NormItemsProper(xs: Items)
    requires ProperItems(xs)
    ensures ProperItems(NormItems(xs))
    decreases SizeItems(xs), 0
  {
    if xs.Cons? {
      NormProper(xs.head);
      NormItemsProper(xs.tail);
    }
  }

  lemma {:induction false} NormFieldsProper(fs: Fields)
    requires ProperFields(fs)
    ensures ProperFields(NormFields(fs))
    decreases SizeFields(fs), 0
  {
    if fs.Field? {
      NormProper(fs.value);
      NormFieldsProper(fs.rest);
    }
  }

  /** What a normalized object maps a name to. */
  lemma NormObject(fs: Fields)
    requires ProperFields(fs)
    ensures var n := NormFields(Sort(fs));
            && Sorted(n) && ProperFields(n) && Names(n) == Names(fs)
            && forall k :: k in Names(fs) ==> Get(n, k) == Norm(Get(fs, k))
  {
    SortSorts(fs);
    NormFieldsGet(Sort(fs));
    NormFieldsProper(Sort(fs));
  }

  lemma {:induction false} GetProper(fs: Fields, k: Str)
    requires ProperFields(fs) && k in Names(fs)
    ensures Proper(Get(fs, k))
  {
    if fs.name != k {
      GetProper(fs.rest, k);
    }
  }

  /** Two values are equal up to member order exactly when they have one representative. */
  lemma {:induction false} SameIffNorm(v: Value, w: Value)
    requires Proper(v) && Proper(w)
    ensures Same(v, w) <==> Norm(v) == Norm(w)
    decreases Size(v), 1
  {
    match (v, w)
    case (List(a), List(b)) =>
      SameItemsIffNorm(a, b);
    case (Object(f), Object(g)) =>
      NormObject(f);
      NormObject(g);
      if Names(f) == Names(g) {
        forall k | k in Names(f)
          ensures Same(Get(f, k), Get(g, k)) <==> Norm(Get(f, k)) == Norm(Get(g, k))
        {
          GetProper(f, k);
          GetProper(g, k);
          SameIffNorm(Get(f, k), Get(g, k));
        }
        if Same(v, w) {
          SortedUnique(NormFields(Sort(f)), NormFields(Sort(g)));
        }
      }
    case _ =>
  }

  lemma {:induction false} SameItemsIffNorm(a: Items, b: Items)
    requires ProperItems(a) && ProperItems(b)
    ensures SameItems(a, b) <==> NormItems(a) == NormItems(b)
    decreases SizeItems(a), 0
  {
    if a.Cons? && b.Cons? {
      SameIffNorm(a.head, b.head);
      SameItemsIffNorm(a.tail, b.tail);
    }
  }

  // ------------------------------------------------------------ the text

  function Units(s: string): (r: Str)
    requires forall i :: 0 <= i < |s| ==> (s[i] as int) < 128
    ensures |r| == |s| && forall i :: 0 <= i < |s| ==> r[i] == s[i] as int
  {
    seq(|s|, i requires 0 <= i < |s| => s[i] as int)
  }

  function HexUnit(n: nat): unit
    requires n < 16
  {
    if n < 10 then 0x30 + n else 0x61 + n - 10
  }

  /** How `JSON.stringify` writes one code unit of a well-formed text. */
  function PieceOf(u: unit): (p: Piece)
    ensures p.Valid() && p.Decoded() == u
  {
    if u == QUOTE || u == BACKSLASH then Short(u)
    else if u == 0x08 then Short(0x62)
    else if u == 0x0c then Short(0x66)
    else if u == 0x0a then Short(0x6e)
    else if u == 0x0d then Short(0x72)
    else if u == 0x09 then Short(0x74)
    else if u < 0x20 then Hex(0x30, 0x30, HexUnit(u / 16), HexUnit(u % 16))
    else Raw(u)
  }

  function Pieces(s: Str): (ps: seq<Piece>)
    ensures ValidPieces(ps) && Decode(ps) == s
  {
    seq(|s|, i requires 0 <= i < |s| => PieceOf(s[i]))
  }

  function Quoted(s: Str): Str {
    RenderText(Pieces(s))
  }

  /** `jcsCanonicalize`: None for a number that is not finite and for a text or member name that is not well-formed. */
  function Canonicalize(fp: Numerals, v: Value): Option<Str>
    decreases Size(v)
  {
    match v
    case Null => Some(NULL)
    case Bool(b) => Some(if b then TRUE else FALSE)
    case Num(x) => if IsFinite(x) then Some(fp.text(x)) else None
    case String(s) => if WellFormed(s) then Some(Quoted(s)) else None
    case List(items) =>
      var parts := JoinItems(fp, items);
      if parts.None? then None else Some([OPEN_BRACKET] + parts.value + [CLOSE_BRACKET])
    case Object(fields) =>
      var parts := JoinFields(fp, Sort(fields));
      if parts.None? then None else Some([OPEN_BRACE] + parts.value + [CLOSE_BRACE])
  }

  function JoinItems(fp: Numerals, xs: Items): Option<Str>
    decreases SizeItems(xs)
  {
    if xs.Nil? then Some([])
    else
      var head := Canonicalize(fp, xs.head);
      var tail := JoinItems(fp, xs.tail);
      if head.None? || tail.None? then None
      else Some(head.value + (if xs.tail.Nil? then [] else [COMMA] + tail.value))
  }

  function JoinFields(fp: Numerals, fs: Fields): Option<Str>
    decreases SizeFields(fs)
  {
    if fs.NoFields? then Some([])
    else
      var value := Canonicalize(fp, fs.value);
      var rest := JoinFields(fp, fs.rest);
      if !WellFormed(fs.name) || value.None? || rest.None? then None
      else Some(Quoted(fs.name) + [COLON] + value.value + (if fs.rest.NoFields? then [] else [COMMA] + rest.value))
  }

  // ------------------------------------------------------------ what a tree denotes

  /** The value a syntax tree stands for. */
  function ValueOf(fp: Numerals, d: Doc): Value
    requires Valid(d)
  {
    match d
    case Literal(text) =>
      if text == NULL then Null
      else if text == TRUE then Bool(true)
      else if text == FALSE then Bool(false)
      else Num(fp.value(text))
    case Text(pieces) => String(Decode(pieces))
    case Arr(_, elems) => List(ItemsOf(fp, elems))
    case Obj(_, members) => Object(FieldsOf(fp, members))
  }

  function ItemsOf(fp: Numerals, es: Elems): Items
    requires ValidElems(es)
  {
    if es.NoElems? then Nil else Cons(ValueOf(fp, es.value), ItemsOf(fp, es.rest))
  }

  function FieldsOf(fp: Numerals, ms: Members): Fields
    requires ValidMembers(ms)
  {
    if ms.NoMembers? then NoFields else Field(Decode(ms.key), ValueOf(fp, ms.value), FieldsOf(fp, ms.rest))
  }

  /** The tree of a canonical text: no blanks, members as they come. */
  function DocOf(fp: Numerals, v: Value): Doc {
    match v
    case Null => Literal(NULL)
    case Bool(b) => Literal(if b then TRUE else FALSE)
    case Num(x) => Literal(fp.text(x))
    case String(s) => Text(Pieces(s))
    case List(items) => Arr([], ElemsOf(fp, items))
    case Object(fields) => Obj([], MembersOf(fp, fields))
  }

  function ElemsOf(fp: Numerals, xs: Items): Elems {
    if xs.Nil? then NoElems else Elem([], DocOf(fp, xs.head), [], ElemsOf(fp, xs.tail))
  }

  function MembersOf(fp: Numerals, fs: Fields): Members {
    if fs.NoFields? then NoMembers
    else Member([], Pieces(fs.name), [], [], DocOf(fp, fs.value), [], MembersOf(fp, fs.rest))
  }

  lemma NumberIsLiteral(s: Str)
    requires IsNumber(s)
    ensures IsLiteral(s) && s != NULL && s != TRUE && s != FALSE
  {
    NumberChars(s);
    assert Digit(Unsigned(s)[0]);
  }

  /** Every number is finite and no zero is negative. */
  predicate Plain(v: Value) {
    match v
    case Num(x) => IsFinite(x) && x != NEGATIVE_ZERO
    case List(items) => PlainItems(items)
    case Object(fields) => PlainFields(fields)
    case _ => true
  }

  predicate PlainItems(xs: Items) {
    xs.Cons? ==> Plain(xs.head) && PlainItems(xs.tail)
  }

  predicate PlainFields(fs: Fields) {
    fs.Field? ==> Plain(fs.value) && PlainFields(fs.rest)
  }

  lemma {:induction false} DocDenotes(fp: Numerals, v: Value)
    requires Lawful(fp) && Plain(v)
    ensures Valid(DocOf(fp, v)) && ValueOf(fp, DocOf(fp, v)) == v
    decreases v
  {
    match v
    case Num(x) =>
      assert NumberLaw(fp, x);
      NumberIsLiteral(fp.text(x));
    case List(items) => ElemsDenote(fp, items);
    case Object(fields) => MembersDenote(fp, fields);
    case _ =>
  }

  lemma {:induction false} ElemsDenote(fp: Numerals, xs: Items)
    requires Lawful(fp) && PlainItems(xs)
    ensures ValidElems(ElemsOf(fp, xs)) && ItemsOf(fp, ElemsOf(fp, xs)) == xs
    decreases xs
  {
    if xs.Cons? {
      DocDenotes(fp, xs.head);
      ElemsDenote(fp, xs.tail);
    }
  }

  lemma {:induction false} MembersDenote(fp: Numerals, fs: Fields)
    requires Lawful(fp) && PlainFields(fs)
    ensures ValidMembers(MembersOf(fp, fs)) && FieldsOf(fp, MembersOf(fp, fs)) == fs
    decreases fs
  {
    if fs.Field? {
      DocDenotes(fp, fs.value);
      MembersDenote(fp, fs.rest);
    }
  }

  /** The canonical text is the rendering of the representative's tree. */
  lemma {:induction false} CanonicalRenders(fp: Numerals, v: Value)
    requires Lawful(fp) && Canonicalize(fp, v).Some?
    ensures Canonicalize(fp, v).value == Render(DocOf(fp, Norm(v))) && Plain(Norm(v))
    decreases Size(v), 1
  {
    hide RenderText, Pieces, WellFormed, Sort, RenderElems, RenderMembers, Names;
    match v
    case Num(x) => assert NumberLaw(fp, x);
    case List(items) => ItemsRender(fp, items);
    case Object(fields) => FieldsRender(fp, Sort(fields));
    case _ =>
  }

  lemma {:induction false} ItemsRender(fp: Numerals, xs: Items)
    requires Lawful(fp) && JoinItems(fp, xs).Some?
    ensures JoinItems(fp, xs).value == RenderElems(ElemsOf(fp, NormItems(xs))) && PlainItems(NormItems(xs))
    decreases SizeItems(xs), 0
  {
    if xs.Cons? {
      CanonicalRenders(fp, xs.head);
      ItemsRender(fp, xs.tail);
    }
  }

  lemma {:induction false} FieldsRender(fp: Numerals, fs: Fields)
    requires Lawful(fp) && JoinFields(fp, fs).Some?
    ensures JoinFields(fp, fs).value == RenderMembers(MembersOf(fp, NormFields(fs))) && PlainFields(NormFields(fs))
    decreases SizeFields(fs), 0
  {
    hide RenderText, Pieces, WellFormed, Names, Canonicalize, Render, DocOf, Norm;
    if fs.Field? {
      CanonicalRenders(fp, fs.value);
      FieldsRender(fp, fs.rest);
    }
  }

  /** A canonical text is JSON, its one tree denotes the value with members sorted, which is the value itself
      up to member order and the sign of zero. */
  lemma CanonicalRoundTrip(fp: Numerals, v: Value)
    requires Lawful(fp) && Proper(v) && Canonicalize(fp, v).Some?
    ensures var d := DocOf(fp, Norm(v));
            && ParseText(Canonicalize(fp, v).value) == Some(d)
            && Valid(d) && ValueOf(fp, d) == Norm(v)
            && Same(Norm(v), v)
  {
    CanonicalRenders(fp, v);
    DocDenotes(fp, Norm(v));
    var s := Canonicalize(fp, v).value;
    var d := DocOf(fp, Norm(v));
    assert s == [] + Render(d) + [];
    ParsesText(s, [], d, []);
    NormProper(v);
    NormNorm(v);
    SameIffNorm(Norm(v), v);
  }

  lemma {:induction false} SortedStays(fs: Fields)
    requires Sorted(fs)
    ensures Sort(fs) == fs
  {
    if fs.Field? {
      SortedStays(fs.rest);
      assert fs.rest.Field? ==> fs.rest.name in Names(fs.rest);
    }
  }

  lemma {:induction false} NormNorm(v: Value)
    requires Proper(v)
    ensures Norm(Norm(v)) == Norm(v)
    decreases Size(v), 1
  {
    match v
    case List(items) => NormNormItems(items);
    case Object(fields) =>
      NormObject(fields);
      SortSorts(fields);
      SortedStays(NormFields(Sort(fields)));
      NormNormFields(Sort(fields));
    case _ =>
  }

  lemma {:induction false} NormNormItems(xs: Items)
    requires ProperItems(xs)
    ensures NormItems(NormItems(xs)) == NormItems(xs)
    decreases SizeItems(xs), 0
  {
    if xs.Cons? {
      NormNorm(xs.head);
      NormNormItems(xs.tail);
    }
  }

  lemma {:induction false} NormNormFields(fs: Fields)
    requires ProperFields(fs)
    ensures NormFields(NormFields(fs)) == NormFields(fs)
    decreases SizeFields(fs), 0
  {
    if fs.Field? {
      NormNorm(fs.value);
      NormNormFields(fs.rest);
    }
  }

  /** Two values have one canonical text exactly when they are equal up to member order and the sign of zero. */
  lemma CanonicalIffSame(fp: Numerals, v: Value, w: Value)
    requires Lawful(fp) && Proper(v) && Proper(w)
    requires Canonicalize(fp, v).Some? && Canonicalize(fp, w).Some?
    ensures Canonicalize(fp, v) == Canonicalize(fp, w) <==> Same(v, w)
  {
    SameIffNorm(v, w);
    CanonicalRenders(fp, v);
    CanonicalRenders(fp, w);
    CanonicalRoundTrip(fp, v);
    CanonicalRoundTrip(fp, w);
  }

  lemma {:induction false} CleanDoc(fp: Numerals, v: Value)
    requires Lawful(fp) && Plain(v) && Proper(v)
    ensures Valid(DocOf(fp, v)) && JsonScanner.NoDuplicates(DocOf(fp, v))
    decreases v
  {
    DocDenotes(fp, v);
    match v
    case List(items) => CleanElems(fp, items);
    case Object(fields) => CleanMembers(fp, fields);
    case _ =>
  }

  lemma {:induction false} CleanElems(fp: Numerals, xs: Items)
    requires Lawful(fp) && PlainItems(xs) && ProperItems(xs)
    ensures ValidElems(ElemsOf(fp, xs)) && JsonScanner.NoDuplicateElems(ElemsOf(fp, xs))
    decreases xs
  {
    if xs.Cons? {
      CleanDoc(fp, xs.head);
      CleanElems(fp, xs.tail);
    }
  }

  lemma {:induction false} CleanMembers(fp: Numerals, fs: Fields)
    requires Lawful(fp) && PlainFields(fs) && ProperFields(fs)
    ensures ValidMembers(MembersOf(fp, fs)) && JsonScanner.NoDuplicateMembers(MembersOf(fp, fs))
    ensures JsonScanner.Keys(MembersOf(fp, fs)) == Names(fs)
    decreases fs
  {
    if fs.Field? {
      CleanDoc(fp, fs.value);
      CleanMembers(fp, fs.rest);
    }
  }

  /** The strict parser accepts every canonical text, with no duplicate key to report. */
  lemma CanonicalPassesScan(fp: Numerals, v: Value)
    requires Lawful(fp) && Proper(v) && Canonicalize(fp, v).Some?
    ensures JsonScanner.ParseStrict(Canonicalize(fp, v).value) == Ok(DocOf(fp, Norm(v)))
  {
    CanonicalRenders(fp, v);
    NormProper(v);
    CleanDoc(fp, Norm(v));
    var s := Canonicalize(fp, v).value;
    assert s == [] + Render(DocOf(fp, Norm(v))) + [];
    JsonScanner.ScanIsExact(s, [], DocOf(fp, Norm(v)), []);
  }

  /** Finite numbers and well-formed text are all that canonicalization asks for. */
  ghost predicate Acceptable(v: Value)
    decreases v
  {
    match v
    case Num(x) => IsFinite(x)
    case String(s) => WellFormed(s)
    case List(items) => AcceptableItems(items)
    case Object(fields) => AcceptableFields(fields)
    case _ => true
  }

  ghost predicate AcceptableItems(xs: Items)
    decreases xs
  {
    xs.Cons? ==> Acceptable(xs.head) && AcceptableItems(xs.tail)
  }

  ghost predicate AcceptableFields(fs: Fields)
    decreases fs
  {
    fs.Field? ==> WellFormed(fs.name) && Acceptable(fs.value) && AcceptableFields(fs.rest)
  }

  lemma {:induction false} CanonicalDefined(fp: Numerals, v: Value)
    ensures Canonicalize(fp, v).Some? <==> Acceptable(v)
    decreases Size(v), 1
  {
    match v
    case List(items) => ItemsDefined(fp, items);
    case Object(fields) =>
      FieldsDefined(fp, Sort(fields));
      SortWellFormed(fields);
    case _ =>
  }

  lemma {:induction false} ItemsDefined(fp: Numerals, xs: Items)
    ensures JoinItems(fp, xs).Some? <==> AcceptableItems(xs)
    decreases SizeItems(xs), 0
  {
    if xs.Cons? {
      CanonicalDefined(fp, xs.head);
      ItemsDefined(fp, xs.tail);
    }
  }

  lemma {:induction false} FieldsDefined(fp: Numerals, fs: Fields)
    ensures JoinFields(fp, fs).Some? <==> AcceptableFields(fs)
    decreases SizeFields(fs), 0
  {
    if fs.Field? {
      CanonicalDefined(fp, fs.value);
      FieldsDefined(fp, fs.rest);
    }
  }

  lemma {:induction false} InsertWellFormed(name: Str, v: Value, fs: Fields)
    ensures AcceptableFields(Insert(name, v, fs)) <==>
      WellFormed(name) && Acceptable(v) && AcceptableFields(fs)
  {
    if fs.Field? && !Less(name, fs.name) {
      InsertWellFormed(name, v, fs.rest);
    }
  }

  lemma {:induction false} SortWellFormed(fs: Fields)
    ensures AcceptableFields(Sort(fs)) <==> AcceptableFields(fs)
  {
    if fs.Field? {
      SortWellFormed(fs.rest);
      InsertWellFormed(fs.name, fs.value, Sort(fs.rest));
    }
  }

  // ------------------------------------------------------------ the laws of numerals can be met

  function Chars(s: Str): string
    requires forall i :: 0 <= i < |s| ==> s[i] < 128
  {
    seq(|s|, i requires 0 <= i < |s| => s[i] as char)
  }

  /** A stand-in for ECMAScript's numerals: the bits of a number, in decimal. */
  function BitsText(x: Double): Str {
    Units(DecimalOf(Unsign(x)))
  }

  function BitsValue(s: Str): Double {
    if DigitRun(s) < |s| then 0
    else
      var n: int := ParseDecimal(Chars(s));
      if n < 0x1_0000_0000_0000_0000 then n else 0
  }

  lemma {:induction false} DigitRunWhole(s: Str)
    requires forall i :: 0 <= i < |s| ==> Digit(s[i])
    ensures DigitRun(s) == |s|
  {
    if s != [] {
      DigitRunWhole(s[1..]);
    }
  }

  lemma {:induction false} NoLeadingZero(n: nat)
    ensures n > 0 ==> DecimalOf(n)[0] != '0'
    ensures n == 0 ==> DecimalOf(n) == "0"
  {
    if n >= 10 {
      NoLeadingZero(n / 10);
    }
  }

  /** The laws asked of numerals are consistent. */
  lemma BitsAreLawful()
    ensures Lawful(Numerals(BitsText, BitsValue))
  {
    hide IsFinite, DecimalOf, ParseDecimal;
    forall x: Double
      ensures NumberLaw(Numerals(BitsText, BitsValue), x)
    {
      var t := BitsText(x);
      NoLeadingZero(Unsign(x));
      DigitRunWhole(t);
      assert t[|t|..] == [] && Chars(t) == DecimalOf(Unsign(x));
      DecimalRoundTrip(Unsign(x));
    }
  }
}
