/** The RFC 8259 grammar as syntax trees that remember every character, and a parser that inverts rendering. */
module JsonGrammar {
  import opened Common

  /** One UTF-16 code unit; a JavaScript string is a sequence of them. */
  type unit = u: int | 0 <= u < 0x10000
  type Str = seq<unit>

  const QUOTE: unit := 0x22
  const BACKSLASH: unit := 0x5c
  const OPEN_BRACE: unit := 0x7b
  const CLOSE_BRACE: unit := 0x7d
  const OPEN_BRACKET: unit := 0x5b
  const CLOSE_BRACKET: unit := 0x5d
  const COMMA: unit := 0x2c
  const COLON: unit := 0x3a
  const LOWER_U: unit := 0x75

  predicate IsSpace(u: unit) {
    u == 0x20 || u == 0x09 || u == 0x0a || u == 0x0d
  }

  predicate Blank(s: Str) {
    forall i :: 0 <= i < |s| ==> IsSpace(s[i])
  }

  /** Characters that end a literal: white space and the structural closers and separator. */
  predicate Delimiter(u: unit) {
    IsSpace(u) || u == COMMA || u == CLOSE_BRACKET || u == CLOSE_BRACE
  }

  predicate Ends(s: Str) {
    s == [] || Delimiter(s[0])
  }

  // ------------------------------------------------------------ strings

  predicate HexDigit(u: unit) {
    0x30 <= u <= 0x39 || 0x41 <= u <= 0x46 || 0x61 <= u <= 0x66
  }

  function HexValue(u: unit): (v: int)
    requires HexDigit(u)
    ensures 0 <= v < 16
  {
    if u <= 0x39 then u - 0x30 else if u <= 0x46 then u - 0x41 + 10 else u - 0x61 + 10
  }

  /** The character a two-character escape stands for: \" \\ \/ \b \f \n \r \t. */
  function Unescape(u: unit): Option<unit> {
    if u == QUOTE || u == BACKSLASH || u == 0x2f then Some(u)
    else if u == 0x62 then Some(0x08)
    else if u == 0x66 then Some(0x0c)
    else if u == 0x6e then Some(0x0a)
    else if u == 0x72 then Some(0x0d)
    else if u == 0x74 then Some(0x09)
    else None
  }

  datatype Piece =
    | Raw(u: unit)
    | Short(e: unit)
    | Hex(a: unit, b: unit, c: unit, d: unit)
  {
    predicate Valid() {
      match this
      case Raw(u) => u >= 0x20 && u != QUOTE && u != BACKSLASH
      case Short(e) => Unescape(e).Some?
      case Hex(a, b, c, d) => HexDigit(a) && HexDigit(b) && HexDigit(c) && HexDigit(d)
    }

    function Source(): (s: Str)
      ensures |s| > 0
    {
      match this
      case Raw(u) => [u]
      case Short(e) => [BACKSLASH, e]
      case Hex(a, b, c, d) => [BACKSLASH, LOWER_U, a, b, c, d]
    }

    function Decoded(): unit
      requires Valid()
    {
      match this
      case Raw(u) => u
      case Short(e) => Unescape(e).value
      case Hex(a, b, c, d) => 4096 * HexValue(a) + 256 * HexValue(b) + 16 * HexValue(c) + HexValue(d)
    }
  }

  predicate ValidPieces(ps: seq<Piece>) {
    forall i :: 0 <= i < |ps| ==> ps[i].Valid()
  }

  function PiecesSource(ps: seq<Piece>): Str {
    if ps == [] then [] else ps[0].Source() + PiecesSource(ps[1..])
  }

  function Decode(ps: seq<Piece>): (s: Str)
    requires ValidPieces(ps)
    ensures |s| == |ps|
  {
    seq(|ps|, i requires 0 <= i < |ps| => ps[i].Decoded())
  }

  // ------------------------------------------------------------ literals

  predicate Digit(u: unit) {
    0x30 <= u <= 0x39
  }

  function DigitRun(s: Str): (n: nat)
    ensures n <= |s| && forall i :: 0 <= i < n ==> Digit(s[i])
    ensures n < |s| ==> !Digit(s[n])
  {
    if s == [] || !Digit(s[0]) then 0 else 1 + DigitRun(s[1..])
  }

  /** exp = e [ minus / plus ] 1*DIGIT, or nothing. */
  predicate IsExponent(s: Str) {
    s == [] || ((s[0] == 0x65 || s[0] == 0x45) &&
                var t := s[1..];
                var u := if t != [] && (t[0] == 0x2b || t[0] == 0x2d) then t[1..] else t;
                u != [] && DigitRun(u) == |u|)
  }

  /** frac = . 1*DIGIT, then an exponent. */
  predicate IsFraction(s: Str) {
    if s != [] && s[0] == 0x2e then
      var t := s[1..];
      DigitRun(t) > 0 && IsExponent(t[DigitRun(t)..])
    else IsExponent(s)
  }

  function Unsigned(s: Str): Str {
    if s != [] && s[0] == 0x2d then s[1..] else s
  }

  /** number = [ minus ] int [ frac ] [ exp ], with no leading zero in int. */
  predicate IsNumber(s: Str) {
    var t := Unsigned(s);
    var n := DigitRun(t);
    n > 0 && (t[0] == 0x30 ==> n == 1) && IsFraction(t[n..])
  }

  const NULL: Str := [0x6e, 0x75, 0x6c, 0x6c]
  const TRUE: Str := [0x74, 0x72, 0x75, 0x65]
  const FALSE: Str := [0x66, 0x61, 0x6c, 0x73, 0x65]

  /** A literal is one of three words or a number; either way it holds no delimiter and opens nothing. */
  predicate IsLiteral(s: Str) {
    && (s == NULL || s == TRUE || s == FALSE || IsNumber(s))
    && s != [] && s[0] != QUOTE && s[0] != OPEN_BRACE && s[0] != OPEN_BRACKET
    && forall i :: 0 <= i < |s| ==> !Delimiter(s[i])
  }

  lemma NumberChars(s: Str)
    requires IsNumber(s)
    ensures IsLiteral(s)
  {
    var t := Unsigned(s);
    var n := DigitRun(t);
    var rest := t[n..];
    FractionChars(rest);
    hide IsFraction, DigitRun;
    forall i | 0 <= i < |t|
      ensures !Delimiter(t[i])
    {
      assert i >= n ==> t[i] == rest[i - n];
    }
    assert s == t || s == [0x2d] + t;
    assert Digit(t[0]);
  }

  /** The side conditions on a literal cost nothing: the three words and the numbers all meet them. */
  lemma LiteralIsWordOrNumber(s: Str)
    ensures IsLiteral(s) <==> s == NULL || s == TRUE || s == FALSE || IsNumber(s)
  {
    if IsNumber(s) {
      NumberChars(s);
    }
  }

  lemma FractionChars(s: Str)
    requires IsFraction(s)
    ensures forall i :: 0 <= i < |s| ==> !Delimiter(s[i])
  {
    hide IsExponent;
    if s != [] && s[0] == 0x2e {
      var t := s[1..];
      ExponentChars(t[DigitRun(t)..]);
      assert s == [0x2e] + t[..DigitRun(t)] + t[DigitRun(t)..];
    } else {
      ExponentChars(s);
    }
  }

  lemma ExponentChars(s: Str)
    requires IsExponent(s)
    ensures forall i :: 0 <= i < |s| ==> !Delimiter(s[i])
  {
    if s != [] {
      var t := s[1..];
      if t != [] && (t[0] == 0x2b || t[0] == 0x2d) {
        assert s == [s[0], t[0]] + t[1..];
      } else {
        assert s == [s[0]] + t;
      }
    }
  }

  // ------------------------------------------------------------ trees

  datatype Doc =
    | Literal(text: Str)
    | Text(pieces: seq<Piece>)
    | Arr(inner: Str, elems: Elems)
    | Obj(inner: Str, members: Members)

  datatype Elems = NoElems | Elem(before: Str, value: Doc, after: Str, rest: Elems)

  datatype Members =
    | NoMembers
    | Member(before: Str, key: seq<Piece>, beforeColon: Str, afterColon: Str, value: Doc, after: Str, rest: Members)

  predicate Valid(d: Doc) {
    match d
    case Literal(text) => IsLiteral(text)
    case Text(pieces) => ValidPieces(pieces)
    case Arr(inner, elems) => Blank(inner) && (elems.NoElems? || inner == []) && ValidElems(elems)
    case Obj(inner, members) => Blank(inner) && (members.NoMembers? || inner == []) && ValidMembers(members)
  }

  predicate ValidElems(es: Elems) {
    es.Elem? ==> Blank(es.before) && Valid(es.value) && Blank(es.after) && ValidElems(es.rest)
  }

  predicate ValidMembers(ms: Members) {
    ms.Member? ==>
      && Blank(ms.before) && ValidPieces(ms.key) && Blank(ms.beforeColon)
      && Blank(ms.afterColon) && Valid(ms.value) && Blank(ms.after) && ValidMembers(ms.rest)
  }

  function RenderText(ps: seq<Piece>): Str {
    [QUOTE] + PiecesSource(ps) + [QUOTE]
  }

  /** The text a tree was read from. */
  function Render(d: Doc): Str {
    match d
    case Literal(text) => text
    case Text(pieces) => RenderText(pieces)
    case Arr(inner, elems) => [OPEN_BRACKET] + inner + RenderElems(elems) + [CLOSE_BRACKET]
    case Obj(inner, members) => [OPEN_BRACE] + inner + RenderMembers(members) + [CLOSE_BRACE]
  }

  function RenderElems(es: Elems): Str {
    if es.NoElems? then []
    else es.before + Render(es.value) + es.after + (if es.rest.NoElems? then [] else [COMMA] + RenderElems(es.rest))
  }

  function RenderMembers(ms: Members): Str {
    if ms.NoMembers? then []
    else ms.before + RenderText(ms.key) + ms.beforeColon + [COLON] + ms.afterColon + Render(ms.value) + ms.after
         + (if ms.rest.NoMembers? then [] else [COMMA] + RenderMembers(ms.rest))
  }

  // ------------------------------------------------------------ the parser

  function SkipSpace(s: Str): (r: Str)
    ensures |r| <= |s|
    ensures r != [] ==> !IsSpace(r[0])
  {
    if s != [] && IsSpace(s[0]) then SkipSpace(s[1..]) else s
  }

  /** The blanks in front of `s`. */
  function Spaces(s: Str): Str {
    s[..|s| - |SkipSpace(s)|]
  }

  lemma {:induction false} SpacesAreBlank(s: Str)
    ensures Blank(Spaces(s)) && s == Spaces(s) + SkipSpace(s)
  {
    if s != [] && IsSpace(s[0]) {
      SpacesAreBlank(s[1..]);
      assert Spaces(s) == [s[0]] + Spaces(s[1..]);
      assert s == [s[0]] + s[1..];
    }
  }

  lemma {:induction false} SkipsBlank(w: Str, s: Str)
    requires Blank(w) && (s == [] || !IsSpace(s[0]))
    ensures SkipSpace(w + s) == s && Spaces(w + s) == w
  {
    if w == [] {
      assert w + s == s;
    } else {
      assert Blank(w[1..]);
      SkipsBlank(w[1..], s);
      assert (w + s)[1..] == w[1..] + s;
    }
  }

  /** `s` after its run of non-delimiters. */
  function SkipLiteral(s: Str): (r: Str)
    ensures |r| <= |s| && Ends(r)
  {
    if s == [] || Delimiter(s[0]) then s else SkipLiteral(s[1..])
  }

  lemma {:induction false} LiteralRun(s: Str)
    ensures s == s[..|s| - |SkipLiteral(s)|] + SkipLiteral(s)
  {
    if s != [] && !Delimiter(s[0]) {
      LiteralRun(s[1..]);
      var n := |s| - |SkipLiteral(s)|;
      assert s[..n] == [s[0]] + s[1..][..n - 1];
      assert s == [s[0]] + s[1..];
    }
  }

  lemma {:induction false} SkipsLiteral(t: Str, s: Str)
    requires Ends(s) && forall i :: 0 <= i < |t| ==> !Delimiter(t[i])
    ensures SkipLiteral(t + s) == s
  {
    if t == [] {
      assert t + s == s;
    } else {
      assert forall i :: 0 <= i < |t[1..]| ==> t[1..][i] == t[i + 1];
      SkipsLiteral(t[1..], s);
      assert (t + s)[1..] == t[1..] + s;
    }
  }

  /** The first piece of a string body; None when it is no legal piece. */
  function FirstPiece(s: Str): (r: Option<Piece>)
    requires s != []
    ensures r.Some? ==> r.value.Valid() && |r.value.Source()| <= |s|
  {
    var piece :=
      if s[0] != BACKSLASH then Raw(s[0])
      else if |s| >= 6 && s[1] == LOWER_U then Hex(s[2], s[3], s[4], s[5])
      else if |s| >= 2 then Short(s[1])
      else Raw(s[0]);
    if piece.Valid() then Some(piece) else None
  }

  lemma FirstPieceIs(piece: Piece, tail: Str)
    requires piece.Valid()
    ensures FirstPiece(piece.Source() + tail) == Some(piece) && piece.Source()[0] != QUOTE
  {
  }

  lemma FirstPieceSource(s: Str)
    requires s != [] && FirstPiece(s).Some?
    ensures s == FirstPiece(s).value.Source() + s[|FirstPiece(s).value.Source()|..]
  {
  }

  /** The pieces up to the closing quote, and what follows it; `s` starts just after the opening quote. */
  function ParsePieces(s: Str): (r: Option<(seq<Piece>, Str)>)
    ensures r.Some? ==> |r.value.1| < |s|
    decreases |s|
  {
    if s == [] then None
    else if s[0] == QUOTE then Some(([], s[1..]))
    else
      var piece := FirstPiece(s);
      if piece.None? then None
      else
        var rest := ParsePieces(s[|piece.value.Source()|..]);
        if rest.None? then None else Some(([piece.value] + rest.value.0, rest.value.1))
  }

  lemma {:induction false} ParsesPieces(ps: seq<Piece>, post: Str)
    requires ValidPieces(ps)
    ensures ParsePieces(PiecesSource(ps) + [QUOTE] + post) == Some((ps, post))
  {
    hide FirstPiece;
    var s := PiecesSource(ps) + [QUOTE] + post;
    if ps != [] {
      var piece := ps[0];
      var tail := PiecesSource(ps[1..]) + [QUOTE] + post;
      assert s == piece.Source() + tail;
      FirstPieceIs(piece, tail);
      assert s[0] == piece.Source()[0];
      assert s[|piece.Source()|..] == tail;
      ParsesPieces(ps[1..], post);
      assert [piece] + ps[1..] == ps;
    }
  }

  function ParseString(s: Str): (r: Option<(seq<Piece>, Str)>)
    ensures r.Some? ==> |r.value.1| < |s|
  {
    if s == [] || s[0] != QUOTE then None else ParsePieces(s[1..])
  }

  lemma ParsesString(ps: seq<Piece>, post: Str)
    requires ValidPieces(ps)
    ensures ParseString(RenderText(ps) + post) == Some((ps, post))
  {
    ParsesPieces(ps, post);
    assert (RenderText(ps) + post)[1..] == PiecesSource(ps) + [QUOTE] + post;
  }

  /** One value and what follows it. */
  function ParseValue(s: Str): (r: Option<(Doc, Str)>)
    ensures r.Some? ==> |r.value.1| < |s|
    decreases |s|, 0
  {
    if s == [] then None
    else if s[0] == QUOTE then
      var p := ParseString(s);
      if p.None? then None else Some((Text(p.value.0), p.value.1))
    else if s[0] == OPEN_BRACKET then
      var t := SkipSpace(s[1..]);
      if t != [] && t[0] == CLOSE_BRACKET then Some((Arr(Spaces(s[1..]), NoElems), t[1..]))
      else
        var es := ParseElems(s[1..]);
        if es.None? then None else Some((Arr([], es.value.0), es.value.1))
    else if s[0] == OPEN_BRACE then
      var t := SkipSpace(s[1..]);
      if t != [] && t[0] == CLOSE_BRACE then Some((Obj(Spaces(s[1..]), NoMembers), t[1..]))
      else
        var ms := ParseMembers(s[1..]);
        if ms.None? then None else Some((Obj([], ms.value.0), ms.value.1))
    else
      var rest := SkipLiteral(s);
      var text := s[..|s| - |rest|];
      if IsLiteral(text) then Some((Literal(text), rest)) else None
  }

  function ParseElems(s: Str): (r: Option<(Elems, Str)>)
    ensures r.Some? ==> |r.value.1| < |s|
    decreases |s|, 1
  {
    var value := ParseValue(SkipSpace(s));
    if value.None? then None
    else
      var t := SkipSpace(value.value.1);
      var after := Spaces(value.value.1);
      if t == [] then None
      else if t[0] == CLOSE_BRACKET then Some((Elem(Spaces(s), value.value.0, after, NoElems), t[1..]))
      else if t[0] != COMMA then None
      else
        var rest := ParseElems(t[1..]);
        if rest.None? then None else Some((Elem(Spaces(s), value.value.0, after, rest.value.0), rest.value.1))
  }

  /** The key and colon of a member, and the blanks around them. */
  function ParseKey(s: Str): (r: Option<((Str, seq<Piece>, Str, Str), Str)>)
    ensures r.Some? ==> |r.value.1| < |s|
  {
    var key := ParseString(SkipSpace(s));
    if key.None? then None
    else
      var t := SkipSpace(key.value.1);
      if t == [] || t[0] != COLON then None
      else Some(((Spaces(s), key.value.0, Spaces(key.value.1), Spaces(t[1..])), SkipSpace(t[1..])))
  }

  function ParseMembers(s: Str): (r: Option<(Members, Str)>)
    ensures r.Some? ==> |r.value.1| < |s|
    decreases |s|, 1
  {
    var key := ParseKey(s);
    if key.None? then None
    else
      var (before, name, beforeColon, afterColon) := key.value.0;
      var value := ParseValue(key.value.1);
      if value.None? then None
      else
        var t := SkipSpace(value.value.1);
        var after := Spaces(value.value.1);
        if t == [] then None
        else if t[0] == CLOSE_BRACE then
          Some((Member(before, name, beforeColon, afterColon, value.value.0, after, NoMembers), t[1..]))
        else if t[0] != COMMA then None
        else
          var rest := ParseMembers(t[1..]);
          if rest.None? then None
          else Some((Member(before, name, beforeColon, afterColon, value.value.0, after, rest.value.0), rest.value.1))
  }

  /** JSON-text = ws value ws. */
  function ParseText(s: Str): Option<Doc> {
    var value := ParseValue(SkipSpace(s));
    if value.Some? && SkipSpace(value.value.1) == [] then Some(value.value.0) else None
  }

  // ------------------------------------------------------------ completeness

  lemma RenderStart(d: Doc)
    requires Valid(d)
    ensures Render(d) != [] && !IsSpace(Render(d)[0]) && !Delimiter(Render(d)[0])
  {
  }

  lemma RenderElemsStart(es: Elems, post: Str)
    requires ValidElems(es) && es.Elem?
    ensures var t := SkipSpace(RenderElems(es) + post);
            t != [] && t[0] != CLOSE_BRACKET
  {
    hide Render, Valid;
    RenderStart(es.value);
    var more := es.after + (if es.rest.NoElems? then [] else [COMMA] + RenderElems(es.rest)) + post;
    assert RenderElems(es) + post == es.before + (Render(es.value) + more);
    SkipsBlank(es.before, Render(es.value) + more);
  }

  lemma RenderMembersStart(ms: Members, post: Str)
    requires ValidMembers(ms) && ms.Member?
    ensures var t := SkipSpace(RenderMembers(ms) + post);
            t != [] && t[0] != CLOSE_BRACE
  {
    var more := RenderMembers(ms)[|ms.before|..] + post;
    assert RenderMembers(ms) + post == ms.before + more;
    assert more[0] == QUOTE;
    SkipsBlank(ms.before, more);
  }

  /** Every rendering of a valid tree parses back to that very tree, so the grammar is unambiguous. */
  lemma {:induction false} ParsesValue(d: Doc, post: Str)
    requires Valid(d) && Ends(post)
    ensures ParseValue(Render(d) + post) == Some((d, post))
    decreases d, 2
  {
    hide ParseElems, ParseMembers, RenderElems, RenderMembers;
    var s := Render(d) + post;
    match d
    case Literal(text) =>
      SkipsLiteral(text, post);
      assert s[..|s| - |post|] == text;
    case Text(pieces) =>
      ParsesString(pieces, post);
    case Arr(inner, elems) =>
      ParsesArr(inner, elems, post);
    case Obj(inner, members) =>
      ParsesObj(inner, members, post);
  }

  lemma {:induction false} ParsesArr(inner: Str, elems: Elems, post: Str)
    requires Valid(Arr(inner, elems)) && Ends(post)
    ensures ParseValue(Render(Arr(inner, elems)) + post) == Some((Arr(inner, elems), post))
    decreases elems, 1
  {
    hide ParseElems, RenderElems, ValidElems, IsLiteral, SkipLiteral, ParseString;
    var s := Render(Arr(inner, elems)) + post;
    if elems.NoElems? {
      assert RenderElems(elems) == [] by { NoElemsRender(); }
      assert s[1..] == inner + ([CLOSE_BRACKET] + post);
      SkipsBlank(inner, [CLOSE_BRACKET] + post);
    } else {
      assert s[1..] == RenderElems(elems) + ([CLOSE_BRACKET] + post);
      RenderElemsStart(elems, [CLOSE_BRACKET] + post);
      ParsesElems(elems, post);
    }
  }

  lemma {:induction false} ParsesObj(inner: Str, members: Members, post: Str)
    requires Valid(Obj(inner, members)) && Ends(post)
    ensures ParseValue(Render(Obj(inner, members)) + post) == Some((Obj(inner, members), post))
    decreases members, 1
  {
    hide ParseMembers, RenderMembers, ValidMembers, IsLiteral, SkipLiteral, ParseString;
    var s := Render(Obj(inner, members)) + post;
    if members.NoMembers? {
      assert RenderMembers(members) == [] by { NoMembersRender(); }
      assert s[1..] == inner + ([CLOSE_BRACE] + post);
      SkipsBlank(inner, [CLOSE_BRACE] + post);
    } else {
      assert s[1..] == RenderMembers(members) + ([CLOSE_BRACE] + post);
      RenderMembersStart(members, [CLOSE_BRACE] + post);
      ParsesMembers(members, post);
    }
  }

  lemma NoElemsRender()
    ensures RenderElems(NoElems) == []
  {
  }

  lemma NoMembersRender()
    ensures RenderMembers(NoMembers) == []
  {
  }

  lemma {:induction false} ParsesElems(es: Elems, post: Str)
    requires ValidElems(es) && es.Elem?
    ensures ParseElems(RenderElems(es) + ([CLOSE_BRACKET] + post)) == Some((es, post))
    decreases es, 0
  {
    hide ParseValue, IsLiteral, Render, SkipSpace, Spaces, Valid, ParseMembers;
    var s := RenderElems(es) + ([CLOSE_BRACKET] + post);
    var closing := if es.rest.NoElems? then [CLOSE_BRACKET] + post
                   else [COMMA] + (RenderElems(es.rest) + ([CLOSE_BRACKET] + post));
    var following := es.after + closing;
    RenderStart(es.value);
    assert s == es.before + (Render(es.value) + following);
    SkipsBlank(es.before, Render(es.value) + following);
    ParsesValue(es.value, following);
    SkipsBlank(es.after, closing);
    if es.rest.Elem? {
      ParsesElems(es.rest, post);
      assert closing[1..] == RenderElems(es.rest) + ([CLOSE_BRACKET] + post);
    } else {
      assert closing[1..] == post;
    }
  }

  lemma ParsesKey(ms: Members, following: Str)
    requires ValidMembers(ms) && ms.Member? && following != [] && !IsSpace(following[0])
    ensures ParseKey(ms.before + RenderText(ms.key) + ms.beforeColon + [COLON] + ms.afterColon + following)
            == Some(((ms.before, ms.key, ms.beforeColon, ms.afterColon), following))
  {
    var tail := [COLON] + (ms.afterColon + following);
    var s := ms.before + RenderText(ms.key) + ms.beforeColon + [COLON] + ms.afterColon + following;
    assert s == ms.before + (RenderText(ms.key) + (ms.beforeColon + tail));
    SkipsBlank(ms.before, RenderText(ms.key) + (ms.beforeColon + tail));
    ParsesString(ms.key, ms.beforeColon + tail);
    SkipsBlank(ms.beforeColon, tail);
    assert tail[1..] == ms.afterColon + following;
    SkipsBlank(ms.afterColon, following);
  }

  lemma {:induction false} ParsesMembers(ms: Members, post: Str)
    requires ValidMembers(ms) && ms.Member?
    ensures ParseMembers(RenderMembers(ms) + ([CLOSE_BRACE] + post)) == Some((ms, post))
    decreases ms, 0
  {
    hide ParseValue, ParseKey, IsLiteral, Render, RenderText, SkipSpace, Spaces, ValidPieces, Valid, ParseElems;
    var s := RenderMembers(ms) + ([CLOSE_BRACE] + post);
    var closing := if ms.rest.NoMembers? then [CLOSE_BRACE] + post
                   else [COMMA] + (RenderMembers(ms.rest) + ([CLOSE_BRACE] + post));
    var following := ms.after + closing;
    RenderStart(ms.value);
    var valueOn := Render(ms.value) + following;
    assert s == ms.before + RenderText(ms.key) + ms.beforeColon + [COLON] + ms.afterColon + valueOn;
    ParsesKey(ms, valueOn);
    ParsesValue(ms.value, following);
    SkipsBlank(ms.after, closing);
    if ms.rest.Member? {
      ParsesMembers(ms.rest, post);
      assert closing[1..] == RenderMembers(ms.rest) + ([CLOSE_BRACE] + post);
    } else {
      assert closing[1..] == post;
    }
  }

  /** The grammar's texts: blanks, a value, blanks. */
  predicate IsJson(s: Str, before: Str, d: Doc, after: Str) {
    Blank(before) && Blank(after) && Valid(d) && s == before + Render(d) + after
  }

  lemma ParsesText(s: Str, before: Str, d: Doc, after: Str)
    requires IsJson(s, before, d, after)
    ensures ParseText(s) == Some(d) && SkipSpace(s) == Render(d) + after
    ensures ParseValue(SkipSpace(s)) == Some((d, after)) && SkipSpace(after) == []
  {
    RenderStart(d);
    assert s == before + (Render(d) + after);
    SkipsBlank(before, Render(d) + after);
    assert Ends(after);
    ParsesValue(d, after);
    SkipsBlank(after, []);
    assert after + [] == after;
  }

  // ------------------------------------------------------------ soundness

  lemma {:induction false} PiecesSound(s: Str)
    requires ParsePieces(s).Some?
    ensures ValidPieces(ParsePieces(s).value.0)
    ensures s == PiecesSource(ParsePieces(s).value.0) + [QUOTE] + ParsePieces(s).value.1
    decreases |s|
  {
    hide FirstPiece;
    if s[0] == QUOTE {
      assert s == [] + [QUOTE] + s[1..];
    } else {
      var piece := FirstPiece(s).value;
      var tail := s[|piece.Source()|..];
      FirstPieceSource(s);
      PiecesSound(tail);
      var rest := ParsePieces(tail).value;
      assert ([piece] + rest.0)[1..] == rest.0;
    }
  }

  lemma StringSound(s: Str)
    requires ParseString(s).Some?
    ensures ValidPieces(ParseString(s).value.0)
    ensures s == RenderText(ParseString(s).value.0) + ParseString(s).value.1
  {
    PiecesSound(s[1..]);
    assert s == [QUOTE] + s[1..];
  }

  lemma KeySound(s: Str)
    requires ParseKey(s).Some?
    ensures var ((before, key, beforeColon, afterColon), rest) := ParseKey(s).value;
            && Blank(before) && ValidPieces(key) && Blank(beforeColon) && Blank(afterColon)
            && s == before + RenderText(key) + beforeColon + [COLON] + afterColon + rest
  {
    hide SkipSpace, Spaces, Blank, ParseString, RenderText, ValidPieces;
    var t := SkipSpace(s);
    SpacesAreBlank(s);
    StringSound(t);
    var u := ParseString(t).value.1;
    SpacesAreBlank(u);
    var v := SkipSpace(u);
    SpacesAreBlank(v[1..]);
    assert v == [COLON] + v[1..];
  }

  lemma EmptyArray(inner: Str)
    requires Blank(inner)
    ensures Valid(Arr(inner, NoElems)) && Render(Arr(inner, NoElems)) == [OPEN_BRACKET] + inner + [CLOSE_BRACKET]
  {
  }

  lemma EmptyObject(inner: Str)
    requires Blank(inner)
    ensures Valid(Obj(inner, NoMembers)) && Render(Obj(inner, NoMembers)) == [OPEN_BRACE] + inner + [CLOSE_BRACE]
  {
  }

  /** What the parser accepts is in the grammar, and its tree renders back to exactly the text consumed. */
  lemma {:induction false} ValueSound(s: Str)
    requires ParseValue(s).Some?
    ensures Valid(ParseValue(s).value.0) && s == Render(ParseValue(s).value.0) + ParseValue(s).value.1
    decreases |s|, 0
  {
    hide ParseElems, ParseMembers, IsLiteral, ParseString, SkipSpace, Spaces, SkipLiteral;
    hide RenderElems, RenderMembers, ValidElems, ValidMembers;
    if s[0] == QUOTE {
      StringSound(s);
    } else if s[0] == OPEN_BRACKET {
      var t := SkipSpace(s[1..]);
      assert s == [OPEN_BRACKET] + s[1..];
      SpacesAreBlank(s[1..]);
      if t != [] && t[0] == CLOSE_BRACKET {
        assert t == [CLOSE_BRACKET] + t[1..];
        EmptyArray(Spaces(s[1..]));
      } else {
        ElemsSound(s[1..]);
      }
    } else if s[0] == OPEN_BRACE {
      var t := SkipSpace(s[1..]);
      assert s == [OPEN_BRACE] + s[1..];
      SpacesAreBlank(s[1..]);
      if t != [] && t[0] == CLOSE_BRACE {
        assert t == [CLOSE_BRACE] + t[1..];
        EmptyObject(Spaces(s[1..]));
      } else {
        MembersSound(s[1..]);
      }
    } else {
      LiteralRun(s);
    }
  }

  lemma {:induction false} ElemsSound(s: Str)
    requires ParseElems(s).Some?
    ensures ValidElems(ParseElems(s).value.0) && ParseElems(s).value.0.Elem?
    ensures s == RenderElems(ParseElems(s).value.0) + [CLOSE_BRACKET] + ParseElems(s).value.1
    decreases |s|, 1
  {
    hide ParseValue, Valid, Render, SkipSpace, Spaces, Blank;
    SpacesAreBlank(s);
    ValueSound(SkipSpace(s));
    var value := ParseValue(SkipSpace(s)).value;
    SpacesAreBlank(value.1);
    var t := SkipSpace(value.1);
    assert t == [t[0]] + t[1..];
    if t[0] == COMMA {
      ElemsSound(t[1..]);
    }
  }

  lemma {:induction false} MembersSound(s: Str)
    requires ParseMembers(s).Some?
    ensures ValidMembers(ParseMembers(s).value.0) && ParseMembers(s).value.0.Member?
    ensures s == RenderMembers(ParseMembers(s).value.0) + [CLOSE_BRACE] + ParseMembers(s).value.1
    decreases |s|, 1
  {
    hide ParseValue, ParseKey, Valid, Render, RenderText, SkipSpace, Spaces, Blank, ValidPieces;
    KeySound(s);
    var key := ParseKey(s).value;
    ValueSound(key.1);
    var value := ParseValue(key.1).value;
    SpacesAreBlank(value.1);
    var t := SkipSpace(value.1);
    assert t == [t[0]] + t[1..];
    if t[0] == COMMA {
      MembersSound(t[1..]);
    }
  }

  /** The parser decides the grammar: it answers a tree exactly for the texts that have one, and that one. */
  lemma ParserDecidesGrammar(s: Str, d: Doc)
    ensures ParseText(s) == Some(d) <==> exists before, after :: IsJson(s, before, d, after)
  {
    hide ParseValue, Valid, Render, SkipSpace, Blank;
    if before, after :| IsJson(s, before, d, after) {
      ParsesText(s, before, d, after);
    }
    if ParseText(s) == Some(d) {
      var after := ParseValue(SkipSpace(s)).value.1;
      SpacesAreBlank(s);
      ValueSound(SkipSpace(s));
      SpacesAreBlank(after);
      assert Spaces(after) == after;
      assert IsJson(s, Spaces(s), d, after);
    }
  }
}
