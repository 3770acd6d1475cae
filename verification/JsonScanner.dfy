/** The duplicate-key scan: a lenient cursor that is right on every text the grammar accepts. */
module JsonScanner {
  import opened Common
  import opened JsonGrammar

  datatype ScanError = Unterminated | BadEscape | DuplicateKey(key: Str)

  /** Advance over one character, whatever it is; past the end there is nothing to advance over. */
  function Advance(s: Str): (r: Str)
    ensures |r| <= |s| && (s != [] ==> |r| < |s|)
  {
    if s == [] then [] else s[1..]
  }

  function At(s: Str, u: unit): bool {
    s != [] && s[0] == u
  }

  /** `JSON.parse` of the quoted escape the cursor stands on: its character, and how far the cursor moves. */
  function ScanEscape(s: Str): (r: Option<(unit, nat)>)
    ensures r.Some? ==> 0 < r.value.1 <= |s|
  {
    if |s| >= 2 && s[1] == LOWER_U then
      if |s| >= 6 && Hex(s[2], s[3], s[4], s[5]).Valid() then Some((Hex(s[2], s[3], s[4], s[5]).Decoded(), 6)) else None
    else if |s| >= 2 && Unescape(s[1]).Some? then Some((Unescape(s[1]).value, 2))
    else None
  }

  /** From just after the opening quote: the decoded string, and what follows the closing quote. */
  function ScanString(s: Str): (r: Result<(Str, Str), ScanError>)
    ensures r.Ok? ==> |r.value.1| < |s|
    decreases |s|
  {
    if s == [] then Err(Unterminated)
    else if s[0] == QUOTE then Ok(([], s[1..]))
    else if s[0] == BACKSLASH then
      var escape := ScanEscape(s);
      if escape.None? then Err(BadEscape)
      else
        After([escape.value.0], ScanString(s[escape.value.1..]))
    else After([s[0]], ScanString(s[1..]))
  }

  /** The string read so far, and the rest of it still to come. */
  function After(out: Str, rest: Result<(Str, Str), ScanError>): Result<(Str, Str), ScanError> {
    match rest
    case Err(e) => Err(e)
    case Ok(read) => Ok((out + read.0, read.1))
  }

  lemma AfterNothing(rest: Result<(Str, Str), ScanError>)
    ensures After([], rest) == rest
  {
    assert rest.Ok? ==> [] + rest.value.0 == rest.value.0;
  }

  lemma AfterOne(out: Str, u: unit, rest: Result<(Str, Str), ScanError>)
    ensures After(out, After([u], rest)) == After(out + [u], rest)
  {
    assert rest.Ok? ==> out + ([u] + rest.value.0) == out + [u] + rest.value.0;
  }

  /** What is left of the text after one value. */
  function ScanValue(s: Str): (r: Result<Str, ScanError>)
    ensures r.Ok? ==> |r.value| <= |s|
    decreases |s|, 0
  {
    var t := SkipSpace(s);
    if At(t, OPEN_BRACE) then
      var u := SkipSpace(t[1..]);
      if At(u, CLOSE_BRACE) then Ok(u[1..]) else ScanMembers(u, {})
    else if At(t, OPEN_BRACKET) then
      var u := SkipSpace(t[1..]);
      if At(u, CLOSE_BRACKET) then Ok(u[1..]) else ScanElems(u)
    else if At(t, QUOTE) then
      var name :- ScanString(t[1..]);
      Ok(name.1)
    else Ok(SkipLiteral(t))
  }

  function ScanElems(s: Str): (r: Result<Str, ScanError>)
    ensures r.Ok? ==> |r.value| <= |s|
    decreases |s|, 1
  {
    var value :- ScanValue(s);
    var t := SkipSpace(value);
    if At(t, COMMA) then ScanElems(t[1..]) else Ok(Advance(t))
  }

  function ScanMembers(s: Str, seen: set<Str>): (r: Result<Str, ScanError>)
    ensures r.Ok? ==> |r.value| <= |s|
    decreases |s|, 1
  {
    var key :- ScanString(Advance(SkipSpace(s)));
    if key.0 in seen then Err(DuplicateKey(key.0))
    else
      var value :- ScanValue(Advance(SkipSpace(key.1)));
      var t := SkipSpace(value);
      if At(t, COMMA) then ScanMembers(t[1..], seen + {key.0}) else Ok(Advance(t))
  }

  /** `parseJsonStrict`: the parser's value, unless it or the scan throws. */
  datatype StrictError = Syntax | Scan(error: ScanError)

  function ParseStrict(s: Str): Result<Doc, StrictError> {
    match ParseText(s)
    case None => Err(Syntax)
    case Some(d) =>
      match ScanValue(s)
      case Err(e) => Err(Scan(e))
      case Ok(_) => Ok(d)
  }

  // ------------------------------------------------------------ the cursor

  /** The scanner as the source runs it: one cursor, moved by every method; it may run past the end. */
  class Cursor {
    const text: Str
    var i: nat

    constructor (text: Str)
      ensures this.text == text && i == 0 && Rest() == text
    {
      this.text := text;
      this.i := 0;
    }

    function Rest(): Str
      reads this
    {
      if i <= |text| then text[i..] else []
    }

    method Step()
      modifies this
      ensures Rest() == Advance(old(Rest()))
    {
      i := i + 1;
    }

    method Ws()
      modifies this
      ensures Rest() == SkipSpace(old(Rest()))
    {
      while i < |text| && IsSpace(text[i])
        invariant SkipSpace(Rest()) == SkipSpace(old(Rest()))
      {
        i := i + 1;
      }
    }

    method String() returns (r: Result<Str, ScanError>)
      modifies this
      ensures match ScanString(Advance(old(Rest())))
              case Err(e) => r == Err(e)
              case Ok(read) => r == Ok(read.0) && Rest() == read.1
    {
      var out: Str := [];
      Step();
      ghost var expected := ScanString(Rest());
      AfterNothing(expected);
      while i < |text|
        invariant expected == After(out, ScanString(Rest()))
        decreases |text| - i
      {
        ghost var before := Rest();
        var c := text[i];
        if c == QUOTE {
          i := i + 1;
          assert Rest() == before[1..];
          assert out + [] == out;
          return Ok(out);
        }
        var u, n := c, 1;
        if c == BACKSLASH {
          var escape := ScanEscape(text[i..]);
          if escape.None? {
            return Err(BadEscape);
          }
          u, n := escape.value.0, escape.value.1;
        }
        AfterOne(out, u, ScanString(before[n..]));
        out := out + [u];
        i := i + n;
        assert Rest() == before[n..];
      }
      r := Err(Unterminated);
    }

    ghost predicate Reads(r: Result<(), ScanError>, expected: Result<Str, ScanError>)
      reads this
    {
      match expected
      case Err(e) => r == Err(e)
      case Ok(rest) => r.Ok? && Rest() == rest
    }

    method Value() returns (r: Result<(), ScanError>)
      modifies this
      ensures Reads(r, ScanValue(old(Rest())))
      decreases |Rest()|, 1
    {
      Ws();
      ghost var t := Rest();
      if i < |text| && text[i] == OPEN_BRACE {
        Step();
        Ws();
        if i < |text| && text[i] == CLOSE_BRACE {
          Step();
          return Ok(());
        }
        r := Members();
      } else if i < |text| && text[i] == OPEN_BRACKET {
        Step();
        Ws();
        if i < |text| && text[i] == CLOSE_BRACKET {
          Step();
          return Ok(());
        }
        r := Elements();
      } else if i < |text| && text[i] == QUOTE {
        var name := String();
        r := if name.Err? then Err(name.error) else Ok(());
      } else {
        while i < |text| && !Delimiter(text[i])
          invariant SkipLiteral(Rest()) == SkipLiteral(t)
        {
          i := i + 1;
        }
        r := Ok(());
      }
    }

    method Elements() returns (r: Result<(), ScanError>)
      modifies this
      ensures Reads(r, ScanElems(old(Rest())))
      decreases |Rest()|, 2
    {
      while true
        invariant ScanElems(Rest()) == ScanElems(old(Rest()))
        invariant |Rest()| <= |old(Rest())|
        decreases |Rest()|
      {
        r := Value();
        if r.Err? {
          return;
        }
        Ws();
        if i < |text| && text[i] == COMMA {
          Step();
          continue;
        }
        Step();
        return Ok(());
      }
    }

    method Members() returns (r: Result<(), ScanError>)
      modifies this
      ensures Reads(r, ScanMembers(old(Rest()), {}))
      decreases |Rest()|, 2
    {
      var seen: set<Str> := {};
      while true
        invariant ScanMembers(Rest(), seen) == ScanMembers(old(Rest()), {})
        invariant |Rest()| <= |old(Rest())|
        decreases |Rest()|
      {
        Ws();
        var key := String();
        if key.Err? {
          return Err(key.error);
        }
        if key.value in seen {
          return Err(DuplicateKey(key.value));
        }
        Ws();
        Step();
        r := Value();
        if r.Err? {
          return;
        }
        seen := seen + {key.value};
        Ws();
        if i < |text| && text[i] == COMMA {
          Step();
          continue;
        }
        Step();
        return Ok(());
      }
    }
  }

  method ParseJsonStrict(text: Str) returns (r: Result<Doc, StrictError>)
    ensures r == ParseStrict(text)
  {
    var parsed := ParseText(text);
    if parsed.None? {
      return Err(Syntax);
    }
    var cursor := new Cursor(text);
    var scanned := cursor.Value();
    r := if scanned.Err? then Err(Scan(scanned.error)) else Ok(parsed.value);
  }

  // ------------------------------------------------------------ what the scan decides

  ghost function Keys(ms: Members): set<Str>
    requires ValidMembers(ms)
  {
    if ms.NoMembers? then {} else {Decode(ms.key)} + Keys(ms.rest)
  }

  /** No object anywhere in the tree has two members whose decoded names are equal. */
  ghost predicate NoDuplicates(d: Doc)
    requires Valid(d)
  {
    match d
    case Literal(_) => true
    case Text(_) => true
    case Arr(_, elems) => NoDuplicateElems(elems)
    case Obj(_, members) => NoDuplicateMembers(members)
  }

  ghost predicate NoDuplicateElems(es: Elems)
    requires ValidElems(es)
  {
    es.Elem? ==> NoDuplicates(es.value) && NoDuplicateElems(es.rest)
  }

  ghost predicate NoDuplicateMembers(ms: Members)
    requires ValidMembers(ms)
  {
    ms.Member? ==> NoDuplicates(ms.value) && Decode(ms.key) !in Keys(ms.rest) && NoDuplicateMembers(ms.rest)
  }

  /** The cursor ends exactly where the value does, or the scan names a duplicate; nothing else happens. */
  ghost predicate Decides(r: Result<Str, ScanError>, clean: bool, post: Str) {
    if clean then r == Ok(post) else r.Err? && r.error.DuplicateKey?
  }

  lemma {:induction false} ScansPieces(s: Str)
    requires ParsePieces(s).Some?
    ensures ValidPieces(ParsePieces(s).value.0)
    ensures ScanString(s) == Ok((Decode(ParsePieces(s).value.0), ParsePieces(s).value.1))
    decreases |s|
  {
    PiecesSound(s);
    hide Unescape, HexDigit, HexValue;
    if s[0] != QUOTE {
      var piece := FirstPiece(s).value;
      var tail := s[|piece.Source()|..];
      ScansPieces(tail);
      var rest := ParsePieces(tail).value;
      assert Decode([piece] + rest.0) == [piece.Decoded()] + Decode(rest.0);
    }
  }

  /** `scanString` yields the decoded name of every string the grammar reads. */
  lemma ScansString(s: Str)
    requires ParseString(s).Some?
    ensures ValidPieces(ParseString(s).value.0)
    ensures ScanString(Advance(s)) == Ok((Decode(ParseString(s).value.0), ParseString(s).value.1))
  {
    ScansPieces(s[1..]);
  }

  lemma SkipSkip(s: Str)
    ensures SkipSpace(SkipSpace(s)) == SkipSpace(s)
  {
  }

  lemma {:induction false} ScansValue(s: Str)
    requires ParseValue(SkipSpace(s)).Some?
    ensures var (d, post) := ParseValue(SkipSpace(s)).value;
            Valid(d) && Decides(ScanValue(s), NoDuplicates(d), post)
    decreases |s|, 3
  {
    hide ParseElems, ParseMembers, ScanElems, ScanMembers, ScanString, ParsePieces, IsLiteral;
    var t := SkipSpace(s);
    ValueSound(t);
    if t[0] == QUOTE {
      ScansString(t);
    } else if t[0] == OPEN_BRACKET {
      ScansArr(s);
    } else if t[0] == OPEN_BRACE {
      ScansObj(s);
    }
  }

  lemma {:induction false} ScansArr(s: Str)
    requires ParseValue(SkipSpace(s)).Some? && SkipSpace(s)[0] == OPEN_BRACKET
    ensures var (d, post) := ParseValue(SkipSpace(s)).value;
            Valid(d) && Decides(ScanValue(s), NoDuplicates(d), post)
    decreases |s|, 2
  {
    hide ParseElems, ParseMembers, ScanElems, ScanMembers, ScanString, ParseString, IsLiteral, SkipLiteral;
    var t := SkipSpace(s);
    ValueSound(t);
    ScanFromBlanks(t[1..]);
    if !At(SkipSpace(t[1..]), CLOSE_BRACKET) {
      ScansElems(t[1..]);
    }
  }

  lemma {:induction false} ScansObj(s: Str)
    requires ParseValue(SkipSpace(s)).Some? && SkipSpace(s)[0] == OPEN_BRACE
    ensures var (d, post) := ParseValue(SkipSpace(s)).value;
            Valid(d) && Decides(ScanValue(s), NoDuplicates(d), post)
    decreases |s|, 2
  {
    hide ParseElems, ParseMembers, ScanElems, ScanMembers, ScanString, ParseString, IsLiteral, SkipLiteral;
    var t := SkipSpace(s);
    ValueSound(t);
    ScanFromBlanks(t[1..]);
    if !At(SkipSpace(t[1..]), CLOSE_BRACE) {
      ScansMembers(t[1..], {});
    }
  }

  lemma {:induction false} ScansElems(s: Str)
    requires ParseElems(s).Some?
    ensures var (es, post) := ParseElems(s).value;
            ValidElems(es) && Decides(ScanElems(s), NoDuplicateElems(es), post)
    decreases |s|, 4
  {
    hide ParseValue, ScanValue, NoDuplicates;
    ElemsSound(s);
    ScansValue(s);
    var value := ParseValue(SkipSpace(s)).value;
    var t := SkipSpace(value.1);
    if t[0] == COMMA {
      ScansElems(t[1..]);
    }
  }

  lemma ScanFromBlanks(s: Str)
    ensures ScanElems(SkipSpace(s)) == ScanElems(s)
    ensures ScanMembers(SkipSpace(s), {}) == ScanMembers(s, {})
  {
    SkipSkip(s);
    assert ScanValue(SkipSpace(s)) == ScanValue(s);
  }

  lemma {:induction false} ScansMembers(s: Str, seen: set<Str>)
    requires ParseMembers(s).Some?
    ensures var (ms, post) := ParseMembers(s).value;
            ValidMembers(ms) && Decides(ScanMembers(s, seen), NoDuplicateMembers(ms) && Keys(ms) !! seen, post)
    decreases |s|, 4
  {
    hide ParseValue, ScanValue, ScanString, ParseString, NoDuplicates, Decode;
    var t := SkipSpace(s);
    MembersSound(s);
    ScansString(t);
    var name := ParseString(t).value;
    var colon := SkipSpace(name.1);
    ScansValue(colon[1..]);
    if ParseValue(SkipSpace(colon[1..])).Some? {
      var value := ParseValue(SkipSpace(colon[1..])).value;
      var u := SkipSpace(value.1);
      if u[0] == COMMA {
        ScansMembers(u[1..], seen + {Decode(name.0)});
      }
    }
  }

  /** On every valid JSON text the scan leaves the cursor exactly at the end of the value,
      or throws for a duplicate key, and it throws exactly when some object has one. */
  lemma ScanIsExact(s: Str, before: Str, d: Doc, after: Str)
    requires IsJson(s, before, d, after)
    ensures NoDuplicates(d) ==> ScanValue(s) == Ok(after) && ParseStrict(s) == Ok(d)
    ensures !NoDuplicates(d) ==>
      exists key :: ScanValue(s) == Err(DuplicateKey(key)) && ParseStrict(s) == Err(Scan(DuplicateKey(key)))
  {
    ParsesText(s, before, d, after);
    ScansValue(s);
    if !NoDuplicates(d) {
      var key := ScanValue(s).error.key;
      assert ScanValue(s) == Err(DuplicateKey(key)) && ParseStrict(s) == Err(Scan(DuplicateKey(key)));
    }
  }

  /** Taken alone the scan is lenient: it walks over `[1}`, which the grammar refuses. */
  lemma ScanAloneIsLenient()
    ensures var s := [OPEN_BRACKET, 0x31, CLOSE_BRACE];
            ScanValue(s) == Ok([]) && ParseText(s).None?
  {
    var s := [OPEN_BRACKET, 0x31, CLOSE_BRACE];
    var t := s[1..];
    assert t == [0x31, CLOSE_BRACE] && t[1..] == [CLOSE_BRACE];
    assert SkipSpace(t) == t && SkipLiteral(t) == [CLOSE_BRACE];
    assert ScanValue(t) == Ok([CLOSE_BRACE]);
    assert ScanElems(t) == Ok([]);
    assert ParseElems(t).None?;
  }
}
