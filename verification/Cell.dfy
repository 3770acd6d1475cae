/**
 * The cell grammar: an answer and the parts of its method on one line, split and joined on a separator that overlaps
 * itself.
 */
module Cell {
  import opened Common

  /** Space, middle dot, space: its last character is also its first. */
  const SEP: string := " \U{00B7} "
  const KEY_SEP: string := ": "

  datatype Part = Part(key: Option<string>, text: string)

  datatype ParsedCell = ParsedCell(value: string, parts: seq<Part>)

  predicate At(s: string, sub: string, i: int) {
    0 <= i && i + |sub| <= |s| && s[i..i + |sub|] == sub
  }

  /** `s.indexOf(sub)`, None for -1. */
  function Find(s: string, sub: string): (r: Option<nat>)
    ensures r.Some? ==> r.value + |sub| <= |s|
  {
    if |s| < |sub| then None
    else if s[..|sub|] == sub then Some(0)
    else if s == [] then None
    else
      var rest := Find(s[1..], sub);
      if rest.Some? then Some(rest.value + 1) else None
  }

  lemma AtShift(s: string, sub: string, i: nat)
    requires s != []
    ensures At(s, sub, i + 1) <==> At(s[1..], sub, i)
  {
    if i + 1 + |sub| <= |s| {
      assert s[1..][i..i + |sub|] == s[i + 1..i + 1 + |sub|];
    }
  }

  lemma AtStart(s: string, sub: string)
    ensures At(s, sub, 0) <==> |s| >= |sub| && s[..|sub|] == sub
  {
  }

  lemma {:induction false} FindIsFirst(s: string, sub: string)
    ensures var r := Find(s, sub);
      && (r.Some? ==> At(s, sub, r.value) && forall i :: At(s, sub, i) ==> r.value <= i)
      && (r.None? ==> forall i :: !At(s, sub, i))
  {
    AtStart(s, sub);
    if |s| >= |sub| && s[..|sub|] != sub && s != [] {
      FindIsFirst(s[1..], sub);
      forall i | At(s, sub, i)
        ensures i > 0 && At(s[1..], sub, i - 1)
      {
        assert i != 0;
        AtShift(s, sub, i - 1);
      }
      if Find(s[1..], sub).Some? {
        AtShift(s, sub, Find(s[1..], sub).value);
      }
    }
  }

  /** `s.split(sep)`: cut at the leftmost occurrence, then go on after it. */
  function Split(s: string, sep: string): (chunks: seq<string>)
    requires sep != ""
    ensures |chunks| > 0
    decreases |s|
  {
    var at := Find(s, sep);
    if at.None? then [s] else [s[..at.value]] + Split(s[at.value + |sep|..], sep)
  }

  function Join(chunks: seq<string>, sep: string): string
    requires chunks != []
  {
    if |chunks| == 1 then chunks[0] else chunks[0] + sep + Join(chunks[1..], sep)
  }

  function ParsePart(chunk: string): Part {
    var at := Find(chunk, KEY_SEP);
    if at.None? || at.value == 0 then Part(None, chunk)
    else Part(Some(chunk[..at.value]), chunk[at.value + |KEY_SEP|..])
  }

  function FormatPart(p: Part): string {
    if p.key.None? then p.text else p.key.value + KEY_SEP + p.text
  }

  function Parse(text: string): ParsedCell {
    var chunks := Split(text, SEP);
    ParsedCell(chunks[0], seq(|chunks| - 1, i requires 0 <= i < |chunks| - 1 => ParsePart(chunks[i + 1])))
  }

  function Chunks(cell: ParsedCell): seq<string> {
    [cell.value] + seq(|cell.parts|, i requires 0 <= i < |cell.parts| => FormatPart(cell.parts[i]))
  }

  function Format(cell: ParsedCell): string {
    Join(Chunks(cell), SEP)
  }

  /** The loop over the chunks after the first. */
  method ParseCell(text: string) returns (cell: ParsedCell)
    ensures cell == Parse(text)
  {
    var chunks := Split(text, SEP);
    var parts: seq<Part> := [];
    for i := 1 to |chunks|
      invariant |parts| == i - 1
      invariant forall k :: 0 <= k < i - 1 ==> parts[k] == ParsePart(chunks[k + 1])
    {
      var chunk := chunks[i];
      var at := Find(chunk, KEY_SEP);
      if at.None? || at.value <= 0 {
        parts := parts + [Part(None, chunk)];
      } else {
        parts := parts + [Part(Some(chunk[..at.value]), chunk[at.value + |KEY_SEP|..])];
      }
    }
    cell := ParsedCell(chunks[0], parts);
  }

  // ------------------------------------------------------------ parse, then format

  /** A text with a separator is its first chunk, the separator and the rest. */
  lemma SplitStep(s: string, sep: string)
    requires sep != "" && Find(s, sep).Some?
    ensures var at := Find(s, sep).value;
      && s == s[..at] + sep + s[at + |sep|..]
      && Split(s, sep) == [s[..at]] + Split(s[at + |sep|..], sep)
      && |Split(s, sep)| > 1 && Split(s, sep)[1..] == Split(s[at + |sep|..], sep)
  {
    var at := Find(s, sep).value;
    var first, rest := [s[..at]], Split(s[at + |sep|..], sep);
    assert Split(s, sep) == first + rest;
    FindIsFirst(s, sep);
    hide Find, Split;
    Cut(s, sep, at);
    assert (first + rest)[1..] == rest;
  }

  lemma Cut(s: string, sub: string, at: nat)
    requires At(s, sub, at)
    ensures s == s[..at] + sub + s[at + |sub|..]
  {
  }

  lemma {:induction false} JoinSplit(s: string, sep: string)
    requires sep != ""
    ensures Join(Split(s, sep), sep) == s
    decreases |s|
  {
    if Find(s, sep).Some? {
      SplitStep(s, sep);
      var at := Find(s, sep).value;
      hide Find, Split;
      JoinSplit(s[at + |sep|..], sep);
    }
  }

  lemma FormatParsedPart(chunk: string)
    ensures FormatPart(ParsePart(chunk)) == chunk
  {
    FindIsFirst(chunk, KEY_SEP);
    var at := Find(chunk, KEY_SEP);
    if at.Some? && at.value > 0 {
      assert chunk == chunk[..at.value] + KEY_SEP + chunk[at.value + |KEY_SEP|..];
    }
  }

  lemma ChunksOfParsed(text: string)
    ensures Chunks(Parse(text)) == Split(text, SEP)
  {
    var chunks, parts := Split(text, SEP), Parse(text).parts;
    forall i | 0 <= i < |parts|
      ensures FormatPart(parts[i]) == chunks[i + 1]
    {
      FormatParsedPart(chunks[i + 1]);
    }
  }

  /** Nothing a server sent is lost: every text is what its parse formats to. */
  lemma FormatParse(text: string)
    ensures Format(Parse(text)) == text
  {
    ChunksOfParsed(text);
    JoinSplit(text, SEP);
  }

  // ------------------------------------------------------------ format, then parse

  /** A chunk that may stand before a separator: it neither contains one nor ends in its first two characters. */
  predicate MayPrecede(chunk: string) {
    Find(chunk, SEP).None? && !(|chunk| >= 2 && chunk[|chunk| - 2..] == SEP[..2])
  }

  predicate ChunksClean(chunks: seq<string>)
    requires chunks != []
  {
    && (forall i :: 0 <= i < |chunks| - 1 ==> MayPrecede(chunks[i]))
    && Find(chunks[|chunks| - 1], SEP).None?
  }

  /** A key is not empty and holds no key separator; a text without a key holds none but at its very start. */
  predicate PartClean(p: Part) {
    match p.key
    case Some(key) => key != "" && Find(key, KEY_SEP).None?
    case None => Find(p.text, KEY_SEP).None? || Find(p.text, KEY_SEP) == Some(0)
  }

  predicate Clean(cell: ParsedCell) {
    ChunksClean(Chunks(cell)) && forall i :: 0 <= i < |cell.parts| ==> PartClean(cell.parts[i])
  }

  /** Joining hides the boundary after a chunk unless the chunk may precede a separator. */
  lemma FindBoundary(chunk: string, rest: string)
    ensures Find(chunk + SEP + rest, SEP) == Some(|chunk|) <==> MayPrecede(chunk)
  {
    var s := chunk + SEP + rest;
    FindIsFirst(s, SEP);
    FindIsFirst(chunk, SEP);
    assert s[|chunk|..|chunk| + 3] == SEP;
    assert At(s, SEP, |chunk|);
    if Find(chunk, SEP).Some? {
      var i := Find(chunk, SEP).value;
      assert s[i..i + 3] == chunk[i..i + 3];
      assert At(s, SEP, i);
    }
    if |chunk| >= 2 && chunk[|chunk| - 2..] == SEP[..2] {
      assert s[|chunk| - 2..|chunk| + 1] == chunk[|chunk| - 2..] + SEP[..1];
      assert SEP[..2] + SEP[..1] == SEP;
      assert At(s, SEP, |chunk| - 2);
    }
    forall i | At(s, SEP, i) && i < |chunk|
      ensures At(chunk, SEP, i) || (|chunk| >= 2 && chunk[|chunk| - 2..] == SEP[..2])
    {
      BeforeBoundary(chunk, rest, i);
    }
  }

  /** An occurrence before the boundary lies inside the chunk or over its last two characters. */
  lemma BeforeBoundary(chunk: string, rest: string, i: int)
    requires At(chunk + SEP + rest, SEP, i) && i < |chunk|
    ensures At(chunk, SEP, i) || (|chunk| >= 2 && chunk[|chunk| - 2..] == SEP[..2])
  {
    var s := chunk + SEP + rest;
    assert s[i..i + 3] == SEP;
    assert s[i] == SEP[0] && s[i + 1] == SEP[1] && s[i + 2] == SEP[2];
    assert s[|chunk|] == SEP[0];
    if i + 3 <= |chunk| {
      assert s[i..i + 3] == chunk[i..i + 3];
    } else {
      assert i == |chunk| - 2;
      assert chunk[|chunk| - 2..] == [s[i], s[i + 1]] == SEP[..2];
    }
  }

  /** Splitting undoes joining exactly when every boundary is visible and the last chunk holds no separator. */
  lemma {:induction false} SplitJoin(chunks: seq<string>)
    requires chunks != []
    ensures Split(Join(chunks, SEP), SEP) == chunks <==> ChunksClean(chunks)
  {
    var s := Join(chunks, SEP);
    if |chunks| > 1 {
      var rest := Join(chunks[1..], SEP);
      SplitJoin(chunks[1..]);
      FindBoundary(chunks[0], rest);
      FindIsFirst(s, SEP);
      CleanCons(chunks);
      if Find(s, SEP) == Some(|chunks[0]|) {
        SplitStep(s, SEP);
        assert s[..|chunks[0]|] == chunks[0] && s[|chunks[0]| + |SEP|..] == rest;
        assert chunks == [chunks[0]] + chunks[1..];
      } else if Find(s, SEP).Some? {
        SplitStep(s, SEP);
        assert |Split(s, SEP)[0]| == Find(s, SEP).value;
      }
    }
  }

  lemma CleanCons(chunks: seq<string>)
    requires |chunks| > 1
    ensures ChunksClean(chunks) <==> MayPrecede(chunks[0]) && ChunksClean(chunks[1..])
  {
    hide MayPrecede, Find;
    var rest := chunks[1..];
    if MayPrecede(chunks[0]) && ChunksClean(rest) {
      forall i | 0 <= i < |chunks| - 1
        ensures MayPrecede(chunks[i])
      {
        assert i > 0 ==> chunks[i] == rest[i - 1] && MayPrecede(rest[i - 1]);
      }
    }
    if ChunksClean(chunks) {
      forall i | 0 <= i < |rest| - 1
        ensures MayPrecede(rest[i])
      {
        assert rest[i] == chunks[i + 1];
      }
    }
  }

  /** No key separator can straddle the boundary after a key. */
  lemma BeforeKeyEnd(key: string, text: string, i: int)
    requires At(key + KEY_SEP + text, KEY_SEP, i) && i < |key|
    ensures At(key, KEY_SEP, i)
  {
    var s := key + KEY_SEP + text;
    assert s[i..i + 2] == KEY_SEP && s[i + 1] == KEY_SEP[1] && s[|key|] == KEY_SEP[0];
    assert i + 2 <= |key|;
    assert s[i..i + 2] == key[i..i + 2];
  }

  lemma FindKey(key: string, text: string)
    ensures Find(key + KEY_SEP + text, KEY_SEP) == Some(|key|) <==> Find(key, KEY_SEP).None?
  {
    var s := key + KEY_SEP + text;
    FindIsFirst(s, KEY_SEP);
    FindIsFirst(key, KEY_SEP);
    assert s[|key|..|key| + 2] == KEY_SEP;
    assert At(s, KEY_SEP, |key|);
    if Find(key, KEY_SEP).Some? {
      var i := Find(key, KEY_SEP).value;
      assert s[i..i + 2] == key[i..i + 2];
      assert At(s, KEY_SEP, i);
    }
    forall i | At(s, KEY_SEP, i) && i < |key|
      ensures At(key, KEY_SEP, i)
    {
      BeforeKeyEnd(key, text, i);
    }
  }

  lemma ParseFormattedPart(p: Part)
    ensures ParsePart(FormatPart(p)) == p <==> PartClean(p)
  {
    if p.key.Some? {
      var key, s := p.key.value, FormatPart(p);
      FindKey(key, p.text);
      FindIsFirst(s, KEY_SEP);
      if Find(s, KEY_SEP) == Some(|key|) {
        assert s[..|key|] == key && s[|key| + |KEY_SEP|..] == p.text;
      }
    }
  }

  lemma ParsePartsBack(cell: ParsedCell)
    ensures var chunks := Chunks(cell);
      forall i :: 0 <= i < |cell.parts| ==> (ParsePart(chunks[i + 1]) == cell.parts[i] <==> PartClean(cell.parts[i]))
  {
    hide ParsePart, FormatPart, PartClean;
    forall i | 0 <= i < |cell.parts|
      ensures ParsePart(Chunks(cell)[i + 1]) == cell.parts[i] <==> PartClean(cell.parts[i])
    {
      ParseFormattedPart(cell.parts[i]);
    }
  }

  lemma SameChunks(cell: ParsedCell, text: string)
    requires Split(text, SEP) == Chunks(cell)
    ensures Parse(text) == cell <==> forall i :: 0 <= i < |cell.parts| ==> PartClean(cell.parts[i])
  {
    ParsePartsBack(cell);
    hide Split, ParsePart, FormatPart, PartClean;
    var back := Parse(text);
    assert |back.parts| == |cell.parts| && back.value == cell.value;
    assert forall i :: 0 <= i < |cell.parts| ==> back.parts[i] == ParsePart(Chunks(cell)[i + 1]);
  }

  /** A cell comes back from its own text exactly when its chunks hide no boundary and its parts are unambiguous. */
  lemma ParseFormat(cell: ParsedCell)
    ensures Parse(Format(cell)) == cell <==> Clean(cell)
  {
    SplitJoin(Chunks(cell));
    ChunksOfParsed(Format(cell));
    hide Split, Join, ChunksClean, PartClean, Parse, Chunks;
    if Split(Format(cell), SEP) == Chunks(cell) {
      SameChunks(cell, Format(cell));
    }
  }
}
