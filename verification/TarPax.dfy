/** pax extended-header records: "<length> key=value\n", where the length counts bytes. */
module TarPax {
  import opened Common
  import opened Decimal
  import opened TarFormat
  import opened TarProfile

  type Record = (string, string)

  const NEWLINE: byte := 0x0a

  /** `buffer.subarray(lo, hi)`: never fails, clamps instead. */
  function Subarray(s: bytes, lo: nat, hi: nat): bytes {
    if lo <= hi <= |s| then s[lo..hi] else if lo <= |s| < hi then s[lo..] else []
  }

  /** Where the first record's length text ends, and the length it states; None is MALFORMED_ARCHIVE. */
  function RecordSpan(t: Text, rest: bytes): (r: Option<(nat, nat)>)
    ensures r.Some? ==> r.value.0 < |rest| && 0 < r.value.1 <= |rest|
  {
    var sp := IndexOf(rest, SPACE);
    if sp == |rest| then None
    else
      var lenText := t.decode(rest[..sp]);
      if lenText.None? || !Digits(lenText.value) then None
      else
        var recLen := ParseDecimal(lenText.value);
        if recLen == 0 || recLen > |rest| || rest[recLen - 1] != NEWLINE then None else Some((sp, recLen))
  }

  function SplitRecord(text: string): Option<Record> {
    var eq := IndexOf(text, '=');
    if eq == |text| then None else Some((text[..eq], text[eq + 1..]))
  }

  /** The first record and its length in bytes. */
  function NextRecord(t: Text, rest: bytes): (r: Option<(Record, nat)>)
    ensures r.Some? ==> 0 < r.value.1 <= |rest|
  {
    var span := RecordSpan(t, rest);
    if span.None? then None
    else
      var body := t.decode(Subarray(rest, span.value.0 + 1, span.value.1 - 1));
      if body.None? then None
      else
        var record := SplitRecord(body.value);
        if record.None? then None else Some((record.value, span.value.1))
  }

  function ParseRecords(t: Text, rest: bytes): Option<seq<Record>>
    decreases |rest|
  {
    if rest == [] then Some([])
    else
      var first := NextRecord(t, rest);
      if first.None? then None
      else
        Prepend([first.value.0], ParseRecords(t, rest[first.value.1..]))
  }

  /** A payload with no record at all is malformed. */
  function ParsePax(t: Text, data: bytes): Option<seq<Record>> {
    if data == [] then None else ParseRecords(t, data)
  }

  function Prepend(done: seq<Record>, rest: Option<seq<Record>>): Option<seq<Record>> {
    if rest.None? then None else Some(done + rest.value)
  }

  lemma PrependNone(rest: Option<seq<Record>>)
    ensures Prepend([], rest) == rest
  {
    assert rest.Some? ==> [] + rest.value == rest.value;
  }

  lemma PrependOne(done: seq<Record>, r: Record, rest: Option<seq<Record>>)
    ensures Prepend(done, Prepend([r], rest)) == Prepend(done + [r], rest)
  {
    assert rest.Some? ==> done + ([r] + rest.value) == done + [r] + rest.value;
  }

  method ParsePaxRecords(t: Text, data: bytes) returns (records: Option<seq<Record>>)
    ensures records == ParsePax(t, data)
  {
    if data == [] {
      return None;
    }
    var parsed: seq<Record> := [];
    var p := 0;
    assert data[0..] == data;
    PrependNone(ParseRecords(t, data));
    while p < |data|
      invariant p <= |data|
      invariant ParseRecords(t, data) == Prepend(parsed, ParseRecords(t, data[p..]))
    {
      hide NextRecord;
      var next := NextRecord(t, data[p..]);
      if next.None? {
        return None;
      }
      assert data[p..][next.value.1..] == data[p + next.value.1..];
      PrependOne(parsed, next.value.0, ParseRecords(t, data[p + next.value.1..]));
      parsed := parsed + [next.value.0];
      p := p + next.value.1;
    }
    assert data[p..] == [];
    assert parsed + [] == parsed;
    records := Some(parsed);
  }

  lemma SpanInBounds(t: Text, rest: bytes)
    requires Lawful(t) && RecordSpan(t, rest).Some?
    ensures RecordSpan(t, rest).value.0 + 1 <= RecordSpan(t, rest).value.1 - 1
    ensures rest[RecordSpan(t, rest).value.0] == SPACE
    ensures rest[RecordSpan(t, rest).value.1 - 1] == NEWLINE
  {
    var (sp, n) := RecordSpan(t, rest).value;
    var lenText := t.decode(rest[..sp]).value;
    assert ByteLaw(t, rest[..sp]) && TextLaw(t, lenText);
    assert rest[..sp] == AsciiBytes(lenText);
    forall i | 0 <= i < sp
      ensures rest[i] != NEWLINE
    {
      assert rest[i] == rest[..sp][i];
    }
  }

  /** An accepted record is never cut short or read past its end: the slices tile it exactly. */
  lemma RecordInBounds(t: Text, rest: bytes)
    requires Lawful(t) && NextRecord(t, rest).Some?
    ensures var (sp, n) := RecordSpan(t, rest).value;
            && sp + 1 <= n - 1 < |rest|
            && NextRecord(t, rest).value.1 == n
            && Subarray(rest, sp + 1, n - 1) == rest[sp + 1..n - 1]
            && rest[..n] == rest[..sp] + [SPACE] + rest[sp + 1..n - 1] + [NEWLINE]
  {
    SpanInBounds(t, rest);
  }

  // ------------------------------------------------------------ the encoding

  predicate Encodable(t: Text, r: Record) {
    '=' !in r.0 && t.wellFormed(r.0 + "=" + r.1)
  }

  function Body(t: Text, r: Record): bytes {
    [SPACE] + t.encode(r.0 + "=" + r.1) + [NEWLINE]
  }

  /** A record's length counts its own digits, so it is found in two steps. */
  function RecordLength(bodyLength: nat): nat {
    bodyLength + |DecimalOf(bodyLength + |DecimalOf(bodyLength)|)|
  }

  function EncodeRecord(t: Text, r: Record): bytes {
    AsciiBytes(DecimalOf(RecordLength(|Body(t, r)|))) + Body(t, r)
  }

  function EncodeRecords(t: Text, rs: seq<Record>): bytes {
    if rs == [] then [] else EncodeRecord(t, rs[0]) + EncodeRecords(t, rs[1..])
  }

  function Pow10(k: nat): (p: nat)
    ensures p > 0
  {
    if k == 0 then 1 else 10 * Pow10(k - 1)
  }

  /** k decimal digits hold exactly the numbers from 10^(k-1) up to 10^k. */
  lemma {:induction false} DecimalWidth(n: nat)
    ensures n < Pow10(|DecimalOf(n)|)
    ensures n > 0 ==> Pow10(|DecimalOf(n)| - 1) <= n
  {
    if n >= 10 {
      DecimalWidth(n / 10);
    } else {
      assert Pow10(1) == 10 && Pow10(0) == 1;
    }
  }

  lemma {:induction false} Pow10Monotone(a: nat, b: nat)
    requires a <= b
    ensures Pow10(a) <= Pow10(b)
  {
    if a < b {
      Pow10Monotone(a, b - 1);
    }
  }

  lemma WidthFrom(n: nat, k: nat)
    requires n > 0 && k > 0 && Pow10(k - 1) <= n < Pow10(k)
    ensures |DecimalOf(n)| == k
  {
    DecimalWidth(n);
    var w := |DecimalOf(n)|;
    if w < k {
      Pow10Monotone(w, k - 1);
    } else if w > k {
      Pow10Monotone(k, w - 1);
    }
  }

  lemma {:induction false} Pow10Gap(k: nat)
    ensures 10 * Pow10(k) >= Pow10(k) + 2 * k + 4
  {
    if k > 0 {
      Pow10Gap(k - 1);
    }
  }

  /** The two-step length is a fixpoint: it is the number of digits it adds plus the body. */
  lemma RecordLengthIsExact(bodyLength: nat)
    requires bodyLength > 0
    ensures RecordLength(bodyLength) == bodyLength + |DecimalOf(RecordLength(bodyLength))|
  {
    var k := |DecimalOf(bodyLength)|;
    DecimalWidth(bodyLength);
    Pow10Gap(k);
    Pow10Gap(k - 1);
    var once := bodyLength + k;
    if once < Pow10(k) {
      WidthFrom(once, k);
    } else {
      WidthFrom(once, k + 1);
      WidthFrom(bodyLength + k + 1, k + 1);
    }
  }

  lemma AsciiDecodes(t: Text, s: string)
    requires Lawful(t) && Ascii(s)
    ensures t.decode(AsciiBytes(s)) == Some(s)
  {
    assert TextLaw(t, s);
  }

  lemma SpanOfEncoded(t: Text, r: Record, rest: bytes)
    requires Lawful(t)
    ensures var n := |EncodeRecord(t, r)|;
            && n == RecordLength(|Body(t, r)|)
            && RecordSpan(t, EncodeRecord(t, r) + rest) == Some((n - |Body(t, r)|, n))
  {
    var body := Body(t, r);
    var n := RecordLength(|body|);
    var lenText := DecimalOf(n);
    var digits := AsciiBytes(lenText);
    RecordLengthIsExact(|body|);
    DecimalRoundTrip(n);
    AsciiDecodes(t, lenText);
    var all := EncodeRecord(t, r) + rest;
    assert SPACE !in digits;
    assert all == digits + [SPACE] + (body[1..] + rest);
    IndexOfIs(digits, SPACE, body[1..] + rest);
    assert all[..|digits|] == digits;
    assert all[n - 1] == body[|body| - 1];
  }

  lemma SplitRecordIs(r: Record)
    requires '=' !in r.0
    ensures SplitRecord(r.0 + "=" + r.1) == Some(r)
  {
    var text := r.0 + "=" + r.1;
    IndexOfIs(r.0, '=', r.1);
    assert text[..|r.0|] == r.0 && text[|r.0| + 1..] == r.1;
  }

  lemma NextRecordDecodes(t: Text, r: Record, rest: bytes)
    requires Lawful(t) && Encodable(t, r)
    ensures NextRecord(t, EncodeRecord(t, r) + rest) == Some((r, |EncodeRecord(t, r)|))
  {
    SpanOfEncoded(t, r, rest);
    var n := |EncodeRecord(t, r)|;
    var all := EncodeRecord(t, r) + rest;
    var encoded := t.encode(r.0 + "=" + r.1);
    assert Subarray(all, n - |Body(t, r)| + 1, n - 1) == encoded;
    assert TextLaw(t, r.0 + "=" + r.1);
    SplitRecordIs(r);
  }

  lemma ParseStep(t: Text, data: bytes, r: Record, n: nat, rs: seq<Record>)
    requires data != [] && NextRecord(t, data) == Some((r, n)) && ParseRecords(t, data[n..]) == Some(rs)
    ensures ParseRecords(t, data) == Some([r] + rs)
  {
  }

  /** Parsing inverts the length-prefixed encoding of any list of records. */
  lemma {:induction false} PaxRoundTrip(t: Text, rs: seq<Record>)
    requires Lawful(t) && forall i :: 0 <= i < |rs| ==> Encodable(t, rs[i])
    ensures ParseRecords(t, EncodeRecords(t, rs)) == Some(rs)
  {
    if rs != [] {
      var first := EncodeRecord(t, rs[0]);
      var others := EncodeRecords(t, rs[1..]);
      NextRecordDecodes(t, rs[0], others);
      assert (first + others)[|first|..] == others;
      PaxRoundTrip(t, rs[1..]);
      ParseStep(t, first + others, rs[0], |first|, rs[1..]);
      assert [rs[0]] + rs[1..] == rs;
    }
  }

  lemma NextRecordEncodable(t: Text, rest: bytes)
    requires Lawful(t) && NextRecord(t, rest).Some?
    ensures Encodable(t, NextRecord(t, rest).value.0)
  {
    var (sp, n) := RecordSpan(t, rest).value;
    var body := Subarray(rest, sp + 1, n - 1);
    assert ByteLaw(t, body);
    var text := t.decode(body).value;
    var eq := IndexOf(text, '=');
    assert text == text[..eq] + "=" + text[eq + 1..];
  }

  /** Every record an accepted payload yields is one the encoding could have produced,
      and the payload ends where its last record does. */
  lemma {:induction false} AcceptedRecordsTile(t: Text, data: bytes)
    requires Lawful(t) && ParsePax(t, data).Some?
    ensures var rs := ParsePax(t, data).value;
            && rs != []
            && (forall i :: 0 <= i < |rs| ==> Encodable(t, rs[i]))
            && data[|data| - 1] == NEWLINE
    decreases |data|
  {
    var n := NextRecord(t, data).value.1;
    RecordInBounds(t, data);
    NextRecordEncodable(t, data);
    if n < |data| {
      AcceptedRecordsTile(t, data[n..]);
    } else {
      assert data[n..] == [];
      ParseStep(t, data, NextRecord(t, data).value.0, n, []);
    }
  }
}
