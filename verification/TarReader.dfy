/** The tar reader: one state machine over 512-byte headers, and the profile every accepted archive meets. */
module TarReader {
  import opened Common
  import opened Decimal
  import opened TarFormat
  import opened TarProfile
  import opened TarPax

  const KNOWN_KEYS: set<string> :=
    {"path", "comment", "mtime", "atime", "ctime", "uid", "gid", "uname", "gname", "charset", "hdrcharset"}

  const GLOBAL_IGNORABLE_KEYS: set<string> :=
    {"comment", "mtime", "atime", "ctime", "uid", "gid", "uname", "gname", "charset"}

  predicate Fraction(value: string) {
    var dot := IndexOf(value, '.');
    Digits(value[..dot]) && (dot < |value| ==> Digits(value[dot + 1..]))
  }

  predicate ValueShape(r: Record) {
    && (r.0 in {"uid", "gid"} ==> Digits(r.1))
    && (r.0 in {"mtime", "atime", "ctime"} ==> Fraction(r.1))
  }

  // ------------------------------------------------------------ one header

  /** The header fields the reader goes on to use. */
  datatype Header = Header(name: string, size: nat, typeflag: byte, prefix: string)

  const DIRECTORY: byte := 0x35
  const EXTENDED: byte := 0x78
  const GLOBAL: byte := 0x67
  const LONG_NAME: byte := 0x4c
  const LONG_LINK: byte := 0x4b

  predicate RegularFlag(flag: byte) {
    flag == REGULAR || flag == 0
  }

  /** A text field: up to the first NUL, strictly decoded. */
  function ReadStr(t: Text, field: bytes): Option<string> {
    t.decode(field[..IndexOf(field, 0)])
  }

  /** Parse one header block; None is MALFORMED_ARCHIVE. */
  function ReadHeader(t: Text, h: bytes): Option<Header>
    requires |h| == BLOCK
  {
    var name := ReadStr(t, h[..100]);
    var size := OctalText(h[124..136], false);
    var prefix := ReadStr(t, h[345..500]);
    if || !ChecksumOk(h)
       || h[257..263] != MAGIC || h[263..265] != VERSION
       || name.None? || size.None? || prefix.None?
       || OctalText(h[100..108], false).None?
       || OctalText(h[108..116], true).None? || OctalText(h[116..124], true).None?
       || OctalText(h[136..148], true).None?
       || OctalText(h[329..337], true).None? || OctalText(h[337..345], true).None?
       || ReadStr(t, h[265..297]).None? || ReadStr(t, h[297..329]).None?
       || ((RegularFlag(h[156]) || h[156] == DIRECTORY) && ReadStr(t, h[157..257]) != Some(""))
    then None
    else Some(Header(name.value, size.value, h[156], prefix.value))
  }

  // ------------------------------------------------------------ extended headers

  /** A global header may carry only what this profile ignores, or deletions of keys it knows. */
  predicate GlobalRecordOk(r: Record) {
    if r.1 == "" then r.0 in KNOWN_KEYS || r.0 == "size"
    else r.0 in GLOBAL_IGNORABLE_KEYS && ValueShape(r)
  }

  function ApplyGlobal(st: State, records: seq<Record>): Result<State, ArchiveError> {
    if st.pendingPax || exists i :: 0 <= i < |records| && !GlobalRecordOk(records[i]) then Err(Malformed) else Ok(st)
  }

  /** One record of a per-file extended header. */
  function ApplyRecord(st: State, r: Record): Result<State, ArchiveError> {
    if r.0 == "size" then
      if r.1 == "" then Ok(st.(paxSize := None))
      else if !Digits(r.1) then Err(Malformed)
      else Ok(st.(paxSize := Some(ParseDecimal(r.1))))
    else if r.0 !in KNOWN_KEYS then Err(Malformed)
    else if r.1 == "" then Ok(if r.0 == "path" then st.(paxPath := None) else st)
    else if !ValueShape(r) then Err(Malformed)
    else Ok(if r.0 == "path" then st.(paxPath := Some(r.1)) else st)
  }

  function ApplyRecords(st: State, records: seq<Record>): Result<State, ArchiveError>
    decreases |records|
  {
    if records == [] then Ok(st)
    else
      var next :- ApplyRecord(st, records[0]);
      ApplyRecords(next, records[1..])
  }

  // ------------------------------------------------------------ one entry

  function WithoutTrailingSlash(name: string): string {
    if name != [] && name[|name| - 1] == '/' then name[..|name| - 1] else name
  }

  function HeaderName(h: Header): string {
    if h.prefix == "" then h.name else h.prefix + "/" + h.name
  }

  /** Deal with one header and its data, given the state with the extended-header flag already settled. */
  function HandleEntry(t: Text, st: State, h: Header, data: bytes): Result<State, ArchiveError> {
    if h.typeflag == GLOBAL then
      var records := ParsePax(t, data);
      if st.pendingPax || records.None? then Err(Malformed) else ApplyGlobal(st, records.value)
    else if h.typeflag == EXTENDED then
      var records := ParsePax(t, data);
      if st.pendingPax || records.None? then Err(Malformed)
      else
        var next :- ApplyRecords(st, records.value);
        Ok(next.(pendingPax := true))
    else if h.typeflag == LONG_NAME || h.typeflag == LONG_LINK then Err(Malformed)
    else if st.paxSize.Some? && st.paxSize.value != h.size then Err(Malformed)
    else
      var name := if st.paxPath.Some? then st.paxPath.value else HeaderName(h);
      var clean := st.(paxPath := None, paxSize := None);
      if h.typeflag == DIRECTORY then AddDirectory(t, clean, WithoutTrailingSlash(name))
      else if RegularFlag(h.typeflag) then AddFile(t, clean, name, data)
      else Err(Malformed)
  }

  function EffectiveSize(h: Header): nat {
    if h.typeflag == DIRECTORY then 0 else h.size
  }

  function SettlePending(st: State, flag: byte): State {
    st.(pendingPax := st.pendingPax && (flag == EXTENDED || flag == GLOBAL))
  }

  /** One round of the reader's loop on a non-zero header: the next state and the bytes consumed. */
  function Step(t: Text, st: State, rest: bytes): (r: Result<(State, nat), ArchiveError>)
    requires |rest| >= BLOCK
    ensures r.Ok? ==> r.value.1 >= BLOCK
  {
    var header := ReadHeader(t, rest[..BLOCK]);
    if header.None? then Err(Malformed)
    else
      var h := header.value;
      var end := BLOCK + EffectiveSize(h);
      if end > |rest| then Err(Malformed)
      else
        var next :- HandleEntry(t, SettlePending(st, h.typeflag), h, rest[BLOCK..end]);
        Ok((next, BLOCK + Padded(EffectiveSize(h))))
  }

  /** What is left of the archive after `n` bytes; the reader's offset may run past the end. */
  function Drop(rest: bytes, n: nat): bytes {
    if n <= |rest| then rest[n..] else []
  }

  function Finish(st: State, ended: bool): Result<Files, ArchiveError> {
    if st.pendingPax || !ended then Err(Malformed) else Ok(st.files)
  }

  predicate EndMarker(rest: bytes) {
    |rest| >= 2 * BLOCK && AllZero(rest[BLOCK..2 * BLOCK])
  }

  /** The reader from the current offset on. */
  function ReadRest(t: Text, rest: bytes, st: State): Result<Files, ArchiveError>
    decreases |rest|
  {
    if |rest| < BLOCK then Finish(st, false)
    else if AllZero(rest[..BLOCK]) then
      if EndMarker(rest) && !AllZero(rest[2 * BLOCK..]) then Err(Malformed) else Finish(st, EndMarker(rest))
    else
      var next :- Step(t, st, rest);
      ReadRest(t, Drop(rest, next.1), next.0)
  }

  /** The two extended headers, their records visited one by one. */
  method HandleExtended(t: Text, st: State, h: Header, data: bytes) returns (r: Result<State, ArchiveError>)
    requires h.typeflag == GLOBAL || h.typeflag == EXTENDED
    ensures r == HandleEntry(t, st, h, data)
  {
    var parsed := ParsePaxRecords(t, data);
    if st.pendingPax || parsed.None? {
      return Err(Malformed);
    }
    var records := parsed.value;
    if h.typeflag == GLOBAL {
      for i := 0 to |records|
        invariant forall k :: 0 <= k < i ==> GlobalRecordOk(records[k])
      {
        if !GlobalRecordOk(records[i]) {
          return Err(Malformed);
        }
      }
      return Ok(st);
    }
    var current := st;
    assert records[0..] == records;
    for i := 0 to |records|
      invariant ApplyRecords(st, records) == ApplyRecords(current, records[i..])
    {
      var next := ApplyRecord(current, records[i]);
      if next.Err? {
        return next;
      }
      assert records[i..][1..] == records[i + 1..];
      current := next.value;
    }
    r := Ok(current.(pendingPax := true));
  }

  /** The checksum is verified before any field is looked at. */
  method ParseHeader(t: Text, h: bytes) returns (r: Option<Header>)
    requires |h| == BLOCK
    ensures r == ReadHeader(t, h)
  {
    var sumOk := VerifyHeaderChecksum(h);
    r := if sumOk then ReadHeader(t, h) else None;
  }

  /** One round on a non-zero header. */
  method ReadEntry(t: Text, st: State, rest: bytes) returns (r: Result<(State, nat), ArchiveError>)
    requires |rest| >= BLOCK
    ensures r == Step(t, st, rest)
  {
    hide ReadHeader, HandleEntry;
    var parsed := ParseHeader(t, rest[..BLOCK]);
    if parsed.None? {
      return Err(Malformed);
    }
    var h := parsed.value;
    var end := BLOCK + EffectiveSize(h);
    if end > |rest| {
      return Err(Malformed);
    }
    var next: Result<State, ArchiveError>;
    if h.typeflag == GLOBAL || h.typeflag == EXTENDED {
      next := HandleExtended(t, SettlePending(st, h.typeflag), h, rest[BLOCK..end]);
    } else {
      next := HandleEntry(t, SettlePending(st, h.typeflag), h, rest[BLOCK..end]);
    }
    if next.Err? {
      return Err(next.error);
    }
    r := Ok((next.value, BLOCK + Padded(EffectiveSize(h))));
  }

  /** The archive reader: an offset and the pending overrides move through the bytes. */
  method ReadTar(t: Text, tar: bytes) returns (r: Result<Files, ArchiveError>)
    ensures r == ReadRest(t, tar, START)
  {
    hide Step, Finish;
    var st := START;
    var off := 0;
    while off + BLOCK <= |tar|
      invariant ReadRest(t, tar, START) == ReadRest(t, Drop(tar, off), st)
    {
      var rest := tar[off..];
      if AllZero(rest[..BLOCK]) {
        var sawEndMarker := EndMarker(rest);
        if sawEndMarker && !AllZero(rest[2 * BLOCK..]) {
          return Err(Malformed);
        }
        return Finish(st, sawEndMarker);
      }
      var next := ReadEntry(t, st, rest);
      if next.Err? {
        return Err(next.error);
      }
      assert Drop(rest, next.value.1) == Drop(tar, off + next.value.1);
      st := next.value.0;
      off := off + next.value.1;
    }
    r := Finish(st, false);
  }

  // ------------------------------------------------------------ soundness

  lemma {:induction false} ApplyRecordsKeeps(st: State, records: seq<Record>)
    requires ApplyRecords(st, records).Ok?
    ensures var next := ApplyRecords(st, records).value;
            next.files == st.files && next.seen == st.seen && next.pendingPax == st.pendingPax
    decreases |records|
  {
    if records != [] {
      ApplyRecordsKeeps(ApplyRecord(st, records[0]).value, records[1..]);
    }
  }

  lemma StepKeepsAccount(t: Text, st: State, rest: bytes)
    requires |rest| >= BLOCK && Accounted(t, st) && Step(t, st, rest).Ok?
    ensures Accounted(t, Step(t, st, rest).value.0)
  {
    var h := ReadHeader(t, rest[..BLOCK]).value;
    var settled := SettlePending(st, h.typeflag);
    var data := rest[BLOCK..BLOCK + EffectiveSize(h)];
    if h.typeflag == EXTENDED {
      ApplyRecordsKeeps(settled, ParsePax(t, data).value);
    } else if RegularFlag(h.typeflag) {
      var name := if settled.paxPath.Some? then settled.paxPath.value else HeaderName(h);
      AddFileKeepsAccount(t, settled.(paxPath := None, paxSize := None), name, data);
    }
  }

  /** Distinct collision keys imply distinct paths. */
  lemma SoundPathsAreUnique(t: Text, files: Files)
    requires Sound(t, files)
    ensures UniquePaths(files)
  {
  }

  /** Accepted archives are sound: legal paths, no two colliding keys and so no path twice, every limit met. */
  lemma {:induction false} AcceptedIsSound(t: Text, rest: bytes, st: State)
    requires Accounted(t, st) && ReadRest(t, rest, st).Ok?
    ensures Sound(t, ReadRest(t, rest, st).value) && UniquePaths(ReadRest(t, rest, st).value)
    decreases |rest|
  {
    if |rest| >= BLOCK && !AllZero(rest[..BLOCK]) {
      StepKeepsAccount(t, st, rest);
      var next := Step(t, st, rest).value;
      AcceptedIsSound(t, Drop(rest, next.1), next.0);
    } else {
      SoundPathsAreUnique(t, ReadRest(t, rest, st).value);
    }
  }
}
