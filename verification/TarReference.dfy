/** A second, lenient reader that applies every pax attribute the way POSIX describes it: local over global,
    last record wins, an empty value deletes. On every archive the profile accepts, both read the same files. */
module TarReference {
  import opened Common
  import opened Decimal
  import opened TarFormat
  import opened TarProfile
  import opened TarPax
  import opened TarReader

  type Attributes = map<string, string>

  function Merge(attributes: Attributes, records: seq<Record>): Attributes
    decreases |records|
  {
    if records == [] then attributes
    else Merge(attributes[records[0].0 := records[0].1], records[1..])
  }

  function Lookup(attributes: Attributes, key: string): Option<string> {
    if key in attributes && attributes[key] != "" then Some(attributes[key]) else None
  }

  /** A local record, even a deletion, hides the global attribute of the same name. */
  function Effective(globals: Attributes, locals: Attributes, key: string): Option<string> {
    if key in locals then Lookup(locals, key) else Lookup(globals, key)
  }

  function EffectiveName(h: Header, globals: Attributes, locals: Attributes): string {
    Effective(globals, locals, "path").GetOr(HeaderName(h))
  }

  /** The size a pax-aware consumer uses: the override when there is one, else the header's. */
  function PaxSize(h: Header, globals: Attributes, locals: Attributes): nat {
    var override := Effective(globals, locals, "size");
    if h.typeflag == DIRECTORY then 0
    else if override.Some? && Digits(override.value) then ParseDecimal(override.value)
    else h.size
  }

  datatype Consumer = Consumer(files: Files, globals: Attributes, locals: Attributes)

  function ConsumeExtended(c: Consumer, h: Header, records: seq<Record>): Consumer {
    if h.typeflag == GLOBAL then c.(globals := Merge(c.globals, records)) else c.(locals := Merge(map[], records))
  }

  function ConsumeFile(c: Consumer, h: Header, data: bytes): Consumer {
    var name := EffectiveName(h, c.globals, c.locals);
    Consumer(if RegularFlag(h.typeflag) then c.files + [Entry(name, data)] else c.files, c.globals, map[])
  }

  predicate ExtendedFlag(flag: byte) {
    flag == GLOBAL || flag == EXTENDED
  }

  /** One header and its data; None: not an archive this consumer can read at all. */
  function ConsumeHeader(t: Text, c: Consumer, h: Header, rest: bytes): Option<(Consumer, nat)>
    requires |rest| >= BLOCK
  {
    var size := if ExtendedFlag(h.typeflag) then h.size else PaxSize(h, c.globals, c.locals);
    if BLOCK + size > |rest| then None
    else
      var data := rest[BLOCK..BLOCK + size];
      if !ExtendedFlag(h.typeflag) then Some((ConsumeFile(c, h, data), BLOCK + Padded(size)))
      else if ParsePax(t, data).None? then None
      else Some((ConsumeExtended(c, h, ParsePax(t, data).value), BLOCK + Padded(size)))
  }

  function ConsumeStep(t: Text, c: Consumer, rest: bytes): (r: Option<(Consumer, nat)>)
    requires |rest| >= BLOCK
    ensures r.Some? ==> r.value.1 >= BLOCK
  {
    var header := ReadHeader(t, rest[..BLOCK]);
    if header.None? then None else ConsumeHeader(t, c, header.value, rest)
  }

  function Consume(t: Text, rest: bytes, c: Consumer): Option<Files>
    decreases |rest|
  {
    if |rest| < BLOCK || AllZero(rest[..BLOCK]) then Some(c.files)
    else
      var next := ConsumeStep(t, c, rest);
      if next.None? then None else Consume(t, Drop(rest, next.value.1), next.value.0)
  }

  /** Nothing a global header left behind can rename an entry or change how its bytes are read. */
  ghost predicate Harmless(globals: Attributes) {
    forall key :: key in globals ==> globals[key] == "" || key in GLOBAL_IGNORABLE_KEYS
  }

  ghost predicate Tracks(st: State, locals: Attributes) {
    && st.paxPath == Lookup(locals, "path")
    && st.paxSize.Some? == Lookup(locals, "size").Some?
    && (st.paxSize.Some? ==> Digits(locals["size"]) && st.paxSize.value == ParseDecimal(locals["size"]))
  }

  ghost predicate Agrees(st: State, c: Consumer) {
    && st.files == c.files && Harmless(c.globals) && Tracks(st, c.locals)
    && (!st.pendingPax ==> st.paxPath.None? && st.paxSize.None? && c.locals == map[])
  }

  lemma {:induction false} MergeGlobals(globals: Attributes, records: seq<Record>)
    requires Harmless(globals) && forall i :: 0 <= i < |records| ==> GlobalRecordOk(records[i])
    ensures Harmless(Merge(globals, records))
    decreases |records|
  {
    if records != [] {
      MergeGlobals(globals[records[0].0 := records[0].1], records[1..]);
    }
  }

  lemma {:induction false} MergeLocals(st: State, locals: Attributes, records: seq<Record>)
    requires Tracks(st, locals) && ApplyRecords(st, records).Ok?
    ensures Tracks(ApplyRecords(st, records).value, Merge(locals, records))
    decreases |records|
  {
    if records != [] {
      MergeLocals(ApplyRecord(st, records[0]).value, locals[records[0].0 := records[0].1], records[1..]);
    }
  }

  /** The overrides a file header meets: the name is the same and the size override changes nothing. */
  lemma OverridesAgree(st: State, c: Consumer, h: Header)
    requires Agrees(st, c)
    requires st.paxSize.Some? ==> st.paxSize.value == h.size
    ensures PaxSize(h, c.globals, c.locals) == EffectiveSize(h)
    ensures EffectiveName(h, c.globals, c.locals) == if st.paxPath.Some? then st.paxPath.value else HeaderName(h)
  {
    assert Lookup(c.globals, "path").None? && Lookup(c.globals, "size").None?;
  }

  lemma ExtendedStep(t: Text, st: State, c: Consumer, h: Header, data: bytes)
    requires Agrees(st, c) && ExtendedFlag(h.typeflag) && HandleEntry(t, st, h, data).Ok?
    ensures ParsePax(t, data).Some?
    ensures Agrees(HandleEntry(t, st, h, data).value, ConsumeExtended(c, h, ParsePax(t, data).value))
  {
    var records := ParsePax(t, data).value;
    if h.typeflag == GLOBAL {
      MergeGlobals(c.globals, records);
    } else {
      assert Tracks(st, map[]);
      MergeLocals(st, map[], records);
      ApplyRecordsKeeps(st, records);
    }
  }

  lemma FileStep(t: Text, st: State, c: Consumer, h: Header, data: bytes)
    requires Agrees(st, c) && !ExtendedFlag(h.typeflag)
    requires HandleEntry(t, SettlePending(st, h.typeflag), h, data).Ok?
    ensures PaxSize(h, c.globals, c.locals) == EffectiveSize(h)
    ensures Agrees(HandleEntry(t, SettlePending(st, h.typeflag), h, data).value, ConsumeFile(c, h, data))
  {
    OverridesAgree(st, c, h);
  }

  lemma StepsAgree(t: Text, st: State, c: Consumer, rest: bytes)
    requires |rest| >= BLOCK && Agrees(st, c) && Step(t, st, rest).Ok?
    ensures var next := Step(t, st, rest).value;
            var consumed := ConsumeStep(t, c, rest);
            consumed.Some? && consumed.value.1 == next.1 && Agrees(next.0, consumed.value.0)
  {
    hide ReadHeader, HandleEntry, Agrees, ConsumeFile, ConsumeExtended, PaxSize, ParsePax;
    var h := ReadHeader(t, rest[..BLOCK]).value;
    var data := rest[BLOCK..BLOCK + EffectiveSize(h)];
    if ExtendedFlag(h.typeflag) {
      assert SettlePending(st, h.typeflag) == st;
      ExtendedStep(t, st, c, h, data);
    } else {
      FileStep(t, st, c, h, data);
    }
  }

  /** Two readers, one archive: whatever the profile accepts, the pax-aware consumer reads identically. */
  lemma {:induction false} ReadersAgree(t: Text, rest: bytes, st: State, c: Consumer)
    requires Agrees(st, c) && ReadRest(t, rest, st).Ok?
    ensures Consume(t, rest, c) == Some(ReadRest(t, rest, st).value)
    decreases |rest|
  {
    hide Step, ConsumeStep;
    if |rest| >= BLOCK && !AllZero(rest[..BLOCK]) {
      StepsAgree(t, st, c, rest);
      var next := Step(t, st, rest).value;
      ReadersAgree(t, Drop(rest, next.1), next.0, ConsumeStep(t, c, rest).value.0);
    }
  }

  /** From the start of any archive. */
  lemma AcceptedReadsTheSame(t: Text, tar: bytes)
    requires ReadRest(t, tar, START).Ok?
    ensures Consume(t, tar, Consumer([], map[], map[])) == Some(ReadRest(t, tar, START).value)
  {
    ReadersAgree(t, tar, START, Consumer([], map[], map[]));
  }
}
