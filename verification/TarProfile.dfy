/** The package profile: path rules, collision keys, limits and the accounting every member goes through. */
module TarProfile {
  import opened Common
  import opened TarFormat

  /** What the profile takes from committed Unicode tables and the platform's UTF-8 codec. */
  datatype Text = Text(
    wellFormed: string -> bool,
    encode: string -> bytes,
    decode: bytes -> Option<string>,
    isNFC: string -> bool,
    foldKey: string -> string)

  predicate Ascii(s: string) {
    forall i :: 0 <= i < |s| ==> (s[i] as int) < 128
  }

  function AsciiBytes(s: string): (b: bytes)
    requires Ascii(s)
    ensures |b| == |s| && forall i :: 0 <= i < |s| ==> b[i] == s[i] as int
  {
    seq(|s|, i requires 0 <= i < |s| => s[i] as int)
  }

  ghost predicate TextLaw(t: Text, s: string) {
    && (t.wellFormed(s) ==> t.decode(t.encode(s)) == Some(s))
    && (Ascii(s) ==> t.wellFormed(s) && t.encode(s) == AsciiBytes(s))
    && (t.wellFormed(s) && '\0' !in s ==> 0 !in t.encode(s))
  }

  ghost predicate ByteLaw(t: Text, b: bytes) {
    t.decode(b).Some? ==> t.wellFormed(t.decode(b).value) && t.encode(t.decode(b).value) == b
  }

  /** UTF-8 is a bijection between well-formed texts and the byte strings the strict decoder accepts,
      it is the identity on ASCII, and only NUL encodes to a zero byte. */
  ghost predicate Lawful(t: Text) {
    (forall s :: TextLaw(t, s)) && (forall b :: ByteLaw(t, b))
  }

  /** The laws are consistent: ASCII alone, taken as the whole alphabet, already satisfies them. */
  function AsciiOnly(): Text {
    Text(
      (s: string) => Ascii(s),
      (s: string) => if Ascii(s) then AsciiBytes(s) else [],
      (b: bytes) => if forall i :: 0 <= i < |b| ==> b[i] < 128
                    then Some(seq(|b|, i requires 0 <= i < |b| => b[i] as char)) else None,
      (s: string) => true,
      (s: string) => s)
  }

  lemma AsciiOnlyIsLawful()
    ensures Lawful(AsciiOnly())
  {
    forall s: string
      ensures TextLaw(AsciiOnly(), s)
    {
      if Ascii(s) {
        assert AsciiOnly().decode(AsciiBytes(s)).value == s;
      }
    }
    forall b: bytes
      ensures ByteLaw(AsciiOnly(), b)
    {
      if AsciiOnly().decode(b).Some? {
        assert AsciiOnly().encode(AsciiOnly().decode(b).value) == b;
      }
    }
  }

  lemma EncodeInjective(t: Text, a: string, b: string)
    requires Lawful(t) && t.wellFormed(a) && t.wellFormed(b) && t.encode(a) == t.encode(b)
    ensures a == b
  {
    assert TextLaw(t, a) && TextLaw(t, b);
  }

  /** The two refusals of the archive profile. */
  datatype ArchiveError = Malformed | LimitExceeded

  const MAX_FILES: nat := 512
  const MAX_TOTAL_BYTES: nat := 64 * 1024 * 1024
  const MAX_FILE_BYTES: nat := 4 * 1024 * 1024

  predicate ControlChar(c: char) {
    c as int <= 0x1f || 0x7f <= c as int <= 0x9f
  }

  predicate Letter(c: char) {
    'A' <= c <= 'Z' || 'a' <= c <= 'z'
  }

  /** The path rules; a path that fails any of them is MALFORMED_ARCHIVE. */
  predicate CheckPath(t: Text, path: string) {
    && |path| > 0
    && t.wellFormed(path)
    && (forall i :: 0 <= i < |path| ==> !ControlChar(path[i]))
    && '\\' !in path
    && path[0] != '/'
    && !(|path| >= 2 && Letter(path[0]) && path[1] == ':')
    && (forall k :: 0 <= k < |Split(path, '/')| ==> Split(path, '/')[k] !in ["..", "", "."])
    && t.isNFC(path)
  }

  /** One member of a package; a package is a JavaScript Map, so its members keep insertion order. */
  datatype Entry = Entry(path: string, data: bytes)
  type Files = seq<Entry>

  predicate HasPath(files: Files, path: string) {
    exists i :: 0 <= i < |files| && files[i].path == path
  }

  ghost predicate UniquePaths(files: Files) {
    forall i, j :: 0 <= i < j < |files| ==> files[i].path != files[j].path
  }

  function TotalBytes(files: Files): nat {
    if files == [] then 0 else TotalBytes(files[..|files| - 1]) + |files[|files| - 1].data|
  }

  /** The path-to-bytes map a package stands for. */
  ghost function ToMap(files: Files): map<string, bytes> {
    if files == [] then map[]
    else ToMap(files[..|files| - 1])[files[|files| - 1].path := files[|files| - 1].data]
  }

  /** What the reader carries from one header to the next. */
  datatype State = State(
    files: Files,
    seen: set<string>,
    paxPath: Option<string>,
    paxSize: Option<nat>,
    pendingPax: bool)

  const START: State := State([], {}, None, None, false)

  /** Admit one regular file, or refuse it. */
  function AddFile(t: Text, st: State, path: string, data: bytes): Result<State, ArchiveError> {
    var files := st.files + [Entry(path, data)];
    if !CheckPath(t, path) || HasPath(st.files, path) || t.foldKey(path) in st.seen then Err(Malformed)
    else if |data| > MAX_FILE_BYTES || |files| > MAX_FILES || TotalBytes(files) > MAX_TOTAL_BYTES then
      Err(LimitExceeded)
    else Ok(st.(files := files, seen := st.seen + {t.foldKey(path)}))
  }

  /** Account for one directory entry. */
  function AddDirectory(t: Text, st: State, path: string): Result<State, ArchiveError> {
    if !CheckPath(t, path) || t.foldKey(path) in st.seen then Err(Malformed)
    else Ok(st.(seen := st.seen + {t.foldKey(path)}))
  }

  /** What the profile promises of every package it accepts. */
  ghost predicate Sound(t: Text, files: Files) {
    && (forall i :: 0 <= i < |files| ==> CheckPath(t, files[i].path) && |files[i].data| <= MAX_FILE_BYTES)
    && (forall i, j :: 0 <= i < j < |files| ==> t.foldKey(files[i].path) != t.foldKey(files[j].path))
    && |files| <= MAX_FILES
    && TotalBytes(files) <= MAX_TOTAL_BYTES
  }

  ghost predicate Accounted(t: Text, st: State) {
    && Sound(t, st.files)
    && forall i :: 0 <= i < |st.files| ==> t.foldKey(st.files[i].path) in st.seen
  }

  lemma AddFileKeepsAccount(t: Text, st: State, path: string, data: bytes)
    requires Accounted(t, st) && AddFile(t, st, path, data).Ok?
    ensures Accounted(t, AddFile(t, st, path, data).value)
  {
  }
}
