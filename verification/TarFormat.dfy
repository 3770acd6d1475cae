/** Byte-level pieces of the ustar interchange format: octal fields, header checksum, header layout. */
module TarFormat {
  import opened Common

  type byte = b: int | 0 <= b < 256
  type bytes = seq<byte>

  const BLOCK: nat := 512
  const SPACE: byte := 0x20
  const ZERO: byte := 0x30

  function Fill(b: byte, n: nat): (r: bytes)
    ensures |r| == n && forall i :: 0 <= i < n ==> r[i] == b
  {
    seq(n, _ => b)
  }

  predicate AllZero(s: bytes) {
    forall i :: 0 <= i < |s| ==> s[i] == 0
  }

  /** Bytes of `n` rounded up to whole blocks: Math.ceil(n / 512) * 512. */
  function Padded(n: nat): (m: nat)
    ensures n <= m < n + BLOCK && m % BLOCK == 0
  {
    (n + BLOCK - 1) / BLOCK * BLOCK
  }

  // ------------------------------------------------------------ octal numbers

  predicate IsOctal(s: bytes) {
    forall i :: 0 <= i < |s| ==> ZERO <= s[i] < ZERO + 8
  }

  /** `n.toString(8)`. */
  function OctalOf(n: nat): (s: bytes)
    ensures |s| > 0 && IsOctal(s)
  {
    if n < 8 then [ZERO + n] else OctalOf(n / 8) + [ZERO + n % 8]
  }

  /** `s.padStart(width, "0")`. */
  function PadStart(s: bytes, width: nat): (r: bytes)
    ensures |r| == if |s| >= width then |s| else width
    ensures IsOctal(s) ==> IsOctal(r)
  {
    if |s| >= width then s else Fill(ZERO, width - |s|) + s
  }

  /** `parseInt(s, 8)` on octal digits. */
  function ParseOctal(s: bytes): nat
    requires IsOctal(s)
  {
    if s == [] then 0 else 8 * ParseOctal(s[..|s| - 1]) + (s[|s| - 1] - ZERO)
  }

  function Pow8(k: nat): (p: nat)
    ensures p > 0
  {
    if k == 0 then 1 else 8 * Pow8(k - 1)
  }

  lemma {:induction false} OctalRoundTrip(n: nat)
    ensures ParseOctal(OctalOf(n)) == n
  {
    if n >= 8 {
      OctalRoundTrip(n / 8);
      assert OctalOf(n)[..|OctalOf(n)| - 1] == OctalOf(n / 8);
    } else {
      assert OctalOf(n)[..0] == [];
    }
  }

  lemma {:induction false} LeadingZeros(k: nat, s: bytes)
    requires IsOctal(s)
    ensures IsOctal(Fill(ZERO, k) + s) && ParseOctal(Fill(ZERO, k) + s) == ParseOctal(s)
    decreases k + |s|
  {
    var t := Fill(ZERO, k) + s;
    if |s| > 0 {
      LeadingZeros(k, s[..|s| - 1]);
      assert t[..|t| - 1] == Fill(ZERO, k) + s[..|s| - 1];
    } else if k > 0 {
      LeadingZeros(k - 1, s);
      assert t[..|t| - 1] == Fill(ZERO, k - 1) + s;
    }
  }

  lemma {:induction false} OctalWidth(n: nat, k: nat)
    requires k > 0 && n < Pow8(k)
    ensures |OctalOf(n)| <= k
  {
    if n >= 8 {
      assert k > 1;
      OctalWidth(n / 8, k - 1);
    }
  }

  /** A number narrower than the field survives the packer's zero-padded octal text. */
  lemma PaddedOctalRoundTrip(n: nat, width: nat)
    requires width > 0 && n < Pow8(width)
    ensures |PadStart(OctalOf(n), width)| == width
    ensures ParseOctal(PadStart(OctalOf(n), width)) == n
  {
    OctalWidth(n, width);
    OctalRoundTrip(n);
    LeadingZeros(width - |OctalOf(n)|, OctalOf(n));
  }

  // ------------------------------------------------------------ numeric fields

  function TrimEnd(s: bytes): (r: bytes)
    ensures r <= s
  {
    if s != [] && (s[|s| - 1] == 0 || s[|s| - 1] == SPACE) then TrimEnd(s[..|s| - 1]) else s
  }

  function TrimStart(s: bytes): (r: bytes)
    ensures |r| <= |s|
  {
    if s != [] && s[0] == SPACE then TrimStart(s[1..]) else s
  }

  /** A ustar numeric field; None is the reader's MALFORMED_ARCHIVE. */
  function OctalText(raw: bytes, allowEmpty: bool): Option<nat> {
    var trimmed := TrimStart(TrimEnd(raw));
    if trimmed == [] then (if allowEmpty then Some(0) else None)
    else if !IsOctal(trimmed) then None
    else Some(ParseOctal(trimmed))
  }

  lemma {:induction false} TrimEndPadding(s: bytes, tail: bytes)
    requires forall i :: 0 <= i < |tail| ==> tail[i] == 0 || tail[i] == SPACE
    requires s == [] || (s[|s| - 1] != 0 && s[|s| - 1] != SPACE)
    ensures TrimEnd(s + tail) == s
    decreases |tail|
  {
    if tail == [] {
      assert s + tail == s;
    } else {
      TrimEndPadding(s, tail[..|tail| - 1]);
      assert (s + tail)[..|s + tail| - 1] == s + tail[..|tail| - 1];
    }
  }

  /** What the packer writes into a numeric field is what the reader takes out of it. */
  lemma NumericFieldRoundTrip(n: nat, width: nat, tail: bytes, allowEmpty: bool)
    requires width > 0 && n < Pow8(width)
    requires forall i :: 0 <= i < |tail| ==> tail[i] == 0 || tail[i] == SPACE
    ensures OctalText(PadStart(OctalOf(n), width) + tail, allowEmpty) == Some(n)
  {
    PaddedOctalRoundTrip(n, width);
    TrimEndPadding(PadStart(OctalOf(n), width), tail);
  }

  lemma BlankField(k: nat)
    ensures OctalText(Fill(0, k), true) == Some(0)
  {
    TrimEndPadding([], Fill(0, k));
    assert [] + Fill(0, k) == Fill(0, k);
  }

  // ------------------------------------------------------------ checksum

  function Sum(s: bytes): nat {
    if s == [] then 0 else Sum(s[..|s| - 1]) + s[|s| - 1]
  }

  lemma {:induction false} SumBound(s: bytes)
    ensures Sum(s) <= 255 * |s|
  {
    if s != [] {
      SumBound(s[..|s| - 1]);
    }
  }

  /** The header with its own checksum field read as blanks. */
  function Blanked(header: bytes): (r: bytes)
    requires |header| == BLOCK
    ensures |r| == BLOCK
  {
    header[..148] + Fill(SPACE, 8) + header[156..]
  }

  predicate ChecksumOk(header: bytes)
    requires |header| == BLOCK
  {
    OctalText(header[148..156], false) == Some(Sum(Blanked(header)))
  }

  /** The reader's summing loop decides exactly `ChecksumOk`. */
  method VerifyHeaderChecksum(header: bytes) returns (ok: bool)
    requires |header| == BLOCK
    ensures ok == ChecksumOk(header)
  {
    var stored := OctalText(header[148..156], false);
    if stored.None? {
      return false;
    }
    ghost var blanked := Blanked(header);
    var sum := 0;
    for i := 0 to BLOCK
      invariant sum == Sum(blanked[..i])
    {
      sum := sum + if 148 <= i < 156 then SPACE else header[i];
      assert blanked[..i + 1][..i] == blanked[..i];
    }
    assert blanked[..BLOCK] == blanked;
    ok := stored.value == sum;
  }

  // ------------------------------------------------------------ header layout

  /** `buffer.write(w, at)`: overwrite a stretch, keep everything else. */
  function Overlay(s: bytes, at: nat, w: bytes): (r: bytes)
    requires at + |w| <= |s|
    ensures |r| == |s|
  {
    s[..at] + w + s[at + |w|..]
  }

  lemma OverlayAt(s: bytes, at: nat, w: bytes, i: nat)
    requires at + |w| <= |s| && i < |s|
    ensures Overlay(s, at, w)[i] == if at <= i < at + |w| then w[i - at] else s[i]
  {
  }

  const MODE: bytes := [48, 48, 48, 48, 54, 52, 52, 0]   // "0000644\0"
  const OWNER: bytes := [48, 48, 48, 48, 48, 48, 48, 0]  // "0000000\0"
  const EPOCH: bytes := Fill(ZERO, 11) + [0]
  const MAGIC: bytes := [117, 115, 116, 97, 114, 0]      // "ustar\0"
  const VERSION: bytes := [48, 48]
  const REGULAR: byte := 48                              // typeflag "0"

  function SizeField(size: nat): bytes {
    PadStart(OctalOf(size), 11) + [0]
  }

  /** The header before its checksum is known: the checksum field holds blanks. */
  function Unsummed(name: bytes, size: nat): (h: bytes)
    requires |name| <= 100 && size < Pow8(11)
    ensures |h| == BLOCK
  {
    PaddedOctalRoundTrip(size, 11);
    var h := Overlay(Fill(0, BLOCK), 0, name);
    var h := Overlay(Overlay(Overlay(h, 100, MODE), 108, OWNER), 116, OWNER);
    var h := Overlay(Overlay(h, 124, SizeField(size)), 136, EPOCH);
    var h := Overlay(Overlay(h, 148, Fill(SPACE, 8)), 156, [REGULAR]);
    Overlay(Overlay(h, 257, MAGIC), 263, VERSION)
  }

  function ChecksumField(sum: nat): bytes {
    PadStart(OctalOf(sum), 6) + [0, SPACE]
  }

  lemma ChecksumFits(h: bytes)
    requires |h| == BLOCK
    ensures Sum(h) < Pow8(6) && |ChecksumField(Sum(h))| == 8
  {
    SumBound(h);
    assert Pow8(6) == 262144;
    PaddedOctalRoundTrip(Sum(h), 6);
  }

  /** The header block the packer emits for a regular file. */
  function HeaderOf(name: bytes, size: nat): (h: bytes)
    requires |name| <= 100 && size < Pow8(11)
    ensures |h| == BLOCK
  {
    var h := Unsummed(name, size);
    ChecksumFits(h);
    Overlay(h, 148, ChecksumField(Sum(h)))
  }

  /** Byte `i` of the header before the checksum is written over its blanks. */
  function UnsummedByte(name: bytes, size: nat, i: nat): byte
    requires |name| <= 100 && size < Pow8(11) && i < BLOCK
  {
    PaddedOctalRoundTrip(size, 11);
    if i < |name| then name[i]
    else if 100 <= i < 108 then MODE[i - 100]
    else if 108 <= i < 116 then OWNER[i - 108]
    else if 116 <= i < 124 then OWNER[i - 116]
    else if 124 <= i < 136 then SizeField(size)[i - 124]
    else if 136 <= i < 148 then EPOCH[i - 136]
    else if 148 <= i < 156 then SPACE
    else if i == 156 then REGULAR
    else if 257 <= i < 263 then MAGIC[i - 257]
    else if 263 <= i < 265 then VERSION[i - 263]
    else 0
  }

  lemma UnsummedAt(name: bytes, size: nat, i: nat)
    requires |name| <= 100 && size < Pow8(11) && i < BLOCK
    ensures Unsummed(name, size)[i] == UnsummedByte(name, size, i)
  {
    PaddedOctalRoundTrip(size, 11);
    hide SizeField, Pow8, OctalOf, PadStart;
    var h0 := Fill(0, BLOCK);
    OverlayAt(h0, 0, name, i);
    var h1 := Overlay(h0, 0, name);
    OverlayAt(h1, 100, MODE, i);
    var h2 := Overlay(h1, 100, MODE);
    OverlayAt(h2, 108, OWNER, i);
    var h3 := Overlay(h2, 108, OWNER);
    OverlayAt(h3, 116, OWNER, i);
    var h4 := Overlay(h3, 116, OWNER);
    OverlayAt(h4, 124, SizeField(size), i);
    var h5 := Overlay(h4, 124, SizeField(size));
    OverlayAt(h5, 136, EPOCH, i);
    var h6 := Overlay(h5, 136, EPOCH);
    OverlayAt(h6, 148, Fill(SPACE, 8), i);
    var h7 := Overlay(h6, 148, Fill(SPACE, 8));
    OverlayAt(h7, 156, [REGULAR], i);
    var h8 := Overlay(h7, 156, [REGULAR]);
    OverlayAt(h8, 257, MAGIC, i);
    OverlayAt(Overlay(h8, 257, MAGIC), 263, VERSION, i);
  }

  /** Outside the checksum field the finished header still holds what was filled in first. */
  lemma HeaderAt(name: bytes, size: nat)
    requires |name| <= 100 && size < Pow8(11)
    ensures forall i :: 0 <= i < BLOCK && !(148 <= i < 156) ==>
                          HeaderOf(name, size)[i] == UnsummedByte(name, size, i)
    ensures HeaderOf(name, size)[148..156] == ChecksumField(Sum(Unsummed(name, size)))
    ensures Blanked(HeaderOf(name, size)) == Unsummed(name, size)
  {
    var u := Unsummed(name, size);
    var h := HeaderOf(name, size);
    ChecksumFits(u);
    forall i | 0 <= i < BLOCK
      ensures u[i] == UnsummedByte(name, size, i)
      ensures h[i] == if 148 <= i < 156 then ChecksumField(Sum(u))[i - 148] else u[i]
    {
      UnsummedAt(name, size, i);
      OverlayAt(u, 148, ChecksumField(Sum(u)), i);
    }
  }

  lemma HeaderChecksum(name: bytes, size: nat)
    requires |name| <= 100 && size < Pow8(11)
    ensures ChecksumOk(HeaderOf(name, size))
  {
    HeaderAt(name, size);
    ChecksumFits(Unsummed(name, size));
    NumericFieldRoundTrip(Sum(Unsummed(name, size)), 6, [0, SPACE], false);
  }

  /** Every field of the packer's header, as the reader slices it. */
  lemma HeaderFields(name: bytes, size: nat)
    requires |name| <= 100 && size < Pow8(11)
    ensures var h := HeaderOf(name, size);
      && h[..100] == name + Fill(0, 100 - |name|)
      && h[100..108] == MODE && h[108..116] == OWNER && h[116..124] == OWNER
      && h[124..136] == SizeField(size) && h[136..148] == EPOCH
      && h[156] == REGULAR && h[157..257] == Fill(0, 100)
      && h[257..263] == MAGIC && h[263..265] == VERSION
      && h[265..297] == Fill(0, 32) && h[297..329] == Fill(0, 32)
      && h[329..337] == Fill(0, 8) && h[337..345] == Fill(0, 8) && h[345..500] == Fill(0, 155)
  {
    HeaderAt(name, size);
    PaddedOctalRoundTrip(size, 11);
  }

  /** Overwrite a stretch of a buffer in place. */
  method Put(buffer: array<byte>, at: nat, w: bytes)
    requires at + |w| <= buffer.Length
    modifies buffer
    ensures buffer[..] == Overlay(old(buffer[..]), at, w)
  {
    for i := 0 to |w|
      invariant buffer[..] == old(buffer[..at]) + w[..i] + old(buffer[at + i..])
    {
      buffer[at + i] := w[i];
    }
  }

  method FillFields(buffer: array<byte>, name: bytes, size: nat)
    requires |name| <= 100 && size < Pow8(11) && buffer[..] == Fill(0, BLOCK)
    modifies buffer
    ensures buffer[..] == Unsummed(name, size)
  {
    PaddedOctalRoundTrip(size, 11);
    Put(buffer, 0, name);
    Put(buffer, 100, MODE);
    Put(buffer, 108, OWNER);
    Put(buffer, 116, OWNER);
    Put(buffer, 124, SizeField(size));
    Put(buffer, 136, EPOCH);
    Put(buffer, 148, Fill(SPACE, 8));
    Put(buffer, 156, [REGULAR]);
    Put(buffer, 257, MAGIC);
    Put(buffer, 263, VERSION);
  }

  /** The packer's header, filled in place in one zeroed 512-byte buffer; the checksum is written last. */
  method BuildHeader(name: bytes, size: nat) returns (header: bytes)
    requires |name| <= 100 && size < Pow8(11)
    ensures header == HeaderOf(name, size)
  {
    var buffer := new byte[BLOCK](_ => 0);
    assert buffer[..] == Fill(0, BLOCK);
    FillFields(buffer, name, size);
    ghost var unsummed := buffer[..];
    var sum: nat := 0;
    for i := 0 to BLOCK
      invariant sum == Sum(unsummed[..i])
    {
      sum := sum + buffer[i];
      assert unsummed[..i + 1][..i] == unsummed[..i];
    }
    assert unsummed[..BLOCK] == unsummed;
    ChecksumFits(unsummed);
    Put(buffer, 148, ChecksumField(sum));
    header := buffer[..];
  }
}
