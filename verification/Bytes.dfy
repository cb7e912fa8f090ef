/** Bytes, padding, and fixed-width integers in both byte orders. */
module Bytes {
  type byte = b: int | 0 <= b < 0x100

  type uint32 = n: int | 0 <= n < 0x1_0000_0000

  function Zeros(n: nat): (z: seq<byte>)
    ensures |z| == n && forall i :: 0 <= i < n ==> z[i] == 0
  {
    seq(n, _ => 0)
  }

  function Min(a: nat, b: nat): nat {
    if a < b then a else b
  }

  /** `(n + 7) & ~7` */
  function PaddedLength(n: nat): (r: nat)
    ensures r % 8 == 0 && n <= r < n + 8
  {
    (n + 7) / 8 * 8
  }

  /** `s.ljust(padded_len, b"\x00")`: zero bytes up to the next multiple of eight. */
  function Pad8(s: seq<byte>): (r: seq<byte>)
    ensures |r| == PaddedLength(|s|) && r[..|s|] == s
    ensures forall i :: |s| <= i < |r| ==> r[i] == 0
  {
    s + Zeros(PaddedLength(|s|) - |s|)
  }

  /** `struct.pack("<I", n)` */
  function LE32(n: uint32): (s: seq<byte>)
    ensures |s| == 4
  {
    [n % 0x100, n / 0x100 % 0x100, n / 0x1_0000 % 0x100, n / 0x100_0000]
  }

  /** `struct.unpack_from("<I", s, at)` */
  function ReadLE32(s: seq<byte>, at: nat): uint32
    requires at + 4 <= |s|
  {
    s[at] as int + s[at + 1] as int * 0x100 + s[at + 2] as int * 0x1_0000 + s[at + 3] as int * 0x100_0000
  }

  /** `struct.pack_into("<I", s, at, n)` */
  function PutLE32(s: seq<byte>, at: nat, n: uint32): (r: seq<byte>)
    requires at + 4 <= |s|
    ensures |r| == |s|
    ensures r[..at] == s[..at] && r[at + 4..] == s[at + 4..]
    ensures ReadLE32(r, at) == n
  {
    LE32RoundTrip(n);
    s[..at] + LE32(n) + s[at + 4..]
  }

  lemma LE32RoundTrip(n: uint32)
    ensures ReadLE32(LE32(n), 0) == n
  {
    assert n == n / 0x100 * 0x100 + n % 0x100;
    assert n / 0x100 == n / 0x1_0000 * 0x100 + n / 0x100 % 0x100;
    assert n / 0x1_0000 == n / 0x100_0000 * 0x100 + n / 0x1_0000 % 0x100;
  }

  lemma ReadShifted(s: seq<byte>, offset: nat, at: nat)
    requires offset + at + 4 <= |s|
    ensures ReadLE32(s[offset..], at) == ReadLE32(s, offset + at)
  {
  }

  /** `struct.pack("!I", n)` */
  function BE32(n: uint32): (s: seq<byte>)
    ensures |s| == 4
  {
    [n / 0x100_0000, n / 0x1_0000 % 0x100, n / 0x100 % 0x100, n % 0x100]
  }

  function ReadBE32(s: seq<byte>): uint32
    requires |s| == 4
  {
    s[0] as int * 0x100_0000 + s[1] as int * 0x1_0000 + s[2] as int * 0x100 + s[3] as int
  }

  lemma BE32RoundTrip(n: uint32)
    ensures ReadBE32(BE32(n)) == n
  {
    assert n == n / 0x100 * 0x100 + n % 0x100;
    assert n / 0x100 == n / 0x1_0000 * 0x100 + n / 0x100 % 0x100;
    assert n / 0x1_0000 == n / 0x100_0000 * 0x100 + n / 0x1_0000 % 0x100;
  }
}
