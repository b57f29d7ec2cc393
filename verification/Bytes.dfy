/** Bytes, fixed-width unsigned words and their little-endian layout in memory.

    The library copies `uint32_t` and `uint64_t` values to and from raw memory at both
    ends of a connection; only agreement of the two ends matters, so one byte order is
    fixed here. */
module Bytes {

  const U32: int := 0x1_0000_0000
  const U64: int := 0x1_0000_0000_0000_0000

  type byte = b: int | 0 <= b < 0x100
  type uint32 = n: int | 0 <= n < 0x1_0000_0000
  type uint64 = n: int | 0 <= n < 0x1_0000_0000_0000_0000

  datatype Option<+T> = None | Some(value: T)

  /** Number of values that fit in `width` bytes. */
  function Pow256(width: nat): (p: nat)
    ensures p > 0
  {
    if width == 0 then 1 else 256 * Pow256(width - 1)
  }

  /** The `width` low-order bytes of `n`, least significant first. */
  function LittleEndian(n: nat, width: nat): (s: seq<byte>)
    ensures |s| == width
  {
    if width == 0 then [] else [n % 256] + LittleEndian(n / 256, width - 1)
  }

  function FromLittleEndian(s: seq<byte>): nat {
    if s == [] then 0 else s[0] + 256 * FromLittleEndian(s[1..])
  }

  lemma {:induction false} FromLittleEndianInverse(n: nat, width: nat)
    requires n < Pow256(width)
    ensures FromLittleEndian(LittleEndian(n, width)) == n
  {
    if width > 0 {
      var s := LittleEndian(n, width);
      assert s[1..] == LittleEndian(n / 256, width - 1);
      FromLittleEndianInverse(n / 256, width - 1);
    }
  }

  lemma {:induction false} FromLittleEndianBound(s: seq<byte>)
    ensures FromLittleEndian(s) < Pow256(|s|)
  {
    if s != [] {
      FromLittleEndianBound(s[1..]);
    }
  }

  lemma Widths()
    ensures Pow256(4) == U32 && Pow256(8) == U64
  {
    assert Pow256(1) == 0x100;
    assert Pow256(2) == 0x1_0000;
    assert Pow256(3) == 0x100_0000;
    assert Pow256(4) == 0x1_0000_0000;
    assert Pow256(5) == 0x100_0000_0000;
    assert Pow256(6) == 0x1_0000_0000_0000;
    assert Pow256(7) == 0x100_0000_0000_0000;
  }

  function EncodeU32(n: uint32): (s: seq<byte>)
    ensures |s| == 4
    ensures FromLittleEndian(s) == n
  {
    Widths();
    FromLittleEndianInverse(n, 4);
    LittleEndian(n, 4)
  }

  function EncodeU64(n: uint64): (s: seq<byte>)
    ensures |s| == 8
    ensures FromLittleEndian(s) == n
  {
    Widths();
    FromLittleEndianInverse(n, 8);
    LittleEndian(n, 8)
  }

  function DecodeU64(s: seq<byte>): uint64
    requires |s| == 8
  {
    Widths();
    FromLittleEndianBound(s);
    FromLittleEndian(s)
  }

  /** Pieces put one after the other. */
  function Concat<T>(pieces: seq<seq<T>>): seq<T> {
    if pieces == [] then [] else pieces[0] + Concat(pieces[1..])
  }

  lemma Regroup<T>(a: seq<T>, b: seq<T>, c: seq<T>)
    ensures a + b + c == a + (b + c)
  {
  }

  /** The positions of the elements with a property. */
  function Positions<T>(xs: seq<T>, has: T -> bool): set<nat> {
    set k: nat | k < |xs| && has(xs[k])
  }

  lemma OneMorePosition<T>(xs: seq<T>, x: T, has: T -> bool)
    ensures |Positions(xs + [x], has)| == |Positions(xs, has)| + (if has(x) then 1 else 0)
  {
    var old', new' := Positions(xs, has), Positions(xs + [x], has);
    assert |xs| !in old';
    assert new' == if has(x) then old' + {|xs|} else old';
  }
}
