/** Byte strings: big-endian numbers, text found at an offset, and slices with a capacity. */
module Bytes {
  import opened Options
  import opened Words

  function Pow256(n: nat): nat { if n == 0 then 1 else 256 * Pow256(n - 1) }

  /** The big-endian number held in s. */
  function FromBigEndian(s: seq<byte>): (v: nat)
    ensures v < Pow256(|s|)
  {
    if s == [] then 0 else 256 * FromBigEndian(s[..|s| - 1]) + s[|s| - 1]
  }

  /** The width-byte big-endian form of v. */
  function ToBigEndian(v: nat, width: nat): (s: seq<byte>)
    requires v < Pow256(width)
    ensures |s| == width && FromBigEndian(s) == v
  {
    if width == 0 then [] else
      var front := ToBigEndian(v / 256, width - 1);
      assert (front + [v % 256])[..width - 1] == front;
      front + [v % 256]
  }

  lemma {:induction false} RewriteBigEndian(s: seq<byte>)
    ensures ToBigEndian(FromBigEndian(s), |s|) == s
  {
    if s != [] {
      RewriteBigEndian(s[..|s| - 1]);
    }
  }

  lemma Widths()
    ensures Pow256(1) == 0x100 && Pow256(2) == 0x1_0000 && Pow256(4) == 0x1_0000_0000
    ensures Pow256(8) == 0x1_0000_0000_0000_0000
  {
    assert Pow256(3) == 256 * Pow256(2) && Pow256(5) == 256 * Pow256(4);
    assert Pow256(6) == 256 * Pow256(5) && Pow256(7) == 256 * Pow256(6);
  }

  /** Small numbers byte by byte. */
  lemma {:induction false} TwoBytes(v: nat)
    requires v < 0x1_0000
    ensures v < Pow256(2) && ToBigEndian(v, 2) == [v / 256, v % 256]
  {
    Widths();
    assert ToBigEndian(v / 256, 1) == ToBigEndian(v / 256 / 256, 0) + [v / 256 % 256] == [v / 256];
  }

  lemma {:induction false} FourBytes(v: nat)
    requires v < 0x1_0000
    ensures v < Pow256(4) && ToBigEndian(v, 4) == [0, 0, v / 256, v % 256]
  {
    Widths();
    assert Pow256(3) == 0x100_0000;
    assert ToBigEndian(0, 1) == ToBigEndian(0, 0) + [0] == [0];
    assert ToBigEndian(0, 2) == ToBigEndian(0, 1) + [0] == [0, 0];
    assert ToBigEndian(v / 256, 3) == ToBigEndian(v / 256 / 256, 2) + [v / 256 % 256];
  }

  lemma Assoc(a: seq<byte>, b: seq<byte>, c: seq<byte>)
    ensures (a + b) + c == a + (b + c)
  {
  }

  /** A string split at a fixed length has one first part and one rest. */
  lemma SplitAt(s: seq<byte>, a: seq<byte>, t: seq<byte>)
    ensures s == a + t <==> |s| >= |a| && s[..|a|] == a && s[|a|..] == t
  {
    if |s| >= |a| { assert s == s[..|a|] + s[|a|..]; }
    assert (a + t)[..|a|] == a && (a + t)[|a|..] == t;
  }

  lemma PrefixConcat(a: seq<byte>, b: seq<byte>, data: seq<byte>)
    ensures a + b <= data <==> a <= data && b <= data[|a|..]
  {
    if a <= data && b <= data[|a|..] {
      assert data == a + data[|a|..];
      assert data[|a|..] == b + data[|a|..][|b|..];
      assert data == (a + b) + data[|a|..][|b|..];
    }
    if a + b <= data {
      assert data == (a + b) + data[|a + b|..];
      assert data == a + (b + data[|a + b|..]);
    }
  }

  lemma NumberPrefix(v: nat, width: nat, data: seq<byte>)
    requires v < Pow256(width)
    ensures ToBigEndian(v, width) <= data <==> |data| >= width && FromBigEndian(data[..width]) == v
  {
    hide FromBigEndian, ToBigEndian, Pow256;
    var s := ToBigEndian(v, width);
    assert s <= data <==> |data| >= width && data[..width] == s;
    if |data| >= width { RewriteBigEndian(data[..width]); }
  }

  lemma SliceOfSlice(data: seq<byte>, part: seq<byte>, off: nat, a: nat, b: nat)
    requires off + |part| <= |data| && part == data[off..off + |part|] && a <= b <= |part|
    ensures part[a..b] == data[off + a..off + b]
  {
    var whole := data[off..off + |part|];
    forall i | 0 <= i < b - a ensures part[a..b][i] == data[off + a..off + b][i] {
      assert whole[a + i] == data[off + (a + i)];
    }
  }

  /** A slice expression on s, whose array holds more bytes behind it: it may reach past the length of s, up
      to the capacity, and panics past that. */
  function Slice(s: seq<byte>, behind: seq<byte>, lo: nat, hi: nat): Ending<seq<byte>>
    requires lo <= hi
  {
    if hi > |s| + |behind| then Panicked else Returned((s + behind)[lo..hi])
  }
}
