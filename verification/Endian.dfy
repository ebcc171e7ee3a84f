// Fixed-width unsigned integers in either byte order.
module Endian {
  import opened Words

  function Pow256(n: nat): (r: nat)
    ensures r > 0
  {
    if n == 0 then 1 else 256 * Pow256(n - 1)
  }

  // bs read least significant byte first.
  function Little(bs: seq<byte>): nat
  {
    if |bs| == 0 then 0 else bs[0] + 256 * Little(bs[1..])
  }

  // bs read most significant byte first.
  function Big(bs: seq<byte>): nat
  {
    if |bs| == 0 then 0 else 256 * Big(bs[..|bs| - 1]) + bs[|bs| - 1]
  }

  function Value(bs: seq<byte>, bigEndian: bool): nat
  {
    if bigEndian then Big(bs) else Little(bs)
  }

  lemma {:induction false} LittleBound(bs: seq<byte>)
    ensures Little(bs) < Pow256(|bs|)
  {
    if |bs| > 0 {
      LittleBound(bs[1..]);
    }
  }

  lemma {:induction false} BigBound(bs: seq<byte>)
    ensures Big(bs) < Pow256(|bs|)
  {
    if |bs| > 0 {
      BigBound(bs[..|bs| - 1]);
    }
  }

  lemma Pow256Is()
    ensures Pow256(8) == TWO64 && Pow256(4) < TWO64
  {
    assert Pow256(4) == 0x1_0000_0000 by {
      assert Pow256(2) == 0x1_0000;
    }
    assert Pow256(6) == 0x1_0000_0000_0000;
  }

  // A 4- or 8-byte value is a word.
  lemma ValueFits(bs: seq<byte>, bigEndian: bool)
    requires |bs| == 4 || |bs| == 8
    ensures Value(bs, bigEndian) <= MAX_U64
  {
    Pow256Is();
    LittleBound(bs);
    BigBound(bs);
  }

  // The n bytes of x.
  function LittleBytes(x: nat, n: nat): (bs: seq<byte>)
    ensures |bs| == n
  {
    if n == 0 then [] else [x % 256] + LittleBytes(x / 256, n - 1)
  }

  function BigBytes(x: nat, n: nat): (bs: seq<byte>)
    ensures |bs| == n
  {
    if n == 0 then [] else BigBytes(x / 256, n - 1) + [x % 256]
  }

  function Bytes(x: nat, n: nat, bigEndian: bool): (bs: seq<byte>)
    ensures |bs| == n
  {
    if bigEndian then BigBytes(x, n) else LittleBytes(x, n)
  }

  lemma {:induction false} LittleRoundTrip(x: nat, n: nat)
    requires x < Pow256(n)
    ensures Little(LittleBytes(x, n)) == x
  {
    if n > 0 {
      LittleRoundTrip(x / 256, n - 1);
      assert LittleBytes(x, n)[1..] == LittleBytes(x / 256, n - 1);
    }
  }

  lemma {:induction false} BigRoundTrip(x: nat, n: nat)
    requires x < Pow256(n)
    ensures Big(BigBytes(x, n)) == x
  {
    if n > 0 {
      BigRoundTrip(x / 256, n - 1);
      assert BigBytes(x, n)[..n - 1] == BigBytes(x / 256, n - 1);
    }
  }

  lemma ValueOfBytes(x: nat, n: nat, bigEndian: bool)
    requires x < Pow256(n)
    ensures Value(Bytes(x, n, bigEndian), bigEndian) == x
  {
    LittleRoundTrip(x, n);
    BigRoundTrip(x, n);
  }

  lemma DigitOf(low: byte, high: nat)
    ensures (low + 256 * high) % 256 == low && (low + 256 * high) / 256 == high
  {}

  lemma {:induction false} LittleBytesOf(bs: seq<byte>)
    ensures LittleBytes(Little(bs), |bs|) == bs
  {
    if |bs| > 0 {
      LittleBytesOf(bs[1..]);
      DigitOf(bs[0], Little(bs[1..]));
      assert bs == [bs[0]] + bs[1..];
    }
  }

  lemma {:induction false} BigBytesOf(bs: seq<byte>)
    ensures BigBytes(Big(bs), |bs|) == bs
  {
    if |bs| > 0 {
      var n := |bs| - 1;
      BigBytesOf(bs[..n]);
      DigitOf(bs[n], Big(bs[..n]));
      assert bs == bs[..n] + [bs[n]];
    }
  }

  lemma BytesOfValue(bs: seq<byte>, bigEndian: bool)
    ensures Bytes(Value(bs, bigEndian), |bs|, bigEndian) == bs
    ensures Value(bs, bigEndian) < Pow256(|bs|)
  {
    LittleBytesOf(bs);
    BigBytesOf(bs);
    LittleBound(bs);
    BigBound(bs);
  }

  lemma {:induction false} LittleJoin(low: seq<byte>, high: seq<byte>)
    ensures Little(low + high) == Little(low) + Pow256(|low|) * Little(high)
  {
    if |low| == 0 {
      assert low + high == high;
    } else {
      LittleJoin(low[1..], high);
      assert (low + high)[1..] == low[1..] + high;
      Shifted(Pow256(|low| - 1), Little(high), Little(low[1..]));
    }
  }

  lemma {:induction false} BigJoin(high: seq<byte>, low: seq<byte>)
    ensures Big(high + low) == Pow256(|low|) * Big(high) + Big(low)
  {
    if |low| == 0 {
      assert high + low == high;
    } else {
      BigJoin(high, low[..|low| - 1]);
      assert (high + low)[..|high + low| - 1] == high + low[..|low| - 1];
      Shifted(Pow256(|low| - 1), Big(high), Big(low[..|low| - 1]));
    }
  }

  lemma Shifted(p: nat, x: nat, y: nat)
    ensures 256 * (p * x + y) == (256 * p) * x + 256 * y
  {}

  lemma OneByte(a: byte)
    ensures Little([a]) == a && Big([a]) == a
  {
    assert [a][1..] == [] && [a][..0] == [];
  }

  lemma TwoBytes(a: byte, b: byte)
    ensures Little([a, b]) == a + 0x100 * b && Big([a, b]) == 0x100 * a + b
  {
    OneByte(a);
    OneByte(b);
    assert [a, b][1..] == [b] && [a, b][..1] == [a];
  }

  // The two orders, byte by byte.
  lemma FourBytes(a: byte, b: byte, c: byte, d: byte)
    ensures Value([a, b, c, d], false) == a + 0x100 * b + 0x1_0000 * c + 0x100_0000 * d
    ensures Value([a, b, c, d], true) == 0x100_0000 * a + 0x1_0000 * b + 0x100 * c + d
  {
    TwoBytes(a, b);
    TwoBytes(c, d);
    LittleJoin([a, b], [c, d]);
    BigJoin([a, b], [c, d]);
    assert [a, b] + [c, d] == [a, b, c, d];
    assert Pow256(2) == 0x1_0000;
  }

  // Eight bytes are two groups of four.
  lemma EightBytes(first: seq<byte>, last: seq<byte>)
    requires |first| == 4 && |last| == 4
    ensures Value(first + last, false) == Value(first, false) + 0x1_0000_0000 * Value(last, false)
    ensures Value(first + last, true) == 0x1_0000_0000 * Value(first, true) + Value(last, true)
  {
    LittleJoin(first, last);
    BigJoin(first, last);
    assert Pow256(4) == 0x1_0000_0000 by {
      assert Pow256(2) == 0x1_0000;
    }
  }
}
