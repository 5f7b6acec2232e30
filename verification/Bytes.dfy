/** Bytes, bits and the fixed-width integer layouts the encoders share. */
module Bytes {

  type byte = x: int | 0 <= x < 256

  /** The low byte of a number: `n as u8`. */
  function Low8(n: nat): byte {
    n % 256
  }

  function Pow2(n: nat): (r: nat)
    ensures r > 0
  {
    if n == 0 then 1 else 2 * Pow2(n - 1)
  }

  lemma {:induction false} Pow2Add(m: nat, n: nat)
    ensures Pow2(m + n) == Pow2(m) * Pow2(n)
  {
    if m > 0 {
      Pow2Add(m - 1, n);
    }
  }

  lemma Pow2Values()
    ensures Pow2(8) == 256 && Pow2(9) == 512 && Pow2(10) == 1024 && Pow2(11) == 2048 && Pow2(12) == 4096
  {
    assert Pow2(4) == 16;
    Pow2Add(4, 4);
    Pow2Add(8, 1);
    Pow2Add(8, 2);
    Pow2Add(8, 3);
    Pow2Add(8, 4);
  }

  /** The `n` low bits of `c`, least significant first. */
  function LowBits(c: nat, n: nat): (r: seq<bool>)
    ensures |r| == n
  {
    if n == 0 then [] else [c % 2 == 1] + LowBits(c / 2, n - 1)
  }

  /** `c << n`. */
  function Shl(c: nat, n: nat): nat {
    c * Pow2(n)
  }

  lemma ShlStep(c: nat, n: nat)
    requires n > 0
    ensures Shl(c, n) == 2 * Shl(c, n - 1)
  {
    assert c * (2 * Pow2(n - 1)) == 2 * (c * Pow2(n - 1));
  }

  /** Putting `c` above an `n`-bit accumulator appends its bits. */
  lemma {:induction false} LowBitsAppend(acc: nat, n: nat, c: nat, m: nat)
    requires acc < Pow2(n)
    ensures LowBits(acc + Shl(c, n), n + m) == LowBits(acc, n) + LowBits(c, m)
  {
    if n > 0 {
      ShlStep(c, n);
      LowBitsAppend(acc / 2, n - 1, c, m);
      LowBitsHalve(acc + Shl(c, n), n + m);
      LowBitsHalve(acc, n);
      HalveSum(acc, Shl(c, n - 1));
    } else {
      assert Shl(c, 0) == c;
    }
  }

  lemma LowBitsHalve(c: nat, n: nat)
    requires n > 0
    ensures LowBits(c, n) == [c % 2 == 1] + LowBits(c / 2, n - 1)
  {
  }

  lemma HalveSum(a: nat, b: nat)
    ensures (a + 2 * b) / 2 == a / 2 + b && (a + 2 * b) % 2 == a % 2
  {
  }

  /** The bits of a byte string, each byte least significant bit first. */
  function BitsOf(data: seq<byte>): (r: seq<bool>)
    ensures |r| == 8 * |data|
  {
    if data == [] then [] else LowBits(data[0], 8) + BitsOf(data[1..])
  }

  lemma {:induction false} BitsOfAppend(data: seq<byte>, b: byte)
    ensures BitsOf(data + [b]) == BitsOf(data) + LowBits(b, 8)
  {
    if data == [] {
      assert data + [b] == [b];
    } else {
      assert (data + [b])[1..] == data[1..] + [b];
      BitsOfAppend(data[1..], b);
    }
  }

  lemma {:induction false} LowBitsInjective(c: nat, d: nat, n: nat)
    requires c < Pow2(n) && d < Pow2(n) && LowBits(c, n) == LowBits(d, n)
    ensures c == d
  {
    if n > 0 {
      LowBitsHalve(c, n);
      LowBitsHalve(d, n);
      assert LowBits(c, n)[0] == LowBits(d, n)[0] && LowBits(c, n)[1..] == LowBits(d, n)[1..];
      LowBitsInjective(c / 2, d / 2, n - 1);
    }
  }

  lemma {:induction false} BitsOfInjective(a: seq<byte>, b: seq<byte>)
    requires BitsOf(a) == BitsOf(b)
    ensures a == b
  {
    if a != [] {
      Pow2Values();
      assert BitsOf(a)[..8] == LowBits(a[0], 8) && BitsOf(b)[..8] == LowBits(b[0], 8);
      assert BitsOf(a)[8..] == BitsOf(a[1..]) && BitsOf(b)[8..] == BitsOf(b[1..]);
      LowBitsInjective(a[0], b[0], 8);
      BitsOfInjective(a[1..], b[1..]);
    }
  }

  lemma {:induction false} BitsOfConcat(a: seq<byte>, b: seq<byte>)
    ensures BitsOf(a + b) == BitsOf(a) + BitsOf(b)
  {
    if a == [] {
      assert a + b == b;
    } else {
      assert (a + b)[1..] == a[1..] + b;
      BitsOfConcat(a[1..], b);
    }
  }

  lemma Regroup<T>(a: seq<T>, b: seq<T>, c: seq<T>)
    ensures a + (b + c) == a + b + c
  {
  }

  /** The two parts of a slice. */
  lemma SliceParts<T>(t: seq<T>, a: nat, b: nat, x: seq<T>, y: seq<T>)
    requires a <= b <= |t| && t[a..b] == x + y
    ensures a + |x| <= b && t[a..a + |x|] == x && t[a + |x|..b] == y
  {
    assert |t[a..b]| == |x| + |y|;
    assert t[a..a + |x|] == t[a..b][..|x|];
    assert t[a + |x|..b] == t[a..b][|x|..];
  }

  lemma SubSlice<T>(t: seq<T>, a: nat, b: nat, i: nat, j: nat)
    requires a <= b <= |t| && i <= j <= b - a
    ensures t[a + i..a + j] == t[a..b][i..j]
  {
    var x, y := t[a + i..a + j], t[a..b][i..j];
    assert |x| == |y|;
    assert forall k :: 0 <= k < |x| ==> x[k] == y[k];
  }

  function Flatten(rows: seq<seq<byte>>): seq<byte> {
    if rows == [] then [] else rows[0] + Flatten(rows[1..])
  }

  lemma {:induction false} FlattenAppend(rows: seq<seq<byte>>, row: seq<byte>)
    ensures Flatten(rows + [row]) == Flatten(rows) + row
  {
    if rows == [] {
      assert rows + [row] == [row];
      assert Flatten([row]) == row + Flatten([]);
    } else {
      assert (rows + [row])[1..] == rows[1..] + [row];
      FlattenAppend(rows[1..], row);
    }
  }

  lemma {:induction false} FlattenSize(rows: seq<seq<byte>>, n: nat)
    requires forall i :: 0 <= i < |rows| ==> |rows[i]| == n
    ensures |Flatten(rows)| == |rows| * n
  {
    if rows != [] {
      FlattenSize(rows[1..], n);
      assert |rows| * n == (|rows| - 1) * n + n;
    }
  }
}
