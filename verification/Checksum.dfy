/** The Internet checksum. */
module Checksum {
  import opened Octets

  const ALL_ONES: nat := 0xFFFF

  // The words of a buffer, most significant byte first; a last odd byte counts high.
  function Sum(data: Bytes): nat {
    if data == [] then 0
    else if |data| == 1 then 256 * (data[0] as int)
    else 256 * (data[0] as int) + data[1] + Sum(data[2..])
  }

  function Fold(x: nat): nat {
    var once := x / 0x1_0000 + x % 0x1_0000;
    (once + once / 0x1_0000) % 0x1_0000
  }

  function Csum(data: Bytes, init: nat): (r: nat)
    ensures r <= ALL_ONES
  {
    ALL_ONES - Fold(init + Sum(data))
  }

  /** The checksum as it is computed, with 32-bit sums. */
  method InetCsum(buf: array<Byte>, start: nat, count: nat, init: nat) returns (r: nat)
    requires start + count <= buf.Length && count < 0x1_0000 && init < 0x1_0000
    ensures r == Csum(buf[start..start + count], init)
  {
    var result: nat, length: nat, at: nat := init, count, start;
    ghost var data := buf[start..start + count];
    ghost var total := init + Sum(data);
    RestStarts(data, init);
    hide Sum, Csum, Rest, Inverted;
    while length > 1
      invariant length <= count && at + length == start + count
      invariant result + Rest(data, at - start) == total < 0x1_0000_0000
    {
      SumStep(data, at - start);
      result := result + (256 * (buf[at] as int) + buf[at + 1]);
      assert result < 0x1_0000_0000;
      length := length - 2;
      at := at + 2;
    }
    SumStep(data, at - start);
    if length > 0 {
      result := result + 256 * (buf[at] as int);
      assert result < 0x1_0000_0000;
    }
    CsumIs(data, init);
    r := Complement(result);
  }

  // The carries of a 32-bit sum are added back, and the bits inverted.
  method Complement(sum: nat) returns (r: nat)
    ensures r == Inverted(sum)
  {
    var result := sum / 0x1_0000 + sum % 0x1_0000;
    result := result + result / 0x1_0000;
    r := ALL_ONES - result % 0x1_0000;
  }

  function Inverted(sum: nat): nat {
    ALL_ONES - Fold(sum)
  }

  lemma CsumIs(data: Bytes, init: nat)
    ensures Csum(data, init) == Inverted(init + Sum(data))
  {
    hide Sum, Fold;
  }

  // What is left of a sum from place `k` on.
  function Rest(data: Bytes, k: nat): nat
    requires k <= |data|
  {
    Sum(data[k..])
  }

  lemma RestStarts(data: Bytes, init: nat)
    requires |data| < 0x1_0000 && init < 0x1_0000
    ensures Rest(data, 0) == Sum(data) && init + Sum(data) < 0x1_0000_0000
  {
    SumBound(data);
    assert data[0..] == data;
    hide Sum;
  }

  lemma SumStep(data: Bytes, k: nat)
    requires k <= |data|
    ensures k + 1 < |data| ==> Rest(data, k) == 256 * (data[k] as int) + data[k + 1] + Rest(data, k + 2)
    ensures k + 1 >= |data| ==> Rest(data, k) == if k < |data| then 256 * (data[k] as int) else 0
  {
    if k + 1 < |data| {
      assert data[k..][2..] == data[k + 2..];
    }
  }

  lemma {:induction false} SumBound(data: Bytes)
    ensures Sum(data) <= ALL_ONES * ((|data| + 1) / 2)
  {
    if |data| > 1 {
      SumBound(data[2..]);
    }
  }

  // ----- the one's-complement sum -----

  // Adding with the carry brought around.
  function OnesAdd(a: nat, b: nat): nat {
    if a + b > ALL_ONES then a + b - ALL_ONES else a + b
  }

  function OnesSum(data: Bytes, init: nat): nat {
    if data == [] then init
    else if |data| == 1 then OnesAdd(init, 256 * (data[0] as int))
    else OnesSum(data[2..], OnesAdd(init, 256 * (data[0] as int) + data[1]))
  }

  // The 16-bit number that a sum comes to.
  function Norm(x: nat): nat {
    if x == 0 then 0 else (x - 1) % ALL_ONES + 1
  }

  lemma FoldIsNorm(x: nat)
    requires x < 0x1_0000_0000
    ensures Fold(x) == Norm(x)
  {
    var hi, lo := x / 0x1_0000, x % 0x1_0000;
    var once := hi + lo;
    assert x == hi * ALL_ONES + once;
    if 0 < once <= ALL_ONES {
      NormIs(x, hi, once);
    } else if once > ALL_ONES {
      NormIs(x, hi + 1, once - ALL_ONES);
    }
  }

  lemma NormIs(x: nat, q: nat, r: nat)
    requires x == q * ALL_ONES + r && 0 < r <= ALL_ONES
    ensures Norm(x) == r
  {
  }

  lemma NormAdd(a: nat, w: nat)
    requires w <= ALL_ONES
    ensures OnesAdd(Norm(a), w) == Norm(a + w)
  {
    var n := Norm(a);
    if a > 0 {
      var q := (a - 1) / ALL_ONES;
      assert a == q * ALL_ONES + n;
      if n + w > ALL_ONES {
        NormIs(a + w, q + 1, n + w - ALL_ONES);
      } else {
        NormIs(a + w, q, n + w);
      }
    } else if w > 0 {
      NormIs(w, 0, w);
    }
  }

  lemma {:induction false} OnesSumIs(data: Bytes, a: nat)
    ensures OnesSum(data, Norm(a)) == Norm(a + Sum(data))
  {
    if |data| == 1 {
      NormAdd(a, 256 * (data[0] as int));
    } else if data != [] {
      var w := 256 * (data[0] as int) + data[1];
      NormAdd(a, w);
      OnesSumIs(data[2..], a + w);
    }
  }

  /** The checksum is the complement of the one's-complement sum, for every buffer there
      can be. */
  lemma CsumIsComplement(data: Bytes, init: nat)
    requires |data| <= 0xFFFF && init <= ALL_ONES
    ensures Csum(data, init) + OnesSum(data, init) == ALL_ONES
  {
    SumBound(data);
    FoldIsNorm(init + Sum(data));
    OnesSumIs(data, init);
    if init > 0 {
      NormIs(init, 0, init);
    }
    hide Fold, Norm, Sum, OnesSum;
  }

  // ----- filling and verifying -----

  function Filled(data: Bytes, k: nat, c: nat): Bytes
    requires k + 2 <= |data| && c <= ALL_ONES
  {
    data[k := c / 256][k + 1 := c % 256]
  }

  lemma {:induction false} SumFilled(data: Bytes, k: nat, c: nat)
    requires k % 2 == 0 && k + 2 <= |data| && c <= ALL_ONES && data[k] == 0 && data[k + 1] == 0
    ensures Sum(Filled(data, k, c)) == Sum(data) + c
    decreases k
  {
    var t := Filled(data, k, c);
    if k == 0 {
      assert t[2..] == data[2..];
    } else {
      assert t[2..] == Filled(data[2..], k - 2, c);
      SumFilled(data[2..], k - 2, c);
    }
  }

  /** With the checksum of a buffer put in its zeroed field, the buffer's checksum is zero;
      and no other value there does that, but for the two ways to write zero. */
  lemma FillVerifies(data: Bytes, k: nat, c: nat)
    requires |data| <= 0xFFFF && k % 2 == 0 && k + 2 <= |data| && c <= ALL_ONES && data[k] == 0 && data[k + 1] == 0
    ensures c == Csum(data, 0) ==> Csum(Filled(data, k, c), 0) == 0
    ensures Csum(Filled(data, k, c), 0) == 0 <==> c % ALL_ONES == Csum(data, 0) % ALL_ONES && Sum(data) + c > 0
  {
    SumFilled(data, k, c);
    SumBound(data);
    SumBound(Filled(data, k, c));
    FoldIsNorm(Sum(data));
    FoldIsNorm(Sum(data) + c);
    hide Sum, Fold, Filled;
    ZeroSum(Sum(data), c);
  }

  lemma ZeroSum(s: nat, c: nat)
    requires c <= ALL_ONES
    ensures Norm(s + c) == ALL_ONES <==> c % ALL_ONES == (ALL_ONES - Norm(s)) % ALL_ONES && s + c > 0
    ensures c == ALL_ONES - Norm(s) ==> s + c > 0
  {
    var n := Norm(s);
    var q := if s > 0 then (s - 1) / ALL_ONES else 0;
    assert s == q * ALL_ONES + n && n <= ALL_ONES;
    if n + c > 2 * ALL_ONES - 1 {
      NormIs(s + c, q + 1, n + c - ALL_ONES);
    } else if n + c > ALL_ONES {
      NormIs(s + c, q + 1, n + c - ALL_ONES);
    } else if n + c > 0 {
      NormIs(s + c, q, n + c);
    }
    hide Norm;
  }
}
