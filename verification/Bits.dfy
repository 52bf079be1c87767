/** Words and polynomials over GF(2) as sequences of bits, most significant bit first. */
module Bits {

  type Bits = seq<bool>

  function Zeros(n: nat): (r: Bits)
    ensures |r| == n
  {
    seq(n, i => false)
  }

  function Xor(x: Bits, y: Bits): (r: Bits)
    requires |x| == |y|
    ensures |r| == |x|
  {
    seq(|x|, i requires 0 <= i < |x| => x[i] != y[i])
  }

  /** x << k, within the width of x */
  function Shl(x: Bits, k: nat): (r: Bits)
    requires k <= |x|
    ensures |r| == |x|
  {
    x[k..] + Zeros(k)
  }

  /** x >> k for an unsigned x */
  function Shr(x: Bits, k: nat): (r: Bits)
    requires k <= |x|
    ensures |r| == |x|
  {
    Zeros(k) + x[..|x|-k]
  }

  /** A signed char promoted to n bits */
  function SignExtend(x: Bits, n: nat): (r: Bits)
    requires 0 < |x| <= n
    ensures |r| == n
  {
    seq(n - |x|, i => x[0]) + x
  }

  function Low(x: Bits, n: nat): (r: Bits)
    requires n <= |x|
    ensures |r| == n
  {
    x[|x|-n..]
  }

  /** The n-bit word of value v, truncated. */
  function WordOf(v: nat, n: nat): (r: Bits)
    ensures |r| == n
  {
    if n == 0 then [] else WordOf(v / 2, n - 1) + [v % 2 == 1]
  }

  function ValueOf(x: Bits): nat {
    if |x| == 0 then 0 else 2 * ValueOf(x[..|x|-1]) + if x[|x|-1] then 1 else 0
  }

  function Pow2(n: nat): nat {
    if n == 0 then 1 else 2 * Pow2(n - 1)
  }

  lemma {:induction false} ValueBound(x: Bits)
    ensures ValueOf(x) < Pow2(|x|)
  {
    if |x| == 0 {
    } else {
      ValueBound(x[..|x|-1]);
    }
  }

  lemma {:induction false} WordOfValue(x: Bits)
    ensures WordOf(ValueOf(x), |x|) == x
  {
    if |x| == 0 {
    } else {
      WordOfValue(x[..|x|-1]);
    }
  }

  lemma {:induction false} WordOfZero(n: nat)
    ensures WordOf(0, n) == Zeros(n)
  {
    if n == 0 {
    } else {
      WordOfZero(n - 1);
    }
  }

  /** A value of k bits, written in n + k bits, starts with n zeros. */
  lemma {:induction false} WordOfSmall(v: nat, n: nat, k: nat)
    requires v < Pow2(k)
    ensures WordOf(v, n + k) == Zeros(n) + WordOf(v, k)
  {
    if k == 0 {
      WordOfZero(n);
    } else {
      WordOfSmall(v / 2, n, k - 1);
    }
  }

  lemma ZerosConcat(m: nat, n: nat)
    ensures Zeros(m) + Zeros(n) == Zeros(m + n)
  {}

  lemma NonzeroPrefix(x: Bits, n: nat)
    requires x != Zeros(|x|)
    ensures x + Zeros(n) != Zeros(|x| + n)
  {
    assert (x + Zeros(n))[..|x|] == x;
    assert Zeros(|x| + n)[..|x|] == Zeros(|x|);
  }

  lemma XorZeros(x: Bits)
    ensures Xor(x, Zeros(|x|)) == x && Xor(Zeros(|x|), x) == x && Xor(x, x) == Zeros(|x|)
  {}

  lemma XorComm(x: Bits, y: Bits)
    requires |x| == |y|
    ensures Xor(x, y) == Xor(y, x)
  {}

  lemma XorConcat(x: Bits, y: Bits, u: Bits, v: Bits)
    requires |x| == |u| && |y| == |v|
    ensures Xor(x + y, u + v) == Xor(x, u) + Xor(y, v)
  {}

  lemma XorCancel(x: Bits, y: Bits)
    requires |x| == |y|
    ensures Xor(x, Xor(x, y)) == y
    ensures Xor(x, y) == Zeros(|x|) <==> x == y
  {
    if Xor(x, y) == Zeros(|x|) {
      forall i | 0 <= i < |x| ensures x[i] == y[i] {
        assert !Xor(x, y)[i];
      }
    }
  }

  /** The difference of two words that agree outside the window from i to k. */
  lemma XorWindow(m: Bits, n: Bits, i: nat, k: nat)
    requires i <= k <= |m| == |n| && m[..i] == n[..i] && m[k..] == n[k..]
    ensures Xor(m, n) == Zeros(i) + Xor(m[i..k], n[i..k]) + Zeros(|m| - k)
    ensures m != n ==> Xor(m[i..k], n[i..k]) != Zeros(k - i)
  {
    var d := Zeros(i) + Xor(m[i..k], n[i..k]) + Zeros(|m| - k);
    forall j | 0 <= j < |m| ensures Xor(m, n)[j] == d[j] {
      if j < i {
        assert m[j] == m[..i][j] && n[j] == n[..i][j];
      } else if k <= j {
        assert m[j] == m[k..][j-k] && n[j] == n[k..][j-k];
      }
    }
    assert Xor(m, n) == d;
    if m != n {
      XorCancel(m[i..k], n[i..k]);
      ThreeParts(m, i, k);
      ThreeParts(n, i, k);
    }
  }

  lemma ThreeParts(m: Bits, i: nat, k: nat)
    requires i <= k <= |m|
    ensures m == m[..i] + m[i..k] + m[k..]
  {}
}
