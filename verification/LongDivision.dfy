/** Bit-at-a-time division by P = x^W + poly, and what its register means. */
module LongDivision {
  import opened Bits

  /** t * x for a single bit t */
  function Scale(t: bool, x: Bits): (r: Bits)
    ensures |r| == |x|
  {
    if t then x else Zeros(|x|)
  }

  /** One step of division: bring in the next message bit. */
  function Step(reg: Bits, b: bool, poly: Bits): (r: Bits)
    requires |reg| == |poly| > 0
    ensures |r| == |poly|
  {
    Xor(Shl(reg, 1), Scale(reg[0] != b, poly))
  }

  function Feed(reg: Bits, bits: Bits, poly: Bits): (r: Bits)
    requires |reg| == |poly| > 0
    ensures |r| == |poly|
    decreases |bits|
  {
    if |bits| == 0 then reg else Feed(Step(reg, bits[0], poly), bits[1..], poly)
  }

  lemma {:induction false} FeedConcat(reg: Bits, x: Bits, y: Bits, poly: Bits)
    requires |reg| == |poly| > 0
    ensures Feed(reg, x + y, poly) == Feed(Feed(reg, x, poly), y, poly)
    decreases |x|
  {
    if |x| == 0 {
      assert x + y == y;
    } else {
      assert (x + y)[1..] == x[1..] + y;
      FeedConcat(Step(reg, x[0], poly), x[1..], y, poly);
    }
  }

  // ----- division is linear

  lemma StepLinear(x: Bits, y: Bits, a: bool, b: bool, poly: Bits)
    requires |x| == |y| == |poly| > 0
    ensures Step(Xor(x, y), a != b, poly) == Xor(Step(x, a, poly), Step(y, b, poly))
  {}

  lemma {:induction false} FeedLinear(x: Bits, y: Bits, m: Bits, n: Bits, poly: Bits)
    requires |x| == |y| == |poly| > 0 && |m| == |n|
    ensures Feed(Xor(x, y), Xor(m, n), poly) == Xor(Feed(x, m, poly), Feed(y, n, poly))
    decreases |m|
  {
    if |m| == 0 {
    } else {
      StepLinear(x, y, m[0], n[0], poly);
      assert Xor(m, n)[1..] == Xor(m[1..], n[1..]);
      FeedLinear(Step(x, m[0], poly), Step(y, n[0], poly), m[1..], n[1..], poly);
    }
  }

  lemma {:induction false} FeedNothing(n: nat, poly: Bits)
    requires |poly| > 0
    ensures Feed(Zeros(|poly|), Zeros(n), poly) == Zeros(|poly|)
  {
    if n == 0 {
    } else {
      assert Step(Zeros(|poly|), false, poly) == Zeros(|poly|);
      assert Zeros(n)[1..] == Zeros(n - 1);
      FeedNothing(n - 1, poly);
    }
  }

  /** Leading zeros are only shifted out. */
  lemma {:induction false} FeedShifts(x: Bits, n: nat, poly: Bits)
    requires |poly| > 0 && n + |x| == |poly|
    ensures Feed(Zeros(n) + x, Zeros(n), poly) == x + Zeros(n)
    decreases n
  {
    if n == 0 {
      assert Zeros(0) + x == x == x + Zeros(0);
    } else {
      var reg := Zeros(n) + x;
      assert Step(reg, false, poly) == Zeros(n - 1) + (x + [false]);
      assert Zeros(n)[1..] == Zeros(n - 1);
      FeedShifts(x + [false], n - 1, poly);
      assert x + [false] + Zeros(n - 1) == x + Zeros(n);
    }
  }

  /** Bringing in up to W bits one at a time is the same as adding them to the top of
      the register at once and then bringing in zeros. */
  lemma {:induction false} FeedAtTop(reg: Bits, bits: Bits, poly: Bits)
    requires |reg| == |poly| > 0 && |bits| <= |poly|
    ensures Feed(reg, bits, poly) == Feed(Xor(reg, bits + Zeros(|poly| - |bits|)), Zeros(|bits|), poly)
    decreases |bits|
  {
    var w, n := |poly|, |bits|;
    if n == 0 {
      assert bits + Zeros(w) == Zeros(w);
      XorZeros(reg);
    } else {
      var rest := bits[1..];
      var wide := bits + Zeros(w - n);
      var later := rest + Zeros(w - n + 1);
      assert Step(Xor(reg, wide), false, poly) == Xor(Step(reg, bits[0], poly), later);
      assert Zeros(n)[1..] == Zeros(n - 1);
      FeedAtTop(Step(reg, bits[0], poly), rest, poly);
    }
  }

  // ----- the register is the remainder

  /** The product of q with P = x^W + poly, in |q| + W bits. */
  function Multiple(q: Bits, poly: Bits): (r: Bits)
    ensures |r| == |q| + |poly|
  {
    if |q| == 0 then Zeros(|poly|)
    else Xor(Scale(q[0], [true] + poly) + Zeros(|q| - 1), [false] + Multiple(q[1..], poly))
  }

  /** init * x^n + msg * x^W for a message of n bits */
  function Dividend(init: Bits, msg: Bits): (r: Bits)
    ensures |r| == |msg| + |init|
  {
    Xor(init + Zeros(|msg|), msg + Zeros(|init|))
  }

  /** rem is what division of x by P leaves: x = q * P + rem with deg rem < W. */
  ghost predicate IsRemainder(x: Bits, rem: Bits, poly: Bits)
    requires |x| >= |rem| == |poly|
  {
    exists q: Bits :: |q| + |poly| == |x| && Xor(Multiple(q, poly), Zeros(|q|) + rem) == x
  }

  /** The quotient bits, in the order in which the steps produce them. */
  function Quotient(reg: Bits, bits: Bits, poly: Bits): (q: Bits)
    requires |reg| == |poly| > 0
    ensures |q| == |bits|
    decreases |bits|
  {
    if |bits| == 0 then []
    else [reg[0] != bits[0]] + Quotient(Step(reg, bits[0], poly), bits[1..], poly)
  }

  lemma DividendStep(reg: Bits, bits: Bits, poly: Bits)
    requires |reg| == |poly| > 0 && |bits| > 0
    ensures var t := reg[0] != bits[0];
            Dividend(reg, bits)
            == Xor(Scale(t, [true] + poly) + Zeros(|bits| - 1), [false] + Dividend(Step(reg, bits[0], poly), bits[1..]))
  {
    var t, next := reg[0] != bits[0], Dividend(Step(reg, bits[0], poly), bits[1..]);
    var d, s := Dividend(reg, bits), Scale(t, [true] + poly) + Zeros(|bits| - 1);
    forall i | 0 <= i < |d| ensures d[i] == (s[i] != ([false] + next)[i]) {
      DividendBit(reg, bits, i);
      if i > 0 {
        DividendBit(Step(reg, bits[0], poly), bits[1..], i - 1);
      }
      hide Dividend;
    }
    hide *;
    assert d == Xor(s, [false] + next) by { XorByBits(d, s, [false] + next); }
  }

  lemma XorByBits(d: Bits, x: Bits, y: Bits)
    requires |d| == |x| == |y| && forall i :: 0 <= i < |d| ==> d[i] == (x[i] != y[i])
    ensures d == Xor(x, y)
  {}

  lemma DividendBit(reg: Bits, bits: Bits, i: nat)
    requires i < |bits| + |reg|
    ensures Dividend(reg, bits)[i] == ((i < |reg| && reg[i]) != (i < |bits| && bits[i]))
  {}

  lemma XorBehindZero(s: Bits, m: Bits, f: Bits)
    requires |s| == |m| + 1 == |f| + 1
    ensures Xor(Xor(s, [false] + m), [false] + f) == Xor(s, [false] + Xor(m, f))
  {}

  lemma ZeroInFront(n: nat, x: Bits)
    requires n > 0
    ensures Zeros(n) + x == [false] + (Zeros(n - 1) + x)
  {}

  lemma {:induction false} FeedDivides(reg: Bits, bits: Bits, poly: Bits)
    requires |reg| == |poly| > 0
    ensures Xor(Multiple(Quotient(reg, bits, poly), poly), Zeros(|bits|) + Feed(reg, bits, poly)) == Dividend(reg, bits)
    decreases |bits|
  {
    if |bits| == 0 {
      assert Zeros(0) + reg == reg == reg + Zeros(0);
      assert bits + Zeros(|reg|) == Zeros(|reg|);
    } else {
      var next, rest, q := Step(reg, bits[0], poly), bits[1..], Quotient(reg, bits, poly);
      FeedDivides(next, rest, poly);
      DividendStep(reg, bits, poly);
      var s, m, f := Scale(q[0], [true] + poly) + Zeros(|q| - 1), Multiple(q[1..], poly),
        Zeros(|rest|) + Feed(next, rest, poly);
      assert q[1..] == Quotient(next, rest, poly);
      assert Zeros(|bits|) + Feed(reg, bits, poly) == [false] + f by {
        ZeroInFront(|bits|, Feed(next, rest, poly));
      }
      hide *;
      XorBehindZero(s, m, f);
    }
  }

  /** The register is the remainder of init * x^n + msg * x^W modulo P. */
  lemma RegisterIsRemainder(init: Bits, msg: Bits, poly: Bits)
    requires |init| == |poly| > 0
    ensures IsRemainder(Dividend(init, msg), Feed(init, msg, poly), poly)
  {
    FeedDivides(init, msg, poly);
  }

  lemma MultipleStep(q: Bits, r: Bits, poly: Bits)
    requires |q| > 0 && |r| == |poly|
    ensures var x, c := Xor(Multiple(q, poly), Zeros(|q|) + r), Scale(q[0], [true] + poly) + Zeros(|q| - 1);
            x[0] == q[0] && x[1..] == Xor(c[1..], Xor(Multiple(q[1..], poly), Zeros(|q| - 1) + r))
  {
    var c, m, f := Scale(q[0], [true] + poly) + Zeros(|q| - 1), Multiple(q[1..], poly), Zeros(|q| - 1) + r;
    assert Zeros(|q|) + r == [false] + f;
    XorBehindZero(c, m, f);
    assert Xor(c, [false] + Xor(m, f))[1..] == Xor(c[1..], Xor(m, f));
  }

  lemma {:induction false} DivisionIsUnique(q: Bits, r: Bits, p: Bits, s: Bits, poly: Bits)
    requires |q| == |p| && |r| == |s| == |poly|
    requires Xor(Multiple(q, poly), Zeros(|q|) + r) == Xor(Multiple(p, poly), Zeros(|p|) + s)
    ensures q == p && r == s
    decreases |q|
  {
    if |q| == 0 {
      assert Zeros(0) + r == r && Zeros(0) + s == s;
      XorZeros(r);
      XorZeros(s);
    } else {
      MultipleStep(q, r, poly);
      MultipleStep(p, s, poly);
      hide *;
      var a, b := Xor(Multiple(q[1..], poly), Zeros(|q| - 1) + r), Xor(Multiple(p[1..], poly), Zeros(|p| - 1) + s);
      var c := Scale(q[0], [true] + poly) + Zeros(|q| - 1);
      XorCancel(c[1..], a);
      XorCancel(c[1..], b);
      DivisionIsUnique(q[1..], r, p[1..], s, poly);
      assert q == [q[0]] + q[1..] && p == [p[0]] + p[1..];
    }
  }

  /** Division has one remainder only, so the register is it. */
  lemma RemainderIsUnique(x: Bits, r: Bits, s: Bits, poly: Bits)
    requires |x| >= |r| == |s| == |poly| && IsRemainder(x, r, poly) && IsRemainder(x, s, poly)
    ensures r == s
  {
    var q: Bits :| |q| + |poly| == |x| && Xor(Multiple(q, poly), Zeros(|q|) + r) == x;
    var p: Bits :| |p| + |poly| == |x| && Xor(Multiple(p, poly), Zeros(|p|) + s) == x;
    DivisionIsUnique(q, r, p, s, poly);
  }

  // ----- which errors are detected

  lemma DifferenceOfRegisters(init: Bits, m: Bits, n: Bits, poly: Bits)
    requires |init| == |poly| > 0 && |m| == |n|
    ensures Xor(Feed(init, m, poly), Feed(init, n, poly)) == Feed(Zeros(|poly|), Xor(m, n), poly)
  {
    XorZeros(init);
    FeedLinear(init, init, m, n, poly);
  }

  /** Starting from zero, the register ends at zero exactly when P divides e * x^W. */
  lemma EndsAtZero(e: Bits, poly: Bits)
    requires |poly| > 0
    ensures Feed(Zeros(|poly|), e, poly) == Zeros(|poly|)
       <==> exists q: Bits :: |q| == |e| && Multiple(q, poly) == e + Zeros(|poly|)
  {
    hide *;
    var z := Zeros(|poly|);
    var q0, r := Quotient(z, e, poly), Feed(z, e, poly);
    assert Xor(Multiple(q0, poly), Zeros(|e|) + r) == e + z by {
      FeedDivides(z, e, poly);
      DividendFromZero(e, |poly|);
    }
    ZerosConcat(|e|, |poly|);
    XorZeros(Multiple(q0, poly));
    forall q: Bits | |q| == |e| && Multiple(q, poly) == e + z ensures r == z {
      ExactMultiple(q, e + z, poly);
      DivisionIsUnique(q, z, q0, r, poly);
    }
  }

  lemma ExactMultiple(q: Bits, x: Bits, poly: Bits)
    requires Multiple(q, poly) == x
    ensures Xor(Multiple(q, poly), Zeros(|q|) + Zeros(|poly|)) == x
  {
    hide *;
    ZerosConcat(|q|, |poly|);
    XorZeros(x);
  }

  lemma DividendFromZero(e: Bits, w: nat)
    ensures Dividend(Zeros(w), e) == e + Zeros(w)
  {}

  /** Two messages of equal length end with the same register exactly when P divides
      their difference times x^W. */
  lemma Undetected(init: Bits, m: Bits, n: Bits, poly: Bits)
    requires |init| == |poly| > 0 && |m| == |n|
    ensures Feed(init, m, poly) == Feed(init, n, poly)
       <==> exists q: Bits :: |q| == |m| && Multiple(q, poly) == Xor(m, n) + Zeros(|poly|)
  {
    hide *;
    DifferenceOfRegisters(init, m, n, poly);
    XorCancel(Feed(init, m, poly), Feed(init, n, poly));
    EndsAtZero(Xor(m, n), poly);
  }

  /** With P(0) = 1 a nonzero register stays nonzero while zeros come in. */
  lemma {:induction false} NonzeroStays(reg: Bits, n: nat, poly: Bits)
    requires |reg| == |poly| > 0 && poly[|poly|-1] && reg != Zeros(|reg|)
    ensures Feed(reg, Zeros(n), poly) != Zeros(|poly|)
    decreases n
  {
    if n == 0 {
    } else {
      var next := Step(reg, false, poly);
      assert Zeros(n)[1..] == Zeros(n - 1);
      assert next != Zeros(|poly|) by {
        if reg[0] {
          assert next[|poly|-1];
        } else {
          var i :| 0 <= i < |reg| && reg[i];
          assert next[i-1];
        }
      }
      NonzeroStays(next, n - 1, poly);
    }
  }

  // ----- multiples of an odd polynomial

  /** P divides e. */
  ghost predicate IsMultiple(e: Bits, poly: Bits) {
    exists q: Bits :: |q| == |e| && Multiple(q, poly) == Zeros(|poly|) + e
  }

  /** Every word has a quotient and a remainder. */
  lemma {:induction false} DivisionExists(x: Bits, poly: Bits) returns (q: Bits, r: Bits)
    requires |x| >= |poly| > 0
    ensures |q| + |poly| == |x| && |r| == |poly| && Xor(Multiple(q, poly), Zeros(|q|) + r) == x
    decreases |x|
  {
    if |x| == |poly| {
      q, r := [], x;
      assert Zeros(0) + r == r;
    } else {
      var c := Scale(x[0], [true] + poly) + Zeros(|x| - |poly| - 1);
      var rest := Xor(x, c)[1..];
      var p;
      p, r := DivisionExists(rest, poly);
      q := [x[0]] + p;
      assert q[1..] == p;
      MultipleStep(q, r, poly);
      DividedStep(x, c, Xor(Multiple(q, poly), Zeros(|q|) + r));
    }
  }

  lemma DividedStep(x: Bits, c: Bits, y: Bits)
    requires |x| == |c| == |y| > 0 && y[0] == x[0] && y[1..] == Xor(c[1..], Xor(x, c)[1..])
    ensures x == y
  {
    forall i | 0 <= i < |x| ensures x[i] == y[i] {
      if i > 0 {
        assert y[i] == y[1..][i-1];
      }
    }
  }

  lemma {:induction false} MultipleOfZeros(k: nat, poly: Bits)
    ensures Multiple(Zeros(k), poly) == Zeros(k + |poly|)
  {
    if k == 0 {
    } else {
      assert Zeros(k)[1..] == Zeros(k - 1);
      MultipleOfZeros(k - 1, poly);
    }
  }

  /** (q x^k) P == (q P) x^k */
  lemma {:induction false} MultipleShifts(q: Bits, k: nat, poly: Bits)
    ensures Multiple(q + Zeros(k), poly) == Multiple(q, poly) + Zeros(k)
  {
    hide *;
    if |q| == 0 {
      assert q + Zeros(k) == Zeros(k);
      MultipleOfZeros(k, poly);
      MultipleOfNothing(q, poly);
      ZerosConcat(|poly|, k);
    } else {
      var top, t := q[0], q + Zeros(k);
      assert t[0] == top && t[1..] == q[1..] + Zeros(k);
      MultipleShifts(q[1..], k, poly);
      MultipleUnfolds(q, poly);
      MultipleUnfolds(t, poly);
      var s := Scale(top, [true] + poly);
      var c, m := s + Zeros(|q| - 1), [false] + Multiple(q[1..], poly);
      MoreZeros(s, |q| - 1, k);
      assert [false] + (Multiple(q[1..], poly) + Zeros(k)) == m + Zeros(k);
      XorConcat(c, Zeros(k), m, Zeros(k));
      XorZeros(Zeros(k));
    }
  }

  lemma MultipleOfNothing(q: Bits, poly: Bits)
    requires q == []
    ensures Multiple(q, poly) == Zeros(|poly|)
  {}

  lemma MultipleUnfolds(q: Bits, poly: Bits)
    requires |q| > 0
    ensures Multiple(q, poly) == Xor(Scale(q[0], [true] + poly) + Zeros(|q| - 1), [false] + Multiple(q[1..], poly))
  {}

  lemma MoreZeros(s: Bits, n: nat, k: nat)
    ensures s + Zeros(n + k) == (s + Zeros(n)) + Zeros(k)
  {}

  /** A multiple of P leaves the register at zero. */
  lemma MultipleLeavesZero(q: Bits, poly: Bits)
    requires |poly| > 0
    ensures Feed(Zeros(|poly|), Multiple(q, poly), poly) == Zeros(|poly|)
  {
    hide *;
    MultipleShifts(q, |poly|, poly);
    assert |q + Zeros(|poly|)| == |Multiple(q, poly)|;
    EndsAtZero(Multiple(q, poly), poly);
  }

  /** Zeros in front of what is fed change nothing. */
  lemma LeadingZeros(n: nat, x: Bits, poly: Bits)
    requires |poly| > 0
    ensures Feed(Zeros(|poly|), Zeros(n) + x, poly) == Feed(Zeros(|poly|), x, poly)
  {
    hide *;
    FeedConcat(Zeros(|poly|), Zeros(n), x, poly);
    FeedNothing(n, poly);
  }

  /** Feeding W bits into a zero register feeds zeros into a register of those bits. */
  lemma FedRegister(r: Bits, poly: Bits)
    requires |r| == |poly| > 0
    ensures Feed(Zeros(|poly|), r, poly) == Feed(r, Zeros(|poly|), poly)
  {
    hide *;
    FeedAtTop(Zeros(|poly|), r, poly);
    assert r + Zeros(0) == r;
    XorZeros(r);
    XorComm(Zeros(|poly|), r);
  }

  /** With P(0) = 1, x^W cancels: a message leaves a zero register exactly when P
      divides it. */
  lemma OddEndsAtZero(e: Bits, poly: Bits)
    requires |poly| > 0 && poly[|poly|-1]
    ensures Feed(Zeros(|poly|), e, poly) == Zeros(|poly|) <==> IsMultiple(e, poly)
  {
    hide *;
    var z := Zeros(|poly|);
    var x := z + e;
    var q, r := DivisionExists(x, poly);
    var m, t := Multiple(q, poly), Zeros(|q|) + r;
    FeedLinear(z, z, m, t, poly);
    XorZeros(z);
    MultipleLeavesZero(q, poly);
    LeadingZeros(|poly|, e, poly);
    LeadingZeros(|q|, r, poly);
    FedRegister(r, poly);
    XorZeros(Feed(r, z, poly));
    XorComm(z, Feed(r, z, poly));
    assert Feed(z, e, poly) == Feed(r, z, poly);
    if r != z {
      NonzeroStays(r, |poly|, poly);
    } else {
      FeedNothing(|poly|, poly);
    }
    RemainderDecides(x, e, q, r, poly);
  }

  lemma RemainderDecides(x: Bits, e: Bits, q: Bits, r: Bits, poly: Bits)
    requires x == Zeros(|poly|) + e && |q| == |e| && |r| == |poly| && Xor(Multiple(q, poly), Zeros(|q|) + r) == x
    ensures r == Zeros(|poly|) <==> IsMultiple(e, poly)
  {
    hide Multiple, Xor, Zeros;
    if r == Zeros(|poly|) {
      ZerosConcat(|q|, |poly|);
      XorZeros(Multiple(q, poly));
    }
    if p: Bits :| |p| == |e| && Multiple(p, poly) == x {
      ExactMultiple(p, x, poly);
      DivisionIsUnique(p, Zeros(|poly|), q, r, poly);
    }
  }

  /** So with P(0) = 1 two messages of equal length end with the same register exactly
      when P divides their difference. */
  lemma OddUndetected(init: Bits, m: Bits, n: Bits, poly: Bits)
    requires |init| == |poly| > 0 && poly[|poly|-1] && |m| == |n|
    ensures Feed(init, m, poly) == Feed(init, n, poly) <==> IsMultiple(Xor(m, n), poly)
  {
    hide *;
    DifferenceOfRegisters(init, m, n, poly);
    XorCancel(Feed(init, m, poly), Feed(init, n, poly));
    OddEndsAtZero(Xor(m, n), poly);
  }

  /** A nonzero burst of at most W bits, between zeros, leaves a nonzero register. */
  lemma BurstLeavesTrace(i: nat, e: Bits, k: nat, poly: Bits)
    requires |poly| > 0 && poly[|poly|-1] && |e| <= |poly| && e != Zeros(|e|)
    ensures Feed(Zeros(|poly|), Zeros(i) + e + Zeros(k), poly) != Zeros(|poly|)
  {
    hide *;
    var z, top := Zeros(|poly|), e + Zeros(|poly| - |e|);
    FeedConcat(z, Zeros(i) + e, Zeros(k), poly);
    FeedConcat(z, Zeros(i), e, poly);
    FeedNothing(i, poly);
    FeedAtTop(z, e, poly);
    XorZeros(top);
    NonzeroPrefix(e, |poly| - |e|);
    NonzeroStays(top, |e|, poly);
    NonzeroStays(Feed(z, e, poly), k, poly);
  }

  /** Two different messages that agree outside a window of at most W bits end with
      different registers: every such error burst is detected. */
  lemma BurstIsDetected(init: Bits, m: Bits, n: Bits, i: nat, k: nat, poly: Bits)
    requires |init| == |poly| > 0 && poly[|poly|-1]
    requires i <= k <= |m| == |n| && k - i <= |poly| && m != n
    requires m[..i] == n[..i] && m[k..] == n[k..]
    ensures Feed(init, m, poly) != Feed(init, n, poly)
  {
    hide *;
    var e := Xor(m[i..k], n[i..k]);
    XorWindow(m, n, i, k);
    assert |e| == k - i;
    BurstLeavesTrace(i, e, |m| - k, poly);
    DifferenceOfRegisters(init, m, n, poly);
    XorCancel(Feed(init, m, poly), Feed(init, n, poly));
  }

  /** Appending the register, xored with f, leaves a register that depends on f only. */
  lemma AppendedRegister(reg: Bits, f: Bits, poly: Bits)
    requires |reg| == |f| == |poly| > 0
    ensures Feed(reg, Xor(reg, f), poly) == Feed(f, Zeros(|poly|), poly)
    ensures f == Zeros(|poly|) ==> Feed(reg, Xor(reg, f), poly) == Zeros(|poly|)
  {
    var c := Xor(reg, f);
    FeedAtTop(reg, c, poly);
    assert c + Zeros(0) == c;
    XorCancel(reg, f);
    FeedNothing(|poly|, poly);
  }
}
