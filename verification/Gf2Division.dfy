/**
  Division of polynomials over GF(2) by a generator of degree 32, one coefficient at a time.

  Polynomials are coefficient lists, highest power first. A generator x^32 + p is given by
  its low 32 coefficients `p`.
 */
module Gf2Division {

  type Bits = seq<bool>
  type Register = r: Bits | |r| == 32 witness seq(32, _ => false)

  function Zeros(n: nat): Bits { seq(n, _ => false) }

  function Xor(a: Bits, b: Bits): (r: Bits)
    requires |a| == |b|
    ensures |r| == |a|
  {
    seq(|a|, i requires 0 <= i < |a| => a[i] != b[i])
  }

  /** Bring down one coefficient: shift, and subtract the generator when the outgoing one is 1. */
  function BitStep(p: Register, r: Register, bit: bool): Register {
    var shifted := r[1..] + [false];
    if r[0] != bit then Xor(shifted, p) else shifted
  }

  function BitSteps(p: Register, r: Register, bits: Bits): Register
    decreases |bits|
  {
    if bits == [] then r else BitSteps(p, BitStep(p, r, bits[0]), bits[1..])
  }

  lemma {:induction false} BitStepsConcat(p: Register, r: Register, s: Bits, t: Bits)
    ensures BitSteps(p, r, s + t) == BitSteps(p, BitSteps(p, r, s), t)
    decreases |s|
  {
    if s == [] {
      assert s + t == t;
    } else {
      assert (s + t)[0] == s[0] && (s + t)[1..] == s[1..] + t;
      BitStepsConcat(p, BitStep(p, r, s[0]), s[1..], t);
    }
  }

  // ---------- The register is the remainder ----------

  /** The product of `q` and the generator, by schoolbook multiplication. */
  function Times(p: Register, q: Bits): (r: Bits)
    ensures |r| == |q| + 32
  {
    if q == [] then Zeros(32)
    else
      var n := |q| - 1;
      Xor(Times(p, q[..n]) + [false], Zeros(n) + if q[n] then [true] + p else Zeros(33))
  }

  /** The message followed by 32 zeros, with the initial register added to its first coefficients. */
  function Dividend(init: Register, m: Bits): Bits {
    Xor(m + Zeros(32), init + Zeros(|m|))
  }

  /** dividend == quotient * generator + r, where `r` has degree below 32. */
  ghost predicate Divides(p: Register, init: Register, m: Bits, q: Bits, r: Register) {
    |q| == |m| && Dividend(init, m) == Xor(Times(p, q), Zeros(|m|) + r)
  }

  function Quotient(p: Register, init: Register, m: Bits): (q: Bits)
    ensures |q| == |m|
  {
    if m == [] then []
    else
      var n := |m| - 1;
      Quotient(p, init, m[..n]) + [BitSteps(p, init, m[..n])[0] != m[n]]
  }

  lemma {:induction false} RegisterDivides(p: Register, init: Register, m: Bits)
    ensures Divides(p, init, m, Quotient(p, init, m), BitSteps(p, init, m))
  {
    if m == [] { return; }
    var n := |m| - 1;
    var m', b := m[..n], m[n];
    var r', q' := BitSteps(p, init, m'), Quotient(p, init, m');
    assert BitSteps(p, r', [b]) == BitStep(p, r', b);
    assert Quotient(p, init, m) == q' + [r'[0] != b];
    hide BitStep, BitSteps, Quotient, Divides;
    RegisterDivides(p, init, m');
    assert m == m' + [b];
    BitStepsConcat(p, init, m', [b]);
    DivisionStep(p, init, m', b, q', r');
  }

  lemma DivisionStep(p: Register, init: Register, m: Bits, b: bool, q: Bits, r: Register)
    requires Divides(p, init, m, q, r)
    ensures Divides(p, init, m + [b], q + [r[0] != b], BitStep(p, r, b))
  {
    var n, c := |m|, r[0] != b;
    var q' := q + [c];
    assert q'[..n] == q;
    var old_, new_ := Dividend(init, m), Dividend(init, m + [b]);
    var rhs := Xor(Times(p, q'), Zeros(n + 1) + BitStep(p, r, b));
    forall k | 0 <= k < n + 33 ensures new_[k] == rhs[k] {
      if k < n + 32 {
        assert old_[k] == (Times(p, q)[k] != (Zeros(n) + r)[k]);
        assert new_[k] == (old_[k] != (k == n && b));
      }
    }
  }

  lemma ProductCoefficient(p: Register, q: Bits, c: bool, k: nat)
    requires k < |q| + 33
    ensures Times(p, q + [c])[k] ==
            ((k < |q| + 32 && Times(p, q)[k]) != (k >= |q| && c && ([true] + p)[k - |q|]))
  {
    assert (q + [c])[..|q|] == q;
  }

  /** The leading coefficients of a product determine the factor. */
  lemma {:induction false} ProductDeterminesFactor(p: Register, q1: Bits, q2: Bits)
    requires |q1| == |q2|
    requires forall k :: 0 <= k < |q1| ==> Times(p, q1)[k] == Times(p, q2)[k]
    ensures q1 == q2
  {
    if q1 == [] { return; }
    var n := |q1| - 1;
    var s1, s2 := q1[..n], q2[..n];
    assert q1 == s1 + [q1[n]] && q2 == s2 + [q2[n]];
    forall k | 0 <= k <= n
      ensures k < n ==> Times(p, s1)[k] == Times(p, s2)[k]
    {
      ProductCoefficient(p, s1, q1[n], k);
      ProductCoefficient(p, s2, q2[n], k);
    }
    ProductDeterminesFactor(p, s1, s2);
    ProductCoefficient(p, s1, q1[n], n);
    ProductCoefficient(p, s2, q2[n], n);
  }

  /**
    The register after a message is the remainder of the division, and the only one: the
    division has exactly one quotient and remainder.
   */
  lemma RegisterIsRemainder(p: Register, init: Register, m: Bits, r: Register)
    ensures (exists q :: Divides(p, init, m, q, r)) <==> r == BitSteps(p, init, m)
  {
    hide BitSteps, Quotient, Divides;
    RegisterDivides(p, init, m);
    forall q | Divides(p, init, m, q, r) ensures r == BitSteps(p, init, m) {
      OneRemainder(p, init, m, q, r, Quotient(p, init, m), BitSteps(p, init, m));
    }
  }

  lemma OneRemainder(p: Register, init: Register, m: Bits, q: Bits, r: Register, q0: Bits, r0: Register)
    requires Divides(p, init, m, q, r) && Divides(p, init, m, q0, r0)
    ensures r == r0
  {
    hide Times, Dividend;
    var x, x0 := Xor(Times(p, q), Zeros(|m|) + r), Xor(Times(p, q0), Zeros(|m|) + r0);
    assert x == x0;
    forall k | 0 <= k < |m| ensures Times(p, q)[k] == Times(p, q0)[k] {
      assert x[k] == x0[k];
    }
    ProductDeterminesFactor(p, q, q0);
    forall k | 0 <= k < 32 ensures r[k] == r0[k] {
      assert x[|m| + k] == x0[|m| + k];
    }
  }

  // ---------- Linearity, injectivity and burst errors ----------

  lemma {:induction false} ZeroStepsLinear(p: Register, r: Register, s: Register, n: nat)
    ensures BitSteps(p, Xor(r, s), Zeros(n)) == Xor(BitSteps(p, r, Zeros(n)), BitSteps(p, s, Zeros(n)))
    decreases n
  {
    if n > 0 {
      assert Zeros(n)[1..] == Zeros(n - 1);
      assert BitStep(p, Xor(r, s), false) == Xor(BitStep(p, r, false), BitStep(p, s, false));
      ZeroStepsLinear(p, BitStep(p, r, false), BitStep(p, s, false), n - 1);
    }
  }

  lemma {:induction false} ZeroStepsShiftZerosOut(p: Register, n: nat, high: Bits)
    requires n + |high| == 32
    ensures BitSteps(p, Zeros(n) + high, Zeros(n)) == high + Zeros(n)
  {
    if n == 0 {
      assert Zeros(0) + high == high == high + Zeros(0);
    } else {
      assert Zeros(n)[1..] == Zeros(n - 1);
      assert BitStep(p, Zeros(n) + high, false) == Zeros(n - 1) + (high + [false]);
      ZeroStepsShiftZerosOut(p, n - 1, high + [false]);
      assert high + [false] + Zeros(n - 1) == high + Zeros(n);
    }
  }

  function Pad(u: Bits): Register
    requires |u| <= 32
  {
    u + Zeros(32 - |u|)
  }

  /** Up to 32 message bits may be added to the register at once and then shifted through. */
  lemma {:induction false} InjectWord(p: Register, r: Register, u: Bits)
    requires |u| <= 32
    ensures BitSteps(p, r, u) == BitSteps(p, Xor(r, Pad(u)), Zeros(|u|))
    decreases |u|
  {
    var w := Xor(r, Pad(u));
    if u == [] {
      assert w == r;
    } else {
      assert Zeros(|u|)[1..] == Zeros(|u[1..]|);
      assert BitStep(p, w, false) == Xor(BitStep(p, r, u[0]), Pad(u[1..]));
      InjectWord(p, BitStep(p, r, u[0]), u[1..]);
    }
  }

  /** A generator with a constant term makes every step a bijection of the register. */
  lemma {:induction false} BitStepsInjective(p: Register, r: Register, s: Register, bits: Bits)
    requires p[31]
    requires BitSteps(p, r, bits) == BitSteps(p, s, bits)
    ensures r == s
    decreases |bits|
  {
    if bits == [] { return; }
    var r', s' := BitStep(p, r, bits[0]), BitStep(p, s, bits[0]);
    BitStepsInjective(p, r', s', bits[1..]);
    assert r'[31] == (r[0] != bits[0]) && s'[31] == (s[0] != bits[0]);
    forall k | 0 < k < 32 ensures r[k] == s[k] {
      assert r'[k - 1] == s'[k - 1];
    }
  }

  /** Two messages that differ only inside a window of 32 bits leave different registers. */
  lemma BurstDetected(p: Register, init: Register, before: Bits, u: Bits, v: Bits, after: Bits)
    requires p[31]
    requires |u| == |v| <= 32 && u != v
    ensures BitSteps(p, init, before + u + after) != BitSteps(p, init, before + v + after)
  {
    BitStepsConcat(p, init, before + u, after);
    BitStepsConcat(p, init, before + v, after);
    BitStepsConcat(p, init, before, u);
    BitStepsConcat(p, init, before, v);
    var r := BitSteps(p, init, before);
    if BitSteps(p, init, before + u + after) == BitSteps(p, init, before + v + after) {
      BitStepsInjective(p, BitSteps(p, r, u), BitSteps(p, r, v), after);
      InjectWord(p, r, u);
      InjectWord(p, r, v);
      BitStepsInjective(p, Xor(r, Pad(u)), Xor(r, Pad(v)), Zeros(|u|));
      forall k | 0 <= k < |u| ensures u[k] == v[k] {
        assert Xor(r, Pad(u))[k] == Xor(r, Pad(v))[k];
      }
    }
  }
}
