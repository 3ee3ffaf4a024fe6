/**
 The bit-trick enumeration of the k-element masks that drives the indexed search
 (src/matching_generator.cc, search_for_matching).

 Machine words are non-negative integers below `Pow2(w)`; `And`, `Or`, `Not` and `Neg` are the
 bitwise operations and the two's complement negation of a `w`-bit word.  Everything is proved for
 every width `w`; the program uses the 32-bit `int`.
 */
module BitTricks {
  import opened Arithmetic

  // -------------------------------------------------------------------------------------------
  // Words
  // -------------------------------------------------------------------------------------------

  /** `x << t` in a word that is wide enough. */
  function Shl(x: nat, t: nat): nat {
    if t == 0 then x else 2 * Shl(x, t - 1)
  }

  function Pow2(e: nat): (r: nat)
    ensures r >= 1
  {
    if e == 0 then 1 else 2 * Pow2(e - 1)
  }

  /** The number of one bits. */
  function Pop(x: nat): nat {
    if x == 0 then 0 else x % 2 + Pop(x / 2)
  }

  function And(a: nat, b: nat): nat {
    if a == 0 || b == 0 then 0
    else (if a % 2 == 1 && b % 2 == 1 then 1 else 0) + 2 * And(a / 2, b / 2)
  }

  function Or(a: nat, b: nat): nat {
    if a == 0 then b else if b == 0 then a
    else (if a % 2 == 1 || b % 2 == 1 then 1 else 0) + 2 * Or(a / 2, b / 2)
  }

  function Not(w: nat, a: nat): nat
    requires a < Pow2(w)
  {
    Pow2(w) - 1 - a
  }

  function Neg(w: nat, a: nat): nat
    requires a < Pow2(w)
  {
    if a == 0 then 0 else Pow2(w) - a
  }

  // -------------------------------------------------------------------------------------------
  // Shifts
  // -------------------------------------------------------------------------------------------

  lemma {:induction false} ShlAdd(x: nat, y: nat, t: nat)
    ensures Shl(x + y, t) == Shl(x, t) + Shl(y, t)
  {
    if t > 0 {
      ShlAdd(x, y, t - 1);
    }
  }

  lemma {:induction false} ShlShl(x: nat, a: nat, b: nat)
    ensures Shl(Shl(x, a), b) == Shl(x, a + b)
  {
    if b > 0 {
      ShlShl(x, a, b - 1);
    }
  }

  lemma {:induction false} ShlPow2(e: nat, t: nat)
    ensures Shl(Pow2(e), t) == Pow2(e + t)
  {
    if t > 0 {
      ShlPow2(e, t - 1);
    }
  }

  lemma {:induction false} ShlZero(t: nat)
    ensures Shl(0, t) == 0
  {
    if t > 0 {
      ShlZero(t - 1);
    }
  }

  lemma {:induction false} ShlGrows(x: nat, t: nat)
    ensures x <= Shl(x, t)
  {
    if t > 0 {
      ShlGrows(x, t - 1);
    }
  }

  /** Dividing by a power of two undoes the shift. */
  lemma {:induction false} ShlDiv(x: nat, t: nat)
    ensures Quotient(Shl(x, t), Pow2(t)) == x
  {
    ShlPow2(0, t);
    if x == 0 {
      ShlZero(t);
    } else {
      ShlAdd(x - 1, 1, t);
      ShlDiv(x - 1, t);
    }
  }

  lemma {:induction false} Pow2Mono(a: nat, b: nat)
    requires a <= b
    ensures Pow2(a) <= Pow2(b)
    decreases b
  {
    if a < b {
      Pow2Mono(a, b - 1);
    }
  }

  lemma HalfSum(q: nat, l: nat)
    ensures (2 * q + l) % 2 == l % 2
    ensures (2 * q + l) / 2 == q + l / 2
  {
  }

  // -------------------------------------------------------------------------------------------
  // Population count
  // -------------------------------------------------------------------------------------------

  /** A word splits into a high and a low part. */
  lemma {:induction false} PopSplit(s: nat, h: nat, l: nat, x: nat)
    requires l < Pow2(s) && x == Shl(h, s) + l
    ensures Pop(x) == Pop(h) + Pop(l)
    decreases s
  {
    if s > 0 {
      HalfSum(Shl(h, s - 1), l);
      PopSplit(s - 1, h, l / 2, x / 2);
      if x == 0 {
        ShlGrows(h, s);
      } else {
        assert Pop(x) == x % 2 + Pop(x / 2);
      }
      assert Pop(l) == l % 2 + Pop(l / 2);
    }
  }

  lemma {:induction false} PopOnes(k: nat)
    ensures Pop(Pow2(k) - 1) == k
  {
    if k > 0 {
      PopOnes(k - 1);
      var x := Pow2(k) - 1;
      HalfSum(Pow2(k - 1) - 1, 1);
      assert x == 2 * (Pow2(k - 1) - 1) + 1;
      assert Pop(x) == x % 2 + Pop(x / 2);
    }
  }

  /** `Pow2(k) - 1` is the least word with `k` one bits. */
  lemma {:induction false} PopLeast(x: nat)
    ensures Pow2(Pop(x)) - 1 <= x
  {
    if x > 0 {
      PopLeast(x / 2);
      assert x == 2 * (x / 2) + x % 2;
    }
  }

  lemma {:induction false} PopBound(w: nat, x: nat)
    requires x < Pow2(w)
    ensures Pop(x) <= w
  {
    if w > 0 && x > 0 {
      PopBound(w - 1, x / 2);
    }
  }

  /** The greatest `w`-bit word with `p` one bits has them all at the top. */
  lemma {:induction false} PopGreatest(w: nat, x: nat)
    requires x < Pow2(w)
    ensures Pop(x) <= w
    ensures x <= Pow2(w) - Pow2(w - Pop(x))
  {
    PopBound(w, x);
    if w > 0 && x > 0 {
      PopGreatest(w - 1, x / 2);
      PopBound(w - 1, x / 2);
      assert x == 2 * (x / 2) + x % 2;
      var p := Pop(x / 2);
      if x % 2 == 0 {
        assert Pow2(w - p) == 2 * Pow2(w - 1 - p);
      } else {
        assert Pop(x) == p + 1;
      }
    }
  }

  // -------------------------------------------------------------------------------------------
  // The shape of a word: trailing zeros, then a run of ones, then a zero, then the rest
  // -------------------------------------------------------------------------------------------

  /** The index of the lowest one bit. */
  function Trailing(x: nat): nat
    requires x > 0
  {
    if x % 2 == 1 then 0 else 1 + Trailing(x / 2)
  }

  /** The odd part: `x` without its trailing zeros. */
  function OddPart(x: nat): (o: nat)
    requires x > 0
    ensures o % 2 == 1
  {
    if x % 2 == 1 then x else OddPart(x / 2)
  }

  /** The length of the run of ones that ends at bit zero. */
  function Run(o: nat): nat {
    if o % 2 == 1 then 1 + Run(o / 2) else 0
  }

  /** What lies above that run and the zero bit that closes it. */
  function Above(o: nat): nat {
    if o % 2 == 1 then Above(o / 2) else o / 2
  }

  lemma {:induction false} OddPartShape(x: nat)
    requires x > 0
    ensures x == Shl(OddPart(x), Trailing(x))
  {
    if x % 2 == 0 {
      OddPartShape(x / 2);
      assert x == 2 * (x / 2);
    }
  }

  lemma {:induction false} RunShape(o: nat)
    ensures o == Shl(2 * Above(o), Run(o)) + Pow2(Run(o)) - 1
  {
    assert o == 2 * (o / 2) + o % 2;
    if o % 2 == 1 {
      RunShape(o / 2);
    }
  }

  // -------------------------------------------------------------------------------------------
  // The bitwise identities behind the trick
  // -------------------------------------------------------------------------------------------

  lemma {:induction false} AndNotSelf(w: nat, a: nat)
    requires a < Pow2(w)
    ensures And(a, Not(w, a)) == 0
  {
    if w > 0 && a > 0 {
      AndNotSelf(w - 1, a / 2);
      NotHalf(w, a);
    }
  }

  lemma NotHalf(w: nat, a: nat)
    requires w > 0 && a < Pow2(w)
    ensures Not(w, a) % 2 == 1 - a % 2
    ensures a / 2 < Pow2(w - 1)
    ensures Not(w, a) / 2 == Not(w - 1, a / 2)
  {
  }

  /** `x & -x` isolates the lowest one bit. */
  lemma {:induction false} AndNeg(w: nat, x: nat)
    requires 0 < x < Pow2(w)
    ensures And(x, Neg(w, x)) == Pow2(Trailing(x))
  {
    var y := Neg(w, x);
    if x % 2 == 0 {
      HalfSum(Pow2(w - 1) - x / 2, 0);
      assert y == 2 * (Pow2(w - 1) - x / 2);
      AndNeg(w - 1, x / 2);
    } else {
      HalfSum(Pow2(w - 1) - 1 - x / 2, 1);
      assert y == 2 * (Pow2(w - 1) - 1 - x / 2) + 1;
      AndNotSelf(w - 1, x / 2);
    }
  }

  /** For odd `o`, `o & ~(o + 1)` is the run of ones at the bottom of `o`. */
  lemma {:induction false} AndNotNext(w: nat, o: nat)
    requires o + 1 < Pow2(w)
    ensures And(o, Not(w, o + 1)) == Pow2(Run(o)) - 1
    decreases w
  {
    if o > 0 {
      NotHalf(w, o + 1);
      var b := Not(w, o + 1);
      if o % 2 == 1 {
        assert (o + 1) / 2 == o / 2 + 1;
        AndNotNext(w - 1, o / 2);
        assert b > 0;
      } else {
        assert (o + 1) / 2 == o / 2;
        AndNotSelf(w - 1, o / 2);
      }
    }
  }

  /** `x & ~(x + lowest bit of x)` is that run, in place. */
  lemma {:induction false} AndNotCarry(w: nat, t: nat, o: nat)
    requires Shl(o + 1, t) < Pow2(w)
    ensures And(Shl(o, t), Not(w, Shl(o + 1, t))) == Shl(Pow2(Run(o)) - 1, t)
    decreases t
  {
    if t == 0 {
      AndNotNext(w, o);
    } else {
      ShlGrows(o + 1, t);
      assert w > 0;
      NotHalf(w, Shl(o + 1, t));
      AndNotCarry(w - 1, t - 1, o);
      var a, b := Shl(o, t), Not(w, Shl(o + 1, t));
      assert a % 2 == 0 && a / 2 == Shl(o, t - 1);
      if a != 0 && b != 0 {
        assert And(a, b) == 2 * And(a / 2, b / 2);
      } else {
        assert And(a / 2, b / 2) == 0;
      }
    }
  }

  /** `|` adds when the low word stays below the high word's trailing zeros. */
  lemma {:induction false} OrDisjoint(s: nat, h: nat, l: nat)
    requires l < Pow2(s)
    ensures Or(l, Shl(h, s)) == Shl(h, s) + l
    decreases s
  {
    if l > 0 && Shl(h, s) > 0 {
      HalfSum(Shl(h, s - 1), 0);
      OrDisjoint(s - 1, h, l / 2);
      assert l == 2 * (l / 2) + l % 2;
      assert Or(l, Shl(h, s)) == l % 2 + 2 * Or(l / 2, Shl(h, s - 1));
    }
  }

  // -------------------------------------------------------------------------------------------
  // The enumeration step
  // -------------------------------------------------------------------------------------------

  lemma LowBitAtMost(w: nat, comb: nat)
    requires 0 < comb && 2 * comb < Pow2(w)
    ensures 0 < And(comb, Neg(w, comb)) <= comb
  {
    AndNeg(w, comb);
    OddPartShape(comb);
    var t, o := Trailing(comb), OddPart(comb);
    ShlAdd(1, o - 1, t);
    ShlPow2(0, t);
  }

  /** One step of the loop: `x = comb & -comb, y = x + comb, comb = (((comb & ~y) / x) >> 1) | y`. */
  function NextComb(w: nat, comb: nat): nat
    requires 0 < comb && 2 * comb < Pow2(w)
  {
    LowBitAtMost(w, comb);
    var x := And(comb, Neg(w, comb));
    var y := x + comb;
    Or(Quotient(And(comb, Not(w, y)), x) / 2, y)
  }

  lemma OddPop(h: nat)
    ensures Pop(2 * h) == Pop(h)
    ensures Pop(2 * h + 1) == Pop(h) + 1
  {
    HalfSum(h, 0);
    HalfSum(h, 1);
    if h > 0 {
      assert Pop(2 * h) == (2 * h) % 2 + Pop((2 * h) / 2);
    }
    assert Pop(2 * h + 1) == (2 * h + 1) % 2 + Pop((2 * h + 1) / 2);
  }

  lemma ShlSucc(x: nat, t: nat)
    ensures Shl(x + 1, t) == Shl(x, t) + Pow2(t)
  {
    ShlAdd(x, 1, t);
    ShlPow2(0, t);
  }

  /** A run of `r` ones at bit `t`. */
  lemma RunOfOnes(r: nat, t: nat)
    ensures Shl(Pow2(r) - 1, t) == Pow2(r + t) - Pow2(t)
    ensures Pop(Shl(Pow2(r) - 1, t)) == r
  {
    ShlSucc(Pow2(r) - 1, t);
    ShlPow2(r, t);
    PopSplit(t, Pow2(r) - 1, 0, Shl(Pow2(r) - 1, t));
    PopOnes(r);
  }

  /** `comb` ends in `h`, a zero, `r + 1` ones and `t` zeros. */
  lemma CombShape(comb: nat, t: nat, r: nat, h: nat)
    requires 0 < comb
    requires t == Trailing(comb) && r + 1 == Run(OddPart(comb)) && h == Above(OddPart(comb))
    ensures comb == Shl(2 * h, t + r + 1) + Pow2(t + r + 1) - Pow2(t)
    ensures comb == Shl(OddPart(comb), t)
    ensures Pop(comb) == Pop(h) + r + 1
  {
    var ones, s := Pow2(r + 1) - 1, t + r + 1;
    OddPartShape(comb);
    RunShape(OddPart(comb));
    RunOfOnes(r + 1, t);
    ShlAdd(Shl(2 * h, r + 1), ones, t);
    ShlShl(2 * h, r + 1, t);
    PopSplit(s, 2 * h, Shl(ones, t), comb);
    OddPop(h);
  }

  /** The program's step in closed form: the top one of the lowest run moves up by one place and
      the other `r` ones move down to the bottom. */
  lemma NextCombShape(w: nat, comb: nat, t: nat, r: nat, h: nat)
    requires 0 < comb && 2 * comb < Pow2(w)
    requires t == Trailing(comb) && r + 1 == Run(OddPart(comb)) && h == Above(OddPart(comb))
    ensures comb == Shl(2 * h, t + r + 1) + Pow2(t + r + 1) - Pow2(t)
    ensures Pop(comb) == Pop(h) + r + 1
    ensures NextComb(w, comb) == Shl(2 * h + 1, t + r + 1) + (Pow2(r) - 1)
  {
    CombShape(comb, t, r, h);
    ShlSucc(OddPart(comb), t);
    ShlSucc(2 * h, t + r + 1);
    LowBitAtMost(w, comb);
    AndNeg(w, comb);
    AndNotCarry(w, t, OddPart(comb));
    var x := Pow2(t);
    CombineStep(w, comb, x, x + comb, Pow2(r + 1) - 1, t + r + 1, t, r, 2 * h + 1);
  }

  /** The bitwise part of the step, once the word's shape is known. */
  lemma CombineStep(w: nat, comb: nat, x: nat, y: nat, ones: nat, s: nat, t: nat, r: nat, h: nat)
    requires 0 < comb && 2 * comb < Pow2(w)
    requires x == Pow2(t) && t == Trailing(comb) && y == x + comb < Pow2(w)
    requires ones == Pow2(r + 1) - 1 && And(comb, Not(w, y)) == Shl(ones, t)
    requires r <= s && y == Shl(h, s)
    ensures NextComb(w, comb) == Shl(h, s) + (Pow2(r) - 1)
  {
    AndNeg(w, comb);
    ShlDiv(ones, t);
    HalfSum(Pow2(r) - 1, 1);
    Pow2Mono(r, s);
    OrDisjoint(s, h, Pow2(r) - 1);
  }

  lemma FewBelow(s: nat, t: nat, l: nat, p: nat)
    requires t <= s && Pow2(s) - Pow2(t) < l < Pow2(s) && p == Pop(l)
    ensures p != s - t
  {
    PopGreatest(s, l);
    assert Pow2(s - p) <= Pow2(s) - l < Pow2(t);
  }

  /** Words with the same high part as `comb` but more below it have too few ones below ... */
  lemma NoneBelowCarry(s: nat, t: nat, h: nat, l: nat, z: nat)
    requires t <= s && Pow2(s) - Pow2(t) < l < Pow2(s)
    requires z == Shl(h, s) + l
    ensures Pop(z) != Pop(h) + s - t
  {
    PopSplit(s, h, l, z);
    FewBelow(s, t, l, Pop(l));
  }

  /** ... and words past the carry but below the next mask have too few as well. */
  lemma NoneAboveCarry(s: nat, r: nat, h: nat, l: nat, z: nat)
    requires r <= s && l < Pow2(r) - 1
    requires z == Shl(h, s) + l
    ensures Pop(z) != Pop(h) + r
  {
    Pow2Mono(r, s);
    PopSplit(s, h, l, z);
    PopLeast(l);
  }

  lemma NoneBetween(s: nat, t: nat, r: nat, h: nat, h': nat, z: nat)
    requires s == t + r + 1
    requires Shl(h', s) == Shl(h, s) + Pow2(s) && Pop(h') == Pop(h) + 1
    requires Shl(h, s) + Pow2(s) - Pow2(t) < z < Shl(h', s) + Pow2(r) - 1
    ensures Pop(z) != Pop(h) + r + 1
  {
    Pow2Mono(t, s);
    if z < Shl(h', s) {
      NoneBelowCarry(s, t, h, z - Shl(h, s), z);
    } else {
      NoneAboveCarry(s, r, h', z - Shl(h', s), z);
    }
  }

  lemma CarryPop(next: nat, s: nat, r: nat, h': nat)
    requires r <= s && next == Shl(h', s) + (Pow2(r) - 1)
    ensures Pop(next) == Pop(h') + r
  {
    Pow2Mono(r, s);
    PopSplit(s, h', Pow2(r) - 1, next);
    PopOnes(r);
  }

  /** Moving the carry skips no word with `p` one bits. */
  lemma CarrySkipsNone(comb: nat, next: nat, p: nat, s: nat, t: nat, r: nat, h: nat, h': nat)
    requires s == t + r + 1 && p == Pop(h) + r + 1
    requires Shl(h', s) == Shl(h, s) + Pow2(s) && Pop(h') == Pop(h) + 1
    requires comb == Shl(h, s) + Pow2(s) - Pow2(t)
    requires next == Shl(h', s) + (Pow2(r) - 1)
    ensures comb < next
    ensures forall z :: comb < z < next ==> Pop(z) != p
  {
    Pow2Mono(t, s);
    forall z: nat | comb < z < next
      ensures Pop(z) != p
    {
      NoneBetween(s, t, r, h, h', z);
    }
  }

  /** `next` is `comb` with the one above its lowest run carried from `h` to `h'`. */
  ghost predicate MovesCarry(comb: nat, next: nat, s: nat, t: nat, r: nat, h: nat, h': nat) {
    && s == t + r + 1
    && Shl(h', s) == Shl(h, s) + Pow2(s) && Pop(h') == Pop(h) + 1
    && comb == Shl(h, s) + Pow2(s) - Pow2(t) && Pop(comb) == Pop(h) + r + 1
    && next == Shl(h', s) + (Pow2(r) - 1)
  }

  lemma StepMovesCarry(w: nat, comb: nat) returns (s: nat, t: nat, r: nat, h: nat, h': nat)
    requires 0 < comb && 2 * comb < Pow2(w)
    ensures MovesCarry(comb, NextComb(w, comb), s, t, r, h, h')
  {
    var a := Above(OddPart(comb));
    t, r, h, h' := Trailing(comb), Run(OddPart(comb)) - 1, 2 * a, 2 * a + 1;
    s := t + r + 1;
    NextCombShape(w, comb, t, r, a);
    OddPop(a);
    ShlSucc(h, s);
  }

  lemma CarryIsSuccessor(comb: nat, next: nat, s: nat, t: nat, r: nat, h: nat, h': nat)
    requires MovesCarry(comb, next, s, t, r, h, h')
    ensures comb < next
    ensures Pop(next) == Pop(comb)
    ensures forall z :: comb < z < next ==> Pop(z) != Pop(comb)
  {
    CarryPop(next, s, r, h');
    CarrySkipsNone(comb, next, Pop(comb), s, t, r, h, h');
  }

  /** The step yields the next larger word with as many one bits, and skips none. */
  lemma NextCombIsSuccessor(w: nat, comb: nat)
    requires 0 < comb && 2 * comb < Pow2(w)
    ensures comb < NextComb(w, comb)
    ensures Pop(NextComb(w, comb)) == Pop(comb)
    ensures forall z :: comb < z < NextComb(w, comb) ==> Pop(z) != Pop(comb)
  {
    var s, t, r, h, h' := StepMovesCarry(w, comb);
    CarryIsSuccessor(comb, NextComb(w, comb), s, t, r, h, h');
  }

  // -------------------------------------------------------------------------------------------
  // The whole enumeration
  // -------------------------------------------------------------------------------------------

  /** The masks the loop visits from `comb` on, while `comb < Pow2(m)`. */
  function MasksFrom(w: nat, m: nat, comb: nat): seq<nat>
    requires 0 < comb && 2 * Pow2(m) <= Pow2(w)
    decreases Pow2(m) - comb
  {
    if comb >= Pow2(m) then []
    else
      NextCombIsSuccessor(w, comb);
      [comb] + MasksFrom(w, m, NextComb(w, comb))
  }

  /** `s` lists, in increasing order and without repetition, the words of `[lo, hi)` that have `p`
      one bits. */
  ghost predicate ListsMasks(s: seq<nat>, lo: nat, hi: nat, p: nat) {
    && (forall i, j :: 0 <= i < j < |s| ==> s[i] < s[j])
    && (forall z: nat :: z in s <==> lo <= z < hi && Pop(z) == p)
  }

  lemma ListsMasksCons(rest: seq<nat>, comb: nat, next: nat, hi: nat, p: nat)
    requires ListsMasks(rest, next, hi, p)
    requires comb < hi && comb < next && Pop(comb) == p
    requires forall z :: comb < z < next ==> Pop(z) != p
    ensures ListsMasks([comb] + rest, comb, hi, p)
  {
    var s := [comb] + rest;
    forall i, j | 0 <= i < j < |s| ensures s[i] < s[j] {
      assert s[j] == rest[j - 1] && rest[j - 1] in rest;
    }
    forall z: nat ensures z in s <==> comb <= z < hi && Pop(z) == p {
      assert z in s <==> z == comb || z in rest;
    }
  }

  lemma {:induction false} MasksFromComplete(w: nat, m: nat, comb: nat)
    requires 0 < comb && 2 * Pow2(m) <= Pow2(w)
    ensures ListsMasks(MasksFrom(w, m, comb), comb, Pow2(m), Pop(comb))
    decreases Pow2(m) - comb
  {
    if comb < Pow2(m) {
      var next := NextComb(w, comb);
      NextCombIsSuccessor(w, comb);
      MasksFromComplete(w, m, next);
      ListsMasksCons(MasksFrom(w, m, next), comb, next, Pow2(m), Pop(comb));
    }
  }

  /** Starting from `(1 << k) - 1`, the loop visits every `k`-element mask of `m` positions exactly
      once, in increasing order, and nothing else. */
  lemma MasksVisitEveryKSubset(w: nat, m: nat, k: nat)
    requires 1 <= k && 2 * Pow2(m) <= Pow2(w)
    ensures Pow2(k) - 1 > 0
    ensures ListsMasks(MasksFrom(w, m, Pow2(k) - 1), 0, Pow2(m), k)
  {
    FirstMask(k);
    MasksFromComplete(w, m, Pow2(k) - 1);
  }

  /** `(1 << k) - 1` is the least word with `k` one bits. */
  lemma FirstMask(k: nat)
    requires 1 <= k
    ensures 0 < Pow2(k) - 1
    ensures Pop(Pow2(k) - 1) == k
    ensures forall z: nat :: Pop(z) == k ==> Pow2(k) - 1 <= z
  {
    PopOnes(k);
    assert Pow2(k) == 2 * Pow2(k - 1);
    forall z: nat | Pop(z) == k ensures Pow2(k) - 1 <= z {
      PopLeast(z);
    }
  }

  /** Below `Pow2(m)` only the full mask has `m` one bits, so for `k < m` the program's guard
      `comb < all_one` cuts off no mask. */
  lemma OnlyFullMaskIsFull(m: nat, z: nat)
    requires z < Pow2(m)
    ensures Pop(z) == m <==> z == Pow2(m) - 1
  {
  }
}
