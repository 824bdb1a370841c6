/** The worker's xorshift64 generator. */
module WorkerRngs {
  // The three steps of a round: `value ^= value << 13`, `value ^= value >> 7`, `value ^= value << 17`.

  function Left13(x: bv64): bv64 { x ^ (x << 13) }
  function Right7(x: bv64): bv64 { x ^ (x >> 7) }
  function Left17(x: bv64): bv64 { x ^ (x << 17) }

  /** One xorshift round on a 64-bit word. */
  function Scramble(s: bv64): bv64 {
    Left17(Right7(Left13(s)))
  }

  /** The generator's next state: a scrambled word, with 1 in place of 0. */
  function NextState(s: bv64): bv64 {
    var value := Scramble(s);
    if value == 0 then 1 else value
  }

  function Seeded(seedValue: bv64): bv64 {
    if seedValue == 0 then 1 else seedValue
  }

  /** The state after n draws. */
  function StateAfter(s: bv64, n: nat): bv64 {
    if n == 0 then s else NextState(StateAfter(s, n - 1))
  }

  /** The 53-bit integer behind a unit double: the drawn word without its low 11 bits. */
  function UnitBits(word: bv64): (bits: nat)
    ensures bits < 0x20_0000_0000_0000
  {
    word as int / 0x800
  }

  /** The reduction of a drawn word below a bound; nothing is drawn for the bound 0. */
  function IndexBelow(word: bv64, upperBound: nat): (index: nat)
    ensures upperBound > 0 ==> index < upperBound
  {
    if upperBound == 0 then 0 else word as int % upperBound
  }

  /** The upper 53 bits of a word are the only number that leaves less than 2048 of it below. */
  lemma UpperBits(word: bv64, bits: nat)
    ensures UnitBits(word) == bits <==> bits * 2048 <= word as int < (bits + 1) * 2048
  {}

  /** An index is the remainder of the word: it is below the bound, and the rest is a multiple of the bound. */
  lemma IndexIsRemainder(word: bv64, upperBound: nat)
    requires upperBound > 0
    ensures var index := IndexBelow(word, upperBound);
            index < upperBound && word as int == (word as int / upperBound) * upperBound + index
  {
    QuotientAndRemainder(word as int, upperBound);
  }

  lemma QuotientAndRemainder(n: nat, d: nat)
    requires d > 0
    ensures n % d < d && n == (n / d) * d + n % d
  {}

  /** The first draws of the generator seeded with 0 or 1: 1 ^ 1 << 13, then ^ >> 7, then ^ << 17. */
  lemma FirstDraw()
    ensures NextState(Seeded(0)) == NextState(Seeded(1)) == 0x40822041
  {}

  class WorkerRng {
    var state: bv64

    constructor ()
      ensures state == 1
    {
      state := 1;
    }

    method Seed(seedValue: bv64)
      modifies this
      ensures state == Seeded(seedValue) && state != 0 && (seedValue != 0 ==> state == seedValue)
    {
      state := if seedValue == 0 then 1 else seedValue;
    }

    method NextU64() returns (word: bv64)
      modifies this
      ensures word == state == NextState(old(state))
    {
      var value := state;
      value := Left13(value);
      value := Right7(value);
      value := Left17(value);
      state := if value == 0 then 1 else value;
      return state;
    }

    /** Over exact reals: the drawn 53 bits scaled into [0, 1). */
    method NextUnitDouble() returns (unit: real)
      modifies this
      ensures state == NextState(old(state))
      ensures unit == UnitBits(state) as real / 0x20_0000_0000_0000 as real
      ensures 0.0 <= unit < 1.0
    {
      var word := NextU64();
      unit := UnitBits(word) as real / 0x20_0000_0000_0000 as real;
    }

    /** A bound of 0 gives 0 and draws nothing. */
    method UniformIndex(upperBound: nat) returns (index: nat)
      modifies this
      ensures state == if upperBound == 0 then old(state) else NextState(old(state))
      ensures index == IndexBelow(state, upperBound)
    {
      if upperBound == 0 {
        return 0;
      }
      var word := NextU64();
      return word as int % upperBound;
    }
  }

  // ---- The round is a bijection. Doing a step twice doubles its shift, so doing it often enough undoes it. ----

  function Left26(x: bv64): bv64 { x ^ (x << 26) }
  function Left52(x: bv64): bv64 { x ^ (x << 52) }
  function Left34(x: bv64): bv64 { x ^ (x << 34) }
  function Right14(x: bv64): bv64 { x ^ (x >> 14) }
  function Right28(x: bv64): bv64 { x ^ (x >> 28) }
  function Right56(x: bv64): bv64 { x ^ (x >> 56) }

  /** The explicit inverse of a round. */
  function Unscramble(s: bv64): bv64 {
    var b := Left17(Left34(s));
    var a := Right7(Right14(Right28(Right56(b))));
    Left13(Left26(Left52(a)))
  }

  lemma Twice13(x: bv64)
    ensures Left13(Left13(x)) == Left26(x)
  {
    assert Left13(x ^ (x << 13)) == (x ^ (x << 13)) ^ ((x ^ (x << 13)) << 13);
    assert Left13(x) == x ^ (x << 13);
    assert (x ^ (x << 13)) ^ ((x ^ (x << 13)) << 13) == x ^ (x << 26);
  }

  lemma Twice26(x: bv64)
    ensures Left26(Left26(x)) == Left52(x)
  {
    assert Left26(x ^ (x << 26)) == (x ^ (x << 26)) ^ ((x ^ (x << 26)) << 26);
    assert Left26(x) == x ^ (x << 26);
    assert (x ^ (x << 26)) ^ ((x ^ (x << 26)) << 26) == x ^ (x << 52);
  }

  lemma Twice52(x: bv64)
    ensures Left52(Left52(x)) == x
  {
    assert Left52(x ^ (x << 52)) == (x ^ (x << 52)) ^ ((x ^ (x << 52)) << 52);
    assert Left52(x) == x ^ (x << 52);
    assert (x ^ (x << 52)) ^ ((x ^ (x << 52)) << 52) == x;
  }

  lemma Twice17(x: bv64)
    ensures Left17(Left17(x)) == Left34(x)
  {
    assert Left17(x ^ (x << 17)) == (x ^ (x << 17)) ^ ((x ^ (x << 17)) << 17);
    assert Left17(x) == x ^ (x << 17);
    assert (x ^ (x << 17)) ^ ((x ^ (x << 17)) << 17) == x ^ (x << 34);
  }

  lemma Twice34(x: bv64)
    ensures Left34(Left34(x)) == x
  {
    assert Left34(x ^ (x << 34)) == (x ^ (x << 34)) ^ ((x ^ (x << 34)) << 34);
    assert Left34(x) == x ^ (x << 34);
    assert (x ^ (x << 34)) ^ ((x ^ (x << 34)) << 34) == x;
  }

  lemma Twice7(x: bv64)
    ensures Right7(Right7(x)) == Right14(x)
  {
    assert Right7(x ^ (x >> 7)) == (x ^ (x >> 7)) ^ ((x ^ (x >> 7)) >> 7);
    assert Right7(x) == x ^ (x >> 7);
    assert (x ^ (x >> 7)) ^ ((x ^ (x >> 7)) >> 7) == x ^ (x >> 14);
  }

  lemma Twice14(x: bv64)
    ensures Right14(Right14(x)) == Right28(x)
  {
    assert Right14(x ^ (x >> 14)) == (x ^ (x >> 14)) ^ ((x ^ (x >> 14)) >> 14);
    assert Right14(x) == x ^ (x >> 14);
    assert (x ^ (x >> 14)) ^ ((x ^ (x >> 14)) >> 14) == x ^ (x >> 28);
  }

  lemma Twice28(x: bv64)
    ensures Right28(Right28(x)) == Right56(x)
  {
    assert Right28(x ^ (x >> 28)) == (x ^ (x >> 28)) ^ ((x ^ (x >> 28)) >> 28);
    assert Right28(x) == x ^ (x >> 28);
    assert (x ^ (x >> 28)) ^ ((x ^ (x >> 28)) >> 28) == x ^ (x >> 56);
  }

  lemma Twice56(x: bv64)
    ensures Right56(Right56(x)) == x
  {
    assert Right56(x ^ (x >> 56)) == (x ^ (x >> 56)) ^ ((x ^ (x >> 56)) >> 56);
    assert Right56(x) == x ^ (x >> 56);
    assert (x ^ (x >> 56)) ^ ((x ^ (x >> 56)) >> 56) == x;
  }

  lemma Left13Bijective(x: bv64)
    ensures Left13(Left13(Left26(Left52(x)))) == x
    ensures Left13(Left26(Left52(Left13(x)))) == x
  {
    Twice13(Left26(Left52(x))); Twice26(Left52(x)); Twice52(x);
    Twice13(x); Twice13(Left13(x));
    assert Left26(Left13(x)) == Left13(Left26(x));
    var y := Left26(x);
    Twice26(Left13(x)); Twice13(y); Twice13(Left13(y)); Twice26(x);
    assert Left52(Left13(x)) == Left13(Left52(x));
    var z := Left52(x);
    Twice13(z); Twice13(Left13(z));
    assert Left26(Left13(z)) == Left13(Left26(z));
    Twice13(Left26(z)); Twice26(z);
  }

  lemma Left17Bijective(x: bv64)
    ensures Left17(Left17(Left34(x))) == x
    ensures Left17(Left34(Left17(x))) == x
  {
    Twice17(Left34(x)); Twice34(x); Twice17(x); Twice17(Left17(x));
  }

  lemma Right7Commutes(x: bv64)
    ensures Right14(Right7(x)) == Right7(Right14(x))
    ensures Right28(Right7(x)) == Right7(Right28(x))
    ensures Right56(Right7(x)) == Right7(Right56(x))
  {
    Right14Commutes(x);
    Twice14(Right7(x)); Right14Commutes(Right14(x)); Twice14(x);
    Right28Commutes(x);
    Twice28(Right7(x)); Right28Commutes(Right28(x)); Twice28(x);
  }

  lemma Right14Commutes(x: bv64)
    ensures Right14(Right7(x)) == Right7(Right14(x))
  {
    Twice7(x); Twice7(Right7(x));
  }

  lemma Right28Commutes(x: bv64)
    ensures Right28(Right7(x)) == Right7(Right28(x))
  {
    Right14Commutes(x);
    Twice14(Right7(x)); Right14Commutes(Right14(x)); Twice14(x);
  }

  lemma Right7Bijective(x: bv64)
    ensures Right7(Right7(Right14(Right28(Right56(x))))) == x
    ensures Right7(Right14(Right28(Right56(Right7(x))))) == x
  {
    Twice7(Right14(Right28(Right56(x)))); Twice14(Right28(Right56(x))); Twice28(Right56(x)); Twice56(x);
    Right7Commutes(x); Right7Commutes(Right56(x)); Right7Commutes(Right28(Right56(x)));
  }

  lemma ScrambleIsBijective(s: bv64)
    ensures Unscramble(Scramble(s)) == s
    ensures Scramble(Unscramble(s)) == s
  {
    Left13Bijective(s); Right7Bijective(Left13(s)); Left17Bijective(Right7(Left13(s)));
    var b := Left17(Left34(s));
    var a := Right7(Right14(Right28(Right56(b))));
    Left17Bijective(s); Right7Bijective(b); Left13Bijective(a);
  }

  /** The zero fallback is dead code: it is reached from the state 0 only, which no run holds. */
  lemma ZeroFallbackUnreachable(s: bv64)
    requires s != 0
    ensures Scramble(s) != 0 && NextState(s) == Scramble(s)
  {
    ScrambleIsBijective(s);
    ScrambleIsBijective(0);
    assert Scramble(0) == 0;
  }

  /** No run from any seed ever takes the fallback: every state is the scrambled one before it, and none is 0. */
  lemma {:induction false} FallbackNeverTaken(seedValue: bv64, n: nat)
    ensures StateAfter(Seeded(seedValue), n) != 0
    ensures StateAfter(Seeded(seedValue), n + 1) == Scramble(StateAfter(Seeded(seedValue), n)) != 0
  {
    hide Scramble;
    if n > 0 {
      FallbackNeverTaken(seedValue, n - 1);
    }
    ZeroFallbackUnreachable(StateAfter(Seeded(seedValue), n));
  }

  lemma NextStateInjective(s: bv64, t: bv64)
    requires s != 0 && t != 0 && NextState(s) == NextState(t)
    ensures s == t
  {
    ZeroFallbackUnreachable(s);
    ZeroFallbackUnreachable(t);
    ScrambleIsBijective(s);
    ScrambleIsBijective(t);
  }

  lemma {:induction false} StatesStayNonZero(s: bv64, n: nat)
    requires s != 0
    ensures StateAfter(s, n) != 0
  {
    FallbackNeverTaken(s, n);
  }

  /** Two runs from different states differ at every step. */
  lemma {:induction false} DistinctRunsNeverMeet(s: bv64, t: bv64, n: nat)
    requires s != 0 && t != 0 && s != t
    ensures StateAfter(s, n) != StateAfter(t, n)
  {
    hide NextState;
    if n > 0 {
      DistinctRunsNeverMeet(s, t, n - 1);
      StatesStayNonZero(s, n - 1);
      StatesStayNonZero(t, n - 1);
      if StateAfter(s, n) == StateAfter(t, n) {
        NextStateInjective(StateAfter(s, n - 1), StateAfter(t, n - 1));
      }
    }
  }

  lemma {:induction false} StateAfterSum(s: bv64, m: nat, n: nat)
    ensures StateAfter(StateAfter(s, m), n) == StateAfter(s, m + n)
  {
    hide NextState;
    if n > 0 {
      StateAfterSum(s, m, n - 1);
    }
  }

  // ---- Every run returns to its seed. ----

  const STATES: nat := 0x1_0000_0000_0000_0000

  lemma {:induction false} RangeCardinality(n: nat, r: set<nat>)
    requires forall x :: x in r ==> x < n
    ensures |r| <= n
  {
    if n == 0 {
      assert r == {};
    } else {
      RangeCardinality(n - 1, r - {n - 1});
    }
  }

  lemma {:induction false} DistinctCardinality(xs: seq<nat>, r: set<nat>)
    requires forall i, j :: 0 <= i < j < |xs| ==> xs[i] != xs[j]
    requires r == set x | x in xs
    ensures |r| == |xs|
  {
    if xs != [] {
      var last := xs[|xs| - 1];
      var init := xs[..|xs| - 1];
      assert xs == init + [last];
      DistinctCardinality(init, set x | x in init);
      assert r == (set x | x in init) + {last};
    }
  }

  /** Pigeonhole: n numbers below n - 1 are not all different. */
  lemma Pigeonhole(xs: seq<nat>, n: nat) returns (i: nat, j: nat)
    requires |xs| > n && forall x :: x in xs ==> x < n
    ensures i < j < |xs| && xs[i] == xs[j]
  {
    if k, l :| 0 <= k < l < |xs| && xs[k] == xs[l] {
      return k, l;
    }
    var r := set x | x in xs;
    DistinctCardinality(xs, r);
    RangeCardinality(n, r);
    assert false;
  }

  lemma WordsAsIntegers(x: bv64, y: bv64)
    requires x as int == y as int
    ensures x == y
  {
    assert (x as int) as bv64 == x;
    assert (y as int) as bv64 == y;
  }

  /** Running equally long from two states of one orbit that agree later means they agree now. */
  lemma {:induction false} Cancel(s: bv64, i: nat, j: nat)
    requires s != 0 && i < j && StateAfter(s, i) == StateAfter(s, j)
    ensures StateAfter(s, j - i) == s
  {
    if i > 0 {
      StatesStayNonZero(s, i - 1);
      StatesStayNonZero(s, j - 1);
      NextStateInjective(StateAfter(s, i - 1), StateAfter(s, j - 1));
      Cancel(s, i - 1, j - 1);
    }
  }

  /** Every run is periodic from its very first state: it comes back to its seed within 2^64 draws. */
  lemma RunReturnsToSeed(s: bv64) returns (period: nat)
    requires s != 0
    ensures 0 < period <= STATES && StateAfter(s, period) == s
  {
    var xs := seq(STATES + 1, k requires k >= 0 => StateAfter(s, k) as int as nat);
    var i, j := Pigeonhole(xs, STATES);
    WordsAsIntegers(StateAfter(s, i), StateAfter(s, j));
    Cancel(s, i, j);
    return j - i;
  }
}
