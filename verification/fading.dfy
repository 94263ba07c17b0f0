/** Decay over many epochs: every edge comes down to exactly its reservation, and an unreserved one halves. */
module Fading {
  import opened Arithmetic
  import opened Ordered
  import opened Books

  const STAKE_DECAY_NUM: nat := 977
  const DECAY_DEN: nat := 1000

  /** A weight after k epochs over a fixed reservation. */
  function FadedTimes(weight: nat, floor: nat, num: nat, den: nat, k: nat): nat
    requires den > 0
  {
    if k == 0 then weight else Faded(FadedTimes(weight, floor, num, den, k - 1), floor, num, den)
  }

  /** One epoch: strictly down while there is anything above the reservation, never below it. */
  lemma FadedFalls(weight: nat, floor: nat, num: nat, den: nat)
    requires num < den && floor <= weight
    ensures floor <= Faded(weight, floor, num, den) <= weight
    ensures floor < weight ==> Faded(weight, floor, num, den) < weight
  {
    if weight > 0 {
      assert weight * num < weight * den;
      FloorBelow(weight * num, den, weight);
    } else {
      assert weight * num == 0;
    }
  }

  lemma FloorBelow(a: nat, d: nat, q: nat)
    requires d > 0 && a < q * d
    ensures a / d < q
  {
    assert a == (a / d) * d + a % d;
    Cancel(a / d, q, d);
  }

  lemma {:induction false} FadesBy(weight: nat, floor: nat, num: nat, den: nat, k: nat)
    requires num < den && floor <= weight
    ensures floor <= FadedTimes(weight, floor, num, den, k)
    ensures FadedTimes(weight, floor, num, den, k) == floor || FadedTimes(weight, floor, num, den, k) + k <= weight
    decreases k
  {
    if k > 0 {
      FadesBy(weight, floor, num, den, k - 1);
      FadedFalls(FadedTimes(weight, floor, num, den, k - 1), floor, num, den);
    }
  }

  /** The whole edge map after k epochs. */
  ghost function DecayedTimes(edges: map<Key, nat>, reserved: map<Key, nat>, num: nat, den: nat, k: nat): map<Key, nat> {
    if k == 0 then edges else Decayed(DecayedTimes(edges, reserved, num, den, k - 1), reserved, num, den)
  }

  lemma {:induction false} DecayedTimesAt(edges: map<Key, nat>, reserved: map<Key, nat>, num: nat, den: nat, k: nat, key: Key)
    requires num < den && Get(reserved, key) <= Get(edges, key)
    ensures Get(DecayedTimes(edges, reserved, num, den, k), key)
         == FadedTimes(Get(edges, key), Get(reserved, key), num, den, k)
    decreases k
  {
    if k > 0 {
      var before := DecayedTimes(edges, reserved, num, den, k - 1);
      DecayedTimesAt(edges, reserved, num, den, k - 1, key);
      FadesBy(Get(edges, key), Get(reserved, key), num, den, k - 1);
      NothingFadesToNothing(Get(reserved, key), num, den);
    }
  }

  lemma NothingFadesToNothing(floor: nat, num: nat, den: nat)
    requires den > 0
    ensures Faded(0, floor, num, den) == floor
  {
    assert 0 * num == 0;
  }

  /** After as many epochs as an edge stands above its reservation it stands exactly at it; an edge nothing is
      reserved on is gone. */
  lemma DecayReachesReservation(edges: map<Key, nat>, reserved: map<Key, nat>, num: nat, den: nat, k: nat, key: Key)
    requires num < den && Get(reserved, key) <= Get(edges, key)
    requires k >= Get(edges, key) - Get(reserved, key)
    ensures Get(DecayedTimes(edges, reserved, num, den, k), key) == Get(reserved, key)
    ensures k > 0 && Get(reserved, key) == 0 ==> key !in DecayedTimes(edges, reserved, num, den, k)
  {
    DecayedTimesAt(edges, reserved, num, den, k, key);
    FadesBy(Get(edges, key), Get(reserved, key), num, den, k);
  }

  // ------------------------------------------------------------------ halving --

  function Pow(b: nat, k: nat): nat {
    if k == 0 then 1 else b * Pow(b, k - 1)
  }

  lemma {:induction false} FadesLikePower(weight: nat, num: nat, den: nat, k: nat)
    requires num < den
    ensures FadedTimes(weight, 0, num, den, k) * Pow(den, k) <= weight * Pow(num, k)
    decreases k
  {
    if k > 0 {
      var v, w := FadedTimes(weight, 0, num, den, k - 1), FadedTimes(weight, 0, num, den, k);
      FadesLikePower(weight, num, den, k - 1);
      FadedBound(v, num, den);
      PowerStep(w, v, num, den, Pow(den, k - 1), Pow(num, k - 1), weight);
    }
  }

  lemma FadedBound(v: nat, num: nat, den: nat)
    requires den > 0
    ensures Faded(v, 0, num, den) * den <= v * num
  {
    assert v * num == (v * num / den) * den + v * num % den;
  }

  lemma PowerStep(w: nat, v: nat, num: nat, den: nat, p: nat, q: nat, weight: nat)
    requires w * den <= v * num && v * p <= weight * q
    ensures w * (den * p) <= weight * (num * q)
  {
    Scaled(w * den, v * num, p);
    Scaled(v * p, weight * q, num);
    assert w * (den * p) == (w * den) * p;
    assert (v * num) * p == num * (v * p);
    assert num * (weight * q) == weight * (num * q);
  }

  lemma {:induction false} PowAdd(b: nat, i: nat, j: nat)
    ensures Pow(b, i + j) == Pow(b, i) * Pow(b, j)
    decreases i
  {
    if i > 0 {
      PowAdd(b, i - 1, j);
      assert b * (Pow(b, i - 1) * Pow(b, j)) == (b * Pow(b, i - 1)) * Pow(b, j);
    }
  }

  lemma KeptIn15()
    ensures Pow(STAKE_DECAY_NUM, 15) == 705372389131583227913871644912194596640889393
  {
    assert Pow(977, 5) == 890169722768657;
    hide Pow;
    PowAdd(977, 5, 5);
    PowAdd(977, 10, 5);
  }

  lemma WholeIn15()
    ensures Pow(DECAY_DEN, 15) == 1000000000000000000000000000000000000000000000
  {
    assert Pow(1000, 5) == 1000000000000000;
    hide Pow;
    PowAdd(1000, 5, 5);
    PowAdd(1000, 10, 5);
  }

  lemma ThirtyEpochsHalvePower()
    ensures 2 * Pow(STAKE_DECAY_NUM, 30) <= Pow(DECAY_DEN, 30)
  {
    hide Pow;
    KeptIn15();
    WholeIn15();
    PowAdd(STAKE_DECAY_NUM, 15, 15);
    PowAdd(DECAY_DEN, 15, 15);
  }

  lemma HalfOf(v: nat, p: nat, q: nat, weight: nat)
    requires v * p <= weight * q && 2 * q <= p && p > 0
    ensures 2 * v <= weight
  {
    Scaled(2 * q, p, weight);
    assert (2 * v) * p == 2 * (v * p);
    assert weight * (2 * q) == 2 * (weight * q);
    Cancel(2 * v, weight, p);
  }

  /** Thirty epochs at 977/1000 at least halve an edge nothing is reserved on, flooring included. */
  lemma ThirtyEpochsHalve(weight: nat)
    ensures 2 * FadedTimes(weight, 0, STAKE_DECAY_NUM, DECAY_DEN, 30) <= weight
  {
    hide FadedTimes, Pow;
    FadesLikePower(weight, STAKE_DECAY_NUM, DECAY_DEN, 30);
    ThirtyEpochsHalvePower();
    PowPositive(DECAY_DEN, 30);
    HalfOf(FadedTimes(weight, 0, STAKE_DECAY_NUM, DECAY_DEN, 30), Pow(DECAY_DEN, 30), Pow(STAKE_DECAY_NUM, 30), weight);
  }

  lemma {:induction false} PowPositive(b: nat, k: nat)
    requires b > 0
    ensures Pow(b, k) > 0
    decreases k
  {
    if k > 0 {
      PowPositive(b, k - 1);
    }
  }

  // ------------------------------------------------------------------ no faster --

  /** One epoch keeps all but less than a unit of num/den of the edge. */
  lemma FadedKeeps(v: nat, floor: nat, num: nat, den: nat)
    requires den > 0
    ensures (Faded(v, floor, num, den) + 1) * den >= v * num
  {
    assert v * num == (v * num / den) * den + v * num % den;
    Scaled(v * num / den + 1, Faded(v, floor, num, den) + 1, den);
    assert (v * num / den + 1) * den == (v * num / den) * den + den;
  }

  lemma KeepsEpoch(w: nat, v: nat, k: nat, num: nat, den: nat)
    requires (w + 1) * den >= v * num && num <= den
    ensures (w + k + 1) * den >= (v + k) * num
  {
    assert (w + k + 1) * den == (w + 1) * den + k * den;
    assert (v + k) * num == v * num + k * num;
    Scaled(num, den, k);
  }

  lemma KeepsPower(x: nat, y: nat, num: nat, den: nat, p: nat, q: nat, weight: nat)
    requires x * den >= y * num && y * p >= weight * q
    ensures x * (den * p) >= weight * (num * q)
  {
    Scaled(y * num, x * den, p);
    Scaled(weight * q, y * p, num);
    assert x * (den * p) == (x * den) * p;
    assert (y * num) * p == num * (y * p);
    assert num * (weight * q) == weight * (num * q);
  }

  /** After k epochs an edge has at least (num/den)^k of its weight, but for less than a unit an epoch. */
  lemma {:induction false} FadesNoFaster(weight: nat, floor: nat, num: nat, den: nat, k: nat)
    requires num < den
    ensures (FadedTimes(weight, floor, num, den, k) + k) * Pow(den, k) >= weight * Pow(num, k)
    decreases k
  {
    if k > 0 {
      var v := FadedTimes(weight, floor, num, den, k - 1);
      FadesNoFaster(weight, floor, num, den, k - 1);
      FadedKeeps(v, floor, num, den);
      var w := FadedTimes(weight, floor, num, den, k);
      KeepsEpoch(w, v, k - 1, num, den);
      KeepsPower(w + k, v + (k - 1), num, den, Pow(den, k - 1), Pow(num, k - 1), weight);
    }
  }

  lemma Unfolded(b: nat, k: nat)
    ensures Pow(b, k + 1) == b * Pow(b, k)
  {
  }

  lemma TwentyNineKeepHalf()
    ensures 2 * Pow(STAKE_DECAY_NUM, 29) >= Pow(DECAY_DEN, 29)
  {
    hide Pow;
    KeptIn15();
    WholeIn15();
    Unfolded(STAKE_DECAY_NUM, 14);
    Unfolded(DECAY_DEN, 14);
    assert Pow(STAKE_DECAY_NUM, 14) == 721977880380330837168752963062635206387809;
    PowAdd(STAKE_DECAY_NUM, 15, 14);
    PowAdd(DECAY_DEN, 15, 14);
  }

  lemma AtLeastHalf(v: nat, p: nat, q: nat, weight: nat)
    requires v * p >= weight * q && 2 * q >= p && p > 0
    ensures 2 * v >= weight
  {
    Scaled(p, 2 * q, weight);
    assert (2 * v) * p == 2 * (v * p);
    assert weight * (2 * q) == 2 * (weight * q);
    Cancel(weight, 2 * v, p);
  }

  /** And no fewer than thirty halve one, but for what the floors of twenty-nine take, less than a unit each. */
  lemma TwentyNineDoNot(weight: nat, floor: nat)
    ensures 2 * (FadedTimes(weight, floor, STAKE_DECAY_NUM, DECAY_DEN, 29) + 29) >= weight
  {
    hide FadedTimes, Pow;
    FadesNoFaster(weight, floor, STAKE_DECAY_NUM, DECAY_DEN, 29);
    TwentyNineKeepHalf();
    PowPositive(DECAY_DEN, 29);
    AtLeastHalf(FadedTimes(weight, floor, STAKE_DECAY_NUM, DECAY_DEN, 29) + 29, Pow(DECAY_DEN, 29), Pow(STAKE_DECAY_NUM, 29), weight);
  }
}
