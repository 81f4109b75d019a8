/** The power of two below a share rate, by smearing bits of a 32-bit word, and the difficulty it settles on. */
module Vardiff {
  import opened Bytes

  // ---------- 32-bit words ----------

  const TWO_31 := 0x8000_0000
  const TWO_32 := 0x1_0000_0000

  /** Wrapped into 32 signed bits. */
  function Wrap(n: int): (w: int)
    ensures -TWO_31 <= w < TWO_31
    ensures -TWO_31 <= n < TWO_31 ==> w == n
  {
    if -TWO_31 <= n < TWO_31 then n else (n + TWO_31) % TWO_32 - TWO_31
  }

  function Unsigned(a: int): nat
    requires -TWO_31 <= a < TWO_31
  {
    if a >= 0 then a else a + TWO_32
  }

  /** `x | 0`: truncated toward zero, then wrapped into 32 signed bits. */
  function ToInt32(v: real): (n: int)
    ensures -TWO_31 <= n < TWO_31
  {
    Wrap(if v >= 0.0 then v.Floor else -((-v).Floor))
  }

  /** `x >> k`, which keeps the sign. */
  function Sar(x: int, k: nat): (r: int)
    ensures x >= 0 ==> 0 <= r <= x
    ensures x < 0 ==> x <= r < 0
    decreases k
  {
    if k == 0 then x else Sar(x / 2, k - 1)
  }

  function Or(a: nat, b: nat): nat
    decreases a + b
  {
    if a == 0 && b == 0 then 0
    else 2 * Or(a / 2, b / 2) + (if a % 2 == 1 || b % 2 == 1 then 1 else 0)
  }

  /** `a | b` on signed words, through their unsigned forms. */
  function Or32(a: int, b: int): (n: int)
    requires -TWO_31 <= a < TWO_31 && -TWO_31 <= b < TWO_31
    ensures -TWO_31 <= n < TWO_31
  {
    Wrap(Or(Unsigned(a), Unsigned(b)))
  }

  /** `x | (x >> shift)` for the shifts 1, 2, 4, 8, 16 and 32; a shift by 32 is a shift by 0. */
  function SmearFrom(x: int, rounds: nat, shift: nat): (n: int)
    requires -TWO_31 <= x < TWO_31
    ensures -TWO_31 <= n < TWO_31
    decreases rounds
  {
    if rounds == 0 then Or32(x, Sar(x, 0)) else SmearFrom(Or32(x, Sar(x, shift)), rounds - 1, 2 * shift)
  }

  function Smear(v: real): (n: int)
    ensures -TWO_31 <= n < TWO_31
  {
    SmearFrom(ToInt32(v), 5, 1)
  }

  function HighBit(v: real): int {
    Smear(v) - Sar(Smear(v), 1)
  }

  // ---------- bits ----------

  lemma {:induction false} BitOfOr(a: nat, b: nat, i: nat)
    ensures Bit(Or(a, b), i) <==> Bit(a, i) || Bit(b, i)
    decreases i
  {
    assert Or(a, b) / 2 == Or(a / 2, b / 2);
    if i > 0 {
      BitOfOr(a / 2, b / 2, i - 1);
    }
  }

  lemma {:induction false} BitOfSar(x: nat, k: nat, i: nat)
    ensures Bit(Sar(x, k), i) == Bit(x, i + k)
    decreases k
  {
    if k > 0 {
      BitOfSar(x / 2, k - 1, i);
    }
  }

  function Length(x: nat): nat {
    if x == 0 then 0 else 1 + Length(x / 2)
  }

  lemma {:induction false} LengthBounds(x: nat)
    ensures x < Pow2(Length(x))
    ensures x > 0 ==> Length(x) > 0 && Pow2(Length(x) - 1) <= x && Bit(x, Length(x) - 1)
  {
    if x > 0 {
      LengthBounds(x / 2);
    }
  }

  lemma {:induction false} NoBitAboveLength(x: nat, i: nat)
    requires i >= Length(x)
    ensures !Bit(x, i)
    decreases i
  {
    if i > 0 {
      NoBitAboveLength(x / 2, i - 1);
    }
  }

  /** Of `n` bits the upper `k` are set, and none above them. */
  ghost predicate TopSet(x: nat, n: nat, k: nat) {
    && (forall i :: 0 <= i < n && n - k <= i ==> Bit(x, i))
    && (forall i :: n <= i ==> !Bit(x, i))
  }

  lemma {:induction false} AllSet(x: nat, n: nat)
    requires TopSet(x, n, n)
    ensures x == Pow2(n) - 1
    decreases n
  {
    if n == 0 {
      if x > 0 {
        LengthBounds(x);
      }
    } else {
      assert Bit(x, 0);
      forall i | 0 <= i < n - 1 ensures Bit(x / 2, i) {
        assert Bit(x, i + 1);
      }
      forall i | n - 1 <= i ensures !Bit(x / 2, i) {
        assert !Bit(x, i + 1);
      }
      AllSet(x / 2, n - 1);
    }
  }

  lemma {:induction false} OrBelow(a: nat, b: nat, n: nat)
    requires a < Pow2(n) && b < Pow2(n)
    ensures Or(a, b) < Pow2(n)
    decreases n
  {
    if n > 0 {
      OrBelow(a / 2, b / 2, n - 1);
    }
  }

  lemma Or32OfNonnegative(a: int, b: int)
    requires 0 <= a < TWO_31 && 0 <= b < TWO_31
    ensures Or32(a, b) == Or(a, b)
  {
    Pow2Values();
    OrBelow(a, b, 31);
  }

  /** One smearing step doubles the number of set bits below the highest. */
  lemma SmearStep(x: int, n: nat, k: nat) returns (y: int)
    requires 0 <= x < TWO_31 && TopSet(x, n, k)
    ensures y == Or32(x, Sar(x, k)) && 0 <= y < TWO_31 && TopSet(y, n, 2 * k)
  {
    Or32OfNonnegative(x, Sar(x, k));
    y := Or(x, Sar(x, k));
    forall i | 0 <= i < n && n - 2 * k <= i ensures Bit(y, i) {
      SmearedBit(x, k, i);
      assert Bit(x, i) || Bit(x, i + k);
    }
    forall i | n <= i ensures !Bit(y, i) {
      SmearedBit(x, k, i);
      assert !Bit(x, i) && !Bit(x, i + k);
    }
  }

  lemma SmearedBit(x: nat, k: nat, i: nat)
    ensures Bit(Or(x, Sar(x, k)), i) == (Bit(x, i) || Bit(x, i + k))
  {
    BitOfOr(x, Sar(x, k), i);
    BitOfSar(x, k, i);
  }

  lemma LengthOfWord(x: int)
    requires 0 < x < TWO_31
    ensures 1 <= Length(x) <= 31 && TopSet(x, Length(x), 1)
  {
    var n := Length(x);
    LengthBounds(x);
    if n > 31 {
      Pow2Monotone(31, n - 1);
      Pow2Values();
    }
    forall i | n <= i ensures !Bit(x, i) {
      NoBitAboveLength(x, i);
    }
  }

  lemma {:induction false} SmearFromFills(x: int, n: nat, rounds: nat, k: nat)
    requires 0 <= x < TWO_31 && 1 <= n <= 31 && TopSet(x, n, k) && k * Pow2(rounds) >= 32
    ensures SmearFrom(x, rounds, k) == Pow2(n) - 1
    decreases rounds
  {
    if rounds > 0 {
      var next := SmearStep(x, n, k);
      assert 2 * k * Pow2(rounds - 1) == k * Pow2(rounds);
      SmearFromFills(next, n, rounds - 1, 2 * k);
    } else {
      OrWithItself(x);
      AllSet(x, n);
    }
  }

  /** The smeared word of a positive number has all bits up to its highest one. */
  lemma SmearFillsBits(v: real)
    requires 1.0 <= v < TWO_31 as real
    ensures Smear(v) == Pow2(Length(v.Floor)) - 1
  {
    LengthOfWord(v.Floor);
    assert Pow2(5) == 32;
    SmearFromFills(v.Floor, Length(v.Floor), 5, 1);
  }

  lemma OrWithItself(x: int)
    requires 0 <= x < TWO_31
    ensures Or32(x, Sar(x, 0)) == x
  {
    Or32OfNonnegative(x, x);
    OrSame(x);
  }

  lemma {:induction false} OrSame(x: nat)
    ensures Or(x, x) == x
  {
    if x > 0 {
      OrSame(x / 2);
    }
  }

  /** The bit trick gives the largest power of two up to a number. */
  lemma HighBitIsLargestPower(v: real)
    requires 1.0 <= v < TWO_31 as real
    ensures Length(v.Floor) > 0 && HighBit(v) == Pow2(Length(v.Floor) - 1)
    ensures HighBit(v) as real <= v < 2.0 * HighBit(v) as real
  {
    var n := Length(v.Floor);
    SmearFillsBits(v);
    LengthBounds(v.Floor);
    assert Pow2(n) == 2 * Pow2(n - 1);
    assert Sar(Smear(v), 1) == Sar(Smear(v) / 2, 0) == Pow2(n - 1) - 1;
  }

  lemma HighBitOfSmall(v: real)
    requires 0.0 <= v < 1.0
    ensures HighBit(v) == 0
  {
    SmearOfZero(5, 1);
  }

  lemma {:induction false} SmearOfZero(rounds: nat, shift: nat)
    ensures SmearFrom(0, rounds, shift) == 0
    decreases rounds
  {
    SarOfZero(shift);
    if rounds > 0 {
      SmearOfZero(rounds - 1, 2 * shift);
    }
  }

  lemma {:induction false} SarOfZero(k: nat)
    ensures Sar(0, k) == 0
    decreases k
  {
    if k > 0 {
      SarOfZero(k - 1);
    }
  }

  /** Whatever the word, its high bit is at most 2^30. */
  lemma HighBitAtMost(v: real)
    ensures HighBit(v) <= 0x4000_0000
  {
    assert Sar(Smear(v), 1) == Sar(Smear(v) / 2, 0) == Smear(v) / 2;
  }

  // ---------- the recursion by factors of 100 ----------

  /** `NoChange` is JavaScript's null. */
  datatype Suggestion = NoChange | Suggest(value: real)

  /** The recursion around the bit trick; None when it is still running after `fuel` calls. */
  function Recurse(highBit: real -> int, v: real, minDiff: real, fuel: nat): Option<Suggestion>
    decreases fuel
  {
    if fuel == 0 then None
    else if v == 0.0 then Some(NoChange)
    else if v < minDiff then Some(Suggest(minDiff))
    else if highBit(v) == 0 && v * 100.0 < minDiff then Some(Suggest(minDiff))
    else if highBit(v) == 0 then Hundredth(Recurse(highBit, v * 100.0, minDiff, fuel - 1))
    else Some(Suggest(highBit(v) as real))
  }

  function Hundredth(result: Option<Suggestion>): Option<Suggestion> {
    match result
    case None => None
    case Some(NoChange) => Some(Suggest(0.0))
    case Some(Suggest(r)) => Some(Suggest(r / 100.0))
  }

  function NearestPowerOfTwo(v: real, minDiff: real, fuel: nat): Option<Suggestion> {
    Recurse(HighBit, v, minDiff, fuel)
  }

  /** The argument after `n` calls. */
  function Scaled(v: real, n: nat): real
    decreases n
  {
    if n == 0 then v else Scaled(v * 100.0, n - 1)
  }

  ghost predicate Halves(r: real, v: real) {
    r <= v < 2.0 * r
  }

  ghost predicate Suggests(result: Option<Suggestion>, v: real) {
    result.Some? && result.value.Suggest? && Halves(result.value.value, v)
  }

  /** What the recursion needs of the bit trick. */
  ghost predicate RightBelow2To31(highBit: real -> int) {
    && (forall v: real :: 0.0 <= v < 1.0 ==> highBit(v) == 0)
    && (forall v: real :: 1.0 <= v < TWO_31 as real ==> Halves(highBit(v) as real, v))
  }

  lemma HighBitRightBelow2To31()
    ensures RightBelow2To31(HighBit)
  {
    forall v: real | 0.0 <= v < 1.0 ensures HighBit(v) == 0 {
      HighBitOfSmall(v);
    }
    forall v: real | 1.0 <= v < TWO_31 as real ensures Halves(HighBit(v) as real, v) {
      HighBitIsLargestPower(v);
    }
  }

  lemma {:induction false} RecurseIsRight(highBit: real -> int, v: real, minDiff: real, fuel: nat)
    requires RightBelow2To31(highBit)
    requires 0.0 < minDiff <= v < TWO_31 as real
    requires fuel > 0 && Scaled(v, fuel - 1) >= 1.0
    ensures Suggests(Recurse(highBit, v, minDiff, fuel), v)
    decreases fuel
  {
    if v < 1.0 {
      RecurseIsRight(highBit, v * 100.0, minDiff, fuel - 1);
    } else {
      assert Halves(highBit(v) as real, v);
    }
  }

  /** Below 2^31 the recursion ends with a value at most its argument and more than half of it. */
  lemma NearestIsRight(v: real, minDiff: real, fuel: nat)
    requires 0.0 < minDiff <= v < TWO_31 as real
    requires fuel > 0 && Scaled(v, fuel - 1) >= 1.0
    ensures Suggests(NearestPowerOfTwo(v, minDiff, fuel), v)
  {
    HighBitRightBelow2To31();
    RecurseIsRight(HighBit, v, minDiff, fuel);
  }

  /** From 1 on, the very first call gives the largest power of two up to its argument. */
  lemma NearestIsLargestPower(v: real, minDiff: real, fuel: nat)
    requires 0.0 < minDiff <= v && 1.0 <= v < TWO_31 as real && fuel > 0
    ensures Length(v.Floor) > 0
    ensures NearestPowerOfTwo(v, minDiff, fuel) == Some(Suggest(Pow2(Length(v.Floor) - 1) as real))
    ensures Pow2(Length(v.Floor) - 1) as real <= v < 2.0 * Pow2(Length(v.Floor) - 1) as real
  {
    HighBitIsLargestPower(v);
  }

  lemma {:induction false} ScaledGrows(v: real, n: nat)
    requires v > 0.0
    ensures Scaled(v, n) >= (n + 1) as real * v
    decreases n
  {
    if n > 0 {
      ScaledGrows(v * 100.0, n - 1);
    }
  }

  lemma EnoughFuel(v: real) returns (fuel: nat)
    requires v > 0.0
    ensures fuel > 0 && Scaled(v, fuel - 1) >= 1.0
  {
    var n := (1.0 / v).Floor;
    ScaledGrows(v, n);
    assert 1.0 / v * v == 1.0;
    ScaleUp(1.0 / v, (n + 1) as real, v);
    fuel := n + 1;
  }

  lemma ScaleUp(a: real, b: real, v: real)
    requires v > 0.0 && a <= b
    ensures a * v <= b * v
  {
  }

  lemma {:induction false} RecurseAtMost(highBit: real -> int, v: real, minDiff: real, fuel: nat)
    requires forall x: real :: highBit(x) <= 0x4000_0000
    requires 0.0 < minDiff <= v
    ensures var result := Recurse(highBit, v, minDiff, fuel);
      result.Some? && result.value.Suggest? ==> result.value.value <= 0x4000_0000 as real
    decreases fuel
  {
    if fuel > 0 {
      assert highBit(v) <= 0x4000_0000;
      RecurseAtMost(highBit, v * 100.0, minDiff, fuel - 1);
    }
  }

  lemma NeverRightFrom2To31(v: real, minDiff: real, fuel: nat)
    requires 0.0 < minDiff <= v && v >= TWO_31 as real
    ensures !Suggests(NearestPowerOfTwo(v, minDiff, fuel), v)
  {
    forall x: real ensures HighBit(x) <= 0x4000_0000 {
      HighBitAtMost(x);
    }
    RecurseAtMost(HighBit, v, minDiff, fuel);
  }

  /** The recursion ends with the value just below its argument exactly when the argument is below 2^31. */
  lemma NearestRightIff(v: real, minDiff: real)
    requires 0.0 < minDiff <= v
    ensures (exists fuel: nat :: Suggests(NearestPowerOfTwo(v, minDiff, fuel), v)) <==> v < TWO_31 as real
  {
    if v < TWO_31 as real {
      var fuel := EnoughFuel(v);
      NearestIsRight(v, minDiff, fuel);
    } else {
      forall fuel: nat ensures !Suggests(NearestPowerOfTwo(v, minDiff, fuel), v) {
        NeverRightFrom2To31(v, minDiff, fuel);
      }
    }
  }

  lemma MultipleWrapsToZero(m: nat)
    ensures ToInt32((m * TWO_32) as real) == 0
  {
    assert ((m * TWO_32) as real).Floor == m * TWO_32;
    assert (m * TWO_32 + TWO_31) % TWO_32 == TWO_31;
  }

  lemma HighBitOfMultiple(m: nat)
    ensures HighBit((m * TWO_32) as real) == 0
  {
    MultipleWrapsToZero(m);
    SmearOfZero(5, 1);
  }

  lemma {:induction false} RecurseNeverReturns(highBit: real -> int, m: nat, minDiff: real, fuel: nat)
    requires forall k: nat :: highBit((k * TWO_32) as real) == 0
    requires m > 0 && 0.0 < minDiff <= (m * TWO_32) as real
    ensures Recurse(highBit, (m * TWO_32) as real, minDiff, fuel) == None
    decreases fuel
  {
    if fuel > 0 {
      assert (m * TWO_32) as real * 100.0 == (100 * m * TWO_32) as real;
      RecurseNeverReturns(highBit, 100 * m, minDiff, fuel - 1);
    }
  }

  /** On multiples of 2^32 the recursion never returns. */
  lemma NearestNeverReturns(m: nat, minDiff: real, fuel: nat)
    requires m > 0 && 0.0 < minDiff <= (m * TWO_32) as real
    ensures NearestPowerOfTwo((m * TWO_32) as real, minDiff, fuel) == None
  {
    forall k: nat ensures HighBit((k * TWO_32) as real) == 0 {
      HighBitOfMultiple(k);
    }
    RecurseNeverReturns(HighBit, m, minDiff, fuel);
  }

  // ---------- settling ----------

  function Clamp(value: real, minDiff: real, maxDiff: real): real {
    var low := if value <= maxDiff then value else maxDiff;
    if minDiff >= low then minDiff else low
  }

  /** The dead zone: between half and double the difficulty nothing is suggested. */
  predicate OutOfZone(difficulty: real, target: real) {
    difficulty * 2.0 < target || difficulty / 2.0 > target
  }

  function SuggestFor(difficulty: real, target: real, floor: real, fuel: nat): Option<Suggestion> {
    if OutOfZone(difficulty, target) then NearestPowerOfTwo(target, floor, fuel) else Some(NoChange)
  }

  /** The session difficulty after a suggestion, and whether it was sent. */
  function Adjusted(difficulty: real, suggestion: Suggestion, minDiff: real, maxDiff: real): (real, bool) {
    match suggestion
    case NoChange => (difficulty, false)
    case Suggest(r) => if r == difficulty then (difficulty, false) else (Clamp(r, minDiff, maxDiff), true)
  }

  /** One periodic check. */
  function Check(difficulty: real, target: real, floor: real, minDiff: real, maxDiff: real, fuel: nat): Option<(real, bool)> {
    match SuggestFor(difficulty, target, floor, fuel)
    case None => None
    case Some(suggestion) => Some(Adjusted(difficulty, suggestion, minDiff, maxDiff))
  }

  /** The suggestion a target leads to: the floor below the floor, else the power of two at it. */
  lemma SuggestionFor(target: real, floor: real) returns (fuel: nat)
    requires 0.0 < target < TWO_31 as real && 0.0 < floor
    ensures var result := NearestPowerOfTwo(target, floor, fuel);
      if target < floor then result == Some(Suggest(floor)) else Suggests(result, target)
  {
    fuel := EnoughFuel(target);
    if target >= floor {
      NearestIsRight(target, floor, fuel);
    }
  }

  /** For a steady target one check settles the difficulty, and never takes it out of its bounds; the next check stays
      silent exactly when the suggestion was within bounds or the clamped difficulty reached the dead zone. */
  lemma SettlesInOneCheck(difficulty: real, target: real, floor: real, minDiff: real, maxDiff: real) returns (fuel: nat)
    requires 0.0 < target < TWO_31 as real && 0.0 < minDiff <= maxDiff && 0.0 < floor
    ensures var first := Check(difficulty, target, floor, minDiff, maxDiff, fuel);
      && first.Some?
      && (minDiff <= difficulty <= maxDiff || first.value.1 ==> minDiff <= first.value.0 <= maxDiff)
      && var second := Check(first.value.0, target, floor, minDiff, maxDiff, fuel);
      && second.Some? && second.value.0 == first.value.0
      && (first.value.1 ==>
            var r := NearestPowerOfTwo(target, floor, fuel).value.value;
            second.value.1 <==> !(minDiff <= r <= maxDiff) && OutOfZone(first.value.0, target))
  {
    fuel := SuggestionFor(target, floor);
  }

  /** Nothing is suggested exactly between half and double the difficulty. */
  lemma NothingSuggestedIff(difficulty: real, target: real, floor: real, fuel: nat)
    requires target > 0.0
    ensures SuggestFor(difficulty, target, floor, fuel) == Some(NoChange) <==> difficulty <= 2.0 * target && target <= 2.0 * difficulty
  {
  }

  /** A rate of zero suggests nothing, and one below the floor the floor. */
  lemma NearestBelowFloor(v: real, minDiff: real, fuel: nat)
    requires fuel > 0 && v < minDiff
    ensures NearestPowerOfTwo(v, minDiff, fuel) == Some(if v == 0.0 then NoChange else Suggest(minDiff))
  {
  }

  /** The clamped value is the nearest one within the bounds. */
  lemma ClampIsNearest(v: real, minDiff: real, maxDiff: real, x: real)
    requires minDiff <= x <= maxDiff
    ensures var c := Clamp(v, minDiff, maxDiff);
      && minDiff <= c <= maxDiff
      && (if v <= c then c - v else v - c) <= (if v <= x then x - v else v - x)
  {
  }
}
