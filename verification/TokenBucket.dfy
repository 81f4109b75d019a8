/** The token bucket that caps the hashrate of a session, under a clock that may jump. */
module TokenBucket {

  const TWO_POW_32 := 4294967296.0

  function Max(a: real, b: real): real { if a >= b then a else b }
  function Min(a: real, b: real): real { if a <= b then a else b }

  /** The state of a bucket; time in milliseconds, rate in units a second. */
  datatype State = State(capacity: real, rate: real, units: real, last: int)

  ghost predicate Sound(s: State) {
    s.rate >= 1.0 && s.capacity >= s.rate * 3600.0 && 0.0 <= s.units <= s.capacity
  }

  function Capacity(rate: real, poolDiffFloor: real): real {
    Max(rate * 3600.0, 4.0 * poolDiffFloor * TWO_POW_32)
  }

  function ShareCostUnits(difficulty: real): real {
    difficulty * TWO_POW_32
  }

  function Created(targetHashrate: real, poolDiffFloor: real, now: int): State {
    State(Capacity(Max(1.0, targetHashrate), poolDiffFloor), Max(1.0, targetHashrate), 0.0, now)
  }

  function Seconds(ms: int): real {
    ms as real / 1000.0
  }

  /** Only a clock past the last refill adds units, and never beyond the capacity. */
  function Refilled(s: State, now: int): State {
    if now <= s.last then s
    else s.(units := Min(s.capacity, s.units + Seconds(now - s.last) * s.rate), last := now)
  }

  predicate Accepts(s: State, cost: real, now: int) {
    var r := Refilled(s, now);
    cost <= s.capacity && cost <= r.units
  }

  function AfterTry(s: State, cost: real, now: int): State {
    var r := Refilled(s, now);
    if Accepts(s, cost, now) then r.(units := r.units - cost) else r
  }

  function Updated(s: State, targetHashrate: real, poolDiffFloor: real, now: int): State {
    var r := Refilled(s, now);
    var rate := Max(1.0, targetHashrate);
    var capacity := Capacity(rate, poolDiffFloor);
    r.(rate := rate, capacity := capacity, units := Min(r.units, capacity))
  }

  class Bucket {
    var capacityUnits: real
    var refillPerSec: real
    var currentUnits: real
    var lastRefillMs: int

    function View(): State
      reads this
    {
      State(capacityUnits, refillPerSec, currentUnits, lastRefillMs)
    }

    constructor (targetHashrate: real, poolDiffFloor: real, now: int)
      ensures View() == Created(targetHashrate, poolDiffFloor, now)
    {
      refillPerSec := Max(1.0, targetHashrate);
      capacityUnits := Capacity(Max(1.0, targetHashrate), poolDiffFloor);
      currentUnits := 0.0;
      lastRefillMs := now;
    }

    method Refill(now: int)
      modifies this
      ensures View() == Refilled(old(View()), now)
    {
      var delta := Max(0.0, Seconds(now - lastRefillMs));
      if delta <= 0.0 {
        return;
      }
      currentUnits := Min(capacityUnits, currentUnits + delta * refillPerSec);
      lastRefillMs := now;
    }

    method TryConsume(cost: real, now: int) returns (accepted: bool)
      modifies this
      ensures accepted == Accepts(old(View()), cost, now)
      ensures View() == AfterTry(old(View()), cost, now)
    {
      Refill(now);
      if cost > capacityUnits {
        return false;
      }
      if currentUnits < cost {
        return false;
      }
      currentUnits := currentUnits - cost;
      accepted := true;
    }

    method UpdateParams(targetHashrate: real, poolDiffFloor: real, now: int)
      modifies this
      ensures View() == Updated(old(View()), targetHashrate, poolDiffFloor, now)
    {
      var rate := Max(1.0, targetHashrate);
      var capacity := Capacity(rate, poolDiffFloor);
      Refill(now);
      refillPerSec := rate;
      capacityUnits := capacity;
      if currentUnits > capacity {
        currentUnits := capacity;
      }
    }

    method Snapshot(now: int) returns (units: real, drainPct: real)
      modifies this
      ensures View() == Refilled(old(View()), now)
      ensures units == View().units
      ensures Sound(old(View())) ==> 0.0 <= drainPct <= 100.0 && (drainPct == 0.0 <==> units == View().capacity)
      ensures Sound(old(View())) ==> drainPct * View().capacity == 100.0 * (View().capacity - units)
    {
      Refill(now);
      units := currentUnits;
      drainPct := if capacityUnits > 0.0 then 100.0 * (1.0 - currentUnits / capacityUnits) else 0.0;
      if Sound(old(View())) {
        RefillSound(old(View()), now);
        RatioBounds(currentUnits, capacityUnits);
        DrainedShare(currentUnits, capacityUnits);
      }
    }
  }

  lemma DrainedShare(part: real, whole: real)
    requires whole > 0.0
    ensures 100.0 * (1.0 - part / whole) * whole == 100.0 * (whole - part)
  {
    var q := part / whole;
    assert q * whole == part;
    assert (1.0 - q) * whole == whole - part;
  }

  lemma RatioBounds(part: real, whole: real)
    requires 0.0 <= part <= whole && 0.0 < whole
    ensures 0.0 <= part / whole <= 1.0 && (part / whole == 1.0 <==> part == whole)
  {
    assert part / whole * whole == part;
  }

  lemma RefillSound(s: State, now: int)
    requires Sound(s)
    ensures Sound(Refilled(s, now))
  {
  }

  /** An hour at the rate, or four shares at the floor if that is more. */
  lemma CapacityIsTheLarger(rate: real, floor: real)
    ensures var c := Capacity(rate, floor);
      && c >= rate * 3600.0 && c >= 4.0 * (floor * 4294967296.0)
      && (c == rate * 3600.0 || c == 4.0 * (floor * 4294967296.0))
  {
    assert 4.0 * floor * TWO_POW_32 == 4.0 * (floor * 4294967296.0);
  }

  /** What a share of some difficulty costs. */
  lemma CostOfDifficulty(difficulty: real)
    ensures ShareCostUnits(difficulty) == difficulty * 4294967296.0
  {
  }

  /** A change of parameters counts the time so far at the old rate and loses nothing but what no longer fits. */
  lemma UpdateLosesOnlyOverflow(s: State, targetHashrate: real, floor: real, now: int)
    requires Sound(s)
    ensures var earned, next := Refilled(s, now), Updated(s, targetHashrate, floor, now);
      && next.rate == (if targetHashrate >= 1.0 then targetHashrate else 1.0)
      && next.capacity == Capacity(next.rate, floor) && next.last == earned.last
      && next.units <= earned.units && (next.units == earned.units || next.units == next.capacity)
  {
  }

  /** A refill past the last one adds the rate for the time between, or fills the bucket. */
  lemma RefillAddsTime(s: State, now: int)
    requires Sound(s)
    ensures var next := Refilled(s, now);
      && (now <= s.last ==> next == s)
      && (now > s.last ==>
            && next.last == now && next.rate == s.rate && next.capacity == s.capacity
            && var full := s.units + (now - s.last) as real / 1000.0 * s.rate;
            && (full <= s.capacity ==> next.units == full) && (full > s.capacity ==> next.units == s.capacity))
  {
  }

  // ---------- whole runs ----------

  datatype Op = Try(cost: real, now: int) | Refill(now: int) | Update(target: real, floor: real, now: int)

  /** Refill also stands for a snapshot: both only refill. */
  function Step(s: State, op: Op): State {
    match op
    case Try(cost, now) => AfterTry(s, cost, now)
    case Refill(now) => Refilled(s, now)
    case Update(target, floor, now) => Updated(s, target, floor, now)
  }

  function Run(s: State, ops: seq<Op>): State
    decreases |ops|
  {
    if ops == [] then s else Run(Step(s, ops[0]), ops[1..])
  }

  function Paid(s: State, op: Op): real {
    if op.Try? && Accepts(s, op.cost, op.now) then op.cost else 0.0
  }

  /** Rate times forward clock progress of one reading. */
  function Gain(s: State, now: int): real {
    if now > s.last then Seconds(now - s.last) * s.rate else 0.0
  }

  function Spent(s: State, ops: seq<Op>): real
    decreases |ops|
  {
    if ops == [] then 0.0 else Paid(s, ops[0]) + Spent(Step(s, ops[0]), ops[1..])
  }

  /** Rate times forward clock progress, summed at the rate in force. */
  function Earned(s: State, ops: seq<Op>): real
    decreases |ops|
  {
    if ops == [] then 0.0 else Gain(s, ops[0].now) + Earned(Step(s, ops[0]), ops[1..])
  }

  ghost predicate NonnegativeCosts(ops: seq<Op>) {
    forall i :: 0 <= i < |ops| && ops[i].Try? ==> ops[i].cost >= 0.0
  }

  lemma StepBound(s: State, op: Op)
    requires Sound(s) && (op.Try? ==> op.cost >= 0.0)
    ensures Sound(Step(s, op))
    ensures Step(s, op).units + Paid(s, op) <= s.units + Gain(s, op.now)
  {
    RefillSound(s, op.now);
  }

  lemma RunHead(s: State, ops: seq<Op>)
    requires ops != []
    ensures Run(s, ops) == Run(Step(s, ops[0]), ops[1..])
    ensures Spent(s, ops) == Paid(s, ops[0]) + Spent(Step(s, ops[0]), ops[1..])
    ensures Earned(s, ops) == Gain(s, ops[0].now) + Earned(Step(s, ops[0]), ops[1..])
  {
  }

  /** Over any window, whatever the clock does: units stay within the capacity, and no more is spent than held plus earned. */
  lemma {:induction false} RunBound(s: State, ops: seq<Op>)
    requires Sound(s) && NonnegativeCosts(ops)
    ensures Sound(Run(s, ops))
    ensures Run(s, ops).units + Spent(s, ops) <= s.units + Earned(s, ops)
    decreases |ops|
  {
    if ops != [] {
      StepBound(s, ops[0]);
      RunBound(Step(s, ops[0]), ops[1..]);
      RunHead(s, ops);
    }
  }

  ghost predicate RatesUpTo(ops: seq<Op>, maxRate: real) {
    forall i :: 0 <= i < |ops| && ops[i].Update? ==> ops[i].target <= maxRate
  }

  lemma StepEarns(s: State, op: Op, maxRate: real)
    requires s.rate <= maxRate && 1.0 <= maxRate && (op.Update? ==> op.target <= maxRate)
    ensures var next := Step(s, op);
      && next.rate <= maxRate && s.last <= next.last
      && Gain(s, op.now) <= Yield(next.last - s.last, maxRate)
  {
    if op.now > s.last {
      assert Seconds(op.now - s.last) * s.rate <= Seconds(op.now - s.last) * maxRate;
    }
  }

  /** What a rate yields in some milliseconds. */
  function Yield(ms: int, rate: real): real {
    Seconds(ms) * rate
  }

  lemma YieldsAdd(a: int, b: int, c: int, rate: real)
    ensures Yield(b - a, rate) + Yield(c - b, rate) == Yield(c - a, rate)
  {
    assert Seconds(b - a) + Seconds(c - b) == Seconds(c - a);
  }

  lemma {:induction false} EarnedByRate(s: State, ops: seq<Op>, maxRate: real)
    requires s.rate <= maxRate && 1.0 <= maxRate && RatesUpTo(ops, maxRate)
    ensures Run(s, ops).last >= s.last
    ensures Earned(s, ops) <= Yield(Run(s, ops).last - s.last, maxRate)
    decreases |ops|
  {
    if ops == [] {
      YieldsAdd(s.last, s.last, s.last, maxRate);
    } else {
      var next := Step(s, ops[0]);
      StepEarns(s, ops[0], maxRate);
      EarnedByRate(next, ops[1..], maxRate);
      RunHead(s, ops);
      YieldsAdd(s.last, next.last, Run(next, ops[1..]).last, maxRate);
    }
  }

  lemma CreatedSound(target: real, floor: real, start: int)
    ensures Sound(Created(target, floor, start))
  {
  }

  lemma EmptyRunBound(s: State, ops: seq<Op>)
    requires Sound(s) && s.units == 0.0 && NonnegativeCosts(ops)
    ensures Spent(s, ops) <= Earned(s, ops)
  {
    RunBound(s, ops);
  }

  lemma YieldIs(ms: int, rate: real)
    ensures Yield(ms, rate) == ms as real / 1000.0 * rate
  {
  }

  lemma CreatedRunYields(target: real, floor: real, start: int, ops: seq<Op>, maxRate: real)
    requires NonnegativeCosts(ops) && target <= maxRate && 1.0 <= maxRate && RatesUpTo(ops, maxRate)
    ensures var s := Created(target, floor, start);
      Spent(s, ops) <= Earned(s, ops) <= Yield(Run(s, ops).last - start, maxRate)
  {
    CreatedSound(target, floor, start);
    EmptyRunBound(Created(target, floor, start), ops);
    EarnedByRate(Created(target, floor, start), ops, maxRate);
  }

  /** Since its creation a bucket lets through no more work than its highest rate times the time the clock advanced. */
  lemma CreatedRunBound(target: real, floor: real, start: int, ops: seq<Op>, maxRate: real)
    requires NonnegativeCosts(ops) && target <= maxRate && 1.0 <= maxRate && RatesUpTo(ops, maxRate)
    ensures var s := Created(target, floor, start);
      Spent(s, ops) <= Earned(s, ops) <= (Run(s, ops).last - start) as real / 1000.0 * maxRate
  {
    var s := Created(target, floor, start);
    CreatedRunYields(target, floor, start, ops, maxRate);
    AtMostYield(Spent(s, ops), Earned(s, ops), Run(s, ops).last - start, maxRate);
  }

  lemma AtMostYield(spent: real, earned: real, ms: int, rate: real)
    requires spent <= earned <= Yield(ms, rate)
    ensures spent <= earned <= ms as real / 1000.0 * rate
  {
  }

  // ---------- refills and snapshots are invisible ----------

  ghost predicate Nondecreasing(clock: seq<int>) {
    forall i, j :: 0 <= i < j < |clock| ==> clock[i] <= clock[j]
  }

  function Clock(ops: seq<Op>): seq<int> {
    seq(|ops|, i requires 0 <= i < |ops| => ops[i].now)
  }

  function WithoutRefills(ops: seq<Op>): seq<Op> {
    if ops == [] then []
    else (if ops[0].Refill? then [] else [ops[0]]) + WithoutRefills(ops[1..])
  }

  /** The answers of the tries, in order. */
  function Decisions(s: State, ops: seq<Op>): seq<bool>
    decreases |ops|
  {
    if ops == [] then []
    else (if ops[0].Try? then [Accepts(s, ops[0].cost, ops[0].now)] else []) + Decisions(Step(s, ops[0]), ops[1..])
  }

  lemma RefillTwice(s: State, first: int, second: int)
    requires Sound(s) && first <= second
    ensures Refilled(Refilled(s, first), second) == Refilled(s, second)
  {
    if s.last < first < second {
      var gain1, gain2 := Seconds(first - s.last) * s.rate, Seconds(second - first) * s.rate;
      assert gain1 >= 0.0 && gain2 >= 0.0;
      assert gain1 + gain2 == Seconds(second - s.last) * s.rate;
    }
  }

  /** Two states that differ only by a pending refill. */
  ghost predicate SameAt(a: State, b: State, now: int) {
    Sound(a) && Sound(b) && Refilled(a, now) == Refilled(b, now)
  }

  lemma SameLater(a: State, b: State, now: int, later: int)
    requires SameAt(a, b, now) && now <= later
    ensures SameAt(a, b, later)
  {
    RefillTwice(a, now, later);
    RefillTwice(b, now, later);
  }

  lemma StepFromSame(a: State, b: State, op: Op)
    requires SameAt(a, b, op.now) && (op.Try? ==> op.cost >= 0.0)
    ensures op.Refill? ==> SameAt(Step(a, op), b, op.now)
    ensures !op.Refill? ==> SameAt(Step(a, op), Step(b, op), op.now)
    ensures op.Try? ==> Accepts(a, op.cost, op.now) == Accepts(b, op.cost, op.now)
  {
    StepBound(a, op);
    StepBound(b, op);
    RefillTwice(a, op.now, op.now);
  }

  lemma DecisionsHead(s: State, ops: seq<Op>)
    requires ops != []
    ensures Decisions(s, ops)
            == (if ops[0].Try? then [Accepts(s, ops[0].cost, ops[0].now)] else []) + Decisions(Step(s, ops[0]), ops[1..])
    ensures WithoutRefills(ops) == (if ops[0].Refill? then [] else [ops[0]]) + WithoutRefills(ops[1..])
  {
  }

  lemma ClockTail(ops: seq<Op>)
    requires ops != [] && Nondecreasing(Clock(ops))
    ensures Nondecreasing(Clock(ops[1..]))
    ensures forall i :: 0 <= i < |ops| - 1 ==> ops[0].now <= ops[1..][i].now
  {
    var clock := Clock(ops);
    assert Clock(ops[1..]) == clock[1..];
    forall i | 0 <= i < |ops| - 1 ensures ops[0].now <= ops[1..][i].now {
      assert clock[0] <= clock[i + 1];
    }
  }

  lemma DroppedHead(ops: seq<Op>)
    requires ops != [] && !ops[0].Refill?
    ensures var kept := WithoutRefills(ops); kept != [] && kept[0] == ops[0] && kept[1..] == WithoutRefills(ops[1..])
  {
  }

  lemma KeepStep(a: State, b: State, ops: seq<Op>)
    requires ops != [] && !ops[0].Refill?
    requires ops[0].Try? ==> Accepts(a, ops[0].cost, ops[0].now) == Accepts(b, ops[0].cost, ops[0].now)
    requires Decisions(Step(a, ops[0]), ops[1..]) == Decisions(Step(b, ops[0]), WithoutRefills(ops[1..]))
    ensures Decisions(a, ops) == Decisions(b, WithoutRefills(ops))
    ensures Run(a, ops) == Run(Step(a, ops[0]), ops[1..])
    ensures Run(b, WithoutRefills(ops)) == Run(Step(b, ops[0]), WithoutRefills(ops[1..]))
  {
    DroppedHead(ops);
    DecisionsHead(a, ops);
    DecisionsHead(b, WithoutRefills(ops));
  }

  lemma DropStep(a: State, ops: seq<Op>)
    requires ops != [] && ops[0].Refill?
    ensures Decisions(a, ops) == Decisions(Step(a, ops[0]), ops[1..])
    ensures WithoutRefills(ops) == WithoutRefills(ops[1..])
    ensures Run(a, ops) == Run(Step(a, ops[0]), ops[1..])
  {
    DecisionsHead(a, ops);
  }

  /** Also over a later window: the two runs end in states that differ only by a pending refill. */
  lemma {:induction false} RefillsInvisibleFrom(a: State, b: State, ops: seq<Op>, from: int, end: int)
    requires SameAt(a, b, from) && Nondecreasing(Clock(ops)) && NonnegativeCosts(ops)
    requires from <= end && forall i :: 0 <= i < |ops| ==> from <= ops[i].now <= end
    ensures Decisions(a, ops) == Decisions(b, WithoutRefills(ops))
    ensures SameAt(Run(a, ops), Run(b, WithoutRefills(ops)), end)
    decreases |ops|
  {
    if ops == [] {
      SameLater(a, b, from, end);
    } else {
      var op, rest := ops[0], ops[1..];
      ClockTail(ops);
      SameLater(a, b, from, op.now);
      StepFromSame(a, b, op);
      if op.Refill? {
        RefillsInvisibleFrom(Step(a, op), b, rest, op.now, end);
        DropStep(a, ops);
      } else {
        RefillsInvisibleFrom(Step(a, op), Step(b, op), rest, op.now, end);
        KeepStep(a, b, ops);
      }
    }
  }

  /** Under a nondecreasing clock, refills and snapshots inserted anywhere change no accept or reject decision. */
  lemma RefillsInvisible(s: State, ops: seq<Op>, end: int)
    requires Sound(s) && Nondecreasing(Clock(ops)) && NonnegativeCosts(ops)
    requires forall i :: 0 <= i < |ops| ==> ops[i].now <= end
    ensures Decisions(s, ops) == Decisions(s, WithoutRefills(ops))
    ensures Refilled(Run(s, ops), end) == Refilled(Run(s, WithoutRefills(ops)), end)
  {
    var from := if ops == [] then end else ops[0].now;
    var clock := Clock(ops);
    forall i | 0 <= i < |ops| ensures from <= ops[i].now {
      assert clock[0] <= clock[i];
    }
    RefillsInvisibleFrom(s, s, ops, from, end);
  }

  // ---------- and visible exactly when the clock steps back ----------

  /** Some bucket and some placement of tries, refills and updates at these clock readings whose refills change a decision. */
  ghost predicate RefillsShow(clock: seq<int>) {
    exists s: State, ops: seq<Op> :: Shows(s, ops, clock)
  }

  ghost predicate Shows(s: State, ops: seq<Op>, clock: seq<int>) {
    && Sound(s) && NonnegativeCosts(ops) && Clock(ops) == clock
    && Decisions(s, ops) != Decisions(s, WithoutRefills(ops))
  }

  function Refills(clock: seq<int>): (ops: seq<Op>)
    ensures Clock(ops) == clock
  {
    seq(|clock|, i requires 0 <= i < |clock| => Op.Refill(clock[i]))
  }

  /** Refills earn at least what the clock has moved past a starting point, up to the capacity. */
  lemma {:induction false} RefillsEarn(s: State, clock: seq<int>, base: int, goal: real)
    requires Sound(s) && s.rate == 1.0 && goal <= s.capacity && base <= s.last
    requires s.units >= Min(goal, Seconds(s.last - base))
    ensures var end := Run(s, Refills(clock));
      && Sound(end) && end.units >= Min(goal, Seconds(end.last - base)) && end.last >= s.last
      && forall i :: 0 <= i < |clock| ==> clock[i] <= end.last
    decreases |clock|
  {
    if clock != [] {
      var next := Refilled(s, clock[0]);
      RefillSound(s, clock[0]);
      assert Refills(clock)[1..] == Refills(clock[1..]);
      RefillsEarn(next, clock[1..], base, goal);
      assert clock == [clock[0]] + clock[1..];
    }
  }

  lemma {:induction false} RefillsDecideNothing(s: State, clock: seq<int>, rest: seq<Op>)
    ensures Decisions(s, Refills(clock) + rest) == Decisions(Run(s, Refills(clock)), rest)
    ensures WithoutRefills(Refills(clock) + rest) == WithoutRefills(rest)
    decreases |clock|
  {
    var ops := Refills(clock) + rest;
    if clock == [] {
      assert ops == rest;
    } else {
      assert ops[1..] == Refills(clock[1..]) + rest;
      assert Refills(clock)[1..] == Refills(clock[1..]);
      DropStep(s, ops);
      RefillsDecideNothing(Refilled(s, clock[0]), clock[1..], rest);
    }
  }

  lemma OneTry(s: State, cost: real, now: int, after: seq<int>)
    ensures Decisions(s, [Try(cost, now)] + Refills(after)) == [Accepts(s, cost, now)]
    ensures WithoutRefills([Try(cost, now)] + Refills(after)) == [Try(cost, now)]
  {
    var ops := [Try(cost, now)] + Refills(after);
    assert ops[1..] == Refills(after) + [];
    DecisionsHead(s, ops);
    RefillsDecideNothing(Step(s, ops[0]), after, []);
  }

  /** A refill at a later time that is then taken back credits a share early. */
  lemma StepBackShows(clock: seq<int>, i: nat, j: nat)
    requires i < j < |clock| && clock[i] > clock[j]
    ensures RefillsShow(clock)
  {
    var now, before, after := clock[j], clock[..j], clock[j + 1..];
    var cost := Seconds(clock[i] - now);
    var s := State(3600.0 + cost, 1.0, 0.0, now);
    var ops := Refills(before) + ([Try(cost, now)] + Refills(after));
    RefillsDecideNothing(s, before, [Try(cost, now)] + Refills(after));
    RefillsEarn(s, before, now, cost);
    var end := Run(s, Refills(before));
    assert before[i] <= end.last;
    OneTry(end, cost, now, after);
    OneTry(s, cost, now, after);
    OneTry(s, cost, now, []);
    assert [Try(cost, now)] + Refills([]) == [Try(cost, now)];
    assert Clock(ops) == clock;
    assert Shows(s, ops, clock);
  }

  /** Some refill can be seen in the decisions exactly when the clock readings step back somewhere. */
  lemma RefillsShowIff(clock: seq<int>)
    ensures RefillsShow(clock) <==> !Nondecreasing(clock)
  {
    if !Nondecreasing(clock) {
      var i, j :| 0 <= i < j < |clock| && clock[i] > clock[j];
      StepBackShows(clock, i, j);
    } else if RefillsShow(clock) {
      var s: State, ops: seq<Op> :| Shows(s, ops, clock);
      var end := if clock == [] then 0 else clock[|clock| - 1];
      forall i | 0 <= i < |ops| ensures ops[i].now <= end {
        assert clock[i] <= end;
      }
      RefillsInvisible(s, ops, end);
    }
  }

  // ---------- no lockout ----------

  /** A share is accepted at some time, with nothing else spent, exactly when it fits the capacity. */
  lemma AcceptedEventuallyIff(s: State, cost: real)
    requires Sound(s) && cost >= 0.0
    ensures (exists now :: Accepts(s, cost, now)) <==> cost <= s.capacity
  {
    if cost <= s.capacity {
      var wait := (cost / s.rate * 1000.0).Floor + 1;
      WaitSuffices(s, cost, s.last + wait);
      assert Accepts(s, cost, s.last + wait);
    }
  }

  /** Waiting cost / rate seconds is enough. */
  lemma WaitSuffices(s: State, cost: real, now: int)
    requires Sound(s) && 0.0 <= cost <= s.capacity
    requires (now - s.last) as real / 1000.0 >= cost / s.rate
    ensures Accepts(s, cost, now)
  {
    assert cost / s.rate * s.rate == cost;
    assert Seconds(now - s.last) * s.rate >= cost;
    if now <= s.last {
      assert cost <= 0.0;
    }
  }

  /** A share that is affordable from what is held leaves that much less, and the clock where it is. */
  lemma AffordableTry(s: State, cost: real, now: int, more: real)
    requires Sound(s) && now <= s.last && 0.0 <= cost && 0.0 <= more && cost + more <= s.units
    ensures Accepts(s, cost, now)
    ensures var next := AfterTry(s, cost, now); Sound(next) && now <= next.last && next.units >= more
  {
  }

  lemma MoreOf(n: nat, cost: real)
    requires n > 0 && cost >= 0.0
    ensures (n - 1) as real * cost >= 0.0 && n as real * cost == cost + (n - 1) as real * cost
  {
  }

  lemma {:induction false} SharesInARow(s: State, cost: real, now: int, n: nat)
    requires Sound(s) && now <= s.last && 0.0 <= cost && n as real * cost <= s.units
    ensures Decisions(s, seq(n, _ => Try(cost, now))) == seq(n, _ => true)
    decreases n
  {
    if n > 0 {
      var ops := seq(n, _ => Try(cost, now));
      var more := (n - 1) as real * cost;
      MoreOf(n, cost);
      AffordableTry(s, cost, now, more);
      assert ops[1..] == seq(n - 1, _ => Try(cost, now));
      SharesInARow(AfterTry(s, cost, now), cost, now, n - 1);
      DecisionsHead(s, ops);
    }
  }

  lemma TryAfterRefill(s: State, ops: seq<Op>, now: int)
    requires Sound(s) && forall i :: 0 <= i < |ops| ==> ops[i].Try? && ops[i].now == now
    ensures Decisions(s, ops) == Decisions(Refilled(s, now), ops)
  {
    if ops != [] {
      var r := Refilled(s, now);
      RefillTwice(s, now, now);
      assert Refilled(r, now) == r && Step(s, ops[0]) == Step(r, ops[0]);
      DecisionsHead(s, ops);
      DecisionsHead(r, ops);
    }
  }

  /** From any state, four shares at the difficulty floor the capacity was made for are accepted in a row after one wait. */
  lemma FourSharesAtTheFloor(s: State, floor: real, now: int)
    requires Sound(s) && floor > 0.0 && s.capacity >= 4.0 * floor * TWO_POW_32
    requires (now - s.last) as real / 1000.0 >= 4.0 * ShareCostUnits(floor) / s.rate
    ensures Decisions(s, seq(4, _ => Try(ShareCostUnits(floor), now))) == [true, true, true, true]
  {
    var cost := ShareCostUnits(floor);
    assert 4.0 * floor * TWO_POW_32 == 4.0 * cost;
    WaitSuffices(s, 4.0 * cost, now);
    WaitPasses(s, 4.0 * cost, now);
    RefillSound(s, now);
    TryAfterRefill(s, seq(4, _ => Try(cost, now)), now);
    SharesInARow(Refilled(s, now), cost, now, 4);
    assert seq(4, _ => true) == [true, true, true, true];
  }

  lemma WaitPasses(s: State, cost: real, now: int)
    requires Sound(s) && cost > 0.0 && Seconds(now - s.last) >= cost / s.rate
    ensures now > s.last
  {
    assert cost / s.rate > 0.0;
  }
}
