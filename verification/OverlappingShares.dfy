/** The ledger when its calls overlap: every call runs to its next await, and others may run in between. */
module OverlappingShares {
  import opened Bytes
  import opened Statistics

  /** `Flushing` waits for the old slot's row to be written, `Saving` for its own row. */
  datatype Phase = Flushing | Saving | Done

  /** A call in the order of starts; `changes` when it found the memory at another slot. */
  datatype Call = Call(share: Share, changes: bool, phase: Phase)

  datatype State = State(ledger: Ledger, calls: seq<Call>)

  datatype Action = Start(share: Share) | Resume(call: nat, now: int)

  const INIT := State(EMPTY, [])

  function FlushOld(l: Ledger): Ledger
    requires l.slot.Some?
  {
    l.(rows := UpdateRows(l.rows, l.slot.value, l.shares, l.count))
  }

  /** The new slot begins with this share alone. */
  function StartSlot(l: Ledger, s: Share): Ledger {
    Ledger(s.difficulty, 1, Some(Slot(s.date)), l.lastSave, l.rows + [Row(Slot(s.date), s.difficulty, 1)])
  }

  /** The share is added to the totals, and the rows are written when due. */
  function Added(l: Ledger, s: Share): Ledger {
    var shares, count, t := l.shares + s.difficulty, l.count + 1, Slot(s.date);
    var rows := if l.slot.None? then l.rows + [Row(t, shares, count)]
                else if SaveIsDue(l, s) then UpdateRows(l.rows, t, shares, count) else l.rows;
    Ledger(shares, count, Some(t), l.lastSave, rows)
  }

  predicate SaveIsDue(l: Ledger, s: Share) {
    l.slot.None? || s.date - SAVE_MS > l.lastSave
  }

  predicate ChangesSlot(l: Ledger, s: Share) {
    l.slot.Some? && l.slot.value != Slot(s.date)
  }

  function Started(s: State, share: Share): State {
    if ChangesSlot(s.ledger, share) then State(FlushOld(s.ledger), s.calls + [Call(share, true, Flushing)])
    else State(Added(s.ledger, share), s.calls + [Call(share, false, if SaveIsDue(s.ledger, share) then Saving else Done)])
  }

  function Resumed(s: State, i: nat, now: int): State
    requires i < |s.calls|
  {
    match s.calls[i].phase
    case Flushing => State(StartSlot(s.ledger, s.calls[i].share), s.calls[i := s.calls[i].(phase := Saving)])
    case Saving => State(s.ledger.(lastSave := now), s.calls[i := s.calls[i].(phase := Done)])
    case Done => s
  }

  function Step(s: State, a: Action): State {
    match a
    case Start(share) => Started(s, share)
    case Resume(i, now) => if i < |s.calls| then Resumed(s, i, now) else s
  }

  function StepAll(s: State, actions: seq<Action>): State
    decreases |actions|
  {
    if actions == [] then s else StepAll(Step(s, actions[0]), actions[1..])
  }

  function Run(actions: seq<Action>): State {
    StepAll(INIT, actions)
  }

  function History(s: State): seq<Share> {
    seq(|s.calls|, i requires 0 <= i < |s.calls| => s.calls[i].share)
  }

  /** A call that nothing interrupts is the step of the serialized ledger. */
  lemma SerialCallIsAddShare(s: State, share: Share, saved: int)
    ensures var n := |s.calls|;
      var end := Resumed(Resumed(Started(s, share), n, saved), n, saved);
      end.ledger == AddShare(s.ledger, share, saved) && end.calls[n].phase == Done && end.calls[..n] == s.calls
  {
    var n, started := |s.calls|, Started(s, share);
    assert started.calls[n].share == share;
    assert started.calls[..n] == s.calls;
  }

  // ---------- changes into a slot ----------

  predicate ChangesInto(c: Call, t: int) {
    c.changes && Slot(c.share.date) == t
  }

  ghost predicate AtMostOneChange(calls: seq<Call>, t: int) {
    forall i, j :: 0 <= i < j < |calls| ==> !(ChangesInto(calls[i], t) && ChangesInto(calls[j], t))
  }

  /** A change into this slot has gone through. */
  ghost predicate Entered(calls: seq<Call>, t: int) {
    exists i :: 0 <= i < |calls| && ChangesInto(calls[i], t) && calls[i].phase != Flushing
  }

  ghost predicate AllChange(calls: seq<Call>, t: int) {
    forall i :: 0 <= i < |calls| && Slot(calls[i].share.date) == t ==> calls[i].changes
  }

  ghost predicate ChangesAreLater(calls: seq<Call>, first: int) {
    forall i :: 0 <= i < |calls| ==> first <= Slot(calls[i].share.date) && (calls[i].changes ==> first < Slot(calls[i].share.date))
  }

  /** Count and total in memory are right with at most one change into their slot, and too small otherwise; the total
      when no difficulty is zero or less. */
  ghost predicate ExactIffOneChange(s: State, t: int) {
    var h := History(s);
    if AtMostOneChange(s.calls, t) then s.ledger.count == Count(h, t) && s.ledger.shares == Total(h, t)
    else s.ledger.count < Count(h, t) && (Positive(h) ==> s.ledger.shares < Total(h, t))
  }

  ghost predicate Positive(h: seq<Share>) {
    forall i :: 0 <= i < |h| ==> h[i].difficulty > 0.0
  }

  ghost predicate Inv(s: State) {
    if s.calls == [] then s.ledger == EMPTY
    else
      var first := Slot(s.calls[0].share.date);
      && s.ledger.slot.Some?
      && var t := s.ledger.slot.value;
      && (t == first || Entered(s.calls, t))
      && ExactIffOneChange(s, t)
      && ChangesAreLater(s.calls, first)
      && forall u :: u != first && !Entered(s.calls, u) ==> AllChange(s.calls, u)
  }

  // ---------- counting ----------

  lemma CountSnoc(s: State, next: State, c: Call, t: int)
    requires next.calls == s.calls + [c]
    ensures Count(History(next), t) == Count(History(s), t) + (if Slot(c.share.date) == t then 1 else 0)
    ensures Total(History(next), t) == Total(History(s), t) + (if Slot(c.share.date) == t then c.share.difficulty else 0.0)
    ensures Positive(History(next)) ==> Positive(History(s))
  {
    assert History(next) == History(s) + [c.share];
    if Positive(History(next)) {
      forall i | 0 <= i < |s.calls| ensures History(s)[i].difficulty > 0.0 {
        assert History(next)[i] == History(s)[i];
      }
    }
    TotalSnoc(History(s), c.share, t);
  }

  lemma {:induction false} OneShare(h: seq<Share>, t: int, i: nat)
    requires i < |h| && Slot(h[i].date) == t
    requires forall k :: 0 <= k < |h| && Slot(h[k].date) == t ==> k == i
    ensures Count(h, t) == 1 && Total(h, t) == h[i].difficulty
  {
    var n := |h| - 1;
    if i == n {
      TotalElsewhere(h[..n], t);
    } else {
      OneShare(h[..n], t, i);
    }
  }

  lemma {:induction false} TotalIsNonnegative(h: seq<Share>, t: int)
    requires Positive(h)
    ensures Total(h, t) >= 0.0
  {
    if h != [] {
      TotalIsNonnegative(h[..|h| - 1], t);
    }
  }

  lemma {:induction false} AtLeastOne(h: seq<Share>, t: int, i: nat)
    requires i < |h| && Slot(h[i].date) == t
    ensures Count(h, t) >= 1
    ensures Positive(h) ==> Total(h, t) >= h[i].difficulty
  {
    var n := |h| - 1;
    if i < n {
      AtLeastOne(h[..n], t, i);
    } else if Positive(h) {
      TotalIsNonnegative(h[..n], t);
    }
  }

  lemma {:induction false} TwoShares(h: seq<Share>, t: int, i: nat, j: nat)
    requires i < j < |h| && Slot(h[i].date) == Slot(h[j].date) == t
    ensures Count(h, t) >= 2
    ensures Positive(h) ==> Total(h, t) >= h[i].difficulty + h[j].difficulty
  {
    var n := |h| - 1;
    if j == n {
      AtLeastOne(h[..n], t, i);
    } else {
      TwoShares(h[..n], t, i, j);
    }
  }

  // ---------- every step keeps the invariant ----------

  lemma FirstCallKeeps(s: State, share: Share)
    requires Inv(s) && s.calls == []
    ensures Inv(Started(s, share))
  {
    CountSnoc(s, Started(s, share), Started(s, share).calls[0], Slot(share.date));
  }

  /** With a nondecreasing clock, a new date is in the first slot or later, and past it once the memory has left it. */
  lemma NewDateIsLater(s: State, share: Share)
    requires Inv(s) && s.calls != [] && ClockForward(History(s) + [share])
    ensures var first := Slot(s.calls[0].share.date);
      first <= Slot(share.date) && (ChangesSlot(s.ledger, share) ==> first < Slot(share.date))
  {
    var h := History(s) + [share];
    assert h[0] == s.calls[0].share && h[|s.calls|] == share;
    SlotMonotone(h[0].date, share.date);
    var first, t := Slot(s.calls[0].share.date), s.ledger.slot.value;
    if t != first {
      var i :| 0 <= i < |s.calls| && ChangesInto(s.calls[i], t) && s.calls[i].phase != Flushing;
      assert h[i] == s.calls[i].share;
      SlotMonotone(h[i].date, share.date);
    }
  }

  lemma NewCallKeepsChanges(calls: seq<Call>, c: Call, t: int)
    requires !ChangesInto(c, t)
    ensures AtMostOneChange(calls + [c], t) <==> AtMostOneChange(calls, t)
  {
    var longer := calls + [c];
    forall i, j | 0 <= i < j < |calls| && AtMostOneChange(longer, t)
      ensures !(ChangesInto(calls[i], t) && ChangesInto(calls[j], t))
    {
      assert longer[i] == calls[i] && longer[j] == calls[j];
    }
  }

  lemma EnteredStays(calls: seq<Call>, c: Call, t: int)
    requires Entered(calls, t)
    ensures Entered(calls + [c], t)
  {
    var i :| 0 <= i < |calls| && ChangesInto(calls[i], t) && calls[i].phase != Flushing;
    assert (calls + [c])[i] == calls[i];
  }

  /** The other slots: where no change went through, all shares are changes. */
  lemma NewCallKeepsAllChange(calls: seq<Call>, c: Call, u: int)
    requires Entered(calls, u) || AllChange(calls, u)
    requires Slot(c.share.date) == u ==> c.changes || Entered(calls, u)
    ensures Entered(calls + [c], u) || AllChange(calls + [c], u)
  {
    if Entered(calls, u) {
      EnteredStays(calls, c, u);
    }
  }

  lemma StartKeeps(s: State, share: Share)
    requires Inv(s) && s.calls != [] && ClockForward(History(s) + [share])
    ensures Inv(Started(s, share))
  {
    var next, t, first := Started(s, share), s.ledger.slot.value, Slot(s.calls[0].share.date);
    var c := next.calls[|s.calls|];
    NewDateIsLater(s, share);
    CountSnoc(s, next, c, t);
    NewCallKeepsChanges(s.calls, c, t);
    if t != first {
      EnteredStays(s.calls, c, t);
    }
    forall u | u != first ensures Entered(next.calls, u) || AllChange(next.calls, u) {
      NewCallKeepsAllChange(s.calls, c, u);
    }
  }

  lemma PhaseKeepsChanges(calls: seq<Call>, i: nat, phase: Phase, t: int)
    requires i < |calls| && phase != Flushing
    ensures var next := calls[i := calls[i].(phase := phase)];
      && (AtMostOneChange(next, t) <==> AtMostOneChange(calls, t))
      && (Entered(calls, t) ==> Entered(next, t)) && (AllChange(calls, t) ==> AllChange(next, t))
  {
    var next := calls[i := calls[i].(phase := phase)];
    if AtMostOneChange(next, t) {
      forall j, k | 0 <= j < k < |calls| ensures !(ChangesInto(calls[j], t) && ChangesInto(calls[k], t)) {
        assert ChangesInto(next[j], t) == ChangesInto(calls[j], t) && ChangesInto(next[k], t) == ChangesInto(calls[k], t);
      }
    }
    if Entered(calls, t) {
      var j :| 0 <= j < |calls| && ChangesInto(calls[j], t) && calls[j].phase != Flushing;
      assert ChangesInto(next[j], t) && next[j].phase != Flushing;
    }
  }

  lemma PhaseKeepsHistory(s: State, next: State, i: nat, phase: Phase)
    requires i < |s.calls| && next.calls == s.calls[i := s.calls[i].(phase := phase)]
    ensures History(next) == History(s)
  {
  }

  /** A change that goes through leaves one share: right when it is the only change into its slot, too little otherwise. */
  lemma EnteringCount(s: State, i: nat)
    requires Inv(s) && i < |s.calls| && s.calls[i].phase == Flushing && s.calls[i].changes
    ensures var t, d := Slot(s.calls[i].share.date), s.calls[i].share.difficulty;
      if AtMostOneChange(s.calls, t) then Count(History(s), t) == 1 && Total(History(s), t) == d
      else Count(History(s), t) > 1 && (Positive(History(s)) ==> Total(History(s), t) > d)
  {
    var t, h := Slot(s.calls[i].share.date), History(s);
    if AtMostOneChange(s.calls, t) {
      forall k | 0 <= k < |s.calls| && ChangesInto(s.calls[k], t) ensures k == i {
        assert ChangesInto(s.calls[i], t);
      }
      assert AllChange(s.calls, t);
      OneShare(h, t, i);
    } else {
      var j, k :| 0 <= j < k < |s.calls| && ChangesInto(s.calls[j], t) && ChangesInto(s.calls[k], t);
      if i == j {
        TwoShares(h, t, i, k);
      } else if i < j {
        TwoShares(h, t, i, j);
      } else {
        TwoShares(h, t, j, i);
      }
    }
  }

  /** Only changes wait for the old slot's row. */
  ghost predicate FlushersChange(calls: seq<Call>) {
    forall i :: 0 <= i < |calls| && calls[i].phase == Flushing ==> calls[i].changes
  }

  lemma EnterKeeps(s: State, i: nat, now: int)
    requires Inv(s) && i < |s.calls| && s.calls[i].phase == Flushing && s.calls[i].changes
    ensures Inv(Resumed(s, i, now))
  {
    var next, t := Resumed(s, i, now), Slot(s.calls[i].share.date);
    EnteringCount(s, i);
    PhaseKeepsHistory(s, next, i, Saving);
    PhaseKeepsChanges(s.calls, i, Saving, t);
    assert ChangesInto(next.calls[i], t) && next.calls[i].phase != Flushing;
    forall u | u != Slot(s.calls[0].share.date) ensures Entered(next.calls, u) || AllChange(next.calls, u) {
      PhaseKeepsChanges(s.calls, i, Saving, u);
    }
  }

  lemma SaveKeeps(s: State, i: nat, now: int)
    requires Inv(s) && i < |s.calls| && s.calls[i].phase == Saving
    ensures Inv(Resumed(s, i, now))
  {
    var next := Resumed(s, i, now);
    PhaseKeepsHistory(s, next, i, Done);
    PhaseKeepsChanges(s.calls, i, Done, s.ledger.slot.value);
    forall u | u != Slot(s.calls[0].share.date) ensures Entered(next.calls, u) || AllChange(next.calls, u) {
      PhaseKeepsChanges(s.calls, i, Done, u);
    }
  }

  lemma StartStepKeeps(s: State, share: Share)
    requires Inv(s) && FlushersChange(s.calls) && ClockForward(History(s) + [share])
    ensures Inv(Started(s, share)) && FlushersChange(Started(s, share).calls)
  {
    if s.calls == [] {
      FirstCallKeeps(s, share);
    } else {
      StartKeeps(s, share);
    }
  }

  lemma ResumeStepKeeps(s: State, i: nat, now: int)
    requires Inv(s) && FlushersChange(s.calls) && i < |s.calls|
    ensures Inv(Resumed(s, i, now)) && FlushersChange(Resumed(s, i, now).calls)
  {
    match s.calls[i].phase
    case Flushing => EnterKeeps(s, i, now);
    case Saving => SaveKeeps(s, i, now);
    case Done =>
  }

  lemma StepKeeps(s: State, a: Action)
    requires Inv(s) && FlushersChange(s.calls) && ClockForward(History(Step(s, a)))
    ensures Inv(Step(s, a)) && FlushersChange(Step(s, a).calls)
  {
    match a
    case Start(share) =>
      assert History(Step(s, a)) == History(s) + [share];
      StartStepKeeps(s, share);
    case Resume(i, now) =>
      if i < |s.calls| {
        ResumeStepKeeps(s, i, now);
      }
  }

  lemma StepExtendsHistory(s: State, a: Action)
    ensures History(s) <= History(Step(s, a))
  {
  }

  lemma {:induction false} RunExtendsHistory(s: State, actions: seq<Action>)
    ensures History(s) <= History(StepAll(s, actions))
    decreases |actions|
  {
    if actions != [] {
      StepExtendsHistory(s, actions[0]);
      RunExtendsHistory(Step(s, actions[0]), actions[1..]);
    }
  }

  lemma PrefixIsForward(h: seq<Share>, longer: seq<Share>)
    requires h <= longer && ClockForward(longer)
    ensures ClockForward(h)
  {
    forall i, j | 0 <= i < j < |h| ensures h[i].date <= h[j].date {
      assert h[i] == longer[i] && h[j] == longer[j];
    }
  }

  lemma {:induction false} RunKeeps(s: State, actions: seq<Action>)
    requires Inv(s) && FlushersChange(s.calls) && ClockForward(History(StepAll(s, actions)))
    ensures Inv(StepAll(s, actions))
    decreases |actions|
  {
    if actions != [] {
      var next := Step(s, actions[0]);
      RunExtendsHistory(next, actions[1..]);
      PrefixIsForward(History(next), History(StepAll(s, actions)));
      StepKeeps(s, actions[0]);
      RunKeeps(next, actions[1..]);
    }
  }

  /** Over every interleaving with a nondecreasing clock: the count in memory is that of its slot exactly when at most one
      call took the slot-change branch into this slot, and too small otherwise; and so is the total, of positive difficulties. */
  lemma MemoryIsExactIff(actions: seq<Action>)
    requires Run(actions).calls != [] && ClockForward(History(Run(actions)))
    ensures var s := Run(actions);
      && s.ledger.slot.Some?
      && var t, h := s.ledger.slot.value, History(s);
      && s.ledger.count <= Count(h, t)
      && (s.ledger.count == Count(h, t) <==> AtMostOneChange(s.calls, t))
      && (AtMostOneChange(s.calls, t) ==> s.ledger.shares == Total(h, t))
      && (Positive(h) ==> s.ledger.shares <= Total(h, t) && (s.ledger.shares == Total(h, t) <==> AtMostOneChange(s.calls, t)))
  {
    RunKeeps(INIT, actions);
  }

  // ---------- it does happen ----------

  /** Two calls that both find the old slot forget the first one's share and leave two rows for one slot. */
  lemma OverlapAtSlotChangeLosesShare(s: State, a: Share, b: Share, now: int)
    requires s.ledger.slot.Some? && s.ledger.slot.value != Slot(a.date) && Slot(b.date) == Slot(a.date)
    ensures var n := |s.calls|;
      var both := Step(Step(s, Start(a)), Start(b));
      var entered := Step(Step(both, Resume(n, now)), Resume(n + 1, now));
      var end := Step(Step(entered, Resume(n, now)), Resume(n + 1, now));
      && end.calls == s.calls + [Call(a, true, Done), Call(b, true, Done)]
      && end.ledger.count == 1 && end.ledger.shares == b.difficulty
      && var m := |end.ledger.rows|; m >= 2 && end.ledger.rows[m - 2].time == end.ledger.rows[m - 1].time == Slot(a.date)
  {
    var n := |s.calls|;
    var both := Step(Step(s, Start(a)), Start(b));
    assert both.calls == s.calls + [Call(a, true, Flushing), Call(b, true, Flushing)];
    var entered := Step(Step(both, Resume(n, now)), Resume(n + 1, now));
    assert entered.calls == s.calls + [Call(a, true, Saving), Call(b, true, Saving)];
    assert entered.ledger.slot == Some(Slot(b.date)) && entered.ledger.count == 1;
  }
}
