/** The write-behind ledger of accepted shares, ten minutes a row, and the window behind vardiff. */
module Statistics {
  import opened Bytes
  import opened Vardiff

  const SLOT_MS := 600000
  const SAVE_MS := 60000
  const CACHE_SIZE := 30

  datatype Share = Share(date: int, difficulty: real)

  /** A stored row of one session. */
  datatype Row = Row(time: int, shares: real, count: nat)

  datatype Ledger = Ledger(shares: real, count: nat, slot: Option<int>, lastSave: int, rows: seq<Row>)

  /** Start of the ten minutes around a date. */
  function Slot(date: int): (t: int)
    ensures t <= date < t + 600000 && t % 600000 == 0
  {
    date / SLOT_MS * SLOT_MS
  }

  /** The table's `update`: every row of that time. */
  function UpdateRows(rows: seq<Row>, time: int, shares: real, count: nat): (r: seq<Row>)
    ensures |r| == |rows|
  {
    seq(|rows|, i requires 0 <= i < |rows| => if rows[i].time == time then Row(time, shares, count) else rows[i])
  }

  /** One accepted share; `saved` is the clock after the write, when there is one. */
  function AddShare(l: Ledger, s: Share, saved: int): Ledger {
    var t := Slot(s.date);
    if l.slot.None? then
      Ledger(l.shares + s.difficulty, l.count + 1, Some(t), saved, l.rows + [Row(t, l.shares + s.difficulty, l.count + 1)])
    else if l.slot.value != t then
      Ledger(s.difficulty, 1, Some(t), saved,
        UpdateRows(l.rows, l.slot.value, l.shares, l.count) + [Row(t, s.difficulty, 1)])
    else if s.date - SAVE_MS > l.lastSave then
      Ledger(l.shares + s.difficulty, l.count + 1, l.slot, saved,
        UpdateRows(l.rows, t, l.shares + s.difficulty, l.count + 1))
    else
      l.(shares := l.shares + s.difficulty, count := l.count + 1)
  }

  const EMPTY := Ledger(0.0, 0, None, 0, [])

  /** `if (length > CACHE_SIZE) shift(); push` */
  function Remember(cache: seq<Share>, s: Share): seq<Share> {
    (if |cache| > CACHE_SIZE then cache[1..] else cache) + [s]
  }

  class ClientStatistics {
    var shares: real
    var acceptedCount: nat
    var submissionCacheStart: int
    var submissionCache: seq<Share>
    var currentTimeSlot: Option<int>
    var lastSave: int
    var rows: seq<Row>
    const targetSubmissionPerSecond: real
    const minDiff: real

    function View(): Ledger
      reads this
    {
      Ledger(shares, acceptedCount, currentTimeSlot, lastSave, rows)
    }

    constructor (targetPerSecond: real, minDiff: real, now: int)
      ensures View() == EMPTY && submissionCache == [] && submissionCacheStart == now
      ensures targetSubmissionPerSecond >= 0.001 && this.minDiff >= 0.0000000001
    {
      shares, acceptedCount, currentTimeSlot, lastSave, rows := 0.0, 0, None, 0, [];
      submissionCache, submissionCacheStart := [], now;
      targetSubmissionPerSecond := if targetPerSecond >= 0.001 then targetPerSecond else 0.001;
      this.minDiff := if minDiff >= 0.0000000001 then minDiff else 0.0000000001;
    }

    method AddShares(s: Share, saved: int)
      modifies this
      ensures View() == AddShare(old(View()), s, saved)
      ensures submissionCache == Remember(old(submissionCache), s)
      ensures submissionCacheStart == old(submissionCacheStart)
    {
      var timeSlot := Slot(s.date);
      if |submissionCache| > CACHE_SIZE {
        submissionCache := submissionCache[1..];
      }
      submissionCache := submissionCache + [s];
      if currentTimeSlot.None? {
        currentTimeSlot := Some(timeSlot);
        shares, acceptedCount := shares + s.difficulty, acceptedCount + 1;
        rows := rows + [Row(timeSlot, shares, acceptedCount)];
        lastSave := saved;
      } else if currentTimeSlot.value != timeSlot {
        rows := UpdateRows(rows, currentTimeSlot.value, shares, acceptedCount);
        currentTimeSlot := Some(timeSlot);
        shares, acceptedCount := s.difficulty, 1;
        rows := rows + [Row(timeSlot, shares, acceptedCount)];
        lastSave := saved;
      } else if s.date - SAVE_MS > lastSave {
        shares, acceptedCount := shares + s.difficulty, acceptedCount + 1;
        rows := UpdateRows(rows, timeSlot, shares, acceptedCount);
        lastSave := saved;
      } else {
        shares, acceptedCount := shares + s.difficulty, acceptedCount + 1;
      }
    }

    /** None when the recursion behind the suggestion has not ended, as for an infinite rate. */
    method GetSuggestedDifficulty(clientDifficulty: real, now: int, fuel: nat) returns (r: Option<Suggestion>)
      ensures |submissionCache| >= 5 ==>
        match MeasuredTarget(submissionCache, targetSubmissionPerSecond)
        case None => r == None
        case Some(target) => r == SuggestFor(clientDifficulty, target, minDiff, fuel)
      ensures |submissionCache| < 5 && now - submissionCacheStart <= 60000 ==> r == Some(NoChange)
      ensures |submissionCache| < 5 && now - submissionCacheStart > 60000 ==>
        r == NearestPowerOfTwo(clientDifficulty / 6.0, minDiff, fuel)
    {
      if |submissionCache| < 5 {
        if (now - submissionCacheStart) as real / 1000.0 > 60.0 {
          return NearestPowerOfTwo(clientDifficulty / 6.0, minDiff, fuel);
        } else {
          return Some(NoChange);
        }
      }
      match MeasuredTarget(submissionCache, targetSubmissionPerSecond)
      case None =>
        return None;
      case Some(target) =>
        return SuggestFor(clientDifficulty, target, minDiff, fuel);
    }
  }

  // ---------- the simple ledger ----------

  function Total(h: seq<Share>, t: int): real {
    if h == [] then 0.0
    else Total(h[..|h| - 1], t) + (if Slot(h[|h| - 1].date) == t then h[|h| - 1].difficulty else 0.0)
  }

  function Count(h: seq<Share>, t: int): nat {
    if h == [] then 0 else Count(h[..|h| - 1], t) + (if Slot(h[|h| - 1].date) == t then 1 else 0)
  }

  function ExactRow(h: seq<Share>, t: int): Row {
    Row(t, Total(h, t), Count(h, t))
  }

  ghost predicate ClockForward(h: seq<Share>) {
    forall i, j :: 0 <= i < j < |h| ==> h[i].date <= h[j].date
  }

  /** Replays a history; `saves[i]` is the clock after the write of share i. */
  function Replay(h: seq<Share>, saves: seq<int>): Ledger
    requires |saves| == |h|
  {
    if h == [] then EMPTY
    else AddShare(Replay(h[..|h| - 1], saves[..|h| - 1]), h[|h| - 1], saves[|h| - 1])
  }

  lemma TotalSnoc(h: seq<Share>, s: Share, t: int)
    ensures ExactRow(h + [s], t)
            == if Slot(s.date) == t then Row(t, Total(h, t) + s.difficulty, Count(h, t) + 1) else ExactRow(h, t)
  {
    assert (h + [s])[..|h|] == h;
  }

  lemma {:induction false} TotalElsewhere(h: seq<Share>, t: int)
    requires forall i :: 0 <= i < |h| ==> Slot(h[i].date) != t
    ensures Total(h, t) == 0.0 && Count(h, t) == 0
  {
    if h != [] {
      TotalElsewhere(h[..|h| - 1], t);
    }
  }

  /** The current row covers the first `saved` shares of the history; the others are recent. */
  ghost predicate Covers(l: Ledger, h: seq<Share>, saved: nat)
    requires l.slot.Some? && l.rows != []
  {
    && saved <= |h|
    && l.rows[|l.rows| - 1] == ExactRow(h[..saved], l.slot.value)
    && forall j :: saved <= j < |h| ==> Recent(l, h[j])
  }

  ghost predicate Recent(l: Ledger, s: Share) {
    l.slot == Some(Slot(s.date)) && s.date <= l.lastSave + 60000
  }

  ghost predicate HasRow(rows: seq<Row>, t: int) {
    exists i :: 0 <= i < |rows| && rows[i].time == t
  }

  /** One row a slot, in order, each before the current one exact. */
  ghost predicate RowsExact(l: Ledger, h: seq<Share>)
    requires l.slot.Some?
  {
    && l.rows != [] && l.rows[|l.rows| - 1].time == l.slot.value
    && (forall i, j :: 0 <= i < j < |l.rows| ==> l.rows[i].time < l.rows[j].time)
    && (forall i :: 0 <= i < |l.rows| - 1 ==> l.rows[i] == ExactRow(h, l.rows[i].time))
  }

  /** What the write-behind ledger promises of the simple one. */
  ghost predicate Faithful(l: Ledger, h: seq<Share>) {
    if h == [] then l == EMPTY
    else
      && l.slot == Some(Slot(h[|h| - 1].date))
      && l.shares == Total(h, l.slot.value) && l.count == Count(h, l.slot.value)
      && RowsExact(l, h)
      && (forall j :: 0 <= j < |h| ==> HasRow(l.rows, Slot(h[j].date)))
      && (exists saved: nat :: Covers(l, h, saved))
  }

  lemma SlotMonotone(a: int, b: int)
    requires a <= b
    ensures Slot(a) <= Slot(b)
  {
  }

  lemma EarlierSlots(h: seq<Share>, j: int)
    requires ClockForward(h) && 0 <= j < |h|
    ensures Slot(h[j].date) <= Slot(h[|h| - 1].date)
  {
    SlotMonotone(h[j].date, h[|h| - 1].date);
  }

  lemma KeepsRow(rows: seq<Row>, next: seq<Row>, t: int)
    requires |rows| <= |next| && forall i :: 0 <= i < |rows| ==> next[i].time == rows[i].time
    requires HasRow(rows, t)
    ensures HasRow(next, t)
  {
    var i :| 0 <= i < |rows| && rows[i].time == t;
    assert next[i].time == t;
  }

  lemma AllKeepRows(l: Ledger, h: seq<Share>, s: Share, next: seq<Row>)
    requires forall j :: 0 <= j < |h| ==> HasRow(l.rows, Slot(h[j].date))
    requires |l.rows| <= |next| && forall i :: 0 <= i < |l.rows| ==> next[i].time == l.rows[i].time
    requires next != [] && next[|next| - 1].time == Slot(s.date)
    ensures forall j :: 0 <= j < |h + [s]| ==> HasRow(next, Slot((h + [s])[j].date))
  {
    forall j | 0 <= j < |h + [s]| ensures HasRow(next, Slot((h + [s])[j].date)) {
      if j < |h| {
        KeepsRow(l.rows, next, Slot(h[j].date));
      }
    }
  }

  lemma FirstShare(s: Share, saved: int)
    ensures Faithful(AddShare(EMPTY, s, saved), [s])
  {
    var l := AddShare(EMPTY, s, saved);
    TotalSnoc([], s, Slot(s.date));
    assert [] + [s] == [s];
    assert [s][..1] == [s];
    AllKeepRows(EMPTY, [], s, l.rows);
    assert Covers(l, [s], 1);
  }

  lemma NewSlotRows(l: Ledger, h: seq<Share>, s: Share, saved: int)
    requires h != [] && l.slot.Some? && RowsExact(l, h)
    requires l.shares == Total(h, l.slot.value) && l.count == Count(h, l.slot.value)
    requires l.slot.value < Slot(s.date)
    ensures RowsExact(AddShare(l, s, saved), h + [s])
  {
    var next, n := AddShare(l, s, saved), |l.rows|;
    forall i | 0 <= i < n ensures next.rows[i] == ExactRow(h + [s], l.rows[i].time) && l.rows[i].time <= l.slot.value {
      TotalSnoc(h, s, l.rows[i].time);
    }
  }

  lemma NewSlot(l: Ledger, h: seq<Share>, s: Share, saved: int)
    requires h != [] && Faithful(l, h) && ClockForward(h + [s])
    requires l.slot.value != Slot(s.date)
    ensures Faithful(AddShare(l, s, saved), h + [s])
  {
    var t, h' := Slot(s.date), h + [s];
    var next := AddShare(l, s, saved);
    forall j | 0 <= j < |h| ensures Slot(h[j].date) < t {
      assert h == h'[..|h|];
      EarlierSlots(h, j);
      EarlierSlots(h', |h| - 1);
    }
    TotalElsewhere(h, t);
    TotalSnoc(h, s, t);
    NewSlotRows(l, h, s, saved);
    AllKeepRows(l, h, s, next.rows);
    assert h'[..|h'|] == h';
    assert Covers(next, h', |h'|);
  }

  lemma SameSlotRows(l: Ledger, h: seq<Share>, s: Share, saved: int)
    requires h != [] && l.slot == Some(Slot(s.date)) && RowsExact(l, h)
    ensures RowsExact(AddShare(l, s, saved), h + [s])
  {
    var next, n := AddShare(l, s, saved), |l.rows|;
    forall i | 0 <= i < n - 1 ensures next.rows[i] == l.rows[i] == ExactRow(h + [s], l.rows[i].time) {
      assert l.rows[i].time < l.rows[n - 1].time;
      TotalSnoc(h, s, l.rows[i].time);
    }
  }

  lemma SameSlotCovers(l: Ledger, h: seq<Share>, s: Share, saved: int, k: nat)
    requires l.slot == Some(Slot(s.date)) && l.rows != [] && Covers(l, h, k)
    requires s.date - SAVE_MS <= l.lastSave
    ensures Covers(AddShare(l, s, saved), h + [s], k)
  {
    var next, h' := AddShare(l, s, saved), h + [s];
    assert h'[..k] == h[..k];
    forall j | k <= j < |h'| ensures Recent(next, h'[j]) {
      if j < |h| {
        assert Recent(l, h[j]);
      }
    }
  }

  lemma SameSlot(l: Ledger, h: seq<Share>, s: Share, saved: int)
    requires h != [] && Faithful(l, h)
    requires l.slot.value == Slot(s.date)
    ensures Faithful(AddShare(l, s, saved), h + [s])
  {
    var h', next := h + [s], AddShare(l, s, saved);
    TotalSnoc(h, s, Slot(s.date));
    SameSlotRows(l, h, s, saved);
    AllKeepRows(l, h, s, next.rows);
    if s.date - SAVE_MS > l.lastSave {
      assert h'[..|h'|] == h';
      assert Covers(next, h', |h'|);
    } else {
      var k: nat :| Covers(l, h, k);
      SameSlotCovers(l, h, s, saved, k);
    }
  }

  lemma StepStaysFaithful(l: Ledger, h: seq<Share>, s: Share, saved: int)
    requires Faithful(l, h) && ClockForward(h + [s])
    ensures Faithful(AddShare(l, s, saved), h + [s])
  {
    if h == [] {
      FirstShare(s, saved);
      assert h + [s] == [s];
    } else if l.slot.value != Slot(s.date) {
      NewSlot(l, h, s, saved);
    } else {
      SameSlot(l, h, s, saved);
    }
  }

  lemma ReplayLast(h: seq<Share>, saves: seq<int>)
    requires |saves| == |h| && h != [] && ClockForward(h)
    ensures var n := |h| - 1;
      && h[..n] + [h[n]] == h && ClockForward(h[..n])
      && Replay(h, saves) == AddShare(Replay(h[..n], saves[..n]), h[n], saves[n])
  {
  }

  /** Within a slot the row is written exactly when the last save is more than a minute ago. */
  lemma RowIsWrittenIff(l: Ledger, s: Share, saved: int)
    requires l.slot == Some(Slot(s.date)) && l.rows != [] && l.rows[|l.rows| - 1].time == l.slot.value
    requires l.rows[|l.rows| - 1] != Row(l.slot.value, l.shares + s.difficulty, l.count + 1)
    ensures var next := AddShare(l, s, saved);
      && (next.rows == l.rows <==> s.date - l.lastSave <= 60000)
      && (next.rows != l.rows ==> next.rows[|l.rows| - 1] == Row(l.slot.value, l.shares + s.difficulty, l.count + 1) && next.lastSave == saved)
  {
    var next := AddShare(l, s, saved);
    assert next.rows == l.rows ==> next.rows[|l.rows| - 1] == l.rows[|l.rows| - 1];
  }

  /** Closed rows are exact, memory is exact, and shares missing from the current row are at most a minute past the last save. */
  lemma {:induction false} WriteBehindIsFaithful(h: seq<Share>, saves: seq<int>)
    requires |saves| == |h| && ClockForward(h)
    ensures Faithful(Replay(h, saves), h)
  {
    if h != [] {
      var n := |h| - 1;
      ReplayLast(h, saves);
      WriteBehindIsFaithful(h[..n], saves[..n]);
      StepStaysFaithful(Replay(h[..n], saves[..n]), h[..n], h[n], saves[n]);
    }
  }

  // ---------- conservation ----------

  function SumRows(rows: seq<Row>): real {
    if rows == [] then 0.0 else SumRows(rows[..|rows| - 1]) + rows[|rows| - 1].shares
  }

  function Work(h: seq<Share>): real {
    if h == [] then 0.0 else Work(h[..|h| - 1]) + h[|h| - 1].difficulty
  }

  /** Work in memory that the current row does not show yet. */
  function Unsaved(l: Ledger): real {
    if l.rows == [] then l.shares else l.shares - l.rows[|l.rows| - 1].shares
  }

  lemma SumRowsSnoc(rows: seq<Row>, r: Row)
    ensures SumRows(rows + [r]) == SumRows(rows) + r.shares
  {
    assert (rows + [r])[..|rows|] == rows;
  }

  lemma UpdatedLast(rows: seq<Row>, time: int, shares: real, count: nat)
    requires rows != [] && rows[|rows| - 1].time == time
    requires forall i :: 0 <= i < |rows| - 1 ==> rows[i].time != time
    ensures UpdateRows(rows, time, shares, count) == rows[..|rows| - 1] + [Row(time, shares, count)]
  {
  }

  lemma UpdateLast(rows: seq<Row>, time: int, shares: real, count: nat)
    requires rows != [] && rows[|rows| - 1].time == time
    requires forall i :: 0 <= i < |rows| - 1 ==> rows[i].time != time
    ensures SumRows(UpdateRows(rows, time, shares, count)) == SumRows(rows) - rows[|rows| - 1].shares + shares
    ensures UpdateRows(rows, time, shares, count)[|rows| - 1].shares == shares
  {
    var n := |rows| - 1;
    UpdatedLast(rows, time, shares, count);
    SumRowsSnoc(rows[..n], Row(time, shares, count));
  }

  lemma StepConserves(l: Ledger, h: seq<Share>, s: Share, saved: int)
    requires h != [] ==> l.slot.Some? && RowsExact(l, h)
    requires h == [] ==> l == EMPTY
    ensures var next := AddShare(l, s, saved);
      SumRows(next.rows) + Unsaved(next) == SumRows(l.rows) + Unsaved(l) + s.difficulty
  {
    var t := Slot(s.date);
    if h == [] {
      SumRowsSnoc([], Row(t, s.difficulty, 1));
      assert [] + [Row(t, s.difficulty, 1)] == [Row(t, s.difficulty, 1)];
    } else if l.slot.value != t {
      UpdateLast(l.rows, l.slot.value, l.shares, l.count);
      SumRowsSnoc(UpdateRows(l.rows, l.slot.value, l.shares, l.count), Row(t, s.difficulty, 1));
    } else if s.date - SAVE_MS > l.lastSave {
      UpdateLast(l.rows, t, l.shares + s.difficulty, l.count + 1);
    }
  }

  /** No share is lost or counted twice: rows and unsaved work add up to all work accepted. */
  lemma {:induction false} WorkIsConserved(h: seq<Share>, saves: seq<int>)
    requires |saves| == |h| && ClockForward(h)
    ensures var l := Replay(h, saves); SumRows(l.rows) + Unsaved(l) == Work(h)
  {
    if h != [] {
      var n := |h| - 1;
      ReplayLast(h, saves);
      WorkIsConserved(h[..n], saves[..n]);
      WriteBehindIsFaithful(h[..n], saves[..n]);
      StepConserves(Replay(h[..n], saves[..n]), h[..n], h[n], saves[n]);
    }
  }

  // ---------- the window ----------

  function Cached(h: seq<Share>): seq<Share> {
    if h == [] then [] else Remember(Cached(h[..|h| - 1]), h[|h| - 1])
  }

  function LastShares(h: seq<Share>): seq<Share> {
    h[if |h| > CACHE_SIZE then |h| - CACHE_SIZE - 1 else 0..]
  }

  lemma RememberKeepsLast(h: seq<Share>, s: Share)
    ensures Remember(LastShares(h), s) == LastShares(h + [s])
  {
  }

  /** The cache is always the last 31 shares, or all of them. */
  lemma {:induction false} CacheIsLastShares(h: seq<Share>)
    ensures Cached(h) == LastShares(h)
  {
    if h != [] {
      var n := |h| - 1;
      CacheIsLastShares(h[..n]);
      RememberKeepsLast(h[..n], h[n]);
      assert h[..n] + [h[n]] == h;
    }
  }

  lemma LastSharesAreThirtyOne(h: seq<Share>)
    ensures LastShares(h) == if |h| <= 31 then h else h[|h| - 31..]
  {
  }

  function SumDifficulty(cache: seq<Share>): real {
    if cache == [] then 0.0 else SumDifficulty(cache[..|cache| - 1]) + cache[|cache| - 1].difficulty
  }

  /** Difficulty a second over the window, scaled to the wanted pace; None stands for a division by zero seconds. */
  function MeasuredTarget(cache: seq<Share>, perSecond: real): Option<real>
    requires cache != []
  {
    var span := cache[|cache| - 1].date - cache[0].date;
    if span == 0 then None else Some(SumDifficulty(cache) / (span as real / 1000.0) * perSecond)
  }

  lemma {:induction false} SumOfEqual(cache: seq<Share>, difficulty: real)
    requires forall i :: 0 <= i < |cache| ==> cache[i].difficulty == difficulty
    ensures SumDifficulty(cache) == |cache| as real * difficulty
  {
    if cache != [] {
      SumOfEqual(cache[..|cache| - 1], difficulty);
    }
  }

  lemma Rescaled(sum: real, span: real, perSecond: real)
    requires span > 0.0
    ensures sum / (span / 1000.0) * perSecond * span == sum * 1000.0 * perSecond
  {
    var q := sum / (span / 1000.0);
    assert q * (span / 1000.0) == sum;
    assert q * span == sum * 1000.0;
    assert q * perSecond * span == (q * span) * perSecond;
  }

  /** Of shares of one difficulty at even gaps the measured target is what n shares in n - 1 gaps amount to: its pace
      times the gap is n / (n - 1) of the difficulty, in shares a second. There is none only without a gap. */
  lemma EvenWindowMeasures(start: int, gap: nat, difficulty: real, n: nat, perSecond: real)
    requires n >= 2
    ensures var target := MeasuredTarget(seq(n, i => Share(start + i * gap, difficulty)), perSecond);
      && (target.None? <==> gap == 0)
      && (target.Some? ==>
            target.value * ((n - 1) * gap) as real == n as real * difficulty * 1000.0 * perSecond)
  {
    var cache := seq(n, i => Share(start + i * gap, difficulty));
    SumOfEqual(cache, difficulty);
    var span := cache[n - 1].date - cache[0].date;
    assert cache[n - 1].date == start + (n - 1) * gap && cache[0].date == start + 0 * gap;
    assert span == (n - 1) * gap;
    if gap > 0 {
      assert (n - 1) * gap > 0;
      Rescaled(SumDifficulty(cache), span as real, perSecond);
    }
  }
}
