/**
 * The free/occupied scan of mergeTeamCalendars
 * (backend/src/controllers/teamCalendarController.js): the team's events are
 * flattened to intervals, sorted by start in place, and scanned with a
 * `currentEnd` cursor that is null before the first event.
 */
module TeamCalendarMerge {
  import opened Wrappers
  import opened Events

  datatype SlotKind = Free | Occupied

  /** One entry of the merged calendar. */
  datatype Slot = Slot(kind: SlotKind, startTime: Instant, endTime: Instant)

  function OccupiedSlot(ev: Interval): Slot {
    Slot(Occupied, ev.start, ev.end)
  }

  /** The scan's state: the slots pushed so far and the cursor. */
  datatype ScanState = ScanState(merged: seq<Slot>, currentEnd: Option<Instant>)

  /**
   * One iteration of the `forEach` at lines 32-52: slots already pushed are
   * kept, at most a free and an occupied slot are added (only the occupied one
   * while the cursor is null), and the cursor is set; it moves back only for
   * an event that ends before it starts.
   */
  function Step(st: ScanState, ev: Interval): (r: ScanState)
    ensures st.merged <= r.merged && |r.merged| <= |st.merged| + 2
    ensures st.currentEnd.None? ==> |r.merged| == |st.merged| + 1
    ensures r.currentEnd.Some?
    ensures st.currentEnd.Some? && ev.start <= ev.end ==> st.currentEnd.value <= r.currentEnd.value
  {
    if st.currentEnd.None? || ev.start > st.currentEnd.value then
      var free := if st.currentEnd.Some? then [Slot(Free, st.currentEnd.value, ev.start)] else [];
      ScanState(st.merged + free + [OccupiedSlot(ev)], Some(ev.end))
    else if ev.end > st.currentEnd.value then
      ScanState(st.merged, Some(ev.end))
    else
      st
  }

  /** The scan over a whole (sorted) list, one `Step` per event: fewer than two slots per event. */
  function Run(evs: seq<Interval>): (r: ScanState)
    ensures evs == [] ==> r == ScanState([], None)
    ensures evs != [] ==> r.currentEnd.Some? && |r.merged| < 2 * |evs|
  {
    if evs == [] then ScanState([], None) else Step(Run(evs[..|evs| - 1]), evs[|evs| - 1])
  }

  predicate SortedByStart(s: seq<Interval>) {
    forall i, j :: 0 <= i < j < |s| ==> s[i].start <= s[j].start
  }

  /** No event ends before it starts (the code does not check this). */
  predicate WellFormed(s: seq<Interval>) {
    forall i :: 0 <= i < |s| ==> s[i].start <= s[i].end
  }

  /** Lines 18-23: each event becomes its `{startTime, endTime}` pair. */
  function Intervals(events: seq<Event>): (r: seq<Interval>)
    ensures |r| == |events|
    ensures forall i :: 0 <= i < |events| ==> r[i] == Interval(events[i].startTime, events[i].endTime)
  {
    seq(|events|, i requires 0 <= i < |events| => Interval(events[i].startTime, events[i].endTime))
  }

  function MaxEnd(evs: seq<Interval>): Instant
    requires evs != []
  {
    if |evs| == 1 then evs[0].end
    else var m := MaxEnd(evs[..|evs| - 1]); if evs[|evs| - 1].end > m then evs[|evs| - 1].end else m
  }

  lemma {:induction false} MaxEndBounds(evs: seq<Interval>)
    requires evs != []
    ensures forall i :: 0 <= i < |evs| ==> evs[i].end <= MaxEnd(evs)
    ensures exists i :: 0 <= i < |evs| && evs[i].end == MaxEnd(evs)
  {
    if |evs| == 1 {
      assert evs[0].end == MaxEnd(evs);
    } else {
      var init := evs[..|evs| - 1];
      MaxEndBounds(init);
      var i :| 0 <= i < |init| && init[i].end == MaxEnd(init);
      assert evs[i] == init[i];
      forall k | 0 <= k < |evs| - 1 ensures evs[k].end <= MaxEnd(evs) {
        assert evs[k] == init[k];
      }
      if evs[|evs| - 1].end > MaxEnd(init) {
        assert evs[|evs| - 1].end == MaxEnd(evs);
      } else {
        assert evs[i].end == MaxEnd(evs);
      }
    }
  }

  function CountKind(s: seq<Slot>, kind: SlotKind): nat {
    if s == [] then 0 else CountKind(s[..|s| - 1], kind) + (if s[|s| - 1].kind == kind then 1 else 0)
  }

  lemma {:induction false} CountKindAppend(a: seq<Slot>, b: seq<Slot>, kind: SlotKind)
    ensures CountKind(a + b, kind) == CountKind(a, kind) + CountKind(b, kind)
    decreases |b|
  {
    if b == [] {
      assert a + b == a;
    } else {
      assert (a + b)[..|a + b| - 1] == a + b[..|b| - 1];
      assert (a + b)[|a + b| - 1] == b[|b| - 1];
      CountKindAppend(a, b[..|b| - 1], kind);
    }
  }

  /** Strict overlap of an event with a slot, as in `Conflicts`. */
  predicate OverlapsSlot(ev: Interval, slot: Slot) {
    Conflicts(ev.start, ev.end, Interval(slot.startTime, slot.endTime))
  }

  // ---------------------------------------------------------------------------
  // Properties of the scan
  // ---------------------------------------------------------------------------

  lemma {:induction false} RunUnfold(evs: seq<Interval>, x: Interval)
    ensures Run(evs + [x]) == Step(Run(evs), x)
  {
    assert (evs + [x])[..|evs|] == evs;
  }

  /** An empty list gives an empty calendar and a null cursor; otherwise the cursor is set. */
  lemma {:induction false} RunCursorSet(evs: seq<Interval>)
    ensures evs == [] <==> Run(evs).merged == []
    ensures evs == [] <==> Run(evs).currentEnd.None?
  {
    if evs != [] {
      var init := evs[..|evs| - 1];
      RunCursorSet(init);
    }
  }

  /** The first slot of a non-empty calendar is the first event's interval, occupied. */
  lemma {:induction false} FirstSlotOccupied(evs: seq<Interval>)
    requires evs != []
    ensures |Run(evs).merged| >= 1 && Run(evs).merged[0] == OccupiedSlot(evs[0])
  {
    var init := evs[..|evs| - 1];
    RunCursorSet(init);
    if init != [] {
      FirstSlotOccupied(init);
      assert init[0] == evs[0];
    }
  }

  /** Every free slot has strictly positive length. */
  lemma {:induction false} FreeSlotsPositive(evs: seq<Interval>)
    ensures forall i :: 0 <= i < |Run(evs).merged| && Run(evs).merged[i].kind == Free ==>
              Run(evs).merged[i].startTime < Run(evs).merged[i].endTime
  {
    if evs != [] {
      FreeSlotsPositive(evs[..|evs| - 1]);
    }
  }

  /** With well-formed events the cursor is the largest end time seen so far. */
  lemma {:induction false} CursorIsMaxEnd(evs: seq<Interval>)
    requires WellFormed(evs) && evs != []
    ensures Run(evs).currentEnd == Some(MaxEnd(evs))
  {
    var init := evs[..|evs| - 1];
    if init != [] {
      CursorIsMaxEnd(init);
    }
  }

  lemma {:induction false} RunExtends(evs: seq<Interval>, more: seq<Interval>)
    ensures Run(evs).merged <= Run(evs + more).merged
    decreases |more|
  {
    if more == [] {
      assert evs + more == evs;
    } else {
      var init := more[..|more| - 1];
      RunExtends(evs, init);
      assert evs + more == (evs + init) + [more[|more| - 1]];
      RunUnfold(evs + init, more[|more| - 1]);
    }
  }

  /**
   * An event that starts at or before the cursor (touching it included) pushes
   * nothing; it can only move the cursor forward.
   */
  lemma {:induction false} AbsorbedEventPushesNothing(evs: seq<Interval>, x: Interval)
    requires Run(evs).currentEnd.Some? && x.start <= Run(evs).currentEnd.value
    ensures Run(evs + [x]).merged == Run(evs).merged
    ensures Run(evs + [x]).currentEnd.value == if x.end > Run(evs).currentEnd.value then x.end else Run(evs).currentEnd.value
  {
    RunUnfold(evs, x);
  }

  /** For a non-empty list there is exactly one more occupied slot than free slots. */
  lemma {:induction false} OccupiedOneMoreThanFree(evs: seq<Interval>)
    requires evs != []
    ensures CountKind(Run(evs).merged, Occupied) == CountKind(Run(evs).merged, Free) + 1
  {
    var init := evs[..|evs| - 1];
    var x := evs[|evs| - 1];
    var st := Run(init);
    RunCursorSet(init);
    if init != [] {
      OccupiedOneMoreThanFree(init);
    }
    if st.currentEnd.None? || x.start > st.currentEnd.value {
      var free := if st.currentEnd.Some? then [Slot(Free, st.currentEnd.value, x.start)] else [];
      CountKindAppend(st.merged + free, [OccupiedSlot(x)], Occupied);
      CountKindAppend(st.merged + free, [OccupiedSlot(x)], Free);
      CountKindAppend(st.merged, free, Occupied);
      CountKindAppend(st.merged, free, Free);
      assert CountKind([OccupiedSlot(x)], Occupied) == 1;
      assert CountKind([OccupiedSlot(x)], Free) == 0;
      if st.currentEnd.Some? {
        assert CountKind(free, Free) == 1;
        assert CountKind(free, Occupied) == 0;
      }
    }
  }

  /** Each occupied slot is the interval of one of the events, unchanged. */
  lemma {:induction false} OccupiedSlotsAreEvents(evs: seq<Interval>)
    ensures forall i :: 0 <= i < |Run(evs).merged| && Run(evs).merged[i].kind == Occupied ==>
              exists j :: 0 <= j < |evs| && Run(evs).merged[i] == OccupiedSlot(evs[j])
  {
    if evs != [] {
      var init := evs[..|evs| - 1];
      OccupiedSlotsAreEvents(init);
      var m := Run(evs).merged;
      forall i | 0 <= i < |m| && m[i].kind == Occupied
        ensures exists j :: 0 <= j < |evs| && m[i] == OccupiedSlot(evs[j])
      {
        if i < |Run(init).merged| {
          var j :| 0 <= j < |init| && Run(init).merged[i] == OccupiedSlot(init[j]);
          assert evs[j] == init[j];
        } else {
          assert m[i] == OccupiedSlot(evs[|evs| - 1]);
        }
      }
    }
  }

  /** No event of `evs` overlaps a free slot of `merged`. */
  predicate FreeSlotsClear(evs: seq<Interval>, merged: seq<Slot>) {
    forall ev, i :: ev in evs && 0 <= i < |merged| && merged[i].kind == Free ==> !OverlapsSlot(ev, merged[i])
  }

  /** Every free slot of `merged` ends at or before `bound`. */
  predicate FreeSlotsEndBy(merged: seq<Slot>, bound: Instant) {
    forall i :: 0 <= i < |merged| && merged[i].kind == Free ==> merged[i].endTime <= bound
  }

  lemma FreeSlotsClearStep(st: ScanState, init: seq<Interval>, x: Interval)
    requires FreeSlotsClear(init, st.merged) && FreeSlotsEndBy(st.merged, x.start)
    requires x.start <= x.end
    requires st.currentEnd.Some? ==> forall ev :: ev in init ==> ev.end <= st.currentEnd.value
    ensures FreeSlotsClear(init + [x], Step(st, x).merged)
    ensures FreeSlotsEndBy(Step(st, x).merged, x.start)
  {
    var m := Step(st, x).merged;
    forall ev, i | ev in init + [x] && 0 <= i < |m| && m[i].kind == Free
      ensures !OverlapsSlot(ev, m[i])
    {
      if i < |st.merged| {
        assert m[i] == st.merged[i];
      }
    }
  }

  lemma PrefixFacts(evs: seq<Interval>)
    requires SortedByStart(evs) && WellFormed(evs) && evs != []
    ensures evs == evs[..|evs| - 1] + [evs[|evs| - 1]]
    ensures SortedByStart(evs[..|evs| - 1]) && WellFormed(evs[..|evs| - 1])
    ensures evs[|evs| - 1].start <= evs[|evs| - 1].end
    ensures |evs| > 1 ==> evs[|evs| - 2].start <= evs[|evs| - 1].start
  {
  }

  /** With well-formed events no event ends after the cursor. */
  lemma CursorBound(evs: seq<Interval>)
    requires WellFormed(evs)
    ensures Run(evs).currentEnd.Some? ==> forall ev :: ev in evs ==> ev.end <= Run(evs).currentEnd.value
  {
    if evs != [] {
      CursorIsMaxEnd(evs);
      MaxEndBounds(evs);
    }
  }

  lemma EndByWeaken(merged: seq<Slot>, bound: Instant, bound': Instant)
    requires FreeSlotsEndBy(merged, bound) && bound <= bound'
    ensures FreeSlotsEndBy(merged, bound')
  {
  }

  /** The invariant behind `FreeSlotsAvoidEvents`. */
  lemma {:induction false} FreeSlotsClearInvariant(evs: seq<Interval>)
    requires SortedByStart(evs) && WellFormed(evs)
    ensures FreeSlotsClear(evs, Run(evs).merged)
    ensures evs != [] ==> FreeSlotsEndBy(Run(evs).merged, evs[|evs| - 1].start)
  {
    if evs != [] {
      var init := evs[..|evs| - 1];
      var x := evs[|evs| - 1];
      PrefixFacts(evs);
      FreeSlotsClearInvariant(init);
      CursorBound(init);
      RunCursorSet(init);
      if init != [] {
        EndByWeaken(Run(init).merged, init[|init| - 1].start, x.start);
      }
      FreeSlotsClearStep(Run(init), init, x);
    }
  }

  /** With sorted, well-formed events, no event overlaps any free slot. */
  lemma FreeSlotsAvoidEvents(evs: seq<Interval>)
    requires SortedByStart(evs) && WellFormed(evs)
    ensures forall i, k :: 0 <= i < |Run(evs).merged| && 0 <= k < |evs| && Run(evs).merged[i].kind == Free ==>
              !OverlapsSlot(evs[k], Run(evs).merged[i])
  {
    FreeSlotsClearInvariant(evs);
    forall i, k | 0 <= i < |Run(evs).merged| && 0 <= k < |evs| && Run(evs).merged[i].kind == Free
      ensures !OverlapsSlot(evs[k], Run(evs).merged[i])
    {
      assert evs[k] in evs;
    }
  }

  // ---------------------------------------------------------------------------
  // The gap left by an absorbed event, and the widening scan that closes it
  // ---------------------------------------------------------------------------

  /** Some occupied slot of `merged` contains the interval `ev`. */
  predicate Covered(ev: Interval, merged: seq<Slot>) {
    exists i :: 0 <= i < |merged| && merged[i].kind == Occupied &&
      merged[i].startTime <= ev.start && ev.end <= merged[i].endTime
  }

  /**
   * 9:00-10:00, 9:30-11:00 and 13:00-14:00 (minutes of the day): the second
   * event only moves the cursor, so 10:00-11:00 is neither occupied nor free.
   */
  lemma MergeGapCounterexample()
    ensures Run([Interval(540, 600), Interval(570, 660), Interval(780, 840)]).merged ==
            [Slot(Occupied, 540, 600), Slot(Free, 660, 780), Slot(Occupied, 780, 840)]
    ensures !Covered(Interval(570, 660), Run([Interval(540, 600), Interval(570, 660), Interval(780, 840)]).merged)
  {
    var evs := [Interval(540, 600), Interval(570, 660), Interval(780, 840)];
    assert evs[..2] == [Interval(540, 600), Interval(570, 660)];
    assert evs[..2][..1] == [Interval(540, 600)];
    assert [Interval(540, 600)][..0] == [];
    assert Run(evs[..1]).merged == [Slot(Occupied, 540, 600)];
    assert Run(evs[..2]) == ScanState([Slot(Occupied, 540, 600)], Some(660));
    var m := Run(evs).merged;
    assert m == [Slot(Occupied, 540, 600), Slot(Free, 660, 780), Slot(Occupied, 780, 840)];
  }

  /** One step of the scan that widens the open occupied slot instead of leaving it as pushed. */
  function StepWidened(st: ScanState, ev: Interval): (r: ScanState)
    ensures |r.merged| <= |st.merged| + 2
    ensures st.currentEnd.None? ==> |r.merged| == |st.merged| + 1
    ensures r.currentEnd.Some?
    ensures st.currentEnd.Some? && ev.start <= ev.end ==> st.currentEnd.value <= r.currentEnd.value
  {
    if st.currentEnd.None? || ev.start > st.currentEnd.value || st.merged == [] then Step(st, ev)
    else if ev.end > st.currentEnd.value then
      var last := st.merged[|st.merged| - 1];
      ScanState(st.merged[..|st.merged| - 1] + [Slot(last.kind, last.startTime, ev.end)], Some(ev.end))
    else
      st
  }

  /** The widening scan over a whole list: fewer than two slots per event as well. */
  function RunWidened(evs: seq<Interval>): (r: ScanState)
    ensures evs == [] ==> r == ScanState([], None)
    ensures evs != [] ==> r.currentEnd.Some? && |r.merged| < 2 * |evs|
  {
    if evs == [] then ScanState([], None) else StepWidened(RunWidened(evs[..|evs| - 1]), evs[|evs| - 1])
  }

  /** Consecutive slots meet: each ends where the next begins. */
  predicate Contiguous(merged: seq<Slot>) {
    forall i :: 0 <= i < |merged| - 1 ==> merged[i].endTime == merged[i + 1].startTime
  }

  /** The invariant of the widening scan over a sorted, well-formed prefix. */
  predicate WidenedInvariant(evs: seq<Interval>, st: ScanState) {
    && (evs == [] <==> st.merged == [])
    && (evs == [] <==> st.currentEnd.None?)
    && (evs != [] ==>
          var last := st.merged[|st.merged| - 1];
          && last.kind == Occupied
          && last.endTime == st.currentEnd.value
          && last.startTime <= evs[|evs| - 1].start)
    && Contiguous(st.merged)
    && (forall ev :: ev in evs ==> Covered(ev, st.merged))
  }

  lemma WidenedStepKeepsInvariant(init: seq<Interval>, st: ScanState, x: Interval)
    requires WidenedInvariant(init, st)
    requires x.start <= x.end
    requires init != [] ==> init[|init| - 1].start <= x.start
    ensures WidenedInvariant(init + [x], StepWidened(st, x))
  {
    var st' := StepWidened(st, x);
    var m, m' := st.merged, st'.merged;
    var evs := init + [x];
    forall ev | ev in evs ensures Covered(ev, m') {
      if ev in init {
        var i :| 0 <= i < |m| && m[i].kind == Occupied && m[i].startTime <= ev.start && ev.end <= m[i].endTime;
        assert m'[i].kind == Occupied && m'[i].startTime == m[i].startTime && m[i].endTime <= m'[i].endTime;
      } else {
        assert ev == x;
        if st.currentEnd.None? || x.start > st.currentEnd.value {
          assert m'[|m'| - 1] == OccupiedSlot(x);
        } else {
          assert m'[|m| - 1].kind == Occupied && m'[|m| - 1].startTime <= x.start;
        }
      }
    }
    assert Contiguous(m') by {
      if st.currentEnd.Some? && x.start <= st.currentEnd.value {
        forall i | 0 <= i < |m'| - 1 ensures m'[i].endTime == m'[i + 1].startTime {
          assert m'[i] == m[i];
        }
      }
    }
  }

  lemma {:induction false} WidenedInvariantHolds(evs: seq<Interval>)
    requires SortedByStart(evs) && WellFormed(evs)
    ensures WidenedInvariant(evs, RunWidened(evs))
  {
    if evs != [] {
      var init := evs[..|evs| - 1];
      PrefixFacts(evs);
      WidenedInvariantHolds(init);
      WidenedStepKeepsInvariant(init, RunWidened(init), evs[|evs| - 1]);
    }
  }

  /**
   * The widening scan over sorted, well-formed events gives a contiguous
   * timeline in which every event lies inside an occupied slot.
   */
  lemma WidenedMergeCoversEvents(evs: seq<Interval>)
    requires SortedByStart(evs) && WellFormed(evs)
    ensures Contiguous(RunWidened(evs).merged)
    ensures forall k :: 0 <= k < |evs| ==> Covered(evs[k], RunWidened(evs).merged)
  {
    WidenedInvariantHolds(evs);
    forall k | 0 <= k < |evs| ensures Covered(evs[k], RunWidened(evs).merged) {
      assert evs[k] in evs;
    }
  }

  // ---------------------------------------------------------------------------
  // The handler's computation
  // ---------------------------------------------------------------------------

  /** `a[..i]` is sorted by start except possibly at position `j`, which is no later than what follows it. */
  predicate SortedExceptAt(s: seq<Interval>, i: nat, j: nat)
    requires j <= i < |s|
  {
    && (forall k, l :: 0 <= k < l <= i && k != j && l != j ==> s[k].start <= s[l].start)
    && (forall l :: j < l <= i ==> s[j].start <= s[l].start)
  }

  /** Swapping the out-of-place element with its left neighbour moves the exception one step left. */
  lemma SwapKeepsSortedExcept(s: seq<Interval>, i: nat, j: nat)
    requires 0 < j <= i < |s| && SortedExceptAt(s, i, j) && s[j - 1].start > s[j].start
    ensures SortedExceptAt(s[j - 1 := s[j]][j := s[j - 1]], i, j - 1)
  {
  }

  /** Once the out-of-place element is no earlier than its left neighbour, the prefix is sorted. */
  lemma SortedExceptAtDone(s: seq<Interval>, i: nat, j: nat)
    requires j <= i < |s| && SortedExceptAt(s, i, j) && (j == 0 || s[j - 1].start <= s[j].start)
    ensures SortedByStart(s[..i + 1])
  {
    var p := s[..i + 1];
    forall k, l | 0 <= k < l < |p| ensures p[k].start <= p[l].start {
      if k == j || l != j {
      } else if k < j - 1 {
        assert s[k].start <= s[j - 1].start;
      }
    }
  }

  /** One pass of the insertion sort: moves `a[i]` left past every element that starts later. */
  method InsertAt(a: array<Interval>, i: nat)
    requires i < a.Length && SortedByStart(a[..i])
    modifies a
    ensures SortedByStart(a[..i + 1])
    ensures multiset(a[..]) == old(multiset(a[..]))
  {
    var j := i;
    while j > 0 && a[j - 1].start > a[j].start
      invariant 0 <= j <= i
      invariant SortedExceptAt(a[..], i, j)
      invariant multiset(a[..]) == old(multiset(a[..]))
    {
      ghost var s := a[..];
      SwapKeepsSortedExcept(s, i, j);
      a[j - 1], a[j] := a[j], a[j - 1];
      assert a[..] == s[j - 1 := s[j]][j := s[j - 1]];
      j := j - 1;
    }
    SortedExceptAtDone(a[..], i, j);
  }

  /** `allEvents.sort((a, b) => a.startTime - b.startTime)`, as an insertion sort in place. */
  method SortByStart(a: array<Interval>)
    modifies a
    ensures SortedByStart(a[..])
    ensures multiset(a[..]) == old(multiset(a[..]))
  {
    var i := 0;
    while i < a.Length
      invariant 0 <= i <= a.Length
      invariant SortedByStart(a[..i])
      invariant multiset(a[..]) == old(multiset(a[..]))
    {
      InsertAt(a, i);
      i := i + 1;
    }
    assert a[..] == a[..a.Length];
  }

  /** A permutation has the same elements. */
  lemma SameElements(s: seq<Interval>, t: seq<Interval>)
    requires multiset(s) == multiset(t)
    ensures forall x :: x in s <==> x in t
  {
    forall x ensures x in s <==> x in t {
      assert x in s <==> x in multiset(s);
      assert x in t <==> x in multiset(t);
    }
  }

  /** The properties of the calendar that the handler's scan over `sorted` produces. */
  lemma SortedScanProperties(teamEvents: seq<Event>, sorted: seq<Interval>)
    requires multiset(sorted) == multiset(Intervals(teamEvents)) && SortedByStart(sorted)
    ensures teamEvents == [] <==> Run(sorted).merged == []
    ensures teamEvents != [] ==> Run(sorted).merged[0].kind == Occupied
    ensures forall i :: 0 <= i < |Run(sorted).merged| && Run(sorted).merged[i].kind == Free ==>
              Run(sorted).merged[i].startTime < Run(sorted).merged[i].endTime
    ensures teamEvents != [] ==> CountKind(Run(sorted).merged, Occupied) == CountKind(Run(sorted).merged, Free) + 1
    ensures forall i :: 0 <= i < |Run(sorted).merged| && Run(sorted).merged[i].kind == Occupied ==>
              exists k :: 0 <= k < |teamEvents| && Run(sorted).merged[i] == Slot(Occupied, teamEvents[k].startTime, teamEvents[k].endTime)
    ensures WellFormed(Intervals(teamEvents)) ==>
              forall i, k :: 0 <= i < |Run(sorted).merged| && 0 <= k < |teamEvents| && Run(sorted).merged[i].kind == Free ==>
                !OverlapsSlot(Interval(teamEvents[k].startTime, teamEvents[k].endTime), Run(sorted).merged[i])
  {
    var source := Intervals(teamEvents);
    var m := Run(sorted).merged;
    SameElements(sorted, source);
    assert |sorted| == |source| by {
      assert |multiset(sorted)| == |multiset(source)|;
    }
    RunCursorSet(sorted);
    if sorted != [] {
      FirstSlotOccupied(sorted);
      OccupiedOneMoreThanFree(sorted);
    }
    FreeSlotsPositive(sorted);
    OccupiedSlotsAreEvents(sorted);
    forall i | 0 <= i < |m| && m[i].kind == Occupied
      ensures exists k :: 0 <= k < |teamEvents| && m[i] == Slot(Occupied, teamEvents[k].startTime, teamEvents[k].endTime)
    {
      var j :| 0 <= j < |sorted| && m[i] == OccupiedSlot(sorted[j]);
      assert sorted[j] in source;
      var k :| 0 <= k < |source| && source[k] == sorted[j];
    }
    if WellFormed(source) {
      assert WellFormed(sorted) by {
        forall i | 0 <= i < |sorted| ensures sorted[i].start <= sorted[i].end {
          assert sorted[i] in source;
        }
      }
      FreeSlotsClearInvariant(sorted);
      forall i, k | 0 <= i < |m| && 0 <= k < |teamEvents| && m[i].kind == Free
        ensures !OverlapsSlot(Interval(teamEvents[k].startTime, teamEvents[k].endTime), m[i])
      {
        assert source[k] in sorted;
      }
    }
  }

  /** The `forEach` of lines 18-23: a fresh array holding each event's interval, in order. */
  method CopyIntervals(teamEvents: seq<Event>) returns (allEvents: array<Interval>)
    ensures fresh(allEvents)
    ensures allEvents[..] == Intervals(teamEvents)
  {
    allEvents := new Interval[|teamEvents|];
    for i := 0 to |teamEvents|
      invariant forall k :: 0 <= k < i ==> allEvents[k] == Interval(teamEvents[k].startTime, teamEvents[k].endTime)
    {
      allEvents[i] := Interval(teamEvents[i].startTime, teamEvents[i].endTime);
    }
  }

  /** The `forEach` of lines 32-52 over the sorted array: its result is the fold `Run`. */
  method Scan(allEvents: array<Interval>) returns (mergedCalendar: seq<Slot>)
    ensures mergedCalendar == Run(allEvents[..]).merged
  {
    mergedCalendar := [];
    var currentEnd: Option<Instant> := None;
    var j := 0;
    while j < allEvents.Length
      invariant 0 <= j <= allEvents.Length
      invariant ScanState(mergedCalendar, currentEnd) == Run(allEvents[..j])
    {
      var ev := allEvents[j];
      if currentEnd.None? || ev.start > currentEnd.value {
        if currentEnd.Some? {
          mergedCalendar := mergedCalendar + [Slot(Free, currentEnd.value, ev.start)];
        }
        mergedCalendar := mergedCalendar + [OccupiedSlot(ev)];
        currentEnd := Some(ev.end);
      } else if ev.end > currentEnd.value {
        currentEnd := Some(ev.end);
      }
      assert allEvents[..j + 1] == allEvents[..j] + [ev];
      RunUnfold(allEvents[..j], ev);
      j := j + 1;
    }
    assert allEvents[..j] == allEvents[..];
  }

  /**
   * mergeTeamCalendars without the database: `sorted` is the order the scan
   * used (a sorted permutation of the events' intervals).
   */
  method MergeTeamCalendars(teamEvents: seq<Event>) returns (mergedCalendar: seq<Slot>, ghost sorted: seq<Interval>)
    ensures multiset(sorted) == multiset(Intervals(teamEvents)) && SortedByStart(sorted)
    ensures mergedCalendar == Run(sorted).merged
    ensures teamEvents == [] <==> mergedCalendar == []
    ensures teamEvents != [] ==> mergedCalendar[0].kind == Occupied
    ensures forall i :: 0 <= i < |mergedCalendar| && mergedCalendar[i].kind == Free ==>
              mergedCalendar[i].startTime < mergedCalendar[i].endTime
    ensures teamEvents != [] ==> CountKind(mergedCalendar, Occupied) == CountKind(mergedCalendar, Free) + 1
    ensures forall i :: 0 <= i < |mergedCalendar| && mergedCalendar[i].kind == Occupied ==>
              exists k :: 0 <= k < |teamEvents| && mergedCalendar[i] == Slot(Occupied, teamEvents[k].startTime, teamEvents[k].endTime)
    ensures WellFormed(Intervals(teamEvents)) ==>
              forall i, k :: 0 <= i < |mergedCalendar| && 0 <= k < |teamEvents| && mergedCalendar[i].kind == Free ==>
                !OverlapsSlot(Interval(teamEvents[k].startTime, teamEvents[k].endTime), mergedCalendar[i])
  {
    var allEvents := CopyIntervals(teamEvents);
    SortByStart(allEvents);
    sorted := allEvents[..];
    mergedCalendar := Scan(allEvents);
    SortedScanProperties(teamEvents, sorted);
  }
}
