/** `makeActiveStage(deactivate, schedule)`: wraps a piece's schedule and
    deactivate callbacks so that every scheduled piece can be ended, and is
    ended when the stage is deactivated.

    The closures' shared state (`isDeactivated`, the `endFns` array and one
    `isEnded` flag per wrapped end) is a `Stage` value, and each wrapper is a
    function from the state before the call to the state after it. Wrapped
    ends are named by the number of the schedule call that made them. The
    calls that reach the underlying callbacks are recorded in `log`. */
module Stage {
  import opened Results
  import opened Seqs

  datatype Event =
    | RescheduleWarning       // `console.warn` while ends are still tracked
    | ScheduleCalled          // the underlying `schedule()`
    | EndCalled(id: nat)      // the underlying `end()` of wrapped end `id`
    | DeactivateCalled        // the underlying `deactivate()`

  datatype Stage = Stage(
    deactivated: bool,
    endFns: seq<nat>,   // the wrapped ends still tracked, in push order
    ended: set<nat>,    // the wrapped ends whose `isEnded` flag is set
    issued: nat,        // wrapped ends made so far
    log: seq<Event>)

  /** What `wrappedSchedule` hands back: `noop`, or a wrapped end. */
  datatype Handle = Noop | Wrapped(id: nat)

  datatype StageError = ScheduleAfterDeactivation

  datatype Scheduled = Scheduled(stage: Stage, handle: Handle)

  function Initial(): Stage {
    Stage(false, [], {}, 0, [])
  }

  /** `xs.splice(start, 1)`: a negative start counts from the end, and a
      start past the end removes nothing. */
  function Splice(xs: seq<nat>, start: int): (r: seq<nat>)
    ensures 0 <= start < |xs| ==> r == xs[..start] + xs[start + 1..]
    ensures start == -1 && |xs| > 0 ==> r == xs[..|xs| - 1]
    ensures start >= |xs| ==> r == xs
    ensures 0 <= start < |xs| ==> multiset(r) == multiset(xs) - multiset{xs[start]}
  {
    var from := if start >= 0 then start else if |xs| + start >= 0 then |xs| + start else 0;
    if from >= |xs| then xs
    else
      assert xs == xs[..from] + [xs[from]] + xs[from + 1..];
      xs[..from] + xs[from + 1..]
  }

  /** `wrappedSchedule()`. `returnsEnd` says whether the underlying
      `schedule()` returned a function. */
  function Schedule(st: Stage, returnsEnd: bool): (r: Result<Scheduled, StageError>)
    ensures r.Failure? <==> st.deactivated
    ensures r.Success? ==> (r.value.handle.Noop? <==> !returnsEnd)
    ensures r.Success? && r.value.handle.Noop? ==> r.value.stage.endFns == st.endFns
    ensures r.Success? && r.value.handle.Wrapped? ==>
      && r.value.handle.id == st.issued
      && r.value.stage.issued == st.issued + 1
      && r.value.stage.endFns == st.endFns + [r.value.handle.id]
    ensures r.Success? ==> st.log <= r.value.stage.log
    ensures r.Success? && st.log <= r.value.stage.log ==>
      (RescheduleWarning in r.value.stage.log[|st.log|..] <==> |st.endFns| > 0)
    ensures r.Success? ==>
      && r.value.stage.deactivated == st.deactivated
      && r.value.stage.ended == st.ended
      && r.value.stage.log == st.log + (if |st.endFns| > 0 then [RescheduleWarning] else []) + [ScheduleCalled]
    ensures r.Success? && r.value.handle.Noop? ==> r.value.stage.issued == st.issued
  {
    if st.deactivated then Failure(ScheduleAfterDeactivation)
    else
      var warned := if |st.endFns| > 0 then [RescheduleWarning] else [];
      var log := st.log + warned + [ScheduleCalled];
      assert log[|st.log|..] == warned + [ScheduleCalled];
      if !returnsEnd then Success(Scheduled(st.(log := log), Noop))
      else
        var id := st.issued;
        Success(Scheduled(st.(endFns := st.endFns + [id], issued := id + 1, log := log), Wrapped(id)))
  }

  /** Calling wrapped end `id`: the first call sets its flag, splices it out
      of `endFns` and calls the underlying end; later calls do nothing. */
  function End(st: Stage, id: nat): (r: Stage)
    ensures r.deactivated == st.deactivated && r.issued == st.issued
    ensures r.ended == st.ended + {id}
    ensures id in st.ended ==> r == st
    ensures id !in st.ended ==> r.log == st.log + [EndCalled(id)]
    ensures id !in st.ended && id in st.endFns ==>
      multiset(r.endFns) == multiset(st.endFns) - multiset{id}
    ensures id !in st.ended && id !in st.endFns && |st.endFns| > 0 ==>
      r.endFns == st.endFns[..|st.endFns| - 1]
  {
    if id in st.ended then st
    else
      st.(ended := st.ended + {id},
          endFns := Splice(st.endFns, Position(st.endFns, id)),
          log := st.log + [EndCalled(id)])
  }

  /** Calling a handle returned by `Schedule`: `noop` does nothing, and a
      wrapped end is marked ended. */
  function Call(st: Stage, h: Handle): (r: Stage)
    ensures r.deactivated == st.deactivated && r.issued == st.issued
    ensures r.ended == st.ended + (if h.Wrapped? then {h.id} else {})
    ensures h.Noop? ==> r == st
  {
    match h
    case Noop => st
    case Wrapped(id) => End(st, id)
  }

  /** `endFns.forEach(end => end())` from index `k` on, where `len` is the
      length the array had when the loop began: each step reads the array as
      it is now, and skips an index the array no longer reaches. Ends only
      add to the ended set and the log. */
  function ForEachEnd(st: Stage, k: nat, len: nat): (r: Stage)
    ensures r.deactivated == st.deactivated && r.issued == st.issued
    ensures st.ended <= r.ended && st.log <= r.log
    decreases len - k
  {
    if k >= len then st
    else if k < |st.endFns| then ForEachEnd(End(st, st.endFns[k]), k + 1, len)
    else ForEachEnd(st, k + 1, len)
  }

  /** `wrappedDeactivate()` as written: a second call does nothing; the
      first sets the flag, runs the loop and then calls the underlying
      deactivate. */
  function Deactivate(st: Stage): (r: Stage)
    ensures r.deactivated && r.issued == st.issued && st.ended <= r.ended
    ensures st.deactivated ==> r == st
    ensures !st.deactivated ==> st.log < r.log && r.log[|r.log| - 1] == DeactivateCalled
  {
    if st.deactivated then st
    else
      var ending := ForEachEnd(st.(deactivated := true), 0, |st.endFns|);
      ending.(log := ending.log + [DeactivateCalled])
  }

  /** Calls the ends in `ids`, one after another. */
  function EndEach(st: Stage, ids: seq<nat>): (r: Stage)
    ensures r.deactivated == st.deactivated && r.issued == st.issued
    ensures st.ended + SetOf(ids) == r.ended && st.log <= r.log
    decreases |ids|
  {
    if |ids| == 0 then st
    else
      assert SetOf(ids) == {ids[0]} + SetOf(ids[1..]);
      EndEach(End(st, ids[0]), ids[1..])
  }

  /** `wrappedDeactivate()` ending a copy of `endFns` taken before the loop,
      so that the ends' splicing cannot hide any of them. */
  function DeactivateAll(st: Stage): (r: Stage)
    ensures r.deactivated && r.issued == st.issued && st.ended <= r.ended
    ensures st.deactivated ==> r == st
    ensures !st.deactivated ==> r.ended == st.ended + SetOf(st.endFns)
    ensures !st.deactivated ==> st.log < r.log && r.log[|r.log| - 1] == DeactivateCalled
  {
    if st.deactivated then st
    else
      var ending := EndEach(st.(deactivated := true), st.endFns);
      ending.(log := ending.log + [DeactivateCalled])
  }

  function Count(log: seq<Event>, e: Event): nat {
    multiset(log)[e]
  }

  /** `endFns` holds no end twice and no end that has already run. */
  ghost predicate Tracked(st: Stage) {
    && (forall i :: 0 <= i < |st.endFns| ==> st.endFns[i] !in st.ended)
    && (forall i, j :: 0 <= i < j < |st.endFns| ==> st.endFns[i] != st.endFns[j])
  }

  /** The invariant of the tracked ends: `endFns` holds, once each, exactly
      the wrapped ends made and not yet ended, and each underlying end has
      been called once if its wrapped end is ended and never otherwise. */
  ghost predicate EndsValid(st: Stage) {
    && Tracked(st)
    && (forall i :: 0 <= i < |st.endFns| ==> st.endFns[i] < st.issued)
    && (forall id :: id in st.ended ==> id < st.issued)
    && (forall id: nat :: id < st.issued ==> id in st.ended || id in st.endFns)
    && (forall id: nat :: Count(st.log, EndCalled(id)) == if id in st.ended then 1 else 0)
  }

  /** The whole invariant: the underlying deactivate has been called once if
      the stage is deactivated and never otherwise. */
  ghost predicate Valid(st: Stage) {
    && EndsValid(st)
    && Count(st.log, DeactivateCalled) == if st.deactivated then 1 else 0
  }

  lemma InitialValid()
    ensures Valid(Initial())
  {
  }

  lemma CountAppend(log: seq<Event>, e: Event, f: Event)
    ensures Count(log + [e], f) == Count(log, f) + if e == f then 1 else 0
  {
    assert multiset(log + [e]) == multiset(log) + multiset{e};
  }

  /** The events `wrappedSchedule` records are neither ends nor deactivations. */
  lemma ScheduleLog(log: seq<Event>, warn: bool)
    ensures var next := log + (if warn then [RescheduleWarning] else []) + [ScheduleCalled];
            && (forall id: nat :: Count(next, EndCalled(id)) == Count(log, EndCalled(id)))
            && Count(next, DeactivateCalled) == Count(log, DeactivateCalled)
  {
    var warned := log + (if warn then [RescheduleWarning] else []);
    forall e: Event | e != RescheduleWarning && e != ScheduleCalled
      ensures Count(warned + [ScheduleCalled], e) == Count(log, e)
    {
      CountAppend(warned, ScheduleCalled, e);
      if warn {
        CountAppend(log, RescheduleWarning, e);
      } else {
        assert warned == log;
      }
    }
  }

  /** Pushing a newly made end onto `endFns` keeps it tracked. */
  lemma PushFresh(endFns: seq<nat>, ended: set<nat>, id: nat)
    requires forall i :: 0 <= i < |endFns| ==> endFns[i] < id && endFns[i] !in ended
    requires forall i, j :: 0 <= i < j < |endFns| ==> endFns[i] != endFns[j]
    requires forall x :: x in ended ==> x < id
    requires forall x: nat :: x < id ==> x in ended || x in endFns
    ensures var xs := endFns + [id];
            && (forall i :: 0 <= i < |xs| ==> xs[i] < id + 1 && xs[i] !in ended)
            && (forall i, j :: 0 <= i < j < |xs| ==> xs[i] != xs[j])
            && (forall x: nat :: x < id + 1 ==> x in ended || x in xs)
  {
    var xs := endFns + [id];
    assert xs[|endFns|] == id;
    forall x: nat | x < id + 1
      ensures x in ended || x in xs
    {
      if x < id && x !in ended {
        var i :| 0 <= i < |endFns| && endFns[i] == x;
        assert xs[i] == x;
      }
    }
  }

  /** Scheduling keeps the invariant. */
  lemma ScheduleValid(st: Stage, returnsEnd: bool)
    requires Valid(st)
    ensures Schedule(st, returnsEnd).Success? ==> Valid(Schedule(st, returnsEnd).value.stage)
  {
    if !st.deactivated {
      var log := st.log + (if |st.endFns| > 0 then [RescheduleWarning] else []) + [ScheduleCalled];
      ScheduleLog(st.log, |st.endFns| > 0);
      if returnsEnd {
        TrackNew(st, log);
        assert Schedule(st, returnsEnd).value.stage
               == st.(endFns := st.endFns + [st.issued], issued := st.issued + 1, log := log);
      } else {
        assert Valid(st.(log := log));
      }
    }
  }

  /** Tracking a newly made end, with a log that adds no end and no
      deactivation, keeps the invariant. */
  lemma TrackNew(st: Stage, log: seq<Event>)
    requires Valid(st)
    requires forall id: nat :: Count(log, EndCalled(id)) == Count(st.log, EndCalled(id))
    requires Count(log, DeactivateCalled) == Count(st.log, DeactivateCalled)
    ensures Valid(st.(endFns := st.endFns + [st.issued], issued := st.issued + 1, log := log))
  {
    PushFresh(st.endFns, st.ended, st.issued);
    var next := st.(endFns := st.endFns + [st.issued], issued := st.issued + 1, log := log);
    assert Tracked(next);
  }

  /** Removing the element at `p` from a list without repeats leaves the
      others, without repeats. */
  lemma SpliceDistinct(xs: seq<nat>, p: int)
    requires 0 <= p < |xs|
    requires forall i, j :: 0 <= i < j < |xs| ==> xs[i] != xs[j]
    ensures var r := Splice(xs, p);
            && (forall i, j :: 0 <= i < j < |r| ==> r[i] != r[j])
            && (forall x :: x in r <==> x in xs && x != xs[p])
  {
    var r := Splice(xs, p);
    assert forall i :: 0 <= i < |r| ==> r[i] == if i < p then xs[i] else xs[i + 1];
    forall x | x in xs && x != xs[p]
      ensures x in r
    {
      var i :| 0 <= i < |xs| && xs[i] == x;
      assert r[if i < p then i else i - 1] == x;
    }
  }

  /** A wrapped end made by this stage keeps the invariant: it is removed
      from `endFns`, its underlying end is called exactly once, and nothing
      else changes. */
  lemma {:induction false} EndValid(st: Stage, id: nat)
    requires EndsValid(st) && id < st.issued
    ensures var next := End(st, id);
            && EndsValid(next)
            && id !in next.endFns
            && id in next.ended
            && next.ended == st.ended + {id}
            && next.deactivated == st.deactivated
            && next.issued == st.issued
            && Count(next.log, DeactivateCalled) == Count(st.log, DeactivateCalled)
  {
    if id !in st.ended {
      var p := Position(st.endFns, id);
      SpliceDistinct(st.endFns, p);
      var next := End(st, id);
      forall e: Event
        ensures Count(next.log, e) == Count(st.log, e) + if e == EndCalled(id) then 1 else 0
      {
        CountAppend(st.log, EndCalled(id), e);
      }
      forall i | 0 <= i < |next.endFns|
        ensures next.endFns[i] < next.issued && next.endFns[i] !in next.ended
      {
        assert next.endFns[i] in st.endFns;
      }
    }
  }

  /** Each wrapped end acts once: a second call changes nothing. */
  lemma EndOnce(st: Stage, id: nat)
    ensures End(End(st, id), id) == End(st, id)
  {
  }

  /** A tracked end sits at its first position in `endFns`. */
  lemma PositionAfter(front: seq<nat>, rest: seq<nat>)
    requires |rest| > 0 && rest[0] !in front
    ensures Position(front + rest, rest[0]) == |front|
  {
    assert (front + rest)[|front|] == rest[0];
  }

  /** Ending the tracked end at index `|kept|` removes just that one. */
  lemma EndFirst(st: Stage, kept: seq<nat>, rest: seq<nat>)
    requires Tracked(st) && st.endFns == kept + rest && |rest| > 0
    ensures var next := End(st, rest[0]);
            && Tracked(next)
            && next.endFns == kept + rest[1..]
            && next.ended == st.ended + {rest[0]}
  {
    assert st.endFns[|kept|] == rest[0];
    forall i | 0 <= i < |kept|
      ensures kept[i] != rest[0]
    {
      assert st.endFns[i] == kept[i];
    }
    PositionAfter(kept, rest);
    SpliceDistinct(st.endFns, |kept|);
    var next := End(st, rest[0]);
    assert (kept + rest)[..|kept|] + (kept + rest)[|kept| + 1..] == kept + rest[1..];
    forall i | 0 <= i < |next.endFns|
      ensures next.endFns[i] !in next.ended
    {
      assert next.endFns[i] in st.endFns;
    }
  }

  /** The loop as written keeps the invariant of the tracked ends. */
  lemma {:induction false} ForEachValid(st: Stage, k: nat, len: nat)
    requires EndsValid(st)
    ensures var r := ForEachEnd(st, k, len);
            && EndsValid(r)
            && r.deactivated == st.deactivated
            && r.issued == st.issued
            && Count(r.log, DeactivateCalled) == Count(st.log, DeactivateCalled)
    decreases len - k
  {
    if k < len {
      if k < |st.endFns| {
        EndValid(st, st.endFns[k]);
        ForEachValid(End(st, st.endFns[k]), k + 1, len);
      } else {
        ForEachValid(st, k + 1, len);
      }
    }
  }

  /** Positions 0, 2, 4, … of a list, and positions 1, 3, 5, …. */
  function Evens(xs: seq<nat>): (r: seq<nat>)
    decreases |xs|
  {
    if |xs| == 0 then [] else [xs[0]] + Odds(xs[1..])
  }

  function Odds(xs: seq<nat>): (r: seq<nat>)
    decreases |xs|
  {
    if |xs| == 0 then [] else Evens(xs[1..])
  }

  function SetOf(xs: seq<nat>): set<nat> {
    set x | x in xs
  }

  lemma {:induction false} ForEachSkip(st: Stage, k: nat, len: nat)
    requires k >= |st.endFns|
    ensures ForEachEnd(st, k, len) == st
    decreases len - k
  {
    if k < len {
      ForEachSkip(st, k + 1, len);
    }
  }

  /** What the loop as written leaves in `endFns` and which ends it calls,
      on the list alone: calling the end at index `k` removes exactly that
      index. */
  function Survivors(xs: seq<nat>, k: nat, len: nat): seq<nat>
    decreases len - k
  {
    if k >= len then xs
    else if k < |xs| then Survivors(xs[..k] + xs[k + 1..], k + 1, len)
    else Survivors(xs, k + 1, len)
  }

  function Visited(xs: seq<nat>, k: nat, len: nat): seq<nat>
    decreases len - k
  {
    if k >= len then []
    else if k < |xs| then [xs[k]] + Visited(xs[..k] + xs[k + 1..], k + 1, len)
    else Visited(xs, k + 1, len)
  }

  lemma {:induction false} SurvivorsPast(xs: seq<nat>, k: nat, len: nat)
    requires k >= |xs|
    ensures Survivors(xs, k, len) == xs && Visited(xs, k, len) == []
    decreases len - k
  {
    if k < len {
      SurvivorsPast(xs, k + 1, len);
    }
  }

  /** Started with `kept + rest` and index `|kept|` at `rest[0]`: removing
      one element shifts the next one onto the index the loop moves past,
      so the elements of `rest` at even positions are called and those at
      odd positions survive. */
  lemma {:induction false} SurvivorsShape(kept: seq<nat>, rest: seq<nat>, len: nat)
    requires |kept| + |rest| <= len
    ensures Survivors(kept + rest, |kept|, len) == kept + Odds(rest)
    ensures Visited(kept + rest, |kept|, len) == Evens(rest)
    decreases |rest|
  {
    var xs := kept + rest;
    if |rest| == 0 {
      assert xs == kept;
      SurvivorsPast(xs, |kept|, len);
    } else {
      var after := xs[..|kept|] + xs[|kept| + 1..];
      assert xs[|kept|] == rest[0];
      assert after == kept + rest[1..];
      if |rest| == 1 {
        assert after == kept;
        SurvivorsPast(after, |kept| + 1, len);
      } else {
        var kept' := kept + [rest[1]];
        assert after == kept' + rest[2..];
        SurvivorsShape(kept', rest[2..], len);
        EvensOddsStep(rest);
        assert Evens(rest) == [rest[0]] + Evens(rest[2..]);
      }
    }
  }

  lemma EvensOddsStep(rest: seq<nat>)
    requires |rest| >= 2
    ensures Odds(rest) == [rest[1]] + Odds(rest[2..])
    ensures Evens(rest) == [rest[0]] + Evens(rest[2..])
  {
    assert rest[1..][1..] == rest[2..];
  }

  /** Calling the tracked end at index `k` removes exactly that index. */
  lemma EndAt(st: Stage, k: nat)
    requires Tracked(st) && k < |st.endFns|
    ensures var next := End(st, st.endFns[k]);
            && Tracked(next)
            && next.endFns == st.endFns[..k] + st.endFns[k + 1..]
            && next.ended == st.ended + {st.endFns[k]}
  {
    var kept := st.endFns[..k];
    var rest := st.endFns[k..];
    assert st.endFns == kept + rest;
    EndFirst(st, kept, rest);
    assert rest[1..] == st.endFns[k + 1..];
  }

  /** The loop as written acts on `endFns` as `Survivors` and `Visited` say. */
  lemma {:induction false} ForEachTracks(st: Stage, k: nat, len: nat)
    requires Tracked(st)
    ensures ForEachEnd(st, k, len).endFns == Survivors(st.endFns, k, len)
    ensures ForEachEnd(st, k, len).ended == st.ended + SetOf(Visited(st.endFns, k, len))
    decreases len - k
  {
    if k < len {
      if k < |st.endFns| {
        EndAt(st, k);
        var next := End(st, st.endFns[k]);
        ForEachTracks(next, k + 1, len);
        var seen := Visited(next.endFns, k + 1, len);
        assert SetOf([st.endFns[k]] + seen) == {st.endFns[k]} + SetOf(seen);
      } else {
        ForEachTracks(st, k + 1, len);
      }
    }
  }

  /** Deactivation as written ends only the tracked ends at even positions;
      those at odd positions stay tracked and are never called. */
  lemma DeactivateEndsEvens(st: Stage)
    requires Valid(st) && !st.deactivated
    ensures Valid(Deactivate(st))
    ensures Deactivate(st).endFns == Odds(st.endFns)
    ensures Deactivate(st).ended == st.ended + SetOf(Evens(st.endFns))
  {
    var start := st.(deactivated := true);
    ForEachTracks(start, 0, |st.endFns|);
    SurvivorsShape([], st.endFns, |st.endFns|);
    assert [] + st.endFns == st.endFns;
    ForEachValid(start, 0, |st.endFns|);
    var ending := ForEachEnd(start, 0, |st.endFns|);
    forall e: Event
      ensures Count(ending.log + [DeactivateCalled], e) == Count(ending.log, e) + if e == DeactivateCalled then 1 else 0
    {
      CountAppend(ending.log, DeactivateCalled, e);
    }
  }

  /** Two pieces scheduled with ends and then deactivated: the second
      piece's end is never called. */
  lemma DeactivateLeavesSecond()
    ensures var one := Schedule(Initial(), true).value.stage;
            var two := Schedule(one, true).value.stage;
            && two.endFns == [0, 1]
            && Deactivate(two).endFns == [1]
            && 1 !in Deactivate(two).ended
            && EndCalled(1) !in Deactivate(two).log
  {
    var two := ScheduleTwo();
    DeactivateTwo(two);
    LogWithoutSecond();
  }

  /** The log of that run holds no call of the second end. */
  lemma LogWithoutSecond()
    ensures EndCalled(1) !in [ScheduleCalled, RescheduleWarning, ScheduleCalled] + [EndCalled(0), DeactivateCalled]
  {
    var log := [ScheduleCalled, RescheduleWarning, ScheduleCalled] + [EndCalled(0), DeactivateCalled];
    assert log == [ScheduleCalled, RescheduleWarning, ScheduleCalled, EndCalled(0), DeactivateCalled];
  }

  /** The stage after two schedule calls whose pieces return ends. */
  lemma ScheduleTwo() returns (two: Stage)
    ensures two == Schedule(Schedule(Initial(), true).value.stage, true).value.stage
    ensures two == Stage(false, [0, 1], {}, 2, [ScheduleCalled, RescheduleWarning, ScheduleCalled])
  {
    var one := Schedule(Initial(), true).value.stage;
    assert one == Stage(false, [0], {}, 1, [ScheduleCalled]);
    two := Schedule(one, true).value.stage;
  }

  /** Deactivating a stage that tracks the ends 0 and 1 calls the first
      only. */
  lemma DeactivateTwo(st: Stage)
    requires !st.deactivated && st.endFns == [0, 1] && st.ended == {}
    ensures Deactivate(st).endFns == [1] && Deactivate(st).ended == {0}
    ensures Deactivate(st).log == st.log + [EndCalled(0)] + [DeactivateCalled]
  {
    LoopOverTwo(st.(deactivated := true));
  }

  /** The loop as written over the tracked ends 0 and 1 calls end 0 and
      then finds nothing at index 1. */
  lemma LoopOverTwo(st: Stage)
    requires st.endFns == [0, 1] && st.ended == {}
    ensures ForEachEnd(st, 0, 2) == st.(endFns := [1], ended := {0}, log := st.log + [EndCalled(0)])
  {
    EndFirstOfTwo(st);
    var after := End(st, 0);
    assert ForEachEnd(st, 0, 2) == ForEachEnd(after, 1, 2);
    assert ForEachEnd(after, 1, 2) == ForEachEnd(after, 2, 2);
  }

  /** Ending the first of the tracked ends 0 and 1 leaves the second. */
  lemma EndFirstOfTwo(st: Stage)
    requires st.endFns == [0, 1] && st.ended == {}
    ensures End(st, 0) == st.(endFns := [1], ended := {0}, log := st.log + [EndCalled(0)])
  {
    assert Position([0, 1], 0) == 0;
    assert Splice([0, 1], 0) == [1];
  }

  /** The corrected loop ends every tracked end, in order. */
  lemma {:induction false} EndEachAll(st: Stage, ids: seq<nat>)
    requires EndsValid(st) && st.endFns == ids
    ensures var r := EndEach(st, ids);
            && EndsValid(r)
            && r.endFns == []
            && Count(r.log, DeactivateCalled) == Count(st.log, DeactivateCalled)
    decreases |ids|
  {
    if |ids| > 0 {
      assert st.endFns[0] == ids[0];
      PositionAfter([], ids);
      assert [] + ids == ids;
      EndValid(st, ids[0]);
      var next := End(st, ids[0]);
      assert next.endFns == Splice(ids, 0) == ids[1..];
      EndEachAll(next, ids[1..]);
      assert EndEach(st, ids) == EndEach(next, ids[1..]);
    }
  }

  /** Corrected deactivation keeps the invariant, calls the underlying
      deactivate, and leaves no wrapped end un-ended. */
  lemma DeactivateAllEnds(st: Stage)
    requires Valid(st) && !st.deactivated
    ensures Valid(DeactivateAll(st))
    ensures DeactivateAll(st).endFns == []
    ensures forall id: nat :: id < st.issued ==> id in DeactivateAll(st).ended
    ensures Count(DeactivateAll(st).log, DeactivateCalled) == 1
  {
    var start := st.(deactivated := true);
    EndEachAll(start, st.endFns);
    var ending := EndEach(start, st.endFns);
    forall e: Event
      ensures Count(ending.log + [DeactivateCalled], e) == Count(ending.log, e) + if e == DeactivateCalled then 1 else 0
    {
      CountAppend(ending.log, DeactivateCalled, e);
    }
  }

  /** Deactivating twice is deactivating once, whichever loop is used. */
  lemma DeactivateIdempotent(st: Stage)
    ensures Deactivate(Deactivate(st)) == Deactivate(st)
    ensures DeactivateAll(DeactivateAll(st)) == DeactivateAll(st)
    ensures Deactivate(st).deactivated && DeactivateAll(st).deactivated
  {
  }

  /** Every operation keeps the invariant, so in every reachable state each
      underlying end and the underlying deactivate have been called at most
      once, and scheduling after deactivation fails. */
  lemma CallValid(st: Stage, h: Handle)
    requires Valid(st) && (h.Wrapped? ==> h.id < st.issued)
    ensures Valid(Call(st, h))
    ensures forall id: nat :: Count(Call(st, h).log, EndCalled(id)) <= 1
  {
    if h.Wrapped? {
      EndValid(st, h.id);
    }
  }
}
