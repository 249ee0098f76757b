/**
 When a blocked caller of `r_task` or `try_idle_task` gets its answer: exactly if no task ahead of it,
 its own included, ends in a panic that aborts the process. `crates/ark/src/r_task.rs`.
 */
module TaskReturns {
  import opened Prelude
  import opened RTask

  // ---------------------------------------------------------------- serving the task in hand

  lemma {:induction false} RunJoin(s: State, t: State, a: seq<Event>, b: seq<Event>)
    requires RunFrom(true, s, a) == Some(t)
    ensures RunFrom(true, s, a + b) == RunFrom(true, t, b)
    decreases |a|
  {
    if a == [] {
      assert a + b == b;
    } else {
      hide Step;
      assert (a + b)[1..] == a[1..] + b;
      RunJoin(Step(true, s, a[0]).value, t, a[1..], b);
    }
  }

  lemma RunOne(s: State, e: Event)
    requires Step(true, s, e).Some?
    ensures RunFrom(true, s, [e]) == Step(true, s, e)
  {
    hide Step;
    assert [e][1..] == [];
    assert RunFrom(true, Step(true, s, e).value, []) == Step(true, s, e);
  }

  function WorkEvents(n: nat): seq<Event> {
    if n == 0 then [] else [Work(0)] + WorkEvents(n - 1)
  }

  lemma {:induction false} WorksAsRun(s: State, n: nat)
    requires s.r.Running? && !s.aborted && Works(true, s, n).Some?
    ensures RunFrom(true, s, WorkEvents(n)) == Works(true, s, n)
    decreases n
  {
    if n > 0 {
      var t := WorkStep(true, s, 0).value;
      WorkInline(s);
      hide WorkStep;
      WorksAsRun(t, n - 1);
      assert WorkEvents(n)[1..] == WorkEvents(n - 1) && WorkEvents(n)[0] == Work(0);
      assert Step(true, s, Work(0)) == Some(t);
    }
  }

  /** Left alone, the R thread runs its task to the end, through all nested calls under way. */
  lemma {:induction false} RunToEnd(s: State) returns (n: nat)
    requires s.r.Running?
    ensures Works(true, s, n)
         == Some(s.(r := s.r.(focus := Ended(Unwind(s.r.stack, Expected(s.r.focus))), stack := [])))
    decreases |s.r.stack|, if s.r.focus.Code? then 1 else 0
  {
    hide Works;
    if s.r.focus.Code? {
      var m := NestedInline(s, s.r.focus.code, s.r.focus.env);
      var t := s.(r := s.r.(focus := Ended(Expected(s.r.focus))));
      n := RunToEnd(t);
      WorksThen(true, s, t, m, n);
      n := m + n;
    } else if s.r.stack == [] {
      n := 0;
      NoWork(s);
    } else {
      OneWork(true, s);
      var t := WorkStep(true, s, 0).value;
      n := RunToEnd(t);
      WorksThen(true, s, t, 1, n);
      n := 1 + n;
    }
  }

  lemma NoWork(s: State)
    ensures Works(true, s, 0) == Some(s)
  {
  }

  /** The answer is there to be collected. */
  predicate Ready(x: Entry) {
    x.caller.Released? || (x.caller.WaitDone? && x.signal)
  }

  /** `t` is `s` after the task of `hand` has been served: the R thread is idle, and all else is as before. */
  ghost predicate Served(s: State, t: State, hand: Id) {
    && Inv(true, t) && !t.aborted && t.r == Idle && t.queue == s.queue
    && (forall j :: j in s.calls <==> j in t.calls)
    && (forall j :: j in s.calls && j != hand ==> t.calls[j] == s.calls[j])
    && hand in s.calls && t.calls[hand].task == s.calls[hand].task && Ready(t.calls[hand])
  }

  lemma ServeEnding(s: State) returns (events: seq<Event>, t: State)
    requires Inv(true, s) && !s.aborted && s.r.SendingFinished?
    ensures RunFrom(true, s, events) == Some(t) && Served(s, t, s.r.id)
  {
    hide Unwind, Expected, ResultOf;
    GoodAt(true, s, s.r.id);
    FinishedKeeps(true, s, s.r.id, s.r.ok);
    RunOne(s, Finished);
    events, t := [Finished], Step(true, s, Finished).value;
  }

  lemma FinishOne(s: State, id: Id, idle: bool, o: Outcome) returns (t: State)
    requires Inv(true, s) && !s.aborted && s.r == Running(id, idle, Ended(o), [])
    requires id in s.calls && !Aborts(s.calls[id].task, idle)
    ensures Step(true, s, Finish) == Some(t) && Inv(true, t) && !t.aborted && t.queue == s.queue
    ensures forall j :: j in s.calls <==> j in t.calls
    ensures forall j :: j in s.calls && j != id ==> t.calls[j] == s.calls[j]
    ensures t.calls[id].task == s.calls[id].task
    ensures if idle then t.r == Idle && Ready(t.calls[id]) else t.r.SendingFinished? && t.r.id == id
  {
    assert o == ResultOf(s.calls[id].task);
    GoodAt(true, s, id);
    FinishKeeps(true, s, id, idle, o);
    hide Inv, ResultOf;
    t := FinishStep(s, id, idle, o);
  }

  lemma ServeRunning(s: State) returns (events: seq<Event>, t: State)
    requires Inv(true, s) && !s.aborted && s.r.Running?
    requires s.r.id in s.calls && !Aborts(s.calls[s.r.id].task, s.r.idle)
    ensures RunFrom(true, s, events) == Some(t) && Served(s, t, s.r.id)
  {
    var n := RunToEnd(s);
    var u := Works(true, s, n).value;
    WorksAsRun(s, n);
    hide Works, Step, Unwind, Expected, Aborts, Inv, WorkEvents;
    RunKeeps(true, s, WorkEvents(n));
    var v := FinishOne(u, s.r.id, s.r.idle, u.r.focus.outcome);
    RunOne(u, Finish);
    RunJoin(s, u, WorkEvents(n), [Finish]);
    events, t := WorkEvents(n) + [Finish], v;
    if !s.r.idle {
      var more;
      more, t := ServeEnding(v);
      RunJoin(s, v, events, more);
      events := events + more;
    }
  }

  lemma BeginOne(s: State, id: Id) returns (t: State)
    requires Inv(true, s) && !s.aborted && s.r == SendingStarted(id)
    ensures id in s.calls && Step(true, s, Started) == Some(t) && Inv(true, t) && !t.aborted && t.queue == s.queue
    ensures forall j :: j in s.calls <==> j in t.calls
    ensures forall j :: j in s.calls && j != id ==> t.calls[j] == s.calls[j]
    ensures t.calls[id].task == s.calls[id].task && t.r.Running? && t.r.id == id && !t.r.idle
  {
    StartedKeeps(true, s, id);
    hide Inv;
    t := Step(true, s, Started).value;
  }

  /** Whatever task is in hand is served, unless it aborts the process. */
  lemma Serve(s: State) returns (events: seq<Event>, t: State)
    requires Inv(true, s) && !s.aborted && !s.r.Idle? && s.r.id in s.calls
    requires s.r.SendingStarted? ==> !Aborts(s.calls[s.r.id].task, false)
    requires s.r.Running? ==> !Aborts(s.calls[s.r.id].task, s.r.idle)
    ensures RunFrom(true, s, events) == Some(t) && Served(s, t, s.r.id)
  {
    if s.r.SendingFinished? {
      events, t := ServeEnding(s);
    } else if s.r.Running? {
      events, t := ServeRunning(s);
    } else {
      hide Aborts, Step;
      var u := BeginOne(s, s.r.id);
      events, t := ServeRunning(u);
      RunOne(s, Started);
      RunJoin(s, u, [Started], events);
      events := [Started] + events;
    }
  }

  /** An answer that is ready can be collected, and is the task's own. */
  lemma Collects(s: State, id: Id) returns (e: Event)
    requires Inv(true, s) && !s.aborted && id in s.calls && Ready(s.calls[id])
    ensures Step(true, s, e).Some? && At(Step(true, s, e).value, id, Left(ResultOf(s.calls[id].task)))
  {
    hide Unwind, Expected, ResultOf;
    GoodAt(true, s, id);
    e := if s.calls[id].caller.Released? then Collect(id) else CollectIdle(id);
  }

  // ---------------------------------------------------------------- what is ahead of a caller

  ghost predicate QueuedBefore(queue: seq<Id>, i: Id, id: Id) {
    exists a, b :: 0 <= a <= b < |queue| && queue[a] == i && queue[b] == id
  }

  /** The R thread has `i`'s task in hand, and it has not ended. */
  predicate InProgress(r: RThread, i: Id) {
    StageOf(r, i).Starting? || StageOf(r, i).InTask?
  }

  /** `id` has to wait for the end of `i`'s task: its own, the one in progress, or one queued before it. */
  ghost predicate IsAhead(s: State, i: Id, id: Id)
    requires id in s.calls
  {
    match s.calls[id].caller
    case WaitStarted => InProgress(s.r, i) || QueuedBefore(s.queue, i, id)
    case WaitFinished => i == id && InProgress(s.r, id)
    case WaitDone => i == id && InProgress(s.r, id)
    case _ => false
  }

  /** Some task that `id` has to wait for aborts the process. */
  ghost predicate Doomed(s: State, id: Id)
    requires id in s.calls
  {
    exists i :: i in s.calls && IsAhead(s, i, id) && Aborts(s.calls[i].task, s.calls[i].caller.WaitDone?)
  }

  /** Inside `r_task`, or accepted as an idle task. */
  predicate Waiting(k: Caller) {
    k.WaitStarted? || k.WaitFinished? || k.WaitDone? || k.Released?
  }

  /** The task in hand does not abort the process if someone whom nothing dooms waits for it. */
  lemma HandSafe(s: State, id: Id)
    requires Inv(true, s) && id in s.calls && !Doomed(s, id) && !s.r.Idle?
    requires s.calls[id].caller.WaitStarted? || s.r.id == id
    ensures s.r.id in s.calls
    ensures s.r.SendingStarted? ==> !Aborts(s.calls[s.r.id].task, false)
    ensures s.r.Running? ==> !Aborts(s.calls[s.r.id].task, s.r.idle)
  {
    hide Unwind, Expected, ResultOf, Aborts;
    GoodAt(true, s, s.r.id);
    GoodAt(true, s, id);
    if s.r.SendingStarted? || s.r.Running? {
      assert IsAhead(s, s.r.id, id);
    }
  }

  /** Nobody is doomed by those who were ahead before. */
  lemma SafeFromBefore(s: State, t: State, id: Id)
    requires id in s.calls && id in t.calls && !Doomed(s, id)
    requires forall i :: i in t.calls && IsAhead(t, i, id) ==>
               i in s.calls && IsAhead(s, i, id) && t.calls[i] == s.calls[i]
    ensures !Doomed(t, id)
  {
  }

  /** Serving what is in hand dooms nobody who is still queued. */
  lemma ServedSafe(s: State, t: State, id: Id)
    requires Inv(true, s) && !s.r.Idle? && s.r.id in s.calls && Served(s, t, s.r.id)
    requires id in s.calls && id != s.r.id && s.calls[id].caller.WaitStarted? && !Doomed(s, id)
    ensures !Doomed(t, id)
  {
    hide Inv, Doomed;
    forall i | i in t.calls && IsAhead(t, i, id) ensures i in s.calls && IsAhead(s, i, id) && t.calls[i] == s.calls[i] {
      assert QueuedBefore(s.queue, i, id) && i in s.queue;
      QueuedNotInHand(s, i);
    }
    SafeFromBefore(s, t, id);
  }

  lemma QueuedNotInHand(s: State, i: Id)
    requires Inv(true, s) && i in s.queue && !s.r.Idle?
    ensures i in s.calls && i != s.r.id
  {
    hide Unwind, Expected, ResultOf;
    GoodAt(true, s, i);
  }

  /** Whoever is ahead after a task is taken off the queue was ahead before. */
  lemma AheadOfPop(s: State, i: Id, id: Id)
    requires s.r.Idle? && id in s.queue && id in s.calls && s.calls[id].caller.WaitStarted?
    requires s.queue != [] && IsAhead(Pop(s), i, id)
    ensures IsAhead(s, i, id)
  {
    if i == s.queue[0] {
      var b :| 0 <= b < |s.queue| && s.queue[b] == id;
      assert s.queue[0] == i;
    } else {
      var a, b :| 0 <= a <= b < |Pop(s).queue| && Pop(s).queue[a] == i && Pop(s).queue[b] == id;
      assert s.queue[a + 1] == i && s.queue[b + 1] == id;
    }
  }

  lemma PoppedSafe(s: State, id: Id)
    requires Inv(true, s) && s.r.Idle? && id in s.queue && id in s.calls && s.calls[id].caller.WaitStarted?
    requires !Doomed(s, id)
    ensures s.queue != [] && !Doomed(Pop(s), id)
  {
    hide Inv, Doomed, IsAhead;
    forall i | i in Pop(s).calls && IsAhead(Pop(s), i, id)
      ensures i in s.calls && IsAhead(s, i, id) && Pop(s).calls[i] == s.calls[i]
    {
      AheadOfPop(s, i, id);
    }
    SafeFromBefore(s, Pop(s), id);
  }

  // ---------------------------------------------------------------- the answer comes

  lemma CollectsAfter(s: State, t: State, events: seq<Event>, id: Id) returns (all: seq<Event>)
    requires RunFrom(true, s, events) == Some(t) && Inv(true, t) && !t.aborted
    requires id in s.calls && id in t.calls && t.calls[id].task == s.calls[id].task && Ready(t.calls[id])
    ensures RunFrom(true, s, all).Some? && At(RunFrom(true, s, all).value, id, Left(ResultOf(s.calls[id].task)))
  {
    hide Inv, Step, ResultOf;
    var e := Collects(t, id);
    RunOne(t, e);
    RunJoin(s, t, events, [e]);
    all := events + [e];
  }

  lemma ReadyUnlessQueued(s: State, id: Id)
    requires Inv(true, s) && id in s.calls && Waiting(s.calls[id].caller)
    ensures Ready(s.calls[id]) || (!s.r.Idle? && s.r.id == id) || (id in s.queue && s.calls[id].caller.WaitStarted?)
    ensures s.r.Idle? || s.r.id in s.calls
  {
    hide Unwind, Expected, ResultOf;
    GoodAt(true, s, id);
  }

  lemma {:induction false} Returns(s: State, id: Id) returns (events: seq<Event>)
    requires Inv(true, s) && !s.aborted && id in s.calls && Waiting(s.calls[id].caller) && !Doomed(s, id)
    ensures RunFrom(true, s, events).Some?
    ensures At(RunFrom(true, s, events).value, id, Left(ResultOf(s.calls[id].task)))
    decreases |s.queue|, if s.r.Idle? then 0 else 1
  {
    hide Inv, Step, ResultOf, Doomed, Aborts, RunFrom;
    ReadyUnlessQueued(s, id);
    if Ready(s.calls[id]) {
      RunNothing(s);
      events := CollectsAfter(s, s, [], id);
    } else if !s.r.Idle? {
      HandSafe(s, id);
      var t;
      events, t := Serve(s);
      if s.r.id == id {
        events := CollectsAfter(s, t, events, id);
      } else {
        ServedSafe(s, t, id);
        var more := Returns(t, id);
        RunJoin(s, t, events, more);
        events := events + more;
      }
    } else {
      PoppedSafe(s, id);
      TakeKeeps(true, s);
      var t := Pop(s);
      assert Step(true, s, Take) == Some(t) by { TakeStep(s); }
      RunOne(s, Take);
      var more := Returns(t, id);
      RunJoin(s, t, [Take], more);
      events := [Take] + more;
    }
  }

  lemma RunNothing(s: State)
    ensures RunFrom(true, s, []) == Some(s)
  {
  }

  lemma TakeStep(s: State)
    requires !s.aborted && s.r.Idle? && s.queue != []
    ensures Step(true, s, Take) == Some(Pop(s))
  {
  }

  // ---------------------------------------------------------------- offers

  /** An offer that nobody has accepted can be given up at any time, and that changes nothing else. */
  lemma OfferCanEnd(s: State, id: Id)
    requires Inv(true, s) && !s.aborted && At(s, id, Offering)
    ensures Step(true, s, GiveUp(id)) == Some(s.(calls := s.calls[id := s.calls[id].(caller := Busy)]))
    ensures s.r.Idle? ==>
            var x := s.calls[id];
            Step(true, s, Accept(id)) == Some(s.(calls := s.calls[id := x.(caller := WaitDone)],
                                                 r := Running(id, true, Code(x.task.code, x.task.env), [])))
  {
  }

  lemma BusyStep(s: State, e: Event, id: Id)
    requires Inv(true, s) && Step(true, s, e).Some? && At(s, id, Busy)
    ensures var t := Step(true, s, e).value; id in t.calls && t.calls[id] == s.calls[id]
  {
    hide Unwind, Expected, ResultOf;
    GoodAt(true, s, id);
    if !s.r.Idle? { InHandIs(s); }
  }

  lemma InHandIs(s: State)
    requires Inv(true, s) && !s.r.Idle?
    ensures s.r.id in s.calls && !s.calls[s.r.id].caller.Busy?
  {
    hide Unwind, Expected, ResultOf;
    GoodAt(true, s, s.r.id);
  }

  /** A task whose offer was given up never runs. */
  lemma {:induction false} BusyForever(s: State, events: seq<Event>, id: Id)
    requires Inv(true, s) && At(s, id, Busy) && RunFrom(true, s, events).Some?
    ensures var t := RunFrom(true, s, events).value; At(t, id, Busy) && (t.r.Idle? || t.r.id != id)
    decreases |events|
  {
    hide Inv, Step;
    if events == [] {
      if !s.r.Idle? { InHandIs(s); }
    } else {
      BusyStep(s, events[0], id);
      RunOne(s, events[0]);
      RunKeeps(true, s, [events[0]]);
      BusyForever(Step(true, s, events[0]).value, events[1..], id);
    }
  }

  // ---------------------------------------------------------------- or it never comes

  /** What a task ahead looks like: it is queued or in hand, and nobody has its answer yet. */
  lemma AheadIs(s: State, i: Id, id: Id)
    requires Inv(true, s) && i in s.calls && id in s.calls && IsAhead(s, i, id)
    ensures if s.calls[i].caller.WaitStarted? then i in s.queue || s.r == SendingStarted(i)
            else
              && StageOf(s.r, i).InTask?
              && (s.calls[i].caller.WaitFinished? || (s.calls[i].caller.WaitDone? && !s.calls[i].signal))
    ensures s.calls[i].caller.WaitDone? <==> StageOf(s.r, i) == InTask(true)
  {
    hide Unwind, Expected, ResultOf;
    GoodAt(true, s, i);
  }

  /** The task has yet to end. */
  predicate Awaits(x: Entry) {
    x.caller.WaitStarted? || x.caller.WaitFinished? || (x.caller.WaitDone? && !x.signal)
  }

  /** Only a caller whose call is new or has its answer, or who gives up an offer, moves. */
  lemma CallerFrame(s: State, e: Event)
    requires ByCaller(e) && CallerStep(true, s, e).Some?
    ensures var t := CallerStep(true, s, e).value;
            && t.r == s.r
            && (t.queue == s.queue || t.queue == s.queue + [e.id])
            && (forall j :: j in s.calls && (j != e.id || Awaits(s.calls[j])) ==>
                  j in t.calls && t.calls[j] == s.calls[j])
  {
  }

  lemma QueuedStays(queue: seq<Id>, longer: seq<Id>, i: Id, id: Id)
    requires QueuedBefore(queue, i, id) && queue <= longer
    ensures QueuedBefore(longer, i, id)
  {
    var a, b :| 0 <= a <= b < |queue| && queue[a] == i && queue[b] == id;
    assert longer[a] == i && longer[b] == id;
  }

  lemma DoomedByCaller(s: State, e: Event, i: Id, id: Id)
    requires Inv(true, s) && ByCaller(e) && CallerStep(true, s, e).Some?
    requires i in s.calls && id in s.calls && IsAhead(s, i, id)
    ensures var t := CallerStep(true, s, e).value;
            && i in t.calls && id in t.calls && t.calls[i] == s.calls[i] && t.calls[id] == s.calls[id]
            && IsAhead(t, i, id)
  {
    AheadIs(s, i, id);
    AheadIsSelf(s, i, id);
    CallerFrame(s, e);
    hide CallerStep, Inv, QueuedBefore;
    if QueuedBefore(s.queue, i, id) { QueuedStays(s.queue, CallerStep(true, s, e).value.queue, i, id); }
  }

  lemma AheadIsSelf(s: State, i: Id, id: Id)
    requires Inv(true, s) && i in s.calls && id in s.calls && IsAhead(s, i, id)
    ensures Awaits(s.calls[id])
  {
    hide Unwind, Expected, ResultOf;
    GoodAt(true, s, id);
  }

  lemma DoomedByTake(s: State, i: Id, id: Id)
    requires Inv(true, s) && s.r.Idle? && s.queue != []
    requires i in s.calls && id in s.calls && IsAhead(s, i, id)
    ensures IsAhead(Pop(s), i, id)
  {
    var a, b :| 0 <= a <= b < |s.queue| && s.queue[a] == i && s.queue[b] == id;
    if a > 0 {
      assert Pop(s).queue[a - 1] == i && Pop(s).queue[b - 1] == id;
    }
  }

  lemma DoomedByRThread(s: State, e: Event, i: Id, id: Id)
    requires Inv(true, s) && !s.aborted && !ByCaller(e) && !e.Take? && RThreadStep(true, s, e).Some?
    requires i in s.calls && id in s.calls && IsAhead(s, i, id)
    requires Aborts(s.calls[i].task, s.calls[i].caller.WaitDone?)
    ensures var t := RThreadStep(true, s, e).value;
            && i in t.calls && id in t.calls && t.calls[i].task == s.calls[i].task
            && (|| (t.aborted && t.calls == s.calls)
                || (IsAhead(t, i, id) && t.calls[i].caller.WaitDone? == s.calls[i].caller.WaitDone?))
  {
    AheadIs(s, i, id);
    GoodAt(true, s, id);
    if e.Finish? { FinishAborts(true, s); }
    hide Inv, Unwind, Expected, ResultOf;
  }

  lemma StillDoomed(s: State, t: State, i: Id, id: Id)
    requires i in t.calls && id in t.calls && IsAhead(t, i, id)
    requires Aborts(t.calls[i].task, t.calls[i].caller.WaitDone?)
    ensures Doomed(t, id)
  {
  }

  lemma DoomedStep(s: State, e: Event, id: Id)
    requires Inv(true, s) && Step(true, s, e).Some? && id in s.calls && Doomed(s, id)
    ensures var t := Step(true, s, e).value;
            id in t.calls && (Doomed(t, id) || (t.aborted && t.calls[id] == s.calls[id]))
  {
    hide Inv, Aborts, CallerStep, RThreadStep, IsAhead;
    var i :| i in s.calls && IsAhead(s, i, id) && Aborts(s.calls[i].task, s.calls[i].caller.WaitDone?);
    var t := Step(true, s, e).value;
    if ByCaller(e) {
      DoomedByCaller(s, e, i, id);
      StillDoomed(s, t, i, id);
    } else if e.Take? {
      TakeIs(s);
      DoomedByTake(s, i, id);
      StillDoomed(s, t, i, id);
    } else {
      DoomedByRThread(s, e, i, id);
      if !t.aborted || t.calls != s.calls { StillDoomed(s, t, i, id); }
    }
  }

  lemma TakeIs(s: State)
    requires Step(true, s, Take).Some?
    ensures s.r.Idle? && s.queue != [] && Step(true, s, Take).value == Pop(s)
  {
  }

  lemma DoomedWaits(s: State, id: Id)
    requires id in s.calls && Doomed(s, id)
    ensures !s.calls[id].caller.Left?
  {
  }

  /** Whoever has to wait for a task that aborts the process never gets an answer. */
  lemma {:induction false} NeverReturns(s: State, id: Id, events: seq<Event>)
    requires Inv(true, s) && id in s.calls && Doomed(s, id) && RunFrom(true, s, events).Some?
    ensures var t := RunFrom(true, s, events).value; id in t.calls && !t.calls[id].caller.Left?
    decreases |events|
  {
    hide Inv, Step, Doomed;
    DoomedWaits(s, id);
    if events != [] {
      var t := Step(true, s, events[0]).value;
      DoomedStep(s, events[0], id);
      RunOne(s, events[0]);
      RunKeeps(true, s, [events[0]]);
      if Doomed(t, id) {
        NeverReturns(t, id, events[1..]);
      } else {
        NothingAfterAbort(t, events[1..]);
      }
    }
  }

  lemma NothingAfterAbort(s: State, events: seq<Event>)
    requires s.aborted && RunFrom(true, s, events).Some?
    ensures RunFrom(true, s, events) == Some(s)
  {
  }

  /**
   With the thread test, from every reachable state, a call that was submitted or accepted can still
   end with the outcome its closure means exactly if nothing it has to wait for aborts the process.
   */
  lemma EveryCallReturns(events: seq<Event>, id: Id)
    requires Run(true, events).Some? && !Run(true, events).value.aborted
    requires id in Run(true, events).value.calls && Waiting(Run(true, events).value.calls[id].caller)
    ensures var s := Run(true, events).value;
            (exists more :: RunFrom(true, s, more).Some?
                            && At(RunFrom(true, s, more).value, id, Left(ResultOf(s.calls[id].task))))
            <==> !Doomed(s, id)
  {
    hide Inv, Step, ResultOf, Doomed, Run;
    ReachedInv(true, events);
    var s := Run(true, events).value;
    if Doomed(s, id) {
      forall more | RunFrom(true, s, more).Some?
        ensures !At(RunFrom(true, s, more).value, id, Left(ResultOf(s.calls[id].task)))
      {
        NeverReturns(s, id, more);
      }
    } else {
      var more := Returns(s, id);
    }
  }

  /** A single call, made when nothing else goes on, gets its answer unless it aborts the process. */
  lemma SingleCallReturns(id: Id, task: Task) returns (events: seq<Event>)
    requires !(ResultOf(task).Panic? && !task.recovers)
    ensures events != [] && events[0] == Submit(id, task)
    ensures Run(true, events).Some? && At(Run(true, events).value, id, Left(ResultOf(task)))
  {
    var first := Submit(id, task);
    SubmitQueues(true, Initial(), id, task);
    var s := Step(true, Initial(), first).value;
    RunOne(Initial(), first);
    InitialInv(true);
    RunKeeps(true, Initial(), [first]);
    assert forall i :: i in s.calls <==> i == id;
    assert !Doomed(s, id);
    hide Inv, Step, ResultOf, Doomed;
    var more := Returns(s, id);
    RunJoin(Initial(), s, [first], more);
    events := [first] + more;
  }

  /** So does an idle task that is offered to an idle R thread, unless it panics. */
  lemma SingleOfferReturns(id: Id, task: Task) returns (events: seq<Event>)
    requires !ResultOf(task).Panic?
    ensures |events| > 1 && events[0] == Offer(id, task) && events[1] == Accept(id)
    ensures Run(true, events).Some? && At(Run(true, events).value, id, Left(ResultOf(task)))
  {
    var first, second := Offer(id, task), Accept(id);
    SubmitQueues(true, Initial(), id, task);
    var s := Step(true, Initial(), first).value;
    RunOne(Initial(), first);
    InitialInv(true);
    RunKeeps(true, Initial(), [first]);
    OfferCanEnd(s, id);
    var t := Step(true, s, second).value;
    RunOne(s, second);
    RunKeeps(true, s, [second]);
    RunJoin(Initial(), s, [first], [second]);
    assert forall i :: i in t.calls <==> i == id;
    assert !Doomed(t, id);
    hide Inv, Step, ResultOf, Doomed;
    var more := Returns(t, id);
    RunJoin(Initial(), t, [first] + [second], more);
    events := [first] + [second] + more;
  }
}
