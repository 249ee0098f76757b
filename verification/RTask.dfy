/**
 Handing closures to the R thread: `r_task` and `try_idle_task` in `crates/ark/src/r_task.rs`. Any
 number of callers and the R thread take interleaved steps. The R thread's side is taken to be what
 `crates/ark/src/console/console_repl.rs` does with a task: send Started, run it, send Finished.
 Closures are programs that may call `r_task` themselves, to any depth.
 */
module RTask {
  import opened Prelude

  type Id = nat

  /** What running a closure ends in: a value, a Rust panic, or an R error that longjumps out of it. */
  datatype Outcome = Value(v: nat) | Panic(payload: nat) | RError

  /**
   A closure, as far as nested calls go. It knows the outcomes of the calls it has made so far: it ends
   in an outcome computed from them, branches on them, or makes another `r_task` call, around which it
   may catch R errors, and goes on with that call's outcome added.
   */
  datatype Closure =
    | Done(end: seq<Outcome> -> Outcome)
    | Branch(test: seq<Outcome> -> bool, yes: Closure, no: Closure)
    | Call(inner: Closure, catches: bool, next: Closure)

  /** Whether an outcome leaves the code around the call that ended in it. */
  predicate Escapes(o: Outcome, catches: bool) {
    o.Panic? || (o.RError? && !catches)
  }

  /** What a closure means: nested calls are plain calls. */
  function Eval(c: Closure, env: seq<Outcome>): Outcome {
    match c
    case Done(end) => end(env)
    case Branch(test, yes, no) => if test(env) then Eval(yes, env) else Eval(no, env)
    case Call(inner, catches, next) =>
      var o := Eval(inner, env);
      if Escapes(o, catches) then o else Eval(next, env + [o])
  }

  /** The closure that a branch chooses, and the outcome that an end computes. */
  lemma EvalStep(end: seq<Outcome> -> Outcome, test: seq<Outcome> -> bool, yes: Closure, no: Closure, env: seq<Outcome>)
    ensures Eval(Done(end), env) == end(env)
    ensures test(env) ==> Eval(Branch(test, yes, no), env) == Eval(yes, env)
    ensures !test(env) ==> Eval(Branch(test, yes, no), env) == Eval(no, env)
  {
  }

  /** A panic ends everything around it. An R error ends everything up to where it is caught. A value goes on. */
  lemma EvalCall(inner: Closure, catches: bool, next: Closure, env: seq<Outcome>)
    ensures Eval(inner, env).Panic? ==> Eval(Call(inner, catches, next), env) == Eval(inner, env)
    ensures Eval(inner, env).RError? && !catches ==> Eval(Call(inner, catches, next), env) == RError
    ensures Eval(inner, env).Value? || (Eval(inner, env).RError? && catches) ==>
            Eval(Call(inner, catches, next), env) == Eval(next, env + [Eval(inner, env)])
  {
  }

  /** `c` inside as many nested calls as there are continuations, the last one outermost. */
  function Nested(c: Closure, catches: bool, nexts: seq<Closure>): Closure {
    if nexts == [] then c
    else Call(Nested(c, catches, nexts[..|nexts| - 1]), catches, nexts[|nexts| - 1])
  }

  /** From any depth, a panic comes out as it is, and so does an R error that nobody catches. */
  lemma {:induction false} FromAnyDepth(c: Closure, catches: bool, nexts: seq<Closure>, env: seq<Outcome>)
    requires Eval(c, env).Panic? || (Eval(c, env).RError? && !catches)
    ensures Eval(Nested(c, catches, nexts), env) == Eval(c, env)
    decreases |nexts|
  {
    if nexts != [] {
      FromAnyDepth(c, catches, nexts[..|nexts| - 1], env);
    }
  }

  // ---------------------------------------------------------------- states

  /** A closure with what it captured, and whether its caller can recover a panic. */
  datatype Task = Task(code: Closure, env: seq<Outcome>, recovers: bool)

  /** What running a task means. */
  function ResultOf(task: Task): Outcome {
    Eval(task.code, task.env)
  }

  /** A caller inside `r_task` or `try_idle_task`, or how it left. `Broken` is a failed unwrap or a wrong status. */
  datatype Caller =
    | WaitStarted | WaitFinished | Released(ok: bool)
    | Offering | WaitDone
    | Left(outcome: Outcome) | Busy
    | Broken

  /** One call: caller, task, the result cell the two threads share, a completion signal not yet received. */
  datatype Entry = Entry(caller: Caller, task: Task, slot: Option<Outcome>, signal: bool)

  /** What a stack frame waits for: the outcome of the call it made. */
  datatype Frame = Frame(catches: bool, next: Closure, env: seq<Outcome>)

  datatype Focus = Code(code: Closure, env: seq<Outcome>) | Ended(outcome: Outcome)

  /** The R thread. While it runs a task, `stack` holds the closures inside their nested calls, innermost first. */
  datatype RThread =
    | Idle
    | SendingStarted(id: Id) | Running(id: Id, idle: bool, focus: Focus, stack: seq<Frame>)
    | SendingFinished(id: Id, ok: bool)
    | AwaitingItself(id: Id, idle: bool, nested: Id)

  /** `taken` is history: the tasks taken off the queue, in order. */
  datatype State = State(calls: map<Id, Entry>, queue: seq<Id>, r: RThread, aborted: bool, taken: seq<Id>)

  datatype Event =
    | Submit(id: Id, task: Task) | Take | Started | Work(newId: Id) | Finish | Finished | Collect(id: Id)
    | Offer(id: Id, task: Task) | Accept(id: Id) | GiveUp(id: Id) | CollectIdle(id: Id)

  function Initial(): State {
    State(map[], [], Idle, false, [])
  }

  predicate At(s: State, id: Id, k: Caller) {
    id in s.calls && s.calls[id].caller == k
  }

  /** `id`'s call becomes `x`, and the R thread comes to `r`. */
  function Update(s: State, id: Id, x: Entry, r: RThread): State {
    s.(calls := s.calls[id := x], r := r)
  }

  function Enqueue(s: State, id: Id, task: Task): State {
    Update(s, id, Entry(WaitStarted, task, None, false), s.r).(queue := s.queue + [id])
  }

  /** The rendezvous on the status channel: the caller takes the status in its order, or breaks. */
  function Receive(x: Entry, expected: Caller, next: Caller): Entry {
    x.(caller := if x.caller == expected then next else Broken)
  }

  /** The result cell is taken; an empty one breaks the caller. */
  function TakeSlot(x: Entry): Entry {
    x.(caller := if x.slot.Some? then Left(x.slot.value) else Broken, slot := None)
  }

  // ---------------------------------------------------------------- steps

  datatype Thread = MainThread | OtherThread

  /** The branch at the top of `r_task`: run the closure here, or queue it. `guard` is whether there is one. */
  predicate RunsInline(guard: bool, thread: Thread) {
    guard && thread.MainThread?
  }

  /** The next move of the running task. */
  function WorkStep(guard: bool, s: State, newId: Id): Option<State>
    requires s.r.Running?
  {
    var Running(id, idle, focus, stack) := s.r;
    match focus
    case Code(Done(end), env) => Some(s.(r := Running(id, idle, Ended(end(env)), stack)))
    case Code(Branch(test, yes, no), env) =>
      Some(s.(r := Running(id, idle, Code(if test(env) then yes else no, env), stack)))
    case Code(Call(inner, catches, next), env) =>
      if RunsInline(guard, MainThread) then
        Some(s.(r := Running(id, idle, Code(inner, env), [Frame(catches, next, env)] + stack)))
      else if newId in s.calls || id !in s.calls then None
      else
        Some(Enqueue(s, newId, Task(inner, env, s.calls[id].task.recovers)).(r := AwaitingItself(id, idle, newId)))
    case Ended(o) =>
      if stack == [] then None
      else if Escapes(o, stack[0].catches) then Some(s.(r := Running(id, idle, focus, stack[1..])))
      else Some(s.(r := Running(id, idle, Code(stack[0].next, stack[0].env + [o]), stack[1..])))
  }

  /** The end of a task; a panic that nobody recovers aborts the process, and nobody recovers one of an idle task. */
  function FinishStep(s: State, id: Id, idle: bool, o: Outcome): State
    requires id in s.calls
  {
    var x := s.calls[id];
    if o.Panic? && (idle || !x.task.recovers) then s.(aborted := true)
    else if idle then Update(s, id, x.(slot := Some(o), signal := true), Idle)
    else if o.RError? then Update(s, id, x, SendingFinished(id, false))
    else Update(s, id, x.(slot := Some(o)), SendingFinished(id, true))
  }

  function Begin(task: Task, id: Id, idle: bool): RThread {
    Running(id, idle, Code(task.code, task.env), [])
  }

  function Pop(s: State): State
    requires s.queue != []
  {
    s.(queue := s.queue[1..], r := SendingStarted(s.queue[0]), taken := s.taken + [s.queue[0]])
  }

  function RThreadStep(guard: bool, s: State, e: Event): Option<State> {
    match s.r
    case Idle =>
      if e.Take? && s.queue != [] then Some(Pop(s))
      else if e.Accept? && At(s, e.id, Offering) then
        Some(Update(s, e.id, s.calls[e.id].(caller := WaitDone), Begin(s.calls[e.id].task, e.id, true)))
      else None
    case SendingStarted(id) =>
      if e.Started? && id in s.calls then
        Some(Update(s, id, Receive(s.calls[id], WaitStarted, WaitFinished), Begin(s.calls[id].task, id, false)))
      else None
    case Running(id, idle, focus, stack) =>
      if e.Work? then WorkStep(guard, s, e.newId)
      else if e.Finish? && focus.Ended? && stack == [] && id in s.calls then
        Some(FinishStep(s, id, idle, focus.outcome))
      else None
    case SendingFinished(id, ok) =>
      if e.Finished? && id in s.calls then
        Some(Update(s, id, Receive(s.calls[id], WaitFinished, Released(ok)), Idle))
      else None
    case AwaitingItself(_, _, _) => None
  }

  function CallerStep(guard: bool, s: State, e: Event): Option<State> {
    match e
    case Submit(id, task) =>
      if id in s.calls || RunsInline(guard, OtherThread) then None else Some(Enqueue(s, id, task))
    case Collect(id) =>
      if At(s, id, Released(true)) then Some(Update(s, id, TakeSlot(s.calls[id]), s.r))
      else if At(s, id, Released(false)) then Some(Update(s, id, s.calls[id].(caller := Left(RError)), s.r))
      else None
    case Offer(id, task) =>
      if id in s.calls then None else Some(Update(s, id, Entry(Offering, task, None, false), s.r))
    case GiveUp(id) =>
      if At(s, id, Offering) then Some(Update(s, id, s.calls[id].(caller := Busy), s.r)) else None
    case CollectIdle(id) =>
      if At(s, id, WaitDone) && s.calls[id].signal then
        Some(Update(s, id, TakeSlot(s.calls[id]).(signal := false), s.r))
      else None
    case _ => None
  }

  predicate ByCaller(e: Event) {
    e.Submit? || e.Collect? || e.Offer? || e.GiveUp? || e.CollectIdle?
  }

  function Step(guard: bool, s: State, e: Event): Option<State> {
    if s.aborted then None else if ByCaller(e) then CallerStep(guard, s, e) else RThreadStep(guard, s, e)
  }

  /** The state after further events, if each was possible when it came. */
  function RunFrom(guard: bool, s: State, events: seq<Event>): Option<State>
    decreases |events|
  {
    if events == [] then Some(s)
    else
      match Step(guard, s, events[0])
      case None => None
      case Some(t) => RunFrom(guard, t, events[1..])
  }

  function Run(guard: bool, events: seq<Event>): Option<State> {
    RunFrom(guard, Initial(), events)
  }

  // ---------------------------------------------------------------- nested calls

  /** `n` moves of the running task, with nothing else in between. */
  function Works(guard: bool, s: State, n: nat): Option<State>
    decreases n
  {
    if n == 0 then Some(s)
    else if s.r.Running? && WorkStep(guard, s, 0).Some? then Works(guard, WorkStep(guard, s, 0).value, n - 1)
    else None
  }

  lemma {:induction false} WorksThen(guard: bool, s: State, t: State, m: nat, n: nat)
    requires Works(guard, s, m) == Some(t)
    ensures Works(guard, s, m + n) == Works(guard, t, n)
    decreases m
  {
    if m > 0 {
      WorksThen(guard, WorkStep(guard, s, 0).value, t, m - 1, n);
    }
  }

  lemma OneWork(guard: bool, s: State)
    requires s.r.Running? && WorkStep(guard, s, 0).Some?
    ensures Works(guard, s, 1) == WorkStep(guard, s, 0)
  {
    assert Works(guard, WorkStep(guard, s, 0).value, 0) == WorkStep(guard, s, 0);
  }

  /**
   Nested calls run inline. However deep a closure nests its `r_task` calls, the R thread evaluates it
   on the spot, in finitely many moves, to the outcome of the plain calls: a value, or a panic or an R
   error from any depth. Queue, callers, result cells and signals are as before.
   */
  lemma {:induction false} NestedInline(s: State, c: Closure, env: seq<Outcome>) returns (n: nat)
    requires s.r.Running? && s.r.focus == Code(c, env)
    ensures Works(true, s, n) == Some(s.(r := s.r.(focus := Ended(Eval(c, env)))))
    decreases c
  {
    hide Works;
    var t := WorkStep(true, s, 0).value;
    OneWork(true, s);
    match c
    case Done(end) => n := 1;
    case Branch(test, yes, no) =>
      var m := NestedInline(t, if test(env) then yes else no, env);
      WorksThen(true, s, t, 1, m);
      n := 1 + m;
    case Call(inner, catches, next) =>
      var m := NestedInline(t, inner, env);
      WorksThen(true, s, t, 1, m);
      var o := Eval(inner, env);
      var u := t.(r := t.r.(focus := Ended(o)));
      OneWork(true, u);
      WorksThen(true, s, u, 1 + m, 1);
      var v := WorkStep(true, u, 0).value;
      assert ([Frame(catches, next, env)] + s.r.stack)[1..] == s.r.stack;
      n := 1 + m + 1;
      if !Escapes(o, catches) {
        var k := NestedInline(v, next, env + [o]);
        WorksThen(true, s, v, n, k);
        n := n + k;
      }
  }

  lemma WorkInline(s: State)
    requires s.r.Running? && WorkStep(true, s, 0).Some?
    ensures var t := WorkStep(true, s, 0).value; t == s.(r := t.r) && t.r.Running? && t.r.id == s.r.id
  {
  }

  /** On the way, too: after any number of moves only the R thread's own stack has changed. */
  lemma {:induction false} NothingQueued(s: State, n: nat)
    requires s.r.Running? && Works(true, s, n).Some?
    ensures var t := Works(true, s, n).value; t == s.(r := t.r) && t.r.Running? && t.r.id == s.r.id
    decreases n
  {
    hide WorkStep;
    if n > 0 {
      WorkInline(s);
      NothingQueued(WorkStep(true, s, 0).value, n - 1);
    }
  }

  // ---------------------------------------------------------------- the invariant

  /** What the frames of a stack make of the outcome of the innermost call. */
  function Unwind(stack: seq<Frame>, o: Outcome): Outcome {
    if stack == [] then o
    else if Escapes(o, stack[0].catches) then Unwind(stack[1..], o)
    else Unwind(stack[1..], Eval(stack[0].next, stack[0].env + [o]))
  }

  function Expected(focus: Focus): Outcome {
    match focus
    case Code(c, env) => Eval(c, env)
    case Ended(o) => o
  }

  /** What the R thread has to do with a call. */
  datatype Stage = Absent | Starting | InTask(idle: bool) | Ending(ok: bool)

  function StageOf(r: RThread, id: Id): Stage {
    match r
    case SendingStarted(i) => if i == id then Starting else Absent
    case Running(i, idle, _, _) => if i == id then InTask(idle) else Absent
    case AwaitingItself(i, idle, _) => if i == id then InTask(idle) else Absent
    case SendingFinished(i, ok) => if i == id then Ending(ok) else Absent
    case Idle => Absent
  }

  /**
   A blocked caller's task is queued, in hand or finished, and conversely. A result cell holds the
   outcome of its own closure, and is filled by the time it is looked at.
   */
  predicate Good(x: Entry, stage: Stage, queued: bool) {
    && (x.slot.Some? ==> x.slot.value == ResultOf(x.task))
    && match x.caller
       case WaitStarted => !x.signal && (if queued then stage == Absent else stage == Starting)
       case WaitFinished =>
         && !queued && !x.signal
         && (|| stage == InTask(false)
             || (stage == Ending(true) && x.slot.Some?)
             || (stage == Ending(false) && ResultOf(x.task) == RError))
       case WaitDone => !queued && (if x.signal then stage == Absent && x.slot.Some? else stage == InTask(true))
       case Released(ok) =>
         !queued && !x.signal && stage == Absent && (if ok then x.slot.Some? else ResultOf(x.task) == RError)
       case Left(o) => !queued && !x.signal && stage == Absent && o == ResultOf(x.task)
       case Broken => false
       case _ => !queued && !x.signal && stage == Absent
  }

  ghost predicate AllGood(s: State) {
    forall id :: id in s.calls ==> Good(s.calls[id], StageOf(s.r, id), id in s.queue)
  }

  ghost predicate Queued(s: State) {
    && (forall id :: id in s.queue ==> id in s.calls)
    && (forall i, j :: 0 <= i < j < |s.queue| ==> s.queue[i] != s.queue[j])
  }

  /** The task in hand is that of a call, and running it will end in its result. */
  predicate InHand(s: State) {
    match s.r
    case Idle => true
    case SendingStarted(id) => id in s.calls
    case Running(id, _, focus, stack) => id in s.calls && Unwind(stack, Expected(focus)) == ResultOf(s.calls[id].task)
    case SendingFinished(id, _) => id in s.calls
    case AwaitingItself(id, _, nested) => id in s.calls && At(s, nested, WaitStarted)
  }

  /** A task whose end is a panic that nobody recovers; the process aborts on it. */
  predicate Aborts(task: Task, idle: bool) {
    ResultOf(task).Panic? && (idle || !task.recovers)
  }

  /** If the process has aborted, the task that just ended did it. */
  ghost predicate AbortedRightly(s: State) {
    s.aborted ==> s.r.Running? && s.r.focus.Ended? && s.r.stack == [] && s.r.id in s.calls
                  && Aborts(s.calls[s.r.id].task, s.r.idle)
  }

  ghost predicate Inv(guard: bool, s: State) {
    Queued(s) && InHand(s) && AllGood(s) && (guard ==> !s.r.AwaitingItself?) && AbortedRightly(s)
  }

  /** The R thread is busy with the same call, or with none. */
  ghost predicate StaysWith(r: RThread, r': RThread, id: Id) {
    r == r' || ((r.Idle? || r.id == id) && (r'.Idle? || r'.id == id))
  }

  /** A step that changes one call, and the R thread's business with it, keeps the others good. */
  lemma UpdateKeeps(guard: bool, s: State, id: Id, x: Entry, r: RThread)
    requires Inv(guard, s) && !s.aborted && StaysWith(s.r, r, id)
    requires id in s.calls ==> x.task == s.calls[id].task
    requires Good(x, StageOf(r, id), id in s.queue) && InHand(Update(s, id, x, r)) && (guard ==> !r.AwaitingItself?)
    ensures Inv(guard, Update(s, id, x, r))
  {
    hide Good, InHand;
    var t := Update(s, id, x, r);
    forall j | j in t.calls ensures Good(t.calls[j], StageOf(t.r, j), j in t.queue) {
      if j != id { assert StageOf(t.r, j) == StageOf(s.r, j); }
    }
  }

  lemma GoodAt(guard: bool, s: State, id: Id)
    requires Inv(guard, s) && id in s.calls
    ensures Good(s.calls[id], StageOf(s.r, id), id in s.queue)
  {
    hide Good, InHand;
  }

  lemma TakeKeeps(guard: bool, s: State)
    requires Inv(guard, s) && !s.aborted && s.r.Idle? && s.queue != []
    ensures Inv(guard, Pop(s))
  {
    hide ResultOf;
    var q, rest := s.queue[0], s.queue[1..];
    var t := Pop(s);
    assert s.queue == [q] + rest && q in s.queue;
    forall j | j in rest ensures j in s.queue && j != q {
      var i :| 0 <= i < |rest| && rest[i] == j;
      assert s.queue[0] != s.queue[i + 1];
    }
    forall i, j | 0 <= i < j < |rest| ensures rest[i] != rest[j] {
      assert s.queue[i + 1] != s.queue[j + 1];
    }
  }

  lemma AcceptKeeps(guard: bool, s: State, id: Id)
    requires Inv(guard, s) && !s.aborted && s.r.Idle? && At(s, id, Offering)
    ensures Inv(guard, Update(s, id, s.calls[id].(caller := WaitDone), Begin(s.calls[id].task, id, true)))
  {
    GoodAt(guard, s, id);
    hide Eval, Inv;
    UpdateKeeps(guard, s, id, s.calls[id].(caller := WaitDone), Begin(s.calls[id].task, id, true));
  }

  lemma StartedKeeps(guard: bool, s: State, id: Id)
    requires Inv(guard, s) && !s.aborted && s.r == SendingStarted(id)
    ensures id in s.calls
    ensures var x := Receive(s.calls[id], WaitStarted, WaitFinished);
            Inv(guard, Update(s, id, x, Begin(s.calls[id].task, id, false)))
  {
    GoodAt(guard, s, id);
    hide Eval, Inv;
    UpdateKeeps(guard, s, id, Receive(s.calls[id], WaitStarted, WaitFinished), Begin(s.calls[id].task, id, false));
  }

  /** Moves of the running task do not change what it will end in. */
  lemma WorkMeaning(guard: bool, s: State, newId: Id)
    requires s.r.Running? && WorkStep(guard, s, newId).Some?
    ensures var t := WorkStep(guard, s, newId).value;
            t.r.Running? ==>
              && t == s.(r := t.r) && t.r.id == s.r.id && t.r.idle == s.r.idle
              && Unwind(t.r.stack, Expected(t.r.focus)) == Unwind(s.r.stack, Expected(s.r.focus))
  {
    var t := WorkStep(guard, s, newId).value;
    if s.r.focus.Code? && s.r.focus.code.Call? && t.r.Running? {
      assert t.r.stack[1..] == s.r.stack;
    }
  }

  lemma RunningKeeps(guard: bool, s: State, r: RThread)
    requires Inv(guard, s) && !s.aborted && s.r.Running? && r.Running? && r.id == s.r.id && r.idle == s.r.idle
    requires Unwind(r.stack, Expected(r.focus)) == Unwind(s.r.stack, Expected(s.r.focus))
    ensures Inv(guard, s.(r := r))
  {
    hide Unwind, Expected, Good;
    assert forall j :: StageOf(r, j) == StageOf(s.r, j);
  }

  lemma AbortKeeps(guard: bool, s: State, id: Id, idle: bool, o: Outcome)
    requires Inv(guard, s) && s.r == Running(id, idle, Ended(o), [])
    requires id in s.calls && Aborts(s.calls[id].task, idle)
    ensures Inv(guard, s.(aborted := true))
  {
    hide Unwind, Expected, Good, Aborts;
    assert forall j :: StageOf(s.r, j) == StageOf(s.(aborted := true).r, j);
  }

  lemma FinishKeeps(guard: bool, s: State, id: Id, idle: bool, o: Outcome)
    requires Inv(guard, s) && !s.aborted && s.r == Running(id, idle, Ended(o), [])
    ensures id in s.calls && Inv(guard, FinishStep(s, id, idle, o))
  {
    assert o == ResultOf(s.calls[id].task);
    GoodAt(guard, s, id);
    hide Inv, ResultOf;
    var x := s.calls[id];
    if o.Panic? && (idle || !x.task.recovers) {
      AbortKeeps(guard, s, id, idle, o);
    } else if idle {
      UpdateKeeps(guard, s, id, x.(slot := Some(o), signal := true), Idle);
    } else if o.RError? {
      UpdateKeeps(guard, s, id, x, SendingFinished(id, false));
    } else {
      UpdateKeeps(guard, s, id, x.(slot := Some(o)), SendingFinished(id, true));
    }
  }

  lemma FinishedKeeps(guard: bool, s: State, id: Id, ok: bool)
    requires Inv(guard, s) && !s.aborted && s.r == SendingFinished(id, ok)
    ensures id in s.calls && Inv(guard, Update(s, id, Receive(s.calls[id], WaitFinished, Released(ok)), Idle))
  {
    GoodAt(guard, s, id);
    hide Inv, ResultOf;
    UpdateKeeps(guard, s, id, Receive(s.calls[id], WaitFinished, Released(ok)), Idle);
  }

  lemma EnqueueKeeps(guard: bool, s: State, id: Id, task: Task)
    requires Inv(guard, s) && !s.aborted && id !in s.calls
    ensures var t := Enqueue(s, id, task); Inv(guard, t) && t.r == s.r && !t.aborted && At(t, id, WaitStarted)
  {
    hide Unwind, Expected, ResultOf;
    var t := Enqueue(s, id, task);
    assert id !in s.queue && forall j :: j in t.queue <==> j in s.queue || j == id;
    assert StageOf(s.r, id) == Absent;
  }

  /** Without the guard, a nested call queues its closure like any other, and waits. */
  lemma AwaitKeeps(s: State, nested: Id)
    requires Inv(false, s) && !s.aborted && s.r.Running? && At(s, nested, WaitStarted)
    ensures Inv(false, s.(r := AwaitingItself(s.r.id, s.r.idle, nested)))
  {
    hide Unwind, Expected, Good;
    assert forall j :: StageOf(AwaitingItself(s.r.id, s.r.idle, nested), j) == StageOf(s.r, j);
  }

  lemma WorkKeeps(guard: bool, s: State, newId: Id)
    requires Inv(guard, s) && !s.aborted && s.r.Running? && WorkStep(guard, s, newId).Some?
    ensures Inv(guard, WorkStep(guard, s, newId).value)
  {
    hide Inv, Unwind, Expected, Enqueue;
    var t := WorkStep(guard, s, newId).value;
    if t.r.Running? {
      WorkMeaning(guard, s, newId);
      RunningKeeps(guard, s, t.r);
    } else {
      var task := Task(s.r.focus.code.inner, s.r.focus.env, s.calls[s.r.id].task.recovers);
      EnqueueKeeps(false, s, newId, task);
      AwaitKeeps(Enqueue(s, newId, task), newId);
    }
  }

  lemma RThreadKeeps(guard: bool, s: State, e: Event)
    requires Inv(guard, s) && !s.aborted && RThreadStep(guard, s, e).Some?
    ensures Inv(guard, RThreadStep(guard, s, e).value)
  {
    hide Inv, Update, Receive, FinishStep, WorkStep, Pop;
    match s.r
    case Idle => if e.Take? { TakeKeeps(guard, s); } else { AcceptKeeps(guard, s, e.id); }
    case SendingStarted(id) => StartedKeeps(guard, s, id);
    case Running(id, idle, focus, stack) =>
      if e.Work? { WorkKeeps(guard, s, e.newId); } else { FinishKeeps(guard, s, id, idle, focus.outcome); }
    case SendingFinished(id, ok) => FinishedKeeps(guard, s, id, ok);
  }

  lemma OfferKeeps(guard: bool, s: State, id: Id, task: Task)
    requires Inv(guard, s) && !s.aborted && id !in s.calls
    ensures Inv(guard, Update(s, id, Entry(Offering, task, None, false), s.r))
  {
    hide Unwind, Expected, ResultOf;
    assert id !in s.queue && StageOf(s.r, id) == Absent;
    UpdateKeeps(guard, s, id, Entry(Offering, task, None, false), s.r);
  }

  /** A caller that collects its result or gives up leaves the R thread alone. */
  lemma CallerMoves(guard: bool, s: State, id: Id, x: Entry)
    requires Inv(guard, s) && !s.aborted && id in s.calls && StageOf(s.r, id) == Absent && id !in s.queue
    requires x.task == s.calls[id].task && Good(x, Absent, false)
    ensures Inv(guard, Update(s, id, x, s.r))
  {
    assert InHand(Update(s, id, x, s.r)) by {
      hide Unwind, Expected, ResultOf;
      if s.r.AwaitingItself? { GoodAt(guard, s, s.r.nested); }
    }
    hide InHand, Good;
    UpdateKeeps(guard, s, id, x, s.r);
  }

  lemma CallerKeeps(guard: bool, s: State, e: Event)
    requires Inv(guard, s) && !s.aborted && CallerStep(guard, s, e).Some?
    ensures Inv(guard, CallerStep(guard, s, e).value)
  {
    hide Inv, Update, Enqueue, ResultOf;
    match e
    case Submit(id, task) => EnqueueKeeps(guard, s, id, task);
    case Offer(id, task) => OfferKeeps(guard, s, id, task);
    case Collect(id) =>
      GoodAt(guard, s, id);
      if At(s, id, Released(true)) {
        CallerMoves(guard, s, id, TakeSlot(s.calls[id]));
      } else {
        CallerMoves(guard, s, id, s.calls[id].(caller := Left(RError)));
      }
    case GiveUp(id) =>
      GoodAt(guard, s, id);
      CallerMoves(guard, s, id, s.calls[id].(caller := Busy));
    case CollectIdle(id) =>
      GoodAt(guard, s, id);
      CallerMoves(guard, s, id, TakeSlot(s.calls[id]).(signal := false));
  }

  lemma {:induction false} RunKeeps(guard: bool, s: State, events: seq<Event>)
    requires Inv(guard, s) && RunFrom(guard, s, events).Some?
    ensures Inv(guard, RunFrom(guard, s, events).value)
    decreases |events|
  {
    if events != [] {
      hide Inv, CallerStep, RThreadStep;
      if ByCaller(events[0]) {
        CallerKeeps(guard, s, events[0]);
      } else {
        RThreadKeeps(guard, s, events[0]);
      }
      RunKeeps(guard, Step(guard, s, events[0]).value, events[1..]);
    }
  }

  // ---------------------------------------------------------------- what runs guarantee

  lemma InitialInv(guard: bool)
    ensures Inv(guard, Initial())
  {
  }

  lemma RunIs(guard: bool, events: seq<Event>)
    ensures Run(guard, events) == RunFrom(guard, Initial(), events)
  {
  }

  lemma ReachedInv(guard: bool, events: seq<Event>)
    requires Run(guard, events).Some?
    ensures Inv(guard, Run(guard, events).value)
  {
    InitialInv(guard);
    RunIs(guard, events);
    hide *;
    RunKeeps(guard, Initial(), events);
  }

  /** While a closure is queued or runs, its caller is blocked inside `r_task`, so what it borrows is alive. */
  lemma CallerStaysBlocked(guard: bool, events: seq<Event>, id: Id)
    requires Run(guard, events).Some?
    ensures var s := Run(guard, events).value;
            && (s.r.Running? ==> At(s, s.r.id, if s.r.idle then WaitDone else WaitFinished))
            && (s.r.SendingStarted? ==> At(s, s.r.id, WaitStarted))
            && (id in s.queue ==> At(s, id, WaitStarted))
  {
    ReachedInv(guard, events);
    var s := Run(guard, events).value;
    hide Run, Unwind, Expected, ResultOf;
    if id in s.queue { GoodAt(guard, s, id); }
    if s.r.Running? || s.r.SendingStarted? { GoodAt(guard, s, s.r.id); }
  }

  /**
   No caller ever gets a wrong status or an empty cell, and each one leaves with the outcome that its
   own closure means, nested calls and all: its value, its panic, or the report of its R error.
   */
  lemma OwnOutcome(guard: bool, events: seq<Event>, id: Id)
    requires Run(guard, events).Some? && id in Run(guard, events).value.calls
    ensures var x := Run(guard, events).value.calls[id];
            x.caller != Broken && (x.caller.Left? ==> x.caller.outcome == ResultOf(x.task))
  {
    hide Inv, Run, ResultOf;
    ReachedInv(guard, events);
    GoodAt(guard, Run(guard, events).value, id);
  }

  /** A new caller on another thread is always let in, guard or not: its task is queued last, or its offer stands. */
  lemma SubmitQueues(guard: bool, s: State, id: Id, task: Task)
    requires !s.aborted && id !in s.calls
    ensures var t := Step(guard, s, Submit(id, task));
            && t.Some? && t.value.queue == s.queue + [id] && t.value.r == s.r
            && t.value.calls == s.calls[id := Entry(WaitStarted, task, None, false)]
    ensures var t := Step(guard, s, Offer(id, task));
            && t.Some? && t.value.queue == s.queue && t.value.r == s.r
            && t.value.calls == s.calls[id := Entry(Offering, task, None, false)]
  {
  }

  /** A task that has ended aborts the process exactly if it ended in a panic that nobody recovers. */
  lemma FinishAborts(guard: bool, s: State)
    requires Inv(guard, s) && !s.aborted && s.r.Running? && s.r.focus.Ended? && s.r.stack == []
    ensures var t := Step(guard, s, Finish);
            && t.Some? && s.r.id in s.calls
            && (t.value.aborted <==>
                  ResultOf(s.calls[s.r.id].task).Panic? && (s.r.idle || !s.calls[s.r.id].task.recovers))
  {
    assert s.r.focus.outcome == ResultOf(s.calls[s.r.id].task);
    hide Eval, Good;
  }

  /** In every run, the process aborts only on such a task, and every such task that ends aborts it. */
  lemma AbortsExactly(guard: bool, events: seq<Event>)
    requires Run(guard, events).Some?
    ensures var s := Run(guard, events).value;
            && (s.aborted ==> s.r.Running? && s.r.id in s.calls && ResultOf(s.calls[s.r.id].task).Panic?
                              && (s.r.idle || !s.calls[s.r.id].task.recovers))
            && (!s.aborted && s.r.Running? && s.r.focus.Ended? && s.r.stack == [] ==>
                  s.r.id in s.calls && Step(guard, s, Finish).Some?
                  && (Step(guard, s, Finish).value.aborted <==>
                        ResultOf(s.calls[s.r.id].task).Panic? && (s.r.idle || !s.calls[s.r.id].task.recovers)))
  {
    hide Run, Step, Eval;
    ReachedInv(guard, events);
    var s := Run(guard, events).value;
    if !s.aborted && s.r.Running? && s.r.focus.Ended? && s.r.stack == [] {
      FinishAborts(guard, s);
    }
  }

  /** The tasks submitted, in order. */
  function Submissions(events: seq<Event>): seq<Id> {
    if events == [] then []
    else (if events[0].Submit? then [events[0].id] else []) + Submissions(events[1..])
  }

  lemma StepQueues(s: State, e: Event)
    requires Step(true, s, e).Some?
    ensures var t := Step(true, s, e).value;
            t.taken + t.queue == s.taken + s.queue + if e.Submit? then [e.id] else []
  {
    if e.Take? { assert s.queue == [s.queue[0]] + s.queue[1..]; }
  }

  lemma Regroup(a: seq<Id>, b: seq<Id>, c: seq<Id>)
    ensures (a + b) + c == a + (b + c)
  {
  }

  lemma {:induction false} RunQueues(s: State, events: seq<Event>)
    requires RunFrom(true, s, events).Some?
    ensures var t := RunFrom(true, s, events).value; t.taken + t.queue == s.taken + s.queue + Submissions(events)
    decreases |events|
  {
    if events == [] {
      assert s.taken + s.queue + [] == s.taken + s.queue;
    } else {
      hide Step;
      var t := Step(true, s, events[0]).value;
      StepQueues(s, events[0]);
      RunQueues(t, events[1..]);
      Regroup(s.taken + s.queue, if events[0].Submit? then [events[0].id] else [], Submissions(events[1..]));
    }
  }

  /** First come, first served: in every run, the tasks taken and then those queued are those submitted, in order. */
  lemma FirstCome(events: seq<Event>)
    requires Run(true, events).Some?
    ensures var s := Run(true, events).value; Submissions(events) == s.taken + s.queue
  {
    RunQueues(Initial(), events);
    assert [] + [] + Submissions(events) == Submissions(events);
  }

  predicate Blocked(k: Caller) {
    k.WaitStarted? || k.WaitFinished? || k.Released? || k.Offering? || k.WaitDone?
  }

  /** The next step that does not depend on new callers. */
  function NextEvent(s: State, id: Id): Event
    requires id in s.calls
  {
    match s.r
    case SendingStarted(_) => Started
    case Running(_, _, focus, stack) => if focus.Ended? && stack == [] then Finish else Work(0)
    case SendingFinished(_, _) => Finished
    case _ =>
      match s.calls[id].caller
      case Released(_) => Collect(id)
      case Offering => Accept(id)
      case WaitDone => CollectIdle(id)
      case _ => Take
  }

  lemma NextPossible(s: State, id: Id)
    requires Inv(true, s) && !s.aborted && id in s.calls && Blocked(s.calls[id].caller)
    ensures Step(true, s, NextEvent(s, id)).Some?
  {
    hide Unwind, Expected, ResultOf;
    GoodAt(true, s, id);
  }

  /** No deadlock: as long as some caller is blocked, a step is possible. */
  lemma NoDeadlock(events: seq<Event>, id: Id)
    requires Run(true, events).Some? && !Run(true, events).value.aborted
    requires id in Run(true, events).value.calls && Blocked(Run(true, events).value.calls[id].caller)
    ensures Step(true, Run(true, events).value, NextEvent(Run(true, events).value, id)).Some?
  {
    hide *;
    ReachedInv(true, events);
    NextPossible(Run(true, events).value, id);
  }

  // ---------------------------------------------------------------- without the guard

  /** Without the guard, a nested call makes the R thread wait for a task that only it could start. */
  lemma WaitsForItself(s: State, nested: Id)
    requires Inv(false, s) && !s.aborted && nested !in s.calls
    requires s.r.Running? && s.r.focus.Code? && s.r.focus.code.Call?
    ensures var t := Step(false, s, Work(nested));
            t.Some? && t.value.r == AwaitingItself(s.r.id, s.r.idle, nested) && Inv(false, t.value)
  {
    hide Unwind, Expected, ResultOf;
    WorkKeeps(false, s, nested);
  }

  lemma StillWaiting(guard: bool, s: State)
    requires Inv(guard, s) && s.r.AwaitingItself?
    ensures At(s, s.r.nested, WaitStarted) && At(s, s.r.id, if s.r.idle then WaitDone else WaitFinished)
  {
    hide ResultOf;
    GoodAt(guard, s, s.r.id);
  }

  lemma OnlyCallersMove(guard: bool, s: State, e: Event)
    requires s.r.AwaitingItself? && Step(guard, s, e).Some?
    ensures ByCaller(e) && CallerStep(guard, s, e) == Step(guard, s, e)
    ensures Step(guard, s, e).value.r == s.r && !s.aborted
  {
  }

  /** From then on nothing that can happen gets it out: the task stays unstarted, and its caller blocked. */
  lemma {:induction false} NeverGetsOut(guard: bool, s: State, events: seq<Event>)
    requires Inv(guard, s) && s.r.AwaitingItself? && RunFrom(guard, s, events).Some?
    ensures var t := RunFrom(guard, s, events).value;
            && t.r == s.r && At(t, s.r.nested, WaitStarted)
            && At(t, s.r.id, if s.r.idle then WaitDone else WaitFinished)
    decreases |events|
  {
    hide Inv, Step, CallerStep, At;
    StillWaiting(guard, s);
    if events != [] {
      OnlyCallersMove(guard, s, events[0]);
      CallerKeeps(guard, s, events[0]);
      NeverGetsOut(guard, CallerStep(guard, s, events[0]).value, events[1..]);
    }
  }

  /**
   So in every run without the guard, once a running closure makes a nested call, no continuation ever
   starts the nested task or lets the caller of the outer one go.
   */
  lemma GuardNeeded(events: seq<Event>, nested: Id, more: seq<Event>)
    requires Run(false, events).Some?
    requires var s := Run(false, events).value;
             && !s.aborted && nested !in s.calls
             && s.r.Running? && s.r.focus.Code? && s.r.focus.code.Call?
             && RunFrom(false, s, [Work(nested)] + more).Some?
    ensures var s := Run(false, events).value;
            var t := RunFrom(false, s, [Work(nested)] + more).value;
            && t.r == AwaitingItself(s.r.id, s.r.idle, nested) && At(t, nested, WaitStarted)
            && At(t, s.r.id, if s.r.idle then WaitDone else WaitFinished)
  {
    var s := Run(false, events).value;
    hide Run, Inv, Step, At;
    ReachedInv(false, events);
    WaitsForItself(s, nested);
    assert ([Work(nested)] + more)[1..] == more;
    NeverGetsOut(false, Step(false, s, Work(nested)).value, more);
  }
}
