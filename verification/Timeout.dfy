/**
 Nested timeouts on the R thread: `with_timeout`, `check_timeout` and `try_catch_with_timeout` in
 `crates/ark/src/timeout.rs`, with the guards of `crates/harp/src/raii.rs`. What runs inside a
 timeout is any tree of actions, under a clock that never goes back.
 */
module Timeout {
  import opened Prelude

  /**
   What R-thread code may do, as far as timeouts can tell. A `Check` runs the polled-events hook and
   then R acts on a pending interrupt, or does so only later (`acts`). `Throw` is any other longjump.
   `Guard` is a scoped change of the interrupts-suspended flag, whose destructor a longjump skips.
   */
  datatype Action =
    | Tick(dt: nat)
    | Check(acts: bool)
    | Throw
    | TryCatch(body: seq<Action>)
    | Guard(suspended: bool, body: seq<Action>)
    | Frame(timeout: nat, body: seq<Action>)

  /** The clock, the two thread-local cells, and R's two interrupt flags. */
  datatype Regs = Regs(now: nat, deadline: Option<nat>, timedOut: bool, pending: bool, suspended: bool)

  /** `checks` are the times of the checks made outside nested frames. */
  datatype Trace = Trace(regs: Regs, jumped: bool, checks: seq<nat>)

  datatype Outcome = Completed(failed: bool) | TimedOut

  // ---------------------------------------------------------------- the functional view

  function Checked(r: Regs): Regs {
    if r.timedOut || r.deadline.None? || r.now < r.deadline.value then r
    else r.(timedOut := true, pending := true)
  }

  function Entered(r: Regs, timeout: nat): Regs {
    r.(deadline := Some(r.now + timeout), timedOut := false, suspended := false)
  }

  /** The registers after a frame entered at `r` whose body ended at `b`. */
  function Left(r: Regs, b: Regs): Regs {
    b.(suspended := r.suspended, pending := b.pending && !b.timedOut, deadline := r.deadline, timedOut := r.timedOut)
  }

  function Exec(r: Regs, body: seq<Action>): Trace
    decreases body, 1
  {
    if body == [] then Trace(r, false, [])
    else
      var first := ExecOne(r, body[0]);
      if first.jumped then first
      else
        var rest := Exec(first.regs, body[1..]);
        Trace(rest.regs, rest.jumped, first.checks + rest.checks)
  }

  function ExecOne(r: Regs, a: Action): Trace
    decreases a, 0
  {
    match a
    case Tick(dt) => Trace(r.(now := r.now + dt), false, [])
    case Check(acts) =>
      var c := Checked(r);
      if acts && c.pending && !c.suspended then Trace(c.(pending := false), true, [r.now])
      else Trace(c, false, [r.now])
    case Throw => Trace(r, true, [])
    case TryCatch(body) =>
      var t := Exec(r, body);
      Trace(t.regs, false, t.checks)
    case Guard(suspended, body) =>
      var t := Exec(r.(suspended := suspended), body);
      Trace(if t.jumped then t.regs else t.regs.(suspended := r.suspended), t.jumped, t.checks)
    case Frame(timeout, body) =>
      var t := Exec(Entered(r, timeout), body);
      Trace(Left(r, t.regs), false, [])
  }

  /** What `with_timeout` reports. */
  function Report(r: Regs, timeout: nat, body: seq<Action>): Outcome {
    var t := Exec(Entered(r, timeout), body);
    if t.regs.timedOut then TimedOut else Completed(t.jumped)
  }

  // ---------------------------------------------------------------- the program

  class RThread {
    var now: nat
    /** `DEADLINE` and `TIMED_OUT`. */
    var deadline: Option<nat>
    var timedOut: bool
    /** `R_interrupts_pending` and `R_interrupts_suspended`. */
    var pending: bool
    var suspended: bool

    function Current(): Regs
      reads this
    {
      Regs(now, deadline, timedOut, pending, suspended)
    }

    /**
     `check_timeout`. It changes nothing but the tripped and the pending flag, and those only to trip:
     when a deadline is set and reached, and not a second time.
     */
    method CheckTimeout()
      modifies this
      ensures Current() == Checked(old(Current()))
      ensures Current() == old(Current()).(timedOut := timedOut, pending := pending)
      ensures timedOut <==> old(timedOut) || (old(deadline).Some? && old(now) >= old(deadline).value)
      ensures pending <==> old(pending) || (timedOut && !old(timedOut))
    {
      if timedOut {
        return;
      }
      if deadline.None? {
        return;
      }
      if now >= deadline.value {
        timedOut := true;
        pending := true;
      }
    }

    /** `with_timeout`, for a body whose actions are `body`. */
    method WithTimeout(timeout: nat, body: seq<Action>) returns (outcome: Outcome)
      modifies this
      ensures Current() == ExecOne(old(Current()), Frame(timeout, body)).regs
      ensures outcome == Report(old(Current()), timeout, body)
      ensures deadline == old(deadline) && timedOut == old(timedOut) && suspended == old(suspended) && old(now) <= now
      ensures outcome == TimedOut ==> !pending
      ensures var inner := Entered(old(Current()), timeout);
              && (outcome == TimedOut <==> Reached(old(now) + timeout, Exec(inner, body).checks))
              && (outcome == Completed(true) ==> LongJumps(inner, body))
              && (outcome == Completed(false) ==> !LongJumps(inner, body))
      decreases body, 3
    {
      BodyKeeps(Entered(Current(), timeout), body);
      ReportIs(Current(), timeout, body);
      var oldDeadline, oldTimedOut := deadline, timedOut;
      deadline, timedOut := Some(now + timeout), false;
      var jumped := TryCatchWithTimeout(body);
      var tripped := timedOut;
      if tripped {
        pending := false;
      }
      deadline, timedOut := oldDeadline, oldTimedOut;
      outcome := if tripped then TimedOut else Completed(jumped);
    }

    /** `try_catch_with_timeout`: the guard is outside the `try_catch`, so its destructor always runs. */
    method TryCatchWithTimeout(body: seq<Action>) returns (jumped: bool)
      modifies this
      ensures var t := Exec(old(Current()).(suspended := false), body);
              Current() == t.regs.(suspended := old(suspended)) && jumped == t.jumped
      decreases body, 2
    {
      var oldSuspended := suspended;
      suspended := false;
      jumped := Perform(body);
      suspended := oldSuspended;
    }

    /** Arbitrary R-thread code; the result says whether it left by a longjump. */
    method Perform(body: seq<Action>) returns (jumped: bool)
      modifies this
      ensures var t := Exec(old(Current()), body); Current() == t.regs && jumped == t.jumped
      decreases body, 1
    {
      hide ExecOne;
      if body == [] {
        return false;
      }
      jumped := PerformOne(body[0]);
      if jumped {
        return;
      }
      jumped := Perform(body[1..]);
    }

    method PerformOne(action: Action) returns (jumped: bool)
      modifies this
      ensures var t := ExecOne(old(Current()), action); Current() == t.regs && jumped == t.jumped
      decreases action, 0
    {
      hide Exec;
      jumped := false;
      match action {
        case Tick(dt) =>
          now := now + dt;
        case Check(acts) =>
          CheckTimeout();
          if acts && pending && !suspended {
            pending := false;
            return true;
          }
        case Throw =>
          return true;
        case TryCatch(inner) =>
          var _ := Perform(inner);
        case Guard(value, inner) =>
          var oldSuspended := suspended;
          suspended := value;
          jumped := Perform(inner);
          if jumped {
            return;
          }
          suspended := oldSuspended;
        case Frame(timeout, inner) =>
          var _ := WithTimeout(timeout, inner);
      }
    }
  }

  // ---------------------------------------------------------------- laws

  /** A body never touches its frame's deadline, never resets its tripped flag, and time goes on. */
  lemma {:induction false} BodyKeeps(r: Regs, body: seq<Action>)
    ensures var t := Exec(r, body);
            t.regs.deadline == r.deadline && (r.timedOut ==> t.regs.timedOut) && r.now <= t.regs.now
    decreases body, 1
  {
    if body != [] {
      ActionKeeps(r, body[0]);
      BodyKeeps(ExecOne(r, body[0]).regs, body[1..]);
    }
  }

  lemma {:induction false} ActionKeeps(r: Regs, a: Action)
    ensures var t := ExecOne(r, a);
            t.regs.deadline == r.deadline && (r.timedOut ==> t.regs.timedOut) && r.now <= t.regs.now
    decreases a, 0
  {
    match a
    case TryCatch(body) => BodyKeeps(r, body);
    case Guard(suspended, body) => BodyKeeps(r.(suspended := suspended), body);
    case Frame(timeout, body) => BodyKeeps(Entered(r, timeout), body);
    case _ =>
  }

  /** Whatever happens inside, a frame restores the deadline, the tripped flag and the suspended flag. */
  lemma FrameRestores(r: Regs, timeout: nat, body: seq<Action>)
    ensures var q := ExecOne(r, Frame(timeout, body)).regs;
            q.deadline == r.deadline && q.timedOut == r.timedOut && q.suspended == r.suspended && r.now <= q.now
  {
    BodyKeeps(Entered(r, timeout), body);
  }

  predicate Reached(deadline: nat, checks: seq<nat>) {
    exists i :: 0 <= i < |checks| && checks[i] >= deadline
  }

  lemma {:induction false} BodyTrips(r: Regs, body: seq<Action>)
    requires r.deadline.Some?
    ensures var t := Exec(r, body); t.regs.timedOut <==> r.timedOut || Reached(r.deadline.value, t.checks)
    decreases body, 1
  {
    if body != [] {
      var d := r.deadline.value;
      var first := ExecOne(r, body[0]);
      ActionTrips(r, body[0]);
      ActionKeeps(r, body[0]);
      if !first.jumped {
        var rest := Exec(first.regs, body[1..]);
        BodyTrips(first.regs, body[1..]);
        ReachedConcat(d, first.checks, rest.checks);
      }
    }
  }

  lemma ReachedConcat(d: nat, a: seq<nat>, b: seq<nat>)
    ensures Reached(d, a + b) <==> Reached(d, a) || Reached(d, b)
  {
    if Reached(d, a) {
      var i :| 0 <= i < |a| && a[i] >= d;
      assert (a + b)[i] >= d;
    }
    if Reached(d, b) {
      var i :| 0 <= i < |b| && b[i] >= d;
      assert (a + b)[|a| + i] >= d;
    }
  }

  lemma {:induction false} ActionTrips(r: Regs, a: Action)
    requires r.deadline.Some?
    ensures var t := ExecOne(r, a); t.regs.timedOut <==> r.timedOut || Reached(r.deadline.value, t.checks)
    decreases a, 0
  {
    match a
    case Check(acts) => assert [r.now][0] == r.now;
    case TryCatch(body) => BodyTrips(r, body);
    case Guard(suspended, body) => BodyTrips(r.(suspended := suspended), body);
    case _ =>
  }

  /** A frame reports a timeout exactly when a check of its own, outside nested frames, came too late. */
  lemma TimedOutIff(r: Regs, timeout: nat, body: seq<Action>)
    ensures Report(r, timeout, body) == TimedOut <==>
            Reached(r.now + timeout, Exec(Entered(r, timeout), body).checks)
  {
    BodyTrips(Entered(r, timeout), body);
  }

  /** A pending interrupt is owed by this frame or, if `outer`, by one around it. */
  predicate Owed(r: Regs, outer: bool) {
    r.pending ==> r.timedOut || outer
  }

  lemma {:induction false} BodyOwed(r: Regs, body: seq<Action>, outer: bool)
    requires Owed(r, outer)
    ensures Owed(Exec(r, body).regs, outer)
    decreases body, 1
  {
    if body != [] {
      ActionOwed(r, body[0], outer);
      BodyOwed(ExecOne(r, body[0]).regs, body[1..], outer);
    }
  }

  lemma {:induction false} ActionOwed(r: Regs, a: Action, outer: bool)
    requires Owed(r, outer)
    ensures Owed(ExecOne(r, a).regs, outer)
    decreases a, 0
  {
    match a
    case TryCatch(body) => BodyOwed(r, body, outer);
    case Guard(suspended, body) => BodyOwed(r.(suspended := suspended), body, outer);
    case Frame(timeout, body) => BodyOwed(Entered(r, timeout), body, outer || r.timedOut);
    case _ =>
  }

  /** A point of a run: the tripped flags saved by the frames around, outermost first, and the registers. */
  datatype Point = Point(saved: seq<bool>, regs: Regs)

  /** Every point a body goes through, inside nested frames too, in order. */
  function Points(saved: seq<bool>, r: Regs, body: seq<Action>): seq<Point>
    decreases body, 1
  {
    [Point(saved, r)] +
    if body == [] then []
    else
      var first := ExecOne(r, body[0]);
      PointsOne(saved, r, body[0]) + [Point(saved, first.regs)] +
      if first.jumped then [] else Points(saved, first.regs, body[1..])
  }

  /** The points inside one action; within a check, R has not yet acted when the hook returns. */
  function PointsOne(saved: seq<bool>, r: Regs, a: Action): seq<Point>
    decreases a, 0
  {
    match a
    case Check(_) => [Point(saved, Checked(r))]
    case TryCatch(body) => Points(saved, r, body)
    case Guard(suspended, body) => Points(saved, r.(suspended := suspended), body)
    case Frame(timeout, body) => Points(saved + [r.timedOut], Entered(r, timeout), body)
    case _ => []
  }

  /** A pending interrupt has a tripped frame: the current one, or one of those around it. */
  predicate HasTripped(p: Point) {
    p.regs.pending ==> p.regs.timedOut || true in p.saved
  }

  /** At every point of every run, a pending timeout interrupt belongs to a tripped frame on the stack. */
  lemma {:induction false} PendingHasFrame(saved: seq<bool>, r: Regs, body: seq<Action>)
    requires HasTripped(Point(saved, r))
    ensures forall p :: p in Points(saved, r, body) ==> HasTripped(p)
    decreases body, 1
  {
    if body != [] {
      var first := ExecOne(r, body[0]);
      ActionOwed(r, body[0], true in saved);
      PendingHasFrameOne(saved, r, body[0]);
      if !first.jumped {
        PendingHasFrame(saved, first.regs, body[1..]);
      }
    }
  }

  lemma {:induction false} PendingHasFrameOne(saved: seq<bool>, r: Regs, a: Action)
    requires HasTripped(Point(saved, r))
    ensures forall p :: p in PointsOne(saved, r, a) ==> HasTripped(p)
    decreases a, 0
  {
    match a
    case TryCatch(body) => PendingHasFrame(saved, r, body);
    case Guard(suspended, body) => PendingHasFrame(saved, r.(suspended := suspended), body);
    case Frame(timeout, body) => PendingHasFrame(saved + [r.timedOut], Entered(r, timeout), body);
    case _ =>
  }

  /** No timeout interrupt outlives the outermost call, nor arises outside one. */
  lemma NothingPendingOutside(r: Regs, body: seq<Action>)
    requires !r.pending && r.deadline.None? && !r.timedOut
    ensures !Exec(r, body).regs.pending && !Exec(r, body).regs.timedOut
  {
    OutsideStays(r, body);
    BodyOwed(r, body, false);
  }

  lemma {:induction false} OutsideStays(r: Regs, body: seq<Action>)
    requires r.deadline.None? && !r.timedOut
    ensures !Exec(r, body).regs.timedOut
    decreases body, 1
  {
    if body != [] {
      OutsideAction(r, body[0]);
      ActionKeeps(r, body[0]);
      OutsideStays(ExecOne(r, body[0]).regs, body[1..]);
    }
  }

  lemma {:induction false} OutsideAction(r: Regs, a: Action)
    requires r.deadline.None? && !r.timedOut
    ensures !ExecOne(r, a).regs.timedOut
    decreases a, 0
  {
    match a
    case TryCatch(body) => OutsideStays(r, body);
    case Guard(suspended, body) => OutsideStays(r.(suspended := suspended), body);
    case _ =>
  }

  // ---------------------------------------------------------------- the interrupt a nested timeout clears

  /** No longjump but those of interrupts, outside nested frames. */
  predicate NoThrow(body: seq<Action>)
    decreases body, 1
  {
    body == [] || (NoThrowOne(body[0]) && NoThrow(body[1..]))
  }

  predicate NoThrowOne(a: Action)
    decreases a, 0
  {
    match a
    case Throw => false
    case TryCatch(body) => NoThrow(body)
    case Guard(_, body) => NoThrow(body)
    case _ => true
  }

  /** Some frame that the body enters, at any depth, has a check of its own at or after its deadline. */
  predicate SomeLate(r: Regs, body: seq<Action>)
    decreases body, 1
  {
    body != [] &&
    (SomeLateOne(r, body[0]) || (!ExecOne(r, body[0]).jumped && SomeLate(ExecOne(r, body[0]).regs, body[1..])))
  }

  predicate SomeLateOne(r: Regs, a: Action)
    decreases a, 0
  {
    match a
    case TryCatch(body) => SomeLate(r, body)
    case Guard(suspended, body) => SomeLate(r.(suspended := suspended), body)
    case Frame(timeout, body) =>
      Reached(r.now + timeout, Exec(Entered(r, timeout), body).checks) || SomeLate(Entered(r, timeout), body)
    case _ => false
  }

  /** R acts on a pending interrupt somewhere in the body, at any depth: interrupts are live at a check that acts. */
  predicate Fires(r: Regs, body: seq<Action>)
    decreases body, 1
  {
    body != [] &&
    (FiresOne(r, body[0]) || (!ExecOne(r, body[0]).jumped && Fires(ExecOne(r, body[0]).regs, body[1..])))
  }

  predicate FiresOne(r: Regs, a: Action)
    decreases a, 0
  {
    match a
    case Check(acts) => acts && Checked(r).pending && !r.suspended
    case TryCatch(body) => Fires(r, body)
    case Guard(suspended, body) => Fires(r.(suspended := suspended), body)
    case Frame(timeout, body) => Fires(Entered(r, timeout), body)
    case _ => false
  }

  lemma {:induction false} BodyPending(r: Regs, body: seq<Action>)
    requires r.deadline.None? || !Exec(r, body).regs.timedOut || r.timedOut
    ensures Exec(r, body).regs.pending <==> r.pending && !SomeLate(r, body) && !Fires(r, body)
    decreases body, 1
  {
    if body != [] {
      var first := ExecOne(r, body[0]);
      ActionKeeps(r, body[0]);
      BodyKeeps(first.regs, body[1..]);
      ActionPending(r, body[0]);
      if !first.jumped {
        BodyPending(first.regs, body[1..]);
      }
    }
  }

  lemma {:induction false} ActionPending(r: Regs, a: Action)
    requires r.deadline.None? || !ExecOne(r, a).regs.timedOut || r.timedOut
    ensures ExecOne(r, a).regs.pending <==> r.pending && !SomeLateOne(r, a) && !FiresOne(r, a)
    decreases a, 0
  {
    match a
    case TryCatch(body) => BodyPending(r, body);
    case Guard(suspended, body) => BodyPending(r.(suspended := suspended), body);
    case Frame(timeout, body) =>
      BodyTrips(Entered(r, timeout), body);
      if !Reached(r.now + timeout, Exec(Entered(r, timeout), body).checks) {
        BodyPending(Entered(r, timeout), body);
      }
    case _ =>
  }

  /**
   Exactly when an interrupt owed to an outer frame survives a nested one: when no check of the nested
   frame, nor of any frame inside it, comes at or after that frame's deadline, and R acts on no
   interrupt in there. See `OuterInterruptLost` and `OuterInterruptSwallowed` for the two ways to lose it.
   */
  lemma OuterInterruptSurvives(r: Regs, timeout: nat, body: seq<Action>)
    requires r.pending
    ensures ExecOne(r, Frame(timeout, body)).regs.pending <==>
            && !Reached(r.now + timeout, Exec(Entered(r, timeout), body).checks)
            && !SomeLate(Entered(r, timeout), body)
            && !Fires(Entered(r, timeout), body)
  {
    BodyTrips(Entered(r, timeout), body);
    if !Reached(r.now + timeout, Exec(Entered(r, timeout), body).checks) {
      BodyPending(Entered(r, timeout), body);
    }
  }

  /**
   R fires the outer frame's interrupt inside the nested frame, which turns interrupts on, and the
   nested `try_catch` swallows it: no frame times out, yet nothing is pending for the outer frame.
   */
  lemma OuterInterruptSwallowed(r: Regs, timeout: nat)
    requires r.pending && r.timedOut && timeout > 0
    ensures var after := ExecOne(r, Frame(timeout, [Check(true)])).regs;
            Report(r, timeout, [Check(true)]) == Completed(true) && after.timedOut && !after.pending
    ensures !SomeLateOne(r, Frame(timeout, [Check(true)]))
  {
    var inner := Entered(r, timeout);
    assert [Check(true)][1..] == [] && !Checked(inner).timedOut;
    assert Exec(inner, [Check(true)]) == ExecOne(inner, Check(true));
  }

  /** The other way to lose it: an outer frame trips, R has yet to act, and an inner frame times out. */
  lemma OuterInterruptLost(r: Regs, d: nat)
    requires r.deadline == Some(d) && r.now >= d && !r.timedOut
    ensures var before := ExecOne(r, Check(false)).regs;
            var after := ExecOne(before, Frame(0, [Check(false)])).regs;
            before.timedOut && before.pending && after.timedOut && !after.pending
  {
    var before := ExecOne(r, Check(false)).regs;
    var inner := Entered(before, 0);
    assert [Check(false)][1..] == [];
    assert Exec(inner, [Check(false)]).regs == ExecOne(inner, Check(false)).regs;
  }

  /** After that, the outer body is never interrupted again, however long it runs: checks ask only once. */
  lemma {:induction false} NeverInterruptedAgain(r: Regs, body: seq<Action>)
    requires r.timedOut && !r.pending && NoThrow(body)
    ensures var t := Exec(r, body); !t.jumped && t.regs.timedOut && !t.regs.pending
    decreases body, 1
  {
    if body != [] {
      NeverInterruptedBy(r, body[0]);
      NeverInterruptedAgain(ExecOne(r, body[0]).regs, body[1..]);
    }
  }

  lemma {:induction false} NeverInterruptedBy(r: Regs, a: Action)
    requires r.timedOut && !r.pending && NoThrowOne(a)
    ensures var t := ExecOne(r, a); !t.jumped && t.regs.timedOut && !t.regs.pending
    decreases a, 0
  {
    match a
    case TryCatch(body) => NeverInterruptedAgain(r, body);
    case Guard(suspended, body) => NeverInterruptedAgain(r.(suspended := suspended), body);
    case Frame(timeout, body) => BodyOwed(Entered(r, timeout), body, false);
    case _ =>
  }

  // ---------------------------------------------------------------- what a frame reports

  /**
   The body leaves by a longjump: it comes to a `Throw`, or R fires an interrupt, outside `TryCatch`
   and nested frames, which catch both.
   */
  predicate LongJumps(r: Regs, body: seq<Action>)
    decreases body, 1
  {
    body != [] && (LongJumpsOne(r, body[0]) || LongJumps(ExecOne(r, body[0]).regs, body[1..]))
  }

  predicate LongJumpsOne(r: Regs, a: Action)
    decreases a, 0
  {
    match a
    case Throw => true
    case Check(acts) => acts && Checked(r).pending && !r.suspended
    case Guard(suspended, body) => LongJumps(r.(suspended := suspended), body)
    case _ => false
  }

  lemma {:induction false} BodyJumps(r: Regs, body: seq<Action>)
    ensures Exec(r, body).jumped <==> LongJumps(r, body)
    decreases body, 1
  {
    if body != [] {
      ActionJumps(r, body[0]);
      BodyJumps(ExecOne(r, body[0]).regs, body[1..]);
    }
  }

  lemma {:induction false} ActionJumps(r: Regs, a: Action)
    ensures ExecOne(r, a).jumped <==> LongJumpsOne(r, a)
    decreases a, 0
  {
    match a
    case Guard(suspended, body) => BodyJumps(r.(suspended := suspended), body);
    case _ =>
  }

  /**
   What `with_timeout` reports, for every body: a timeout if a check of its own came too late;
   otherwise a failed evaluation exactly if the body left by a longjump.
   */
  lemma ReportIs(r: Regs, timeout: nat, body: seq<Action>)
    ensures var inner := Entered(r, timeout);
            Report(r, timeout, body) ==
            if Reached(r.now + timeout, Exec(inner, body).checks) then TimedOut
            else if LongJumps(inner, body) then Completed(true)
            else Completed(false)
  {
    TimedOutIff(r, timeout, body);
    BodyJumps(Entered(r, timeout), body);
  }

  /** Without a throw and without an interrupt that fires, a body ends normally, with the interrupts it began with. */
  lemma {:induction false} QuietBody(r: Regs, body: seq<Action>)
    requires NoThrow(body) && !Fires(r, body)
    ensures !LongJumps(r, body) && Exec(r, body).regs.suspended == r.suspended
    decreases body, 1
  {
    if body != [] {
      QuietAction(r, body[0]);
      ActionJumps(r, body[0]);
      QuietBody(ExecOne(r, body[0]).regs, body[1..]);
    }
  }

  lemma {:induction false} QuietAction(r: Regs, a: Action)
    requires NoThrowOne(a) && !FiresOne(r, a)
    ensures !LongJumpsOne(r, a) && ExecOne(r, a).regs.suspended == r.suspended
    decreases a, 0
  {
    match a
    case TryCatch(body) => QuietBody(r, body);
    case Guard(suspended, body) =>
      QuietBody(r.(suspended := suspended), body);
      BodyJumps(r.(suspended := suspended), body);
    case _ =>
  }

  /** A quiet body that is in time completes, and its result is handed back. */
  lemma QuietCompletes(r: Regs, timeout: nat, body: seq<Action>)
    requires NoThrow(body) && !Fires(Entered(r, timeout), body)
    requires !Reached(r.now + timeout, Exec(Entered(r, timeout), body).checks)
    ensures Report(r, timeout, body) == Completed(false)
  {
    QuietBody(Entered(r, timeout), body);
    ReportIs(r, timeout, body);
  }

  /** A body that takes `dt` and then comes to a check times out exactly if `dt` has reached the timeout. */
  lemma LateCheck(r: Regs, timeout: nat, dt: nat, acts: bool)
    ensures Report(r, timeout, [Tick(dt), Check(acts)]) == TimedOut <==> dt >= timeout
  {
    var inner := Entered(r, timeout);
    var later := inner.(now := inner.now + dt);
    assert [Tick(dt), Check(acts)][1..] == [Check(acts)] && [Check(acts)][1..] == [];
    assert Exec(later, [Check(acts)]).regs.timedOut == Checked(later).timedOut;
    assert Exec(inner, [Tick(dt), Check(acts)]).regs == Exec(later, [Check(acts)]).regs;
  }
}
