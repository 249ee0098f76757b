/**
 The bridge between channels and sockets: `Forwarder::process`, `channel_bridge_thread` and
 `socket_bridge_thread` in `crates/amalthea/src/kernel.rs`. Two threads and their surroundings take
 interleaved atomic steps. Channels are sequences, notifications a counter.
 */
module Bridge {
  import opened Prelude

  datatype Outbound = StdIn(payload: nat) | IOPub(payload: nat)

  /**
   One forwarder with its channels: whether all senders are gone (`closed`), the receiver is gone
   (`gone`), and the forwarder still `connected`. The rest is history: what was put in at one end, what
   was taken out at the other, what a failed send threw away, how many notifications were consumed.
   */
  datatype Lane<T> = Lane(source: seq<T>, closed: bool, connected: bool, queue: seq<T>, gone: bool, notifs: nat,
                          sent: seq<T>, taken: seq<T>, lost: seq<T>, consumed: nat)

  /** A socket's inbound messages: waiting, forwarded to their channel, and all that ever came. */
  datatype Inbound = Inbound(waiting: seq<nat>, forwarded: seq<nat>, arrived: seq<nat>)

  /** Where the channel bridge thread is, inside `Select` or inside one `process` call. */
  datatype Forwarder =
    | Selecting | Exited
    | ReadyOut | HoldingOut(out: Outbound) | PostedOut
    | ReadyComm | HoldingComm(comm: nat) | PostedComm

  /** Where the socket bridge thread is; `turns` counts loop turns still to come. */
  datatype Socketer =
    | Polling
    | Turn(turns: nat) | Consume(turns: nat)
    | CheckStdin(turns: nat) | ReadStdin(turns: nat)
    | CheckIopub(turns: nat) | ReadIopub(turns: nat)
    | Draining(turns: nat) | Sending(turns: nat, msg: Outbound)
    | NothingReadable

  datatype State = State(out: Lane<Outbound>, comm: Lane<nat>, fwd: Forwarder, skt: Socketer,
                         stdinIn: Inbound, iopubIn: Inbound,
                         handed: seq<Outbound>, stdinOut: seq<Outbound>, iopubOut: seq<Outbound>)

  datatype Event =
    // the surroundings
    | SendOut(out: Outbound) | SendComm(comm: nat) | CloseOut | CloseComm | DropOut | DropComm
    | InboundStdin(msg: nat) | InboundIopub(msg: nat) | ShellConsume | ShellDrain
    // the channel bridge thread: a choice of `Select`, or the next operation of `process`
    | SelectOut | SelectComm | Exit | Process
    // the socket bridge thread: its next operation
    | Socket

  function EmptyLane<T>(): Lane<T> {
    Lane([], false, true, [], false, 0, [], [], [], 0)
  }

  function Initial(): State {
    State(EmptyLane(), EmptyLane(), Selecting, Polling, Inbound([], [], []), Inbound([], [], []), [], [], [])
  }

  // ---------------------------------------------------------------- steps

  function Put<T>(l: Lane<T>, x: T): Lane<T> {
    l.(source := l.source + [x], sent := l.sent + [x])
  }

  predicate Selectable<T>(l: Lane<T>) {
    l.connected && (l.source != [] || l.closed)
  }

  function Drop<T>(l: Lane<T>, x: T): Lane<T> {
    l.(connected := false, lost := l.lost + [x])
  }

  function TakeQueued<T>(l: Lane<T>): Lane<T>
    requires l.queue != []
  {
    l.(queue := l.queue[1..], taken := l.taken + [l.queue[0]])
  }

  function Unnotify<T>(l: Lane<T>): Lane<T>
    requires l.notifs > 0
  {
    l.(notifs := l.notifs - 1, consumed := l.consumed + 1)
  }

  function Arrive(i: Inbound, msg: nat): Inbound {
    i.(waiting := i.waiting + [msg], arrived := i.arrived + [msg])
  }

  function Forward(i: Inbound): Inbound
    requires i.waiting != []
  {
    i.(waiting := i.waiting[1..], forwarded := i.forwarded + [i.waiting[0]])
  }

  function Bit(b: bool): nat {
    if b then 1 else 0
  }

  /** The select loop of `channel_bridge_thread`. */
  function SelectStep(s: State, e: Event): Option<State> {
    if s.fwd != Selecting then None
    else if e == SelectOut && Selectable(s.out) then Some(s.(fwd := ReadyOut))
    else if e == SelectComm && Selectable(s.comm) then Some(s.(fwd := ReadyComm))
    else if e == Exit && !s.out.connected && !s.comm.connected then Some(s.(fwd := Exited))
    else None
  }

  /** `Forwarder::process`, one channel operation at a time. */
  function ProcessStep(s: State): Option<State> {
    match s.fwd
    case Selecting => None
    case Exited => None
    case ReadyOut =>
      if s.out.source != [] then
        Some(s.(fwd := HoldingOut(s.out.source[0]), out := s.out.(source := s.out.source[1..])))
      else if s.out.closed then Some(s.(fwd := Selecting, out := s.out.(connected := false)))
      else Some(s.(fwd := Selecting))
    case HoldingOut(m) =>
      if s.out.gone then Some(s.(fwd := Selecting, out := Drop(s.out, m)))
      else Some(s.(fwd := PostedOut, out := s.out.(queue := s.out.queue + [m])))
    case PostedOut => Some(s.(fwd := Selecting, out := s.out.(notifs := s.out.notifs + 1)))
    case ReadyComm =>
      if s.comm.source != [] then
        Some(s.(fwd := HoldingComm(s.comm.source[0]), comm := s.comm.(source := s.comm.source[1..])))
      else if s.comm.closed then Some(s.(fwd := Selecting, comm := s.comm.(connected := false)))
      else Some(s.(fwd := Selecting))
    case HoldingComm(m) =>
      if s.comm.gone then Some(s.(fwd := Selecting, comm := Drop(s.comm, m)))
      else Some(s.(fwd := PostedComm, comm := s.comm.(queue := s.comm.queue + [m])))
    case PostedComm => Some(s.(fwd := Selecting, comm := s.comm.(notifs := s.comm.notifs + 1)))
  }

  /** How many of the three poll items are ready. */
  function Ready(s: State): nat {
    Bit(s.out.notifs > 0) + Bit(s.stdinIn.waiting != []) + Bit(s.iopubIn.waiting != [])
  }

  /** The loop of `socket_bridge_thread`, one socket or channel operation at a time. */
  function SocketStep(s: State): Option<State> {
    if s.out.gone then None
    else
      match s.skt
      case Polling => if Ready(s) > 0 then Some(s.(skt := Turn(Ready(s)))) else None
      case Turn(n) =>
        if n == 0 then Some(s.(skt := Polling))
        else if s.out.notifs > 0 then Some(s.(skt := Consume(n)))
        else Some(s.(skt := CheckStdin(n)))
      case Consume(n) =>
        if s.out.notifs > 0 && n > 0 then Some(s.(skt := Draining(n - 1), out := Unnotify(s.out)))
        else None
      case Draining(n) =>
        if s.out.queue == [] then Some(s.(skt := Turn(n)))
        else Some(s.(skt := Sending(n, s.out.queue[0]), out := TakeQueued(s.out)))
      case Sending(n, m) =>
        Some(s.(skt := Draining(n), handed := s.handed + [m],
                stdinOut := if m.StdIn? then s.stdinOut + [m] else s.stdinOut,
                iopubOut := if m.IOPub? then s.iopubOut + [m] else s.iopubOut))
      case CheckStdin(n) => Some(s.(skt := if s.stdinIn.waiting != [] then ReadStdin(n) else CheckIopub(n)))
      case CheckIopub(n) => Some(s.(skt := if s.iopubIn.waiting != [] then ReadIopub(n) else NothingReadable))
      case ReadStdin(n) =>
        if s.stdinIn.waiting != [] && n > 0 then Some(s.(skt := Turn(n - 1), stdinIn := Forward(s.stdinIn))) else None
      case ReadIopub(n) =>
        if s.iopubIn.waiting != [] && n > 0 then Some(s.(skt := Turn(n - 1), iopubIn := Forward(s.iopubIn))) else None
      case NothingReadable => None
  }

  /** Senders, frontends, dropped channel ends, and the shell thread at the far end of the comm lane. */
  function OutsideStep(s: State, e: Event): Option<State> {
    match e
    case SendOut(m) => if s.out.closed then None else Some(s.(out := Put(s.out, m)))
    case SendComm(m) => if s.comm.closed then None else Some(s.(comm := Put(s.comm, m)))
    case CloseOut => Some(s.(out := s.out.(closed := true)))
    case CloseComm => Some(s.(comm := s.comm.(closed := true)))
    case DropOut => Some(s.(out := s.out.(gone := true)))
    case DropComm => Some(s.(comm := s.comm.(gone := true)))
    case InboundStdin(msg) => Some(s.(stdinIn := Arrive(s.stdinIn, msg)))
    case InboundIopub(msg) => Some(s.(iopubIn := Arrive(s.iopubIn, msg)))
    case ShellConsume => if s.comm.notifs > 0 then Some(s.(comm := Unnotify(s.comm))) else None
    case ShellDrain => if s.comm.queue != [] then Some(s.(comm := TakeQueued(s.comm))) else None
    case _ => None
  }

  function Step(s: State, e: Event): Option<State> {
    match e
    case SelectOut => SelectStep(s, e)
    case SelectComm => SelectStep(s, e)
    case Exit => SelectStep(s, e)
    case Process => ProcessStep(s)
    case Socket => SocketStep(s)
    case _ => OutsideStep(s, e)
  }

  /** The state after a run, if every event was possible when it came. */
  function Run(events: seq<Event>): Option<State> {
    if events == [] then Some(Initial())
    else
      match Run(events[..|events| - 1])
      case None => None
      case Some(s) => Step(s, events[|events| - 1])
  }

  // ---------------------------------------------------------------- invariants

  function OutInHand(f: Forwarder): seq<Outbound> {
    if f.HoldingOut? then [f.out] else []
  }

  function CommInHand(f: Forwarder): seq<nat> {
    if f.HoldingComm? then [f.comm] else []
  }

  /**
   Nothing is duplicated or reordered, ever. Something is lost only if the receiver is gone, and then
   the forwarder gives up; otherwise it gives up only when all senders are gone and nothing is left.
   */
  predicate Conserved<T(==)>(l: Lane<T>, inHand: seq<T>) {
    && l.sent == l.taken + l.queue + l.lost + inHand + l.source
    && (l.lost != [] ==> l.gone && !l.connected)
    && (inHand != [] ==> l.connected)
    && (!l.connected && !l.gone ==> l.closed && l.source == [])
  }

  /** Every message forwarded has its own notification, posted or, if `posting`, about to be. */
  predicate Notified<T>(l: Lane<T>, posting: bool) {
    l.notifs + l.consumed + Bit(posting) == |l.taken| + |l.queue|
  }

  predicate InboundKept(i: Inbound) {
    i.arrived == i.forwarded + i.waiting
  }

  predicate ForwarderSane(s: State) {
    && (s.fwd.ReadyOut? ==> Selectable(s.out))
    && (s.fwd.ReadyComm? ==> Selectable(s.comm))
    && (s.fwd.Exited? ==> !s.out.connected && !s.comm.connected)
  }

  function BridgeHand(k: Socketer): seq<Outbound> {
    if k.Sending? then [k.msg] else []
  }

  /** The messages for one socket, StdIn or IOPub. */
  function Only(ms: seq<Outbound>, stdin: bool): seq<Outbound> {
    if ms == [] then [] else (if ms[0].StdIn? == stdin then [ms[0]] else []) + Only(ms[1..], stdin)
  }

  /** What was taken from the queue was handed to a socket, except the message being sent now. */
  predicate Delivered(s: State) {
    && s.out.taken == s.handed + BridgeHand(s.skt)
    && s.stdinOut == Only(s.handed, true)
    && s.iopubOut == Only(s.handed, false)
  }

  /** A queued message has a wake-up coming: posted, about to be posted, or being acted upon. */
  predicate WakeUpComing(s: State) {
    s.out.queue != [] ==> s.out.notifs > 0 || s.fwd.PostedOut? || s.skt.Draining? || s.skt.Sending?
  }

  /** Every turn still to come has a ready socket of its own. */
  predicate EnoughReady(s: State) {
    match s.skt
    case Polling => true
    case NothingReadable => false
    case Turn(n) => Ready(s) >= n
    case Consume(n) => s.out.notifs > 0 && Ready(s) >= n > 0
    case CheckStdin(n) => Bit(s.stdinIn.waiting != []) + Bit(s.iopubIn.waiting != []) >= n > 0
    case CheckIopub(n) => Bit(s.iopubIn.waiting != []) >= n > 0
    case ReadStdin(n) => s.stdinIn.waiting != [] && Bit(s.stdinIn.waiting != []) + Bit(s.iopubIn.waiting != []) >= n > 0
    case ReadIopub(n) => s.iopubIn.waiting != [] && Bit(s.iopubIn.waiting != []) >= n > 0
    case Draining(n) => Bit(s.stdinIn.waiting != []) + Bit(s.iopubIn.waiting != []) >= n
    case Sending(n, _) => Bit(s.stdinIn.waiting != []) + Bit(s.iopubIn.waiting != []) >= n
  }

  predicate Messages(s: State) {
    Conserved(s.out, OutInHand(s.fwd)) && Conserved(s.comm, CommInHand(s.fwd)) && Delivered(s)
  }

  predicate Counts(s: State) {
    && Notified(s.out, s.fwd.PostedOut?) && Notified(s.comm, s.fwd.PostedComm?)
    && InboundKept(s.stdinIn) && InboundKept(s.iopubIn)
  }

  predicate Threads(s: State) {
    ForwarderSane(s) && WakeUpComing(s) && EnoughReady(s)
  }

  // What each lane operation does to conservation.

  lemma PutConserves<T>(l: Lane<T>, x: T, inHand: seq<T>)
    requires Conserved(l, inHand) && !l.closed
    ensures Conserved(Put(l, x), inHand)
  {
  }

  lemma ReceiveConserves<T>(l: Lane<T>)
    requires Conserved(l, []) && l.source != [] && l.connected
    ensures Conserved(l.(source := l.source[1..]), [l.source[0]])
  {
    assert l.source == [l.source[0]] + l.source[1..];
  }

  lemma ForwardConserves<T>(l: Lane<T>, x: T)
    requires Conserved(l, [x])
    ensures Conserved(l.(queue := l.queue + [x]), []) && (l.gone ==> Conserved(Drop(l, x), []))
  {
    assert l.lost == [];
  }

  lemma TakeConserves<T>(l: Lane<T>, inHand: seq<T>)
    requires Conserved(l, inHand) && l.queue != []
    ensures Conserved(TakeQueued(l), inHand)
  {
    assert l.queue == [l.queue[0]] + l.queue[1..];
  }

  /** Flags and counters do not move messages. */
  lemma FlagsConserve<T>(l: Lane<T>, k: Lane<T>, inHand: seq<T>)
    requires Conserved(l, inHand)
    requires k == l.(closed := k.closed, connected := k.connected, gone := k.gone,
                     notifs := k.notifs, consumed := k.consumed)
    requires (l.closed ==> k.closed) && (l.gone ==> k.gone)
    requires k.connected == l.connected || (inHand == [] && !k.connected && l.closed && l.source == [])
    ensures Conserved(k, inHand)
  {
  }

  lemma OutsideMessages(s: State, e: Event)
    requires Messages(s) && OutsideStep(s, e).Some?
    ensures Messages(OutsideStep(s, e).value)
  {
    hide Conserved, Only;
    var t := OutsideStep(s, e).value;
    match e
    case SendOut(m) => PutConserves(s.out, m, OutInHand(s.fwd));
    case SendComm(m) => PutConserves(s.comm, m, CommInHand(s.fwd));
    case ShellDrain => TakeConserves(s.comm, CommInHand(s.fwd));
    case _ =>
      FlagsConserve(s.out, t.out, OutInHand(s.fwd));
      FlagsConserve(s.comm, t.comm, CommInHand(s.fwd));
  }

  lemma ProcessMessages(s: State)
    requires Messages(s) && Threads(s) && ProcessStep(s).Some?
    ensures Messages(ProcessStep(s).value)
  {
    hide Conserved, Only, EnoughReady;
    var t := ProcessStep(s).value;
    if s.fwd.ReadyOut? && s.out.source != [] {
      ReceiveConserves(s.out);
    } else if s.fwd.ReadyComm? && s.comm.source != [] {
      ReceiveConserves(s.comm);
    } else if s.fwd.HoldingOut? {
      ForwardConserves(s.out, s.fwd.out);
    } else if s.fwd.HoldingComm? {
      ForwardConserves(s.comm, s.fwd.comm);
    } else {
      FlagsConserve(s.out, t.out, []);
      FlagsConserve(s.comm, t.comm, []);
    }
  }

  lemma OnlyOne(m: Outbound)
    ensures Only([m], true) == if m.StdIn? then [m] else []
    ensures Only([m], false) == if m.IOPub? then [m] else []
  {
    assert [m][1..] == [];
  }

  lemma SocketMessages(s: State)
    requires Messages(s) && SocketStep(s).Some?
    ensures Messages(SocketStep(s).value)
  {
    hide Conserved, Only;
    var t := SocketStep(s).value;
    if s.skt.Draining? && s.out.queue != [] {
      TakeConserves(s.out, OutInHand(s.fwd));
    } else {
      FlagsConserve(s.out, t.out, OutInHand(s.fwd));
      if s.skt.Sending? {
        OnlyConcat(s.handed, [s.skt.msg], true);
        OnlyConcat(s.handed, [s.skt.msg], false);
        OnlyOne(s.skt.msg);
      }
    }
  }

  /** Notifications and inbound messages are counted by every step. */
  lemma CountsKept(s: State, e: Event)
    requires Counts(s) && Step(s, e).Some?
    ensures Counts(Step(s, e).value)
  {
    match e
    case Process => ProcessCounts(s);
    case Socket => SocketCounts(s);
    case SelectOut => SelectCounts(s, e);
    case SelectComm => SelectCounts(s, e);
    case Exit => SelectCounts(s, e);
    case _ => OutsideCounts(s, e);
  }

  lemma SelectCounts(s: State, e: Event)
    requires Counts(s) && SelectStep(s, e).Some?
    ensures Counts(SelectStep(s, e).value)
  {
  }

  lemma ProcessCounts(s: State)
    requires Counts(s) && ProcessStep(s).Some?
    ensures Counts(ProcessStep(s).value)
  {
  }

  lemma NotifiedTake<T>(l: Lane<T>, posting: bool)
    requires Notified(l, posting)
    ensures l.queue != [] ==> Notified(TakeQueued(l), posting)
    ensures l.notifs > 0 ==> Notified(Unnotify(l), posting)
  {
  }

  /** What a step of the socket bridge can do to the lanes. */
  lemma SocketFrame(s: State)
    requires SocketStep(s).Some?
    ensures var t := SocketStep(s).value;
            && t.comm == s.comm && t.fwd == s.fwd
            && (|| t.out == s.out
                || (s.out.queue != [] && t.out == TakeQueued(s.out))
                || (s.out.notifs > 0 && t.out == Unnotify(s.out)))
  {
  }

  lemma SocketCounts(s: State)
    requires Counts(s) && SocketStep(s).Some?
    ensures Counts(SocketStep(s).value)
  {
    SocketFrame(s);
    InboundCounts(s);
    NotifiedTake(s.out, s.fwd.PostedOut?);
    hide SocketStep, InboundKept, Notified;
  }

  lemma InboundCounts(s: State)
    requires InboundKept(s.stdinIn) && InboundKept(s.iopubIn) && SocketStep(s).Some?
    ensures InboundKept(SocketStep(s).value.stdinIn) && InboundKept(SocketStep(s).value.iopubIn)
  {
    if s.skt.ReadStdin? {
      assert s.stdinIn.waiting == [s.stdinIn.waiting[0]] + s.stdinIn.waiting[1..];
    } else if s.skt.ReadIopub? {
      assert s.iopubIn.waiting == [s.iopubIn.waiting[0]] + s.iopubIn.waiting[1..];
    }
  }

  lemma OutsideCounts(s: State, e: Event)
    requires Counts(s) && OutsideStep(s, e).Some?
    ensures Counts(OutsideStep(s, e).value)
  {
  }

  lemma SelectKeeps(s: State, e: Event)
    requires Messages(s) && Threads(s) && SelectStep(s, e).Some?
    ensures Messages(SelectStep(s, e).value) && Threads(SelectStep(s, e).value)
  {
    hide Conserved, Only;
  }

  lemma OutsideEnough(s: State, e: Event)
    requires EnoughReady(s) && OutsideStep(s, e).Some?
    ensures EnoughReady(OutsideStep(s, e).value)
  {
  }

  lemma OutsideThreads(s: State, e: Event)
    requires Threads(s) && OutsideStep(s, e).Some?
    ensures Threads(OutsideStep(s, e).value)
  {
    hide EnoughReady;
    OutsideEnough(s, e);
  }

  lemma ProcessEnough(s: State)
    requires EnoughReady(s) && ProcessStep(s).Some?
    ensures EnoughReady(ProcessStep(s).value)
  {
    var t := ProcessStep(s).value;
    assert t.skt == s.skt && t.stdinIn == s.stdinIn && t.iopubIn == s.iopubIn && t.out.notifs >= s.out.notifs;
    hide ProcessStep;
  }

  lemma ProcessThreads(s: State)
    requires Threads(s) && ProcessStep(s).Some?
    ensures Threads(ProcessStep(s).value)
  {
    hide EnoughReady;
    ProcessEnough(s);
  }

  lemma SocketEnough(s: State)
    requires EnoughReady(s) && SocketStep(s).Some?
    ensures EnoughReady(SocketStep(s).value)
  {
  }

  lemma SocketWakeUp(s: State)
    requires WakeUpComing(s) && SocketStep(s).Some?
    ensures WakeUpComing(SocketStep(s).value)
  {
  }

  lemma SocketThreads(s: State)
    requires Threads(s) && SocketStep(s).Some?
    ensures Threads(SocketStep(s).value)
  {
    hide EnoughReady, WakeUpComing;
    SocketEnough(s);
    SocketWakeUp(s);
  }

  /** Every step of every thread keeps the invariant. */
  lemma StepKeeps(s: State, e: Event)
    requires Messages(s) && Threads(s) && Counts(s) && Step(s, e).Some?
    ensures Messages(Step(s, e).value) && Threads(Step(s, e).value) && Counts(Step(s, e).value)
  {
    CountsKept(s, e);
    hide Messages, Threads, Counts, SelectStep, ProcessStep, SocketStep, OutsideStep;
    match e
    case Process => ProcessMessages(s); ProcessThreads(s);
    case Socket => SocketMessages(s); SocketThreads(s);
    case SelectOut => SelectKeeps(s, e);
    case SelectComm => SelectKeeps(s, e);
    case Exit => SelectKeeps(s, e);
    case _ => OutsideMessages(s, e); OutsideThreads(s, e);
  }

  /** Hence every run does. */
  lemma {:induction false} RunKeeps(events: seq<Event>)
    requires Run(events).Some?
    ensures Messages(Run(events).value) && Threads(Run(events).value) && Counts(Run(events).value)
  {
    if events != [] {
      hide Messages, Threads, Counts, Step;
      RunKeeps(events[..|events| - 1]);
      StepKeeps(Run(events[..|events| - 1]).value, events[|events| - 1]);
    }
  }

  // ---------------------------------------------------------------- what runs guarantee

  /**
   No wake-up is lost: with a message queued, the forwarder not between its send and its notify, and
   the bridge not draining, a notification is pending.
   */
  lemma NoLostWakeUp(events: seq<Event>)
    requires Run(events).Some?
    ensures var s := Run(events).value;
            s.out.queue != [] && !s.fwd.PostedOut? && !s.skt.Draining? && !s.skt.Sending? ==> s.out.notifs > 0
  {
    RunKeeps(events);
  }

  lemma {:induction false} OnlyConcat(a: seq<Outbound>, b: seq<Outbound>, stdin: bool)
    ensures Only(a + b, stdin) == Only(a, stdin) + Only(b, stdin)
  {
    if a == [] {
      assert a + b == b;
    } else {
      assert (a + b)[1..] == a[1..] + b;
      OnlyConcat(a[1..], b, stdin);
      var head := if a[0].StdIn? == stdin then [a[0]] else [];
      assert Only(a + b, stdin) == head + (Only(a[1..], stdin) + Only(b, stdin));
    }
  }

  /** The messages sent and not yet handed to a socket, oldest first; `lost` is empty while the receiver lives. */
  function InFlight(s: State): seq<Outbound> {
    BridgeHand(s.skt) + s.out.queue + s.out.lost + OutInHand(s.fwd) + s.out.source
  }

  /** Handed to sockets, then in flight: exactly what was sent, in order, and per socket too. */
  lemma InOrderDelivery(events: seq<Event>)
    requires Run(events).Some?
    ensures var s := Run(events).value;
            && s.out.sent == s.handed + InFlight(s)
            && (s.out.lost != [] ==> s.out.gone) && (!s.out.connected ==> s.out.gone || s.out.closed)
            && Only(s.out.sent, true) == s.stdinOut + Only(InFlight(s), true)
            && Only(s.out.sent, false) == s.iopubOut + Only(InFlight(s), false)
  {
    hide Run, Threads, Only;
    RunKeeps(events);
    var s := Run(events).value;
    assert s.handed + InFlight(s) == s.out.taken + s.out.queue + s.out.lost + OutInHand(s.fwd) + s.out.source;
    OnlyConcat(s.handed, InFlight(s), true);
    OnlyConcat(s.handed, InFlight(s), false);
  }

  /** In every run and on both lanes, each message forwarded has one notification of its own. */
  lemma OneNotificationEach(events: seq<Event>)
    requires Run(events).Some?
    ensures var s := Run(events).value;
            && s.out.notifs + s.out.consumed + Bit(s.fwd.PostedOut?) == |s.out.taken| + |s.out.queue|
            && s.comm.notifs + s.comm.consumed + Bit(s.fwd.PostedComm?) == |s.comm.taken| + |s.comm.queue|
  {
    RunKeeps(events);
  }

  /** In every run, inbound messages are forwarded to their channels in order, none lost or doubled. */
  lemma InboundInOrder(events: seq<Event>)
    requires Run(events).Some?
    ensures var s := Run(events).value;
            && s.stdinIn.arrived == s.stdinIn.forwarded + s.stdinIn.waiting
            && s.iopubIn.arrived == s.iopubIn.forwarded + s.iopubIn.waiting
  {
    RunKeeps(events);
  }

  /** The comm lane likewise, up to its unseen consumer. */
  lemma CommInOrder(events: seq<Event>)
    requires Run(events).Some?
    ensures var s := Run(events).value;
            && s.comm.sent == s.comm.taken + s.comm.queue + s.comm.lost + CommInHand(s.fwd) + s.comm.source
            && (s.comm.lost != [] ==> s.comm.gone) && (!s.comm.connected ==> s.comm.gone || s.comm.closed)
  {
    RunKeeps(events);
  }

  /** Each turn announced by a poll finds a readable socket, whatever the other threads do meanwhile. */
  lemma AlwaysReadable(events: seq<Event>)
    requires Run(events).Some?
    ensures var s := Run(events).value;
            && s.skt != NothingReadable
            && (!s.skt.Polling? && !s.out.gone ==> SocketStep(s).Some?)
  {
    hide Run, Messages;
    RunKeeps(events);
  }

  /** Neither thread can take a step. */
  predicate Blocked(s: State) {
    && SelectStep(s, SelectOut) == SelectStep(s, SelectComm) == SelectStep(s, Exit) == None
    && ProcessStep(s) == SocketStep(s) == None
  }

  /** When the forwarder blocks, nothing is left to forward on a lane whose receiver lives. */
  lemma BlockedForwarder(s: State)
    requires Messages(s) && Threads(s) && Blocked(s)
    ensures OutInHand(s.fwd) == [] && CommInHand(s.fwd) == []
    ensures (!s.out.gone ==> s.out.source == []) && (!s.comm.gone ==> s.comm.source == [])
    ensures !s.fwd.PostedOut? && !s.fwd.PostedComm?
    ensures (s.out.closed ==> !s.out.connected) && (s.comm.closed ==> !s.comm.connected)
    ensures !s.out.connected && !s.comm.connected ==> s.fwd.Exited?
  {
    hide EnoughReady, SocketStep;
  }

  lemma BlockedSocket(s: State)
    requires Threads(s) && Blocked(s) && !s.out.gone
    ensures s.skt.Polling? && s.out.notifs == 0 && s.stdinIn.waiting == [] && s.iopubIn.waiting == []
  {
    hide ProcessStep, SelectStep;
  }

  lemma BlockedEmpty(s: State)
    requires Messages(s) && Threads(s) && Counts(s) && Blocked(s)
    ensures !s.out.gone ==> && s.stdinOut == Only(s.out.sent, true) && s.iopubOut == Only(s.out.sent, false)
                            && s.stdinIn.forwarded == s.stdinIn.arrived && s.iopubIn.forwarded == s.iopubIn.arrived
    ensures !s.comm.gone ==> s.comm.sent == s.comm.taken + s.comm.queue
                             && s.comm.notifs + s.comm.consumed == |s.comm.sent|
    ensures s.out.closed && s.comm.closed ==> s.fwd.Exited?
  {
    BlockedForwarder(s);
    if !s.out.gone {
      BlockedSocket(s);
      hide Blocked, EnoughReady, Only;
      assert s.out.sent == s.handed;
    }
  }

  /**
   When both threads block, all there was to do is done, unless a receiver is gone: everything sent has
   reached its socket, everything inbound its channel, and every comm event was forwarded and announced.
   Once all senders are gone, the forwarder has then ended.
   */
  lemma BlockedMeansDelivered(events: seq<Event>)
    requires Run(events).Some? && Blocked(Run(events).value)
    ensures var s := Run(events).value;
            !s.out.gone ==> && s.stdinOut == Only(s.out.sent, true) && s.iopubOut == Only(s.out.sent, false)
                            && s.stdinIn.forwarded == s.stdinIn.arrived && s.iopubIn.forwarded == s.iopubIn.arrived
    ensures var s := Run(events).value;
            !s.comm.gone ==> s.comm.sent == s.comm.taken + s.comm.queue
                             && s.comm.notifs + s.comm.consumed == |s.comm.sent|
    ensures Run(events).value.out.closed && Run(events).value.comm.closed ==> Run(events).value.fwd.Exited?
  {
    hide *;
    RunKeeps(events);
    BlockedEmpty(Run(events).value);
  }

  // ---------------------------------------------------------------- one turn

  /** `n` steps of the socket bridge, with nothing else in between. */
  function SocketRun(s: State, n: nat): Option<State>
    decreases n
  {
    if n == 0 then Some(s)
    else if SocketStep(s).Some? then SocketRun(SocketStep(s).value, n - 1)
    else None
  }

  lemma {:induction false} SocketThen(s: State, t: State, m: nat, n: nat)
    requires SocketRun(s, m) == Some(t)
    ensures SocketRun(s, m + n) == SocketRun(t, n)
    decreases m
  {
    if m > 0 {
      hide SocketStep;
      SocketThen(SocketStep(s).value, t, m - 1, n);
    }
  }

  /** The state after the queue has been handed over. */
  function Drained(s: State): State
    requires s.skt.Draining?
  {
    var q := s.out.queue;
    s.(skt := Turn(s.skt.turns), handed := s.handed + q, out := s.out.(queue := [], taken := s.out.taken + q),
       stdinOut := s.stdinOut + Only(q, true), iopubOut := s.iopubOut + Only(q, false))
  }

  lemma DrainOne(s: State) returns (u: State)
    requires s.skt.Draining? && !s.out.gone && s.out.queue != []
    ensures SocketRun(s, 2) == Some(u) && u.skt == s.skt
    ensures var m := s.out.queue[0];
            u == s.(handed := s.handed + [m], out := s.out.(queue := s.out.queue[1..], taken := s.out.taken + [m]),
                    stdinOut := s.stdinOut + Only([m], true), iopubOut := s.iopubOut + Only([m], false))
  {
    var t := SocketStep(s).value;
    u := SocketStep(t).value;
    assert SocketRun(u, 0) == Some(u) && SocketRun(t, 1) == Some(u);
    hide Only;
    OnlyOne(s.out.queue[0]);
  }

  lemma Assoc(a: seq<Outbound>, b: seq<Outbound>, c: seq<Outbound>)
    ensures (a + b) + c == a + (b + c)
  {
  }

  lemma DrainedOne(s: State, u: State)
    requires s.skt.Draining? && s.out.queue != [] && u.skt == s.skt
    requires var m := s.out.queue[0];
             u == s.(handed := s.handed + [m], out := s.out.(queue := s.out.queue[1..], taken := s.out.taken + [m]),
                     stdinOut := s.stdinOut + Only([m], true), iopubOut := s.iopubOut + Only([m], false))
    ensures Drained(u) == Drained(s)
  {
    hide Only;
    var q := s.out.queue;
    var m, rest := [q[0]], q[1..];
    assert q == m + rest;
    OnlyConcat(m, rest, true);
    OnlyConcat(m, rest, false);
    Assoc(s.handed, m, rest);
    Assoc(s.out.taken, m, rest);
    Assoc(s.stdinOut, Only(m, true), Only(rest, true));
    Assoc(s.iopubOut, Only(m, false), Only(rest, false));
  }

  lemma DrainedNothing(s: State)
    requires s.skt.Draining? && !s.out.gone && s.out.queue == []
    ensures SocketRun(s, 1) == Some(Drained(s))
  {
    assert s.handed + [] == s.handed && s.out.taken + [] == s.out.taken;
    assert s.stdinOut + Only([], true) == s.stdinOut && s.iopubOut + Only([], false) == s.iopubOut;
    assert SocketRun(SocketStep(s).value, 0) == SocketStep(s);
  }

  /** Draining hands over the whole queue, in order. */
  lemma {:induction false} Drains(s: State) returns (n: nat)
    requires s.skt.Draining? && !s.out.gone
    ensures SocketRun(s, n) == Some(Drained(s))
    decreases |s.out.queue|
  {
    hide SocketRun, Drained;
    if s.out.queue == [] {
      DrainedNothing(s);
      n := 1;
    } else {
      var u := DrainOne(s);
      DrainedOne(s, u);
      n := Drains(u);
      SocketThen(s, u, 2, n);
      n := 2 + n;
    }
  }

  /**
   A poll announces one turn for each ready socket. Left alone, each turn serves one, outbound before
   StdIn before IOPub: it consumes one notification and hands over the whole queue, or forwards one message.
   */
  lemma TurnServes(s: State) returns (n: nat)
    requires s.skt.Turn? && s.skt.turns > 0 && !s.out.gone
    requires s.out.notifs > 0 || s.stdinIn.waiting != [] || s.iopubIn.waiting != []
    ensures SocketRun(s, n).Some? && SocketRun(s, n).value.skt == Turn(s.skt.turns - 1)
    ensures var t, q := SocketRun(s, n).value, s.out.queue;
            t == if s.out.notifs > 0 then
                   s.(skt := t.skt, handed := s.handed + q,
                      out := s.out.(queue := [], taken := s.out.taken + q,
                                    notifs := s.out.notifs - 1, consumed := s.out.consumed + 1),
                      stdinOut := s.stdinOut + Only(q, true), iopubOut := s.iopubOut + Only(q, false))
                 else if s.stdinIn.waiting != [] then
                   s.(skt := t.skt, stdinIn := s.stdinIn.(waiting := s.stdinIn.waiting[1..],
                                                          forwarded := s.stdinIn.forwarded + [s.stdinIn.waiting[0]]))
                 else
                   s.(skt := t.skt, iopubIn := s.iopubIn.(waiting := s.iopubIn.waiting[1..],
                                                          forwarded := s.iopubIn.forwarded + [s.iopubIn.waiting[0]]))
  {
    var a := SocketStep(s).value;
    var b := SocketStep(a).value;
    assert SocketRun(b, 0) == Some(b) && SocketRun(a, 1) == Some(b) && SocketRun(s, 2) == Some(b);
    if s.out.notifs > 0 {
      n := Drains(b);
      SocketThen(s, b, 2, n);
      n := 2 + n;
    } else {
      var c := SocketStep(b).value;
      assert SocketRun(c, 0) == Some(c) && SocketRun(b, 1) == Some(c);
      SocketThen(s, b, 2, 1);
      n := 3;
      if s.stdinIn.waiting == [] {
        var d := SocketStep(c).value;
        assert SocketRun(d, 0) == Some(d) && SocketRun(c, 1) == Some(d);
        SocketThen(s, c, 3, 1);
        n := 4;
      }
    }
  }

  lemma PollAnnounces(s: State)
    requires s.skt.Polling? && !s.out.gone && (s.out.notifs > 0 || s.stdinIn.waiting != [] || s.iopubIn.waiting != [])
    ensures SocketStep(s) == Some(s.(skt := Turn((if s.out.notifs > 0 then 1 else 0)
                                                 + (if s.stdinIn.waiting != [] then 1 else 0)
                                                 + (if s.iopubIn.waiting != [] then 1 else 0))))
  {
  }

  // ---------------------------------------------------------------- progress

  function ForwarderWeight(f: Forwarder): nat {
    match f
    case Exited => 0
    case ReadyOut | ReadyComm => 0
    case Selecting => 1
    case PostedOut | PostedComm => 14
    case HoldingOut(_) | HoldingComm(_) => 18
  }

  function SocketWeight(k: Socketer): nat {
    match k
    case NothingReadable => 0
    case Polling => 9
    case Turn(n) => if n == 0 then 10 else 8
    case Consume(_) | CheckStdin(_) => 7
    case CheckIopub(_) => 6
    case ReadStdin(_) | ReadIopub(_) => 5
    case Draining(_) => 14
    case Sending(_, _) => 15
  }

  function OutWeight(l: Lane<Outbound>): nat {
    20 * |l.source| + 3 * |l.queue| + 10 * l.notifs + 4 * Bit(l.connected)
  }

  function CommWeight(l: Lane<nat>): nat {
    20 * |l.source| + 4 * Bit(l.connected)
  }

  function Weight(s: State): nat {
    ForwarderWeight(s.fwd) + SocketWeight(s.skt) + OutWeight(s.out) + CommWeight(s.comm)
    + 6 * |s.stdinIn.waiting| + 6 * |s.iopubIn.waiting|
  }

  /**
   Every step of the two threads lowers the weight. So once the surroundings pause, both threads
   block after finitely many steps, and by `BlockedMeansDelivered` everything has then arrived.
   */
  lemma ThreadsMakeProgress(s: State, e: Event)
    requires Threads(s) && Step(s, e).Some? && IsThreadEvent(e)
    ensures Weight(Step(s, e).value) < Weight(s)
  {
    match e
    case Process => ProcessProgress(s);
    case Socket => SocketProgress(s);
    case _ =>
  }

  lemma ProcessProgress(s: State)
    requires ForwarderSane(s) && ProcessStep(s).Some?
    ensures Weight(ProcessStep(s).value) < Weight(s)
  {
    hide SocketWeight;
    var t := ProcessStep(s).value;
    assert t.skt == s.skt && t.stdinIn == s.stdinIn && t.iopubIn == s.iopubIn;
    if s.fwd.ReadyOut? || s.fwd.HoldingOut? || s.fwd.PostedOut? {
      assert t.comm == s.comm;
      assert ForwarderWeight(t.fwd) + OutWeight(t.out) < ForwarderWeight(s.fwd) + OutWeight(s.out);
    } else {
      assert t.out == s.out;
      assert ForwarderWeight(t.fwd) + CommWeight(t.comm) < ForwarderWeight(s.fwd) + CommWeight(s.comm);
    }
  }

  lemma SocketProgress(s: State)
    requires EnoughReady(s) && SocketStep(s).Some?
    ensures Weight(SocketStep(s).value) < Weight(s)
  {
    hide ForwarderWeight, CommWeight;
    var t := SocketStep(s).value;
    assert t.fwd == s.fwd && t.comm == s.comm;
    if s.skt.Consume? || s.skt.Draining? || s.skt.Sending? {
      assert t.stdinIn == s.stdinIn && t.iopubIn == s.iopubIn;
    } else {
      assert t.out == s.out;
    }
  }

  predicate IsThreadEvent(e: Event) {
    e.SelectOut? || e.SelectComm? || e.Exit? || e.Process? || e.Socket?
  }

  lemma NextThreadEvent(s: State) returns (e: Event)
    requires !Blocked(s)
    ensures IsThreadEvent(e) && Step(s, e).Some?
  {
    hide SelectStep, ProcessStep, SocketStep;
    e := if SelectStep(s, SelectOut).Some? then SelectOut
         else if SelectStep(s, SelectComm).Some? then SelectComm
         else if SelectStep(s, Exit).Some? then Exit
         else if ProcessStep(s).Some? then Process
         else Socket;
  }

  lemma RunSnoc(events: seq<Event>, e: Event)
    requires Run(events).Some?
    ensures Run(events + [e]) == Step(Run(events).value, e)
  {
    hide Step;
    assert (events + [e])[..|events|] == events;
  }

  /** The threads change nothing that is for others to change: what is sent, what arrives, who is gone. */
  lemma ThreadsLeave(s: State, e: Event)
    requires IsThreadEvent(e) && Step(s, e).Some?
    ensures SameOutside(s, Step(s, e).value)
  {
    match e
    case Process => ProcessLeaves(s);
    case Socket => SocketLeaves(s);
    case _ =>
  }

  lemma ProcessLeaves(s: State)
    requires ProcessStep(s).Some?
    ensures SameOutside(s, ProcessStep(s).value)
  {
  }

  lemma SocketLeaves(s: State)
    requires SocketStep(s).Some?
    ensures SameOutside(s, SocketStep(s).value)
  {
  }

  lemma SameThen(s: State, t: State, u: State)
    ensures SameOutside(s, s)
    ensures SameOutside(s, t) && SameOutside(t, u) ==> SameOutside(s, u)
  {
  }

  predicate SameOutside(s: State, t: State) {
    && t.out.sent == s.out.sent && t.out.gone == s.out.gone && t.out.closed == s.out.closed
    && t.comm.sent == s.comm.sent && t.comm.gone == s.comm.gone && t.comm.closed == s.comm.closed
    && t.stdinIn.arrived == s.stdinIn.arrived && t.iopubIn.arrived == s.iopubIn.arrived
  }

  /** From any reachable state the two threads alone reach a state where both block. */
  lemma {:induction false} Settles(events: seq<Event>) returns (more: seq<Event>)
    requires Run(events).Some?
    ensures Run(events + more).Some? && Blocked(Run(events + more).value)
    ensures SameOutside(Run(events).value, Run(events + more).value)
    ensures forall e :: e in more ==> IsThreadEvent(e)
    decreases Weight(Run(events).value)
  {
    hide *;
    var s := Run(events).value;
    SameThen(s, s, s);
    if Blocked(s) {
      assert events + [] == events;
      return [];
    }
    var e := NextThreadEvent(s);
    RunKeeps(events);
    ThreadsMakeProgress(s, e);
    ThreadsLeave(s, e);
    RunSnoc(events, e);
    var rest := Settles(events + [e]);
    assert events + ([e] + rest) == (events + [e]) + rest;
    more := [e] + rest;
    SameThen(s, Run(events + [e]).value, Run(events + more).value);
  }

  /** From any reachable state, whose receiver lives, the two threads alone deliver everything sent so far. */
  lemma EverythingArrives(events: seq<Event>) returns (more: seq<Event>)
    requires Run(events).Some? && !Run(events).value.out.gone
    ensures forall e :: e in more ==> IsThreadEvent(e)
    ensures Run(events + more).Some?
    ensures var s, t := Run(events).value, Run(events + more).value;
            && t.stdinOut == Only(s.out.sent, true) && t.iopubOut == Only(s.out.sent, false)
            && t.stdinIn.forwarded == s.stdinIn.arrived && t.iopubIn.forwarded == s.iopubIn.arrived
  {
    more := Settles(events);
    hide Run, Blocked, IsThreadEvent, Only;
    BlockedMeansDelivered(events + more);
  }

  function Sends(ms: seq<Outbound>): seq<Event> {
    if ms == [] then [] else Sends(ms[..|ms| - 1]) + [SendOut(ms[|ms| - 1])]
  }

  lemma {:induction false} AllSent(ms: seq<Outbound>)
    ensures Run(Sends(ms)).Some?
    ensures var s := Run(Sends(ms)).value; s.out.sent == ms && !s.out.gone && !s.out.closed
    decreases |ms|
  {
    if ms != [] {
      AllSent(ms[..|ms| - 1]);
      RunSnoc(Sends(ms[..|ms| - 1]), SendOut(ms[|ms| - 1]));
      assert ms == ms[..|ms| - 1] + [ms[|ms| - 1]];
    }
  }

  /** So any messages at all can be sent, and reach their sockets in order. */
  lemma AnythingGetsThrough(ms: seq<Outbound>) returns (events: seq<Event>)
    ensures Run(events).Some?
    ensures Run(events).value.stdinOut == Only(ms, true) && Run(events).value.iopubOut == Only(ms, false)
  {
    hide Run, Only, IsThreadEvent;
    AllSent(ms);
    var more := EverythingArrives(Sends(ms));
    events := Sends(ms) + more;
  }

  /** Select may choose either lane that has something for it, whatever the other holds, and ends only without lanes. */
  lemma SelectsEither(s: State)
    requires s.fwd == Selecting
    ensures Step(s, SelectOut) ==
            if s.out.connected && (s.out.source != [] || s.out.closed) then Some(s.(fwd := ReadyOut)) else None
    ensures Step(s, SelectComm) ==
            if s.comm.connected && (s.comm.source != [] || s.comm.closed) then Some(s.(fwd := ReadyComm)) else None
    ensures Step(s, Exit) == if !s.out.connected && !s.comm.connected then Some(s.(fwd := Exited)) else None
  {
  }

  /** What the surroundings may do at any time, and what it changes. */
  lemma OutsideIsFree(s: State, m: Outbound, c: nat, msg: nat)
    ensures !s.out.closed ==>
            Step(s, SendOut(m)) == Some(s.(out := s.out.(source := s.out.source + [m], sent := s.out.sent + [m])))
    ensures !s.comm.closed ==>
            Step(s, SendComm(c)) == Some(s.(comm := s.comm.(source := s.comm.source + [c], sent := s.comm.sent + [c])))
    ensures Step(s, CloseOut) == Some(s.(out := s.out.(closed := true)))
    ensures Step(s, CloseComm) == Some(s.(comm := s.comm.(closed := true)))
    ensures Step(s, DropOut) == Some(s.(out := s.out.(gone := true)))
    ensures Step(s, DropComm) == Some(s.(comm := s.comm.(gone := true)))
    ensures var i := s.stdinIn;
            Step(s, InboundStdin(msg))
            == Some(s.(stdinIn := i.(waiting := i.waiting + [msg], arrived := i.arrived + [msg])))
    ensures var i := s.iopubIn;
            Step(s, InboundIopub(msg))
            == Some(s.(iopubIn := i.(waiting := i.waiting + [msg], arrived := i.arrived + [msg])))
    ensures s.comm.notifs > 0 ==> Step(s, ShellConsume).Some?
    ensures s.comm.queue != [] ==> Step(s, ShellDrain).Some?
  {
  }
}
