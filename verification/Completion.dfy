/** Read, write and connect operations over one completion port: start, stop requests from
    other threads, the kernel, and the dispatcher, as interleaved steps. An operation's address
    names its packets, and the storage of a finished operation is used again. */
module Completion {

  import opened Arithmetic

  type Id = nat

  datatype Kind = Read(hasData: bool) | Write | Connect

  /** 0 is no error. */
  type Error = nat

  const NO_ERROR: Error := 0

  datatype Signal = Value(bytes: nat) | Failure(reason: Reason) | Done
  datatype Reason = System(e: Error) | NothingRead | ContextNotUpdated

  /** The call under way inside on_received, on_sent or on_connected, between destroying
      the stop callback and looking at the stop token. */
  datatype Finalizing = NotYet | Ending(bytes: nat, e: Error)

  /** `issuing` is the time between constructing the stop callback and the system call, when a stop finds
      nothing to cancel. `built` and `destroyed` count constructions and destructions of the stop callback. */
  datatype Op = Op(
    kind: Kind, started: bool, issuing: bool, built: nat, destroyed: nat, ending: Finalizing,
    stopRequested: bool, signals: seq<Signal>)

  function NewOp(kind: Kind): Op {
    Op(kind, false, false, 0, 0, NotYet, false, [])
  }

  datatype Packet = Packet(id: Id, bytes: nat)

  /** `kernel` holds the requests the kernel has accepted and not completed. */
  datatype State = State(ops: map<Id, Op>, kernel: set<Id>, port: seq<Packet>)

  const START := State(map[], {}, [])

  /** What the system call that issues the request reports. */
  datatype Issue = Finished(bytes: nat) | Refused(e: Error) | Pending

  datatype Event =
    | Create(id: Id, kind: Kind)          // connect(sender, receiver), on free or finished storage
    | Start(id: Id)                       // start(): the stop callback is constructed
    | Request(id: Id, issue: Issue)       // the system call in start()
    | RequestStop(id: Id)                 // the stop source, from any thread
    | KernelCompletes(id: Id, bytes: nat) // a pending request, cancelled or not, ends: one packet
    | Dispatch(e: Error)                  // the dispatcher runs the callback of the next packet
    | Deliver(id: Id, contextUpdated: bool) // the rest of the callback: signal the receiver

  predicate Idle(s: State, id: Id) {
    id !in s.ops || s.ops[id].signals != []
  }

  predicate Enabled(s: State, e: Event) {
    match e
    case Create(id, _) => Idle(s, id)
    case Start(id) => id in s.ops && !s.ops[id].started
    case Request(id, issue) => id in s.ops && s.ops[id].issuing && (issue.Refused? ==> issue.e != NO_ERROR)
    case RequestStop(id) => id in s.ops
    case KernelCompletes(id, _) => id in s.kernel
    case Dispatch(_) => s.port != [] && s.port[0].id in s.ops
    case Deliver(id, _) => id in s.ops && s.ops[id].ending.Ending?
  }

  /** The callback's first half: try_finalize destroys the stop callback. */
  function BeginEnd(op: Op, bytes: nat, e: Error): Op {
    op.(destroyed := op.destroyed + 1, ending := Ending(bytes, e))
  }

  /** The callback's second half. */
  function Verdict(op: Op, contextUpdated: bool): Signal
    requires op.ending.Ending?
  {
    if op.stopRequested then Done
    else if op.ending.e != NO_ERROR then Failure(System(op.ending.e))
    else match op.kind
      case Read(hasData) => if op.ending.bytes == 0 && hasData then Failure(NothingRead) else Value(op.ending.bytes)
      case Write => Value(op.ending.bytes)
      case Connect => if contextUpdated then Value(0) else Failure(ContextNotUpdated)
  }

  function Put(s: State, id: Id, op: Op): State {
    s.(ops := s.ops[id := op])
  }

  function Next(s: State, e: Event): State
    requires Enabled(s, e)
  {
    match e
    case Create(id, kind) => Put(s, id, NewOp(kind))
    case Start(id) => Put(s, id, s.ops[id].(started := true, issuing := true, built := s.ops[id].built + 1))
    case Request(id, issue) =>
      var op := s.ops[id].(issuing := false);
      (match issue
       case Finished(bytes) => Put(s, id, BeginEnd(op, bytes, NO_ERROR))
       case Refused(err) => Put(s, id, BeginEnd(op, 0, err))
       case Pending => Put(s, id, op).(kernel := s.kernel + {id}))
    case RequestStop(id) => Put(s, id, s.ops[id].(stopRequested := true))
    case KernelCompletes(id, bytes) => s.(kernel := s.kernel - {id}, port := s.port + [Packet(id, bytes)])
    case Dispatch(err) =>
      var p := s.port[0];
      Put(s, p.id, BeginEnd(s.ops[p.id], p.bytes, err)).(port := s.port[1..])
    case Deliver(id, contextUpdated) =>
      var op := s.ops[id];
      Put(s, id, op.(ending := NotYet, signals := op.signals + [Verdict(op, contextUpdated)]))
  }

  // ---------- exactly once ----------

  function Packets(port: seq<Packet>, id: Id): nat {
    if port == [] then 0 else (if port[0].id == id then 1 else 0) + Packets(port[1..], id)
  }

  lemma {:induction false} PacketsAppend(port: seq<Packet>, p: Packet, id: Id)
    ensures Packets(port + [p], id) == Packets(port, id) + if p.id == id then 1 else 0
  {
    if port == [] {
      assert [p][1..] == [];
    } else {
      PacketsAppend(port[1..], p, id);
      assert (port + [p])[1..] == port[1..] + [p];
    }
  }

  /** A started operation is in exactly one of five places, between callback and system call, in the kernel, in
      the port, finalizing, or signalled, and its stop callback is alive in exactly the first three. Storage not
      in use has no request and no packet. */
  ghost predicate InvOf(s: State, id: Id) {
    var waiting := One(id in s.kernel) + Packets(s.port, id);
    if id !in s.ops then waiting == 0
    else
      var op := s.ops[id];
      && One(op.started) == One(op.issuing) + waiting + One(op.ending.Ending?) + |op.signals|
      && op.built == One(op.started)
      && op.destroyed == One(op.ending.Ending?) + |op.signals|
  }

  ghost predicate Inv(s: State) {
    forall id: Id :: InvOf(s, id)
  }

  lemma {:induction false} StepKeepsInv(s: State, e: Event)
    requires Inv(s) && Enabled(s, e)
    ensures Inv(Next(s, e))
  {
    var s' := Next(s, e);
    forall id: Id ensures InvOf(s', id) {
      assert InvOf(s, id);
      match e {
        case KernelCompletes(k, bytes) => PacketsAppend(s.port, Packet(k, bytes), id);
        case Request(k, _) => assert InvOf(s, k);
        case _ =>
      }
    }
  }

  ghost predicate IsRun(es: seq<Event>)
    decreases |es|, 0
  {
    es == [] || (IsRun(es[..|es| - 1]) && Enabled(After(es[..|es| - 1]), es[|es| - 1]))
  }

  ghost function After(es: seq<Event>): (s: State)
    requires IsRun(es)
    ensures Inv(s)
    decreases |es|, 1
  {
    if es == [] then START
    else
      StepKeepsInv(After(es[..|es| - 1]), es[|es| - 1]);
      Next(After(es[..|es| - 1]), es[|es| - 1])
  }

  lemma {:induction false} PacketAt(port: seq<Packet>, i: nat)
    requires i < |port|
    ensures Packets(port, port[i].id) > 0
  {
    if i > 0 {
      PacketAt(port[1..], i - 1);
    }
  }

  /** Every packet finds a live operation that is waiting for it: started, its callback alive,
      not yet signalled, not being finalized. The dispatcher is never at a loss. */
  lemma {:induction false} EveryPacketIsExpected(es: seq<Event>, i: nat)
    requires IsRun(es) && i < |After(es).port|
    ensures var s := After(es);
      var id := s.port[i].id;
      && id in s.ops && s.ops[id].started && !s.ops[id].issuing && s.ops[id].signals == [] && s.ops[id].ending.NotYet?
      && s.ops[id].built == 1 && s.ops[id].destroyed == 0
      && Packets(s.port, id) == 1 && id !in s.kernel
  {
    PacketAt(After(es).port, i);
    assert InvOf(After(es), After(es).port[i].id);
  }

  /** Whether the current operation at `id` was asked to stop before its receiver was signalled. */
  ghost function StoppedInTime(es: seq<Event>, id: Id): bool
    requires IsRun(es)
    decreases |es|
  {
    if es == [] then false
    else
      var p, e := es[..|es| - 1], es[|es| - 1];
      if e.Create? && e.id == id then false
      else if e == RequestStop(id) && After(p).ops[id].signals == [] then true
      else StoppedInTime(p, id)
  }

  /** An operation reports done exactly when a stop was requested before it was finalized. */
  lemma {:induction false} DoneExactlyWhenStopped(es: seq<Event>, id: Id)
    requires IsRun(es) && id in After(es).ops
    ensures var op := After(es).ops[id];
      && (op.signals == [] ==> (op.stopRequested <==> StoppedInTime(es, id)))
      && (op.signals != [] ==> (op.signals[0].Done? <==> StoppedInTime(es, id)))
    decreases |es|
  {
    var p, e := es[..|es| - 1], es[|es| - 1];
    if id in After(p).ops {
      DoneExactlyWhenStopped(p, id);
      assert InvOf(After(p), id);
    }
  }

  // ---------- what is told ----------

  datatype Option<T> = None | Some(value: T)

  /** What the events of a run say about the operation at one address, since it was last created: its
      kind; the bytes that its system call or the kernel reported; the error with which its system call was refused
      or its packet dispatched, 0 for none; and whether the context of the socket could be updated. */
  datatype Story = Story(kind: Option<Kind>, reported: Option<nat>, error: Option<Error>, context: Option<bool>)

  ghost function StoryOf(es: seq<Event>, id: Id): Story
    requires IsRun(es)
    decreases |es|
  {
    if es == [] then Story(None, None, None, None)
    else StoryNext(StoryOf(es[..|es| - 1], id), After(es[..|es| - 1]), es[|es| - 1], id)
  }

  function StoryNext(story: Story, s: State, e: Event, id: Id): Story
    requires Enabled(s, e)
  {
    match e
    case Create(i, kind) => if i == id then Story(Some(kind), None, None, None) else story
    case Request(i, Finished(bytes)) => if i == id then story.(reported := Some(bytes), error := Some(0)) else story
    case Request(i, Refused(err)) => if i == id then story.(error := Some(err)) else story
    case KernelCompletes(i, bytes) => if i == id then story.(reported := Some(bytes)) else story
    case Dispatch(err) => if s.port[0].id == id then story.(error := Some(err)) else story
    case Deliver(i, updated) => if i == id then story.(context := Some(updated)) else story
    case _ => story
  }

  /** The story so far is what the operation and its packet carry. */
  ghost predicate Carries(s: State, id: Id, story: Story)
    requires id in s.ops
  {
    var op := s.ops[id];
    && story.kind == Some(op.kind)
    && (forall i :: 0 <= i < |s.port| && s.port[i].id == id ==> story.reported == Some(s.port[i].bytes))
    && (op.ending.Ending? ==> story.error == Some(op.ending.e))
    && (op.ending.Ending? && op.ending.e == 0 ==> story.reported == Some(op.ending.bytes))
    && (op.signals != [] && op.signals[0] != Done ==> Told(op.signals[0], story))
  }

  /** The signal of an operation that was not stopped, by its story. */
  ghost predicate Told(signal: Signal, story: Story) {
    && story.kind.Some? && story.error.Some? && story.context.Some?
    && (story.error.value == 0 ==> story.reported.Some?)
    && (story.error.value != 0 ==> signal == Failure(System(story.error.value)))
    && (story.error.value == 0 ==>
          match story.kind.value
          case Write => signal == Value(story.reported.value)
          case Read(hasData) =>
            signal == if story.reported.value > 0 || !hasData then Value(story.reported.value) else Failure(NothingRead)
          case Connect => signal == if story.context.value then Value(0) else Failure(ContextNotUpdated))
  }

  lemma {:induction false} StoryIsCarried(es: seq<Event>, id: Id)
    requires IsRun(es) && id in After(es).ops
    ensures Carries(After(es), id, StoryOf(es, id))
    decreases |es|
  {
    var p, e := es[..|es| - 1], es[|es| - 1];
    if id in After(p).ops {
      StoryIsCarried(p, id);
    }
    EventIsCarried(After(p), e, id, StoryOf(p, id));
  }

  lemma {:induction false} EventIsCarried(s: State, e: Event, id: Id, story: Story)
    requires Inv(s) && Enabled(s, e) && id in Next(s, e).ops
    requires id in s.ops ==> Carries(s, id, story)
    ensures Carries(Next(s, e), id, StoryNext(story, s, e, id))
  {
    assert InvOf(s, id);
    NoPackets(s.port, id);
    if e.Dispatch? {
      NoPackets(s.port[1..], id);
      assert forall i :: 0 <= i < |s.port| - 1 ==> s.port[1..][i] == s.port[i + 1];
    }
  }

  lemma {:induction false} NoPackets(port: seq<Packet>, id: Id)
    ensures Packets(port, id) == 0 <==> forall i :: 0 <= i < |port| ==> port[i].id != id
  {
    if port != [] {
      NoPackets(port[1..], id);
      assert forall i :: 0 <= i < |port| - 1 ==> port[1..][i] == port[i + 1];
    }
  }

  /** In every run, whatever the interleaving of kernel, dispatcher and stop requests: an operation signals at
      most once; once it has, its stop callback has been built and destroyed exactly once and neither a request nor
      a packet names it any more, so its storage is safe to use again; with nothing left between callback and
      request, in the kernel, in the port or in a callback, each started operation has signalled. */
  lemma {:induction false} ExactlyOnce(es: seq<Event>, id: Id)
    requires IsRun(es) && id in After(es).ops
    ensures var s := After(es);
      var op := s.ops[id];
      && |op.signals| <= 1
      && (op.signals != [] ==> op.started && op.built == op.destroyed == 1)
      && (op.signals != [] ==> !op.issuing && id !in s.kernel && Packets(s.port, id) == 0 && op.ending.NotYet?)
      && (op.started && !op.issuing && id !in s.kernel && Packets(s.port, id) == 0 && op.ending.NotYet? ==> |op.signals| == 1)
    // And the one signal is the right one. Stopped in time: done.
    ensures After(es).ops[id].signals != [] ==>
      var signal, story := After(es).ops[id].signals[0], StoryOf(es, id);
      && (StoppedInTime(es, id) <==> signal.Done?)
      && (!StoppedInTime(es, id) ==>
        && story.kind.Some? && story.error.Some? && story.context.Some?
        // Refused or dispatched with an error: that error.
        && (forall e: Error :: e != 0 ==> (story.error == Some(e) <==> signal == Failure(System(e))))
        // Otherwise, by kind: the bytes reported, nothing read although there was room, or the context.
        && (story.error == Some(0) ==>
          && story.reported.Some?
          && (story.kind == Some(Write) ==> signal == Value(story.reported.value))
          && (story.kind == Some(Read(false)) ==> signal == Value(story.reported.value))
          && (story.kind == Some(Read(true)) && story.reported.value > 0 ==> signal == Value(story.reported.value))
          && (story.kind == Some(Read(true)) && story.reported.value == 0 ==> signal == Failure(NothingRead))
          && (story.kind == Some(Connect) && story.context.value ==> signal == Value(0))
          && (story.kind == Some(Connect) && !story.context.value ==> signal == Failure(ContextNotUpdated))))
  {
    assert InvOf(After(es), id);
    StoryIsCarried(es, id);
    DoneExactlyWhenStopped(es, id);
  }

  /** A read that was offered room never reports success with zero bytes. */
  lemma {:induction false} ReadSuccessMovedBytes(es: seq<Event>, id: Id)
    requires IsRun(es) && id in After(es).ops && After(es).ops[id].kind == Read(true)
    ensures After(es).ops[id].signals != [] && After(es).ops[id].signals[0].Value? ==> After(es).ops[id].signals[0].bytes > 0
  {
    StoryIsCarried(es, id);
  }
}
