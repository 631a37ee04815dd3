/** Any number of threads in poll_one at once, over the lock-free queue itself: while some post
    entries and add tasks, no entry is lost or delivered twice, even when a pop fails only
    because another thread has the nodes in its hands. */
module SchedulerConcurrent {

  import opened Arithmetic
  import opened Sequences
  import opened QueueMachine
  import Runs = QueueRuns
  import Order = QueueOrder
  import Solo = QueueSolo

  /** The serial number of a post. Re-posting keeps it. */
  type Ticket = nat

  /** What a thread has taken out of the port, and how far its poll_one has come. */
  datatype Hand =
    | Free
    | Holds(k: Ticket)                  // before or inside tasks_.pop
    | MustRepost(k: Ticket)             // pop returned false
    | MustSet(k: Ticket, task: Node)    // pop returned a task

  datatype Delivery = Delivery(task: Node, k: Ticket)

  /** `queue` is the run the task queue has made so far. */
  datatype System = System(
    port: seq<Ticket>, posted: nat, hands: map<Tid, Hand>, delivered: seq<Delivery>, queue: seq<Event>)

  const START := System([], 0, map[], [], [])

  function HandOf(s: System, t: Tid): Hand {
    if t in s.hands then s.hands[t] else Free
  }

  ghost predicate TaskInHand(s: System, task: Node) {
    exists t :: HasTask(HandOf(s, t), task)
  }

  predicate HasTask(h: Hand, task: Node) {
    h.MustSet? && h.task == task
  }

  datatype Move =
    | Post                  // somebody posts an entry
    | Add(task: Node)       // a coroutine suspends: tasks_.push begins
    | Query                 // io_port_.query
    | QueueStep(act: Action) // a step of the push or pop the thread is in, or the call of pop
    | Repost
    | Set                   // task->set

  /** A coroutine suspends on a task once, and not while a thread is about to resume it: `Add` asks that
      no thread has the task in its hand, as `await_suspend` asks that the task has no coroutine yet. */
  ghost predicate Possible(s: System, t: Tid, m: Move)
    requires IsRun(s.queue)
  {
    var q, h := After(s.queue), HandOf(s, t);
    match m
    case Post => true
    case Add(task) => h.Free? && Enabled(q, t, CallPush(task)) && !TaskInHand(s, task)
    case Query => h.Free? && At(q, t).Idle? && s.port != []
    case QueueStep(act) => !act.CallPush? && Enabled(q, t, act) && (act.CallPop? ==> h.Holds?)
    case Repost => h.MustRepost?
    case Set => h.MustSet?
  }

  function Keep(s: System, t: Tid, h: Hand): System {
    s.(hands := s.hands[t := h])
  }

  ghost function Next(s: System, t: Tid, m: Move): System
    requires IsRun(s.queue) && Possible(s, t, m)
  {
    var h := HandOf(s, t);
    match m
    case Post => s.(port := s.port + [s.posted], posted := s.posted + 1)
    case Add(task) => s.(queue := s.queue + [Event(t, CallPush(task))])
    case Query => Keep(s, t, Holds(s.port[0])).(port := s.port[1..])
    case QueueStep(act) =>
      var s' := s.(queue := s.queue + [Event(t, act)]);
      (match OutcomeOf(After(s.queue), t, act)
       case PopFailed => Keep(s', t, if h.Holds? then MustRepost(h.k) else h)
       case Popped(task) => Keep(s', t, if h.Holds? then MustSet(h.k, task) else h)
       case _ => s')
    case Repost => Keep(s, t, Free).(port := s.port + [h.k])
    case Set => Keep(s, t, Free).(delivered := s.delivered + [Delivery(h.task, h.k)])
  }

  predicate Carries(h: Hand, k: Ticket) {
    !h.Free? && h.k == k
  }

  /** Every ticket ever posted is in exactly one place. */
  ghost predicate OnePlace(s: System) {
    && (forall i, j :: 0 <= i < j < |s.port| ==> s.port[i] != s.port[j])
    && (forall i, j :: 0 <= i < j < |s.delivered| ==> s.delivered[i].k != s.delivered[j].k)
    && (forall t, u, k: Ticket :: Carries(HandOf(s, t), k) && Carries(HandOf(s, u), k) ==> t == u)
    && (forall k: Ticket :: InHand(s, k) ==> k !in s.port && !Delivered(s, k))
    && (forall k: Ticket :: k in s.port ==> !Delivered(s, k))
    && (forall k: Ticket :: k < s.posted <==> k in s.port || Delivered(s, k) || InHand(s, k))
  }

  ghost predicate Delivered(s: System, k: Ticket) {
    exists i :: 0 <= i < |s.delivered| && s.delivered[i].k == k
  }

  ghost predicate InHand(s: System, k: Ticket) {
    exists t :: Carries(HandOf(s, t), k)
  }

  /** A thread is inside pop only with an entry to deliver. */
  ghost predicate HandsMatch(s: System)
    requires IsRun(s.queue)
  {
    forall t :: InPop(At(After(s.queue), t)) ==> HandOf(s, t).Holds?
  }

  ghost predicate Inv(s: System) {
    IsRun(s.queue) && OnePlace(s) && HandsMatch(s)
  }

  lemma {:induction false} QueueGrows(s: System, t: Tid, act: Action)
    requires IsRun(s.queue) && Enabled(After(s.queue), t, act)
    ensures var es := s.queue + [Event(t, act)];
      IsRun(es) && After(es) == Step(After(s.queue), t, act) && Last(es) == OutcomeOf(After(s.queue), t, act)
  {
    var es := Extend(s.queue, t, act);
  }

  lemma {:induction false} StepKeepsRun(s: System, t: Tid, m: Move)
    requires Inv(s) && Possible(s, t, m)
    ensures IsRun(Next(s, t, m).queue) && HandsMatch(Next(s, t, m))
  {
    QueueAfter(s, t, m);
    var s' := Next(s, t, m);
    forall u ensures InPop(At(After(s'.queue), u)) ==> HandOf(s', u).Holds? {
      if u == t {
        OwnHandMatches(s, t, m);
      } else {
        OtherHandMatches(s, t, m, u);
      }
    }
  }

  lemma {:induction false} QueueAfter(s: System, t: Tid, m: Move)
    requires Inv(s) && Possible(s, t, m)
    ensures IsRun(Next(s, t, m).queue)
    ensures After(Next(s, t, m).queue) ==
      match m
      case Add(task) => Step(After(s.queue), t, CallPush(task))
      case QueueStep(act) => Step(After(s.queue), t, act)
      case _ => After(s.queue)
  {
    match m {
      case Add(task) => QueueGrows(s, t, CallPush(task));
      case QueueStep(act) => QueueGrows(s, t, act);
      case _ =>
    }
  }

  lemma {:induction false} OwnHandMatches(s: System, t: Tid, m: Move)
    requires Inv(s) && Possible(s, t, m) && IsRun(Next(s, t, m).queue)
    ensures InPop(At(After(Next(s, t, m).queue), t)) ==> HandOf(Next(s, t, m), t).Holds?
  {
    QueueAfter(s, t, m);
    var q := After(s.queue);
    assert InPop(At(q, t)) ==> HandOf(s, t).Holds?;
    if m.QueueStep? && InPop(At(Step(q, t, m.act), t)) {
      StillInPop(q, t, m.act);
      assert HandOf(Next(s, t, m), t) == HandOf(s, t);
    }
  }

  lemma {:induction false} OtherHandMatches(s: System, t: Tid, m: Move, u: Tid)
    requires Inv(s) && Possible(s, t, m) && IsRun(Next(s, t, m).queue) && u != t
    ensures InPop(At(After(Next(s, t, m).queue), u)) ==> HandOf(Next(s, t, m), u).Holds?
  {
    QueueAfter(s, t, m);
    HandsAfter(s, t, m, 0);
    assert InPop(At(After(s.queue), u)) ==> HandOf(s, u).Holds?;
    match m {
      case Add(task) => StepOfAnother(After(s.queue), t, CallPush(task), u);
      case QueueStep(act) => StepOfAnother(After(s.queue), t, act, u);
      case _ =>
    }
  }

  lemma {:induction false} StillInPop(q: State, t: Tid, act: Action)
    requires Enabled(q, t, act) && !act.CallPush? && InPop(At(Step(q, t, act), t))
    ensures OutcomeOf(q, t, act).Nothing? && (InPop(At(q, t)) || act.CallPop?)
  {}

  lemma {:induction false} HandsAfter(s: System, t: Tid, m: Move, k: Ticket)
    requires IsRun(s.queue) && Possible(s, t, m)
    ensures var s' := Next(s, t, m);
      && (forall u :: u != t ==> HandOf(s', u) == HandOf(s, u))
      && (m.Post? || m.Add? || m.QueueStep? ==> (Carries(HandOf(s', t), k) <==> Carries(HandOf(s, t), k)))
      && (m.Query? ==> HandOf(s, t) == Free && HandOf(s', t) == Holds(s.port[0]))
      && (m.Repost? || m.Set? ==> !HandOf(s, t).Free? && HandOf(s', t) == Free)
  {}

  lemma {:induction false} InHandAfter(s: System, t: Tid, m: Move, k: Ticket)
    requires Inv(s) && Possible(s, t, m)
    ensures InHand(Next(s, t, m), k) <==>
      if m.Query? then InHand(s, k) || k == s.port[0]
      else if m.Repost? || m.Set? then InHand(s, k) && k != HandOf(s, t).k
      else InHand(s, k)
  {
    var s' := Next(s, t, m);
    HandsAfter(s, t, m, k);
    if InHand(s, k) {
      var u :| Carries(HandOf(s, u), k);
      assert u != t ==> Carries(HandOf(s', u), k);
      assert u == t && (m.Repost? || m.Set?) ==> k == HandOf(s, t).k;
      assert u != t && (m.Repost? || m.Set?) ==> Carries(HandOf(s, t), HandOf(s, t).k);
    }
    assert m.Query? ==> Carries(HandOf(s', t), s.port[0]);
  }

  lemma {:induction false} DeliveredAfter(s: System, t: Tid, m: Move, k: Ticket)
    requires IsRun(s.queue) && Possible(s, t, m)
    ensures Delivered(Next(s, t, m), k) <==> Delivered(s, k) || (m.Set? && k == HandOf(s, t).k)
  {
    var s' := Next(s, t, m);
    if m.Set? {
      assert s'.delivered[|s.delivered|].k == HandOf(s, t).k;
      assert forall i :: 0 <= i < |s.delivered| ==> s'.delivered[i] == s.delivered[i];
    }
  }

  lemma {:induction false} InPortAfter(s: System, t: Tid, m: Move, k: Ticket)
    requires Inv(s) && Possible(s, t, m)
    ensures k in Next(s, t, m).port <==>
      if m.Post? then k in s.port || k == s.posted
      else if m.Repost? then k in s.port || k == HandOf(s, t).k
      else if m.Query? then k in s.port && k != s.port[0]
      else k in s.port
  {
    if m.Query? {
      assert s.port == [s.port[0]] + s.port[1..];
    }
  }

  lemma {:induction false} StepKeepsPlaces(s: System, t: Tid, m: Move)
    requires Inv(s) && Possible(s, t, m)
    ensures OnePlace(Next(s, t, m))
  {
    var s', h := Next(s, t, m), HandOf(s, t);
    assert m.Repost? || m.Set? ==> Carries(h, h.k) && InHand(s, h.k);
    forall k: Ticket
      ensures InHand(s', k) ==> k !in s'.port && !Delivered(s', k)
      ensures k in s'.port ==> !Delivered(s', k)
      ensures k < s'.posted <==> k in s'.port || Delivered(s', k) || InHand(s', k)
    {
      InHandAfter(s, t, m, k);
      DeliveredAfter(s, t, m, k);
      InPortAfter(s, t, m, k);
    }
    forall u, v, k: Ticket | Carries(HandOf(s', u), k) && Carries(HandOf(s', v), k) ensures u == v {
      HandsAfter(s, t, m, k);
      if m.Query? && k == s.port[0] {
        assert !InHand(s, k);
      }
    }
    forall i, j | 0 <= i < j < |s'.port| ensures s'.port[i] != s'.port[j] {
      if m.Post? && j == |s.port| {
        assert s.port[i] in s.port;
      }
      if m.Repost? && j == |s.port| {
        assert s.port[i] in s.port;
      }
    }
    forall i, j | 0 <= i < j < |s'.delivered| ensures s'.delivered[i].k != s'.delivered[j].k {
      if m.Set? && j == |s.delivered| {
        assert Delivered(s, s.delivered[i].k);
      }
    }
  }

  // ---------- whole runs ----------

  datatype Turn = Turn(t: Tid, m: Move)

  ghost predicate IsHistory(ts: seq<Turn>)
    decreases |ts|, 0
  {
    ts == [] ||
    (IsHistory(ts[..|ts| - 1]) && Possible(Now(ts[..|ts| - 1]), ts[|ts| - 1].t, ts[|ts| - 1].m))
  }

  ghost function Now(ts: seq<Turn>): (s: System)
    requires IsHistory(ts)
    ensures Inv(s)
    decreases |ts|, 1
  {
    if ts == [] then
      START
    else
      var s, e := Now(ts[..|ts| - 1]), ts[|ts| - 1];
      StepKeepsRun(s, e.t, e.m);
      StepKeepsPlaces(s, e.t, e.m);
      Next(s, e.t, e.m)
  }

  /** One more turn of a history. */
  lemma {:induction false} Continue(ts: seq<Turn>, t: Tid, m: Move) returns (longer: seq<Turn>)
    requires IsHistory(ts) && Possible(Now(ts), t, m)
    ensures longer == ts + [Turn(t, m)] && IsHistory(longer) && Now(longer) == Next(Now(ts), t, m)
  {
    longer := ts + [Turn(t, m)];
    assert longer[..|longer| - 1] == ts;
  }

  // ---------- who gets what, and in what order ----------

  datatype Option<T> = None | Some(value: T)

  /** The entry that the thread's latest query took: the one at the front of the port. */
  ghost function LatestQuery(ts: seq<Turn>, t: Tid): Option<Ticket>
    requires IsHistory(ts)
    decreases |ts|
  {
    if ts == [] then None
    else
      var p, e := ts[..|ts| - 1], ts[|ts| - 1];
      if e.t == t && e.m.Query? then Some(Now(p).port[0]) else LatestQuery(p, t)
  }

  /** The task that the thread's latest successful pop returned. */
  ghost function LatestPop(ts: seq<Turn>, t: Tid): Option<Node>
    requires IsHistory(ts)
    decreases |ts|
  {
    if ts == [] then None
    else
      var p, e := ts[..|ts| - 1], ts[|ts| - 1];
      if e.t == t && e.m.QueueStep? && OutcomeOf(After(Now(p).queue), t, e.m.act).Popped? then
        Some(OutcomeOf(After(Now(p).queue), t, e.m.act).v)
      else LatestPop(p, t)
  }

  /** What is in a thread's hand comes from its latest query and its latest pop. */
  lemma {:induction false} HandIsLatest(ts: seq<Turn>, t: Tid)
    requires IsHistory(ts)
    ensures var h := HandOf(Now(ts), t);
      && (!h.Free? ==> LatestQuery(ts, t) == Some(h.k))
      && (h.MustSet? ==> LatestPop(ts, t) == Some(h.task))
    decreases |ts|
  {
    if ts != [] {
      var p, e := ts[..|ts| - 1], ts[|ts| - 1];
      HandIsLatest(p, t);
      HandsAfter(Now(p), e.t, e.m, 0);
      if e.m.QueueStep? {
        OutcomeNeedsHand(Now(p), e.t, e.m.act);
      }
    }
  }

  /** How many turns were a Set by a thread whose latest query took `k` and whose latest pop returned `task`. */
  ghost function Handovers(ts: seq<Turn>, task: Node, k: Ticket): nat
    requires IsHistory(ts)
    decreases |ts|
  {
    if ts == [] then 0
    else
      var p, e := ts[..|ts| - 1], ts[|ts| - 1];
      Handovers(p, task, k) + One(e.m.Set? && LatestQuery(p, e.t) == Some(k) && LatestPop(p, e.t) == Some(task))
  }

  /** Every delivery pairs a task with the entry that the thread which popped it had taken: in any history, as
      many deliveries of `k` to `task` are on record as there were such turns. */
  lemma {:induction false} DeliveriesAreHandovers(ts: seq<Turn>, task: Node, k: Ticket)
    requires IsHistory(ts)
    ensures multiset(Now(ts).delivered)[Delivery(task, k)] == Handovers(ts, task, k)
    decreases |ts|
  {
    if ts != [] {
      var p, e := ts[..|ts| - 1], ts[|ts| - 1];
      DeliveriesAreHandovers(p, task, k);
      HandIsLatest(p, e.t);
    }
  }

  /** How many posts a history has. */
  ghost function Posts(ts: seq<Turn>): nat {
    if ts == [] then 0 else Posts(ts[..|ts| - 1]) + One(ts[|ts| - 1].m.Post?)
  }

  /** The entries in the order in which they were put into the port: posts, numbered as they come, and
      re-posts of what the thread had taken. */
  ghost function Entered(ts: seq<Turn>): seq<Option<Ticket>>
    requires IsHistory(ts)
    decreases |ts|
  {
    if ts == [] then []
    else
      var p, e := ts[..|ts| - 1], ts[|ts| - 1];
      Entered(p) + match e.m
                   case Post => [Some(Posts(p))]
                   case Repost => [LatestQuery(p, e.t)]
                   case _ => []
  }

  /** The entries in the order in which queries took them. */
  ghost function Taken(ts: seq<Turn>): seq<Option<Ticket>>
    requires IsHistory(ts)
    decreases |ts|
  {
    if ts == [] then []
    else
      var p, e := ts[..|ts| - 1], ts[|ts| - 1];
      Taken(p) + if e.m.Query? then [LatestQuery(ts, e.t)] else []
  }

  function Somes(s: seq<Ticket>): seq<Option<Ticket>> {
    seq(|s|, i requires 0 <= i < |s| => Some(s[i]))
  }

  /** The port is first-in first-out: what was taken, followed by what is in it, is what was put in, in order. */
  lemma {:induction false} PortInOrder(ts: seq<Turn>)
    requires IsHistory(ts)
    ensures Entered(ts) == Taken(ts) + Somes(Now(ts).port)
    ensures Now(ts).posted == Posts(ts)
    decreases |ts|
  {
    if ts != [] {
      var p, e := ts[..|ts| - 1], ts[|ts| - 1];
      PortInOrder(p);
      HandIsLatest(p, e.t);
      PortStep(Taken(p), Now(p), e.t, e.m);
      match e.m {
        case Query => assert LatestQuery(ts, e.t) == Some(Now(p).port[0]);
        case Repost => assert LatestQuery(p, e.t) == Some(HandOf(Now(p), e.t).k);
        case _ =>
      }
    }
  }

  lemma {:induction false} PortStep(taken: seq<Option<Ticket>>, s: System, t: Tid, m: Move)
    requires IsRun(s.queue) && Possible(s, t, m)
    ensures var s' := Next(s, t, m);
      match m
      case Post => taken + Somes(s'.port) == taken + Somes(s.port) + [Some(s.posted)]
      case Repost => taken + Somes(s'.port) == taken + Somes(s.port) + [Some(HandOf(s, t).k)]
      case Query => taken + [Some(s.port[0])] + Somes(s'.port) == taken + Somes(s.port)
      case _ => s'.port == s.port
  {
    match m
    case Query => assert Somes(s.port) == [Some(s.port[0])] + Somes(s.port[1..]);
    case _ =>
  }

  /** Conservation of entries: after any interleaving each posted entry is in the port, with exactly
      one thread, or delivered exactly once, in one hand-over to the task on record, and never in two of these places. */
  lemma {:induction false} EveryEntryIsAccountedFor(ts: seq<Turn>, k: Ticket)
    requires IsHistory(ts) && k < Posts(ts)
    ensures var s := Now(ts);
      || (k in s.port && !InHand(s, k) && !Delivered(s, k))
      || (k !in s.port && !Delivered(s, k) &&
          exists t :: Carries(HandOf(s, t), k) && forall u :: Carries(HandOf(s, u), k) ==> u == t)
      || (k !in s.port && !InHand(s, k) && exists i :: DeliveredOnceAt(ts, k, i))
  {
    var s := Now(ts);
    PortInOrder(ts);
    if Delivered(s, k) {
      var i :| 0 <= i < |s.delivered| && s.delivered[i].k == k;
      DeliveriesAreHandovers(ts, s.delivered[i].task, k);
      CountOne(s.delivered, i);
      assert DeliveredOnceAt(ts, k, i);
    }
  }

  ghost predicate DeliveredOnceAt(ts: seq<Turn>, k: Ticket, i: int)
    requires IsHistory(ts)
  {
    var delivered := Now(ts).delivered;
    && 0 <= i < |delivered| && delivered[i].k == k
    && (forall j :: 0 <= j < |delivered| && delivered[j].k == k ==> j == i)
    && Handovers(ts, delivered[i].task, k) == 1
  }

  // ---------- what becomes of an entry that a thread takes ----------

  /** What thread `t` has done with entry `k`: taken it from the port, found no task for it,
      posted it again, handed it to a task. */
  datatype Record = Record(taken: nat, missed: nat, reposted: nat, handed: nat)

  ghost function RecordOf(ts: seq<Turn>, t: Tid, k: Ticket): Record
    requires IsHistory(ts)
    decreases |ts|
  {
    if ts == [] then Record(0, 0, 0, 0)
    else
      var p, e := ts[..|ts| - 1], ts[|ts| - 1];
      if e.t == t then RecordNext(RecordOf(p, t, k), Now(p), t, e.m, k) else RecordOf(p, t, k)
  }

  ghost function RecordNext(r: Record, s: System, t: Tid, m: Move, k: Ticket): Record
    requires IsRun(s.queue) && Possible(s, t, m)
  {
    Record(
      r.taken + One(m.Query? && s.port[0] == k),
      r.missed + One(m.QueueStep? && OutcomeOf(After(s.queue), t, m.act).PopFailed? && Carries(HandOf(s, t), k)),
      r.reposted + One(m.Repost? && HandOf(s, t).k == k),
      r.handed + One(m.Set? && HandOf(s, t).k == k))
  }

  /** Over any history each entry that a thread takes is posted again or handed to a task, by the same thread and
      as often as it was taken, or still in its hand; and it is posted again exactly when, and as
      often as, the thread's pop has failed with that entry in hand, or is about to be. */
  lemma {:induction false} EveryTakenEntryIsSettled(ts: seq<Turn>, t: Tid, k: Ticket)
    requires IsHistory(ts)
    ensures var r, h := RecordOf(ts, t, k), HandOf(Now(ts), t);
      && r.taken == r.reposted + r.handed + One(Carries(h, k))
      && r.missed == r.reposted + One(h == MustRepost(k))
    decreases |ts|
  {
    if ts != [] {
      var p, e := ts[..|ts| - 1], ts[|ts| - 1];
      EveryTakenEntryIsSettled(p, t, k);
      if e.t == t {
        OwnMoveSettles(Now(p), t, e.m, k, RecordOf(p, t, k));
      } else {
        HandsAfter(Now(p), e.t, e.m, k);
      }
    }
  }

  lemma {:induction false} OwnMoveSettles(s: System, t: Tid, m: Move, k: Ticket, r: Record)
    requires Inv(s) && Possible(s, t, m)
    ensures var n, h, h' := RecordNext(r, s, t, m, k), HandOf(s, t), HandOf(Next(s, t, m), t);
      && n.taken - r.taken + One(Carries(h, k)) == n.reposted - r.reposted + (n.handed - r.handed) + One(Carries(h', k))
      && n.missed - r.missed + One(h == MustRepost(k)) == n.reposted - r.reposted + One(h' == MustRepost(k))
  {
    if m.QueueStep? {
      OutcomeNeedsHand(s, t, m.act);
    }
  }

  /** A pop ends only in a thread that has an entry for it. */
  lemma {:induction false} OutcomeNeedsHand(s: System, t: Tid, act: Action)
    requires Inv(s) && Enabled(After(s.queue), t, act)
    ensures var o := OutcomeOf(After(s.queue), t, act);
      o.Popped? || o.PopFailed? ==> HandOf(s, t).Holds?
  {
    assert InPop(At(After(s.queue), t)) ==> HandOf(s, t).Holds?;
  }

  // ---------- what becomes of a task that is added ----------

  ghost function Adds(ts: seq<Turn>, task: Node): nat
    requires IsHistory(ts)
    decreases |ts|
  {
    if ts == [] then 0 else Adds(ts[..|ts| - 1], task) + One(ts[|ts| - 1].m == Add(task))
  }

  /** The turn hands an entry to the task: it puts such a delivery on record. */
  ghost predicate Resumed(s: System, t: Tid, m: Move, task: Node)
    requires IsRun(s.queue) && Possible(s, t, m)
  {
    m.Set? && Next(s, t, m).delivered[|s.delivered|..] == [Delivery(task, HandOf(s, t).k)]
  }

  lemma {:induction false} ResumedIsHand(s: System, t: Tid, m: Move, task: Node)
    requires IsRun(s.queue) && Possible(s, t, m)
    ensures Resumed(s, t, m, task) <==> m.Set? && HandOf(s, t).task == task
    ensures !m.Set? ==> Next(s, t, m).delivered == s.delivered
  {
    if m.Set? {
      var d := Delivery(HandOf(s, t).task, HandOf(s, t).k);
      assert (s.delivered + [d])[|s.delivered|..] == [d];
    }
  }

  /** How often the coroutine behind `task` has been resumed, by any thread. */
  ghost function Resumes(ts: seq<Turn>, task: Node): nat
    requires IsHistory(ts)
    decreases |ts|
  {
    if ts == [] then 0
    else
      var p, e := ts[..|ts| - 1], ts[|ts| - 1];
      Resumes(p, task) + One(Resumed(Now(p), e.t, e.m, task))
  }

  /** A task that a thread has in its hand is in no other hand and not in the queue. */
  ghost predicate TaskApart(s: System, task: Node)
    requires IsRun(s.queue)
  {
    && (forall t, u :: HasTask(HandOf(s, t), task) && HasTask(HandOf(s, u), task) ==> t == u)
    && (TaskInHand(s, task) ==> task !in After(s.queue).inside)
  }

  lemma {:induction false} TasksStayApart(ts: seq<Turn>, task: Node)
    requires IsHistory(ts)
    ensures TaskApart(Now(ts), task)
    decreases |ts|
  {
    if ts != [] {
      var p, e := ts[..|ts| - 1], ts[|ts| - 1];
      TasksStayApart(p, task);
      MoveKeepsApart(Now(p), e.t, e.m, task);
    }
  }

  lemma {:induction false} MoveKeepsApart(s: System, t: Tid, m: Move, task: Node)
    requires Inv(s) && Possible(s, t, m) && TaskApart(s, task)
    ensures TaskApart(Next(s, t, m), task)
  {
    TaskHandsAfter(s, t, m, task);
    InsideAfter(s, t, m, task);
  }

  ghost predicate PopsTask(s: System, t: Tid, m: Move, task: Node)
    requires IsRun(s.queue) && Possible(s, t, m)
  {
    m.QueueStep? && OutcomeOf(After(s.queue), t, m.act) == Popped(task)
  }

  /** Whose hand has the task after a move. */
  lemma {:induction false} TaskHandsAfter(s: System, t: Tid, m: Move, task: Node)
    requires Inv(s) && Possible(s, t, m)
    ensures forall u :: u != t ==> HandOf(Next(s, t, m), u) == HandOf(s, u)
    ensures HasTask(HandOf(Next(s, t, m), t), task) <==> PopsTask(s, t, m, task) || (HasTask(HandOf(s, t), task) && !m.Set?)
    ensures PopsTask(s, t, m, task) ==> !HasTask(HandOf(s, t), task)
  {
    HandsAfter(s, t, m, 0);
    if m.QueueStep? {
      OutcomeNeedsHand(s, t, m.act);
    }
  }

  /** Whether the queue has the task after a move. */
  lemma {:induction false} InsideAfter(s: System, t: Tid, m: Move, task: Node)
    requires Inv(s) && Possible(s, t, m)
    ensures IsRun(Next(s, t, m).queue)
    ensures PopsTask(s, t, m, task) ==> task in After(s.queue).inside
    ensures task in After(Next(s, t, m).queue).inside <==>
      m == Add(task) || (task in After(s.queue).inside && !PopsTask(s, t, m, task))
  {
    QueueAfter(s, t, m);
    if m.QueueStep? {
      QueueGrows(s, t, m.act);
      var es := s.queue + [Event(t, m.act)];
      assert es[..|es| - 1] == s.queue;
      if PopsTask(s, t, m, task) {
        Runs.PopReturnsOwnedNode(es, task);
      }
      InsideShrinks(After(s.queue), t, m.act, task);
    }
  }

  lemma {:induction false} InsideShrinks(q: State, t: Tid, act: Action, n: Node)
    requires Enabled(q, t, act) && !act.CallPush?
    ensures n in Step(q, t, act).inside ==> n in q.inside
    ensures OutcomeOf(q, t, act) != Popped(n) ==> (n in Step(q, t, act).inside <==> n in q.inside)
  {}

  /** The task law: over any history a task has been added as often as its coroutine has been resumed,
      and once more exactly while the queue has it or one thread holds it in its hand, which exclude
      each other. */
  lemma {:induction false} EveryAddedTaskIsAccountedFor(ts: seq<Turn>, task: Node)
    requires IsHistory(ts)
    ensures var s := Now(ts);
      && Adds(ts, task) == Resumes(ts, task) + One(task in After(s.queue).inside) + One(TaskInHand(s, task))
      && TaskApart(s, task)
    decreases |ts|
  {
    TasksStayApart(ts, task);
    if ts != [] {
      var p, e := ts[..|ts| - 1], ts[|ts| - 1];
      EveryAddedTaskIsAccountedFor(p, task);
      TaskBalance(Now(p), e.t, e.m, task);
      ResumedIsHand(Now(p), e.t, e.m, task);
    }
  }

  lemma {:induction false} TaskBalance(s: System, t: Tid, m: Move, task: Node)
    requires Inv(s) && Possible(s, t, m) && TaskApart(s, task)
    ensures IsRun(Next(s, t, m).queue)
    ensures One(task in After(Next(s, t, m).queue).inside) + One(TaskInHand(Next(s, t, m), task))
        + One(m.Set? && HandOf(s, t).task == task)
      == One(task in After(s.queue).inside) + One(TaskInHand(s, task)) + One(m == Add(task))
  {
    InsideAfter(s, t, m, task);
    InHandAfterMove(s, t, m, task);
  }

  lemma {:induction false} InHandAfterMove(s: System, t: Tid, m: Move, task: Node)
    requires Inv(s) && Possible(s, t, m) && TaskApart(s, task)
    ensures TaskInHand(Next(s, t, m), task) <==>
      PopsTask(s, t, m, task) || (TaskInHand(s, task) && !(m.Set? && HandOf(s, t).task == task))
  {
    var s' := Next(s, t, m);
    TaskHandsAfter(s, t, m, task);
    if TaskInHand(s, task) {
      var u :| HasTask(HandOf(s, u), task);
      assert u != t ==> HasTask(HandOf(s', u), task);
      assert u == t && !m.Set? ==> HasTask(HandOf(s', t), task);
    }
    if PopsTask(s, t, m, task) {
      assert HasTask(HandOf(s', t), task);
    }
  }

  // ---------- by thread ----------

  /** How often thread `t` has resumed the coroutine behind `task`. */
  ghost function ResumesBy(ts: seq<Turn>, t: Tid, task: Node): nat
    requires IsHistory(ts)
    decreases |ts|
  {
    if ts == [] then 0
    else
      var p, e := ts[..|ts| - 1], ts[|ts| - 1];
      ResumesBy(p, t, task) + One(e.t == t && Resumed(Now(p), e.t, e.m, task))
  }

  /** How often a pop of thread `t` has returned `task`. */
  ghost function PopsBy(es: seq<Event>, t: Tid, task: Node): nat
    requires IsRun(es)
    decreases |es|
  {
    if es == [] then 0
    else PopsBy(es[..|es| - 1], t, task) + One(es[|es| - 1].t == t && Last(es) == Popped(task))
  }

  /** Every task a pop returns is resumed exactly once, by the thread that popped it,
      or is about to be. */
  lemma {:induction false} EveryPoppedTaskIsResumedOnce(ts: seq<Turn>, t: Tid, task: Node)
    requires IsHistory(ts)
    ensures PopsBy(Now(ts).queue, t, task) == ResumesBy(ts, t, task) + One(HasTask(HandOf(Now(ts), t), task))
    decreases |ts|
  {
    if ts != [] {
      var p, e := ts[..|ts| - 1], ts[|ts| - 1];
      EveryPoppedTaskIsResumedOnce(p, t, task);
      TaskHandsAfter(Now(p), e.t, e.m, task);
      ResumedIsHand(Now(p), e.t, e.m, task);
      PopsGrow(Now(p), e.t, e.m, t, task);
    }
  }

  lemma {:induction false} PopsGrow(s: System, u: Tid, m: Move, t: Tid, task: Node)
    requires Inv(s) && Possible(s, u, m)
    ensures IsRun(Next(s, u, m).queue)
    ensures PopsBy(Next(s, u, m).queue, t, task) == PopsBy(s.queue, t, task) + One(u == t && PopsTask(s, u, m, task))
  {
    if m.QueueStep? || m.Add? {
      var act := if m.Add? then CallPush(m.task) else m.act;
      QueueGrows(s, u, act);
      var es := s.queue + [Event(u, act)];
      assert es[..|es| - 1] == s.queue;
    }
  }

  // ---------- every run of the queue can happen ----------

  /** The thread has an entry in hand exactly while it is inside pop. */
  ghost predicate PromptAt(s: System, t: Tid)
    requires IsRun(s.queue)
  {
    if InPop(At(After(s.queue), t)) then HandOf(s, t).Holds? else HandOf(s, t).Free?
  }

  ghost predicate Prompt(s: System)
    requires IsRun(s.queue)
  {
    forall t :: PromptAt(s, t)
  }

  /** All but `t` are prompt. */
  ghost predicate PromptBut(s: System, t: Tid)
    requires IsRun(s.queue)
  {
    forall u :: u != t ==> PromptAt(s, u)
  }

  /** Whatever the queue does in some run, it does in some history of the scheduler. */
  lemma {:induction false} EveryQueueRunHappens(es: seq<Event>) returns (ts: seq<Turn>)
    requires IsRun(es)
    ensures IsHistory(ts) && Now(ts).queue == es && Prompt(Now(ts))
    decreases |es|
  {
    if es == [] {
      ts := [];
    } else {
      var p, e := es[..|es| - 1], es[|es| - 1];
      ts := EveryQueueRunHappens(p);
      assert es == p + [e];
      ts := Imitate(ts, e);
      ts := Settle(ts, e.t);
    }
  }

  /** One step of the queue as a turn, with an entry posted and taken first if it begins a pop. */
  lemma {:induction false} Imitate(ts: seq<Turn>, e: Event) returns (longer: seq<Turn>)
    requires IsHistory(ts) && Prompt(Now(ts)) && Enabled(After(Now(ts).queue), e.t, e.act)
    ensures IsHistory(longer) && Now(longer).queue == Now(ts).queue + [e] && PromptBut(Now(longer), e.t)
    ensures PromptAt(Now(longer), e.t) || MustSettle(Now(longer), e.t)
  {
    assert PromptAt(Now(ts), e.t);
    var p := ts;
    if e.act.CallPop? {
      p := GetEntry(ts, e.t);
    } else if e.act.CallPush? {
      NoTaskInHand(Now(ts), e.act.v);
    }
    IsReady(Now(p), e.t, e.act);
    longer := Turns(p, e.t, MoveOf(e.act));
  }

  function MoveOf(act: Action): Move {
    if act.CallPush? then Add(act.v) else QueueStep(act)
  }

  lemma {:induction false} IsReady(s: System, t: Tid, act: Action)
    requires IsRun(s.queue) && Enabled(After(s.queue), t, act)
    requires if act.CallPop? then HandOf(s, t).Holds? else PromptAt(s, t)
    requires act.CallPush? ==> !TaskInHand(s, act.v)
    ensures Possible(s, t, MoveOf(act)) && Ready(s, t, MoveOf(act))
    ensures Next(s, t, MoveOf(act)).queue == s.queue + [Event(t, act)]
  {}

  /** The thread has left pop, and has an entry to post again or to hand over. */
  ghost predicate MustSettle(s: System, t: Tid)
    requires IsRun(s.queue)
  {
    !InPop(At(After(s.queue), t)) && (HandOf(s, t).MustRepost? || HandOf(s, t).MustSet?)
  }

  lemma {:induction false} NoTaskInHand(s: System, task: Node)
    requires IsRun(s.queue) && Prompt(s)
    ensures !TaskInHand(s, task)
  {
    forall t ensures !HasTask(HandOf(s, t), task) {
      assert PromptAt(s, t);
    }
  }

  /** Before a move of the queue: an entry in hand if it is, or begins, a pop. */
  ghost predicate Ready(s: System, t: Tid, m: Move)
    requires IsRun(s.queue)
  {
    && (m.Add? || m.QueueStep?)
    && if InPop(At(After(s.queue), t)) || m == QueueStep(CallPop) then HandOf(s, t).Holds? else HandOf(s, t).Free?
  }

  lemma {:induction false} Turns(ts: seq<Turn>, t: Tid, m: Move) returns (longer: seq<Turn>)
    requires IsHistory(ts) && PromptBut(Now(ts), t) && Possible(Now(ts), t, m) && Ready(Now(ts), t, m)
    ensures IsHistory(longer) && Now(longer) == Next(Now(ts), t, m)
    ensures PromptBut(Now(longer), t) && (PromptAt(Now(longer), t) || MustSettle(Now(longer), t))
  {
    longer := Continue(ts, t, m);
    OwnMovePrompt(Now(ts), t, m);
    forall u | u != t ensures PromptAt(Now(longer), u) {
      OthersMovePrompt(Now(ts), t, m, u);
    }
  }

  lemma {:induction false} OthersMovePrompt(s: System, t: Tid, m: Move, u: Tid)
    requires Inv(s) && Possible(s, t, m) && u != t && PromptAt(s, u)
    ensures IsRun(Next(s, t, m).queue) && PromptAt(Next(s, t, m), u)
  {
    QueueAfter(s, t, m);
    HandsAfter(s, t, m, 0);
    match m {
      case Add(task) => StepOfAnother(After(s.queue), t, CallPush(task), u);
      case QueueStep(act) => StepOfAnother(After(s.queue), t, act, u);
      case _ =>
    }
  }

  lemma {:induction false} OwnMovePrompt(s: System, t: Tid, m: Move)
    requires Inv(s) && Possible(s, t, m) && Ready(s, t, m)
    ensures IsRun(Next(s, t, m).queue)
    ensures PromptAt(Next(s, t, m), t) || MustSettle(Next(s, t, m), t)
  {
    QueueAfter(s, t, m);
    if m.QueueStep? {
      EndsWithResult(After(s.queue), t, m.act);
    }
  }

  /** A pop ends with a result, and only a pop does. */
  lemma {:induction false} EndsWithResult(q: State, t: Tid, act: Action)
    requires Enabled(q, t, act) && !act.CallPush?
    ensures InPop(At(Step(q, t, act), t)) <==>
      (InPop(At(q, t)) || act.CallPop?) && !OutcomeOf(q, t, act).Popped? && !OutcomeOf(q, t, act).PopFailed?
    ensures OutcomeOf(q, t, act).Popped? || OutcomeOf(q, t, act).PopFailed? ==> InPop(At(q, t))
  {}

  lemma {:induction false} GetEntry(ts: seq<Turn>, t: Tid) returns (longer: seq<Turn>)
    requires IsHistory(ts) && Prompt(Now(ts)) && At(After(Now(ts).queue), t).Idle?
    ensures IsHistory(longer) && Now(longer).queue == Now(ts).queue
    ensures PromptBut(Now(longer), t) && HandOf(Now(longer), t).Holds?
  {
    assert PromptAt(Now(ts), t);
    var p := Continue(ts, t, Post);
    longer := Continue(p, t, Query);
    forall u | u != t ensures PromptAt(Now(longer), u) {
      assert PromptAt(Now(ts), u);
    }
  }

  lemma {:induction false} Settle(ts: seq<Turn>, t: Tid) returns (longer: seq<Turn>)
    requires IsHistory(ts) && PromptBut(Now(ts), t) && (PromptAt(Now(ts), t) || MustSettle(Now(ts), t))
    ensures IsHistory(longer) && Now(longer).queue == Now(ts).queue && Prompt(Now(longer))
  {
    if PromptAt(Now(ts), t) {
      longer := ts;
    } else {
      longer := Continue(ts, t, if HandOf(Now(ts), t).MustRepost? then Repost else Set);
      forall u ensures PromptAt(Now(longer), u) {
        assert u != t ==> PromptAt(Now(ts), u);
      }
    }
  }

  /** So a poll_one can find no task although tasks wait: here the queue has two, none was ever popped, and
      a thread is about to post again the entry that it took. */
  lemma {:induction false} FailingPollHistory() returns (ts: seq<Turn>, t: Tid)
    ensures IsHistory(ts) && HandOf(Now(ts), t).MustRepost?
    ensures After(Now(ts).queue).inside == {1, 2} && forall n :: Runs.Returns(Now(ts).queue, n) == 0
  {
    var es := Solo.FailingPopRun();
    var p, e := es[..|es| - 1], es[|es| - 1];
    assert es == p + [e];
    ts := EveryQueueRunHappens(p);
    assert PromptAt(Now(ts), e.t);
    t := e.t;
    ts := Continue(ts, t, QueueStep(e.act));
    forall n ensures Runs.Returns(es, n) == 0 {
      NothingReturned(es, n);
    }
  }

  lemma {:induction false} NothingReturned(es: seq<Event>, n: Node)
    requires IsRun(es) && Order.Departures(es) == []
    ensures Runs.Returns(es, n) == 0
    decreases |es|
  {
    if es != [] {
      NothingReturned(es[..|es| - 1], n);
    }
  }
}
