/** The lock-free intrusive queue as a step machine: one step per access to the
    atomic `head_` and per access to a node's plain `next` field, any number of
    threads, sequentially consistent memory, compare-exchange free to fail
    spuriously. Pointers are natural numbers; a node may be pushed again as soon
    as a pop has returned it, so a pointer can leave `head_` and come back. */
module QueueMachine {

  type Node = nat
  type Tid = nat

  const NULL: Node := 0

  /** What a thread executes next. The arguments are its local variables. */
  datatype Local =
    | Idle
    | PushLoad(v: Node)                                            // head = head_.load()
    | PushStore(v: Node, head: Node)                               // v->next = head
    | PushCas(v: Node, head: Node)                                 // CAS(head_, head, v)
    | PopExchange                                                  // local_head = head_.exchange(null)
    | PopTest(first: Node, tail: Node)                             // while (tail->next)
    | PopPeek(first: Node, tail: Node)                             // tail->next ...
    | PopPeekNext(first: Node, tail: Node, n: Node)                // ... ->next == null
    | PopAdvance(first: Node, tail: Node)                          // tail = tail->next
    | PopDetachRead(first: Node, tail: Node)                       // swap: value = tail->next
    | PopDetachWrite(first: Node, tail: Node, value: Node)         // swap: tail->next = null
    | PopCas(first: Node, tail: Node, value: Node, newHead: Node)  // CAS(head_, new_head, local_head)
    | PopRelink(first: Node, tail: Node, value: Node, newHead: Node) // tail->next = new_head

  /** `inside` is the callers' side of the contract: the nodes handed to push
      that no pop has returned yet. No step of push or pop reads it. */
  datatype State = State(head: Node, next: map<Node, Node>, threads: map<Tid, Local>, inside: set<Node>)

  const INITIAL := State(NULL, map[], map[], {})

  /** A `next` field that was never written holds null. */
  function Next(next: map<Node, Node>, n: Node): Node {
    if n in next then next[n] else NULL
  }

  function At(s: State, t: Tid): Local {
    if t in s.threads then s.threads[t] else Idle
  }

  predicate InPop(l: Local) {
    !l.Idle? && !l.PushLoad? && !l.PushStore? && !l.PushCas?
  }

  function Goto(s: State, t: Tid, l: Local): State {
    s.(threads := s.threads[t := l])
  }

  /** A caller enters push or pop, or a thread inside one takes its next step.
      `spurious` makes a compare-exchange fail although the values are equal. */
  datatype Action = CallPush(v: Node) | CallPop | Run(spurious: bool)

  predicate Enabled(s: State, t: Tid, act: Action) {
    match act
    case CallPush(v) => At(s, t).Idle? && v != NULL && v !in s.inside
    case CallPop => At(s, t).Idle?
    case Run(_) => !At(s, t).Idle?
  }

  function Step(s: State, t: Tid, act: Action): State
    requires Enabled(s, t, act)
  {
    match act
    case CallPush(v) => Goto(s, t, PushLoad(v)).(inside := s.inside + {v})
    case CallPop => Goto(s, t, PopExchange)
    case Run(spurious) =>
      match At(s, t)
      case PushLoad(v) => Goto(s, t, PushStore(v, s.head))
      case PushStore(v, h) => Goto(s, t, PushCas(v, h)).(next := s.next[v := h])
      case PushCas(v, h) =>
        if s.head == h && !spurious then Goto(s, t, Idle).(head := v)
        else Goto(s, t, PushStore(v, s.head))
      case PopExchange =>
        if s.head == NULL then Goto(s, t, Idle)
        else Goto(s, t, PopTest(s.head, s.head)).(head := NULL)
      case PopTest(f, tail) =>
        if Next(s.next, tail) != NULL then Goto(s, t, PopPeek(f, tail))
        else if tail == f then Goto(s, t, Idle).(inside := s.inside - {f})
        else Goto(s, t, PopCas(f, tail, NULL, NULL))
      case PopPeek(f, tail) => Goto(s, t, PopPeekNext(f, tail, Next(s.next, tail)))
      case PopPeekNext(f, tail, n) =>
        if Next(s.next, n) == NULL then Goto(s, t, PopDetachRead(f, tail))
        else Goto(s, t, PopAdvance(f, tail))
      case PopAdvance(f, tail) => Goto(s, t, PopTest(f, Next(s.next, tail)))
      case PopDetachRead(f, tail) => Goto(s, t, PopDetachWrite(f, tail, Next(s.next, tail)))
      case PopDetachWrite(f, tail, value) =>
        Goto(s, t, PopCas(f, tail, value, NULL)).(next := s.next[tail := NULL])
      case PopCas(f, tail, value, nh) =>
        if s.head == nh && !spurious then Goto(s, t, Idle).(head := f, inside := s.inside - {value})
        else Goto(s, t, PopRelink(f, tail, value, s.head))
      case PopRelink(f, tail, value, nh) =>
        Goto(s, t, PopCas(f, tail, value, nh)).(next := s.next[tail := nh])
  }

  lemma {:induction false} StepOfAnother(s: State, u: Tid, act: Action, t: Tid)
    requires Enabled(s, u, act) && u != t
    ensures At(Step(s, u, act), t) == At(s, t)
  {}

  /** What a caller sees of a step: the call that returns with it, if any. */
  datatype Outcome = Nothing | Pushed(v: Node) | Popped(v: Node) | PopFailed

  function OutcomeOf(s: State, t: Tid, act: Action): Outcome
    requires Enabled(s, t, act)
  {
    match At(s, t)
    case PushCas(v, h) => if s.head == h && act == Run(false) then Pushed(v) else Nothing
    case PopExchange => if s.head == NULL then PopFailed else Nothing
    case PopTest(f, tail) => if Next(s.next, tail) == NULL && tail == f then Popped(f) else Nothing
    case PopCas(_, _, value, nh) => if s.head == nh && act == Run(false) then Popped(value) else Nothing
    case _ => Nothing
  }

  /** The node whose `next` field the thread's coming step reads or writes. */
  function Touches(l: Local): set<Node> {
    match l
    case PushStore(v, _) => {v}
    case PopTest(_, tail) => {tail}
    case PopPeek(_, tail) => {tail}
    case PopPeekNext(_, _, n) => {n}
    case PopAdvance(_, tail) => {tail}
    case PopDetachRead(_, tail) => {tail}
    case PopDetachWrite(_, tail, _) => {tail}
    case PopRelink(_, tail, _, _) => {tail}
    case _ => {}
  }

  /** The steps among these that only read, and act on what they read. */
  predicate FollowsNext(l: Local) {
    l.PopTest? || l.PopPeek? || l.PopPeekNext? || l.PopAdvance? || l.PopDetachRead?
  }

  datatype Event = Event(t: Tid, act: Action)

  /** A run is the list of its events; a run of the machine starts in INITIAL. */
  ghost predicate IsRun(es: seq<Event>)
    decreases |es|, 0
  {
    es == [] ||
    (IsRun(es[..|es| - 1]) && Enabled(After(es[..|es| - 1]), es[|es| - 1].t, es[|es| - 1].act))
  }

  ghost function After(es: seq<Event>): State
    requires IsRun(es)
    decreases |es|, 1
  {
    if es == [] then INITIAL
    else Step(After(es[..|es| - 1]), es[|es| - 1].t, es[|es| - 1].act)
  }

  ghost function Last(es: seq<Event>): Outcome
    requires IsRun(es) && es != []
  {
    OutcomeOf(After(es[..|es| - 1]), es[|es| - 1].t, es[|es| - 1].act)
  }

  lemma {:induction false} Extend(es: seq<Event>, t: Tid, act: Action) returns (longer: seq<Event>)
    requires IsRun(es) && Enabled(After(es), t, act)
    ensures longer == es + [Event(t, act)] && IsRun(longer)
    ensures After(longer) == Step(After(es), t, act) && Last(longer) == OutcomeOf(After(es), t, act)
  {
    longer := es + [Event(t, act)];
    assert longer[..|longer| - 1] == es;
  }
}
