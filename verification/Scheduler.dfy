/** The coroutine scheduler on one thread: entries of the completion port are handed to the
    awaiting tasks. Whatever a resumed coroutine does before it suspends again, it does
    inside poll_one. */
module Scheduler {

  import opened Sequences
  import opened IntrusiveQueue

  datatype Entry = Entry(bytes: nat, key: nat, overlapped: nat)

  /** One suspended co_await. Awaiting again makes a new task. */
  type Task = nat

  datatype Act = Await(t: Task) | Post(e: Entry)

  /** What the coroutine behind a task does when it is resumed with an entry. */
  type Reaction = (Task, Entry) -> seq<Act>

  function Awaited(acts: seq<Act>): seq<Task> {
    if acts == [] then [] else (if acts[0].Await? then [acts[0].t] else []) + Awaited(acts[1..])
  }

  function Posted(acts: seq<Act>): seq<Entry> {
    if acts == [] then [] else (if acts[0].Post? then [acts[0].e] else []) + Posted(acts[1..])
  }

  /** How many of the first `i` acts are posts, and how many are awaits. */
  ghost function PostsBefore(acts: seq<Act>, i: nat): nat
    requires i <= |acts|
  {
    |set j | 0 <= j < i && acts[j].Post?|
  }

  ghost function AwaitsBefore(acts: seq<Act>, i: nat): nat
    requires i <= |acts|
  {
    |set j | 0 <= j < i && acts[j].Await?|
  }

  lemma {:induction false} BeforeGrows(acts: seq<Act>, i: nat)
    requires i < |acts|
    ensures PostsBefore(acts, 0) == 0 && AwaitsBefore(acts, 0) == 0
    ensures PostsBefore(acts, i + 1) == PostsBefore(acts, i) + if acts[i].Post? then 1 else 0
    ensures AwaitsBefore(acts, i + 1) == AwaitsBefore(acts, i) + if acts[i].Await? then 1 else 0
  {
    var posts, awaits := set j | 0 <= j < i && acts[j].Post?, set j | 0 <= j < i && acts[j].Await?;
    assert (set j | 0 <= j < i + 1 && acts[j].Post?) == if acts[i].Post? then posts + {i} else posts;
    assert (set j | 0 <= j < i + 1 && acts[j].Await?) == if acts[i].Await? then awaits + {i} else awaits;
  }

  /** Posted and Awaited list what the acts post and await, in order and nothing else: what act
      number `i` posts or awaits stands where as many stand before it as there are posts or awaits before `i`. */
  lemma {:induction false} ActsInOrder(acts: seq<Act>, n: nat)
    requires n <= |acts|
    ensures |Posted(acts[..n])| == PostsBefore(acts, n) && |Awaited(acts[..n])| == AwaitsBefore(acts, n)
    ensures forall i :: 0 <= i < n && acts[i].Post? ==>
              PostsBefore(acts, i) < |Posted(acts[..n])| && Posted(acts[..n])[PostsBefore(acts, i)] == acts[i].e
    ensures forall i :: 0 <= i < n && acts[i].Await? ==>
              AwaitsBefore(acts, i) < |Awaited(acts[..n])| && Awaited(acts[..n])[AwaitsBefore(acts, i)] == acts[i].t
  {
    if n > 0 {
      ActsInOrder(acts, n - 1);
      BeforeGrows(acts, n - 1);
      ActsGrow(acts, n - 1);
    }
  }

  lemma {:induction false} ActsGrow(acts: seq<Act>, i: nat)
    requires i < |acts|
    ensures Posted(acts[..i + 1]) == Posted(acts[..i]) + if acts[i].Post? then [acts[i].e] else []
    ensures Awaited(acts[..i + 1]) == Awaited(acts[..i]) + if acts[i].Await? then [acts[i].t] else []
  {
    assert acts[..i + 1] == acts[..i] + [acts[i]] && [acts[i]][1..] == [];
    ActsConcat(acts[..i], [acts[i]]);
  }

  lemma {:induction false} ActsConcat(p: seq<Act>, q: seq<Act>)
    ensures Posted(p + q) == Posted(p) + Posted(q) && Awaited(p + q) == Awaited(p) + Awaited(q)
  {
    if p == [] {
      assert p + q == q;
    } else {
      var rest := p[1..];
      ActsConcat(rest, q);
      assert (p + q)[0] == p[0] && (p + q)[1..] == rest + q;
      Associate(if p[0].Post? then [p[0].e] else [], Posted(rest), Posted(q));
      Associate(if p[0].Await? then [p[0].t] else [], Awaited(rest), Awaited(q));
    }
  }

  datatype Delivery = Delivery(t: Task, e: Entry)

  datatype State = State(port: seq<Entry>, tasks: seq<Task>, log: seq<Delivery>)

  /** poll_one as a function on the first-in first-out port and task queue. */
  function PollOne(s: State, react: Reaction): State {
    if s.port == [] then s
    else if s.tasks == [] then s.(port := s.port[1..] + [s.port[0]])
    else
      var acts := react(s.tasks[0], s.port[0]);
      State(s.port[1..] + Posted(acts), s.tasks[1..] + Awaited(acts), s.log + [Delivery(s.tasks[0], s.port[0])])
  }

  predicate Delivers(s: State) {
    s.port != [] && s.tasks != []
  }

  // ---------- awaits left ----------

  function Sum(left: Task -> nat, ts: seq<Task>): nat {
    if ts == [] then 0 else left(ts[0]) + Sum(left, ts[1..])
  }

  lemma {:induction false} SumConcat(left: Task -> nat, p: seq<Task>, q: seq<Task>)
    ensures Sum(left, p + q) == Sum(left, p) + Sum(left, q)
  {
    if p == [] {
      assert p + q == q;
    } else {
      SumConcat(left, p[1..], q);
      assert (p + q)[0] == p[0] && (p + q)[1..] == p[1..] + q;
    }
  }

  /** `left(t)` bounds the awaits still to come from the coroutine behind `t`, this one included,
      and from the coroutines it starts. */
  ghost predicate Bounded(react: Reaction, left: Task -> nat) {
    forall t, e :: 1 + Sum(left, Awaited(react(t, e))) <= left(t)
  }

  /** The same as an exact count, whatever entries arrive. */
  ghost predicate Exact(react: Reaction, left: Task -> nat) {
    forall t, e :: 1 + Sum(left, Awaited(react(t, e))) == left(t)
  }

  lemma {:induction false} DeliveryUsesAwait(s: State, react: Reaction, left: Task -> nat)
    requires Bounded(react, left) && Delivers(s)
    ensures Sum(left, PollOne(s, react).tasks) < Sum(left, s.tasks)
    ensures Exact(react, left) ==> Sum(left, PollOne(s, react).tasks) == Sum(left, s.tasks) - 1
  {
    var acts := react(s.tasks[0], s.port[0]);
    SumConcat(left, s.tasks[1..], Awaited(acts));
    assert 1 + Sum(left, Awaited(react(s.tasks[0], s.port[0]))) <= left(s.tasks[0]);
  }

  /** What poll_one returns. */
  function Delivered(s: State): nat {
    if Delivers(s) then 1 else 0
  }

  /** poll: poll_one until it delivers nothing. It ends because awaits run out. */
  ghost function Poll(s: State, react: Reaction, left: Task -> nat): State
    requires Bounded(react, left)
    decreases Sum(left, s.tasks)
  {
    if Delivers(s) then
      DeliveryUsesAwait(s, react, left);
      Poll(PollOne(s, react), react, left)
    else PollOne(s, react)
  }

  lemma {:induction false} PollGoesOn(s: State, react: Reaction, left: Task -> nat)
    requires Bounded(react, left) && Delivered(s) == 1
    ensures Poll(s, react, left) == Poll(PollOne(s, react), react, left)
    ensures Sum(left, PollOne(s, react).tasks) < Sum(left, s.tasks)
  {
    DeliveryUsesAwait(s, react, left);
  }

  // ---------- who gets what ----------

  /** All tasks in the order of their `add`: those waiting at the start, then every re-await. */
  function Adds(start: State, log: seq<Delivery>, react: Reaction): seq<Task> {
    if log == [] then start.tasks
    else
      var d := log[|log| - 1];
      Adds(start, log[..|log| - 1], react) + Awaited(react(d.t, d.e))
  }

  /** All entries in the order of their arrival at the port. */
  function Arrivals(start: State, log: seq<Delivery>, react: Reaction): seq<Entry> {
    if log == [] then start.port
    else
      var d := log[|log| - 1];
      Arrivals(start, log[..|log| - 1], react) + Posted(react(d.t, d.e))
  }

  /** The j-th delivery hands the j-th entry that arrived to the j-th task that was added;
      the rest of either list is still waiting. */
  ghost predicate Paired(start: State, s: State, react: Reaction) {
    var adds, arrivals, n := Adds(start, s.log, react), Arrivals(start, s.log, react), |s.log|;
    && n <= |adds| && n <= |arrivals|
    && (forall j :: 0 <= j < n ==> s.log[j] == Delivery(adds[j], arrivals[j]))
    && s.tasks == adds[n..] && s.port == arrivals[n..]
  }

  lemma {:induction false} DeliveryKeepsPairing(start: State, s: State, react: Reaction)
    requires Paired(start, s, react) && Delivers(s)
    ensures Paired(start, PollOne(s, react), react)
  {
    var s' := PollOne(s, react);
    var d := Delivery(s.tasks[0], s.port[0]);
    assert s'.log[..|s'.log| - 1] == s.log;
    var adds, arrivals := Adds(start, s.log, react), Arrivals(start, s.log, react);
    assert adds[|s.log|] == s.tasks[0] && arrivals[|s.log|] == s.port[0];
    assert adds[|s.log|..][1..] == adds[|s.log| + 1..] && arrivals[|s.log|..][1..] == arrivals[|s.log| + 1..];
  }

  /** The delivery theorem. A poll pairs entries and tasks in order of arrival until one side runs
      out; entries left over without a task are the undelivered suffix, its first entry moved last. */
  lemma {:induction false} PollPairsInOrder(start: State, s: State, react: Reaction, left: Task -> nat)
    requires Bounded(react, left) && Paired(start, s, react)
    ensures var f := Poll(s, react, left);
      var adds, arrivals, n := Adds(start, f.log, react), Arrivals(start, f.log, react), |f.log|;
      && n <= |adds| && n <= |arrivals|
      && (forall j :: 0 <= j < n ==> f.log[j] == Delivery(adds[j], arrivals[j]))
      && (n == |adds| || n == |arrivals|)
      && f.tasks == adds[n..]
      && f.port == if n < |arrivals| then arrivals[n + 1..] + [arrivals[n]] else []
    decreases Sum(left, s.tasks)
  {
    if Delivers(s) {
      DeliveryUsesAwait(s, react, left);
      DeliveryKeepsPairing(start, s, react);
      PollPairsInOrder(start, PollOne(s, react), react, left);
    }
  }

  // ---------- nothing is lost ----------

  function Entries(log: seq<Delivery>): seq<Entry> {
    seq(|log|, i requires 0 <= i < |log| => log[i].e)
  }

  function Tasks(log: seq<Delivery>): seq<Task> {
    seq(|log|, i requires 0 <= i < |log| => log[i].t)
  }

  /** Everything that the coroutines resumed in these deliveries post and await. */
  function AllActs(log: seq<Delivery>, react: Reaction): seq<Act> {
    if log == [] then [] else AllActs(log[..|log| - 1], react) + react(log[|log| - 1].t, log[|log| - 1].e)
  }

  lemma {:induction false} ArrivalsAreActs(start: State, log: seq<Delivery>, react: Reaction)
    ensures Arrivals(start, log, react) == start.port + Posted(AllActs(log, react))
    ensures Adds(start, log, react) == start.tasks + Awaited(AllActs(log, react))
  {
    if log != [] {
      var p, d := log[..|log| - 1], log[|log| - 1];
      ArrivalsAreActs(start, p, react);
      ActsConcat(AllActs(p, react), react(d.t, d.e));
      Associate(start.port, Posted(AllActs(p, react)), Posted(react(d.t, d.e)));
      Associate(start.tasks, Awaited(AllActs(p, react)), Awaited(react(d.t, d.e)));
    }
  }

  /** Conservation: what is in the port after a poll and what was delivered is what was in the port before
      and what was posted, each as often; and the same for the tasks. */
  lemma {:induction false} PollConserves(s: State, react: Reaction, left: Task -> nat)
    requires Bounded(react, left) && s.log == []
    ensures var f := Poll(s, react, left);
      var acts := AllActs(f.log, react);
      && multiset(f.port) + multiset(Entries(f.log)) == multiset(s.port) + multiset(Posted(acts))
      && multiset(f.tasks) + multiset(Tasks(f.log)) == multiset(s.tasks) + multiset(Awaited(acts))
  {
    PollPairsInOrder(s, s, react, left);
    PairsConserve(s, Poll(s, react, left), react);
  }

  lemma {:induction false} PairsConserve(s: State, f: State, react: Reaction)
    requires var adds, arrivals, n := Adds(s, f.log, react), Arrivals(s, f.log, react), |f.log|;
      && n <= |adds| && n <= |arrivals|
      && (forall j :: 0 <= j < n ==> f.log[j] == Delivery(adds[j], arrivals[j]))
      && f.tasks == adds[n..]
      && f.port == if n < |arrivals| then arrivals[n + 1..] + [arrivals[n]] else []
    ensures var acts := AllActs(f.log, react);
      && multiset(f.port) + multiset(Entries(f.log)) == multiset(s.port) + multiset(Posted(acts))
      && multiset(f.tasks) + multiset(Tasks(f.log)) == multiset(s.tasks) + multiset(Awaited(acts))
  {
    var adds, arrivals, n := Adds(s, f.log, react), Arrivals(s, f.log, react), |f.log|;
    ArrivalsAreActs(s, f.log, react);
    LogIsPairs(f.log, adds, arrivals);
    LeftoversConserve(adds, n, f.tasks, s.tasks, Awaited(AllActs(f.log, react)));
    LeftoversConserve(arrivals, n, f.port, s.port, Posted(AllActs(f.log, react)));
  }

  lemma {:induction false} LogIsPairs(log: seq<Delivery>, adds: seq<Task>, arrivals: seq<Entry>)
    requires |log| <= |adds| && |log| <= |arrivals|
    requires forall j :: 0 <= j < |log| ==> log[j] == Delivery(adds[j], arrivals[j])
    ensures Entries(log) == arrivals[..|log|] && Tasks(log) == adds[..|log|]
  {}

  lemma {:induction false} LeftoversConserve<T>(all: seq<T>, n: nat, rest: seq<T>, before: seq<T>, more: seq<T>)
    requires n <= |all| && all == before + more
    requires rest == all[n..] || (n < |all| && rest == all[n + 1..] + [all[n]])
    ensures multiset(rest) + multiset(all[..n]) == multiset(before) + multiset(more)
  {
    MultisetSplit(all, n);
    if n < |all| {
      assert all[n..] == [all[n]] + all[n + 1..];
    }
  }

  /** No delivery exceeds the awaits; with an exact count, tasks are left over only for want of entries. */
  lemma {:induction false} PollCounts(s: State, react: Reaction, left: Task -> nat)
    requires Bounded(react, left)
    ensures |s.log| <= |Poll(s, react, left).log| <= |s.log| + Sum(left, s.tasks)
    ensures Exact(react, left) ==>
      |Poll(s, react, left).log| + Sum(left, Poll(s, react, left).tasks) == |s.log| + Sum(left, s.tasks)
    decreases Sum(left, s.tasks)
  {
    if Delivers(s) {
      DeliveryUsesAwait(s, react, left);
      PollCounts(PollOne(s, react), react, left);
    }
  }

  ghost predicate NeverPosts(react: Reaction) {
    forall t, e :: Posted(react(t, e)) == []
  }

  lemma {:induction false} NoPostsNoArrivals(start: State, log: seq<Delivery>, react: Reaction)
    requires NeverPosts(react)
    ensures Arrivals(start, log, react) == start.port
  {
    if log != [] {
      NoPostsNoArrivals(start, log[..|log| - 1], react);
      var d := log[|log| - 1];
      assert Posted(react(d.t, d.e)) == [];
    }
  }

  lemma {:induction false} SumZero(left: Task -> nat, ts: seq<Task>)
    requires forall t :: left(t) >= 1
    ensures Sum(left, ts) == 0 <==> ts == []
  {}

  /** Without posting, a poll makes exactly min(entries, awaits) deliveries and leaves the rest
      of the port, rotated by one. */
  lemma {:induction false} PollDeliversMinimum(s: State, react: Reaction, left: Task -> nat)
    requires Exact(react, left) && NeverPosts(react) && s.log == []
    ensures var f, awaits := Poll(s, react, left), Sum(left, s.tasks);
      var n := |f.log|;
      && n == (if |s.port| <= awaits then |s.port| else awaits)
      && (forall j :: 0 <= j < n ==> f.log[j].e == s.port[j])
      && f.port == if n < |s.port| then s.port[n + 1..] + [s.port[n]] else []
  {
    var f := Poll(s, react, left);
    PollPairsInOrder(s, s, react, left);
    PollCounts(s, react, left);
    NoPostsNoArrivals(s, f.log, react);
    assert forall t :: left(t) >= 1 by {
      forall t ensures left(t) >= 1 {
        var e := Entry(0, 0, 0);
        assert 1 + Sum(left, Awaited(react(t, e))) == left(t);
      }
    }
    SumZero(left, f.tasks);
    SumZero(left, s.tasks);
  }

  // ---------- the object ----------

  datatype Query = Nothing | Got(e: Entry)

  /** The awaits behind the items of the task queue. */
  function Named(items: seq<Item>, awaits: map<Item, Task>): (ts: seq<Task>)
    requires forall x :: x in items ==> x in awaits
    ensures |ts| == |items|
  {
    seq(|items|, i requires 0 <= i < |items| => awaits[items[i]])
  }

  lemma {:induction false} NamedRest(items: seq<Item>, awaits: map<Item, Task>)
    requires items != [] && forall x :: x in items ==> x in awaits
    ensures forall x :: x in items[1..] ==> x in awaits
    ensures Named(items, awaits) == [awaits[items[0]]] + Named(items[1..], awaits)
  {}

  lemma {:induction false} NamedGrows(items: seq<Item>, awaits: map<Item, Task>, x: Item, t: Task)
    requires x !in items && forall y :: y in items ==> y in awaits
    ensures forall y :: y in items + [x] ==> y in awaits[x := t]
    ensures Named(items + [x], awaits[x := t]) == Named(items, awaits) + [t]
  {}

  class IoScheduler {
    var port: seq<Entry>
    const tasks: Queue
    var awaits: map<Item, Task>
    ghost var log: seq<Delivery>

    ghost predicate Valid()
      reads this, tasks, tasks.chain
    {
      tasks.Valid() && forall x :: x in tasks.Contents() ==> x in awaits
    }

    ghost function Abstract(): State
      requires Valid()
      reads this, tasks, tasks.chain
    {
      State(port, Named(tasks.Contents(), awaits), log)
    }

    constructor (entries: seq<Entry>)
      ensures Valid() && Abstract() == State(entries, [], []) && fresh(tasks)
    {
      port, awaits, log := entries, map[], [];
      tasks := new Queue();
    }

    method QueryPort() returns (q: Query)
      modifies this`port
      ensures old(port) == [] ==> q == Nothing && port == []
      ensures old(port) != [] ==> q == Got(old(port)[0]) && port == old(port)[1..]
    {
      if port == [] {
        return Nothing;
      }
      q := Got(port[0]);
      port := port[1..];
    }

    method PostToPort(e: Entry)
      modifies this`port
      ensures port == old(port) + [e]
    {
      port := port + [e];
    }

    /** `spurious` is handed on to the compare-exchange of the queue. */
    method Add(t: Task, spurious: nat)
      requires Valid()
      modifies this`awaits, tasks
      ensures Valid() && Abstract() == old(Abstract()).(tasks := old(Abstract()).tasks + [t])
      ensures forall x :: x in tasks.chain ==> x in old(tasks.chain) || fresh(x)
    {
      var item := new Item();
      ghost var before := tasks.Contents();
      tasks.ContentsAreChain();
      NamedGrows(before, awaits, item, t);
      awaits := awaits[item := t];
      tasks.Push(item, spurious);
      tasks.ContentsAreChain();
    }

    /** One thing a coroutine does. */
    method Perform(act: Act, spurious: nat)
      requires Valid()
      modifies this, tasks
      ensures Valid() && log == old(log)
      ensures forall x :: x in tasks.chain ==> x in old(tasks.chain) || fresh(x)
      ensures Abstract().port == old(Abstract()).port + if act.Post? then [act.e] else []
      ensures Abstract().tasks == old(Abstract()).tasks + if act.Await? then [act.t] else []
    {
      match act
      case Await(t) => Add(t, spurious);
      case Post(e) => PostToPort(e);
    }

    /** The resumed coroutine runs to its next suspension. */
    method Resume(t: Task, e: Entry, react: Reaction, spurious: nat)
      requires Valid()
      modifies this, tasks
      ensures Valid()
      ensures forall x :: x in tasks.chain ==> x in old(tasks.chain) || fresh(x)
      ensures var s, acts := old(Abstract()), react(t, e);
        Abstract() == State(s.port + Posted(acts), s.tasks + Awaited(acts), s.log + [Delivery(t, e)])
    {
      var acts := react(t, e);
      ghost var s := Abstract();
      log := log + [Delivery(t, e)];
      var i := 0;
      while i < |acts|
        invariant i <= |acts| && Valid() && log == s.log + [Delivery(t, e)]
        invariant forall x :: x in tasks.chain ==> x in old(tasks.chain) || fresh(x)
        invariant Abstract().port == s.port + Posted(acts[..i])
        invariant Abstract().tasks == s.tasks + Awaited(acts[..i])
      {
        ActsGrow(acts, i);
        Perform(acts[i], spurious);
        i := i + 1;
      }
      assert acts[..i] == acts;
    }

    method PollOnce(react: Reaction, spurious: nat) returns (n: nat)
      requires Valid()
      modifies this, tasks, tasks.chain
      ensures Valid()
      ensures forall x :: x in tasks.chain ==> x in old(tasks.chain) || fresh(x)
      ensures Abstract() == PollOne(old(Abstract()), react)
      ensures n == Delivered(old(Abstract())) && |log| == |old(log)| + n
      // No entry: nothing happens. No task: the entry goes to the back of the port.
      ensures var s := old(Abstract());
        && (s.port == [] ==> n == 0 && Abstract() == s)
        && (s.port != [] && s.tasks == [] ==>
          n == 0 && port == s.port[1..] + [s.port[0]] && Abstract().tasks == [] && log == s.log)
        && (s.port != [] && s.tasks != [] ==>
          var acts := react(s.tasks[0], s.port[0]);
          && n == 1 && log == s.log + [Delivery(s.tasks[0], s.port[0])]
          && port == s.port[1..] + Posted(acts) && Abstract().tasks == s.tasks[1..] + Awaited(acts))
    {
      ghost var waiting := tasks.Contents();
      tasks.ContentsAreChain();
      var data := QueryPort();
      if data.Nothing? {
        return 0;
      }
      var ok, task := tasks.Pop(spurious);
      tasks.ContentsAreChain();
      if !ok {
        PostToPort(data.e);
        return 0;
      }
      NamedRest(waiting, awaits);
      Resume(awaits[task], data.e, react, spurious);
      return 1;
    }

    method PollAll(react: Reaction, ghost left: Task -> nat, spurious: nat) returns (count: nat)
      requires Valid() && Bounded(react, left)
      modifies this, tasks, tasks.chain
      ensures Valid() && Abstract() == Poll(old(Abstract()), react, left)
      ensures count == |log| - |old(log)|
    {
      count := 0;
      ghost var before := Abstract();
      var one := PollOnce(react, spurious);
      while one == 1
        invariant Valid()
        invariant forall x :: x in tasks.chain ==> x in old(tasks.chain) || fresh(x)
        invariant Abstract() == PollOne(before, react) && one == Delivered(before)
        invariant Poll(before, react, left) == Poll(old(Abstract()), react, left)
        invariant count + one == |log| - |old(log)|
        decreases Sum(left, before.tasks)
      {
        PollGoesOn(before, react, left);
        before := Abstract();
        count := count + 1;
        forall i | 0 <= i < |tasks.chain| ensures tasks.chain[i] in old(tasks.chain) || fresh(tasks.chain[i]) {
          assert tasks.chain[i] in tasks.chain;
        }
        one := PollOnce(react, spurious);
      }
    }
  }
}
