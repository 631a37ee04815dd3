/** The step machine refines the sequence law, step for step and over whole runs. */
module QueueRefinement {

  import opened Sequences
  import opened QueueMachine
  import opened QueueSpec

  // ---------- what memory looks like ----------

  /** Following `next` from `first` visits exactly `chain` and then null. */
  ghost predicate IsChain(next: map<Node, Node>, first: Node, chain: seq<Node>) {
    && first == (if chain == [] then NULL else chain[0])
    && NULL !in chain
    && forall i :: 0 <= i < |chain| ==> Next(next, chain[i]) == Follower(chain, i)
  }

  function Follower(chain: seq<Node>, i: nat): Node
    requires i < |chain|
  {
    if i + 1 < |chain| then chain[i + 1] else NULL
  }

  /** The same for the rest of a merging pop, whose last node may have a stale `next`. */
  ghost predicate IsOpenChain(next: map<Node, Node>, first: Node, tail: Node, chain: seq<Node>) {
    && chain != [] && first == chain[0] && tail == chain[|chain| - 1]
    && NULL !in chain
    && forall i :: 0 <= i < |chain| - 1 ==> Next(next, chain[i]) == Follower(chain, i)
  }

  /** A thread's local variables and the `next` fields it relies on agree with its role. */
  ghost predicate Agrees(next: map<Node, Node>, l: Local, r: Role) {
    match l
    case Idle => r == Quiet
    case PushLoad(v) => r == Pushing(v)
    case PushStore(v, _) => r == Pushing(v)
    case PushCas(v, h) => r == Pushing(v) && Next(next, v) == h
    case PopExchange => r == Popping
    case PopTest(f, tail) =>
      InWalk(next, f, tail, r) && (tail == f || Next(next, tail) != NULL)
    case PopPeek(f, tail) =>
      InWalk(next, f, tail, r) && Next(next, tail) != NULL
    case PopPeekNext(f, tail, n) =>
      InWalk(next, f, tail, r) && n != NULL && n == Next(next, tail)
    case PopAdvance(f, tail) =>
      InWalk(next, f, tail, r) && Next(next, tail) != NULL && Next(next, Next(next, tail)) != NULL
    case PopDetachRead(f, tail) =>
      InWalk(next, f, tail, r) && Next(next, tail) != NULL && Next(next, Next(next, tail)) == NULL
    case PopDetachWrite(f, tail, value) =>
      InWalk(next, f, tail, r) && value != NULL && value == Next(next, tail) && Next(next, value) == NULL
    case PopCas(f, tail, value, nh) =>
      InMerge(next, f, tail, value, r) && Next(next, tail) == nh
    case PopRelink(f, tail, value, _) =>
      InMerge(next, f, tail, value, r)
  }

  ghost predicate InWalk(next: map<Node, Node>, first: Node, tail: Node, r: Role) {
    r.Holding? && tail in r.chain && IsChain(next, first, r.chain)
  }

  ghost predicate InMerge(next: map<Node, Node>, first: Node, tail: Node, value: Node, r: Role) {
    && r.Merging? && value == r.value && value != NULL && Next(next, value) == NULL
    && IsOpenChain(next, first, tail, r.rest)
  }

  ghost predicate Represents(s: State, a: View) {
    && IsChain(s.next, s.head, a.shared)
    && OnePlace(a)
    && (forall t :: Agrees(s.next, At(s, t), RoleOf(a, t)))
    && (forall n :: n in s.inside <==> Holds(a, n))
  }

  /** The view is not a free choice: memory determines the chain. */
  lemma {:induction false} ChainIsUnique(next: map<Node, Node>, first: Node, p: seq<Node>, q: seq<Node>)
    requires IsChain(next, first, p) && IsChain(next, first, q)
    ensures p == q
    decreases |p|
  {
    if p != [] && q != [] {
      ChainTail(next, first, p);
      ChainTail(next, first, q);
      ChainIsUnique(next, Next(next, first), p[1..], q[1..]);
      assert p == [p[0]] + p[1..] && q == [q[0]] + q[1..];
    }
  }

  lemma {:induction false} ChainTail(next: map<Node, Node>, first: Node, p: seq<Node>)
    requires IsChain(next, first, p) && p != []
    ensures IsChain(next, Next(next, first), p[1..])
  {
    forall i | 0 <= i < |p[1..]|
      ensures Next(next, p[1..][i]) == Follower(p[1..], i)
    {
      assert p[1..][i] == p[i + 1];
    }
    assert Next(next, p[0]) == Follower(p, 0);
  }

  lemma {:induction false} ChainFrame(next: map<Node, Node>, first: Node, p: seq<Node>, n: Node, x: Node)
    requires IsChain(next, first, p) && n !in p
    ensures IsChain(next[n := x], first, p)
  {}

  /** Inside a chain, `next` leads to the neighbour, or to null at the end. */
  lemma {:induction false} ChainIndex(next: map<Node, Node>, first: Node, p: seq<Node>, n: Node) returns (i: nat)
    requires IsChain(next, first, p) && n in p
    ensures i < |p| && p[i] == n && Next(next, n) == Follower(p, i)
    ensures Next(next, n) != NULL <==> i + 1 < |p|
    ensures Next(next, n) != NULL ==> Next(next, n) in p
  {
    i :| 0 <= i < |p| && p[i] == n;
    assert Next(next, p[i]) == Follower(p, i);
  }

  // ---------- one step ----------

  ghost function EffectOf(s: State, t: Tid, act: Action): Effect
    requires Enabled(s, t, act)
  {
    match act
    case CallPush(v) => BeginPush(v)
    case CallPop => BeginPop
    case Run(spurious) =>
      match At(s, t)
      case PushCas(v, h) => if s.head == h && !spurious then Link(v) else Tau
      case PopExchange => if s.head == NULL then Miss else Take
      case PopTest(f, tail) => if Next(s.next, tail) == NULL && tail == f then Only(f) else Tau
      case PopDetachWrite(_, _, _) => Detach
      case PopCas(_, _, value, nh) => if s.head == nh && !spurious then Merge(value) else Tau
      case _ => Tau
  }

  /** Writing the `next` field of a node another thread keeps changes nothing for this one. */
  lemma {:induction false} AgreesFrame(next: map<Node, Node>, l: Local, r: Role, n: Node, x: Node)
    requires Agrees(next, l, r) && n !in Kept(r)
    ensures Agrees(next[n := x], l, r)
  {
    if r.Holding? && !l.Idle? && !l.PopExchange? {
      ChainFrame(next, l.first, r.chain, n, x);
      var i := ChainIndex(next, l.first, r.chain, l.tail);
    }
    if r.Merging? {
      assert Kept(r)[|r.rest|] == r.value;
      assert forall i :: 0 <= i < |r.rest| ==> Kept(r)[i] == r.rest[i];
    }
    if r.Pushing? {
      assert r.v in Kept(r);
    }
  }

  lemma {:induction false} StepAllowed(s: State, a: View, t: Tid, act: Action)
    requires Represents(s, a) && Enabled(s, t, act)
    ensures Allowed(a, t, EffectOf(s, t, act))
  {
    var l, r := At(s, t), RoleOf(a, t);
    assert Agrees(s.next, l, r);
    if r.Holding? && act.Run? {
      var i := ChainIndex(s.next, l.first, r.chain, l.tail);
      if l.PopTest? && i == 0 && |r.chain| == 1 {
        assert r.chain == [l.tail];
      }
    }
  }

  lemma {:induction false} LinkChain(next: map<Node, Node>, v: Node, head: Node, shared: seq<Node>)
    requires IsChain(next, head, shared) && v != NULL && Next(next, v) == head
    ensures IsChain(next, v, [v] + shared)
  {
    var all := [v] + shared;
    forall i | 0 <= i < |all| ensures Next(next, all[i]) == Follower(all, i) {
      assert i > 0 ==> all[i] == shared[i - 1] && Next(next, shared[i - 1]) == Follower(shared, i - 1);
    }
  }

  lemma {:induction false} MergeChain(next: map<Node, Node>, first: Node, tail: Node, rest: seq<Node>, head: Node, shared: seq<Node>)
    requires IsOpenChain(next, first, tail, rest) && Next(next, tail) == head && IsChain(next, head, shared)
    ensures IsChain(next, first, rest + shared)
  {
    var all, m := rest + shared, |rest|;
    forall i | 0 <= i < |all| ensures Next(next, all[i]) == Follower(all, i) {
      assert i >= m ==> all[i] == shared[i - m] && Next(next, shared[i - m]) == Follower(shared, i - m);
      assert i < m - 1 ==> all[i] == rest[i] && Next(next, rest[i]) == Follower(rest, i);
    }
  }

  /** The shared chain after the step is the one the law gives, pointer by pointer:
      a successful compare-exchange splices onto the chain that is current now. */
  lemma {:induction false} StepShared(s: State, a: View, t: Tid, act: Action)
    requires Represents(s, a) && Enabled(s, t, act) && Allowed(a, t, EffectOf(s, t, act))
    ensures IsChain(Step(s, t, act).next, Step(s, t, act).head, Apply(a, t, EffectOf(s, t, act)).shared)
  {
    var l, r := At(s, t), RoleOf(a, t);
    assert Agrees(s.next, l, r);
    var e := EffectOf(s, t, act);
    if e.Link? {
      LinkChain(s.next, l.v, l.head, a.shared);
    } else if e.Merge? {
      MergeChain(s.next, l.first, l.tail, r.rest, l.newHead, a.shared);
    } else if Step(s, t, act).next != s.next {
      var n, x := WritesOwnNode(s, a, t, act);
      ChainFrame(s.next, s.head, a.shared, n, x);
    }
  }

  /** A step writes the `next` field of a node its own thread keeps, or none. */
  lemma {:induction false} WritesOwnNode(s: State, a: View, t: Tid, act: Action) returns (n: Node, x: Node)
    requires Represents(s, a) && Enabled(s, t, act) && Step(s, t, act).next != s.next
    ensures Step(s, t, act).next == s.next[n := x] && n in Kept(RoleOf(a, t)) && n !in a.shared
    ensures forall u :: u != t ==> n !in Kept(RoleOf(a, u))
  {
    var l, r := At(s, t), RoleOf(a, t);
    assert Agrees(s.next, l, r);
    if l.PushStore? {
      n, x := l.v, l.head;
      assert n in Kept(r);
    } else if l.PopDetachWrite? {
      n, x := l.tail, NULL;
      assert n in Kept(r);
    } else {
      n, x := l.tail, l.newHead;
      assert Kept(r)[|r.rest| - 1] == n;
    }
    assert Apart(Kept(r), a.shared);
    assert forall u :: u != t ==> Apart(Kept(r), Kept(RoleOf(a, u)));
  }

  /** The walk never runs past the end, and cuts off exactly the last node. */
  lemma {:induction false} WalkSelf(s: State, a: View, t: Tid, act: Action)
    requires Represents(s, a) && Enabled(s, t, act) && Allowed(a, t, EffectOf(s, t, act))
    requires RoleOf(a, t).Holding?
    ensures Agrees(Step(s, t, act).next, At(Step(s, t, act), t), RoleOf(Apply(a, t, EffectOf(s, t, act)), t))
  {
    var l, r := At(s, t), RoleOf(a, t);
    assert Agrees(s.next, l, r);
    var i := ChainIndex(s.next, l.first, r.chain, l.tail);
    if Next(s.next, l.tail) != NULL {
      DetachSelf(s.next, l.first, r.chain, i);
    }
  }

  lemma {:induction false} DetachSelf(next: map<Node, Node>, first: Node, chain: seq<Node>, i: nat)
    requires IsChain(next, first, chain) && Distinct(chain) && i + 1 < |chain|
    requires Next(next, chain[i]) == chain[i + 1]
    ensures Next(next, chain[i + 1]) == NULL <==> i + 2 == |chain|
    ensures i + 2 == |chain| ==>
      var rest := chain[..i + 1];
      && rest == chain[..|chain| - 1] && chain[|chain| - 1] == chain[i + 1]
      && IsOpenChain(next[chain[i] := NULL], first, chain[i], rest)
      && Next(next[chain[i] := NULL], chain[i + 1]) == NULL
  {
    assert Next(next, chain[i + 1]) == Follower(chain, i + 1);
    if i + 2 == |chain| {
      var rest := chain[..i + 1];
      forall k | 0 <= k < |rest| - 1 ensures Next(next[chain[i] := NULL], rest[k]) == Follower(rest, k) {
        assert rest[k] == chain[k] && Next(next, chain[k]) == Follower(chain, k);
      }
    }
  }

  lemma {:induction false} StepSelf(s: State, a: View, t: Tid, act: Action)
    requires Represents(s, a) && Enabled(s, t, act) && Allowed(a, t, EffectOf(s, t, act))
    ensures Agrees(Step(s, t, act).next, At(Step(s, t, act), t), RoleOf(Apply(a, t, EffectOf(s, t, act)), t))
  {
    var l, r := At(s, t), RoleOf(a, t);
    assert Agrees(s.next, l, r);
    if r.Holding? {
      WalkSelf(s, a, t, act);
    } else if l.PopRelink? {
      var next' := s.next[l.tail := l.newHead];
      KeptByMerge(r);
      forall k | 0 <= k < |r.rest| - 1 ensures Next(next', r.rest[k]) == Follower(r.rest, k) {
        assert Next(s.next, r.rest[k]) == Follower(r.rest, k);
      }
      assert l.tail in r.rest;
    }
  }

  lemma {:induction false} StepOthers(s: State, a: View, t: Tid, act: Action, u: Tid)
    requires Represents(s, a) && Enabled(s, t, act) && u != t
    ensures At(Step(s, t, act), u) == At(s, u)
    ensures Agrees(Step(s, t, act).next, At(s, u), RoleOf(a, u))
  {
    StepOfAnother(s, t, act, u);
    assert Agrees(s.next, At(s, u), RoleOf(a, u));
    if Step(s, t, act).next != s.next {
      var n, x := WritesOwnNode(s, a, t, act);
      AgreesFrame(s.next, At(s, u), RoleOf(a, u), n, x);
    }
  }

  lemma {:induction false} StepInside(s: State, a: View, t: Tid, act: Action, n: Node)
    requires Represents(s, a) && Enabled(s, t, act) && Allowed(a, t, EffectOf(s, t, act))
    ensures n in Step(s, t, act).inside <==> Holds(Apply(a, t, EffectOf(s, t, act)), n)
  {
    ApplyConserves(a, t, EffectOf(s, t, act), n);
    InsideStep(s, a, t, act);
  }

  lemma {:induction false} InsideStep(s: State, a: View, t: Tid, act: Action)
    requires Represents(s, a) && Enabled(s, t, act)
    ensures Step(s, t, act).inside ==
      match EffectOf(s, t, act)
      case BeginPush(v) => s.inside + {v}
      case Only(v) => s.inside - {v}
      case Merge(v) => s.inside - {v}
      case _ => s.inside
  {}

  lemma {:induction false} ApplyOthers(a: View, t: Tid, e: Effect, u: Tid)
    requires Allowed(a, t, e) && u != t
    ensures RoleOf(Apply(a, t, e), u) == RoleOf(a, u)
  {}

  /** One step of the machine is one step of the law. */
  lemma {:induction false} StepRefines(s: State, a: View, t: Tid, act: Action)
    requires Represents(s, a) && Enabled(s, t, act)
    ensures Allowed(a, t, EffectOf(s, t, act))
    ensures Represents(Step(s, t, act), Apply(a, t, EffectOf(s, t, act)))
  {
    StepAllowed(s, a, t, act);
    var e := EffectOf(s, t, act);
    var s', b := Step(s, t, act), Apply(a, t, e);
    StepShared(s, a, t, act);
    ApplyKeepsOnePlace(a, t, e);
    forall u ensures Agrees(s'.next, At(s', u), RoleOf(b, u)) {
      if u == t {
        StepSelf(s, a, t, act);
      } else {
        StepOthers(s, a, t, act, u);
        ApplyOthers(a, t, e, u);
      }
    }
    forall n ensures n in s'.inside <==> Holds(b, n) {
      StepInside(s, a, t, act, n);
    }
  }
}
