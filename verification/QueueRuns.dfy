/** What callers of the lock-free queue may rely on, for every run of the machine:
    any number of threads, any interleaving, any spurious failures, nodes reused. */
module QueueRuns {

  import opened Sequences
  import opened QueueMachine
  import opened QueueSpec
  import opened QueueRefinement

  /** The view a run leads to. Its postcondition is the refinement theorem. */
  ghost function ViewOf(es: seq<Event>): (a: View)
    requires IsRun(es)
    ensures Represents(After(es), a)
    decreases |es|
  {
    if es == [] then
      EMPTY
    else
      var p, e := es[..|es| - 1], es[|es| - 1];
      StepRefines(After(p), ViewOf(p), e.t, e.act);
      Apply(ViewOf(p), e.t, EffectOf(After(p), e.t, e.act))
  }

  // ---------- no node is lost, duplicated or made up ----------

  ghost function Pushes(es: seq<Event>, n: Node): nat {
    if es == [] then 0
    else Pushes(es[..|es| - 1], n) + if es[|es| - 1].act == CallPush(n) then 1 else 0
  }

  ghost function Returns(es: seq<Event>, n: Node): nat
    requires IsRun(es)
    decreases |es|
  {
    if es == [] then 0 else Returns(es[..|es| - 1], n) + if Last(es) == Popped(n) then 1 else 0
  }

  /** A pop hands out only a node its caller gave to push and that is not handed out yet,
      and hands it out with a null `next`. */
  lemma {:induction false} PopReturnsOwnedNode(es: seq<Event>, n: Node)
    requires IsRun(es) && es != [] && Last(es) == Popped(n)
    ensures n != NULL && n in After(es[..|es| - 1]).inside && n !in After(es).inside
    ensures Next(After(es).next, n) == NULL
  {
    var p, e := es[..|es| - 1], es[|es| - 1];
    var s, a := After(p), ViewOf(p);
    StepRefines(s, a, e.t, e.act);
    assert Agrees(s.next, At(s, e.t), RoleOf(a, e.t));
    ApplyConserves(a, e.t, EffectOf(s, e.t, e.act), n);
  }

  /** Conservation: pushes and returns of a node differ by one exactly while the queue has it. */
  lemma {:induction false} Conservation(es: seq<Event>, n: Node)
    requires IsRun(es)
    ensures Pushes(es, n) == Returns(es, n) + if n in After(es).inside then 1 else 0
    decreases |es|
  {
    if es != [] {
      var p, e := es[..|es| - 1], es[|es| - 1];
      Conservation(p, n);
      if Last(es) == Popped(n) {
        PopReturnsOwnedNode(es, n);
      } else if Last(es).Popped? {
        assert After(es).inside == After(p).inside - {Last(es).v};
      }
    }
  }

  /** A node the queue has is in exactly one place: once in the chain from `head_`,
      or once with exactly one thread that is inside push or pop. */
  lemma {:induction false} ExactlyOnePlace(es: seq<Event>, n: Node)
    requires IsRun(es) && n in After(es).inside
    ensures var a := ViewOf(es);
      if n in a.shared then
        multiset(a.shared)[n] == 1 && forall t :: n !in Kept(RoleOf(a, t))
      else
        exists t :: multiset(Kept(RoleOf(a, t)))[n] == 1 && forall u :: u != t ==> n !in Kept(RoleOf(a, u))
  {
    var a := ViewOf(es);
    if n in a.shared {
      var i :| 0 <= i < |a.shared| && a.shared[i] == n;
      CountOne(a.shared, i);
    } else {
      var t :| n in Kept(RoleOf(a, t));
      var i :| 0 <= i < |Kept(RoleOf(a, t))| && Kept(RoleOf(a, t))[i] == n;
      CountOne(Kept(RoleOf(a, t)), i);
    }
  }

  // ---------- stale pointers and races ----------

  /** Only a node waiting to be linked and the tail of a merging pop may have a stale `next`:
      every other node of the queue points to its neighbour. */
  lemma {:induction false} OnlyTwoKindsAreStale(es: seq<Event>, t: Tid)
    requires IsRun(es)
    ensures var s, a := After(es), ViewOf(es);
      && IsChain(s.next, s.head, a.shared)
      && match RoleOf(a, t)
         case Holding(chain) => chain != [] && IsChain(s.next, chain[0], chain)
         case Merging(rest, value) =>
           && Next(s.next, value) == NULL
           && rest != [] && IsOpenChain(s.next, rest[0], rest[|rest| - 1], rest)
         case _ => true
  {
    var s, a := After(es), ViewOf(es);
    assert Agrees(s.next, At(s, t), RoleOf(a, t));
  }

  /** No step follows a stale `next` or dereferences null: what a walking pop reads is
      a node of the chain it took, and the value it reads is that node's true neighbour. */
  lemma {:induction false} ReadsAreNeverStale(es: seq<Event>, t: Tid, n: Node)
    requires IsRun(es) && n in Touches(At(After(es), t))
    ensures n != NULL && n in Kept(RoleOf(ViewOf(es), t))
    ensures FollowsNext(At(After(es), t)) ==>
      var r := RoleOf(ViewOf(es), t);
      r.Holding? && exists i: nat :: i < |r.chain| && r.chain[i] == n && Next(After(es).next, n) == Follower(r.chain, i)
  {
    var s, a := After(es), ViewOf(es);
    assert Agrees(s.next, At(s, t), RoleOf(a, t));
    TouchesOwn(s.next, At(s, t), RoleOf(a, t), n);
    assert OnePlace(a);
  }

  lemma {:induction false} TouchesOwn(next: map<Node, Node>, l: Local, r: Role, n: Node)
    requires Agrees(next, l, r) && n in Touches(l)
    ensures n in Kept(r)
    ensures FollowsNext(l) ==>
      r.Holding? && exists i: nat :: i < |r.chain| && r.chain[i] == n && Next(next, n) == Follower(r.chain, i)
  {
    if r.Holding? {
      var i := ChainIndex(next, l.first, r.chain, l.tail);
      var j := ChainIndex(next, l.first, r.chain, n);
    }
    if r.Merging? {
      assert Kept(r)[|r.rest| - 1] == l.tail;
    }
  }

  /** `next` is a plain field, yet no two threads are ever about to access the same one. */
  lemma {:induction false} NoDataRaceOnNext(es: seq<Event>, t: Tid, u: Tid)
    requires IsRun(es) && t != u
    ensures Touches(At(After(es), t)) !! Touches(At(After(es), u))
  {
    assert Apart(Kept(RoleOf(ViewOf(es), t)), Kept(RoleOf(ViewOf(es), u)));
    forall n | n in Touches(At(After(es), t)) ensures n !in Touches(At(After(es), u)) {
      ReadsAreNeverStale(es, t, n);
      if n in Touches(At(After(es), u)) {
        ReadsAreNeverStale(es, u, n);
        assert false;
      }
    }
  }

  // ---------- order ----------

  /** The chain a thread's latest successful exchange took out of `head_`. */
  ghost function Took(es: seq<Event>, t: Tid): seq<Node>
    requires IsRun(es)
    decreases |es|
  {
    if es == [] then []
    else
      var p, e := es[..|es| - 1], es[|es| - 1];
      if e.t == t && At(After(p), t).PopExchange? && After(p).head != NULL then ViewOf(p).shared
      else Took(p, t)
  }

  lemma {:induction false} KeptByApply(a: View, t: Tid, e: Effect)
    requires Allowed(a, t, e)
    ensures var r := RoleOf(Apply(a, t, e), t);
      r.Holding? || r.Merging? ==> Kept(r) == if e.Take? then a.shared else Kept(RoleOf(a, t))
    ensures !e.Take? && e != Tau && !e.Detach? ==> !RoleOf(Apply(a, t, e), t).Holding? && !RoleOf(Apply(a, t, e), t).Merging?
    ensures e.Detach? ==> RoleOf(a, t).Holding?
    ensures e.Take? ==> a.shared != []
  {
    if e.Detach? {
      var chain := RoleOf(a, t).chain;
      assert chain == chain[..|chain| - 1] + [chain[|chain| - 1]];
    }
  }

  lemma {:induction false} TakeMeansExchange(s: State, a: View, t: Tid, act: Action)
    requires Represents(s, a) && Enabled(s, t, act)
    ensures EffectOf(s, t, act).Take? <==> At(s, t).PopExchange? && s.head != NULL
  {}

  /** A pop keeps what it took, undisturbed by everybody else, until it gives it back. */
  lemma {:induction false} PopKeepsWhatItTook(es: seq<Event>, t: Tid)
    requires IsRun(es)
    ensures var r := RoleOf(ViewOf(es), t);
      r.Holding? || r.Merging? ==> Kept(r) == Took(es, t) && Took(es, t) != []
    decreases |es|
  {
    if es != [] {
      var p, e := es[..|es| - 1], es[|es| - 1];
      PopKeepsWhatItTook(p, t);
      var s, a := After(p), ViewOf(p);
      StepRefines(s, a, e.t, e.act);
      if e.t == t {
        TakeMeansExchange(s, a, t, e.act);
        KeptByApply(a, t, EffectOf(s, t, e.act));
      } else {
        ApplyOthers(a, e.t, EffectOf(s, e.t, e.act), t);
      }
    }
  }

  /** The order law: a pop returns the last node of the chain it took, and what it leaves in
      `head_` is the rest of that chain in front of whatever is shared at that very step. */
  lemma {:induction false} PopLaw(es: seq<Event>, n: Node)
    requires IsRun(es) && es != [] && Last(es) == Popped(n)
    ensures var p, t := es[..|es| - 1], es[|es| - 1].t;
      var c := Took(p, t);
      && c != [] && n == c[|c| - 1]
      && IsChain(After(es).next, After(es).head, c[..|c| - 1] + ViewOf(p).shared)
  {
    var p, e := es[..|es| - 1], es[|es| - 1];
    PopKeepsWhatItTook(p, e.t);
    PopLeavesRest(After(p), ViewOf(p), e.t, e.act, n);
  }

  lemma {:induction false} PopLeavesRest(s: State, a: View, t: Tid, act: Action, n: Node)
    requires Represents(s, a) && Enabled(s, t, act) && OutcomeOf(s, t, act) == Popped(n)
    ensures RoleOf(a, t).Holding? || RoleOf(a, t).Merging?
    ensures var c := Kept(RoleOf(a, t));
      && c != [] && n == c[|c| - 1]
      && IsChain(Step(s, t, act).next, Step(s, t, act).head, c[..|c| - 1] + a.shared)
  {
    StepRefines(s, a, t, act);
    PopReturnsLast(s, a, t, act, n);
  }

  lemma {:induction false} PopReturnsLast(s: State, a: View, t: Tid, act: Action, n: Node)
    requires Represents(s, a) && Enabled(s, t, act) && OutcomeOf(s, t, act) == Popped(n)
    requires Allowed(a, t, EffectOf(s, t, act))
    ensures RoleOf(a, t).Holding? || RoleOf(a, t).Merging?
    ensures var c := Kept(RoleOf(a, t));
      c != [] && n == c[|c| - 1] && Apply(a, t, EffectOf(s, t, act)).shared == c[..|c| - 1] + a.shared
  {
    var r := RoleOf(a, t);
    assert Agrees(s.next, At(s, t), r);
    if r.Merging? {
      assert Kept(r)[..|r.rest|] == r.rest;
    } else {
      assert r == Holding([n]);
    }
  }

  // ---------- emptiness ----------

  ghost predicate Quiescent(s: State) {
    forall t :: At(s, t).Idle?
  }

  /** With no call in flight, `head_` is null exactly when every push has been matched by a return. */
  lemma {:induction false} QuiescentEmptiness(es: seq<Event>)
    requires IsRun(es) && Quiescent(After(es))
    ensures After(es).head == NULL <==> forall n :: Pushes(es, n) == Returns(es, n)
  {
    var s, a := After(es), ViewOf(es);
    forall t ensures RoleOf(a, t) == Quiet {
      assert Agrees(s.next, At(s, t), RoleOf(a, t));
    }
    forall n ensures Pushes(es, n) == Returns(es, n) <==> n !in a.shared {
      Conservation(es, n);
      assert n in s.inside <==> Holds(a, n);
    }
    assert IsChain(s.next, s.head, a.shared);
    if a.shared != [] {
      var n := a.shared[0];
      assert n in a.shared && s.head == n != NULL;
      assert Pushes(es, n) != Returns(es, n);
    } else {
      assert s.head == NULL;
      assert forall n :: Pushes(es, n) == Returns(es, n);
    }
  }

  /** A pop returns false exactly when every node the queue still has is with another
      thread in the middle of push or pop. */
  lemma {:induction false} PopFailsExactlyWhenNothingIsShared(es: seq<Event>, t: Tid)
    requires IsRun(es) && At(After(es), t).PopExchange?
    ensures OutcomeOf(After(es), t, Run(false)).PopFailed? <==>
      forall n :: n in After(es).inside ==> WithAnother(ViewOf(es), t, n)
  {
    NothingShared(After(es), ViewOf(es), t);
  }

  lemma {:induction false} NothingShared(s: State, a: View, t: Tid)
    requires Represents(s, a) && At(s, t).PopExchange?
    ensures s.head == NULL <==> forall n :: n in s.inside ==> WithAnother(a, t, n)
  {
    assert Agrees(s.next, At(s, t), RoleOf(a, t));
    if s.head == NULL {
      forall n | n in s.inside ensures WithAnother(a, t, n) {
        assert Holds(a, n) && n !in Kept(RoleOf(a, t));
      }
    } else {
      assert s.head in a.shared && Holds(a, s.head) && s.head in s.inside;
      forall u ensures s.head !in Kept(RoleOf(a, u)) {
        assert Apart(Kept(RoleOf(a, u)), a.shared);
      }
      assert !WithAnother(a, t, s.head);
    }
  }
}
