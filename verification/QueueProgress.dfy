/** Lock freedom, amortised: a compare-exchange fails for a reason only when some other
    thread has moved the queue forward since this thread last looked at `head_`, and a call
    takes more steps than its own chain needs only on that account. */
module QueueProgress {

  import opened Arithmetic
  import opened Sequences
  import opened QueueMachine
  import opened QueueSpec
  import opened QueueRefinement
  import opened QueueRuns

  datatype Sight = Unseen | Saw(head: Node)

  /** The value of `head_` the thread's next compare-exchange will expect. A pop
      expects the null it has just put there with its own exchange. */
  function LastSight(l: Local): Sight {
    match l
    case PushStore(_, h) => Saw(h)
    case PushCas(_, h) => Saw(h)
    case PopTest(_, _) => Saw(NULL)
    case PopPeek(_, _) => Saw(NULL)
    case PopPeekNext(_, _, _) => Saw(NULL)
    case PopAdvance(_, _) => Saw(NULL)
    case PopDetachRead(_, _) => Saw(NULL)
    case PopDetachWrite(_, _, _) => Saw(NULL)
    case PopCas(_, _, _, nh) => Saw(nh)
    case PopRelink(_, _, _, nh) => Saw(nh)
    case _ => Unseen
  }

  /** The step is a compare-exchange that fails because the values differ. */
  predicate GenuineFailure(s: State, t: Tid) {
    match At(s, t)
    case PushCas(_, h) => s.head != h
    case PopCas(_, _, _, nh) => s.head != nh
    case _ => false
  }

  /** The step is a compare-exchange that fails although the values are equal. */
  predicate SpuriousFailure(s: State, t: Tid, act: Action) {
    act == Run(true) &&
    match At(s, t)
    case PushCas(_, h) => s.head == h
    case PopCas(_, _, _, nh) => s.head == nh
    case _ => false
  }

  ghost function Failures(es: seq<Event>, t: Tid): nat
    requires IsRun(es)
    decreases |es|
  {
    if es == [] then 0
    else
      var p, e := es[..|es| - 1], es[|es| - 1];
      Failures(p, t) + if e.t == t && GenuineFailure(After(p), t) then 1 else 0
  }

  /** How often a thread other than `t` changed the value of `head_`. */
  ghost function ChangesByOthers(es: seq<Event>, t: Tid): nat
    requires IsRun(es)
    decreases |es|
  {
    if es == [] then 0
    else
      var p := es[..|es| - 1];
      ChangesByOthers(p, t) + if es[|es| - 1].t != t && After(es).head != After(p).head then 1 else 0
  }

  ghost predicate OutOfDate(s: State, t: Tid) {
    LastSight(At(s, t)).Saw? && LastSight(At(s, t)).head != s.head
  }

  /** Over any run a thread's genuine failures, plus the one it is heading for, are paid for
      by distinct changes other threads made. */
  lemma {:induction false} FailuresArePaidFor(es: seq<Event>, t: Tid)
    requires IsRun(es)
    ensures Failures(es, t) + One(OutOfDate(After(es), t)) <= ChangesByOthers(es, t)
    decreases |es|
  {
    if es != [] {
      var p, e := es[..|es| - 1], es[|es| - 1];
      FailuresArePaidFor(p, t);
      if e.t == t {
        OwnStepPays(After(p), t, e.act);
      } else {
        StepOfAnother(After(p), e.t, e.act, t);
      }
    }
  }

  /** A failing thread has looked at `head_` again; any other own step leaves it up to date, or as it was. */
  lemma {:induction false} OwnStepPays(s: State, t: Tid, act: Action)
    requires Enabled(s, t, act)
    ensures One(GenuineFailure(s, t)) + One(OutOfDate(Step(s, t, act), t)) <= One(OutOfDate(s, t))
  {}

  /** In particular: if a thread's view of `head_` is current at the end of `es`, takes no step during
      `more`, and would then fail a compare-exchange, another thread has changed `head_` during `more`. */
  lemma {:induction false} FailureNeedsInterference(es: seq<Event>, more: seq<Event>, t: Tid)
    requires IsRun(es + more) && IsRun(es)
    requires LastSight(At(After(es), t)) == Saw(After(es).head)
    requires forall e :: e in more ==> e.t != t
    ensures GenuineFailure(After(es + more), t) ==> ChangesByOthers(es + more, t) > ChangesByOthers(es, t)
  {
    SightIsKept(es, more, t);
  }

  lemma {:induction false} SightIsKept(es: seq<Event>, more: seq<Event>, t: Tid)
    requires IsRun(es + more) && IsRun(es)
    requires forall e :: e in more ==> e.t != t
    ensures At(After(es + more), t) == At(After(es), t)
    ensures ChangesByOthers(es + more, t) >= ChangesByOthers(es, t)
    ensures After(es + more).head == After(es).head || ChangesByOthers(es + more, t) > ChangesByOthers(es, t)
    decreases |more|
  {
    if more == [] {
      assert es + more == es;
    } else {
      var m := more[..|more| - 1];
      var e := more[|more| - 1];
      assert (es + more)[..|es + more| - 1] == es + m;
      assert (es + more)[|es + more| - 1] == e && e in more;
      SightIsKept(es, m, t);
      StepOfAnother(After(es + m), e.t, e.act, t);
    }
  }

  // ---------- how many steps a call takes ----------

  /** The nodes of a chain from `n` on. */
  function From(chain: seq<Node>, n: Node): nat {
    if chain == [] then 0 else if chain[0] == n then |chain| else From(chain[1..], n)
  }

  lemma {:induction false} FromIndex(chain: seq<Node>, i: nat)
    requires i < |chain| && forall k :: 0 <= k < i ==> chain[k] != chain[i]
    ensures From(chain, chain[i]) == |chain| - i
  {
    if i > 0 {
      FromIndex(chain[1..], i - 1);
    }
  }

  ghost function Left(a: View, t: Tid, tail: Node): nat {
    if RoleOf(a, t).Holding? then From(RoleOf(a, t).chain, tail) else 0
  }

  /** How many steps the thread has still to take if nobody interferes and nothing fails spuriously;
      a pop that has not seen its chain yet is reckoned without it. */
  ghost function Rank(s: State, a: View, t: Tid): nat {
    match At(s, t)
    case Idle => 0
    case PushLoad(_) => 3
    case PushStore(_, h) => if h == s.head then 2 else 4
    case PushCas(_, h) => if h == s.head then 1 else 3
    case PopExchange => 9
    case PopTest(_, tail) => 8 + 4 * Left(a, t, tail)
    case PopPeek(_, tail) => 7 + 4 * Left(a, t, tail)
    case PopPeekNext(_, tail, _) => 6 + 4 * Left(a, t, tail)
    case PopAdvance(_, tail) => 5 + 4 * Left(a, t, tail)
    case PopDetachRead(_, _) => 5
    case PopDetachWrite(_, _, _) => 4
    case PopCas(_, _, _, nh) => if nh == s.head then 1 else 3
    case PopRelink(_, _, _, nh) => if nh == s.head then 2 else 4
  }

  lemma {:induction false} AdvanceLowersLeft(next: map<Node, Node>, first: Node, chain: seq<Node>, tail: Node)
    requires IsChain(next, first, chain) && Distinct(chain)
    requires tail in chain && Next(next, tail) != NULL
    ensures From(chain, Next(next, tail)) == From(chain, tail) - 1
  {
    var i := ChainIndex(next, first, chain, tail);
    FromIndex(chain, i);
    FromIndex(chain, i + 1);
  }

  /** Every own step lowers the rank. A spurious failure costs a further round of two steps, and the
      exchange of a pop adds the walk along the chain it takes. */
  lemma {:induction false} StepLowersRank(s: State, a: View, t: Tid, spurious: bool)
    requires Represents(s, a) && Enabled(s, t, Run(spurious))
    requires Allowed(a, t, EffectOf(s, t, Run(spurious)))
    ensures var e := EffectOf(s, t, Run(spurious));
      Rank(Step(s, t, Run(spurious)), Apply(a, t, e), t) + 1
      <= Rank(s, a, t) + 2 * One(SpuriousFailure(s, t, Run(spurious))) + (if e.Take? then 4 * |a.shared| else 0)
  {
    var l, r := At(s, t), RoleOf(a, t);
    assert Agrees(s.next, l, r);
    if l.PopAdvance? {
      AdvanceLowersLeft(s.next, l.first, r.chain, l.tail);
    }
  }

  lemma {:induction false} OthersRaiseRank(s: State, a: View, u: Tid, act: Action, t: Tid)
    requires Represents(s, a) && Enabled(s, u, act) && u != t && Allowed(a, u, EffectOf(s, u, act))
    ensures Rank(Step(s, u, act), Apply(a, u, EffectOf(s, u, act)), t)
      <= Rank(s, a, t) + 2 * One(Step(s, u, act).head != s.head)
  {
    StepOfAnother(s, u, act, t);
    ApplyOthers(a, u, EffectOf(s, u, act), t);
  }

  /** What thread `t` has done in a run: steps inside calls, calls, spurious failures, and the
      lengths of the chains its pops took, added up. */
  datatype Tally = Tally(steps: nat, calls: nat, spurious: nat, taken: nat)

  ghost function TallyOf(es: seq<Event>, t: Tid): Tally
    requires IsRun(es)
    decreases |es|
  {
    if es == [] then Tally(0, 0, 0, 0)
    else
      var p, e := es[..|es| - 1], es[|es| - 1];
      if e.t != t then TallyOf(p, t) else TallyNext(TallyOf(p, t), After(p), ViewOf(p), t, e.act)
  }

  ghost function TallyNext(c: Tally, s: State, a: View, t: Tid, act: Action): Tally
    requires Enabled(s, t, act)
  {
    Tally(
      c.steps + One(act.Run?),
      c.calls + One(!act.Run?),
      c.spurious + One(SpuriousFailure(s, t, act)),
      c.taken + if EffectOf(s, t, act).Take? then |a.shared| else 0)
  }

  /** The progress law, over any run: a thread's steps inside push and pop, plus those it still has to take
      for itself, are bounded by its calls, the chains it took, the spurious failures it met and the changes other
      threads made to `head_`. */
  lemma {:induction false} StepsAreBounded(es: seq<Event>, t: Tid)
    requires IsRun(es)
    ensures var c := TallyOf(es, t);
      c.steps + Rank(After(es), ViewOf(es), t) <= 9 * c.calls + 4 * c.taken + 2 * c.spurious + 2 * ChangesByOthers(es, t)
    decreases |es|
  {
    if es != [] {
      var p, e := es[..|es| - 1], es[|es| - 1];
      StepsAreBounded(p, t);
      StepRefines(After(p), ViewOf(p), e.t, e.act);
      if e.t != t {
        OthersRaiseRank(After(p), ViewOf(p), e.t, e.act, t);
      } else if e.act.Run? {
        StepLowersRank(After(p), ViewOf(p), t, e.act.spurious);
      }
    }
  }

  /** How often `head_` changes by steps of `t`, and how often such a change is still to come. */
  ghost function Changes(es: seq<Event>, t: Tid): nat
    requires IsRun(es)
    decreases |es|
  {
    if es == [] then 0
    else
      var p := es[..|es| - 1];
      Changes(p, t) + One(es[|es| - 1].t == t && After(es).head != After(p).head)
  }

  function ChangesLeft(l: Local): nat {
    if l.Idle? then 0 else if l.PopExchange? then 2 else 1
  }

  /** And a thread changes `head_` at most twice a call. */
  lemma {:induction false} CallsLimitChanges(es: seq<Event>, t: Tid)
    requires IsRun(es)
    ensures Changes(es, t) + ChangesLeft(At(After(es), t)) <= 2 * TallyOf(es, t).calls
    decreases |es|
  {
    if es != [] {
      var p, e := es[..|es| - 1], es[|es| - 1];
      CallsLimitChanges(p, t);
      if e.t == t {
        OwnStepChanges(After(p), t, e.act);
      } else {
        StepOfAnother(After(p), e.t, e.act, t);
      }
    }
  }

  lemma {:induction false} OwnStepChanges(s: State, t: Tid, act: Action)
    requires Enabled(s, t, act)
    ensures One(Step(s, t, act).head != s.head) + ChangesLeft(At(Step(s, t, act), t))
      <= ChangesLeft(At(s, t)) + 2 * One(!act.Run?)
  {}

  // ---------- all threads together ----------

  /** The calls begun in a run, by whatever thread. */
  function AllCalls(es: seq<Event>): nat {
    if es == [] then 0 else AllCalls(es[..|es| - 1]) + One(!es[|es| - 1].act.Run?)
  }

  ghost function AllChanges(es: seq<Event>): nat
    requires IsRun(es)
    decreases |es|
  {
    if es == [] then 0
    else AllChanges(es[..|es| - 1]) + One(After(es).head != After(es[..|es| - 1]).head)
  }

  /** Changes of `head_` and calls by the threads below `n`, added up. */
  ghost function ChangesBelow(es: seq<Event>, n: nat): nat
    requires IsRun(es)
  {
    if n == 0 then 0 else ChangesBelow(es, n - 1) + Changes(es, n - 1)
  }

  ghost function CallsBelow(es: seq<Event>, n: nat): nat
    requires IsRun(es)
  {
    if n == 0 then 0 else CallsBelow(es, n - 1) + TallyOf(es, n - 1).calls
  }

  lemma {:induction false} ChangesBelowLimited(es: seq<Event>, n: nat)
    requires IsRun(es)
    ensures ChangesBelow(es, n) <= 2 * CallsBelow(es, n)
  {
    if n > 0 {
      ChangesBelowLimited(es, n - 1);
      CallsLimitChanges(es, n - 1);
    }
  }

  /** An event counts for its own thread only. */
  lemma {:induction false} BelowGrows(es: seq<Event>, n: nat)
    requires IsRun(es) && es != []
    ensures var p, e := es[..|es| - 1], es[|es| - 1];
      && ChangesBelow(es, n) == ChangesBelow(p, n) + One(e.t < n && After(es).head != After(p).head)
      && CallsBelow(es, n) == CallsBelow(p, n) + One(e.t < n && !e.act.Run?)
    decreases n
  {
    if n > 0 {
      BelowGrows(es, n - 1);
    }
  }

  lemma {:induction false} BelowIsAll(es: seq<Event>, n: nat)
    requires IsRun(es) && forall e :: e in es ==> e.t < n
    ensures ChangesBelow(es, n) == AllChanges(es) && CallsBelow(es, n) == AllCalls(es)
    decreases |es|
  {
    if es == [] {
      NothingBelow(n);
    } else {
      var p := es[..|es| - 1];
      assert es[|es| - 1] in es && forall e :: e in p ==> e in es;
      BelowIsAll(p, n);
      BelowGrows(es, n);
    }
  }

  lemma {:induction false} NothingBelow(n: nat)
    ensures ChangesBelow([], n) == 0 && CallsBelow([], n) == 0
  {
    if n > 0 {
      NothingBelow(n - 1);
    }
  }

  lemma {:induction false} SomeThreadBound(es: seq<Event>) returns (n: nat)
    ensures forall e :: e in es ==> e.t < n
  {
    if es == [] {
      n := 0;
    } else {
      var p, e := es[..|es| - 1], es[|es| - 1];
      var m := SomeThreadBound(p);
      n := if e.t < m then m else e.t + 1;
      assert es == p + [e];
    }
  }

  lemma {:induction false} OthersAreSome(es: seq<Event>, t: Tid)
    requires IsRun(es)
    ensures ChangesByOthers(es, t) <= AllChanges(es)
    decreases |es|
  {
    if es != [] {
      OthersAreSome(es[..|es| - 1], t);
    }
  }

  /** The same without looking at `head_`: over any run, however many threads there are, a thread's steps are
      bounded by its own calls, chains and spurious failures, and four for each call that anybody has made. */
  lemma {:induction false} StepsAreBoundedByCalls(es: seq<Event>, t: Tid)
    requires IsRun(es)
    ensures var c := TallyOf(es, t);
      c.steps + Rank(After(es), ViewOf(es), t) <= 9 * c.calls + 4 * c.taken + 2 * c.spurious + 4 * AllCalls(es)
  {
    StepsAreBounded(es, t);
    OthersAreSome(es, t);
    var n := SomeThreadBound(es);
    BelowIsAll(es, n);
    ChangesBelowLimited(es, n);
  }
}
