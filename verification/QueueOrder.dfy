/** When the lock-free queue is first-in first-out, and when it is not. */
module QueueOrder {

  import opened Sequences
  import opened QueueMachine
  import opened QueueSpec
  import opened QueueRefinement
  import opened QueueRuns

  /** The nodes in the order in which their pushes took effect. */
  ghost function Arrivals(es: seq<Event>): seq<Node>
    requires IsRun(es)
    decreases |es|
  {
    if es == [] then [] else Arrivals(es[..|es| - 1]) + PushedBy(Last(es))
  }

  /** The nodes in the order in which pops returned them. */
  ghost function Departures(es: seq<Event>): seq<Node>
    requires IsRun(es)
    decreases |es|
  {
    if es == [] then [] else Departures(es[..|es| - 1]) + PoppedBy(Last(es))
  }

  function PushedBy(o: Outcome): seq<Node> {
    if o.Pushed? then [o.v] else []
  }

  function PoppedBy(o: Outcome): seq<Node> {
    if o.Popped? then [o.v] else []
  }

  /** The threads in the middle of a pop that has taken nodes out of `head_`, in the order in which
      they took them. */
  ghost function Takers(es: seq<Event>): seq<Tid>
    requires IsRun(es)
    decreases |es|
  {
    if es == [] then []
    else
      var p, e := es[..|es| - 1], es[|es| - 1];
      NextTakers(Takers(p), e.t, EffectOf(After(p), e.t, e.act))
  }

  function NextTakers(ts: seq<Tid>, t: Tid, e: Effect): seq<Tid> {
    match e
    case Take => ts + [t]
    case Only(_) => Without(ts, t)
    case Merge(_) => Without(ts, t)
    case _ => ts
  }

  /** What the takers have in their hands, oldest first. */
  ghost function InHand(a: View, ts: seq<Tid>): seq<Node> {
    if ts == [] then [] else Reverse(Kept(RoleOf(a, ts[0]))) + InHand(a, ts[1..])
  }

  /** All nodes that have arrived and not left, in the order in which they should leave. */
  ghost function Waiting(a: View, ts: seq<Tid>): seq<Node> {
    InHand(a, ts) + Reverse(a.shared)
  }

  /** First in, first out: what left, what is on its way out and what waits
      are together exactly what came in, in that order. */
  ghost predicate InOrder(es: seq<Event>)
    requires IsRun(es)
  {
    Arrivals(es) == Departures(es) + Waiting(ViewOf(es), Takers(es))
  }

  ghost predicate AlwaysInOrder(es: seq<Event>)
    requires IsRun(es)
    decreases |es|
  {
    InOrder(es) && (es != [] ==> AlwaysInOrder(es[..|es| - 1]))
  }

  /** The last step ends a pop while an earlier taker still carries nodes, or it is a merge that
      finds any other taker, or `head_` not null. */
  ghost predicate OutOfTurn(es: seq<Event>)
    requires IsRun(es)
  {
    es != [] &&
    var p, t := es[..|es| - 1], es[|es| - 1].t;
    match EffectOf(After(p), t, es[|es| - 1].act)
    case Only(_) => Takers(p) == [] || Takers(p)[0] != t
    case Merge(_) => Takers(p) != [t] || After(p).head != NULL
    case _ => false
  }

  ghost predicate AlwaysInTurn(es: seq<Event>)
    requires IsRun(es)
    decreases |es|
  {
    !OutOfTurn(es) && (es != [] ==> AlwaysInTurn(es[..|es| - 1]))
  }

  // ---------- the takers ----------

  ghost predicate HasNodes(r: Role) {
    r.Holding? || r.Merging?
  }

  /** The list names exactly the threads that hold nodes, once each, and they hold some. */
  ghost predicate Lists(ts: seq<Tid>, a: View) {
    && Distinct(ts)
    && (forall t :: t in ts <==> HasNodes(RoleOf(a, t)))
    && (forall t :: t in ts ==> Kept(RoleOf(a, t)) != [])
  }

  lemma {:induction false} TakersAreListed(es: seq<Event>)
    requires IsRun(es)
    ensures Lists(Takers(es), ViewOf(es))
    decreases |es|
  {
    if es != [] {
      var p, e := es[..|es| - 1], es[|es| - 1];
      TakersAreListed(p);
      StepRefines(After(p), ViewOf(p), e.t, e.act);
      ListsNext(Takers(p), ViewOf(p), e.t, EffectOf(After(p), e.t, e.act));
    }
  }

  lemma {:induction false} ListsNext(ts: seq<Tid>, a: View, t: Tid, e: Effect)
    requires Lists(ts, a) && Allowed(a, t, e)
    ensures Lists(NextTakers(ts, t, e), Apply(a, t, e))
  {
    var b := Apply(a, t, e);
    assert forall u :: u != t ==> RoleOf(b, u) == RoleOf(a, u);
    match e
    case Take =>
      assert t !in ts;
    case Only(_) =>
      WithoutIs(ts, t);
    case Merge(_) =>
      WithoutIs(ts, t);
    case _ =>
  }

  lemma {:induction false} InHandSame(a: View, b: View, ts: seq<Tid>)
    requires forall u :: u in ts ==> Kept(RoleOf(b, u)) == Kept(RoleOf(a, u))
    ensures InHand(b, ts) == InHand(a, ts)
  {
    if ts != [] {
      InHandSame(a, b, ts[1..]);
    }
  }

  lemma {:induction false} InHandConcat(a: View, p: seq<Tid>, q: seq<Tid>)
    ensures InHand(a, p + q) == InHand(a, p) + InHand(a, q)
  {
    if p == [] {
      assert p + q == q;
    } else {
      var k := Reverse(Kept(RoleOf(a, p[0])));
      assert (p + q)[0] == p[0] && (p + q)[1..] == p[1..] + q;
      InHandConcat(a, p[1..], q);
      Associate(k, InHand(a, p[1..]), InHand(a, q));
    }
  }

  lemma {:induction false} InHandFirst(a: View, ts: seq<Tid>)
    requires ts != [] && Kept(RoleOf(a, ts[0])) != []
    ensures InHand(a, ts) != [] && InHand(a, ts)[0] in Kept(RoleOf(a, ts[0]))
  {}

  lemma {:induction false} InHandOne(a: View, t: Tid)
    ensures InHand(a, [t]) == Reverse(Kept(RoleOf(a, t)))
  {
    assert InHand(a, [t][1..]) == [];
  }

  // ---------- one step of the law ----------

  function ComesIn(e: Effect): seq<Node> {
    if e.Link? then [e.v] else []
  }

  function GoesOut(e: Effect): seq<Node> {
    if e.Only? || e.Merge? then [e.v] else []
  }

  ghost predicate KeepsOrder(a: View, ts: seq<Tid>, t: Tid, e: Effect)
    requires Allowed(a, t, e)
  {
    Waiting(a, ts) + ComesIn(e) == GoesOut(e) + Waiting(Apply(a, t, e), NextTakers(ts, t, e))
  }

  lemma {:induction false} LinkKeepsOrder(a: View, ts: seq<Tid>, t: Tid, v: Node)
    requires Lists(ts, a) && Allowed(a, t, Link(v))
    ensures KeepsOrder(a, ts, t, Link(v))
  {
    InHandSame(a, Apply(a, t, Link(v)), ts);
    ReverseConcat([v], a.shared);
    assert Reverse([v]) == [v];
  }

  lemma {:induction false} TakeKeepsOrder(a: View, ts: seq<Tid>, t: Tid)
    requires Lists(ts, a) && Allowed(a, t, Take)
    ensures KeepsOrder(a, ts, t, Take)
  {
    var b := Apply(a, t, Take);
    InHandSame(a, b, ts);
    InHandConcat(b, ts, [t]);
    InHandOne(b, t);
  }

  lemma {:induction false} QuietKeepsOrder(a: View, ts: seq<Tid>, t: Tid, e: Effect)
    requires Lists(ts, a) && Allowed(a, t, e) && !e.Link? && !e.Take? && !e.Only? && !e.Merge?
    ensures KeepsOrder(a, ts, t, e)
  {
    var b := Apply(a, t, e);
    assert forall u :: u != t ==> RoleOf(b, u) == RoleOf(a, u);
    if e.Detach? {
      assert Kept(RoleOf(b, t)) == Kept(RoleOf(a, t));
    }
    InHandSame(a, b, ts);
  }

  /** Where the returning thread stands among the takers. */
  lemma {:induction false} Around(a: View, ts: seq<Tid>, t: Tid, e: Effect) returns (l: seq<Tid>, r: seq<Tid>)
    requires OnePlace(a) && Lists(ts, a) && Allowed(a, t, e) && (e.Only? || e.Merge?)
    ensures ts == l + [t] + r && NextTakers(ts, t, e) == l + r && t !in l && t !in r
    ensures InHand(a, ts) == InHand(a, l) + Reverse(Kept(RoleOf(a, t))) + InHand(a, r)
    ensures InHand(Apply(a, t, e), l + r) == InHand(a, l) + InHand(a, r)
    ensures l != [] ==> InHand(a, l) != [] && InHand(a, l)[0] !in Kept(RoleOf(a, t))
    ensures r != [] ==> InHand(a, r) != [] && InHand(a, r)[0] !in Kept(RoleOf(a, t))
  {
    l, r := SplitListed(a, ts, t);
    InHandAround(a, l, t, r);
    OthersStay(a, t, e, l + r);
    InHandConcat(a, l, r);
    if l != [] {
      FirstApart(a, t, l);
    }
    if r != [] {
      FirstApart(a, t, r);
    }
  }

  lemma {:induction false} SplitListed(a: View, ts: seq<Tid>, t: Tid) returns (l: seq<Tid>, r: seq<Tid>)
    requires Lists(ts, a) && HasNodes(RoleOf(a, t))
    ensures ts == l + [t] + r && Without(ts, t) == l + r && t !in l && t !in r
    ensures l != [] ==> l[0] != t && Kept(RoleOf(a, l[0])) != []
    ensures r != [] ==> r[0] != t && Kept(RoleOf(a, r[0])) != []
  {
    l, r := SplitDistinct(ts, t);
    assert l != [] ==> l[0] in l && l[0] in ts;
    assert r != [] ==> r[0] in r && r[0] in ts;
  }

  lemma {:induction false} InHandAround(a: View, l: seq<Tid>, t: Tid, r: seq<Tid>)
    ensures InHand(a, l + [t] + r) == InHand(a, l) + Reverse(Kept(RoleOf(a, t))) + InHand(a, r)
  {
    InHandConcat(a, l + [t], r);
    InHandConcat(a, l, [t]);
    InHandOne(a, t);
  }

  lemma {:induction false} OthersStay(a: View, t: Tid, e: Effect, ts: seq<Tid>)
    requires Allowed(a, t, e) && t !in ts
    ensures InHand(Apply(a, t, e), ts) == InHand(a, ts)
  {
    assert forall u :: u != t ==> RoleOf(Apply(a, t, e), u) == RoleOf(a, u);
    InHandSame(a, Apply(a, t, e), ts);
  }

  lemma {:induction false} FirstApart(a: View, t: Tid, ts: seq<Tid>)
    requires OnePlace(a) && ts != [] && ts[0] != t && Kept(RoleOf(a, ts[0])) != []
    ensures InHand(a, ts) != [] && InHand(a, ts)[0] !in Kept(RoleOf(a, t))
  {
    InHandFirst(a, ts);
    assert Apart(Kept(RoleOf(a, ts[0])), Kept(RoleOf(a, t)));
  }

  /** A returned node is the next that should leave only if nothing is in front of it. */
  lemma {:induction false} FrontDecides(x: seq<Node>, v: Node, y: seq<Node>)
    requires x != [] ==> x[0] != v
    ensures x + [v] + y == [v] + (x + y) <==> x == []
  {
    if x != [] {
      assert (x + [v] + y)[0] == x[0];
    }
  }

  /** And giving nodes back keeps the order only if nothing is behind them either. */
  lemma {:induction false} BehindDecides(x: seq<Node>, v: Node, rest: seq<Node>, y: seq<Node>)
    requires x != [] ==> x[0] != v
    requires rest != [] && (y != [] ==> y[0] != rest[0])
    ensures x + ([v] + rest) + y == [v] + (x + y + rest) <==> x == [] && y == []
  {
    if x != [] {
      assert (x + ([v] + rest) + y)[0] == x[0];
    } else if y != [] {
      assert (x + ([v] + rest) + y)[1] == rest[0];
      assert ([v] + (x + y + rest))[1] == y[0];
    }
  }

  lemma {:induction false} OnlyKeepsOrder(a: View, ts: seq<Tid>, t: Tid, v: Node)
    requires OnePlace(a) && Lists(ts, a) && Allowed(a, t, Only(v))
    ensures KeepsOrder(a, ts, t, Only(v)) <==> ts != [] && ts[0] == t
  {
    var l, r := Around(a, ts, t, Only(v));
    var x, y := InHand(a, l), InHand(a, r) + Reverse(a.shared);
    assert Reverse([v]) == [v];
    FrontDecides(x, v, y);
    Regroup(x, [v], InHand(a, r), Reverse(a.shared));
    assert l != [] ==> l[0] == ts[0] && l[0] in l;
  }

  lemma {:induction false} Regroup(p: seq<Node>, q: seq<Node>, r: seq<Node>, s: seq<Node>)
    ensures p + q + r + s + [] == p + q + (r + s)
    ensures p + r + s == p + (r + s)
  {}

  lemma {:induction false} RegroupEnd(p: seq<Node>, q: seq<Node>, r: seq<Node>, s: seq<Node>)
    ensures p + q + (r + s) == p + (q + r) + s
  {}

  lemma {:induction false} MergeKeepsOrder(a: View, ts: seq<Tid>, t: Tid, v: Node)
    requires OnePlace(a) && Lists(ts, a) && Allowed(a, t, Merge(v))
    ensures KeepsOrder(a, ts, t, Merge(v)) <==> ts == [t] && a.shared == []
  {
    var l, r := Around(a, ts, t, Merge(v));
    var x, y, back := InHand(a, l), InHand(a, r) + Reverse(a.shared), Reverse(RoleOf(a, t).rest);
    MergedWaiting(a, ts, t, v, l, r);
    BehindFirst(a, t, v, r);
    BehindDecides(x, v, back, y);
    assert ts == [t] <==> l == [] && r == [] by {
      assert |ts| == |l| + 1 + |r|;
    }
  }

  lemma {:induction false} MergedWaiting(a: View, ts: seq<Tid>, t: Tid, v: Node, l: seq<Tid>, r: seq<Tid>)
    requires OnePlace(a) && Allowed(a, t, Merge(v))
    requires InHand(a, ts) == InHand(a, l) + Reverse(Kept(RoleOf(a, t))) + InHand(a, r)
    requires InHand(Apply(a, t, Merge(v)), l + r) == InHand(a, l) + InHand(a, r)
    ensures var x, y, back := InHand(a, l), InHand(a, r) + Reverse(a.shared), Reverse(RoleOf(a, t).rest);
      && Waiting(a, ts) + [] == x + ([v] + back) + y
      && Waiting(Apply(a, t, Merge(v)), l + r) == x + y + back
      && [v] + back == Reverse(Kept(RoleOf(a, t)))
  {
    var rest := RoleOf(a, t).rest;
    ReverseConcat(rest, [v]);
    assert Reverse([v]) == [v];
    ReverseConcat(rest, a.shared);
    Regroup(InHand(a, l), [v] + Reverse(rest), InHand(a, r), Reverse(a.shared));
    RegroupEnd(InHand(a, l), InHand(a, r), Reverse(a.shared), Reverse(rest));
  }

  /** What waits behind the nodes given back begins with another node than they do. */
  lemma {:induction false} BehindFirst(a: View, t: Tid, v: Node, r: seq<Tid>)
    requires OnePlace(a) && Allowed(a, t, Merge(v))
    requires r == [] ==> InHand(a, r) == []
    requires r != [] ==> InHand(a, r) != [] && InHand(a, r)[0] !in Kept(RoleOf(a, t))
    ensures var y, back := InHand(a, r) + Reverse(a.shared), Reverse(RoleOf(a, t).rest);
      && back != [] && back[0] in Kept(RoleOf(a, t)) && v !in back
      && (y != [] ==> y[0] != back[0])
      && (y == [] <==> r == [] && a.shared == [])
  {
    var role := RoleOf(a, t);
    KeptByMerge(role);
    assert Reverse(role.rest)[0] == role.rest[|role.rest| - 1];
    if r == [] && a.shared != [] {
      assert Reverse(a.shared)[0] in a.shared && Apart(Kept(role), a.shared);
    }
  }

  lemma {:induction false} SamePrefix(p: seq<Node>, was: seq<Node>, pushed: seq<Node>, popped: seq<Node>, now: seq<Node>)
    ensures p + was + pushed == p + popped + now <==> was + pushed == popped + now
  {
    assert p + was + pushed == p + (was + pushed);
    assert p + popped + now == p + (popped + now);
    assert (p + (was + pushed))[|p|..] == was + pushed;
    assert (p + (popped + now))[|p|..] == popped + now;
  }

  // ---------- runs ----------

  lemma {:induction false} OutcomeMatchesEffect(s: State, a: View, t: Tid, act: Action)
    requires Represents(s, a) && Enabled(s, t, act)
    ensures ComesIn(EffectOf(s, t, act)) == PushedBy(OutcomeOf(s, t, act))
    ensures GoesOut(EffectOf(s, t, act)) == PoppedBy(OutcomeOf(s, t, act))
    ensures a.shared == [] <==> s.head == NULL
  {
    assert Agrees(s.next, At(s, t), RoleOf(a, t));
    assert a.shared != [] ==> a.shared[0] in a.shared;
  }

  /** One step keeps the order if and only if it is in turn. */
  lemma {:induction false} OrderStep(es: seq<Event>)
    requires IsRun(es) && es != [] && InOrder(es[..|es| - 1])
    ensures InOrder(es) <==> !OutOfTurn(es)
  {
    var p, ev := es[..|es| - 1], es[|es| - 1];
    var a, ts, e := ViewOf(p), Takers(p), EffectOf(After(p), ev.t, ev.act);
    TakersAreListed(p);
    StepRefines(After(p), a, ev.t, ev.act);
    OutcomeMatchesEffect(After(p), a, ev.t, ev.act);
    EffectKeepsOrder(a, ts, ev.t, e);
    SamePrefix(Departures(p), Waiting(a, ts), ComesIn(e), GoesOut(e), Waiting(ViewOf(es), Takers(es)));
  }

  lemma {:induction false} EffectKeepsOrder(a: View, ts: seq<Tid>, t: Tid, e: Effect)
    requires OnePlace(a) && Lists(ts, a) && Allowed(a, t, e)
    ensures KeepsOrder(a, ts, t, e) <==>
      match e
      case Only(_) => ts != [] && ts[0] == t
      case Merge(_) => ts == [t] && a.shared == []
      case _ => true
  {
    match e
    case Link(v) => LinkKeepsOrder(a, ts, t, v);
    case Take => TakeKeepsOrder(a, ts, t);
    case Only(v) => OnlyKeepsOrder(a, ts, t, v);
    case Merge(v) => MergeKeepsOrder(a, ts, t, v);
    case _ => QuietKeepsOrder(a, ts, t, e);
  }

  /** The exact condition, for every run: the queue is first-in first-out at every moment if and only if
      no pop of the run has ended while an earlier taker was carrying nodes, and no merge has met
      another taker or newer nodes in `head_`. */
  lemma {:induction false} FifoExactlyInTurn(es: seq<Event>)
    requires IsRun(es)
    ensures AlwaysInOrder(es) <==> AlwaysInTurn(es)
    decreases |es|
  {
    if es == [] {
      assert InHand(EMPTY, []) == [] && Reverse<Node>([]) == [];
    } else {
      FifoExactlyInTurn(es[..|es| - 1]);
      if AlwaysInOrder(es[..|es| - 1]) {
        OrderStep(es);
      }
    }
  }

  /** What callers see of the order: nodes leave in exactly the order in which they came. */
  lemma {:induction false} InTurnLeavesInOrder(es: seq<Event>)
    requires IsRun(es) && AlwaysInTurn(es)
    ensures Departures(es) <= Arrivals(es)
  {
    FifoExactlyInTurn(es);
    assert InOrder(es);
  }

  // ---------- one pop at a time ----------

  ghost predicate OneTaker(es: seq<Event>)
    requires IsRun(es)
    decreases |es|
  {
    |Takers(es)| <= 1 && (es != [] ==> OneTaker(es[..|es| - 1]))
  }

  /** The last step is a merge that finds `head_` not null. */
  ghost predicate MergesOntoNewer(es: seq<Event>)
    requires IsRun(es)
  {
    es != [] &&
    var p := es[..|es| - 1];
    EffectOf(After(p), es[|es| - 1].t, es[|es| - 1].act).Merge? && After(p).head != NULL
  }

  ghost predicate NeverMergesOntoNewer(es: seq<Event>)
    requires IsRun(es)
    decreases |es|
  {
    !MergesOntoNewer(es) && (es != [] ==> NeverMergesOntoNewer(es[..|es| - 1]))
  }

  /** Where pops carry nodes one at a time, only merges onto newer nodes can break the order. */
  lemma {:induction false} FifoExactlyWithoutNewerMerges(es: seq<Event>)
    requires IsRun(es) && OneTaker(es)
    ensures AlwaysInOrder(es) <==> NeverMergesOntoNewer(es)
  {
    OneTakerCondition(es);
    FifoExactlyInTurn(es);
  }

  lemma {:induction false} OneTakerCondition(es: seq<Event>)
    requires IsRun(es) && OneTaker(es)
    ensures AlwaysInTurn(es) <==> NeverMergesOntoNewer(es)
    decreases |es|
  {
    if es != [] {
      var p, e := es[..|es| - 1], es[|es| - 1];
      OneTakerCondition(p);
      TakersAreListed(p);
      StepRefines(After(p), ViewOf(p), e.t, e.act);
      ReturnerIsListed(Takers(p), ViewOf(p), e.t, EffectOf(After(p), e.t, e.act));
    }
  }

  lemma {:induction false} ReturnerIsListed(ts: seq<Tid>, a: View, t: Tid, e: Effect)
    requires Lists(ts, a) && Allowed(a, t, e) && |ts| <= 1
    ensures e.Only? || e.Merge? ==> ts == [t]
  {
    assert e.Only? || e.Merge? ==> t in ts;
  }

  /** Only `c` ever pops; anybody pushes, at any time. */
  ghost predicate OnlyPopper(es: seq<Event>, c: Tid) {
    forall e :: e in es && e.act.CallPop? ==> e.t == c
  }

  lemma {:induction false} OneConsumerTakesTurns(es: seq<Event>, c: Tid)
    requires IsRun(es) && OnlyPopper(es, c)
    ensures OneTaker(es)
    ensures forall t :: t != c ==> !InPop(At(After(es), t))
    decreases |es|
  {
    if es != [] {
      var p, e := es[..|es| - 1], es[|es| - 1];
      assert e in es && forall d :: d in p ==> d in es;
      OneConsumerTakesTurns(p, c);
      forall t | t != c ensures !InPop(At(After(es), t)) {
        ConsumerStep(After(p), e.t, e.act, t);
      }
      OnlyOneListed(es, c);
    }
  }

  lemma {:induction false} OnlyOneListed(es: seq<Event>, c: Tid)
    requires IsRun(es) && forall t :: t != c ==> !InPop(At(After(es), t))
    ensures |Takers(es)| <= 1
  {
    var ts := Takers(es);
    assert |ts| > 1 ==> ts[0] in ts && ts[1] in ts;
    TakersAreListed(es);
    forall t | t in ts ensures t == c {
      TakerIsBusy(es, t);
    }
  }

  lemma {:induction false} ConsumerStep(s: State, u: Tid, act: Action, t: Tid)
    requires Enabled(s, u, act) && (act.CallPop? ==> u != t) && !InPop(At(s, t))
    ensures !InPop(At(Step(s, u, act), t))
  {}

  // ---------- sequential use ----------

  ghost predicate AtMostOneBusy(s: State) {
    forall t, u :: !At(s, t).Idle? && !At(s, u).Idle? ==> t == u
  }

  /** Calls do not overlap: never are two threads inside push or pop. */
  ghost predicate Sequential(es: seq<Event>)
    requires IsRun(es)
    decreases |es|
  {
    && AtMostOneBusy(After(es))
    && (es != [] ==> Sequential(es[..|es| - 1]))
  }

  lemma {:induction false} SequentialTakerIsAlone(es: seq<Event>)
    requires IsRun(es) && Sequential(es)
    ensures |Takers(es)| <= 1 && (Takers(es) != [] ==> After(es).head == NULL)
    decreases |es|
  {
    if es != [] {
      var p, e := es[..|es| - 1], es[|es| - 1];
      SequentialTakerIsAlone(p);
      TakersAreListed(p);
      if Takers(p) != [] {
        SequentialTakerMoves(es, Takers(p)[0]);
      }
      SequentialStep(After(p), Takers(p), e.t, e.act);
    }
  }

  /** While a pop carries nodes, only its own thread takes steps. */
  lemma {:induction false} SequentialTakerMoves(es: seq<Event>, t: Tid)
    requires IsRun(es) && es != [] && Sequential(es) && t in Takers(es[..|es| - 1])
    ensures es[|es| - 1].t == t && InPop(At(After(es[..|es| - 1]), t)) && !At(After(es[..|es| - 1]), t).PopExchange?
  {
    var p, e := es[..|es| - 1], es[|es| - 1];
    TakerIsBusy(p, t);
    assert Sequential(p) && AtMostOneBusy(After(p)) && AtMostOneBusy(After(es));
    if e.t != t {
      TwoBusy(After(p), e.t, e.act, t);
    }
  }

  lemma {:induction false} TwoBusy(s: State, t: Tid, act: Action, u: Tid)
    requires Enabled(s, t, act) && t != u && !At(s, u).Idle?
    ensures var b := Step(s, t, act);
      !At(s, t).Idle? || (!At(b, t).Idle? && !At(b, u).Idle?)
  {
    StepOfAnother(s, t, act, u);
  }

  lemma {:induction false} TakerIsBusy(es: seq<Event>, t: Tid)
    requires IsRun(es) && t in Takers(es)
    ensures InPop(At(After(es), t)) && !At(After(es), t).PopExchange?
  {
    TakersAreListed(es);
    assert Agrees(After(es).next, At(After(es), t), RoleOf(ViewOf(es), t));
  }

  lemma {:induction false} SequentialStep(s: State, ts: seq<Tid>, t: Tid, act: Action)
    requires Enabled(s, t, act) && |ts| <= 1 && (ts != [] ==> s.head == NULL)
    requires ts != [] ==> ts == [t] && InPop(At(s, t)) && !At(s, t).PopExchange?
    ensures var us := NextTakers(ts, t, EffectOf(s, t, act));
      |us| <= 1 && (us != [] ==> Step(s, t, act).head == NULL)
  {
    assert ts == [t] ==> Without(ts, t) == [];
    assert ts == [] ==> Without(ts, t) == [];
  }

  /** Any sequence of non-overlapping calls is served first in, first out. */
  lemma {:induction false} SequentialUseIsFifo(es: seq<Event>)
    requires IsRun(es) && Sequential(es)
    ensures AlwaysInOrder(es) && Departures(es) <= Arrivals(es)
  {
    SequentialRuns(es);
    FifoExactlyInTurn(es);
    assert InOrder(es);
  }

  lemma {:induction false} SequentialRuns(es: seq<Event>)
    requires IsRun(es) && Sequential(es)
    ensures AlwaysInTurn(es)
    decreases |es|
  {
    if es != [] {
      var p, e := es[..|es| - 1], es[|es| - 1];
      SequentialRuns(p);
      SequentialTakerIsAlone(p);
      TakersAreListed(p);
      StepRefines(After(p), ViewOf(p), e.t, e.act);
      ReturnerIsListed(Takers(p), ViewOf(p), e.t, EffectOf(After(p), e.t, e.act));
    }
  }
}
