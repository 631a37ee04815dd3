/** What a thread achieves when it runs on alone from any reachable state, in whatever call it
    is and at whatever step: it finishes. It shows that the order QueueOrder speaks of can be
    observed, and gives the runs in which the queue surprises. */
module QueueSolo {

  import opened Sequences
  import opened QueueMachine
  import opened QueueSpec
  import opened QueueRefinement
  import opened QueueRuns
  import opened QueueProgress
  import opened QueueOrder

  /** Where a run has led. */
  datatype Config = Config(s: State, a: View, arrived: seq<Node>, left: seq<Node>)

  ghost predicate Sound(c: Config) {
    Represents(c.s, c.a)
  }

  ghost function Now(es: seq<Event>): (c: Config)
    requires IsRun(es)
    ensures Sound(c)
  {
    Config(After(es), ViewOf(es), Arrivals(es), Departures(es))
  }

  ghost function Moved(c: Config, t: Tid, act: Action): (d: Config)
    requires Sound(c) && Enabled(c.s, t, act)
    ensures Sound(d) && Others(c, d, t)
  {
    var e := EffectOf(c.s, t, act);
    StepRefines(c.s, c.a, t, act);
    OthersStand(c.s, c.a, t, act);
    Config(Step(c.s, t, act), Apply(c.a, t, e), c.arrived + ComesIn(e), c.left + GoesOut(e))
  }

  /** Nothing changes for the other threads. */
  ghost predicate Others(c: Config, d: Config, t: Tid) {
    forall u :: u != t ==> At(d.s, u) == At(c.s, u) && RoleOf(d.a, u) == RoleOf(c.a, u)
  }

  lemma {:induction false} OthersTrans(c: Config, d: Config, e: Config, t: Tid)
    requires Others(c, d, t) && Others(d, e, t)
    ensures Others(c, e, t)
  {}

  lemma {:induction false} OthersStand(s: State, a: View, t: Tid, act: Action)
    requires Represents(s, a) && Enabled(s, t, act) && Allowed(a, t, EffectOf(s, t, act))
    ensures forall u :: u != t ==>
      At(Step(s, t, act), u) == At(s, u) && RoleOf(Apply(a, t, EffectOf(s, t, act)), u) == RoleOf(a, u)
  {
    forall u | u != t
      ensures At(Step(s, t, act), u) == At(s, u) && RoleOf(Apply(a, t, EffectOf(s, t, act)), u) == RoleOf(a, u)
    {
      StepOfAnother(s, t, act, u);
      ApplyOthers(a, t, EffectOf(s, t, act), u);
    }
  }

  /** One more step of a run. */
  lemma {:induction false} Tick(es: seq<Event>, t: Tid, act: Action) returns (longer: seq<Event>)
    requires IsRun(es) && Enabled(After(es), t, act)
    ensures longer == es + [Event(t, act)] && IsRun(longer)
    ensures Now(longer) == Moved(Now(es), t, act) && Last(longer) == OutcomeOf(After(es), t, act)
  {
    longer := Extend(es, t, act);
    assert longer[..|longer| - 1] == es;
    OutcomeMatchesEffect(After(es), ViewOf(es), t, act);
  }

  // ---------- every call finishes ----------

  /** What a call does in the end: the nodes that arrive, the nodes that leave, the shared chain, and
      the nodes the queue has. */
  datatype Ending = Ending(arrived: seq<Node>, left: seq<Node>, shared: seq<Node>, inside: set<Node>)

  ghost function Standing(c: Config): Ending {
    Ending(c.arrived, c.left, c.a.shared, c.s.inside)
  }

  /** What will be when the call that `t` is in has ended undisturbed, said by the role of `t` alone. */
  ghost function Foretold(c: Config, t: Tid): Ending {
    match RoleOf(c.a, t)
    case Quiet => Standing(c)
    case Pushing(v) => Standing(c).(arrived := c.arrived + [v], shared := [v] + c.a.shared)
    case Popping => Returned(c, c.a.shared, [])
    case Holding(chain) => Returned(c, chain, c.a.shared)
    case Merging(rest, value) => Ending(c.arrived, c.left + [value], rest + c.a.shared, c.s.inside - {value})
  }

  /** A pop that took `chain` has returned its last node and put the rest in front of `shared`. */
  ghost function Returned(c: Config, chain: seq<Node>, shared: seq<Node>): Ending {
    if chain == [] then Standing(c).(shared := shared)
    else
      var v := chain[|chain| - 1];
      Ending(c.arrived, c.left + [v], chain[..|chain| - 1] + shared, c.s.inside - {v})
  }

  /** No own step of a call changes what it will do in the end. */
  lemma {:induction false} ForetoldIsKept(c: Config, t: Tid, act: Action)
    requires Sound(c) && Enabled(c.s, t, act) && act.Run?
    ensures Foretold(Moved(c, t, act), t) == Foretold(c, t)
  {
    StepRefines(c.s, c.a, t, act);
    InsideStep(c.s, c.a, t, act);
    RunBeginsNothing(c.s, t, act);
    EffectKeepsForetold(c, Moved(c, t, act), t, EffectOf(c.s, t, act));
  }

  lemma {:induction false} EffectKeepsForetold(c: Config, d: Config, t: Tid, e: Effect)
    requires Allowed(c.a, t, e) && !e.BeginPush? && !e.BeginPop?
    requires d.a == Apply(c.a, t, e) && d.arrived == c.arrived + ComesIn(e) && d.left == c.left + GoesOut(e)
    requires d.s.inside == if e.Only? || e.Merge? then c.s.inside - {e.v} else c.s.inside
    ensures Foretold(d, t) == Foretold(c, t)
  {}

  lemma {:induction false} RunBeginsNothing(s: State, t: Tid, act: Action)
    requires Enabled(s, t, act) && act.Run?
    ensures !EffectOf(s, t, act).BeginPush? && !EffectOf(s, t, act).BeginPop?
    ensures !At(Step(s, t, act), t).PopExchange?
    ensures EffectOf(s, t, act).Take? ==> At(s, t).PopExchange?
  {}

  /** How many steps the thread needs, the chain a pop is about to take included. */
  ghost function StepsLeft(c: Config, t: Tid): nat {
    Rank(c.s, c.a, t) + if At(c.s, t).PopExchange? then 4 * |c.a.shared| else 0
  }

  lemma {:induction false} StepsLeftShrink(c: Config, t: Tid)
    requires Sound(c) && Enabled(c.s, t, Run(false))
    ensures StepsLeft(Moved(c, t, Run(false)), t) < StepsLeft(c, t)
  {
    StepRefines(c.s, c.a, t, Run(false));
    StepLowersRank(c.s, c.a, t, false);
    RunBeginsNothing(c.s, t, Run(false));
  }

  lemma {:induction false} IdleStands(c: Config, t: Tid)
    requires Sound(c) && At(c.s, t).Idle?
    ensures Foretold(c, t) == Standing(c)
  {
    assert Agrees(c.s.next, At(c.s, t), RoleOf(c.a, t));
  }

  /** Where `t` gets by running on alone to the end of its call. */
  ghost function Finished(c: Config, t: Tid): (d: Config)
    requires Sound(c)
    ensures Sound(d) && Others(c, d, t) && At(d.s, t).Idle?
    ensures Standing(d) == Foretold(c, t)
    decreases StepsLeft(c, t)
  {
    if At(c.s, t).Idle? then
      IdleStands(c, t);
      c
    else
      StepsLeftShrink(c, t);
      ForetoldIsKept(c, t, Run(false));
      Finished(Moved(c, t, Run(false)), t)
  }

  /** `longer` continues `es` with steps of `t` only. */
  ghost predicate Solo(es: seq<Event>, longer: seq<Event>, t: Tid) {
    IsRun(es) && IsRun(longer) && es <= longer && forall i :: |es| <= i < |longer| ==> longer[i].t == t
  }

  lemma {:induction false} SoloTrans(p: seq<Event>, q: seq<Event>, r: seq<Event>, t: Tid)
    requires Solo(p, q, t) && Solo(q, r, t)
    ensures Solo(p, r, t)
  {}

  /** Obstruction freedom: from every reachable state, whatever the others are in the middle of and
      wherever in its call `t` is, `t` finishes by running on alone, in no more steps than its rank says, and
      the call has exactly the effect that its role foretells. */
  lemma {:induction false} FinishAlone(es: seq<Event>, t: Tid) returns (longer: seq<Event>)
    requires IsRun(es)
    ensures Solo(es, longer, t) && forall i :: |es| <= i < |longer| ==> longer[i].act == Run(false)
    ensures Now(longer) == Finished(Now(es), t) && At(After(longer), t).Idle?
    ensures Standing(Now(longer)) == Foretold(Now(es), t)
    ensures |longer| <= |es| + StepsLeft(Now(es), t)
    decreases StepsLeft(Now(es), t)
  {
    if At(After(es), t).Idle? {
      longer := es;
    } else {
      var next := Tick(es, t, Run(false));
      StepsLeftShrink(Now(es), t);
      longer := FinishAlone(next, t);
    }
  }

  /** A whole push, undisturbed. */
  lemma {:induction false} PushAlone(es: seq<Event>, t: Tid, v: Node) returns (longer: seq<Event>)
    requires IsRun(es) && Enabled(After(es), t, CallPush(v))
    ensures Solo(es, longer, t) && forall i :: |es| <= i < |longer| ==> !longer[i].act.CallPop?
    ensures Others(Now(es), Now(longer), t) && At(After(longer), t).Idle?
    ensures var c := Now(es);
      Standing(Now(longer)) == Ending(c.arrived + [v], c.left, [v] + c.a.shared, c.s.inside + {v})
  {
    var p := PushBegins(es, t, v);
    longer := FinishAlone(p, t);
    SoloTrans(es, p, longer, t);
    PushPopsNothing(es, p, longer, t, v);
    OthersTrans(Now(es), Now(p), Now(longer), t);
  }

  lemma {:induction false} PushPopsNothing(es: seq<Event>, p: seq<Event>, longer: seq<Event>, t: Tid, v: Node)
    requires p == es + [Event(t, CallPush(v))] && p <= longer
    requires forall i :: |p| <= i < |longer| ==> longer[i].act == Run(false)
    ensures forall i :: |es| <= i < |longer| ==> !longer[i].act.CallPop?
  {
    assert longer[|es|] == p[|es|];
  }

  lemma {:induction false} PushBegins(es: seq<Event>, t: Tid, v: Node) returns (longer: seq<Event>)
    requires IsRun(es) && Enabled(After(es), t, CallPush(v))
    ensures longer == es + [Event(t, CallPush(v))] && Solo(es, longer, t) && Others(Now(es), Now(longer), t)
    ensures var c := Now(es);
      Foretold(Now(longer), t) == Ending(c.arrived + [v], c.left, [v] + c.a.shared, c.s.inside + {v})
  {
    longer := Tick(es, t, CallPush(v));
    PushForetold(Now(es), t, v);
  }

  lemma {:induction false} PushForetold(c: Config, t: Tid, v: Node)
    requires Sound(c) && Enabled(c.s, t, CallPush(v))
    ensures Foretold(Moved(c, t, CallPush(v)), t) ==
      Ending(c.arrived + [v], c.left, [v] + c.a.shared, c.s.inside + {v})
  {}

  /** A whole pop, undisturbed: it fails exactly when nothing is shared. */
  lemma {:induction false} PopAlone(es: seq<Event>, t: Tid) returns (longer: seq<Event>)
    requires IsRun(es) && At(After(es), t).Idle?
    ensures Solo(es, longer, t) && Others(Now(es), Now(longer), t) && At(After(longer), t).Idle?
    ensures Standing(Now(longer)) == Returned(Now(es), ViewOf(es).shared, [])
  {
    var p := PopBegins(es, t);
    longer := FinishAlone(p, t);
    OthersTrans(Now(es), Now(p), Now(longer), t);
  }

  lemma {:induction false} PopBegins(es: seq<Event>, t: Tid) returns (longer: seq<Event>)
    requires IsRun(es) && At(After(es), t).Idle?
    ensures longer == es + [Event(t, CallPop)] && Solo(es, longer, t) && Others(Now(es), Now(longer), t)
    ensures Standing(Now(longer)) == Standing(Now(es)) && At(After(longer), t).PopExchange?
    ensures Foretold(Now(longer), t) == Returned(Now(es), ViewOf(es).shared, [])
  {
    longer := Tick(es, t, CallPop);
    PopForetold(Now(es), t);
  }

  lemma {:induction false} PopForetold(c: Config, t: Tid)
    requires Sound(c) && At(c.s, t).Idle?
    ensures Foretold(Moved(c, t, CallPop), t) == Returned(c, c.a.shared, [])
    ensures Standing(Moved(c, t, CallPop)) == Standing(c) && At(Moved(c, t, CallPop).s, t).PopExchange?
  {}

  // ---------- order, as callers see it ----------

  lemma {:induction false} Mismatch(d: seq<Node>, x: seq<Node>, y: seq<Node>, k: nat)
    requires k < |x| && k < |y| && x[k] != y[k]
    ensures !(d + x <= d + y)
  {
    assert (d + x)[|d| + k] == x[k] && (d + y)[|d| + k] == y[k];
  }

  /** The first step out of turn can be noticed from the results: at once, or after one more
      call has run on alone, a node has left before one that came earlier. */
  lemma {:induction false} OutOfTurnShows(es: seq<Event>) returns (longer: seq<Event>)
    requires IsRun(es) && OutOfTurn(es) && AlwaysInTurn(es[..|es| - 1])
    ensures IsRun(longer) && es <= longer
    ensures !(Departures(longer) <= Arrivals(longer))
  {
    var c, ts, e, t := LastStep(es);
    var l, r := Around(c.a, ts, t, e);
    if l != [] {
      longer := es;
      EarlierTaker(c, ts, t, e, l, r);
    } else if r != [] {
      longer := OtherFinishes(es, c, ts, t, e, r);
    } else {
      longer := PopsAgain(es, c, ts, t, e);
    }
  }

  lemma {:induction false} OtherFinishes(es: seq<Event>, c: Config, ts: seq<Tid>, t: Tid, e: Effect, r: seq<Tid>) returns (longer: seq<Event>)
    requires IsRun(es) && Departs(c, Now(es), t, e) && e.Merge? && c.arrived == c.left + Waiting(c.a, ts)
    requires InHand(c.a, ts) == Reverse(Kept(RoleOf(c.a, t))) + InHand(c.a, r)
    requires Lists(ts, c.a) && r != [] && r[0] in ts && r[0] != t
    ensures IsRun(longer) && es <= longer && !(Departures(longer) <= Arrivals(longer))
  {
    OtherTakerLeaves(c, Now(es), ts, t, e, r);
    longer := FinishAlone(es, r[0]);
  }

  lemma {:induction false} PopsAgain(es: seq<Event>, c: Config, ts: seq<Tid>, t: Tid, e: Effect) returns (longer: seq<Event>)
    requires IsRun(es) && Departs(c, Now(es), t, e) && e.Merge? && c.arrived == c.left + Waiting(c.a, ts)
    requires InHand(c.a, ts) == Reverse(Kept(RoleOf(c.a, t))) && c.a.shared != []
    requires At(After(es), t).Idle?
    ensures IsRun(longer) && es <= longer && !(Departures(longer) <= Arrivals(longer))
  {
    NewerLeaves(c, Now(es), ts, t, e);
    longer := PopAlone(es, t);
  }

  /** What the last step was: `c` is the configuration before it. */
  lemma {:induction false} LastStep(es: seq<Event>) returns (c: Config, ts: seq<Tid>, e: Effect, t: Tid)
    requires IsRun(es) && OutOfTurn(es) && AlwaysInTurn(es[..|es| - 1])
    ensures Sound(c) && Lists(ts, c.a) && c.arrived == c.left + Waiting(c.a, ts)
    ensures Departs(c, Now(es), t, e) && At(After(es), t).Idle?
    ensures e.Only? ==> ts == [] || ts[0] != t
    ensures e.Merge? ==> ts != [t] || c.a.shared != []
  {
    var p, ev := es[..|es| - 1], es[|es| - 1];
    c, ts, t := Now(p), Takers(p), ev.t;
    e := EffectOf(c.s, t, ev.act);
    FifoExactlyInTurn(p);
    assert InOrder(p);
    TakersAreListed(p);
    OutcomeMatchesEffect(c.s, c.a, t, ev.act);
    DepartsIdle(c, t, ev.act);
    assert Now(es) == Moved(c, t, ev.act);
  }

  /** The step of `t` from `c` to `d` ends a pop. */
  ghost predicate Departs(c: Config, d: Config, t: Tid, e: Effect) {
    && Sound(c) && Allowed(c.a, t, e) && (e.Only? || e.Merge?)
    && d.a == Apply(c.a, t, e) && d.arrived == c.arrived && d.left == c.left + GoesOut(e)
  }

  lemma {:induction false} DepartsIdle(c: Config, t: Tid, act: Action)
    requires Sound(c) && Enabled(c.s, t, act)
    requires EffectOf(c.s, t, act).Only? || EffectOf(c.s, t, act).Merge?
    ensures At(Step(c.s, t, act), t).Idle? && Departs(c, Moved(c, t, act), t, EffectOf(c.s, t, act))
  {
    StepRefines(c.s, c.a, t, act);
  }

  /** A node is returned although an earlier taker has older ones. */
  lemma {:induction false} EarlierTaker(c: Config, ts: seq<Tid>, t: Tid, e: Effect, l: seq<Tid>, r: seq<Tid>)
    requires Sound(c) && Allowed(c.a, t, e) && (e.Only? || e.Merge?) && c.arrived == c.left + Waiting(c.a, ts)
    requires InHand(c.a, ts) == InHand(c.a, l) + Reverse(Kept(RoleOf(c.a, t))) + InHand(c.a, r)
    requires InHand(c.a, l) != [] && InHand(c.a, l)[0] !in Kept(RoleOf(c.a, t))
    ensures !(c.left + GoesOut(e) <= c.arrived)
  {
    assert Waiting(c.a, ts)[0] == InHand(c.a, l)[0];
    ReturnedIsKept(c.a, t, e);
    Mismatch(c.left, GoesOut(e), Waiting(c.a, ts), 0);
  }

  lemma {:induction false} ReturnedIsKept(a: View, t: Tid, e: Effect)
    requires Allowed(a, t, e) && (e.Only? || e.Merge?)
    ensures |GoesOut(e)| == 1 && GoesOut(e)[0] in Kept(RoleOf(a, t))
  {
    if e.Merge? {
      KeptByMerge(RoleOf(a, t));
    }
  }

  /** What leaves second, after a merge by the only taker or the first of several, should be a node it gave
      back. */
  lemma {:induction false} SecondLeaves(c: Config, d: Config, ts: seq<Tid>, t: Tid, e: Effect, r: seq<Tid>, x: Node)
    requires Departs(c, d, t, e) && e.Merge? && c.arrived == c.left + Waiting(c.a, ts)
    requires InHand(c.a, ts) == Reverse(Kept(RoleOf(c.a, t))) + InHand(c.a, r)
    requires x !in Kept(RoleOf(c.a, t))
    ensures !(d.left + [x] <= d.arrived)
  {
    var k := Kept(RoleOf(c.a, t));
    assert Waiting(c.a, ts)[1] == Reverse(k)[1] == k[|k| - 2];
    assert d.left + [x] == c.left + [e.v, x];
    Mismatch(c.left, [e.v, x], Waiting(c.a, ts), 1);
  }

  /** Another taker, running on alone, returns a node that it keeps. */
  lemma {:induction false} OtherTakerLeaves(c: Config, d: Config, ts: seq<Tid>, t: Tid, e: Effect, r: seq<Tid>)
    requires Departs(c, d, t, e) && e.Merge? && c.arrived == c.left + Waiting(c.a, ts)
    requires InHand(c.a, ts) == Reverse(Kept(RoleOf(c.a, t))) + InHand(c.a, r)
    requires Lists(ts, c.a) && r != [] && r[0] in ts && r[0] != t
    ensures !(Foretold(d, r[0]).left <= Foretold(d, r[0]).arrived)
  {
    var u := r[0];
    ApplyOthers(c.a, t, e, u);
    var x := OldestKept(d, u);
    assert x in Kept(RoleOf(c.a, u)) && Apart(Kept(RoleOf(c.a, u)), Kept(RoleOf(c.a, t)));
    SecondLeaves(c, d, ts, t, e, r, x);
  }

  lemma {:induction false} OldestKept(c: Config, t: Tid) returns (x: Node)
    requires HasNodes(RoleOf(c.a, t)) && Kept(RoleOf(c.a, t)) != []
    ensures x in Kept(RoleOf(c.a, t))
    ensures Foretold(c, t).left == c.left + [x] && Foretold(c, t).arrived == c.arrived
  {
    var role := RoleOf(c.a, t);
    x := if role.Holding? then role.chain[|role.chain| - 1] else role.value;
    assert Kept(role)[|Kept(role)| - 1] == x;
  }

  /** One more pop returns the oldest of the newer nodes. */
  lemma {:induction false} NewerLeaves(c: Config, d: Config, ts: seq<Tid>, t: Tid, e: Effect)
    requires Departs(c, d, t, e) && e.Merge? && c.arrived == c.left + Waiting(c.a, ts)
    requires InHand(c.a, ts) == Reverse(Kept(RoleOf(c.a, t))) && c.a.shared != []
    ensures !(Returned(d, d.a.shared, []).left <= d.arrived)
  {
    var x := OldestShared(c, d, t, e);
    NothingInHand(c.a, ts);
    SecondLeaves(c, d, ts, t, e, [], x);
  }

  lemma {:induction false} OldestShared(c: Config, d: Config, t: Tid, e: Effect) returns (x: Node)
    requires Departs(c, d, t, e) && e.Merge? && c.a.shared != []
    ensures Returned(d, d.a.shared, []).left == d.left + [x] && x !in Kept(RoleOf(c.a, t))
  {
    x := c.a.shared[|c.a.shared| - 1];
    assert x in c.a.shared && Apart(Kept(RoleOf(c.a, t)), c.a.shared);
    OldestOfBoth(RoleOf(c.a, t).rest, c.a.shared);
  }

  lemma {:induction false} NothingInHand(a: View, ts: seq<Tid>)
    ensures InHand(a, []) == [] && InHand(a, ts) == InHand(a, ts) + InHand(a, [])
  {}

  lemma {:induction false} OldestOfBoth(rest: seq<Node>, shared: seq<Node>)
    requires shared != []
    ensures var both := rest + shared; both[|both| - 1] == shared[|shared| - 1]
  {}

  // ---------- runs ----------

  lemma {:induction false} PopperStays(es: seq<Event>, longer: seq<Event>, t: Tid)
    requires OnlyPopper(es, t) && es <= longer
    requires forall i :: |es| <= i < |longer| ==> longer[i].t == t || !longer[i].act.CallPop?
    ensures OnlyPopper(longer, t)
  {
    forall e | e in longer && e.act.CallPop? ensures e.t == t {
      var i :| 0 <= i < |longer| && longer[i] == e;
      assert i < |es| ==> es[i] == e && e in es;
    }
  }

  /** Everybody but `t` is between two calls. */
  ghost predicate OthersIdle(c: Config, t: Tid) {
    forall u :: u != t ==> At(c.s, u).Idle?
  }

  /** Thread 1 has pushed 1. */
  lemma {:induction false} OnePushed() returns (es: seq<Event>)
    ensures IsRun(es) && OnlyPopper(es, 2) && OthersIdle(Now(es), 1) && At(After(es), 1).Idle?
    ensures Standing(Now(es)) == Ending([1], [], [1], {1})
  {
    assert Now([]) == Config(INITIAL, EMPTY, [], []);
    es := PushAlone([], 1, 1);
    PopperStays([], es, 2);
  }

  /** And 2. */
  lemma {:induction false} TwoPushed() returns (es: seq<Event>)
    ensures IsRun(es) && OnlyPopper(es, 2) && OthersIdle(Now(es), 1) && At(After(es), 1).Idle?
    ensures Standing(Now(es)) == Ending([1, 2], [], [2, 1], {1, 2})
  {
    var p := OnePushed();
    es := PushAlone(p, 1, 2);
    PopperStays(p, es, 2);
  }

  /** A pop's first two steps, when there is something to take. */
  lemma {:induction false} TakeAlone(es: seq<Event>, t: Tid) returns (longer: seq<Event>)
    requires IsRun(es) && At(After(es), t).Idle? && ViewOf(es).shared != []
    ensures Solo(es, longer, t) && Others(Now(es), Now(longer), t)
    ensures RoleOf(ViewOf(longer), t) == Holding(ViewOf(es).shared)
    ensures Standing(Now(longer)) == Standing(Now(es)).(shared := [])
  {
    var p := PopBegins(es, t);
    longer := TakeTick(p, t);
    SoloTrans(es, p, longer, t);
    OthersTrans(Now(es), Now(p), Now(longer), t);
  }

  lemma {:induction false} TakeTick(es: seq<Event>, t: Tid) returns (longer: seq<Event>)
    requires IsRun(es) && At(After(es), t).PopExchange? && ViewOf(es).shared != []
    ensures Solo(es, longer, t) && Others(Now(es), Now(longer), t)
    ensures RoleOf(ViewOf(longer), t) == Holding(ViewOf(es).shared)
    ensures Standing(Now(longer)) == Standing(Now(es)).(shared := [])
  {
    PopTakes(Now(es), t);
    longer := Tick(es, t, Run(false));
  }

  lemma {:induction false} PopTakes(c: Config, t: Tid)
    requires Sound(c) && At(c.s, t).PopExchange? && c.a.shared != []
    ensures RoleOf(Moved(c, t, Run(false)).a, t) == Holding(c.a.shared)
    ensures Standing(Moved(c, t, Run(false))) == Standing(c).(shared := [])
  {
    assert c.a.shared[0] in c.a.shared;
  }

  /** And when there is not. */
  lemma {:induction false} MissAlone(es: seq<Event>, t: Tid) returns (longer: seq<Event>)
    requires IsRun(es) && At(After(es), t).Idle? && ViewOf(es).shared == []
    ensures Solo(es, longer, t) && longer != [] && Last(longer) == PopFailed
    ensures Standing(Now(longer)) == Standing(Now(es))
  {
    var p := PopBegins(es, t);
    longer := MissTick(p, t);
    SoloTrans(es, p, longer, t);
  }

  lemma {:induction false} MissTick(es: seq<Event>, t: Tid) returns (longer: seq<Event>)
    requires IsRun(es) && At(After(es), t).PopExchange? && ViewOf(es).shared == []
    ensures Solo(es, longer, t) && longer != []
    ensures Standing(Now(longer)) == Standing(Now(es)) && Last(longer) == PopFailed
  {
    PopMisses(Now(es), t);
    longer := Tick(es, t, Run(false));
  }

  lemma {:induction false} PopMisses(c: Config, t: Tid)
    requires Sound(c) && At(c.s, t).PopExchange? && c.a.shared == []
    ensures OutcomeOf(c.s, t, Run(false)) == PopFailed
    ensures Standing(Moved(c, t, Run(false))) == Standing(c)
  {}

  /** Thread 2 has taken both and stands before the first. */
  ghost predicate BothTaken(c: Config) {
    && Standing(c) == Ending([1, 2], [], [], {1, 2})
    && OthersIdle(c, 2) && RoleOf(c.a, 2) == Holding([2, 1])
  }

  lemma {:induction false} TwoTaken() returns (es: seq<Event>)
    ensures IsRun(es) && OnlyPopper(es, 2) && BothTaken(Now(es))
  {
    var p := TwoPushed();
    es := TakeAlone(p, 2);
    PopperStays(p, es, 2);
  }

  /** Then thread 1 has pushed 3. */
  ghost predicate ThreeBehind(c: Config) {
    && Standing(c) == Ending([1, 2, 3], [], [3], {1, 2, 3})
    && OthersIdle(c, 2) && RoleOf(c.a, 2) == Holding([2, 1])
  }

  lemma {:induction false} NewerPushed() returns (es: seq<Event>)
    ensures IsRun(es) && OnlyPopper(es, 2) && ThreeBehind(Now(es))
  {
    var p := TwoTaken();
    es := PushAlone(p, 1, 3);
    PopperStays(p, es, 2);
    ThreeIsBehind(Now(p), Now(es));
  }

  lemma {:induction false} ThreeIsBehind(c: Config, d: Config)
    requires BothTaken(c) && Others(c, d, 1) && At(d.s, 1).Idle?
    requires Standing(d) == Ending(c.arrived + [3], c.left, [3] + c.a.shared, c.s.inside + {3})
    ensures ThreeBehind(d)
  {}

  /** Under concurrency the queue is not first-in first-out, even with one thread pushing and one
      popping: 1 and 2 are pushed, a pop takes both, 3 is pushed meanwhile, the pop returns 1 and its
      merge puts 2 in front of 3, and the next pop returns 3. */
  lemma {:induction false} OvertakingRun() returns (es: seq<Event>)
    ensures IsRun(es) && OnlyPopper(es, 2)
    ensures Arrivals(es) == [1, 2, 3] && Departures(es) == [1, 3]
  {
    var p := MergedRun();
    es := PopAlone(p, 2);
    PopperStays(p, es, 2);
    assert Returned(Now(p), [2, 3], []).left == [1, 3];
  }

  lemma {:induction false} MergedRun() returns (es: seq<Event>)
    ensures IsRun(es) && OnlyPopper(es, 2) && At(After(es), 2).Idle?
    ensures Standing(Now(es)) == Ending([1, 2, 3], [1], [2, 3], {2, 3})
  {
    var p := NewerPushed();
    MergeForetold(Now(p));
    es := FinishAlone(p, 2);
    PopperStays(p, es, 2);
  }

  lemma {:induction false} MergeForetold(c: Config)
    requires ThreeBehind(c)
    ensures Foretold(c, 2) == Ending([1, 2, 3], [1], [2, 3], {2, 3})
  {}

  /** With two threads popping no merge is needed: while thread 2 still carries 2 and 1, thread 3 pops
      and returns 3. */
  lemma {:induction false} OverlappingRun() returns (es: seq<Event>)
    ensures IsRun(es) && RoleOf(ViewOf(es), 2) == Holding([2, 1])
    ensures Arrivals(es) == [1, 2, 3] && Departures(es) == [3]
  {
    var p := NewerPushed();
    es := PopAlone(p, 3);
    assert Returned(Now(p), [3], []).left == [3];
  }

  /** A pop can fail although nodes were pushed and none was returned. */
  lemma {:induction false} FailingPopRun() returns (es: seq<Event>)
    ensures IsRun(es) && es != [] && Last(es) == PopFailed
    ensures After(es).inside == {1, 2} && Arrivals(es) == [1, 2] && Departures(es) == []
  {
    var p := TwoTaken();
    es := MissAlone(p, 3);
  }
}
