/** The law the lock-free queue obeys, stated on sequences: no pointers, no stale
    reads, no failing compare-exchange. A chain lists nodes newest first; a pop
    takes from its far end. */
module QueueSpec {

  import opened Sequences
  import opened QueueMachine

  datatype Role =
    | Quiet
    | Pushing(v: Node)                         // not linked yet
    | Popping                                  // has not touched head_ yet
    | Holding(chain: seq<Node>)                // took the whole shared chain
    | Merging(rest: seq<Node>, value: Node)    // cut off the last node, must give the rest back

  datatype View = View(shared: seq<Node>, roles: map<Tid, Role>)

  const EMPTY := View([], map[])

  function RoleOf(a: View, t: Tid): Role {
    if t in a.roles then a.roles[t] else Quiet
  }

  /** The nodes a thread keeps away from everybody else. */
  function Kept(r: Role): seq<Node> {
    match r
    case Quiet => []
    case Pushing(v) => [v]
    case Popping => []
    case Holding(chain) => chain
    case Merging(rest, value) => rest + [value]
  }

  ghost predicate Holds(a: View, n: Node) {
    n in a.shared || exists t :: n in Kept(RoleOf(a, t))
  }

  /** The effect of one machine step on the view. */
  datatype Effect =
    | Tau
    | BeginPush(v: Node)
    | BeginPop
    | Link(v: Node)      // push takes effect
    | Take               // pop empties the shared chain
    | Miss               // pop returns false
    | Detach             // pop cuts off the last node of a chain of two or more
    | Only(v: Node)      // pop returns the single node it took
    | Merge(v: Node)     // pop puts the rest in front of the shared chain and returns v

  ghost predicate Allowed(a: View, t: Tid, e: Effect) {
    var r := RoleOf(a, t);
    match e
    case Tau => true
    case BeginPush(v) => r == Quiet && v != NULL && !Holds(a, v)
    case BeginPop => r == Quiet
    case Link(v) => r == Pushing(v)
    case Take => r == Popping && a.shared != []
    case Miss => r == Popping && a.shared == []
    case Detach => r.Holding? && |r.chain| >= 2
    case Only(v) => r == Holding([v])
    case Merge(v) => r.Merging? && r.rest != [] && r.value == v
  }

  ghost function Become(a: View, t: Tid, r: Role): View {
    a.(roles := a.roles[t := r])
  }

  ghost function Apply(a: View, t: Tid, e: Effect): View
    requires Allowed(a, t, e)
  {
    var r := RoleOf(a, t);
    match e
    case Tau => a
    case BeginPush(v) => Become(a, t, Pushing(v))
    case BeginPop => Become(a, t, Popping)
    case Link(v) => Become(a, t, Quiet).(shared := [v] + a.shared)
    case Take => Become(a, t, Holding(a.shared)).(shared := [])
    case Miss => Become(a, t, Quiet)
    case Detach => Become(a, t, Merging(r.chain[..|r.chain| - 1], r.chain[|r.chain| - 1]))
    case Only(v) => Become(a, t, Quiet)
    case Merge(v) => Become(a, t, Quiet).(shared := r.rest + a.shared)
  }

  ghost predicate Apart(s: seq<Node>, r: seq<Node>) {
    forall n :: n in s ==> n !in r
  }

  /** Every node is in one place only: once in the shared chain, or once with one thread. */
  ghost predicate OnePlace(a: View) {
    && Distinct(a.shared)
    && NULL !in a.shared
    && (forall t :: Distinct(Kept(RoleOf(a, t))) && NULL !in Kept(RoleOf(a, t)))
    && (forall t :: Apart(Kept(RoleOf(a, t)), a.shared))
    && (forall t, u :: t != u ==> Apart(Kept(RoleOf(a, t)), Kept(RoleOf(a, u))))
  }

  lemma {:induction false} KeptByMerge(r: Role)
    requires r.Merging?
    ensures forall n :: n in Kept(r) <==> n in r.rest || n == r.value
    ensures Distinct(Kept(r)) ==> Distinct(r.rest) && r.value !in r.rest
  {
    var k := Kept(r);
    assert k[|r.rest|] == r.value;
    assert forall i :: 0 <= i < |r.rest| ==> k[i] == r.rest[i];
  }

  lemma {:induction false} ApplyKeepsOnePlace(a: View, t: Tid, e: Effect)
    requires OnePlace(a) && Allowed(a, t, e)
    ensures OnePlace(Apply(a, t, e))
  {
    var b := Apply(a, t, e);
    var r := RoleOf(a, t);
    assert forall u :: u != t ==> RoleOf(b, u) == RoleOf(a, u);
    match e
    case Detach =>
      assert r.chain == Kept(RoleOf(b, t));
    case Merge(v) =>
      KeptByMerge(r);
      assert Kept(RoleOf(b, t)) == [];
      forall i, j | 0 <= i < j < |b.shared| ensures b.shared[i] != b.shared[j] {
        assert i < |r.rest| ==> b.shared[i] in Kept(r);
      }
      forall u | u != t ensures Apart(Kept(RoleOf(b, u)), b.shared) {
        forall n | n in Kept(RoleOf(a, u)) ensures n !in b.shared {}
      }
    case BeginPush(v) =>
      forall u | u != t ensures v !in Kept(RoleOf(a, u)) {}
    case Link(v) =>
      assert v in Kept(r);
    case _ =>
  }

  /** What a step adds to and removes from the nodes the queue is responsible for. */
  lemma {:induction false} ApplyConserves(a: View, t: Tid, e: Effect, n: Node)
    requires OnePlace(a) && Allowed(a, t, e)
    ensures e == BeginPush(n) ==> !Holds(a, n) && Holds(Apply(a, t, e), n)
    ensures e == Only(n) || e == Merge(n) ==> Holds(a, n) && !Holds(Apply(a, t, e), n)
    ensures e != BeginPush(n) && e != Only(n) && e != Merge(n) ==> (Holds(Apply(a, t, e), n) <==> Holds(a, n))
  {
    var b := Apply(a, t, e);
    var r := RoleOf(a, t);
    HoldsByOne(a, t, n);
    HoldsByOne(b, t, n);
    OthersKeep(a, t, e, n);
    match e
    case Detach =>
      assert r.chain == Kept(RoleOf(b, t));
    case Merge(v) =>
      KeptByMerge(r);
    case _ =>
  }

  /** Some thread other than `t` keeps the node. */
  ghost predicate WithAnother(a: View, t: Tid, n: Node) {
    exists u :: u != t && n in Kept(RoleOf(a, u))
  }

  lemma {:induction false} HoldsByOne(a: View, t: Tid, n: Node)
    ensures Holds(a, n) <==> n in a.shared || n in Kept(RoleOf(a, t)) || WithAnother(a, t, n)
  {}

  lemma {:induction false} OthersKeep(a: View, t: Tid, e: Effect, n: Node)
    requires OnePlace(a) && Allowed(a, t, e)
    ensures WithAnother(Apply(a, t, e), t, n) <==> WithAnother(a, t, n)
    ensures WithAnother(a, t, n) ==> n !in a.shared && n !in Kept(RoleOf(a, t))
  {
    var b := Apply(a, t, e);
    assert forall u :: u != t ==> RoleOf(b, u) == RoleOf(a, u);
    assert forall u :: u != t && n in Kept(RoleOf(a, u)) ==> n in Kept(RoleOf(b, u));
  }
}
