/** Connecting to the first endpoint of a range that accepts: Operation_RangeConnect of
    unifex_IOCP_sockets.hpp. The operation owns storage for one child connect, which it constructs and
    destroys once per endpoint. A child may answer inside its own start, so that the next attempt is made
    from within the previous one, or later from the dispatcher. Both are modelled; which one happens, and
    with what answer, is the environment's choice for each endpoint. */
module RangeConnect {

  datatype Endpoint = Endpoint(address: nat, port: nat)

  datatype Outcome = Connected | Refused(ec: int)

  /** The environment's answer for one endpoint: `inside` when it comes while the child is being started. */
  datatype Answer = Answer(inside: bool, outcome: Outcome)

  datatype Event =
    | Construct(endpoint: Endpoint)
    | Destroy(endpoint: Endpoint)
    | SetValue(endpoint: Endpoint)
    | SetError(ec: int)

  /** std::error_code(-1): reported when there was nothing to try. */
  const EMPTY_RANGE: int := -1

  /** The first endpoint that accepts, or the number of endpoints when none does. */
  function FirstConnected(answers: seq<Answer>): (k: nat)
    ensures k <= |answers|
    ensures forall i :: 0 <= i < k ==> answers[i].outcome.Refused?
    ensures k < |answers| ==> answers[k].outcome.Connected?
  {
    if answers == [] || answers[0].outcome.Connected? then 0 else 1 + FirstConnected(answers[1..])
  }

  predicate AllRefuse(answers: seq<Answer>) {
    forall i :: 0 <= i < |answers| ==> answers[i].outcome.Refused?
  }

  /** What the receiver is told, said without the loop. */
  function Verdict(endpoints: seq<Endpoint>, answers: seq<Answer>): Event
    requires |endpoints| == |answers|
  {
    var k := FirstConnected(answers);
    if k < |endpoints| then SetValue(endpoints[k])
    else if answers == [] then SetError(EMPTY_RANGE)
    else SetError(answers[|answers| - 1].outcome.ec)
  }

  function Tried(endpoints: seq<Endpoint>, answers: seq<Answer>): (r: seq<Endpoint>)
    requires |endpoints| == |answers|
  {
    var k := FirstConnected(answers);
    if k < |endpoints| then endpoints[..k + 1] else endpoints
  }

  // ---------- reading a log ----------

  function Constructed(log: seq<Event>): seq<Endpoint> {
    if log == [] then []
    else
      var rest := Constructed(log[..|log| - 1]);
      match log[|log| - 1]
      case Construct(e) => rest + [e]
      case _ => rest
  }

  /** Children constructed and not yet destroyed; an event that destroys or signals out of turn makes it -1
      for good. */
  function Alive(log: seq<Event>): int {
    if log == [] then 0
    else
      var before := Alive(log[..|log| - 1]);
      match log[|log| - 1]
      case Construct(e) => if before == 0 then 1 else -1
      case Destroy(e) =>
        if before == 1 && log[..|log| - 1] != [] && log[|log| - 2] == Construct(e) then 0 else -1
      case _ => if before == 0 then 0 else -1
  }

  function Signals(log: seq<Event>): nat {
    if log == [] then 0
    else
      Signals(log[..|log| - 1]) + (if log[|log| - 1].SetValue? || log[|log| - 1].SetError? then 1 else 0)
  }

  /** A log in which the children of `tried` were constructed in that order, the last of them still alive
      when `alive`, and the receiver has not been told anything. */
  ghost predicate Attempting(log: seq<Event>, tried: seq<Endpoint>, alive: bool) {
    && Constructed(log) == tried
    && Alive(log) == (if alive then 1 else 0)
    && Signals(log) == 0
    && (alive ==> log != [] && tried != [] && log[|log| - 1] == Construct(tried[|tried| - 1]))
  }

  /** A complete log: the same children, none alive, and `verdict` told once, as the last event. */
  ghost predicate Complete(log: seq<Event>, tried: seq<Endpoint>, verdict: Event) {
    && log != []
    && Attempting(log[..|log| - 1], tried, false)
    && log[|log| - 1] == verdict
    && (verdict.SetValue? || verdict.SetError?)
  }

  /** In a complete log construction and destruction strictly alternate, each destruction naming the child
      constructed just before it, the one signal comes when no child is alive. */
  lemma {:induction false} CompleteAlternates(log: seq<Event>, n: nat)
    requires Alive(log) == 0 && n <= |log|
    ensures 0 <= Alive(log[..n]) <= 1
    ensures n < |log| && log[n].Construct? ==> n + 1 < |log| && log[n + 1] == Destroy(log[n].endpoint)
    ensures n < |log| && log[n].Destroy? ==> n > 0 && log[n - 1] == Construct(log[n].endpoint)
    ensures n < |log| && (log[n].SetValue? || log[n].SetError?) ==> Alive(log[..n]) == 0
  {
    AliveStays(log, n);
    if n < |log| {
      AliveStays(log, n + 1);
      AliveAfter(log, n);
      if log[n].Construct? {
        assert log[..|log|] == log;
        AliveStays(log, n + 2);
        AliveAfter(log, n + 1);
      }
    } else {
      assert log[..n] == log;
    }
  }

  /** What an event that was not out of turn says about its predecessor. */
  lemma {:induction false} AliveAfter(log: seq<Event>, n: nat)
    requires n < |log| && Alive(log[..n + 1]) >= 0
    ensures match log[n]
      case Construct(_) => Alive(log[..n]) == 0 && Alive(log[..n + 1]) == 1
      case Destroy(e) => Alive(log[..n]) == 1 && n > 0 && log[n - 1] == Construct(e)
      case _ => Alive(log[..n]) == 0 == Alive(log[..n + 1])
    ensures n > 0 && log[n - 1].Construct? && log[n].Destroy? ==> log[n] == Destroy(log[n - 1].endpoint)
  {
    var p := log[..n + 1];
    assert p[..|p| - 1] == log[..n] && p[|p| - 1] == log[n];
    assert n > 0 ==> p[|p| - 2] == log[n - 1];
  }

  /** Once out of turn, always out of turn. */
  lemma {:induction false} AliveStays(log: seq<Event>, n: nat)
    requires Alive(log) >= 0 && n <= |log|
    ensures Alive(log[..n]) >= 0
  {
    if n == |log| {
      assert log[..n] == log;
    } else {
      AliveStays(log[..|log| - 1], n);
      assert log[..|log| - 1][..n] == log[..n];
    }
  }

  lemma {:induction false} LogGrows(log: seq<Event>, e: Event)
    ensures (log + [e])[..|log|] == log
  {
  }

  lemma {:induction false} ConstructGrows(log: seq<Event>, tried: seq<Endpoint>, e: Endpoint)
    requires Attempting(log, tried, false)
    ensures Attempting(log + [Construct(e)], tried + [e], true)
  {
    LogGrows(log, Construct(e));
  }

  lemma {:induction false} FirstConnectedIs(answers: seq<Answer>, k: nat)
    requires k <= |answers|
    requires forall i :: 0 <= i < k ==> answers[i].outcome.Refused?
    requires k < |answers| ==> answers[k].outcome.Connected?
    ensures FirstConnected(answers) == k
  {
    if k > 0 {
      FirstConnectedIs(answers[1..], k - 1);
    }
  }

  // ---------- the operation ----------

  class Operation {
    const endpoints: seq<Endpoint>
    const answers: seq<Answer>
    var current: nat
    var lastError: int
    var childAlive: bool
    var log: seq<Event>

    ghost predicate Valid()
      reads this
    {
      && |answers| == |endpoints|
      && current <= |endpoints|
      && (childAlive ==> current < |endpoints|)
      && (forall i :: 0 <= i < current ==> answers[i].outcome.Refused?)
      && lastError == (if current == 0 then EMPTY_RANGE else answers[current - 1].outcome.ec)
      && Attempting(log, endpoints[..if childAlive then current + 1 else current], childAlive)
    }

    /** A child is alive and will answer from the dispatcher. */
    predicate Waiting()
      reads this
    {
      childAlive && current < |answers| && !answers[current].inside
    }

    ghost predicate Finished()
      reads this
    {
      && !childAlive
      && |answers| == |endpoints|
      && Complete(log, Tried(endpoints, answers), Verdict(endpoints, answers))
    }

    constructor (endpoints: seq<Endpoint>, answers: seq<Answer>)
      requires |endpoints| == |answers|
      ensures this.endpoints == endpoints && this.answers == answers
      ensures !childAlive && log == []
    {
      this.endpoints, this.answers := endpoints, answers;
      current, lastError, childAlive, log := 0, 0, false, [];
    }

    method Start()
      requires |endpoints| == |answers| && !childAlive && log == []
      modifies this
      ensures Finished() || (Valid() && Waiting())
    {
      lastError := EMPTY_RANGE;
      current := 0;
      StartNextConnect();
    }

    /** Either tells the receiver that the range is used up, or constructs a child for the current endpoint
        and starts it; the start may answer at once. */
    method StartNextConnect()
      requires Valid() && !childAlive
      modifies this
      ensures Finished() || (Valid() && Waiting() && current >= old(current))
      ensures old(current) == |endpoints| ==> log == old(log) + [SetError(old(lastError))]
      ensures old(current) < |endpoints| ==> old(log) + [Construct(endpoints[old(current)])] <= log
      decreases |endpoints| - current, 1
    {
      if current == |endpoints| {
        FirstConnectedIs(answers, current);
        LogGrows(log, SetError(lastError));
        log := log + [SetError(lastError)];
        assert endpoints[..current] == endpoints;
        return;
      }
      ConstructGrows(log, endpoints[..current], endpoints[current]);
      assert endpoints[..current] + [endpoints[current]] == endpoints[..current + 1];
      childAlive := true;
      log := log + [Construct(endpoints[current])];
      if answers[current].inside {
        OnAnswer();
      }
    }

    /** The child's receiver. */
    method OnAnswer()
      requires Valid() && childAlive
      modifies this
      ensures Finished() || (Valid() && Waiting() && current > old(current))
      ensures old(log) <= log
      decreases |endpoints| - current, 0
    {
      match answers[current].outcome
      case Connected => OnConnectSuccess();
      case Refused(ec) => OnConnectError(ec);
    }

    method OnConnectSuccess()
      requires Valid() && childAlive && answers[current].outcome.Connected?
      modifies this
      ensures Finished()
      ensures log == old(log) + [Destroy(endpoints[old(current)]), SetValue(endpoints[old(current)])]
    {
      DestroyStorage();
      FirstConnectedIs(answers, current);
      LogGrows(log, SetValue(endpoints[current]));
      log := log + [SetValue(endpoints[current])];
    }

    method OnConnectError(ec: int)
      requires Valid() && childAlive && answers[current].outcome == Refused(ec)
      modifies this
      ensures Finished() || (Valid() && Waiting() && current > old(current))
      ensures var next := old(current) + 1;
        if next == |endpoints| then log == old(log) + [Destroy(endpoints[next - 1]), SetError(ec)]
        else old(log) + [Destroy(endpoints[next - 1]), Construct(endpoints[next])] <= log
      decreases |endpoints| - current - 1, 2
    {
      DestroyStorage();
      lastError := ec;
      current := current + 1;
      StartNextConnect();
    }

    method DestroyStorage()
      requires Valid() && childAlive
      modifies `childAlive, `log
      ensures !childAlive && Attempting(log, endpoints[..current + 1], false)
      ensures log == old(log) + [Destroy(endpoints[current])]
    {
      LogGrows(log, Destroy(endpoints[current]));
      childAlive := false;
      log := log + [Destroy(endpoints[current])];
    }

    /** A whole run: the dispatcher delivers the answer of every child that waits for one. Whatever mix of
        immediate and dispatched answers, the receiver is told the verdict, once, at the end. */
    method Run() returns (verdict: Event)
      requires |endpoints| == |answers| && !childAlive && log == []
      modifies this
      ensures Finished()
      // The first endpoint that accepts, and none is tried after it.
      ensures forall k: nat :: k < |answers| && answers[k].outcome.Connected? && AllRefuse(answers[..k]) ==>
                verdict == SetValue(endpoints[k]) && Constructed(log) == endpoints[..k + 1]
      // If all refuse, all are tried, and the last error is told; if there is none to try, -1.
      ensures AllRefuse(answers) ==>
        && Constructed(log) == endpoints
        && verdict == SetError(if answers == [] then -1 else answers[|answers| - 1].outcome.ec)
      ensures Alive(log) == 0 && Signals(log) == 1 && log[|log| - 1] == verdict
    {
      Start();
      while Waiting()
        invariant Finished() || (Valid() && Waiting())
        decreases if childAlive then |endpoints| - current else 0
      {
        OnAnswer();
      }
      verdict := log[|log| - 1];
      forall k: nat | k < |answers| && answers[k].outcome.Connected? && AllRefuse(answers[..k])
        ensures verdict == SetValue(endpoints[k]) && Constructed(log) == endpoints[..k + 1]
      {
        assert forall i :: 0 <= i < k ==> answers[i] == answers[..k][i];
        FirstConnectedIs(answers, k);
      }
      if AllRefuse(answers) {
        FirstConnectedIs(answers, |answers|);
      }
    }
  }
}
