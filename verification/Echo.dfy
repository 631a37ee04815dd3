/** The echo program end to end: a client that writes scattered buffers and then reads,
    a server that reads everything and then writes it back, two bounded byte channels. */
module Echo {

  import opened ScatterGather
  import opened Sequences

  /** The bytes found at a list of addresses. */
  function Gather(memory: seq<Byte>, at: seq<nat>): (s: seq<Byte>)
    requires forall i :: 0 <= i < |at| ==> at[i] < |memory|
    ensures |s| == |at| && forall i :: 0 <= i < |at| ==> s[i] == memory[at[i]]
  {
    seq(|at|, i requires 0 <= i < |at| => memory[at[i]])
  }

  /** Memory with bytes stored at a list of addresses, one after the other. */
  function Store(memory: seq<Byte>, at: seq<nat>, bytes: seq<Byte>): (m: seq<Byte>)
    requires |at| == |bytes| && forall i :: 0 <= i < |at| ==> at[i] < |memory|
    ensures |m| == |memory|
    decreases |at|
  {
    if at == [] then memory else Store(memory[at[0] := bytes[0]], at[1..], bytes[1..])
  }

  // ---------- splitting the payload ----------

  function Whole(size: nat): seq<Buffer> {
    [Buffer(0, size)]
  }

  lemma {:induction false} WholeIsEverything(size: nat)
    ensures Total(Whole(size)) == size && |Flat(Whole(size))| == size
    ensures forall i :: 0 <= i < size ==> Flat(Whole(size))[i] == i
  {
    FlatLength(Whole(size));
    assert Whole(size)[1..] == [];
    assert Flat(Whole(size)) == Addresses(Buffer(0, size));
  }

  lemma {:induction false} AppendPiece(bs: seq<Buffer>, processed: nat, length: nat)
    requires Total(bs) == processed && Flat(bs) == Flat(Whole(processed))
    ensures var all := bs + [Buffer(processed, length)];
      Total(all) == processed + length && Flat(all) == Flat(Whole(processed + length))
  {
    var b := [Buffer(processed, length)];
    FlatConcat(bs, b);
    TotalConcat(bs, b);
    assert b[1..] == [];
    assert Flat(b) == Addresses(b[0]);
    WholeIsEverything(processed);
    WholeIsEverything(processed + length);
  }

  /** The client's buffers: consecutive pieces, all of the same size except perhaps the last. */
  method Split(size: nat, piece: nat) returns (bs: seq<Buffer>)
    requires piece > 0
    ensures Total(bs) == size && Flat(bs) == Flat(Whole(size))
    ensures forall i :: 0 <= i < |bs| ==> 0 < bs[i].len <= piece && (i + 1 < |bs| ==> bs[i].len == piece)
  {
    bs := [];
    var processed := 0;
    WholeIsEverything(0);
    while processed < size
      invariant processed <= size && Total(bs) == processed && Flat(bs) == Flat(Whole(processed))
      invariant forall i :: 0 <= i < |bs| ==> 0 < bs[i].len <= piece && (i + 1 < |bs| || processed < size ==> bs[i].len == piece)
    {
      var remaining := size - processed;
      var length := if remaining < piece then remaining else piece;
      AppendPiece(bs, processed, length);
      bs := bs + [Buffer(processed, length)];
      processed := processed + length;
    }
  }

  // ---------- the system ----------

  datatype Phase = First(rest: seq<Buffer>) | Second(rest: seq<Buffer>) | Finished

  /** The client writes `payload` from `buffers`, then reads into `readData`;
      the server reads into `serverData`, then writes it back. */
  datatype System = System(
    payload: seq<Byte>, buffers: seq<Buffer>, capacity: nat,
    client: Phase, readData: seq<Byte>,
    server: Phase, serverData: seq<Byte>,
    up: seq<Byte>, down: seq<Byte>)

  ghost predicate Start(s: System) {
    && s.capacity >= 1
    && Flat(s.buffers) == Flat(Whole(|s.payload|))
    && s.client == First(s.buffers) && |s.readData| == |s.payload|
    && s.server == First(Whole(|s.payload|)) && |s.serverData| == |s.payload|
    && s.up == [] && s.down == []
  }

  datatype Event = ClientSends(n: nat) | ServerReceives(n: nat) | ServerSends(n: nat) | ClientReceives(n: nat)

  /** A request moves at least one byte unless it asks for none. */
  predicate Moves(n: nat, rest: seq<Buffer>) {
    n <= Total(rest) && (n == 0 ==> Total(rest) == 0)
  }

  predicate Possible(s: System, e: Event) {
    match e
    case ClientSends(n) => s.client.First? && Moves(n, s.client.rest) && |s.up| + n <= s.capacity
    case ServerReceives(n) => s.server.First? && Moves(n, s.server.rest) && n <= |s.up|
    case ServerSends(n) => s.server.Second? && Moves(n, s.server.rest) && |s.down| + n <= s.capacity
    case ClientReceives(n) => s.client.Second? && Moves(n, s.client.rest) && n <= |s.down|
  }

  /** The phase after `n` bytes of its transfer: the same, the next one, or the end. */
  function Forward(p: Phase, n: nat, size: nat): Phase
    requires !p.Finished?
  {
    if n == Total(p.rest) then (if p.First? then Second(Whole(size)) else Finished)
    else p.(rest := Trim(p.rest, n))
  }

  function Next(s: System, e: Event): System
    requires Possible(s, e) && InBounds(s)
  {
    match e
    case ClientSends(n) =>
      s.(up := s.up + Gather(s.payload, Flat(s.client.rest)[..n]), client := Forward(s.client, n, |s.readData|))
    case ServerReceives(n) =>
      s.(up := s.up[n..],
         serverData := Store(s.serverData, Flat(s.server.rest)[..n], s.up[..n]),
         server := Forward(s.server, n, |s.serverData|))
    case ServerSends(n) =>
      s.(down := s.down + Gather(s.serverData, Flat(s.server.rest)[..n]), server := Forward(s.server, n, |s.serverData|))
    case ClientReceives(n) =>
      s.(down := s.down[n..],
         readData := Store(s.readData, Flat(s.client.rest)[..n], s.down[..n]),
         client := Forward(s.client, n, |s.readData|))
  }

  /** The descriptors in use name bytes of the arrays they stand for. */
  ghost predicate InBounds(s: System) {
    && |s.readData| == |s.serverData| == |s.payload|
    && (!s.client.Finished? ==> Covers(s.client.rest, |s.payload|))
    && (!s.server.Finished? ==> Covers(s.server.rest, |s.payload|))
  }

  /** What is left of a transfer of `size` bytes is exactly its tail, in order. */
  ghost predicate Covers(rest: seq<Buffer>, size: nat) {
    && |Flat(rest)| == Total(rest) <= size
    && forall i :: 0 <= i < |Flat(rest)| ==> Flat(rest)[i] == size - Total(rest) + i
  }

  // ---------- what holds in every state ----------

  function Sent(p: Phase, size: nat): int {
    if p.First? then size - Total(p.rest) else size
  }

  function Answered(p: Phase, size: nat): int {
    if p.First? then 0 else if p.Second? then size - Total(p.rest) else size
  }

  /** Each channel holds the bytes between the two cursors that face it, and each array
      is filled with the payload up to its cursor. */
  ghost predicate Inv(s: System) {
    var size := |s.payload|;
    var cw, sr, sw, cr := Sent(s.client, size), Sent(s.server, size), Answered(s.server, size), Answered(s.client, size);
    && InBounds(s) && s.capacity >= 1
    && 0 <= cr <= sw <= sr <= cw <= size
    && (s.server.First? ==> sw == 0) && (s.client.First? ==> cr == 0)
    && s.up == s.payload[sr..cw] && |s.up| <= s.capacity
    && s.down == s.payload[cr..sw] && |s.down| <= s.capacity
    && s.serverData[..sr] == s.payload[..sr]
    && s.readData[..cr] == s.payload[..cr]
    && Busy(s.client, size) && Busy(s.server, size)
  }

  /** An unfinished transfer has bytes to go, unless there never were any. */
  predicate Busy(p: Phase, size: nat) {
    !p.Finished? && Total(p.rest) == 0 ==> size == 0
  }

  lemma {:induction false} StoreRange(memory: seq<Byte>, from: nat, at: seq<nat>, bytes: seq<Byte>)
    requires |at| == |bytes| && from + |at| <= |memory|
    requires forall i :: 0 <= i < |at| ==> at[i] == from + i
    ensures Store(memory, at, bytes) == memory[..from] + bytes + memory[from + |at|..]
    decreases |at|
  {
    if at != [] {
      var m := memory[from := bytes[0]];
      StoreRange(m, from + 1, at[1..], bytes[1..]);
      assert m[..from + 1] == memory[..from] + [bytes[0]];
      assert bytes == [bytes[0]] + bytes[1..];
    }
  }

  lemma {:induction false} CoversTrim(rest: seq<Buffer>, size: nat, n: nat)
    requires Covers(rest, size) && n <= Total(rest)
    ensures Covers(Trim(rest, n), size) && Total(Trim(rest, n)) == Total(rest) - n
  {
    TrimDrops(rest, n);
  }

  lemma {:induction false} CoversWhole(size: nat)
    ensures Covers(Whole(size), size) && Total(Whole(size)) == size
  {
    WholeIsEverything(size);
  }

  lemma {:induction false} StartIsInv(s: System)
    requires Start(s)
    ensures Inv(s)
  {
    CoversWhole(|s.payload|);
    FlatLength(s.buffers);
  }

  /** What moving `n` bytes does to a phase: its cursor, what it covers, and the work left. */
  lemma {:induction false} ForwardMoves(p: Phase, size: nat, n: nat)
    requires !p.Finished? && Covers(p.rest, size) && Moves(n, p.rest) && Busy(p, size)
    ensures var q := Forward(p, n, size);
      && Sent(q, size) == (if p.First? then Sent(p, size) + n else size)
      && Answered(q, size) == (if p.Second? then Answered(p, size) + n else 0)
      && (!q.Finished? ==> Covers(q.rest, size)) && Busy(q, size)
      && (q.First? ==> p.First?) && (p.First? ==> !q.Finished?)
      && Work(q, size) < Work(p, size)
  {
    CoversWhole(size);
    CoversTrim(p.rest, size, n);
  }

  lemma {:induction false} GatherTail(memory: seq<Byte>, rest: seq<Buffer>, n: nat)
    requires Covers(rest, |memory|) && n <= Total(rest)
    ensures var k := |memory| - Total(rest);
      Gather(memory, Flat(rest)[..n]) == memory[k..k + n]
  {}

  lemma {:induction false} TailAddresses(rest: seq<Buffer>, size: nat, n: nat)
    requires Covers(rest, size) && n <= Total(rest)
    ensures var k, at := size - Total(rest), Flat(rest)[..n];
      |at| == n && k + n <= size && forall i :: 0 <= i < n ==> at[i] == k + i
  {}

  lemma {:induction false} StoreTail(memory: seq<Byte>, rest: seq<Buffer>, n: nat, bytes: seq<Byte>, goal: seq<Byte>)
    requires Covers(rest, |memory|) && n <= Total(rest) && |bytes| == n && |goal| == |memory|
    requires var k := |memory| - Total(rest);
      memory[..k] == goal[..k] && bytes == goal[k..k + n]
    ensures var k := |memory| - Total(rest);
      Store(memory, Flat(rest)[..n], bytes)[..k + n] == goal[..k + n]
  {
    var k, at := |memory| - Total(rest), Flat(rest)[..n];
    TailAddresses(rest, |memory|, n);
    StoreAt(memory, k, at, bytes, goal);
  }

  lemma {:induction false} StoreAt(memory: seq<Byte>, k: nat, at: seq<nat>, bytes: seq<Byte>, goal: seq<Byte>)
    requires |at| == |bytes| && k + |at| <= |memory| == |goal| && forall i :: 0 <= i < |at| ==> at[i] == k + i
    requires memory[..k] == goal[..k] && bytes == goal[k..k + |bytes|]
    ensures Store(memory, at, bytes)[..k + |at|] == goal[..k + |at|]
  {
    StoreRange(memory, k, at, bytes);
    Splice(memory, k, bytes, goal);
  }

  lemma {:induction false} Splice(memory: seq<Byte>, k: nat, bytes: seq<Byte>, goal: seq<Byte>)
    requires k + |bytes| <= |memory| == |goal| && memory[..k] == goal[..k] && bytes == goal[k..k + |bytes|]
    ensures (memory[..k] + bytes + memory[k + |bytes|..])[..k + |bytes|] == goal[..k + |bytes|]
  {}

  lemma {:induction false} Append(s: seq<Byte>, i: nat, j: nat, k: nat)
    requires i <= j <= k <= |s|
    ensures s[i..j] + s[j..k] == s[i..k]
  {}

  /** Sending moves the next n bytes of the array into a channel that holds the ones before them. */
  lemma {:induction false} SendTail(channel: seq<Byte>, memory: seq<Byte>, rest: seq<Buffer>, n: nat, from: nat)
    requires Covers(rest, |memory|) && n <= Total(rest)
    requires from <= |memory| - Total(rest) && channel == memory[from..|memory| - Total(rest)]
    ensures channel + Gather(memory, Flat(rest)[..n]) == memory[from..|memory| - Total(rest) + n]
  {
    GatherTail(memory, rest, n);
    var k := |memory| - Total(rest);
    Append(memory, from, k, k + n);
  }

  lemma {:induction false} Cut(s: seq<Byte>, i: nat, j: nat, n: nat)
    requires i + n <= j <= |s|
    ensures s[i..j][..n] == s[i..i + n] && s[i..j][n..] == s[i + n..j]
  {}

  /** Receiving moves the next n bytes out of a channel to where they belong. */
  lemma {:induction false} ReceiveTail(channel: seq<Byte>, memory: seq<Byte>, goal: seq<Byte>, rest: seq<Buffer>, n: nat, to: nat)
    requires Covers(rest, |memory|) && n <= Total(rest) && |goal| == |memory|
    requires var k := |memory| - Total(rest);
      memory[..k] == goal[..k] && k + n <= to <= |goal| && channel == goal[k..to]
    ensures var k := |memory| - Total(rest);
      && channel[n..] == goal[k + n..to]
      && Store(memory, Flat(rest)[..n], channel[..n])[..k + n] == goal[..k + n]
  {
    var k := |memory| - Total(rest);
    Cut(goal, k, to, n);
    StoreTail(memory, rest, n, channel[..n], goal);
  }

  lemma {:induction false} ClientSendsData(s: System, n: nat)
    requires Inv(s) && Possible(s, ClientSends(n))
    ensures var size, s' := |s.payload|, Next(s, ClientSends(n));
      var sr, cw := Sent(s.server, size), Sent(s.client, size);
      && InBounds(s') && Sent(s'.client, size) == cw + n <= size
      && s'.up == s.payload[sr..cw + n] && |s'.up| <= s.capacity
  {
    var size := |s.payload|;
    ForwardMoves(s.client, size, n);
    SendTail(s.up, s.payload, s.client.rest, n, Sent(s.server, size));
  }

  lemma {:induction false} ClientSendsKeepsInv(s: System, n: nat)
    requires Inv(s) && Possible(s, ClientSends(n))
    ensures Inv(Next(s, ClientSends(n)))
  {
    ClientSendsData(s, n);
    ForwardMoves(s.client, |s.payload|, n);
  }

  lemma {:induction false} ServerReceivesData(s: System, n: nat)
    requires Inv(s) && Possible(s, ServerReceives(n))
    ensures var size, s' := |s.payload|, Next(s, ServerReceives(n));
      var sr, cw := Sent(s.server, size), Sent(s.client, size);
      && InBounds(s') && Sent(s'.server, size) == sr + n <= cw
      && s'.up == s.payload[sr + n..cw]
      && s'.serverData[..sr + n] == s.payload[..sr + n]
  {
    var size := |s.payload|;
    ForwardMoves(s.server, size, n);
    ReceiveTail(s.up, s.serverData, s.payload, s.server.rest, n, Sent(s.client, size));
  }

  lemma {:induction false} ServerReceivesKeepsInv(s: System, n: nat)
    requires Inv(s) && Possible(s, ServerReceives(n))
    ensures Inv(Next(s, ServerReceives(n)))
  {
    ServerReceivesData(s, n);
    ForwardMoves(s.server, |s.payload|, n);
  }

  lemma {:induction false} ServerIsFull(s: System)
    requires Inv(s) && !s.server.First?
    ensures s.serverData == s.payload
  {
    assert s.serverData == s.serverData[..|s.payload|] && s.payload == s.payload[..|s.payload|];
  }

  lemma {:induction false} ChannelSizes(s: System)
    requires Inv(s)
    ensures var size := |s.payload|;
      && |s.up| == Sent(s.client, size) - Sent(s.server, size)
      && |s.down| == Answered(s.server, size) - Answered(s.client, size)
  {}

  lemma {:induction false} ServerSendsData(s: System, n: nat)
    requires Inv(s) && Possible(s, ServerSends(n))
    ensures var size, s' := |s.payload|, Next(s, ServerSends(n));
      var cr, sw := Answered(s.client, size), Answered(s.server, size);
      && InBounds(s') && Answered(s'.server, size) == sw + n <= size
      && s'.down == s.payload[cr..sw + n] && |s'.down| <= s.capacity
  {
    var size := |s.payload|;
    ForwardMoves(s.server, size, n);
    ServerIsFull(s);
    SendTail(s.down, s.serverData, s.server.rest, n, Answered(s.client, size));
  }

  lemma {:induction false} ServerSendsKeepsInv(s: System, n: nat)
    requires Inv(s) && Possible(s, ServerSends(n))
    ensures Inv(Next(s, ServerSends(n)))
  {
    ServerSendsData(s, n);
    ForwardMoves(s.server, |s.payload|, n);
  }

  lemma {:induction false} ClientReceivesData(s: System, n: nat)
    requires Inv(s) && Possible(s, ClientReceives(n))
    ensures var size, s' := |s.payload|, Next(s, ClientReceives(n));
      var cr, sw := Answered(s.client, size), Answered(s.server, size);
      && InBounds(s') && Answered(s'.client, size) == cr + n <= sw
      && s'.down == s.payload[cr + n..sw]
      && s'.readData[..cr + n] == s.payload[..cr + n]
  {
    var size := |s.payload|;
    ForwardMoves(s.client, size, n);
    ReceiveTail(s.down, s.readData, s.payload, s.client.rest, n, Answered(s.server, size));
  }

  lemma {:induction false} ClientReceivesKeepsInv(s: System, n: nat)
    requires Inv(s) && Possible(s, ClientReceives(n))
    ensures Inv(Next(s, ClientReceives(n)))
  {
    ClientReceivesData(s, n);
    ForwardMoves(s.client, |s.payload|, n);
  }

  lemma {:induction false} StepKeepsInv(s: System, e: Event)
    requires Inv(s) && Possible(s, e)
    ensures Inv(Next(s, e))
  {
    match e
    case ClientSends(n) => ClientSendsKeepsInv(s, n);
    case ServerReceives(n) => ServerReceivesKeepsInv(s, n);
    case ServerSends(n) => ServerSendsKeepsInv(s, n);
    case ClientReceives(n) => ClientReceivesKeepsInv(s, n);
  }

  // ---------- progress and the result ----------

  predicate Over(s: System) {
    s.client.Finished? && s.server.Finished?
  }

  /** No deadlock: until both sides are finished some request can move. */
  lemma {:induction false} NeverStuck(s: System) returns (e: Event)
    requires Inv(s) && !Over(s)
    ensures Possible(s, e)
  {
    ChannelSizes(s);
    if s.client.First? && (|s.up| < s.capacity || Total(s.client.rest) == 0) {
      e := ClientSends(if Total(s.client.rest) == 0 then 0 else 1);
    } else if s.server.First? {
      e := ServerReceives(if Total(s.server.rest) == 0 then 0 else 1);
    } else if s.client.Second? && (|s.down| > 0 || Total(s.client.rest) == 0) {
      e := ClientReceives(if Total(s.client.rest) == 0 then 0 else 1);
    } else {
      e := ServerSends(if Total(s.server.rest) == 0 then 0 else 1);
    }
  }

  function Work(p: Phase, size: nat): nat {
    match p
    case First(rest) => Total(rest) + size + 2
    case Second(rest) => Total(rest) + 1
    case Finished => 0
  }

  lemma {:induction false} WorkShrinks(s: System, e: Event)
    requires Inv(s) && Possible(s, e)
    ensures var size, s' := |s.payload|, Next(s, e);
      Work(s'.client, size) + Work(s'.server, size) < Work(s.client, size) + Work(s.server, size)
  {
    match e
    case ClientSends(n) => ForwardMoves(s.client, |s.payload|, n);
    case ServerReceives(n) => ForwardMoves(s.server, |s.payload|, n);
    case ServerSends(n) => ForwardMoves(s.server, |s.payload|, n);
    case ClientReceives(n) => ForwardMoves(s.client, |s.payload|, n);
  }

  ghost predicate IsRun(s: System, es: seq<Event>)
    requires Inv(s)
    decreases |es|
  {
    es != [] ==> Possible(s, es[0]) && (StepKeepsInv(s, es[0]); IsRun(Next(s, es[0]), es[1..]))
  }

  ghost function Finally(s: System, es: seq<Event>): (f: System)
    requires Inv(s) && IsRun(s, es)
    ensures Inv(f) && f.payload == s.payload
    decreases |es|
  {
    if es == [] then s
    else
      StepKeepsInv(s, es[0]);
      Finally(Next(s, es[0]), es[1..])
  }

  lemma {:induction false} RunsAreShort(s: System, es: seq<Event>)
    requires Inv(s) && IsRun(s, es)
    ensures |es| + Work(Finally(s, es).client, |s.payload|) + Work(Finally(s, es).server, |s.payload|)
         <= Work(s.client, |s.payload|) + Work(s.server, |s.payload|)
    decreases |es|
  {
    if es != [] {
      StepKeepsInv(s, es[0]);
      WorkShrinks(s, es[0]);
      RunsAreShort(Next(s, es[0]), es[1..]);
    }
  }

  /** The echo theorem, for every payload, every way to cut it into buffers, every channel
      capacity and every sequence of partial transfers: the run is finite, it can go on until both
      sides are finished, and then both arrays hold the payload and nothing is left in transit. */
  lemma {:induction false} EchoIsFaithful(s: System, es: seq<Event>)
    requires Start(s)
    ensures Inv(s)
    ensures IsRun(s, es) ==>
      && |es| <= 4 * |s.payload| + 4
      && var f := Finally(s, es);
         && (Over(f) <==> !exists e :: Possible(f, e))
         && (Over(f) ==> f.readData == s.payload && f.serverData == s.payload && f.up == [] && f.down == [])
  {
    StartIsInv(s);
    if IsRun(s, es) {
      RunsAreShort(s, es);
      CoversWhole(|s.payload|);
      FlatLength(s.buffers);
      var f := Finally(s, es);
      if !Over(f) {
        var e := NeverStuck(f);
      } else {
        assert f.readData == f.readData[..|s.payload|] && f.serverData == f.serverData[..|s.payload|];
        assert s.payload == s.payload[..|s.payload|];
      }
    }
  }
}
