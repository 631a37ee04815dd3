/** Scatter/gather transfers: an array of buffer descriptors that shrinks in place while
    bytes move, against one flat sequence of addresses with a cursor. */
module ScatterGather {

  import opened OnceInN

  /** WSABUF: where the bytes are and how many. */
  datatype Buffer = Buffer(start: nat, len: nat)

  function Addresses(b: Buffer): (s: seq<nat>)
    ensures |s| == b.len && forall i :: 0 <= i < b.len ==> s[i] == b.start + i
  {
    seq(b.len, i requires 0 <= i => b.start + i)
  }

  /** The addresses a list of buffers covers, in transfer order. */
  function Flat(bs: seq<Buffer>): seq<nat> {
    if bs == [] then [] else Addresses(bs[0]) + Flat(bs[1..])
  }

  function Total(bs: seq<Buffer>): nat {
    if bs == [] then 0 else bs[0].len + Total(bs[1..])
  }

  lemma {:induction false} FlatLength(bs: seq<Buffer>)
    ensures |Flat(bs)| == Total(bs)
  {
    if bs != [] {
      FlatLength(bs[1..]);
    }
  }

  lemma {:induction false} TotalConcat(p: seq<Buffer>, q: seq<Buffer>)
    ensures Total(p + q) == Total(p) + Total(q)
  {
    if p == [] {
      assert p + q == q;
    } else {
      TotalConcat(p[1..], q);
      assert (p + q)[1..] == p[1..] + q;
    }
  }

  lemma {:induction false} FlatConcat(p: seq<Buffer>, q: seq<Buffer>)
    ensures Flat(p + q) == Flat(p) + Flat(q)
  {
    if p == [] {
      assert p + q == q;
    } else {
      calc {
        Flat(p + q);
      ==  { assert (p + q)[0] == p[0] && (p + q)[1..] == p[1..] + q; }
        Addresses(p[0]) + Flat(p[1..] + q);
      ==  { FlatConcat(p[1..], q); }
        Addresses(p[0]) + (Flat(p[1..]) + Flat(q));
      ==
        Flat(p) + Flat(q);
      }
    }
  }

  /** The descriptors left after the first `n` bytes. */
  function Trim(bs: seq<Buffer>, n: nat): seq<Buffer> {
    if n >= Total(bs) then []
    else if bs[0].len <= n then Trim(bs[1..], n - bs[0].len)
    else [Buffer(bs[0].start + n, bs[0].len - n)] + bs[1..]
  }

  /** Trimming is dropping from the flat sequence, and leaves a first buffer to fill. */
  lemma {:induction false} TrimDrops(bs: seq<Buffer>, n: nat)
    requires n <= Total(bs)
    ensures |Flat(bs)| == Total(bs) && Flat(Trim(bs, n)) == Flat(bs)[n..]
    ensures Total(Trim(bs, n)) == Total(bs) - n
    ensures n < Total(bs) ==> Trim(bs, n) != [] && Trim(bs, n)[0].len > 0
  {
    FlatLength(bs);
    if n < Total(bs) {
      if bs[0].len <= n {
        TrimDrops(bs[1..], n - bs[0].len);
      } else {
        var b := Buffer(bs[0].start + n, bs[0].len - n);
        assert ([b] + bs[1..])[1..] == bs[1..];
        assert Addresses(b) == Addresses(bs[0])[n..];
      }
    }
  }

  lemma {:induction false} TrimTwice(bs: seq<Buffer>, m: nat, n: nat)
    requires m + n <= Total(bs)
    ensures Trim(Trim(bs, m), n) == Trim(bs, m + n)
  {
    if m < Total(bs) {
      TrimDrops(bs, m);
      if bs[0].len <= m {
        TrimTwice(bs[1..], m - bs[0].len, n);
      } else {
        var b := Buffer(bs[0].start + m, bs[0].len - m);
        assert ([b] + bs[1..])[1..] == bs[1..];
      }
    }
  }

  lemma {:induction false} PrefixGrows(bs: seq<Buffer>, m: nat, n: nat)
    requires m + n <= |Flat(bs)|
    ensures Flat(bs)[..m] + Flat(bs)[m..][..n] == Flat(bs)[..m + n]
  {}

  lemma {:induction false} FlatEnd(bs: seq<Buffer>)
    ensures |Flat(bs)| == Total(bs) && Flat(bs)[..Total(bs)] == Flat(bs) && Trim(bs, Total(bs)) == []
  {
    FlatLength(bs);
  }

  predicate HasData(bs: seq<Buffer>) {
    exists i :: 0 <= i < |bs| && bs[i].len > 0
  }

  lemma {:induction false} HasDataIsTotal(bs: seq<Buffer>)
    ensures HasData(bs) <==> Total(bs) > 0
  {
    if bs != [] {
      HasDataIsTotal(bs[1..]);
      assert HasData(bs) <==> bs[0].len > 0 || HasData(bs[1..]) by {
        assert forall i :: 1 <= i < |bs| ==> bs[i] == bs[1..][i - 1];
      }
    }
  }

  datatype Cache = Unknown | Known(total: nat)

  /** What one read or write request reports. */
  datatype Outcome = Bytes(n: nat) | Failed(code: int) | Stopped

  /** What becomes of the whole operation: what the receiver is told, or that the closing assert
      of consume has failed, or that it is still under way. */
  datatype Completion = Value(total: nat) | Error(code: int) | Done | Broken | Running

  /** on_received and on_sent: a read that was offered room and got nothing has failed. */
  function Report(reading: bool, outcome: Outcome, hasData: bool): Outcome {
    if outcome == Bytes(0) && reading && hasData then Failed(-1) else outcome
  }

  const ONCE_IN: nat := 128

  /** The answers of the kernel, by the number of the request and the bytes on offer. */
  type Kernel = (nat, nat) -> Outcome

  /** It moves no more than it is offered. */
  ghost predicate Bounded(kernel: Kernel) {
    forall i: nat, offered: nat :: kernel(i, offered).Bytes? ==> kernel(i, offered).n <= offered
  }

  /** It moves something whenever something is on offer. */
  ghost predicate Progresses(kernel: Kernel) {
    forall i: nat, offered: nat :: kernel(i, offered) == Bytes(0) ==> offered == 0
  }

  ghost predicate Stalls(kernel: Kernel) {
    forall i: nat, offered: nat :: kernel(i, offered) == Bytes(0)
  }

  ghost predicate ByteByByte(kernel: Kernel) {
    forall i: nat, offered: nat :: offered > 0 ==> kernel(i, offered) == Bytes(1)
  }

  /** How many starts in a row have not gone to the port. */
  function Streak(c: Counter): (k: nat)
    ensures k < ONCE_IN
  {
    c % ONCE_IN
  }

  lemma {:induction false} StreakGrows(c: Counter)
    ensures Streak(Advance(c)) == if SelectsPort(Advance(c), ONCE_IN) then 0 else Streak(c) + 1
  {}

  class Transfer {
    const buffers: array<Buffer>
    ghost const original: seq<Buffer>
    var total: Cache
    var processed: nat
    var current: nat
    var calls: Counter

    /** How many bytes make the operation complete: what the caller claims, or else the sum. */
    ghost function Goal(): nat
      reads this`total
    {
      if total.Known? then total.total else Total(original)
    }

    /** Between two transfers, at least one of which has been consumed. Once the goal is reached
        nothing is on offer any more. */
    ghost predicate Valid()
      reads this, buffers
    {
      && current <= buffers.Length
      && processed <= Total(original)
      && total.Known?
      && buffers[current..] == if processed >= Goal() then [] else Trim(original, processed)
    }

    /** Before any byte has moved: leading empty buffers are not skipped yet,
        and the total may not have been added up yet. */
    ghost predicate Fresh()
      reads this, buffers
    {
      && current == 0 && processed == 0
      && buffers[..] == original
    }

    /** Before the goal is reached. */
    ghost predicate Underway()
      reads this, buffers
    {
      Fresh() || (Valid() && processed < Goal())
    }

    function Remaining(): seq<Buffer>
      requires current <= buffers.Length
      reads this, buffers
    {
      buffers[current..]
    }

    constructor (bs: array<Buffer>)
      ensures Fresh() && calls == 0 && buffers == bs && original == bs[..] && Goal() == Total(bs[..])
    {
      buffers := bs;
      original := bs[..];
      total := Unknown;
      processed, current, calls := 0, 0, 0;
    }

    /** With the caller's word for the total, whatever it is. */
    constructor WithTotal(bs: array<Buffer>, size: nat)
      ensures Fresh() && calls == 0 && buffers == bs && original == bs[..] && Goal() == size
    {
      buffers := bs;
      original := bs[..];
      total := Known(size);
      processed, current, calls := 0, 0, 0;
    }

    method TotalSize() returns (size: nat)
      requires total.Unknown? ==> buffers[..] == original
      modifies this`total
      ensures size == old(Goal()) && total == Known(size)
    {
      if total.Unknown? {
        var sum := 0;
        var i := 0;
        while i < buffers.Length
          invariant i <= buffers.Length && sum == Total(buffers[..i])
        {
          assert buffers[..i + 1] == buffers[..i] + [buffers[i]];
          TotalConcat(buffers[..i], [buffers[i]]);
          sum := sum + buffers[i].len;
          i := i + 1;
        }
        assert buffers[..i] == buffers[..];
        total := Known(sum);
      }
      size := total.total;
    }

    /** `n` bytes of what was offered have moved: shrink the descriptors in place. `holds` is the closing
        assert, which fails exactly when all bytes have moved and the goal is still ahead. */
    method Consume(n: nat) returns (holds: bool)
      requires Underway() && n <= Total(Remaining())
      modifies this`total, this`processed, this`current, buffers
      ensures Valid() && processed == old(processed) + n && Goal() == old(Goal())
      ensures holds <==> processed >= Goal() || processed < Total(original)
      ensures processed < Goal() ==> Remaining() == Trim(old(Remaining()), n)
      ensures current >= old(current)
      ensures forall i :: 0 <= i < current && i < buffers.Length ==> buffers[i] == old(buffers[i])
      ensures holds && processed < Goal() ==> Remaining() != [] && Remaining()[0].len > 0
    {
      ghost var trimmed := Trim(Remaining(), n);
      AfterTransfer(n);
      processed := processed + n;
      var size := TotalSize();
      if processed >= size {
        current := buffers.Length;
        return true;
      }
      holds := Shrink(n, trimmed);
    }

    /** The loop of consume and its closing assert. */
    method Shrink(n: nat, ghost trimmed: seq<Buffer>) returns (holds: bool)
      requires current <= buffers.Length && n <= Total(buffers[current..]) && trimmed == Trim(buffers[current..], n)
      modifies this`current, buffers
      ensures old(current) <= current <= buffers.Length
      ensures buffers[current..] == trimmed
      ensures forall i :: 0 <= i < current ==> buffers[i] == old(buffers[i])
      ensures holds <==> n < old(Total(buffers[current..]))
    {
      ghost var rest := buffers[current..];
      var bytes: nat := n;
      while current != buffers.Length
        invariant old(current) <= current <= buffers.Length && buffers[..] == old(buffers[..])
        invariant bytes <= Total(buffers[current..]) && Trim(buffers[current..], bytes) == trimmed
        invariant bytes < Total(buffers[current..]) <==> n < Total(rest)
        decreases buffers.Length - current
      {
        assert buffers[current..][1..] == buffers[current + 1..];
        if buffers[current].len <= bytes {
          bytes := bytes - buffers[current].len;
          current := current + 1;
          continue;
        }
        var b := buffers[current];
        buffers[current] := Buffer(b.start + bytes, b.len - bytes);
        assert buffers[current..] == [Buffer(b.start + bytes, b.len - bytes)] + buffers[current + 1..];
        break;
      }
      holds := current != buffers.Length;
    }

    /** Until the operation is over, and also then if the goal is the true total: what is processed and what
        remains add up, byte for byte. */
    lemma {:induction false} RestIsTrim(n: nat)
      requires Underway() || (Valid() && Goal() == Total(original))
      ensures Total(Remaining()) == Total(original) - processed
      ensures processed <= |Flat(original)| && Flat(Remaining()) == Flat(original)[processed..]
      ensures n <= Total(Remaining()) ==> Trim(Remaining(), n) == Trim(original, processed + n)
    {
      TrimDrops(original, processed);
      if Fresh() {
        assert Remaining() == original;
      } else if n <= Total(Remaining()) {
        TrimTwice(original, processed, n);
      }
    }

    /** What a transfer of `n` bytes leaves. */
    lemma {:induction false} AfterTransfer(n: nat)
      requires Underway() && n <= Total(Remaining())
      ensures processed + n <= Total(original) && Trim(Remaining(), n) == Trim(original, processed + n)
      ensures n < Total(Remaining()) <==> processed + n < Total(original)
      ensures n < Total(Remaining()) ==> Trim(Remaining(), n) != [] && Trim(Remaining(), n)[0].len > 0
    {
      RestIsTrim(n);
      TrimDrops(Remaining(), n);
    }

    method IsCompleted() returns (done: bool)
      requires Valid()
      modifies this`total
      ensures Valid() && Goal() == old(Goal()) && (done <==> processed >= Goal())
    {
      var size := TotalSize();
      done := processed >= size;
    }

    /** The bytes moved so far are the first `processed` of the flat sequence. */
    ghost predicate Accounts(moved: seq<nat>)
      reads this`processed
    {
      |moved| == processed <= |Flat(original)| && moved == Flat(original)[..processed]
    }

    /** The continuation of one request: consume what it moved and ask whether that was all. */
    method Accept(n: nat, ghost moved: seq<nat>) returns (holds: bool, done: bool, ghost more: seq<nat>)
      requires Underway() && n <= Total(Remaining()) && Accounts(moved)
      modifies this`total, this`processed, this`current, buffers
      ensures Valid() && processed == old(processed) + n && Accounts(more) && moved <= more && Goal() == old(Goal())
      ensures holds <==> processed >= Goal() || processed < Total(original)
      ensures done <==> processed >= Goal()
      ensures processed == Total(original) ==> more == Flat(original)
    {
      RestIsTrim(n);
      TrimDrops(Remaining(), n);
      PrefixGrows(original, processed, n);
      more := moved + Flat(Remaining())[..n];
      holds := Consume(n);
      done := IsCompleted();
      FlatEnd(original);
    }

    /** One request: offer what remains, take the kernel's answer. The result is Running when there is to be
        another one. */
    method Turn(reading: bool, kernel: Kernel, i: nat, ghost moved: seq<nat>)
      returns (r: Completion, ghost more: seq<nat>, last: Outcome)
      requires Underway() && Accounts(moved) && Bounded(kernel)
      modifies this`total, this`processed, this`current, buffers
      ensures last == kernel(i, Total(original) - old(processed))
      ensures processed == old(processed) + (if r.Done? || r.Error? then 0 else if last.Bytes? then last.n else 0)
      ensures Accounts(more) && Goal() == old(Goal()) && (r.Done? || r.Error? || Valid())
      ensures r ==
        if last.Stopped? then Done
        else if last.Failed? then Error(last.code)
        else if reading && last == Bytes(0) && old(processed) < Total(original) then Error(-1)
        else if processed >= Goal() then Value(processed)
        else if processed == Total(original) then Broken
        else Running
    {
      RestIsTrim(0);
      HasDataIsTotal(Remaining());
      var room := HasData(Remaining());
      assert room <==> processed < Total(original);
      last := kernel(i, Total(Remaining()));
      more := moved;
      var report := Report(reading, last, room);
      if report.Stopped? {
        return Done, more, last;
      }
      if report.Failed? {
        return Error(report.code), more, last;
      }
      var holds, done;
      holds, done, more := Accept(report.n, moved);
      r := if !holds then Broken else if done then Value(processed) else Running;
    }

    /** The whole read or write, watched for at most `requests` requests. `last` is the kernel's last answer and
        `issued` how many it gave. `moved` lists the addresses the bytes went to or came from, and `inline` is the
        longest streak of requests issued without going back to the port. */
    method Run(reading: bool, kernel: Kernel, requests: nat)
      returns (r: Completion, ghost moved: seq<nat>, ghost inline: nat, last: Outcome, issued: nat)
      requires Fresh() && calls == 0 && Bounded(kernel)
      modifies this, buffers
      ensures Accounts(moved) && Goal() == old(Goal()) && issued <= requests && inline < 128
      // Success: the goal is reached; when it is the true total, all bytes moved, in order.
      ensures r.Value? ==> r == Value(processed) && processed >= Goal() && Valid()
      ensures r.Value? && Goal() == Total(original) ==> r == Value(Total(original)) && moved == Flat(original)
      // The closing assert fails only for a claim beyond what there is, and such a claim never succeeds.
      ensures r.Broken? ==> processed == Total(original) < Goal()
      ensures Total(original) < Goal() ==> !r.Value?
      // Otherwise the last answer decides.
      ensures !r.Running? ==> (r.Done? <==> last.Stopped?)
      ensures !r.Running? ==> (r.Error? <==> last.Failed? || (reading && last == Bytes(0) && processed < Total(original)))
      ensures r.Error? ==> r == Error(if last.Failed? then last.code else -1)
      // A read always ends, and so does a write whose sends make progress; one whose sends stall does not.
      ensures r.Running? ==> issued == requests
      ensures (reading || Progresses(kernel)) && requests > Total(original) ==> !r.Running?
      ensures !reading && Stalls(kernel) && 0 < Goal() && 0 < Total(original) ==> r.Running?
      // A claim below the true total can end the operation that early.
      ensures ByteByByte(kernel) && 0 < Goal() <= Total(original) && requests >= Goal() ==> r == Value(Goal())
    {
      moved, inline, last, issued, r := [], 0, Stopped, 0, Running;
      ghost var streak := 0;
      while issued < requests && r.Running?
        invariant r.Running? ==> Fresh() || (Valid() && processed < Goal() && processed < Total(original))
        invariant Accounts(moved) && Goal() == old(Goal()) && issued <= requests
        invariant streak == Streak(calls) <= inline < ONCE_IN
        invariant r.Value? ==> r == Value(processed) && processed >= Goal() && Valid()
        invariant r.Broken? ==> processed == Total(original) < Goal()
        invariant !r.Running? ==> (r.Done? <==> last.Stopped?)
        invariant !r.Running? ==> (r.Error? <==> last.Failed? || (reading && last == Bytes(0) && processed < Total(original)))
        invariant r.Error? ==> r == Error(if last.Failed? then last.code else -1)
        invariant reading || Progresses(kernel) ==> r.Running? ==> issued <= processed
        invariant !reading && Stalls(kernel) && 0 < Goal() && 0 < Total(original) ==> r.Running? && processed == 0
        invariant ByteByByte(kernel) && 0 < Goal() <= Total(original) ==>
          processed == issued <= Goal() && (r.Running? || r == Value(Goal()))
      {
        StreakGrows(calls);
        calls := Advance(calls);
        streak := if SelectsPort(calls, ONCE_IN) then 0 else streak + 1;
        inline := if streak > inline then streak else inline;
        r, moved, last := Turn(reading, kernel, issued, moved);
        issued := issued + 1;
      }
      FlatEnd(original);
    }
  }
}
