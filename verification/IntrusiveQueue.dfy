/** The intrusive queue as an object used by one thread at a time: the same loops, over real
    node objects whose `next` fields are rewritten in place, refine a first-in first-out queue. */
module IntrusiveQueue {

  import opened Sequences

  class Item {
    var next: Item?

    constructor ()
      ensures next == null
    {
      next := null;
    }
  }

  /** Following `next` from `first` visits `chain` in order and ends at null. */
  ghost predicate Links(first: Item?, chain: seq<Item>)
    reads chain
  {
    && first == (if chain == [] then null else chain[0])
    && Distinct(chain)
    && (forall i :: 0 <= i < |chain| ==> chain[i].next == Follower(chain, i))
  }

  function Follower(chain: seq<Item>, i: nat): Item?
    requires i < |chain|
  {
    if i + 1 < |chain| then chain[i + 1] else null
  }

  lemma {:induction false} ConsLinks(value: Item, chain: seq<Item>)
    requires Links(value.next, chain) && value !in chain
    ensures Links(value, [value] + chain)
  {
    var all := [value] + chain;
    forall i | 0 <= i < |all| ensures all[i].next == Follower(all, i) {
      assert i > 0 ==> all[i] == chain[i - 1] && chain[i - 1].next == Follower(chain, i - 1);
    }
  }

  /** Clearing `next` of the last but one item leaves a list without the last. */
  lemma {:induction false} CutLinks(first: Item, chain: seq<Item>)
    requires |chain| >= 2 && first == chain[0]
    requires Distinct(chain)
    requires forall i :: 0 <= i < |chain| - 2 ==> chain[i].next == Follower(chain, i)
    requires chain[|chain| - 2].next == null
    ensures Links(first, chain[..|chain| - 1])
  {
    var rest := chain[..|chain| - 1];
    forall i | 0 <= i < |rest| ensures rest[i].next == Follower(rest, i) {
      assert rest[i] == chain[i];
    }
  }

  lemma {:induction false} InReverse(s: seq<Item>, x: Item)
    ensures x in Reverse(s) <==> x in s
  {
    var r := Reverse(s);
    assert forall i :: 0 <= i < |s| ==> s[i] == r[|s| - 1 - i];
  }

  lemma {:induction false} ReverseInit(s: seq<Item>)
    requires s != []
    ensures Reverse(s[..|s| - 1]) == Reverse(s)[1..] && Reverse(s)[0] == s[|s| - 1]
  {
    forall i | 0 <= i < |s| - 1 ensures Reverse(s[..|s| - 1])[i] == Reverse(s)[1..][i] {}
  }

  class Queue {
    var head: Item?
    ghost var chain: seq<Item>  // newest first

    ghost predicate Valid()
      reads this, chain
    {
      Links(head, chain)
    }

    /** The items in the order in which they will be popped. */
    ghost function Contents(): seq<Item>
      reads this
    {
      Reverse(chain)
    }

    lemma {:induction false} ContentsAreChain()
      ensures forall x :: x in Contents() <==> x in chain
    {
      forall x ensures x in Contents() <==> x in chain {
        InReverse(chain, x);
      }
    }

    constructor ()
      ensures Valid() && Contents() == []
    {
      head := null;
      chain := [];
    }

    method IsEmpty() returns (empty: bool)
      requires Valid()
      ensures empty <==> Contents() == []
    {
      empty := head == null;
    }

    /** Compare-exchange on `head`; it may fail although the values are equal. */
    method CompareExchangeWeak(expected: Item?, desired: Item?, spurious: bool) returns (ok: bool, actual: Item?)
      modifies this`head
      ensures ok <==> old(head) == expected && !spurious
      ensures head == if ok then desired else old(head)
      ensures actual == old(head)
    {
      actual := head;
      ok := head == expected && !spurious;
      if ok {
        head := desired;
      }
    }

    /** `spurious` is how often the processor makes the compare-exchange fail for no reason. */
    method Push(value: Item, spurious: nat)
      requires Valid() && value !in Contents()
      modifies this, value
      ensures Valid() && Contents() == old(Contents()) + [value]
    {
      assert value !in chain by { InReverse(chain, value); }
      var seen := head;
      var left, ok := spurious, false;
      while !ok
        invariant chain == old(chain) && Links(old(head), chain) && left >= 0
        invariant if ok then head == value && value.next == old(head) else head == seen == old(head)
        decreases if ok then 0 else left + 1
      {
        value.next := seen;
        ok, seen := CompareExchangeWeak(seen, value, left > 0);
        left := if left > 0 then left - 1 else 0;
      }
      ConsLinks(value, chain);
      ReverseConcat([value], chain);
      chain := [value] + chain;
    }

    /** The closing loop of Pop: hang what `head` holds behind `tail` until the exchange succeeds. */
    method GiveBack(first: Item, tail: Item, ghost rest: seq<Item>, spurious: nat)
      requires head == null && Links(first, rest) && tail == rest[|rest| - 1]
      modifies this`head, tail
      ensures head == first && Links(head, rest)
    {
      assert tail.next == Follower(rest, |rest| - 1);
      var left := spurious;
      var done, seen := CompareExchangeWeak(null, first, left > 0);
      while !done
        invariant Links(first, rest) && seen == null
        invariant if done then head == first else head == null && left > 0
        decreases if done then 0 else left
      {
        tail.next := seen;
        left := left - 1;
        done, seen := CompareExchangeWeak(seen, first, left > 0);
      }
    }

    /** The walk of Pop: find and erase the last item of a private list of two or more. */
    method CutLast(first: Item, ghost list: seq<Item>) returns (tail: Item, value: Item?)
      requires Links(first, list)
      modifies list
      ensures value == null <==> |list| == 1
      ensures value == null ==> tail == first && tail.next == null
      ensures value != null ==>
        && value == list[|list| - 1] && value.next == null
        && tail == list[|list| - 2] && tail.next == null
        && Links(first, list[..|list| - 1])
    {
      tail, value := first, null;
      ghost var k := 0;
      while tail.next != null
        invariant 0 <= k < |list| && tail == list[k] && value == null
        invariant k > 0 ==> k + 1 < |list|
        invariant Links(first, list)
        decreases |list| - k
      {
        assert list[k].next == Follower(list, k) && list[k + 1].next == Follower(list, k + 1);
        if tail.next.next == null {
          value, tail.next := tail.next, value;
          CutLinks(first, list);
          return;
        }
        tail := tail.next;
        k := k + 1;
      }
      assert list[k].next == Follower(list, k);
    }

    /** The rest of Pop, once the chain is its own: cut off the last item and put the others back. */
    method PopLast(localHead: Item, spurious: nat) returns (value: Item)
      requires head == null && chain != [] && Links(localHead, chain)
      modifies this, chain
      ensures Valid() && chain == old(chain)[..|old(chain)| - 1]
      ensures value == old(chain)[|old(chain)| - 1] && value.next == null
    {
      ghost var rest := chain[..|chain| - 1];
      var tail, last := CutLast(localHead, chain);
      if tail == localHead && last == null {
        value := localHead;
      } else {
        value := last;
        assert value != tail && tail == rest[|rest| - 1];
        GiveBack(localHead, tail, rest, spurious);
      }
      chain := rest;
    }

    /** Pop takes the whole chain, cuts off its last item and puts the rest back. */
    method Pop(spurious: nat) returns (ok: bool, value: Item?)
      requires Valid()
      modifies this, chain
      ensures Valid()
      ensures ok <==> old(Contents()) != []
      ensures ok ==> value == old(Contents())[0] && value.next == null && Contents() == old(Contents())[1..]
      ensures !ok ==> value == null && Contents() == []
    {
      var localHead := head;
      head := null;
      if localHead == null {
        return false, null;
      }
      ReverseInit(chain);
      value := PopLast(localHead, spurious);
      return true, value;
    }
  }
}
