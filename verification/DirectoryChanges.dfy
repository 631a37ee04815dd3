/** Reading FILE_NOTIFY_INFORMATION records (section 2.7.1 of [MS-FSCC]) out of a byte buffer.
    The iterator counts the bytes it has consumed without the padding between records. */
module DirectoryChanges {

  import opened Sequences

  newtype U16 = w: int | 0 <= w < 0x1_0000

  const DWORDS: nat := 0x1_0000_0000

  datatype Change = Change(action: nat, name: seq<U16>)

  // ---------- little-endian fields ----------

  function Low(x: nat): Byte {
    (x % 256) as Byte
  }

  function PutU32(x: nat): (s: seq<Byte>)
    ensures |s| == 4
  {
    var low, high := x % 0x1_0000, x / 0x1_0000;
    [Low(low), Low(low / 256), Low(high), Low(high / 256)]
  }

  function Pair(low: Byte, high: Byte): nat {
    low as nat + 0x100 * (high as nat)
  }

  function GetU32(buffer: seq<Byte>, at: nat): nat
    requires at + 4 <= |buffer|
  {
    Pair(buffer[at], buffer[at + 1]) + 0x1_0000 * Pair(buffer[at + 2], buffer[at + 3])
  }

  lemma {:induction false} U32RoundTrip(buffer: seq<Byte>, at: nat, x: nat)
    requires at + 4 <= |buffer| && buffer[at..at + 4] == PutU32(x) && x < DWORDS
    ensures GetU32(buffer, at) == x
  {
    var s := buffer[at..at + 4];
    assert s[0] == buffer[at] && s[1] == buffer[at + 1] && s[2] == buffer[at + 2] && s[3] == buffer[at + 3];
    PairDigits(x % 0x1_0000);
    PairDigits(x / 0x1_0000);
  }

  lemma {:induction false} PairDigits(w: nat)
    requires w < 0x1_0000
    ensures Pair(Low(w), Low(w / 256)) == w
  {}

  /** The four bytes, least significant first. */
  lemma {:induction false} U32IsLittleEndian(buffer: seq<Byte>, at: nat)
    requires at + 4 <= |buffer|
    ensures GetU32(buffer, at) ==
      buffer[at] as nat + 0x100 * (buffer[at + 1] as nat) + 0x1_0000 * (buffer[at + 2] as nat) + 0x100_0000 * (buffer[at + 3] as nat)
  {}

  /** Byte number `i` of a name. */
  function NameByte(name: seq<U16>, i: nat): Byte
    requires i < 2 * |name|
  {
    var unit := name[i / 2] as nat;
    if i % 2 == 0 then Low(unit) else Low(unit / 256)
  }

  function PutName(name: seq<U16>): (s: seq<Byte>)
    ensures |s| == 2 * |name|
  {
    seq(2 * |name|, i requires 0 <= i < 2 * |name| => NameByte(name, i))
  }

  function Unit(low: Byte, high: Byte): U16 {
    Pair(low, high) as U16
  }

  function GetName(buffer: seq<Byte>, at: nat, count: nat): (name: seq<U16>)
    requires at + 2 * count <= |buffer|
    ensures |name| == count
  {
    seq(count, i requires 0 <= i < count => Unit(buffer[at + 2 * i], buffer[at + 2 * i + 1]))
  }

  /** The two bytes of each unit, least significant first. */
  lemma {:induction false} NameIsLittleEndian(buffer: seq<Byte>, at: nat, count: nat, i: nat)
    requires at + 2 * count <= |buffer| && i < count
    ensures GetName(buffer, at, count)[i] as nat == buffer[at + 2 * i] as nat + 0x100 * (buffer[at + 2 * i + 1] as nat)
  {}

  lemma {:induction false} NameRoundTrip(buffer: seq<Byte>, at: nat, name: seq<U16>)
    requires at + 2 * |name| <= |buffer| && buffer[at..at + 2 * |name|] == PutName(name)
    ensures GetName(buffer, at, |name|) == name
  {
    var got, bytes := GetName(buffer, at, |name|), PutName(name);
    forall i | 0 <= i < |name| ensures got[i] == name[i] {
      assert bytes[2 * i] == buffer[at..at + 2 * |name|][2 * i] == buffer[at + 2 * i];
      assert bytes[2 * i + 1] == buffer[at..at + 2 * |name|][2 * i + 1] == buffer[at + 2 * i + 1];
      PairDigits(name[i] as nat);
    }
  }

  // ---------- the format ----------

  /** A record as a producer may write it: any padding that keeps the next record aligned. */
  datatype Record = Record(change: Change, padding: seq<Byte>)

  const HEADER: nat := 12

  function SizeOf(r: Record): nat {
    HEADER + 2 * |r.change.name| + |r.padding|
  }

  predicate LegalRecord(r: Record, last: bool) {
    SizeOf(r) < DWORDS && r.change.action < DWORDS && (!last ==> SizeOf(r) % 4 == 0)
  }

  predicate Legal(rs: seq<Record>) {
    rs == [] || (LegalRecord(rs[0], |rs| == 1) && Legal(rs[1..]))
  }

  /** NextEntryOffset is zero in the last record. */
  function EncodeRecord(r: Record, last: bool): (s: seq<Byte>)
    requires LegalRecord(r, last)
    ensures |s| == SizeOf(r)
  {
    PutU32(if last then 0 else SizeOf(r)) + PutU32(r.change.action) + PutU32(2 * |r.change.name|) + PutName(r.change.name) + r.padding
  }

  function Encode(rs: seq<Record>): seq<Byte>
    requires Legal(rs)
  {
    if rs == [] then [] else
      EncodeRecord(rs[0], |rs| == 1) + Encode(rs[1..])
  }

  function Name(buffer: seq<Byte>, at: nat): seq<U16>
    requires at + HEADER <= |buffer| && at + HEADER + GetU32(buffer, at + 8) <= |buffer|
  {
    GetName(buffer, at + HEADER, GetU32(buffer, at + 8) / 2)
  }

  /** Where the fields of a record are. */
  lemma {:induction false} FieldsOf(buffer: seq<Byte>, at: nat, r: Record, last: bool)
    requires LegalRecord(r, last) && at + SizeOf(r) <= |buffer|
    requires buffer[at..at + SizeOf(r)] == EncodeRecord(r, last)
    ensures GetU32(buffer, at) == if last then 0 else SizeOf(r)
    ensures GetU32(buffer, at + 4) == r.change.action
    ensures GetU32(buffer, at + 8) == 2 * |r.change.name|
    ensures Name(buffer, at) == r.change.name
  {
    var s := EncodeRecord(r, last);
    var n := 2 * |r.change.name|;
    SliceOfSlice(buffer, at, at + |s|, 0, 4);
    SliceOfSlice(buffer, at, at + |s|, 4, 8);
    SliceOfSlice(buffer, at, at + |s|, 8, 12);
    SliceOfSlice(buffer, at, at + |s|, 12, 12 + n);
    assert s[0..4] == PutU32(if last then 0 else SizeOf(r));
    assert s[4..8] == PutU32(r.change.action);
    assert s[8..12] == PutU32(n);
    assert s[12..12 + n] == PutName(r.change.name);
    U32RoundTrip(buffer, at, if last then 0 else SizeOf(r));
    U32RoundTrip(buffer, at + 4, r.change.action);
    U32RoundTrip(buffer, at + 8, n);
    NameRoundTrip(buffer, at + HEADER, r.change.name);
  }

  /** GetInfoSize: the record without its padding. */
  function InfoSize(buffer: seq<Byte>, at: nat): nat
    requires at + HEADER <= |buffer|
  {
    HEADER + GetU32(buffer, at + 8)
  }

  function Value(buffer: seq<Byte>, at: nat): Change
    requires at + HEADER <= |buffer| && at + InfoSize(buffer, at) <= |buffer|
  {
    Change(GetU32(buffer, at + 4), Name(buffer, at))
  }

  /** The buffer holds the encoded records one after the other from `at` on. */
  ghost predicate EncodedAt(buffer: seq<Byte>, at: nat, rs: seq<Record>)
    decreases |rs|
  {
    if rs == [] then true
    else
      && LegalRecord(rs[0], rs[1..] == [])
      && IsAt(buffer, at, EncodeRecord(rs[0], rs[1..] == []))
      && EncodedAt(buffer, at + SizeOf(rs[0]), rs[1..])
  }

  ghost predicate IsAt(buffer: seq<Byte>, at: nat, s: seq<Byte>) {
    at + |s| <= |buffer| && buffer[at..at + |s|] == s
  }

  lemma {:induction false} EncodeIsEncodedAt(before: seq<Byte>, rs: seq<Record>, behind: seq<Byte>)
    requires Legal(rs)
    ensures EncodedAt(before + Encode(rs) + behind, |before|, rs)
    decreases |rs|
  {
    if rs != [] {
      var first, rest := EncodeRecord(rs[0], |rs| == 1), Encode(rs[1..]);
      assert rs[1..] == [] <==> |rs| == 1;
      Regroup(before, first, rest, behind);
      EncodeIsEncodedAt(before + first, rs[1..], behind);
    }
  }

  lemma {:induction false} Regroup(a: seq<Byte>, b: seq<Byte>, c: seq<Byte>, d: seq<Byte>)
    ensures a + (b + c) + d == (a + b) + c + d
    ensures IsAt(a + (b + c) + d, |a|, b)
  {}

  function Size(rs: seq<Record>): nat {
    if rs == [] then 0 else SizeOf(rs[0]) + Size(rs[1..])
  }

  lemma {:induction false} SizeOfEncoding(rs: seq<Record>)
    requires Legal(rs)
    ensures |Encode(rs)| == Size(rs)
    decreases |rs|
  {
    if rs != [] {
      SizeOfEncoding(rs[1..]);
    }
  }

  /** What the iterator sees of the first record: counting it without its padding never uses up
      more room than it takes. */
  lemma {:induction false} FirstRecord(buffer: seq<Byte>, at: nat, rs: seq<Record>)
    requires EncodedAt(buffer, at, rs) && rs != []
    ensures at + HEADER <= |buffer| && at + InfoSize(buffer, at) <= |buffer|
    ensures InfoSize(buffer, at) <= SizeOf(rs[0]) <= Size(rs)
    ensures InfoSize(buffer, at) == 12 + 2 * |rs[0].change.name|
    ensures Value(buffer, at) == rs[0].change
    ensures GetU32(buffer, at) == if rs[1..] == [] then 0 else SizeOf(rs[0])
  {
    FieldsOf(buffer, at, rs[0], rs[1..] == []);
  }

  /** The sizes alone. */
  lemma {:induction false} FirstSizes(buffer: seq<Byte>, at: nat, rs: seq<Record>)
    requires EncodedAt(buffer, at, rs) && rs != []
    ensures at + HEADER <= |buffer| && InfoSize(buffer, at) == 12 + 2 * |rs[0].change.name| <= SizeOf(rs[0]) <= Size(rs)
    ensures at + InfoSize(buffer, at) <= |buffer|
    ensures GetU32(buffer, at) == if rs[1..] == [] then 0 else SizeOf(rs[0])
  {
    FirstRecord(buffer, at, rs);
  }

  /** How one comes to the next record. */
  lemma {:induction false} NextEncoded(buffer: seq<Byte>, at: nat, rs: seq<Record>)
    requires EncodedAt(buffer, at, rs) && rs != []
    ensures EncodedAt(buffer, at + SizeOf(rs[0]), rs[1..]) && Size(rs[1..]) == Size(rs) - SizeOf(rs[0])
  {}

  // ---------- the iterator ----------

  datatype Pointer = Null | To(at: nat)

  /** An iterator that began at `origin` has `rs` ahead of it. Its own count never runs ahead of the
      true offset, and the size it believes to be left covers what is left. */
  ghost predicate AheadOf(buffer: seq<Byte>, origin: nat, current: Pointer, consumed: nat, maximum: nat, rs: seq<Record>) {
    && consumed <= maximum
    && (rs == [] <==> current == Null)
    && (rs != [] ==>
          && origin + consumed <= current.at
          && EncodedAt(buffer, current.at, rs) && Size(rs) <= maximum - consumed)
  }

  /** What moving on reads, and where it leads. */
  lemma {:induction false} MovesAhead(buffer: seq<Byte>, origin: nat, at: nat, consumed: nat, maximum: nat, rs: seq<Record>)
    requires AheadOf(buffer, origin, To(at), consumed, maximum, rs) && rs != []
    ensures at + HEADER <= |buffer| && InfoSize(buffer, at) == 12 + 2 * |rs[0].change.name|
    ensures var next, more := GetU32(buffer, at), consumed + InfoSize(buffer, at);
      && AheadOf(buffer, origin, if next == 0 then Null else To(at + next), more, maximum, rs[1..])
      && (next == 0 <==> rs[1..] == [])
      && (next != 0 ==> next == SizeOf(rs[0]) && at + next + HEADER <= |buffer| && more + InfoSize(buffer, at + next) <= maximum)
  {
    FirstSizes(buffer, at, rs);
    NextEncoded(buffer, at, rs);
    if rs[1..] != [] {
      FirstSizes(buffer, at + SizeOf(rs[0]), rs[1..]);
    }
  }

  class Iterator {
    const buffer: seq<Byte>
    ghost const origin: nat
    var current: Pointer
    var value: Change
    var consumed: nat
    var maximum: nat

    /** `rs` are the records still ahead. */
    ghost predicate Ahead(rs: seq<Record>)
      reads this
    {
      AheadOf(buffer, origin, current, consumed, maximum, rs)
    }

    constructor (buffer: seq<Byte>, start: Pointer, size: nat)
      requires start.To? && size != 0 ==>
        start.at + HEADER <= |buffer| && InfoSize(buffer, start.at) <= size
      ensures this.buffer == buffer && consumed == 0 && maximum == size
      ensures current == if size == 0 then Null else start
      ensures origin == if start.To? then start.at else 0
    {
      this.buffer := buffer;
      this.origin := if start.To? then start.at else 0;
      this.current := if size == 0 then Null else start;
      this.value := Change(0, []);
      this.consumed, this.maximum := 0, size;
    }

    method Deref(ghost rs: seq<Record>) returns (c: Change)
      requires Ahead(rs) && rs != []
      modifies this`value
      ensures c == rs[0].change && value == c
    {
      FirstRecord(buffer, current.at, rs);
      value := Value(buffer, current.at);
      c := value;
    }

    method MoveToNext(ghost rs: seq<Record>)
      requires Ahead(rs) && rs != []
      modifies this`current, this`consumed
      ensures Ahead(rs[1..])
      ensures rs[1..] != [] ==> current == To(old(current.at) + SizeOf(rs[0]))
      ensures consumed == old(consumed) + 12 + 2 * |rs[0].change.name|
    {
      MovesAhead(buffer, origin, current.at, consumed, maximum, rs);
      assert consumed <= maximum;
      var at := current.at;
      consumed := consumed + InfoSize(buffer, at);
      var next := GetU32(buffer, at);
      if next == 0 {
        current := Null;
        return;
      }
      current := To(at + next);
      assert consumed + InfoSize(buffer, current.at) <= maximum;
    }

    function AvailableSize(): nat
      requires consumed <= maximum
      reads this
    {
      maximum - consumed
    }

    /** ++it moves on and returns an iterator at the new position that starts counting afresh. */
    method PreIncrement(ghost rs: seq<Record>) returns (it: Iterator)
      requires Ahead(rs) && rs != []
      modifies this`current, this`consumed
      ensures Ahead(rs[1..])
      ensures consumed == old(consumed) + 12 + 2 * |rs[0].change.name|
      ensures fresh(it) && it.buffer == buffer && it.Ahead(rs[1..]) && it.current == current
      ensures it.consumed == 0 && it.maximum == maximum - consumed
    {
      MoveToNext(rs);
      var size := AvailableSize();
      if rs[1..] != [] {
        FirstRecord(buffer, current.at, rs[1..]);
      }
      it := new Iterator(buffer, current, size);
    }

    /** it++ moves on and returns an iterator that stays behind. */
    method PostIncrement(ghost rs: seq<Record>) returns (it: Iterator)
      requires Ahead(rs) && rs != []
      modifies this`current, this`consumed
      ensures Ahead(rs[1..])
      ensures consumed == old(consumed) + 12 + 2 * |rs[0].change.name|
      ensures fresh(it) && it.buffer == buffer && it.Ahead(rs) && it.current == old(current)
      ensures it.consumed == 0 && it.maximum == maximum - old(consumed)
    {
      var size := AvailableSize();
      var prev := current;
      FirstRecord(buffer, current.at, rs);
      MoveToNext(rs);
      it := new Iterator(buffer, prev, size);
    }
  }

  predicate SamePlace(p: Iterator, q: Iterator)
    reads p, q
  {
    p.current == q.current
  }

  function ChangesOf(rs: seq<Record>): seq<Change> {
    seq(|rs|, i requires 0 <= i < |rs| => rs[i].change)
  }

  lemma {:induction false} Shift(done: seq<Record>, rest: seq<Record>)
    requires rest != []
    ensures done + rest == done + [rest[0]] + rest[1..]
    ensures ChangesOf(done + [rest[0]]) == ChangesOf(done) + [rest[0].change]
  {}

  /** The loop from any iterator to end(). */
  method Enumerate(it: Iterator, ghost rs: seq<Record>) returns (changes: seq<Change>)
    requires it.Ahead(rs)
    modifies it
    ensures changes == ChangesOf(rs) && it.Ahead([])
  {
    var end := new Iterator(it.buffer, Null, 0);
    changes := [];
    ghost var done, rest := [], rs;
    while !SamePlace(it, end)
      invariant it.Ahead(rest) && end.current == Null && it != end
      invariant rs == done + rest && changes == ChangesOf(done)
      decreases |rest|
    {
      var c := Visit(it, rest);
      Shift(done, rest);
      changes := changes + [c];
      done, rest := done + [rest[0]], rest[1..];
    }
  }

  /** The loop from begin() to end(). */
  method Iterate(buffer: seq<Byte>, size: nat, ghost rs: seq<Record>) returns (changes: seq<Change>)
    requires EncodedAt(buffer, 0, rs) && Size(rs) <= size && (rs == [] ==> size == 0)
    ensures changes == ChangesOf(rs)
  {
    if rs != [] {
      FirstRecord(buffer, 0, rs);
    }
    var it := new Iterator(buffer, To(0), size);
    changes := Enumerate(it, rs);
  }

  /** ++it and it++ in the middle of a list: the iterator they return enumerates by itself what is ahead of it, and
      leaves the original where it was moved. */
  method EnumerateReturned(it: Iterator, post: bool, ghost rs: seq<Record>) returns (changes: seq<Change>)
    requires it.Ahead(rs) && rs != []
    modifies it
    ensures changes == if post then ChangesOf(rs) else ChangesOf(rs[1..])
    ensures it.Ahead(rs[1..])
  {
    var copy;
    if post {
      copy := it.PostIncrement(rs);
      changes := Enumerate(copy, rs);
    } else {
      copy := it.PreIncrement(rs);
      changes := Enumerate(copy, rs[1..]);
    }
  }

  /** *it, then ++it. */
  method Visit(it: Iterator, ghost rs: seq<Record>) returns (c: Change)
    requires it.Ahead(rs) && rs != []
    modifies it
    ensures c == rs[0].change && it.Ahead(rs[1..])
  {
    c := it.Deref(rs);
    var copy := it.PreIncrement(rs);
  }

  /** Round trip: iterating over the encoding of a list, with any legal padding and possibly bytes
      behind it, yields exactly the list and ends. */
  method RoundTrip(rs: seq<Record>, behind: seq<Byte>, slack: nat) returns (changes: seq<Change>)
    requires Legal(rs) && (rs == [] ==> slack == 0)
    ensures changes == ChangesOf(rs)
  {
    var encoded := Encode(rs);
    EncodeIsEncodedAt([], rs, behind);
    assert [] + encoded == encoded;
    SizeOfEncoding(rs);
    changes := Iterate(encoded + behind, |encoded| + slack, rs);
  }
}
