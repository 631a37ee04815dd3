/** Sequences and bytes, as several components use them. */
module Sequences {

  newtype Byte = b: int | 0 <= b < 0x100

  function Reverse<T>(s: seq<T>): (r: seq<T>)
    ensures |r| == |s| && forall i :: 0 <= i < |s| ==> r[i] == s[|s| - 1 - i]
  {
    if s == [] then [] else Reverse(s[1..]) + [s[0]]
  }

  lemma {:induction false} ReverseConcat<T>(p: seq<T>, q: seq<T>)
    ensures Reverse(p + q) == Reverse(q) + Reverse(p)
  {
    var r := Reverse(p + q);
    forall i | 0 <= i < |r| ensures r[i] == (Reverse(q) + Reverse(p))[i] {}
  }

  lemma {:induction false} Associate<T>(p: seq<T>, q: seq<T>, r: seq<T>)
    ensures p + (q + r) == p + q + r
  {}

  lemma {:induction false} CountOne<T>(s: seq<T>, i: nat)
    requires i < |s| && forall j :: 0 <= j < |s| && s[j] == s[i] ==> j == i
    ensures multiset(s)[s[i]] == 1
  {
    assert s == s[..i] + [s[i]] + s[i + 1..];
    assert s[i] !in s[..i] && s[i] !in s[i + 1..];
  }

  lemma {:induction false} MultisetSplit<T>(s: seq<T>, n: nat)
    requires n <= |s|
    ensures multiset(s[..n]) + multiset(s[n..]) == multiset(s)
  {
    assert s == s[..n] + s[n..];
  }

  lemma {:induction false} SliceOfSlice<T>(s: seq<T>, a: nat, b: nat, c: nat, d: nat)
    requires a <= b <= |s| && c <= d <= b - a
    ensures s[a..b][c..d] == s[a + c..a + d]
  {
    var p := s[a..b];
    forall i | 0 <= i < d - c ensures p[c..d][i] == s[a + c..a + d][i] {
      assert p[c..d][i] == p[c + i] == s[a + c + i];
    }
  }

  predicate Distinct<T(==)>(s: seq<T>) {
    forall i, j :: 0 <= i < j < |s| ==> s[i] != s[j]
  }

  /** The sequence without its first occurrence of `x`. */
  function Without<T(==)>(s: seq<T>, x: T): seq<T> {
    if s == [] then [] else if s[0] == x then s[1..] else [s[0]] + Without(s[1..], x)
  }

  lemma {:induction false} SplitAt<T>(s: seq<T>, x: T) returns (l: seq<T>, r: seq<T>)
    requires x in s
    ensures s == l + [x] + r && x !in l && Without(s, x) == l + r
  {
    if s[0] == x {
      l, r := [], s[1..];
    } else {
      var l', r' := SplitAt(s[1..], x);
      l, r := [s[0]] + l', r';
      assert s == [s[0]] + s[1..];
    }
  }

  lemma {:induction false} WithoutIs<T>(s: seq<T>, x: T)
    requires Distinct(s)
    ensures forall y :: y in Without(s, x) <==> y in s && y != x
    ensures Distinct(Without(s, x))
  {
    if s != [] {
      var rest := s[1..];
      assert s == [s[0]] + rest;
      assert forall i :: 0 <= i < |rest| ==> rest[i] == s[i + 1];
      WithoutIs(rest, x);
      HeadApart(s[0], rest);
      HeadApart(s[0], Without(rest, x));
    }
  }

  lemma {:induction false} HeadApart<T>(x: T, s: seq<T>)
    ensures Distinct([x] + s) <==> x !in s && Distinct(s)
  {
    var all := [x] + s;
    if Distinct(all) {
      forall i | 0 <= i < |s| ensures s[i] != x {
        assert all[0] != all[i + 1];
      }
      forall i, j | 0 <= i < j < |s| ensures s[i] != s[j] {
        assert all[i + 1] != all[j + 1];
      }
    }
  }

  lemma {:induction false} SplitDistinct<T>(s: seq<T>, x: T) returns (l: seq<T>, r: seq<T>)
    requires x in s && Distinct(s)
    ensures s == l + [x] + r && x !in l && x !in r && Without(s, x) == l + r
    ensures forall y :: y in l || y in r ==> y in s
  {
    l, r := SplitAt(s, x);
    WithoutIs(s, x);
    assert forall y :: y in l || y in r ==> y in l + r;
  }
}
