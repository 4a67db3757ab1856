/** Sorted series of samples: the value a metric slice holds, and the pure
    counterparts of the operations the store performs on it.

    Times are nanoseconds counted from the zero time, so 0 is the zero time. */
module Samples {

  datatype Option<+T> = None | Some(value: T)

  datatype Sample = Sample(value: real, observedAt: int)

  /** Strictly increasing event times: no timestamp occurs twice. */
  predicate Sorted(s: seq<Sample>) {
    forall i, j :: 0 <= i < j < |s| ==> s[i].observedAt < s[j].observedAt
  }

  /** `s` is what remains of `full` after dropping some of its oldest samples. */
  predicate IsSuffix(s: seq<Sample>, full: seq<Sample>) {
    |s| <= |full| && s == full[|full| - |s|..]
  }

  /** The least index whose sample is not before `t`, the length if there is none. */
  function FirstAtOrAfter(s: seq<Sample>, t: int): (r: nat)
    ensures r <= |s|
    ensures forall i :: 0 <= i < r ==> s[i].observedAt < t
    ensures r < |s| ==> s[r].observedAt >= t
  {
    if s == [] || s[0].observedAt >= t then 0 else 1 + FirstAtOrAfter(s[1..], t)
  }

  /** An ordered insertion in which the last write to a timestamp wins. */
  function Insert(s: seq<Sample>, x: Sample): seq<Sample> {
    if s == [] || x.observedAt < s[0].observedAt then [x] + s
    else if x.observedAt == s[0].observedAt then [x] + s[1..]
    else [s[0]] + Insert(s[1..], x)
  }

  /** Any index that splits a sorted series at `t` is the one the search returns. */
  lemma FirstAtOrAfterUnique(s: seq<Sample>, t: int, r: nat)
    requires Sorted(s) && r <= |s|
    requires r > 0 ==> s[r - 1].observedAt < t
    requires r < |s| ==> s[r].observedAt >= t
    ensures FirstAtOrAfter(s, t) == r
  {
    var f := FirstAtOrAfter(s, t);
    assert r == 0 || f >= |s| || s[f].observedAt >= t > s[r - 1].observedAt;
  }

  /** Insertion keeps the order, and the result holds the new sample and every
      old one at another timestamp, nothing else. */
  lemma {:induction false} InsertMeaning(s: seq<Sample>, x: Sample)
    requires Sorted(s)
    ensures Sorted(Insert(s, x))
    ensures forall y :: y in Insert(s, x) <==> y == x || (y in s && y.observedAt != x.observedAt)
  {
    if s != [] {
      var rest := s[1..];
      assert s == [s[0]] + rest;
      if x.observedAt > s[0].observedAt {
        InsertMeaning(rest, x);
        InFront(s[0], Insert(rest, x));
      }
    }
  }

  lemma InFront(x: Sample, r: seq<Sample>)
    requires Sorted(r) && forall y :: y in r ==> x.observedAt < y.observedAt
    ensures Sorted([x] + r) && forall y :: y in [x] + r <==> y == x || y in r
  {
    assert forall k :: 0 <= k < |r| ==> r[k] in r;
  }

  lemma HasMember<T>(s: seq<T>)
    ensures s == [] || exists y :: y in s
  {
    if s != [] { assert s[0] in s; }
  }

  lemma FrontMembers(s: seq<Sample>)
    requires Sorted(s) && s != []
    ensures Sorted(s[..|s| - 1])
    ensures forall y :: y in s[..|s| - 1] <==> y in s && y.observedAt < s[|s| - 1].observedAt
    ensures forall y :: y in s ==> y.observedAt <= s[|s| - 1].observedAt
    ensures forall y :: y in s && y.observedAt == s[|s| - 1].observedAt ==> y == s[|s| - 1]
  {
    assert s == s[..|s| - 1] + [s[|s| - 1]];
  }

  /** Two sorted series with the same samples are the same series. */
  lemma {:induction false} SortedExtensional(a: seq<Sample>, b: seq<Sample>)
    requires Sorted(a) && Sorted(b)
    requires forall y :: y in a <==> y in b
    ensures a == b
  {
    HasMember(a);
    HasMember(b);
    if a != [] && b != [] {
      var x, y := a[|a| - 1], b[|b| - 1];
      FrontMembers(a);
      FrontMembers(b);
      assert x in a && y in b;
      assert x == y;
      SortedExtensional(a[..|a| - 1], b[..|b| - 1]);
      assert a == a[..|a| - 1] + [x] && b == b[..|b| - 1] + [x];
    }
  }

  lemma SuffixTransitive(a: seq<Sample>, b: seq<Sample>, c: seq<Sample>)
    requires IsSuffix(a, b) && IsSuffix(b, c)
    ensures IsSuffix(a, c)
  {
    assert c[|c| - |b|..][|b| - |a|..] == c[|c| - |a|..];
  }

  lemma SuffixSorted(a: seq<Sample>, b: seq<Sample>)
    requires IsSuffix(a, b) && Sorted(b)
    ensures Sorted(a)
    ensures forall i :: 0 <= i < |a| ==> a[i] == b[|b| - |a| + i]
  {
  }

  lemma ShiftedByOne(s: seq<Sample>, i: nat, x: Sample)
    requires s != [] && i <= |s[1..]|
    ensures [s[0]] + (s[1..][..i] + [x] + s[1..][i..]) == s[..i + 1] + [x] + s[i + 1..]
    ensures i < |s[1..]| ==> [s[0]] + s[1..][i := x] == s[i + 1 := x]
  {
  }

  /** Insertion in terms of the index at which the binary search stops. */
  lemma {:induction false} InsertAtIndex(s: seq<Sample>, x: Sample)
    ensures var i := FirstAtOrAfter(s, x.observedAt);
            Insert(s, x) ==
              if i < |s| && s[i].observedAt == x.observedAt then s[i := x] else s[..i] + [x] + s[i..]
  {
    if s != [] && x.observedAt > s[0].observedAt {
      InsertAtIndex(s[1..], x);
      ShiftedByOne(s, FirstAtOrAfter(s[1..], x.observedAt), x);
    }
  }

  /** A sample newer than a prefix goes into what follows it. */
  lemma {:induction false} InsertAppend(p: seq<Sample>, s: seq<Sample>, x: Sample)
    requires forall i :: 0 <= i < |p| ==> p[i].observedAt < x.observedAt
    ensures Insert(p + s, x) == p + Insert(s, x)
  {
    if p == [] {
      assert p + s == s;
    } else {
      InsertAppend(p[1..], s, x);
      assert (p + s)[1..] == p[1..] + s;
    }
  }

  /** A sample older than everything in a suffix goes into what precedes it. */
  lemma {:induction false} InsertPrepend(p: seq<Sample>, s: seq<Sample>, x: Sample)
    requires s != [] ==> x.observedAt < s[0].observedAt
    ensures Insert(p + s, x) == Insert(p, x) + s
  {
    if p == [] {
      assert p + s == s;
    } else {
      InsertPrepend(p[1..], s, x);
      assert (p + s)[0] == p[0] && (p + s)[1..] == p[1..] + s;
      assert [x] + (p + s) == [x] + p + s;
      assert [p[0]] + (Insert(p[1..], x) + s) == [p[0]] + Insert(p[1..], x) + s;
    }
  }

  /** The newest sample after an insertion is the newer of the two. */
  lemma {:induction false} InsertLast(s: seq<Sample>, x: Sample)
    requires Sorted(s)
    ensures var r := Insert(s, x);
            r != [] && r[|r| - 1] ==
              if s == [] || s[|s| - 1].observedAt <= x.observedAt then x else s[|s| - 1]
  {
    if |s| > 1 { InsertLast(s[1..], x); }
  }

  /** A sample no older than the newest missing one goes to the same place in a
      suffix as in the whole series; what is missing stays the same, unless the
      sample brings back the timestamp of the newest missing one. */
  lemma InsertIntoSuffix(p: seq<Sample>, s: seq<Sample>, x: Sample) returns (p': seq<Sample>)
    requires Sorted(p + s)
    requires p != [] ==> p[|p| - 1].observedAt <= x.observedAt
    ensures Insert(p + s, x) == p' + Insert(s, x)
    ensures p' == p || (p != [] && p' == p[..|p| - 1] && p[|p| - 1].observedAt == x.observedAt)
  {
    assert forall i :: 0 <= i < |p| ==> (p + s)[i] == p[i];
    if p != [] && p[|p| - 1].observedAt == x.observedAt {
      var y := p[|p| - 1];
      p' := p[..|p| - 1];
      assert p + s == p' + ([y] + s);
      InsertAppend(p', [y] + s, x);
      assert s != [] ==> (p + s)[|p|] == s[0];
    } else {
      p' := p;
      InsertAppend(p, s, x);
    }
  }
}
