/** Sequence helpers shared by the collection and the alias table:
    Ruby's `uniq`, `filter` and `flatten`, each with the contract the callers rely on. */
module Seqs {

  /** No value occurs twice. */
  ghost predicate Distinct<T(!new)>(s: seq<T>) {
    forall x :: multiset(s)[x] <= 1
  }

  /** Two duplicate-free sequences with the same members are permutations of each other. */
  lemma DistinctSameMembers<T(!new)>(s: seq<T>, t: seq<T>)
    requires Distinct(s) && Distinct(t)
    requires forall x :: x in s <==> x in t
    ensures multiset(s) == multiset(t)
  {
    forall x
      ensures multiset(s)[x] == multiset(t)[x]
    {
      assert x in multiset(s) <==> x in s;
      assert x in multiset(t) <==> x in t;
    }
  }

  /** Where x first occurs in s. */
  function FirstIndex<T(==)>(s: seq<T>, x: T): (i: nat)
    requires x in s
    ensures i < |s| && s[i] == x && x !in s[..i]
  {
    if s[0] == x then 0
    else
      assert s[1..][FirstIndex(s[1..], x)] == x;
      assert s[..FirstIndex(s[1..], x) + 1] == [s[0]] + s[1..][..FirstIndex(s[1..], x)];
      FirstIndex(s[1..], x) + 1
  }

  /** Appending to s does not move the first occurrence of a value already in s. */
  lemma {:induction false} FirstIndexAppend<T>(s: seq<T>, y: T, x: T)
    requires x in s
    ensures FirstIndex(s + [y], x) == FirstIndex(s, x)
    decreases |s|
  {
    if s[0] != x {
      assert (s + [y])[1..] == s[1..] + [y];
      FirstIndexAppend(s[1..], y, x);
    }
  }

  /** Ruby's `Array#uniq`: keeps the first occurrence of every value, in order. */
  function Uniq<T(==,!new)>(s: seq<T>): (r: seq<T>)
    ensures Distinct(r)
    ensures forall x :: x in r <==> x in s
    ensures |r| <= |s|
    decreases |s|
  {
    if |s| == 0 then []
    else
      var init := s[..|s| - 1];
      var last := s[|s| - 1];
      assert s == init + [last];
      var u := Uniq(init);
      if last in u then u
      else
        assert multiset(u)[last] == 0;
        u + [last]
  }

  /** The values Uniq keeps come out ordered by where they first occur. */
  lemma {:induction false} UniqOrder<T(!new)>(s: seq<T>)
    ensures forall i, j :: 0 <= i < j < |Uniq(s)| ==> FirstIndex(s, Uniq(s)[i]) < FirstIndex(s, Uniq(s)[j])
    decreases |s|
  {
    if |s| > 0 {
      var init := s[..|s| - 1];
      var last := s[|s| - 1];
      assert s == init + [last];
      var u := Uniq(init);
      UniqOrder(init);
      forall x | x in u
        ensures FirstIndex(s, x) == FirstIndex(init, x) < |init|
      {
        FirstIndexAppend(init, last, x);
      }
      if last !in u {
        assert FirstIndex(s, last) == |init|;
      }
    }
  }

  /** Uniq leaves a duplicate-free sequence as it is. */
  lemma {:induction false} UniqOfDistinct<T(!new)>(s: seq<T>)
    requires Distinct(s)
    ensures Uniq(s) == s
    decreases |s|
  {
    if |s| > 0 {
      var init := s[..|s| - 1];
      var last := s[|s| - 1];
      assert s == init + [last];
      assert multiset(s) == multiset(init) + multiset{last};
      assert Distinct(init) by {
        forall x ensures multiset(init)[x] <= 1 {
          assert multiset(init)[x] <= multiset(s)[x];
        }
      }
      UniqOfDistinct(init);
      assert multiset(s)[last] == multiset(init)[last] + 1;
      assert last !in init;
    }
  }

  /** Ruby's `Array#filter`: the elements satisfying p, each as often as in s, in order. */
  function Filter<T(==,!new)>(s: seq<T>, p: T -> bool): (r: seq<T>)
    ensures forall x :: multiset(r)[x] == if p(x) then multiset(s)[x] else 0
    ensures forall x :: x in r <==> x in s && p(x)
    ensures |r| <= |s|
    decreases |s|
  {
    if |s| == 0 then []
    else
      var init := s[..|s| - 1];
      var last := s[|s| - 1];
      assert s == init + [last];
      var f := Filter(init, p);
      if p(last) then
        assert forall x :: x in f + [last] <==> x in multiset(f) + multiset{last};
        f + [last]
      else f
  }

  /** Filtering keeps the order: the filter of a concatenation is the
      concatenation of the filters. */
  lemma {:induction false} FilterConcat<T(!new)>(s: seq<T>, t: seq<T>, p: T -> bool)
    ensures Filter(s + t, p) == Filter(s, p) + Filter(t, p)
    decreases |t|
  {
    if |t| == 0 {
      assert s + t == s;
    } else {
      var init := t[..|t| - 1];
      assert (s + t)[..|s + t| - 1] == s + init;
      assert (s + t)[|s + t| - 1] == t[|t| - 1];
      FilterConcat(s, init, p);
    }
  }

  /** A single element is kept exactly when it satisfies p. */
  lemma FilterOne<T(!new)>(x: T, p: T -> bool)
    ensures Filter([x], p) == if p(x) then [x] else []
  {
    assert [x][..0] == [];
  }

  /** Ruby's `reduce([]) { |memo, xs| memo + xs }`: the lists concatenated in order. */
  function Flatten<T(!new)>(ss: seq<seq<T>>): (r: seq<T>)
    ensures forall x :: x in r <==> exists i :: 0 <= i < |ss| && x in ss[i]
    decreases |ss|
  {
    if |ss| == 0 then []
    else
      var init := ss[..|ss| - 1];
      assert forall i :: 0 <= i < |init| ==> init[i] == ss[i];
      Flatten(init) + ss[|ss| - 1]
  }

  /** The flattening of a concatenation of lists is the concatenation of their
      flattenings: every list contributes its elements, in order and with their
      multiplicities. */
  lemma {:induction false} FlattenConcat<T(!new)>(ss: seq<seq<T>>, tt: seq<seq<T>>)
    ensures Flatten(ss + tt) == Flatten(ss) + Flatten(tt)
    decreases |tt|
  {
    if |tt| == 0 {
      assert ss + tt == ss;
    } else {
      var init := tt[..|tt| - 1];
      assert (ss + tt)[..|ss + tt| - 1] == ss + init;
      assert (ss + tt)[|ss + tt| - 1] == tt[|tt| - 1];
      FlattenConcat(ss, init);
    }
  }

  /** A single list flattens to itself. */
  lemma FlattenOne<T(!new)>(xs: seq<T>)
    ensures Flatten([xs]) == xs
  {
    assert [xs][..0] == [];
  }
}
