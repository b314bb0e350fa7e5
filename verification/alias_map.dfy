/** The alias table `Map` of lib/bolder/scopes/map.rb: symbolic names mapped to
    lists of scope strings, with the two list transforms `map` and `expand`.
    A scope is identified here with its string form. */
module AliasMap {
  import opened Seqs
  import Scopes

  /** A target as written in the constructor's hash: one value or a list of values. */
  datatype Target<V> = Single(v: V) | List(vs: seq<V>)

  /** The normalised table: alias string to target strings. */
  datatype AliasTable = AliasTable(mapping: map<string, seq<string>>)

  /** `Array(v).map(&:to_s)`: a single target becomes a one-element list. */
  function TargetStrings<V>(t: Target<V>, show: V -> string): (r: seq<string>)
    ensures t.Single? ==> r == [show(t.v)]
    ensures t.List? ==> |r| == |t.vs| && forall i :: 0 <= i < |r| ==> r[i] == show(t.vs[i])
  {
    match t
    case Single(v) => [show(v)]
    case List(vs) => seq(|vs|, i requires 0 <= i < |vs| => show(vs[i]))
  }

  /** No later entry has a key that stringifies like entry i's. */
  predicate LastWithKey<K, V>(entries: seq<(K, Target<V>)>, i: int, showKey: K -> string)
    requires 0 <= i < |entries|
  {
    forall j :: i < j < |entries| ==> showKey(entries[j].0) != showKey(entries[i].0)
  }

  /** `Map.new(mapping)`: keys and targets stringified; every key of the hash,
      as a string, is registered. */
  function Build<K, V>(entries: seq<(K, Target<V>)>, showKey: K -> string, showValue: V -> string): (r: AliasTable)
    ensures forall s :: s in r.mapping <==> exists i :: 0 <= i < |entries| && showKey(entries[i].0) == s
    decreases |entries|
  {
    if |entries| == 0 then AliasTable(map[])
    else
      var init := entries[..|entries| - 1];
      var last := entries[|entries| - 1];
      assert forall i :: 0 <= i < |init| ==> init[i] == entries[i];
      var rest := Build(init, showKey, showValue);
      AliasTable(rest.mapping[showKey(last.0) := TargetStrings(last.1, showValue)])
  }

  /** Of two entries whose keys stringify alike, the later one wins, as in the
      hash being built. */
  lemma {:induction false} BuildLastWins<K, V>(entries: seq<(K, Target<V>)>, showKey: K -> string, showValue: V -> string, i: int)
    requires 0 <= i < |entries|
    requires LastWithKey(entries, i, showKey)
    ensures showKey(entries[i].0) in Build(entries, showKey, showValue).mapping
    ensures Build(entries, showKey, showValue).mapping[showKey(entries[i].0)] == TargetStrings(entries[i].1, showValue)
    decreases |entries|
  {
    var init := entries[..|entries| - 1];
    if i < |entries| - 1 {
      assert forall j :: 0 <= j < |init| ==> init[j] == entries[j];
      assert LastWithKey(init, i, showKey);
      BuildLastWins(init, showKey, showValue, i);
      assert showKey(entries[|entries| - 1].0) != showKey(entries[i].0);
    }
  }

  /** `Array(@mapping.fetch(sc, sc))`: the targets of a registered alias, the input itself otherwise. */
  function Lookup(t: AliasTable, x: string): (r: seq<string>)
    ensures forall s :: s in r <==> Translates(t, x, s)
  {
    if x in t.mapping then t.mapping[x] else [x]
  }

  /** What `x` is translated to contains `s`. */
  predicate Translates(t: AliasTable, x: string, s: string) {
    (x !in t.mapping && s == x) || (x in t.mapping && s in t.mapping[x])
  }

  /** The list `map` hands to `Scopes.wrap`: each input replaced by its lookup,
      concatenated, duplicates dropped. */
  function Translated(t: AliasTable, inputs: seq<string>): (r: seq<string>)
    ensures Distinct(r)
    ensures forall s :: s in r <==> exists x :: x in inputs && Translates(t, x, s)
  {
    var lookups := seq(|inputs|, i requires 0 <= i < |inputs| => Lookup(t, inputs[i]));
    assert forall i :: 0 <= i < |inputs| ==> lookups[i] == Lookup(t, inputs[i]);
    var flat := Flatten(lookups);
    forall s ensures s in flat <==> exists x :: x in inputs && Translates(t, x, s) {
      if s in flat {
        var i :| 0 <= i < |lookups| && s in lookups[i];
        assert inputs[i] in inputs && Translates(t, inputs[i], s);
      }
      if x :| x in inputs && Translates(t, x, s) {
        var i :| 0 <= i < |inputs| && inputs[i] == x;
        assert s in lookups[i];
      }
    }
    Uniq(flat)
  }

  /** `map(scopes)`: registered aliases replaced by their targets, everything else
      passed through, no duplicates, wrapped as a collection. */
  function Map(t: AliasTable, inputs: seq<string>, cmp: (string, string) -> int): (r: Scopes.Scopes<string>)
    ensures Distinct(r.members)
    ensures forall s :: s in r.members <==> exists x :: x in inputs && Translates(t, x, s)
  {
    var l := Translated(t, inputs);
    var r := Scopes.New(l, cmp);
    assert forall x :: multiset(r.members)[x] == multiset(l)[x];
    r
  }

  /** An input that is no alias comes out of `map` unchanged; a registered one
      brings every one of its targets. */
  lemma MapPassesThrough(t: AliasTable, inputs: seq<string>, cmp: (string, string) -> int, x: string)
    requires x in inputs
    ensures x !in t.mapping ==> x in Map(t, inputs, cmp).members
    ensures x in t.mapping ==> forall s :: s in t.mapping[x] ==> s in Map(t, inputs, cmp).members
  {
    assert x !in t.mapping ==> Translates(t, x, x);
    assert x in t.mapping ==> forall s :: s in t.mapping[x] ==> Translates(t, x, s);
  }

  /** The registered inputs, in input order, each as often as given. */
  function Registered(t: AliasTable, inputs: seq<string>): (r: seq<string>)
    ensures forall x :: multiset(r)[x] == if x in t.mapping then multiset(inputs)[x] else 0
    ensures forall x :: x in r <==> x in inputs && x in t.mapping
  {
    Filter(inputs, x => x in t.mapping)
  }

  /** `filter` keeps the input order: the registered inputs of a concatenation
      are those of the first part followed by those of the second. */
  lemma RegisteredConcat(t: AliasTable, inputs: seq<string>, more: seq<string>)
    ensures Registered(t, inputs + more) == Registered(t, inputs) + Registered(t, more)
  {
    FilterConcat(inputs, more, x => x in t.mapping);
  }

  /** The list `expand` hands to `Scopes.wrap`: the registered inputs followed
      by the duplicate-free concatenation of their targets. */
  function ExpandedList(t: AliasTable, inputs: seq<string>): (r: seq<string>)
    ensures |r| >= |Registered(t, inputs)|
    ensures r[..|Registered(t, inputs)|] == Registered(t, inputs)
    ensures Distinct(r[|Registered(t, inputs)|..])
    ensures forall s :: s in r[|Registered(t, inputs)|..] <==>
                        exists x :: x in inputs && x in t.mapping && s in t.mapping[x]
    ensures forall s :: s in r <==>
                        (s in inputs && s in t.mapping) || exists x :: x in inputs && x in t.mapping && s in t.mapping[x]
  {
    var registered := Registered(t, inputs);
    var targets := Translated(t, registered);
    assert forall x, s :: x in registered ==> (Translates(t, x, s) <==> s in t.mapping[x]);
    var r := registered + targets;
    assert r[..|registered|] == registered;
    assert r[|registered|..] == targets;
    r
  }

  /** `expand(scopes)`: the expanded list wrapped as a collection. */
  function Expand(t: AliasTable, inputs: seq<string>, cmp: (string, string) -> int): (r: Scopes.Scopes<string>)
    ensures multiset(r.members) == multiset(ExpandedList(t, inputs))
    ensures forall s :: s in r.members <==>
                        (s in inputs && s in t.mapping) || exists x :: x in inputs && x in t.mapping && s in t.mapping[x]
  {
    Scopes.New(ExpandedList(t, inputs), cmp)
  }

  /** A target of some given alias. */
  predicate TargetOfInput(t: AliasTable, inputs: seq<string>, s: string) {
    exists x :: x in inputs && x in t.mapping && s in t.mapping[x]
  }

  /** How often `expand` yields s: as often as s is given when it is
      registered, and once more when it is a target of a given alias. */
  lemma ExpandCount(t: AliasTable, inputs: seq<string>, cmp: (string, string) -> int, s: string)
    ensures multiset(Expand(t, inputs, cmp).members)[s] ==
            (if s in t.mapping then multiset(inputs)[s] else 0) + (if TargetOfInput(t, inputs, s) then 1 else 0)
  {
    var l := ExpandedList(t, inputs);
    var reg := Registered(t, inputs);
    var targets := l[|reg|..];
    assert l == reg + targets;
    assert multiset(targets)[s] == if s in targets then 1 else 0;
  }

  /** `expand` of inputs none of which is registered is empty. */
  lemma ExpandUnregistered(t: AliasTable, inputs: seq<string>, cmp: (string, string) -> int)
    requires forall x :: x in inputs ==> x !in t.mapping
    ensures Expand(t, inputs, cmp).members == []
  {
  }
}
