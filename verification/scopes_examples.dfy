/** Concrete consequences of the `Scopes` contracts, on scopes small enough to
    write down: the constructor keeps duplicates, `merge` drops them, `can?`
    does not imply `<=>`, and the `expand` example of lib/bolder/scopes.rb. */
module ScopesExamples {
  import opened Wrappers
  import opened Seqs
  import opened Scopes

  /** Scopes compared by equality alone: each covers only itself. */
  predicate Same(x: string, y: string) {
    x == y
  }

  /** Any order will do: only the members are asserted. */
  function Flat(x: string, y: string): int {
    0
  }

  /** The constructor sorts but does not deduplicate: a scope given twice is
      held twice. */
  lemma ConstructorKeepsDuplicates<T(!new)>(x: T, cmp: (T, T) -> int)
    ensures New([x, x], cmp).members == [x, x]
  {
    var r := New([x, x], cmp).members;
    assert |r| == 2;
    assert r[0] in r && r[1] in r;
  }

  /** Merging a one-scope collection with itself gives that scope once. */
  lemma MergeDropsDuplicates<T(!new)>(x: T, cmp: (T, T) -> int)
    ensures Merge(Scopes([x]), Collection(Scopes([x])), cmp) == Ok(Scopes([x]))
  {
    var a := Scopes([x]);
    assert Distinct(a.members) by {
      forall y
        ensures multiset(a.members)[y] <= 1
      {
      }
    }
    MergeSelf(a, cmp);
    var r := Merge(a, Collection(a), cmp).value.members;
    assert multiset(r) == multiset{x};
    assert |r| == |multiset(r)| == 1;
    assert r[0] in r;
    assert r == [x];
  }

  /** `can?` asks for one pair in the covering relation, `<=>` for one scope
      covering all of the other side: a scope matching only part of an array
      makes the first true and the second -1. */
  lemma CanDoesNotImplyCompare(x: string, y: string)
    requires x != y
    ensures Can(Scopes([x]), Items([x, y]), Same, Flat)
    ensures Compare(Scopes([x]), Items([x, y]), Same, Flat) == -1
  {
    assert x in Scopes([x]).members && x in OperandMembers(Items([x, y])) && Same(x, x);
    assert forall z :: z in Scopes([x]).members ==> y in OperandMembers(Items([x, y])) && !Same(z, y);
  }

  /** `resolve` returns the first member, in stored order, that covers the
      query; with equality as the covering relation that is the query itself. */
  lemma ResolveBySameness(members: seq<string>, q: string)
    ensures q in members ==> Resolve(Scopes(members), q, Same) == Some(q)
    ensures q !in members ==> Resolve(Scopes(members), q, Same) == None
  {
  }

  /** A scope as its segments; `expand` replaces every segment that names an
      attribute by the attribute's value. */
  function Substitute(attrs: map<string, string>): seq<string> -> seq<string> {
    s => seq(|s|, i requires 0 <= i < |s| => if s[i] in attrs then attrs[s[i]] else s[i])
  }

  function Lex(x: seq<string>, y: seq<string>): int {
    0
  }

  /** A two-segment scope whose second segment names an attribute. */
  lemma SubstituteLast(attrs: map<string, string>, p: string, k: string)
    requires p !in attrs && k in attrs
    ensures Substitute(attrs)([p, k]) == [p, attrs[k]]
  {
  }

  /** `expand` of two scopes holds their two substitutes. */
  lemma ExpandTwo<T(!new)>(x: T, y: T, subst: T -> T, cmp: (T, T) -> int)
    ensures multiset(Expand(Scopes([x, y]), subst, cmp).members) == multiset{subst(x), subst(y)}
  {
    var a := Scopes([x, y]);
    var substituted := seq(|a.members|, i requires 0 <= i < |a.members| => subst(a.members[i]));
    assert substituted == [subst(x), subst(y)];
    assert multiset(Expand(a, subst, cmp).members) == multiset(substituted);
  }

  /** The example of scopes.rb lines 83-85: `accounts.my-account` and
      `shops.my-shop` expanded with `my-account => 1, my-shop => 2`. */
  lemma ExpandDocExample()
    ensures multiset(Expand(Scopes([["accounts", "my-account"], ["shops", "my-shop"]]),
                            Substitute(map["my-account" := "1", "my-shop" := "2"]), Lex).members) ==
            multiset{["accounts", "1"], ["shops", "2"]}
  {
    var attrs := map["my-account" := "1", "my-shop" := "2"];
    SubstituteLast(attrs, "accounts", "my-account");
    SubstituteLast(attrs, "shops", "my-shop");
    ExpandTwo(["accounts", "my-account"], ["shops", "my-shop"], Substitute(attrs), Lex);
  }
}
