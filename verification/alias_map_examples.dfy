/** The alias tables of spec/bolder/scopes/map_spec.rb and of the doc comments
    of lib/bolder/scopes/map.rb, with what `map` and `expand` give on them. */
module AliasMapExamples {
  import opened Seqs
  import opened AliasMap
  import Scopes
  import ScopesExamples
  import Text

  function Id(s: string): string {
    s
  }

  /** The hash of map_spec.rb lines 8-11 and 19-22, as written. */
  const StaffEntries: seq<(string, Target<string>)> := [
    ("admin", List(["btc.me", "btc.account.shops.mine"])),
    ("public", List(["btc.me", "btc.shops.list.public"]))
  ]

  /** The table as built. */
  const Staff: AliasTable :=
    AliasTable(map["admin" := ["btc.me", "btc.account.shops.mine"], "public" := ["btc.me", "btc.shops.list.public"]])

  /** Building the table registers both keys with their lists. */
  lemma StaffTable()
    ensures Build(StaffEntries, Id, Id) == Staff
  {
    var t := Build(StaffEntries, Id, Id);
    assert LastWithKey(StaffEntries, 0, Id) by {
      assert Id("public") != Id("admin");
    }
    BuildLastWins(StaffEntries, Id, Id, 0);
    BuildLastWins(StaffEntries, Id, Id, 1);
    assert TargetStrings(List(["btc.me", "btc.account.shops.mine"]), Id) == ["btc.me", "btc.account.shops.mine"];
    assert TargetStrings(List(["btc.me", "btc.shops.list.public"]), Id) == ["btc.me", "btc.shops.list.public"];
    assert t.mapping.Keys == Staff.mapping.Keys;
  }

  lemma DistinctPair(a: string, b: string)
    requires a != b
    ensures Distinct([a, b])
  {
    forall x
      ensures multiset([a, b])[x] <= 1
    {
      assert multiset([a, b]) == multiset{a} + multiset{b};
    }
  }

  lemma DistinctTriple(a: string, b: string, c: string)
    requires a != b && a != c && b != c
    ensures Distinct([a, b, c])
  {
    forall x
      ensures multiset([a, b, c])[x] <= 1
    {
      assert multiset([a, b, c]) == multiset{a} + multiset{b} + multiset{c};
    }
  }

  /** What `map` gives on two inputs is what either of them translates to. */
  lemma MapOfTwo(t: AliasTable, a: string, b: string, s: string)
    ensures s in Map(t, [a, b], ScopesExamples.Flat).members <==> Translates(t, a, s) || Translates(t, b, s)
  {
    var r := Map(t, [a, b], ScopesExamples.Flat).members;
    if s in r {
      var x :| x in [a, b] && Translates(t, x, s);
    }
    if Translates(t, a, s) {
      assert a in [a, b];
    }
    if Translates(t, b, s) {
      assert b in [a, b];
    }
  }

  lemma StaffKeys()
    ensures "admin" in Staff.mapping && Staff.mapping["admin"] == ["btc.me", "btc.account.shops.mine"]
    ensures "btc.foo.bar" !in Staff.mapping
  {
  }

  /** `map(%w[admin btc.foo.bar])`: the alias replaced by its two targets, the
      unregistered scope passed through (map_spec.rb lines 13-15). */
  lemma MapsAliases()
    ensures multiset(Map(Staff, ["admin", "btc.foo.bar"], ScopesExamples.Flat).members) ==
            multiset{"btc.me", "btc.account.shops.mine", "btc.foo.bar"}
  {
    var r := Map(Staff, ["admin", "btc.foo.bar"], ScopesExamples.Flat).members;
    var expected := ["btc.me", "btc.account.shops.mine", "btc.foo.bar"];
    StaffKeys();
    forall s
      ensures s in r <==> s in expected
    {
      MapOfTwo(Staff, "admin", "btc.foo.bar", s);
    }
    DistinctTriple("btc.me", "btc.account.shops.mine", "btc.foo.bar");
    DistinctSameMembers(r, expected);
  }

  /** Of a registered and an unregistered input, only the first is kept
      in front of the targets. */
  lemma RegisteredFirst(t: AliasTable, a: string, b: string)
    requires a in t.mapping && b !in t.mapping
    ensures Registered(t, [a, b]) == [a]
  {
    var reg := Registered(t, [a, b]);
    assert forall x :: x in reg <==> x == a;
    assert multiset(reg)[a] == 1;
    assert |reg| == |multiset(reg)|;
  }

  /** Their targets are those of the registered one. */
  lemma TargetsOfFirst(t: AliasTable, a: string, b: string, s: string)
    requires a in t.mapping && b !in t.mapping
    ensures s in ExpandedList(t, [a, b])[|Registered(t, [a, b])|..] <==> s in t.mapping[a]
  {
    if s in ExpandedList(t, [a, b])[|Registered(t, [a, b])|..] {
      var x :| x in [a, b] && x in t.mapping && s in t.mapping[x];
    }
    if s in t.mapping[a] {
      assert a in [a, b];
    }
  }

  /** `expand(%w[admin btc.foo.bar])`: the alias itself, then its targets; the
      unregistered scope is dropped (map_spec.rb lines 24-25). */
  lemma ExpandsAliases()
    ensures multiset(Expand(Staff, ["admin", "btc.foo.bar"], ScopesExamples.Flat).members) ==
            multiset{"admin", "btc.me", "btc.account.shops.mine"}
  {
    StaffAdmin();
    ExpandRegisteredFirst(Staff, "admin", "btc.foo.bar");
  }

  /** `admin` is registered with two distinct targets; `btc.foo.bar` is not registered. */
  lemma StaffAdmin()
    ensures "admin" in Staff.mapping && "btc.foo.bar" !in Staff.mapping && Distinct(Staff.mapping["admin"])
    ensures multiset{"admin"} + multiset(Staff.mapping["admin"]) == multiset{"admin", "btc.me", "btc.account.shops.mine"}
  {
    StaffKeys();
    DistinctPair("btc.me", "btc.account.shops.mine");
  }

  /** `expand` of a registered and an unregistered input gives the registered
      one and its targets. */
  lemma ExpandRegisteredFirst(t: AliasTable, a: string, b: string)
    requires a in t.mapping && b !in t.mapping && Distinct(t.mapping[a])
    ensures multiset(Expand(t, [a, b], ScopesExamples.Flat).members) == multiset{a} + multiset(t.mapping[a])
  {
    ExpandedRegisteredFirst(t, a, b);
    HeadThen(ExpandedList(t, [a, b]), a, multiset(t.mapping[a]));
  }

  /** The expanded list of a registered and an unregistered input: the
      registered one, then its targets. */
  lemma ExpandedRegisteredFirst(t: AliasTable, a: string, b: string)
    requires a in t.mapping && b !in t.mapping && Distinct(t.mapping[a])
    ensures |ExpandedList(t, [a, b])| >= 1
    ensures ExpandedList(t, [a, b])[..1] == [a]
    ensures multiset(ExpandedList(t, [a, b])[1..]) == multiset(t.mapping[a])
  {
    RegisteredFirst(t, a, b);
    var l := ExpandedList(t, [a, b]);
    forall s
      ensures s in l[1..] <==> s in t.mapping[a]
    {
      TargetsOfFirst(t, a, b, s);
    }
    DistinctSameMembers(l[1..], t.mapping[a]);
  }


  /** `expand(%w[nope])` is empty, so `any?` is false (map_spec.rb line 26). */
  lemma ExpandNothingRegistered()
    ensures Expand(Staff, ["nope"], ScopesExamples.Flat).members == []
  {
    ExpandUnregistered(Staff, ["nope"], ScopesExamples.Flat);
  }

  /** An alias given twice, and not among its own targets, comes out of
      `expand` twice. */
  lemma RepeatedAlias(t: AliasTable, a: string)
    requires a in t.mapping && a !in t.mapping[a]
    ensures multiset(Expand(t, [a, a], ScopesExamples.Flat).members)[a] == 2
  {
    RepeatedInput(t, a);
    ExpandCount(t, [a, a], ScopesExamples.Flat, a);
  }

  /** An alias given twice occurs twice in the input, and is a target of a
      given alias only if it is one of its own. */
  lemma RepeatedInput(t: AliasTable, a: string)
    requires a in t.mapping && a !in t.mapping[a]
    ensures multiset([a, a])[a] == 2
    ensures !TargetOfInput(t, [a, a], a)
  {
    assert forall x :: x in [a, a] ==> x == a;
  }

  /** An alias that is also a target of another given alias comes out of
      `expand` twice: once as a registered input, once as a target. */
  lemma AliasAlsoTarget(t: AliasTable, a: string, b: string)
    requires a in t.mapping && b in t.mapping && a != b
    requires a in t.mapping[b] && a !in t.mapping[a]
    ensures multiset(Expand(t, [a, b], ScopesExamples.Flat).members)[a] == 2
  {
    TargetInput(t, a, b);
    ExpandCount(t, [a, b], ScopesExamples.Flat, a);
  }

  /** a occurs once among two different inputs, and is a target of the other one. */
  lemma TargetInput(t: AliasTable, a: string, b: string)
    requires b in t.mapping && a != b && a in t.mapping[b]
    ensures multiset([a, b])[a] == 1
    ensures TargetOfInput(t, [a, b], a)
  {
    assert b in [a, b];
  }

  /** `expand` deduplicates only the targets: a repeated alias comes out twice. */
  lemma ExpandKeepsRepeatedAlias()
    ensures multiset(Expand(Staff, ["admin", "admin"], ScopesExamples.Flat).members)["admin"] == 2
  {
    StaffKeys();
    RepeatedAlias(Staff, "admin");
  }

  /** `expand([a])` for an alias a whose one target is b holds a and b. */
  lemma ExpandSingle(t: AliasTable, a: string, b: string)
    requires a in t.mapping && t.mapping[a] == [b]
    ensures multiset(Expand(t, [a], ScopesExamples.Flat).members) == multiset{a, b}
  {
    ExpandedSingle(t, a, b);
    HeadThen(ExpandedList(t, [a]), a, multiset{b});
  }

  /** A list made of a, then the elements m, holds a and m. */
  lemma HeadThen(l: seq<string>, a: string, m: multiset<string>)
    requires |l| >= 1 && l[..1] == [a] && multiset(l[1..]) == m
    ensures multiset(l) == multiset{a} + m
  {
    assert l == l[..1] + l[1..];
  }

  /** The expanded list of a single alias: the alias, then its one target. */
  lemma ExpandedSingle(t: AliasTable, a: string, b: string)
    requires a in t.mapping && t.mapping[a] == [b]
    ensures |ExpandedList(t, [a])| >= 1
    ensures ExpandedList(t, [a])[..1] == [a]
    ensures multiset(ExpandedList(t, [a])[1..]) == multiset{b}
  {
    FilterOne(a, x => x in t.mapping);
    assert Registered(t, [a]) == [a];
    var l := ExpandedList(t, [a]);
    forall s
      ensures s in l[1..] <==> s in [b]
    {
      assert s in l[1..] <==> exists x :: x in [a] && x in t.mapping && s in t.mapping[x];
    }
    DistinctSameMembers(l[1..], [b]);
  }


  /** The table of the doc example of map.rb line 36: a single target becomes
      a one-element list. */
  lemma SingleTargetTable()
    ensures Build([("read", Single("read.users"))], Id, Id) == AliasTable(map["read" := ["read.users"]])
  {
    var t := Build([("read", Single("read.users"))], Id, Id);
    BuildLastWins([("read", Single("read.users"))], Id, Id, 0);
    assert t.mapping.Keys == {"read"};
  }

  /** The doc example of map.rb lines 36-37, called with a one-element list:
      `Map.new('read' => 'read.users').expand(['read'])` gives the alias and
      its target. */
  lemma SingleTargetExpand()
    ensures Build([("read", Single("read.users"))], Id, Id).mapping == map["read" := ["read.users"]]
    ensures multiset(Expand(Build([("read", Single("read.users"))], Id, Id), ["read"], ScopesExamples.Flat).members) ==
            multiset{"read", "read.users"}
  {
    SingleTargetTable();
    ExpandSingle(AliasTable(map["read" := ["read.users"]]), "read", "read.users");
  }

  /** A one-element result is the single member that `map` may give. */
  lemma MapOfOne(t: AliasTable, x: string, y: string)
    requires forall s :: Translates(t, x, s) <==> s == y
    ensures Map(t, [x], ScopesExamples.Flat).members == [y]
  {
    var r := Map(t, [x], ScopesExamples.Flat).members;
    forall s
      ensures s in r <==> s in [y]
    {
      assert (exists z :: z in [x] && Translates(t, z, s)) <==> Translates(t, x, s) by {
        assert forall z :: z in [x] <==> z == x;
      }
    }
    DistinctSameMembers(r, [y]);
    assert |r| == 1 && r[0] in r;
  }

  /** The doc comment of map.rb lines 7-9, called with one-element lists (a
      bare String has no `to_a`): `map(['read'])` gives `read.users`. The
      comment promises the same for `read:users`, but the code looks the
      string up as it is, finds no key, and passes it through. */
  lemma DocExamples()
    ensures Map(AliasTable(map["read" := ["read.users"]]), ["read"], ScopesExamples.Flat).members == ["read.users"]
    ensures Map(AliasTable(map["read" := ["read.users"]]), ["read:users"], ScopesExamples.Flat).members == ["read:users"]
  {
    var t := AliasTable(map["read" := ["read.users"]]);
    assert "read:users" !in t.mapping;
    MapOfOne(t, "read", "read.users");
    MapOfOne(t, "read:users", "read:users");
  }

  /** The tree of map_spec.rb lines 30-37 makes the scopes `api.admin`,
      `api.me` and `api.products`; the table of lines 39-42 uses their string
      forms as keys and targets, next to the plain key `guest`. */
  const TreeEntries: seq<(seq<string>, Target<seq<string>>)> := [
    (["api", "admin"], List([["api", "me"], ["api", "products"]])),
    (["guest"], List([["api", "me"]]))
  ]

  function Dotted(segments: seq<string>): string {
    Text.Join(segments, ".")
  }

  /** The table as built from the stringified cursors. */
  const TreeAliases: AliasTable :=
    AliasTable(map["api.admin" := ["api.me", "api.products"], "guest" := ["api.me"]])

  lemma DottedForms()
    ensures Dotted(["api", "admin"]) == "api.admin"
    ensures Dotted(["api", "me"]) == "api.me"
    ensures Dotted(["api", "products"]) == "api.products"
    ensures Dotted(["guest"]) == "guest"
  {
  }

  lemma TreeTable()
    ensures Build(TreeEntries, Dotted, Dotted) == TreeAliases
  {
    DottedForms();
    var t := Build(TreeEntries, Dotted, Dotted);
    assert LastWithKey(TreeEntries, 0, Dotted);
    BuildLastWins(TreeEntries, Dotted, Dotted, 0);
    BuildLastWins(TreeEntries, Dotted, Dotted, 1);
    assert TargetStrings(List([["api", "me"], ["api", "products"]]), Dotted) == ["api.me", "api.products"];
    assert TargetStrings(List([["api", "me"]]), Dotted) == ["api.me"];
    assert t.mapping.Keys == TreeAliases.mapping.Keys;
  }

  /** `map` with stringified cursors as keys: `api.admin` gives both targets
      (map_spec.rb line 44). */
  lemma MapsTreeAdmin()
    ensures multiset(Map(TreeAliases, ["api.admin"], ScopesExamples.Flat).members) == multiset{"api.me", "api.products"}
  {
    var r := Map(TreeAliases, ["api.admin"], ScopesExamples.Flat).members;
    var expected := ["api.me", "api.products"];
    forall s
      ensures s in r <==> s in expected
    {
      assert s in r <==> Translates(TreeAliases, "api.admin", s);
    }
    assert Distinct(expected) by {
      forall x
        ensures multiset(expected)[x] <= 1
      {
      }
    }
    DistinctSameMembers(r, expected);
  }

  /** `guest` gives `api.me`, and `api.me`, no key, passes through
      (map_spec.rb lines 45-46). */
  lemma MapsTreeGuest()
    ensures Map(TreeAliases, ["guest"], ScopesExamples.Flat).members == ["api.me"]
    ensures Map(TreeAliases, ["api.me"], ScopesExamples.Flat).members == ["api.me"]
  {
    var t := TreeAliases;
    assert "guest" in t.mapping && t.mapping["guest"] == ["api.me"];
    assert "api.me" !in t.mapping;
    MapOfOne(t, "guest", "api.me");
    MapOfOne(t, "api.me", "api.me");
  }

}
