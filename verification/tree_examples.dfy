/** The grammars of spec/bolder/scopes/tree_spec.rb and the navigations its
    examples assert, checked against the model of module Tree. */
module TreeExamples {
  import opened Wrappers
  import opened Tree
  import Text

  /** The constraint `/^\d+$/`, read as: non-empty, decimal digits only. */
  predicate IsInteger(s: string) {
    |s| > 0 && forall i :: 0 <= i < |s| ==> '0' <= s[i] <= '9'
  }

  /** The nodes of the tree of tree_spec.rb lines 8-12:
      bolder.api.products.{own, all}.read and bolder.api.orders.own.read. */
  function CatalogNode(id: NodeId): Node {
    match id
    case 0 => Node(map["api" := 1], None)
    case 1 => Node(map["products" := 2, "orders" := 7], None)
    case 2 => Node(map["own" := 3, "all" := 5], None)
    case 3 => Node(map["read" := 4], None)
    case 5 => Node(map["read" := 6], None)
    case 7 => Node(map["own" := 8], None)
    case 8 => Node(map["read" := 9], None)
    case _ => Node(map[], None)
  }

  const Catalog: Grammar := Grammar("bolder", 0, map id: NodeId | id < 10 :: CatalogNode(id))

  /** The nodes of the tree of tree_spec.rb lines 35-40:
      bolder.api.products.{own.{read, delete}, all.read} and bolder.api.orders.own.read. */
  function ProductsNode(id: NodeId): Node {
    match id
    case 0 => Node(map["api" := 1], None)
    case 1 => Node(map["products" := 2, "orders" := 7], None)
    case 2 => Node(map["own" := 3, "all" := 5], None)
    case 3 => Node(map["read" := 4, "delete" := 9], None)
    case 5 => Node(map["read" := 6], None)
    case 7 => Node(map["own" := 8], None)
    case 8 => Node(map["read" := 10], None)
    case _ => Node(map[], None)
  }

  const Products: Grammar := Grammar("bolder", 0, map id: NodeId | id < 11 :: ProductsNode(id))

  /** The nodes of the tree of tree_spec.rb lines 124-160. Node 2 (`accounts`)
      has an any-node with two aliases and the integer constraint; `orders` (12)
      has one with the constraint only; `contacts`, `products` and `settings`
      have plain any-nodes. */
  function AccountsNode(id: NodeId): Node {
    match id
    case 0 => Node(map["api" := 1], None)
    case 1 => Node(map["accounts" := 2], None)
    case 2 => Node(map[], Some(AnyNode({"resource_account", "own_account"}, Some(IsInteger), 3)))
    case 3 => Node(map["shops" := 4], None)
    case 4 => Node(map["resource_shops" := 5], None)
    case 5 => Node(map["contacts" := 6, "products" := 9, "orders" := 12, "settings" := 15], None)
    case 6 => Node(map[], Some(AnyNode({}, None, 7)))
    case 7 => Node(map["read" := 8], None)
    case 9 => Node(map[], Some(AnyNode({}, None, 10)))
    case 10 => Node(map["read" := 11], None)
    case 12 => Node(map[], Some(AnyNode({}, Some(IsInteger), 13)))
    case 13 => Node(map["read" := 14], None)
    case 15 => Node(map[], Some(AnyNode({}, None, 16)))
    case 16 => Node(map["update" := 17], None)
    case _ => Node(map[], None)
  }

  const Accounts: Grammar := Grammar("bolder", 0, map id: NodeId | id < 18 :: AccountsNode(id))

  lemma ProductsWellFormed()
    ensures WellFormed(Products)
  {
  }

  lemma AccountsWellFormed()
    ensures WellFormed(Accounts)
  {
  }

  /** Unfolds one accepted move of a walk. */
  lemma WalkFirst(g: Grammar, c: Cursor, m: Move, rest: seq<Move>, next: Cursor)
    requires WellFormed(g) && Live(g, c)
    requires Apply(g, c, m) == Ok(next)
    ensures Walk(g, c, [m] + rest) == Walk(g, next, rest)
  {
    assert ([m] + rest)[0] == m;
    assert ([m] + rest)[1..] == rest;
  }

  /** Unfolds a rejected move of a walk. */
  lemma WalkRejected(g: Grammar, c: Cursor, m: Move, rest: seq<Move>)
    requires WellFormed(g) && Live(g, c)
    requires Apply(g, c, m).Err?
    ensures Walk(g, c, [m] + rest).Err?
  {
    assert ([m] + rest)[0] == m;
  }

  /** A one-candidate step to a single node. */
  lemma LookupStep(g: Grammar, c: Cursor, n: NodeId, k: string, m: NodeId)
    requires WellFormed(g) && Live(g, c) && c.candidates == {n}
    requires Targets(g.nodes[n], k) == {m}
    ensures Apply(g, c, Key(k)) == Ok(Cursor(c.segments + [k], {m}))
  {
    SingleCandidate(g, c, n, k);
    assert c.segments + [k] == Cursor(c.segments + [k], {m}).segments;
  }

  /** A one-candidate value call to the any-node's subtree. */
  lemma ValueLookup(g: Grammar, c: Cursor, n: NodeId, call: ValueCall, m: NodeId)
    requires WellFormed(g) && Live(g, c) && c.candidates == {n}
    requires g.nodes[n].any.Some? && g.nodes[n].any.value.child == m
    requires |call.atoms| > 0 && AcceptsValues(g.nodes[n], ValueStrings(call))
    ensures Apply(g, c, Value(call)) == Ok(Cursor(c.segments + [RenderValues(ValueStrings(call))], {m}))
  {
    AnyNodeShared(g, c, n, Wildcard, call);
  }

  /** A one-candidate step by a key the node does not know. */
  lemma KeyRejected(g: Grammar, c: Cursor, n: NodeId, k: string)
    requires WellFormed(g) && Live(g, c) && c.candidates == {n}
    requires Targets(g.nodes[n], k) == {}
    ensures Apply(g, c, Key(k)).Err?
  {
  }

  /** A one-candidate value call the node does not accept. */
  lemma ValueRejected(g: Grammar, c: Cursor, n: NodeId, call: ValueCall)
    requires WellFormed(g) && Live(g, c) && c.candidates == {n}
    requires !AcceptsValues(g.nodes[n], ValueStrings(call))
    ensures Apply(g, c, Value(call)).Err?
  {
  }

  lemma ProductsApi()
    ensures WellFormed(Products)
    ensures Apply(Products, Cursor(["bolder"], {0}), Key("api")) == Ok(Cursor(["bolder", "api"], {1}))
  {
    ProductsWellFormed();
    LookupStep(Products, Cursor(["bolder"], {0}), 0, "api", 1);
    assert ["bolder"] + ["api"] == ["bolder", "api"];
  }

  lemma ProductsProducts()
    ensures WellFormed(Products)
    ensures Apply(Products, Cursor(["bolder", "api"], {1}), Key("products")) == Ok(Cursor(["bolder", "api", "products"], {2}))
  {
    ProductsWellFormed();
    LookupStep(Products, Cursor(["bolder", "api"], {1}), 1, "products", 2);
    assert ["bolder", "api"] + ["products"] == ["bolder", "api", "products"];
  }

  /** `products.*` makes both `own` and `all` candidates. */
  lemma ProductsStar()
    ensures WellFormed(Products)
    ensures Apply(Products, Cursor(["bolder", "api", "products"], {2}), Key("*")) == Ok(Cursor(["bolder", "api", "products", "*"], {3, 5}))
  {
    var g := Products;
    ProductsWellFormed();
    var c := Cursor(["bolder", "api", "products"], {2});
    SingleCandidate(g, c, 2, "*");
    assert c.segments + ["*"] == ["bolder", "api", "products", "*"];
    assert g.nodes[2].children.Values == {3, 5} by {
      assert g.nodes[2].children["own"] == 3;
      assert g.nodes[2].children["all"] == 5;
    }
  }

  /** `read` is a child of both `own` and `all`. */
  lemma ProductsStarRead()
    ensures WellFormed(Products)
    ensures Apply(Products, Cursor(["bolder", "api", "products", "*"], {3, 5}), Key("read")).Ok?
    ensures Apply(Products, Cursor(["bolder", "api", "products", "*"], {3, 5}), Key("read")).value.segments ==
              ["bolder", "api", "products", "*", "read"]
  {
    ProductsWellFormed();
    assert ["bolder", "api", "products", "*"] + ["read"] == ["bolder", "api", "products", "*", "read"];
    assert Targets(Products.nodes[3], "read") == {4};
    assert Targets(Products.nodes[5], "read") == {6};
  }

  /** `delete` is a child of `own` only. */
  lemma ProductsStarDelete()
    ensures WellFormed(Products)
    ensures Apply(Products, Cursor(["bolder", "api", "products", "*"], {3, 5}), Key("delete")).Err?
  {
    ProductsWellFormed();
    assert Targets(Products.nodes[5], "delete") == {};
  }

  lemma JoinProductsStarRead()
    ensures Text.Join(["bolder", "api", "products", "*", "read"], ".") == "bolder.api.products.*.read"
  {
  }

  /** The cursor `bolder.api.products.*.read` (tree_spec.rb lines 19-20). */
  lemma ProductsStarReadWalk(g: Grammar)
    requires g == Products
    ensures WellFormed(g)
    ensures Walk(g, Cursor(["bolder"], {0}), [Key("api"), Key("products"), Key("*"), Key("read")]).Ok?
    ensures Walk(g, Cursor(["bolder"], {0}), [Key("api"), Key("products"), Key("*"), Key("read")]).value.segments ==
              ["bolder", "api", "products", "*", "read"]
  {
    ProductsApi();
    ProductsProducts();
    ProductsStar();
    ProductsStarRead();
    var c0 := Cursor(["bolder"], {0});
    var c1 := Cursor(["bolder", "api"], {1});
    var c2 := Cursor(["bolder", "api", "products"], {2});
    var c3 := Cursor(["bolder", "api", "products", "*"], {3, 5});
    var c4 := Apply(g, c3, Key("read")).value;
    WalkFirst(g, c3, Key("read"), [], c4);
    WalkFirst(g, c2, Key("*"), [Key("read")], c3);
    WalkFirst(g, c1, Key("products"), [Key("*"), Key("read")], c2);
    WalkFirst(g, c0, Key("api"), [Key("products"), Key("*"), Key("read")], c1);
  }

  /** `products.*.delete` is rejected, since `all` has no `delete` (tree_spec.rb lines 45-47). */
  lemma ProductsStarDeleteWalk(g: Grammar)
    requires g == Products
    ensures WellFormed(g)
    ensures Walk(g, Cursor(["bolder"], {0}), [Key("api"), Key("products"), Key("*"), Key("delete")]).Err?
  {
    ProductsApi();
    ProductsProducts();
    ProductsStar();
    ProductsStarDelete();
    var c0 := Cursor(["bolder"], {0});
    var c1 := Cursor(["bolder", "api"], {1});
    var c2 := Cursor(["bolder", "api", "products"], {2});
    var c3 := Cursor(["bolder", "api", "products", "*"], {3, 5});
    WalkRejected(g, c3, Key("delete"), []);
    WalkFirst(g, c2, Key("*"), [Key("delete")], c3);
    WalkFirst(g, c1, Key("products"), [Key("*"), Key("delete")], c2);
    WalkFirst(g, c0, Key("api"), [Key("products"), Key("*"), Key("delete")], c1);
  }

  /** `products.*.read` is accepted and renders with the wildcard; `products.*.delete`
      is rejected: after `*` a key must be a child of every alternative
      (tree_spec.rb lines 19-20, 45-47). */
  lemma ProductsWildcardIntersection(g: Grammar)
    requires g == Products
    ensures WellFormed(g)
    ensures Navigate(g, "bolder", [Key("api"), Key("products"), Key("*"), Key("read")]).Ok?
    ensures ToS(Navigate(g, "bolder", [Key("api"), Key("products"), Key("*"), Key("read")]).value) == "bolder.api.products.*.read"
    ensures ToA(Navigate(g, "bolder", [Key("api"), Key("products"), Key("*"), Key("read")]).value) == ["bolder", "api", "products", "*", "read"]
    ensures Navigate(g, "bolder", [Key("api"), Key("products"), Key("*"), Key("delete")]).Err?
  {
    ProductsStarReadWalk(g);
    ProductsStarDeleteWalk(g);
    JoinProductsStarRead();
  }

  /** The edges of the accounts tree between the root and `resource_shops`. */
  lemma AccountsUpperEdges()
    ensures Targets(Accounts.nodes[0], "api") == {1}
    ensures Targets(Accounts.nodes[1], "accounts") == {2}
    ensures Accounts.nodes[2] == Node(map[], Some(AnyNode({"resource_account", "own_account"}, Some(IsInteger), 3)))
    ensures Targets(Accounts.nodes[3], "shops") == {4}
    ensures Accounts.nodes[4] == Node(map["resource_shops" := 5], None)
  {
  }

  /** The edges of the accounts tree below `resource_shops`. */
  lemma AccountsLowerEdges()
    ensures Targets(Accounts.nodes[5], "products") == {9}
    ensures Targets(Accounts.nodes[5], "orders") == {12}
    ensures Targets(Accounts.nodes[5], "settings") == {15}
    ensures Accounts.nodes[9].any == Some(AnyNode({}, None, 10))
    ensures Targets(Accounts.nodes[10], "read") == {11}
    ensures Accounts.nodes[12].any == Some(AnyNode({}, Some(IsInteger), 13))
    ensures Targets(Accounts.nodes[13], "read") == {14}
    ensures Accounts.nodes[15].any == Some(AnyNode({}, None, 16))
    ensures Targets(Accounts.nodes[16], "read") == {}
  {
  }

  /** `api.accounts` from the root reaches the accounts any-node (2). */
  lemma AccountsPrefix(g: Grammar, c: Cursor)
    requires g == Accounts && Live(g, c) && c.candidates == {0}
    ensures WellFormed(g)
    ensures Walk(g, c, [Key("api"), Key("accounts")]) == Ok(Cursor(c.segments + ["api", "accounts"], {2}))
  {
    AccountsWellFormed();
    AccountsUpperEdges();
    LookupStep(g, c, 0, "api", 1);
    var c1 := Cursor(c.segments + ["api"], {1});
    LookupStep(g, c1, 1, "accounts", 2);
    var c2 := Cursor(c1.segments + ["accounts"], {2});
    WalkFirst(g, c1, Key("accounts"), [], c2);
    WalkFirst(g, c, Key("api"), [Key("accounts")], c1);
    assert c.segments + ["api"] + ["accounts"] == c.segments + ["api", "accounts"];
  }

  /** Under `accounts`, both aliases, `*` and every all-digit value lead to the
      one account subtree (3). */
  lemma AccountChosen(g: Grammar, c: Cursor, m: Move)
    requires g == Accounts && Live(g, c) && c.candidates == {2}
    requires || m == Key("resource_account") || m == Key("own_account") || m == Key("*")
             || (m.Value? && |m.call.atoms| > 0 && forall v :: v in ValueStrings(m.call) ==> IsInteger(v))
    ensures WellFormed(g)
    ensures Apply(g, c, m) == Ok(Cursor(c.segments + [Rendered(m)], {3}))
  {
    AccountsWellFormed();
    AccountsUpperEdges();
    match m
    case Key(k) =>
      LookupStep(g, c, 2, k, 3);
    case Value(call) =>
      ValueLookup(g, c, 2, call, 3);
  }

  /** Under `accounts`, a value that is not all digits is rejected. */
  lemma AccountRejected(g: Grammar, c: Cursor, call: ValueCall)
    requires g == Accounts && Live(g, c) && c.candidates == {2}
    requires exists v :: v in ValueStrings(call) && !IsInteger(v)
    ensures WellFormed(g)
    ensures Apply(g, c, Value(call)).Err?
  {
    AccountsWellFormed();
    AccountsUpperEdges();
    ValueRejected(g, c, 2, call);
  }

  /** `shops.*` from an account reaches `resource_shops` (5), the only child. */
  lemma ShopsAll(g: Grammar, c: Cursor)
    requires g == Accounts && Live(g, c) && c.candidates == {3}
    ensures WellFormed(g)
    ensures Walk(g, c, [Key("shops"), Key("*")]).Ok?
    ensures Walk(g, c, [Key("shops"), Key("*")]).value.candidates == {5}
  {
    AccountsWellFormed();
    AccountsUpperEdges();
    LookupStep(g, c, 3, "shops", 4);
    var c1 := Cursor(c.segments + ["shops"], {4});
    assert g.nodes[4].children.Values == {5} by {
      assert g.nodes[4].children["resource_shops"] == 5;
    }
    LookupStep(g, c1, 4, Wildcard, 5);
    var c2 := Cursor(c1.segments + [Wildcard], {5});
    WalkFirst(g, c1, Key("*"), [], c2);
    WalkFirst(g, c, Key("shops"), [Key("*")], c1);
  }

  /** `shops` has no any-node, so a free value after it is rejected. */
  lemma ShopsValueRejected(g: Grammar, c: Cursor, call: ValueCall)
    requires g == Accounts && Live(g, c) && c.candidates == {3}
    ensures WellFormed(g)
    ensures Walk(g, c, [Key("shops"), Value(call)]).Err?
  {
    AccountsWellFormed();
    AccountsUpperEdges();
    LookupStep(g, c, 3, "shops", 4);
    var c1 := Cursor(c.segments + ["shops"], {4});
    FreeValues(g, c1, 4, call);
    WalkRejected(g, c1, Value(call), []);
    WalkFirst(g, c, Key("shops"), [Value(call)], c1);
  }

  /** `products.*.read` from `resource_shops` (5) is accepted. */
  lemma ProductsRead(g: Grammar, c: Cursor)
    requires g == Accounts && Live(g, c) && c.candidates == {5}
    ensures WellFormed(g)
    ensures Walk(g, c, [Key("products"), Key("*"), Key("read")]).Ok?
  {
    AccountsWellFormed();
    AccountsLowerEdges();
    LookupStep(g, c, 5, "products", 9);
    var c1 := Cursor(c.segments + ["products"], {9});
    AnyNodeShared(g, c1, 9, Wildcard, Args([]));
    var c2 := Cursor(c1.segments + [Wildcard], {10});
    LookupStep(g, c2, 10, "read", 11);
    var c3 := Cursor(c2.segments + ["read"], {11});
    WalkFirst(g, c2, Key("read"), [], c3);
    WalkFirst(g, c1, Key("*"), [Key("read")], c2);
    WalkFirst(g, c, Key("products"), [Key("*"), Key("read")], c1);
  }

  /** `orders.(v...).read` from `resource_shops` is accepted when every value is all digits. */
  lemma OrdersRead(g: Grammar, c: Cursor, call: ValueCall)
    requires g == Accounts && Live(g, c) && c.candidates == {5}
    requires |call.atoms| > 0 && forall v :: v in ValueStrings(call) ==> IsInteger(v)
    ensures WellFormed(g)
    ensures Walk(g, c, [Key("orders"), Value(call), Key("read")]).Ok?
  {
    AccountsWellFormed();
    AccountsLowerEdges();
    LookupStep(g, c, 5, "orders", 12);
    var c1 := Cursor(c.segments + ["orders"], {12});
    ValueLookup(g, c1, 12, call, 13);
    var c2 := Cursor(c1.segments + [RenderValues(ValueStrings(call))], {13});
    LookupStep(g, c2, 13, "read", 14);
    var c3 := Cursor(c2.segments + ["read"], {14});
    WalkFirst(g, c2, Key("read"), [], c3);
    WalkFirst(g, c1, Value(call), [Key("read")], c2);
    WalkFirst(g, c, Key("orders"), [Value(call), Key("read")], c1);
  }

  /** `orders._value(v)` is rejected when a value is not all digits. */
  lemma OrdersValueRejected(g: Grammar, c: Cursor, call: ValueCall)
    requires g == Accounts && Live(g, c) && c.candidates == {5}
    requires exists v :: v in ValueStrings(call) && !IsInteger(v)
    ensures WellFormed(g)
    ensures Walk(g, c, [Key("orders"), Value(call)]).Err?
  {
    AccountsWellFormed();
    AccountsLowerEdges();
    LookupStep(g, c, 5, "orders", 12);
    var c1 := Cursor(c.segments + ["orders"], {12});
    assert !AcceptsValues(g.nodes[12], ValueStrings(call)) by {
      var v :| v in ValueStrings(call) && !IsInteger(v);
      assert g.nodes[12].any.value.constraint == Some(IsInteger);
    }
    ValueRejected(g, c1, 12, call);
    WalkRejected(g, c1, Value(call), []);
    WalkFirst(g, c, Key("orders"), [Value(call)], c1);
  }

  /** `settings.*.read` is rejected: the settings subtree only has `update`. */
  lemma SettingsReadRejected(g: Grammar, c: Cursor)
    requires g == Accounts && Live(g, c) && c.candidates == {5}
    ensures WellFormed(g)
    ensures Walk(g, c, [Key("settings"), Key("*"), Key("read")]).Err?
  {
    AccountsWellFormed();
    AccountsLowerEdges();
    LookupStep(g, c, 5, "settings", 15);
    var c1 := Cursor(c.segments + ["settings"], {15});
    AnyNodeShared(g, c1, 15, Wildcard, Args([]));
    var c2 := Cursor(c1.segments + [Wildcard], {16});
    KeyRejected(g, c2, 16, "read");
    WalkRejected(g, c2, Key("read"), []);
    WalkFirst(g, c1, Key("*"), [Key("read")], c2);
    WalkFirst(g, c, Key("settings"), [Key("*"), Key("read")], c1);
  }


  /** The free values the accepted examples pass, as strings: all digits. */
  lemma DigitValues()
    ensures ValueStrings(Args([Text("123")])) == ["123"] && IsInteger("123")
    ensures ValueStrings(Args([Number(1), Text("2")])) == ["1", "2"] && IsInteger("1") && IsInteger("2")
    ensures ValueStrings(ListArg([Number(1), Text("2")])) == ["1", "2"]
    ensures RenderValues(["1", "2"]) == "(1,2)"
  {
    assert NatToString(1) == "1";
    assert Text.Join(["1", "2"], ",") == "1,2";
  }

  /** The segments the all-digit value calls of lines 163 and 165-167 render to. */
  lemma DigitSegments()
    ensures Rendered(Value(Args([Text("123")]))) == "123"
    ensures Rendered(Value(Args([Number(1), Text("2")]))) == "(1,2)"
    ensures Rendered(Value(ListArg([Number(1), Text("2")]))) == "(1,2)"
  {
    DigitValues();
  }

  /** The rejected free value `nope`: not all digits. */
  lemma NopeValue()
    ensures ValueStrings(Args([Text("nope")])) == ["nope"] && !IsInteger("nope")
  {
    assert "nope"[0] == 'n';
  }

  /** Navigation from `bolder` is the walk from the root cursor: accepted
      with the rendered moves appended, or rejected, as the walk is. */
  lemma NavigateBolder(g: Grammar, moves: seq<Move>)
    requires WellFormed(g) && g.rootName == "bolder" && g.root == 0
    ensures Walk(g, Cursor(["bolder"], {0}), moves).Ok? ==>
              Navigate(g, "bolder", moves).Ok? && ToA(Navigate(g, "bolder", moves).value) == ["bolder"] + RenderedAll(moves)
    ensures Walk(g, Cursor(["bolder"], {0}), moves).Err? ==> Navigate(g, "bolder", moves).Err?
  {
  }

  /** An accepted walk from the root whose moves render to `segments` makes
      navigation from `bolder` accepted with those segments after its own. */
  lemma NavigateTo(g: Grammar, moves: seq<Move>, segments: seq<string>)
    requires WellFormed(g) && g.rootName == "bolder" && g.root == 0
    requires Walk(g, Cursor(["bolder"], {0}), moves).Ok?
    requires RenderedAll(moves) == segments
    ensures Navigate(g, "bolder", moves).Ok? && ToA(Navigate(g, "bolder", moves).value) == ["bolder"] + segments
  {
    NavigateBolder(g, moves);
  }

  /** `api.accounts` followed by an accepted account move reaches the account
      subtree (3) with the move rendered as the fourth segment; what follows
      walks on from there. */
  lemma AccountPath(g: Grammar, m: Move, rest: seq<Move>)
    requires g == Accounts
    requires || m == Key("resource_account") || m == Key("own_account") || m == Key("*")
             || (m.Value? && |m.call.atoms| > 0 && forall v :: v in ValueStrings(m.call) ==> IsInteger(v))
    ensures WellFormed(g)
    ensures Walk(g, Cursor(["bolder"], {0}), [Key("api"), Key("accounts"), m] + rest) ==
            Walk(g, Cursor(["bolder", "api", "accounts", Rendered(m)], {3}), rest)
  {
    AccountsWellFormed();
    var p := [Key("api"), Key("accounts")];
    assert [Key("api"), Key("accounts"), m] + rest == p + ([m] + rest);
    var c0 := Cursor(["bolder"], {0});
    AccountsPrefix(g, c0);
    var c1 := Cursor(["bolder", "api", "accounts"], {2});
    assert ["bolder"] + ["api", "accounts"] == c1.segments;
    AccountChosen(g, c1, m);
    var c2 := Cursor(c1.segments + [Rendered(m)], {3});
    assert c1.segments + [Rendered(m)] == ["bolder", "api", "accounts", Rendered(m)];
    WalkFirst(g, c1, m, rest, c2);
    WalkConcat(g, c0, p, [m] + rest);
    assert Walk(g, c0, p).value == c1;
  }

  /** An alias of the account any-node, then the implicit `*` and a product (tree_spec.rb line 162). */
  lemma WalkResourceAccountProducts(g: Grammar)
    requires g == Accounts
    ensures WellFormed(g)
    ensures Walk(g, Cursor(["bolder"], {0}), [Key("api"), Key("accounts"), Key("resource_account"), Key("shops"), Key("*"), Key("products"), Key("*"), Key("read")]).Ok?
  {
    var r := [Key("shops"), Key("*")];
    var t := [Key("products"), Key("*"), Key("read")];
    assert [Key("api"), Key("accounts"), Key("resource_account"), Key("shops"), Key("*"), Key("products"), Key("*"), Key("read")] == [Key("api"), Key("accounts"), Key("resource_account")] + (r + t);
    AccountPath(g, Key("resource_account"), r + t);
    var c2 := Cursor(["bolder", "api", "accounts", Rendered(Key("resource_account"))], {3});
    ShopsAll(g, c2);
    var c3 := Walk(g, c2, r).value;
    ProductsRead(g, c3);
    WalkConcat(g, c2, r, t);
  }

  /** The segments `bolder.api.accounts.resource_account.shops.*.products.*.read` that the moves of line 162 render to. */
  lemma RenderedResourceAccountProducts()
    ensures RenderedAll([Key("api"), Key("accounts"), Key("resource_account"), Key("shops"), Key("*"), Key("products"), Key("*"), Key("read")]) == ["api", "accounts", "resource_account", "shops", "*", "products", "*", "read"]
  {
    RenderedAllOf([Key("api"), Key("accounts"), Key("resource_account"), Key("shops"), Key("*"), Key("products"), Key("*"), Key("read")],
                  ["api", "accounts", "resource_account", "shops", "*", "products", "*", "read"]);
  }

  /** An alias of the account any-node, then the implicit `*` and a product: the cursor's segments are `bolder.api.accounts.resource_account.shops.*.products.*.read` (tree_spec.rb line 162). */
  lemma ResourceAccountProducts(g: Grammar)
    requires g == Accounts
    ensures WellFormed(g)
    ensures Navigate(g, "bolder", [Key("api"), Key("accounts"), Key("resource_account"), Key("shops"), Key("*"), Key("products"), Key("*"), Key("read")]).Ok?
    ensures ToA(Navigate(g, "bolder", [Key("api"), Key("accounts"), Key("resource_account"), Key("shops"), Key("*"), Key("products"), Key("*"), Key("read")]).value) == ["bolder"] + ["api", "accounts", "resource_account", "shops", "*", "products", "*", "read"]
  {
    WalkResourceAccountProducts(g);
    RenderedResourceAccountProducts();
    NavigateTo(g, [Key("api"), Key("accounts"), Key("resource_account"), Key("shops"), Key("*"), Key("products"), Key("*"), Key("read")],
               ["api", "accounts", "resource_account", "shops", "*", "products", "*", "read"]);
  }

  /** An all-digit account value in place of the alias (tree_spec.rb line 163). */
  lemma WalkNumericAccountProducts(g: Grammar)
    requires g == Accounts
    ensures WellFormed(g)
    ensures Walk(g, Cursor(["bolder"], {0}), [Key("api"), Key("accounts"), Value(Args([Text("123")])), Key("shops"), Key("*"), Key("products"), Key("*"), Key("read")]).Ok?
  {
    var r := [Key("shops"), Key("*")];
    var t := [Key("products"), Key("*"), Key("read")];
    assert [Key("api"), Key("accounts"), Value(Args([Text("123")])), Key("shops"), Key("*"), Key("products"), Key("*"), Key("read")] == [Key("api"), Key("accounts"), Value(Args([Text("123")]))] + (r + t);
    DigitValues();
    AccountPath(g, Value(Args([Text("123")])), r + t);
    var c2 := Cursor(["bolder", "api", "accounts", Rendered(Value(Args([Text("123")])))], {3});
    ShopsAll(g, c2);
    var c3 := Walk(g, c2, r).value;
    ProductsRead(g, c3);
    WalkConcat(g, c2, r, t);
  }

  /** The segments `bolder.api.accounts.123.shops.*.products.*.read` that the moves of line 163 render to. */
  lemma RenderedNumericAccountProducts()
    ensures RenderedAll([Key("api"), Key("accounts"), Value(Args([Text("123")])), Key("shops"), Key("*"), Key("products"), Key("*"), Key("read")]) == ["api", "accounts", "123", "shops", "*", "products", "*", "read"]
  {
    DigitSegments();
    RenderedAllOf([Key("api"), Key("accounts"), Value(Args([Text("123")])), Key("shops"), Key("*"), Key("products"), Key("*"), Key("read")],
                  ["api", "accounts", "123", "shops", "*", "products", "*", "read"]);
  }

  /** An all-digit account value in place of the alias: the cursor's segments are `bolder.api.accounts.123.shops.*.products.*.read` (tree_spec.rb line 163). */
  lemma NumericAccountProducts(g: Grammar)
    requires g == Accounts
    ensures WellFormed(g)
    ensures Navigate(g, "bolder", [Key("api"), Key("accounts"), Value(Args([Text("123")])), Key("shops"), Key("*"), Key("products"), Key("*"), Key("read")]).Ok?
    ensures ToA(Navigate(g, "bolder", [Key("api"), Key("accounts"), Value(Args([Text("123")])), Key("shops"), Key("*"), Key("products"), Key("*"), Key("read")]).value) == ["bolder"] + ["api", "accounts", "123", "shops", "*", "products", "*", "read"]
  {
    WalkNumericAccountProducts(g);
    RenderedNumericAccountProducts();
    NavigateTo(g, [Key("api"), Key("accounts"), Value(Args([Text("123")])), Key("shops"), Key("*"), Key("products"), Key("*"), Key("read")],
               ["api", "accounts", "123", "shops", "*", "products", "*", "read"]);
  }

  /** `*` in place of the account (tree_spec.rb line 168). */
  lemma WalkAnyAccountProducts(g: Grammar)
    requires g == Accounts
    ensures WellFormed(g)
    ensures Walk(g, Cursor(["bolder"], {0}), [Key("api"), Key("accounts"), Key("*"), Key("shops"), Key("*"), Key("products"), Key("*"), Key("read")]).Ok?
  {
    var r := [Key("shops"), Key("*")];
    var t := [Key("products"), Key("*"), Key("read")];
    assert [Key("api"), Key("accounts"), Key("*"), Key("shops"), Key("*"), Key("products"), Key("*"), Key("read")] == [Key("api"), Key("accounts"), Key("*")] + (r + t);
    AccountPath(g, Key("*"), r + t);
    var c2 := Cursor(["bolder", "api", "accounts", Rendered(Key("*"))], {3});
    ShopsAll(g, c2);
    var c3 := Walk(g, c2, r).value;
    ProductsRead(g, c3);
    WalkConcat(g, c2, r, t);
  }

  /** The segments `bolder.api.accounts.*.shops.*.products.*.read` that the moves of line 168 render to. */
  lemma RenderedAnyAccountProducts()
    ensures RenderedAll([Key("api"), Key("accounts"), Key("*"), Key("shops"), Key("*"), Key("products"), Key("*"), Key("read")]) == ["api", "accounts", "*", "shops", "*", "products", "*", "read"]
  {
    RenderedAllOf([Key("api"), Key("accounts"), Key("*"), Key("shops"), Key("*"), Key("products"), Key("*"), Key("read")],
                  ["api", "accounts", "*", "shops", "*", "products", "*", "read"]);
  }

  /** `*` in place of the account: the cursor's segments are `bolder.api.accounts.*.shops.*.products.*.read` (tree_spec.rb line 168). */
  lemma AnyAccountProducts(g: Grammar)
    requires g == Accounts
    ensures WellFormed(g)
    ensures Navigate(g, "bolder", [Key("api"), Key("accounts"), Key("*"), Key("shops"), Key("*"), Key("products"), Key("*"), Key("read")]).Ok?
    ensures ToA(Navigate(g, "bolder", [Key("api"), Key("accounts"), Key("*"), Key("shops"), Key("*"), Key("products"), Key("*"), Key("read")]).value) == ["bolder"] + ["api", "accounts", "*", "shops", "*", "products", "*", "read"]
  {
    WalkAnyAccountProducts(g);
    RenderedAnyAccountProducts();
    NavigateTo(g, [Key("api"), Key("accounts"), Key("*"), Key("shops"), Key("*"), Key("products"), Key("*"), Key("read")],
               ["api", "accounts", "*", "shops", "*", "products", "*", "read"]);
  }

  /** An order by an all-digit string (tree_spec.rb line 165). */
  lemma WalkOrderByString(g: Grammar)
    requires g == Accounts
    ensures WellFormed(g)
    ensures Walk(g, Cursor(["bolder"], {0}), [Key("api"), Key("accounts"), Key("resource_account"), Key("shops"), Key("*"), Key("orders"), Value(Args([Text("123")])), Key("read")]).Ok?
  {
    var r := [Key("shops"), Key("*")];
    var t := [Key("orders"), Value(Args([Text("123")])), Key("read")];
    assert [Key("api"), Key("accounts"), Key("resource_account"), Key("shops"), Key("*"), Key("orders"), Value(Args([Text("123")])), Key("read")] == [Key("api"), Key("accounts"), Key("resource_account")] + (r + t);
    AccountPath(g, Key("resource_account"), r + t);
    var c2 := Cursor(["bolder", "api", "accounts", Rendered(Key("resource_account"))], {3});
    ShopsAll(g, c2);
    var c3 := Walk(g, c2, r).value;
    DigitValues();
    OrdersRead(g, c3, Args([Text("123")]));
    WalkConcat(g, c2, r, t);
  }

  /** The segments `bolder.api.accounts.resource_account.shops.*.orders.123.read` that the moves of line 165 render to. */
  lemma RenderedOrderByString()
    ensures RenderedAll([Key("api"), Key("accounts"), Key("resource_account"), Key("shops"), Key("*"), Key("orders"), Value(Args([Text("123")])), Key("read")]) == ["api", "accounts", "resource_account", "shops", "*", "orders", "123", "read"]
  {
    DigitSegments();
    RenderedAllOf([Key("api"), Key("accounts"), Key("resource_account"), Key("shops"), Key("*"), Key("orders"), Value(Args([Text("123")])), Key("read")],
                  ["api", "accounts", "resource_account", "shops", "*", "orders", "123", "read"]);
  }

  /** An order by an all-digit string: the cursor's segments are `bolder.api.accounts.resource_account.shops.*.orders.123.read` (tree_spec.rb line 165). */
  lemma OrderByString(g: Grammar)
    requires g == Accounts
    ensures WellFormed(g)
    ensures Navigate(g, "bolder", [Key("api"), Key("accounts"), Key("resource_account"), Key("shops"), Key("*"), Key("orders"), Value(Args([Text("123")])), Key("read")]).Ok?
    ensures ToA(Navigate(g, "bolder", [Key("api"), Key("accounts"), Key("resource_account"), Key("shops"), Key("*"), Key("orders"), Value(Args([Text("123")])), Key("read")]).value) == ["bolder"] + ["api", "accounts", "resource_account", "shops", "*", "orders", "123", "read"]
  {
    WalkOrderByString(g);
    RenderedOrderByString();
    NavigateTo(g, [Key("api"), Key("accounts"), Key("resource_account"), Key("shops"), Key("*"), Key("orders"), Value(Args([Text("123")])), Key("read")],
               ["api", "accounts", "resource_account", "shops", "*", "orders", "123", "read"]);
  }

  /** An order by two arguments, rendered as a tuple (tree_spec.rb line 166). */
  lemma WalkOrderByArgs(g: Grammar)
    requires g == Accounts
    ensures WellFormed(g)
    ensures Walk(g, Cursor(["bolder"], {0}), [Key("api"), Key("accounts"), Key("resource_account"), Key("shops"), Key("*"), Key("orders"), Value(Args([Number(1), Text("2")])), Key("read")]).Ok?
  {
    var r := [Key("shops"), Key("*")];
    var t := [Key("orders"), Value(Args([Number(1), Text("2")])), Key("read")];
    assert [Key("api"), Key("accounts"), Key("resource_account"), Key("shops"), Key("*"), Key("orders"), Value(Args([Number(1), Text("2")])), Key("read")] == [Key("api"), Key("accounts"), Key("resource_account")] + (r + t);
    AccountPath(g, Key("resource_account"), r + t);
    var c2 := Cursor(["bolder", "api", "accounts", Rendered(Key("resource_account"))], {3});
    ShopsAll(g, c2);
    var c3 := Walk(g, c2, r).value;
    DigitValues();
    OrdersRead(g, c3, Args([Number(1), Text("2")]));
    WalkConcat(g, c2, r, t);
  }

  /** The segments `bolder.api.accounts.resource_account.shops.*.orders.(1,2).read` that the moves of line 166 render to. */
  lemma RenderedOrderByArgs()
    ensures RenderedAll([Key("api"), Key("accounts"), Key("resource_account"), Key("shops"), Key("*"), Key("orders"), Value(Args([Number(1), Text("2")])), Key("read")]) == ["api", "accounts", "resource_account", "shops", "*", "orders", "(1,2)", "read"]
  {
    DigitSegments();
    RenderedAllOf([Key("api"), Key("accounts"), Key("resource_account"), Key("shops"), Key("*"), Key("orders"), Value(Args([Number(1), Text("2")])), Key("read")],
                  ["api", "accounts", "resource_account", "shops", "*", "orders", "(1,2)", "read"]);
  }

  /** An order by two arguments, rendered as a tuple: the cursor's segments are `bolder.api.accounts.resource_account.shops.*.orders.(1,2).read` (tree_spec.rb line 166). */
  lemma OrderByArgs(g: Grammar)
    requires g == Accounts
    ensures WellFormed(g)
    ensures Navigate(g, "bolder", [Key("api"), Key("accounts"), Key("resource_account"), Key("shops"), Key("*"), Key("orders"), Value(Args([Number(1), Text("2")])), Key("read")]).Ok?
    ensures ToA(Navigate(g, "bolder", [Key("api"), Key("accounts"), Key("resource_account"), Key("shops"), Key("*"), Key("orders"), Value(Args([Number(1), Text("2")])), Key("read")]).value) == ["bolder"] + ["api", "accounts", "resource_account", "shops", "*", "orders", "(1,2)", "read"]
  {
    WalkOrderByArgs(g);
    RenderedOrderByArgs();
    NavigateTo(g, [Key("api"), Key("accounts"), Key("resource_account"), Key("shops"), Key("*"), Key("orders"), Value(Args([Number(1), Text("2")])), Key("read")],
               ["api", "accounts", "resource_account", "shops", "*", "orders", "(1,2)", "read"]);
  }

  /** An order by one list argument, rendered like two arguments (tree_spec.rb line 167). */
  lemma WalkOrderByList(g: Grammar)
    requires g == Accounts
    ensures WellFormed(g)
    ensures Walk(g, Cursor(["bolder"], {0}), [Key("api"), Key("accounts"), Key("resource_account"), Key("shops"), Key("*"), Key("orders"), Value(ListArg([Number(1), Text("2")])), Key("read")]).Ok?
  {
    var r := [Key("shops"), Key("*")];
    var t := [Key("orders"), Value(ListArg([Number(1), Text("2")])), Key("read")];
    assert [Key("api"), Key("accounts"), Key("resource_account"), Key("shops"), Key("*"), Key("orders"), Value(ListArg([Number(1), Text("2")])), Key("read")] == [Key("api"), Key("accounts"), Key("resource_account")] + (r + t);
    AccountPath(g, Key("resource_account"), r + t);
    var c2 := Cursor(["bolder", "api", "accounts", Rendered(Key("resource_account"))], {3});
    ShopsAll(g, c2);
    var c3 := Walk(g, c2, r).value;
    DigitValues();
    OrdersRead(g, c3, ListArg([Number(1), Text("2")]));
    WalkConcat(g, c2, r, t);
  }

  /** The segments `bolder.api.accounts.resource_account.shops.*.orders.(1,2).read` that the moves of line 167 render to. */
  lemma RenderedOrderByList()
    ensures RenderedAll([Key("api"), Key("accounts"), Key("resource_account"), Key("shops"), Key("*"), Key("orders"), Value(ListArg([Number(1), Text("2")])), Key("read")]) == ["api", "accounts", "resource_account", "shops", "*", "orders", "(1,2)", "read"]
  {
    DigitSegments();
    RenderedAllOf([Key("api"), Key("accounts"), Key("resource_account"), Key("shops"), Key("*"), Key("orders"), Value(ListArg([Number(1), Text("2")])), Key("read")],
                  ["api", "accounts", "resource_account", "shops", "*", "orders", "(1,2)", "read"]);
  }

  /** An order by one list argument, rendered like two arguments: the cursor's segments are `bolder.api.accounts.resource_account.shops.*.orders.(1,2).read` (tree_spec.rb line 167). */
  lemma OrderByList(g: Grammar)
    requires g == Accounts
    ensures WellFormed(g)
    ensures Navigate(g, "bolder", [Key("api"), Key("accounts"), Key("resource_account"), Key("shops"), Key("*"), Key("orders"), Value(ListArg([Number(1), Text("2")])), Key("read")]).Ok?
    ensures ToA(Navigate(g, "bolder", [Key("api"), Key("accounts"), Key("resource_account"), Key("shops"), Key("*"), Key("orders"), Value(ListArg([Number(1), Text("2")])), Key("read")]).value) == ["bolder"] + ["api", "accounts", "resource_account", "shops", "*", "orders", "(1,2)", "read"]
  {
    WalkOrderByList(g);
    RenderedOrderByList();
    NavigateTo(g, [Key("api"), Key("accounts"), Key("resource_account"), Key("shops"), Key("*"), Key("orders"), Value(ListArg([Number(1), Text("2")])), Key("read")],
               ["api", "accounts", "resource_account", "shops", "*", "orders", "(1,2)", "read"]);
  }

  /** The other alias, stopping at `shops` (tree_spec.rb line 164). */
  lemma WalkOwnAccountShops(g: Grammar)
    requires g == Accounts
    ensures WellFormed(g)
    ensures Walk(g, Cursor(["bolder"], {0}), [Key("api"), Key("accounts"), Key("own_account"), Key("shops")]).Ok?
  {
    AccountsWellFormed();
    AccountsUpperEdges();
    var p := [Key("api"), Key("accounts")];
    assert [Key("api"), Key("accounts"), Key("own_account"), Key("shops")] == p + [Key("own_account"), Key("shops")];
    var c0 := Cursor(["bolder"], {0});
    AccountsPrefix(g, c0);
    var c1 := Walk(g, c0, p).value;
    AccountChosen(g, c1, Key("own_account"));
    var c2 := Cursor(c1.segments + ["own_account"], {3});
    LookupStep(g, c2, 3, "shops", 4);
    var c3 := Cursor(c2.segments + ["shops"], {4});
    WalkFirst(g, c2, Key("shops"), [], c3);
    WalkFirst(g, c1, Key("own_account"), [Key("shops")], c2);
    WalkConcat(g, c0, p, [Key("own_account"), Key("shops")]);
  }

  /** The segments `bolder.api.accounts.own_account.shops` that the moves of line 164 render to. */
  lemma RenderedOwnAccountShops()
    ensures RenderedAll([Key("api"), Key("accounts"), Key("own_account"), Key("shops")]) == ["api", "accounts", "own_account", "shops"]
  {
    RenderedAllOf([Key("api"), Key("accounts"), Key("own_account"), Key("shops")],
                  ["api", "accounts", "own_account", "shops"]);
  }

  /** The other alias, stopping at `shops`: the cursor's segments are
      `bolder.api.accounts.own_account.shops` (tree_spec.rb line 164). */
  lemma OwnAccountShops(g: Grammar)
    requires g == Accounts
    ensures WellFormed(g)
    ensures Navigate(g, "bolder", [Key("api"), Key("accounts"), Key("own_account"), Key("shops")]).Ok?
    ensures ToA(Navigate(g, "bolder", [Key("api"), Key("accounts"), Key("own_account"), Key("shops")]).value) == ["bolder"] + ["api", "accounts", "own_account", "shops"]
  {
    WalkOwnAccountShops(g);
    RenderedOwnAccountShops();
    NavigateTo(g, [Key("api"), Key("accounts"), Key("own_account"), Key("shops")],
               ["api", "accounts", "own_account", "shops"]);
  }

  /** `settings.*.read` is rejected, since settings only offer `update`
      (tree_spec.rb lines 170-173). */
  lemma WalkSettingsReadRejectedPath(g: Grammar)
    requires g == Accounts
    ensures WellFormed(g)
    ensures Walk(g, Cursor(["bolder"], {0}), [Key("api"), Key("accounts"), Key("*"), Key("shops"), Key("*"), Key("settings"), Key("*"), Key("read")]).Err?
  {
    var r := [Key("shops"), Key("*")];
    var t := [Key("settings"), Key("*"), Key("read")];
    assert [Key("api"), Key("accounts"), Key("*"), Key("shops"), Key("*"), Key("settings"), Key("*"), Key("read")] == [Key("api"), Key("accounts"), Key("*")] + (r + t);
    AccountPath(g, Key("*"), r + t);
    var c2 := Cursor(["bolder", "api", "accounts", Rendered(Key("*"))], {3});
    ShopsAll(g, c2);
    var c3 := Walk(g, c2, r).value;
    SettingsReadRejected(g, c3);
    WalkConcat(g, c2, r, t);
  }

  /** `settings.*.read` is rejected, since settings only offer `update`
      (tree_spec.rb lines 170-173). */
  lemma SettingsReadRejectedPath(g: Grammar)
    requires g == Accounts
    ensures WellFormed(g)
    ensures Navigate(g, "bolder", [Key("api"), Key("accounts"), Key("*"), Key("shops"), Key("*"), Key("settings"), Key("*"), Key("read")]).Err?
  {
    WalkSettingsReadRejectedPath(g);
    NavigateBolder(g, [Key("api"), Key("accounts"), Key("*"), Key("shops"), Key("*"), Key("settings"), Key("*"), Key("read")]);
  }

  /** From an account, `shops.*.orders` followed by an order value that
      fails the constraint is rejected, whatever follows. */
  lemma OrderValueRejectedPath(g: Grammar, c: Cursor, call: ValueCall, rest: seq<Move>)
    requires g == Accounts && Live(g, c) && c.candidates == {3}
    requires exists v :: v in ValueStrings(call) && !IsInteger(v)
    ensures WellFormed(g)
    ensures Walk(g, c, [Key("shops"), Key("*"), Key("orders"), Value(call)] + rest).Err?
  {
    var r := [Key("shops"), Key("*")];
    var t := [Key("orders"), Value(call)];
    assert [Key("shops"), Key("*"), Key("orders"), Value(call)] + rest == r + (t + rest);
    ShopsAll(g, c);
    var c3 := Walk(g, c, r).value;
    OrdersValueRejected(g, c3, call);
    RejectionFinal(g, c3, t, rest);
    WalkConcat(g, c, r, t + rest);
  }

  /** A free order value that is not all digits is rejected (tree_spec.rb lines 175-178). */
  lemma WalkNonNumericOrderRejected(g: Grammar)
    requires g == Accounts
    ensures WellFormed(g)
    ensures Walk(g, Cursor(["bolder"], {0}), [Key("api"), Key("accounts"), Key("resource_account"), Key("shops"), Key("*"), Key("orders"), Value(Args([Text("nope")])), Key("read")]).Err?
  {
    var q := [Key("shops"), Key("*"), Key("orders"), Value(Args([Text("nope")]))] + [Key("read")];
    assert [Key("api"), Key("accounts"), Key("resource_account"), Key("shops"), Key("*"), Key("orders"), Value(Args([Text("nope")])), Key("read")] == [Key("api"), Key("accounts"), Key("resource_account")] + q;
    AccountPath(g, Key("resource_account"), q);
    NopeValue();
    assert "nope" in ValueStrings(Args([Text("nope")]));
    OrderValueRejectedPath(g, Cursor(["bolder", "api", "accounts", Rendered(Key("resource_account"))], {3}), Args([Text("nope")]), [Key("read")]);
  }

  /** A free order value that is not all digits is rejected (tree_spec.rb lines 175-178). */
  lemma NonNumericOrderRejected(g: Grammar)
    requires g == Accounts
    ensures WellFormed(g)
    ensures Navigate(g, "bolder", [Key("api"), Key("accounts"), Key("resource_account"), Key("shops"), Key("*"), Key("orders"), Value(Args([Text("nope")])), Key("read")]).Err?
  {
    WalkNonNumericOrderRejected(g);
    NavigateBolder(g, [Key("api"), Key("accounts"), Key("resource_account"), Key("shops"), Key("*"), Key("orders"), Value(Args([Text("nope")])), Key("read")]);
  }

  /** A free value where the tree declares none is rejected (tree_spec.rb lines 180-183). */
  lemma WalkUndeclaredValueRejected(g: Grammar)
    requires g == Accounts
    ensures WellFormed(g)
    ensures Walk(g, Cursor(["bolder"], {0}), [Key("api"), Key("accounts"), Key("resource_account"), Key("shops"), Value(Args([Text("11")])), Key("orders"), Key("*"), Key("read")]).Err?
  {
    var r := [Key("shops"), Value(Args([Text("11")]))];
    var t := [Key("orders"), Key("*"), Key("read")];
    assert [Key("api"), Key("accounts"), Key("resource_account"), Key("shops"), Value(Args([Text("11")])), Key("orders"), Key("*"), Key("read")] == [Key("api"), Key("accounts"), Key("resource_account")] + (r + t);
    AccountPath(g, Key("resource_account"), r + t);
    var c2 := Cursor(["bolder", "api", "accounts", Rendered(Key("resource_account"))], {3});
    ShopsValueRejected(g, c2, Args([Text("11")]));
    RejectionFinal(g, c2, r, t);
  }

  /** A free value where the tree declares none is rejected (tree_spec.rb lines 180-183). */
  lemma UndeclaredValueRejected(g: Grammar)
    requires g == Accounts
    ensures WellFormed(g)
    ensures Navigate(g, "bolder", [Key("api"), Key("accounts"), Key("resource_account"), Key("shops"), Value(Args([Text("11")])), Key("orders"), Key("*"), Key("read")]).Err?
  {
    WalkUndeclaredValueRejected(g);
    NavigateBolder(g, [Key("api"), Key("accounts"), Key("resource_account"), Key("shops"), Value(Args([Text("11")])), Key("orders"), Key("*"), Key("read")]);
  }

  /** `api.accounts` followed by an account value that fails the constraint
      is rejected, whatever follows. */
  lemma AccountValueRejectedPath(g: Grammar, c: Cursor, call: ValueCall, rest: seq<Move>)
    requires g == Accounts && Live(g, c) && c.candidates == {0}
    requires exists v :: v in ValueStrings(call) && !IsInteger(v)
    ensures WellFormed(g)
    ensures Walk(g, c, [Key("api"), Key("accounts"), Value(call)] + rest).Err?
  {
    AccountsWellFormed();
    var p := [Key("api"), Key("accounts")];
    assert [Key("api"), Key("accounts"), Value(call)] + rest == p + ([Value(call)] + rest);
    AccountsPrefix(g, c);
    var c1 := Walk(g, c, p).value;
    AccountRejected(g, c1, call);
    WalkRejected(g, c1, Value(call), rest);
    WalkConcat(g, c, p, [Value(call)] + rest);
  }

  /** An account value that fails the any-node's constraint is rejected
      (tree_spec.rb lines 185-188). */
  lemma WalkNonNumericAccountRejected(g: Grammar)
    requires g == Accounts
    ensures WellFormed(g)
    ensures Walk(g, Cursor(["bolder"], {0}), [Key("api"), Key("accounts"), Value(Args([Text("nope")])), Key("shops")]).Err?
  {
    assert [Key("api"), Key("accounts"), Value(Args([Text("nope")])), Key("shops")] ==
           [Key("api"), Key("accounts"), Value(Args([Text("nope")]))] + [Key("shops")];
    NopeValue();
    assert "nope" in ValueStrings(Args([Text("nope")]));
    AccountValueRejectedPath(g, Cursor(["bolder"], {0}), Args([Text("nope")]), [Key("shops")]);
  }

  /** An account value that fails the any-node's constraint is rejected
      (tree_spec.rb lines 185-188). */
  lemma NonNumericAccountRejected(g: Grammar)
    requires g == Accounts
    ensures WellFormed(g)
    ensures Navigate(g, "bolder", [Key("api"), Key("accounts"), Value(Args([Text("nope")])), Key("shops")]).Err?
  {
    WalkNonNumericAccountRejected(g);
    NavigateBolder(g, [Key("api"), Key("accounts"), Value(Args([Text("nope")])), Key("shops")]);
  }

  /** The nodes of the tree of tree_spec.rb lines 110-116:
      bolder.api.products with a plain any-node over {read, write}. */
  function WildcardsNode(id: NodeId): Node {
    match id
    case 0 => Node(map["api" := 1], None)
    case 1 => Node(map["products" := 2], None)
    case 2 => Node(map[], Some(AnyNode({}, None, 3)))
    case 3 => Node(map["read" := 4, "write" := 5], None)
    case _ => Node(map[], None)
  }

  const Wildcards: Grammar := Grammar("bolder", 0, map id: NodeId | id < 6 :: WildcardsNode(id))

  lemma WildcardsWellFormed()
    ensures WellFormed(Wildcards)
  {
  }

  /** Any non-empty value call after `products` is accepted: the any-node
      carries no constraint (tree_spec.rb lines 118-120). */
  lemma WalkFreeValue(g: Grammar, call: ValueCall)
    requires g == Wildcards && |call.atoms| > 0
    ensures WellFormed(g)
    ensures Walk(g, Cursor(["bolder"], {0}), [Key("api"), Key("products"), Value(call), Key("read")]).Ok?
  {
    WildcardsWellFormed();
    assert Targets(g.nodes[0], "api") == {1};
    assert Targets(g.nodes[1], "products") == {2};
    assert Targets(g.nodes[3], "read") == {4};
    var c0 := Cursor(["bolder"], {0});
    LookupStep(g, c0, 0, "api", 1);
    var c1 := Cursor(c0.segments + ["api"], {1});
    LookupStep(g, c1, 1, "products", 2);
    var c2 := Cursor(c1.segments + ["products"], {2});
    ValueLookup(g, c2, 2, call, 3);
    var c3 := Cursor(c2.segments + [RenderValues(ValueStrings(call))], {3});
    LookupStep(g, c3, 3, "read", 4);
    var c4 := Cursor(c3.segments + ["read"], {4});
    WalkFirst(g, c3, Key("read"), [], c4);
    WalkFirst(g, c2, Value(call), [Key("read")], c3);
    WalkFirst(g, c1, Key("products"), [Value(call), Key("read")], c2);
    WalkFirst(g, c0, Key("api"), [Key("products"), Value(call), Key("read")], c1);
  }

  lemma WildcardsApi()
    ensures WellFormed(Wildcards)
    ensures Apply(Wildcards, Cursor(["bolder"], {0}), Key("api")) == Ok(Cursor(["bolder", "api"], {1}))
  {
    WildcardsWellFormed();
    LookupStep(Wildcards, Cursor(["bolder"], {0}), 0, "api", 1);
    assert ["bolder"] + ["api"] == ["bolder", "api"];
  }

  lemma WildcardsProducts()
    ensures WellFormed(Wildcards)
    ensures Apply(Wildcards, Cursor(["bolder", "api"], {1}), Key("products")) == Ok(Cursor(["bolder", "api", "products"], {2}))
  {
    WildcardsWellFormed();
    LookupStep(Wildcards, Cursor(["bolder", "api"], {1}), 1, "products", 2);
    assert ["bolder", "api"] + ["products"] == ["bolder", "api", "products"];
  }

  /** `*` at the any-node of `products` leads to its shared child. */
  lemma WildcardsStar()
    ensures WellFormed(Wildcards)
    ensures Apply(Wildcards, Cursor(["bolder", "api", "products"], {2}), Key("*")) == Ok(Cursor(["bolder", "api", "products", "*"], {3}))
  {
    WildcardsWellFormed();
    assert Targets(Wildcards.nodes[2], "*") == {3};
    LookupStep(Wildcards, Cursor(["bolder", "api", "products"], {2}), 2, "*", 3);
    assert ["bolder", "api", "products"] + ["*"] == ["bolder", "api", "products", "*"];
  }

  lemma WildcardsRead()
    ensures WellFormed(Wildcards)
    ensures Apply(Wildcards, Cursor(["bolder", "api", "products", "*"], {3}), Key("read")) ==
            Ok(Cursor(["bolder", "api", "products", "*", "read"], {4}))
  {
    WildcardsWellFormed();
    LookupStep(Wildcards, Cursor(["bolder", "api", "products", "*"], {3}), 3, "read", 4);
    assert ["bolder", "api", "products", "*"] + ["read"] == ["bolder", "api", "products", "*", "read"];
  }

  /** The walk `products.*.read` under the wildcards tree. */
  lemma WalkWildcardsStarRead(g: Grammar)
    requires g == Wildcards
    ensures WellFormed(g)
    ensures Walk(g, Cursor(["bolder"], {0}), [Key("api"), Key("products"), Key("*"), Key("read")]).Ok?
    ensures Walk(g, Cursor(["bolder"], {0}), [Key("api"), Key("products"), Key("*"), Key("read")]).value.segments ==
              ["bolder", "api", "products", "*", "read"]
  {
    WildcardsApi();
    WildcardsProducts();
    WildcardsStar();
    WildcardsRead();
    var c0 := Cursor(["bolder"], {0});
    var c1 := Cursor(["bolder", "api"], {1});
    var c2 := Cursor(["bolder", "api", "products"], {2});
    var c3 := Cursor(["bolder", "api", "products", "*"], {3});
    var c4 := Cursor(["bolder", "api", "products", "*", "read"], {4});
    WalkFirst(g, c3, Key("read"), [], c4);
    WalkFirst(g, c2, Key("*"), [Key("read")], c3);
    WalkFirst(g, c1, Key("products"), [Key("*"), Key("read")], c2);
    WalkFirst(g, c0, Key("api"), [Key("products"), Key("*"), Key("read")], c1);
  }

  /** `products.*.read` under the wildcards tree is accepted as
      `bolder.api.products.*.read` (tree_spec.rb line 118). */
  lemma WildcardsStarRead(g: Grammar)
    requires g == Wildcards
    ensures WellFormed(g)
    ensures Navigate(g, "bolder", [Key("api"), Key("products"), Key("*"), Key("read")]).Ok?
    ensures ToS(Navigate(g, "bolder", [Key("api"), Key("products"), Key("*"), Key("read")]).value) == "bolder.api.products.*.read"
  {
    WalkWildcardsStarRead(g);
    JoinProductsStarRead();
  }

  /** The values `111` and `[1, 2, 3]` as strings. */
  lemma FreeValueStrings()
    ensures RenderValues(ValueStrings(Args([Text("111")]))) == "111"
    ensures RenderValues(ValueStrings(ListArg([Number(1), Number(2), Number(3)]))) == "(1,2,3)"
  {
    assert ValueStrings(ListArg([Number(1), Number(2), Number(3)])) == ["1", "2", "3"] by {
      assert NatToString(1) == "1" && NatToString(2) == "2" && NatToString(3) == "3";
    }
    assert Text.Join(["3"], ",") == "3";
    assert Text.Join(["2", "3"], ",") == "2,3";
    assert Text.Join(["1", "2", "3"], ",") == "1,2,3";
  }

  /** The segments `bolder.api.products.111.read` that the moves of line 119 render to. */
  lemma RenderedFreeStringValue()
    ensures RenderedAll([Key("api"), Key("products"), Value(Args([Text("111")])), Key("read")]) == ["api", "products", "111", "read"]
  {
    FreeValueStrings();
    RenderedAllOf([Key("api"), Key("products"), Value(Args([Text("111")])), Key("read")],
                  ["api", "products", "111", "read"]);
  }

  /** `products._value('111').read` under an unconstrained any-node: the segments are `bolder.api.products.111.read` (tree_spec.rb line 119). */
  lemma FreeStringValue(g: Grammar)
    requires g == Wildcards
    ensures WellFormed(g)
    ensures Navigate(g, "bolder", [Key("api"), Key("products"), Value(Args([Text("111")])), Key("read")]).Ok?
    ensures ToA(Navigate(g, "bolder", [Key("api"), Key("products"), Value(Args([Text("111")])), Key("read")]).value) == ["bolder"] + ["api", "products", "111", "read"]
  {
    WalkFreeValue(g, Args([Text("111")]));
    RenderedFreeStringValue();
    NavigateTo(g, [Key("api"), Key("products"), Value(Args([Text("111")])), Key("read")],
               ["api", "products", "111", "read"]);
  }

  /** The segments `bolder.api.products.(1,2,3).read` that the moves of line 120 render to. */
  lemma RenderedFreeListValue()
    ensures RenderedAll([Key("api"), Key("products"), Value(ListArg([Number(1), Number(2), Number(3)])), Key("read")]) == ["api", "products", "(1,2,3)", "read"]
  {
    FreeValueStrings();
    RenderedAllOf([Key("api"), Key("products"), Value(ListArg([Number(1), Number(2), Number(3)])), Key("read")],
                  ["api", "products", "(1,2,3)", "read"]);
  }

  /** `products._value([1, 2, 3]).read` under an unconstrained any-node: the segments are `bolder.api.products.(1,2,3).read` (tree_spec.rb line 120). */
  lemma FreeListValue(g: Grammar)
    requires g == Wildcards
    ensures WellFormed(g)
    ensures Navigate(g, "bolder", [Key("api"), Key("products"), Value(ListArg([Number(1), Number(2), Number(3)])), Key("read")]).Ok?
    ensures ToA(Navigate(g, "bolder", [Key("api"), Key("products"), Value(ListArg([Number(1), Number(2), Number(3)])), Key("read")]).value) == ["bolder"] + ["api", "products", "(1,2,3)", "read"]
  {
    WalkFreeValue(g, ListArg([Number(1), Number(2), Number(3)]));
    RenderedFreeListValue();
    NavigateTo(g, [Key("api"), Key("products"), Value(ListArg([Number(1), Number(2), Number(3)])), Key("read")],
               ["api", "products", "(1,2,3)", "read"]);
  }

  lemma CatalogWellFormed()
    ensures WellFormed(Catalog)
  {
  }

  /** `products.*` under the catalog tree: both `own` and `all` become candidates. */
  lemma CatalogProductsAll(g: Grammar)
    requires g == Catalog
    ensures WellFormed(g)
    ensures Walk(g, Cursor(["bolder"], {0}), [Key("api"), Key("products"), Key("*")]) ==
            Ok(Cursor(["bolder"] + ["api"] + ["products"] + ["*"], {3, 5}))
  {
    CatalogWellFormed();
    assert Targets(g.nodes[0], "api") == {1};
    assert Targets(g.nodes[1], "products") == {2};
    assert g.nodes[2].children.Values == {3, 5} by {
      assert g.nodes[2].children["own"] == 3;
      assert g.nodes[2].children["all"] == 5;
    }
    var c0 := Cursor(["bolder"], {0});
    LookupStep(g, c0, 0, "api", 1);
    var c1 := Cursor(c0.segments + ["api"], {1});
    LookupStep(g, c1, 1, "products", 2);
    var c2 := Cursor(c1.segments + ["products"], {2});
    SingleCandidate(g, c2, 2, "*");
    var c3 := Cursor(c2.segments + ["*"], {3, 5});
    WalkFirst(g, c2, Key("*"), [], c3);
    WalkFirst(g, c1, Key("products"), [Key("*")], c2);
    WalkFirst(g, c0, Key("api"), [Key("products"), Key("*")], c1);
  }

  lemma CatalogOwn()
    ensures WellFormed(Catalog)
    ensures Apply(Catalog, Cursor(["bolder", "api", "products"], {2}), Key("own")) ==
            Ok(Cursor(["bolder", "api", "products", "own"], {3}))
  {
    CatalogWellFormed();
    LookupStep(Catalog, Cursor(["bolder", "api", "products"], {2}), 2, "own", 3);
    assert ["bolder", "api", "products"] + ["own"] == ["bolder", "api", "products", "own"];
  }

  lemma CatalogOwnReadStep()
    ensures WellFormed(Catalog)
    ensures Apply(Catalog, Cursor(["bolder", "api", "products", "own"], {3}), Key("read")) ==
            Ok(Cursor(["bolder", "api", "products", "own", "read"], {4}))
  {
    CatalogWellFormed();
    LookupStep(Catalog, Cursor(["bolder", "api", "products", "own"], {3}), 3, "read", 4);
    assert ["bolder", "api", "products", "own"] + ["read"] == ["bolder", "api", "products", "own", "read"];
  }

  /** The walk `api.products.own.read` under the catalog tree. */
  lemma WalkCatalogOwnRead(g: Grammar)
    requires g == Catalog
    ensures WellFormed(g)
    ensures Walk(g, Cursor(["bolder"], {0}), [Key("api"), Key("products"), Key("own"), Key("read")]).Ok?
    ensures Walk(g, Cursor(["bolder"], {0}), [Key("api"), Key("products"), Key("own"), Key("read")]).value.segments ==
              ["bolder", "api", "products", "own", "read"]
  {
    CatalogApi();
    CatalogProducts();
    CatalogOwn();
    CatalogOwnReadStep();
    var c0 := Cursor(["bolder"], {0});
    var c1 := Cursor(["bolder", "api"], {1});
    var c2 := Cursor(["bolder", "api", "products"], {2});
    var c3 := Cursor(["bolder", "api", "products", "own"], {3});
    var c4 := Cursor(["bolder", "api", "products", "own", "read"], {4});
    WalkFirst(g, c3, Key("read"), [], c4);
    WalkFirst(g, c2, Key("own"), [Key("read")], c3);
    WalkFirst(g, c1, Key("products"), [Key("own"), Key("read")], c2);
    WalkFirst(g, c0, Key("api"), [Key("products"), Key("own"), Key("read")], c1);
  }

  lemma JoinCatalogOwnRead()
    ensures Text.Join(["bolder", "api", "products", "own", "read"], ".") == "bolder.api.products.own.read"
  {
  }

  /** `bolder.api.products.own.read` is accepted, with that string form and
      those segments (tree_spec.rb line 16). */
  lemma CatalogOwnRead(g: Grammar)
    requires g == Catalog
    ensures WellFormed(g)
    ensures Navigate(g, "bolder", [Key("api"), Key("products"), Key("own"), Key("read")]).Ok?
    ensures ToA(Navigate(g, "bolder", [Key("api"), Key("products"), Key("own"), Key("read")]).value) == ["bolder", "api", "products", "own", "read"]
    ensures ToS(Navigate(g, "bolder", [Key("api"), Key("products"), Key("own"), Key("read")]).value) == "bolder.api.products.own.read"
  {
    WalkCatalogOwnRead(g);
    JoinCatalogOwnRead();
  }

  /** The walk `api.products.own` under the catalog tree. */
  lemma WalkCatalogOwn(g: Grammar)
    requires g == Catalog
    ensures WellFormed(g)
    ensures Walk(g, Cursor(["bolder"], {0}), [Key("api"), Key("products"), Key("own")]).Ok?
    ensures Walk(g, Cursor(["bolder"], {0}), [Key("api"), Key("products"), Key("own")]).value.segments ==
              ["bolder", "api", "products", "own"]
  {
    CatalogApi();
    CatalogProducts();
    CatalogOwn();
    var c0 := Cursor(["bolder"], {0});
    var c1 := Cursor(["bolder", "api"], {1});
    var c2 := Cursor(["bolder", "api", "products"], {2});
    var c3 := Cursor(["bolder", "api", "products", "own"], {3});
    WalkFirst(g, c2, Key("own"), [], c3);
    WalkFirst(g, c1, Key("products"), [Key("own")], c2);
    WalkFirst(g, c0, Key("api"), [Key("products"), Key("own")], c1);
  }

  /** The walk `api.products` under the catalog tree. */
  lemma WalkCatalogProducts(g: Grammar)
    requires g == Catalog
    ensures WellFormed(g)
    ensures Walk(g, Cursor(["bolder"], {0}), [Key("api"), Key("products")]).Ok?
    ensures Walk(g, Cursor(["bolder"], {0}), [Key("api"), Key("products")]).value.segments ==
              ["bolder", "api", "products"]
  {
    CatalogApi();
    CatalogProducts();
    var c0 := Cursor(["bolder"], {0});
    var c1 := Cursor(["bolder", "api"], {1});
    var c2 := Cursor(["bolder", "api", "products"], {2});
    WalkFirst(g, c1, Key("products"), [], c2);
    WalkFirst(g, c0, Key("api"), [Key("products")], c1);
  }

  lemma JoinCatalogOwn()
    ensures Text.Join(["bolder", "api", "products", "own"], ".") == "bolder.api.products.own"
  {
  }

  lemma JoinCatalogProducts()
    ensures Text.Join(["bolder", "api", "products"], ".") == "bolder.api.products"
  {
  }

  /** The prefix `bolder.api.products.own` of that path is accepted, with that
      string form (tree_spec.rb line 17). */
  lemma CatalogOwnPrefix(g: Grammar)
    requires g == Catalog
    ensures WellFormed(g)
    ensures Navigate(g, "bolder", [Key("api"), Key("products"), Key("own")]).Ok?
    ensures ToS(Navigate(g, "bolder", [Key("api"), Key("products"), Key("own")]).value) == "bolder.api.products.own"
  {
    WalkCatalogOwn(g);
    JoinCatalogOwn();
  }

  /** The prefix `bolder.api.products` is accepted, with that string form
      (tree_spec.rb line 18). */
  lemma CatalogProductsPrefix(g: Grammar)
    requires g == Catalog
    ensures WellFormed(g)
    ensures Navigate(g, "bolder", [Key("api"), Key("products")]).Ok?
    ensures ToS(Navigate(g, "bolder", [Key("api"), Key("products")]).value) == "bolder.api.products"
  {
    WalkCatalogProducts(g);
    JoinCatalogProducts();
  }

  lemma CatalogApi()
    ensures WellFormed(Catalog)
    ensures Apply(Catalog, Cursor(["bolder"], {0}), Key("api")) == Ok(Cursor(["bolder", "api"], {1}))
  {
    CatalogWellFormed();
    LookupStep(Catalog, Cursor(["bolder"], {0}), 0, "api", 1);
    assert ["bolder"] + ["api"] == ["bolder", "api"];
  }

  lemma CatalogProducts()
    ensures WellFormed(Catalog)
    ensures Apply(Catalog, Cursor(["bolder", "api"], {1}), Key("products")) == Ok(Cursor(["bolder", "api", "products"], {2}))
  {
    CatalogWellFormed();
    LookupStep(Catalog, Cursor(["bolder", "api"], {1}), 1, "products", 2);
    assert ["bolder", "api"] + ["products"] == ["bolder", "api", "products"];
  }

  lemma CatalogStar()
    ensures WellFormed(Catalog)
    ensures Apply(Catalog, Cursor(["bolder", "api", "products"], {2}), Key("*")) == Ok(Cursor(["bolder", "api", "products", "*"], {3, 5}))
  {
    var g := Catalog;
    CatalogWellFormed();
    var c := Cursor(["bolder", "api", "products"], {2});
    SingleCandidate(g, c, 2, "*");
    assert c.segments + ["*"] == ["bolder", "api", "products", "*"];
    assert g.nodes[2].children.Values == {3, 5} by {
      assert g.nodes[2].children["own"] == 3;
      assert g.nodes[2].children["all"] == 5;
    }
  }

  lemma CatalogStarReadStep()
    ensures WellFormed(Catalog)
    ensures Apply(Catalog, Cursor(["bolder", "api", "products", "*"], {3, 5}), Key("read")).Ok?
    ensures Apply(Catalog, Cursor(["bolder", "api", "products", "*"], {3, 5}), Key("read")).value.segments ==
              ["bolder", "api", "products", "*", "read"]
  {
    CatalogWellFormed();
    assert ["bolder", "api", "products", "*"] + ["read"] == ["bolder", "api", "products", "*", "read"];
    assert Targets(Catalog.nodes[3], "read") == {4};
    assert Targets(Catalog.nodes[5], "read") == {6};
  }

  /** The walk `api.products.*.read` under the catalog tree: `read` is a child
      of both `own` and `all`. */
  lemma WalkCatalogStarRead(g: Grammar)
    requires g == Catalog
    ensures WellFormed(g)
    ensures Walk(g, Cursor(["bolder"], {0}), [Key("api"), Key("products"), Key("*"), Key("read")]).Ok?
    ensures Walk(g, Cursor(["bolder"], {0}), [Key("api"), Key("products"), Key("*"), Key("read")]).value.segments ==
              ["bolder", "api", "products", "*", "read"]
  {
    CatalogApi();
    CatalogProducts();
    CatalogStar();
    CatalogStarReadStep();
    var c0 := Cursor(["bolder"], {0});
    var c1 := Cursor(["bolder", "api"], {1});
    var c2 := Cursor(["bolder", "api", "products"], {2});
    var c3 := Cursor(["bolder", "api", "products", "*"], {3, 5});
    var c4 := Apply(g, c3, Key("read")).value;
    WalkFirst(g, c3, Key("read"), [], c4);
    WalkFirst(g, c2, Key("*"), [Key("read")], c3);
    WalkFirst(g, c1, Key("products"), [Key("*"), Key("read")], c2);
    WalkFirst(g, c0, Key("api"), [Key("products"), Key("*"), Key("read")], c1);
  }

  /** `bolder.api.products.*.read` under the catalog tree: accepted, with that
      string form and those segments (tree_spec.rb lines 19-20). */
  lemma CatalogStarRead(g: Grammar)
    requires g == Catalog
    ensures WellFormed(g)
    ensures Navigate(g, "bolder", [Key("api"), Key("products"), Key("*"), Key("read")]).Ok?
    ensures ToS(Navigate(g, "bolder", [Key("api"), Key("products"), Key("*"), Key("read")]).value) == "bolder.api.products.*.read"
    ensures ToA(Navigate(g, "bolder", [Key("api"), Key("products"), Key("*"), Key("read")]).value) == ["bolder", "api", "products", "*", "read"]
  {
    WalkCatalogStarRead(g);
    JoinProductsStarRead();
  }

  /** A cursor's scope holds the cursor's segments. */
  lemma ScopeOf(c: Cursor)
    requires |c.segments| > 0
    ensures ToScope(c) == ToA(c)
  {
  }

  /** `to_scope` of that cursor: a scope of the same segments whose string form
      is `bolder.api.products.*.read` (tree_spec.rb lines 29-31). */
  lemma CatalogStarReadScope(g: Grammar)
    requires g == Catalog
    ensures WellFormed(g)
    ensures Navigate(g, "bolder", [Key("api"), Key("products"), Key("*"), Key("read")]).Ok?
    ensures ToScope(Navigate(g, "bolder", [Key("api"), Key("products"), Key("*"), Key("read")]).value) ==
            ["bolder", "api", "products", "*", "read"]
    ensures Text.Join(ToScope(Navigate(g, "bolder", [Key("api"), Key("products"), Key("*"), Key("read")]).value), ".") ==
            "bolder.api.products.*.read"
  {
    CatalogStarRead(g);
    ScopeOf(Navigate(g, "bolder", [Key("api"), Key("products"), Key("*"), Key("read")]).value);
  }

  /** An undeclared literal is rejected, at the first step as after a wildcard:
      `bolder.foo.products` and `bolder.api.products.*.api` (tree_spec.rb lines 21-27). */
  lemma UndeclaredKeysRejected(g: Grammar)
    requires g == Catalog
    ensures WellFormed(g)
    ensures Navigate(g, "bolder", [Key("foo"), Key("products")]).Err?
    ensures Navigate(g, "bolder", [Key("api"), Key("products"), Key("*"), Key("api")]).Err?
  {
    CatalogWellFormed();
    var c0 := Cursor(["bolder"], {0});
    assert Targets(g.nodes[0], "foo") == {};
    KeyRejected(g, c0, 0, "foo");
    WalkRejected(g, c0, Key("foo"), [Key("products")]);
    CatalogProductsAll(g);
    var p := [Key("api"), Key("products"), Key("*")];
    var c3 := Walk(g, c0, p).value;
    assert Targets(g.nodes[3], "api") == {};
    assert Apply(g, c3, Key("api")).Err?;
    WalkRejected(g, c3, Key("api"), []);
    WalkConcat(g, c0, p, [Key("api")]);
    assert p + [Key("api")] == [Key("api"), Key("products"), Key("*"), Key("api")];
    NavigateBolder(g, [Key("foo"), Key("products")]);
    NavigateBolder(g, [Key("api"), Key("products"), Key("*"), Key("api")]);
  }

  /** A grammar no example declares: under `r`, `p` has an any-node with the
      alias `x`, and `q` has only the literal child `y`. */
  function SplitNode(id: NodeId): Node {
    match id
    case 0 => Node(map["p" := 1, "q" := 2], None)
    case 1 => Node(map[], Some(AnyNode({"x"}, None, 3)))
    case 2 => Node(map["y" := 3], None)
    case _ => Node(map[], None)
  }

  const Split: Grammar := Grammar("r", 0, map id: NodeId | id < 4 :: SplitNode(id))

  lemma SplitWellFormed()
    ensures WellFormed(Split)
  {
  }

  /** `r.*`: both alternatives `p` and `q` become candidates. */
  lemma SplitStar()
    ensures WellFormed(Split)
    ensures Apply(Split, Cursor(["r"], {0}), Key("*")) == Ok(Cursor(["r", "*"], {1, 2}))
  {
    SplitWellFormed();
    assert Split.nodes[0].children.Values == {1, 2} by {
      assert Split.nodes[0].children["p"] == 1;
      assert Split.nodes[0].children["q"] == 2;
    }
    SingleCandidate(Split, Cursor(["r"], {0}), 0, "*");
    assert ["r"] + ["*"] == ["r", "*"];
  }

  /** `r.*.x`: `q` has no alias `x`. */
  lemma SplitAliasRejected()
    ensures WellFormed(Split)
    ensures Apply(Split, Cursor(["r", "*"], {1, 2}), Key("x")) == Err(InvalidScopeHierarchy("x", ["r", "*"]))
  {
    SplitWellFormed();
    assert Targets(Split.nodes[2], "x") == {};
  }

  /** `r.p.x`: `p`'s any-node has the alias `x`. */
  lemma SplitAliasAlone()
    ensures WellFormed(Split)
    ensures Apply(Split, Cursor(["r", "p"], {1}), Key("x")) == Ok(Cursor(["r", "p", "x"], {3}))
  {
    SplitWellFormed();
    assert Targets(Split.nodes[1], "x") == {3};
    LookupStep(Split, Cursor(["r", "p"], {1}), 1, "x", 3);
    assert ["r", "p"] + ["x"] == ["r", "p", "x"];
  }

  /** After the implicit `r.*`, an alias only `p` declares is rejected, as a
      literal only one alternative declares is: every candidate must accept the
      key. From `r.p` alone the same alias is accepted. */
  lemma AliasNeedsEveryCandidate()
    ensures WellFormed(Split)
    ensures Apply(Split, Cursor(["r"], {0}), Key("*")) == Ok(Cursor(["r", "*"], {1, 2}))
    ensures Apply(Split, Cursor(["r", "*"], {1, 2}), Key("x")) == Err(InvalidScopeHierarchy("x", ["r", "*"]))
    ensures Apply(Split, Cursor(["r", "p"], {1}), Key("x")) == Ok(Cursor(["r", "p", "x"], {3}))
  {
    SplitStar();
    SplitAliasRejected();
    SplitAliasAlone();
  }
}
