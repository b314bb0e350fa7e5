# bolder-scopes in Dafny

A model of the authorization core of the Ruby library `bolder-scopes`, with
proofs of what its code and its examples promise. It covers three pieces.

- **`Scopes`** (lib/bolder/scopes.rb) is a collection of granted scopes. It is kept in
  an internal order and answers four questions:
  - `resolve`: the first member that covers a request;
  - `can?`: whether some member covers some requested scope;
  - `<=>`: whether one member covers everything requested;
  - `merge`: the union of two collections, without duplicates.

  `expand`, `to_a` and `to_s` are modelled as well. A single `Scope` is not part of this model. Its covering relation
  `>=`, its `<=>`, its `expand(attrs)` and its `to_s` are parameters
  (`covers`, `cmp`, `subst`, `render`). Every property is proved for
  all of them.
- **`Map`** (lib/bolder/scopes/map.rb) is an alias table. Its keys and targets are stringified when it is built.
  - `map` replaces registered aliases by their targets and passes everything else
    through, without duplicates.
  - `expand` keeps only the registered aliases and appends their targets, with
    duplicates removed from the targets only.
- **Grammar trees** (the examples of spec/bolder/scopes/tree_spec.rb). A
  grammar is a graph of nodes. Each node has literal children and at most one
  any-node. An any-node has aliases, an optional constraint on free values and
  one shared child. A cursor holds the segments so far and the set of nodes
  consistent with them.
  - A key is accepted exactly when every candidate leads somewhere by it.
  - `*` at a node without an any-node makes every literal child a candidate.
  - At an any-node, `*`, each alias and an accepted value call all lead to the
    shared child.
  - One value, alone or as a one-element list, renders bare. Several values
    render as `(v1,v2,...)`.
  - Every rejection is the one error `InvalidScopeHierarchy`, carrying the key
    and the path so far.

  lib/bolder/scopes/tree.rb is not part of this model, so these rules are
  read off the examples the spec file asserts. Where no example fixes a case,
  the rule is the model's own choice, and each such choice is named under
  "## Left out". The examples of lines 16-47
  and 106-188 are proved on the grammars those lines declare. The DSL
  examples of lines 50-104 are left out (see below).

Modules, one per file: `Wrappers` (Option, Result), `Seqs` (uniq, filter,
flatten, distinctness), `Text` (join and split), `Scopes`, `AliasMap`, `Tree`,
and `ScopesExamples`, `AliasMapExamples` and `TreeExamples` for the concrete
cases.

Three readings of the code and its tests that a reader might not expect:

- The constructor of `Scopes` does not deduplicate: `Scopes.new(['a', 'a'])`
  holds `a` twice (`ScopesExamples.ConstructorKeepsDuplicates`). Only `merge`
  deduplicates.
- `Map#expand` deduplicates only the targets, so an alias can come out twice
  (`AliasMapExamples.RepeatedAlias`, `AliasMapExamples.AliasAlsoTarget`,
  `AliasMap.ExpandCount`).
- `*` is accepted at a node without an any-node whenever it has a literal
  child. The spec file accepts `shops.*` where `shops` has a single child
  (line 162), so the model does the same (`Tree.ImplicitWildcard`).

The doc comments of map.rb (lines 7-9 and 36-37) call `map` and `expand` with a
bare String. Both methods start with `scopes.to_a` (lines 26 and 42), and a
Ruby String has no `to_a`, so those calls raise NoMethodError. The model takes
the input as a list of strings and states the examples with one-element
lists. Called that way, `map(['read:users'])` passes `read:users` through
unchanged: the code looks the string up as given and finds no key, which is
not what the comment on line 9 promises (`AliasMapExamples.DocExamples`).

## Model

| member | source | states |
|---|---|---|
| Scopes.Arrange | lib/bolder/scopes.rb:21 | the internal order holds exactly the inputs, each as often as given |
| Scopes.InsertPermutes | lib/bolder/scopes.rb:21 | one insertion step of the sort adds exactly the new element to the sorted list |
| Scopes.New | lib/bolder/scopes.rb:20-22 | the members are a permutation of the inputs, with the same length and the same elements, and duplicates are kept |
| Scopes.Wrap | lib/bolder/scopes.rb:11-17 | a collection is taken as it is; anything else becomes a collection holding exactly those items |
| Scopes.Merge | lib/bolder/scopes.rb:33-40 | ArgumentError exactly when the operand is not a collection; otherwise a duplicate-free collection whose members are those of either side |
| Scopes.MergeCommutes | lib/bolder/scopes.rb:39 | `a.merge(b)` and `b.merge(a)` have the same members |
| Scopes.MergeSelf | lib/bolder/scopes.rb:39 | `a.merge(a)` has a's members, and is a permutation of a when a has no duplicates |
| Scopes.FindIndex | lib/bolder/scopes.rb:48 | `find` returns the first position satisfying the block, or the length when none does |
| Scopes.Any | lib/bolder/scopes.rb:52-54 | true exactly when some member satisfies the block |
| Scopes.All | lib/bolder/scopes.rb:57-59 | true exactly when every member satisfies the block |
| Scopes.Resolve | lib/bolder/scopes.rb:46-49 | returns a member covering the query with no covering member before it; nil exactly when no member covers the query |
| Scopes.Can | lib/bolder/scopes.rb:63-66 | true exactly when some member covers some requested scope; false when either side is empty |
| Scopes.Compare | lib/bolder/scopes.rb:71-75 | 1 or -1, never 0; 1 exactly when one member covers every requested scope; against nothing, 1 exactly when the collection is non-empty |
| Scopes.CompareImpliesCan | lib/bolder/scopes.rb:63-75 | `<=>` returning 1 against a non-empty request implies `can?` |
| Scopes.Expand | lib/bolder/scopes.rb:89-92 | as many members as before, and they are a permutation of the members' substitutes |
| Scopes.ToA | lib/bolder/scopes.rb:98-100 | one string per member, in internal order, each that member's `to_s` |
| Scopes.ToS | lib/bolder/scopes.rb:94-96 | empty for no members, the member's own string for one; when no member's string holds a comma, splitting `to_s` at the commas gives `to_a` back, each part after the first with its leading space |
| ScopesExamples.ConstructorKeepsDuplicates | lib/bolder/scopes.rb:20-22 | a scope given twice is held twice |
| ScopesExamples.MergeDropsDuplicates | lib/bolder/scopes.rb:39 | merging a one-scope collection with itself gives that scope once |
| ScopesExamples.CanDoesNotImplyCompare | lib/bolder/scopes.rb:63-75 | a collection covering only part of a request satisfies `can?` while `<=>` gives -1 |
| ScopesExamples.ResolveBySameness | lib/bolder/scopes.rb:46-49 | with equality as covering, `resolve` finds the query exactly when it is a member |
| ScopesExamples.ExpandTwo | lib/bolder/scopes.rb:89-92 | expanding two scopes gives their two substitutes |
| ScopesExamples.ExpandDocExample | lib/bolder/scopes.rb:83-85 | `accounts.my-account` and `shops.my-shop` expand to `accounts.1` and `shops.2` |
| Seqs.Uniq | lib/bolder/scopes.rb:39 | `uniq` is duplicate-free, keeps every element, and is no longer than its input |
| Seqs.UniqOrder | lib/bolder/scopes.rb:39 | `uniq` keeps the order of first occurrence: of two kept values, the one that occurs first in the input comes first |
| Seqs.UniqOfDistinct | lib/bolder/scopes.rb:39 | `uniq` leaves a duplicate-free list unchanged |
| Seqs.Filter | lib/bolder/scopes/map.rb:43 | `filter` keeps each satisfying element as often as given and drops the rest |
| Seqs.FilterConcat | lib/bolder/scopes/map.rb:43 | `filter` keeps the input order: the filter of a concatenation is the concatenation of the filters |
| Seqs.Flatten | lib/bolder/scopes/map.rb:26-28 | the concatenation holds exactly the elements of the lists |
| Seqs.FlattenConcat | lib/bolder/scopes/map.rb:26-28 | the `memo + list` reduction keeps each list's elements in order, with their multiplicities: the flattening of a concatenation is the concatenation of the flattenings |
| Text.Join | lib/bolder/scopes.rb:95 | joining nothing gives the empty string, and joining one part gives that part |
| Text.SplitJoin | spec/bolder/scopes/tree_spec.rb:29-31 | splitting a join of separator-free parts on the separator gives the parts back |
| Text.SplitJoinPadded | lib/bolder/scopes.rb:95 | splitting a `", "`-join of comma-free parts at the commas gives the parts back, each after the first with its leading space |
| AliasMap.TargetStrings | lib/bolder/scopes/map.rb:14 | a single target becomes a one-element list; a list keeps its length, each element stringified |
| AliasMap.Build | lib/bolder/scopes/map.rb:12-16 | the keys are exactly the stringified keys given |
| AliasMap.BuildLastWins | lib/bolder/scopes/map.rb:13-14 | a key maps to the stringified targets of the last entry with that string form |
| AliasMap.Lookup | lib/bolder/scopes/map.rb:27 | `Array(@mapping.fetch(sc, sc))` holds exactly the targets of a registered input, and the input itself otherwise |
| AliasMap.Translated | lib/bolder/scopes/map.rb:26-28 | duplicate-free, and holds s exactly when some input translates to s |
| AliasMap.Map | lib/bolder/scopes/map.rb:25-31 | a duplicate-free collection holding s exactly when some input is s unregistered or is an alias with target s |
| AliasMap.MapPassesThrough | lib/bolder/scopes/map.rb:27 | an unregistered input is in the result, and so is every target of a registered one |
| AliasMap.Registered | lib/bolder/scopes/map.rb:43 | the registered inputs, each as often as given |
| AliasMap.RegisteredConcat | lib/bolder/scopes/map.rb:43 | the registered inputs keep the input order: those of a concatenation are those of the first part followed by those of the second |
| AliasMap.ExpandedList | lib/bolder/scopes/map.rb:42-46 | the registered inputs come first, followed by a duplicate-free list of exactly their targets |
| AliasMap.Expand | lib/bolder/scopes/map.rb:41-49 | a permutation of that list: registered inputs and their targets, and nothing unregistered |
| AliasMap.ExpandUnregistered | lib/bolder/scopes/map.rb:43-46 | with no registered input the result is empty |
| AliasMap.ExpandCount | lib/bolder/scopes/map.rb:43-46 | `expand` yields s as often as s is given when it is registered, plus once when it is a target of some given alias |
| AliasMapExamples.StaffTable | spec/bolder/scopes/map_spec.rb:8-11 | the table built from the spec's hash maps `admin` and `public` to their lists |
| AliasMapExamples.MapsAliases | spec/bolder/scopes/map_spec.rb:13-15 | `map(%w[admin btc.foo.bar])` matches `btc.me btc.account.shops.mine btc.foo.bar` |
| AliasMapExamples.ExpandsAliases | spec/bolder/scopes/map_spec.rb:24-25 | `expand(%w[admin btc.foo.bar])` matches `admin btc.me btc.account.shops.mine` |
| AliasMapExamples.ExpandNothingRegistered | spec/bolder/scopes/map_spec.rb:26 | `expand(%w[nope])` is empty |
| AliasMapExamples.RepeatedAlias | lib/bolder/scopes/map.rb:43-46 | an alias given twice, not among its own targets, comes out twice |
| AliasMapExamples.ExpandKeepsRepeatedAlias | lib/bolder/scopes/map.rb:43-46 | `expand(%w[admin admin])` holds `admin` twice |
| AliasMapExamples.AliasAlsoTarget | lib/bolder/scopes/map.rb:43-46 | an alias that is also a target of another given alias comes out twice |
| AliasMapExamples.SingleTargetExpand | lib/bolder/scopes/map.rb:41-49 | `Map.new('read' => 'read.users')` registers a one-element list, and `expand(['read'])` gives `read` and `read.users` |
| AliasMapExamples.SingleTargetTable | lib/bolder/scopes/map.rb:12-16 | a single target given as a bare value becomes a one-element list |
| AliasMapExamples.ExpandSingle | lib/bolder/scopes/map.rb:41-49 | `expand` of an alias whose one target is b holds the alias and b |
| AliasMapExamples.DocExamples | lib/bolder/scopes/map.rb:26-28 | with the table `read => [read.users]`, `map(['read'])` gives `read.users`, and `map(['read:users'])` gives `read:users` unchanged |
| AliasMapExamples.TreeTable | spec/bolder/scopes/map_spec.rb:39-42 | cursors as keys and targets are registered by their dotted strings |
| AliasMapExamples.MapsTreeAdmin | spec/bolder/scopes/map_spec.rb:44 | `map(%w[api.admin])` matches `api.me api.products` |
| AliasMapExamples.MapsTreeGuest | spec/bolder/scopes/map_spec.rb:45-46 | `map(%w[guest])` and `map(%w[api.me])` are both exactly `api.me` |
| Tree.Start | spec/bolder/scopes/tree_spec.rb:16 | a cursor at the root exactly when the name is the root's; otherwise the error for that name |
| Tree.TargetsDeclared | spec/bolder/scopes/tree_spec.rb:21-27 | a key leads somewhere from a node exactly when it is declared there: `*` with an any-node or a literal child, a literal child, or an alias; only `*` without an any-node can lead to several nodes |
| Tree.Step | spec/bolder/scopes/tree_spec.rb:21-27 | accepted exactly when every candidate leads somewhere by the key; the key is appended and every new candidate is reached from an old one; otherwise the error carries key and path |
| Tree.StepExact | spec/bolder/scopes/tree_spec.rb:19 | after an accepted key the candidates are exactly the targets of the old candidates: every target of every old candidate is a new candidate, and nothing else is |
| Tree.ValueStep | spec/bolder/scopes/tree_spec.rb:119-120 | accepted exactly when there are values and every candidate accepts them; the rendered values are appended; otherwise the error carries them and the path |
| Tree.ValueStepExact | spec/bolder/scopes/tree_spec.rb:162-168 | after an accepted value call every old candidate has an any-node, and the new candidates are exactly the shared children of those any-nodes |
| Tree.Apply | spec/bolder/scopes/tree_spec.rb:162-168 | an accepted move appends its rendering to the segments and keeps the cursor live |
| Tree.Walk | spec/bolder/scopes/tree_spec.rb:16-20 | a chain of moves applied in order ends, when accepted, at a cursor with segments and a non-empty set of candidates, all nodes of the grammar; what it appends and where it stops are stated by `Tree.WalkSegments`, `Tree.PrefixAccepted` and `Tree.RejectionFinal` |
| Tree.NatToString | spec/bolder/scopes/tree_spec.rb:120 | a natural number's string form is a non-empty run of decimal digits whose decimal value is the number, with no leading zero |
| Tree.WalkSegments | spec/bolder/scopes/tree_spec.rb:16-20 | an accepted chain appends exactly the rendered moves to the segments |
| Tree.Navigate | spec/bolder/scopes/tree_spec.rb:16-20 | an accepted navigation starts at the root name, followed by the rendered moves |
| Tree.ToScope | spec/bolder/scopes/tree_spec.rb:29-31 | the scope has the cursor's string form, and splitting that string on dots gives its segments back |
| Tree.DottedForm | spec/bolder/scopes/tree_spec.rb:16-20 | `to_s` is `to_a` joined by dots, and splitting `to_s` at the dots gives `to_a` back when no segment is empty or holds a dot |
| Tree.PrefixAccepted | spec/bolder/scopes/tree_spec.rb:16-18 | every prefix of an accepted chain is accepted |
| Tree.RejectionFinal | spec/bolder/scopes/tree_spec.rb:176-178 | once a chain is rejected, anything after it leaves the same error |
| Tree.WalkConcat | spec/bolder/scopes/tree_spec.rb:162 | walking a concatenation walks the second part from where the first ended |
| Tree.RenderedAllConcat | spec/bolder/scopes/tree_spec.rb:162 | the segments of a concatenation are the concatenated segments |
| Tree.SingleCandidate | spec/bolder/scopes/tree_spec.rb:21-23 | with one candidate, a step is the lookup in that node: its targets, or the error |
| Tree.AnyNodeShared | spec/bolder/scopes/tree_spec.rb:162-168 | at an any-node, `*`, an alias and an accepted value call all reach the one shared child, each appending its own segment |
| Tree.ImplicitWildcard | spec/bolder/scopes/tree_spec.rb:45-47 | without an any-node, `*` is accepted exactly when there are literal children, makes them all candidates, and a next key passes exactly when every one of them has it |
| Tree.FreeValues | spec/bolder/scopes/tree_spec.rb:180-188 | values are rejected without an any-node, accepted (when any) without a constraint, and rejected when one fails the constraint |
| Tree.CallFormsAgree | spec/bolder/scopes/tree_spec.rb:166-167 | `_value(1, '2')` and `_value([1, '2'])` give the same result |
| Tree.ValuesRoundTrip | spec/bolder/scopes/tree_spec.rb:120 | several values, or none, render as a parenthesised tuple; reading the rendered segment back gives the values when none holds a comma and a lone value does not look like a tuple |
| TreeExamples.CatalogOwnRead | spec/bolder/scopes/tree_spec.rb:16 | `bolder.api.products.own.read` is accepted, with that string and those segments |
| TreeExamples.CatalogOwnPrefix | spec/bolder/scopes/tree_spec.rb:17 | `bolder.api.products.own` is accepted, with that string |
| TreeExamples.CatalogProductsPrefix | spec/bolder/scopes/tree_spec.rb:18 | `bolder.api.products` is accepted, with that string |
| TreeExamples.CatalogProductsAll | spec/bolder/scopes/tree_spec.rb:19 | `products.*` makes both `own` and `all` candidates |
| TreeExamples.CatalogStarRead | spec/bolder/scopes/tree_spec.rb:19-20 | `bolder.api.products.*.read` is accepted on the first tree, with that string and the segments `bolder api products * read` |
| TreeExamples.CatalogStarReadScope | spec/bolder/scopes/tree_spec.rb:29-31 | the scope of that cursor has those segments, and its string is `bolder.api.products.*.read` |
| TreeExamples.UndeclaredKeysRejected | spec/bolder/scopes/tree_spec.rb:21-27 | `bolder.foo.products` and `bolder.api.products.*.api` are rejected |
| TreeExamples.ProductsWildcardIntersection | spec/bolder/scopes/tree_spec.rb:35-47 | `products.*.read` is accepted, as `bolder.api.products.*.read`; `products.*.delete` is rejected because `all` has no `delete` |
| TreeExamples.WalkFreeValue | spec/bolder/scopes/tree_spec.rb:106-120 | any non-empty value call after `products` is accepted, since the any-node has no constraint |
| TreeExamples.WildcardsStarRead | spec/bolder/scopes/tree_spec.rb:118 | `bolder.api.products.*.read` is accepted under the any-node of the wildcards tree, with that string |
| TreeExamples.FreeStringValue | spec/bolder/scopes/tree_spec.rb:119 | `_value('111').read` gives the segments of `bolder.api.products.111.read` |
| TreeExamples.FreeListValue | spec/bolder/scopes/tree_spec.rb:120 | `_value([1, 2, 3]).read` gives the segments of `bolder.api.products.(1,2,3).read` |
| TreeExamples.AccountPath | spec/bolder/scopes/tree_spec.rb:129 | an alias, `*` or an all-digit value after `accounts` reaches the account subtree, with its rendering as the fourth segment |
| TreeExamples.ResourceAccountProducts | spec/bolder/scopes/tree_spec.rb:162 | `accounts.resource_account.shops.*.products.*.read` is accepted with its nine segments |
| TreeExamples.NumericAccountProducts | spec/bolder/scopes/tree_spec.rb:163 | `accounts.('123')…` is accepted, rendering the value as `123` |
| TreeExamples.OwnAccountShops | spec/bolder/scopes/tree_spec.rb:164 | `accounts.own_account.shops` is accepted with its five segments |
| TreeExamples.OrderByString | spec/bolder/scopes/tree_spec.rb:165 | `orders.('123').read` is accepted, rendering `123` |
| TreeExamples.OrderByArgs | spec/bolder/scopes/tree_spec.rb:166 | `orders.(1,'2').read` is accepted, rendering `(1,2)` |
| TreeExamples.OrderByList | spec/bolder/scopes/tree_spec.rb:167 | `orders.([1,'2']).read` is accepted, rendering `(1,2)` |
| TreeExamples.AnyAccountProducts | spec/bolder/scopes/tree_spec.rb:168 | `accounts.*.shops.*.products.*.read` is accepted with its nine segments |
| TreeExamples.SettingsReadRejectedPath | spec/bolder/scopes/tree_spec.rb:170-173 | `settings.*.read` is rejected |
| TreeExamples.NonNumericOrderRejected | spec/bolder/scopes/tree_spec.rb:175-178 | an order value `nope` is rejected |
| TreeExamples.UndeclaredValueRejected | spec/bolder/scopes/tree_spec.rb:180-183 | a value after `shops`, which has no any-node, is rejected |
| TreeExamples.NonNumericAccountRejected | spec/bolder/scopes/tree_spec.rb:185-188 | an account value `nope` is rejected despite the aliases |

## Left out

- `Scope` (lib/bolder/scopes/scope.rb) is not part of this model. Coverage, ordering, substitution and rendering of a single scope are parameters, so nothing depends on how segments are compared.
- Scopes.Arrange: the order of the members is not stated, only that they are a permutation of the inputs. The model sorts by insertion, not by Ruby's sort algorithm, so the relative order of elements that compare equal may differ. The order also depends on the unmodelled `Scope#<=>`.
- Scopes.New: the same; the most-general-first order is not stated.
- Scopes.Expand: the same; the re-sorted order is not stated.
- `Scopes#inspect`, the memoised `@to_s`/`@to_a`, `object_id` and the `Comparable`-derived operators are Ruby runtime detail. `<=>` never yields 0, so `==` from `Comparable` is not modelled.
- `respond_to?(:to_scopes)` duck typing is modelled by the `Operand` datatype. A collection is one case; strings, scopes and lists of them are the other.
- `Array()` coercion is modelled only for its two cases in this code: a single target and a list of targets. An input to `map`/`expand` is a list of strings.
- AliasMap.TargetStrings: `Single` stands for a string or symbol target, which `Array()` wraps in a one-element list. A lone tree cursor given as a target is not modelled. `Array()` at map.rb line 14 converts it through the cursor's own `to_a`, which gives its segments (tree_spec.rb line 20), so `Map.new(tree.api.guest => tree.api.me)` registers `['api', 'me']`; `Single(cursor)` would stand for the one dotted string `api.me` instead. The documented targets (map.rb line 11, `Array<#to_s>`, and the example at line 35) are strings or lists.
- Stringification of keys, targets and tree cursors (`to_s`) is a parameter of `AliasMap.Build`. The examples use the identity and the dot-join.
- AliasMap.BuildLastWins: Ruby hashes have unique keys, but two keys may stringify alike, and then the later entry wins. The lemma states the value only for the last entry of each string form.
- lib/bolder/scopes/tree.rb is not part of this model. Navigation follows the rules its spec file's examples fix. Where they fix nothing, the model makes the choices named in the `Tree.` lines below and in the empty-call and first-name lines. `method_missing` dispatch is replaced by explicit `Key` and `Value` moves.
- The grammar-authoring DSL (spec/bolder/scopes/tree_spec.rb:50-104: blocks with and without a node argument, the `>` operator) is left out. It builds the same grammars as the explicit `Grammar` constructor, which the examples use directly.
- `respond_to?(:inspect)` and `respond_to?(:to_scope)` (tree_spec.rb lines 14-15) are Ruby introspection and are left out.
- A constraint is an arbitrary string predicate. The examples read `/^\d+$/` as "non-empty, decimal digits only" (`TreeExamples.IsInteger`). Regular expressions are not modelled. This reading is stricter than Ruby's: `^` and `$` match at line boundaries, so Ruby also accepts a string such as `"x\n1"` that has an all-digit line.
- A bare String passed to `Map#map` or `Map#expand` raises NoMethodError at `scopes.to_a` (map.rb lines 26 and 42). The model's input is a list of strings, so that error is not modelled.
- Tree.Step: an alias or `*` step from several candidates is accepted only when every candidate accepts the key, as a literal step is (`TreeExamples.AliasNeedsEveryCandidate`). A some-candidate rule, under which an alias declared by one alternative's any-node is accepted and only the accepting candidates are kept, is not modelled. No example takes an alias or `*` step from more than one candidate, so the examples do not decide between the two.
- Tree.RenderValues: no example fixes how a one-element list `_value([v])` renders. The model renders it bare, like the single value `_value(v)`; a reading that always parenthesises a list is not modelled.
- Tree.FreeValues: a value call at an any-node without a constraint is accepted even when that any-node declares aliases. No example fixes this. Every unconstrained `_any` in tree_spec.rb (lines 110, 133, 139, 151) declares no alias, and the one `_any` with aliases (line 129) has a constraint.
- Tree.Targets: at a node with both literal children and an any-node, `*` leads only to the any-node's shared child and not to the literal children. A key that is both a literal child and an alias leads to the literal child only. No grammar in tree_spec.rb has such a node, so no example fixes either choice.
- An empty value call `_value()` is rejected. No example covers it.
- A first name other than the root's is rejected with the same error.
- TreeExamples.ResourceAccountProducts: states the segments (`to_a`), not the dotted string the test compares. `to_s` is their dot-join by `Tree.ToS`.
- TreeExamples.NumericAccountProducts: the same; segments, not the dotted string.
- TreeExamples.OwnAccountShops: the same; segments, not the dotted string.
- TreeExamples.OrderByString: the same; segments, not the dotted string.
- TreeExamples.OrderByArgs: the same; segments, not the dotted string.
- TreeExamples.OrderByList: the same; segments, not the dotted string.
- TreeExamples.AnyAccountProducts: the same; segments, not the dotted string.
- TreeExamples.FreeStringValue: the same; segments, not the dotted string.
- TreeExamples.FreeListValue: the same; segments, not the dotted string.
- Integer atoms are shown with Ruby's `Integer#to_s` for decimal notation only. Other numeric types are not modelled.
