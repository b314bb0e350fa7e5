/** The `Scopes` collection of lib/bolder/scopes.rb: a list of scopes kept in
    an internal, most-general-first order, with the authorization queries
    `resolve`, `can?` and `<=>`, the union `merge`, and `expand`.

    The scope type is a parameter T, and what a single scope does is passed in:
    - `covers(a, b)` is `a >= b`, "granted scope a authorizes requested scope b";
    - `cmp(a, b)` is `a <=> b`, used only to put the members in order;
    - `subst(a)` is `a.expand(attrs)` for the attributes at hand;
    - `render(a)` is `a.to_s`.
    Every property below holds whatever these functions are. */
module Scopes {
  import opened Wrappers
  import opened Seqs
  import Text

  /** A collection; `members` is the internal order. */
  datatype Scopes<T> = Scopes(members: seq<T>)

  /** The argument of `merge`, `can?` and `<=>`: either something that converts
      to a collection (`respond_to?(:to_scopes)`), or scope-like items (strings,
      scopes or a list of them) that the constructor can wrap. */
  datatype Operand<T> = Collection(scopes: Scopes<T>) | Items(items: seq<T>)

  /** The error `merge` raises. */
  datatype Error = ArgumentError

  /** The scopes an operand stands for. */
  function OperandMembers<T>(other: Operand<T>): seq<T> {
    match other
    case Collection(s) => s.members
    case Items(xs) => xs
  }

  /** One insertion step of `sort { |a, b| b <=> a }`: x goes in front of the
      first element y with `y <=> x` not positive, and the others keep their order. */
  function Insert<T>(x: T, sorted: seq<T>, cmp: (T, T) -> int): seq<T>
    decreases |sorted|
  {
    if |sorted| == 0 then [x]
    else if cmp(sorted[0], x) <= 0 then [x] + sorted
    else [sorted[0]] + Insert(x, sorted[1..], cmp)
  }

  /** Insert adds x and nothing else. */
  lemma {:induction false} InsertPermutes<T>(x: T, sorted: seq<T>, cmp: (T, T) -> int)
    ensures multiset(Insert(x, sorted, cmp)) == multiset(sorted) + multiset{x}
    decreases |sorted|
  {
    if |sorted| > 0 && cmp(sorted[0], x) > 0 {
      InsertPermutes(x, sorted[1..], cmp);
      assert sorted == [sorted[0]] + sorted[1..];
    }
  }

  /** The internal order: the inputs sorted by `b <=> a`. */
  function Arrange<T(==,!new)>(s: seq<T>, cmp: (T, T) -> int): (r: seq<T>)
    ensures multiset(r) == multiset(s)
    decreases |s|
  {
    if |s| == 0 then []
    else
      assert s == [s[0]] + s[1..];
      InsertPermutes(s[0], Arrange(s[1..], cmp), cmp);
      Insert(s[0], Arrange(s[1..], cmp), cmp)
  }

  /** `Scopes.new(scopes)`: every input becomes a member, only the order changes;
      duplicates are kept. */
  function New<T(==,!new)>(inputs: seq<T>, cmp: (T, T) -> int): (r: Scopes<T>)
    ensures multiset(r.members) == multiset(inputs)
    ensures |r.members| == |inputs|
    ensures forall x :: x in r.members <==> x in inputs
  {
    var r := Scopes(Arrange(inputs, cmp));
    assert forall x :: x in r.members <==> x in multiset(inputs);
    r
  }

  /** `Scopes.wrap(sc)`: a collection is taken as it is, anything else goes through the constructor. */
  function Wrap<T(==,!new)>(other: Operand<T>, cmp: (T, T) -> int): (r: Scopes<T>)
    ensures other.Collection? ==> r == other.scopes
    ensures multiset(r.members) == multiset(OperandMembers(other))
    ensures forall x :: x in r.members <==> x in OperandMembers(other)
  {
    match other
    case Collection(s) => s
    case Items(xs) => New(xs, cmp)
  }

  /** `merge(another)`: the duplicate-free union of both collections; an operand
      that is not a collection raises ArgumentError. */
  function Merge<T(==,!new)>(a: Scopes<T>, other: Operand<T>, cmp: (T, T) -> int): (r: Result<Scopes<T>, Error>)
    ensures r.Err? <==> other.Items?
    ensures r.Err? ==> r.error == ArgumentError
    ensures r.Ok? ==> Distinct(r.value.members)
    ensures r.Ok? ==> forall x :: x in r.value.members <==> x in a.members || x in other.scopes.members
  {
    match other
    case Items(_) => Err(ArgumentError)
    case Collection(b) =>
      var u := Uniq(a.members + b.members);
      var r := New(u, cmp);
      assert forall x :: multiset(r.members)[x] == multiset(u)[x];
      Ok(r)
  }

  /** As sets, merging is commutative. */
  lemma MergeCommutes<T(!new)>(a: Scopes<T>, b: Scopes<T>, cmp: (T, T) -> int)
    ensures Merge(a, Collection(b), cmp).Ok? && Merge(b, Collection(a), cmp).Ok?
    ensures forall x :: x in Merge(a, Collection(b), cmp).value.members <==> x in Merge(b, Collection(a), cmp).value.members
  {
  }

  /** `A.merge(A)` has exactly A's members; when A holds no duplicates it is a
      reordering of A. */
  lemma MergeSelf<T(!new)>(a: Scopes<T>, cmp: (T, T) -> int)
    ensures Merge(a, Collection(a), cmp).Ok?
    ensures forall x :: x in Merge(a, Collection(a), cmp).value.members <==> x in a.members
    ensures Distinct(a.members) ==> multiset(Merge(a, Collection(a), cmp).value.members) == multiset(a.members)
  {
    var r := Merge(a, Collection(a), cmp).value;
    if Distinct(a.members) {
      DistinctSameMembers(r.members, a.members);
    }
  }

  /** Ruby's `find`, as a position: the first index whose element satisfies p, or |s|. */
  function FindIndex<T>(s: seq<T>, p: T -> bool): (i: nat)
    ensures i <= |s|
    ensures i < |s| ==> p(s[i])
    ensures forall j :: 0 <= j < i ==> !p(s[j])
    decreases |s|
  {
    if |s| == 0 then 0
    else if p(s[0]) then 0
    else 1 + FindIndex(s[1..], p)
  }

  /** `any?(&block)`. */
  function Any<T(!new)>(a: Scopes<T>, p: T -> bool): (r: bool)
    ensures r <==> exists x :: x in a.members && p(x)
  {
    var i := FindIndex(a.members, p);
    assert i < |a.members| ==> a.members[i] in a.members;
    i < |a.members|
  }

  /** `all?(&block)`. */
  function All<T(!new)>(a: Scopes<T>, p: T -> bool): (r: bool)
    ensures r <==> forall x :: x in a.members ==> p(x)
  {
    var i := FindIndex(a.members, x => !p(x));
    assert i < |a.members| ==> a.members[i] in a.members;
    i == |a.members|
  }

  /** `resolve(scope)`: the first member, in internal order, that covers q;
      None exactly when no member covers q. */
  function Resolve<T(!new)>(a: Scopes<T>, q: T, covers: (T, T) -> bool): (r: Option<T>)
    ensures r.Some? ==> r.value in a.members && covers(r.value, q)
    ensures r.Some? ==> exists i :: 0 <= i < |a.members| && a.members[i] == r.value &&
                          forall j :: 0 <= j < i ==> !covers(a.members[j], q)
    ensures r.None? <==> forall x :: x in a.members ==> !covers(x, q)
  {
    var i := FindIndex(a.members, s => covers(s, q));
    if i < |a.members| then Some(a.members[i]) else None
  }

  /** `can?(another)`: some granted member covers some requested scope. */
  function Can<T(==,!new)>(a: Scopes<T>, other: Operand<T>, covers: (T, T) -> bool, cmp: (T, T) -> int): (r: bool)
    ensures r <==> exists x, y :: x in a.members && y in OperandMembers(other) && covers(x, y)
    ensures |a.members| == 0 || |OperandMembers(other)| == 0 ==> !r
  {
    var b := Wrap(other, cmp);
    var i := FindIndex(a.members, s1 => Any(b, s2 => covers(s1, s2)));
    assert i < |a.members| ==> a.members[i] in a.members;
    i < |a.members|
  }

  /** `a <=> another`: 1 when one single member covers every requested scope, -1 otherwise. */
  function Compare<T(==,!new)>(a: Scopes<T>, other: Operand<T>, covers: (T, T) -> bool, cmp: (T, T) -> int): (r: int)
    ensures r == 1 || r == -1
    ensures r == 1 <==> exists x :: x in a.members && forall y :: y in OperandMembers(other) ==> covers(x, y)
    ensures |OperandMembers(other)| == 0 ==> (r == 1 <==> |a.members| > 0)
  {
    var b := Wrap(other, cmp);
    var i := FindIndex(a.members, s1 => All(b, s2 => covers(s1, s2)));
    assert i < |a.members| ==> a.members[i] in a.members;
    assert |a.members| > 0 ==> a.members[0] in a.members;
    if i < |a.members| then 1 else -1
  }

  /** The universal check implies the existential one whenever something is requested. */
  lemma CompareImpliesCan<T(!new)>(a: Scopes<T>, other: Operand<T>, covers: (T, T) -> bool, cmp: (T, T) -> int)
    requires Compare(a, other, covers, cmp) == 1
    requires |OperandMembers(other)| > 0
    ensures Can(a, other, covers, cmp)
  {
    var x :| x in a.members && forall y :: y in OperandMembers(other) ==> covers(x, y);
    var y := OperandMembers(other)[0];
    assert y in OperandMembers(other) && covers(x, y);
  }

  /** `expand(attrs)`: every member is substituted, and the results are put back in order. */
  function Expand<T(==,!new)>(a: Scopes<T>, subst: T -> T, cmp: (T, T) -> int): (r: Scopes<T>)
    ensures |r.members| == |a.members|
    ensures multiset(r.members) == multiset(seq(|a.members|, i requires 0 <= i < |a.members| => subst(a.members[i])))
    ensures forall y :: y in r.members <==> exists i :: 0 <= i < |a.members| && y == subst(a.members[i])
  {
    var substituted := seq(|a.members|, i requires 0 <= i < |a.members| => subst(a.members[i]));
    assert forall i :: 0 <= i < |a.members| ==> substituted[i] == subst(a.members[i]);
    assert forall y :: y in substituted <==> exists i :: 0 <= i < |a.members| && y == substituted[i];
    New(substituted, cmp)
  }

  /** `to_a`: one rendered string per member, in internal order. */
  function ToA<T>(a: Scopes<T>, render: T -> string): (r: seq<string>)
    ensures |r| == |a.members|
    ensures forall i :: 0 <= i < |r| ==> r[i] == render(a.members[i])
  {
    seq(|a.members|, i requires 0 <= i < |a.members| => render(a.members[i]))
  }

  /** `to_s`: the rendered members joined by ", ". When no rendering holds a
      comma, splitting the string at the commas gives the renderings back, each
      after the first with its leading space. */
  function ToS<T>(a: Scopes<T>, render: T -> string): (r: string)
    ensures |a.members| == 0 ==> r == ""
    ensures |a.members| == 1 ==> r == render(a.members[0])
    ensures |a.members| > 0 && (forall i :: 0 <= i < |a.members| ==> ',' !in render(a.members[i])) ==>
              Text.Split(r, ',') == Text.Padded(ToA(a, render), " ")
  {
    var parts := ToA(a, render);
    if |parts| > 0 && forall i :: 0 <= i < |parts| ==> ',' !in parts[i] then
      Text.SplitJoinPadded(parts, ',', " ");
      assert [','] + " " == ", ";
      Text.Join(parts, ", ")
    else Text.Join(parts, ", ")
  }
}
