/** What build() does to a subtree, as values: each visited node's id, class
    and xml:base are refreshed from what its presentation tier resolves to,
    and an id that changes is moved in the diagram's id registry. Nodes are
    compared by identity only, so the node type is a parameter. */
module BuildPlan {
  import opened SvgTypes
  import opened IdRegistry

  /** The three fields build() refreshes on one node. */
  datatype Fields = Fields(id: Id, cssClass: Option<string>, xmlBase: Option<string>)

  /** What one node's presentation tier resolves to: `None` leaves the field
      alone; an xml:base update carries the parsed URI, itself absent when the
      text does not parse. */
  datatype Update = Update(id: Option<string>, cssClass: Option<string>, xmlBase: Option<Option<string>>)

  /** The registry together with each node's refreshed fields. */
  datatype State<N> = State(idMap: map<Id, N>, fields: map<N, Fields>)

  /** The fields of one node after build(): every field whose update is
      present takes it, the others are kept. */
  function Refresh(f: Fields, u: Update): (r: Fields)
    ensures r.id == if u.id.Some? then u.id else f.id
    ensures r.cssClass == if u.cssClass.Some? then u.cssClass else f.cssClass
    ensures r.xmlBase == if u.xmlBase.Some? then u.xmlBase.value else f.xmlBase
  {
    Fields(if u.id.Some? then u.id else f.id,
           if u.cssClass.Some? then u.cssClass else f.cssClass,
           if u.xmlBase.Some? then u.xmlBase.value else f.xmlBase)
  }

  /** build() on one node: the registry entry follows an id that changes, and
      the node's fields are refreshed. A node without fields is left alone. */
  function Step<N>(s: State<N>, x: N, u: Update): (r: State<N>)
    ensures r.fields.Keys == s.fields.Keys
  {
    if x !in s.fields then s
    else
      var f := s.fields[x];
      var idMap := if u.id.Some? && u.id != f.id then Reassign(s.idMap, f.id, u.id, x) else s.idMap;
      State(idMap, s.fields[x := Refresh(f, u)])
  }

  /** The update planned for `x`, nothing when `updates` has no entry for it. */
  function UpdateOf<N>(updates: map<N, Update>, x: N): Update
  {
    if x in updates then updates[x] else Update(None, None, None)
  }

  /** build() over a subtree: the single-node step for each node in visiting order. */
  function Walk<N>(s: State<N>, order: seq<N>, updates: map<N, Update>): (r: State<N>)
    ensures r.fields.Keys == s.fields.Keys
    decreases |order|
  {
    if order == [] then s
    else Walk(Step(s, order[0], UpdateOf(updates, order[0])), order[1..], updates)
  }

  /** Refreshing a node twice with the same update is refreshing it once. */
  lemma RefreshIdempotent(f: Fields, u: Update)
    ensures Refresh(Refresh(f, u), u) == Refresh(f, u)
  {
  }

  /** Walking a concatenated visit is walking its two parts one after the other. */
  lemma {:induction false} WalkAppend<N>(s: State<N>, a: seq<N>, b: seq<N>, updates: map<N, Update>)
    ensures Walk(s, a + b, updates) == Walk(Walk(s, a, updates), b, updates)
    decreases |a|
  {
    if a != [] {
      assert (a + b)[0] == a[0] && (a + b)[1..] == a[1..] + b;
      WalkAppend(Step(s, a[0], UpdateOf(updates, a[0])), a[1..], b, updates);
    } else {
      assert a + b == b;
    }
  }

  /** Walking a single node is one step. */
  lemma WalkOne<N>(s: State<N>, x: N, updates: map<N, Update>)
    ensures Walk(s, [x], updates) == Step(s, x, UpdateOf(updates, x))
  {
    assert [x][1..] == [];
  }

  /** Walking nothing changes nothing. */
  lemma WalkNothing<N>(s: State<N>, updates: map<N, Update>)
    ensures Walk(s, [], updates) == s
  {
  }

  /** After a walk every visited node carries its refreshed fields and every
      other node keeps the fields it had, however often a node was visited. */
  lemma {:induction false} WalkFields<N>(s: State<N>, order: seq<N>, updates: map<N, Update>)
    ensures forall x :: x in s.fields ==>
      Walk(s, order, updates).fields[x] ==
        if x in order then Refresh(s.fields[x], UpdateOf(updates, x)) else s.fields[x]
    decreases |order|
  {
    if order != [] {
      var y := order[0];
      var s' := Step(s, y, UpdateOf(updates, y));
      WalkFields(s', order[1..], updates);
      assert forall x :: x in order <==> x == y || x in order[1..];
      forall x | x in s.fields
        ensures Walk(s, order, updates).fields[x] ==
          if x in order then Refresh(s.fields[x], UpdateOf(updates, x)) else s.fields[x]
      {
        if x == y {
          RefreshIdempotent(s.fields[x], UpdateOf(updates, x));
        }
      }
    }
  }

  /** A walk over nodes that already carry their refreshed fields changes nothing. */
  lemma {:induction false} WalkSettled<N>(s: State<N>, order: seq<N>, updates: map<N, Update>)
    requires forall x :: x in order && x in s.fields ==> Refresh(s.fields[x], UpdateOf(updates, x)) == s.fields[x]
    ensures Walk(s, order, updates) == s
    decreases |order|
  {
    if order != [] {
      var y := order[0];
      if y in s.fields {
        assert s.fields[y := Refresh(s.fields[y], UpdateOf(updates, y))] == s.fields;
      }
      WalkSettled(s, order[1..], updates);
    }
  }

  /** Running build() twice in a row is the same as running it once. */
  lemma WalkIdempotent<N>(s: State<N>, order: seq<N>, updates: map<N, Update>)
    ensures Walk(Walk(s, order, updates), order, updates) == Walk(s, order, updates)
  {
    WalkFields(s, order, updates);
    forall x | x in order && x in Walk(s, order, updates).fields
      ensures Refresh(Walk(s, order, updates).fields[x], UpdateOf(updates, x)) == Walk(s, order, updates).fields[x]
    {
      RefreshIdempotent(s.fields[x], UpdateOf(updates, x));
    }
    WalkSettled(Walk(s, order, updates), order, updates);
  }

  /** A step whose id update differs from the node's id registers the node under
      the new id and drops the old entry (unless the two coincide); the
      registry is otherwise unchanged. */
  lemma StepRegisters<N>(s: State<N>, x: N, u: Update)
    requires x in s.fields && u.id.Some? && u.id != s.fields[x].id
    ensures u.id in Step(s, x, u).idMap && Step(s, x, u).idMap[u.id] == x
    ensures s.fields[x].id !in Step(s, x, u).idMap
    ensures forall k :: k != s.fields[x].id && k != u.id ==>
      (k in Step(s, x, u).idMap <==> k in s.idMap) &&
      (k in s.idMap ==> Step(s, x, u).idMap[k] == s.idMap[k])
  {
    ReassignEffect(s.idMap, s.fields[x].id, u.id, x);
  }
}
