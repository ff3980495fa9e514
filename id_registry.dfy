/** The diagram's id -> element registry as the element layer updates it:
    a single retarget (addAttribute / setAttribute / build on one node) and the
    sequence of registrations setDiagram() performs. Nodes are compared by identity only, so
    the node type is a parameter. */
module IdRegistry {
  import opened SvgTypes

  /** diagram.removeElement(oldId) followed by diagram.setElement(newId, node). */
  function Reassign<N>(m: map<Id, N>, oldId: Id, newId: Id, node: N): (r: map<Id, N>)
    ensures r.Keys == (m.Keys - {oldId}) + {newId}
    ensures r[newId] == node
  {
    (m - {oldId})[newId := node]
  }

  /** After a retarget the new id leads to the node, the old id leads nowhere
      (unless it is the new one), and every other entry is as before. */
  lemma ReassignEffect<N>(m: map<Id, N>, oldId: Id, newId: Id, node: N)
    ensures newId in Reassign(m, oldId, newId, node) && Reassign(m, oldId, newId, node)[newId] == node
    ensures oldId != newId ==> oldId !in Reassign(m, oldId, newId, node)
    ensures forall k :: k != oldId && k != newId ==>
      (k in Reassign(m, oldId, newId, node) <==> k in m) &&
      (k in m ==> Reassign(m, oldId, newId, node)[k] == m[k])
  {
  }

  /** If the node was registered under its old id only, after the retarget it is
      registered under the new id only: exactly one entry leads to it. */
  lemma ReassignLeavesOneEntry<N>(m: map<Id, N>, oldId: Id, newId: Id, node: N)
    requires forall k :: k in m && m[k] == node ==> k == oldId
    ensures forall k :: k in Reassign(m, oldId, newId, node) ==>
      (Reassign(m, oldId, newId, node)[k] == node <==> k == newId)
  {
  }

  /** setDiagram() over a subtree: setElement(id, node) for each node in visiting
      order, null ids included. */
  function Register<N>(m: map<Id, N>, order: seq<N>, ids: map<N, Id>): (r: map<Id, N>)
    requires forall x :: x in order ==> x in ids
    ensures m.Keys <= r.Keys
    decreases |order|
  {
    if order == [] then m
    else Register(m[ids[order[0]] := order[0]], order[1..], ids)
  }

  /** Registering a concatenated visit is registering its two parts in turn. */
  lemma {:induction false} RegisterAppend<N>(m: map<Id, N>, a: seq<N>, b: seq<N>, ids: map<N, Id>)
    requires forall x :: x in a + b ==> x in ids
    ensures Register(m, a + b, ids) == Register(Register(m, a, ids), b, ids)
    decreases |a|
  {
    if a != [] {
      assert (a + b)[0] == a[0] && (a + b)[1..] == a[1..] + b;
      RegisterAppend(m[ids[a[0]] := a[0]], a[1..], b, ids);
    } else {
      assert a + b == b;
    }
  }

  /** Registration adds exactly the visited ids to the keys. */
  lemma {:induction false} RegisterKeys<N>(m: map<Id, N>, order: seq<N>, ids: map<N, Id>)
    requires forall x :: x in order ==> x in ids
    ensures Register(m, order, ids).Keys == m.Keys + set x | x in order :: ids[x]
    decreases |order|
  {
    if order != [] {
      var y := order[0];
      RegisterKeys(m[ids[y] := y], order[1..], ids);
      assert forall x :: x in order <==> x == y || x in order[1..];
      assert (set x | x in order :: ids[x]) == {ids[y]} + set x | x in order[1..] :: ids[x];
    }
  }

  /** After registration every visited id leads to a visited node carrying that id,
      and ids nobody visited keep their old entry. */
  lemma {:induction false} RegisterContents<N>(m: map<Id, N>, order: seq<N>, ids: map<N, Id>)
    requires forall x :: x in order ==> x in ids
    ensures forall x :: x in order ==>
      ids[x] in Register(m, order, ids) &&
      Register(m, order, ids)[ids[x]] in order && ids[Register(m, order, ids)[ids[x]]] == ids[x]
    ensures forall k :: k in m && (forall x :: x in order ==> ids[x] != k) ==>
      k in Register(m, order, ids) && Register(m, order, ids)[k] == m[k]
    decreases |order|
  {
    if order != [] {
      var y := order[0];
      var m' := m[ids[y] := y];
      RegisterContents(m', order[1..], ids);
      var r := Register(m, order, ids);
      forall x | x in order
        ensures ids[x] in r && r[ids[x]] in order && ids[r[ids[x]]] == ids[x]
      {
        if !exists z :: z in order[1..] && ids[z] == ids[x] {
          assert ids[x] == ids[y];
          assert r[ids[x]] == m'[ids[x]];
        }
      }
    }
  }

  /** When the visited nodes carry pairwise different ids, each is registered under its own. */
  lemma RegisterDistinct<N>(m: map<Id, N>, order: seq<N>, ids: map<N, Id>)
    requires forall x :: x in order ==> x in ids
    requires forall x, y :: x in order && y in order && ids[x] == ids[y] ==> x == y
    ensures forall x :: x in order ==> ids[x] in Register(m, order, ids)
    ensures forall x :: x in order ==> Register(m, order, ids)[ids[x]] == x
  {
    RegisterContents(m, order, ids);
  }
}
