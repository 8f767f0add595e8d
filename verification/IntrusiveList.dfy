// The circular doubly linked lists of datastructures.h, with nodes embedded in other
// objects: node x is one of `nodes` objects, and list k is headed by node nodes + k.
module IntrusiveList {
  import opened ListSpec

  // Position i of list k; positions -1 and |lists[k]| are both the list head.
  function NodeAt(lists: Lists, nodes: nat, k: nat, i: int): (x: nat)
    requires k < |lists|
  {
    if 0 <= i < |lists[k]| then lists[k][i] else nodes + k
  }

  // Every node is on at most one list, at most once.
  ghost predicate Disjoint(lists: Lists, nodes: nat) {
    && (forall k, i :: 0 <= k < |lists| && 0 <= i < |lists[k]| ==> lists[k][i] < nodes)
    && (forall k, i, k', i' ::
          (0 <= k < |lists| && 0 <= i < |lists[k]| && 0 <= k' < |lists| && 0 <= i' < |lists[k']|
            && lists[k][i] == lists[k'][i'])
          ==> k == k' && i == i')
  }

  ghost predicate LinkOk(next: seq<nat>, prev: seq<nat>, nodes: nat, lists: Lists, k: nat, i: nat)
    requires k < |lists|
  {
    var a, b := NodeAt(lists, nodes, k, i - 1), NodeAt(lists, nodes, k, i);
    a < |next| && b < |prev| && next[a] == b && prev[b] == a
  }

  ghost predicate Linked(next: seq<nat>, prev: seq<nat>, nodes: nat, lists: Lists) {
    && |next| == |prev| == nodes + |lists|
    && Disjoint(lists, nodes)
    && forall k, i: nat :: 0 <= k < |lists| && i <= |lists[k]| ==> LinkOk(next, prev, nodes, lists, k, i)
  }

  ghost predicate OnList(lists: Lists, x: nat) {
    exists k :: 0 <= k < |lists| && x in lists[k]
  }

  lemma DisjointNoDup(lists: Lists, nodes: nat, k: nat)
    requires Disjoint(lists, nodes) && k < |lists|
    ensures NoDup(lists[k])
  {
  }

  lemma PushDisjoint(lists: Lists, nodes: nat, k: nat, x: nat)
    requires Disjoint(lists, nodes) && k < |lists| && x < nodes && !OnList(lists, x)
    ensures Disjoint(Push(lists, k, x), nodes)
  {
    var r := Push(lists, k, x);
    forall j, i | 0 <= j < |lists| && 0 <= i < |lists[j]|
      ensures lists[j][i] != x
    {
      assert lists[j][i] in lists[j];
    }
  }

  // The four writes of list_add.
  ghost predicate AddWrites(next: seq<nat>, prev: seq<nat>, nodes: nat, lists: Lists, k: nat, x: nat,
        next': seq<nat>, prev': seq<nat>)
    requires k < |lists| && x < nodes && |next| == |prev| == nodes + |lists|
  {
    var h, f := nodes + k, NodeAt(lists, nodes, k, 0);
    f < |prev| && next' == next[x := f][h := x] && prev' == prev[x := h][f := x]
  }

  // The four writes of list_remove, on the node at position i.
  ghost predicate RemoveWrites(next: seq<nat>, prev: seq<nat>, nodes: nat, lists: Lists, k: nat, i: nat,
        next': seq<nat>, prev': seq<nat>)
    requires k < |lists| && i < |lists[k]|
  {
    var x, a, b := lists[k][i], NodeAt(lists, nodes, k, i - 1), NodeAt(lists, nodes, k, i + 1);
    && a < |next| && b < |prev| && x < |next| && x < |prev|
    && next' == next[a := b][x := x] && prev' == prev[b := a][x := x]
  }

  // list_add: the node goes to the front of the list and every other list is unchanged.
  lemma AddRefines(next: seq<nat>, prev: seq<nat>, nodes: nat, lists: Lists, k: nat, x: nat,
        next': seq<nat>, prev': seq<nat>)
    requires Linked(next, prev, nodes, lists) && k < |lists| && x < nodes && !OnList(lists, x)
    requires AddWrites(next, prev, nodes, lists, k, x, next', prev')
    ensures Linked(next', prev', nodes, Push(lists, k, x))
  {
    var r := Push(lists, k, x);
    PushDisjoint(lists, nodes, k, x);
    forall j, i: nat | 0 <= j < |r| && i <= |r[j]|
      ensures LinkOk(next', prev', nodes, r, j, i)
    {
      if j != k {
        AddKeepsOther(next, prev, nodes, lists, k, x, next', prev', j, i);
      } else if i >= 2 {
        AddShifts(next, prev, nodes, lists, k, x, next', prev', i);
      } else {
        assert LinkOk(next, prev, nodes, lists, k, 0);
        assert NodeAt(r, nodes, k, 0) == x && NodeAt(r, nodes, k, 1) == NodeAt(lists, nodes, k, 0);
      }
    }
  }

  lemma NotOnList(lists: Lists, nodes: nat, x: nat, j: nat, i: int)
    requires !OnList(lists, x) && x < nodes && j < |lists|
    ensures NodeAt(lists, nodes, j, i) != x
  {
    if 0 <= i < |lists[j]| {
      assert lists[j][i] in lists[j];
    }
  }

  lemma DifferentNodes(lists: Lists, nodes: nat, j: nat, i: int, k: nat, l: int)
    requires Disjoint(lists, nodes) && j < |lists| && k < |lists| && j != k
    ensures NodeAt(lists, nodes, j, i) != NodeAt(lists, nodes, k, l)
  {
  }

  lemma AddKeepsOther(next: seq<nat>, prev: seq<nat>, nodes: nat, lists: Lists, k: nat, x: nat,
        next': seq<nat>, prev': seq<nat>, j: nat, i: nat)
    requires Linked(next, prev, nodes, lists) && k < |lists| && x < nodes && !OnList(lists, x)
    requires AddWrites(next, prev, nodes, lists, k, x, next', prev')
    requires j < |lists| && j != k && i <= |lists[j]|
    ensures LinkOk(next', prev', nodes, Push(lists, k, x), j, i)
  {
    assert LinkOk(next, prev, nodes, lists, j, i);
    NotOnList(lists, nodes, x, j, i - 1);
    NotOnList(lists, nodes, x, j, i);
    DifferentNodes(lists, nodes, j, i - 1, k, -1);
    DifferentNodes(lists, nodes, j, i, k, 0);
  }

  lemma AddShifts(next: seq<nat>, prev: seq<nat>, nodes: nat, lists: Lists, k: nat, x: nat,
        next': seq<nat>, prev': seq<nat>, i: nat)
    requires Linked(next, prev, nodes, lists) && k < |lists| && x < nodes && !OnList(lists, x)
    requires AddWrites(next, prev, nodes, lists, k, x, next', prev')
    requires 2 <= i <= |lists[k]| + 1
    ensures LinkOk(next', prev', nodes, Push(lists, k, x), k, i)
  {
    var r := Push(lists, k, x);
    assert LinkOk(next, prev, nodes, lists, k, i - 1);
    assert NodeAt(r, nodes, k, i) == NodeAt(lists, nodes, k, i - 1);
    assert NodeAt(r, nodes, k, i - 1) == NodeAt(lists, nodes, k, i - 2);
    NotOnList(lists, nodes, x, k, i - 1);
    NotOnList(lists, nodes, x, k, i - 2);
    assert NodeAt(lists, nodes, k, i - 1) != NodeAt(lists, nodes, k, 0);
  }

  lemma DeleteIs(lists: Lists, nodes: nat, k: nat, i: nat)
    requires Disjoint(lists, nodes) && k < |lists| && i < |lists[k]|
    ensures Delete(lists, lists[k][i]) == lists[k := lists[k][..i] + lists[k][i + 1..]]
  {
    var x := lists[k][i];
    DisjointNoDup(lists, nodes, k);
    WithoutAt(lists[k], i);
    forall j | 0 <= j < |lists| && j != k
      ensures Without(lists[j], x) == lists[j]
    {
      WithoutAbsent(lists[j], x);
    }
  }

  lemma DeleteDisjoint(lists: Lists, nodes: nat, k: nat, i: nat)
    requires Disjoint(lists, nodes) && k < |lists| && i < |lists[k]|
    ensures Disjoint(lists[k := lists[k][..i] + lists[k][i + 1..]], nodes)
  {
    var r := lists[k := lists[k][..i] + lists[k][i + 1..]];
    forall j, l | 0 <= j < |r| && 0 <= l < |r[j]|
      ensures Gap(k, i, j, l) < |lists[j]| && r[j][l] == lists[j][Gap(k, i, j, l)]
    {
      assert j == k && l >= i ==> r[j][l] == lists[k][i + 1..][l - i];
    }
    forall j, l, j', l' | 0 <= j < |r| && 0 <= l < |r[j]| && 0 <= j' < |r| && 0 <= l' < |r[j']| && r[j][l] == r[j'][l']
      ensures j == j' && l == l'
    {
      assert lists[j][Gap(k, i, j, l)] == lists[j'][Gap(k, i, j', l')];
    }
  }

  // Where position l of list j was before position i of list k went.
  function Gap(k: nat, i: nat, j: nat, l: nat): (m: nat) {
    if j == k && l >= i then l + 1 else l
  }

  // list_remove is given only the node; it closes the gap on the one list that holds it.
  lemma RemoveRefines(next: seq<nat>, prev: seq<nat>, nodes: nat, lists: Lists, k: nat, i: nat,
        next': seq<nat>, prev': seq<nat>)
    requires Linked(next, prev, nodes, lists) && k < |lists| && i < |lists[k]|
    requires RemoveWrites(next, prev, nodes, lists, k, i, next', prev')
    ensures Linked(next', prev', nodes, Delete(lists, lists[k][i]))
  {
    DeleteIs(lists, nodes, k, i);
    DeleteDisjoint(lists, nodes, k, i);
    var r := lists[k := lists[k][..i] + lists[k][i + 1..]];
    forall j, l: nat | 0 <= j < |r| && l <= |r[j]|
      ensures LinkOk(next', prev', nodes, r, j, l)
    {
      if j != k {
        RemoveKeepsOther(next, prev, nodes, lists, k, i, next', prev', j, l);
      } else {
        RemoveShifts(next, prev, nodes, lists, k, i, next', prev', l);
      }
    }
    hide Disjoint, LinkOk, RemoveWrites, Delete;
  }

  lemma RemoveKeepsOther(next: seq<nat>, prev: seq<nat>, nodes: nat, lists: Lists, k: nat, i: nat,
        next': seq<nat>, prev': seq<nat>, j: nat, l: nat)
    requires Linked(next, prev, nodes, lists) && k < |lists| && i < |lists[k]|
    requires RemoveWrites(next, prev, nodes, lists, k, i, next', prev')
    requires j < |lists| && j != k && l <= |lists[j]|
    ensures LinkOk(next', prev', nodes, lists[k := lists[k][..i] + lists[k][i + 1..]], j, l)
  {
    assert LinkOk(next, prev, nodes, lists, j, l);
    DifferentNodes(lists, nodes, j, l - 1, k, i - 1);
    DifferentNodes(lists, nodes, j, l - 1, k, i);
    DifferentNodes(lists, nodes, j, l, k, i + 1);
    DifferentNodes(lists, nodes, j, l, k, i);
    hide Disjoint;
  }

  lemma SameListNodes(lists: Lists, nodes: nat, k: nat, i: int, j: int)
    requires Disjoint(lists, nodes) && k < |lists| && 0 <= i < |lists[k]| && i != j
    ensures NodeAt(lists, nodes, k, j) != NodeAt(lists, nodes, k, i)
  {
  }

  lemma RemoveShifts(next: seq<nat>, prev: seq<nat>, nodes: nat, lists: Lists, k: nat, i: nat,
        next': seq<nat>, prev': seq<nat>, l: nat)
    requires Linked(next, prev, nodes, lists) && k < |lists| && i < |lists[k]| && l < |lists[k]|
    requires RemoveWrites(next, prev, nodes, lists, k, i, next', prev')
    ensures LinkOk(next', prev', nodes, lists[k := lists[k][..i] + lists[k][i + 1..]], k, l)
  {
    GapNodes(lists, nodes, k, i, l - 1);
    GapNodes(lists, nodes, k, i, l);
    if l < i {
      KeepsBefore(next, prev, nodes, lists, k, i, next', prev', l);
    } else if l > i {
      KeepsAfter(next, prev, nodes, lists, k, i, next', prev', l);
    } else {
      SameListNodes(lists, nodes, k, i, i - 1);
      SameListNodes(lists, nodes, k, i, i + 1);
    }
    hide Disjoint, Linked;
  }

  lemma KeepsBefore(next: seq<nat>, prev: seq<nat>, nodes: nat, lists: Lists, k: nat, i: nat,
        next': seq<nat>, prev': seq<nat>, l: nat)
    requires Linked(next, prev, nodes, lists) && k < |lists| && i < |lists[k]| && l < i
    requires RemoveWrites(next, prev, nodes, lists, k, i, next', prev')
    ensures LinkOk(next', prev', nodes, lists, k, l)
  {
    assert LinkOk(next, prev, nodes, lists, k, l);
    SameListNodes(lists, nodes, k, i, l - 1);
    SameListNodes(lists, nodes, k, i, l);
    SameListNodes(lists, nodes, k, l, i + 1);
    SameListNodes(lists, nodes, k, i - 1, l - 1);
    hide Disjoint;
  }

  lemma KeepsAfter(next: seq<nat>, prev: seq<nat>, nodes: nat, lists: Lists, k: nat, i: nat,
        next': seq<nat>, prev': seq<nat>, l: nat)
    requires Linked(next, prev, nodes, lists) && k < |lists| && i < l < |lists[k]|
    requires RemoveWrites(next, prev, nodes, lists, k, i, next', prev')
    ensures LinkOk(next', prev', nodes, lists, k, l + 1)
  {
    assert LinkOk(next, prev, nodes, lists, k, l + 1);
    SameListNodes(lists, nodes, k, i, l);
    SameListNodes(lists, nodes, k, i, l + 1);
    SameListNodes(lists, nodes, k, l, i - 1);
    SameListNodes(lists, nodes, k, i + 1, l + 1);
    hide Disjoint;
  }

  lemma GapNodes(lists: Lists, nodes: nat, k: nat, i: nat, l: int)
    requires k < |lists| && i < |lists[k]| && -1 <= l < |lists[k]|
    ensures NodeAt(lists[k := lists[k][..i] + lists[k][i + 1..]], nodes, k, l)
      == NodeAt(lists, nodes, k, if l < i then l else l + 1)
  {
  }

  class ListHeap {
    const nodes: nat
    const next: array<nat>
    const prev: array<nat>
    ghost var lists: Lists

    ghost predicate Valid()
      reads this, next, prev
    {
      next != prev && Linked(next[..], prev[..], nodes, lists)
    }

    // INIT_LIST_HEAD on every head.
    constructor (nodes: nat, heads: nat)
      ensures Valid() && fresh(next) && fresh(prev) && this.nodes == nodes
      ensures lists == seq(heads, i => [])
      ensures forall x: nat :: x < nodes ==> Loose(x)
    {
      this.nodes := nodes;
      next := new nat[nodes + heads](i => i);
      prev := new nat[nodes + heads](i => i);
      lists := seq(heads, i => []);
      new;
      forall k, i: nat | 0 <= k < |lists| && i <= |lists[k]|
        ensures LinkOk(next[..], prev[..], nodes, lists, k, i)
      {
        assert NodeAt(lists, nodes, k, i) == nodes + k;
      }
    }

    method Empty(k: nat) returns (empty: bool)
      requires Valid() && k < |lists|
      ensures empty <==> lists[k] == []
    {
      assert LinkOk(next[..], prev[..], nodes, lists, k, 0);
      empty := next[nodes + k] == nodes + k;
    }

    method First(k: nat) returns (x: nat)
      requires Valid() && k < |lists| && lists[k] != []
      ensures x == lists[k][0]
    {
      assert LinkOk(next[..], prev[..], nodes, lists, k, 0);
      x := next[nodes + k];
    }

    // One step of a walk: from the head, and from the node at position i. Past the last node it
    // is at the head again.
    method Front(k: nat) returns (x: nat)
      requires Valid() && k < |lists|
      ensures x == NodeAt(lists, nodes, k, 0)
    {
      assert LinkOk(next[..], prev[..], nodes, lists, k, 0);
      x := next[nodes + k];
    }

    method After(x: nat, ghost k: nat, ghost i: nat) returns (y: nat)
      requires Valid() && k < |lists| && i < |lists[k]| && lists[k][i] == x
      ensures y == NodeAt(lists, nodes, k, i + 1)
    {
      assert LinkOk(next[..], prev[..], nodes, lists, k, i + 1);
      y := next[x];
    }

    // A node linked only to itself.
    ghost predicate Loose(x: nat)
      reads this, next, prev
    {
      x < nodes && LooseNode(next[..], prev[..], lists, x)
    }

    // list_empty on a node: whether it is linked to itself.
    method Unlinked(x: nat) returns (alone: bool)
      requires Valid() && (OnList(lists, x) || Loose(x))
      ensures alone <==> !OnList(lists, x)
    {
      if OnList(lists, x) {
        ghost var k: nat :| k < |lists| && x in lists[k];
        ghost var i: nat :| i < |lists[k]| && lists[k][i] == x;
        assert LinkOk(next[..], prev[..], nodes, lists, k, i + 1);
        SameListNodes(lists, nodes, k, i, i + 1);
      }
      alone := next[x] == x;
    }

    // list_add
    method Add(x: nat, k: nat)
      requires Valid() && k < |lists| && x < nodes && !OnList(lists, x)
      modifies this, next, prev
      ensures Valid() && lists == Push(old(lists), k, x)
      ensures forall y: nat :: y != x && old(Loose(y)) ==> Loose(y)
    {
      ghost var n, p := next[..], prev[..];
      assert LinkOk(n, p, nodes, lists, k, 0);
      var h := nodes + k;
      next[x] := next[h];
      prev[x] := h;
      prev[next[h]] := x;
      next[h] := x;
      AddRefines(n, p, nodes, lists, k, x, next[..], prev[..]);
      lists := Push(lists, k, x);
      forall y: nat | y != x && old(Loose(y))
        ensures Loose(y)
      {
        NotOnList(old(lists), nodes, y, k, 0);
        PushOnList(old(lists), k, x, y);
      }
    }

    // datastructures.h:36-43
    method Unlink(x: nat)
      requires next != prev && x < next.Length && x < prev.Length && next[x] < prev.Length && prev[x] < next.Length
      requires next[x] == x <==> prev[x] == x
      modifies next, prev
      ensures next[..] == old(next[..])[old(prev[x]) := old(next[x])][x := x]
      ensures prev[..] == old(prev[..])[old(next[x]) := old(prev[x])][x := x]
    {
      next[prev[x]] := next[x];
      prev[next[x]] := prev[x];
      next[x] := x;
      prev[x] := x;
    }

    // list_remove: the head of the list is not passed. On a node linked only to itself it
    // changes nothing, which is what makes the scheduler's unconditional removal of the
    // running process harmless.
    method Remove(x: nat)
      requires Valid() && (OnList(lists, x) || Loose(x))
      modifies this, next, prev
      ensures Valid() && lists == Delete(old(lists), x) && Loose(x)
      ensures forall y: nat :: old(Loose(y)) ==> Loose(y)
    {
      hide Linked, RemoveWrites, Delete;
      ghost var n, p, l0 := next[..], prev[..], lists;
      ghost var k: nat, i: nat;
      if OnList(lists, x) {
        k, i := Spot(n, p, nodes, lists, x);
      }
      Unlink(x);
      lists := Delete(lists, x);
      if OnList(l0, x) {
        RemoveDone(n, p, nodes, l0, k, i, next[..], prev[..]);
      } else {
        DeleteAbsent(l0, x);
        assert LooseNode(n, p, l0, x);
        assert next[..] == n && prev[..] == p;
      }
    }
  }

  lemma Spot(next: seq<nat>, prev: seq<nat>, nodes: nat, lists: Lists, x: nat) returns (k: nat, i: nat)
    requires Linked(next, prev, nodes, lists) && OnList(lists, x)
    ensures k < |lists| && i < |lists[k]| && lists[k][i] == x && x < |next| == |prev|
    ensures next[x] == NodeAt(lists, nodes, k, i + 1) && prev[x] == NodeAt(lists, nodes, k, i - 1)
    ensures next[x] < |prev| && prev[x] < |next| && next[x] != x && prev[x] != x
    ensures forall next', prev' ::
      next' == next[prev[x] := next[x]][x := x] && prev' == prev[next[x] := prev[x]][x := x]
      ==> RemoveWrites(next, prev, nodes, lists, k, i, next', prev')
  {
    k :| k < |lists| && x in lists[k];
    i :| i < |lists[k]| && lists[k][i] == x;
    assert LinkOk(next, prev, nodes, lists, k, i) && LinkOk(next, prev, nodes, lists, k, i + 1);
    SameListNodes(lists, nodes, k, i, i - 1);
    SameListNodes(lists, nodes, k, i, i + 1);
    hide Disjoint;
  }

  // What is left after the removal: the lists without the node, which is now linked to itself.
  lemma RemoveDone(next: seq<nat>, prev: seq<nat>, nodes: nat, lists: Lists, k: nat, i: nat,
        next': seq<nat>, prev': seq<nat>)
    requires Linked(next, prev, nodes, lists) && k < |lists| && i < |lists[k]|
    requires RemoveWrites(next, prev, nodes, lists, k, i, next', prev')
    ensures var x, r := lists[k][i], Delete(lists, lists[k][i]);
      && Linked(next', prev', nodes, r) && x < nodes && LooseNode(next', prev', r, x)
      && forall y: nat :: y < nodes && LooseNode(next, prev, lists, y) ==> LooseNode(next', prev', r, y)
  {
    RemoveRefines(next, prev, nodes, lists, k, i, next', prev');
    DeleteOffList(lists, nodes, k, i);
    LooseKept(next, prev, nodes, lists, k, i, next', prev');
    assert LooseNode(next', prev', Delete(lists, lists[k][i]), lists[k][i]);
  }

  ghost predicate LooseNode(next: seq<nat>, prev: seq<nat>, lists: Lists, y: nat) {
    y < |next| && y < |prev| && next[y] == y && prev[y] == y && !OnList(lists, y)
  }

  lemma LooseKept(next: seq<nat>, prev: seq<nat>, nodes: nat, lists: Lists, k: nat, i: nat,
        next': seq<nat>, prev': seq<nat>)
    requires Linked(next, prev, nodes, lists) && k < |lists| && i < |lists[k]|
    requires RemoveWrites(next, prev, nodes, lists, k, i, next', prev')
    ensures forall y: nat ::
      y < nodes && LooseNode(next, prev, lists, y) ==> LooseNode(next', prev', Delete(lists, lists[k][i]), y)
  {
    forall y: nat | y < nodes && LooseNode(next, prev, lists, y)
      ensures LooseNode(next', prev', Delete(lists, lists[k][i]), y)
    {
      NotOnList(lists, nodes, y, k, i - 1);
      NotOnList(lists, nodes, y, k, i + 1);
      NotOnList(lists, nodes, y, k, i);
      DeleteOnList(lists, lists[k][i], y);
    }
  }

  lemma PushOnList(lists: Lists, k: nat, x: nat, y: nat)
    requires k < |lists| && !OnList(lists, y) && y != x
    ensures !OnList(Push(lists, k, x), y)
  {
    forall j | 0 <= j < |lists|
      ensures y !in Push(lists, k, x)[j]
    {
      assert y !in lists[j];
    }
  }

  lemma DeleteOnList(lists: Lists, x: nat, y: nat)
    requires !OnList(lists, y)
    ensures !OnList(Delete(lists, x), y)
  {
    forall j | 0 <= j < |lists|
      ensures y !in Delete(lists, x)[j]
    {
      WithoutSubset(lists[j], x, y);
    }
  }

  lemma DeleteAbsent(lists: Lists, x: nat)
    requires !OnList(lists, x)
    ensures Delete(lists, x) == lists
  {
    forall j | 0 <= j < |lists|
      ensures Without(lists[j], x) == lists[j]
    {
      WithoutAbsent(lists[j], x);
    }
  }

  lemma DeleteOffList(lists: Lists, nodes: nat, k: nat, i: nat)
    requires Disjoint(lists, nodes) && k < |lists| && i < |lists[k]|
    ensures !OnList(Delete(lists, lists[k][i]), lists[k][i])
  {
    DeleteIs(lists, nodes, k, i);
    var x := lists[k][i];
    forall j | 0 <= j < |lists|
      ensures x !in Delete(lists, x)[j]
    {
      if x in lists[j] {
        var l :| 0 <= l < |lists[j]| && lists[j][l] == x;
      }
    }
  }
}
