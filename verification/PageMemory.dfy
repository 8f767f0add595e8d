// Page tables as they lie in memory: pages of descriptors that point at each other by frame
// number, and the tree a root page stands for.
module PageMemory {
  import opened PageTree

  // A descriptor; Zero is the all-zero word, the only one without the valid bit that is ever
  // stored. `table` is the type bit (1 for a table or a level-3 page, 0 for a block).
  datatype Pte = Zero | Pte(table: bool, address: nat, cow: bool, access: Access)

  // The pages that hold tables, by frame number.
  type Memory = map<nat, seq<Pte>>

  function Row(m: Memory, page: nat): (r: seq<Pte>) {
    if page in m then m[page] else []
  }

  // d levels remain below this table: the type bit is read above the last level only.
  ghost function TreeOf(m: Memory, page: nat, d: nat): (t: Tree)
    ensures t.page == page && |t.entries| == |Row(m, page)|
    decreases d, 1
  {
    Tree(page, seq(|Row(m, page)|, i requires 0 <= i < |Row(m, page)| => EntryOf(m, Row(m, page)[i], d)))
  }

  ghost function EntryOf(m: Memory, e: Pte, d: nat): (r: Entry)
    decreases d, 0
  {
    match e
    case Zero => Invalid
    case Pte(table, a, cow, access) => if d > 1 && table then Table(TreeOf(m, a, d - 1)) else Page(Leaf(a, cow, access))
  }

  function Cleared(): (r: seq<Pte>)
    ensures |r| == ENTRIES && forall i :: 0 <= i < ENTRIES ==> r[i] == Zero
  {
    seq(ENTRIES, i => Zero)
  }

  lemma ClearedTree(m: Memory, page: nat, d: nat)
    requires Row(m, page) == Cleared()
    ensures TreeOf(m, page, d) == Tree(page, Blank(ENTRIES))
  {
    assert TreeOf(m, page, d).entries == Blank(ENTRIES);
  }

  // ---- frames: a tree depends only on the pages it uses ----

  lemma {:induction false} UsesRoot(t: Tree)
    ensures Uses(t, t.page) >= 1
  {
  }

  lemma UsesEntry(t: Tree, i: nat, f: nat)
    requires i < |t.entries|
    ensures OneUses(t.entries[i], f) + (if f == t.page then 1 else 0) <= Uses(t, f)
  {
    EntryUsesAt(t.entries, i, Invalid, f);
  }

  lemma {:induction false} EntryUsesTwo(es: seq<Entry>, i: nat, j: nat, f: nat)
    requires i < |es| && j < |es| && i != j
    ensures OneUses(es[i], f) + OneUses(es[j], f) <= EntryUses(es, f)
    decreases |es|
  {
    if i == 0 {
      EntryUsesAt(es[1..], j - 1, Invalid, f);
    } else if j == 0 {
      EntryUsesAt(es[1..], i - 1, Invalid, f);
    } else {
      EntryUsesTwo(es[1..], i - 1, j - 1, f);
    }
  }

  // m and n agree on the pages of t.
  ghost predicate AgreeOn(m: Memory, n: Memory, t: Tree) {
    forall f: nat :: Uses(t, f) > 0 ==> Row(n, f) == Row(m, f)
  }

  lemma {:induction false} SameTree(m: Memory, n: Memory, page: nat, d: nat)
    requires AgreeOn(m, n, TreeOf(m, page, d))
    ensures TreeOf(n, page, d) == TreeOf(m, page, d)
    decreases d
  {
    var t := TreeOf(m, page, d);
    UsesRoot(t);
    assert Uses(t, page) > 0;
    forall i: nat | i < |t.entries|
      ensures EntryOf(n, Row(m, page)[i], d) == t.entries[i]
    {
      forall f: nat | OneUses(t.entries[i], f) > 0
        ensures Row(n, f) == Row(m, f)
      {
        UsesEntry(t, i, f);
      }
      SameEntry(m, n, page, d, i);
    }
    assert TreeOf(n, page, d).entries == t.entries;
  }

  lemma {:induction false} SameEntry(m: Memory, n: Memory, page: nat, d: nat, i: nat)
    requires i < |Row(m, page)|
    requires forall f: nat :: OneUses(TreeOf(m, page, d).entries[i], f) > 0 ==> Row(n, f) == Row(m, f)
    ensures EntryOf(n, Row(m, page)[i], d) == TreeOf(m, page, d).entries[i]
    decreases d, 0
  {
    var e := TreeOf(m, page, d).entries[i];
    assert e == EntryOf(m, Row(m, page)[i], d);
    if e.Table? {
      assert forall f: nat :: Uses(e.sub, f) == OneUses(e, f);
      SameTree(m, n, Row(m, page)[i].address, d - 1);
    }
  }

  // Storing one descriptor in a table replaces that entry of its tree.
  lemma StoreEntry(m: Memory, page: nat, d: nat, i: nat, e: Pte)
    requires i < |Row(m, page)| && Uses(TreeOf(m, page, d), page) == 1
    requires OneUses(EntryOf(m, e, d), page) == 0
    ensures var n := m[page := Row(m, page)[i := e]];
      TreeOf(n, page, d) == Tree(page, TreeOf(m, page, d).entries[i := EntryOf(m, e, d)])
  {
    var t, n := TreeOf(m, page, d), m[page := Row(m, page)[i := e]];
    EntrySame(m, n, e, d);
    forall k: nat | k < |t.entries| && k != i
      ensures EntryOf(n, Row(m, page)[k], d) == t.entries[k]
    {
      UsesEntry(t, k, page);
      SameEntry(m, n, page, d, k);
    }
    assert TreeOf(n, page, d).entries == t.entries[i := EntryOf(m, e, d)];
  }

  lemma EntrySame(m: Memory, n: Memory, e: Pte, d: nat)
    requires forall f: nat :: OneUses(EntryOf(m, e, d), f) > 0 ==> Row(n, f) == Row(m, f)
    ensures EntryOf(n, e, d) == EntryOf(m, e, d)
  {
    var r := EntryOf(m, e, d);
    if r.Table? {
      assert forall f: nat :: Uses(r.sub, f) == OneUses(r, f);
      SameTree(m, n, e.address, d - 1);
    }
  }

  // Work below entry i shows in entry i only.
  lemma BelowEntry(m: Memory, n: Memory, page: nat, d: nat, i: nat)
    requires i < |Row(m, page)| && Row(n, page) == Row(m, page)
    requires forall f: nat :: Uses(TreeOf(m, page, d), f) <= 1
    requires forall f: nat ::
      Uses(TreeOf(m, page, d), f) > 0 && OneUses(TreeOf(m, page, d).entries[i], f) == 0 ==> Row(n, f) == Row(m, f)
    ensures TreeOf(n, page, d) == Tree(page, TreeOf(m, page, d).entries[i := EntryOf(n, Row(m, page)[i], d)])
  {
    var t := TreeOf(m, page, d);
    forall k: nat | k < |t.entries| && k != i
      ensures EntryOf(n, Row(m, page)[k], d) == t.entries[k]
    {
      forall f: nat | OneUses(t.entries[k], f) > 0
        ensures Row(n, f) == Row(m, f)
      {
        UsesEntry(t, k, f);
        EntryUsesTwo(t.entries, i, k, f);
      }
      SameEntry(m, n, page, d, k);
    }
    assert TreeOf(n, page, d).entries == t.entries[i := EntryOf(n, Row(m, page)[i], d)];
  }

  // ---- how many tables a tree has, and running counts over its entries ----

  function Tables(t: Tree): (n: nat)
    ensures n >= 1
    decreases t, 1
  {
    1 + EntryTables(t.entries)
  }

  function EntryTables(es: seq<Entry>): (n: nat)
    decreases es, 0
  {
    if es == [] then 0 else OneTables(es[0]) + EntryTables(es[1..])
  }

  function OneTables(e: Entry): (n: nat)
    decreases e, 2
  {
    if e.Table? then Tables(e.sub) else 0
  }

  lemma {:induction false} OneMore(es: seq<Entry>, i: nat, f: nat)
    requires i < |es|
    ensures EntryMaps(es[..i + 1], f) == EntryMaps(es[..i], f) + OneMaps(es[i], f)
    ensures EntryUses(es[..i + 1], f) == EntryUses(es[..i], f) + OneUses(es[i], f)
    ensures EntryTables(es[..i + 1]) == EntryTables(es[..i]) + OneTables(es[i])
  {
    if i == 0 {
      assert es[..1] == [es[0]];
    } else {
      OneMore(es[1..], i - 1, f);
      assert es[..i + 1][1..] == es[1..][..i] && es[..i][1..] == es[1..][..i - 1];
    }
  }

  lemma {:induction false} TablesSoFar(es: seq<Entry>, i: nat)
    requires i < |es|
    ensures EntryTables(es[..i]) + OneTables(es[i]) <= EntryTables(es)
  {
    OneMore(es, i, 0);
    TablesPrefix(es, i + 1);
  }

  lemma {:induction false} TablesPrefix(es: seq<Entry>, i: nat)
    requires i <= |es|
    ensures EntryTables(es[..i]) <= EntryTables(es)
  {
    if i > 0 {
      TablesPrefix(es[1..], i - 1);
      assert es[..i][1..] == es[1..][..i - 1];
    }
  }
}
