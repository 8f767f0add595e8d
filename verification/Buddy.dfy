// The buddy allocator as it runs: the frame array and the linked free lists are updated
// in place. Every method is proved to compute the corresponding function of PagePool, so
// what is proved there and in BuddyLaws holds of these objects.
module BuddyAllocator {
  import opened Bits
  import opened ListSpec
  import opened PagePool
  import opened RefCount
  import opened BuddyLaws
  import opened BuddyInit
  import opened BuddyRuns
  import opened IntrusiveList
  import opened PageOwner

  class BuddyHeap {
    const maxOrder: nat
    const base: nat
    const frames: array<Frame>
    const links: ListHeap

    ghost function Model(): (m: Pool)
      reads this, frames, links
    {
      Pool(maxOrder, base, frames[..], links.lists)
    }

    // The object graph: the list nodes are exactly the frames.
    ghost predicate Linked()
      reads this, links, links.next, links.prev
    {
      links.Valid() && links.nodes == frames.Length
    }

    ghost predicate Valid()
      reads this, frames, links, links.next, links.prev
    {
      Linked() && Model().Valid()
    }

    // ---- paging.c:281-335 ----

    constructor (maxOrder: nat, base: nat)
      requires maxOrder < base <= Pow2(maxOrder)
      ensures Valid() && fresh(frames) && fresh(links) && fresh(links.next) && fresh(links.prev)
      ensures Model() == Boot(maxOrder, base)
    {
      this.maxOrder := maxOrder;
      this.base := base;
      var n := Pow2(maxOrder);
      frames := new Frame[n](i => Frame(0, 0, if i < base then Reserved else Free, false, false));
      links := new ListHeap(n, maxOrder + 1);
      new;
      assert frames[..] == BlankFrames(n, base);
      InitializeBuddyAllocator(base, n - base);
      BootIsValid(maxOrder, base);
    }

    method InitializeBuddyAllocator(start: nat, available: nat)
      requires Linked() && Model() == Blank(maxOrder, base) && start == base
      requires maxOrder < base <= Pow2(maxOrder) && available == Pow2(maxOrder) - base
      modifies frames, links, links.next, links.prev
      ensures Linked() && Model() == Boot(maxOrder, base)
    {
      hide Pow2, Bit, Blank;
      var pfn: nat, i: nat := start, maxOrder + 1;
      BlankIsLaid(maxOrder, base, Model());
      RemainderWhole(available, maxOrder);
      while i > 0
        invariant i <= maxOrder + 1 && Linked() && LayingFrom(Model(), available, pfn, i)
        invariant Lay(Model(), available, pfn, i) == Boot(maxOrder, base)
      {
        hide LayingFrom;
        i := i - 1;
        pfn := LayOne(pfn, i, available);
      }
    }

    // One turn of the loop over orders, lines 288-297.
    method LayOne(pfn: nat, i: nat, available: nat) returns (pfn': nat)
      requires Linked() && i <= maxOrder && LayingFrom(Model(), available, pfn, i + 1)
      modifies frames, links, links.next, links.prev
      ensures Linked() && LayingFrom(Model(), available, pfn', i)
      ensures Lay(Model(), available, pfn', i) == Lay(old(Model()), available, pfn, i + 1)
    {
      hide Laid, LayingFrom, Bit, Pow2, PlaceFrames, IntrusiveList.Linked, ListHeap.Valid;
      ghost var m := Model();
      LayingStep(m, available, pfn, i);
      pfn' := pfn;
      if Bit(available, i) == 1 {
        PlaceBlock(pfn, i);
        pfn' := pfn + Pow2(i);
      }
    }

    method PlaceBlock(pfn: nat, i: nat)
      requires Linked() && i <= maxOrder && Laid(Model(), pfn, i + 1) && pfn + Pow2(i) <= frames.Length
      modifies frames, links, links.next, links.prev
      ensures Linked() && Model() == Place(old(Model()), pfn, i)
    {
      ghost var m := Model();
      assert !OnList(m.lists, pfn) by {
        assert !m.frames[pfn].head;
      }
      PlaceOnFrames(pfn, i);
      links.Add(pfn, i);
    }

    method PlaceOnFrames(pfn: nat, i: nat)
      requires pfn + Pow2(i) <= frames.Length
      modifies frames
      ensures frames[..] == PlaceFrames(old(frames[..]), pfn, i)
    {
      ghost var f := frames[..];
      frames[pfn] := frames[pfn].(order := i);
      var j := 1;
      while j < Pow2(i)
        invariant 1 <= j <= Pow2(i)
        invariant frames[..] == PlacePart(f, pfn, i, j)
      {
        frames[pfn + j] := frames[pfn + j].(order := pfn, owner := Buddy);
        j := j + 1;
      }
      frames[pfn] := frames[pfn].(owner := Free, head := true, tail := false);
    }

    // ---- paging.c:19-53 ----

    method SplitDown(req: nat, curr: nat) returns (page: nat)
      requires Valid() && req <= curr <= maxOrder && links.lists[curr] != []
      modifies frames, links, links.next, links.prev
      ensures Valid() && Model() == PagePool.SplitDown(old(Model()), req, curr)
      ensures links.lists[req] != [] && page == links.lists[req][0]
      decreases curr
    {
      hide Pool.ReservedOk, Pool.HeadsOk, Pool.InsideOk, Pool.CoverOk, Pool.ListsOk, Pool.TailsOk, SplitOnce, Pow2;
      var pfn := links.First(curr);
      if req == curr {
        return pfn;
      }
      SplitKeepsValid(Model(), curr);
      SplitFront(Model(), curr);
      HalveBlock(pfn, curr);
      page := SplitDown(req, curr - 1);
    }

    // One level of the split, lines 27-49.
    method HalveBlock(pfn: nat, curr: nat)
      requires Valid() && 0 < curr <= maxOrder && links.lists[curr] != [] && pfn == links.lists[curr][0]
      requires CanSplit(Model(), curr)
      modifies frames, links, links.next, links.prev
      ensures Linked() && Model() == SplitOnce(old(Model()), curr)
    {
      ghost var m := Model();
      ListFrontIsFreeHead(m, curr);
      var buddy := pfn + Pow2(curr - 1);
      RelinkHalves(pfn, buddy, curr);
      HalveFrames(pfn, buddy, curr - 1);
    }

    method HalveFrames(pfn: nat, buddy: nat, k: nat)
      requires buddy == pfn + Pow2(k) && buddy + Pow2(k) <= frames.Length
      modifies frames
      ensures frames[..] == SplitFrames(old(frames[..]), pfn, Pow2(k), k)
    {
      ghost var f := frames[..];
      frames[pfn] := frames[pfn].(order := k);
      frames[buddy] := frames[buddy].(order := k, head := true, tail := false, owner := Free);
      var j := 1;
      while j < Pow2(k)
        invariant 1 <= j <= Pow2(k)
        invariant frames[..] == SplitPart(f, pfn, Pow2(k), k, j)
      {
        frames[buddy + j] := frames[buddy + j].(order := buddy, head := false, tail := true);
        frames[pfn + j] := frames[pfn + j].(order := pfn, head := false, tail := true);
        j := j + 1;
      }
    }

    method RelinkHalves(pfn: nat, buddy: nat, curr: nat)
      requires Valid() && 0 < curr <= maxOrder && links.lists[curr] != [] && pfn == links.lists[curr][0]
      requires pfn < buddy < frames.Length && !frames[buddy].head
      modifies links, links.next, links.prev
      ensures Linked() && links.lists == Push(Push(Delete(old(links.lists), pfn), curr - 1, buddy), curr - 1, pfn)
    {
      ghost var m := Model();
      assert pfn in links.lists[curr];
      links.Remove(pfn);
      AfterDelete(m, pfn, buddy);
      links.Add(buddy, curr - 1);
      AfterPush(Delete(m.lists, pfn), curr - 1, buddy, pfn);
      links.Add(pfn, curr - 1);
    }

    // ---- paging.c:56-86 ----

    method AllocAndReturn(req: nat) returns (page: nat)
      requires Valid() && req <= maxOrder && links.lists[req] != []
      requires links.lists[req][0] + Pow2(req) <= frames.Length
      modifies frames, links, links.next, links.prev
      ensures Linked() && Model() == Take(old(Model()), req)
      ensures page == old(links.lists)[req][0]
    {
      ghost var m := Model();
      var pfn := links.First(req);
      assert pfn in links.lists[req];
      links.Remove(pfn);
      TakeOnFrames(pfn, req);
      page := pfn;
    }

    method TakeOnFrames(pfn: nat, req: nat)
      requires pfn + Pow2(req) <= frames.Length
      modifies frames
      ensures frames[..] == TakeFrames(old(frames[..]), pfn, Pow2(req))
    {
      ghost var f := frames[..];
      frames[pfn] := frames[pfn].(refcount := 1, owner := Buddy, head := true);
      var i := 1;
      while i < Pow2(req)
        invariant 1 <= i <= Pow2(req)
        invariant frames[..] == TakePart(f, pfn, i)
      {
        frames[pfn + i] := Frame(pfn, 1, Buddy, false, true);
        i := i + 1;
      }
    }

    // ---- paging.c:89-124 ----

    method CoalesceUp(pfn: nat)
      requires Valid() && pfn < frames.Length && Model().FreeHead(pfn, frames[pfn].order)
      requires frames[pfn].order < maxOrder
      modifies frames, links, links.next, links.prev
      ensures Valid() && Model() == PagePool.CoalesceUp(old(Model()), pfn)
      decreases maxOrder - frames[pfn].order
    {
      ghost var m := Model();
      var k := frames[pfn].order;
      MergeTestIsSound(m, pfn, k);
      var buddy := Flip(pfn, k);
      var lo, hi := if buddy < pfn then buddy else pfn, if buddy < pfn then pfn else buddy;
      if frames[lo].order != frames[hi].order {
        return;
      }
      if frames[lo].owner == Free && frames[hi].owner == Free {
        MergeKeepsValid(m, lo, k);
        MergeBlocks(lo, hi, k);
        CoalesceUp(lo);
      }
    }

    // The body of the merge, lines 107-119.
    method MergeBlocks(lo: nat, hi: nat, k: nat)
      requires Valid() && Mergeable(Model(), lo, k) && lo + 2 * Pow2(k) <= frames.Length && hi == lo + Pow2(k)
      requires k < maxOrder
      modifies frames, links, links.next, links.prev
      ensures Linked() && Model() == Merged(old(Model()), lo, k)
    {
      hide Pool.ReservedOk, Pool.HeadsOk, Pool.InsideOk, Pool.CoverOk, Pool.ListsOk, Pool.TailsOk, Delete, Pow2;
      ghost var m := Model();
      UnlinkPair(lo, hi, k);
      AbsorbUpper(lo, hi, k);
      AfterDeleteTwice(m, lo, hi);
      links.Add(lo, k + 1);
    }

    method AbsorbUpper(lo: nat, hi: nat, k: nat)
      requires hi == lo + Pow2(k) && hi + Pow2(k) <= frames.Length && frames[lo].order == k && frames[hi].order == k
      modifies frames
      ensures frames[..] == MergeFrames(old(frames[..]), lo, Pow2(k), k)
    {
      ghost var f := frames[..];
      frames[hi] := frames[hi].(head := false, tail := true);
      var i := 0;
      while i < Pow2(k)
        invariant 0 <= i <= Pow2(k)
        invariant frames[..] == MergePart(f, lo, hi, i)
      {
        frames[hi + i] := frames[hi + i].(order := lo);
        i := i + 1;
      }
      frames[lo] := frames[lo].(order := frames[lo].order + 1);
    }

    method UnlinkPair(lo: nat, hi: nat, k: nat)
      requires Valid() && Model().FreeHead(lo, k) && Model().FreeHead(hi, k) && lo != hi && k <= maxOrder
      modifies links, links.next, links.prev
      ensures Linked() && links.lists == Delete(Delete(old(links.lists), lo), hi)
    {
      ghost var m := Model();
      assert lo in links.lists[k];
      links.Remove(lo);
      AfterDeleteOther(m, lo, hi, k);
      links.Remove(hi);
    }

    // ---- paging.c:130-160 ----

    method FreeBlock(pfn: nat)
      requires Valid() && pfn < frames.Length
      modifies frames, links, links.next, links.prev
      ensures Valid() && Model() == BuddyFree(old(Model()), pfn)
    {
      ghost var m := Model();
      if !frames[pfn].head {
        return;
      }
      if frames[pfn].owner == Free {
        return;
      }
      ReleaseKeepsValid(m, pfn);
      LiveOffList(m, pfn);
      frames[pfn] := frames[pfn].(owner := Free);
      var k := frames[pfn].order;
      links.Add(pfn, k);
      assert Model() == Release(m, pfn);
      if k < maxOrder {
        CoalesceUp(pfn);
      }
    }

    // ---- paging.c:167-187 ----

    method AllocBytes(bytes: nat) returns (page: nat, ok: bool)
      requires Valid() && bytes < 0x1_0000_0000_0000_0000
      requires PagesFor(bytes) <= 0x8000_0000
      modifies frames, links, links.next, links.prev
      ensures Valid()
      ensures ok == BuddyAlloc(old(Model()), bytes).Alloc?
      ensures ok ==> BuddyAlloc(old(Model()), bytes) == Alloc(Model(), page)
      ensures !ok ==> Model() == old(Model())
    {
      hide Pool.Valid;
      var n := (bytes + 4095) % 0x1_0000_0000_0000_0000 / 4096 % 0x1_0000_0000;
      var req := 0;
      while Pow2(req) < n
        modifies {}
        invariant OrderFrom(req, n) == OrderFor(n)
        decreases n - req
      {
        Pow2Above(req);
        req := req + 1;
      }
      if req > maxOrder {
        return 0, false;
      }
      page, ok := TakeFrom(req);
    }

    // The search over the lists, lines 177-186.
    method TakeFrom(req: nat) returns (page: nat, ok: bool)
      requires Valid() && req <= maxOrder
      modifies frames, links, links.next, links.prev
      ensures Valid()
      ensures ok == AllocOrder(old(Model()), req).Alloc?
      ensures ok ==> AllocOrder(old(Model()), req) == Alloc(Model(), page)
      ensures !ok ==> Model() == old(Model())
    {
      hide Pool.ReservedOk, Pool.HeadsOk, Pool.InsideOk, Pool.CoverOk, Pool.ListsOk, Pool.TailsOk;
      ghost var m := Model();
      var i := req;
      while i <= maxOrder
        invariant req <= i <= maxOrder + 1 && Valid() && Model() == m
        invariant FirstNonEmpty(m.lists, req) == FirstNonEmpty(m.lists, i)
      {
        var empty := links.Empty(i);
        if !empty {
          SplitDownKeeps(m, req, i);
          TakeKeepsValid(PagePool.SplitDown(m, req, i), req);
          var _ := SplitDown(req, i);
          page := AllocAndReturn(req);
          return page, true;
        }
        i := i + 1;
      }
      return 0, false;
    }

    // ---- paging.c:211-235; the result is the C return value ----

    method DecrementRef(pfn: nat) returns (r: int)
      requires Valid() && pfn < frames.Length
      modifies frames, links, links.next, links.prev
      ensures Valid() && Model() == DropRef(old(Model()), pfn)
      ensures r == if old(frames[pfn]).owner == Reserved then -2 else if !old(frames[pfn]).head then -1
        else Minus1(old(frames[pfn]).refcount)
    {
      ghost var m := Model();
      if frames[pfn].owner == Reserved {
        return -2;
      }
      if !frames[pfn].head {
        return -1;
      }
      var c := Minus1(frames[pfn].refcount);
      CountKeepsPool(m, pfn, c);
      frames[pfn] := frames[pfn].(refcount := c);
      if frames[pfn].refcount == 0 {
        FreeBlock(pfn);
      }
      return c;
    }

    // ---- paging.c:238-279 ----

    // On a page of no allocated block, such as a reserved one, the label is written all the
    // same and the pool need not stay valid.
    method SetPageOwner(pfn: nat, owner: Owner)
      requires Valid() && pfn < frames.Length
      modifies frames
      ensures Linked() && Model() == SetOwner(old(Model()), pfn, owner)
      ensures old(Coalesced(Model()) && HeadOf(Model(), pfn) in Live(Model())) && (owner == Buddy || owner == Slab)
        ==> Valid()
    {
      ghost var m := Model();
      if Coalesced(m) && HeadOf(m, pfn) in Live(m) && (owner == Buddy || owner == Slab) {
        SetOwnerLaw(m, pfn, owner);
      }
      var h := pfn;
      if frames[pfn].tail {
        h := frames[pfn].order;
      }
      if h < frames.Length {
        frames[h] := frames[h].(owner := owner);
      }
      assert Model() == SetOwner(m, pfn, owner);
    }

    method GetPageOwner(pfn: nat) returns (owner: Owner)
      requires Valid() && pfn < frames.Length
      ensures owner == OwnerOf(Model(), pfn)
    {
      owner := frames[pfn].owner;
      if frames[pfn].tail && frames[pfn].order < frames.Length {
        owner := frames[frames[pfn].order].owner;
      }
    }

    method FindHead(pfn: nat) returns (head: HeadPage)
      requires Valid() && pfn < frames.Length
      ensures head == HeadFromPage(Model(), pfn)
    {
      var q := pfn;
      if frames[pfn].tail && !frames[pfn].head {
        q := frames[pfn].order;
      }
      head := if q < frames.Length && frames[q].head then Head(q) else NoHead;
    }
  }

  // ---- the frame array part of the way through each loop ----

  ghost function PlacePart(frames: seq<Frame>, p: nat, k: nat, j: nat): (r: seq<Frame>)
  {
    seq(|frames|, i requires 0 <= i < |frames| =>
      if i == p then frames[i].(order := k)
      else if p < i < p + j then frames[i].(order := p, owner := Buddy)
      else frames[i])
  }

  ghost function SplitPart(frames: seq<Frame>, p: nat, h: nat, k: nat, j: nat): (r: seq<Frame>)
  {
    seq(|frames|, i requires 0 <= i < |frames| =>
      if i == p then frames[i].(order := k)
      else if i == p + h then frames[i].(order := k, head := true, tail := false, owner := Free)
      else if p < i < p + h && i < p + j then frames[i].(order := p, head := false, tail := true)
      else if p + h < i < p + h + j then frames[i].(order := p + h, head := false, tail := true)
      else frames[i])
  }

  ghost function TakePart(frames: seq<Frame>, p: nat, j: nat): (r: seq<Frame>)
  {
    seq(|frames|, i requires 0 <= i < |frames| =>
      if i == p then frames[i].(refcount := 1, owner := Buddy, head := true)
      else if p < i < p + j then Frame(p, 1, Buddy, false, true)
      else frames[i])
  }

  ghost function MergePart(frames: seq<Frame>, lo: nat, hi: nat, j: nat): (r: seq<Frame>)
  {
    seq(|frames|, i requires 0 <= i < |frames| =>
      if i == hi then frames[i].(head := false, tail := true, order := if j > 0 then lo else frames[i].order)
      else if hi < i < hi + j then frames[i].(order := lo)
      else frames[i])
  }

  // ---- which nodes are on a list ----

  lemma LiveOffList(m: Pool, p: nat)
    requires m.Valid() && m.IsHead(p) && m.frames[p].owner != Free
    ensures !OnList(m.lists, p)
  {
  }

  lemma AfterDelete(m: Pool, p: nat, x: nat)
    requires m.Valid() && p < |m.frames| && x < |m.frames| && !m.frames[x].head
    ensures !OnList(Delete(m.lists, p), x) && !OnList(Delete(m.lists, p), p)
  {
    DeletePushMembers(m, p, 0);
  }

  lemma AfterPush(lists: Lists, k: nat, x: nat, y: nat)
    requires k < |lists| && !OnList(lists, y) && x != y
    ensures !OnList(Push(lists, k, x), y)
  {
    PushOnList(lists, k, x, y);
  }

  lemma AfterDeleteOther(m: Pool, lo: nat, hi: nat, k: nat)
    requires m.Valid() && m.FreeHead(hi, k) && k <= m.maxOrder && lo != hi
    ensures OnList(Delete(m.lists, lo), hi)
  {
    DeletePushMembers(m, lo, k);
    assert hi in Delete(m.lists, lo)[k];
  }

  lemma AfterDeleteTwice(m: Pool, lo: nat, hi: nat)
    requires m.Valid()
    ensures !OnList(Delete(Delete(m.lists, lo), hi), lo)
  {
    DeletePushMembers(m, lo, 0);
    DeleteOnList(Delete(m.lists, lo), hi, lo);
  }
}
