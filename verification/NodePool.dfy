/** The buffer pool as the index sees it: pages read as nodes, under the flat contract that the pool is
    proved to meet, with the pool's own duty on writers (see PoolProof.MayUnpin). */
module NodePool {
  import opened Util
  import opened Storage
  import opened FlatPool
  import opened BTreeModel

  class Nodes {
    const frames: nat
    var pages: map<PageId, Node>
    var held: map<PageId, nat>
    var nextPage: u32
    /** Pages written since they were last unpinned dirty. */
    ghost var touched: set<PageId>

    ghost function Store(): (s: Store)
      reads this
      ensures Total(s)
    {
      imap pid: PageId | true :: if pid in pages then pages[pid] else Raw
    }

    ghost function Pins(): (p: imap<PageId, nat>)
      reads this
      ensures forall pid: PageId :: pid in p
    {
      imap pid: PageId | true :: if pid in held then held[pid] else 0
    }

    ghost function Abs(): (a: Flat<Node>)
      reads this
      ensures a.Total()
    {
      Flat(Store(), Pins())
    }

    /** Whoever has written a page still holds it. */
    ghost predicate Valid()
      reads this
    {
      (forall pid :: pid in touched ==> Pins()[pid] > 0) && forall pid :: pid in held ==> held[pid] > 0
    }

    constructor (frames: nat, pages: map<PageId, Node>, nextPage: u32)
      ensures this.frames == frames && this.pages == pages && held == map[] && touched == {} && Valid()
    {
      this.frames, this.pages, this.nextPage := frames, pages, nextPage;
      held, touched := map[], {};
    }

    lemma PinnedFit()
      requires Valid() && Spare(Pins(), frames, 1)
      ensures |held.Keys| < frames
    {
      var s :| Covers(s, Pins()) && |s| + 1 <= frames;
      assert forall pid :: pid in held ==> Pins()[pid] > 0;
      SubsetIsSmaller(held.Keys, s);
    }

    /** Succeeds at least when some frame holds no pinned page. */
    method FetchPage(pid: PageId) returns (ok: bool)
      requires Valid()
      modifies this
      ensures Valid()
      ensures FetchSpec(old(Abs()), pid, ok, Abs()) && touched == old(touched) && nextPage == old(nextPage)
      ensures old(Spare(Pins(), frames, 1)) ==> ok
    {
      if pid !in held && |held.Keys| >= frames {
        if Spare(Pins(), frames, 1) {
          PinnedFit();
        }
        return false;
      }
      held := held[pid := (if pid in held then held[pid] else 0) + 1];
      assert Pins() == old(Pins())[pid := old(Pins())[pid] + 1];
      ok := true;
    }

    method UnpinPage(pid: PageId, isDirty: bool)
      requires Valid() && Pins()[pid] > 0
      requires !isDirty && pid in touched ==> Pins()[pid] >= 2
      modifies this
      ensures Valid()
      ensures UnpinSpec(old(Abs()), pid, true, Abs())
      ensures touched == if isDirty then old(touched) - {pid} else old(touched)
    {
      held := if held[pid] == 1 then held - {pid} else held[pid := held[pid] - 1];
      if isDirty {
        touched := touched - {pid};
      }
      assert Pins() == old(Pins())[pid := old(Pins())[pid] - 1];
    }

    method ReadPage(pid: PageId) returns (n: Node)
      requires Pins()[pid] > 0
      ensures n == Store()[pid]
    {
      n := if pid in pages then pages[pid] else Raw;
    }

    method WritePage(pid: PageId, n: Node)
      requires Valid() && Pins()[pid] > 0
      modifies this
      ensures Valid()
      ensures WriteSpec(old(Abs()), pid, n, Abs()) && touched == old(touched) + {pid}
    {
      pages := pages[pid := n];
      touched := touched + {pid};
      assert Store() == old(Store())[pid := n];
    }

    method NewPage() returns (ok: bool, pid: PageId)
      requires Valid()
      modifies this
      ensures Valid()
      ensures FetchSpec(old(Abs()), pid, ok, Abs()) && touched == old(touched)
      ensures pid.fileId == 0 && pid.pageNum == old(nextPage) && (old(Spare(Pins(), frames, 1)) ==> ok)
      ensures nextPage == if old(nextPage) == 0xFFFF_FFFF then 0 else old(nextPage) + 1
    {
      pid := PageId(0, nextPage);
      nextPage := (nextPage + 1) % U32;
      ok := FetchPage(pid);
    }
  }
}
