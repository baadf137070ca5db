/** What clients may rely on when they use the buffer pool: a flat map of pages and a pin count per page. */
module FlatPool {
  import opened Util
  import opened Storage

  datatype Flat<P> = Flat(store: imap<PageId, P>, pins: imap<PageId, nat>)
  {
    ghost predicate Total() {
      forall pid: PageId :: pid in store && pid in pins
    }
  }

  /** A fetch pins the page or fails, and then only on a page nobody holds, changing nothing. */
  ghost predicate FetchSpec<P(!new)>(a: Flat<P>, pid: PageId, ok: bool, a': Flat<P>)
    requires a.Total()
  {
    if ok then a' == a.(pins := a.pins[pid := a.pins[pid] + 1]) else a' == a && a.pins[pid] == 0
  }

  ghost predicate UnpinSpec<P(!new)>(a: Flat<P>, pid: PageId, ok: bool, a': Flat<P>)
    requires a.Total()
  {
    if ok then a.pins[pid] > 0 && a' == a.(pins := a.pins[pid := a.pins[pid] - 1])
    else a' == a && a.pins[pid] == 0
  }

  ghost predicate WriteSpec<P(!new)>(a: Flat<P>, pid: PageId, p: P, a': Flat<P>)
    requires a.Total()
  {
    a.pins[pid] > 0 && a' == a.(store := a.store[pid := p])
  }

  ghost predicate Covers(s: set<PageId>, pins: imap<PageId, nat>)
    requires forall pid: PageId :: pid in pins
  {
    forall pid: PageId :: pid !in s ==> pins[pid] == 0
  }

  /** Of so many frames at least `n` hold no pinned page. */
  ghost predicate Spare(pins: imap<PageId, nat>, frames: nat, n: nat)
    requires forall pid: PageId :: pid in pins
  {
    exists s :: Covers(s, pins) && |s| + n <= frames
  }

  /** A pin takes at most one frame. */
  lemma PinTakesSpare(pins: imap<PageId, nat>, frames: nat, n: nat, pid: PageId)
    requires forall p: PageId :: p in pins
    ensures Spare(pins, frames, n + 1) ==> Spare(pins, frames, n) && Spare(pins[pid := pins[pid] + 1], frames, n)
  {
    if Spare(pins, frames, n + 1) {
      var s :| Covers(s, pins) && |s| + n + 1 <= frames;
      assert Covers(s + {pid}, pins[pid := pins[pid] + 1]);
    }
  }

  lemma {:induction false} SubsetIsSmaller<T>(a: set<T>, b: set<T>)
    requires a <= b
    ensures |a| <= |b|
  {
    if a != {} {
      var x :| x in a;
      SubsetIsSmaller(a - {x}, b - {x});
    }
  }
}
