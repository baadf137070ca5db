/** The contract every page-replacement policy meets (wasdb_buffer/src/replacer.rs). */
module Replacement {
  import opened Util

  /** What a policy lets the pool observe: the frames it tracks and the frames it was told are pinned. */
  datatype View = View(tracked: set<nat>, pinned: set<nat>)
  {
    function Evictable(): set<nat> {
      tracked - pinned
    }
  }

  ghost predicate AccessSpec(v: View, f: nat, v': View) {
    v' == View(v.tracked + {f}, v.pinned)
  }

  /** Pinning may start tracking a frame (the clock does) or not (the LRU queue does not). */
  ghost predicate PinSpec(v: View, f: nat, pinned: bool, v': View) {
    && v.tracked <= v'.tracked <= v.tracked + {f}
    && v'.pinned == if pinned then v.pinned + {f} else v.pinned - {f}
  }

  ghost predicate EvictSpec(v: View, victim: Option<nat>, v': View) {
    match victim
    case None => v.Evictable() == {} && v' == v
    case Some(f) => f in v.Evictable() && v' == View(v.tracked - {f}, v.pinned)
  }

  ghost predicate RemoveSpec(v: View, f: nat, v': View) {
    && v'.tracked == v.tracked - {f}
    && v.pinned - {f} <= v'.pinned <= v.pinned
  }

  /** Indices at which a flag vector is set. */
  function Flagged(flags: seq<bool>): set<nat> {
    set i | 0 <= i < |flags| && flags[i]
  }
}
