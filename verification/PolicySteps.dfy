/** What the pool tells its replacement policy (wasdb_buffer/src/buffer_pool.rs). */
module PolicySteps {
  import opened Util
  import opened PoolModel
  import opened Replacer
  import opened Storage

  /** A fetch reports its frame as pinned and accessed, whether the page was there or not. It asks for a victim only
      when no frame is empty. */
  ghost predicate FetchTells(s: Pool, p: PolicyState, pid: PageId, r: Result<nat, Error>, p': PolicyState) {
    && p.Valid()
    && if pid in s.table then p' == p.Taken(s.table[pid])
       else if FirstEmpty(s.descs) < |s.descs| then p' == p.Taken(FirstEmpty(s.descs))
       else
         match r
         case Ok(f) => p.Victim() == Some(f) && p' == p.Evicted().Taken(f)
         case Err(_) => p.Victim() == None && p' == p
  }

  /** Only giving up the last pin is reported. */
  ghost predicate UnpinTells(s: Pool, p: PolicyState, pid: PageId, p': PolicyState) {
    && p.Valid()
    && if pid in s.table && s.table[pid] < |s.descs| && s.descs[s.table[pid]].pins == 1
       then p' == p.PinSet(s.table[pid], false)
       else p' == p
  }

  lemma DiskTellsNothing(s: Pool, disk: Disk, p: PolicyState, pid: PageId, r: Result<nat, Error>, p': PolicyState)
    ensures FetchTells(s.(disk := disk), p, pid, r, p') <==> FetchTells(s, p, pid, r, p')
  {
    hide PolicyState.Valid, PolicyState.Taken, PolicyState.Evicted, PolicyState.Victim, FirstEmpty;
  }
}
