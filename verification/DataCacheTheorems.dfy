/** What holds in every state that any interleaving of the data cache's actions can reach. */
module DataCacheTheorems {
  import opened Collections
  import opened DataCache
  import opened DataCacheDeletes
  import opened DataCacheInvariant
  import opened DataCacheReads

  ghost predicate Start(c: Config, s0: State) {
    c.lineSize > 0 && c.lines > 0 && Init(c, s0)
  }

  lemma Reached(c: Config, s0: State, run: seq<Action>)
    requires Start(c, s0)
    ensures Inv(c, Exec(c, s0, run)) && ThreadsOk(Exec(c, s0, run))
  {
    InitInv(c, s0);
    RunInv(c, s0, run);
  }

  /** A read that ends without an error returned object[offset .. min(offset+size, |object|)]. */
  lemma ReadReturnsObject(c: Config, s0: State, run: seq<Action>, t: Tid)
    requires Start(c, s0)
    ensures var s := Exec(c, s0, run);
      t in s.readers && s.readers[t].pc == Done(OK) ==>
        var r := s.readers[t];
        r.ino in s.objects && r.data == Wanted(s.objects[r.ino], r.offset, r.size)
  {
    hide IndexOk, StoreOk, HeldOk, WaitersOk, ReadersOk;
    Reached(c, s0, run);
    var s := Exec(c, s0, run);
    if t in s.readers {
      ReaderIsOk(c, s, t);
    }
  }

  /** Whatever ran during the unlocked copy, a copy whose generation check passes is exact. */
  lemma CopyCheckIsSound(c: Config, s0: State, run: seq<Action>, t: Tid)
    requires Start(c, s0)
    ensures var s := Exec(c, s0, run);
      t in s.readers && s.readers[t].pc.Copy? ==>
        var r := s.readers[t];
        && r.pc.pos < |s.slots| && r.ino in s.objects
        && (|r.pc.buf| == r.pc.len && s.slots[r.pc.pos].gen == r.pc.gen ==>
              var cur := r.offset + |r.data|;
              cur + r.pc.len <= |s.objects[r.ino]| && r.pc.buf == s.objects[r.ino][cur..cur + r.pc.len])
  {
    hide IndexOk, StoreOk, HeldOk, WaitersOk, ReadersOk;
    Reached(c, s0, run);
    var s := Exec(c, s0, run);
    if t in s.readers && s.readers[t].pc.Copy? {
      var r := s.readers[t];
      ReaderIsOk(c, s, t);
      if |r.pc.buf| == r.pc.len && s.slots[r.pc.pos].gen == r.pc.gen {
        AcceptedCopy(c, s.slots, s.mem, s.objects, r);
      }
    }
  }

  /** `cacheMap[l] = p` holds exactly for the Inbound or Clean slot p tagged (i, l), and the Inbound ones are counted. */
  lemma IndexIsExact(c: Config, s0: State, run: seq<Action>, i: nat, l: nat, p: nat)
    requires Start(c, s0)
    ensures var s := Exec(c, s0, run);
      && ((i in s.inodes && l in s.inodes[i].cacheMap && s.inodes[i].cacheMap[l] == p) <==>
          (p < |s.slots| && Resident(s.slots[p].place) && s.slots[p].ino == i && s.slots[p].line == l))
      && (i in s.inodes ==> s.inodes[i].inbound == |InboundOf(s.slots, i)|)
  {
    hide StoreOk, HeldOk, WaitersOk, ReadersOk;
    Reached(c, s0, run);
    var s := Exec(c, s0, run);
    if i in s.inodes {
      assert LinesOk(s.slots, i, s.inodes[i].cacheMap);
    }
    if p < |s.slots| && Resident(s.slots[p].place) {
      assert MappedAt(s.inodes, s.slots[p].ino, s.slots[p].line, p);
    }
  }

  /** A popped slot is held by exactly the reader it is marked with, once, and is mapped by no inode. */
  lemma PoppedSlotsAreOwned(c: Config, s0: State, run: seq<Action>, t: Tid, p: nat)
    requires Start(c, s0)
    ensures var s := Exec(c, s0, run);
      && ((t in s.readers && p in HeldBy(s.readers[t].pc)) <==> (p < |s.slots| && s.slots[p].place == Held(t)))
      && (t in s.readers ==> Distinct(HeldBy(s.readers[t].pc)))
      && (t in s.readers && p in HeldBy(s.readers[t].pc) ==> forall i, l :: !MappedAt(s.inodes, i, l, p))
  {
    hide StoreOk, IndexOk, WaitersOk, ReadersOk;
    Reached(c, s0, run);
    var s := Exec(c, s0, run);
    if t in s.readers {
      assert Owns(s.slots, t, HeldBy(s.readers[t].pc));
    }
    if p < |s.slots| && s.slots[p].place == Held(t) {
      assert Owned(s.readers, t, p);
      forall i, l ensures !MappedAt(s.inodes, i, l, p) {
        IndexIsExact(c, s0, run, i, l, p);
      }
    }
  }

  /**
   The allocator is never asked for more lines than exist, and hands back exactly as many as were asked
   for; the lines ahead are lines of the object, no further ahead than the prefetch setting says.
   */
  lemma AllocationIsExact(c: Config, s0: State, run: seq<Action>, t: Tid)
    requires Start(c, s0)
    ensures var s := Exec(c, s0, run);
      t in s.readers ==>
        match s.readers[t].pc
        case Alloc(want, held, ahead) => |held| <= want <= MaxAsk(c) <= c.lines && want == 1 + |ahead| && AheadOk(c, s.objects, s.readers[t], ahead)
        case AllocWait(want, held, ahead, _) => |held| <= want <= MaxAsk(c) <= c.lines && want == 1 + |ahead| && AheadOk(c, s.objects, s.readers[t], ahead)
        case Got(held, ahead) => |held| == 1 + |ahead| <= c.lines && Distinct(held) && AheadOk(c, s.objects, s.readers[t], ahead)
        case _ => true
  {
    hide StoreOk, IndexOk, WaitersOk, HeldOk;
    Reached(c, s0, run);
    var s := Exec(c, s0, run);
    if t in s.readers {
      ReaderIsOk(c, s, t);
      PoppedSlotsAreOwned(c, s0, run, t, 0);
    }
  }

  /** A blocked reader or deleting thread is on the waiter list of an Inbound slot whose fetch is still running, so its wake-up will come. */
  lemma NoWaiterIsStranded(c: Config, s0: State, run: seq<Action>, t: Tid)
    requires Start(c, s0)
    ensures var s := Exec(c, s0, run);
      t in s.blocked ==>
        && t in s.readers && Waits(s.readers[t].pc)
        && var p := s.readers[t].pc.on;
           p < |s.slots| && s.slots[p].place == Inbound && t in s.slots[p].waiters && p in s.fetches
  {
    hide Inv;
    Reached(c, s0, run);
    if t in Exec(c, s0, run).blocked {
      WaitsForFetch(c, Exec(c, s0, run), t);
    }
  }

  lemma WaitsForFetch(c: Config, s: State, t: Tid)
    requires Inv(c, s) && t in s.blocked
    ensures t in s.readers && Waits(s.readers[t].pc)
    ensures var p := s.readers[t].pc.on; p < |s.slots| && s.slots[p].place == Inbound && t in s.slots[p].waiters && p in s.fetches
  {
    hide IndexOk, HeldOk, ReadersOk, FetchOk, Holds;
    assert Listed(s.slots, s.readers, t);
    var p := s.readers[t].pc.on;
    assert WaitersAt(s.slots[p], p, s.readers, s.blocked);
  }

  /** Of all the Fatalf calls and missing-inode branches, only the allocator's "no Inbound line" can be reached. */
  lemma OnlyStarvationIsFatal(c: Config, s0: State, run: seq<Action>)
    requires Start(c, s0)
    ensures var s := Exec(c, s0, run); s.fatal == None || s.fatal == Some(NoInboundLine)
  {
    hide IndexOk, StoreOk, HeldOk, WaitersOk, ReadersOk;
    Reached(c, s0, run);
  }

  /** An inode is deleted by at most one thread at a time, which finds it there, unlinked and without handles. */
  lemma DeletesAreAlone(c: Config, s0: State, run: seq<Action>, t: Tid, u: Tid)
    requires Start(c, s0)
    ensures var s := Exec(c, s0, run);
      t in s.readers && Deletes(s.readers[t].pc) ==>
        var i := s.readers[t].ino;
        && i in s.inodes && s.inodes[i].pendingDelete && s.inodes[i].handles == {}
        && (u in s.readers && Deletes(s.readers[u].pc) && s.readers[u].ino == i ==> u == t)
  {
    hide Inv;
    Reached(c, s0, run);
    var s := Exec(c, s0, run);
    if t in s.readers {
      assert ThreadOk(s.inodes, s.objects, s.readers[t]);
    }
  }

  /** Once a delete is over, whatever runs after it, the inode is gone and no slot on a list belongs to it. */
  lemma DeletedLeavesNothing(c: Config, s0: State, run: seq<Action>, t: Tid, p: nat)
    requires Start(c, s0)
    ensures var s := Exec(c, s0, run);
      t in s.readers && s.readers[t].pc == Deleted ==>
        && s.readers[t].ino !in s.inodes
        && (p < |s.slots| && Resident(s.slots[p].place) ==> s.slots[p].ino != s.readers[t].ino)
  {
    hide Inv;
    Reached(c, s0, run);
    var s := Exec(c, s0, run);
    if t in s.readers && s.readers[t].pc == Deleted {
      assert ThreadOk(s.inodes, s.objects, s.readers[t]);
      if p < |s.slots| {
        IndexIsExact(c, s0, run, s.slots[p].ino, s.slots[p].line, p);
      }
    }
  }
}
