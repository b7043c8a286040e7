/**
 No deadlock in the data cache: as long as a read, a delete or a fetch is not
 over, one of them can take a step.
 */
module DataCacheProgress {
  import opened Collections
  import opened DataCache
  import opened DataCacheDeletes
  import opened DataCacheInvariant
  import opened DataCacheReads
  import opened DataCacheTheorems

  /** A step of a read, a delete or a fetch that has started. */
  predicate Works(a: Action) {
    || a.Look? || a.PopFree? || a.PopClean? || a.Block? || a.Starve? || a.Return? || a.Wake? || a.Resume? || a.CopyByte? || a.Check?
    || a.DeletePass? || a.FetchBegin? || a.FetchRead? || a.FetchStore? || a.FetchStored? || a.FetchFinish?
  }

  ghost predicate Stuck(c: Config, s: State)
    requires c.lineSize > 0
  {
    forall a :: Works(a) ==> Step(c, s, a) == s
  }

  predicate Over(pc: Pc) {
    pc.Done? || pc.Deleted?
  }

  ghost predicate AllOver(s: State) {
    s.fetches == map[] && forall t :: t in s.readers ==> Over(s.readers[t].pc)
  }

  ghost predicate Can(c: Config, s: State, a: Action)
    requires c.lineSize > 0
  {
    Works(a) && Step(c, s, a) != s
  }

  // -------- A fetch can always go on --------

  lemma FetchGoesOn(c: Config, s: State, p: nat) returns (a: Action)
    requires Inv(c, s) && s.fatal == None && p in s.fetches
    ensures Can(c, s, a)
  {
    FetchFacts(c, s, p);
    a := FetchAction(s.fetches[p], p);
    FetchMovesOn(c, s, p);
  }

  /** What a fetch does next, if its read succeeds. */
  function FetchAction(f: Fetch, p: nat): Action {
    match f
    case Spawned => FetchBegin(p)
    case Reading(_, _) => FetchRead(p, true)
    case Storing(bytes, done) => if done < |bytes| then FetchStore(p) else FetchStored(p)
    case Fetched(_) => FetchFinish(p)
  }

  lemma FetchMovesOn(c: Config, s: State, p: nat)
    requires c.lineSize > 0 && s.fatal == None && p in s.fetches && p < |s.slots| && p < |s.mem| && s.slots[p].ino in s.inodes
    requires FetchOk(c, s.slots[p], s.mem[p], s.objects, s.fetches[p])
    ensures Can(c, s, FetchAction(s.fetches[p], p))
  {
    hide LineBytes, Holds;
    var s' := Step(c, s, FetchAction(s.fetches[p], p));
    assert p !in s'.fetches || s'.fetches[p] != s.fetches[p];
  }

  // -------- A thread that is not blocked can go on --------

  lemma LookGoesOn(c: Config, s: State, t: Tid)
    requires Inv(c, s) && s.fatal == None && t in s.readers && s.readers[t].pc == Loop
    ensures Can(c, s, Look(t))
  {
    hide IndexOk, StoreOk, HeldOk, WaitersOk, ReadersOk, Unmapped, PrefetchCount;
    ReaderIsOk(c, s, t);
    var s' := Step(c, s, Look(t));
    assert s'.fatal.Some? || s'.readers[t].pc != Loop;
  }

  lemma AllocGoesOn(c: Config, s: State, t: Tid) returns (a: Action)
    requires c.lineSize > 0 && s.fatal == None && t in s.readers && s.readers[t].pc.Alloc?
    ensures Can(c, s, a)
  {
    var Alloc(want, held, ahead) := s.readers[t].pc;
    if |held| >= want {
      a := Return(t);
      assert Step(c, s, a).readers[t].pc.Got?;
    } else {
      a := ShortGoesOn(c, s, t);
    }
  }

  lemma ShortGoesOn(c: Config, s: State, t: Tid) returns (a: Action)
    requires c.lineSize > 0 && s.fatal == None && t in s.readers && s.readers[t].pc.Alloc? && |s.readers[t].pc.held| < s.readers[t].pc.want
    ensures Can(c, s, a)
  {
    if Exists(s, Free) {
      var p :| 0 <= p < |s.slots| && s.slots[p].place == Free;
      a := PopFree(t, p);
      assert Step(c, s, a).slots[p].place == Held(t);
    } else if Exists(s, Clean) {
      var p :| 0 <= p < |s.slots| && s.slots[p].place == Clean;
      a := PopClean(t, p);
      assert Step(c, s, a).fatal.Some? || Step(c, s, a).slots[p].place == Held(t);
    } else if Exists(s, Inbound) {
      var p :| 0 <= p < |s.slots| && s.slots[p].place == Inbound;
      a := Block(t, p);
      assert Step(c, s, a).readers[t].pc.AllocWait?;
    } else {
      a := Starve(t);
      assert Step(c, s, a).fatal.Some?;
    }
  }

  lemma ResumeGoesOn(c: Config, s: State, t: Tid)
    requires Inv(c, s) && s.fatal == None && t in s.readers && s.readers[t].pc.Got?
    ensures Can(c, s, Resume(t))
  {
    hide DoResume, Moves, ReaderOk;
    GotFacts(c, s, t);
    ResumeMoves(c, s, t);
    assert Step(c, s, Resume(t)) == DoResume(c, s, t);
  }

  lemma CopyGoesOn(c: Config, s: State, t: Tid) returns (a: Action)
    requires Inv(c, s) && s.fatal == None && t in s.readers && s.readers[t].pc.Copy?
    ensures Can(c, s, a)
  {
    hide IndexOk, StoreOk, HeldOk, WaitersOk, ReadersOk, Can;
    ReaderIsOk(c, s, t);
    CopyMovesOn(c, s, t);
    a := if |s.readers[t].pc.buf| < s.readers[t].pc.len then CopyByte(t) else Check(t);
  }

  lemma CopyMovesOn(c: Config, s: State, t: Tid)
    requires c.lineSize > 0 && s.fatal == None && t in s.readers && s.readers[t].pc.Copy?
    requires var pc := s.readers[t].pc; pc.pos < |s.slots| && pc.pos < |s.mem| && pc.start + pc.len <= |s.mem[pc.pos]|
    ensures Can(c, s, if |s.readers[t].pc.buf| < s.readers[t].pc.len then CopyByte(t) else Check(t))
  {
    var pc := s.readers[t].pc;
    if |pc.buf| < pc.len {
      assert |Step(c, s, CopyByte(t)).readers[t].pc.buf| == |pc.buf| + 1;
    } else {
      assert Step(c, s, Check(t)).readers[t].pc == Loop;
    }
  }

  lemma WakeGoesOn(c: Config, s: State, t: Tid)
    requires c.lineSize > 0 && s.fatal == None && t in s.readers && t !in s.blocked && Waits(s.readers[t].pc)
    ensures Can(c, s, Wake(t))
  {
    assert Step(c, s, Wake(t)).readers[t].pc == Woken(s.readers[t].pc) != s.readers[t].pc;
  }

  lemma DeleteGoesOn(c: Config, s: State, t: Tid) returns (a: Action)
    requires Inv(c, s) && ThreadsOk(s) && s.fatal == None && t in s.readers && s.readers[t].pc == Delete
    ensures Can(c, s, a)
  {
    hide IndexOk, StoreOk, HeldOk, WaitersOk, ReadersOk, DropClean, Can;
    var i := s.readers[t].ino;
    assert ThreadOk(s.inodes, s.objects, s.readers[t]);
    LinesInRange(s, i);
    DropCleanInv(c, s, i);
    var left := DropClean(s, i).inodes[i].cacheMap;
    var l :| left == map[] || l in left;
    a := DeletePass(t, l);
    DeleteMovesOn(c, s, t, l);
  }

  lemma DeleteMovesOn(c: Config, s: State, t: Tid, l: nat)
    requires c.lineSize > 0 && s.fatal == None && t in s.readers && s.readers[t].pc == Delete && s.readers[t].ino in s.inodes
    requires forall m :: m in s.inodes[s.readers[t].ino].cacheMap ==> s.inodes[s.readers[t].ino].cacheMap[m] < |s.slots|
    requires var i := s.readers[t].ino; var s1 := DropClean(s, i);
      i in s1.inodes && s1.readers == s.readers && (s1.inodes[i].cacheMap == map[] || (l in s1.inodes[i].cacheMap && s1.inodes[i].cacheMap[l] < |s1.slots|))
    ensures Can(c, s, DeletePass(t, l))
  {
    hide DropClean;
    var s' := Step(c, s, DeletePass(t, l));
    assert s' == DoDelete(s, t, l);
    assert s'.readers[t].pc != Delete;
  }

  lemma ThreadGoesOn(c: Config, s: State, t: Tid) returns (a: Action)
    requires Inv(c, s) && ThreadsOk(s) && s.fatal == None && t in s.readers && t !in s.blocked && !Over(s.readers[t].pc)
    ensures Can(c, s, a)
  {
    assert ThreadOk(s.inodes, s.objects, s.readers[t]) && c.lineSize > 0;
    hide Inv, ThreadsOk, Can;
    match s.readers[t].pc
    case Loop =>
      LookGoesOn(c, s, t);
      a := Look(t);
    case Alloc(_, _, _) => a := AllocGoesOn(c, s, t);
    case Got(_, _) =>
      ResumeGoesOn(c, s, t);
      a := Resume(t);
    case Copy(_, _, _, _, _, _) => a := CopyGoesOn(c, s, t);
    case Delete => a := DeleteGoesOn(c, s, t);
    case _ =>
      WakeGoesOn(c, s, t);
      a := Wake(t);
  }

  /** A thread that is blocked waits for a fetch, which can go on. */
  lemma BlockedGoesOn(c: Config, s: State, t: Tid) returns (a: Action)
    requires Inv(c, s) && s.fatal == None && t in s.blocked
    ensures Can(c, s, a)
  {
    WaitsForFetch(c, s, t);
    hide Inv;
    a := FetchGoesOn(c, s, s.readers[t].pc.on);
  }

  lemma NothingMoves(c: Config, s: State, a: Action)
    requires c.lineSize > 0 && AllOver(s) && Works(a)
    ensures Step(c, s, a) == s
  {
    hide DoLook, DoResume, DoDelete, FreeAll, Unmap, Exists;
    if a.Wake? && a.t in s.readers {
      assert Goto(s, a.t, Woken(s.readers[a.t].pc)).readers == s.readers;
    }
  }

  /**
   In every state of every run: no started read, delete or fetch can take a step exactly if all of
   them are over, or the daemon died (of the allocator's Fatalf, the only one that can be reached).
   */
  lemma StuckExactly(c: Config, s0: State, run: seq<Action>)
    requires Start(c, s0)
    ensures var s := Exec(c, s0, run); Stuck(c, s) <==> AllOver(s) || s.fatal == Some(NoInboundLine)
  {
    var s := Exec(c, s0, run);
    Reached(c, s0, run);
    OnlyStarvationIsFatal(c, s0, run);
    hide Inv, ThreadsOk, Exec, Step;
    if s.fatal.Some? {
      DeadIsStuck(c, s);
    } else if AllOver(s) {
      forall a | Works(a) ensures Step(c, s, a) == s {
        NothingMoves(c, s, a);
      }
    } else {
      var a := SomethingGoesOn(c, s);
    }
  }

  lemma DeadIsStuck(c: Config, s: State)
    requires c.lineSize > 0 && s.fatal.Some?
    ensures Stuck(c, s)
  {
  }

  lemma SomethingGoesOn(c: Config, s: State) returns (a: Action)
    requires Inv(c, s) && ThreadsOk(s) && s.fatal == None && !AllOver(s)
    ensures Can(c, s, a)
  {
    assert c.lineSize > 0;
    hide Inv, ThreadsOk, Can;
    if s.fetches != map[] {
      var p :| p in s.fetches;
      a := FetchGoesOn(c, s, p);
    } else {
      var t :| t in s.readers && !Over(s.readers[t].pc);
      if t in s.blocked {
        a := BlockedGoesOn(c, s, t);
      } else {
        a := ThreadGoesOn(c, s, t);
      }
    }
  }
}
