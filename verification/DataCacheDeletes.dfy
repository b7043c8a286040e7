/**
 The threads that delete unlinked files, and what every action keeps of them:
 an inode has at most one, and is there, unlinked and without handles, until that
 thread removes it.
 */
module DataCacheDeletes {
  import opened DataCache
  import opened DataCacheInvariant

  ghost predicate ThreadOk(inodes: Inodes, objects: Objects, r: Reader) {
    match r.pc
    case Filling(_) => false
    case Delete => r.ino in inodes && inodes[r.ino].pendingDelete && inodes[r.ino].handles == {}
    case DeleteWait(_) => r.ino in inodes && inodes[r.ino].pendingDelete && inodes[r.ino].handles == {}
    case Deleted => r.ino in objects && r.ino !in inodes
    case _ => true
  }

  ghost predicate OneEach(readers: Readers) {
    forall t, u :: t in readers && u in readers && Deletes(readers[t].pc) && Deletes(readers[u].pc) && readers[t].ino == readers[u].ino ==> t == u
  }

  ghost predicate ThreadsOk(s: State) {
    && s.inodes.Keys <= s.objects.Keys
    && (forall t :: t in s.readers ==> ThreadOk(s.inodes, s.objects, s.readers[t]))
    && OneEach(s.readers)
  }

  // -------- Actions that leave the deleting threads alone --------

  /** The same inodes, with the same handles and the same fate. */
  ghost predicate SameNodes(inodes: Inodes, inodes': Inodes) {
    && inodes'.Keys == inodes.Keys
    && forall i :: i in inodes ==> inodes'[i].pendingDelete == inodes[i].pendingDelete && inodes'[i].handles == inodes[i].handles
  }

  ghost predicate SameOthers(readers: Readers, readers': Readers, t: Tid) {
    && readers.Keys <= readers'.Keys
    && forall u :: u in readers' && u != t ==> u in readers && readers'[u] == readers[u]
  }

  ghost predicate Moves(s: State, s': State, t: Tid) {
    s'.objects == s.objects && SameNodes(s.inodes, s'.inodes) && SameOthers(s.readers, s'.readers, t)
  }

  predicate Plain(pc: Pc) {
    !Deletes(pc) && !pc.Filling? && !pc.Deleted?
  }

  lemma MoveThreads(s: State, s': State, t: Tid)
    requires ThreadsOk(s) && Moves(s, s', t)
    requires t in s'.readers ==> Plain(s'.readers[t].pc) || (t in s.readers && s'.readers[t] == s.readers[t])
    ensures ThreadsOk(s')
  {
  }

  lemma NoMove(s: State, t: Tid)
    ensures Moves(s, s, t)
    ensures forall why :: Moves(s, Die(s, why), t)
  {
  }

  lemma GotoMoves(s: State, t: Tid)
    requires t in s.readers
    ensures forall pc :: Moves(s, Goto(s, t, pc), t)
    ensures forall pc :: Moves(s, ReleaseThen(s, t, pc), t) && t in ReleaseThen(s, t, pc).readers && ReleaseThen(s, t, pc).readers[t].pc == pc
    ensures forall p, pc :: 0 <= p < |s.slots| ==> Moves(s, WaitOn(s, t, p, pc), t)
  {
  }

  lemma UnmapMoves(s: State, t: Tid, i: nat, l: nat, p: nat, pc: Pc)
    requires t in s.readers && i in s.inodes
    ensures FreeAll(Unmap(s, i, l), {p}).readers == s.readers && Moves(s, Goto(FreeAll(Unmap(s, i, l), {p}), t, pc), t)
  {
  }

  lemma AllocMoves(s: State, a: Action)
    requires a.PopFree? || a.PopClean? || a.Block? || a.Starve? || a.Return?
    ensures var s' := AllocStep(s, a);
      Moves(s, s', a.t) && (a.t in s'.readers ==> Plain(s'.readers[a.t].pc) || (a.t in s.readers && s'.readers[a.t] == s.readers[a.t]))
  {
    hide Moves, Exists;
    NoMove(s, a.t);
    if a.t in s.readers && s.readers[a.t].pc.Alloc? {
      GotoMoves(s, a.t);
      if a.PopFree? || a.PopClean? {
        PopMoves(s, a);
      }
    }
  }

  lemma PopMoves(s: State, a: Action)
    requires (a.PopFree? || a.PopClean?) && a.t in s.readers && s.readers[a.t].pc.Alloc?
    ensures Moves(s, AllocStep(s, a), a.t)
  {
    hide Exists;
  }

  lemma FetchMoves(c: Config, s: State, a: Action, t: Tid)
    requires a.FetchBegin? || a.FetchRead? || a.FetchStore? || a.FetchStored? || a.FetchFinish?
    ensures Moves(s, FetchStep(c, s, a), t) && FetchStep(c, s, a).readers == s.readers
  {
  }

  lemma LookMoves(c: Config, s: State, t: Tid)
    requires c.lineSize > 0 && t in s.readers && s.readers[t].ino in s.objects && s.readers[t].pc.Loop?
    ensures var s' := DoLook(c, s, t); Moves(s, s', t) && t in s'.readers && Plain(s'.readers[t].pc)
  {
    hide Moves, Unmapped, PrefetchCount, FreeAll, Unmap;
    NoMove(s, t);
    GotoMoves(s, t);
    var r := s.readers[t];
    var l := (r.offset + |r.data|) / c.lineSize;
    if r.ino in s.inodes && l in s.inodes[r.ino].cacheMap {
      UnmapMoves(s, t, r.ino, l, s.inodes[r.ino].cacheMap[l], Done(EIO));
    }
  }

  lemma AssignMoves(s: State, t: Tid, i: nat, l: nat)
    requires t in s.readers && s.readers[t].pc.Filling? && |s.readers[t].pc.held| > 0
    requires s.readers[t].pc.held[0] < |s.slots| && i in s.inodes
    ensures Moves(s, Assign(s, t, i, l), t) && |Assign(s, t, i, l).slots| == |s.slots|
  {
  }

  lemma MovesTrans(s: State, s1: State, s2: State, t: Tid)
    requires Moves(s, s1, t) && Moves(s1, s2, t)
    ensures Moves(s, s2, t)
  {
  }

  lemma {:induction false} AheadMoves(s: State, t: Tid, i: nat, ahead: seq<nat>)
    ensures var s' := AssignAhead(s, t, i, ahead); Moves(s, s', t) && |s'.slots| == |s.slots|
    decreases |ahead|
  {
    hide Moves, Assign;
    NoMove(s, t);
    if t in s.readers && i in s.inodes && s.readers[t].pc.Filling? && |ahead| > 0 && |s.readers[t].pc.held| > 0 && s.readers[t].pc.held[0] < |s.slots| {
      if ahead[0] in s.inodes[i].cacheMap {
        AheadMoves(s, t, i, ahead[1..]);
      } else {
        var s1 := Assign(s, t, i, ahead[0]);
        AssignMoves(s, t, i, ahead[0]);
        AheadMoves(s1, t, i, ahead[1..]);
        MovesTrans(s, s1, AssignAhead(s1, t, i, ahead[1..]), t);
      }
    }
  }

  /** The locked section after the allocator leaves nobody in the middle of it. */
  lemma ResumeMoves(c: Config, s: State, t: Tid)
    requires c.lineSize > 0 && t in s.readers && s.readers[t].ino in s.objects && s.readers[t].pc.Got?
    requires forall k :: 0 <= k < |s.readers[t].pc.held| ==> s.readers[t].pc.held[k] < |s.slots|
    ensures var s' := DoResume(c, s, t);
      Moves(s, s', t) && t in s'.readers && Plain(s'.readers[t].pc) && (s'.readers[t].pc.Got? ==> s'.fatal.Some?)
  {
    hide Moves, AssignAhead, Assign, WaitOn, Goto, ReleaseThen;
    var r := s.readers[t];
    var Got(held, ahead) := r.pc;
    NoMove(s, t);
    GotoMoves(s, t);
    if r.ino in s.inodes && |held| > 0 {
      FillMoves(s, t, (r.offset + |r.data|) / c.lineSize, held, ahead);
    }
  }

  lemma FillMoves(s: State, t: Tid, l: nat, held: seq<nat>, ahead: seq<nat>)
    requires t in s.readers && |held| > 0 && held[0] < |s.slots| && s.readers[t].ino in s.inodes
    ensures var i := s.readers[t].ino;
      var s1 := AssignAhead(Assign(Goto(s, t, Filling(held)), t, i, l), t, i, ahead);
      && t in s1.readers && held[0] < |s1.slots|
      && var s' := WaitOn(ReleaseThen(s1, t, Loop), t, held[0], Wait(held[0])); Moves(s, s', t) && t in s'.readers && s'.readers[t].pc.Wait?
  {
    hide AssignAhead, Assign, Moves;
    var i := s.readers[t].ino;
    var s0 := Goto(s, t, Filling(held));
    GotoMoves(s, t);
    AssignMoves(s0, t, i, l);
    var s1 := Assign(s0, t, i, l);
    AheadMoves(s1, t, i, ahead);
    var s2 := AssignAhead(s1, t, i, ahead);
    MovesTrans(s, s0, s1, t);
    MovesTrans(s, s1, s2, t);
    StillThere(s, s2, t);
    GotoMoves(s2, t);
    var s3 := ReleaseThen(s2, t, Loop);
    MovesTrans(s, s2, s3, t);
    GotoMoves(s3, t);
    MovesTrans(s, s3, WaitOn(s3, t, held[0], Wait(held[0])), t);
  }

  lemma StillThere(s: State, s': State, t: Tid)
    requires Moves(s, s', t) && t in s.readers
    ensures t in s'.readers
  {
  }

  lemma WakeThreads(c: Config, s: State, t: Tid)
    requires c.lineSize > 0 && ThreadsOk(s)
    ensures ThreadsOk(ReadStep(c, s, Wake(t)))
  {
  }

  lemma ReadThreads(c: Config, s: State, a: Action)
    requires c.lineSize > 0 && ThreadsOk(s)
    requires a.StartRead? || a.Look? || a.Wake? || a.Resume? || a.CopyByte? || a.Check?
    ensures ThreadsOk(ReadStep(c, s, a))
  {
    hide ThreadsOk, DoLook, DoResume;
    var t, s' := a.t, ReadStep(c, s, a);
    if a.Wake? {
      WakeThreads(c, s, t);
    } else if s' != s {
      if a.Look? {
        LookMoves(c, s, t);
      } else if a.Resume? {
        ResumeMoves(c, s, t);
      }
      MoveThreads(s, s', t);
    }
  }

  lemma NamespaceThreads(s: State, a: Action)
    requires ThreadsOk(s) && (a.Create? || a.Open? || a.Release? || a.Unlink? || a.Evict?)
    ensures ThreadsOk(NamespaceStep(s, a))
  {
    forall t | t in s.readers ensures ThreadOk(NamespaceStep(s, a).inodes, NamespaceStep(s, a).objects, s.readers[t]) {
      assert ThreadOk(s.inodes, s.objects, s.readers[t]);
    }
  }

  // -------- The deleting threads themselves --------

  lemma PassThreads(s: State, t: Tid, l: nat)
    requires ThreadsOk(s) && t in s.readers && s.readers[t].pc.Delete?
    ensures ThreadsOk(DoDelete(s, t, l))
  {
    hide DropClean;
    var i := s.readers[t].ino;
    assert ThreadOk(s.inodes, s.objects, s.readers[t]);
    if i in s.inodes {
      DropCleanNodes(s, i);
    }
    var s' := DoDelete(s, t, l);
    forall u | u in s'.readers ensures ThreadOk(s'.inodes, s'.objects, s'.readers[u]) {
      assert ThreadOk(s.inodes, s.objects, s.readers[u]);
    }
  }

  lemma DropCleanNodes(s: State, i: nat)
    requires i in s.inodes
    ensures var s' := DropClean(s, i);
      s'.objects == s.objects && s'.readers == s.readers && SameNodes(s.inodes, s'.inodes) && |s'.slots| == |s.slots|
  {
    hide CleanLines;
  }

  lemma StepThreads(c: Config, s: State, a: Action)
    requires c.lineSize > 0 && ThreadsOk(s)
    ensures ThreadsOk(Step(c, s, a))
  {
    hide ThreadsOk, NamespaceStep, AllocStep, FetchStep, ReadStep, DoDelete, Moves;
    if s.fatal.None? {
      if a.Create? || a.Open? || a.Release? || a.Unlink? || a.Evict? {
        NamespaceThreads(s, a);
      } else if a.PopFree? || a.PopClean? || a.Block? || a.Starve? || a.Return? {
        AllocMoves(s, a);
        MoveThreads(s, AllocStep(s, a), a.t);
      } else if a.FetchBegin? || a.FetchRead? || a.FetchStore? || a.FetchStored? || a.FetchFinish? {
        FetchMoves(c, s, a, 0);
        MoveThreads(s, FetchStep(c, s, a), 0);
      } else if a.StartDelete? {
        StartThreads(s, a.t, a.i);
      } else if a.DeletePass? {
        if a.t in s.readers && s.readers[a.t].pc.Delete? {
          PassThreads(s, a.t, a.l);
        }
      } else {
        ReadThreads(c, s, a);
      }
    }
  }

  lemma StartThreads(s: State, t: Tid, i: nat)
    requires ThreadsOk(s)
    ensures ThreadsOk(DeleteStep(s, StartDelete(t, i)))
  {
  }

  // -------- They keep the invariant of the cache --------

  ghost function CleanSlots(slots: Slots, lines: map<nat, nat>): set<nat> {
    set l | l in CleanLines(slots, lines) :: lines[l]
  }

  lemma CleanFacts(inodes: Inodes, slots: Slots, i: nat)
    requires IndexOk(inodes, slots) && i in inodes
    ensures var lines := inodes[i].cacheMap; var ps := CleanSlots(slots, lines);
      && (forall p :: p in ps ==> p < |slots| && slots[p].place == Clean && slots[p].ino == i)
      && Shrunk(lines, lines - CleanLines(slots, lines), ps)
      && (forall l :: l in lines && l in CleanLines(slots, lines) ==> lines[l] in ps)
      && (forall l :: l in lines ==> lines[l] < |slots| && (l in CleanLines(slots, lines) || slots[lines[l]].place == Inbound))
  {
    assert LinesOk(slots, i, inodes[i].cacheMap);
  }

  lemma DropCleanIndex(s: State, i: nat)
    requires IndexOk(s.inodes, s.slots) && i in s.inodes
    ensures IndexOk(DropClean(s, i).inodes, DropClean(s, i).slots)
  {
    hide IndexOk, CleanLines;
    var lines := s.inodes[i].cacheMap;
    var ps, s' := CleanSlots(s.slots, lines), DropClean(s, i);
    CleanFacts(s.inodes, s.slots, i);
    forall j | j in s'.inodes ensures Shrunk(s.inodes[j].cacheMap, s'.inodes[j].cacheMap, ps) {
      if j != i {
        NotShared(s.inodes, s.slots, j, ps);
      }
    }
    forall j, m, q | MappedAt(s.inodes, j, m, q) && q !in ps ensures MappedAt(s'.inodes, j, m, q) {
    }
    DropIndex(s.inodes, s'.inodes, s.slots, s'.slots, ps);
  }

  /** After the first loop the lines that are left are Inbound. */
  lemma DropCleanInv(c: Config, s: State, i: nat)
    requires Inv(c, s) && i in s.inodes
    ensures var s' := DropClean(s, i);
      && Inv(c, s') && s'.fatal == s.fatal && s'.readers == s.readers && s'.blocked == s.blocked && s'.objects == s.objects && i in s'.inodes
      && (forall l :: l in s'.inodes[i].cacheMap ==> s'.inodes[i].cacheMap[l] < |s'.slots| && s'.slots[s'.inodes[i].cacheMap[l]].place == Inbound)
  {
    hide IndexOk, StoreOk, HeldOk, WaitersOk, ReadersOk, CleanLines;
    var ps := CleanSlots(s.slots, s.inodes[i].cacheMap);
    CleanFacts(s.inodes, s.slots, i);
    DropCleanIndex(s, i);
    FreeCleanInv(c, s, DropClean(s, i).inodes, ps);
  }

  lemma RemoveInv(c: Config, s: State, i: nat)
    requires Inv(c, s) && i in s.inodes && s.inodes[i].cacheMap == map[]
    ensures Inv(c, s.(inodes := s.inodes - {i}))
  {
  }

  lemma PassInv(c: Config, s: State, t: Tid, l: nat)
    requires Inv(c, s) && ThreadsOk(s) && t in s.readers && s.readers[t].pc.Delete?
    ensures Inv(c, DoDelete(s, t, l)) && DoDelete(s, t, l).fatal == s.fatal
  {
    hide IndexOk, StoreOk, HeldOk, WaitersOk, ReadersOk, DropClean;
    var i := s.readers[t].ino;
    assert ThreadOk(s.inodes, s.objects, s.readers[t]);
    LinesInRange(s, i);
    DropCleanInv(c, s, i);
    var s1 := DropClean(s, i);
    var left := s1.inodes[i].cacheMap;
    NotBlocked(s, t);
    ReaderIsOk(c, s1, t);
    if left == map[] {
      RemoveInv(c, s1, i);
      GotoInv(c, s1.(inodes := s1.inodes - {i}), t, s1.readers[t].(pc := Deleted));
    } else if l in left {
      WaitOnInv(c, s1, t, left[l], DeleteWait(left[l]));
    }
  }

  lemma LinesInRange(s: State, i: nat)
    requires IndexOk(s.inodes, s.slots) && i in s.inodes
    ensures forall m :: m in s.inodes[i].cacheMap ==> s.inodes[i].cacheMap[m] < |s.slots|
  {
    assert LinesOk(s.slots, i, s.inodes[i].cacheMap);
  }

  lemma DeleteInv(c: Config, s: State, a: Action)
    requires Inv(c, s) && ThreadsOk(s) && (a.StartDelete? || a.DeletePass?)
    ensures Inv(c, DeleteStep(s, a)) && DeleteStep(s, a).fatal == s.fatal
  {
    hide IndexOk, StoreOk, ReadersOk, ThreadsOk, DoDelete;
    match a
    case StartDelete(t, i) =>
      if DeleteStep(s, a) != s {
        var r := Reader(i, 0, 0, 0, [], Delete);
        assert t in s.blocked ==> Listed(s.slots, s.readers, t);
        WaitersGoto(s.slots, s.readers, s.blocked, t, r);
        HeldGoto(s.slots, s.readers, t, r);
        ReadersGoto(c, s.slots, s.mem, s.objects, s.readers, t, r);
      }
    case DeletePass(t, l) =>
      if t in s.readers && s.readers[t].pc.Delete? {
        PassInv(c, s, t, l);
      }
  }
}
