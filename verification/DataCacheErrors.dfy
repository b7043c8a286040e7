/**
 What an error of a read means: over every run, each one is due to something that happened in it.
 */
module DataCacheErrors {
  import opened Collections
  import opened DataCache
  import opened DataCacheDeletes
  import opened DataCacheInvariant
  import opened DataCacheReads
  import opened DataCacheTheorems

  /** The backend failed to read a line; a reader took the lock and its inode, or its handle, was not there. */
  datatype Cause = LineFailed(ino: nat, line: nat) | InodeGone(t: Tid) | HandleClosed(t: Tid)

  /** What happens, of these, when `a` is taken in `s`. */
  function CauseOf(s: State, a: Action): set<Cause> {
    if s.fatal.Some? then {}
    else match a
      case FetchRead(p, ok) =>
        if p in s.fetches && s.fetches[p].Reading? && !ok then {LineFailed(s.fetches[p].ino, s.fetches[p].line)} else {}
      case Look(t) => LockCause(s, t)
      case Resume(t) => LockCause(s, t)
      case _ => {}
  }

  function LockCause(s: State, t: Tid): set<Cause> {
    if t !in s.readers then {}
    else if s.readers[t].ino !in s.inodes then {InodeGone(t)}
    else if s.readers[t].fh !in s.inodes[s.readers[t].ino].handles then {HandleClosed(t)}
    else {}
  }

  /** Everything of the kind that happened in a run. */
  function Causes(c: Config, s: State, run: seq<Action>): set<Cause>
    requires c.lineSize > 0
    decreases |run|
  {
    if run == [] then {} else CauseOf(s, run[0]) + Causes(c, Step(c, s, run[0]), run[1..])
  }

  // -------- What every run keeps --------

  predicate Bad(slot: Slot) {
    slot.place == Clean && slot.failed
  }

  ghost predicate SlotsBlamed(s: State, causes: set<Cause>) {
    && (forall p :: 0 <= p < |s.slots| && Bad(s.slots[p]) ==> LineFailed(s.slots[p].ino, s.slots[p].line) in causes)
    && (forall p :: p in s.fetches && s.fetches[p] == Fetched(false) && p < |s.slots| ==> LineFailed(s.slots[p].ino, s.slots[p].line) in causes)
  }

  ghost predicate ErrorBlamed(c: Config, t: Tid, r: Reader, causes: set<Cause>)
    requires c.lineSize > 0
  {
    && (r.pc == Done(EIO) ==> LineFailed(r.ino, (r.offset + |r.data|) / c.lineSize) in causes)
    && (r.pc == Done(ENOENT) ==> InodeGone(t) in causes)
    && (r.pc == Done(EBADF) ==> HandleClosed(t) in causes)
  }

  ghost predicate Blamed(c: Config, s: State, causes: set<Cause>)
    requires c.lineSize > 0
  {
    SlotsBlamed(s, causes) && forall t :: t in s.readers ==> ErrorBlamed(c, t, s.readers[t], causes)
  }

  // -------- Actions that spoil no line --------

  ghost predicate Innocent(s: State, s': State) {
    && |s'.slots| == |s.slots|
    && (forall p :: 0 <= p < |s'.slots| && Bad(s'.slots[p]) ==> Bad(s.slots[p]) && SameTags(s.slots[p], s'.slots[p]))
    && (forall p :: p in s'.fetches && s'.fetches[p] == Fetched(false) && p < |s'.slots| ==>
          p in s.fetches && s.fetches[p] == Fetched(false) && SameTags(s.slots[p], s'.slots[p]))
  }

  lemma InnocentTrans(s: State, s1: State, s2: State)
    requires Innocent(s, s1) && Innocent(s1, s2)
    ensures Innocent(s, s2)
  {
  }

  lemma StillBlamed(s: State, s': State, causes: set<Cause>, causes': set<Cause>)
    requires SlotsBlamed(s, causes) && Innocent(s, s') && causes <= causes'
    ensures SlotsBlamed(s', causes')
  {
  }

  /** Freeing slots that nobody fetches into. */
  lemma FreeInnocent(c: Config, s: State, ps: set<nat>)
    requires Inv(c, s) && forall p :: p in ps ==> p < |s.slots| && Quiet(s.slots[p].place)
    ensures Innocent(s, FreeAll(s, ps))
  {
    hide IndexOk, HeldOk, WaitersOk, ReadersOk, Holds, FetchOk;
  }

  lemma ReleaseInnocent(c: Config, s: State, t: Tid, pc: Pc)
    requires Inv(c, s) && t in s.readers
    ensures Innocent(s, ReleaseThen(s, t, pc))
  {
    hide Inv, Innocent, HeldBy;
    HeldQuiet(c, s, t);
    var ps := set p | p in HeldBy(s.readers[t].pc);
    FreeInnocent(c, s, ps);
    SameInnocent(FreeAll(s, ps), ReleaseThen(s, t, pc));
    InnocentTrans(s, FreeAll(s, ps), ReleaseThen(s, t, pc));
  }

  lemma HeldQuiet(c: Config, s: State, t: Tid)
    requires Inv(c, s) && t in s.readers
    ensures forall p :: p in HeldBy(s.readers[t].pc) ==> p < |s.slots| && Quiet(s.slots[p].place)
  {
    hide IndexOk, StoreOk, WaitersOk, ReadersOk;
    assert Owns(s.slots, t, HeldBy(s.readers[t].pc));
  }

  lemma AssignInnocent(s: State, t: Tid, i: nat, l: nat)
    requires t in s.readers && s.readers[t].pc.Filling? && |s.readers[t].pc.held| > 0 && s.readers[t].pc.held[0] < |s.slots| && i in s.inodes
    ensures Innocent(s, Assign(s, t, i, l))
  {
  }

  lemma SameInnocent(s: State, s': State)
    requires s'.slots == s.slots && s'.fetches == s.fetches
    ensures Innocent(s, s')
  {
  }

  lemma WaitInnocent(s: State, t: Tid, p: nat, pc: Pc)
    requires t in s.readers && p < |s.slots|
    ensures Innocent(s, WaitOn(s, t, p, pc))
  {
  }

  lemma {:induction false} AheadInnocent(s: State, t: Tid, i: nat, ahead: seq<nat>)
    ensures Innocent(s, AssignAhead(s, t, i, ahead))
    decreases |ahead|
  {
    hide Innocent, Assign;
    SameInnocent(s, s);
    if t in s.readers && i in s.inodes && s.readers[t].pc.Filling? && |ahead| > 0 && |s.readers[t].pc.held| > 0 && s.readers[t].pc.held[0] < |s.slots| {
      if ahead[0] in s.inodes[i].cacheMap {
        AheadInnocent(s, t, i, ahead[1..]);
      } else {
        var s1 := Assign(s, t, i, ahead[0]);
        AssignInnocent(s, t, i, ahead[0]);
        AheadInnocent(s1, t, i, ahead[1..]);
        InnocentTrans(s, s1, AssignAhead(s1, t, i, ahead[1..]));
      }
    }
  }

  // -------- Each action --------

  lemma NamespaceInnocent(c: Config, s: State, a: Action)
    requires Inv(c, s) && (a.Create? || a.Open? || a.Release? || a.Unlink? || a.Evict?)
    ensures Innocent(s, NamespaceStep(s, a)) && NamespaceStep(s, a).readers == s.readers
  {
    hide Inv, Innocent, DoEvict;
    SameInnocent(s, s);
    if a.Evict? {
      if a.i in s.inodes && s.inodes[a.i].inbound == 0 {
        EvictInnocent(c, s, a.i);
      }
    } else {
      SameInnocent(s, NamespaceStep(s, a));
    }
  }

  lemma EvictInnocent(c: Config, s: State, i: nat)
    requires Inv(c, s) && i in s.inodes && s.inodes[i].inbound == 0
    ensures Innocent(s, DoEvict(s, i)) && DoEvict(s, i).readers == s.readers
  {
    hide StoreOk, HeldOk, WaitersOk, ReadersOk, Innocent, IndexOk;
    EvictedAreClean(s.inodes, s.slots, i);
    var lines := s.inodes[i].cacheMap;
    var ps := set l | l in lines :: lines[l];
    assert ps == SlotsOf(lines);
    FreeInnocent(c, s, ps);
    var s1 := FreeAll(s, ps).(inodes := s.inodes - {i});
    SameInnocent(FreeAll(s, ps), s1);
    InnocentTrans(s, FreeAll(s, ps), s1);
    assert forall l :: l in lines ==> lines[l] in SlotsOf(lines);
    assert DoEvict(s, i) == s1;
  }

  lemma AllocInnocent(c: Config, s: State, a: Action)
    requires Inv(c, s)
    requires a.PopFree? || a.PopClean? || a.Block? || a.Starve? || a.Return?
    ensures Innocent(s, AllocStep(s, a))
  {
    hide Exists, IndexOk, HeldOk, WaitersOk, ReadersOk, Holds, FetchOk;
  }

  lemma DeleteInnocent(c: Config, s: State, a: Action)
    requires Inv(c, s) && (a.StartDelete? || a.DeletePass?)
    ensures Innocent(s, DeleteStep(s, a))
  {
    hide StoreOk, HeldOk, WaitersOk, ReadersOk, Innocent, DropClean;
    SameInnocent(s, s);
    SameInnocent(s, DeleteStep(s, a).(slots := s.slots, fetches := s.fetches));
    if a.DeletePass? && a.t in s.readers && s.readers[a.t].pc.Delete? && s.readers[a.t].ino in s.inodes {
      DropInnocent(c, s, s.readers[a.t].ino);
      DropCleanNodes(s, s.readers[a.t].ino);
      var s1 := DropClean(s, s.readers[a.t].ino);
      var left := s1.inodes[s.readers[a.t].ino].cacheMap;
      if left == map[] {
        SameInnocent(s1, DoDelete(s, a.t, a.l));
        InnocentTrans(s, s1, DoDelete(s, a.t, a.l));
      } else if a.l in left && left[a.l] < |s1.slots| {
        WaitInnocent(s1, a.t, left[a.l], DeleteWait(left[a.l]));
        InnocentTrans(s, s1, WaitOn(s1, a.t, left[a.l], DeleteWait(left[a.l])));
      }
    }
  }

  lemma DropInnocent(c: Config, s: State, i: nat)
    requires Inv(c, s) && i in s.inodes
    ensures Innocent(s, DropClean(s, i))
  {
    hide StoreOk, HeldOk, WaitersOk, ReadersOk, CleanLines, Innocent;
    CleanFacts(s.inodes, s.slots, i);
    var ps := CleanSlots(s.slots, s.inodes[i].cacheMap);
    FreeInnocent(c, s, ps);
    SameInnocent(FreeAll(s, ps), DropClean(s, i));
    InnocentTrans(s, FreeAll(s, ps), DropClean(s, i));
  }

  lemma Close(c: Config, s: State, s': State, t: Tid, causes: set<Cause>, causes': set<Cause>)
    requires c.lineSize > 0 && Blamed(c, s, causes) && causes <= causes' && Innocent(s, s') && SameOthers(s.readers, s'.readers, t)
    requires t in s'.readers ==> ErrorBlamed(c, t, s'.readers[t], causes') || (t in s.readers && s'.readers[t] == s.readers[t])
    ensures Blamed(c, s', causes')
  {
    hide SlotsBlamed, Innocent;
    StillBlamed(s, s', causes, causes');
    forall u | u in s'.readers ensures ErrorBlamed(c, u, s'.readers[u], causes') {
      if u != t || (t in s.readers && s'.readers[t] == s.readers[t]) {
        assert ErrorBlamed(c, u, s.readers[u], causes);
      }
    }
  }

  /** A look that finds no line changes no slot. */
  lemma LookPlain(c: Config, s: State, t: Tid, l: nat)
    requires c.lineSize > 0 && t in s.readers && s.readers[t].ino in s.objects && l == (s.readers[t].offset + |s.readers[t].data|) / c.lineSize
    requires WantsMore(s, s.readers[t]) ==> l !in s.inodes[s.readers[t].ino].cacheMap
    ensures var s' := DoLook(c, s, t);
      && s'.slots == s.slots && s'.fetches == s.fetches && t in s'.readers && s'.readers[t].pc != Done(EIO)
      && (s'.readers[t].pc == Done(ENOENT) ==> s.readers[t].pc == Done(ENOENT) || InodeGone(t) in LockCause(s, t))
      && (s'.readers[t].pc == Done(EBADF) ==> s.readers[t].pc == Done(EBADF) || HandleClosed(t) in LockCause(s, t))
  {
    hide Unmapped, PrefetchCount, FreeAll, Unmap, WaitOn;
  }

  /** A look that finds its line: it waits, or ends with EIO because the line is bad, or copies, or is done. */
  lemma LookHit(c: Config, s: State, t: Tid, l: nat, p: nat)
    requires c.lineSize > 0 && t in s.readers && s.readers[t].ino in s.objects && l == (s.readers[t].offset + |s.readers[t].data|) / c.lineSize
    requires WantsMore(s, s.readers[t]) && MappedAt(s.inodes, s.readers[t].ino, l, p) && p < |s.slots| && Resident(s.slots[p].place)
    ensures var s' := DoLook(c, s, t);
      if s.slots[p].place == Inbound then s' == WaitOn(s, t, p, Wait(p))
      else if s.slots[p].failed then s' == Goto(FreeAll(Unmap(s, s.readers[t].ino, l), {p}), t, Done(EIO))
      else s'.slots == s.slots && s'.fetches == s.fetches && t in s'.readers && (s'.readers[t].pc == Done(OK) || s'.readers[t].pc.Copy?)
  {
    hide Unmapped, PrefetchCount, FreeAll, Unmap, WaitOn;
  }

  lemma BadLineInnocent(c: Config, s: State, t: Tid, i: nat, l: nat, p: nat)
    requires Inv(c, s) && t in s.readers && i in s.inodes && p < |s.slots| && s.slots[p].place == Clean
    ensures var s' := Goto(FreeAll(Unmap(s, i, l), {p}), t, Done(EIO));
      Innocent(s, s') && t in s'.readers && s'.readers[t] == s.readers[t].(pc := Done(EIO))
  {
    hide Inv, Innocent;
    FreeInnocent(c, s, {p});
    var s1 := Goto(FreeAll(Unmap(s, i, l), {p}), t, Done(EIO));
    SameInnocent(FreeAll(s, {p}), s1);
    InnocentTrans(s, FreeAll(s, {p}), s1);
  }

  lemma LookBlamed(c: Config, s: State, t: Tid, causes: set<Cause>)
    requires Inv(c, s) && Blamed(c, s, causes) && t in s.readers && s.readers[t].pc == Loop && s.readers[t].ino in s.objects
    ensures var s' := DoLook(c, s, t); Innocent(s, s') && t in s'.readers && ErrorBlamed(c, t, s'.readers[t], causes + LockCause(s, t))
  {
    hide Inv, Innocent, DoLook, LockCause, ReaderOk, FreeAll;
    LoopFacts(c, s, t);
    var r := s.readers[t];
    var l := (r.offset + |r.data|) / c.lineSize;
    if WantsMore(s, r) && l in s.inodes[r.ino].cacheMap {
      HitFacts(c, s, r.ino, l);
      var p := s.inodes[r.ino].cacheMap[l];
      LookHit(c, s, t, l, p);
      if s.slots[p].place == Inbound {
        WaitInnocent(s, t, p, Wait(p));
      } else if s.slots[p].failed {
        assert Bad(s.slots[p]);
        BadLineInnocent(c, s, t, r.ino, l, p);
      } else {
        SameInnocent(s, DoLook(c, s, t));
      }
    } else {
      LookPlain(c, s, t, l);
      SameInnocent(s, DoLook(c, s, t));
    }
  }

  lemma ResumeBlamed(c: Config, s: State, t: Tid, causes: set<Cause>)
    requires Inv(c, s) && t in s.readers && s.readers[t].pc.Got? && GotOk(c, s, t)
    ensures var s' := DoResume(c, s, t); Innocent(s, s') && t in s'.readers && ErrorBlamed(c, t, s'.readers[t], causes + LockCause(s, t))
  {
    hide Inv, DoResume, GotOk, Innocent, ReleaseThen, StillMisses;
    GotIs(c, s, t);
    var l := (s.readers[t].offset + |s.readers[t].data|) / c.lineSize;
    if StillMisses(s, s.readers[t], l) {
      FillBlamed(c, s, t, l);
    } else {
      var pc := ResumeReleases(c, s, t);
      ReleaseInnocent(c, s, t, pc);
      Releases(s, t, pc);
    }
  }

  lemma Releases(s: State, t: Tid, pc: Pc)
    requires t in s.readers
    ensures t in ReleaseThen(s, t, pc).readers && ReleaseThen(s, t, pc).readers[t] == s.readers[t].(pc := pc)
  {
  }

  lemma FillBlamed(c: Config, s: State, t: Tid, l: nat)
    requires Inv(c, s) && t in s.readers && s.readers[t].pc.Got? && GotOk(c, s, t)
    requires l == (s.readers[t].offset + |s.readers[t].data|) / c.lineSize && StillMisses(s, s.readers[t], l)
    ensures var s' := DoResume(c, s, t); Innocent(s, s') && t in s'.readers && s'.readers[t].pc.Wait?
  {
    hide Inv, AssignAhead, Assign, ReaderOk, Innocent;
    var r := s.readers[t];
    var Got(held, ahead) := r.pc;
    FillInv(c, s, t, l, held, ahead);
    var s0 := Goto(s, t, Filling(held));
    var s1 := Assign(s0, t, r.ino, l);
    var s2 := AssignAhead(s1, t, r.ino, ahead);
    var s3 := ReleaseThen(s2, t, Loop);
    SameInnocent(s, s0);
    AssignInnocent(s0, t, r.ino, l);
    InnocentTrans(s, s0, s1);
    AheadInnocent(s1, t, r.ino, ahead);
    InnocentTrans(s, s1, s2);
    ReleaseInnocent(c, s2, t, Loop);
    InnocentTrans(s, s2, s3);
    WaitInnocent(s3, t, held[0], Wait(held[0]));
    InnocentTrans(s, s3, WaitOn(s3, t, held[0], Wait(held[0])));
  }

  lemma ReadBlamed(c: Config, s: State, a: Action, causes: set<Cause>)
    requires Inv(c, s) && s.fatal == None && c.lineSize > 0 && Blamed(c, s, causes)
    requires a.StartRead? || a.Look? || a.Wake? || a.Resume? || a.CopyByte? || a.Check?
    ensures Blamed(c, ReadStep(c, s, a), causes + CauseOf(s, a))
  {
    hide Inv, Blamed, Innocent, ReadStep, Moves, ErrorBlamed, SameOthers;
    var t, s' := a.t, ReadStep(c, s, a);
    if s' == s {
      SameInnocent(s, s);
      SameOthersRefl(s.readers, t);
    } else if a.Look? {
      LookStep(c, s, t);
      LookBlamed(c, s, t, causes);
      LookMoves(c, s, t);
      MovesOthers(s, s', t);
    } else if a.Resume? {
      ResumeStep(c, s, t);
      GotFacts(c, s, t);
      ResumeBlamed(c, s, t, causes);
      GotIs(c, s, t);
      ResumeMoves(c, s, t);
      MovesOthers(s, s', t);
    } else {
      PlainReads(c, s, a);
      if t in s'.readers && !s'.readers[t].pc.Done? {
        NoError(c, t, s'.readers[t], causes + CauseOf(s, a));
      }
      SameInnocent(s, s');
    }
    Close(c, s, s', t, causes, causes + CauseOf(s, a));
  }

  lemma SameOthersRefl(readers: Readers, t: Tid)
    ensures SameOthers(readers, readers, t)
  {
  }

  lemma LookStep(c: Config, s: State, t: Tid)
    requires c.lineSize > 0 && ReadStep(c, s, Look(t)) != s
    ensures t in s.readers && s.readers[t].pc == Loop && s.readers[t].ino in s.objects && ReadStep(c, s, Look(t)) == DoLook(c, s, t)
  {
  }

  lemma ResumeStep(c: Config, s: State, t: Tid)
    requires c.lineSize > 0 && ReadStep(c, s, Resume(t)) != s
    ensures t in s.readers && s.readers[t].pc.Got? && s.readers[t].ino in s.objects
    ensures forall k :: 0 <= k < |s.readers[t].pc.held| ==> s.readers[t].pc.held[k] < |s.slots|
    ensures ReadStep(c, s, Resume(t)) == DoResume(c, s, t)
  {
  }

  lemma NoError(c: Config, t: Tid, r: Reader, causes: set<Cause>)
    requires c.lineSize > 0 && !r.pc.Done?
    ensures ErrorBlamed(c, t, r, causes)
  {
  }

  lemma PlainReads(c: Config, s: State, a: Action)
    requires c.lineSize > 0 && (a.StartRead? || a.Wake? || a.CopyByte? || a.Check?)
    ensures var s' := ReadStep(c, s, a);
      && s'.slots == s.slots && s'.fetches == s.fetches && SameOthers(s.readers, s'.readers, a.t)
      && (a.t in s'.readers ==> !s'.readers[a.t].pc.Done? || (a.t in s.readers && s'.readers[a.t] == s.readers[a.t]))
  {
    hide DoLook, DoResume;
    match a
    case StartRead(_, _, _, _, _) =>
    case Wake(_) =>
    case CopyByte(_) =>
    case Check(_) =>
  }

  lemma MovesOthers(s: State, s': State, t: Tid)
    requires Moves(s, s', t)
    ensures SameOthers(s.readers, s'.readers, t)
  {
  }

  lemma GotIs(c: Config, s: State, t: Tid)
    requires t in s.readers && s.readers[t].pc.Got? && GotOk(c, s, t)
    ensures c.lineSize > 0 && s.readers[t].ino in s.objects
    ensures forall k :: 0 <= k < |s.readers[t].pc.held| ==> s.readers[t].pc.held[k] < |s.slots|
  {
  }

  /** A fetch leaves a bad line only if the backend's read failed. */
  lemma FetchBlamed(c: Config, s: State, a: Action, causes: set<Cause>)
    requires Inv(c, s) && s.fatal == None && SlotsBlamed(s, causes)
    requires a.FetchBegin? || a.FetchRead? || a.FetchStore? || a.FetchStored? || a.FetchFinish?
    ensures SlotsBlamed(FetchStep(c, s, a), causes + CauseOf(s, a)) && FetchStep(c, s, a).readers == s.readers
  {
    hide Inv, FetchStep;
    FetchMoves(c, s, a, 0);
    if a.p in s.fetches {
      FetchFacts(c, s, a.p);
      FetchSlots(c, s, a, causes);
    } else {
      NoFetch(c, s, a);
    }
  }

  lemma NoFetch(c: Config, s: State, a: Action)
    requires (a.FetchBegin? || a.FetchRead? || a.FetchStore? || a.FetchStored? || a.FetchFinish?) && a.p !in s.fetches
    ensures FetchStep(c, s, a) == s
  {
  }

  lemma FetchSlots(c: Config, s: State, a: Action, causes: set<Cause>)
    requires s.fatal == None && SlotsBlamed(s, causes)
    requires a.FetchBegin? || a.FetchRead? || a.FetchStore? || a.FetchStored? || a.FetchFinish?
    requires a.p in s.fetches && a.p < |s.slots| && a.p < |s.mem| && s.slots[a.p].place == Inbound && s.slots[a.p].ino in s.inodes
    requires FetchOk(c, s.slots[a.p], s.mem[a.p], s.objects, s.fetches[a.p])
    ensures SlotsBlamed(FetchStep(c, s, a), causes + CauseOf(s, a))
  {
    hide LineBytes, Holds;
  }

  lemma StepBlamed(c: Config, s: State, a: Action, causes: set<Cause>)
    requires Inv(c, s) && Blamed(c, s, causes)
    ensures Blamed(c, Step(c, s, a), causes + CauseOf(s, a))
  {
    hide Inv, NamespaceStep, AllocStep, FetchStep, ReadStep, DeleteStep, Innocent, Blamed, Moves, SameOthers;
    LinesExist(c, s);
    if s.fatal.Some? {
      assert causes + CauseOf(s, a) == causes;
    } else if a.Create? || a.Open? || a.Release? || a.Unlink? || a.Evict? {
      NamespaceInnocent(c, s, a);
      SameOthersRefl(s.readers, 0);
      Close(c, s, NamespaceStep(s, a), 0, causes, causes + CauseOf(s, a));
    } else if a.PopFree? || a.PopClean? || a.Block? || a.Starve? || a.Return? {
      AllocInnocent(c, s, a);
      AllocMoves(s, a);
      MovesOthers(s, AllocStep(s, a), a.t);
      AllocNotDone(s, a);
      Close(c, s, AllocStep(s, a), a.t, causes, causes + CauseOf(s, a));
    } else if a.FetchBegin? || a.FetchRead? || a.FetchStore? || a.FetchStored? || a.FetchFinish? {
      FetchKeeps(c, s, a, causes);
    } else if a.StartDelete? || a.DeletePass? {
      DeleteInnocent(c, s, a);
      DeleteNotDone(s, a);
      Close(c, s, DeleteStep(s, a), a.t, causes, causes + CauseOf(s, a));
    } else {
      ReadBlamed(c, s, a, causes);
    }
  }

  lemma FetchKeeps(c: Config, s: State, a: Action, causes: set<Cause>)
    requires Inv(c, s) && s.fatal == None && c.lineSize > 0 && Blamed(c, s, causes)
    requires a.FetchBegin? || a.FetchRead? || a.FetchStore? || a.FetchStored? || a.FetchFinish?
    ensures Blamed(c, FetchStep(c, s, a), causes + CauseOf(s, a))
  {
    hide Inv, FetchStep, SlotsBlamed, CauseOf;
    FetchBlamed(c, s, a, causes);
  }

  lemma LinesExist(c: Config, s: State)
    requires Inv(c, s)
    ensures c.lineSize > 0
  {
  }

  lemma AllocNotDone(s: State, a: Action)
    requires a.PopFree? || a.PopClean? || a.Block? || a.Starve? || a.Return?
    ensures var s' := AllocStep(s, a); a.t in s'.readers ==> !s'.readers[a.t].pc.Done? || (a.t in s.readers && s'.readers[a.t] == s.readers[a.t])
  {
    hide Exists;
  }

  lemma DeleteNotDone(s: State, a: Action)
    requires a.StartDelete? || a.DeletePass?
    ensures var s' := DeleteStep(s, a);
      && SameOthers(s.readers, s'.readers, a.t)
      && (a.t in s'.readers ==> !s'.readers[a.t].pc.Done? || (a.t in s.readers && s'.readers[a.t] == s.readers[a.t]))
  {
    hide DropClean;
    if a.DeletePass? && a.t in s.readers && s.readers[a.t].ino in s.inodes {
      DropCleanNodes(s, s.readers[a.t].ino);
    }
  }

  lemma {:induction false} RunBlamed(c: Config, s: State, run: seq<Action>, causes: set<Cause>)
    requires Inv(c, s) && ThreadsOk(s) && Blamed(c, s, causes)
    ensures Blamed(c, Exec(c, s, run), causes + Causes(c, s, run))
    decreases |run|
  {
    LinesExist(c, s);
    hide Inv, ThreadsOk, Step, Blamed, CauseOf;
    if run == [] {
      assert causes + {} == causes;
    } else {
      StepInv(c, s, run[0]);
      StepBlamed(c, s, run[0], causes);
      RunBlamed(c, Step(c, s, run[0]), run[1..], causes + CauseOf(s, run[0]));
      assert causes + CauseOf(s, run[0]) + Causes(c, Step(c, s, run[0]), run[1..]) == causes + Causes(c, s, run);
    }
  }

  /**
   A read ends with EIO only if the backend failed to read the very line the read stands at; with
   ENOENT, or EBADF, only if the reader took the lock and its inode was gone, or its handle closed.
   */
  lemma ErrorsAreEarned(c: Config, s0: State, run: seq<Action>, t: Tid)
    requires Start(c, s0)
    ensures var s := Exec(c, s0, run);
      t in s.readers ==>
        var r, causes := s.readers[t], Causes(c, s0, run);
        && (r.pc == Done(EIO) ==> LineFailed(r.ino, (r.offset + |r.data|) / c.lineSize) in causes)
        && (r.pc == Done(ENOENT) ==> InodeGone(t) in causes)
        && (r.pc == Done(EBADF) ==> HandleClosed(t) in causes)
  {
    hide Inv, ThreadsOk;
    Reached(c, s0, []);
    assert Exec(c, s0, []) == s0;
    assert Blamed(c, s0, {});
    RunBlamed(c, s0, run, {});
    assert {} + Causes(c, s0, run) == Causes(c, s0, run);
  }

  /** A cause is an action of the run, taken in a state in which it says what it says. */
  lemma {:induction false} CauseHappened(c: Config, s: State, run: seq<Action>, cause: Cause) returns (k: nat)
    requires c.lineSize > 0 && cause in Causes(c, s, run)
    ensures k < |run| && cause in CauseOf(Exec(c, s, run[..k]), run[k])
    decreases |run|
  {
    hide CauseOf, Step;
    if cause in CauseOf(s, run[0]) {
      k := 0;
    } else {
      var j := CauseHappened(c, Step(c, s, run[0]), run[1..], cause);
      k := j + 1;
      assert run[..k][0] == run[0] && run[..k][1..] == run[1..][..j];
    }
  }

  // -------- And what happened is reported --------

  /** A reader that takes the lock to go on, and whose inode is gone or whose handle is closed, is done, with that error. */
  lemma RefusedAtOnce(c: Config, s: State, t: Tid, a: Action)
    requires Inv(c, s) && s.fatal == None && t in s.readers
    requires (a == Look(t) && s.readers[t].pc == Loop && |s.readers[t].data| < s.readers[t].size) || (a == Resume(t) && s.readers[t].pc.Got?)
    ensures var s' := Step(c, s, a);
      && t in s'.readers && (InodeGone(t) in CauseOf(s, a) ==> s'.readers[t] == s.readers[t].(pc := Done(ENOENT)))
      && (HandleClosed(t) in CauseOf(s, a) ==> s'.readers[t] == s.readers[t].(pc := Done(EBADF)))
  {
    hide Inv, DoLook, DoResume, Moves, GotOk;
    LoopFacts(c, s, t);
    if a == Look(t) {
      LookMoves(c, s, t);
      LookRefuses(c, s, t);
      assert Step(c, s, a) == DoLook(c, s, t);
    } else {
      GotFacts(c, s, t);
      GotIs(c, s, t);
      ResumeMoves(c, s, t);
      ResumeRefuses(c, s, t);
      assert Step(c, s, a) == DoResume(c, s, t);
    }
  }

  lemma LookRefuses(c: Config, s: State, t: Tid)
    requires c.lineSize > 0 && t in s.readers && s.readers[t].ino in s.objects && |s.readers[t].data| < s.readers[t].size
    ensures InodeGone(t) in LockCause(s, t) ==> DoLook(c, s, t) == Goto(s, t, Done(ENOENT))
    ensures HandleClosed(t) in LockCause(s, t) ==> DoLook(c, s, t) == Goto(s, t, Done(EBADF))
  {
    hide Unmapped, PrefetchCount, FreeAll, Unmap, WaitOn;
  }

  lemma ResumeRefuses(c: Config, s: State, t: Tid)
    requires c.lineSize > 0 && t in s.readers && s.readers[t].ino in s.objects && s.readers[t].pc.Got?
    requires forall k :: 0 <= k < |s.readers[t].pc.held| ==> s.readers[t].pc.held[k] < |s.slots|
    ensures InodeGone(t) in LockCause(s, t) ==> DoResume(c, s, t) == ReleaseThen(s, t, Done(ENOENT))
    ensures HandleClosed(t) in LockCause(s, t) ==> DoResume(c, s, t) == ReleaseThen(s, t, Done(EBADF))
  {
    hide AssignAhead, Assign, ReleaseThen, WaitOn;
  }

  /** A reader that finds its line bad says so, and the line is gone, so that the next reader fetches it again. */
  lemma BadLineIsReported(c: Config, s: State, t: Tid, l: nat, p: nat)
    requires Inv(c, s) && s.fatal == None && t in s.readers && s.readers[t].pc == Loop && WantsMore(s, s.readers[t])
    requires l == (s.readers[t].offset + |s.readers[t].data|) / c.lineSize && MappedAt(s.inodes, s.readers[t].ino, l, p)
    requires p < |s.slots| && Bad(s.slots[p])
    ensures var r := s.readers[t]; var s' := Step(c, s, Look(t));
      && t in s'.readers && s'.readers[t] == r.(pc := Done(EIO)) && s'.slots == s.slots[p := Freed(s.slots[p])]
      && r.ino in s'.inodes && s'.inodes[r.ino].cacheMap == s.inodes[r.ino].cacheMap - {l}
  {
    hide Inv, ReaderOk;
    LoopFacts(c, s, t);
    LookHit(c, s, t, l, p);
    hide DoLook;
    assert Step(c, s, Look(t)) == DoLook(c, s, t);
    assert FreeAll(s, {p}).slots == s.slots[p := Freed(s.slots[p])];
  }
}
