/**
 The reader's own actions keep the invariant, and what follows for every run:
 reads return the object's bytes, no waiter is stranded, and the only Fatalf
 that can be reached is the allocator's empty-Inbound one.
 */
module DataCacheReads {
  import opened Arithmetic
  import opened Collections
  import opened DataCache
  import opened DataCacheDeletes
  import opened DataCacheInvariant

  // -------- Releasing what a reader holds --------

  lemma ReleaseIndex(inodes: Inodes, slots: Slots, slots': Slots, ps: set<nat>)
    requires IndexOk(inodes, slots) && FreedIn(slots, slots', ps)
    requires forall p :: p in ps ==> p < |slots| && slots[p].place.Held?
    ensures IndexOk(inodes, slots')
  {
    forall i ensures InboundOf(slots', i) == InboundOf(slots, i) {
    }
    forall i | i in inodes ensures LinesOk(slots', i, inodes[i].cacheMap) {
      assert LinesOk(slots, i, inodes[i].cacheMap);
    }
  }

  lemma ReleaseHeld(slots: Slots, slots': Slots, readers: Readers, t: Tid, r: Reader)
    requires HeldOk(slots, readers) && t in readers && HeldBy(r.pc) == []
    requires FreedIn(slots, slots', set p | p in HeldBy(readers[t].pc))
    ensures HeldOk(slots', readers[t := r])
  {
    var readers' := readers[t := r];
    assert Owns(slots, t, HeldBy(readers[t].pc));
    forall u | u in readers' ensures Owns(slots', u, HeldBy(readers'[u].pc)) {
      if u != t {
        assert Owns(slots, u, HeldBy(readers[u].pc));
      }
    }
    forall p | 0 <= p < |slots'| && slots'[p].place.Held? ensures Owned(readers', slots'[p].place.owner, p) {
      assert Owned(readers, slots[p].place.owner, p);
    }
  }

  lemma ReleaseInv(c: Config, s: State, t: Tid, pc: Pc)
    requires Inv(c, s) && t in s.readers && !Waits(s.readers[t].pc)
    requires HeldBy(pc) == [] && !pc.Copy? && ReaderOk(c, s.slots, s.mem, s.objects, s.readers[t].(pc := pc))
    ensures Inv(c, ReleaseThen(s, t, pc))
  {
    hide IndexOk, StoreOk, WaitersOk, ReadersOk;
    var ps := set p | p in HeldBy(s.readers[t].pc);
    var slots' := FreeAll(s, ps).slots;
    var r := s.readers[t].(pc := pc);
    assert Owns(s.slots, t, HeldBy(s.readers[t].pc));
    NotBlocked(s, t);
    ReleaseIndex(s.inodes, s.slots, slots', ps);
    FreeStore(c, s.slots, slots', ps, s.mem, s.objects, s.fetches);
    FreeReaders(c, s, slots', ps);
    ReleaseHeld(s.slots, slots', s.readers, t, r);
    WaitersGoto(slots', s.readers, s.blocked, t, r);
    ReadersGoto(c, slots', s.mem, s.objects, s.readers, t, r);
  }

  // -------- Assigning slots to lines --------

  function Assigned(slots: Slots, p: nat, i: nat, l: nat): Slots
    requires p < |slots|
  {
    slots[p := Slot(Inbound, i, l, 0, slots[p].gen + 1, slots[p].failed, {})]
  }

  lemma AssignCount(inodes: Inodes, slots: Slots, p: nat, i: nat, l: nat, inodes': Inodes)
    requires Counted(inodes, slots) && p < |slots| && slots[p].place.Held? && i in inodes
    requires inodes'.Keys == inodes.Keys && inodes'[i].inbound == inodes[i].inbound + 1
    requires forall j :: j in inodes && j != i ==> inodes'[j] == inodes[j]
    ensures Counted(inodes', Assigned(slots, p, i, l))
  {
    var slots' := Assigned(slots, p, i, l);
    assert InboundOf(slots', i) == InboundOf(slots, i) + {p};
    forall j | j != i ensures InboundOf(slots', j) == InboundOf(slots, j) {
    }
  }

  lemma AssignIndex(inodes: Inodes, slots: Slots, p: nat, i: nat, l: nat)
    requires IndexOk(inodes, slots) && p < |slots| && slots[p].place.Held? && i in inodes && l !in inodes[i].cacheMap
    ensures var node := inodes[i];
      IndexOk(inodes[i := node.(cacheMap := node.cacheMap[l := p], inbound := node.inbound + 1)], Assigned(slots, p, i, l))
  {
    hide Counted, InboundOf;
    var node, slots' := inodes[i], Assigned(slots, p, i, l);
    var inodes' := inodes[i := node.(cacheMap := node.cacheMap[l := p], inbound := node.inbound + 1)];
    AssignCount(inodes, slots, p, i, l, inodes');
    forall j | j in inodes' ensures LinesOk(slots', j, inodes'[j].cacheMap) {
      assert LinesOk(slots, j, inodes[j].cacheMap);
    }
    forall q | 0 <= q < |slots'| && Resident(slots'[q].place) ensures MappedAt(inodes', slots'[q].ino, slots'[q].line, q) {
      if q != p {
        assert MappedAt(inodes, slots[q].ino, slots[q].line, q);
      }
    }
  }

  lemma OwnsOthers(slots: Slots, p: nat, slot: Slot, t: Tid, held: seq<nat>)
    requires Owns(slots, t, held) && p < |slots| && p !in held
    ensures Owns(slots[p := slot], t, held)
  {
  }

  lemma OwnsTail(slots: Slots, t: Tid, held: seq<nat>)
    requires Owns(slots, t, held) && |held| > 0
    ensures Owns(slots, t, held[1..]) && held[0] !in held[1..]
  {
  }

  lemma AssignHeld(slots: Slots, readers: Readers, t: Tid, held: seq<nat>, i: nat, l: nat)
    requires HeldOk(slots, readers) && t in readers && readers[t].pc == Filling(held) && |held| > 0 && held[0] < |slots|
    ensures HeldOk(Assigned(slots, held[0], i, l), readers[t := readers[t].(pc := Filling(held[1..]))])
  {
    hide Owns, Distinct;
    var slots', readers' := Assigned(slots, held[0], i, l), readers[t := readers[t].(pc := Filling(held[1..]))];
    OwnsTail(slots, t, held);
    forall u | u in readers' ensures Owns(slots', u, HeldBy(readers'[u].pc)) {
      FirstIsMine(slots, readers, t, held, u);
      OwnsOthers(slots, held[0], slots'[held[0]], u, HeldBy(readers'[u].pc));
    }
    forall p | 0 <= p < |slots'| && slots'[p].place.Held? ensures Owned(readers', slots'[p].place.owner, p) {
      assert Owned(readers, slots[p].place.owner, p);
      TailKeeps(held, p);
    }
  }

  lemma FirstIsMine(slots: Slots, readers: Readers, t: Tid, held: seq<nat>, u: Tid)
    requires HeldOk(slots, readers) && t in readers && HeldBy(readers[t].pc) == held && |held| > 0 && u in readers
    ensures u != t ==> held[0] !in HeldBy(readers[u].pc)
  {
    assert Owns(slots, t, HeldBy(readers[t].pc)) && Owns(slots, u, HeldBy(readers[u].pc));
    assert slots[held[0]].place == Held(t);
  }

  lemma TailKeeps(held: seq<nat>, p: nat)
    ensures p in held && p != held[0] ==> p in held[1..]
  {
    if p in held && p != held[0] {
      var k :| 0 <= k < |held| && held[k] == p;
      assert held[1..][k - 1] == p;
    }
  }

  lemma AssignStore(c: Config, s: State, p: nat, i: nat, l: nat)
    requires Shape(c, s.slots, s.mem) && p < |s.slots| && s.slots[p].place.Held? && i in s.objects
    requires StoreOk(c, s.slots, s.mem, s.objects, s.fetches) && ReadersOk(c, s.slots, s.mem, s.objects, s.readers)
    requires WaitersOk(s.slots, s.readers, s.blocked)
    ensures StoreOk(c, Assigned(s.slots, p, i, l), s.mem, s.objects, s.fetches[p := Spawned])
    ensures ReadersOk(c, Assigned(s.slots, p, i, l), s.mem, s.objects, s.readers)
    ensures WaitersOk(Assigned(s.slots, p, i, l), s.readers, s.blocked)
  {
    var slots' := Assigned(s.slots, p, i, l);
    ReadersFrame(c, s.slots, s.mem, slots', s.mem, s.objects, s.readers);
    assert WaitersAt(s.slots[p], p, s.readers, s.blocked);
    forall u | u in s.blocked ensures Listed(slots', s.readers, u) {
      assert Listed(s.slots, s.readers, u);
    }
  }

  lemma AssignInv(c: Config, s: State, t: Tid, i: nat, l: nat)
    requires Inv(c, s) && t in s.readers && s.readers[t].pc.Filling? && |s.readers[t].pc.held| > 0
    requires s.readers[t].pc.held[0] < |s.slots| && i in s.inodes && l !in s.inodes[i].cacheMap
    ensures Inv(c, Assign(s, t, i, l))
  {
    hide IndexOk, StoreOk, WaitersOk, ReadersOk, ReaderOk, HeldOk, Shape;
    var held := s.readers[t].pc.held;
    var p, slots' := held[0], Assigned(s.slots, held[0], i, l);
    var r := s.readers[t].(pc := Filling(held[1..]));
    FirstIsHeld(s.slots, s.readers, t, held);
    NotBlocked(s, t);
    AssignIndex(s.inodes, s.slots, p, i, l);
    AssignStore(c, s, p, i, l);
    AssignHeld(s.slots, s.readers, t, held, i, l);
    WaitersGoto(slots', s.readers, s.blocked, t, r);
    ReaderIsOk(c, s, t);
    FillingOk(c, s.slots, slots', s.mem, s.objects, s.readers[t]);
    ReadersGoto(c, slots', s.mem, s.objects, s.readers, t, r);
    AssignShape(c, s.slots, s.mem, p, i, l);
  }

  lemma FirstIsHeld(slots: Slots, readers: Readers, t: Tid, held: seq<nat>)
    requires HeldOk(slots, readers) && t in readers && HeldBy(readers[t].pc) == held && |held| > 0
    ensures held[0] < |slots| && slots[held[0]].place == Held(t)
  {
    assert Owns(slots, t, HeldBy(readers[t].pc));
  }

  lemma FillingOk(c: Config, slots: Slots, slots': Slots, mem: seq<Bytes>, objects: Objects, r: Reader)
    requires ReaderOk(c, slots, mem, objects, r) && r.pc.Filling? && |r.pc.held| > 0
    ensures ReaderOk(c, slots', mem, objects, r.(pc := Filling(r.pc.held[1..])))
  {
  }

  lemma AssignShape(c: Config, slots: Slots, mem: seq<Bytes>, p: nat, i: nat, l: nat)
    requires Shape(c, slots, mem) && p < |slots|
    ensures Shape(c, Assigned(slots, p, i, l), mem)
  {
  }

  /** The prefetch loop touches only slots that `t` holds, and leaves `t` where it was. */
  lemma {:induction false} AssignAheadInv(c: Config, s: State, t: Tid, i: nat, ahead: seq<nat>, main: nat)
    requires Inv(c, s) && t in s.readers && s.readers[t].pc.Filling? && i in s.inodes
    requires main < |s.slots| && s.slots[main].place == Inbound
    ensures var s' := AssignAhead(s, t, i, ahead);
      && Inv(c, s') && s'.fatal == s.fatal
      && t in s'.readers && s'.readers[t].pc.Filling? && s'.readers[t] == s.readers[t].(pc := s'.readers[t].pc)
      && |s'.slots| == |s.slots| && s'.slots[main].place == Inbound
    decreases |ahead|
  {
    hide IndexOk, StoreOk, WaitersOk, ReadersOk;
    var held := s.readers[t].pc.held;
    assert Owns(s.slots, t, HeldBy(s.readers[t].pc));
    if |ahead| > 0 && |held| > 0 {
      if ahead[0] in s.inodes[i].cacheMap {
        AssignAheadInv(c, s, t, i, ahead[1..], main);
      } else {
        assert held[0] != main;
        AssignInv(c, s, t, i, ahead[0]);
        AssignAheadInv(c, Assign(s, t, i, ahead[0]), t, i, ahead[1..], main);
      }
    }
  }

  /** A reader at end of file, or whose buffer is full, has everything it asked for. */
  lemma Finished(objects: Objects, r: Reader)
    requires DataOk(objects, r)
    requires |r.data| >= r.size || r.offset + |r.data| >= |objects[r.ino]|
    ensures r.data == Wanted(objects[r.ino], r.offset, r.size)
  {
  }

  /** After the allocator returned: fill the missed line and the lines ahead of it. */
  lemma FillInv(c: Config, s: State, t: Tid, l: nat, held: seq<nat>, ahead: seq<nat>)
    requires Inv(c, s) && t in s.readers && s.readers[t].pc == Got(held, ahead)
    requires s.readers[t].ino in s.inodes && l !in s.inodes[s.readers[t].ino].cacheMap
    ensures |held| > 0 && held[0] < |s.slots|
    ensures var i := s.readers[t].ino;
      var s1 := AssignAhead(Assign(Goto(s, t, Filling(held)), t, i, l), t, i, ahead);
      && Inv(c, s1) && s1.fatal == s.fatal && |s1.slots| == |s.slots| && s1.slots[held[0]].place == Inbound
      && t in s1.readers && !Waits(s1.readers[t].pc)
  {
    hide IndexOk, StoreOk, WaitersOk, ReadersOk;
    var i := s.readers[t].ino;
    ReaderIsOk(c, s, t);
    assert Owns(s.slots, t, HeldBy(s.readers[t].pc));
    NotBlocked(s, t);
    GotoInv(c, s, t, s.readers[t].(pc := Filling(held)));
    var s0 := Goto(s, t, Filling(held));
    AssignInv(c, s0, t, i, l);
    AssignAheadInv(c, Assign(s0, t, i, l), t, i, ahead, held[0]);
  }

  lemma ReleaseAndWaitInv(c: Config, s: State, t: Tid, main: nat)
    requires Inv(c, s) && t in s.readers && !Waits(s.readers[t].pc)
    requires main < |s.slots| && s.slots[main].place == Inbound
    ensures var s' := WaitOn(ReleaseThen(s, t, Loop), t, main, Wait(main)); Inv(c, s') && s'.fatal == s.fatal
  {
    hide IndexOk, StoreOk, WaitersOk, ReadersOk, HeldOk;
    ReaderIsOk(c, s, t);
    ReleaseInv(c, s, t, Loop);
    HeldElsewhere(s, t, main);
    var s2 := ReleaseThen(s, t, Loop);
    NotBlocked(s2, t);
    WaitOnInv(c, s2, t, main, Wait(main));
  }

  ghost predicate GotOk(c: Config, s: State, t: Tid)
    requires t in s.readers && s.readers[t].pc.Got?
  {
    && c.lineSize > 0 && s.readers[t].ino in s.objects && ReaderOk(c, s.slots, s.mem, s.objects, s.readers[t])
    && forall k :: 0 <= k < |s.readers[t].pc.held| ==> s.readers[t].pc.held[k] < |s.slots|
  }

  lemma GotFacts(c: Config, s: State, t: Tid)
    requires Inv(c, s) && t in s.readers && s.readers[t].pc.Got?
    ensures GotOk(c, s, t)
  {
    hide IndexOk, StoreOk, WaitersOk;
    assert Owns(s.slots, t, HeldBy(s.readers[t].pc));
  }

  /** The reader still misses line `l` of an open file. */
  predicate StillMisses(s: State, r: Reader, l: nat) {
    && r.ino in s.inodes && r.ino in s.objects && r.fh in s.inodes[r.ino].handles
    && r.offset + |r.data| < |s.objects[r.ino]| && l !in s.inodes[r.ino].cacheMap
  }

  lemma ResumeReleaseInv(c: Config, s: State, t: Tid)
    requires Inv(c, s) && t in s.readers && s.readers[t].pc.Got? && GotOk(c, s, t)
    requires !StillMisses(s, s.readers[t], (s.readers[t].offset + |s.readers[t].data|) / c.lineSize)
    ensures Inv(c, DoResume(c, s, t)) && DoResume(c, s, t).fatal == s.fatal
  {
    hide Inv, DoResume, ReleaseThen, GotOk, StillMisses;
    var pc := ResumeReleases(c, s, t);
    ReleasedOk(c, s, t, pc);
    ReleaseInv(c, s, t, pc);
    ReleaseKeepsFatal(s, t, pc);
  }

  /** A reader that finds no use for its lines releases them, and is done or starts over. */
  lemma ResumeReleases(c: Config, s: State, t: Tid) returns (pc: Pc)
    requires t in s.readers && s.readers[t].pc.Got? && GotOk(c, s, t)
    requires !StillMisses(s, s.readers[t], (s.readers[t].offset + |s.readers[t].data|) / c.lineSize)
    ensures DoResume(c, s, t) == ReleaseThen(s, t, pc) && pc in {Done(ENOENT), Done(EBADF), Done(OK), Loop}
    ensures pc == Done(OK) ==> s.readers[t].ino in s.objects && s.readers[t].offset + |s.readers[t].data| >= |s.objects[s.readers[t].ino]|
    ensures pc == Done(ENOENT) ==> s.readers[t].ino !in s.inodes
    ensures pc == Done(EBADF) ==> s.readers[t].ino in s.inodes && s.readers[t].fh !in s.inodes[s.readers[t].ino].handles
  {
    hide AssignAhead, Assign, WaitOn, ReaderOk, ReleaseThen;
    var r := s.readers[t];
    pc := if r.ino !in s.inodes then Done(ENOENT)
      else if r.fh !in s.inodes[r.ino].handles then Done(EBADF)
      else if r.offset + |r.data| >= |s.objects[r.ino]| then Done(OK)
      else Loop;
  }

  lemma ReleasedOk(c: Config, s: State, t: Tid, pc: Pc)
    requires t in s.readers && s.readers[t].pc.Got? && GotOk(c, s, t) && pc in {Done(ENOENT), Done(EBADF), Done(OK), Loop}
    requires pc == Done(OK) ==> s.readers[t].ino in s.objects && s.readers[t].offset + |s.readers[t].data| >= |s.objects[s.readers[t].ino]|
    ensures ReaderOk(c, s.slots, s.mem, s.objects, s.readers[t].(pc := pc))
  {
    hide SnapshotOk;
    if pc == Done(OK) {
      Finished(s.objects, s.readers[t]);
    }
  }

  lemma ReleaseKeepsFatal(s: State, t: Tid, pc: Pc)
    requires t in s.readers
    ensures ReleaseThen(s, t, pc).fatal == s.fatal
  {
  }

  lemma ResumeFillInv(c: Config, s: State, t: Tid)
    requires Inv(c, s) && t in s.readers && s.readers[t].pc.Got? && GotOk(c, s, t)
    requires StillMisses(s, s.readers[t], (s.readers[t].offset + |s.readers[t].data|) / c.lineSize)
    ensures Inv(c, DoResume(c, s, t)) && DoResume(c, s, t).fatal == s.fatal
  {
    hide Inv, AssignAhead, Assign, ReleaseThen, WaitOn, ReaderOk;
    var r := s.readers[t];
    var Got(held, ahead) := r.pc;
    var l := (r.offset + |r.data|) / c.lineSize;
    FillInv(c, s, t, l, held, ahead);
    var s1 := AssignAhead(Assign(Goto(s, t, Filling(held)), t, r.ino, l), t, r.ino, ahead);
    ReleaseAndWaitInv(c, s1, t, held[0]);
  }

  lemma ResumeInv(c: Config, s: State, t: Tid)
    requires Inv(c, s)
    ensures Inv(c, ReadStep(c, s, Resume(t))) && ReadStep(c, s, Resume(t)).fatal == s.fatal
  {
    hide Inv, DoResume;
    if t in s.readers && s.readers[t].pc.Got? {
      GotFacts(c, s, t);
      if StillMisses(s, s.readers[t], (s.readers[t].offset + |s.readers[t].data|) / c.lineSize) {
        ResumeFillInv(c, s, t);
      } else {
        ResumeReleaseInv(c, s, t);
      }
    }
  }

  lemma HeldElsewhere(s: State, t: Tid, p: nat)
    requires HeldOk(s.slots, s.readers) && t in s.readers && p < |s.slots| && !s.slots[p].place.Held?
    ensures p !in HeldBy(s.readers[t].pc)
  {
    assert Owns(s.slots, t, HeldBy(s.readers[t].pc));
  }

  // -------- The top of the read loop --------

  lemma DivLine(cur: nat, size: nat)
    requires size > 0
    ensures cur / size * size <= cur < cur / size * size + size
  {
  }

  /** A line that holds offset `cur` of the object reaches past it. */
  lemma LineReaches(c: Config, obj: Bytes, l: nat, cur: nat)
    requires l * c.lineSize <= cur < l * c.lineSize + c.lineSize && cur < |obj|
    ensures cur - l * c.lineSize < |LineBytes(c, obj, l)|
  {
  }

  /** Any slice of a line is that slice of the object. */
  lemma LineSlice(c: Config, obj: Bytes, l: nat, start: nat, len: nat)
    requires start + len <= |LineBytes(c, obj, l)|
    ensures len > 0 ==> l * c.lineSize + start + len <= |obj|
    ensures len > 0 ==> LineBytes(c, obj, l)[start..start + len] == obj[l * c.lineSize + start..l * c.lineSize + start + len]
  {
    if len > 0 {
      var lo := l * c.lineSize;
      var hi := Min(lo + c.lineSize, |obj|);
      assert LineBytes(c, obj, l) == obj[Min(lo, |obj|)..hi];
      assert lo < |obj|;
      SliceOfSlice(obj, lo, hi, start, len);
    }
  }

  lemma SliceOfSlice(obj: Bytes, lo: nat, hi: nat, start: nat, len: nat)
    requires lo <= hi <= |obj| && start + len <= hi - lo
    ensures obj[lo..hi][start..start + len] == obj[lo + start..lo + start + len]
  {
    var x, y := obj[lo..hi][start..start + len], obj[lo + start..lo + start + len];
    assert |x| == |y| && forall k :: 0 <= k < |x| ==> x[k] == y[k];
  }

  /** A miss never asks for more lines than there are. */
  lemma AskBounded(c: Config, cacheMap: map<nat, nat>, size: nat, l: nat)
    requires c.lineSize > 0 && c.lines > 0
    ensures 1 + |Unmapped(cacheMap, l + 1, l + 1 + PrefetchCount(c, size, l))| <= MaxAsk(c)
  {
  }

  /** A miss on a line of an object asks for exactly the unmapped lines in reach. */
  lemma MissAsks(c: Config, cacheMap: map<nat, nat>, size: nat, l: nat)
    requires c.lineSize > 0 && c.lines > 0
    ensures forall m :: m in Unmapped(cacheMap, l + 1, l + 1 + PrefetchCount(c, size, l)) <==> InReach(c, size, l, m) && m !in cacheMap
    ensures Ascending(Unmapped(cacheMap, l + 1, l + 1 + PrefetchCount(c, size, l)))
  {
    var n := PrefetchCount(c, size, l);
    UnmappedAscends(cacheMap, l + 1, l + 1 + n);
    forall m ensures m in Unmapped(cacheMap, l + 1, l + 1 + n) <==> InReach(c, size, l, m) && m !in cacheMap {
      hide Unmapped;
      if 0 <= m {
        UnmappedExactly(cacheMap, l + 1, l + 1 + n, m);
        LinesOf(size, c.lineSize, m);
      }
    }
  }

  /** Line `m` is one of the object's exactly if it does not lie past the last one. */
  lemma LinesOf(size: nat, lineSize: nat, m: nat)
    requires lineSize > 0
    ensures m <= (size + lineSize - 1) / lineSize - 1 <==> m * lineSize < size
  {
    var n := (size + lineSize - 1) / lineSize;
    if m * lineSize < size {
      QuotientAtLeast(size + lineSize - 1, lineSize, m + 1);
    } else {
      QuotientBelow(size + lineSize - 1, lineSize, m + 1);
    }
  }

  lemma HitFacts(c: Config, s: State, i: nat, l: nat)
    requires Inv(c, s) && i in s.inodes && l in s.inodes[i].cacheMap
    ensures var p := s.inodes[i].cacheMap[l];
      && p < |s.slots| && p < |s.mem| && Resident(s.slots[p].place) && s.slots[p].ino == i && s.slots[p].line == l
      && (s.slots[p].place == Clean && !s.slots[p].failed ==> Holds(c, s.slots[p], s.mem[p], s.objects))
  {
    hide HeldOk, WaitersOk, ReadersOk;
    assert LinesOk(s.slots, i, s.inodes[i].cacheMap);
  }

  lemma SnapshotInv(c: Config, s: State, t: Tid, l: nat, p: nat, start: nat, len: nat)
    requires Inv(c, s) && t in s.readers && s.readers[t].pc == Loop && s.readers[t].ino in s.inodes
    requires MappedAt(s.inodes, s.readers[t].ino, l, p)
    requires s.slots[p].place == Clean && !s.slots[p].failed
    requires s.readers[t].offset + |s.readers[t].data| == l * c.lineSize + start
    requires 0 < len && start + len <= s.slots[p].len && |s.readers[t].data| + len <= s.readers[t].size
    ensures Inv(c, Goto(s, t, Copy(p, s.slots[p].gen, l, start, len, [])))
  {
    hide IndexOk, StoreOk, HeldOk, WaitersOk, ReadersOk;
    HitFacts(c, s, s.readers[t].ino, l);
    ReaderIsOk(c, s, t);
    NotBlocked(s, t);
    GotoInv(c, s, t, s.readers[t].(pc := Copy(p, s.slots[p].gen, l, start, len, [])));
  }

  /** The reader found its line in the cache. */
  lemma HitInv(c: Config, s: State, t: Tid, l: nat)
    requires Inv(c, s) && t in s.readers && s.readers[t].pc == Loop
    requires WantsMore(s, s.readers[t])
    requires l == (s.readers[t].offset + |s.readers[t].data|) / c.lineSize && l in s.inodes[s.readers[t].ino].cacheMap
    ensures Inv(c, DoLook(c, s, t)) && DoLook(c, s, t).fatal == s.fatal
  {
    hide IndexOk, StoreOk, HeldOk, WaitersOk, ReadersOk;
    var r := s.readers[t];
    var p, cur := s.inodes[r.ino].cacheMap[l], r.offset + |r.data|;
    HitFacts(c, s, r.ino, l);
    ReaderIsOk(c, s, t);
    NotBlocked(s, t);
    if s.slots[p].place == Inbound {
      WaitOnInv(c, s, t, p, Wait(p));
    } else if s.slots[p].failed {
      FreeLineInv(c, s, r.ino, l);
      GotoInv(c, FreeAll(Unmap(s, r.ino, l), {p}), t, r.(pc := Done(EIO)));
    } else {
      DivLine(cur, c.lineSize);
      LineReaches(c, s.objects[r.ino], l, cur);
      var start := cur - l * c.lineSize;
      var limit := Min(Min(start + (r.size - |r.data|), c.lineSize), s.slots[p].len);
      SnapshotInv(c, s, t, l, p, start, limit - start);
    }
  }

  /** A reader that goes on without touching a slot. */
  lemma MoveInv(c: Config, s: State, t: Tid, pc: Pc)
    requires Inv(c, s) && t in s.readers && s.readers[t].pc == Loop && HeldBy(pc) == []
    requires ReaderOk(c, s.slots, s.mem, s.objects, s.readers[t].(pc := pc))
    ensures Inv(c, Goto(s, t, pc))
  {
    hide IndexOk, StoreOk, HeldOk, ReadersOk;
    NotBlocked(s, t);
    GotoInv(c, s, t, s.readers[t].(pc := pc));
  }

  lemma LoopFacts(c: Config, s: State, t: Tid)
    requires Inv(c, s) && t in s.readers
    ensures c.lineSize > 0 && c.lines > 0 && ReaderOk(c, s.slots, s.mem, s.objects, s.readers[t])
  {
  }

  /** The reader has an open file and wants more of it. */
  predicate WantsMore(s: State, r: Reader) {
    && |r.data| < r.size && r.ino in s.inodes && r.ino in s.objects && r.fh in s.inodes[r.ino].handles
    && r.offset + |r.data| < |s.objects[r.ino]|
  }

  lemma LookEndInv(c: Config, s: State, t: Tid)
    requires Inv(c, s) && t in s.readers && s.readers[t].pc == Loop && s.readers[t].ino in s.objects
    requires !WantsMore(s, s.readers[t])
    ensures Inv(c, DoLook(c, s, t)) && DoLook(c, s, t).fatal == s.fatal
  {
    hide Inv, Unmapped, PrefetchCount, Holds, FreeAll;
    var r := s.readers[t];
    LoopFacts(c, s, t);
    if |r.data| >= r.size || (r.ino in s.inodes && r.fh in s.inodes[r.ino].handles) {
      Finished(s.objects, r);
      MoveInv(c, s, t, Done(OK));
    } else if r.ino !in s.inodes {
      MoveInv(c, s, t, Done(ENOENT));
    } else {
      MoveInv(c, s, t, Done(EBADF));
    }
  }

  lemma MissInv(c: Config, s: State, t: Tid, l: nat)
    requires Inv(c, s) && t in s.readers && s.readers[t].pc == Loop && WantsMore(s, s.readers[t])
    requires l == (s.readers[t].offset + |s.readers[t].data|) / c.lineSize && l !in s.inodes[s.readers[t].ino].cacheMap
    ensures Inv(c, DoLook(c, s, t)) && DoLook(c, s, t).fatal == s.fatal
  {
    hide Inv, Unmapped, PrefetchCount, Holds, FreeAll;
    var r := s.readers[t];
    LoopFacts(c, s, t);
    var lines := s.inodes[r.ino].cacheMap;
    AskBounded(c, lines, |s.objects[r.ino]|, l);
    var ahead := Unmapped(lines, l + 1, l + 1 + PrefetchCount(c, |s.objects[r.ino]|, l));
    MissAsks(c, lines, |s.objects[r.ino]|, l);
    MoveInv(c, s, t, Alloc(1 + |ahead|, [], ahead));
  }

  lemma LookInv(c: Config, s: State, t: Tid)
    requires Inv(c, s) && t in s.readers && s.readers[t].pc == Loop && s.readers[t].ino in s.objects
    ensures Inv(c, DoLook(c, s, t)) && DoLook(c, s, t).fatal == s.fatal
  {
    hide Inv, DoLook;
    LoopFacts(c, s, t);
    var r := s.readers[t];
    var l := (r.offset + |r.data|) / c.lineSize;
    if !WantsMore(s, r) {
      LookEndInv(c, s, t);
    } else if l in s.inodes[r.ino].cacheMap {
      HitInv(c, s, t, l);
    } else {
      MissInv(c, s, t, l);
    }
  }

  // -------- The unlocked copy --------

  lemma CopyByteInv(c: Config, s: State, t: Tid)
    requires Inv(c, s)
    ensures Inv(c, ReadStep(c, s, CopyByte(t))) && ReadStep(c, s, CopyByte(t)).fatal == s.fatal
  {
    hide IndexOk, StoreOk, HeldOk, WaitersOk, ReadersOk;
    if ReadStep(c, s, CopyByte(t)) != s {
      ReaderIsOk(c, s, t);
      NotBlocked(s, t);
      var r := s.readers[t];
      var pc := r.pc;
      var k := pc.start + |pc.buf|;
      var r' := r.(pc := pc.(buf := pc.buf + [s.mem[pc.pos][k]]));
      if s.slots[pc.pos].gen == pc.gen {
        var bytes := LineBytes(c, s.objects[r.ino], pc.line);
        assert s.mem[pc.pos][..|bytes|][k] == bytes[k];
        assert pc.buf + [bytes[k]] == bytes[pc.start..k + 1];
      }
      GotoInv(c, s, t, r');
    }
  }

  /** A copy that passes the generation check is the object's own bytes. */
  lemma AcceptedCopy(c: Config, slots: Slots, mem: seq<Bytes>, objects: Objects, r: Reader)
    requires ReaderOk(c, slots, mem, objects, r) && r.pc.Copy? && |r.pc.buf| == r.pc.len
    requires slots[r.pc.pos].gen == r.pc.gen
    ensures var cur := r.offset + |r.data|;
      cur + r.pc.len <= |objects[r.ino]| && r.pc.buf == objects[r.ino][cur..cur + r.pc.len]
  {
    LineSlice(c, objects[r.ino], r.pc.line, r.pc.start, r.pc.len);
  }

  lemma CheckInv(c: Config, s: State, t: Tid)
    requires Inv(c, s)
    ensures Inv(c, ReadStep(c, s, Check(t))) && ReadStep(c, s, Check(t)).fatal == s.fatal
  {
    hide IndexOk, StoreOk, HeldOk, WaitersOk, ReadersOk;
    if ReadStep(c, s, Check(t)) != s {
      ReaderIsOk(c, s, t);
      NotBlocked(s, t);
      var r := s.readers[t];
      if s.slots[r.pc.pos].gen != r.pc.gen {
        GotoInv(c, s, t, r.(pc := Loop));
      } else {
        AcceptedCopy(c, s.slots, s.mem, s.objects, r);
        GotoInv(c, s, t, r.(data := r.data + r.pc.buf, pc := Loop));
      }
    }
  }

  lemma StartReadInv(c: Config, s: State, t: Tid, i: nat, fh: nat, offset: nat, size: nat)
    requires Inv(c, s)
    ensures var a := StartRead(t, i, fh, offset, size); Inv(c, ReadStep(c, s, a)) && ReadStep(c, s, a).fatal == s.fatal
  {
    hide IndexOk, StoreOk, ReadersOk;
    if t !in s.readers && i in s.objects {
      var r := Reader(i, fh, offset, size, [], Loop);
      assert t in s.blocked ==> Listed(s.slots, s.readers, t);
      WaitersGoto(s.slots, s.readers, s.blocked, t, r);
      HeldGoto(s.slots, s.readers, t, r);
      ReadersGoto(c, s.slots, s.mem, s.objects, s.readers, t, r);
    }
  }

  lemma ReadInv(c: Config, s: State, a: Action)
    requires Inv(c, s)
    requires a.StartRead? || a.Look? || a.Wake? || a.Resume? || a.CopyByte? || a.Check?
    ensures Inv(c, ReadStep(c, s, a)) && ReadStep(c, s, a).fatal == s.fatal
  {
    hide Inv, DoLook, DoResume;
    match a
    case StartRead(t, i, fh, offset, size) => StartReadInv(c, s, t, i, fh, offset, size);
    case Look(t) =>
      if t in s.readers && s.readers[t].pc.Loop? && s.readers[t].ino in s.objects { LookInv(c, s, t); }
    case Wake(t) => WakeInv(c, s, t);
    case Resume(t) => ResumeInv(c, s, t);
    case CopyByte(t) => CopyByteInv(c, s, t);
    case Check(t) => CheckInv(c, s, t);
  }

  // -------- Every run --------

  lemma StepInv(c: Config, s: State, a: Action)
    requires Inv(c, s) && ThreadsOk(s)
    ensures Inv(c, Step(c, s, a)) && ThreadsOk(Step(c, s, a))
    ensures !a.Starve? ==> Step(c, s, a).fatal == s.fatal
  {
    StepThreads(c, s, a);
    hide Inv, ThreadsOk, NamespaceStep, AllocStep, FetchStep, ReadStep, DeleteStep;
    if s.fatal.None? {
      if a.Create? || a.Open? || a.Release? || a.Unlink? || a.Evict? {
        NamespaceInv(c, s, a);
      } else if a.PopFree? || a.PopClean? || a.Block? || a.Starve? || a.Return? {
        AllocInv(c, s, a);
      } else if a.FetchBegin? || a.FetchRead? || a.FetchStore? || a.FetchStored? || a.FetchFinish? {
        FetchInv(c, s, a);
      } else if a.StartDelete? || a.DeletePass? {
        DeleteInv(c, s, a);
      } else {
        ReadInv(c, s, a);
      }
    }
  }

  lemma {:induction false} RunInv(c: Config, s: State, run: seq<Action>)
    requires Inv(c, s) && ThreadsOk(s)
    ensures Inv(c, Exec(c, s, run)) && ThreadsOk(Exec(c, s, run))
    decreases |run|
  {
    assert c.lineSize > 0;
    hide Inv, ThreadsOk, Step;
    if run != [] {
      StepInv(c, s, run[0]);
      RunInv(c, Step(c, s, run[0]), run[1..]);
    }
  }
}
