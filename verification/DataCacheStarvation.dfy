/**
 When the allocator's "no Inbound line to wait for" Fatalf can be reached.

 A reader keeps the slots it has popped while it waits for more, and while it
 is between the allocator's return and taking the lock again. With R reads in
 that stretch at once, the Fatalf is reachable exactly when R reads can ask for
 more lines than there are.
 */
module DataCacheStarvation {
  import opened Arithmetic
  import opened Collections
  import opened DataCache
  import opened DataCacheDeletes
  import opened DataCacheInvariant
  import opened DataCacheReads

  predicate Allocates(pc: Pc) {
    pc.Alloc? || pc.AllocWait? || pc.Got? || pc.Filling?
  }

  ghost function Allocating(s: State): set<Tid> {
    set t | t in s.readers && Allocates(s.readers[t].pc)
  }

  /** At most `width` reads are allocating in any state of the run. */
  ghost predicate Narrow(c: Config, s: State, run: seq<Action>, width: nat)
    requires c.lineSize > 0
    decreases |run|
  {
    |Allocating(s)| <= width && (run != [] ==> Narrow(c, Step(c, s, run[0]), run[1..], width))
  }

  // -------- Few enough reads never starve --------

  ghost function OwnedBy(slots: Slots, ts: set<Tid>): set<nat> {
    set p: nat | p < |slots| && slots[p].place.Held? && slots[p].place.owner in ts
  }

  ghost function Below(n: nat): (r: set<nat>)
    ensures |r| == n
    ensures forall p: nat :: p in r <==> p < n
  {
    if n == 0 then {} else Below(n - 1) + {n - 1}
  }

  lemma {:induction false} ElementsSize(held: seq<nat>, ps: set<nat>)
    requires forall p :: p in ps ==> p in held
    ensures |ps| <= |held|
  {
    if held == [] {
      assert ps == {};
    } else {
      var last := held[|held| - 1];
      ElementsSize(held[..|held| - 1], ps - {last});
      assert |ps| <= |ps - {last}| + 1;
    }
  }

  lemma OneMore(total: nat, others: nat, mine: nat, n: nat, ask: nat)
    requires total <= others + mine && others <= n * ask
    ensures mine <= ask ==> total <= (n + 1) * ask
    ensures mine < ask ==> total < (n + 1) * ask
  {
  }

  lemma OneHolds(s: State, t: Tid)
    requires HeldOk(s.slots, s.readers)
    ensures |OwnedBy(s.slots, {t})| <= if t in s.readers then |HeldBy(s.readers[t].pc)| else 0
  {
    var mine := OwnedBy(s.slots, {t});
    forall p | p in mine ensures t in s.readers && p in HeldBy(s.readers[t].pc) {
      assert Owned(s.readers, s.slots[p].place.owner, p);
    }
    if t in s.readers {
      ElementsSize(HeldBy(s.readers[t].pc), mine);
    } else {
      assert mine == {};
    }
  }

  lemma OwnedSplit(slots: Slots, ts: set<Tid>, t: Tid)
    requires t in ts
    ensures |OwnedBy(slots, ts)| <= |OwnedBy(slots, ts - {t})| + |OwnedBy(slots, {t})|
  {
    assert OwnedBy(slots, ts) == OwnedBy(slots, ts - {t}) + OwnedBy(slots, {t});
  }

  lemma NobodyOwns(slots: Slots)
    ensures OwnedBy(slots, {}) == {}
  {
  }

  lemma {:induction false} HeldBySize(s: State, ts: set<Tid>, ask: nat)
    requires HeldOk(s.slots, s.readers)
    requires forall t :: t in ts && t in s.readers ==> |HeldBy(s.readers[t].pc)| <= ask
    ensures |OwnedBy(s.slots, ts)| <= |ts| * ask
  {
    hide HeldOk, OwnedBy, HeldBy;
    if ts == {} {
      NobodyOwns(s.slots);
    } else {
      var t :| t in ts;
      HeldBySize(s, ts - {t}, ask);
      OneHolds(s, t);
      OwnedSplit(s.slots, ts, t);
      assert |ts - {t}| + 1 == |ts|;
      OneMore(|OwnedBy(s.slots, ts)|, |OwnedBy(s.slots, ts - {t})|, |OwnedBy(s.slots, {t})|, |ts - {t}|, ask);
    }
  }

  /** If all slots are popped, then the allocating readers own them all. */
  lemma AllPopped(s: State)
    requires HeldOk(s.slots, s.readers) && forall p :: 0 <= p < |s.slots| ==> s.slots[p].place.Held?
    ensures |OwnedBy(s.slots, Allocating(s))| == |s.slots|
  {
    forall p | p in Below(|s.slots|) ensures p in OwnedBy(s.slots, Allocating(s)) {
      assert Owned(s.readers, s.slots[p].place.owner, p);
    }
    assert OwnedBy(s.slots, Allocating(s)) == Below(|s.slots|);
  }

  lemma ShortOwnsLess(s: State, t: Tid, ask: nat)
    requires HeldOk(s.slots, s.readers) && t in Allocating(s) && |HeldBy(s.readers[t].pc)| < ask
    requires forall u :: u in Allocating(s) ==> |HeldBy(s.readers[u].pc)| <= ask
    ensures |OwnedBy(s.slots, Allocating(s))| < |Allocating(s)| * ask
  {
    hide HeldOk, OwnedBy;
    var all := Allocating(s);
    HeldBySize(s, all - {t}, ask);
    OneHolds(s, t);
    OwnedSplit(s.slots, all, t);
    assert |all - {t}| + 1 == |all|;
    OneMore(|OwnedBy(s.slots, all)|, |OwnedBy(s.slots, all - {t})|, |OwnedBy(s.slots, {t})|, |all - {t}|, ask);
  }

  /** A reader that is short, when all allocating reads together fit, has a slot to take or to wait for. */
  lemma NotStarved(c: Config, s: State, t: Tid)
    requires Inv(c, s) && t in s.readers && s.readers[t].pc.Alloc? && |s.readers[t].pc.held| < s.readers[t].pc.want
    requires |Allocating(s)| * MaxAsk(c) <= c.lines
    ensures Exists(s, Free) || Exists(s, Clean) || Exists(s, Inbound)
  {
    hide IndexOk, StoreOk, WaitersOk, ReadersOk, HeldOk;
    forall u | u in Allocating(s) ensures |HeldBy(s.readers[u].pc)| <= MaxAsk(c) {
      HoldsAtMost(c, s, u);
    }
    HoldsAtMost(c, s, t);
    ShortOwnsLess(s, t, MaxAsk(c));
    if forall p :: 0 <= p < |s.slots| ==> s.slots[p].place.Held? {
      AllPopped(s);
      assert false;
    }
    var p :| 0 <= p < |s.slots| && !s.slots[p].place.Held?;
    assert s.slots[p].place == Free || s.slots[p].place == Clean || s.slots[p].place == Inbound;
  }

  lemma HoldsAtMost(c: Config, s: State, t: Tid)
    requires Inv(c, s) && t in s.readers && Allocates(s.readers[t].pc)
    ensures |HeldBy(s.readers[t].pc)| <= MaxAsk(c)
    ensures s.readers[t].pc.Alloc? ==> s.readers[t].pc.want <= MaxAsk(c)
  {
    hide IndexOk, StoreOk, HeldOk, WaitersOk;
    ReaderIsOk(c, s, t);
  }

  lemma StarveHarmless(c: Config, s: State, t: Tid)
    requires Inv(c, s) && s.fatal == None && |Allocating(s)| * MaxAsk(c) <= c.lines
    ensures Step(c, s, Starve(t)).fatal == None
  {
    hide IndexOk, StoreOk, WaitersOk, ReadersOk, HeldOk;
    if t in s.readers && s.readers[t].pc.Alloc? && |s.readers[t].pc.held| < s.readers[t].pc.want {
      NotStarved(c, s, t);
    }
  }

  lemma {:induction false} NarrowRunsLive(c: Config, s: State, run: seq<Action>, width: nat)
    requires Inv(c, s) && ThreadsOk(s) && s.fatal == None && Narrow(c, s, run, width) && width * MaxAsk(c) <= c.lines
    ensures Exec(c, s, run).fatal == None
    decreases |run|
  {
    assert c.lineSize > 0 && c.lines > 0;
    hide Inv, ThreadsOk, Step, Allocating;
    if run != [] {
      var a := run[0];
      StepInv(c, s, a);
      Monotone(|Allocating(s)|, width, MaxAsk(c));
      if a.Starve? {
        StarveHarmless(c, s, a.t);
      }
      NarrowRunsLive(c, Step(c, s, a), run[1..], width);
    }
  }

  // -------- Too many reads can starve --------

  /** An object of `c.lines` lines. */
  function BigObject(c: Config): Bytes {
    seq(c.lines * c.lineSize, _ => 0)
  }

  lemma {:induction false} UnmappedAll(lo: nat, hi: nat)
    ensures |Unmapped(map[], lo, hi)| == if lo < hi then hi - lo else 0
    decreases hi - lo
  {
    if lo < hi {
      UnmappedAll(lo + 1, hi);
    }
  }

  lemma FullAsk(c: Config)
    requires c.lines > 0 && c.lineSize > 0
    ensures 1 + |Unmapped(map[], 1, 1 + PrefetchCount(c, |BigObject(c)|, 0))| == MaxAsk(c)
  {
    RoundUp(c.lines, c.lineSize);
    UnmappedAll(1, 1 + PrefetchCount(c, |BigObject(c)|, 0));
  }

  lemma RoundUp(lines: nat, size: nat)
    requires size > 0
    ensures (lines * size + size - 1) / size == lines
  {
    Quotient(lines * size + size - 1, size, lines, size - 1);
  }

  predicate AllocatesFor(a: Action, t: Tid) {
    (a.PopFree? || a.PopClean? || a.Block? || a.Starve? || a.Return?) && a.t == t
  }

  /** A reader in the middle of an allocator pass has the lock: nobody else acts until it returns or waits. */
  ghost predicate LockOk(s: State, a: Action) {
    forall t :: t in s.readers && s.readers[t].pc.Alloc? ==> AllocatesFor(a, t)
  }

  ghost predicate Locked(c: Config, s: State, run: seq<Action>)
    requires c.lineSize > 0
    decreases |run|
  {
    run == [] || (LockOk(s, run[0]) && Locked(c, Step(c, s, run[0]), run[1..]))
  }

  /** A run that the lock allows, with at most `width` reads allocating at once. */
  ghost predicate Schedule(c: Config, s: State, run: seq<Action>, width: nat)
    requires c.lineSize > 0
  {
    Narrow(c, s, run, width) && Locked(c, s, run)
  }

  ghost predicate OnlyAlloc(s: State, t: Tid) {
    forall u :: u in s.readers && s.readers[u].pc.Alloc? ==> u == t
  }

  ghost predicate NobodyAllocs(s: State) {
    forall u :: u in s.readers ==> !s.readers[u].pc.Alloc?
  }

  /** Readers 0 .. k-1 have popped the first m slots; the last of them is still in the allocator, the others returned from it. */
  ghost predicate Staged(c: Config, s: State, k: nat, m: nat, held: seq<nat>, ahead: seq<nat>) {
    && s.fatal == None && |s.slots| == c.lines && 0 < k && c.lines > 0
    && (forall p :: 0 <= p < |s.slots| ==> if p < m then s.slots[p].place.Held? else s.slots[p].place == Free)
    && s.readers.Keys <= Below(k) && s.inodes.Keys <= Below(k) && s.objects.Keys <= Below(k)
    && k - 1 in s.readers && s.readers[k - 1].pc == Alloc(MaxAsk(c), held, ahead)
    && |held| <= MaxAsk(c) && m == (k - 1) * MaxAsk(c) + |held| && m <= c.lines && OnlyAlloc(s, k - 1)
  }

  lemma FewAllocate(s: State, k: nat)
    requires s.readers.Keys <= Below(k)
    ensures |Allocating(s)| <= k
  {
    SubsetSize(Allocating(s), Below(k));
  }

  lemma MissesFromScratch(c: Config, s: State, k: nat) returns (ahead: seq<nat>)
    requires c.lineSize > 0 && c.lines > 0 && s.fatal == None
    requires k in s.readers && s.readers[k] == Reader(k, 0, 0, 1, [], Loop)
    requires k in s.inodes && s.inodes[k] == Inode(map[], 0, {0}, false)
    requires k in s.objects && s.objects[k] == BigObject(c)
    ensures Step(c, s, Look(k)) == Goto(s, k, Alloc(MaxAsk(c), [], ahead))
  {
    FullAsk(c);
    assert |BigObject(c)| == c.lines * c.lineSize > 0;
    assert 0 / c.lineSize == 0;
    ahead := Unmapped(map[], 1, 1 + PrefetchCount(c, |BigObject(c)|, 0));
  }

  /** Nothing numbered `k` or more has been seen. */
  ghost predicate Fresh(s: State, k: nat) {
    s.fatal == None && s.readers.Keys <= Below(k) && s.inodes.Keys <= Below(k) && s.objects.Keys <= Below(k)
  }

  lemma AdmitOpen(c: Config, s: State, k: nat) returns (s1: State, s2: State)
    requires c.lineSize > 0 && Fresh(s, k) && NobodyAllocs(s)
    ensures s1 == Step(c, s, Create(k, BigObject(c))) && s2 == Step(c, s1, Open(k, 0))
    ensures s1.readers == s.readers && s2.readers == s.readers && s2.slots == s.slots && s2.fatal == None
    ensures s2.inodes == s.inodes[k := Inode(map[], 0, {0}, false)] && s2.objects == s.objects[k := BigObject(c)]
  {
    s1 := Step(c, s, Create(k, BigObject(c)));
    assert s1 == s.(inodes := s.inodes[k := Inode(map[], 0, {}, false)], objects := s.objects[k := BigObject(c)]);
    s2 := Step(c, s1, Open(k, 0));
    assert s2 == s1.(inodes := s1.inodes[k := Inode(map[], 0, {0}, false)]);
  }

  lemma AdmitLook(c: Config, s: State, k: nat) returns (s1: State, s2: State, ahead: seq<nat>)
    requires c.lineSize > 0 && c.lines > 0 && s.fatal == None && k !in s.readers
    requires k in s.inodes && s.inodes[k] == Inode(map[], 0, {0}, false) && k in s.objects && s.objects[k] == BigObject(c)
    ensures s1 == Step(c, s, StartRead(k, k, 0, 0, 1)) && s1.readers == s.readers[k := Reader(k, 0, 0, 1, [], Loop)]
    ensures s2 == Step(c, s1, Look(k)) && s2 == s1.(readers := s2.readers)
    ensures s2.readers == s.readers[k := Reader(k, 0, 0, 1, [], Alloc(MaxAsk(c), [], ahead))]
    ensures s2.slots == s.slots && s2.inodes == s.inodes && s2.objects == s.objects && s2.fatal == None
  {
    s1 := Step(c, s, StartRead(k, k, 0, 0, 1));
    assert s1 == Put(s, k, Reader(k, 0, 0, 1, [], Loop));
    ahead := MissesFromScratch(c, s1, k);
    s2 := Step(c, s1, Look(k));
    assert s2.readers == s.readers[k := Reader(k, 0, 0, 1, [], Alloc(MaxAsk(c), [], ahead))];
  }

  /** Reader `k` comes along and misses; what follows from there follows from here. */
  lemma Admit(c: Config, s: State, k: nat, width: nat) returns (s4: State, ahead: seq<nat>, steps: seq<Action>)
    requires c.lineSize > 0 && c.lines > 0 && Fresh(s, k) && NobodyAllocs(s) && k + 1 <= width
    ensures Fresh(s4, k + 1) && s4.slots == s.slots && OnlyAlloc(s4, k)
    ensures k in s4.readers && s4.readers[k].pc == Alloc(MaxAsk(c), [], ahead)
    ensures forall rest :: Schedule(c, s4, rest, width) ==> Leads(c, s, steps + rest, s4, rest, width)
  {
    hide Step, Schedule, BigObject, LockOk, Exec;
    var s1, s2 := AdmitOpen(c, s, k);
    var s3;
    s3, s4, ahead := AdmitLook(c, s2, k);
    Quiet(s, k, Create(k, BigObject(c)));
    Quiet(s1, k, Open(k, 0));
    Quiet(s2, k, StartRead(k, k, 0, 0, 1));
    assert NobodyAllocs(s3);
    Quiet(s3, k, Look(k));
    steps := [Create(k, BigObject(c)), Open(k, 0), StartRead(k, k, 0, 0, 1), Look(k)];
    forall rest | Schedule(c, s4, rest, width) ensures Leads(c, s, steps + rest, s4, rest, width) {
      FourSteps(c, s, s1, s2, s3, s4, steps, rest, width);
    }
  }

  lemma Quiet(s: State, k: nat, a: Action)
    requires NobodyAllocs(s) && s.readers.Keys <= Below(k + 1)
    ensures LockOk(s, a) && |Allocating(s)| <= k + 1
  {
    FewAllocate(s, k + 1);
  }

  lemma FourSteps(c: Config, s: State, s1: State, s2: State, s3: State, s4: State, steps: seq<Action>, rest: seq<Action>, width: nat)
    requires c.lineSize > 0 && |steps| == 4 && Schedule(c, s4, rest, width)
    requires s1 == Step(c, s, steps[0]) && s2 == Step(c, s1, steps[1]) && s3 == Step(c, s2, steps[2]) && s4 == Step(c, s3, steps[3])
    requires LockOk(s, steps[0]) && LockOk(s1, steps[1]) && LockOk(s2, steps[2]) && LockOk(s3, steps[3])
    requires |Allocating(s)| <= width && |Allocating(s1)| <= width && |Allocating(s2)| <= width && |Allocating(s3)| <= width
    ensures Leads(c, s, steps + rest, s4, rest, width)
  {
    hide Step, Schedule, LockOk, Exec, Allocating;
    var run3 := [steps[3]] + rest;
    Prepend(c, s3, steps[3], rest, width);
    var run2 := [steps[2]] + run3;
    Prepend(c, s2, steps[2], run3, width);
    var run1 := [steps[1]] + run2;
    Prepend(c, s1, steps[1], run2, width);
    Prepend(c, s, steps[0], run1, width);
    assert steps + rest == [steps[0]] + run1;
  }

  /** `run` from `s` is a schedule that ends where `rest` from `s'` does. */
  ghost predicate Leads(c: Config, s: State, run: seq<Action>, s': State, rest: seq<Action>, width: nat)
    requires c.lineSize > 0
  {
    Schedule(c, s, run, width) && Exec(c, s, run) == Exec(c, s', rest)
  }

  /** From a staged state, some schedule with at most `width` allocating reads ends in the Fatalf. */
  lemma {:induction false} Drain(c: Config, s: State, k: nat, m: nat, held: seq<nat>, ahead: seq<nat>, width: nat) returns (run: seq<Action>)
    requires c.lineSize > 0 && Staged(c, s, k, m, held, ahead) && c.lines < width * MaxAsk(c) && k <= width
    ensures Schedule(c, s, run, width) && Exec(c, s, run).fatal == Some(NoInboundLine)
    decreases c.lines - m, if |held| == MaxAsk(c) then 1 else 0
  {
    hide Step, Schedule, Staged, Exec;
    StagedFacts(c, s, k, m, held, ahead);
    FewAllocate(s, k);
    if |held| == MaxAsk(c) {
      Monotone(width, k, MaxAsk(c));
      Returns(c, s, k, m, held, ahead);
      var s0 := Step(c, s, Return(k - 1));
      var s4, ahead', steps := Admit(c, s0, k, width);
      NextStaged(c, s, s4, k, m, held, ahead, ahead');
      var rest := Drain(c, s4, k + 1, m, [], ahead', width);
      run := [Return(k - 1)] + (steps + rest);
      Prepend(c, s, Return(k - 1), steps + rest, width);
    } else if m < c.lines {
      PopOne(c, s, k, m, held, ahead);
      var rest := Drain(c, Step(c, s, PopFree(k - 1, m)), k, m + 1, held + [m], ahead, width);
      run := [PopFree(k - 1, m)] + rest;
      Prepend(c, s, PopFree(k - 1, m), rest, width);
    } else {
      StarveNow(c, s, k, m, held, ahead);
      run := [Starve(k - 1)] + [];
      FewAllocate(Step(c, s, Starve(k - 1)), k);
      Nothing(c, Step(c, s, Starve(k - 1)), width);
      Prepend(c, s, Starve(k - 1), [], width);
    }
  }

  lemma StagedFacts(c: Config, s: State, k: nat, m: nat, held: seq<nat>, ahead: seq<nat>)
    requires Staged(c, s, k, m, held, ahead)
    ensures 0 < k && c.lines > 0 && |held| <= MaxAsk(c) && m <= c.lines && OnlyAlloc(s, k - 1) && s.readers.Keys <= Below(k)
    ensures |held| == MaxAsk(c) ==> m == k * MaxAsk(c)
  {
  }

  lemma NextStaged(c: Config, s: State, s4: State, k: nat, m: nat, held: seq<nat>, ahead: seq<nat>, ahead': seq<nat>)
    requires Staged(c, s, k, m, held, ahead) && |held| == MaxAsk(c) && Fresh(s4, k + 1) && s4.slots == s.slots && OnlyAlloc(s4, k)
    requires k in s4.readers && s4.readers[k].pc == Alloc(MaxAsk(c), [], ahead')
    ensures Staged(c, s4, k + 1, m, [], ahead')
  {
  }

  lemma Nothing(c: Config, s: State, width: nat)
    requires c.lineSize > 0 && |Allocating(s)| <= width
    ensures Schedule(c, s, [], width) && Exec(c, s, []) == s
  {
  }

  lemma Prepend(c: Config, s: State, a: Action, rest: seq<Action>, width: nat)
    requires c.lineSize > 0 && |Allocating(s)| <= width && LockOk(s, a) && Schedule(c, Step(c, s, a), rest, width)
    ensures Schedule(c, s, [a] + rest, width) && Exec(c, s, [a] + rest) == Exec(c, Step(c, s, a), rest)
  {
    hide Step, LockOk;
    assert ([a] + rest)[1..] == rest;
  }

  lemma PopOne(c: Config, s: State, k: nat, m: nat, held: seq<nat>, ahead: seq<nat>)
    requires c.lineSize > 0 && Staged(c, s, k, m, held, ahead) && |held| < MaxAsk(c) && m < c.lines
    ensures Staged(c, Step(c, s, PopFree(k - 1, m)), k, m + 1, held + [m], ahead)
  {
  }

  /** A reader that has all its lines leaves the allocator, and keeps them. */
  lemma Returns(c: Config, s: State, k: nat, m: nat, held: seq<nat>, ahead: seq<nat>)
    requires c.lineSize > 0 && Staged(c, s, k, m, held, ahead) && |held| == MaxAsk(c)
    ensures var s' := Step(c, s, Return(k - 1));
      s'.slots == s.slots && s'.readers.Keys == s.readers.Keys && Fresh(s', k) && NobodyAllocs(s')
  {
  }

  lemma StarveNow(c: Config, s: State, k: nat, m: nat, held: seq<nat>, ahead: seq<nat>)
    requires c.lineSize > 0 && Staged(c, s, k, m, held, ahead) && |held| < MaxAsk(c) && m == c.lines
    ensures Step(c, s, Starve(k - 1)) == Die(s, NoInboundLine)
  {
  }

  /**
   The allocator's Fatalf can be reached with at most `width` reads allocating at once
   exactly when that many reads can ask for more lines than there are.
   */
  lemma StarvationExactly(c: Config, width: nat)
    requires c.lineSize > 0 && c.lines > 0
    ensures (exists s0, run :: Init(c, s0) && Schedule(c, s0, run, width) && Exec(c, s0, run).fatal == Some(NoInboundLine))
      <==> c.lines < width * MaxAsk(c)
  {
    if c.lines < width * MaxAsk(c) {
      var s0 := State(seq(c.lines, _ => Slot(Free, 0, 0, 0, 0, false, {})), seq(c.lines, _ => seq(c.lineSize, _ => 0)), map[], map[], map[], map[], {}, None);
      var run := StarveFromScratch(c, s0, width);
    } else {
      forall s0, run | Init(c, s0) && Schedule(c, s0, run, width) ensures Exec(c, s0, run).fatal == None {
        InitInv(c, s0);
        NarrowRunsLive(c, s0, run, width);
      }
    }
  }

  lemma StarveFromScratch(c: Config, s0: State, width: nat) returns (run: seq<Action>)
    requires c.lineSize > 0 && c.lines > 0 && Init(c, s0) && c.lines < width * MaxAsk(c)
    ensures Schedule(c, s0, run, width) && Exec(c, s0, run).fatal == Some(NoInboundLine)
  {
    hide Schedule, Exec;
    Monotone(width, 0, MaxAsk(c));
    var s4, ahead, steps := Admit(c, s0, 0, width);
    var rest := Drain(c, s4, 1, 0, [], ahead, width);
    run := steps + rest;
  }
}
