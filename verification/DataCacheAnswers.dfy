/**
 What becomes of a read. A cached line is served by the reader alone; a missed one is fetched,
 with the lines ahead of it; and an error says what happened.
 */
module DataCacheAnswers {
  import opened Collections
  import opened DataCache
  import opened DataCacheDeletes
  import opened DataCacheInvariant
  import opened DataCacheReads
  import opened DataCacheTheorems

  // -------- A line in the cache is served --------

  lemma {:induction false} ExecAppend(c: Config, s: State, a: seq<Action>, b: seq<Action>)
    requires c.lineSize > 0
    ensures Exec(c, s, a + b) == Exec(c, Exec(c, s, a), b)
    decreases |a|
  {
    hide Step;
    if a == [] {
      assert a + b == b;
    } else {
      assert (a + b)[0] == a[0] && (a + b)[1..] == a[1..] + b;
      ExecAppend(c, Step(c, s, a[0]), a[1..], b);
    }
  }

  /** Line `l` of the reader's file is in slot `p`, fetched without an error. */
  ghost predicate Cached(s: State, i: nat, l: nat, p: nat) {
    MappedAt(s.inodes, i, l, p) && p < |s.slots| && s.slots[p].place == Clean && !s.slots[p].failed
  }

  function Cur(r: Reader): nat {
    r.offset + |r.data|
  }

  /** Where a copy out of line `l` ends: at the end of what was asked for, of the line, or of the object. */
  function CopyEnd(c: Config, size: nat, r: Reader, l: nat): nat {
    Min(Min(r.offset + r.size, l * c.lineSize + c.lineSize), size)
  }

  function CopyRun(t: Tid, n: nat): seq<Action> {
    if n == 0 then [] else [CopyByte(t)] + CopyRun(t, n - 1)
  }

  /** The reader's copy, byte by byte, while nobody else acts. */
  lemma {:induction false} CopiesAll(c: Config, s: State, t: Tid, n: nat)
    requires c.lineSize > 0 && s.fatal == None && t in s.readers && s.readers[t].pc.Copy?
    requires var pc := s.readers[t].pc; |pc.buf| + n == pc.len && pc.pos < |s.mem| && pc.start + pc.len <= |s.mem[pc.pos]|
    requires var pc := s.readers[t].pc; pc.buf == s.mem[pc.pos][pc.start..pc.start + |pc.buf|]
    ensures var pc := s.readers[t].pc;
      Exec(c, s, CopyRun(t, n)) == Goto(s, t, pc.(buf := s.mem[pc.pos][pc.start..pc.start + pc.len]))
    decreases n
  {
    hide Step;
    var pc := s.readers[t].pc;
    if n == 0 {
      assert Goto(s, t, pc) == s;
    } else {
      var k := pc.start + |pc.buf|;
      var buf := pc.buf + [s.mem[pc.pos][k]];
      CopyOne(c, s, t);
      var s1 := Goto(s, t, pc.(buf := buf));
      assert buf == s.mem[pc.pos][pc.start..k + 1];
      CopiesAll(c, s1, t, n - 1);
      assert ([CopyByte(t)] + CopyRun(t, n - 1))[1..] == CopyRun(t, n - 1);
    }
  }

  lemma CopyOne(c: Config, s: State, t: Tid)
    requires c.lineSize > 0 && s.fatal == None && t in s.readers && s.readers[t].pc.Copy?
    requires var pc := s.readers[t].pc; |pc.buf| < pc.len && pc.pos < |s.mem| && pc.start + pc.len <= |s.mem[pc.pos]|
    ensures var pc := s.readers[t].pc;
      Step(c, s, CopyByte(t)) == Goto(s, t, pc.(buf := pc.buf + [s.mem[pc.pos][pc.start + |pc.buf|]]))
  {
  }

  lemma CheckOne(c: Config, s: State, t: Tid)
    requires c.lineSize > 0 && s.fatal == None && t in s.readers && s.readers[t].pc.Copy?
    requires var pc := s.readers[t].pc; |pc.buf| == pc.len && pc.pos < |s.slots| && s.slots[pc.pos].gen == pc.gen
    ensures var r := s.readers[t]; Step(c, s, Check(t)) == Put(s, t, r.(data := r.data + r.pc.buf, pc := Loop))
  {
  }

  /** The run in which `t` alone serves itself one line. */
  function ServeRun(t: Tid, n: nat): seq<Action> {
    [Look(t)] + (CopyRun(t, n) + [Check(t)])
  }

  /** The reader stands in line `l`, which is cached in slot `p`. */
  ghost predicate Hits(c: Config, s: State, t: Tid, l: nat, p: nat) {
    && t in s.readers && s.readers[t].pc == Loop && WantsMore(s, s.readers[t]) && c.lineSize > 0
    && l == Cur(s.readers[t]) / c.lineSize && Cached(s, s.readers[t].ino, l, p)
  }

  lemma HitLook(c: Config, s: State, t: Tid, l: nat, p: nat) returns (pc: Pc)
    requires Inv(c, s) && s.fatal == None && Hits(c, s, t, l, p)
    ensures var r := s.readers[t]; var end := CopyEnd(c, |s.objects[r.ino]|, r, l);
      && Cur(r) < end <= |s.objects[r.ino]| && p < |s.mem|
      && pc.Copy? && pc.pos == p && pc.gen == s.slots[p].gen && pc.buf == [] && pc.len == end - Cur(r)
      && pc.start + pc.len <= |s.mem[p]| && Step(c, s, Look(t)) == Goto(s, t, pc)
      && s.mem[p][pc.start..pc.start + pc.len] == s.objects[r.ino][Cur(r)..end]
  {
    hide IndexOk, StoreOk, HeldOk, WaitersOk, ReadersOk;
    var r := s.readers[t];
    HitFacts(c, s, r.ino, l);
    DivLine(Cur(r), c.lineSize);
    HitBytes(c, s.slots[p], s.mem[p], s.objects, r, l);
    var start := Cur(r) - l * c.lineSize;
    pc := Copy(p, s.slots[p].gen, l, start, CopyEnd(c, |s.objects[r.ino]|, r, l) - Cur(r), []);
    HitStep(c, s, t, l, p, start);
  }

  /** How much of the line there is, and what it holds. */
  lemma HitBytes(c: Config, slot: Slot, mem: Bytes, objects: Objects, r: Reader, l: nat)
    requires r.ino in objects && |r.data| < r.size && Cur(r) < |objects[r.ino]| && l * c.lineSize <= Cur(r) < l * c.lineSize + c.lineSize
    requires slot.ino == r.ino && slot.line == l && Holds(c, slot, mem, objects)
    ensures var obj := objects[r.ino]; var start, n := Cur(r) - l * c.lineSize, CopyEnd(c, |obj|, r, l) - Cur(r);
      && n > 0 && start + n <= slot.len <= |mem| && start + n == Min(Min(start + (r.size - |r.data|), c.lineSize), slot.len)
      && mem[start..start + n] == obj[Cur(r)..Cur(r) + n]
  {
    var obj := objects[r.ino];
    var start, n := Cur(r) - l * c.lineSize, CopyEnd(c, |obj|, r, l) - Cur(r);
    LineLength(c, obj, l);
    LineSlice(c, obj, l, start, n);
    hide LineBytes;
    assert mem[..slot.len] == mem[0..slot.len];
    SliceOfSlice(mem, 0, slot.len, start, n);
  }

  lemma LineLength(c: Config, obj: Bytes, l: nat)
    requires l * c.lineSize < |obj|
    ensures |LineBytes(c, obj, l)| == Min(l * c.lineSize + c.lineSize, |obj|) - l * c.lineSize
  {
  }

  lemma HitStep(c: Config, s: State, t: Tid, l: nat, p: nat, start: nat)
    requires s.fatal == None && Hits(c, s, t, l, p) && start == Cur(s.readers[t]) - l * c.lineSize
    ensures var r := s.readers[t]; var limit := Min(Min(start + (r.size - |r.data|), c.lineSize), s.slots[p].len);
      start < limit ==> Step(c, s, Look(t)) == Goto(s, t, Copy(p, s.slots[p].gen, l, start, limit - start, []))
  {
    hide Unmapped, PrefetchCount, FreeAll, Unmap, WaitOn;
    assert Step(c, s, Look(t)) == DoLook(c, s, t);
  }

  /** A reader whose line is cached takes it, alone, in one pass: as much as it wants and the line has. */
  lemma ServesLine(c: Config, s: State, t: Tid, l: nat, p: nat)
    requires Inv(c, s) && s.fatal == None && Hits(c, s, t, l, p)
    ensures var r := s.readers[t]; var end := CopyEnd(c, |s.objects[r.ino]|, r, l);
      && Cur(r) < end <= |s.objects[r.ino]|
      && Exec(c, s, ServeRun(t, end - Cur(r))) == Put(s, t, r.(data := r.data + s.objects[r.ino][Cur(r)..end]))
  {
    hide Inv, Step, Exec;
    var pc := HitLook(c, s, t, l, p);
    Serves(c, s, t, pc);
  }

  lemma Serves(c: Config, s: State, t: Tid, pc: Pc)
    requires c.lineSize > 0 && s.fatal == None && t in s.readers && s.readers[t].pc == Loop
    requires pc.Copy? && pc.buf == [] && pc.pos < |s.mem| && pc.pos < |s.slots| && pc.start + pc.len <= |s.mem[pc.pos]|
    requires pc.gen == s.slots[pc.pos].gen && Step(c, s, Look(t)) == Goto(s, t, pc)
    ensures var r := s.readers[t]; Exec(c, s, ServeRun(t, pc.len)) == Put(s, t, r.(data := r.data + s.mem[pc.pos][pc.start..pc.start + pc.len]))
  {
    hide Step;
    var buf := s.mem[pc.pos][pc.start..pc.start + pc.len];
    var s1, rest := Goto(s, t, pc), CopyRun(t, pc.len) + [Check(t)];
    assert ([Look(t)] + rest)[1..] == rest;
    CopiesAll(c, s1, t, pc.len);
    ExecAppend(c, s1, CopyRun(t, pc.len), [Check(t)]);
    var s2 := Goto(s1, t, pc.(buf := buf));
    CheckOne(c, s2, t);
    assert Exec(c, s2, [Check(t)]) == Step(c, s2, Check(t));
    assert s.readers[t].pc == Loop;
    assert Step(c, s2, Check(t)) == Put(s, t, s.readers[t].(data := s.readers[t].data + buf));
  }

  /** Every line that the rest of the read touches is cached. */
  ghost predicate AllCached(c: Config, s: State, r: Reader)
    requires c.lineSize > 0 && r.ino in s.objects
  {
    forall l: nat :: Cur(r) < l * c.lineSize + c.lineSize && l * c.lineSize < Min(r.offset + r.size, |s.objects[r.ino]|) ==> HasLine(s, r.ino, l)
  }

  ghost predicate HasLine(s: State, i: nat, l: nat) {
    exists p :: Cached(s, i, l, p)
  }

  /** A read of an open file whose lines are cached is answered in full, by its own steps alone. */
  lemma {:induction false} ServesAll(c: Config, s: State, t: Tid) returns (run: seq<Action>)
    requires Inv(c, s) && ThreadsOk(s) && s.fatal == None && t in s.readers && s.readers[t].pc == Loop
    requires s.readers[t].ino in s.inodes && s.readers[t].ino in s.objects && s.readers[t].fh in s.inodes[s.readers[t].ino].handles
    requires AllCached(c, s, s.readers[t])
    ensures forall a :: a in run ==> (a.Look? || a.CopyByte? || a.Check?) && a.t == t
    ensures var r := s.readers[t];
      Exec(c, s, run) == Put(s, t, r.(data := Wanted(s.objects[r.ino], r.offset, r.size), pc := Done(OK)))
    decreases s.readers[t].size - |s.readers[t].data|
  {
    hide Inv, ThreadsOk, Step, Exec, AllCached, Hits, Wanted, CopyEnd, ServeRun, ReaderOk;
    LoopFacts(c, s, t);
    var r := s.readers[t];
    if !WantsMore(s, r) {
      run := [Look(t)];
      EndOfRead(c, s, t);
    } else {
      var l, p := CurrentLine(c, s, t);
      ServesLine(c, s, t, l, p);
      var end := CopyEnd(c, |s.objects[r.ino]|, r, l);
      var first, r' := ServeRun(t, end - Cur(r)), r.(data := r.data + s.objects[r.ino][Cur(r)..end]);
      RunInv(c, s, first);
      StillCached(c, s, Put(s, t, r'), r, r');
      var rest := ServesAll(c, Put(s, t, r'), t);
      run := first + rest;
      ExecAppend(c, s, first, rest);
      OwnSteps(t, end - Cur(r));
      assert Put(Put(s, t, r'), t, r'.(data := Wanted(s.objects[r.ino], r.offset, r.size), pc := Done(OK)))
        == Put(s, t, r.(data := Wanted(s.objects[r.ino], r.offset, r.size), pc := Done(OK)));
    }
  }

  /** In any state that a run can reach: such a read is answered, whatever came before. */
  lemma CachedReadsAreAnswered(c: Config, s0: State, run: seq<Action>, t: Tid) returns (more: seq<Action>)
    requires Start(c, s0)
    requires var s := Exec(c, s0, run);
      && s.fatal == None && t in s.readers && s.readers[t].pc == Loop && s.readers[t].ino in s.inodes && s.readers[t].ino in s.objects
      && s.readers[t].fh in s.inodes[s.readers[t].ino].handles && AllCached(c, s, s.readers[t])
    ensures forall a :: a in more ==> (a.Look? || a.CopyByte? || a.Check?) && a.t == t
    ensures var s := Exec(c, s0, run); var r := s.readers[t];
      Exec(c, s0, run + more) == Put(s, t, r.(data := Wanted(s.objects[r.ino], r.offset, r.size), pc := Done(OK)))
  {
    hide Inv, ThreadsOk, AllCached, Exec;
    Reached(c, s0, run);
    more := ServesAll(c, Exec(c, s0, run), t);
    ExecAppend(c, s0, run, more);
  }

  lemma EndOfRead(c: Config, s: State, t: Tid)
    requires Inv(c, s) && s.fatal == None && t in s.readers && s.readers[t].pc == Loop
    requires s.readers[t].ino in s.inodes && s.readers[t].ino in s.objects && s.readers[t].fh in s.inodes[s.readers[t].ino].handles
    requires !WantsMore(s, s.readers[t])
    ensures var r := s.readers[t]; Exec(c, s, [Look(t)]) == Put(s, t, r.(data := Wanted(s.objects[r.ino], r.offset, r.size), pc := Done(OK)))
  {
    hide IndexOk, StoreOk, HeldOk, WaitersOk, ReadersOk;
    ReaderIsOk(c, s, t);
    Finished(s.objects, s.readers[t]);
    assert Exec(c, s, [Look(t)]) == Step(c, s, Look(t));
  }

  lemma CurrentLine(c: Config, s: State, t: Tid) returns (l: nat, p: nat)
    requires c.lineSize > 0 && t in s.readers && s.readers[t].pc == Loop && WantsMore(s, s.readers[t]) && AllCached(c, s, s.readers[t])
    ensures Hits(c, s, t, l, p)
  {
    var r := s.readers[t];
    l := Cur(r) / c.lineSize;
    DivLine(Cur(r), c.lineSize);
    assert HasLine(s, r.ino, l);
    p :| Cached(s, r.ino, l, p);
  }

  lemma StillCached(c: Config, s: State, s': State, r: Reader, r': Reader)
    requires c.lineSize > 0 && r.ino in s.objects && AllCached(c, s, r) && s'.slots == s.slots && s'.inodes == s.inodes && s'.objects == s.objects
    requires r'.ino == r.ino && r'.offset == r.offset && r'.size == r.size && |r.data| <= |r'.data|
    ensures AllCached(c, s', r')
  {
    forall l: nat | Cur(r') < l * c.lineSize + c.lineSize && l * c.lineSize < Min(r'.offset + r'.size, |s'.objects[r'.ino]|)
      ensures HasLine(s', r'.ino, l)
    {
      assert HasLine(s, r.ino, l);
      var p :| Cached(s, r.ino, l, p);
      assert Cached(s', r'.ino, l, p);
    }
  }

  lemma {:induction false} OwnSteps(t: Tid, n: nat)
    ensures forall a :: a in CopyRun(t, n) ==> a == CopyByte(t)
    ensures forall a :: a in ServeRun(t, n) ==> (a.Look? || a.CopyByte? || a.Check?) && a.t == t
    decreases n
  {
    if n > 0 {
      OwnSteps(t, n - 1);
    }
  }

  // -------- A line that is missed is fetched, and those ahead of it --------

  /** A miss asks for its line and for exactly the unmapped lines in reach, up to the object's last. */
  lemma MissLook(c: Config, s: State, t: Tid, l: nat) returns (ahead: seq<nat>)
    requires Inv(c, s) && s.fatal == None && t in s.readers && s.readers[t].pc == Loop && WantsMore(s, s.readers[t])
    requires l == Cur(s.readers[t]) / c.lineSize && l !in s.inodes[s.readers[t].ino].cacheMap
    ensures Step(c, s, Look(t)) == Goto(s, t, Alloc(1 + |ahead|, [], ahead)) && Ascending(ahead)
    ensures var r := s.readers[t]; forall m :: m in ahead <==> InReach(c, |s.objects[r.ino]|, l, m) && m !in s.inodes[r.ino].cacheMap
  {
    hide Inv, Unmapped, PrefetchCount, ReaderOk;
    LoopFacts(c, s, t);
    var r := s.readers[t];
    MissAsks(c, s.inodes[r.ino].cacheMap, |s.objects[r.ino]|, l);
    ahead := Unmapped(s.inodes[r.ino].cacheMap, l + 1, l + 1 + PrefetchCount(c, |s.objects[r.ino]|, l));
    assert Step(c, s, Look(t)) == DoLook(c, s, t);
  }

  /** Line `m` of inode `i` is being fetched: its slot is Inbound, and a fetch of it was just started. */
  ghost predicate Fetching(s: State, i: nat, m: nat) {
    && i in s.inodes && m in s.inodes[i].cacheMap && s.inodes[i].cacheMap[m] < |s.slots|
    && var p := s.inodes[i].cacheMap[m];
       s.slots[p].place == Inbound && s.slots[p].ino == i && s.slots[p].line == m && p in s.fetches && s.fetches[p] == Spawned
  }

  /** All of `lines` are mapped; those that were not are being fetched; nothing else was mapped or unmapped. */
  ghost predicate Filled(s: State, s': State, i: nat, lines: set<nat>) {
    && i in s.inodes && i in s'.inodes && s'.inodes == s.inodes[i := s'.inodes[i]]
    && (forall m :: m in s.inodes[i].cacheMap ==> m in s'.inodes[i].cacheMap && s'.inodes[i].cacheMap[m] == s.inodes[i].cacheMap[m])
    && (forall m :: m in s'.inodes[i].cacheMap ==> m in s.inodes[i].cacheMap || (m in lines && Fetching(s', i, m)))
    && lines <= s'.inodes[i].cacheMap.Keys
  }

  /** What was being fetched still is. */
  ghost predicate FetchesGoOn(s: State, s': State) {
    |s'.slots| == |s.slots| && forall p :: p in s.fetches && p < |s.slots| ==> p in s'.fetches && s'.fetches[p] == s.fetches[p] && SameTags(s.slots[p], s'.slots[p])
  }

  lemma FillTrans(s: State, s1: State, s2: State, i: nat, a: set<nat>, b: set<nat>)
    requires Filled(s, s1, i, a) && Filled(s1, s2, i, b) && FetchesGoOn(s1, s2)
    ensures Filled(s, s2, i, a + b)
  {
    forall m | m in s2.inodes[i].cacheMap && m !in s.inodes[i].cacheMap ensures m in a + b && Fetching(s2, i, m) {
      if m in s1.inodes[i].cacheMap {
        assert Fetching(s1, i, m);
      }
    }
  }

  lemma GoOnTrans(s: State, s1: State, s2: State)
    requires FetchesGoOn(s, s1) && FetchesGoOn(s1, s2)
    ensures FetchesGoOn(s, s2)
  {
  }

  lemma AssignFills(s: State, t: Tid, i: nat, l: nat)
    requires t in s.readers && s.readers[t].pc.Filling? && |s.readers[t].pc.held| > 0
    requires s.readers[t].pc.held[0] < |s.slots| && i in s.inodes && l !in s.inodes[i].cacheMap && s.readers[t].pc.held[0] !in s.fetches
    ensures Filled(s, Assign(s, t, i, l), i, {l}) && FetchesGoOn(s, Assign(s, t, i, l))
  {
    assert Fetching(Assign(s, t, i, l), i, l);
  }

  /** A slot that a reader holds is not being fetched into. */
  lemma HeldIsQuiet(c: Config, s: State, t: Tid)
    requires Inv(c, s) && t in s.readers
    ensures forall p :: p in HeldBy(s.readers[t].pc) ==> p < |s.slots| && p !in s.fetches
  {
    hide IndexOk, WaitersOk, ReadersOk, FetchOk, Holds;
    assert Owns(s.slots, t, HeldBy(s.readers[t].pc));
  }

  lemma FilledFacts(s: State, s': State, i: nat, lines: set<nat>)
    requires Filled(s, s', i, lines)
    ensures i in s'.inodes
  {
  }

  lemma NothingFilled(s: State, i: nat)
    requires i in s.inodes
    ensures Filled(s, s, i, {}) && FetchesGoOn(s, s)
  {
  }

  ghost function Lines(ahead: seq<nat>): set<nat> {
    set m | m in ahead
  }

  lemma {:induction false} AheadFills(c: Config, s: State, t: Tid, i: nat, ahead: seq<nat>)
    requires Inv(c, s) && t in s.readers && s.readers[t].pc.Filling? && i in s.inodes && |ahead| <= |s.readers[t].pc.held|
    ensures var s' := AssignAhead(s, t, i, ahead); Filled(s, s', i, Lines(ahead)) && FetchesGoOn(s, s')
    decreases |ahead|
  {
    hide Inv, Filled, FetchesGoOn, Assign;
    NothingFilled(s, i);
    if |ahead| > 0 {
      var rest := Lines(ahead[1..]);
      assert Lines(ahead) == {ahead[0]} + rest;
      HeldIsQuiet(c, s, t);
      var p := s.readers[t].pc.held[0];
      assert p in HeldBy(s.readers[t].pc);
      if ahead[0] in s.inodes[i].cacheMap {
        AheadFills(c, s, t, i, ahead[1..]);
        AlreadyThere(s, AssignAhead(s, t, i, ahead[1..]), i, rest, ahead[0]);
      } else {
        AssignInv(c, s, t, i, ahead[0]);
        AssignFills(s, t, i, ahead[0]);
        var s1 := Assign(s, t, i, ahead[0]);
        Assigns(s, t, i, ahead[0]);
        AheadFills(c, s1, t, i, ahead[1..]);
        var s2 := AssignAhead(s1, t, i, ahead[1..]);
        FillTrans(s, s1, s2, i, {ahead[0]}, rest);
        GoOnTrans(s, s1, s2);
      }
    } else {
      assert Lines(ahead) == {};
    }
  }

  lemma Assigns(s: State, t: Tid, i: nat, l: nat)
    requires t in s.readers && s.readers[t].pc.Filling? && |s.readers[t].pc.held| > 0 && s.readers[t].pc.held[0] < |s.slots| && i in s.inodes
    ensures var s1 := Assign(s, t, i, l); t in s1.readers && i in s1.inodes && s1.readers[t].pc == Filling(s.readers[t].pc.held[1..])
  {
  }

  lemma AlreadyThere(s: State, s': State, i: nat, lines: set<nat>, m: nat)
    requires Filled(s, s', i, lines) && m in s.inodes[i].cacheMap
    ensures Filled(s, s', i, {m} + lines)
  {
  }

  /**
   After the allocator returned, to a reader that still misses line `l`: that line and all the lines
   ahead it asked slots for are mapped, the new ones are being fetched, and the reader waits for `l`.
   */
  lemma ResumeFills(c: Config, s: State, t: Tid, l: nat)
    requires Inv(c, s) && s.fatal == None && t in s.readers && s.readers[t].pc.Got?
    requires l == Cur(s.readers[t]) / c.lineSize && StillMisses(s, s.readers[t], l)
    ensures var r := s.readers[t]; var s' := Step(c, s, Resume(t));
      && Filled(s, s', r.ino, {l} + Lines(r.pc.ahead)) && Fetching(s', r.ino, l)
      && t in s'.readers && s'.readers[t].pc == Wait(s'.inodes[r.ino].cacheMap[l]) && t in s'.blocked
  {
    hide Inv, AssignAhead, Assign, GotOk, Filled, FetchesGoOn, Step;
    LoopFacts(c, s, t);
    GotFacts(c, s, t);
    var r := s.readers[t];
    var held, ahead := r.pc.held, r.pc.ahead;
    FillInv(c, s, t, l, held, ahead);
    var s1 := Assign(Goto(s, t, Filling(held)), t, r.ino, l);
    var s2 := AssignAhead(s1, t, r.ino, ahead);
    var s3 := WaitOn(ReleaseThen(s2, t, Loop), t, held[0], Wait(held[0]));
    ResumeIs(c, s, t, l);
    FirstFilled(c, s, t, l);
    AheadFills(c, s1, t, r.ino, ahead);
    FilledFacts(s1, s2, r.ino, Lines(ahead));
    WaitKeeps(c, s2, t, held[0], r.ino);
    GoOnTrans(s1, s2, s3);
    var lines := Lines(ahead);
    FillTrans(s1, s2, s3, r.ino, lines, {});
    assert lines + {} == lines;
    FillTrans(s, s1, s3, r.ino, {l}, lines);
    FetchingStays(s, s1, s3, r.ino, l, held[0], lines);
  }

  lemma ResumeIs(c: Config, s: State, t: Tid, l: nat)
    requires s.fatal == None && t in s.readers && s.readers[t].pc.Got? && GotOk(c, s, t)
    requires l == Cur(s.readers[t]) / c.lineSize && StillMisses(s, s.readers[t], l)
    ensures var r := s.readers[t];
      && |r.pc.held| > 0 && r.pc.held[0] < |s.slots|
      && var s2 := AssignAhead(Assign(Goto(s, t, Filling(r.pc.held)), t, r.ino, l), t, r.ino, r.pc.ahead);
         t in s2.readers && r.pc.held[0] < |s2.slots| ==>
           Step(c, s, Resume(t)) == WaitOn(ReleaseThen(s2, t, Loop), t, r.pc.held[0], Wait(r.pc.held[0]))
  {
    hide AssignAhead, Assign, ReleaseThen, WaitOn, AheadOk;
    assert Step(c, s, Resume(t)) == DoResume(c, s, t);
  }

  /** The missed line is assigned the first slot. */
  lemma FirstFilled(c: Config, s: State, t: Tid, l: nat)
    requires Inv(c, s) && t in s.readers && s.readers[t].pc.Got? && StillMisses(s, s.readers[t], l)
    requires |s.readers[t].pc.held| > 0 && s.readers[t].pc.held[0] < |s.slots|
    ensures var r := s.readers[t]; var s1 := Assign(Goto(s, t, Filling(r.pc.held)), t, r.ino, l);
      && Inv(c, s1) && r.ino in s1.inodes && Filled(s, s1, r.ino, {l}) && t in s1.readers && s1.readers[t].pc.Filling? && |r.pc.ahead| <= |s1.readers[t].pc.held|
      && s1.inodes[r.ino].cacheMap[l] == r.pc.held[0]
  {
    hide IndexOk, StoreOk, WaitersOk, ReadersOk, HeldOk;
    var r := s.readers[t];
    ReaderIsOk(c, s, t);
    NotBlocked(s, t);
    HeldIsQuiet(c, s, t);
    var s0 := Goto(s, t, Filling(r.pc.held));
    GotoInv(c, s, t, r.(pc := Filling(r.pc.held)));
    AssignInv(c, s0, t, r.ino, l);
    AssignFills(s0, t, r.ino, l);
  }

  /** Releasing what is left over and waiting disturbs no fetch. */
  lemma WaitKeeps(c: Config, s: State, t: Tid, p: nat, i: nat)
    requires Inv(c, s) && t in s.readers && p < |s.slots| && i in s.inodes
    ensures var s' := WaitOn(ReleaseThen(s, t, Loop), t, p, Wait(p));
      && FetchesGoOn(s, s') && Filled(s, s', i, {}) && t in s'.blocked && t in s'.readers && s'.readers[t].pc == Wait(p)
  {
    hide IndexOk, StoreOk, HeldOk, WaitersOk, ReadersOk;
    HeldIsQuiet(c, s, t);
  }

  lemma FetchingStays(s: State, s1: State, s3: State, i: nat, l: nat, p: nat, lines: set<nat>)
    requires Filled(s, s1, i, {l}) && FetchesGoOn(s1, s3) && Filled(s1, s3, i, lines) && l !in s.inodes[i].cacheMap && s1.inodes[i].cacheMap[l] == p
    ensures Fetching(s3, i, l) && s3.inodes[i].cacheMap[l] == p
  {
  }
}
