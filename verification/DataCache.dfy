/**
 The data cache and the optimistic read path, as a transition system.

 A fixed pool of cache-line slots is shared by readers (DoRead), the fetch
 goroutines they start, the threads that delete unlinked files
 (finishPendingDelete), and evictions. Every
 section that runs under the global lock is one action; the byte copies that
 run without it (a fetch filling the arena, a reader copying out of it) are
 one action per byte. `Step` leaves the state alone when an action is not
 enabled, so "for every sequence of actions" is "in every interleaving".

 Where the code pops the head of an LRU, the action names any slot in that
 state: module `Lru` shows that a list holds exactly the slots in its state,
 and nothing below depends on which of them is oldest.
 */
module DataCache {
  import opened Collections
  import B = Bytes

  type Byte = B.byte
  type Bytes = seq<Byte>
  type Tid = nat

  datatype Config = Config(lines: nat, lineSize: nat, prefetch: nat)

  // -------- State --------

  /** Where a slot is: on one LRU, or popped and held by one allocator. */
  datatype Place = Free | Inbound | Clean | Held(owner: Tid)

  datatype Slot = Slot(place: Place, ino: nat, line: nat, len: nat, gen: nat, failed: bool, waiters: set<Tid>)

  datatype Inode = Inode(cacheMap: map<nat, nat>, inbound: nat, handles: set<nat>, pendingDelete: bool)

  /** A fetch goroutine, by how far it got. */
  datatype Fetch = Spawned | Reading(ino: nat, line: nat) | Storing(bytes: Bytes, done: nat) | Fetched(ok: bool)

  datatype Errno = OK | ENOENT | EBADF | EIO

  /** Where a thread of DoRead or finishPendingDelete is between two actions. */
  datatype Pc =
    | Loop
    | Alloc(want: nat, held: seq<nat>, ahead: seq<nat>)
    | AllocWait(want: nat, held: seq<nat>, ahead: seq<nat>, on: nat)
    | Got(held: seq<nat>, ahead: seq<nat>)
    | Filling(held: seq<nat>)             // only inside the locked section that assigns the slots
    | Wait(on: nat)
    | Copy(pos: nat, gen: nat, line: nat, start: nat, len: nat, buf: Bytes)
    | Done(errno: Errno)
    | Delete                              // about to take the lock, first or again
    | DeleteWait(on: nat)
    | Deleted

  /** A thread that deletes an inode reads nothing: it has no handle and no size. */
  datatype Reader = Reader(ino: nat, fh: nat, offset: nat, size: nat, data: Bytes, pc: Pc)

  /** The Fatalf calls and the missing-inode branches that the code can reach while serving reads. */
  datatype Fatal =
    | AllocMissingInode     // cache.go:389-393
    | NoInboundLine         // cache.go:420-424
    | FetchMissingInode     // cache.go:487-495 and 518-528
    | EvictNotClean         // fs.go:628-631
    | ReadOutOfRange        // fission.go:1289-1292
    | ReadBadState          // fission.go:1312-1315
    | NoLinesReturned       // fission.go:1226-1229
    | DeleteOutOfRange      // fs.go:1474-1477 and 1499-1502
    | DeleteMissingInode    // fs.go:1554-1558

  /** `objects` is what the backend stores for each inode number ever created; it never changes or shrinks. */
  datatype State = State(
    slots: seq<Slot>,
    mem: seq<Bytes>,
    inodes: map<nat, Inode>,
    objects: map<nat, Bytes>,
    fetches: map<nat, Fetch>,
    readers: map<Tid, Reader>,
    blocked: set<Tid>,
    fatal: Option<Fatal>)

  // -------- Lines --------

  /** The bytes of line `l` of an object, as every backend's readFile returns them. */
  function LineBytes(c: Config, obj: Bytes, l: nat): (r: Bytes)
    ensures |r| <= c.lineSize
  {
    var lo := Min(l * c.lineSize, |obj|);
    var hi := Min(l * c.lineSize + c.lineSize, |obj|);
    obj[lo..hi]
  }

  /** Lines lo, lo+1, .., hi-1 that are not mapped yet. */
  function Unmapped(cacheMap: map<nat, nat>, lo: nat, hi: nat): (r: seq<nat>)
    ensures |r| <= if lo < hi then hi - lo else 0
    ensures forall k :: 0 <= k < |r| ==> lo <= r[k] < hi && r[k] !in cacheMap
    decreases hi - lo
  {
    if lo >= hi then []
    else if lo in cacheMap then Unmapped(cacheMap, lo + 1, hi)
    else [lo] + Unmapped(cacheMap, lo + 1, hi)
  }

  ghost predicate Ascending(s: seq<nat>) {
    forall j, k :: 0 <= j < k < |s| ==> s[j] < s[k]
  }

  lemma {:induction false} UnmappedAscends(cacheMap: map<nat, nat>, lo: nat, hi: nat)
    ensures Ascending(Unmapped(cacheMap, lo, hi))
    decreases hi - lo
  {
    if lo < hi {
      UnmappedAscends(cacheMap, lo + 1, hi);
      var rest := Unmapped(cacheMap, lo + 1, hi);
      assert forall k :: 0 <= k < |rest| ==> lo < rest[k];
      assert Ascending([lo] + rest);
    }
  }

  /** Exactly the unmapped lines of the range, in order. */
  lemma {:induction false} UnmappedExactly(cacheMap: map<nat, nat>, lo: nat, hi: nat, l: nat)
    ensures l in Unmapped(cacheMap, lo, hi) <==> lo <= l < hi && l !in cacheMap
    ensures Ascending(Unmapped(cacheMap, lo, hi))
    decreases hi - lo
  {
    UnmappedAscends(cacheMap, lo, hi);
    if lo < hi {
      UnmappedExactly(cacheMap, lo + 1, hi, l);
    }
  }

  /** How many lines past `l` a miss on `l` may prefetch (fission.go:1139-1150). */
  function PrefetchCount(c: Config, size: nat, l: nat): nat
    requires c.lineSize > 0
  {
    var last := (size + c.lineSize - 1) / c.lineSize - 1;
    var n := if last >= l + c.prefetch then c.prefetch else if last < l then 0 else last - l;
    if n >= c.lines then if c.lines == 0 then 0 else c.lines - 1 else n
  }

  /** The most lines one miss can ask the allocator for. */
  function MaxAsk(c: Config): nat
    requires c.lines > 0
  {
    1 + Min(c.prefetch, c.lines - 1)
  }

  // -------- Building blocks of the actions --------

  function Put(s: State, t: Tid, r: Reader): State {
    s.(readers := s.readers[t := r])
  }

  function Goto(s: State, t: Tid, pc: Pc): State
    requires t in s.readers
  {
    Put(s, t, s.readers[t].(pc := pc))
  }

  function Die(s: State, why: Fatal): State {
    s.(fatal := Some(why))
  }

  function Freed(slot: Slot): Slot {
    Slot(Free, 0, 0, 0, slot.gen + 1, false, {})
  }

  /** `free` on every slot of a set. */
  function FreeAll(s: State, ps: set<nat>): State {
    s.(slots := seq(|s.slots|, p requires 0 <= p < |s.slots| => if p in ps then Freed(s.slots[p]) else s.slots[p]))
  }

  function HeldBy(pc: Pc): seq<nat> {
    match pc
    case Alloc(_, held, _) => held
    case AllocWait(_, held, _, _) => held
    case Got(held, _) => held
    case Filling(held) => held
    case _ => []
  }

  /** `releaseDataCacheLines` on everything the reader still holds, then move on. */
  function ReleaseThen(s: State, t: Tid, pc: Pc): State
    requires t in s.readers
  {
    Goto(FreeAll(s, set p | p in HeldBy(s.readers[t].pc)), t, pc)
  }

  function Unmap(s: State, i: nat, l: nat): State
    requires i in s.inodes
  {
    s.(inodes := s.inodes[i := s.inodes[i].(cacheMap := s.inodes[i].cacheMap - {l})])
  }

  /** Append `t` to the waiters of slot `p` and wait. */
  function WaitOn(s: State, t: Tid, p: nat, pc: Pc): State
    requires t in s.readers && p < |s.slots|
  {
    var s1 := s.(slots := s.slots[p := s.slots[p].(waiters := s.slots[p].waiters + {t})], blocked := s.blocked + {t});
    Goto(s1, t, pc)
  }

  /** Turn the first slot that `t` holds into the Inbound slot of line `l` of inode `i`, and start its fetch. */
  function Assign(s: State, t: Tid, i: nat, l: nat): State
    requires t in s.readers && s.readers[t].pc.Filling? && |s.readers[t].pc.held| > 0
    requires s.readers[t].pc.held[0] < |s.slots| && i in s.inodes
  {
    var held := s.readers[t].pc.held;
    var p := held[0];
    var node := s.inodes[i];
    var s1 := s.(
      slots := s.slots[p := Slot(Inbound, i, l, 0, s.slots[p].gen + 1, s.slots[p].failed, {})],
      inodes := s.inodes[i := node.(cacheMap := node.cacheMap[l := p], inbound := node.inbound + 1)],
      fetches := s.fetches[p := Spawned]);
    Goto(s1, t, Filling(held[1..]))
  }

  /** The prefetch loop: assign the remaining held slots to the lines of `ahead` that are still unmapped. */
  function AssignAhead(s: State, t: Tid, i: nat, ahead: seq<nat>): State
    decreases |ahead|
  {
    if t !in s.readers || i !in s.inodes || !s.readers[t].pc.Filling? then s
    else if |ahead| == 0 || |s.readers[t].pc.held| == 0 then s
    else if s.readers[t].pc.held[0] >= |s.slots| then s
    else if ahead[0] in s.inodes[i].cacheMap then AssignAhead(s, t, i, ahead[1..])
    else AssignAhead(Assign(s, t, i, ahead[0]), t, i, ahead[1..])
  }

  // -------- Actions --------

  datatype Action =
    | Create(i: nat, obj: Bytes)
    | Open(i: nat, fh: nat)
    | Release(i: nat, fh: nat)
    | Unlink(i: nat)
    | Evict(i: nat)
    | StartDelete(t: Tid, i: nat)
    | DeletePass(t: Tid, l: nat)
    | StartRead(t: Tid, i: nat, fh: nat, offset: nat, size: nat)
    | Look(t: Tid)
    | PopFree(t: Tid, p: nat)
    | PopClean(t: Tid, p: nat)
    | Block(t: Tid, p: nat)
    | Starve(t: Tid)
    | Return(t: Tid)
    | Wake(t: Tid)
    | Resume(t: Tid)
    | CopyByte(t: Tid)
    | Check(t: Tid)
    | FetchBegin(p: nat)
    | FetchRead(p: nat, ok: bool)
    | FetchStore(p: nat)
    | FetchStored(p: nat)
    | FetchFinish(p: nat)

  predicate Exists(s: State, place: Place) {
    exists p :: 0 <= p < |s.slots| && s.slots[p].place == place
  }

  /** fs.go:612-639 and 844-884: an idle inode loses its lines and goes away. */
  function DoEvict(s: State, i: nat): State
    requires i in s.inodes
  {
    var lines := s.inodes[i].cacheMap;
    if exists l :: l in lines && !(lines[l] < |s.slots| && s.slots[lines[l]].place == Clean) then Die(s, EvictNotClean)
    else
      var s1 := FreeAll(s, set l | l in lines :: lines[l]);
      s1.(inodes := s1.inodes - {i})
  }

  /** The locked section at the top of DoRead's loop (fission.go:1071-1378). */
  function DoLook(c: Config, s: State, t: Tid): State
    requires c.lineSize > 0 && t in s.readers && s.readers[t].ino in s.objects
  {
    var r := s.readers[t];
    var cur := r.offset + |r.data|;
    if |r.data| >= r.size then Goto(s, t, Done(OK))
    else if r.ino !in s.inodes then Goto(s, t, Done(ENOENT))
    else if r.fh !in s.inodes[r.ino].handles then Goto(s, t, Done(EBADF))
    else if cur >= |s.objects[r.ino]| then Goto(s, t, Done(OK))
    else
      var l := cur / c.lineSize;
      var lines := s.inodes[r.ino].cacheMap;
      if l !in lines then
        var n := PrefetchCount(c, |s.objects[r.ino]|, l);
        var ahead := Unmapped(lines, l + 1, l + 1 + n);
        Goto(s, t, Alloc(1 + |ahead|, [], ahead))
      else
        var p := lines[l];
        if p >= |s.slots| then Die(s, ReadOutOfRange)
        else if s.slots[p].place == Inbound then WaitOn(s, t, p, Wait(p))
        else if s.slots[p].place != Clean then Die(s, ReadBadState)
        else if s.slots[p].failed then Goto(FreeAll(Unmap(s, r.ino, l), {p}), t, Done(EIO))
        else
          var start := cur - l * c.lineSize;
          var limit := Min(Min(start + (r.size - |r.data|), c.lineSize), s.slots[p].len);
          if limit <= start then Goto(s, t, Done(OK))
          else Goto(s, t, Copy(p, s.slots[p].gen, l, start, limit - start, []))
  }

  /** The locked section after the allocator returned (fission.go:1163-1284). */
  function DoResume(c: Config, s: State, t: Tid): State
    requires c.lineSize > 0 && t in s.readers && s.readers[t].ino in s.objects && s.readers[t].pc.Got?
    requires forall k :: 0 <= k < |s.readers[t].pc.held| ==> s.readers[t].pc.held[k] < |s.slots|
  {
    var r := s.readers[t];
    var Got(held, ahead) := r.pc;
    var cur := r.offset + |r.data|;
    if r.ino !in s.inodes then ReleaseThen(s, t, Done(ENOENT))
    else if r.fh !in s.inodes[r.ino].handles then ReleaseThen(s, t, Done(EBADF))
    else if cur >= |s.objects[r.ino]| then ReleaseThen(s, t, Done(OK))
    else
      var l := cur / c.lineSize;
      if l in s.inodes[r.ino].cacheMap then ReleaseThen(s, t, Loop)
      else if |held| == 0 then Die(s, NoLinesReturned)
      else
        var s1 := AssignAhead(Assign(Goto(s, t, Filling(held)), t, r.ino, l), t, r.ino, ahead);
        if t !in s1.readers || held[0] >= |s1.slots| then s1
        else WaitOn(ReleaseThen(s1, t, Loop), t, held[0], Wait(held[0]))
  }

  /** The locked section that ends a fetch (cache.go:517-563). */
  function DoFetchFinish(s: State, p: nat): State
    requires p < |s.slots| && p in s.fetches && s.fetches[p].Fetched?
  {
    var slot := s.slots[p];
    if slot.ino !in s.inodes then Die(s, FetchMissingInode)
    else
      var node := s.inodes[slot.ino];
      var ok := s.fetches[p].ok;
      s.(
        inodes := s.inodes[slot.ino := node.(inbound := if node.inbound == 0 then 0 else node.inbound - 1)],
        slots := s.slots[p := slot.(place := Clean, gen := slot.gen + 1, len := if ok then slot.len else 0, failed := !ok, waiters := {})],
        fetches := s.fetches - {p},
        blocked := s.blocked - slot.waiters)
  }

  predicate Deletes(pc: Pc) {
    pc.Delete? || pc.DeleteWait?
  }

  function CleanLines(slots: seq<Slot>, lines: map<nat, nat>): set<nat> {
    set l | l in lines && lines[l] < |slots| && slots[lines[l]].place == Clean
  }

  /** The first loop of finishPendingDelete: every Clean line of the inode is unmapped and freed. */
  function DropClean(s: State, i: nat): State
    requires i in s.inodes
  {
    var lines := s.inodes[i].cacheMap;
    var clean := CleanLines(s.slots, lines);
    var s1 := FreeAll(s, set l | l in clean :: lines[l]);
    s1.(inodes := s1.inodes[i := s1.inodes[i].(cacheMap := lines - clean)])
  }

  /**
   The locked section of finishPendingDelete (fs.go:1469-1563): drop the Clean lines, then wait
   for one that is left (map order decides which: `l`) and start over, or remove the inode.
   */
  function DoDelete(s: State, t: Tid, l: nat): State
    requires t in s.readers
  {
    var i := s.readers[t].ino;
    if i !in s.inodes then Die(s, DeleteMissingInode)
    else if exists m :: m in s.inodes[i].cacheMap && s.inodes[i].cacheMap[m] >= |s.slots| then Die(s, DeleteOutOfRange)
    else
      var s1 := DropClean(s, i);
      var left := s1.inodes[i].cacheMap;
      if left == map[] then Goto(s1.(inodes := s1.inodes - {i}), t, Deleted)
      else if l !in left || left[l] >= |s1.slots| then s
      else WaitOn(s1, t, left[l], DeleteWait(left[l]))
  }

  /** finishPendingDelete is called once for an inode: when it is unlinked and has no handle (any more). */
  function DeleteStep(s: State, a: Action): State
    requires a.StartDelete? || a.DeletePass?
  {
    match a
    case StartDelete(t, i) =>
      if t in s.readers || i !in s.inodes || !s.inodes[i].pendingDelete || s.inodes[i].handles != {} then s
      else if exists u :: u in s.readers && Deletes(s.readers[u].pc) && s.readers[u].ino == i then s
      else Put(s, t, Reader(i, 0, 0, 0, [], Delete))
    case DeletePass(t, l) =>
      if t !in s.readers || !s.readers[t].pc.Delete? then s else DoDelete(s, t, l)
  }

  function Woken(pc: Pc): Pc {
    match pc
    case DeleteWait(_) => Delete
    case AllocWait(want, held, ahead, _) => Alloc(want, held, ahead)
    case Wait(_) => Loop
    case _ => pc
  }

  function NamespaceStep(s: State, a: Action): State
    requires a.Create? || a.Open? || a.Release? || a.Unlink? || a.Evict?
  {
    match a
    case Create(i, obj) =>
      if i in s.objects then s
      else s.(inodes := s.inodes[i := Inode(map[], 0, {}, false)], objects := s.objects[i := obj])
    case Open(i, fh) =>
      if i !in s.inodes || s.inodes[i].pendingDelete then s
      else s.(inodes := s.inodes[i := s.inodes[i].(handles := s.inodes[i].handles + {fh})])
    case Release(i, fh) =>
      if i !in s.inodes then s
      else s.(inodes := s.inodes[i := s.inodes[i].(handles := s.inodes[i].handles - {fh})])
    case Unlink(i) =>
      if i !in s.inodes then s
      else s.(inodes := s.inodes[i := s.inodes[i].(pendingDelete := true)])
    case Evict(i) =>
      if i !in s.inodes || s.inodes[i].pendingDelete || s.inodes[i].handles != {} || s.inodes[i].inbound != 0 then s
      else DoEvict(s, i)
  }

  function AllocStep(s: State, a: Action): State
    requires a.PopFree? || a.PopClean? || a.Block? || a.Starve? || a.Return?
  {
    if a.t !in s.readers || !s.readers[a.t].pc.Alloc? then s
    else
      var t := a.t;
      var Alloc(want, held, ahead) := s.readers[t].pc;
      var short := |held| < want;
      match a
      case PopFree(_, p) =>
        if !short || p >= |s.slots| || s.slots[p].place != Free then s
        else Goto(s.(slots := s.slots[p := s.slots[p].(place := Held(t))]), t, Alloc(want, held + [p], ahead))
      case PopClean(_, p) =>
        if !short || p >= |s.slots| || s.slots[p].place != Clean || Exists(s, Free) then s
        else if s.slots[p].ino !in s.inodes then Die(s, AllocMissingInode)
        else
          var s1 := Unmap(s, s.slots[p].ino, s.slots[p].line);
          Goto(s1.(slots := s1.slots[p := s1.slots[p].(place := Held(t))]), t, Alloc(want, held + [p], ahead))
      case Block(_, p) =>
        if !short || p >= |s.slots| || s.slots[p].place != Inbound || Exists(s, Free) || Exists(s, Clean) then s
        else WaitOn(s, t, p, AllocWait(want, held, ahead, p))
      case Starve(_) =>
        if !short || Exists(s, Free) || Exists(s, Clean) || Exists(s, Inbound) then s
        else Die(s, NoInboundLine)
      case Return(_) =>
        if short then s else Goto(s, t, Got(held, ahead))
  }

  function ReadStep(c: Config, s: State, a: Action): State
    requires c.lineSize > 0
    requires a.StartRead? || a.Look? || a.Wake? || a.Resume? || a.CopyByte? || a.Check?
  {
    match a
    case StartRead(t, i, fh, offset, size) =>
      if t in s.readers || i !in s.objects then s
      else Put(s, t, Reader(i, fh, offset, size, [], Loop))
    case Look(t) =>
      if t !in s.readers || !s.readers[t].pc.Loop? || s.readers[t].ino !in s.objects then s else DoLook(c, s, t)
    case Wake(t) =>
      if t !in s.readers || t in s.blocked then s else Goto(s, t, Woken(s.readers[t].pc))
    case Resume(t) =>
      if t !in s.readers || !s.readers[t].pc.Got? || s.readers[t].ino !in s.objects then s
      else if exists k :: 0 <= k < |s.readers[t].pc.held| && s.readers[t].pc.held[k] >= |s.slots| then s
      else DoResume(c, s, t)
    case CopyByte(t) =>
      if t !in s.readers || !s.readers[t].pc.Copy? then s
      else
        var pc := s.readers[t].pc;
        var k := pc.start + |pc.buf|;
        if |pc.buf| >= pc.len || pc.pos >= |s.mem| || k >= |s.mem[pc.pos]| then s
        else Goto(s, t, pc.(buf := pc.buf + [s.mem[pc.pos][k]]))
    case Check(t) =>
      if t !in s.readers || !s.readers[t].pc.Copy? then s
      else
        var r := s.readers[t];
        if |r.pc.buf| < r.pc.len || r.pc.pos >= |s.slots| then s
        else if s.slots[r.pc.pos].gen != r.pc.gen then Goto(s, t, Loop)
        else Put(s, t, r.(data := r.data + r.pc.buf, pc := Loop))
  }

  function FetchStep(c: Config, s: State, a: Action): State
    requires a.FetchBegin? || a.FetchRead? || a.FetchStore? || a.FetchStored? || a.FetchFinish?
  {
    if a.p !in s.fetches || a.p >= |s.slots| || a.p >= |s.mem| then s
    else
      var p := a.p;
      var f := s.fetches[p];
      match a
      case FetchBegin(_) =>
        if !f.Spawned? then s
        else if s.slots[p].ino !in s.inodes then Die(s, FetchMissingInode)
        else s.(fetches := s.fetches[p := Reading(s.slots[p].ino, s.slots[p].line)])
      case FetchRead(_, ok) =>
        if !f.Reading? || f.ino !in s.objects then s
        else if ok then s.(fetches := s.fetches[p := Storing(LineBytes(c, s.objects[f.ino], f.line), 0)])
        else s.(fetches := s.fetches[p := Fetched(false)])
      case FetchStore(_) =>
        if !f.Storing? || f.done >= |f.bytes| || f.done >= |s.mem[p]| then s
        else s.(mem := s.mem[p := s.mem[p][f.done := f.bytes[f.done]]], fetches := s.fetches[p := Storing(f.bytes, f.done + 1)])
      case FetchStored(_) =>
        if !f.Storing? || f.done < |f.bytes| then s
        else s.(slots := s.slots[p := s.slots[p].(len := |f.bytes|)], fetches := s.fetches[p := Fetched(true)])
      case FetchFinish(_) =>
        if !f.Fetched? then s else DoFetchFinish(s, p)
  }

  function Step(c: Config, s: State, a: Action): State
    requires c.lineSize > 0
  {
    if s.fatal.Some? then s
    else if a.Create? || a.Open? || a.Release? || a.Unlink? || a.Evict? then NamespaceStep(s, a)
    else if a.PopFree? || a.PopClean? || a.Block? || a.Starve? || a.Return? then AllocStep(s, a)
    else if a.FetchBegin? || a.FetchRead? || a.FetchStore? || a.FetchStored? || a.FetchFinish? then FetchStep(c, s, a)
    else if a.StartDelete? || a.DeletePass? then DeleteStep(s, a)
    else ReadStep(c, s, a)
  }

  /** dataCacheUp: every slot Free, the arena holding arbitrary bytes. */
  predicate Init(c: Config, s: State) {
    && |s.slots| == c.lines && |s.mem| == c.lines
    && (forall p :: 0 <= p < c.lines ==> s.slots[p] == Slot(Free, 0, 0, 0, 0, false, {}))
    && (forall p :: 0 <= p < c.lines ==> |s.mem[p]| == c.lineSize)
    && s.inodes == map[] && s.objects == map[] && s.fetches == map[] && s.readers == map[]
    && s.blocked == {} && s.fatal == None
  }

  function Exec(c: Config, s: State, run: seq<Action>): State
    requires c.lineSize > 0
    decreases |run|
  {
    if run == [] then s else Exec(c, Step(c, s, run[0]), run[1..])
  }
}
