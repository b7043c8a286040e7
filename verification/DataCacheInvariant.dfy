/**
 What every action of the data cache keeps.

 `Inv` is a conjunction of facts, each stated over just the parts of the state
 it speaks of, so that an action need only be checked against the parts it
 changes.
 */
module DataCacheInvariant {
  import opened Collections
  import opened DataCache

  type Slots = seq<Slot>
  type Inodes = map<nat, Inode>
  type Objects = map<nat, Bytes>
  type Fetches = map<nat, Fetch>
  type Readers = map<Tid, Reader>

  predicate Resident(place: Place) {
    place == Inbound || place == Clean
  }

  ghost predicate Shape(c: Config, slots: Slots, mem: seq<Bytes>) {
    && |slots| == c.lines && |mem| == c.lines
    && (forall p :: 0 <= p < |mem| ==> |mem[p]| == c.lineSize)
  }

  // -------- cacheMap agrees with the tags of the slots --------

  ghost predicate LinesOk(slots: Slots, i: nat, cacheMap: map<nat, nat>) {
    forall l :: l in cacheMap ==>
      var p := cacheMap[l];
      p < |slots| && Resident(slots[p].place) && slots[p].ino == i && slots[p].line == l
  }

  ghost predicate MapsToSlots(inodes: Inodes, slots: Slots) {
    forall i :: i in inodes ==> LinesOk(slots, i, inodes[i].cacheMap)
  }

  ghost predicate MappedAt(inodes: Inodes, i: nat, l: nat, p: nat) {
    i in inodes && l in inodes[i].cacheMap && inodes[i].cacheMap[l] == p
  }

  ghost predicate SlotsAreMapped(inodes: Inodes, slots: Slots) {
    forall p :: 0 <= p < |slots| && Resident(slots[p].place) ==> MappedAt(inodes, slots[p].ino, slots[p].line, p)
  }

  ghost function InboundOf(slots: Slots, i: nat): set<nat> {
    set p: nat | p < |slots| && slots[p].place == Inbound && slots[p].ino == i
  }

  ghost predicate Counted(inodes: Inodes, slots: Slots) {
    forall i :: i in inodes ==> inodes[i].inbound == |InboundOf(slots, i)|
  }

  ghost predicate IndexOk(inodes: Inodes, slots: Slots) {
    MapsToSlots(inodes, slots) && SlotsAreMapped(inodes, slots) && Counted(inodes, slots)
  }

  // -------- fetches and stored bytes --------

  ghost predicate Holds(c: Config, slot: Slot, mem: Bytes, objects: Objects) {
    && slot.ino in objects
    && slot.len == |LineBytes(c, objects[slot.ino], slot.line)|
    && slot.len <= |mem|
    && mem[..slot.len] == LineBytes(c, objects[slot.ino], slot.line)
  }

  ghost predicate FetchOk(c: Config, slot: Slot, mem: Bytes, objects: Objects, f: Fetch) {
    && slot.ino in objects
    && match f
       case Spawned => true
       case Reading(i, l) => i == slot.ino && l == slot.line
       case Storing(bytes, done) =>
         && bytes == LineBytes(c, objects[slot.ino], slot.line)
         && done <= |bytes| <= |mem|
         && mem[..done] == bytes[..done]
       case Fetched(ok) => ok ==> Holds(c, slot, mem, objects)
  }

  ghost predicate StoreOk(c: Config, slots: Slots, mem: seq<Bytes>, objects: Objects, fetches: Fetches) {
    && |slots| == |mem|
    && (forall p :: p in fetches ==> p < |slots| && slots[p].place == Inbound && FetchOk(c, slots[p], mem[p], objects, fetches[p]))
    && (forall p :: 0 <= p < |slots| && slots[p].place == Inbound ==> p in fetches)
    && (forall p :: 0 <= p < |slots| && slots[p].place == Clean && !slots[p].failed ==> Holds(c, slots[p], mem[p], objects))
  }

  // -------- every popped slot is held by one reader --------

  ghost predicate Owns(slots: Slots, t: Tid, held: seq<nat>) {
    && Distinct(held)
    && (forall k :: 0 <= k < |held| ==> held[k] < |slots| && slots[held[k]].place == Held(t))
  }

  ghost predicate Owned(readers: Readers, t: Tid, p: nat) {
    t in readers && p in HeldBy(readers[t].pc)
  }

  ghost predicate HeldOk(slots: Slots, readers: Readers) {
    && (forall t :: t in readers ==> Owns(slots, t, HeldBy(readers[t].pc)))
    && (forall p :: 0 <= p < |slots| && slots[p].place.Held? ==> Owned(readers, slots[p].place.owner, p))
  }

  // -------- nobody waits for a wake-up that cannot come --------

  predicate Waits(pc: Pc) {
    pc.Wait? || pc.AllocWait? || pc.DeleteWait?
  }

  ghost predicate Parked(readers: Readers, t: Tid, p: nat) {
    t in readers && Waits(readers[t].pc) && readers[t].pc.on == p
  }

  ghost predicate Listed(slots: Slots, readers: Readers, t: Tid) {
    && t in readers && Waits(readers[t].pc)
    && readers[t].pc.on < |slots| && t in slots[readers[t].pc.on].waiters
  }

  ghost predicate WaitersAt(slot: Slot, p: nat, readers: Readers, blocked: set<Tid>) {
    forall t :: t in slot.waiters ==> slot.place == Inbound && t in blocked && Parked(readers, t, p)
  }

  ghost predicate WaitersOk(slots: Slots, readers: Readers, blocked: set<Tid>) {
    && (forall p :: 0 <= p < |slots| ==> WaitersAt(slots[p], p, readers, blocked))
    && (forall t :: t in blocked ==> Listed(slots, readers, t))
  }

  // -------- readers --------

  /** What `data` must be once the read is over: object[offset .. min(offset+size, |object|)]. */
  function Wanted(obj: Bytes, offset: nat, size: nat): Bytes {
    if offset >= |obj| then [] else obj[offset..Min(offset + size, |obj|)]
  }

  ghost predicate DataOk(objects: Objects, r: Reader) {
    && r.ino in objects
    && |r.data| <= r.size
    && (r.data != [] ==> r.offset + |r.data| <= |objects[r.ino]| && r.data == objects[r.ino][r.offset..r.offset + |r.data|])
  }

  predicate Quiet(place: Place) {
    place == Clean || place.Held?
  }

  /** While the generation is the snapshot's, the slot still holds the line the snapshot was taken of. */
  ghost predicate SnapshotOk(c: Config, slots: Slots, mem: seq<Bytes>, objects: Objects, r: Reader)
    requires r.pc.Copy? && r.ino in objects
  {
    var pc := r.pc;
    var bytes := LineBytes(c, objects[r.ino], pc.line);
    && pc.pos < |slots| == |mem|
    && pc.gen <= slots[pc.pos].gen
    && 0 < pc.len && |pc.buf| <= pc.len && pc.start + pc.len <= |bytes|
    && |r.data| + pc.len <= r.size
    && r.offset + |r.data| == pc.line * c.lineSize + pc.start
    && (slots[pc.pos].gen == pc.gen ==>
          && Quiet(slots[pc.pos].place)
          && slots[pc.pos].ino == r.ino && slots[pc.pos].line == pc.line
          && Holds(c, slots[pc.pos], mem[pc.pos], objects)
          && pc.buf == bytes[pc.start..pc.start + |pc.buf|])
  }

  /** Line `m` is one that a miss on line `l` may prefetch: in the object, and not too far ahead. */
  predicate InReach(c: Config, size: nat, l: nat, m: nat) {
    l < m <= l + c.prefetch && m < l + c.lines && m * c.lineSize < size
  }

  ghost predicate AheadOk(c: Config, objects: Objects, r: Reader, ahead: seq<nat>) {
    && c.lineSize > 0 && r.ino in objects
    && forall m :: m in ahead ==> InReach(c, |objects[r.ino]|, (r.offset + |r.data|) / c.lineSize, m)
  }

  ghost predicate ReaderOk(c: Config, slots: Slots, mem: seq<Bytes>, objects: Objects, r: Reader) {
    && DataOk(objects, r)
    && match r.pc
       case Alloc(want, held, ahead) => c.lines > 0 && |held| <= want <= MaxAsk(c) && want == 1 + |ahead| && AheadOk(c, objects, r, ahead)
       case AllocWait(want, held, ahead, _) => c.lines > 0 && |held| <= want <= MaxAsk(c) && want == 1 + |ahead| && AheadOk(c, objects, r, ahead)
       case Got(held, ahead) => c.lines > 0 && |held| == 1 + |ahead| <= MaxAsk(c) && AheadOk(c, objects, r, ahead)
       case Filling(held) => c.lines > 0 && |held| <= MaxAsk(c)
       case Copy(_, _, _, _, _, _) => SnapshotOk(c, slots, mem, objects, r)
       case Done(errno) => errno == OK ==> r.data == Wanted(objects[r.ino], r.offset, r.size)
       case _ => true
  }

  ghost predicate ReadersOk(c: Config, slots: Slots, mem: seq<Bytes>, objects: Objects, readers: Readers) {
    forall t :: t in readers ==> ReaderOk(c, slots, mem, objects, readers[t])
  }

  ghost predicate Inv(c: Config, s: State) {
    && c.lineSize > 0 && c.lines > 0
    && Shape(c, s.slots, s.mem)
    && s.inodes.Keys <= s.objects.Keys
    && IndexOk(s.inodes, s.slots)
    && StoreOk(c, s.slots, s.mem, s.objects, s.fetches)
    && HeldOk(s.slots, s.readers)
    && WaitersOk(s.slots, s.readers, s.blocked)
    && ReadersOk(c, s.slots, s.mem, s.objects, s.readers)
    && (s.fatal.Some? ==> s.fatal.value == NoInboundLine)
  }

  lemma InitInv(c: Config, s: State)
    requires c.lineSize > 0 && c.lines > 0 && Init(c, s)
    ensures Inv(c, s)
  {
  }

  // -------- What a change of slots leaves alone --------

  /** A slot with the same generation is the same line, and stays off the lists a fetch writes to. */
  ghost predicate Kept(slot: Slot, slot': Slot, mem: Bytes, mem': Bytes) {
    && slot.gen <= slot'.gen
    && (slot.gen == slot'.gen && Quiet(slot.place) ==>
          Quiet(slot'.place) && slot'.ino == slot.ino && slot'.line == slot.line && slot'.len == slot.len && mem' == mem)
  }

  lemma ReadersFrame(c: Config, slots: Slots, mem: seq<Bytes>, slots': Slots, mem': seq<Bytes>, objects: Objects, readers: Readers)
    requires |slots| == |mem| == |slots'| == |mem'|
    requires forall p :: 0 <= p < |slots| ==> Kept(slots[p], slots'[p], mem[p], mem'[p])
    requires ReadersOk(c, slots, mem, objects, readers)
    ensures ReadersOk(c, slots', mem', objects, readers)
  {
    forall t | t in readers ensures ReaderOk(c, slots', mem', objects, readers[t]) {
      var r := readers[t];
      assert ReaderOk(c, slots, mem, objects, r);
      if r.pc.Copy? {
        assert Kept(slots[r.pc.pos], slots'[r.pc.pos], mem[r.pc.pos], mem'[r.pc.pos]);
      }
    }
  }

  // -------- Creating, opening, closing, unlinking --------

  /** New objects change nothing for the slots and readers of the old ones. */
  lemma ObjectsGrow(c: Config, s: State, objects: Objects)
    requires Inv(c, s)
    requires forall i :: i in s.objects ==> i in objects && objects[i] == s.objects[i]
    ensures StoreOk(c, s.slots, s.mem, objects, s.fetches)
    ensures ReadersOk(c, s.slots, s.mem, objects, s.readers)
  {
    hide IndexOk, HeldOk, WaitersOk;
    forall p | p in s.fetches ensures FetchOk(c, s.slots[p], s.mem[p], objects, s.fetches[p]) {
      assert FetchOk(c, s.slots[p], s.mem[p], s.objects, s.fetches[p]);
    }
    forall t | t in s.readers ensures ReaderOk(c, s.slots, s.mem, objects, s.readers[t]) {
      assert ReaderOk(c, s.slots, s.mem, s.objects, s.readers[t]);
    }
  }

  lemma CreateIndex(inodes: Inodes, slots: Slots, i: nat)
    requires IndexOk(inodes, slots) && i !in inodes
    ensures IndexOk(inodes[i := Inode(map[], 0, {}, false)], slots)
  {
    assert InboundOf(slots, i) == {};
  }

  lemma CreateInv(c: Config, s: State, i: nat, obj: Bytes)
    requires Inv(c, s) && i !in s.objects
    ensures Inv(c, NamespaceStep(s, Create(i, obj)))
  {
    hide StoreOk, HeldOk, WaitersOk, ReadersOk;
    ObjectsGrow(c, s, s.objects[i := obj]);
    CreateIndex(s.inodes, s.slots, i);
  }

  lemma HandlesInv(c: Config, s: State, i: nat, node: Inode)
    requires Inv(c, s) && i in s.inodes
    requires node.cacheMap == s.inodes[i].cacheMap && node.inbound == s.inodes[i].inbound
    ensures Inv(c, s.(inodes := s.inodes[i := node]))
  {
  }

  // -------- Freeing slots --------

  ghost predicate FreedIn(slots: Slots, slots': Slots, ps: set<nat>) {
    && |slots'| == |slots|
    && (forall p :: 0 <= p < |slots| ==> slots'[p] == if p in ps then Freed(slots[p]) else slots[p])
  }

  lemma FreeStore(c: Config, slots: Slots, slots': Slots, ps: set<nat>, mem: seq<Bytes>, objects: Objects, fetches: Fetches)
    requires StoreOk(c, slots, mem, objects, fetches) && FreedIn(slots, slots', ps)
    requires forall p :: p in ps ==> p < |slots| && Quiet(slots[p].place)
    ensures StoreOk(c, slots', mem, objects, fetches)
  {
  }

  lemma FreeReaders(c: Config, s: State, slots': Slots, ps: set<nat>)
    requires |s.slots| == |s.mem| && FreedIn(s.slots, slots', ps)
    requires forall p :: p in ps ==> p < |s.slots| && Quiet(s.slots[p].place)
    requires WaitersOk(s.slots, s.readers, s.blocked) && ReadersOk(c, s.slots, s.mem, s.objects, s.readers)
    ensures WaitersOk(slots', s.readers, s.blocked)
    ensures ReadersOk(c, slots', s.mem, s.objects, s.readers)
  {
    ReadersFrame(c, s.slots, s.mem, slots', s.mem, s.objects, s.readers);
  }

  /** The slots of `ps`, and only those, are no longer resident. */
  ghost predicate DroppedIn(slots: Slots, slots': Slots, ps: set<nat>) {
    && |slots'| == |slots|
    && (forall p :: 0 <= p < |slots| ==> if p in ps then !Resident(slots'[p].place) else slots'[p] == slots[p])
  }

  ghost predicate Shrunk(cacheMap: map<nat, nat>, cacheMap': map<nat, nat>, ps: set<nat>) {
    forall l :: l in cacheMap' ==> l in cacheMap && cacheMap'[l] == cacheMap[l] && cacheMap[l] !in ps
  }

  /** An index from which the Clean slots of `ps`, and the lines that name them, are gone. */
  lemma DropIndex(inodes: Inodes, inodes': Inodes, slots: Slots, slots': Slots, ps: set<nat>)
    requires IndexOk(inodes, slots) && DroppedIn(slots, slots', ps)
    requires forall p :: p in ps ==> p < |slots| && slots[p].place == Clean
    requires forall i :: i in inodes' ==> i in inodes && inodes'[i].inbound == inodes[i].inbound
    requires forall i :: i in inodes' ==> Shrunk(inodes[i].cacheMap, inodes'[i].cacheMap, ps)
    requires forall i, l, p :: MappedAt(inodes, i, l, p) && p !in ps ==> MappedAt(inodes', i, l, p)
    ensures IndexOk(inodes', slots')
  {
    forall i ensures InboundOf(slots', i) == InboundOf(slots, i) {
    }
    forall i | i in inodes' ensures LinesOk(slots', i, inodes'[i].cacheMap) {
      assert LinesOk(slots, i, inodes[i].cacheMap);
    }
  }

  lemma FreeHeld(slots: Slots, slots': Slots, ps: set<nat>, readers: Readers)
    requires HeldOk(slots, readers) && FreedIn(slots, slots', ps)
    requires forall p :: p in ps ==> p < |slots| && slots[p].place == Clean
    ensures HeldOk(slots', readers)
  {
    forall t | t in readers ensures Owns(slots', t, HeldBy(readers[t].pc)) {
      assert Owns(slots, t, HeldBy(readers[t].pc));
    }
  }

  lemma FreeCleanInv(c: Config, s: State, inodes': Inodes, ps: set<nat>)
    requires Inv(c, s)
    requires forall p :: p in ps ==> p < |s.slots| && s.slots[p].place == Clean
    requires IndexOk(inodes', FreeAll(s, ps).slots) && inodes'.Keys <= s.inodes.Keys
    ensures Inv(c, FreeAll(s, ps).(inodes := inodes'))
  {
    hide IndexOk, StoreOk, HeldOk, WaitersOk, ReadersOk;
    var slots' := FreeAll(s, ps).slots;
    FreeStore(c, s.slots, slots', ps, s.mem, s.objects, s.fetches);
    FreeReaders(c, s, slots', ps);
    FreeHeld(s.slots, slots', ps, s.readers);
  }

  lemma UnmapIndex(s: State, i: nat, l: nat, slots': Slots)
    requires IndexOk(s.inodes, s.slots) && i in s.inodes && l in s.inodes[i].cacheMap
    requires s.slots[s.inodes[i].cacheMap[l]].place == Clean
    requires DroppedIn(s.slots, slots', {s.inodes[i].cacheMap[l]})
    ensures IndexOk(Unmap(s, i, l).inodes, slots')
  {
    var p := s.inodes[i].cacheMap[l];
    var inodes' := Unmap(s, i, l).inodes;
    forall j | j in inodes' ensures Shrunk(s.inodes[j].cacheMap, inodes'[j].cacheMap, {p}) {
      assert LinesOk(s.slots, j, s.inodes[j].cacheMap) && LinesOk(s.slots, i, s.inodes[i].cacheMap);
    }
    forall j, m, q | MappedAt(s.inodes, j, m, q) && q !in {p} ensures MappedAt(inodes', j, m, q) {
    }
    DropIndex(s.inodes, inodes', s.slots, slots', {p});
  }

  /** Freeing the Clean slot of line `l` of `i`. */
  lemma FreeLineInv(c: Config, s: State, i: nat, l: nat)
    requires Inv(c, s) && i in s.inodes && l in s.inodes[i].cacheMap
    requires s.slots[s.inodes[i].cacheMap[l]].place == Clean
    ensures Inv(c, FreeAll(Unmap(s, i, l), {s.inodes[i].cacheMap[l]}))
  {
    hide StoreOk, HeldOk, WaitersOk, ReadersOk;
    var p := s.inodes[i].cacheMap[l];
    UnmapIndex(s, i, l, FreeAll(s, {p}).slots);
    FreeCleanInv(c, s, Unmap(s, i, l).inodes, {p});
    assert FreeAll(Unmap(s, i, l), {p}) == FreeAll(s, {p}).(inodes := Unmap(s, i, l).inodes);
  }

  lemma NotInbound(inodes: Inodes, slots: Slots, i: nat, l: nat)
    requires IndexOk(inodes, slots) && i in inodes && inodes[i].inbound == 0 && l in inodes[i].cacheMap
    ensures inodes[i].cacheMap[l] < |slots| && slots[inodes[i].cacheMap[l]].place == Clean
  {
    assert inodes[i].cacheMap[l] !in InboundOf(slots, i);
  }

  ghost function SlotsOf(cacheMap: map<nat, nat>): set<nat> {
    set l | l in cacheMap :: cacheMap[l]
  }

  lemma EvictedAreClean(inodes: Inodes, slots: Slots, i: nat)
    requires IndexOk(inodes, slots) && i in inodes && inodes[i].inbound == 0
    ensures forall p :: p in SlotsOf(inodes[i].cacheMap) ==> p < |slots| && slots[p].place == Clean && slots[p].ino == i
  {
    var lines := inodes[i].cacheMap;
    forall l | l in lines ensures lines[l] < |slots| && slots[lines[l]].place == Clean && slots[lines[l]].ino == i {
      NotInbound(inodes, slots, i, l);
      assert LinesOk(slots, i, lines);
    }
  }

  lemma EvictIndex(s: State, i: nat)
    requires IndexOk(s.inodes, s.slots) && i in s.inodes && s.inodes[i].inbound == 0
    ensures IndexOk(s.inodes - {i}, FreeAll(s, SlotsOf(s.inodes[i].cacheMap)).slots)
  {
    hide IndexOk;
    var ps, inodes' := SlotsOf(s.inodes[i].cacheMap), s.inodes - {i};
    EvictedAreClean(s.inodes, s.slots, i);
    forall j | j in inodes' ensures Shrunk(s.inodes[j].cacheMap, inodes'[j].cacheMap, ps) {
      NotShared(s.inodes, s.slots, j, ps);
    }
    assert forall m, q :: MappedAt(s.inodes, i, m, q) ==> q in ps;
    DropIndex(s.inodes, inodes', s.slots, FreeAll(s, ps).slots, ps);
  }

  lemma NotShared(inodes: Inodes, slots: Slots, j: nat, ps: set<nat>)
    requires IndexOk(inodes, slots) && j in inodes
    requires forall p :: p in ps ==> p < |slots| && slots[p].ino != j
    ensures Shrunk(inodes[j].cacheMap, inodes[j].cacheMap, ps)
  {
    assert LinesOk(slots, j, inodes[j].cacheMap);
  }

  lemma EvictInv(c: Config, s: State, i: nat)
    requires Inv(c, s) && i in s.inodes && s.inodes[i].inbound == 0
    ensures Inv(c, DoEvict(s, i)) && DoEvict(s, i).fatal == s.fatal
  {
    hide IndexOk, StoreOk, HeldOk, WaitersOk, ReadersOk;
    EvictedAreClean(s.inodes, s.slots, i);
    EvictIndex(s, i);
    var ps := SlotsOf(s.inodes[i].cacheMap);
    assert forall l :: l in s.inodes[i].cacheMap ==> s.inodes[i].cacheMap[l] in ps;
    FreeCleanInv(c, s, s.inodes - {i}, ps);
  }

  lemma NamespaceInv(c: Config, s: State, a: Action)
    requires Inv(c, s)
    requires a.Create? || a.Open? || a.Release? || a.Unlink? || a.Evict?
    ensures Inv(c, NamespaceStep(s, a)) && NamespaceStep(s, a).fatal == s.fatal
  {
    match a
    case Create(i, obj) =>
      if i !in s.objects { CreateInv(c, s, i, obj); }
    case Open(i, fh) =>
      if i in s.inodes { HandlesInv(c, s, i, s.inodes[i].(handles := s.inodes[i].handles + {fh})); }
    case Release(i, fh) =>
      if i in s.inodes { HandlesInv(c, s, i, s.inodes[i].(handles := s.inodes[i].handles - {fh})); }
    case Unlink(i) =>
      if i in s.inodes { HandlesInv(c, s, i, s.inodes[i].(pendingDelete := true)); }
    case Evict(i) =>
      if NamespaceStep(s, a) != s { EvictInv(c, s, i); }
  }

  // -------- Moving a reader --------

  lemma ReaderIsOk(c: Config, s: State, t: Tid)
    requires ReadersOk(c, s.slots, s.mem, s.objects, s.readers) && t in s.readers
    ensures ReaderOk(c, s.slots, s.mem, s.objects, s.readers[t])
  {
  }

  lemma WaitersGoto(slots: Slots, readers: Readers, blocked: set<Tid>, t: Tid, r: Reader)
    requires WaitersOk(slots, readers, blocked) && t !in blocked
    ensures WaitersOk(slots, readers[t := r], blocked)
  {
    forall u | u in blocked ensures Listed(slots, readers[t := r], u) {
      assert Listed(slots, readers, u);
    }
    forall p | 0 <= p < |slots| ensures WaitersAt(slots[p], p, readers[t := r], blocked) {
      assert WaitersAt(slots[p], p, readers, blocked);
    }
  }

  lemma HeldGoto(slots: Slots, readers: Readers, t: Tid, r: Reader)
    requires HeldOk(slots, readers)
    requires Owns(slots, t, HeldBy(r.pc))
    requires t in readers ==> forall p :: p in HeldBy(readers[t].pc) ==> p in HeldBy(r.pc)
    ensures HeldOk(slots, readers[t := r])
  {
    var readers' := readers[t := r];
    forall u | u in readers' ensures Owns(slots, u, HeldBy(readers'[u].pc)) {
    }
    forall p | 0 <= p < |slots| && slots[p].place.Held? ensures Owned(readers', slots[p].place.owner, p) {
      assert Owned(readers, slots[p].place.owner, p);
    }
  }

  lemma ReadersGoto(c: Config, slots: Slots, mem: seq<Bytes>, objects: Objects, readers: Readers, t: Tid, r: Reader)
    requires ReadersOk(c, slots, mem, objects, readers) && ReaderOk(c, slots, mem, objects, r)
    ensures ReadersOk(c, slots, mem, objects, readers[t := r])
  {
  }

  lemma OwnsHeld(slots: Slots, readers: Readers, t: Tid)
    requires HeldOk(slots, readers) && t in readers
    ensures Owns(slots, t, HeldBy(readers[t].pc))
  {
  }

  /** A reader that is not waiting moves on, holding the same slots. */
  lemma GotoInv(c: Config, s: State, t: Tid, r: Reader)
    requires Inv(c, s) && t in s.readers && t !in s.blocked
    requires HeldBy(r.pc) == HeldBy(s.readers[t].pc) && ReaderOk(c, s.slots, s.mem, s.objects, r)
    ensures Inv(c, Put(s, t, r))
  {
    hide IndexOk, StoreOk, HeldOk, WaitersOk, ReadersOk;
    OwnsHeld(s.slots, s.readers, t);
    WaitersGoto(s.slots, s.readers, s.blocked, t, r);
    HeldGoto(s.slots, s.readers, t, r);
    ReadersGoto(c, s.slots, s.mem, s.objects, s.readers, t, r);
  }

  lemma NotBlocked(s: State, t: Tid)
    requires WaitersOk(s.slots, s.readers, s.blocked) && t in s.readers && !Waits(s.readers[t].pc)
    ensures t !in s.blocked
  {
    assert t in s.blocked ==> Listed(s.slots, s.readers, t);
  }

  // -------- The allocator --------

  /** `slots` with slot `p` popped off its list by `t`. */
  function Popped(slots: Slots, t: Tid, p: nat): Slots
    requires p < |slots|
  {
    slots[p := slots[p].(place := Held(t))]
  }

  lemma OwnsMore(slots: Slots, t: Tid, held: seq<nat>, p: nat)
    requires Owns(slots, t, held) && p < |slots| && !slots[p].place.Held?
    ensures Owns(Popped(slots, t, p), t, held + [p])
  {
    assert forall k :: 0 <= k < |held| ==> held[k] != p;
  }

  lemma OwnsStill(slots: Slots, t: Tid, u: Tid, held: seq<nat>, p: nat)
    requires Owns(slots, u, held) && p < |slots| && !slots[p].place.Held?
    ensures Owns(Popped(slots, t, p), u, held)
  {
  }

  lemma PopHeld(slots: Slots, readers: Readers, t: Tid, p: nat, r: Reader)
    requires HeldOk(slots, readers) && t in readers && p < |slots| && !slots[p].place.Held?
    requires HeldBy(r.pc) == HeldBy(readers[t].pc) + [p]
    ensures HeldOk(Popped(slots, t, p), readers[t := r])
  {
    hide Owns;
    var slots', readers' := Popped(slots, t, p), readers[t := r];
    forall u | u in readers' ensures Owns(slots', u, HeldBy(readers'[u].pc)) {
      if u == t {
        OwnsMore(slots, t, HeldBy(readers[t].pc), p);
      } else {
        OwnsStill(slots, t, u, HeldBy(readers[u].pc), p);
      }
    }
    forall q | 0 <= q < |slots'| && slots'[q].place.Held? ensures Owned(readers', slots'[q].place.owner, q) {
      if q != p {
        assert Owned(readers, slots[q].place.owner, q);
      }
    }
  }

  lemma PopStore(c: Config, s: State, t: Tid, p: nat)
    requires Shape(c, s.slots, s.mem) && StoreOk(c, s.slots, s.mem, s.objects, s.fetches)
    requires WaitersOk(s.slots, s.readers, s.blocked) && ReadersOk(c, s.slots, s.mem, s.objects, s.readers)
    requires p < |s.slots| && (s.slots[p].place == Free || s.slots[p].place == Clean)
    ensures StoreOk(c, Popped(s.slots, t, p), s.mem, s.objects, s.fetches)
    ensures WaitersOk(Popped(s.slots, t, p), s.readers, s.blocked)
    ensures ReadersOk(c, Popped(s.slots, t, p), s.mem, s.objects, s.readers)
  {
    var slots' := Popped(s.slots, t, p);
    ReadersFrame(c, s.slots, s.mem, slots', s.mem, s.objects, s.readers);
    forall u | u in s.blocked ensures Listed(slots', s.readers, u) {
      assert Listed(s.slots, s.readers, u);
    }
  }

  lemma PopInv(c: Config, s: State, t: Tid, p: nat, inodes': Inodes, want: nat, held: seq<nat>, ahead: seq<nat>)
    requires Inv(c, s) && t in s.readers && s.readers[t].pc == Alloc(want, held, ahead) && |held| < want
    requires p < |s.slots| && (s.slots[p].place == Free || s.slots[p].place == Clean)
    requires IndexOk(inodes', Popped(s.slots, t, p)) && inodes'.Keys <= s.objects.Keys
    ensures Inv(c, Goto(s.(slots := Popped(s.slots, t, p), inodes := inodes'), t, Alloc(want, held + [p], ahead)))
  {
    hide IndexOk, StoreOk, HeldOk, WaitersOk, ReadersOk;
    var r := s.readers[t].(pc := Alloc(want, held + [p], ahead));
    NotBlocked(s, t);
    PopStore(c, s, t, p);
    PopHeld(s.slots, s.readers, t, p, r);
    WaitersGoto(Popped(s.slots, t, p), s.readers, s.blocked, t, r);
    ReaderIsOk(c, s, t);
    ReadersGoto(c, Popped(s.slots, t, p), s.mem, s.objects, s.readers, t, r);
  }

  lemma PopFreeIndex(inodes: Inodes, slots: Slots, t: Tid, p: nat)
    requires IndexOk(inodes, slots) && p < |slots| && slots[p].place == Free
    ensures IndexOk(inodes, Popped(slots, t, p))
  {
    var slots' := Popped(slots, t, p);
    forall i ensures InboundOf(slots', i) == InboundOf(slots, i) {
    }
    forall i | i in inodes ensures LinesOk(slots', i, inodes[i].cacheMap) {
      assert LinesOk(slots, i, inodes[i].cacheMap);
    }
  }

  lemma PopFreeInv(c: Config, s: State, t: Tid, p: nat)
    requires Inv(c, s)
    ensures Inv(c, AllocStep(s, PopFree(t, p))) && AllocStep(s, PopFree(t, p)).fatal == s.fatal
  {
    hide IndexOk, StoreOk, HeldOk, WaitersOk, ReadersOk;
    if AllocStep(s, PopFree(t, p)) != s {
      PopFreeIndex(s.inodes, s.slots, t, p);
      var Alloc(want, held, ahead) := s.readers[t].pc;
      PopInv(c, s, t, p, s.inodes, want, held, ahead);
    }
  }

  lemma PopCleanInv(c: Config, s: State, t: Tid, p: nat)
    requires Inv(c, s)
    ensures Inv(c, AllocStep(s, PopClean(t, p))) && AllocStep(s, PopClean(t, p)).fatal == s.fatal
  {
    if AllocStep(s, PopClean(t, p)) != s {
      var i, l := s.slots[p].ino, s.slots[p].line;
      assert MappedAt(s.inodes, i, l, p);
      UnmapIndex(s, i, l, Popped(s.slots, t, p));
      var Alloc(want, held, ahead) := s.readers[t].pc;
      PopInv(c, s, t, p, Unmap(s, i, l).inodes, want, held, ahead);
    }
  }

  // -------- Waiting and waking --------

  ghost predicate SameButWaiters(slots: Slots, slots': Slots) {
    |slots'| == |slots| && forall p :: 0 <= p < |slots| ==> slots'[p] == slots[p].(waiters := slots'[p].waiters)
  }

  predicate SameTags(slot: Slot, slot': Slot) {
    slot'.place == slot.place && slot'.ino == slot.ino && slot'.line == slot.line
  }

  lemma TagsIndex(inodes: Inodes, slots: Slots, slots': Slots, readers: Readers)
    requires IndexOk(inodes, slots) && HeldOk(slots, readers)
    requires |slots'| == |slots| && forall p :: 0 <= p < |slots| ==> SameTags(slots[p], slots'[p])
    ensures IndexOk(inodes, slots') && HeldOk(slots', readers)
  {
    forall i ensures InboundOf(slots', i) == InboundOf(slots, i) {
    }
    forall i | i in inodes ensures LinesOk(slots', i, inodes[i].cacheMap) {
      assert LinesOk(slots, i, inodes[i].cacheMap);
    }
    forall t | t in readers ensures Owns(slots', t, HeldBy(readers[t].pc)) {
      assert Owns(slots, t, HeldBy(readers[t].pc));
    }
  }

  lemma WaitersStore(c: Config, s: State, slots': Slots)
    requires Shape(c, s.slots, s.mem) && SameButWaiters(s.slots, slots')
    requires StoreOk(c, s.slots, s.mem, s.objects, s.fetches) && ReadersOk(c, s.slots, s.mem, s.objects, s.readers)
    ensures StoreOk(c, slots', s.mem, s.objects, s.fetches) && ReadersOk(c, slots', s.mem, s.objects, s.readers)
  {
    ReadersFrame(c, s.slots, s.mem, slots', s.mem, s.objects, s.readers);
    forall p | p in s.fetches ensures FetchOk(c, slots'[p], s.mem[p], s.objects, s.fetches[p]) {
      assert FetchOk(c, s.slots[p], s.mem[p], s.objects, s.fetches[p]);
    }
  }

  lemma WaitOnWaiters(slots: Slots, readers: Readers, blocked: set<Tid>, t: Tid, p: nat, r: Reader)
    requires WaitersOk(slots, readers, blocked) && t !in blocked && p < |slots| && slots[p].place == Inbound
    requires Waits(r.pc) && r.pc.on == p
    ensures WaitersOk(slots[p := slots[p].(waiters := slots[p].waiters + {t})], readers[t := r], blocked + {t})
  {
    var slots', readers', blocked' := slots[p := slots[p].(waiters := slots[p].waiters + {t})], readers[t := r], blocked + {t};
    forall u | u in blocked' ensures Listed(slots', readers', u) {
      if u != t {
        assert Listed(slots, readers, u);
      }
    }
    forall q | 0 <= q < |slots'| ensures WaitersAt(slots'[q], q, readers', blocked') {
      assert WaitersAt(slots[q], q, readers, blocked);
    }
  }

  lemma WaitOnInv(c: Config, s: State, t: Tid, p: nat, pc: Pc)
    requires Inv(c, s) && t in s.readers && t !in s.blocked && p < |s.slots| && s.slots[p].place == Inbound
    requires Waits(pc) && pc.on == p && HeldBy(pc) == HeldBy(s.readers[t].pc)
    requires ReaderOk(c, s.slots, s.mem, s.objects, s.readers[t].(pc := pc))
    ensures Inv(c, WaitOn(s, t, p, pc))
  {
    hide IndexOk, StoreOk, HeldOk, WaitersOk, ReadersOk;
    var slots' := s.slots[p := s.slots[p].(waiters := s.slots[p].waiters + {t})];
    var r := s.readers[t].(pc := pc);
    OwnsHeld(s.slots, s.readers, t);
    TagsIndex(s.inodes, s.slots, slots', s.readers);
    WaitersStore(c, s, slots');
    WaitOnWaiters(s.slots, s.readers, s.blocked, t, p, r);
    HeldGoto(slots', s.readers, t, r);
    ReadersGoto(c, slots', s.mem, s.objects, s.readers, t, r);
  }

  lemma BlockInv(c: Config, s: State, t: Tid, p: nat)
    requires Inv(c, s)
    ensures Inv(c, AllocStep(s, Block(t, p))) && AllocStep(s, Block(t, p)).fatal == s.fatal
  {
    hide IndexOk, StoreOk, HeldOk, WaitersOk, ReadersOk;
    if AllocStep(s, Block(t, p)) != s {
      ReaderIsOk(c, s, t);
      var Alloc(want, held, ahead) := s.readers[t].pc;
      NotBlocked(s, t);
      WaitOnInv(c, s, t, p, AllocWait(want, held, ahead, p));
    }
  }

  lemma ReturnInv(c: Config, s: State, t: Tid)
    requires Inv(c, s)
    ensures Inv(c, AllocStep(s, Return(t))) && AllocStep(s, Return(t)).fatal == s.fatal
  {
    hide IndexOk, StoreOk, HeldOk, WaitersOk, ReadersOk;
    if AllocStep(s, Return(t)) != s {
      ReaderIsOk(c, s, t);
      var Alloc(want, held, ahead) := s.readers[t].pc;
      NotBlocked(s, t);
      GotoInv(c, s, t, s.readers[t].(pc := Got(held, ahead)));
    }
  }

  lemma WakeInv(c: Config, s: State, t: Tid)
    requires Inv(c, s)
    ensures Inv(c, ReadStep(c, s, Wake(t))) && ReadStep(c, s, Wake(t)).fatal == s.fatal
  {
    hide IndexOk, StoreOk, HeldOk, WaitersOk, ReadersOk;
    if ReadStep(c, s, Wake(t)) != s {
      ReaderIsOk(c, s, t);
      GotoInv(c, s, t, s.readers[t].(pc := Woken(s.readers[t].pc)));
    }
  }

  lemma AllocInv(c: Config, s: State, a: Action)
    requires Inv(c, s) && s.fatal.None?
    requires a.PopFree? || a.PopClean? || a.Block? || a.Starve? || a.Return?
    ensures Inv(c, AllocStep(s, a))
    ensures !a.Starve? ==> AllocStep(s, a).fatal == None
  {
    match a
    case PopFree(t, p) => PopFreeInv(c, s, t, p);
    case PopClean(t, p) => PopCleanInv(c, s, t, p);
    case Block(t, p) => BlockInv(c, s, t, p);
    case Starve(t) =>
    case Return(t) => ReturnInv(c, s, t);
  }

  // -------- Fetches --------

  lemma FetchGoto(c: Config, s: State, p: nat, f: Fetch)
    requires Inv(c, s) && p in s.fetches && FetchOk(c, s.slots[p], s.mem[p], s.objects, f)
    ensures Inv(c, s.(fetches := s.fetches[p := f]))
  {
    hide IndexOk, HeldOk, WaitersOk, ReadersOk, FetchOk, Holds;
  }

  lemma StoreStore(c: Config, s: State, p: nat, bytes: Bytes, done: nat)
    requires Shape(c, s.slots, s.mem) && p in s.fetches && s.fetches[p] == Storing(bytes, done) && done < |bytes|
    requires StoreOk(c, s.slots, s.mem, s.objects, s.fetches) && ReadersOk(c, s.slots, s.mem, s.objects, s.readers)
    ensures done < |s.mem[p]|
    ensures var mem' := s.mem[p := s.mem[p][done := bytes[done]]];
      && Shape(c, s.slots, mem')
      && StoreOk(c, s.slots, mem', s.objects, s.fetches[p := Storing(bytes, done + 1)])
      && ReadersOk(c, s.slots, mem', s.objects, s.readers)
  {
    assert FetchOk(c, s.slots[p], s.mem[p], s.objects, s.fetches[p]);
    var mem' := s.mem[p := s.mem[p][done := bytes[done]]];
    assert mem'[p][..done + 1] == bytes[..done + 1];
    ReadersFrame(c, s.slots, s.mem, s.slots, mem', s.objects, s.readers);
  }

  lemma FetchStoreInv(c: Config, s: State, p: nat, bytes: Bytes, done: nat)
    requires Inv(c, s) && p in s.fetches && s.fetches[p] == Storing(bytes, done) && done < |bytes| && done < |s.mem[p]|
    ensures Inv(c, s.(mem := s.mem[p := s.mem[p][done := bytes[done]]], fetches := s.fetches[p := Storing(bytes, done + 1)]))
  {
    hide IndexOk, StoreOk, HeldOk, WaitersOk, ReadersOk;
    StoreStore(c, s, p, bytes, done);
  }

  lemma LengthWaiters(slots: Slots, readers: Readers, blocked: set<Tid>, p: nat, slot: Slot)
    requires WaitersOk(slots, readers, blocked) && p < |slots|
    requires SameTags(slots[p], slot) && slot.waiters == slots[p].waiters
    ensures WaitersOk(slots[p := slot], readers, blocked)
  {
    var slots' := slots[p := slot];
    forall u | u in blocked ensures Listed(slots', readers, u) {
      assert Listed(slots, readers, u);
    }
    forall q | 0 <= q < |slots'| ensures WaitersAt(slots'[q], q, readers, blocked) {
      assert WaitersAt(slots[q], q, readers, blocked);
    }
  }

  lemma StoredStore(c: Config, s: State, p: nat, bytes: Bytes, done: nat)
    requires Shape(c, s.slots, s.mem) && p in s.fetches && s.fetches[p] == Storing(bytes, done) && |bytes| <= done
    requires StoreOk(c, s.slots, s.mem, s.objects, s.fetches) && ReadersOk(c, s.slots, s.mem, s.objects, s.readers)
    ensures var slots' := s.slots[p := s.slots[p].(len := |bytes|)];
      StoreOk(c, slots', s.mem, s.objects, s.fetches[p := Fetched(true)]) && ReadersOk(c, slots', s.mem, s.objects, s.readers)
  {
    var slots' := s.slots[p := s.slots[p].(len := |bytes|)];
    assert FetchOk(c, s.slots[p], s.mem[p], s.objects, s.fetches[p]);
    assert s.mem[p][..|bytes|] == bytes;
    ReadersFrame(c, s.slots, s.mem, slots', s.mem, s.objects, s.readers);
  }

  lemma FetchInRange(c: Config, slots: Slots, mem: seq<Bytes>, objects: Objects, fetches: Fetches, p: nat)
    requires StoreOk(c, slots, mem, objects, fetches) && p in fetches
    ensures p < |slots|
  {
  }

  lemma FetchStoredInv(c: Config, s: State, p: nat, bytes: Bytes, done: nat)
    requires Inv(c, s) && p in s.fetches && s.fetches[p] == Storing(bytes, done) && |bytes| <= done
    ensures Inv(c, s.(slots := s.slots[p := s.slots[p].(len := |bytes|)], fetches := s.fetches[p := Fetched(true)]))
  {
    hide IndexOk, StoreOk, HeldOk, WaitersOk, ReadersOk;
    FetchInRange(c, s.slots, s.mem, s.objects, s.fetches, p);
    var slot := s.slots[p].(len := |bytes|);
    TagsIndex(s.inodes, s.slots, s.slots[p := slot], s.readers);
    LengthWaiters(s.slots, s.readers, s.blocked, p, slot);
    StoredStore(c, s, p, bytes, done);
  }

  lemma FinishCount(inodes: Inodes, slots: Slots, p: nat, slot: Slot)
    requires Counted(inodes, slots) && p < |slots| && slots[p].place == Inbound && slot.ino in inodes
    requires slot.place == Clean && slot.ino == slots[p].ino
    ensures inodes[slot.ino].inbound > 0
    ensures Counted(inodes[slot.ino := inodes[slot.ino].(inbound := inodes[slot.ino].inbound - 1)], slots[p := slot])
  {
    var slots' := slots[p := slot];
    assert p in InboundOf(slots, slot.ino);
    assert InboundOf(slots', slot.ino) == InboundOf(slots, slot.ino) - {p};
    forall i | i != slot.ino ensures InboundOf(slots', i) == InboundOf(slots, i) {
    }
  }

  lemma FinishIndex(inodes: Inodes, slots: Slots, readers: Readers, p: nat, slot: Slot)
    requires IndexOk(inodes, slots) && HeldOk(slots, readers) && p < |slots| && slots[p].place == Inbound
    requires slot.place == Clean && slot.ino == slots[p].ino && slot.line == slots[p].line
    ensures slot.ino in inodes && inodes[slot.ino].inbound > 0
    ensures IndexOk(inodes[slot.ino := inodes[slot.ino].(inbound := inodes[slot.ino].inbound - 1)], slots[p := slot])
    ensures HeldOk(slots[p := slot], readers)
  {
    hide Counted;
    var slots' := slots[p := slot];
    assert MappedAt(inodes, slot.ino, slot.line, p);
    FinishCount(inodes, slots, p, slot);
    var inodes' := inodes[slot.ino := inodes[slot.ino].(inbound := inodes[slot.ino].inbound - 1)];
    forall i | i in inodes' ensures LinesOk(slots', i, inodes'[i].cacheMap) {
      assert LinesOk(slots, i, inodes[i].cacheMap);
    }
    forall q | 0 <= q < |slots'| && Resident(slots'[q].place) ensures MappedAt(inodes', slots'[q].ino, slots'[q].line, q) {
      assert MappedAt(inodes, slots[q].ino, slots[q].line, q);
    }
    FinishHeld(slots, readers, p, slot);
  }

  lemma FinishHeld(slots: Slots, readers: Readers, p: nat, slot: Slot)
    requires HeldOk(slots, readers) && p < |slots| && slots[p].place == Inbound && slot.place == Clean
    ensures HeldOk(slots[p := slot], readers)
  {
    forall t | t in readers ensures Owns(slots[p := slot], t, HeldBy(readers[t].pc)) {
      assert Owns(slots, t, HeldBy(readers[t].pc));
    }
  }

  lemma FinishWaiters(slots: Slots, readers: Readers, blocked: set<Tid>, p: nat, slot: Slot)
    requires WaitersOk(slots, readers, blocked) && p < |slots| && slot.waiters == {}
    ensures WaitersOk(slots[p := slot], readers, blocked - slots[p].waiters)
  {
    var slots', blocked' := slots[p := slot], blocked - slots[p].waiters;
    forall u | u in blocked' ensures Listed(slots', readers, u) {
      assert Listed(slots, readers, u);
    }
    forall q | 0 <= q < |slots'| ensures WaitersAt(slots'[q], q, readers, blocked') {
      assert WaitersAt(slots[q], q, readers, blocked);
      assert WaitersAt(slots[p], p, readers, blocked);
    }
  }

  lemma FinishStore(c: Config, s: State, p: nat, slot: Slot)
    requires Shape(c, s.slots, s.mem) && p in s.fetches && s.fetches[p].Fetched?
    requires StoreOk(c, s.slots, s.mem, s.objects, s.fetches) && ReadersOk(c, s.slots, s.mem, s.objects, s.readers)
    requires slot.place == Clean && slot.gen == s.slots[p].gen + 1 && slot.failed == !s.fetches[p].ok
    requires s.fetches[p].ok ==> slot.ino == s.slots[p].ino && slot.line == s.slots[p].line && slot.len == s.slots[p].len
    ensures StoreOk(c, s.slots[p := slot], s.mem, s.objects, s.fetches - {p})
    ensures ReadersOk(c, s.slots[p := slot], s.mem, s.objects, s.readers)
  {
    assert FetchOk(c, s.slots[p], s.mem[p], s.objects, s.fetches[p]);
    ReadersFrame(c, s.slots, s.mem, s.slots[p := slot], s.mem, s.objects, s.readers);
  }

  /** A fetch under way belongs to a slot whose inode and object are there. */
  lemma FetchFacts(c: Config, s: State, p: nat)
    requires Inv(c, s) && p in s.fetches
    ensures p < |s.slots| && p < |s.mem| && s.slots[p].place == Inbound && s.slots[p].ino in s.inodes
    ensures s.inodes[s.slots[p].ino].inbound > 0
    ensures FetchOk(c, s.slots[p], s.mem[p], s.objects, s.fetches[p])
  {
    FinishIndex(s.inodes, s.slots, s.readers, p, s.slots[p].(place := Clean));
  }

  lemma FetchFinishInv(c: Config, s: State, p: nat)
    requires Inv(c, s) && p in s.fetches && s.fetches[p].Fetched?
    ensures Inv(c, DoFetchFinish(s, p)) && DoFetchFinish(s, p).fatal == s.fatal
  {
    hide IndexOk, StoreOk, HeldOk, WaitersOk, ReadersOk;
    FetchFacts(c, s, p);
    var s' := DoFetchFinish(s, p);
    var slot := s'.slots[p];
    assert s'.slots == s.slots[p := slot];
    FinishIndex(s.inodes, s.slots, s.readers, p, slot);
    FinishWaiters(s.slots, s.readers, s.blocked, p, slot);
    FinishStore(c, s, p, slot);
  }

  lemma FetchCopyInv(c: Config, s: State, a: Action)
    requires Inv(c, s) && (a.FetchStore? || a.FetchStored?)
    ensures Inv(c, FetchStep(c, s, a)) && FetchStep(c, s, a).fatal == s.fatal
  {
    hide IndexOk, StoreOk, HeldOk, WaitersOk, ReadersOk;
    if FetchStep(c, s, a) != s {
      var f := s.fetches[a.p];
      match a
      case FetchStore(p) => FetchStoreInv(c, s, p, f.bytes, f.done);
      case FetchStored(p) => FetchStoredInv(c, s, p, f.bytes, f.done);
    }
  }

  lemma FetchInv(c: Config, s: State, a: Action)
    requires Inv(c, s)
    requires a.FetchBegin? || a.FetchRead? || a.FetchStore? || a.FetchStored? || a.FetchFinish?
    ensures Inv(c, FetchStep(c, s, a)) && FetchStep(c, s, a).fatal == s.fatal
  {
    hide IndexOk, StoreOk, HeldOk, WaitersOk, ReadersOk;
    if a.p in s.fetches {
      var p, f := a.p, s.fetches[a.p];
      FetchFacts(c, s, p);
      match a
      case FetchBegin(_) => FetchGoto(c, s, p, Reading(s.slots[p].ino, s.slots[p].line));
      case FetchRead(_, ok) =>
        if f.Reading? {
          FetchGoto(c, s, p, if ok then Storing(LineBytes(c, s.objects[f.ino], f.line), 0) else Fetched(false));
        }
      case FetchFinish(_) =>
        if f.Fetched? { FetchFinishInv(c, s, p); }
      case _ => FetchCopyInv(c, s, a);
    }
  }
}
