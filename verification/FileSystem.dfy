/**
 The inode table and the operations on it, as methods that update it in place.

 Every Fatalf in the code is an `assert` here: the invariant shows that it
 cannot be reached. All methods run under the global lock, so any interleaving
 of threads is some sequence of calls.
 */
module FileSystem {
  import opened Collections
  import opened Inodes

  datatype Errno = OK | ENOENT | ENOTDIR | EISDIR | EACCES | EBADF | EPERM | EBUSY | EEXIST | ENOTEMPTY

  /** What the backend has under a name: an object, a prefix, or nothing. */
  datatype Answer = IsFile | IsDir | Nothing

  /** A call from the kernel, a background thread's turn, or the end of a backend call. */
  datatype Op =
    | Mount(name: Name)
    | Lookup(parent: nat, name: Name, answer: Answer)
    | ListChild(parent: nat, name: Name, isDir: bool)
    | Open(ino: nat, exclusive: bool, denied: bool)
    | Release(ino: nat, fh: nat)
    | OpenDir(ino: nat)
    | ReleaseDir(ino: nat, fh: nat)
    | Listing(fh: nat, on: bool)
    | Unlink(parent: nat, name: Name, answer: Answer, readOnly: bool)
    | Finish(ino: nat)
    | MkDir(parent: nat, name: Name, answer: Answer, readOnly: bool)
    | RmDir(parent: nat, name: Name, answer: Answer, readOnly: bool)
    | Evict
    | Drain
    | BeginFetch(ino: nat)
    | EndFetch(ino: nat)

  predicate OnNames(op: Op) {
    op.Mount? || op.Lookup? || op.ListChild? || op.Unlink? || op.Finish? || op.MkDir? || op.RmDir?
  }

  class Fs {
    const virtualFileTtl: nat
    const virtualDirTtl: nat
    const evictableTtl: nat

    var inodes: Table
    var queue: set<Due>
    var phys: Entries
    var virt: Entries
    var fhs: Handles
    var lastNonce: nat
    var backends: set<nat>
    var finishing: set<nat>
    ghost var unlinked: set<nat>
    ghost var finished: seq<nat>

    ghost function T(): Tree
      reads this
    {
      Tree(inodes, phys, virt, lastNonce, backends)
    }

    ghost predicate Inv(dirty: set<nat>)
      reads this
    {
      && TreeOk(T()) && QueueOk(inodes, queue) && HandleOk(inodes, fhs, lastNonce)
      && DeleteOk(inodes, finishing, unlinked, finished, lastNonce)
      && EvictOk(inodes, phys, virt, dirty)
    }

    ghost predicate Valid()
      reads this
    {
      Inv({})
    }

    /** initFS: the FUSE root, alone. */
    constructor (virtualFileTtl: nat, virtualDirTtl: nat, evictableTtl: nat)
      ensures Valid() && inodes.Keys == {ROOT}
    {
      this.virtualFileTtl, this.virtualDirTtl, this.evictableTtl := virtualFileTtl, virtualDirTtl, evictableTtl;
      inodes := map[ROOT := Inode(FuseRoot, 0, ROOT, true, Dot, 0, 0, {}, false)];
      queue, phys, virt := {}, map[], map[Key(ROOT, Dot) := ROOT, Key(ROOT, DotDot) := ROOT];
      fhs, lastNonce, backends, finishing := map[], ROOT, {}, {};
      unlinked, finished := {}, [];
    }

    function Ttl(n: Inode): nat
      reads this
    {
      if !n.isVirt then evictableTtl else if n.kind == File then virtualFileTtl else virtualDirTtl
    }

    /** The inode is off the queue if it may not be evicted, and otherwise on it, as long after `now` as its kind says. */
    ghost predicate Touched(i: nat, now: nat)
      reads this
    {
      && i in inodes
      && var n := inodes[i];
         && (!Evictable(n, i, phys, virt) ==> n.xTime == 0)
         && (Evictable(n, i, phys, virt) && !n.isVirt ==> n.xTime == now + evictableTtl)
         && (Evictable(n, i, phys, virt) && n.isVirt && n.kind == File ==> n.xTime == now + virtualFileTtl)
         && (Evictable(n, i, phys, virt) && n.isVirt && n.kind == PseudoDir ==> n.xTime == now + virtualDirTtl)
    }

    /** touch: take the inode off the queue, and put it back, later, if it may be evicted. */
    method Touch(i: nat, now: nat, ghost dirty: set<nat>, ghost rest: set<nat>)
      requires Inv(dirty) && i in inodes && now > 0 && dirty <= rest + {i}
      modifies this`inodes, this`queue
      ensures Inv(rest)
      ensures inodes == old(inodes)[i := old(inodes)[i].(xTime := inodes[i].xTime)] && Touched(i, now)
    {
      hide TreeOk, QueueOk, HandleOk, DeleteOk, EvictOk;
      ghost var n0, q0 := inodes[i], queue;
      if inodes[i].xTime != 0 {
        QueueHas(inodes, queue, i);
        assert Due(inodes[i].xTime, i) in queue;
        queue := queue - {Due(inodes[i].xTime, i)};
        inodes := inodes[i := inodes[i].(xTime := 0)];
      }
      TreeSet(old(T()), i, inodes[i]);
      var idle := IsIdle(i);
      if idle {
        var x := now + Ttl(inodes[i]);
        QueueTouch(old(inodes), q0, i, x);
        inodes := inodes[i := inodes[i].(xTime := x)];
        assert Due(x, i) !in queue;
        queue := queue + {Due(x, i)};
      } else {
        QueueTouch(old(inodes), q0, i, 0);
      }
      assert queue == Requeued(q0, i, n0.xTime, inodes[i].xTime);
      assert inodes == old(inodes)[i := n0.(xTime := inodes[i].xTime)];
      TreeSet(old(T()), i, inodes[i]);
      HandleSet(old(inodes), fhs, lastNonce, i, inodes[i]);
      DeleteSet(old(inodes), finishing, unlinked, finished, lastNonce, i, inodes[i]);
      EvictSet(old(inodes), phys, virt, dirty, rest, i, inodes[i]);
    }

    /** The conditions under which touch queues an inode, as it computes them. */
    method IsIdle(i: nat) returns (idle: bool)
      requires i in inodes && TreeOk(T())
      ensures idle == Evictable(inodes[i], i, phys, virt)
    {
      match inodes[i].kind {
        case File =>
          idle := !inodes[i].pendingDelete && |inodes[i].handles| == 0 && inodes[i].inbound == 0;
        case FuseRoot => idle := false;
        case BackendRoot => idle := false;
        case PseudoDir =>
          CountsMeanNoChildren(T(), i);
          idle := |inodes[i].handles| == 0 && |Under(phys, i)| == 0 && |Under(virt, i)| == 2;
      }
    }

    // -------- Creating --------

    /** fetchNonce, then put the inode in the table, its entry in its parent, and a directory's own dots. */
    method Add(n: Inode, ghost dirty: set<nat>) returns (i: nat)
      requires Inv(dirty) && n.kind != FuseRoot && n.parent in inodes && inodes[n.parent].kind != File
      requires n.backend in backends && (n.kind == BackendRoot <==> n.parent == ROOT)
      requires if n.parent == ROOT then n.backend == lastNonce else n.backend == inodes[n.parent].backend
      requires !IsDot(n.name) && KeyOf(n) !in phys && KeyOf(n) !in virt
      requires n.xTime == 0 && n.handles == {} && !n.pendingDelete
      modifies this`inodes, this`phys, this`virt, this`lastNonce
      ensures Inv(dirty + {n.parent, i})
      ensures i == old(lastNonce) + 1 == lastNonce && i !in old(inodes) && T() == Added(old(T()), i, n, backends)
      ensures NoChildren(phys, virt, i) && Key(i, Dot) !in old(virt) && Key(i, DotDot) !in old(virt)
    {
      hide TreeOk, QueueOk, HandleOk, DeleteOk, EvictOk, Lists;
      ghost var t := T();
      i := lastNonce + 1;
      FreshNumber(t, i);
      lastNonce := i;
      assert i !in inodes;
      inodes := inodes[i := n];
      if n.isVirt {
        assert KeyOf(n) !in virt;
        virt := virt[KeyOf(n) := i];
      } else {
        assert KeyOf(n) !in phys;
        phys := phys[KeyOf(n) := i];
      }
      if n.kind != File {
        assert Key(i, Dot) !in virt && Key(i, DotDot) !in virt;
        virt := virt + Dots(i, n);
      }
      assert T() == Added(t, i, n, backends);
      AddLists(t, i, n, backends);
      TreeAdd(t, i, n, backends);
      QueueAdd(t.inodes, queue, i, n);
      HandleAdd(t.inodes, fhs, t.lastNonce, i, n);
      DeleteAdd(t.inodes, finishing, unlinked, finished, t.lastNonce, i, n);
      EvictAdd(t, T(), dirty, i, n);
      FreshIsEmpty(t, T(), i, n);
    }

    /** processToMountList: a backend's directory under the FUSE root. */
    method Mount(name: Name) returns (i: nat)
      requires Valid() && !IsDot(name) && Key(ROOT, name) !in phys && Key(ROOT, name) !in virt
      modifies this`inodes, this`phys, this`virt, this`lastNonce, this`backends
      ensures Valid() && i == old(lastNonce) + 2 && i !in old(inodes) && inodes == old(inodes)[i := Inode(BackendRoot, i - 1, ROOT, true, name, 0, 0, {}, false)]
      ensures backends == old(backends) + {i - 1} && phys == old(phys)
      ensures virt == old(virt)[Key(ROOT, name) := i] + map[Key(i, Dot) := i, Key(i, DotDot) := ROOT]
    {
      hide TreeOk, QueueOk, HandleOk, DeleteOk, EvictOk;
      RootFacts(T(), inodes, phys, virt, {});
      lastNonce := lastNonce + 1;
      backends := backends + {lastNonce};
      NonceGrows(old(T()), T());
      OthersGrow(inodes, fhs, finishing, unlinked, finished, old(lastNonce), lastNonce);
      var n := Inode(BackendRoot, lastNonce, ROOT, true, name, 0, 0, {}, false);
      i := Add(n, {});
      RootsSettle(inodes, phys, virt, {} + {ROOT, i});
    }

    /** What createPseudoDirInode and createFileObjectInode share: the new inode, and the touches of its parent and of itself. */
    method CreateChild(n: Inode, now: nat) returns (i: nat)
      requires Valid() && now > 0 && CanCreate(n.parent, n.name) && n == Inode(n.kind, inodes[n.parent].backend, n.parent, n.isVirt, n.name, 0, 0, {}, false)
      requires n.kind in {File, PseudoDir}
      modifies this`inodes, this`phys, this`virt, this`lastNonce, this`queue
      ensures Valid() && i !in old(inodes) && i in inodes && n.parent in inodes && lastNonce == i == old(lastNonce) + 1
      ensures inodes == old(inodes)[n.parent := old(inodes)[n.parent].(xTime := inodes[n.parent].xTime)][i := n.(xTime := inodes[i].xTime)]
      ensures phys == Added(old(T()), i, n, backends).phys && virt == Added(old(T()), i, n, backends).virt
      ensures Touched(n.parent, now) && Touched(i, now) && NoChildren(phys, virt, i)
    {
      hide TreeOk, QueueOk, HandleOk, DeleteOk, EvictOk, Evictable, NoChildren, Dots;
      ParentFacts(T(), n.parent);
      i := Add(n, {});
      Touch(n.parent, now, {} + {n.parent, i}, {i});
      Touch(i, now, {i}, {});
    }

    /** createPseudoDirInode. */
    method CreatePseudoDir(parent: nat, isVirt: bool, name: Name, now: nat) returns (i: nat)
      requires Valid() && now > 0 && CanCreate(parent, name)
      modifies this`inodes, this`phys, this`virt, this`lastNonce, this`queue
      ensures Valid() && Created(old(T()), i, PseudoDir, parent, isVirt, name, now) && lastNonce == i == old(lastNonce) + 1
      ensures NoChildren(phys, virt, i)
    {
      hide Inv, NoChildren, Same, Touched;
      i := CreateChild(Inode(PseudoDir, inodes[parent].backend, parent, isVirt, name, 0, 0, {}, false), now);
      SameAdded(old(inodes), inodes, parent, i);
    }

    /** createFileObjectInode. */
    method CreateFile(parent: nat, isVirt: bool, name: Name, now: nat) returns (i: nat)
      requires Valid() && now > 0 && CanCreate(parent, name)
      modifies this`inodes, this`phys, this`virt, this`lastNonce, this`queue
      ensures Valid() && Created(old(T()), i, File, parent, isVirt, name, now) && lastNonce == i == old(lastNonce) + 1
      ensures NoChildren(phys, virt, i)
    {
      hide Inv, NoChildren, Same, Touched;
      i := CreateChild(Inode(File, inodes[parent].backend, parent, isVirt, name, 0, 0, {}, false), now);
      SameAdded(old(inodes), inodes, parent, i);
    }

    /** The parent is a directory of some backend and has no entry of this name. */
    ghost predicate CanCreate(parent: nat, name: Name)
      reads this
    {
      IsBackendDir(inodes, parent) && !IsDot(name)
      && Key(parent, name) !in phys && Key(parent, name) !in virt
    }

    /** One new inode, of its parent's backend, with its entries; otherwise only the parent's eviction time differs. */
    ghost predicate Created(was: Tree, i: nat, kind: Kind, parent: nat, isVirt: bool, name: Name, now: nat)
      reads this
    {
      && i !in was.inodes && parent in was.inodes && inodes.Keys == was.inodes.Keys + {i}
      && inodes[i] == Inode(kind, was.inodes[parent].backend, parent, isVirt, name, inodes[i].xTime, 0, {}, false)
      && phys == (if isVirt then was.phys else was.phys[Key(parent, name) := i])
      && virt == (if isVirt then was.virt[Key(parent, name) := i] else was.virt)
           + (if kind == File then map[] else map[Key(i, Dot) := i, Key(i, DotDot) := parent])
      && Same(was.inodes, inodes, {parent}) && Touched(parent, now) && Touched(i, now)
    }

    // -------- Evicting --------

    /** One turn of inodeEvictor's or inodeEvictorForceDrain's loop, on the element at the front of the queue. */
    method EvictOne(q: Due, now: nat)
      requires Valid() && q in queue && now > 0
      modifies this`inodes, this`phys, this`virt, this`queue
      ensures Valid() && q.ino in old(inodes)
      ensures var i := q.ino; var p := old(inodes)[i].parent;
        && p in inodes && i !in inodes && Evictable(old(inodes)[i], i, old(phys), old(virt))
        && inodes == (old(inodes) - {i})[p := old(inodes)[p].(xTime := inodes[p].xTime)]
        && old(inodes)[p].xTime == 0 && Touched(p, now)
        && phys == old(phys) - {KeyOf(old(inodes)[i])} && virt == old(virt) - {KeyOf(old(inodes)[i])}
      ensures |inodes| == |old(inodes)| - 1
    {
      hide TreeOk, QueueOk, HandleOk, DeleteOk, EvictOk, Evictable;
      DueFacts(inodes, queue, q);
      ghost var i := q.ino;
      QueuedFacts(T(), {}, i);
      ParentIsIdle(T(), i);
      var p := Drop(q);
      Touch(p, now, {} + {p}, {});
      assert inodes.Keys == old(inodes).Keys - {i};
    }

    /** The removals of that turn; the parent is still to be touched. */
    method Drop(q: Due) returns (p: nat)
      requires Valid() && q in queue
      modifies this`inodes, this`phys, this`virt, this`queue
      ensures q.ino in old(inodes) && p == old(inodes)[q.ino].parent && p in inodes
      ensures Inv({} + {p}) && inodes == old(inodes) - {q.ino}
      ensures phys == old(phys) - {KeyOf(old(inodes)[q.ino])} && virt == old(virt) - {KeyOf(old(inodes)[q.ino])}
    {
      hide TreeOk, QueueOk, HandleOk, DeleteOk, EvictOk;
      ghost var t := T();
      DueFacts(inodes, queue, q);
      var i := q.ino;
      assert i in inodes;
      var n := inodes[i];
      QueuedFacts(t, {}, i);
      OneEntry(t, i);
      queue := queue - {q};
      p := n.parent;
      assert p in inodes;
      if n.isVirt {
        assert KeyOf(n) in virt;
        virt := virt - {KeyOf(n)};
      } else {
        assert KeyOf(n) in phys;
        phys := phys - {KeyOf(n)};
      }
      inodes := inodes - {i};
      RemoveAll(t, T(), old(queue), fhs, finishing, unlinked, finished, i);
      assert queue == Requeued(old(queue), i, n.xTime, 0);
    }

    /** The front of the queue: the element with the least (xTime, inode number). */
    method Front() returns (ok: bool, q: Due)
      ensures ok == (queue != {})
      ensures ok ==> q in queue && forall p :: p in queue ==> Before(q, p)
    {
      if queue == {} {
        return false, Due(0, 0);
      }
      ghost var oldest := OldestExists(queue);
      ok := true;
      q :| q in queue && forall p :: p in queue ==> Before(q, p);
    }

    /**
     inodeEvictor, one tick. A file goes exactly if its time has come. So does a directory, as long as
     a directory emptied on the way gets a time that is still to come.
     */
    method EvictExpired(now: nat)
      requires Valid() && now > 0
      modifies this`inodes, this`phys, this`virt, this`queue
      ensures Valid() && forall q :: q in queue ==> q.time > now
      ensures forall i :: i in inodes ==> i in old(inodes) && Ticked(inodes[i], old(inodes)[i], DirDue(old(inodes)[i], now, virtualDirTtl, evictableTtl))
      ensures forall i :: i in old(inodes) && (old(inodes)[i].kind == File || (virtualDirTtl > 0 && evictableTtl > 0)) ==>
        (i in inodes <==> !Expired(old(inodes)[i], now))
    {
      hide TreeOk, QueueOk, HandleOk, DeleteOk, EvictOk, TickOk;
      var more := true;
      TickStart(inodes, now, virtualDirTtl, evictableTtl);
      while more
        invariant Valid() && TickOk(inodes, old(inodes), now, virtualDirTtl, evictableTtl)
        invariant !more ==> forall q :: q in queue ==> q.time > now
        decreases more, |inodes|
      {
        var ok, q := Front();
        if !ok || q.time > now {
          more := false;
        } else {
          EvictTick(q, now, old(inodes));
        }
      }
      TickEnd(inodes, queue, old(inodes), now, virtualDirTtl, evictableTtl);
    }

    /** One turn of the tick. */
    method EvictTick(q: Due, now: nat, ghost was: Table)
      requires Valid() && q in queue && q.time <= now && now > 0 && TickOk(inodes, was, now, virtualDirTtl, evictableTtl)
      modifies this`inodes, this`phys, this`virt, this`queue
      ensures Valid() && TickOk(inodes, was, now, virtualDirTtl, evictableTtl) && |inodes| == |old(inodes)| - 1
    {
      hide TreeOk, QueueOk, HandleOk, DeleteOk, EvictOk, TickOk;
      DueFacts(inodes, queue, q);
      QueuedFacts(T(), {}, q.ino);
      ParentIsDir(T(), q.ino);
      EvictOne(q, now);
      var p := old(inodes)[q.ino].parent;
      TickStep(old(inodes), inodes, was, now, virtualDirTtl, evictableTtl, q.ino, p);
    }

    /**
     inodeEvictorForceDrain: whatever order the queue and the cascade of emptied parents give, what
     is left is exactly the pinned inodes and their ancestors.
     */
    method ForceDrain(now: nat) returns (drained: nat)
      requires Valid() && now > 0
      modifies this`inodes, this`phys, this`virt, this`queue
      ensures Valid() && queue == {} && drained == |old(inodes)| - |inodes|
      ensures LeftOf(inodes, old(inodes))
      ensures forall i :: i in inodes <==> Survives(old(inodes), i, lastNonce)
    {
      hide TreeOk, QueueOk, HandleOk, DeleteOk, EvictOk, LeftOf, SurvivorsStay, Survives;
      drained := 0;
      NothingGone(inodes, lastNonce);
      while queue != {}
        invariant Valid() && drained == |old(inodes)| - |inodes|
        invariant LeftOf(inodes, old(inodes)) && SurvivorsStay(old(inodes), inodes, lastNonce)
        decreases |inodes|
      {
        drained := drained + 1;
        DrainOne(now, old(inodes));
      }
      OnlySurvivors(T(), old(inodes));
    }

    /** One turn of the drain: the oldest element goes, and it is not one that survives. */
    method DrainOne(now: nat, ghost was: Table)
      requires Valid() && now > 0 && queue != {} && LeftOf(inodes, was) && SurvivorsStay(was, inodes, lastNonce)
      modifies this`inodes, this`phys, this`virt, this`queue
      ensures Valid() && |inodes| == |old(inodes)| - 1 && LeftOf(inodes, was) && SurvivorsStay(was, inodes, lastNonce)
    {
      hide TreeOk, QueueOk, HandleOk, DeleteOk, EvictOk, LeftOf, SurvivorsStay;
      var ok, q := Front();
      DueFacts(inodes, queue, q);
      QueuedFacts(T(), {}, q.ino);
      EvictableDies(T(), was, q.ino);
      ParentIsDir(T(), q.ino);
      EvictOne(q, now);
      LeftStep(old(inodes), inodes, was, q.ino, old(inodes)[q.ino].parent, lastNonce);
    }

    // -------- Finding and converting --------

    /** Take an inode off the eviction queue. */
    method Unqueue(i: nat)
      requires Valid() && i in inodes
      modifies this`inodes, this`queue
      ensures Inv({i}) && inodes == old(inodes)[i := old(inodes)[i].(xTime := 0)]
    {
      hide TreeOk, QueueOk, HandleOk, DeleteOk, EvictOk;
      ghost var n := inodes[i].(xTime := 0);
      QueueTouch(inodes, queue, i, 0);
      TreeSet(T(), i, n);
      HandleSet(inodes, fhs, lastNonce, i, n);
      DeleteSet(inodes, finishing, unlinked, finished, lastNonce, i, n);
      EvictSet(inodes, phys, virt, {}, {i}, i, n);
      if inodes[i].xTime != 0 {
        QueueHas(inodes, queue, i);
        assert Due(inodes[i].xTime, i) in queue;
        queue := queue - {Due(inodes[i].xTime, i)};
        inodes := inodes[i := inodes[i].(xTime := 0)];
      }
      assert queue == Requeued(old(queue), i, old(inodes)[i].xTime, 0);
      assert inodes == old(inodes)[i := n];
    }

    /** convertToPhysInodeIfNecessary. */
    method ConvertToPhys(i: nat, now: nat)
      requires Valid() && i in inodes && now > 0
      modifies this`inodes, this`phys, this`virt, this`queue
      ensures Valid() && inodes.Keys == old(inodes).Keys
      ensures inodes[i].kind in {File, PseudoDir} ==> !inodes[i].isVirt
      ensures forall j :: j in inodes ==>
        inodes[j] == old(inodes)[j].(xTime := inodes[j].xTime, isVirt := inodes[j].isVirt) && (j != i ==> inodes[j] == old(inodes)[j])
      ensures var n := old(inodes)[i];
        if n.isVirt && n.kind in {File, PseudoDir} then phys == old(phys)[KeyOf(n) := i] && virt == old(virt) - {KeyOf(n)} && Touched(i, now)
        else inodes == old(inodes) && phys == old(phys) && virt == old(virt)
    {
      hide TreeOk, QueueOk, HandleOk, DeleteOk, EvictOk;
      if !inodes[i].isVirt || (inodes[i].kind != File && inodes[i].kind != PseudoDir) {
        return;
      }
      Unqueue(i);
      MoveToPhys(i);
      Touch(i, now, {i} + {i}, {});
    }

    /** The middle of convertToPhysInodeIfNecessary: the entry moves from `virt` to `phys`. */
    method MoveToPhys(i: nat)
      requires Inv({i}) && i in inodes && inodes[i].kind in {File, PseudoDir} && inodes[i].isVirt
      modifies this`inodes, this`phys, this`virt
      ensures Inv({i} + {i}) && inodes == old(inodes)[i := old(inodes)[i].(isVirt := false)]
      ensures phys == old(phys)[KeyOf(old(inodes)[i]) := i] && virt == old(virt) - {KeyOf(old(inodes)[i])}
    {
      hide TreeOk, QueueOk, HandleOk, DeleteOk, EvictOk;
      ghost var t := T();
      ChildFacts(t, i);
      var n := inodes[i];
      inodes := inodes[i := n.(isVirt := false)];
      assert KeyOf(n) in virt;
      virt := virt - {KeyOf(n)};
      assert KeyOf(n) !in phys;
      phys := phys[KeyOf(n) := i];
      assert T() == Converted(t, i);
      TreeConvert(t, i);
      QueueSet(t.inodes, queue, i, inodes[i]);
      HandleSet(t.inodes, fhs, lastNonce, i, inodes[i]);
      DeleteSet(t.inodes, finishing, unlinked, finished, lastNonce, i, inodes[i]);
      EvictConvert(t, {i}, i);
    }

    /** findChildInode up to its deferred touches: a known entry, or what the backend has under that name. */
    method Locate(parent: nat, name: Name, answer: Answer, now: nat) returns (ok: bool, child: nat)
      requires Valid() && now > 0 && IsBackendDir(inodes, parent) && !IsDot(name)
      modifies this`inodes, this`phys, this`virt, this`lastNonce, this`queue
      ensures Valid() && lastNonce >= old(lastNonce) && Found(old(T()), T(), Key(parent, name), answer, ok, child)
    {
      hide TreeOk, QueueOk, HandleOk, DeleteOk, EvictOk, NoChildren, Touched, Same;
      SameRefl(inodes, {parent});
      ParentFacts(T(), parent);
      EntryFacts(T(), Key(parent, name));
      if Key(parent, name) in phys {
        ok, child := true, phys[Key(parent, name)];
        assert child in inodes;
        SameRefl(inodes, {parent, child});
      } else if Key(parent, name) in virt {
        ok, child := true, virt[Key(parent, name)];
        assert child in inodes;
        SameRefl(inodes, {parent, child});
      } else {
        assert inodes[parent].backend in backends;
        ok, child := answer != Nothing, 0;
        if answer == IsFile {
          child := CreateFile(parent, false, name, now);
          SameMore(old(inodes), inodes, {parent}, {parent, child});
        } else if answer == IsDir {
          child := CreatePseudoDir(parent, false, name, now);
          SameMore(old(inodes), inodes, {parent}, {parent, child});
        }
      }
    }

    /** findChildInode. */
    method FindChild(parent: nat, name: Name, answer: Answer, now: nat) returns (ok: bool, child: nat)
      requires Valid() && now > 0 && IsBackendDir(inodes, parent) && !IsDot(name)
      modifies this`inodes, this`phys, this`virt, this`lastNonce, this`queue
      ensures Valid() && lastNonce >= old(lastNonce) && Found(old(T()), T(), Key(parent, name), answer, ok, child)
      ensures Touched(parent, now) && (ok ==> Touched(child, now))
    {
      hide TreeOk, QueueOk, HandleOk, DeleteOk, EvictOk, NoChildren, Found;
      ok, child := Locate(parent, name, answer, now);
      FoundFacts(old(T()), T(), Key(parent, name), answer, ok, child);
      ghost var t := T();
      TouchBoth(parent, if ok then child else parent, now);
      FoundTouched(old(T()), t, T(), Key(parent, name), answer, ok, child);
    }

    /** The deferred touches of findChildInode. */
    method TouchBoth(parent: nat, child: nat, now: nat)
      requires Valid() && now > 0 && parent in inodes && child in inodes
      modifies this`inodes, this`queue
      ensures Valid() && inodes.Keys == old(inodes).Keys && Same(old(inodes), inodes, {parent, child})
      ensures Touched(parent, now) && Touched(child, now)
    {
      hide TreeOk, QueueOk, HandleOk, DeleteOk, EvictOk;
      Touch(parent, now, {}, {});
      Touch(child, now, {}, {});
    }

    // -------- Handles --------

    /** Replace inode `i` by `n`, whose handles differ, and its handle table with it. */
    method SetHandles(i: nat, n: Inode, fhs': Handles, nonce: nat)
      requires Valid() && i in inodes && SamePlace(inodes[i], n) && n.xTime == inodes[i].xTime && n.pendingDelete == inodes[i].pendingDelete
      requires HandleOk(inodes[i := n], fhs', nonce) && lastNonce <= nonce
      modifies this`inodes, this`fhs, this`lastNonce, this`finishing
      ensures Inv({i}) && inodes == old(inodes)[i := n] && fhs == fhs' && lastNonce == nonce
      ensures finishing == if n.pendingDelete && n.handles == {} then old(finishing) + {i} else old(finishing) - {i}
    {
      hide TreeOk, QueueOk, HandleOk, EvictOk;
      NonceGrows(T(), T().(lastNonce := nonce));
      TreeSet(T().(lastNonce := nonce), i, n);
      QueueSet(inodes, queue, i, n);
      NumberBound(T(), i);
      DeleteChange(inodes, finishing, unlinked, finished, lastNonce, i, n, nonce);
      EvictSet(inodes, phys, virt, {}, {i}, i, n);
      assert n.pendingDelete ==> unlinked + {i} == unlinked;
      inodes, fhs, lastNonce := inodes[i := n], fhs', nonce;
      finishing := if n.pendingDelete && n.handles == {} then finishing + {i} else finishing - {i};
    }

    /** DoOpen; `denied` is a write open of a read-only backend. */
    method Open(i: nat, exclusive: bool, denied: bool, now: nat) returns (err: Errno, h: nat)
      requires Valid() && now > 0
      modifies this`inodes, this`fhs, this`lastNonce, this`queue, this`finishing
      ensures Valid() && (err != OK ==> inodes == old(inodes) && fhs == old(fhs))
      ensures err == OK <==> CanOpen(old(inodes), old(fhs), i, denied) && i !in old(unlinked)
      ensures err == ENOENT <==> i !in old(inodes) || i in old(unlinked)
      ensures err == EISDIR <==> i in old(inodes) && old(inodes)[i].kind != File
      ensures err in {OK, ENOENT, EISDIR, EACCES}
      ensures err == OK ==> i in old(inodes) && h !in old(fhs) && fhs == old(fhs)[h := Handle(i, exclusive, false)]
      ensures err == OK ==> inodes == old(inodes)[i := old(inodes)[i].(handles := old(inodes)[i].handles + {h}, xTime := 0)]
    {
      hide TreeOk, QueueOk, HandleOk, DeleteOk, EvictOk;
      h := 0;
      PendingFacts(inodes, finishing, unlinked, finished, lastNonce, i);
      if i !in inodes {
        return ENOENT, 0;
      }
      if inodes[i].pendingDelete {
        return ENOENT, 0;
      }
      if inodes[i].kind != File {
        return EISDIR, 0;
      }
      if |inodes[i].handles| == 1 {
        var h0 :| h0 in inodes[i].handles;
        SameSize({h0}, inodes[i].handles);
        HandleFacts(inodes, fhs, lastNonce, i, h0);
        assert h0 in fhs;
        if fhs[h0].exclusive {
          return EACCES, 0;
        }
      }
      if denied {
        return EACCES, 0;
      }
      h := AddHandle(i, exclusive, now);
      err := OK;
    }

    /** The end of DoOpen and DoOpenDir: a new handle on the inode, which is then touched. */
    method AddHandle(i: nat, exclusive: bool, now: nat) returns (h: nat)
      requires Valid() && now > 0 && i in inodes && !inodes[i].pendingDelete
      modifies this`inodes, this`fhs, this`lastNonce, this`queue, this`finishing
      ensures Valid() && h !in old(fhs) && fhs == old(fhs)[h := Handle(i, exclusive, false)] && inodes.Keys == old(inodes).Keys
      ensures inodes == old(inodes)[i := old(inodes)[i].(handles := old(inodes)[i].handles + {h}, xTime := 0)]
    {
      hide TreeOk, QueueOk, HandleOk, DeleteOk, EvictOk;
      h := lastNonce + 1;
      var n, fh := inodes[i].(handles := inodes[i].handles + {h}), Handle(i, exclusive, false);
      FreshHandle(fhs, inodes, lastNonce, h);
      HandleOpen(inodes, fhs, lastNonce, i, n, h, fh);
      SetHandles(i, n, fhs[h := fh], h);
      Touch(i, now, {i}, {});
    }

    method DropHandle(i: nat, h: nat, now: nat)
      requires Valid() && now > 0 && i in inodes && h in inodes[i].handles
      modifies this`inodes, this`fhs, this`lastNonce, this`queue, this`finishing
      ensures Valid() && h in old(fhs) && fhs == old(fhs) - {h} && lastNonce == old(lastNonce)
      ensures inodes == old(inodes)[i := old(inodes)[i].(handles := old(inodes)[i].handles - {h}, xTime := inodes[i].xTime)] && Touched(i, now)
      ensures finishing == if inodes[i].pendingDelete && inodes[i].handles == {} then old(finishing) + {i} else old(finishing) - {i}
    {
      hide TreeOk, QueueOk, HandleOk, DeleteOk, EvictOk;
      var n := inodes[i].(handles := inodes[i].handles - {h});
      HandleClose(inodes, fhs, lastNonce, i, n, h);
      SetHandles(i, n, fhs - {h}, lastNonce);
      Touch(i, now, {i}, {});
    }

    /** DoRelease; `finish` says that the caller must now run FinishPendingDelete. */
    method Release(i: nat, h: nat, now: nat) returns (err: Errno, finish: bool)
      requires Valid() && now > 0
      modifies this`inodes, this`fhs, this`lastNonce, this`queue, this`finishing
      ensures Valid() && inodes.Keys == old(inodes).Keys
      ensures err == OK <==> i in old(inodes) && old(inodes)[i].kind == File && h in old(inodes)[i].handles
      ensures err == ENOENT <==> i !in old(inodes)
      ensures err in {OK, ENOENT, EBADF} && (i in old(inodes) ==> Touched(i, now))
      ensures err == OK ==> fhs == old(fhs) - {h}
      ensures err == OK ==> inodes == old(inodes)[i := old(inodes)[i].(handles := old(inodes)[i].handles - {h}, xTime := inodes[i].xTime)]
      ensures err != OK ==> Same(old(inodes), inodes, {i}) && fhs == old(fhs)
      ensures finish <==> err == OK && i in old(unlinked) && old(inodes)[i].handles == {h}
      ensures finishing == old(finishing) + if finish then {i} else {}
    {
      hide TreeOk, QueueOk, HandleOk, DeleteOk, EvictOk, Same;
      SameRefl(inodes, {i});
      PendingFacts(inodes, finishing, unlinked, finished, lastNonce, i);
      finish := false;
      if i !in inodes {
        return ENOENT, false;
      }
      if inodes[i].kind != File || h !in inodes[i].handles {
        Touch(i, now, {}, {});
        SameSet(old(inodes), i, inodes[i]);
        return EBADF, false;
      }
      HandleFacts(inodes, fhs, lastNonce, i, h);
      assert h in fhs;
      DropHandle(i, h, now);
      err := OK;
      finish := inodes[i].pendingDelete && |inodes[i].handles| == 0;
    }

    /** DoOpenDir. */
    method OpenDir(i: nat, now: nat) returns (err: Errno, h: nat)
      requires Valid() && now > 0
      modifies this`inodes, this`fhs, this`lastNonce, this`queue, this`finishing
      ensures Valid() && (err != OK ==> inodes == old(inodes) && fhs == old(fhs))
      ensures err == OK <==> i in old(inodes) && old(inodes)[i].kind != File
      ensures err == ENOENT <==> i !in old(inodes)
      ensures err in {OK, ENOENT, ENOTDIR}
      ensures err == OK ==> h !in old(fhs) && fhs == old(fhs)[h := Handle(i, false, false)]
      ensures err == OK ==> inodes == old(inodes)[i := old(inodes)[i].(handles := old(inodes)[i].handles + {h}, xTime := 0)]
    {
      hide TreeOk, QueueOk, HandleOk, DeleteOk, EvictOk;
      PendingFacts(inodes, finishing, unlinked, finished, lastNonce, i);
      if i !in inodes {
        return ENOENT, 0;
      }
      if inodes[i].kind == File {
        return ENOTDIR, 0;
      }
      h := AddHandle(i, false, now);
      err := OK;
    }

    /** DoReleaseDir. */
    method ReleaseDir(i: nat, h: nat, now: nat) returns (err: Errno)
      requires Valid() && now > 0
      modifies this`inodes, this`fhs, this`lastNonce, this`queue, this`finishing
      ensures Valid() && inodes.Keys == old(inodes).Keys && (err != OK ==> inodes == old(inodes) && fhs == old(fhs))
      ensures err == OK <==> CanCloseDir(old(inodes), old(fhs), i, h)
      ensures err == ENOENT <==> i !in old(inodes)
      ensures err == EBADF <==> i in old(inodes) && (h !in old(inodes)[i].handles || old(inodes)[i].kind == File)
      ensures err in {OK, ENOENT, EBADF, EACCES}
      ensures err == OK ==> fhs == old(fhs) - {h} && Touched(i, now)
      ensures err == OK ==> inodes == old(inodes)[i := old(inodes)[i].(handles := old(inodes)[i].handles - {h}, xTime := inodes[i].xTime)]
    {
      hide TreeOk, QueueOk, HandleOk, DeleteOk, EvictOk;
      if i !in inodes {
        return ENOENT;
      }
      if h !in inodes[i].handles {
        return EBADF;
      }
      HandleFacts(inodes, fhs, lastNonce, i, h);
      assert h in fhs;
      if inodes[i].kind == File {
        return EBADF;
      }
      if inodes[i].kind != FuseRoot && fhs[h].listing {
        return EACCES;
      }
      DropHandle(i, h, now);
      err := OK;
    }

    // -------- Unlink and the deferred delete --------

    /** DoUnlink; `finish` says that the caller must now run FinishPendingDelete on `child`. */
    method Unlink(parent: nat, name: Name, answer: Answer, readOnly: bool, now: nat) returns (err: Errno, child: nat, finish: bool)
      requires Valid() && now > 0 && !IsDot(name)
      modifies this
      ensures Valid() && finished == old(finished) && Unlinked(old(T()), inodes, Key(parent, name), answer, readOnly, err, child)
      ensures err != OK ==> unlinked == old(unlinked) && finishing == old(finishing) && !finish
      ensures err == OK ==> child !in old(unlinked) && unlinked == old(unlinked) + {child}
      ensures err == OK ==> (finish <==> inodes[child].handles == {}) && finishing == old(finishing) + if finish then {child} else {}
    {
      hide TreeOk, QueueOk, HandleOk, DeleteOk, EvictOk, Unlinked, Touched;
      if parent !in inodes {
        UnlinkRefused(T(), Key(parent, name), answer, readOnly);
        return ENOTDIR, 0, false;
      }
      Touch(parent, now, {}, {});
      ghost var t := T();
      err, child, finish := UnlinkUnder(parent, name, answer, readOnly, now);
      UnlinkedAfter(old(T()), t, inodes, Key(parent, name), answer, readOnly, err, child);
    }

    /** DoUnlink, in a parent that is there and touched. */
    method UnlinkUnder(parent: nat, name: Name, answer: Answer, readOnly: bool, now: nat) returns (err: Errno, child: nat, finish: bool)
      requires Valid() && now > 0 && !IsDot(name) && parent in inodes
      modifies this
      ensures Valid() && finished == old(finished) && Unlinked(old(T()), inodes, Key(parent, name), answer, readOnly, err, child)
      ensures err != OK ==> unlinked == old(unlinked) && finishing == old(finishing) && !finish
      ensures err == OK ==> child !in old(unlinked) && unlinked == old(unlinked) + {child}
      ensures err == OK ==> (finish <==> inodes[child].handles == {}) && finishing == old(finishing) + if finish then {child} else {}
    {
      hide TreeOk, QueueOk, HandleOk, DeleteOk, EvictOk, Found, Same, Unlinked, Touched;
      child, finish := 0, false;
      if !Writable(inodes, parent, readOnly) {
        UnlinkRefused(T(), Key(parent, name), answer, readOnly);
      }
      if inodes[parent].kind == FuseRoot {
        return EPERM, 0, false;
      }
      if inodes[parent].kind == File {
        return ENOTDIR, 0, false;
      }
      if readOnly {
        return EPERM, 0, false;
      }
      var ok;
      ok, child := FindChild(parent, name, answer, now);
      ghost var t := T();
      FoundDir(old(T()), t, Key(parent, name), answer, ok, child);
      FoundFacts(old(T()), t, Key(parent, name), answer, ok, child);
      if !ok {
        UnlinkAnswered(old(T()), t, inodes, Key(parent, name), answer, readOnly, false, ENOENT, child);
        return ENOENT, child, false;
      }
      BelowBackend(t, child);
      err, finish := UnlinkChild(child, now);
      UnlinkAnswered(old(T()), t, inodes, Key(parent, name), answer, readOnly, true, err, child);
    }

    /** DoUnlink, once the child is found. */
    method UnlinkChild(child: nat, now: nat) returns (err: Errno, finish: bool)
      requires Valid() && now > 0 && child in inodes
      modifies this`inodes, this`queue, this`finishing, this`unlinked
      ensures Valid() && inodes.Keys == old(inodes).Keys
      ensures err == OK <==> old(inodes)[child].kind == File && !old(inodes)[child].pendingDelete
      ensures err == EISDIR <==> old(inodes)[child].kind != File
      ensures err in {OK, EISDIR, ENOENT}
      ensures err != OK ==> unlinked == old(unlinked) && finishing == old(finishing) && !finish && Same(old(inodes), inodes, {child})
      ensures err == OK ==> inodes == old(inodes)[child := old(inodes)[child].(pendingDelete := true, xTime := 0)]
      ensures err == OK ==> child !in old(unlinked) && unlinked == old(unlinked) + {child}
      ensures err == OK ==> (finish <==> inodes[child].handles == {}) && finishing == old(finishing) + if finish then {child} else {}
    {
      hide TreeOk, QueueOk, HandleOk, DeleteOk, EvictOk, Same;
      SameRefl(inodes, {child});
      finish := false;
      PendingFacts(inodes, finishing, unlinked, finished, lastNonce, child);
      if inodes[child].pendingDelete {
        return ENOENT, false;
      }
      if inodes[child].kind != File {
        Touch(child, now, {}, {});
        SameSet(old(inodes), child, inodes[child]);
        return EISDIR, false;
      }
      MarkPending(child, now);
      err := OK;
      finish := |inodes[child].handles| == 0;
    }

    method MarkPending(i: nat, now: nat)
      requires Valid() && now > 0 && i in inodes && inodes[i].kind == File && !inodes[i].pendingDelete
      modifies this`inodes, this`queue, this`finishing, this`unlinked
      ensures Valid() && unlinked == old(unlinked) + {i}
      ensures inodes == old(inodes)[i := old(inodes)[i].(pendingDelete := true, xTime := 0)]
      ensures finishing == old(finishing) + if inodes[i].handles == {} then {i} else {}
    {
      hide TreeOk, QueueOk, HandleOk, EvictOk;
      var n := inodes[i].(pendingDelete := true);
      TreeSet(T(), i, n);
      QueueSet(inodes, queue, i, n);
      HandleSet(inodes, fhs, lastNonce, i, n);
      NumberBound(T(), i);
      DeleteChange(inodes, finishing, unlinked, finished, lastNonce, i, n, lastNonce);
      EvictSet(inodes, phys, virt, {}, {i}, i, n);
      unlinked := unlinked + {i};
      finishing := if n.handles == {} then finishing + {i} else finishing - {i};
      inodes := inodes[i := n];
      hide DeleteOk;
      Touch(i, now, {i}, {});
    }

    /**
     finishPendingDelete, run by a thread that Unlink or Release told to: while lines are still in
     flight it waits and starts over; otherwise the inode goes, and its parent is touched.
     */
    method FinishPendingDelete(i: nat, now: nat) returns (done: bool)
      requires Valid() && now > 0 && i in finishing
      modifies this`inodes, this`phys, this`virt, this`queue, this`finishing, this`finished
      ensures Valid() && i in old(inodes) && done == (old(inodes)[i].inbound == 0)
      ensures done ==> inodes.Keys == old(inodes).Keys - {i} && finished == old(finished) + [i] && finishing == old(finishing) - {i}
      ensures done ==> var n := old(inodes)[i];
        && Same(old(inodes) - {i}, inodes, {n.parent}) && Touched(n.parent, now)
        && phys == old(phys) - {KeyOf(n)} && virt == old(virt) - {KeyOf(n)}
      ensures !done ==> inodes == old(inodes) && finished == old(finished) && finishing == old(finishing)
    {
      hide TreeOk, QueueOk, HandleOk, DeleteOk, EvictOk, Evictable, Same;
      PendingFacts(inodes, finishing, unlinked, finished, lastNonce, i);
      if inodes[i].inbound != 0 {
        return false;
      }
      var p := Forget(i);
      Touch(p, now, {} + {p}, {});
      SameSet(old(inodes) - {i}, p, inodes[p]);
      done := true;
    }

    /** The removals at the end of finishPendingDelete; the parent is still to be touched. */
    method Forget(i: nat) returns (p: nat)
      requires Valid() && i in finishing && i in inodes && inodes[i].inbound == 0
      modifies this`inodes, this`phys, this`virt, this`finishing, this`finished
      ensures p == old(inodes)[i].parent && p in inodes && Inv({} + {p}) && inodes == old(inodes) - {i}
      ensures finishing == old(finishing) - {i} && finished == old(finished) + [i]
      ensures phys == old(phys) - {KeyOf(old(inodes)[i])} && virt == old(virt) - {KeyOf(old(inodes)[i])}
    {
      hide TreeOk, QueueOk, HandleOk, DeleteOk, EvictOk;
      ghost var t := T();
      PendingFacts(inodes, finishing, unlinked, finished, lastNonce, i);
      ChildFacts(t, i);
      OneEntry(t, i);
      var n := inodes[i];
      NotQueued(t, i);
      p := n.parent;
      assert p in inodes;
      if n.isVirt {
        assert KeyOf(n) in virt;
        virt := virt - {KeyOf(n)};
      } else {
        assert KeyOf(n) in phys;
        phys := phys - {KeyOf(n)};
      }
      inodes := inodes - {i};
      finishing, finished := finishing - {i}, finished + [i];
      TreeRemove(t, T(), i);
      QueueRemove(t.inodes, queue, i);
      assert queue == Requeued(queue, i, n.xTime, 0);
      HandleRemove(t.inodes, fhs, lastNonce, i);
      DeleteFinish(t.inodes, old(finishing), unlinked, old(finished), lastNonce, i);
      EvictRemove(t, T(), {}, i);
    }

    // -------- Directories --------

    /** DoMkDir. */
    method MkDir(parent: nat, name: Name, answer: Answer, readOnly: bool, now: nat) returns (err: Errno, child: nat)
      requires Valid() && now > 0 && !IsDot(name)
      modifies this`inodes, this`phys, this`virt, this`lastNonce, this`queue
      ensures Valid()
      ensures err == OK <==> Writable(old(inodes), parent, readOnly) && KindAt(old(T()), Key(parent, name), answer) == None
      ensures err == EEXIST <==> Writable(old(inodes), parent, readOnly) && KindAt(old(T()), Key(parent, name), answer).Some?
      ensures err == ENOENT <==> parent !in old(inodes)
      ensures err == ENOTDIR <==> parent in old(inodes) && old(inodes)[parent].kind == File
      ensures err == EPERM <==> Forbidden(old(inodes), parent, readOnly)
      ensures err == OK ==> Created(old(T()), child, PseudoDir, parent, true, name, now) && NoChildren(phys, virt, child)
      ensures err == EEXIST ==> Found(old(T()), T(), Key(parent, name), answer, true, child)
      ensures err !in {OK, EEXIST} ==> inodes == old(inodes) && phys == old(phys) && virt == old(virt)
    {
      hide TreeOk, QueueOk, HandleOk, DeleteOk, EvictOk, NoChildren, Found, Same;
      child := 0;
      if parent !in inodes {
        return ENOENT, 0;
      }
      if inodes[parent].kind == File {
        return ENOTDIR, 0;
      }
      if inodes[parent].kind == FuseRoot {
        return EPERM, 0;
      }
      if readOnly {
        return EPERM, 0;
      }
      var ok;
      ok, child := FindChild(parent, name, answer, now);
      FoundKind(old(T()), T(), Key(parent, name), answer, ok, child);
      if ok {
        return EEXIST, child;
      }
      NotFound(old(T()), T(), Key(parent, name), answer, child);
      ghost var found := inodes;
      child := CreatePseudoDir(parent, true, name, now);
      SameTrans(old(inodes), found, inodes, {parent});
      err := OK;
    }

    /** DoRmDir. */
    method RmDir(parent: nat, name: Name, answer: Answer, readOnly: bool, now: nat) returns (err: Errno, child: nat)
      requires Valid() && now > 0 && !IsDot(name)
      modifies this`inodes, this`phys, this`virt, this`lastNonce, this`queue
      ensures Valid()
      ensures err == OK <==> Writable(old(inodes), parent, readOnly) && HasEmptyDir(old(T()), Key(parent, name), answer)
      ensures err == OK ==> RemovedDir(old(T()), T(), Key(parent, name), child) && Touched(parent, now)
      ensures err != OK ==> Same(old(inodes), inodes, {parent, child})
      ensures err == EPERM <==> Forbidden(old(inodes), parent, readOnly)
      ensures err == ENOENT <==> parent !in old(inodes) || (Writable(old(inodes), parent, readOnly) && KindAt(old(T()), Key(parent, name), answer) == None)
      ensures err == ENOTDIR <==>
        || (parent in old(inodes) && old(inodes)[parent].kind == File)
        || (Writable(old(inodes), parent, readOnly) && KindAt(old(T()), Key(parent, name), answer) == Some(File))
      ensures err == EBUSY <==> Writable(old(inodes), parent, readOnly) && HasOpenDir(old(T()), Key(parent, name))
      ensures err in {OK, EPERM, ENOENT, ENOTDIR, EBUSY, ENOTEMPTY}
    {
      hide TreeOk, QueueOk, HandleOk, DeleteOk, EvictOk, HasEmptyDir, Known, Found, Same, NoChildren, KindAt, HasOpenDir;
      SameRefl(inodes, {parent, 0});
      child := 0;
      if parent !in inodes {
        return ENOENT, 0;
      }
      if inodes[parent].kind == File {
        return ENOTDIR, 0;
      }
      if inodes[parent].kind == FuseRoot {
        return EPERM, 0;
      }
      if readOnly {
        return EPERM, 0;
      }
      var ok;
      ok, child := FindChild(parent, name, answer, now);
      ghost var t := T();
      FoundKind(old(T()), t, Key(parent, name), answer, ok, child);
      FoundDir(old(T()), t, Key(parent, name), answer, ok, child);
      if !ok {
        return ENOENT, child;
      }
      BelowBackend(T(), child);
      if inodes[child].kind != PseudoDir {
        return ENOTDIR, child;
      }
      EmptyCounts(T(), child);
      if |inodes[child].handles| > 0 {
        return EBUSY, child;
      }
      if |Under(phys, child)| > 0 || |Under(virt, child)| > 2 {
        return ENOTEMPTY, child;
      }
      RemoveDir(parent, name, child, now);
      FoundAndRemoved(old(T()), t, T(), Key(parent, name), answer, child);
      err := OK;
    }

    method RemoveDir(parent: nat, name: Name, child: nat, now: nat)
      requires Valid() && now > 0 && child in inodes && inodes[child].kind == PseudoDir && KeyOf(inodes[child]) == Key(parent, name)
      requires inodes[child].handles == {} && |Under(phys, child)| == 0 && |Under(virt, child)| <= 2
      modifies this`inodes, this`phys, this`virt, this`queue
      ensures Valid() && parent in old(inodes) && parent in inodes && child !in inodes && Touched(parent, now)
      ensures inodes == (old(inodes) - {child})[parent := old(inodes)[parent].(xTime := inodes[parent].xTime)]
      ensures phys == old(phys) - {Key(parent, name)} && virt == old(virt) - {Key(parent, name), Key(child, Dot), Key(child, DotDot)}
    {
      hide TreeOk, QueueOk, HandleOk, DeleteOk, EvictOk;
      EmptyDirFacts(T(), child);
      OneEntry(T(), child);
      Detach(parent, name, child);
      Touch(parent, now, {} + {parent}, {});
    }

    /** The deletions at the end of DoRmDir. */
    method Detach(parent: nat, name: Name, child: nat)
      requires Valid() && child in inodes && Leaf(T(), child) && inodes[child].kind == PseudoDir && inodes[child].handles == {}
      requires KeyOf(inodes[child]) == Key(parent, name) && Key(child, Dot) in virt && Key(child, DotDot) in virt
      requires Maps(if inodes[child].isVirt then virt else phys, Key(parent, name), child) && parent != child
      requires Key(parent, name) !in if inodes[child].isVirt then phys else virt
      modifies this`inodes, this`phys, this`virt, this`queue
      ensures Inv({} + {parent}) && inodes == old(inodes) - {child}
      ensures phys == old(phys) - {Key(parent, name)} && virt == old(virt) - {Key(parent, name), Key(child, Dot), Key(child, DotDot)}
    {
      hide TreeOk, QueueOk, HandleOk, DeleteOk, EvictOk, Leaf, Removed;
      ghost var t := T();
      var n := inodes[child];
      if n.xTime != 0 {
        QueueHas(inodes, queue, child);
        assert Due(n.xTime, child) in queue;
        queue := queue - {Due(n.xTime, child)};
      }
      virt := virt - {Key(child, Dot)} - {Key(child, DotDot)};
      if n.isVirt {
        assert Key(parent, name) in virt;
        virt := virt - {Key(parent, name)};
      } else {
        assert Key(parent, name) in phys;
        phys := phys - {Key(parent, name)};
      }
      inodes := inodes - {child};
      DirRemoved(t, T(), child);
      assert queue == Requeued(old(queue), child, n.xTime, 0);
      RemoveAll(t, T(), old(queue), fhs, finishing, unlinked, finished, child);
    }

    // -------- Cache lines in flight --------

    /** DoRead starts a fetch for an open file: the count goes up, and no touch follows. */
    method BeginFetch(i: nat)
      requires Valid() && i in inodes && inodes[i].kind == File && inodes[i].handles != {}
      modifies this`inodes
      ensures Valid() && inodes == old(inodes)[i := old(inodes)[i].(inbound := old(inodes)[i].inbound + 1)]
    {
      hide TreeOk, QueueOk, HandleOk, DeleteOk, EvictOk;
      SetInbound(i, inodes[i].inbound + 1);
    }

    /** fetch ends: the count goes down, and no touch follows, so an idle file may stay off the queue. */
    method EndFetch(i: nat)
      requires Valid() && i in inodes && inodes[i].kind == File && inodes[i].inbound > 0
      modifies this`inodes
      ensures Valid() && inodes == old(inodes)[i := old(inodes)[i].(inbound := old(inodes)[i].inbound - 1)]
    {
      hide TreeOk, QueueOk, HandleOk, DeleteOk, EvictOk;
      SetInbound(i, inodes[i].inbound - 1);
    }

    method SetInbound(i: nat, count: nat)
      requires Valid() && i in inodes && inodes[i].kind == File && (inodes[i].handles != {} || inodes[i].inbound > 0)
      modifies this`inodes
      ensures Valid() && inodes == old(inodes)[i := old(inodes)[i].(inbound := count)]
    {
      hide TreeOk, QueueOk, HandleOk, DeleteOk, EvictOk;
      var n := inodes[i].(inbound := count);
      NotQueuedFile(inodes, phys, virt, i);
      TreeSet(T(), i, n);
      QueueSet(inodes, queue, i, n);
      HandleSet(inodes, fhs, lastNonce, i, n);
      DeleteSet(inodes, finishing, unlinked, finished, lastNonce, i, n);
      EvictSet(inodes, phys, virt, {}, {}, i, n);
      inodes := inodes[i := n];
    }

    // -------- Whole runs --------

    /** DoReadDir on one listed name: the child is found or created, and made physical. */
    method ListChild(parent: nat, name: Name, isDir: bool, now: nat) returns (child: nat)
      requires Valid() && now > 0 && IsBackendDir(inodes, parent) && !IsDot(name)
      modifies this`inodes, this`phys, this`virt, this`lastNonce, this`queue
      ensures Valid() && child in inodes && KeyOf(inodes[child]) == Key(parent, name) && inodes.Keys == old(inodes).Keys + {child}
      ensures inodes[child].kind in {File, PseudoDir} && Maps(phys, Key(parent, name), child) && Key(parent, name) !in virt
      ensures if Known(old(T()), Key(parent, name)) then child == Entry(old(T()), Key(parent, name))
        else child !in old(inodes) && inodes[child].kind == (if isDir then PseudoDir else File) && inodes[child].backend == old(inodes)[parent].backend
      ensures forall j :: j in old(inodes) && j != child && j != parent ==> inodes[j] == old(inodes)[j]
    {
      hide TreeOk, QueueOk, HandleOk, DeleteOk, EvictOk;
      var ok;
      ok, child := FindChild(parent, name, if isDir then IsDir else IsFile, now);
      BelowBackend(T(), child);
      ConvertToPhys(child, now);
      ChildFacts(T(), child);
      EntryFacts(T(), Key(parent, name));
    }

    /** DoReadDir brackets its calls of the backend with this flag. */
    method SetListing(h: nat, on: bool)
      requires Valid() && h in fhs
      modifies this`fhs
      ensures Valid() && fhs == old(fhs)[h := old(fhs)[h].(listing := on)]
    {
      hide TreeOk, QueueOk, DeleteOk, EvictOk;
      HandleFlag(inodes, fhs, lastNonce, h, on);
      fhs := fhs[h := fhs[h].(listing := on)];
    }

    /** Nothing forgets an unlinked file, and the log of finished ones only grows. */
    twostate predicate Grows()
      reads this
    {
      old(unlinked) <= unlinked && old(finished) <= finished
    }

    ghost function Snapshot(): Snap
      reads this
    {
      Snap(T(), queue, fhs, finishing, unlinked, finished)
    }

    /** One operation; one that the kernel or the daemon could not issue now is skipped. */
    method Step(op: Op, now: nat)
      requires Valid() && now > 0
      modifies this
      ensures Valid() && Grows() && Performed(old(Snapshot()), Snapshot(), op, now)
    {
      hide Inv, Performed;
      if OnNames(op) {
        NameStep(op, now);
      } else {
        OtherStep(op, now);
      }
    }

    /** The operations that find, add or remove a name. */
    method NameStep(op: Op, now: nat)
      requires Valid() && now > 0 && OnNames(op)
      modifies this
      ensures Valid() && Grows() && Performed(old(Snapshot()), Snapshot(), op, now)
    {
      hide TreeOk, QueueOk, HandleOk, DeleteOk, EvictOk, HasFile, HasEmptyDir, CanOpen, NoChildren, Same, Touched, Evictable, Survives;
      match op {
        case Mount(name) =>
          if !IsDot(name) && Key(ROOT, name) !in phys && Key(ROOT, name) !in virt {
            NumbersAreNew(T());
            var _ := Mount(name);
          }
        case Lookup(parent, name, answer) =>
          if IsBackendDir(inodes, parent) && !IsDot(name) {
            var _, _ := FindChild(parent, name, answer, now);
          }
        case ListChild(parent, name, isDir) =>
          if IsBackendDir(inodes, parent) && !IsDot(name) {
            var _ := ListChild(parent, name, isDir, now);
          }
        case Unlink(parent, name, answer, readOnly) =>
          if !IsDot(name) {
            var _, _, _ := Unlink(parent, name, answer, readOnly, now);
          }
        case Finish(i) =>
          if i in finishing {
            var _ := FinishPendingDelete(i, now);
          }
        case MkDir(parent, name, answer, readOnly) =>
          if !IsDot(name) {
            var _, _ := MkDir(parent, name, answer, readOnly, now);
          }
        case RmDir(parent, name, answer, readOnly) =>
          if !IsDot(name) {
            var _, _ := RmDir(parent, name, answer, readOnly, now);
          }
      }
    }

    /** The operations on handles and lines in flight, and the evictor's. */
    method OtherStep(op: Op, now: nat)
      requires Valid() && now > 0 && !OnNames(op)
      modifies this
      ensures Valid() && Grows() && Performed(old(Snapshot()), Snapshot(), op, now)
    {
      hide TreeOk, QueueOk, HandleOk, DeleteOk, EvictOk, HasFile, HasEmptyDir, CanOpen, NoChildren, Same, Touched, Evictable, Survives;
      match op {
        case Open(i, exclusive, denied) =>
          var err, h := Open(i, exclusive, denied, now);
          assert err == OK ==> h in fhs && fhs[h] == Handle(i, exclusive, false);
        case Release(i, h) =>
          var _, _ := Release(i, h, now);
        case OpenDir(i) =>
          var err, h := OpenDir(i, now);
          assert err == OK ==> h in fhs && fhs[h] == Handle(i, false, false);
        case ReleaseDir(i, h) =>
          var _ := ReleaseDir(i, h, now);
        case Listing(h, on) =>
          if h in fhs {
            SetListing(h, on);
          }
        case Evict =>
          EvictExpired(now);
        case Drain =>
          var _ := ForceDrain(now);
        case BeginFetch(i) =>
          if i in inodes && inodes[i].kind == File && inodes[i].handles != {} {
            BeginFetch(i);
          }
        case EndFetch(i) =>
          if i in inodes && inodes[i].kind == File && inodes[i].inbound > 0 {
            EndFetch(i);
          }
      }
    }

    /**
     Any run, in any interleaving. An unlinked file is either still there, pending, off the queue, as
     is its directory, or it was finished, exactly once; a thread is due to finish it exactly when it
     has no handle left.
     */
    method Run(ops: seq<Op>, times: seq<nat>) returns (ghost trace: seq<Snap>)
      requires Valid() && |ops| == |times| && forall k :: 0 <= k < |times| ==> times[k] > 0
      modifies this
      ensures Valid() && Grows()
      ensures |trace| == |ops| + 1 && trace[0] == old(Snapshot()) && trace[|ops|] == Snapshot()
      ensures forall k :: 0 <= k < |ops| ==> Performed(trace[k], trace[k + 1], ops[k], times[k])
      ensures forall i :: i in unlinked ==> (i in inodes && Waits(T(), i, finishing) && i !in finished) || (i !in inodes && Once(finished, i))
      ensures forall q :: q in queue ==> q.ino in inodes && q.ino !in unlinked && Evictable(inodes[q.ino], q.ino, phys, virt)
      ensures forall i :: i in inodes && inodes[i].kind in {File, PseudoDir} ==>
        inodes[i].parent in inodes && inodes[i].backend == inodes[inodes[i].parent].backend
      ensures forall i, j :: i in inodes && j in inodes && inodes[i].kind == inodes[j].kind == BackendRoot && inodes[i].backend == inodes[j].backend ==> i == j
    {
      hide TreeOk, QueueOk, HandleOk, DeleteOk, EvictOk, Performed;
      var k := 0;
      trace := [Snapshot()];
      while k < |ops|
        invariant 0 <= k <= |ops| && Valid() && Grows()
        invariant |trace| == k + 1 && trace[0] == old(Snapshot()) && trace[k] == Snapshot()
        invariant forall j :: 0 <= j < k ==> Performed(trace[j], trace[j + 1], ops[j], times[j])
      {
        Step(ops[k], times[k]);
        trace := trace + [Snapshot()];
        k := k + 1;
      }
      forall i | i in unlinked
        ensures (i in inodes && Waits(T(), i, finishing) && i !in finished) || (i !in inodes && Once(finished, i))
      {
        Accounted(T(), finishing, unlinked, finished, i);
      }
      forall i | i in inodes && inodes[i].kind in {File, PseudoDir}
        ensures inodes[i].parent in inodes && inodes[i].backend == inodes[inodes[i].parent].backend
      {
        ChildFacts(T(), i);
      }
      forall i, j | i in inodes && j in inodes && inodes[i].kind == inodes[j].kind == BackendRoot && inodes[i].backend == inodes[j].backend ensures i == j {
        MountsDiffer(T(), i, j);
      }
      forall q | q in queue ensures q.ino in inodes && q.ino !in unlinked && Evictable(inodes[q.ino], q.ino, phys, virt) {
        DueFacts(inodes, queue, q);
        QueuedFacts(T(), {}, q.ino);
        PendingFacts(inodes, finishing, unlinked, finished, lastNonce, q.ino);
      }
    }
  }

  // -------- What operations do --------

  /** The whole state between two operations. */
  datatype Snap = Snap(tree: Tree, queue: set<Due>, fhs: Handles, finishing: set<nat>, unlinked: set<nat>, finished: seq<nat>)

  /** What an operation that can be carried out has done. */
  ghost predicate Performed(before: Snap, after: Snap, op: Op, now: nat) {
    match op
    case Mount(name) =>
      !IsDot(name) && Key(ROOT, name) !in before.tree.phys && Key(ROOT, name) !in before.tree.virt ==> Key(ROOT, name) in after.tree.virt && before.tree.backends < after.tree.backends
    case Lookup(parent, name, answer) =>
      IsBackendDir(before.tree.inodes, parent) && !IsDot(name) ==> (Known(after.tree, Key(parent, name)) <==> KindAt(before.tree, Key(parent, name), answer).Some?)
    case ListChild(parent, name, isDir) => IsBackendDir(before.tree.inodes, parent) && !IsDot(name) ==> Key(parent, name) in after.tree.phys
    case Open(i, exclusive, denied) =>
      CanOpen(before.tree.inodes, before.fhs, i, denied) && i !in before.unlinked ==> exists h :: h in after.fhs && h !in before.fhs && after.fhs[h] == Handle(i, exclusive, false)
    case Release(i, h) => i in before.tree.inodes && before.tree.inodes[i].kind == File && h in before.tree.inodes[i].handles ==> h !in after.fhs && i in after.tree.inodes && h !in after.tree.inodes[i].handles
    case OpenDir(i) =>
      i in before.tree.inodes && before.tree.inodes[i].kind != File ==> exists h :: h in after.fhs && h !in before.fhs && after.fhs[h] == Handle(i, false, false)
    case ReleaseDir(i, h) => CanCloseDir(before.tree.inodes, before.fhs, i, h) ==> h !in after.fhs && i in after.tree.inodes && h !in after.tree.inodes[i].handles
    case Listing(h, on) => h in before.fhs ==> h in after.fhs && after.fhs[h].listing == on
    case Unlink(parent, name, answer, readOnly) =>
      !IsDot(name) && Writable(before.tree.inodes, parent, readOnly) && HasFile(before.tree, Key(parent, name), answer) ==> before.unlinked < after.unlinked
    case Finish(i) => i in before.finishing && i in before.tree.inodes && before.tree.inodes[i].inbound == 0 ==> i in after.finished && i !in after.tree.inodes
    case MkDir(parent, name, answer, readOnly) =>
      !IsDot(name) && Writable(before.tree.inodes, parent, readOnly) && KindAt(before.tree, Key(parent, name), answer) == None ==> Key(parent, name) in after.tree.virt
    case RmDir(parent, name, answer, readOnly) =>
      !IsDot(name) && Writable(before.tree.inodes, parent, readOnly) && HasEmptyDir(before.tree, Key(parent, name), answer) ==> !Known(after.tree, Key(parent, name))
    case Evict => forall q :: q in after.queue ==> q.time > now
    case Drain => after.queue == {}
    case BeginFetch(i) =>
      i in before.tree.inodes && before.tree.inodes[i].kind == File && before.tree.inodes[i].handles != {} ==> i in after.tree.inodes && after.tree.inodes[i].inbound == before.tree.inodes[i].inbound + 1
    case EndFetch(i) =>
      i in before.tree.inodes && before.tree.inodes[i].kind == File && before.tree.inodes[i].inbound > 0 ==> i in after.tree.inodes && after.tree.inodes[i].inbound == before.tree.inodes[i].inbound - 1
  }

  // -------- One tick of the evictor --------

  predicate Expired(n: Inode, now: nat) {
    0 < n.xTime <= now
  }

  /** When a directory that is emptied now is due. */
  function DirDue(n: Inode, now: nat, virtualDirTtl: nat, evictableTtl: nat): nat {
    now + if n.isVirt then virtualDirTtl else evictableTtl
  }

  /** An inode that is left: as it was, or a directory that had no time and got one. */
  predicate Ticked(n: Inode, n0: Inode, due: nat) {
    n == n0 || (n0.kind != File && n0.xTime == 0 && n == n0.(xTime := due))
  }

  ghost predicate TickOk(inodes: Table, was: Table, now: nat, virtualDirTtl: nat, evictableTtl: nat) {
    && (forall i :: i in inodes ==> i in was && Ticked(inodes[i], was[i], DirDue(was[i], now, virtualDirTtl, evictableTtl)))
    && (forall i :: i in was && i !in inodes && (was[i].kind == File || (virtualDirTtl > 0 && evictableTtl > 0)) ==> Expired(was[i], now))
  }

  lemma TickStart(inodes: Table, now: nat, virtualDirTtl: nat, evictableTtl: nat)
    ensures TickOk(inodes, inodes, now, virtualDirTtl, evictableTtl)
  {
  }

  lemma TickStep(inodes: Table, inodes': Table, was: Table, now: nat, virtualDirTtl: nat, evictableTtl: nat, i: nat, p: nat)
    requires TickOk(inodes, was, now, virtualDirTtl, evictableTtl) && i in inodes && Expired(inodes[i], now) && p in inodes && p != i && p in inodes'
    requires inodes[p].kind != File && inodes[p].xTime == 0 && now > 0
    requires inodes'[p].xTime == 0 || inodes'[p].xTime == DirDue(inodes[p], now, virtualDirTtl, evictableTtl)
    requires inodes' == (inodes - {i})[p := inodes[p].(xTime := inodes'[p].xTime)]
    ensures TickOk(inodes', was, now, virtualDirTtl, evictableTtl)
  {
    assert Ticked(inodes[i], was[i], DirDue(was[i], now, virtualDirTtl, evictableTtl));
    assert Ticked(inodes[p], was[p], DirDue(was[p], now, virtualDirTtl, evictableTtl));
  }

  lemma TickEnd(inodes: Table, queue: set<Due>, was: Table, now: nat, virtualDirTtl: nat, evictableTtl: nat)
    requires TickOk(inodes, was, now, virtualDirTtl, evictableTtl) && QueueOk(inodes, queue) && forall q :: q in queue ==> q.time > now
    ensures forall i :: i in inodes ==> i in was && Ticked(inodes[i], was[i], DirDue(was[i], now, virtualDirTtl, evictableTtl))
    ensures forall i :: i in was && (was[i].kind == File || (virtualDirTtl > 0 && evictableTtl > 0)) ==> (i in inodes <==> !Expired(was[i], now))
  {
    forall i | i in was && i in inodes ensures !Expired(was[i], now) {
      assert Ticked(inodes[i], was[i], DirDue(was[i], now, virtualDirTtl, evictableTtl));
      assert inodes[i].xTime != 0 ==> Due(inodes[i].xTime, i) in queue;
    }
  }

  /** A directory with a child is not on the queue. */
  lemma ParentIsIdle(t: Tree, i: nat)
    requires TreeOk(t) && EvictOk(t.inodes, t.phys, t.virt, {}) && i in t.inodes && i != ROOT
    ensures t.inodes[i].parent in t.inodes && t.inodes[t.inodes[i].parent].xTime == 0
  {
    hide PhysOk, VirtOk;
    assert NodeOk(t, i);
    var p := t.inodes[i].parent;
    assert Settled(t.inodes[p], p, t.phys, t.virt) && KeyOf(t.inodes[i]).dir == p;
  }

  // -------- When an operation succeeds --------

  /** An exclusive handle, alone on the inode, keeps others out. */
  ghost predicate CanOpen(inodes: Table, fhs: Handles, i: nat, denied: bool) {
    && i in inodes && inodes[i].kind == File && !denied
    && forall h :: h in inodes[i].handles && |inodes[i].handles| == 1 && h in fhs ==> !fhs[h].exclusive
  }

  predicate CanCloseDir(inodes: Table, fhs: Handles, i: nat, h: nat) {
    i in inodes && h in inodes[i].handles && inodes[i].kind != File && (inodes[i].kind == FuseRoot || (h in fhs ==> !fhs[h].listing))
  }

  /** The FUSE root, or a directory of a backend that is read-only. */
  predicate Forbidden(inodes: Table, parent: nat, readOnly: bool) {
    parent in inodes && inodes[parent].kind != File && (inodes[parent].kind == FuseRoot || readOnly)
  }

  predicate IsBackendDir(inodes: Table, i: nat) {
    i in inodes && inodes[i].kind in {BackendRoot, PseudoDir}
  }

  predicate Writable(inodes: Table, parent: nat, readOnly: bool) {
    IsBackendDir(inodes, parent) && !readOnly
  }

  /** What there is under a name: an inode, or else what the backend has. */
  function KindAt(t: Tree, k: Key, answer: Answer): Option<Kind> {
    if Known(t, k) then if Entry(t, k) in t.inodes then Some(t.inodes[Entry(t, k)].kind) else None
    else match answer
      case IsFile => Some(File)
      case IsDir => Some(PseudoDir)
      case Nothing => None
  }

  /** There is a file of this name that is not pending delete. */
  predicate HasFile(t: Tree, k: Key, answer: Answer) {
    if Known(t, k) then Entry(t, k) in t.inodes && t.inodes[Entry(t, k)].kind == File && !t.inodes[Entry(t, k)].pendingDelete
    else answer == IsFile
  }

  /** There is a directory of this name, without handles and without children. */
  ghost predicate HasEmptyDir(t: Tree, k: Key, answer: Answer) {
    if Known(t, k) then
      && Entry(t, k) in t.inodes && t.inodes[Entry(t, k)].kind == PseudoDir && t.inodes[Entry(t, k)].handles == {}
      && NoChildren(t.phys, t.virt, Entry(t, k))
    else answer == IsDir
  }

  /** There is a directory of this name, and a handle is open on it. */
  predicate HasOpenDir(t: Tree, k: Key) {
    && Known(t, k) && Entry(t, k) in t.inodes
    && t.inodes[Entry(t, k)].kind == PseudoDir && t.inodes[Entry(t, k)].handles != {}
  }

  // -------- What a lookup finds --------

  predicate Known(t: Tree, k: Key) {
    k in t.phys || k in t.virt
  }

  function Entry(t: Tree, k: Key): nat
    requires Known(t, k)
  {
    if k in t.phys then t.phys[k] else t.virt[k]
  }

  /** Every inode that was there still is, unchanged but for the eviction times of those in `touched`. */
  ghost predicate Same(was: Table, inodes: Table, touched: set<nat>) {
    forall j :: j in was ==> j in inodes && inodes[j] == if j in touched then was[j].(xTime := inodes[j].xTime) else was[j]
  }

  lemma SameRefl(inodes: Table, touched: set<nat>)
    ensures Same(inodes, inodes, touched)
  {
  }

  lemma SameSet(inodes: Table, i: nat, n: Inode)
    requires i in inodes && n == inodes[i].(xTime := n.xTime)
    ensures Same(inodes, inodes[i := n], {i})
  {
  }

  lemma SameAdded(was: Table, inodes: Table, parent: nat, i: nat)
    requires parent in was && parent in inodes && i in inodes && i !in was
    requires inodes == was[parent := was[parent].(xTime := inodes[parent].xTime)][i := inodes[i]]
    ensures Same(was, inodes, {parent})
  {
  }

  lemma SameMore(a: Table, b: Table, touched: set<nat>, touched': set<nat>)
    requires Same(a, b, touched) && touched <= touched'
    ensures Same(a, b, touched')
  {
  }

  lemma SameTrans(a: Table, b: Table, c: Table, touched: set<nat>)
    requires Same(a, b, touched) && Same(b, c, touched)
    ensures Same(a, c, touched)
  {
  }

  lemma SameMarked(was: Table, found: Table, inodes: Table, parent: nat, child: nat)
    requires Same(was, found, {parent, child}) && child in found && !found[child].pendingDelete
    requires inodes == found[child := found[child].(pendingDelete := true, xTime := 0)]
    ensures Same(was, inodes[child := inodes[child].(pendingDelete := false)], {parent, child})
  {
  }

  /** A known entry is found where it is; an unknown one is created, empty, in its parent's backend, if the backend has it. */
  ghost predicate Found(t: Tree, t': Tree, k: Key, answer: Answer, ok: bool, child: nat) {
    && k.dir in t.inodes && ok == (Known(t, k) || answer != Nothing)
    && Same(t.inodes, t'.inodes, if ok then {k.dir, child} else {k.dir})
    && t'.inodes.Keys == t.inodes.Keys + (if ok then {child} else {})
    && (Known(t, k) ==> child == Entry(t, k) && child in t.inodes && KeyOf(t'.inodes[child]) == k && t'.phys == t.phys && t'.virt == t.virt)
    && (ok && !Known(t, k) ==>
          && child !in t.inodes
          && t'.inodes[child] == Inode(if answer == IsDir then PseudoDir else File, t.inodes[k.dir].backend, k.dir, false, k.name, t'.inodes[child].xTime, 0, {}, false)
          && t'.phys == t.phys[k := child]
          && t'.virt == t.virt + (if answer == IsDir then map[Key(child, Dot) := child, Key(child, DotDot) := k.dir] else map[])
          && NoChildren(t'.phys, t'.virt, child))
    && (!ok ==> t'.phys == t.phys && t'.virt == t.virt)
  }

  lemma FoundFacts(t: Tree, t': Tree, k: Key, answer: Answer, ok: bool, child: nat)
    requires Found(t, t', k, answer, ok, child)
    ensures ok ==> child in t'.inodes
    ensures k.dir in t'.inodes
  {
    hide NoChildren;
  }

  lemma FoundTouched(t: Tree, t1: Tree, t2: Tree, k: Key, answer: Answer, ok: bool, child: nat)
    requires Found(t, t1, k, answer, ok, child) && t2.phys == t1.phys && t2.virt == t1.virt
    requires t2.inodes.Keys == t1.inodes.Keys && Same(t1.inodes, t2.inodes, if ok then {k.dir, child} else {k.dir})
    ensures Found(t, t2, k, answer, ok, child)
  {
    hide NoChildren;
  }

  lemma FoundKind(t: Tree, t': Tree, k: Key, answer: Answer, ok: bool, child: nat)
    requires Found(t, t', k, answer, ok, child)
    ensures if ok then child in t'.inodes && KindAt(t, k, answer) == Some(t'.inodes[child].kind) else KindAt(t, k, answer) == None
    ensures Same(t.inodes, t'.inodes, {k.dir, child})
  {
    hide NoChildren;
  }

  lemma NotFound(t: Tree, t': Tree, k: Key, answer: Answer, child: nat)
    requires Found(t, t', k, answer, false, child)
    ensures t'.inodes.Keys == t.inodes.Keys && t'.phys == t.phys && t'.virt == t.virt && !Known(t, k) && Same(t.inodes, t'.inodes, {k.dir})
    ensures k.dir in t'.inodes && t'.inodes[k.dir].kind == t.inodes[k.dir].kind && t'.inodes[k.dir].backend == t.inodes[k.dir].backend
  {
    hide NoChildren;
  }

  /** What Unlink looks for is there exactly if the lookup ends at a file that is not pending. */
  lemma FoundFile(t: Tree, t': Tree, k: Key, answer: Answer, ok: bool, child: nat)
    requires Found(t, t', k, answer, ok, child)
    ensures Same(t.inodes, t'.inodes, {k.dir, child}) && t'.inodes.Keys == t.inodes.Keys + if ok then {child} else {}
    ensures ok ==> KeyOf(t'.inodes[child]) == k && (Known(t, k) ==> child == Entry(t, k))
    ensures if ok then KindAt(t, k, answer) == Some(t'.inodes[child].kind) else KindAt(t, k, answer) == None
    ensures HasFile(t, k, answer) <==> ok && t'.inodes[child].kind == File && !t'.inodes[child].pendingDelete
  {
    hide NoChildren;
  }

  lemma FoundDir(t: Tree, t': Tree, k: Key, answer: Answer, ok: bool, child: nat)
    requires Found(t, t', k, answer, ok, child)
    ensures ok ==> KeyOf(t'.inodes[child]) == k && k.dir in t'.inodes && t'.inodes[k.dir].kind == t.inodes[k.dir].kind
    ensures HasOpenDir(t, k) <==> ok && t'.inodes[child].kind == PseudoDir && t'.inodes[child].handles != {}
    ensures HasEmptyDir(t, k, answer) <==>
      ok && t'.inodes[child].kind == PseudoDir && t'.inodes[child].handles == {} && NoChildren(t'.phys, t'.virt, child)
  {
    hide NoChildren;
  }

  /** The directory of that name is gone, with its entry and its own dots; nothing else is. */
  ghost predicate RemovedDir(t: Tree, t': Tree, k: Key, child: nat) {
    && !Known(t', k) && (if Known(t, k) then child == Entry(t, k) && child in t.inodes else child !in t.inodes)
    && t'.inodes.Keys == t.inodes.Keys - {child} && Same(t.inodes - {child}, t'.inodes, {k.dir})
    && t'.phys == t.phys - {k} && t'.virt == t.virt - {k, Key(child, Dot), Key(child, DotDot)}
    && (forall j :: j in t'.phys ==> j.dir != child) && (forall j :: j in t'.virt ==> j.dir != child)
  }

  /** Found, with no children, and then removed. */
  lemma FoundAndRemoved(t: Tree, t1: Tree, t2: Tree, k: Key, answer: Answer, child: nat)
    requires Found(t, t1, k, answer, true, child) && NoChildren(t1.phys, t1.virt, child) && child != k.dir && k.dir in t2.inodes && k.dir in t1.inodes
    requires t2.inodes == (t1.inodes - {child})[k.dir := t1.inodes[k.dir].(xTime := t2.inodes[k.dir].xTime)]
    requires t2.phys == t1.phys - {k} && t2.virt == t1.virt - {k, Key(child, Dot), Key(child, DotDot)}
    ensures RemovedDir(t, t2, k, child)
  {
    hide Found, Same, NoChildren;
    InodesCut(t, t1, t2.inodes, k, answer, child, t2.inodes[k.dir].xTime);
    EntriesCut(t, t1, k, answer, child);
    CutLeavesNone(t1.phys, t1.virt, k, child);
  }

  lemma InodesCut(t: Tree, t1: Tree, inodes: Table, k: Key, answer: Answer, child: nat, x: nat)
    requires Found(t, t1, k, answer, true, child) && child != k.dir && k.dir in t1.inodes
    requires inodes == (t1.inodes - {child})[k.dir := t1.inodes[k.dir].(xTime := x)]
    ensures if Known(t, k) then child == Entry(t, k) && child in t.inodes else child !in t.inodes
    ensures inodes.Keys == t.inodes.Keys - {child} && Same(t.inodes - {child}, inodes, {k.dir})
  {
    hide NoChildren;
  }

  lemma EntriesCut(t: Tree, t1: Tree, k: Key, answer: Answer, child: nat)
    requires Found(t, t1, k, answer, true, child)
    ensures t1.phys - {k} == t.phys - {k}
    ensures t1.virt - {k, Key(child, Dot), Key(child, DotDot)} == t.virt - {k, Key(child, Dot), Key(child, DotDot)}
  {
    hide NoChildren, Same;
    CutDots(t.virt, k, child, k.dir);
  }

  lemma CutDots(virt: Entries, k: Key, child: nat, parent: nat)
    ensures virt + map[Key(child, Dot) := child, Key(child, DotDot) := parent] - {k, Key(child, Dot), Key(child, DotDot)}
      == virt - {k, Key(child, Dot), Key(child, DotDot)}
  {
  }

  lemma CutLeavesNone(phys: Entries, virt: Entries, k: Key, child: nat)
    requires NoChildren(phys, virt, child)
    ensures forall j :: j in phys - {k} ==> j.dir != child
    ensures forall j :: j in virt - {k, Key(child, Dot), Key(child, DotDot)} ==> j.dir != child
  {
    forall j | j in virt && j.dir == child ensures j == Key(child, Dot) || j == Key(child, DotDot) {
      assert IsDot(j.name);
    }
  }

  lemma LooksSame(t: Tree, t': Tree, k: Key, answer: Answer, i: nat, x: nat)
    requires t'.phys == t.phys && t'.virt == t.virt && i in t.inodes && t'.inodes == t.inodes[i := t.inodes[i].(xTime := x)]
    ensures HasFile(t, k, answer) <==> HasFile(t', k, answer)
    ensures KindAt(t, k, answer) == KindAt(t', k, answer)
  {
  }

  /** `inodes` before an unlink that succeeded marked the child. */
  ghost function Unmarked(inodes: Table, child: nat, err: Errno): Table {
    if err == OK && child in inodes then inodes[child := inodes[child].(pendingDelete := false)] else inodes
  }

  /**
   The file of that name is marked and taken off the queue; a refusal says why. A name that only the
   backend knew is known afterwards. Nothing else changes but the times of the parent and the child.
   */
  ghost predicate Unlinked(was: Tree, inodes: Table, k: Key, answer: Answer, readOnly: bool, err: Errno, child: nat) {
    && Same(was.inodes, Unmarked(inodes, child, err), {k.dir, child})
    && inodes.Keys == was.inodes.Keys + (if Writable(was.inodes, k.dir, readOnly) && KindAt(was, k, answer).Some? then {child} else {})
    && (err == OK <==> Writable(was.inodes, k.dir, readOnly) && HasFile(was, k, answer))
    && (err == OK ==>
          && child in inodes && KeyOf(inodes[child]) == k && inodes[child].kind == File && inodes[child].pendingDelete
          && (Known(was, k) ==> child == Entry(was, k)) && inodes[child].xTime == 0)
    && (err == EISDIR <==> Writable(was.inodes, k.dir, readOnly) && KindAt(was, k, answer) == Some(PseudoDir))
    && (err == ENOENT <==> Writable(was.inodes, k.dir, readOnly) && KindAt(was, k, answer) != Some(PseudoDir) && !HasFile(was, k, answer))
    && (err == EPERM <==> Forbidden(was.inodes, k.dir, readOnly))
    && (err == ENOTDIR <==> k.dir !in was.inodes || was.inodes[k.dir].kind == File)
  }

  /** A touch of the parent first makes no difference. */
  lemma UnlinkedAfter(was: Tree, t: Tree, inodes: Table, k: Key, answer: Answer, readOnly: bool, err: Errno, child: nat)
    requires Unlinked(t, inodes, k, answer, readOnly, err, child) && t.phys == was.phys && t.virt == was.virt
    requires k.dir in was.inodes && k.dir in t.inodes && t.inodes == was.inodes[k.dir := was.inodes[k.dir].(xTime := t.inodes[k.dir].xTime)]
    ensures Unlinked(was, inodes, k, answer, readOnly, err, child)
  {
    hide Same, HasFile, KindAt, Unmarked;
    LooksSame(was, t, k, answer, k.dir, t.inodes[k.dir].xTime);
    SameSet(was.inodes, k.dir, t.inodes[k.dir]);
    SameMore(was.inodes, t.inodes, {k.dir}, {k.dir, child});
    SameTrans(was.inodes, t.inodes, Unmarked(inodes, child, err), {k.dir, child});
  }

  /** Refused before the lookup. */
  lemma UnlinkRefused(t: Tree, k: Key, answer: Answer, readOnly: bool)
    requires !Writable(t.inodes, k.dir, readOnly)
    ensures Unlinked(t, t.inodes, k, answer, readOnly, if Forbidden(t.inodes, k.dir, readOnly) then EPERM else ENOTDIR, 0)
  {
    hide KindAt, HasFile;
  }

  /** After the lookup, with what became of the child, if there is one. */
  lemma UnlinkAnswered(t: Tree, t': Tree, inodes: Table, k: Key, answer: Answer, readOnly: bool, ok: bool, err: Errno, child: nat)
    requires Writable(t.inodes, k.dir, readOnly) && Found(t, t', k, answer, ok, child)
    requires !ok ==> err == ENOENT && inodes == t'.inodes
    requires ok ==> child in t'.inodes && inodes.Keys == t'.inodes.Keys && t'.inodes[child].kind in {File, PseudoDir} && err in {OK, EISDIR, ENOENT}
    requires ok ==> (err == OK <==> t'.inodes[child].kind == File && !t'.inodes[child].pendingDelete) && (err == EISDIR <==> t'.inodes[child].kind != File)
    requires ok && err == OK ==> inodes == t'.inodes[child := t'.inodes[child].(pendingDelete := true, xTime := 0)]
    requires ok && err != OK ==> Same(t'.inodes, inodes, {child})
    ensures Unlinked(t, inodes, k, answer, readOnly, err, child)
  {
    FoundFile(t, t', k, answer, ok, child);
    hide KindAt, HasFile, Found, Same;
    if ok && err == OK {
      SameMarked(t.inodes, t'.inodes, inodes, k.dir, child);
    } else if ok {
      SameMore(t'.inodes, inodes, {child}, {k.dir, child});
      SameTrans(t.inodes, t'.inodes, inodes, {k.dir, child});
    }
  }

  lemma EmptyCounts(t: Tree, i: nat)
    requires TreeOk(t) && i in t.inodes && t.inodes[i].kind == PseudoDir
    ensures |Under(t.phys, i)| == 0 && |Under(t.virt, i)| <= 2 <==> NoChildren(t.phys, t.virt, i)
  {
    hide TreeOk, NoChildren;
    CountsMeanNoChildren(t, i);
    if |Under(t.phys, i)| == 0 && |Under(t.virt, i)| <= 2 {
      EmptyDirFacts(t, i);
    }
  }

  lemma FreshIsEmpty(t: Tree, t': Tree, i: nat, n: Inode)
    requires TreeOk(t) && CanAdd(t, i, n) && Lists(t, t', i, n)
    ensures NoChildren(t'.phys, t'.virt, i)
  {
    assert NodeOk(t, n.parent);
    forall k | k in t'.phys ensures k.dir != i {
      PhysBelow(t, k);
    }
  }

  lemma PhysBelow(t: Tree, k: Key)
    requires TreeOk(t)
    ensures k in t.phys ==> k.dir <= t.lastNonce
  {
    if k in t.phys {
      assert Names(t.inodes, k, t.phys[k], false);
      var i := t.phys[k];
      assert NodeOk(t, i) && NodeOk(t, t.inodes[i].parent);
    }
  }

  /** An unlinked file that is still there. */
  predicate Waits(t: Tree, i: nat, finishing: set<nat>)
    requires i in t.inodes
  {
    var n := t.inodes[i];
    && n.pendingDelete && n.xTime == 0 && n.parent in t.inodes && t.inodes[n.parent].xTime == 0
    && (i in finishing <==> n.handles == {})
  }

  ghost predicate Once(s: seq<nat>, i: nat) {
    exists k :: 0 <= k < |s| && s[k] == i && forall j :: 0 <= j < |s| && j != k ==> s[j] != i
  }

  lemma Accounted(t: Tree, finishing: set<nat>, unlinked: set<nat>, finished: seq<nat>, i: nat)
    requires TreeOk(t) && EvictOk(t.inodes, t.phys, t.virt, {}) && DeleteOk(t.inodes, finishing, unlinked, finished, t.lastNonce) && i in unlinked
    ensures i in t.inodes ==> Waits(t, i, finishing) && i !in finished
    ensures i !in t.inodes ==> Once(finished, i)
  {
    hide TreeOk, EvictOk;
    if i in t.inodes {
      PendingIsSafe(t, i);
    } else {
      var k :| 0 <= k < |finished| && finished[k] == i;
    }
  }

  lemma BelowBackend(t: Tree, i: nat)
    requires TreeOk(t) && i in t.inodes && t.inodes[i].parent in t.inodes && t.inodes[t.inodes[i].parent].kind in {BackendRoot, PseudoDir}
    ensures t.inodes[i].kind in {File, PseudoDir}
  {
    assert NodeOk(t, i) && NodeOk(t, t.inodes[i].parent);
  }

  lemma HandleFlag(inodes: Table, fhs: Handles, lastNonce: nat, h: nat, on: bool)
    requires HandleOk(inodes, fhs, lastNonce) && h in fhs
    ensures HandleOk(inodes, fhs[h := fhs[h].(listing := on)], lastNonce)
  {
    forall i | i in inodes ensures OpenOn(fhs[h := fhs[h].(listing := on)], i, inodes[i].handles) {
      assert OpenOn(fhs, i, inodes[i].handles);
    }
  }

  /** An inode that no handle, entry or pending delete holds on to can go. */
  lemma RemoveAll(t: Tree, t': Tree, queue: set<Due>, fhs: Handles, finishing: set<nat>, unlinked: set<nat>, finished: seq<nat>, i: nat)
    requires TreeOk(t) && QueueOk(t.inodes, queue) && HandleOk(t.inodes, fhs, t.lastNonce)
    requires DeleteOk(t.inodes, finishing, unlinked, finished, t.lastNonce) && EvictOk(t.inodes, t.phys, t.virt, {})
    requires Leaf(t, i) && Removed(t, t', i) && t.inodes[i].handles == {} && (t.inodes[i].kind == File ==> !t.inodes[i].pendingDelete)
    ensures TreeOk(t') && QueueOk(t'.inodes, Requeued(queue, i, t.inodes[i].xTime, 0)) && HandleOk(t'.inodes, fhs, t'.lastNonce)
    ensures DeleteOk(t'.inodes, finishing, unlinked, finished, t'.lastNonce) && EvictOk(t'.inodes, t'.phys, t'.virt, {} + {t.inodes[i].parent})
  {
    hide TreeOk, QueueOk, HandleOk, DeleteOk, EvictOk;
    TreeRemove(t, t', i);
    QueueRemove(t.inodes, queue, i);
    HandleRemove(t.inodes, fhs, t.lastNonce, i);
    DeleteRemove(t.inodes, finishing, unlinked, finished, t.lastNonce, i);
    EvictRemove(t, t', {}, i);
  }

  lemma FreshNumber(t: Tree, i: nat)
    requires TreeOk(t) && i > t.lastNonce
    ensures i !in t.inodes && i != ROOT && Key(i, Dot) !in t.virt && Key(i, DotDot) !in t.virt
  {
    hide PhysOk;
    assert i in t.inodes ==> NodeOk(t, i);
    assert NodeOk(t, ROOT);
  }

  lemma NonceGrows(t: Tree, t': Tree)
    requires TreeOk(t) && t'.inodes == t.inodes && t'.phys == t.phys && t'.virt == t.virt && t.lastNonce <= t'.lastNonce && t.backends <= t'.backends
    requires forall b :: b in t'.backends ==> b in t.backends || b <= t'.lastNonce
    ensures TreeOk(t')
  {
    forall i | i in t'.inodes ensures NodeOk(t', i) {
      assert NodeOk(t, i);
    }
  }

  lemma OthersGrow(inodes: Table, fhs: Handles, finishing: set<nat>, unlinked: set<nat>, finished: seq<nat>, lastNonce: nat, nonce: nat)
    requires HandleOk(inodes, fhs, lastNonce) && DeleteOk(inodes, finishing, unlinked, finished, lastNonce) && lastNonce <= nonce
    ensures HandleOk(inodes, fhs, nonce) && DeleteOk(inodes, finishing, unlinked, finished, nonce)
  {
  }

  /** Roots are never queued, so they are settled as long as they are not on the queue. */
  lemma RootsSettle(inodes: Table, phys: Entries, virt: Entries, dirty: set<nat>)
    requires EvictOk(inodes, phys, virt, dirty)
    requires forall i :: i in dirty && i in inodes ==> inodes[i].xTime == 0 && inodes[i].kind in {FuseRoot, BackendRoot}
    ensures EvictOk(inodes, phys, virt, {})
  {
  }

  lemma RootFacts(t: Tree, inodes: Table, phys: Entries, virt: Entries, dirty: set<nat>)
    requires TreeOk(t) && t.inodes == inodes && EvictOk(inodes, phys, virt, dirty) && ROOT !in dirty
    ensures ROOT in inodes && inodes[ROOT].kind == FuseRoot && inodes[ROOT].xTime == 0
  {
    assert NodeOk(t, ROOT) && Settled(inodes[ROOT], ROOT, phys, virt);
  }

  lemma ParentFacts(t: Tree, parent: nat)
    requires TreeOk(t) && parent in t.inodes && t.inodes[parent].kind in {BackendRoot, PseudoDir}
    ensures parent != ROOT && t.inodes[parent].backend in t.backends
  {
    assert NodeOk(t, parent);
  }

  /** A queued inode may be evicted, has a parent, and is listed there under its name. */
  lemma QueuedFacts(t: Tree, dirty: set<nat>, i: nat)
    requires TreeOk(t) && EvictOk(t.inodes, t.phys, t.virt, dirty) && i in t.inodes && i !in dirty && t.inodes[i].xTime != 0
    ensures var n := t.inodes[i];
      && i != ROOT && n.parent in t.inodes && n.parent != i && Maps(if n.isVirt then t.virt else t.phys, KeyOf(n), i)
      && Evictable(n, i, t.phys, t.virt) && Leaf(t, i) && n.handles == {} && (n.kind == File ==> !n.pendingDelete)
  {
    assert NodeOk(t, i) && Settled(t.inodes[i], i, t.phys, t.virt);
  }

  lemma ChildFacts(t: Tree, i: nat)
    requires TreeOk(t) && i in t.inodes && t.inodes[i].kind in {File, PseudoDir}
    ensures var n := t.inodes[i];
      && i != ROOT && n.parent in t.inodes && n.parent != i && n.backend in t.backends && n.backend == t.inodes[n.parent].backend
      && Maps(if n.isVirt then t.virt else t.phys, KeyOf(n), i)
      && (n.isVirt ==> KeyOf(n) !in t.phys)
  {
    assert NodeOk(t, i);
  }

  /** An inode's entry is in one of the two maps, and not in the other. */
  lemma OneEntry(t: Tree, i: nat)
    requires TreeOk(t) && i in t.inodes && i != ROOT
    ensures KeyOf(t.inodes[i]) !in if t.inodes[i].isVirt then t.phys else t.virt
  {
    assert NodeOk(t, i);
  }

  lemma EntryFacts(t: Tree, k: Key)
    requires TreeOk(t) && !IsDot(k.name)
    ensures k in t.phys ==> k !in t.virt && Names(t.inodes, k, t.phys[k], false)
    ensures k in t.virt ==> Names(t.inodes, k, t.virt[k], true)
  {
  }

  lemma NumbersAreNew(t: Tree)
    requires TreeOk(t)
    ensures forall b :: b in t.backends ==> b <= t.lastNonce
  {
  }

  lemma MountsDiffer(t: Tree, i: nat, j: nat)
    requires TreeOk(t) && i in t.inodes && j in t.inodes && t.inodes[i].kind == t.inodes[j].kind == BackendRoot
    requires t.inodes[i].backend == t.inodes[j].backend
    ensures i == j
  {
    assert NodeOk(t, i) && NodeOk(t, j);
  }

  lemma NumberBound(t: Tree, i: nat)
    requires TreeOk(t) && i in t.inodes
    ensures i <= t.lastNonce
  {
    assert NodeOk(t, i);
  }

  lemma PendingFacts(inodes: Table, finishing: set<nat>, unlinked: set<nat>, finished: seq<nat>, lastNonce: nat, i: nat)
    requires DeleteOk(inodes, finishing, unlinked, finished, lastNonce)
    ensures i in inodes ==> (inodes[i].pendingDelete <==> i in unlinked) && (inodes[i].pendingDelete ==> inodes[i].kind == File)
    ensures i in finishing <==> i in inodes && inodes[i].pendingDelete && inodes[i].handles == {}
  {
  }

  lemma HandleFacts(inodes: Table, fhs: Handles, lastNonce: nat, i: nat, h: nat)
    requires HandleOk(inodes, fhs, lastNonce) && i in inodes && h in inodes[i].handles
    ensures h in fhs && fhs[h].ino == i
  {
    assert OpenOn(fhs, i, inodes[i].handles);
  }

  lemma FreshHandle(fhs: Handles, inodes: Table, lastNonce: nat, h: nat)
    requires HandleOk(inodes, fhs, lastNonce) && h > lastNonce
    ensures h !in fhs
  {
  }

  lemma NotQueued(t: Tree, i: nat)
    requires EvictOk(t.inodes, t.phys, t.virt, {}) && i in t.inodes && t.inodes[i].kind == File && t.inodes[i].pendingDelete
    ensures t.inodes[i].xTime == 0
  {
    assert Settled(t.inodes[i], i, t.phys, t.virt);
  }

  lemma NotQueuedFile(inodes: Table, phys: Entries, virt: Entries, i: nat)
    requires EvictOk(inodes, phys, virt, {}) && i in inodes && inodes[i].kind == File && (inodes[i].handles != {} || inodes[i].inbound > 0)
    ensures inodes[i].xTime == 0
  {
    assert Settled(inodes[i], i, phys, virt);
  }

  lemma EmptyDirFacts(t: Tree, i: nat)
    requires TreeOk(t) && i in t.inodes && t.inodes[i].kind == PseudoDir && |Under(t.phys, i)| == 0 && |Under(t.virt, i)| <= 2
    ensures Leaf(t, i) && t.inodes[i].parent in t.inodes && t.inodes[i].parent != i
    ensures Key(i, Dot) in t.virt && Key(i, DotDot) in t.virt
    ensures Maps(if t.inodes[i].isVirt then t.virt else t.phys, KeyOf(t.inodes[i]), i)
  {
    hide PhysOk, VirtOk;
    assert NodeOk(t, i);
    assert {Key(i, Dot), Key(i, DotDot)} <= Under(t.virt, i);
    SubsetSize({Key(i, Dot), Key(i, DotDot)}, Under(t.virt, i));
    CountsMeanNoChildren(t, i);
  }

  lemma DirRemoved(t: Tree, t': Tree, i: nat)
    requires i in t.inodes && t'.inodes == t.inodes - {i} && t'.lastNonce == t.lastNonce && t'.backends == t.backends
    requires t'.phys == if t.inodes[i].isVirt then t.phys else t.phys - {KeyOf(t.inodes[i])}
    requires t'.virt == if t.inodes[i].isVirt then t.virt - {Key(i, Dot)} - {Key(i, DotDot)} - {KeyOf(t.inodes[i])} else t.virt - {Key(i, Dot)} - {Key(i, DotDot)}
    ensures Removed(t, t', i)
  {
  }

  lemma ParentIsDir(t: Tree, i: nat)
    requires TreeOk(t) && i in t.inodes && i != ROOT
    ensures t.inodes[i].parent in t.inodes && t.inodes[t.inodes[i].parent].kind != File
  {
    assert NodeOk(t, i);
  }

  lemma DueFacts(inodes: Table, queue: set<Due>, q: Due)
    requires QueueOk(inodes, queue) && q in queue
    ensures q.ino in inodes && q == Due(inodes[q.ino].xTime, q.ino) && q.time != 0
  {
  }
}
