/**
 The inode table, the two directory-entry maps, the eviction queue and the
 open handles, as values, with the invariant that ties them together.

 The invariant is split by the tables it speaks of. `dirty` names the inodes
 whose place on the eviction queue is out of date until they are touched.
 */
module Inodes {
  import opened Collections

  const ROOT: nat := 1

  datatype Kind = File | FuseRoot | BackendRoot | PseudoDir

  /** `xTime` 0 is Go's zero time: not on the eviction queue. */
  datatype Inode = Inode(kind: Kind, backend: nat, parent: nat, isVirt: bool, name: Name,
                         xTime: nat, inbound: nat, handles: set<nat>, pendingDelete: bool)

  /** A directory entry's key: parent inode number and basename. */
  datatype Key = Key(dir: nat, name: Name)

  /** An element of the eviction queue, ordered by time, then inode number. */
  datatype Due = Due(time: nat, ino: nat)

  datatype Handle = Handle(ino: nat, exclusive: bool, listing: bool)

  type Table = map<nat, Inode>
  type Entries = map<Key, nat>
  type Handles = map<nat, Handle>

  /** A basename: the two entries every directory has for itself and its parent, or any other. */
  datatype Name = Dot | DotDot | Base(text: string)

  predicate IsDot(name: Name) {
    !name.Base?
  }

  predicate Maps(m: Entries, k: Key, i: nat) {
    k in m && m[k] == i
  }

  function KeyOf(n: Inode): Key {
    Key(n.parent, n.name)
  }

  // -------- The tree --------

  datatype Tree = Tree(inodes: Table, phys: Entries, virt: Entries, lastNonce: nat, backends: set<nat>)

  predicate NodeOk(t: Tree, i: nat)
    requires i in t.inodes
  {
    var n := t.inodes[i];
    && 0 < i <= t.lastNonce
    && (n.kind == FuseRoot <==> i == ROOT)
    && (i == ROOT ==> n.parent == ROOT)
    && (i != ROOT ==>
          && n.parent in t.inodes && n.parent < i && t.inodes[n.parent].kind != File
          && !IsDot(n.name) && n.backend in t.backends
          && (n.kind == BackendRoot <==> n.parent == ROOT)
          && (if n.parent == ROOT then n.backend == i - 1 else n.backend == t.inodes[n.parent].backend)
          && Maps(if n.isVirt then t.virt else t.phys, KeyOf(n), i))
    && (n.kind != File ==> Maps(t.virt, Key(i, Dot), i) && Maps(t.virt, Key(i, DotDot), n.parent))
  }

  /** Entry `k` names inode `i`, which agrees. */
  predicate Names(inodes: Table, k: Key, i: nat, isVirt: bool) {
    i in inodes && i != ROOT && KeyOf(inodes[i]) == k && inodes[i].isVirt == isVirt
  }

  ghost predicate NodesOk(t: Tree) {
    ROOT in t.inodes && (forall i :: i in t.inodes ==> NodeOk(t, i)) && (forall b :: b in t.backends ==> b <= t.lastNonce)
  }

  ghost predicate PhysOk(t: Tree) {
    forall k :: k in t.phys ==> !IsDot(k.name) && k !in t.virt && Names(t.inodes, k, t.phys[k], false)
  }

  ghost predicate VirtOk(t: Tree) {
    forall k :: k in t.virt ==> k.dir <= t.lastNonce && (!IsDot(k.name) ==> Names(t.inodes, k, t.virt[k], true))
  }

  ghost predicate TreeOk(t: Tree) {
    NodesOk(t) && PhysOk(t) && VirtOk(t)
  }

  // -------- The eviction queue --------

  ghost predicate NoChildren(phys: Entries, virt: Entries, d: nat) {
    && (forall k :: k in phys ==> k.dir != d)
    && (forall k :: k in virt && k.dir == d ==> IsDot(k.name))
  }

  /** What `touch` demands before it queues an inode. */
  ghost predicate Evictable(n: Inode, i: nat, phys: Entries, virt: Entries) {
    match n.kind
    case File => !n.pendingDelete && n.handles == {} && n.inbound == 0
    case PseudoDir => n.handles == {} && NoChildren(phys, virt, i)
    case _ => false
  }

  ghost predicate Settled(n: Inode, i: nat, phys: Entries, virt: Entries) {
    && (n.xTime != 0 ==> Evictable(n, i, phys, virt))
    && (n.kind == PseudoDir && Evictable(n, i, phys, virt) ==> n.xTime != 0)
  }

  ghost predicate EvictOk(inodes: Table, phys: Entries, virt: Entries, dirty: set<nat>) {
    forall i :: i in inodes && i !in dirty ==> Settled(inodes[i], i, phys, virt)
  }

  ghost predicate QueueOk(inodes: Table, queue: set<Due>) {
    && (forall i :: i in inodes && inodes[i].xTime != 0 ==> Due(inodes[i].xTime, i) in queue)
    && (forall q :: q in queue ==> q.time != 0 && q.ino in inodes && inodes[q.ino].xTime == q.time)
  }

  // -------- Handles --------

  ghost predicate OpenOn(fhs: Handles, i: nat, handles: set<nat>) {
    forall h :: h in handles ==> h in fhs && fhs[h].ino == i
  }

  ghost predicate HandleOk(inodes: Table, fhs: Handles, lastNonce: nat) {
    && (forall i :: i in inodes ==> OpenOn(fhs, i, inodes[i].handles))
    && (forall h :: h in fhs ==> h <= lastNonce && fhs[h].ino in inodes && h in inodes[fhs[h].ino].handles)
  }

  // -------- Deferred deletion --------

  /**
   `unlinked`: every file ever unlinked; `finished`: those taken away by finishPendingDelete, in order;
   `finishing`: those for which some thread has dropped the lock and is about to call it.
   */
  ghost predicate DeleteOk(inodes: Table, finishing: set<nat>, unlinked: set<nat>, finished: seq<nat>, lastNonce: nat) {
    && (forall i :: i in inodes ==> (inodes[i].pendingDelete <==> i in unlinked))
    && (forall i :: i in inodes && inodes[i].pendingDelete ==> inodes[i].kind == File)
    && (forall i :: i in finishing <==> i in inodes && inodes[i].pendingDelete && inodes[i].handles == {})
    && (forall i :: i in unlinked ==> i <= lastNonce && (i !in inodes ==> i in finished))
    && (forall k :: 0 <= k < |finished| ==> finished[k] in unlinked && finished[k] !in inodes)
    && (forall j, k :: 0 <= j < k < |finished| ==> finished[j] != finished[k])
  }

  // -------- Changing one inode's own fields --------

  predicate SamePlace(n: Inode, n': Inode) {
    n'.kind == n.kind && n'.backend == n.backend && n'.parent == n.parent && n'.isVirt == n.isVirt && n'.name == n.name
  }

  lemma SetNodes(t: Tree, i: nat, n: Inode)
    requires NodesOk(t) && i in t.inodes && SamePlace(t.inodes[i], n)
    ensures NodesOk(t.(inodes := t.inodes[i := n]))
  {
    var t' := t.(inodes := t.inodes[i := n]);
    forall j | j in t'.inodes ensures NodeOk(t', j) {
      assert NodeOk(t, j);
    }
  }

  lemma SetEntries(t: Tree, i: nat, n: Inode)
    requires PhysOk(t) && VirtOk(t) && i in t.inodes && SamePlace(t.inodes[i], n)
    ensures PhysOk(t.(inodes := t.inodes[i := n])) && VirtOk(t.(inodes := t.inodes[i := n]))
  {
    var t' := t.(inodes := t.inodes[i := n]);
    forall k | k in t.phys ensures Names(t'.inodes, k, t.phys[k], false) {
      assert Names(t.inodes, k, t.phys[k], false);
    }
    forall k | k in t.virt && !IsDot(k.name) ensures Names(t'.inodes, k, t.virt[k], true) {
      assert Names(t.inodes, k, t.virt[k], true);
    }
  }

  lemma TreeSet(t: Tree, i: nat, n: Inode)
    requires TreeOk(t) && i in t.inodes && SamePlace(t.inodes[i], n)
    ensures TreeOk(t.(inodes := t.inodes[i := n]))
  {
    hide NodesOk, PhysOk, VirtOk;
    SetNodes(t, i, n);
    SetEntries(t, i, n);
  }

  // -------- Removing an inode that has no children --------

  ghost predicate Leaf(t: Tree, i: nat) {
    i in t.inodes && i != ROOT && (t.inodes[i].kind == File || NoChildren(t.phys, t.virt, i))
  }

  /** Nothing lists a leaf as its parent. */
  lemma Childless(t: Tree, i: nat, j: nat)
    requires TreeOk(t) && Leaf(t, i) && j in t.inodes && j != ROOT
    ensures t.inodes[j].parent != i
  {
    assert NodeOk(t, j);
  }

  /** `t'` is `t` without inode `i` and its entry, and perhaps without its own dot entries. */
  ghost predicate Removed(t: Tree, t': Tree, i: nat)
    requires i in t.inodes
  {
    var k := KeyOf(t.inodes[i]);
    && t'.inodes == t.inodes - {i} && t'.lastNonce == t.lastNonce && t'.backends == t.backends
    && t'.phys == (if t.inodes[i].isVirt then t.phys else t.phys - {k})
    && (forall k' :: k' in t'.virt ==> k' in t.virt && t'.virt[k'] == t.virt[k'])
    && (forall k' :: k' in t.virt && k' !in t'.virt ==> (t.inodes[i].isVirt && k' == k) || k'.dir == i)
    && (t.inodes[i].isVirt ==> k !in t'.virt)
  }

  lemma RemoveKeepsNode(t: Tree, t': Tree, i: nat, j: nat)
    requires i in t.inodes && Removed(t, t', i) && j in t'.inodes && NodeOk(t, j) && NodeOk(t, i) && i != ROOT
    requires j != ROOT ==> t.inodes[j].parent != i
    ensures NodeOk(t', j)
  {
    var key := KeyOf(t.inodes[j]);
    assert j != ROOT ==> Maps(if t.inodes[j].isVirt then t.virt else t.phys, key, j);
    assert j != ROOT ==> Maps(if t'.inodes[j].isVirt then t'.virt else t'.phys, key, j);
  }

  lemma RemoveNodes(t: Tree, t': Tree, i: nat)
    requires TreeOk(t) && Leaf(t, i) && Removed(t, t', i)
    ensures NodesOk(t')
  {
    hide Removed, PhysOk, VirtOk;
    assert NodeOk(t, i) && NodeOk(t, ROOT);
    RemovedIs(t, t', i);
    forall j | j in t'.inodes ensures NodeOk(t', j) {
      assert NodeOk(t, j);
      if j != ROOT {
        Childless(t, i, j);
      }
      RemoveKeepsNode(t, t', i, j);
    }
  }

  lemma RemovedIs(t: Tree, t': Tree, i: nat)
    requires i in t.inodes && Removed(t, t', i)
    ensures t'.inodes == t.inodes - {i} && t'.lastNonce == t.lastNonce && t'.backends == t.backends
  {
  }

  lemma RemovePhys(t: Tree, t': Tree, i: nat)
    requires PhysOk(t) && i in t.inodes && NodeOk(t, i) && i != ROOT && Removed(t, t', i)
    ensures PhysOk(t')
  {
    forall k | k in t'.phys ensures !IsDot(k.name) && k !in t'.virt && Names(t'.inodes, k, t'.phys[k], false) {
      assert Names(t.inodes, k, t.phys[k], false);
    }
  }

  lemma RemoveVirt(t: Tree, t': Tree, i: nat)
    requires VirtOk(t) && i in t.inodes && NodeOk(t, i) && i != ROOT && Removed(t, t', i)
    ensures VirtOk(t')
  {
    forall k | k in t'.virt && !IsDot(k.name) ensures Names(t'.inodes, k, t'.virt[k], true) {
      assert Names(t.inodes, k, t.virt[k], true);
    }
  }

  lemma RemoveEntries(t: Tree, t': Tree, i: nat)
    requires PhysOk(t) && VirtOk(t) && NodesOk(t) && i in t.inodes && i != ROOT && Removed(t, t', i)
    ensures PhysOk(t') && VirtOk(t')
  {
    hide PhysOk, VirtOk, Removed;
    assert NodeOk(t, i);
    RemovePhys(t, t', i);
    RemoveVirt(t, t', i);
  }

  lemma TreeRemove(t: Tree, t': Tree, i: nat)
    requires TreeOk(t) && Leaf(t, i) && Removed(t, t', i)
    ensures TreeOk(t')
  {
    hide NodesOk, PhysOk, VirtOk, Removed;
    RemoveNodes(t, t', i);
    RemoveEntries(t, t', i);
  }

  // -------- Adding an inode --------

  predicate CanAdd(t: Tree, i: nat, n: Inode) {
    && i > t.lastNonce && i != ROOT && n.kind != FuseRoot
    && n.parent in t.inodes && t.inodes[n.parent].kind != File && (n.kind == BackendRoot <==> n.parent == ROOT)
    && (if n.parent == ROOT then n.backend == i - 1 else n.backend == t.inodes[n.parent].backend)
    && !IsDot(n.name) && KeyOf(n) !in t.phys && KeyOf(n) !in t.virt
  }

  function Dots(i: nat, n: Inode): Entries {
    if n.kind == File then map[] else map[Key(i, Dot) := i, Key(i, DotDot) := n.parent]
  }

  /** `t` with inode `i`, its entry in its parent and its own dot entries. */
  function Added(t: Tree, i: nat, n: Inode, backends: set<nat>): Tree {
    Tree(t.inodes[i := n],
         if n.isVirt then t.phys else t.phys[KeyOf(n) := i],
         (if n.isVirt then t.virt[KeyOf(n) := i] else t.virt) + Dots(i, n),
         i, backends)
  }

  /** `phys'` is `phys` with the entry of `i`, if it goes there. */
  ghost predicate PhysLists(phys: Entries, phys': Entries, i: nat, n: Inode) {
    && (forall k :: k in phys ==> k in phys' && phys'[k] == phys[k])
    && (forall k :: k in phys' && k !in phys ==> k == KeyOf(n) && !n.isVirt && phys'[k] == i)
    && (!n.isVirt ==> Maps(phys', KeyOf(n), i))
  }

  /** `virt'` is `virt` with the entry of `i`, if it goes there, and `i`'s dots. */
  ghost predicate VirtLists(virt: Entries, virt': Entries, i: nat, n: Inode) {
    && (forall k :: k in virt ==> k in virt' && virt'[k] == virt[k])
    && (forall k :: k in virt' && k !in virt ==> (k == KeyOf(n) && n.isVirt && virt'[k] == i) || (k.dir == i && IsDot(k.name)))
    && (n.isVirt ==> Maps(virt', KeyOf(n), i))
    && (n.kind != File ==> Maps(virt', Key(i, Dot), i) && Maps(virt', Key(i, DotDot), n.parent))
  }

  ghost predicate Lists(t: Tree, t': Tree, i: nat, n: Inode) {
    t'.inodes == t.inodes[i := n] && t'.lastNonce == i && PhysLists(t.phys, t'.phys, i, n) && VirtLists(t.virt, t'.virt, i, n)
  }

  lemma DotsAdded(virt: Entries, virt': Entries, i: nat, n: Inode)
    requires virt' == virt + Dots(i, n) && forall k :: k in virt ==> k.dir != i
    ensures forall k :: k in virt ==> k in virt' && virt'[k] == virt[k]
    ensures forall k :: k in virt' && k !in virt ==> k.dir == i && IsDot(k.name)
    ensures n.kind != File ==> Maps(virt', Key(i, Dot), i) && Maps(virt', Key(i, DotDot), n.parent)
  {
  }

  lemma AddPhysLists(phys: Entries, i: nat, n: Inode)
    requires KeyOf(n) !in phys
    ensures PhysLists(phys, if n.isVirt then phys else phys[KeyOf(n) := i], i, n)
  {
  }

  lemma AddVirtLists(virt: Entries, i: nat, n: Inode)
    requires KeyOf(n) !in virt && n.parent != i && forall k :: k in virt ==> k.dir != i
    ensures VirtLists(virt, (if n.isVirt then virt[KeyOf(n) := i] else virt) + Dots(i, n), i, n)
  {
    hide Dots;
    var virt1 := if n.isVirt then virt[KeyOf(n) := i] else virt;
    DotsAdded(virt1, virt1 + Dots(i, n), i, n);
  }

  lemma AddLists(t: Tree, i: nat, n: Inode, backends: set<nat>)
    requires TreeOk(t) && CanAdd(t, i, n)
    ensures Lists(t, Added(t, i, n, backends), i, n)
  {
    hide TreeOk, Dots, VirtLists, PhysLists;
    NoneBelow(t, i);
    ParentBelow(t, n.parent);
    AddPhysLists(t.phys, i, n);
    AddVirtLists(t.virt, i, n);
  }

  lemma ParentBelow(t: Tree, p: nat)
    requires TreeOk(t) && p in t.inodes
    ensures p <= t.lastNonce
  {
    assert NodeOk(t, p);
  }

  lemma NoneBelow(t: Tree, i: nat)
    requires TreeOk(t) && i > t.lastNonce
    ensures forall k :: k in t.virt ==> k.dir != i
  {
  }

  lemma AddKeepsNode(t: Tree, t': Tree, i: nat, n: Inode, j: nat)
    requires Lists(t, t', i, n) && i !in t.inodes && i > t.lastNonce && t.backends <= t'.backends && j in t.inodes && NodeOk(t, j)
    ensures NodeOk(t', j)
  {
  }

  lemma AddNodes(t: Tree, t': Tree, i: nat, n: Inode)
    requires TreeOk(t) && CanAdd(t, i, n) && Lists(t, t', i, n) && t.backends == t'.backends && n.backend in t'.backends
    ensures NodesOk(t')
  {
    hide PhysOk, VirtOk;
    assert i in t.inodes ==> NodeOk(t, i);
    assert NodeOk(t, n.parent) && NodeOk(t, ROOT);
    forall j | j in t.inodes ensures NodeOk(t', j) {
      AddKeepsNode(t, t', i, n, j);
    }
    assert NodeOk(t', i);
  }

  lemma AddPhys(t: Tree, t': Tree, i: nat, n: Inode)
    requires PhysOk(t) && NodesOk(t) && CanAdd(t, i, n) && Lists(t, t', i, n)
    ensures PhysOk(t')
  {
    assert NodeOk(t, n.parent);
    forall k | k in t'.phys ensures !IsDot(k.name) && k !in t'.virt && Names(t'.inodes, k, t'.phys[k], false) {
      assert k in t.phys ==> Names(t.inodes, k, t.phys[k], false) && NodeOk(t, t.phys[k]);
    }
  }

  lemma AddVirt(t: Tree, t': Tree, i: nat, n: Inode)
    requires VirtOk(t) && NodesOk(t) && CanAdd(t, i, n) && Lists(t, t', i, n)
    ensures VirtOk(t')
  {
    assert NodeOk(t, n.parent);
    forall k | k in t'.virt ensures k.dir <= i && (!IsDot(k.name) ==> Names(t'.inodes, k, t'.virt[k], true)) {
      assert k in t.virt && !IsDot(k.name) ==> Names(t.inodes, k, t.virt[k], true) && NodeOk(t, t.virt[k]);
    }
  }

  lemma TreeAdd(t: Tree, i: nat, n: Inode, backends: set<nat>)
    requires TreeOk(t) && CanAdd(t, i, n) && t.backends == backends && n.backend in backends
    ensures TreeOk(Added(t, i, n, backends))
  {
    hide NodesOk, PhysOk, VirtOk, Lists;
    var t' := Added(t, i, n, backends);
    AddLists(t, i, n, backends);
    AddNodes(t, t', i, n);
    AddPhys(t, t', i, n);
    AddVirt(t, t', i, n);
  }

  // -------- Virtual to physical --------

  function Converted(t: Tree, i: nat): Tree
    requires i in t.inodes
  {
    var n := t.inodes[i];
    t.(inodes := t.inodes[i := n.(isVirt := false)], virt := t.virt - {KeyOf(n)}, phys := t.phys[KeyOf(n) := i])
  }

  lemma ConvertNodes(t: Tree, i: nat)
    requires TreeOk(t) && i in t.inodes && i != ROOT && t.inodes[i].isVirt
    ensures NodesOk(Converted(t, i))
  {
    var t' := Converted(t, i);
    assert NodeOk(t, i) && KeyOf(t.inodes[i]) !in t.phys;
    hide PhysOk, VirtOk, NodeOk;
    forall j | j in t'.inodes ensures NodeOk(t', j) {
      ConvertKeepsNode(t, i, j);
    }
    assert NodeOk(t, ROOT) && ROOT in t'.inodes;
  }

  lemma ConvertKeepsNode(t: Tree, i: nat, j: nat)
    requires i in t.inodes && i != ROOT && t.inodes[i].isVirt && j in t.inodes && NodeOk(t, j) && NodeOk(t, i) && KeyOf(t.inodes[i]) !in t.phys
    ensures NodeOk(Converted(t, i), j)
  {
    assert j != i && j != ROOT && t.inodes[j].isVirt ==> KeyOf(t.inodes[j]) != KeyOf(t.inodes[i]);
  }

  lemma ConvertEntries(t: Tree, i: nat)
    requires TreeOk(t) && i in t.inodes && i != ROOT && t.inodes[i].isVirt
    ensures PhysOk(Converted(t, i)) && VirtOk(Converted(t, i))
  {
    var t' := Converted(t, i);
    assert NodeOk(t, i);
    forall k | k in t'.phys ensures !IsDot(k.name) && k !in t'.virt && Names(t'.inodes, k, t'.phys[k], false) {
      assert k in t.phys ==> Names(t.inodes, k, t.phys[k], false);
    }
    forall k | k in t'.virt && !IsDot(k.name) ensures Names(t'.inodes, k, t'.virt[k], true) {
      assert Names(t.inodes, k, t.virt[k], true);
    }
  }

  lemma TreeConvert(t: Tree, i: nat)
    requires TreeOk(t) && i in t.inodes && i != ROOT && t.inodes[i].isVirt
    ensures TreeOk(Converted(t, i))
  {
    hide NodesOk, PhysOk, VirtOk, Converted;
    ConvertNodes(t, i);
    ConvertEntries(t, i);
  }

  // -------- What stays settled --------

  /** Directory `d` has the same children in both. */
  ghost predicate SameChildren(phys: Entries, virt: Entries, phys': Entries, virt': Entries, d: nat) {
    && (forall k :: k in phys && k.dir == d ==> k in phys' || (k in virt' && !IsDot(k.name)))
    && (forall k :: k in virt && k.dir == d && !IsDot(k.name) ==> k in phys' || k in virt')
    && (forall k :: k in phys' && k.dir == d ==> k in phys || (k in virt && !IsDot(k.name)))
    && (forall k :: k in virt' && k.dir == d && !IsDot(k.name) ==> k in phys || k in virt)
  }

  lemma ChildrenSame(phys: Entries, virt: Entries, phys': Entries, virt': Entries, d: nat)
    requires SameChildren(phys, virt, phys', virt', d)
    ensures NoChildren(phys, virt, d) <==> NoChildren(phys', virt', d)
  {
  }

  /** An inode that is the same, with the same children, is as settled as it was. */
  ghost predicate Undisturbed(inodes: Table, phys: Entries, virt: Entries, inodes': Table, phys': Entries, virt': Entries, j: nat) {
    j in inodes' && j in inodes && inodes'[j] == inodes[j] && SameChildren(phys, virt, phys', virt', j)
  }

  lemma EvictKeep(inodes: Table, phys: Entries, virt: Entries, dirty: set<nat>, inodes': Table, phys': Entries, virt': Entries, dirty': set<nat>)
    requires EvictOk(inodes, phys, virt, dirty)
    requires forall j :: j in inodes' && j !in dirty' ==> j !in dirty && Undisturbed(inodes, phys, virt, inodes', phys', virt', j)
    ensures EvictOk(inodes', phys', virt', dirty')
  {
    forall j | j in inodes' && j !in dirty' ensures Settled(inodes'[j], j, phys', virt') {
      assert Settled(inodes[j], j, phys, virt);
      ChildrenSame(phys, virt, phys', virt', j);
    }
  }

  // -------- One inode changes, where it is stays --------

  lemma HandleSet(inodes: Table, fhs: Handles, lastNonce: nat, i: nat, n: Inode)
    requires HandleOk(inodes, fhs, lastNonce) && i in inodes && n.handles == inodes[i].handles
    ensures HandleOk(inodes[i := n], fhs, lastNonce)
  {
    var inodes' := inodes[i := n];
    forall j | j in inodes' ensures OpenOn(fhs, j, inodes'[j].handles) {
      assert OpenOn(fhs, j, inodes[j].handles);
    }
  }

  lemma DeleteSet(inodes: Table, finishing: set<nat>, unlinked: set<nat>, finished: seq<nat>, lastNonce: nat, i: nat, n: Inode)
    requires DeleteOk(inodes, finishing, unlinked, finished, lastNonce) && i in inodes
    requires n.handles == inodes[i].handles && n.pendingDelete == inodes[i].pendingDelete && n.kind == inodes[i].kind
    ensures DeleteOk(inodes[i := n], finishing, unlinked, finished, lastNonce)
  {
  }

  lemma QueueSet(inodes: Table, queue: set<Due>, i: nat, n: Inode)
    requires QueueOk(inodes, queue) && i in inodes && n.xTime == inodes[i].xTime
    ensures QueueOk(inodes[i := n], queue)
  {
  }

  /** A touched inode is settled; nothing else changes. */
  lemma EvictSet(inodes: Table, phys: Entries, virt: Entries, dirty: set<nat>, rest: set<nat>, i: nat, n: Inode)
    requires EvictOk(inodes, phys, virt, dirty) && i in inodes && dirty <= rest + {i}
    ensures i in rest || Settled(n, i, phys, virt) ==> EvictOk(inodes[i := n], phys, virt, rest)
  {
  }

  // -------- Counting the entries of a directory --------

  function Under(m: Entries, d: nat): set<Key> {
    set k | k in m && k.dir == d
  }

  lemma OnlyDots(virt: Entries, d: nat)
    requires Key(d, Dot) in virt && Key(d, DotDot) in virt
    ensures |Under(virt, d)| == 2 <==> forall k :: k in virt && k.dir == d ==> IsDot(k.name)
  {
    var dots := {Key(d, Dot), Key(d, DotDot)};
    assert dots <= Under(virt, d);
    if |Under(virt, d)| == 2 {
      SameSize(dots, Under(virt, d));
      assert forall k :: k in virt && k.dir == d ==> k in Under(virt, d);
    }
    if forall k :: k in virt && k.dir == d ==> IsDot(k.name) {
      assert forall k :: k in Under(virt, d) ==> k in dots;
      assert Under(virt, d) == dots;
    }
  }

  lemma NoneUnder(phys: Entries, d: nat)
    ensures |Under(phys, d)| == 0 <==> forall k :: k in phys ==> k.dir != d
  {
    if |Under(phys, d)| == 0 {
      assert forall k :: k in phys && k.dir == d ==> k in Under(phys, d);
    } else {
      assert exists k :: k in Under(phys, d);
    }
  }

  /** touch's index-range arithmetic asks exactly whether a directory holds only "." and "..". */
  lemma CountsMeanNoChildren(t: Tree, d: nat)
    requires TreeOk(t) && d in t.inodes && t.inodes[d].kind != File
    ensures |Under(t.phys, d)| == 0 && |Under(t.virt, d)| == 2 <==> NoChildren(t.phys, t.virt, d)
  {
    hide PhysOk, VirtOk, Under;
    assert NodeOk(t, d);
    NoneUnder(t.phys, d);
    OnlyDots(t.virt, d);
  }

  lemma QueueHas(inodes: Table, queue: set<Due>, i: nat)
    requires QueueOk(inodes, queue) && i in inodes && inodes[i].xTime != 0
    ensures Due(inodes[i].xTime, i) in queue
  {
  }

  function Requeued(queue: set<Due>, i: nat, from: nat, to: nat): set<Due> {
    (if from == 0 then queue else queue - {Due(from, i)}) + (if to == 0 then {} else {Due(to, i)})
  }

  lemma QueueTouch(inodes: Table, queue: set<Due>, i: nat, x: nat)
    requires QueueOk(inodes, queue) && i in inodes
    ensures QueueOk(inodes[i := inodes[i].(xTime := x)], Requeued(queue, i, inodes[i].xTime, x))
    ensures forall q :: q in queue && q.ino == i ==> q.time == inodes[i].xTime
  {
  }

  // -------- The other tables when an inode goes --------

  lemma QueueRemove(inodes: Table, queue: set<Due>, i: nat)
    requires QueueOk(inodes, queue) && i in inodes
    ensures QueueOk(inodes - {i}, Requeued(queue, i, inodes[i].xTime, 0))
  {
  }

  lemma HandleRemove(inodes: Table, fhs: Handles, lastNonce: nat, i: nat)
    requires HandleOk(inodes, fhs, lastNonce) && i in inodes && inodes[i].handles == {}
    ensures HandleOk(inodes - {i}, fhs, lastNonce)
  {
    var inodes' := inodes - {i};
    forall j | j in inodes' ensures OpenOn(fhs, j, inodes'[j].handles) {
      assert OpenOn(fhs, j, inodes[j].handles);
    }
  }

  lemma DeleteRemove(inodes: Table, finishing: set<nat>, unlinked: set<nat>, finished: seq<nat>, lastNonce: nat, i: nat)
    requires DeleteOk(inodes, finishing, unlinked, finished, lastNonce) && i in inodes
    requires inodes[i].kind == File ==> !inodes[i].pendingDelete
    ensures DeleteOk(inodes - {i}, finishing, unlinked, finished, lastNonce)
  {
  }

  lemma DeleteFinish(inodes: Table, finishing: set<nat>, unlinked: set<nat>, finished: seq<nat>, lastNonce: nat, i: nat)
    requires DeleteOk(inodes, finishing, unlinked, finished, lastNonce) && i in finishing
    ensures DeleteOk(inodes - {i}, finishing - {i}, unlinked, finished + [i], lastNonce)
  {
  }

  lemma EvictRemove(t: Tree, t': Tree, dirty: set<nat>, i: nat)
    requires TreeOk(t) && i in t.inodes && i != ROOT && Removed(t, t', i) && EvictOk(t.inodes, t.phys, t.virt, dirty)
    ensures EvictOk(t'.inodes, t'.phys, t'.virt, dirty + {t.inodes[i].parent})
  {
    hide TreeOk;
    EvictKeep(t.inodes, t.phys, t.virt, dirty, t'.inodes, t'.phys, t'.virt, dirty + {t.inodes[i].parent});
  }

  // -------- The other tables when an inode comes --------

  lemma QueueAdd(inodes: Table, queue: set<Due>, i: nat, n: Inode)
    requires QueueOk(inodes, queue) && i !in inodes && n.xTime == 0
    ensures QueueOk(inodes[i := n], queue)
  {
  }

  lemma HandleAdd(inodes: Table, fhs: Handles, lastNonce: nat, i: nat, n: Inode)
    requires HandleOk(inodes, fhs, lastNonce) && i !in inodes && n.handles == {} && lastNonce <= i
    ensures HandleOk(inodes[i := n], fhs, i)
  {
    var inodes' := inodes[i := n];
    forall j | j in inodes' ensures OpenOn(fhs, j, inodes'[j].handles) {
      assert j in inodes ==> OpenOn(fhs, j, inodes[j].handles);
    }
  }

  lemma DeleteAdd(inodes: Table, finishing: set<nat>, unlinked: set<nat>, finished: seq<nat>, lastNonce: nat, i: nat, n: Inode)
    requires DeleteOk(inodes, finishing, unlinked, finished, lastNonce) && i > lastNonce && i !in inodes && !n.pendingDelete
    ensures DeleteOk(inodes[i := n], finishing, unlinked, finished, i)
  {
  }

  lemma EvictAdd(t: Tree, t': Tree, dirty: set<nat>, i: nat, n: Inode)
    requires TreeOk(t) && CanAdd(t, i, n) && Lists(t, t', i, n) && EvictOk(t.inodes, t.phys, t.virt, dirty)
    ensures EvictOk(t'.inodes, t'.phys, t'.virt, dirty + {n.parent, i})
  {
    hide TreeOk;
    EvictKeep(t.inodes, t.phys, t.virt, dirty, t'.inodes, t'.phys, t'.virt, dirty + {n.parent, i});
  }

  lemma EvictConvert(t: Tree, dirty: set<nat>, i: nat)
    requires TreeOk(t) && i in t.inodes && i != ROOT && t.inodes[i].isVirt && EvictOk(t.inodes, t.phys, t.virt, dirty)
    ensures var t' := Converted(t, i); EvictOk(t'.inodes, t'.phys, t'.virt, dirty + {i})
  {
    hide PhysOk, VirtOk;
    assert NodeOk(t, i);
    var t' := Converted(t, i);
    EvictKeep(t.inodes, t.phys, t.virt, dirty, t'.inodes, t'.phys, t'.virt, dirty + {i});
  }

  // -------- Handles come and go --------

  lemma HandleOpen(inodes: Table, fhs: Handles, lastNonce: nat, i: nat, n: Inode, h: nat, fh: Handle)
    requires HandleOk(inodes, fhs, lastNonce) && i in inodes && h > lastNonce && n.handles == inodes[i].handles + {h} && fh.ino == i
    ensures HandleOk(inodes[i := n], fhs[h := fh], h)
  {
    var inodes', fhs' := inodes[i := n], fhs[h := fh];
    forall j | j in inodes' ensures OpenOn(fhs', j, inodes'[j].handles) {
      assert OpenOn(fhs, j, inodes[j].handles);
    }
  }

  lemma HandleClose(inodes: Table, fhs: Handles, lastNonce: nat, i: nat, n: Inode, h: nat)
    requires HandleOk(inodes, fhs, lastNonce) && i in inodes && h in inodes[i].handles && n.handles == inodes[i].handles - {h}
    ensures h in fhs && HandleOk(inodes[i := n], fhs - {h}, lastNonce)
  {
    assert OpenOn(fhs, i, inodes[i].handles);
    var inodes', fhs' := inodes[i := n], fhs - {h};
    forall j | j in inodes' ensures OpenOn(fhs', j, inodes'[j].handles) {
      assert OpenOn(fhs, j, inodes[j].handles);
    }
  }

  /** An inode's handles or its pending flag change: it is on its way out exactly if it is pending and has none left. */
  lemma DeleteChange(inodes: Table, finishing: set<nat>, unlinked: set<nat>, finished: seq<nat>, lastNonce: nat, i: nat, n: Inode, nonce: nat)
    requires DeleteOk(inodes, finishing, unlinked, finished, lastNonce) && i in inodes && n.kind == inodes[i].kind && lastNonce <= nonce
    requires inodes[i].pendingDelete ==> n.pendingDelete
    requires n.pendingDelete ==> n.kind == File && i <= nonce
    ensures var finishing' := if n.pendingDelete && n.handles == {} then finishing + {i} else finishing - {i};
      var unlinked' := if n.pendingDelete then unlinked + {i} else unlinked;
      DeleteOk(inodes[i := n], finishing', unlinked', finished, nonce)
  {
  }

  // -------- The oldest element of the queue --------

  predicate Before(a: Due, b: Due) {
    a.time < b.time || (a.time == b.time && a.ino <= b.ino)
  }

  lemma {:induction false} OldestExists(queue: set<Due>) returns (q: Due)
    requires queue != {}
    ensures q in queue && forall p :: p in queue ==> Before(q, p)
  {
    var first :| first in queue;
    q := first;
    if queue == {first} {
      assert forall p :: p in queue ==> p == first;
    } else {
      var rest := queue - {first};
      assert rest == {} ==> queue <= {first};
      var p := OldestExists(rest);
      q := if Before(p, first) then p else first;
      assert forall r :: r in queue ==> r == first || r in rest;
    }
  }

  // -------- What a full drain leaves --------

  /** An inode that a drain cannot take: a root, a directory with a handle, a file that is not queued. */
  predicate Pinned(n: Inode) {
    match n.kind
    case File => n.xTime == 0
    case PseudoDir => n.handles != {}
    case _ => true
  }

  /** A pinned inode, or an ancestor of one. Children have larger numbers than their parents. */
  ghost predicate Survives(inodes: Table, i: nat, top: nat)
    decreases top - i
  {
    i in inodes && (Pinned(inodes[i]) || exists c :: i < c <= top && c in inodes && inodes[c].parent == i && Survives(inodes, c, top))
  }

  /** `inodes` is what is left of `was`: nothing new, and only the eviction times of directories differ. */
  ghost predicate LeftOf(inodes: Table, was: Table) {
    forall i :: i in inodes ==> i in was && inodes[i] == was[i].(xTime := inodes[i].xTime) && (inodes[i].kind == File ==> inodes[i] == was[i])
  }

  /** A directory that is not empty has a child inode, with a larger number. */
  lemma ChildOf(t: Tree, d: nat) returns (c: nat)
    requires TreeOk(t) && d in t.inodes && !NoChildren(t.phys, t.virt, d)
    ensures c in t.inodes && t.inodes[c].parent == d && d < c <= t.lastNonce
  {
    if k :| k in t.phys && k.dir == d {
      c := t.phys[k];
    } else {
      var k :| k in t.virt && k.dir == d && !IsDot(k.name);
      c := t.virt[k];
    }
    assert NodeOk(t, c);
  }

  /** Once the queue is empty, everything left survives. */
  lemma {:induction false} DrainedSurvive(t: Tree, was: Table, i: nat)
    requires TreeOk(t) && QueueOk(t.inodes, {}) && EvictOk(t.inodes, t.phys, t.virt, {}) && LeftOf(t.inodes, was) && i in t.inodes
    ensures Survives(was, i, t.lastNonce)
    decreases t.lastNonce - i
  {
    hide PhysOk, VirtOk;
    assert NodeOk(t, i) && Settled(t.inodes[i], i, t.phys, t.virt);
    if !Pinned(was[i]) {
      var c := ChildOf(t, i);
      DrainedSurvive(t, was, c);
    }
  }

  /** Everything of `was` that survives is still there. */
  ghost predicate SurvivorsStay(was: Table, inodes: Table, top: nat) {
    forall i :: Survives(was, i, top) ==> i in inodes
  }

  lemma NothingGone(was: Table, top: nat)
    ensures LeftOf(was, was) && SurvivorsStay(was, was, top)
  {
  }

  lemma OnlySurvivors(t: Tree, was: Table)
    requires TreeOk(t) && QueueOk(t.inodes, {}) && EvictOk(t.inodes, t.phys, t.virt, {}) && LeftOf(t.inodes, was)
    requires SurvivorsStay(was, t.inodes, t.lastNonce)
    ensures forall i :: i in t.inodes <==> Survives(was, i, t.lastNonce)
  {
    hide TreeOk, QueueOk, EvictOk, LeftOf, Survives;
    forall i | i in t.inodes ensures Survives(was, i, t.lastNonce) {
      DrainedSurvive(t, was, i);
    }
  }

  /** One eviction, of an inode that does not survive. */
  lemma LeftStep(inodes: Table, inodes': Table, was: Table, i: nat, p: nat, top: nat)
    requires LeftOf(inodes, was) && SurvivorsStay(was, inodes, top) && !Survives(was, i, top)
    requires p in inodes && p != i && p in inodes' && inodes[p].kind != File
    requires inodes' == (inodes - {i})[p := inodes[p].(xTime := inodes'[p].xTime)]
    ensures LeftOf(inodes', was) && SurvivorsStay(was, inodes', top)
  {
    hide Survives;
  }

  /** What is evictable, once everything that survives is still there, does not survive. */
  lemma EvictableDies(t: Tree, was: Table, i: nat)
    requires TreeOk(t) && LeftOf(t.inodes, was) && i in t.inodes && t.inodes[i].xTime != 0 && Evictable(t.inodes[i], i, t.phys, t.virt)
    requires SurvivorsStay(was, t.inodes, t.lastNonce)
    ensures !Survives(was, i, t.lastNonce)
  {
    hide PhysOk, VirtOk;
    assert NodeOk(t, i);
    forall c | i < c && c in t.inodes ensures t.inodes[c].parent != i {
      assert NodeOk(t, c) && NodeOk(t, ROOT);
    }
  }

  /** An unlinked file that is not finished yet, and its directory, are not up for eviction. */
  lemma PendingIsSafe(t: Tree, i: nat)
    requires TreeOk(t) && EvictOk(t.inodes, t.phys, t.virt, {}) && i in t.inodes && t.inodes[i].pendingDelete && t.inodes[i].kind == File
    ensures t.inodes[i].xTime == 0 && t.inodes[i].parent in t.inodes && t.inodes[t.inodes[i].parent].xTime == 0
  {
    hide PhysOk, VirtOk;
    assert NodeOk(t, i);
    var p := t.inodes[i].parent;
    assert Settled(t.inodes[i], i, t.phys, t.virt) && Settled(t.inodes[p], p, t.phys, t.virt);
    assert KeyOf(t.inodes[i]).dir == p;
  }
}
