/**
 The directory-entry map: 64 sorted maps, chosen by the parent's inode number,
 keyed by the big-endian parent and the basename. It behaves as one map from
 (parent, basename), and a parent's children are one range of its shard.

 Each shard's B+Tree is a sorted sequence here.
 */
module DirEntries {
  import opened Bytes
  import opened BigEndian

  const SHARDS: nat := 64

  datatype Entry = Entry(key: Str, value: nat)

  type Tree = seq<Entry>
  type Contents = map<(nat, Str), nat>

  // -------- One shard --------

  ghost predicate Sorted(t: Tree) {
    forall i, j :: 0 <= i < j < |t| ==> Less(t[i].key, t[j].key)
  }

  /** BisectRight: the first index at or after the key. */
  function Position(t: Tree, key: Str): (n: nat)
    ensures n <= |t|
  {
    if t == [] || !Less(t[0].key, key) then 0 else 1 + Position(t[1..], key)
  }

  lemma {:induction false} PositionIs(t: Tree, key: Str)
    requires Sorted(t)
    ensures forall i :: 0 <= i < |t| ==> (i < Position(t, key) <==> Less(t[i].key, key))
  {
    hide Less;
    if t != [] {
      if Less(t[0].key, key) {
        PositionIs(t[1..], key);
        assert forall i :: 0 < i < |t| ==> t[i] == t[1..][i - 1];
      } else {
        forall i | 0 <= i < |t| ensures !Less(t[i].key, key) {
          if i > 0 && Less(t[i].key, key) {
            LessTrans(t[0].key, t[i].key, key);
          }
        }
      }
    }
  }

  predicate Present(t: Tree, key: Str) {
    Position(t, key) < |t| && t[Position(t, key)].key == key
  }

  lemma PresentIff(t: Tree, key: Str)
    requires Sorted(t)
    ensures Present(t, key) <==> exists i :: 0 <= i < |t| && t[i].key == key
  {
    hide Less;
    PositionIs(t, key);
    if i :| 0 <= i < |t| && t[i].key == key {
      LessIsStrict(key);
      var n := Position(t, key);
      if n < i {
        assert Less(t[n].key, t[i].key);
      }
    }
  }

  function Inserted(t: Tree, e: Entry): Tree {
    t[..Position(t, e.key)] + [e] + t[Position(t, e.key)..]
  }

  lemma InsertSorted(t: Tree, e: Entry)
    requires Sorted(t) && !Present(t, e.key)
    ensures Sorted(Inserted(t, e))
  {
    hide Less;
    PositionIs(t, e.key);
    var n := Position(t, e.key);
    forall i | n <= i < |t| ensures Less(e.key, t[i].key) {
      assert i > n ==> Less(t[n].key, t[i].key);
      Trichotomy(e.key, t[i].key);
    }
  }

  function Removed(t: Tree, n: nat): Tree
    requires n < |t|
  {
    t[..n] + t[n + 1..]
  }

  // -------- A shard's share of the map --------

  predicate Holding(t: Tree, s: nat, contents: Contents, i: nat)
    requires i < |t|
  {
    |t[i].key| >= 8 && Unpack(t[i].key).0 % SHARDS == s && Unpack(t[i].key) in contents && contents[Unpack(t[i].key)] == t[i].value
  }

  ghost predicate Holds(t: Tree, s: nat, contents: Contents) {
    Sorted(t) && forall i :: 0 <= i < |t| ==> Holding(t, s, contents, i)
  }

  ghost predicate Has(t: Tree, key: Str) {
    exists i :: 0 <= i < |t| && t[i].key == key
  }

  /** Every pair of this shard is in it. */
  ghost predicate Complete(t: Tree, s: nat, contents: Contents) {
    forall e :: e in contents && e.0 <= MAX_UINT64 && e.0 % SHARDS == s ==> Has(t, Pack(e.0, e.1))
  }

  ghost predicate ShardOk(t: Tree, s: nat, contents: Contents) {
    Holds(t, s, contents) && Complete(t, s, contents)
  }

  lemma OtherShard(t: Tree, s: nat, contents: Contents, contents': Contents, e: (nat, Str))
    requires ShardOk(t, s, contents) && e.0 % SHARDS != s
    requires forall x :: x != e ==> (x in contents <==> x in contents') && (x in contents ==> contents'[x] == contents[x])
    ensures ShardOk(t, s, contents')
  {
    forall i | 0 <= i < |t| ensures Holding(t, s, contents', i) {
      assert Holding(t, s, contents, i);
    }
  }

  lemma Find(t: Tree, s: nat, contents: Contents, p: nat, name: Str)
    requires ShardOk(t, s, contents) && p <= MAX_UINT64 && p % SHARDS == s
    ensures Present(t, Pack(p, name)) <==> (p, name) in contents
    ensures Present(t, Pack(p, name)) ==> t[Position(t, Pack(p, name))].value == contents[(p, name)]
  {
    hide Sorted;
    UnpackPack(p, name);
    PresentIff(t, Pack(p, name));
    if (p, name) in contents {
      assert Has(t, Pack(p, name));
    }
    if Present(t, Pack(p, name)) {
      assert Holding(t, s, contents, Position(t, Pack(p, name)));
    }
  }

  lemma InsertHolds(t: Tree, s: nat, contents: Contents, p: nat, name: Str, v: nat)
    requires ShardOk(t, s, contents) && p <= MAX_UINT64 && p % SHARDS == s && !Present(t, Pack(p, name))
    ensures ShardOk(Inserted(t, Entry(Pack(p, name), v)), s, contents[(p, name) := v])
  {
    var e := Entry(Pack(p, name), v);
    var n, t', contents' := Position(t, e.key), Inserted(t, e), contents[(p, name) := v];
    InsertSorted(t, e);
    UnpackPack(p, name);
    Find(t, s, contents, p, name);
    forall i | 0 <= i < |t'| ensures Holding(t', s, contents', i) {
      assert i < n ==> t'[i] == t[i] && Holding(t, s, contents, i);
      assert i > n ==> t'[i] == t[i - 1] && Holding(t, s, contents, i - 1);
    }
    forall x | x in contents' && x.0 <= MAX_UINT64 && x.0 % SHARDS == s ensures Has(t', Pack(x.0, x.1)) {
      if x == (p, name) {
        assert t'[n].key == e.key;
      } else {
        assert Has(t, Pack(x.0, x.1));
        var i :| 0 <= i < |t| && t[i].key == Pack(x.0, x.1);
        assert i < n ==> t'[i] == t[i];
        assert i >= n ==> t'[i + 1] == t[i];
      }
    }
  }

  lemma RemoveHolds(t: Tree, s: nat, contents: Contents, p: nat, name: Str)
    requires ShardOk(t, s, contents) && p <= MAX_UINT64 && p % SHARDS == s && Present(t, Pack(p, name))
    ensures ShardOk(Removed(t, Position(t, Pack(p, name))), s, contents - {(p, name)})
  {
    hide Less;
    var key := Pack(p, name);
    var n := Position(t, key);
    var t', contents' := Removed(t, n), contents - {(p, name)};
    UnpackPack(p, name);
    forall i | 0 <= i < |t'| ensures Holding(t', s, contents', i) {
      var j := if i < n then i else i + 1;
      assert t'[i] == t[j] && Holding(t, s, contents, j);
      KeysDiffer(t, n, j);
      PackUnpack(t[j].key);
    }
    forall x | x in contents' && x.0 <= MAX_UINT64 && x.0 % SHARDS == s ensures Has(t', Pack(x.0, x.1)) {
      assert Has(t, Pack(x.0, x.1));
      var i :| 0 <= i < |t| && t[i].key == Pack(x.0, x.1);
      UnpackPack(x.0, x.1);
      assert i < n ==> t'[i] == t[i];
      assert i > n ==> t'[i - 1] == t[i];
    }
  }

  lemma KeysDiffer(t: Tree, i: nat, j: nat)
    requires Sorted(t) && i < |t| && j < |t| && i != j
    ensures t[i].key != t[j].key
  {
    LessIsStrict(t[i].key);
  }

  // -------- A parent's children --------

  /** `start` and `limit` bound exactly the parent's entries. */
  ghost predicate Selects(t: Tree, p: nat, start: nat, limit: nat) {
    start <= limit <= |t| && forall i :: 0 <= i < |t| ==> |t[i].key| >= 8 && (start <= i < limit <==> Unpack(t[i].key).0 == p)
  }

  function StartOf(t: Tree, p: nat): nat
    requires p <= MAX_UINT64
  {
    Position(t, Pack(p, []))
  }

  /** The next parent's start; the number wraps, as uint64 does. */
  function LimitOf(t: Tree, p: nat): nat
    requires p <= MAX_UINT64
  {
    Position(t, Pack((p + 1) % (MAX_UINT64 + 1), []))
  }

  lemma BeforeParent(t: Tree, s: nat, contents: Contents, p: nat, i: nat)
    requires Holds(t, s, contents) && p <= MAX_UINT64 && i < |t|
    ensures |t[i].key| >= 8 && (i < StartOf(t, p) <==> Unpack(t[i].key).0 < p)
  {
    hide Less;
    assert Holding(t, s, contents, i);
    PositionIs(t, Pack(p, []));
    var u := Unpack(t[i].key);
    PackUnpack(t[i].key);
    PackPreservesOrder(u.0, u.1, p, []);
    NothingBeforeEmpty(u.1);
  }

  lemma NothingBeforeEmpty(s: Str)
    ensures !Less(s, [])
  {
  }

  /** getIndexRange selects exactly the parent's entries, unless the parent's number plus one wraps. */
  lemma RangeExactIff(t: Tree, s: nat, contents: Contents, p: nat)
    requires Holds(t, s, contents) && p <= MAX_UINT64
    ensures Selects(t, p, StartOf(t, p), LimitOf(t, p)) <==> p < MAX_UINT64 || t == []
  {
    hide Holds, Position;
    forall i | 0 <= i < |t| ensures |t[i].key| >= 8 && (i < StartOf(t, p) <==> Unpack(t[i].key).0 < p) {
      BeforeParent(t, s, contents, p, i);
    }
    var q := (p + 1) % (MAX_UINT64 + 1);
    forall i | 0 <= i < |t| ensures i < LimitOf(t, p) <==> Unpack(t[i].key).0 < q {
      BeforeParent(t, s, contents, q, i);
    }
    if p < MAX_UINT64 {
      var start, limit := StartOf(t, p), LimitOf(t, p);
      assert limit < |t| ==> (limit < start <==> Unpack(t[limit].key).0 < p) && !(Unpack(t[limit].key).0 < q);
    } else if t != [] {
      assert 0 < LimitOf(t, p) <==> Unpack(t[0].key).0 < 0;
      assert 0 < StartOf(t, p) || Unpack(t[0].key).0 == p;
    }
  }

  type Names = seq<(Str, nat)>

  /** The names of a parent's children, in order, each with its value, and no others. */
  ghost predicate IsListing(l: Names, contents: Contents, p: nat) {
    && (forall i, j :: 0 <= i < j < |l| ==> Less(l[i].0, l[j].0))
    && (forall i :: 0 <= i < |l| ==> (p, l[i].0) in contents && contents[(p, l[i].0)] == l[i].1)
    && (forall e :: e in contents && e.0 == p ==> InListing(l, e.1))
  }

  ghost predicate InListing(l: Names, name: Str) {
    exists i :: 0 <= i < |l| && l[i].0 == name
  }

  function NameAt(t: Tree, i: nat): (Str, nat)
    requires i < |t| && |t[i].key| >= 8
  {
    (Unpack(t[i].key).1, t[i].value)
  }

  lemma RangeIsListing(t: Tree, s: nat, contents: Contents, p: nat, l: Names)
    requires ShardOk(t, s, contents) && p < MAX_UINT64 && p % SHARDS == s && |l| == LimitOf(t, p) - StartOf(t, p)
    requires Selects(t, p, StartOf(t, p), LimitOf(t, p))
    requires forall i :: 0 <= i < |l| ==> l[i] == NameAt(t, StartOf(t, p) + i)
    ensures IsListing(l, contents, p)
  {
    hide Less, Position, Unpack;
    var start := StartOf(t, p);
    forall i | 0 <= i < |l| ensures (p, l[i].0) in contents && contents[(p, l[i].0)] == l[i].1 {
      assert Holding(t, s, contents, start + i);
      assert Unpack(t[start + i].key).0 == p;
    }
    forall i, j | 0 <= i < j < |l| ensures Less(l[i].0, l[j].0) {
      InNameOrder(t, p, start + i, start + j);
    }
    forall e | e in contents && e.0 == p ensures InListing(l, e.1) {
      assert Has(t, Pack(e.0, e.1));
      var k :| 0 <= k < |t| && t[k].key == Pack(e.0, e.1);
      UnpackPack(e.0, e.1);
      assert l[k - start].0 == e.1;
    }
  }

  lemma InNameOrder(t: Tree, p: nat, i: nat, j: nat)
    requires Sorted(t) && i < j < |t| && |t[i].key| >= 8 && |t[j].key| >= 8 && Unpack(t[i].key).0 == p == Unpack(t[j].key).0
    ensures Less(Unpack(t[i].key).1, Unpack(t[j].key).1)
  {
    hide Less;
    PackUnpack(t[i].key);
    PackUnpack(t[j].key);
    PackPreservesOrder(p, Unpack(t[i].key).1, p, Unpack(t[j].key).1);
  }

  // -------- The sharded map --------

  class DirEntryMap {
    var shards: seq<Tree>
    ghost var contents: Contents

    ghost predicate Valid()
      reads this
    {
      && |shards| == SHARDS && (forall e :: e in contents ==> e.0 <= MAX_UINT64)
      && forall s :: 0 <= s < SHARDS ==> ShardOk(shards[s], s, contents)
    }

    constructor ()
      ensures Valid() && contents == map[]
    {
      shards, contents := seq(SHARDS, i => []), map[];
    }

    method Put(p: nat, name: Str, v: nat) returns (ok: bool)
      requires Valid() && p <= MAX_UINT64
      modifies this
      ensures Valid() && ok == ((p, name) !in old(contents))
      ensures contents == if ok then old(contents)[(p, name) := v] else old(contents)
    {
      hide ShardOk, Inserted, Present, Pack;
      var s, key := p % SHARDS, Pack(p, name);
      Find(shards[s], s, contents, p, name);
      ok := !Present(shards[s], key);
      if ok {
        InsertHolds(shards[s], s, contents, p, name, v);
        Others(shards, s, contents, contents[(p, name) := v], (p, name));
        shards := shards[s := Inserted(shards[s], Entry(key, v))];
        contents := contents[(p, name) := v];
      }
    }

    method Delete(p: nat, name: Str) returns (ok: bool)
      requires Valid() && p <= MAX_UINT64
      modifies this
      ensures Valid() && ok == ((p, name) in old(contents))
      ensures contents == old(contents) - {(p, name)}
    {
      hide ShardOk, Pack;
      var s, key := p % SHARDS, Pack(p, name);
      Find(shards[s], s, contents, p, name);
      ok := Present(shards[s], key);
      if ok {
        RemoveHolds(shards[s], s, contents, p, name);
        Others(shards, s, contents, contents - {(p, name)}, (p, name));
        shards := shards[s := Removed(shards[s], Position(shards[s], key))];
        contents := contents - {(p, name)};
      }
    }

    method GetByBasename(p: nat, name: Str) returns (ok: bool, v: nat)
      requires Valid() && p <= MAX_UINT64
      ensures ok == ((p, name) in contents) && (ok ==> v == contents[(p, name)])
    {
      hide ShardOk, Pack;
      var s, key := p % SHARDS, Pack(p, name);
      Find(shards[s], s, contents, p, name);
      ok := Present(shards[s], key);
      v := if ok then shards[s][Position(shards[s], key)].value else 0;
    }

    method GetIndexRange(p: nat) returns (start: nat, limit: nat)
      requires Valid() && p <= MAX_UINT64
      ensures start == StartOf(shards[p % SHARDS], p) && limit == LimitOf(shards[p % SHARDS], p)
      ensures p < MAX_UINT64 ==> Selects(shards[p % SHARDS], p, start, limit)
    {
      hide Position, Selects, Holds;
      start := Position(shards[p % SHARDS], Pack(p, []));
      limit := Position(shards[p % SHARDS], Pack((p + 1) % (MAX_UINT64 + 1), []));
      assert ShardOk(shards[p % SHARDS], p % SHARDS, contents);
      RangeExactIff(shards[p % SHARDS], p % SHARDS, contents, p);
    }

    method GetByIndex(p: nat, i: nat) returns (ok: bool, name: Str, v: nat)
      requires Valid() && p <= MAX_UINT64
      ensures ok == (i < |shards[p % SHARDS]|)
      ensures ok ==> |shards[p % SHARDS][i].key| >= 8 && (name, v) == NameAt(shards[p % SHARDS], i)
    {
      hide Unpack, Complete, Sorted;
      var t := shards[p % SHARDS];
      assert ShardOk(t, p % SHARDS, contents);
      ok := i < |t|;
      if ok {
        assert Holding(t, p % SHARDS, contents, i);
        name, v := Unpack(t[i].key).1, t[i].value;
      } else {
        name, v := [], 0;
      }
    }

    /** Enumerating a parent's range by index gives its children, in name order, and nothing else. */
    method Children(p: nat) returns (l: Names)
      requires Valid() && p < MAX_UINT64
      ensures IsListing(l, contents, p)
    {
      hide Position, ShardOk, Unpack, IsListing;
      var start, limit := GetIndexRange(p);
      ghost var t := shards[p % SHARDS];
      l := [];
      var i := start;
      while i < limit
        invariant start <= i <= limit && |l| == i - start
        invariant forall k :: 0 <= k < |l| ==> l[k] == NameAt(t, start + k)
      {
        var ok, name, v := GetByIndex(p, i);
        assert ok;
        l := l + [(name, v)];
        i := i + 1;
      }
      RangeIsListing(t, p % SHARDS, contents, p, l);
    }
  }

  lemma Others(shards: seq<Tree>, s: nat, contents: Contents, contents': Contents, e: (nat, Str))
    requires |shards| == SHARDS && e.0 % SHARDS == s && forall r :: 0 <= r < SHARDS ==> ShardOk(shards[r], r, contents)
    requires forall x :: x != e ==> (x in contents <==> x in contents') && (x in contents ==> contents'[x] == contents[x])
    ensures forall r :: 0 <= r < SHARDS && r != s ==> ShardOk(shards[r], r, contents')
  {
    hide ShardOk;
    forall r | 0 <= r < SHARDS && r != s ensures ShardOk(shards[r], r, contents') {
      OtherShard(shards[r], r, contents, contents', e);
    }
  }

  // -------- Other parents' children --------

  lemma HeadsAgree(l: Names, l': Names, contents: Contents, contents': Contents, p: nat)
    requires IsListing(l, contents, p) && IsListing(l', contents', p) && l != [] && l' != []
    requires forall e: (nat, Str) :: e.0 == p ==> (e in contents <==> e in contents')
    ensures l[0].0 == l'[0].0
  {
    hide Less;
    assert (p, l[0].0) in contents' && (p, l'[0].0) in contents;
    assert InListing(l', l[0].0) && InListing(l, l'[0].0);
    var i :| 0 <= i < |l'| && l'[i].0 == l[0].0;
    var j :| 0 <= j < |l| && l[j].0 == l'[0].0;
    Trichotomy(l[0].0, l'[0].0);
  }

  lemma TailIsListing(l: Names, contents: Contents, p: nat)
    requires IsListing(l, contents, p) && l != []
    ensures IsListing(l[1..], contents - {(p, l[0].0)}, p)
  {
    hide Less;
    forall i | 0 <= i < |l[1..]| ensures (p, l[1..][i].0) in contents - {(p, l[0].0)} {
      assert Less(l[0].0, l[i + 1].0);
      LessIsStrict(l[0].0);
    }
    forall e | e in contents - {(p, l[0].0)} && e.0 == p ensures InListing(l[1..], e.1) {
      assert InListing(l, e.1);
      var i :| 0 <= i < |l| && l[i].0 == e.1;
      assert e == (p, e.1);
      assert l[1..][i - 1] == l[i];
    }
  }

  /** A parent's listing depends on its own entries only: Put and Delete under one parent change no other's. */
  lemma {:induction false} ListingsAgree(l: Names, l': Names, contents: Contents, contents': Contents, p: nat)
    requires IsListing(l, contents, p) && IsListing(l', contents', p)
    requires forall e: (nat, Str) :: e.0 == p ==> (e in contents <==> e in contents') && (e in contents ==> contents[e] == contents'[e])
    ensures l == l'
    decreases |l|
  {
    if l == [] {
      assert l' != [] ==> (p, l'[0].0) in contents && InListing(l, l'[0].0);
    } else {
      assert (p, l[0].0) in contents' && InListing(l', l[0].0);
      HeadsAgree(l, l', contents, contents', p);
      TailIsListing(l, contents, p);
      TailIsListing(l', contents', p);
      ListingsAgree(l[1..], l'[1..], contents - {(p, l[0].0)}, contents' - {(p, l[0].0)}, p);
      assert l == [l[0]] + l[1..] && l' == [l'[0]] + l'[1..];
    }
  }
}
