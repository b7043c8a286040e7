/**
 The intrusive doubly linked lists that thread the cache-line trackers.

 All lists share one array of trackers. A list is a header (head, tail, count)
 plus the `next` and `prev` links of the trackers on it; 0 is both a real slot
 and the "not applicable" link, so only the count tells an empty list from one
 that holds slot 0. Each method is proved against the sequence of slots the
 list stands for, and every other list over the same trackers keeps its own.
 */
module Lru {
  import opened Collections

  datatype LineState = NotOnLru | Free | Inbound | Clean | Outbound | Dirty

  /** dataCacheLinesTracker: the links and the state of every slot. */
  class Trackers {
    const next: array<nat>
    const prev: array<nat>
    const state: array<LineState>

    ghost predicate Valid()
      reads this
    {
      next.Length == prev.Length == state.Length && next != prev
    }

    ghost function Snapshot(): Links
      requires Valid()
      reads this, next, prev, state
    {
      Links(next[..], prev[..], state[..])
    }

    method HangAfter(tail: nat, pos: nat)
      requires Valid() && tail < state.Length && pos < state.Length
      modifies next, prev
      ensures var l := old(Snapshot()); Snapshot() == l.(next := l.next[tail := pos][pos := 0], prev := l.prev[pos := tail])
    {
      next[tail] := pos;
      next[pos] := 0;
      prev[pos] := tail;
    }

    constructor (lines: nat)
      ensures Valid() && state.Length == lines
      ensures fresh(next) && fresh(prev) && fresh(state)
      ensures forall p :: 0 <= p < lines ==> state[p] == NotOnLru
    {
      next := new nat[lines](_ => 0);
      prev := new nat[lines](_ => 0);
      state := new LineState[lines](_ => NotOnLru);
    }
  }

  // -------- Lists as values --------

  /** What the tracker array holds at one moment. */
  datatype Links = Links(next: seq<nat>, prev: seq<nat>, state: seq<LineState>) {
    predicate Valid() {
      |next| == |prev| == |state|
    }
  }

  ghost predicate Members(l: Links, state: LineState, s: seq<nat>) {
    && l.Valid() && Distinct(s)
    && (forall i :: 0 <= i < |s| ==> s[i] < |l.state| && l.state[s[i]] == state)
    && (forall p :: 0 <= p < |l.state| && l.state[p] == state ==> p in s)
  }

  ghost predicate Chained(l: Links, s: seq<nat>)
    requires l.Valid() && forall i :: 0 <= i < |s| ==> s[i] < |l.state|
  {
    && (forall i :: 0 <= i < |s| - 1 ==> l.next[s[i]] == s[i + 1])
    && (forall i :: 0 < i < |s| ==> l.prev[s[i]] == s[i - 1])
  }

  /** `s` is the list with this header: its slots are those in state `state`, in the order the links give. */
  ghost predicate Threaded(l: Links, state: LineState, head: nat, tail: nat, s: seq<nat>) {
    && Members(l, state, s) && Chained(l, s)
    && (s != [] ==> head == s[0] && tail == s[|s| - 1])
  }

  /** The slots in state `state` are the same, and so are their links. */
  ghost predicate Untouched(l: Links, l': Links, state: LineState) {
    && l.Valid() && l'.Valid() && |l'.state| == |l.state|
    && (forall p :: 0 <= p < |l.state| && l.state[p] == state ==> l'.next[p] == l.next[p] && l'.prev[p] == l.prev[p])
    && (forall p :: 0 <= p < |l.state| ==> (l.state[p] == state <==> l'.state[p] == state))
  }

  lemma UntouchedList(l: Links, l': Links, state: LineState, head: nat, tail: nat, s: seq<nat>)
    requires Threaded(l, state, head, tail, s) && Untouched(l, l', state)
    ensures Threaded(l', state, head, tail, s)
  {
  }

  function Pushed(l: Links, state: LineState, tail: nat, empty: bool, pos: nat): Links
    requires l.Valid() && pos < |l.state| && (!empty ==> tail < |l.state|)
  {
    if empty then Links(l.next[pos := 0], l.prev[pos := 0], l.state[pos := state])
    else Links(l.next[pos := 0][tail := pos], l.prev[pos := tail], l.state[pos := state])
  }

  lemma PushMembers(l: Links, l': Links, state: LineState, s: seq<nat>, pos: nat)
    requires Members(l, state, s) && pos < |l.state| && l.state[pos] != state
    requires l'.Valid() && l'.state == l.state[pos := state]
    ensures Members(l', state, s + [pos])
  {
    var s' := s + [pos];
    forall p | 0 <= p < |l'.state| && l'.state[p] == state ensures p in s' {
      if p != pos {
        assert p in s;
      }
    }
  }

  lemma PushChained(l: Links, state: LineState, tail: nat, s: seq<nat>, pos: nat)
    requires Members(l, state, s) && Chained(l, s) && pos < |l.state| && l.state[pos] != state
    requires s != [] ==> tail == s[|s| - 1]
    requires Members(Pushed(l, state, tail, s == [], pos), state, s + [pos])
    ensures Chained(Pushed(l, state, tail, s == [], pos), s + [pos])
  {
    var l', s' := Pushed(l, state, tail, s == [], pos), s + [pos];
    forall i | 0 <= i < |s'| - 1 ensures l'.next[s'[i]] == s'[i + 1] {
      assert s'[i] == s[i] != pos;
      if i < |s| - 1 {
        assert s[i] != s[|s| - 1];
      }
    }
  }

  lemma PushThreads(l: Links, state: LineState, head: nat, tail: nat, s: seq<nat>, pos: nat)
    requires Threaded(l, state, head, tail, s) && pos < |l.state| && l.state[pos] == NotOnLru && state != NotOnLru
    ensures Threaded(Pushed(l, state, tail, s == [], pos), state, if s == [] then pos else head, pos, s + [pos])
  {
    hide Members, Chained;
    TailInRange(l, state, s);
    PushMembers(l, Pushed(l, state, tail, s == [], pos), state, s, pos);
    PushChained(l, state, tail, s, pos);
  }

  lemma TailInRange(l: Links, state: LineState, s: seq<nat>)
    requires Members(l, state, s)
    ensures l.Valid() && (s != [] ==> s[|s| - 1] < |l.state|)
  {
  }

  /** `s` with its k-th slot deleted in place. */
  function Without(s: seq<nat>, k: nat): seq<nat>
    requires k < |s|
  {
    s[..k] + s[k + 1..]
  }

  lemma WithoutSize(s: seq<nat>, k: nat)
    requires k < |s|
    ensures |Without(s, k)| == |s| - 1
  {
  }

  lemma WithoutEnds(s: seq<nat>)
    requires s != []
    ensures Without(s, 0) == s[1..] && Without(s, |s| - 1) == s[..|s| - 1]
  {
  }

  lemma LastIsLast(s: seq<nat>, k: nat)
    requires k == |s| - 1
    ensures s == Without(s, k) + [s[k]]
  {
  }

  ghost predicate InRange(l: Links, s: seq<nat>) {
    l.Valid() && forall i :: 0 <= i < |s| ==> s[i] < |l.state|
  }

  /** The links of the neighbours of s[k] once s[k] is cut out. */
  function Bridged(l: Links, s: seq<nat>, k: nat): Links
    requires InRange(l, s) && k < |s|
  {
    if |s| == 1 then l
    else if k == 0 then l.(prev := l.prev[s[1] := 0])
    else if k == |s| - 1 then l.(next := l.next[s[k - 1] := 0])
    else l.(next := l.next[s[k - 1] := s[k + 1]], prev := l.prev[s[k + 1] := s[k - 1]])
  }

  function Cleared(l: Links, pos: nat): Links
    requires l.Valid() && pos < |l.state|
  {
    Links(l.next[pos := 0], l.prev[pos := 0], l.state[pos := NotOnLru])
  }

  lemma BridgeChains(l: Links, s: seq<nat>, k: nat)
    requires InRange(l, s) && k < |s| && Distinct(s) && Chained(l, s)
    ensures InRange(Bridged(l, s, k), Without(s, k)) && Chained(Bridged(l, s, k), Without(s, k))
  {
    var l', s' := Bridged(l, s, k), Without(s, k);
    forall i | 0 <= i < |s'| - 1 ensures l'.next[s'[i]] == s'[i + 1] {
      assert s'[i] == if i < k then s[i] else s[i + 1];
      assert k > 0 && i != k - 1 ==> s'[i] != s[k - 1];
    }
    forall i | 0 < i < |s'| ensures l'.prev[s'[i]] == s'[i - 1] {
      assert s'[i] == if i < k then s[i] else s[i + 1];
      assert k + 1 < |s| && i != k ==> s'[i] != s[k + 1];
    }
  }

  lemma WithoutFacts(s: seq<nat>, k: nat)
    requires Distinct(s) && k < |s|
    ensures Distinct(Without(s, k)) && s[k] !in Without(s, k)
    ensures forall p :: p in s <==> p in Without(s, k) || p == s[k]
  {
    var s' := Without(s, k);
    forall i | 0 <= i < |s'| ensures s'[i] == s[if i < k then i else i + 1] {
    }
    forall p | p in s ensures p in s' || p == s[k] {
      var i :| 0 <= i < |s| && s[i] == p;
      assert i != k ==> s'[if i < k then i else i - 1] == p;
    }
  }

  lemma ClearMembers(l: Links, l': Links, state: LineState, s: seq<nat>, k: nat)
    requires Members(l, state, s) && k < |s| && state != NotOnLru
    requires l'.Valid() && l'.state == l.state[s[k] := NotOnLru]
    ensures Members(l', state, Without(s, k)) && s[k] !in Without(s, k)
  {
    hide Distinct, Without;
    WithoutFacts(s, k);
    assert forall i :: 0 <= i < |Without(s, k)| ==> Without(s, k)[i] in s;
  }

  /** Cutting s[k] out, and clearing its own links, leaves the list without it. */
  lemma RemoveThreads(l: Links, state: LineState, head: nat, tail: nat, s: seq<nat>, k: nat, head': nat, tail': nat)
    requires Threaded(l, state, head, tail, s) && k < |s| && state != NotOnLru
    requires k == 0 && |s| > 1 ==> head' == s[1]
    requires k > 0 ==> head' == head
    requires k == |s| - 1 && k > 0 ==> tail' == s[k - 1]
    requires k < |s| - 1 ==> tail' == tail
    ensures Threaded(Cleared(Bridged(l, s, k), s[k]), state, head', tail', Without(s, k))
    ensures OthersUntouched(l, Cleared(Bridged(l, s, k), s[k]), state)
  {
    RemoveUntouched(l, state, s, k);
    var l1, s' := Bridged(l, s, k), Without(s, k);
    var l' := Cleared(l1, s[k]);
    BridgeChains(l, s, k);
    ClearMembers(l, l', state, s, k);
    ClearChained(l1, s', s[k]);
  }

  lemma ClearChained(l: Links, s: seq<nat>, pos: nat)
    requires InRange(l, s) && Chained(l, s) && pos < |l.state| && pos !in s
    ensures Chained(Cleared(l, pos), s)
  {
  }

  /** touchThis: cut s[k] out and hang it after the tail. */
  function Rehung(l: Links, s: seq<nat>, k: nat): Links
    requires InRange(l, s) && k < |s| - 1
  {
    var l1, tail := Bridged(l, s, k), s[|s| - 1];
    l1.(next := l1.next[tail := s[k]][s[k] := 0], prev := l1.prev[s[k] := tail])
  }

  lemma RehangChains(l1: Links, s1: seq<nat>, pos: nat)
    requires InRange(l1, s1) && Distinct(s1) && Chained(l1, s1) && s1 != [] && pos < |l1.state| && pos !in s1
    ensures var l' := l1.(next := l1.next[s1[|s1| - 1] := pos][pos := 0], prev := l1.prev[pos := s1[|s1| - 1]]);
      InRange(l', s1 + [pos]) && Chained(l', s1 + [pos])
  {
    var s' := s1 + [pos];
    var l' := l1.(next := l1.next[s1[|s1| - 1] := pos][pos := 0], prev := l1.prev[pos := s1[|s1| - 1]]);
    forall i | 0 <= i < |s'| - 1 ensures l'.next[s'[i]] == s'[i + 1] {
      assert s'[i] == s1[i];
      assert i != |s1| - 1 ==> s1[i] != s1[|s1| - 1];
    }
  }

  lemma TouchThreads(l: Links, state: LineState, head: nat, tail: nat, s: seq<nat>, k: nat, head': nat)
    requires Threaded(l, state, head, tail, s) && k < |s| - 1 && state != NotOnLru
    requires head' == if k == 0 then s[1] else head
    ensures Threaded(Rehung(l, s, k), state, head', s[k], Without(s, k) + [s[k]])
    ensures OthersUntouched(l, Rehung(l, s, k), state)
  {
    hide Chained, OthersUntouched;
    TouchUntouched(l, state, s, k);
    BridgeChains(l, s, k);
    MoveMembers(l, Rehung(l, s, k), state, s, k);
    RehangChains(Bridged(l, s, k), Without(s, k), s[k]);
  }

  /** No list in another state loses, gains or relinks a slot. */
  ghost predicate OthersUntouched(l: Links, l': Links, state: LineState) {
    forall st :: st != state && st != NotOnLru ==> Untouched(l, l', st)
  }

  lemma PushUntouched(l: Links, state: LineState, head: nat, tail: nat, s: seq<nat>, pos: nat)
    requires Threaded(l, state, head, tail, s) && pos < |l.state| && l.state[pos] == NotOnLru
    ensures OthersUntouched(l, Pushed(l, state, tail, s == [], pos), state)
  {
  }

  lemma RemoveUntouched(l: Links, state: LineState, s: seq<nat>, k: nat)
    requires Members(l, state, s) && k < |s|
    ensures OthersUntouched(l, Cleared(Bridged(l, s, k), s[k]), state)
  {
  }

  lemma TouchUntouched(l: Links, state: LineState, s: seq<nat>, k: nat)
    requires Members(l, state, s) && k < |s| - 1
    ensures OthersUntouched(l, Rehung(l, s, k), state)
  {
  }

  lemma Neighbours(l: Links, state: LineState, head: nat, tail: nat, s: seq<nat>, k: nat)
    requires Threaded(l, state, head, tail, s) && k < |s|
    ensures InRange(l, s)
    ensures k < |s| - 1 ==> l.next[s[k]] == s[k + 1] < |l.state|
    ensures k > 0 ==> l.prev[s[k]] == s[k - 1] < |l.state|
    ensures head == s[0] && tail == s[|s| - 1]
    ensures s[k] == s[0] <==> k == 0
    ensures s[k] == s[|s| - 1] <==> k == |s| - 1
    ensures 0 < k < |s| - 1 ==> s[k - 1] != s[k] && s[k] != s[k + 1] && s[k - 1] != s[k + 1]
  {
  }

  lemma MoveMembers(l: Links, l': Links, state: LineState, s: seq<nat>, k: nat)
    requires Members(l, state, s) && k < |s| && l'.Valid() && l'.state == l.state
    ensures Members(l', state, Without(s, k) + [s[k]]) && Distinct(Without(s, k)) && s[k] !in Without(s, k)
  {
    hide Without;
    WithoutFacts(s, k);
    var s' := Without(s, k) + [s[k]];
    assert forall p :: p in s' <==> p in s;
    assert forall i :: 0 <= i < |s'| ==> s'[i] in s;
  }

  // -------- Lists as the code keeps them --------

  class Lru {
    const tr: Trackers
    const state: LineState
    var head: nat
    var tail: nat
    var count: nat
    ghost var Contents: seq<nat>

    ghost predicate Valid()
      reads this, tr, tr.next, tr.prev, tr.state
    {
      && tr.Valid() && state != NotOnLru && count == |Contents|
      && Threaded(tr.Snapshot(), state, head, tail, Contents)
    }

    /** Another list over the same trackers. */
    ghost predicate Beside(other: Lru)
      reads this, other
    {
      other != this && other.tr == tr && other.state != state
    }

    constructor (tr: Trackers, state: LineState)
      requires tr.Valid() && state != NotOnLru
      requires forall p :: 0 <= p < tr.state.Length ==> tr.state[p] != state
      ensures Valid() && this.tr == tr && this.state == state && Contents == []
    {
      this.tr, this.state := tr, state;
      head, tail, count, Contents := 0, 0, 0, [];
    }

    method PushTail(pos: nat)
      requires Valid() && pos < tr.state.Length && tr.state[pos] == NotOnLru
      modifies this, tr.next, tr.prev, tr.state
      ensures Valid() && Contents == old(Contents) + [pos] && tr.state[..] == old(tr.state[..])[pos := state]
      ensures OthersUntouched(old(tr.Snapshot()), tr.Snapshot(), state)
    {
      ghost var l := tr.Snapshot();
      hide Threaded, OthersUntouched;
      PushThreads(l, state, head, tail, Contents, pos);
      PushUntouched(l, state, head, tail, Contents, pos);
      tr.next[pos] := 0;
      tr.state[pos] := state;
      if count == 0 {
        tr.prev[pos] := 0;
        head, tail, count := pos, pos, 1;
      } else {
        tr.next[tail] := pos;
        tr.prev[pos] := tail;
        tail, count := pos, count + 1;
      }
      assert tr.Snapshot() == Pushed(l, state, old(tail), old(Contents) == [], pos);
      Contents := Contents + [pos];
    }

    /** popHead: drop the oldest slot, or report that there is none. */
    method PopHead() returns (found: bool, pos: nat)
      requires Valid()
      modifies this, tr.next, tr.prev, tr.state
      ensures Valid() && found == (old(Contents) != [])
      ensures found ==> pos == old(Contents)[0] && Contents == old(Contents)[1..] && tr.state[..] == old(tr.state[..])[pos := NotOnLru]
      ensures !found ==> Contents == old(Contents) && tr.state[..] == old(tr.state[..])
      ensures OthersUntouched(old(tr.Snapshot()), tr.Snapshot(), state)
    {
      hide Threaded, OthersUntouched;
      if count == 0 {
        OthersReflexive(tr.Snapshot(), state);
        return false, 0;
      }
      found, pos := true, head;
      ghost var l, s := tr.Snapshot(), Contents;
      Neighbours(l, state, head, tail, s, 0);
      if count == 1 {
        head, tail, count := 0, 0, 0;
      } else {
        head := tr.next[pos];
        tr.prev[head] := 0;
        count := count - 1;
      }
      Clear(pos);
      Contents := Without(s, 0);
      assert tr.Snapshot() == Cleared(Bridged(l, s, 0), pos);
      RemoveThreads(l, state, old(head), old(tail), s, 0, head, tail);
      WithoutEnds(s);
    }

    /** popTail: drop the newest slot, or report that there is none. */
    method PopTail() returns (found: bool, pos: nat)
      requires Valid()
      modifies this, tr.next, tr.prev, tr.state
      ensures Valid() && found == (old(Contents) != [])
      ensures found ==> var n := |old(Contents)| - 1;
        pos == old(Contents)[n] && Contents == old(Contents)[..n] && tr.state[..] == old(tr.state[..])[pos := NotOnLru]
      ensures !found ==> Contents == old(Contents) && tr.state[..] == old(tr.state[..])
      ensures OthersUntouched(old(tr.Snapshot()), tr.Snapshot(), state)
    {
      hide Threaded, OthersUntouched;
      if count == 0 {
        OthersReflexive(tr.Snapshot(), state);
        return false, 0;
      }
      found, pos := true, tail;
      ghost var l, s := tr.Snapshot(), Contents;
      Neighbours(l, state, head, tail, s, |s| - 1);
      if count == 1 {
        head, tail, count := 0, 0, 0;
      } else {
        tail := tr.prev[pos];
        tr.next[tail] := 0;
        count := count - 1;
      }
      Clear(pos);
      Contents := Without(s, |s| - 1);
      assert tr.Snapshot() == Cleared(Bridged(l, s, |s| - 1), pos);
      RemoveThreads(l, state, old(head), old(tail), s, |s| - 1, head, tail);
      WithoutEnds(s);
    }

    /** popThis: delete a slot wherever it is in the list. */
    method PopThis(pos: nat, ghost k: nat)
      requires Valid() && k < |Contents| && Contents[k] == pos
      modifies this, tr.next, tr.prev, tr.state
      ensures Valid() && Contents == Without(old(Contents), k)
      ensures tr.state[..] == old(tr.state[..])[pos := NotOnLru]
      ensures OthersUntouched(old(tr.Snapshot()), tr.Snapshot(), state)
    {
      ghost var l, s := tr.Snapshot(), Contents;
      hide Threaded, OthersUntouched, Without;
      Neighbours(l, state, head, tail, s, k);
      if count == 1 {
        head, tail, count := 0, 0, 0;
      } else {
        if pos == head {
          head := tr.next[pos];
          tr.prev[head] := 0;
        } else if pos == tail {
          tail := tr.prev[pos];
          tr.next[tail] := 0;
        } else {
          tr.next[tr.prev[pos]] := tr.next[pos];
          tr.prev[tr.next[pos]] := tr.prev[pos];
        }
        count := count - 1;
      }
      Clear(pos);
      Contents := Without(s, k);
      WithoutSize(s, k);
      assert tr.Snapshot() == Cleared(Bridged(l, s, k), pos);
      RemoveThreads(l, state, old(head), old(tail), s, k, head, tail);
    }

    /** touchThis: make a slot the newest. */
    method TouchThis(pos: nat, ghost k: nat)
      requires Valid() && k < |Contents| && Contents[k] == pos
      modifies this, tr.next, tr.prev
      ensures Valid() && Contents == Without(old(Contents), k) + [pos]
      ensures OthersUntouched(old(tr.Snapshot()), tr.Snapshot(), state)
    {
      hide Threaded, OthersUntouched;
      ghost var l, s := tr.Snapshot(), Contents;
      Neighbours(l, state, head, tail, s, k);
      if pos == tail {
        LastIsLast(s, k);
        OthersReflexive(l, state);
        return;
      }
      TouchThreads(l, state, head, tail, s, k, if k == 0 then s[1] else head);
      CutOut(pos, k);
      tr.HangAfter(tail, pos);
      tail, Contents := pos, Without(s, k) + [pos];
    }

    /** The first half of touchThis: join the neighbours of a slot that is not the tail. */
    method CutOut(pos: nat, ghost k: nat)
      requires Valid() && k < |Contents| - 1 && Contents[k] == pos && InRange(tr.Snapshot(), Contents)
      modifies this`head, tr.next, tr.prev
      ensures tr.Snapshot() == Bridged(old(tr.Snapshot()), Contents, k)
      ensures head == if k == 0 then Contents[1] else old(head)
    {
      ghost var l, s := tr.Snapshot(), Contents;
      Neighbours(l, state, head, tail, s, k);
      hide Threaded;
      if pos == head {
        head := tr.next[pos];
        tr.prev[tr.next[pos]] := 0;
      } else {
        tr.next[tr.prev[pos]] := tr.next[pos];
        tr.prev[tr.next[pos]] := tr.prev[pos];
      }
    }

    method Clear(pos: nat)
      requires tr.Valid() && pos < tr.state.Length
      modifies tr.next, tr.prev, tr.state
      ensures tr.Snapshot() == Cleared(old(tr.Snapshot()), pos)
    {
      tr.next[pos] := 0;
      tr.prev[pos] := 0;
      tr.state[pos] := NotOnLru;
    }

    /** A list over the same trackers in another state is still the list it was. */
    twostate lemma Keeps(other: Lru)
      requires old(tr.Valid()) && tr.Valid() && Beside(other) && old(other.Valid()) && unchanged(other)
      requires OthersUntouched(old(tr.Snapshot()), tr.Snapshot(), state)
      ensures other.Valid()
    {
      UntouchedList(old(tr.Snapshot()), tr.Snapshot(), other.state, other.head, other.tail, other.Contents);
    }
  }

  // -------- The pool --------

  /** Two lists over the same trackers never share a slot. */
  lemma ListsAreDisjoint(a: Lru, b: Lru)
    requires a.Valid() && b.Valid() && a.Beside(b)
    ensures forall p :: p in a.Contents ==> p !in b.Contents
  {
  }

  /** The loop of dataCacheUp that puts the slots on the Free list. */
  method FillFree(lines: nat) returns (tr: Trackers, free: Lru)
    ensures free.Valid() && free.tr == tr && free.state == Free && free.Contents == seq(lines, p => p)
    ensures tr.state.Length == lines && forall p :: 0 <= p < lines ==> tr.state[p] == Free
  {
    hide Threaded, OthersUntouched;
    tr := new Trackers(lines);
    free := new Lru(tr, Free);
    var p := 0;
    while p < lines
      invariant p <= lines && tr.Valid() && tr.state.Length == lines && free.tr == tr && free.state == Free
      invariant free.Valid() && free.Contents == seq(p, q => q)
      invariant forall q :: 0 <= q < lines ==> tr.state[q] == if q < p then Free else NotOnLru
      invariant fresh(tr) && fresh(free) && fresh(tr.next) && fresh(tr.prev) && fresh(tr.state)
    {
      free.PushTail(p);
      forall q | 0 <= q < lines ensures tr.state[q] == if q < p + 1 then Free else NotOnLru {
        assert tr.state[q] == tr.state[..][q];
      }
      p := p + 1;
    }
  }

  /** dataCacheUp: every slot on the Free list, in order, and the other four empty. */
  method DataCacheUp(lines: nat) returns (tr: Trackers, free: Lru, inbound: Lru, clean: Lru, outbound: Lru, dirty: Lru)
    ensures free.Valid() && inbound.Valid() && clean.Valid() && outbound.Valid() && dirty.Valid()
    ensures free.tr == tr && inbound.tr == tr && clean.tr == tr && outbound.tr == tr && dirty.tr == tr
    ensures free.state == Free && inbound.state == Inbound && clean.state == Clean && outbound.state == Outbound && dirty.state == Dirty
    ensures free.Contents == seq(lines, p => p)
    ensures inbound.Contents == [] && clean.Contents == [] && outbound.Contents == [] && dirty.Contents == []
  {
    hide Threaded;
    tr, free := FillFree(lines);
    inbound := new Lru(tr, Inbound);
    clean := new Lru(tr, Clean);
    outbound := new Lru(tr, Outbound);
    dirty := new Lru(tr, Dirty);
  }

  /**
   One pass of allocateDataCacheLines under the lock: take from the Free list, oldest first, then
   from the Clean list, until `count` slots are held or both lists are empty.
   */
  method TakeLines(free: Lru, clean: Lru, count: nat, held: seq<nat>) returns (taken: seq<nat>)
    requires free.Valid() && clean.Valid() && free.Beside(clean) && |held| <= count
    modifies free, clean, free.tr.next, free.tr.prev, free.tr.state
    ensures free.Valid() && clean.Valid()
    ensures var a := Min(count - |held|, |old(free.Contents)|);
      var b := Min(count - |held| - a, |old(clean.Contents)|);
      && taken == held + old(free.Contents)[..a] + old(clean.Contents)[..b]
      && free.Contents == old(free.Contents)[a..] && clean.Contents == old(clean.Contents)[b..]
    ensures |taken| < count ==> free.Contents == [] && clean.Contents == []
  {
    hide Threaded, OthersUntouched;
    taken := TakeFrom(free, count, held);
    free.Keeps(clean);
    label mid:
    taken := TakeFrom(clean, count, taken);
    clean.Keeps@mid(free);
  }

  lemma OthersReflexive(l: Links, state: LineState)
    requires l.Valid()
    ensures OthersUntouched(l, l, state)
  {
  }

  lemma OthersTransitive(l0: Links, l1: Links, l2: Links, state: LineState)
    requires OthersUntouched(l0, l1, state) && OthersUntouched(l1, l2, state)
    ensures OthersUntouched(l0, l2, state)
  {
    forall st | st != state && st != NotOnLru ensures Untouched(l0, l2, st) {
      assert Untouched(l0, l1, st) && Untouched(l1, l2, st);
    }
  }

  /** Pop the oldest slots of one list until `count` are held or the list is empty. */
  method TakeFrom(list: Lru, count: nat, held: seq<nat>) returns (taken: seq<nat>)
    requires list.Valid() && |held| <= count
    modifies list, list.tr.next, list.tr.prev, list.tr.state
    ensures list.Valid() && OthersUntouched(old(list.tr.Snapshot()), list.tr.Snapshot(), list.state)
    ensures var a := Min(count - |held|, |old(list.Contents)|);
      taken == held + old(list.Contents)[..a] && list.Contents == old(list.Contents)[a..]
  {
    hide Threaded, OthersUntouched;
    taken := held;
    ghost var a := 0;
    OthersReflexive(list.tr.Snapshot(), list.state);
    while |taken| < count
      invariant list.Valid() && a <= |old(list.Contents)| && |taken| == |held| + a <= count
      invariant taken == held + old(list.Contents)[..a] && list.Contents == old(list.Contents)[a..]
      invariant OthersUntouched(old(list.tr.Snapshot()), list.tr.Snapshot(), list.state)
      decreases count - |taken|
    {
      ghost var l := list.tr.Snapshot();
      var found, pos := list.PopHead();
      OthersTransitive(old(list.tr.Snapshot()), l, list.tr.Snapshot(), list.state);
      if !found {
        break;
      }
      taken := taken + [pos];
      a := a + 1;
    }
  }
}
