/**
 Which trees can make the manifest walk wait for itself: for every number of
 workers, channel capacity and depth limit, a height that is safe, and a tree one
 level higher that is not.
 */
module BfsDeadlock {
  import opened Bfs
  import opened Collections

  // -------- Height --------

  function Height(d: Dir): nat
    decreases d, 0
  {
    1 + Tallest(d.subdirs)
  }

  function Tallest(ds: seq<Dir>): nat
    decreases ds, 1
  {
    if ds == [] then 0 else if Height(ds[0]) > Tallest(ds[1..]) then Height(ds[0]) else Tallest(ds[1..])
  }

  lemma {:induction false} TallestAppend(a: seq<Dir>, b: seq<Dir>)
    ensures Tallest(a + b) == if Tallest(a) > Tallest(b) then Tallest(a) else Tallest(b)
  {
    if a == [] {
      assert a + b == b;
    } else {
      assert (a + b)[0] == a[0] && (a + b)[1..] == a[1..] + b;
      TallestAppend(a[1..], b);
    }
  }

  /** How high a tree may be: one worker always has the root to itself, and with more only one of them ever has. */
  function SafeHeight(c: Config, n: nat): nat {
    c.maxDepth + if n == 1 then 1 else 2
  }

  // -------- Trees that are not too high never deadlock --------

  /** Everything that frame `k` has left is at least k + 1 lower than `h`. */
  predicate FrameLow(f: Frame, k: nat, h: nat) {
    Tallest(f.todo) + k + 1 <= h && (f.sending.Some? ==> Height(f.sending.value) + k + 1 <= h)
  }

  predicate StackLow(stack: seq<Frame>, h: nat) {
    forall k :: 0 <= k < |stack| ==> FrameLow(stack[k], k, h)
  }

  predicate QueueLow(queue: seq<Dir>, h: nat) {
    forall i :: 0 <= i < |queue| ==> Height(queue[i]) <= h
  }

  /** Only worker `first` lists, or ever listed, the root; all else is lower. */
  ghost predicate Low(s: State, h: nat, first: nat) {
    && h > 0 && QueueLow(s.queue, h - 1)
    && forall w :: 0 <= w < |s.workers| ==> StackLow(s.workers[w].stack, if w == first then h else h - 1)
  }

  /** Before the root is taken, or after. */
  ghost predicate Leveled(s: State, root: Dir, first: nat) {
    || (s.queue == [root] && !s.closed && s.wg == 1 && forall w :: 0 <= w < |s.workers| ==> s.workers[w].stack == [])
    || Low(s, Height(root), first)
  }

  lemma PushLow(stack: seq<Frame>, f: Frame, h: nat)
    requires StackLow(stack, h) && FrameLow(f, |stack|, h)
    ensures StackLow(stack + [f], h)
  {
    hide FrameLow;
  }

  lemma PopLow(stack: seq<Frame>, h: nat)
    requires stack != [] && StackLow(stack, h)
    ensures StackLow(stack[..|stack| - 1], h) && FrameLow(stack[|stack| - 1], |stack| - 1, h)
  {
    hide FrameLow;
  }

  lemma SetLow(s: State, s': State, w: nat, k: Worker, h: nat, first: nat)
    requires Low(s, h, first) && w < |s.workers| && s'.workers == s.workers[w := k] && QueueLow(s'.queue, h - 1)
    requires StackLow(k.stack, if w == first then h else h - 1)
    ensures Low(s', h, first)
  {
    hide StackLow;
  }

  lemma FirstTake(c: Config, s: State, w: nat, root: Dir)
    requires Enabled(c, s, Receive(w)) && s.queue == [root] && forall v :: 0 <= v < |s.workers| ==> s.workers[v].stack == []
    ensures Low(Step(c, s, Receive(w)), Height(root), w)
  {
  }

  lemma TakeLow(c: Config, s: State, w: nat, h: nat, first: nat)
    requires Enabled(c, s, Receive(w)) && Low(s, h, first)
    ensures Low(Step(c, s, Receive(w)), h, first)
  {
    var d := s.queue[0];
    SetLow(s, Step(c, s, Receive(w)), w, Worker([Begin(d)], false), h, first);
  }

  lemma AnnounceLow(c: Config, s: State, w: nat, h: nat, first: nat)
    requires Enabled(c, s, Announce(w)) && Low(s, h, first)
    ensures Low(Step(c, s, Announce(w)), h, first)
  {
    hide StackLow;
    var k, top, b := s.workers[w], Top(s.workers[w]), if w == first then h else h - 1;
    PopLow(k.stack, b);
    var f := Frame(top.todo[1..], Some(top.todo[0]));
    PushLow(k.stack[..|k.stack| - 1], f, b);
    SetLow(s, Step(c, s, Announce(w)), w, SetTop(k, f), h, first);
  }

  lemma OfferLow(c: Config, s: State, w: nat, h: nat, first: nat)
    requires Enabled(c, s, Offer(w)) && Low(s, h, first) && !s.closed
    ensures Low(Step(c, s, Offer(w)), h, first)
  {
    hide StackLow;
    var k, top, b := s.workers[w], Top(s.workers[w]), if w == first then h else h - 1;
    var init, d, f := k.stack[..|k.stack| - 1], top.sending.value, top.(sending := None);
    PopLow(k.stack, b);
    PushLow(init, f, b);
    if !Full(c, s) {
      SetLow(s, Step(c, s, Offer(w)), w, SetTop(k, f), h, first);
    } else {
      PushLow(init + [f], Begin(d), b);
      SetLow(s, Step(c, s, Offer(w)), w, SetTop(k, f).(stack := init + [f] + [Begin(d)]), h, first);
    }
  }

  lemma DropLow(c: Config, s: State, w: nat, h: nat, first: nat, a: Action)
    requires a in {Finish(w), Fail(w)} && Enabled(c, s, a) && Low(s, h, first)
    ensures Low(Step(c, s, a), h, first)
  {
    hide StackLow;
    var k, b := s.workers[w], if w == first then h else h - 1;
    PopLow(k.stack, b);
    PushLow(k.stack[..|k.stack| - 1], Frame([], None), b);
    SetLow(s, Step(c, s, a), w, Step(c, s, a).workers[w], h, first);
  }

  lemma ExitLow(c: Config, s: State, w: nat, h: nat, first: nat)
    requires Enabled(c, s, Exit(w)) && Low(s, h, first)
    ensures Low(Step(c, s, Exit(w)), h, first)
  {
    hide StackLow;
    assert StackLow(s.workers[w].stack, if w == first then h else h - 1);
    SetLow(s, Step(c, s, Exit(w)), w, s.workers[w].(exited := true), h, first);
  }

  lemma StepLow(c: Config, s: State, a: Action, root: Dir, first: nat)
    requires Inv(s, root) && Enabled(c, s, a) && Low(s, Height(root), first)
    ensures Low(Step(c, s, a), Height(root), first)
  {
    hide Low, Conserved;
    var h := Height(root);
    match a {
      case Receive(w) => TakeLow(c, s, w, h, first);
      case Announce(w) => AnnounceLow(c, s, w, h, first);
      case Offer(w) =>
        BusyIsOpen(s, w);
        OfferLow(c, s, w, h, first);
      case Exit(w) => ExitLow(c, s, w, h, first);
      case Close => CloseLow(c, s, h, first);
      case _ => DropLow(c, s, a.w, h, first, a);
    }
  }

  lemma CloseLow(c: Config, s: State, h: nat, first: nat)
    requires Enabled(c, s, Close) && Low(s, h, first)
    ensures Low(Step(c, s, Close), h, first)
  {
  }

  lemma StepLeveled(c: Config, s: State, a: Action, root: Dir, first: nat) returns (first': nat)
    requires Inv(s, root) && Enabled(c, s, a) && Leveled(s, root, first)
    ensures Leveled(Step(c, s, a), root, first')
  {
    hide Low, Inv;
    first' := first;
    if Low(s, Height(root), first) {
      StepLow(c, s, a, root, first);
    } else {
      first' := a.w;
      FirstTake(c, s, a.w, root);
    }
  }

  lemma {:induction false} RunLeveled(c: Config, s: State, run: seq<Action>, root: Dir, first: nat) returns (first': nat)
    requires Inv(s, root) && Leveled(s, root, first)
    ensures Leveled(Exec(c, s, run), root, first')
    decreases |run|
  {
    hide Inv, Step, Leveled, Enabled;
    first' := first;
    if run != [] {
      if Enabled(c, s, run[0]) {
        StepInv(c, s, run[0], root);
        first' := StepLeveled(c, s, run[0], root, first);
        first' := RunLeveled(c, Step(c, s, run[0]), run[1..], root, first');
      } else {
        first' := RunLeveled(c, s, run[1..], root, first);
      }
    }
  }

  lemma BlockedIsDeep(c: Config, k: Worker, h: nat)
    requires Blocked(c, k) && StackLow(k.stack, h)
    ensures h >= c.maxDepth + 2
  {
    assert FrameLow(Top(k), |k.stack| - 1, h);
  }

  /** No run deadlocks on a tree that is not too high. */
  lemma LowTreesAreSafe(c: Config, root: Dir, n: nat, run: seq<Action>)
    requires n > 0 && Height(root) <= SafeHeight(c, n)
    ensures !Deadlocked(c, Exec(c, Init(root, n), run))
  {
    hide Inv, Exec, StackLow, QueueLow;
    InitInv(root, n);
    var first := RunLeveled(c, Init(root, n), run, root, 0);
    WorkersStay(c, Init(root, n), run);
    var s := Exec(c, Init(root, n), run);
    if Deadlocked(c, s) {
      assert Blocked(c, s.workers[0]);
      var w := if first == 0 && n > 1 then 1 else 0;
      assert Blocked(c, s.workers[w]);
      BlockedIsDeep(c, s.workers[w], if w == first then Height(root) else Height(root) - 1);
    }
  }

  // -------- A tree one level higher --------

  function Chain(j: nat): Dir {
    Dir("chain", if j == 0 then [] else [Chain(j - 1)])
  }

  /** A name of its own for each number. */
  function Tag(ch: char, n: nat): string {
    seq(n + 1, _ => ch)
  }

  function Leaf(n: nat): Dir {
    Dir(Tag('l', n), [])
  }

  function Leaves(n: nat): (ds: seq<Dir>)
    ensures |ds| == n
  {
    if n == 0 then [] else [Leaf(n)] + Leaves(n - 1)
  }

  /** A chain with a name of its own. */
  function Tower(c: Config, n: nat): Dir {
    Dir(Tag('t', n), [Chain(c.maxDepth)])
  }

  /** One chain for each of `n` workers to nest into. */
  function Chains(c: Config, n: nat): (ds: seq<Dir>)
    ensures |ds| == n
  {
    if n == 0 then [] else [Tower(c, n)] + Chains(c, n - 1)
  }

  /** No two subdirectories of a directory have the same name. */
  predicate WellNamed(d: Dir) {
    && (forall i, j :: 0 <= i < j < |d.subdirs| ==> d.subdirs[i].path != d.subdirs[j].path)
    && (forall i :: 0 <= i < |d.subdirs| ==> WellNamed(d.subdirs[i]))
  }

  lemma {:induction false} ChainWellNamed(j: nat)
    ensures WellNamed(Chain(j))
  {
    if j > 0 {
      ChainWellNamed(j - 1);
    }
  }

  lemma {:induction false} LeafAt(n: nat, i: nat)
    requires i < n
    ensures Leaves(n)[i] == Leaf(n - i)
  {
    if i > 0 {
      LeafAt(n - 1, i - 1);
    }
  }

  lemma {:induction false} TowerAt(c: Config, n: nat, i: nat)
    requires i < n
    ensures Chains(c, n)[i] == Tower(c, n - i)
  {
    if i > 0 {
      TowerAt(c, n - 1, i - 1);
    }
  }

  /** What stands where in the list: its first letter tells the kind, its length the number. */
  lemma TrapAt(c: Config, n: nat, i: nat)
    requires n > 0 && i < |Trap(c, n).subdirs|
    ensures |Trap(c, n).subdirs| == n - 1 + c.capacity + 1
    ensures var d := Trap(c, n).subdirs[i];
      && WellNamed(d) && |d.path| > 0
      && (if i < n - 1 then d.path[0] == 't' && |d.path| == n - i
          else if i < n - 1 + c.capacity then d.path[0] == 'l' && |d.path| == c.capacity - (i - (n - 1)) + 1
          else d.path[0] == 'c')
  {
    ChainWellNamed(c.maxDepth);
    var ds := Trap(c, n).subdirs;
    if i < n - 1 {
      TowerAt(c, n - 1, i);
      assert ds[i] == Chains(c, n - 1)[i];
    } else if i < n - 1 + c.capacity {
      LeafAt(c.capacity, i - (n - 1));
      assert ds[i] == Leaves(c.capacity)[i - (n - 1)];
    }
  }

  lemma TrapWellNamed(c: Config, n: nat)
    requires n > 0
    ensures WellNamed(Trap(c, n))
  {
    var ds := Trap(c, n).subdirs;
    forall i | 0 <= i < |ds| ensures WellNamed(ds[i]) {
      TrapAt(c, n, i);
    }
    forall i, j | 0 <= i < j < |ds| ensures ds[i].path != ds[j].path {
      TrapAt(c, n, i);
      TrapAt(c, n, j);
    }
  }

  /** Chains for the other workers, leaves to fill the channel, and a chain for the worker that lists it. */
  function Trap(c: Config, n: nat): Dir
    requires n > 0
  {
    Dir("", Chains(c, n - 1) + (Leaves(c.capacity) + [Chain(c.maxDepth)]))
  }

  lemma {:induction false} ChainHeight(j: nat)
    ensures Height(Chain(j)) == j + 1
  {
    if j > 0 {
      ChainHeight(j - 1);
      assert Tallest([Chain(j - 1)]) == Height(Chain(j - 1));
    }
  }

  lemma {:induction false} LeavesHeight(n: nat)
    ensures Tallest(Leaves(n)) == if n == 0 then 0 else 1
  {
    if n > 0 {
      LeavesHeight(n - 1);
      assert Leaves(n)[1..] == Leaves(n - 1);
      assert Height(Leaf(n)) == 1;
    }
  }

  lemma {:induction false} ChainsHeight(c: Config, n: nat)
    ensures Tallest(Chains(c, n)) == if n == 0 then 0 else c.maxDepth + 2
  {
    if n > 0 {
      ChainsHeight(c, n - 1);
      ChainHeight(c.maxDepth);
      assert Tallest([Chain(c.maxDepth)]) == Height(Chain(c.maxDepth));
      assert Chains(c, n)[1..] == Chains(c, n - 1) && Height(Tower(c, n)) == c.maxDepth + 2;
    }
  }

  lemma TrapHeight(c: Config, n: nat)
    requires n > 0 && c.capacity > 0
    ensures Height(Trap(c, n)) == SafeHeight(c, n) + 1
  {
    ChainsHeight(c, n - 1);
    LeavesHeight(c.capacity);
    ChainHeight(c.maxDepth);
    assert Tallest([Chain(c.maxDepth)]) == Height(Chain(c.maxDepth));
    TallestAppend(Leaves(c.capacity), [Chain(c.maxDepth)]);
    TallestAppend(Chains(c, n - 1), Leaves(c.capacity) + [Chain(c.maxDepth)]);
  }

  // -------- A run that deadlocks on it --------

  /** The worker is listing, `depth` deep, with this left to announce. */
  predicate Lists(k: Worker, depth: nat, todo: seq<Dir>) {
    |k.stack| == depth + 1 && Top(k) == Frame(todo, None)
  }

  /** All but worker `w` are as they were. */
  ghost predicate OnlyMoved(s: State, s': State, w: nat) {
    && |s'.workers| == |s.workers| && !s'.closed
    && forall v :: 0 <= v < |s.workers| && v != w ==> s'.workers[v] == s.workers[v]
  }

  lemma {:induction false} ExecAppend(c: Config, s: State, a: seq<Action>, b: seq<Action>)
    ensures Exec(c, s, a + b) == Exec(c, Exec(c, s, a), b)
    decreases |a|
  {
    if a == [] {
      assert a + b == b;
    } else {
      assert (a + b)[0] == a[0] && (a + b)[1..] == a[1..] + b;
      ExecAppend(c, if Enabled(c, s, a[0]) then Step(c, s, a[0]) else s, a[1..], b);
    }
  }

  lemma ExecOne(c: Config, s: State, a: Action)
    requires Enabled(c, s, a)
    ensures Exec(c, s, [a]) == Step(c, s, a)
  {
    assert [a][1..] == [];
  }

  /** A worker's next subdirectory goes to the channel, or, if that is full, on top of its stack. */
  lemma Moves(c: Config, s: State, w: nat, depth: nat, d: Dir, rest: seq<Dir>) returns (run: seq<Action>)
    requires w < |s.workers| && !s.closed && Lists(s.workers[w], depth, [d] + rest) && (!Full(c, s) || depth < c.maxDepth)
    ensures var s' := Exec(c, s, run);
      && OnlyMoved(s, s', w)
      && (if Full(c, s) then Lists(s'.workers[w], depth + 1, d.subdirs) && s'.queue == s.queue
          else Lists(s'.workers[w], depth, rest) && s'.queue == s.queue + [d])
  {
    hide Exec;
    var s1 := Step(c, s, Announce(w));
    assert Top(s1.workers[w]) == Frame(rest, Some(d));
    run := [Announce(w)] + [Offer(w)];
    ExecOne(c, s, Announce(w));
    ExecOne(c, s1, Offer(w));
    ExecAppend(c, s, [Announce(w)], [Offer(w)]);
  }

  lemma Blocks(c: Config, s: State, w: nat, depth: nat, d: Dir) returns (run: seq<Action>)
    requires w < |s.workers| && !s.closed && Lists(s.workers[w], depth, [d]) && depth >= c.maxDepth
    ensures var s' := Exec(c, s, run); OnlyMoved(s, s', w) && s'.queue == s.queue && Blocked(c, s'.workers[w])
  {
    hide Exec;
    run := [Announce(w)];
    ExecOne(c, s, Announce(w));
    assert Top(Step(c, s, Announce(w)).workers[w]).sending == Some(d);
  }

  lemma MovedTwice(s: State, s1: State, s2: State, w: nat)
    requires OnlyMoved(s, s1, w) && OnlyMoved(s1, s2, w)
    ensures OnlyMoved(s, s2, w)
  {
  }

  /** Once the channel is full, a chain nests the listing down to the limit, and it blocks there. */
  lemma {:induction false} NestsUntilBlocked(c: Config, s: State, w: nat, depth: nat, j: nat) returns (run: seq<Action>)
    requires w < |s.workers| && !s.closed && Lists(s.workers[w], depth, [Chain(j)]) && Full(c, s) && depth + j == c.maxDepth
    ensures var s' := Exec(c, s, run); OnlyMoved(s, s', w) && s'.queue == s.queue && Blocked(c, s'.workers[w])
    decreases j
  {
    hide Exec, Lists, OnlyMoved, Blocked;
    if j == 0 {
      run := Blocks(c, s, w, depth, Chain(0));
    } else {
      assert [Chain(j)] + [] == [Chain(j)];
      var move := Moves(c, s, w, depth, Chain(j), []);
      var s1 := Exec(c, s, move);
      MovedFacts(s, s1, w);
      var rest := NestsUntilBlocked(c, s1, w, depth + 1, j - 1);
      run := move + rest;
      ExecAppend(c, s, move, rest);
      MovedTwice(s, s1, Exec(c, s1, rest), w);
    }
  }

  lemma MovedFacts(s: State, s': State, w: nat)
    requires OnlyMoved(s, s', w)
    ensures |s'.workers| == |s.workers| && !s'.closed
    ensures forall v :: 0 <= v < |s.workers| && v != w ==> s'.workers[v] == s.workers[v]
  {
  }

  /** The workers below `m` are blocked; the others each have a chain to nest into. */
  ghost predicate Nesting(c: Config, s: State, m: nat) {
    && !s.closed && Full(c, s) && m <= |s.workers|
    && (forall w :: 0 <= w < m ==> Blocked(c, s.workers[w]))
    && (forall w :: m <= w < |s.workers| ==> Lists(s.workers[w], 0, [Chain(c.maxDepth)]))
  }

  lemma {:induction false} AllBlock(c: Config, s: State, m: nat) returns (run: seq<Action>)
    requires Nesting(c, s, m)
    ensures Deadlocked(c, Exec(c, s, run))
    decreases |s.workers| - m
  {
    hide Lists, Blocked, OnlyMoved;
    if m == |s.workers| {
      run := [];
    } else {
      hide Exec;
      var one := NestsUntilBlocked(c, s, m, 0, c.maxDepth);
      var s1 := Exec(c, s, one);
      MovedFacts(s, s1, m);
      var rest := AllBlock(c, s1, m + 1);
      run := one + rest;
      ExecAppend(c, s, one, rest);
    }
  }

  /** The first worker fills the channel with leaves; then everybody blocks. */
  lemma {:induction false} FillsChannel(c: Config, s: State, n: nat) returns (run: seq<Action>)
    requires |s.workers| > 0 && !s.closed && Lists(s.workers[0], 0, Leaves(n) + [Chain(c.maxDepth)]) && |s.queue| + n == c.capacity
    requires forall w :: 0 < w < |s.workers| ==> Lists(s.workers[w], 0, [Chain(c.maxDepth)])
    ensures Deadlocked(c, Exec(c, s, run))
    decreases n
  {
    hide Lists, Exec, OnlyMoved, Deadlocked, Chain, Blocked;
    if n == 0 {
      assert Leaves(0) + [Chain(c.maxDepth)] == [Chain(c.maxDepth)];
      run := AllBlock(c, s, 0);
    } else {
      var todo := Leaves(n - 1) + [Chain(c.maxDepth)];
      assert Leaves(n) + [Chain(c.maxDepth)] == [Leaf(n)] + todo;
      var move := Moves(c, s, 0, 0, Leaf(n), todo);
      var s1 := Exec(c, s, move);
      MovedFacts(s, s1, 0);
      var rest := FillsChannel(c, s1, n - 1);
      run := move + rest;
      ExecAppend(c, s, move, rest);
    }
  }

  predicate Idle(k: Worker) {
    k.stack == [] && !k.exited
  }

  lemma Takes(c: Config, s: State, w: nat, n: nat) returns (run: seq<Action>)
    requires w < |s.workers| && !s.closed && Idle(s.workers[w]) && s.queue == [Tower(c, n)]
    ensures var s' := Exec(c, s, run); OnlyMoved(s, s', w) && s'.queue == [] && Lists(s'.workers[w], 0, [Chain(c.maxDepth)])
  {
    hide Exec;
    run := [Receive(w)];
    ExecOne(c, s, Receive(w));
  }

  /** The first worker hands each other worker a chain. */
  lemma {:induction false} StaffsUp(c: Config, s: State, m: nat) returns (run: seq<Action>)
    requires 0 < m <= |s.workers| && !s.closed && s.queue == [] && c.capacity > 0
    requires Lists(s.workers[0], 0, Chains(c, |s.workers| - m) + (Leaves(c.capacity) + [Chain(c.maxDepth)]))
    requires forall w :: 0 < w < m ==> Lists(s.workers[w], 0, [Chain(c.maxDepth)])
    requires forall w :: m <= w < |s.workers| ==> Idle(s.workers[w])
    ensures Deadlocked(c, Exec(c, s, run))
    decreases |s.workers| - m
  {
    hide Lists, Exec, OnlyMoved, Deadlocked, Chain, Leaves, Idle, Tower;
    var last := Leaves(c.capacity) + [Chain(c.maxDepth)];
    if m == |s.workers| {
      assert Chains(c, 0) + last == last;
      run := FillsChannel(c, s, c.capacity);
    } else {
      var n := |s.workers| - m;
      var rest := Chains(c, n - 1) + last;
      assert Chains(c, n) + last == [Tower(c, n)] + rest;
      var move := Moves(c, s, 0, 0, Tower(c, n), rest);
      var s1 := Exec(c, s, move);
      MovedFacts(s, s1, 0);
      assert s1.queue == [Tower(c, n)];
      var take := Takes(c, s1, m, n);
      var s2 := Exec(c, s1, take);
      MovedFacts(s1, s2, m);
      var end := StaffsUp(c, s2, m + 1);
      run := move + (take + end);
      ExecAppend(c, s1, take, end);
      ExecAppend(c, s, move, take + end);
    }
  }

  /** For every number of workers, capacity and depth limit, a tree one level too high and a run that deadlocks on it. */
  lemma DeadlockReachable(c: Config, n: nat) returns (root: Dir, run: seq<Action>)
    requires n > 0 && c.capacity > 0
    ensures WellNamed(root) && Height(root) == SafeHeight(c, n) + 1 && Deadlocked(c, Exec(c, Init(root, n), run))
  {
    hide Deadlocked;
    root := Trap(c, n);
    TrapHeight(c, n);
    TrapWellNamed(c, n);
    ExecOne(c, Init(root, n), Receive(0));
    var s := Step(c, Init(root, n), Receive(0));
    hide Exec;
    var rest := StaffsUp(c, s, 1);
    run := [Receive(0)] + rest;
    ExecAppend(c, Init(root, n), [Receive(0)], rest);
  }

  // -------- The exact bound --------

  ghost predicate Deadlocks(c: Config, root: Dir, n: nat) {
    exists run :: Deadlocked(c, Exec(c, Init(root, n), run))
  }

  /** No tree up to a height deadlocks in any run exactly if the height is safe. */
  lemma SafeHeightIsExact(c: Config, n: nat, h: nat)
    requires n > 0 && c.capacity > 0
    ensures (forall root :: WellNamed(root) && Height(root) <= h ==> !Deadlocks(c, root, n)) <==> h <= SafeHeight(c, n)
  {
    if h <= SafeHeight(c, n) {
      forall root, run | Height(root) <= h ensures !Deadlocked(c, Exec(c, Init(root, n), run)) {
        LowTreesAreSafe(c, root, n, run);
      }
    } else {
      var root, run := DeadlockReachable(c, n);
      assert Deadlocks(c, root, n);
    }
  }

  /** A walk of a tree of safe height that can go no further is over, and without errors it listed every directory exactly once. */
  lemma SafeWalksFinish(c: Config, root: Dir, n: nat, run: seq<Action>)
    requires n > 0 && c.capacity > 0 && Height(root) <= SafeHeight(c, n)
    requires forall a :: !Enabled(c, Exec(c, Init(root, n), run), a)
    ensures var s := Exec(c, Init(root, n), run); Over(s) && (s.errors == 0 ==> multiset(s.listed) == Paths(root))
  {
    hide Exec, Deadlocked, Enabled;
    StuckExactly(c, root, n, run);
    LowTreesAreSafe(c, root, n, run);
    ClosedMeansDone(c, root, n, run);
  }
}
