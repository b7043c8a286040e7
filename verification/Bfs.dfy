/**
 The hierarchical walk of manifest generation: workers take directories from a
 bounded channel, send subdirectories back to it, list them inline when it is
 full, and block on it when they are nested too deep. A wait group counts
 outstanding directories; when it reaches zero the channel is closed.

 An action is one step of one goroutine; a run is any sequence of actions.
 */
module Bfs {
  import opened Collections

  /** A directory and its subdirectories, in the order the pages give them. */
  datatype Dir = Dir(path: string, subdirs: seq<Dir>)

  /** A listing in progress: the subdirectories still to announce, and one announced but not yet handed on. */
  datatype Frame = Frame(todo: seq<Dir>, sending: Option<Dir>)

  /** A worker's stack of listings: the one it took from the channel, and those it lists inline. */
  datatype Worker = Worker(stack: seq<Frame>, exited: bool)

  datatype Config = Config(capacity: nat, maxDepth: nat)

  /** `listed` and `dropped` log what was listed, and what was left out when a listing failed. */
  datatype State = State(queue: seq<Dir>, closed: bool, workers: seq<Worker>, wg: int, panicked: bool, errors: nat, listed: seq<string>, dropped: seq<Dir>)

  datatype Action = Receive(w: nat) | Announce(w: nat) | Offer(w: nat) | Finish(w: nat) | Fail(w: nat) | Exit(w: nat) | Close

  function Init(root: Dir, n: nat): State {
    State([root], false, seq(n, i => Worker([], false)), 1, false, 0, [], [])
  }

  function Top(k: Worker): Frame
    requires k.stack != []
  {
    k.stack[|k.stack| - 1]
  }

  function SetTop(k: Worker, f: Frame): Worker
    requires k.stack != []
  {
    k.(stack := k.stack[..|k.stack| - 1] + [f])
  }

  predicate Full(c: Config, s: State) {
    |s.queue| >= c.capacity
  }

  predicate Enabled(c: Config, s: State, a: Action) {
    match a
    case Receive(w) => w < |s.workers| && s.workers[w].stack == [] && !s.workers[w].exited && s.queue != []
    case Announce(w) => w < |s.workers| && s.workers[w].stack != [] && Top(s.workers[w]).sending.None? && Top(s.workers[w]).todo != []
    case Offer(w) =>
      && w < |s.workers| && s.workers[w].stack != [] && Top(s.workers[w]).sending.Some?
      && (s.closed || !Full(c, s) || |s.workers[w].stack| - 1 < c.maxDepth)
    case Finish(w) => w < |s.workers| && s.workers[w].stack != [] && Top(s.workers[w]).sending.None? && Top(s.workers[w]).todo == []
    case Fail(w) => w < |s.workers| && s.workers[w].stack != [] && Top(s.workers[w]).sending.None? && Top(s.workers[w]).todo != []
    case Exit(w) => w < |s.workers| && s.workers[w].stack == [] && !s.workers[w].exited && s.queue == [] && s.closed
    case Close => s.wg == 0 && !s.closed
  }

  function Begin(d: Dir): Frame {
    Frame(d.subdirs, None)
  }

  /** What an enabled action does. A send on a closed channel panics, as does a wait group below zero. */
  function Step(c: Config, s: State, a: Action): State
    requires Enabled(c, s, a)
  {
    match a
    case Receive(w) =>
      s.(queue := s.queue[1..], listed := s.listed + [s.queue[0].path],
         workers := s.workers[w := Worker([Begin(s.queue[0])], false)])
    case Announce(w) =>
      var top := Top(s.workers[w]);
      s.(wg := s.wg + 1, workers := s.workers[w := SetTop(s.workers[w], Frame(top.todo[1..], Some(top.todo[0])))])
    case Offer(w) =>
      var k, top := s.workers[w], Top(s.workers[w]);
      var handed := SetTop(k, top.(sending := None));
      if s.closed then s.(panicked := true)
      else if !Full(c, s) then s.(queue := s.queue + [top.sending.value], workers := s.workers[w := handed])
      else
        s.(listed := s.listed + [top.sending.value.path],
           workers := s.workers[w := handed.(stack := handed.stack + [Begin(top.sending.value)])])
    case Finish(w) =>
      var k := s.workers[w];
      s.(wg := s.wg - 1, panicked := s.panicked || s.wg == 0, workers := s.workers[w := k.(stack := k.stack[..|k.stack| - 1])])
    case Fail(w) =>
      s.(errors := s.errors + 1, dropped := s.dropped + Top(s.workers[w]).todo, workers := s.workers[w := SetTop(s.workers[w], Frame([], None))])
    case Exit(w) => s.(workers := s.workers[w := s.workers[w].(exited := true)])
    case Close => s.(closed := true)
  }

  /** A run: an action that is not enabled does nothing. */
  function Exec(c: Config, s: State, run: seq<Action>): State
    decreases |run|
  {
    if run == [] then s
    else Exec(c, if Enabled(c, s, run[0]) then Step(c, s, run[0]) else s, run[1..])
  }

  // -------- Counting --------

  /** Listings of a worker, and directories it has announced but not handed on. */
  function Outstanding(stack: seq<Frame>): nat {
    if stack == [] then 0
    else Outstanding(stack[..|stack| - 1]) + 1 + if stack[|stack| - 1].sending.Some? then 1 else 0
  }

  function AllOutstanding(ks: seq<Worker>): nat {
    if ks == [] then 0 else Outstanding(ks[0].stack) + AllOutstanding(ks[1..])
  }

  function Paths(d: Dir): multiset<string>
    decreases d, 0
  {
    multiset{d.path} + AllPaths(d.subdirs)
  }

  function AllPaths(ds: seq<Dir>): multiset<string>
    decreases ds, 1
  {
    if ds == [] then multiset{} else Paths(ds[0]) + AllPaths(ds[1..])
  }

  /** Everything a stack of listings has still to list. */
  function Rest(stack: seq<Frame>): multiset<string> {
    if stack == [] then multiset{}
    else
      var f := stack[|stack| - 1];
      Rest(stack[..|stack| - 1]) + AllPaths(f.todo) + if f.sending.Some? then Paths(f.sending.value) else multiset{}
  }

  function AllRest(ks: seq<Worker>): multiset<string> {
    if ks == [] then multiset{} else Rest(ks[0].stack) + AllRest(ks[1..])
  }

  lemma {:induction false} UpdateCount(ks: seq<Worker>, w: nat, k: Worker)
    requires w < |ks|
    ensures AllOutstanding(ks[w := k]) + Outstanding(ks[w].stack) == AllOutstanding(ks) + Outstanding(k.stack)
  {
    if w > 0 {
      UpdateCount(ks[1..], w - 1, k);
      assert ks[w := k][1..] == ks[1..][w - 1 := k];
    } else {
      assert ks[w := k][1..] == ks[1..];
    }
  }

  lemma {:induction false} UpdateRest(ks: seq<Worker>, w: nat, k: Worker)
    requires w < |ks|
    ensures AllRest(ks[w := k]) + Rest(ks[w].stack) == AllRest(ks) + Rest(k.stack)
  {
    hide Rest;
    if w > 0 {
      UpdateRest(ks[1..], w - 1, k);
      assert ks[w := k][1..] == ks[1..][w - 1 := k] && ks[1..][w - 1] == ks[w];
      Cancel(Rest(ks[0].stack), AllRest(ks[1..][w - 1 := k]), Rest(ks[w].stack), AllRest(ks[1..]), Rest(k.stack));
    } else {
      assert ks[w := k][1..] == ks[1..];
    }
  }

  lemma Cancel(a: multiset<string>, x': multiset<string>, r: multiset<string>, x: multiset<string>, r': multiset<string>)
    requires x' + r == x + r'
    ensures (a + x') + r == (a + x) + r'
  {
    assert (a + x') + r == a + (x' + r) && (a + x) + r' == a + (x + r');
  }

  lemma PushCount(stack: seq<Frame>, f: Frame)
    ensures Outstanding(stack + [f]) == Outstanding(stack) + 1 + if f.sending.Some? then 1 else 0
    ensures Rest(stack + [f]) == Rest(stack) + AllPaths(f.todo) + if f.sending.Some? then Paths(f.sending.value) else multiset{}
  {
    assert (stack + [f])[..|stack + [f]| - 1] == stack;
  }

  lemma {:induction false} AppendPaths(ds: seq<Dir>, d: Dir)
    ensures AllPaths(ds + [d]) == AllPaths(ds) + Paths(d)
  {
    if ds == [] {
      assert AllPaths([d]) == Paths(d) + AllPaths([d][1..]);
    } else {
      assert (ds + [d])[1..] == ds[1..] + [d] && (ds + [d])[0] == ds[0];
      AppendPaths(ds[1..], d);
    }
  }

  lemma NoPaths()
    ensures AllPaths([]) == multiset{}
  {
  }

  lemma {:induction false} AppendAll(ds: seq<Dir>, es: seq<Dir>)
    ensures AllPaths(ds + es) == AllPaths(ds) + AllPaths(es)
    decreases |ds|
  {
    if ds == [] {
      assert ds + es == es;
    } else {
      assert (ds + es)[1..] == ds[1..] + es && (ds + es)[0] == ds[0];
      AppendAll(ds[1..], es);
    }
  }

  // -------- The invariant --------

  ghost predicate Conserved(s: State, root: Dir) {
    && multiset(s.listed) + AllPaths(s.queue) + AllPaths(s.dropped) + AllRest(s.workers) == Paths(root)
    && (s.errors == 0 ==> s.dropped == [])
  }

  /** The wait group is what is queued, announced and being listed, and it is zero once the channel is closed. */
  ghost predicate Counted(s: State) {
    s.wg == |s.queue| + AllOutstanding(s.workers) && (s.closed ==> s.wg == 0)
  }

  ghost predicate ExitsAfterClose(s: State) {
    forall w :: 0 <= w < |s.workers| && s.workers[w].exited ==> s.closed && s.workers[w].stack == []
  }

  ghost predicate Inv(s: State, root: Dir) {
    !s.panicked && Counted(s) && ExitsAfterClose(s) && Conserved(s, root)
  }

  lemma {:induction false} Part(ks: seq<Worker>, w: nat)
    requires w < |ks|
    ensures Outstanding(ks[w].stack) <= AllOutstanding(ks)
  {
    if w > 0 {
      Part(ks[1..], w - 1);
    }
  }

  /** While anything is queued or listed, the channel is open. */
  lemma BusyIsOpen(s: State, w: nat)
    requires Counted(s) && w < |s.workers| && s.workers[w].stack != []
    ensures s.wg > 0 && !s.closed
  {
    Part(s.workers, w);
  }

  /** What one worker has to do before and after a step, with the channel and the log: nothing comes or goes. */
  ghost predicate Balanced(s: State, s': State, k: Worker, k': Worker) {
    && s'.wg - s.wg == (|s'.queue| - |s.queue|) + (Outstanding(k'.stack) - Outstanding(k.stack))
    && multiset(s'.listed) + AllPaths(s'.queue) + AllPaths(s'.dropped) + Rest(k'.stack)
         == multiset(s.listed) + AllPaths(s.queue) + AllPaths(s.dropped) + Rest(k.stack)
    && (s'.errors == 0 ==> s'.dropped == s.dropped)
  }

  lemma WorkerStep(s: State, s': State, w: nat, k': Worker, root: Dir)
    requires Inv(s, root) && w < |s.workers| && s'.workers == s.workers[w := k'] && Balanced(s, s', s.workers[w], k')
    requires s'.closed == s.closed == false && !s'.panicked && !k'.exited && s'.errors >= s.errors
    ensures Inv(s', root)
  {
    hide AllRest, Rest, AllPaths, Paths, AllOutstanding, Outstanding;
    UpdateCount(s.workers, w, k');
    UpdateRest(s.workers, w, k');
    var base := multiset(s.listed) + AllPaths(s.queue) + AllPaths(s.dropped);
    var base' := multiset(s'.listed) + AllPaths(s'.queue) + AllPaths(s'.dropped);
    Balance(base, base', Rest(s.workers[w].stack), Rest(k'.stack), AllRest(s.workers), AllRest(s'.workers));
  }

  lemma Balance(base: multiset<string>, base': multiset<string>, r: multiset<string>, r': multiset<string>, all: multiset<string>, all': multiset<string>)
    requires base' + r' == base + r && all' + r == all + r'
    ensures base' + all' == base + all
  {
    forall x ensures (base' + all')[x] == (base + all)[x] {
      assert (base' + r')[x] == (base + r)[x] && (all' + r)[x] == (all + r')[x];
    }
  }

  lemma NoFrames()
    ensures Outstanding([]) == 0 && Rest([]) == multiset{}
  {
  }

  lemma ReceiveInv(c: Config, s: State, w: nat, root: Dir)
    requires Inv(s, root) && Enabled(c, s, Receive(w))
    ensures Inv(Step(c, s, Receive(w)), root)
  {
    hide Outstanding, Rest, AllOutstanding, AllRest;
    var s', d := Step(c, s, Receive(w)), s.queue[0];
    NoFrames();
    PushCount([], Begin(d));
    assert [] + [Begin(d)] == [Begin(d)];
    assert AllPaths(s.queue) == Paths(d) + AllPaths(s.queue[1..]);
    assert Paths(d) == multiset{d.path} + AllPaths(d.subdirs);
    assert multiset(s'.listed) == multiset(s.listed) + multiset{d.path};
    WorkerStep(s, s', w, Worker([Begin(d)], false), root);
  }

  lemma TopCount(k: Worker, f: Frame)
    requires k.stack != []
    ensures var init := k.stack[..|k.stack| - 1];
      && Outstanding(k.stack) == Outstanding(init) + 1 + (if Top(k).sending.Some? then 1 else 0)
      && Outstanding(SetTop(k, f).stack) == Outstanding(init) + 1 + (if f.sending.Some? then 1 else 0)
      && Rest(k.stack) == Rest(init) + AllPaths(Top(k).todo) + (if Top(k).sending.Some? then Paths(Top(k).sending.value) else multiset{})
      && Rest(SetTop(k, f).stack) == Rest(init) + AllPaths(f.todo) + (if f.sending.Some? then Paths(f.sending.value) else multiset{})
  {
    PushCount(k.stack[..|k.stack| - 1], f);
  }

  lemma AnnounceInv(c: Config, s: State, w: nat, root: Dir)
    requires Inv(s, root) && Enabled(c, s, Announce(w))
    ensures Inv(Step(c, s, Announce(w)), root)
  {
    hide Outstanding, Rest;
    var s', k, top := Step(c, s, Announce(w)), s.workers[w], Top(s.workers[w]);
    var f := Frame(top.todo[1..], Some(top.todo[0]));
    BusyIsOpen(s, w);
    TopCount(k, f);
    assert AllPaths(top.todo) == Paths(top.todo[0]) + AllPaths(top.todo[1..]);
    WorkerStep(s, s', w, SetTop(k, f), root);
  }

  lemma OfferInv(c: Config, s: State, w: nat, root: Dir)
    requires Inv(s, root) && Enabled(c, s, Offer(w))
    ensures Inv(Step(c, s, Offer(w)), root)
  {
    hide Outstanding, Rest, AllPaths, AllOutstanding, AllRest;
    var s', k, top := Step(c, s, Offer(w)), s.workers[w], Top(s.workers[w]);
    var d, f := top.sending.value, top.(sending := None);
    BusyIsOpen(s, w);
    TopCount(k, f);
    if !Full(c, s) {
      AppendPaths(s.queue, d);
      WorkerStep(s, s', w, SetTop(k, f), root);
    } else {
      PushCount(SetTop(k, f).stack, Begin(d));
      assert multiset(s'.listed) == multiset(s.listed) + multiset{d.path};
      WorkerStep(s, s', w, SetTop(k, f).(stack := SetTop(k, f).stack + [Begin(d)]), root);
    }
  }

  lemma FinishInv(c: Config, s: State, w: nat, root: Dir)
    requires Inv(s, root) && Enabled(c, s, Finish(w))
    ensures Inv(Step(c, s, Finish(w)), root)
  {
    hide Outstanding, Rest;
    var s', k := Step(c, s, Finish(w)), s.workers[w];
    BusyIsOpen(s, w);
    TopCount(k, Top(k));
    assert AllPaths(Top(k).todo) == multiset{};
    WorkerStep(s, s', w, k.(stack := k.stack[..|k.stack| - 1]), root);
  }

  lemma FailInv(c: Config, s: State, w: nat, root: Dir)
    requires Inv(s, root) && Enabled(c, s, Fail(w))
    ensures Inv(Step(c, s, Fail(w)), root)
  {
    hide Outstanding, Rest, AllPaths, AllOutstanding, AllRest;
    var s', k := Step(c, s, Fail(w)), s.workers[w];
    BusyIsOpen(s, w);
    TopCount(k, Frame([], None));
    AppendAll(s.dropped, Top(k).todo);
    NoPaths();
    WorkerStep(s, s', w, SetTop(k, Frame([], None)), root);
  }

  lemma ExitInv(c: Config, s: State, w: nat, root: Dir)
    requires Inv(s, root) && Enabled(c, s, Exit(w))
    ensures Inv(Step(c, s, Exit(w)), root)
  {
    hide Outstanding, Rest, AllOutstanding, AllRest, AllPaths, Paths;
    UpdateCount(s.workers, w, s.workers[w].(exited := true));
    UpdateRest(s.workers, w, s.workers[w].(exited := true));
    var s' := Step(c, s, Exit(w));
    Balance(multiset{}, multiset{}, Rest(s.workers[w].stack), Rest(s.workers[w].stack), AllRest(s.workers), AllRest(s'.workers));
    assert multiset{} + AllRest(s.workers) == AllRest(s.workers) && multiset{} + AllRest(s'.workers) == AllRest(s'.workers);
  }

  lemma StepInv(c: Config, s: State, a: Action, root: Dir)
    requires Inv(s, root) && Enabled(c, s, a)
    ensures Inv(Step(c, s, a), root)
  {
    match a {
      case Receive(w) => ReceiveInv(c, s, w, root);
      case Announce(w) => AnnounceInv(c, s, w, root);
      case Offer(w) => OfferInv(c, s, w, root);
      case Finish(w) => FinishInv(c, s, w, root);
      case Fail(w) => FailInv(c, s, w, root);
      case Exit(w) => ExitInv(c, s, w, root);
      case Close =>
    }
  }

  lemma {:induction false} RunInv(c: Config, s: State, run: seq<Action>, root: Dir)
    requires Inv(s, root)
    ensures Inv(Exec(c, s, run), root)
    decreases |run|
  {
    hide Inv, Step;
    if run != [] {
      if Enabled(c, s, run[0]) {
        StepInv(c, s, run[0], root);
        RunInv(c, Step(c, s, run[0]), run[1..], root);
      } else {
        RunInv(c, s, run[1..], root);
      }
    }
  }

  lemma {:induction false} IdleWorkers(n: nat)
    ensures AllOutstanding(seq(n, i => Worker([], false))) == 0 && AllRest(seq(n, i => Worker([], false))) == multiset{}
  {
    if n > 0 {
      IdleWorkers(n - 1);
      assert seq(n, i => Worker([], false))[1..] == seq(n - 1, i => Worker([], false));
    }
  }

  lemma InitInv(root: Dir, n: nat)
    ensures Inv(Init(root, n), root)
  {
    IdleWorkers(n);
    AppendPaths([], root);
    assert [] + [root] == [root];
  }

  // -------- Theorems --------

  /** In every reachable state: no panic, and the wait group counts the queue, the pending sends and the listings. */
  lemma OutstandingIsExact(c: Config, root: Dir, n: nat, run: seq<Action>)
    ensures var s := Exec(c, Init(root, n), run);
      !s.panicked && s.wg == |s.queue| + AllOutstanding(s.workers)
  {
    InitInv(root, n);
    RunInv(c, Init(root, n), run, root);
  }

  /**
   Once the channel is closed it is empty and nobody is listing; every directory was listed exactly once,
   or lies below one that was dropped, and without errors none was.
   */
  lemma ClosedMeansDone(c: Config, root: Dir, n: nat, run: seq<Action>)
    ensures var s := Exec(c, Init(root, n), run);
      s.closed ==> s.queue == [] && (forall w :: 0 <= w < |s.workers| ==> s.workers[w].stack == [])
                   && multiset(s.listed) + AllPaths(s.dropped) == Paths(root) && (s.errors == 0 ==> multiset(s.listed) == Paths(root))
  {
    InitInv(root, n);
    RunInv(c, Init(root, n), run, root);
    var s := Exec(c, Init(root, n), run);
    if s.closed {
      forall w | 0 <= w < |s.workers| ensures s.workers[w].stack == [] {
        Part(s.workers, w);
      }
      NothingLeft(s.workers);
    }
  }

  lemma {:induction false} NothingLeft(ks: seq<Worker>)
    requires forall w :: 0 <= w < |ks| ==> ks[w].stack == []
    ensures AllRest(ks) == multiset{}
  {
    if ks != [] {
      NothingLeft(ks[1..]);
    }
  }

  /** In every reachable state nothing is lost: what is listed, queued, still to do and dropped is the tree, each directory once. */
  lemma NothingIsLost(c: Config, root: Dir, n: nat, run: seq<Action>)
    ensures var s := Exec(c, Init(root, n), run);
      && multiset(s.listed) + AllPaths(s.queue) + AllPaths(s.dropped) + AllRest(s.workers) == Paths(root)
      && (s.errors == 0 ==> s.dropped == [])
  {
    InitInv(root, n);
    RunInv(c, Init(root, n), run, root);
  }

  // -------- What is dropped --------

  ghost predicate InTree(d: Dir, root: Dir)
    decreases root
  {
    d == root || exists i :: 0 <= i < |root.subdirs| && InTree(d, root.subdirs[i])
  }

  lemma {:induction false} ChildInTree(d: Dir, parent: Dir, root: Dir)
    requires InTree(parent, root) && d in parent.subdirs
    ensures InTree(d, root)
    decreases root
  {
    if parent == root {
      var i :| 0 <= i < |root.subdirs| && root.subdirs[i] == d;
      assert InTree(d, root.subdirs[i]);
    } else {
      var i :| 0 <= i < |root.subdirs| && InTree(parent, root.subdirs[i]);
      ChildInTree(d, parent, root.subdirs[i]);
    }
  }

  /** `d` is a subdirectory of a directory of the tree whose listing was begun. */
  ghost predicate Child(d: Dir, root: Dir, listed: seq<string>) {
    exists parent :: InTree(parent, root) && parent.path in listed && d in parent.subdirs
  }

  ghost predicate Children(ds: seq<Dir>, root: Dir, listed: seq<string>) {
    forall d :: d in ds ==> Child(d, root, listed)
  }

  ghost predicate FrameKin(f: Frame, root: Dir, listed: seq<string>) {
    Children(f.todo, root, listed) && (f.sending.Some? ==> Child(f.sending.value, root, listed))
  }

  ghost predicate StackKin(stack: seq<Frame>, root: Dir, listed: seq<string>) {
    forall k :: 0 <= k < |stack| ==> FrameKin(stack[k], root, listed)
  }

  ghost predicate Kin(s: State, root: Dir) {
    && (forall d :: d in s.queue ==> d == root || Child(d, root, s.listed))
    && (forall w :: 0 <= w < |s.workers| ==> StackKin(s.workers[w].stack, root, s.listed))
    && Children(s.dropped, root, s.listed)
  }

  lemma ChildStays(d: Dir, root: Dir, listed: seq<string>, path: string)
    requires Child(d, root, listed)
    ensures Child(d, root, listed + [path])
  {
    var parent :| InTree(parent, root) && parent.path in listed && d in parent.subdirs;
    assert parent.path in listed + [path];
  }

  lemma StackStays(stack: seq<Frame>, root: Dir, listed: seq<string>, path: string)
    requires StackKin(stack, root, listed)
    ensures StackKin(stack, root, listed + [path])
  {
    hide Child;
    forall k | 0 <= k < |stack| ensures FrameKin(stack[k], root, listed + [path]) {
      assert FrameKin(stack[k], root, listed);
      forall d | Child(d, root, listed) ensures Child(d, root, listed + [path]) {
        ChildStays(d, root, listed, path);
      }
    }
  }

  lemma KinStays(s: State, root: Dir, path: string)
    requires Kin(s, root)
    ensures Kin(s.(listed := s.listed + [path]), root)
  {
    hide Child, StackKin;
    forall d | Child(d, root, s.listed) ensures Child(d, root, s.listed + [path]) {
      ChildStays(d, root, s.listed, path);
    }
    forall w | 0 <= w < |s.workers| ensures StackKin(s.workers[w].stack, root, s.listed + [path]) {
      StackStays(s.workers[w].stack, root, s.listed, path);
    }
  }

  lemma BeginKin(d: Dir, root: Dir, listed: seq<string>)
    requires (d == root || Child(d, root, listed)) && d.path in listed
    ensures FrameKin(Begin(d), root, listed)
  {
    assert InTree(d, root) by {
      if d != root {
        var parent :| InTree(parent, root) && parent.path in listed && d in parent.subdirs;
        ChildInTree(d, parent, root);
      }
    }
    forall e | e in d.subdirs ensures Child(e, root, listed) {
    }
  }

  /** A worker's stack, the queue and the log change together. */
  lemma WorkerKin(s: State, s': State, w: nat, root: Dir)
    requires Kin(s, root) && w < |s.workers| == |s'.workers| && s'.workers == s.workers[w := s'.workers[w]] && s'.listed == s.listed
    requires StackKin(s'.workers[w].stack, root, s.listed)
    requires forall d :: d in s'.queue ==> d in s.queue || Child(d, root, s.listed)
    requires forall d :: d in s'.dropped ==> d in s.dropped || Child(d, root, s.listed)
    ensures Kin(s', root)
  {
    hide Child, StackKin;
  }

  lemma TopKin(k: Worker, f: Frame, root: Dir, listed: seq<string>)
    requires StackKin(k.stack, root, listed) && k.stack != []
    ensures FrameKin(Top(k), root, listed) && StackKin(k.stack[..|k.stack| - 1], root, listed)
    ensures FrameKin(f, root, listed) ==> StackKin(SetTop(k, f).stack, root, listed)
  {
    hide FrameKin;
  }

  lemma PushKin(stack: seq<Frame>, f: Frame, root: Dir, listed: seq<string>)
    requires StackKin(stack, root, listed) && FrameKin(f, root, listed)
    ensures StackKin(stack + [f], root, listed)
  {
    hide FrameKin;
  }

  lemma ReceiveKin(c: Config, s: State, w: nat, root: Dir)
    requires Kin(s, root) && Enabled(c, s, Receive(w))
    ensures Kin(Step(c, s, Receive(w)), root)
  {
    hide Child;
    var d := s.queue[0];
    KinStays(s, root, d.path);
    var s1 := s.(listed := s.listed + [d.path]);
    assert d in s.queue;
    BeginKin(d, root, s1.listed);
    WorkerKin(s1, Step(c, s, Receive(w)), w, root);
  }

  lemma OfferKin(c: Config, s: State, w: nat, root: Dir)
    requires Kin(s, root) && Enabled(c, s, Offer(w)) && !s.closed
    ensures Kin(Step(c, s, Offer(w)), root)
  {
    hide Child, StackKin, Children;
    var k, top := s.workers[w], Top(s.workers[w]);
    var d, handed := top.sending.value, SetTop(s.workers[w], top.(sending := None));
    TopKin(k, top.(sending := None), root, s.listed);
    if !Full(c, s) {
      WorkerKin(s, Step(c, s, Offer(w)), w, root);
    } else {
      KinStays(s, root, d.path);
      var s1 := s.(listed := s.listed + [d.path]);
      StackStays(handed.stack, root, s.listed, d.path);
      ChildStays(d, root, s.listed, d.path);
      BeginKin(d, root, s1.listed);
      PushKin(handed.stack, Begin(d), root, s1.listed);
      WorkerKin(s1, Step(c, s, Offer(w)), w, root);
    }
  }

  lemma StepKin(c: Config, s: State, a: Action, root: Dir)
    requires Kin(s, root) && Enabled(c, s, a)
    ensures Kin(Step(c, s, a), root)
  {
    hide Child, StackKin;
    match a {
      case Receive(w) => ReceiveKin(c, s, w, root);
      case Announce(w) =>
        var top := Top(s.workers[w]);
        TopKin(s.workers[w], Frame(top.todo[1..], Some(top.todo[0])), root, s.listed);
        WorkerKin(s, Step(c, s, a), w, root);
      case Offer(w) =>
        if !s.closed { OfferKin(c, s, w, root); }
      case Finish(w) =>
        TopKin(s.workers[w], Top(s.workers[w]), root, s.listed);
        WorkerKin(s, Step(c, s, a), w, root);
      case Fail(w) =>
        TopKin(s.workers[w], Frame([], None), root, s.listed);
        WorkerKin(s, Step(c, s, a), w, root);
      case Exit(w) => WorkerKin(s, Step(c, s, a), w, root);
      case Close =>
    }
  }

  lemma {:induction false} RunKin(c: Config, s: State, run: seq<Action>, root: Dir)
    requires Kin(s, root)
    ensures Kin(Exec(c, s, run), root)
    decreases |run|
  {
    hide Kin, Step;
    if run != [] {
      if Enabled(c, s, run[0]) {
        StepKin(c, s, run[0], root);
        RunKin(c, Step(c, s, run[0]), run[1..], root);
      } else {
        RunKin(c, s, run[1..], root);
      }
    }
  }

  /** Only a directory whose parent's listing was begun is ever dropped, and only once some listing failed. */
  lemma DroppedAreChildren(c: Config, root: Dir, n: nat, run: seq<Action>, d: Dir)
    ensures var s := Exec(c, Init(root, n), run); d in s.dropped ==> Child(d, root, s.listed) && s.errors > 0
  {
    RunKin(c, Init(root, n), run, root);
    NothingIsLost(c, root, n, run);
  }

  /** Nothing is sent after close: only workers leaving is left to happen. */
  lemma ClosedIsFinal(c: Config, root: Dir, n: nat, run: seq<Action>, a: Action)
    requires var s := Exec(c, Init(root, n), run); s.closed && Enabled(c, s, a)
    ensures a.Exit?
  {
    ClosedMeansDone(c, root, n, run);
  }

  // -------- Getting stuck --------

  /** In the middle of a send that has to wait for room. */
  predicate Blocked(c: Config, k: Worker) {
    k.stack != [] && Top(k).sending.Some? && |k.stack| - 1 >= c.maxDepth
  }

  predicate Over(s: State) {
    s.closed && forall w :: 0 <= w < |s.workers| ==> s.workers[w].exited
  }

  predicate Deadlocked(c: Config, s: State) {
    Full(c, s) && forall w :: 0 <= w < |s.workers| ==> Blocked(c, s.workers[w])
  }

  lemma {:induction false} Busy(ks: seq<Worker>) returns (v: nat)
    requires AllOutstanding(ks) > 0
    ensures v < |ks| && ks[v].stack != []
  {
    if ks[0].stack != [] {
      v := 0;
    } else {
      v := Busy(ks[1..]);
      v := v + 1;
    }
  }

  /** A worker that is listing and cannot move is blocked on a full channel. */
  lemma ListingStuck(c: Config, s: State, w: nat)
    requires w < |s.workers| && s.workers[w].stack != [] && forall a :: !Enabled(c, s, a)
    ensures Blocked(c, s.workers[w]) && Full(c, s)
  {
    assert !Enabled(c, s, Announce(w)) && !Enabled(c, s, Offer(w)) && !Enabled(c, s, Finish(w));
  }

  lemma StuckIsEither(c: Config, s: State, root: Dir)
    requires Inv(s, root) && c.capacity > 0 && |s.workers| > 0 && forall a :: !Enabled(c, s, a)
    ensures Over(s) || Deadlocked(c, s)
  {
    hide Enabled, Conserved;
    if s.closed {
      forall w | 0 <= w < |s.workers| ensures s.workers[w].exited {
        assert !Enabled(c, s, Exit(w));
        IdleStuck(c, s, w);
      }
    } else {
      assert !Enabled(c, s, Close);
      OpenHasWork(c, s);
      if s.queue == [] {
        var v := Busy(s.workers);
        ListingStuck(c, s, v);
      }
      forall w | 0 <= w < |s.workers| ensures Blocked(c, s.workers[w]) && Full(c, s) {
        assert !Enabled(c, s, Receive(w));
        IdleCanReceive(c, s, w);
        ListingStuck(c, s, w);
      }
      assert Blocked(c, s.workers[0]);
    }
  }

  lemma IdleStuck(c: Config, s: State, w: nat)
    requires Counted(s) && s.closed && w < |s.workers| && !Enabled(c, s, Exit(w))
    ensures s.workers[w].exited
  {
    Part(s.workers, w);
  }

  lemma OpenHasWork(c: Config, s: State)
    requires Counted(s) && !s.closed && !Enabled(c, s, Close)
    ensures s.queue == [] ==> AllOutstanding(s.workers) > 0
  {
  }

  lemma IdleCanReceive(c: Config, s: State, w: nat)
    requires ExitsAfterClose(s) && !s.closed && w < |s.workers| && !Enabled(c, s, Receive(w)) && s.queue != []
    ensures s.workers[w].stack != []
  {
  }

  lemma EitherIsStuck(c: Config, s: State, root: Dir, a: Action)
    requires Inv(s, root) && |s.workers| > 0 && (Over(s) || Deadlocked(c, s))
    ensures !Enabled(c, s, a)
  {
    hide Conserved;
    if Deadlocked(c, s) {
      BusyIsOpen(s, 0);
    } else if !a.Close? && a.w < |s.workers| {
      Part(s.workers, a.w);
    }
  }

  /**
   The walk stops short of its end exactly when the channel is full and every worker is blocked on
   it at the depth limit.
   */
  lemma StuckExactly(c: Config, root: Dir, n: nat, run: seq<Action>)
    requires n > 0 && c.capacity > 0
    ensures var s := Exec(c, Init(root, n), run);
      (forall a :: !Enabled(c, s, a)) <==> Over(s) || Deadlocked(c, s)
  {
    hide Inv, Enabled, Over, Deadlocked;
    InitInv(root, n);
    RunInv(c, Init(root, n), run, root);
    WorkersStay(c, Init(root, n), run);
    var s := Exec(c, Init(root, n), run);
    if forall a :: !Enabled(c, s, a) {
      StuckIsEither(c, s, root);
    }
    if Over(s) || Deadlocked(c, s) {
      forall a ensures !Enabled(c, s, a) {
        EitherIsStuck(c, s, root, a);
      }
    }
  }

  lemma {:induction false} WorkersStay(c: Config, s: State, run: seq<Action>)
    ensures |Exec(c, s, run).workers| == |s.workers|
    decreases |run|
  {
    if run != [] {
      WorkersStay(c, if Enabled(c, s, run[0]) then Step(c, s, run[0]) else s, run[1..]);
    }
  }

  // -------- Every step is progress --------

  function Size(d: Dir): nat
    decreases d, 0
  {
    1 + AllSizes(d.subdirs)
  }

  function AllSizes(ds: seq<Dir>): nat
    decreases ds, 1
  {
    if ds == [] then 0 else Size(ds[0]) + AllSizes(ds[1..])
  }

  /** Steps that a stack of listings can still take: four for each directory to announce, three for one announced, one to finish. */
  function StackSteps(stack: seq<Frame>): nat {
    if stack == [] then 0
    else
      var f := stack[|stack| - 1];
      StackSteps(stack[..|stack| - 1]) + 1 + 4 * AllSizes(f.todo) + if f.sending.Some? then 4 * Size(f.sending.value) - 1 else 0
  }

  function WorkerSteps(k: Worker): nat {
    StackSteps(k.stack) + if k.exited then 0 else 1
  }

  function AllSteps(ks: seq<Worker>): nat {
    if ks == [] then 0 else WorkerSteps(ks[0]) + AllSteps(ks[1..])
  }

  function QueueSteps(ds: seq<Dir>): nat {
    if ds == [] then 0 else 4 * Size(ds[0]) - 2 + QueueSteps(ds[1..])
  }

  function StepsLeft(s: State): nat {
    QueueSteps(s.queue) + AllSteps(s.workers) + if s.closed then 0 else 1
  }

  lemma {:induction false} UpdateSteps(ks: seq<Worker>, w: nat, k: Worker)
    requires w < |ks|
    ensures AllSteps(ks[w := k]) + WorkerSteps(ks[w]) == AllSteps(ks) + WorkerSteps(k)
  {
    if w > 0 {
      UpdateSteps(ks[1..], w - 1, k);
      assert ks[w := k][1..] == ks[1..][w - 1 := k];
    } else {
      assert ks[w := k][1..] == ks[1..];
    }
  }

  lemma PushSteps(stack: seq<Frame>, f: Frame)
    ensures StackSteps(stack + [f]) == StackSteps(stack) + 1 + 4 * AllSizes(f.todo) + if f.sending.Some? then 4 * Size(f.sending.value) - 1 else 0
  {
    assert (stack + [f])[..|stack + [f]| - 1] == stack;
  }

  lemma {:induction false} AppendSteps(ds: seq<Dir>, d: Dir)
    ensures QueueSteps(ds + [d]) == QueueSteps(ds) + 4 * Size(d) - 2
  {
    if ds == [] {
      assert (ds + [d])[1..] == [] && (ds + [d])[0] == d;
    } else {
      assert (ds + [d])[1..] == ds[1..] + [d] && (ds + [d])[0] == ds[0];
      AppendSteps(ds[1..], d);
    }
  }

  lemma HandOnSteps(c: Config, s: State, w: nat)
    requires Enabled(c, s, Offer(w)) && !s.closed
    ensures StepsLeft(Step(c, s, Offer(w))) < StepsLeft(s)
  {
    hide StackSteps, AllSteps, QueueSteps;
    var s', k, top := Step(c, s, Offer(w)), s.workers[w], Top(s.workers[w]);
    var d, init, f := top.sending.value, k.stack[..|k.stack| - 1], top.(sending := None);
    assert k.stack == init + [top];
    PushSteps(init, top);
    PushSteps(init, f);
    PushSteps(init + [f], Begin(d));
    AppendSteps(s.queue, d);
    UpdateSteps(s.workers, w, s'.workers[w]);
  }

  lemma TopSteps(c: Config, s: State, w: nat, a: Action)
    requires a in {Announce(w), Finish(w), Fail(w)} && Enabled(c, s, a)
    ensures StepsLeft(Step(c, s, a)) < StepsLeft(s)
  {
    hide StackSteps, AllSteps, QueueSteps;
    var s', k, top := Step(c, s, a), s.workers[w], Top(s.workers[w]);
    var init := k.stack[..|k.stack| - 1];
    assert k.stack == init + [top];
    PushSteps(init, top);
    if top.todo != [] {
      assert AllSizes(top.todo) == Size(top.todo[0]) + AllSizes(top.todo[1..]);
      PushSteps(init, Frame(top.todo[1..], Some(top.todo[0])));
    }
    PushSteps(init, Frame([], None));
    UpdateSteps(s.workers, w, s'.workers[w]);
  }

  lemma TakeSteps(c: Config, s: State, w: nat)
    requires Enabled(c, s, Receive(w))
    ensures StepsLeft(Step(c, s, Receive(w))) < StepsLeft(s)
  {
    hide AllSteps;
    var s', d := Step(c, s, Receive(w)), s.queue[0];
    PushSteps([], Begin(d));
    assert [] + [Begin(d)] == [Begin(d)];
    UpdateSteps(s.workers, w, s'.workers[w]);
  }

  lemma StepsDecrease(c: Config, s: State, a: Action, root: Dir)
    requires Inv(s, root) && Enabled(c, s, a)
    ensures StepsLeft(Step(c, s, a)) < StepsLeft(s)
  {
    hide Conserved;
    match a {
      case Receive(w) => TakeSteps(c, s, w);
      case Offer(w) =>
        BusyIsOpen(s, w);
        HandOnSteps(c, s, w);
      case Exit(w) => UpdateSteps(s.workers, w, s.workers[w].(exited := true));
      case Close =>
      case _ => TopSteps(c, s, a.w, a);
    }
  }

  ghost predicate AllEnabled(c: Config, s: State, run: seq<Action>)
    decreases |run|
  {
    run == [] || (Enabled(c, s, run[0]) && AllEnabled(c, Step(c, s, run[0]), run[1..]))
  }

  lemma {:induction false} RunIsShort(c: Config, s: State, run: seq<Action>, root: Dir)
    requires Inv(s, root) && AllEnabled(c, s, run)
    ensures |run| <= StepsLeft(s)
    decreases |run|
  {
    hide Inv, Step, Enabled;
    if run != [] {
      StepInv(c, s, run[0], root);
      StepsDecrease(c, s, run[0], root);
      RunIsShort(c, Step(c, s, run[0]), run[1..], root);
    }
  }

  lemma {:induction false} IdleSteps(n: nat)
    ensures AllSteps(seq(n, i => Worker([], false))) == n
  {
    if n > 0 {
      IdleSteps(n - 1);
      assert seq(n, i => Worker([], false))[1..] == seq(n - 1, i => Worker([], false));
    }
  }

  /** Every walk ends: no schedule takes more steps than four for each directory, and one for each worker. */
  lemma WalksEnd(c: Config, root: Dir, n: nat, run: seq<Action>)
    requires AllEnabled(c, Init(root, n), run)
    ensures |run| < 4 * Size(root) + n
  {
    InitInv(root, n);
    RunIsShort(c, Init(root, n), run, root);
    IdleSteps(n);
    AppendSteps([], root);
    assert [] + [root] == [root];
  }
}
