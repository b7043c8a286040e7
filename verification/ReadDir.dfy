/**
 The multi-call directory cursor: DoReadDir walks a window of two listing pages,
 then the subdirectories collected from all pages, then the virtual entries.

 The reference is `Fill` over `Total`, one flat list that knows nothing of pages
 or windows. The directory's children change only as the cursor itself changes
 them: a listed name that was virtual becomes physical when the cursor gets to it.
 */
module ReadDir {
  import opened Collections

  /** What the backend has: the directory's pages, in order. */
  datatype Page = Page(files: seq<string>, subdirs: seq<string>)

  /** One answer of listDirectory; the token of the page after is that page's position. */
  datatype Listing = Listing(files: seq<string>, subdirs: seq<string>, truncated: bool, token: nat)

  datatype DirEnt = DirEnt(off: nat, name: string)

  // The layout of struct fuse_dirent.
  const FIXED: nat := 24
  const ALIGNMENT: nat := 8

  /** The fixed part and the name, rounded up to the alignment. */
  function EntSize(name: string): (size: nat)
    ensures size % 8 == 0 && 24 + |name| <= size < 24 + |name| + 8
  {
    (FIXED + |name| + ALIGNMENT - 1) / ALIGNMENT * ALIGNMENT
  }

  // -------- The reference --------

  function Files(pages: seq<Page>): seq<string> {
    if pages == [] then [] else Files(pages[..|pages| - 1]) + pages[|pages| - 1].files
  }

  /** `subs` with those of `more` that are not in it yet. */
  function AddNew(subs: seq<string>, more: seq<string>): seq<string>
    decreases more
  {
    if more == [] then subs
    else AddNew(if more[0] in subs then subs else subs + [more[0]], more[1..])
  }

  function Subdirs(pages: seq<Page>): seq<string> {
    if pages == [] then [] else AddNew(Subdirs(pages[..|pages| - 1]), pages[|pages| - 1].subdirs)
  }

  function Listed(pages: seq<Page>): seq<string> {
    Files(pages) + Subdirs(pages)
  }

  function Names(s: seq<string>): set<string> {
    set n | n in s
  }

  function Without(names: seq<string>, gone: set<string>): seq<string> {
    if names == [] then []
    else (if names[0] in gone then [] else [names[0]]) + Without(names[1..], gone)
  }

  /** Every listed file, then every distinct subdirectory, then every virtual entry that was not listed. */
  function Total(pages: seq<Page>, virt: seq<string>): seq<string> {
    Listed(pages) + Without(virt, Names(Listed(pages)))
  }

  /** The entries from `pos` on that fit in `room`, without those pending delete. */
  function Fill(t: seq<string>, pending: set<string>, pos: nat, room: nat): seq<DirEnt>
    decreases |t| - pos
  {
    if pos >= |t| then []
    else if t[pos] in pending then Fill(t, pending, pos + 1, room)
    else if EntSize(t[pos]) > room then []
    else [DirEnt(pos + 1, t[pos])] + Fill(t, pending, pos + 1, room - EntSize(t[pos]))
  }

  /** Where the kernel resumes. */
  function Resume(offset: nat, ents: seq<DirEnt>): nat {
    if ents == [] then offset else ents[|ents| - 1].off
  }

  // -------- Facts about the lists --------

  lemma {:induction false} AddNewSet(subs: seq<string>, more: seq<string>)
    requires Distinct(subs)
    ensures Distinct(AddNew(subs, more))
    ensures forall n :: n in AddNew(subs, more) <==> n in subs || n in more
    decreases more
  {
    if more != [] {
      AddNewSet(if more[0] in subs then subs else subs + [more[0]], more[1..]);
    }
  }

  /** Each subdirectory of any page is in the list, once. */
  lemma {:induction false} SubdirsAreDistinct(pages: seq<Page>)
    ensures Distinct(Subdirs(pages))
    ensures forall n :: n in Subdirs(pages) <==> exists k :: 0 <= k < |pages| && n in pages[k].subdirs
  {
    if pages != [] {
      var init, last := pages[..|pages| - 1], pages[|pages| - 1];
      SubdirsAreDistinct(init);
      AddNewSet(Subdirs(init), last.subdirs);
      forall n ensures (exists k :: 0 <= k < |pages| && n in pages[k].subdirs) <==> (n in Subdirs(init) || n in last.subdirs) {
        if k :| 0 <= k < |pages| && n in pages[k].subdirs {
          assert k < |init| ==> init[k] == pages[k];
        }
        if n in Subdirs(init) {
          var k :| 0 <= k < |init| && n in init[k].subdirs;
          assert pages[k] == init[k];
        }
      }
    }
  }

  lemma {:induction false} FilesPrefix(pages: seq<Page>, k: nat)
    requires k <= |pages|
    ensures Files(pages[..k]) <= Files(pages)
    decreases |pages| - k
  {
    if k < |pages| {
      FilesPrefix(pages, k + 1);
      assert pages[..k + 1][..k] == pages[..k];
    } else {
      assert pages[..k] == pages;
    }
  }

  lemma {:induction false} WithoutTwice(names: seq<string>, gone: set<string>, n: string)
    ensures Without(Without(names, gone), {n}) == Without(names, gone + {n})
  {
    if names != [] {
      WithoutTwice(names[1..], gone, n);
      if names[0] !in gone {
        assert ([names[0]] + Without(names[1..], gone))[1..] == Without(names[1..], gone);
      } else {
        assert Without(names, gone) == Without(names[1..], gone);
      }
    }
  }

  lemma {:induction false} WithoutNothing(names: seq<string>)
    ensures Without(names, {}) == names
  {
    if names != [] {
      WithoutNothing(names[1..]);
    }
  }

  lemma {:induction false} WithoutKeeps(names: seq<string>, gone: set<string>)
    requires Distinct(names)
    ensures Distinct(Without(names, gone)) && forall n :: n in Without(names, gone) <==> n in names && n !in gone
  {
    if names != [] {
      WithoutKeeps(names[1..], gone);
    }
  }

  lemma {:induction false} CountInDistinct(s: seq<string>, n: string)
    requires Distinct(s)
    ensures multiset(s)[n] == if n in s then 1 else 0
  {
    if s != [] {
      CountInDistinct(s[1..], n);
      assert s == [s[0]] + s[1..];
    }
  }

  /**
   How often each name comes up: a name that is both a listed file and a subdirectory, as an object
   "a" next to a prefix "a/" is, twice; every other name of the directory, once.
   */
  lemma TotalCounts(pages: seq<Page>, virt: seq<string>, n: string)
    requires Distinct(Files(pages)) && Distinct(virt)
    ensures multiset(Total(pages, virt))[n] ==
      if n in Files(pages) && n in Subdirs(pages) then 2 else if n in Listed(pages) || n in virt then 1 else 0
  {
    SubdirsAreDistinct(pages);
    WithoutKeeps(virt, Names(Listed(pages)));
    CountInDistinct(Files(pages), n);
    CountInDistinct(Subdirs(pages), n);
    CountInDistinct(Without(virt, Names(Listed(pages))), n);
  }

  lemma {:induction false} RepeatedCount(s: seq<string>)
    requires forall n :: multiset(s)[n] <= 1
    ensures Distinct(s)
  {
    if s != [] {
      var rest := s[1..];
      assert s == [s[0]] + rest;
      assert multiset(s) == multiset{s[0]} + multiset(rest);
      forall n ensures multiset(rest)[n] <= 1 {
        assert multiset(s)[n] <= 1;
      }
      RepeatedCount(rest);
      assert multiset(s)[s[0]] <= 1;
      assert s[0] !in rest;
    }
  }

  /** No name comes up twice exactly if no file is listed as a subdirectory too. */
  lemma TotalIsDistinctIff(pages: seq<Page>, virt: seq<string>)
    requires Distinct(Files(pages)) && Distinct(virt)
    ensures Distinct(Total(pages, virt)) <==> Names(Files(pages)) !! Names(Subdirs(pages))
    ensures Names(Total(pages, virt)) == Names(Listed(pages)) + Names(virt)
  {
    hide Total, Files, Subdirs;
    var t := Total(pages, virt);
    forall n ensures multiset(t)[n] == if n in Files(pages) && n in Subdirs(pages) then 2 else if n in Listed(pages) || n in virt then 1 else 0 {
      TotalCounts(pages, virt, n);
    }
    assert forall n :: n in t <==> multiset(t)[n] > 0;
    if Names(Files(pages)) !! Names(Subdirs(pages)) {
      forall n ensures multiset(t)[n] <= 1 {
        assert n in Files(pages) && n in Subdirs(pages) ==> n in Names(Files(pages)) && n in Names(Subdirs(pages));
      }
      RepeatedCount(t);
    } else {
      var n :| n in Names(Files(pages)) && n in Names(Subdirs(pages));
      TotalCounts(pages, virt, n);
      if Distinct(t) {
        CountInDistinct(t, n);
      }
    }
  }

  predicate AllPending(t: seq<string>, pending: set<string>, from: nat, stop: nat) {
    (from < stop ==> stop <= |t|) && forall j :: from <= j < stop && j < |t| ==> t[j] in pending
  }

  /** Entries pending delete may be stepped over. */
  lemma {:induction false} SkipPending(t: seq<string>, pending: set<string>, pos: nat, stop: nat, room: nat)
    requires pos <= stop && AllPending(t, pending, pos, stop)
    ensures Fill(t, pending, pos, room) == Fill(t, pending, stop, room)
    decreases stop - pos
  {
    if pos < stop {
      SkipPending(t, pending, pos + 1, stop, room);
    }
  }

  /** In the middle of a call: `ents` so far, the cursor at `cur`, and only pending entries since the last of them. */
  ghost predicate Progress(t: seq<string>, pending: set<string>, offset: nat, size: nat, cur: nat, used: nat, ents: seq<DirEnt>) {
    && used <= size && ents + Fill(t, pending, cur, size - used) == Fill(t, pending, offset, size)
    && Resume(offset, ents) <= cur && AllPending(t, pending, Resume(offset, ents), cur)
  }

  lemma ProgressStart(t: seq<string>, pending: set<string>, offset: nat, size: nat, cur: nat)
    requires offset <= cur && AllPending(t, pending, offset, cur)
    ensures Progress(t, pending, offset, size, cur, 0, [])
  {
    SkipPending(t, pending, offset, cur, size);
  }

  lemma ProgressStep(t: seq<string>, pending: set<string>, offset: nat, size: nat, cur: nat, used: nat, ents: seq<DirEnt>, from: nat)
    requires Progress(t, pending, offset, size, cur, used, ents) && from <= cur
    ensures Resume(offset, ents) <= cur && AllPending(t, pending, Resume(offset, ents), from)
    ensures cur >= |t| || (t[cur] !in pending && used + EntSize(t[cur]) > size) ==> ents == Fill(t, pending, offset, size)
    ensures cur < |t| && t[cur] in pending ==> Progress(t, pending, offset, size, cur + 1, used, ents)
    ensures cur < |t| && t[cur] !in pending && used + EntSize(t[cur]) <= size ==>
      Progress(t, pending, offset, size, cur + 1, used + EntSize(t[cur]), ents + [DirEnt(cur + 1, t[cur])])
  {
    hide EntSize;
    if cur < |t| && t[cur] !in pending && used + EntSize(t[cur]) <= size {
      var e := DirEnt(cur + 1, t[cur]);
      var rest := Fill(t, pending, cur + 1, size - used - EntSize(t[cur]));
      assert Fill(t, pending, cur, size - used) == [e] + rest;
      assert (ents + [e]) + rest == ents + ([e] + rest);
    }
  }

  // -------- The directory handle --------

  class DirHandle {
    const pages: seq<Page>
    const pending: set<string>
    ghost const virtAtOpen: seq<string>

    var virt: seq<string>
    var done: bool
    var prev: Option<Listing>
    var prevLen: nat
    var prevStart: nat
    var next: Option<Listing>
    var nextLen: nat
    var nextStart: nat
    var subdirSet: set<string>
    var subdirList: seq<string>
    ghost var fetched: nat
    ghost var seen: nat

    ghost function All(): seq<string>
    {
      Total(pages, virtAtOpen)
    }

    /** Which pages the window holds. */
    ghost predicate Window()
      reads this
      requires fetched <= |pages|
    {
      if fetched == 0 then
        prev == None && next == None && prevStart == 0 && nextStart == 0 && nextLen == 0
      else if fetched == 1 then
        && prev == Some(Answer(0)) && prevStart == 0 && prevLen == |pages[0].files|
        && next == None && nextStart == prevLen && nextLen == 0
      else
        && prev == Some(Answer(fetched - 2)) && prevStart == |Files(pages[..fetched - 2])| && prevLen == |pages[fetched - 2].files|
        && next == Some(Answer(fetched - 1)) && nextStart == prevStart + prevLen && nextLen == |pages[fetched - 1].files|
    }

    ghost predicate Valid()
      reads this
    {
      && 0 < |pages| && fetched <= |pages| && (done <==> fetched == |pages|) && Window()
      && subdirList == Subdirs(pages[..fetched]) && subdirSet == Names(subdirList)
      && prevStart <= seen && virt == Without(virtAtOpen, Names(Visited(pages, seen)))
    }

    /** A client that has read up to `at` has missed nothing that it will not get. */
    ghost predicate Resumable(at: nat)
      reads this
    {
      at <= seen && AllPending(All(), pending, at, prevStart)
    }

    /** DoOpenDir, on a directory with these pages and these virtual entries. */
    constructor (pages: seq<Page>, pending: set<string>, virt: seq<string>)
      requires 0 < |pages|
      ensures Valid() && Resumable(0)
      ensures this.pages == pages && this.pending == pending && virtAtOpen == virt
    {
      this.pages, this.pending, this.virt, virtAtOpen := pages, pending, virt, virt;
      done, prev, next, prevLen, prevStart, nextLen, nextStart := false, None, None, 0, 0, 0, 0;
      subdirSet, subdirList, fetched, seen := {}, [], 0, 0;
      WithoutNothing(virt);
    }

    /** listDirectory. */
    function Answer(token: nat): Listing
      requires token < |pages|
    {
      Listing(pages[token].files, pages[token].subdirs, token + 1 < |pages|, token + 1)
    }

    /** A window of two pages drops the older. */
    method Shift()
      requires fetched <= |pages| && Window()
      modifies this`prev, this`prevLen, this`prevStart, this`next, this`nextLen
      ensures next == None && nextLen == 0 && prevStart <= old(nextStart + nextLen)
      ensures fetched == 0 ==> prev == None && prevStart == 0
      ensures fetched >= 1 ==>
        prev == Some(Answer(fetched - 1)) && prevStart == |Files(pages[..fetched - 1])| && prevLen == |pages[fetched - 1].files|
    {
      hide Files;
      WindowEnds(pages, fetched);
      if next != None {
        prev, prevLen, prevStart := next, nextLen, nextStart;
        next, nextLen := None, 0;
      }
    }

    /** Fetch the page after the window, and move the window on. */
    method FetchNext()
      requires Valid() && !done && nextStart + nextLen <= seen
      modifies this`prev, this`prevLen, this`prevStart, this`next, this`nextLen, this`nextStart
      modifies this`done, this`subdirSet, this`subdirList, this`fetched
      ensures Valid() && fetched == old(fetched) + 1 && prevStart <= old(nextStart + nextLen)
    {
      hide Files, Subdirs, AddNew, Without, Visited, Names;
      SubdirsMore(pages, fetched);
      Shift();
      var token := if prev == None then 0 else prev.value.token;
      assert token == fetched;
      var answer := Answer(token);
      done := !answer.truncated;
      Load(answer);
      Collect(answer.subdirs);
    }

    /** Put a page just fetched in the window. */
    method Load(answer: Listing)
      requires fetched < |pages| && answer == Answer(fetched) && next == None
      requires fetched == 0 ==> prev == None
      requires fetched >= 1 ==>
        prev == Some(Answer(fetched - 1)) && prevStart == |Files(pages[..fetched - 1])| && prevLen == |pages[fetched - 1].files|
      modifies this`prev, this`prevLen, this`prevStart, this`next, this`nextLen, this`nextStart, this`fetched
      ensures fetched == old(fetched) + 1 && Window() && prevStart == if old(fetched) == 0 then 0 else old(prevStart)
    {
      hide Files;
      WindowEnds(pages, fetched);
      if prev == None {
        prev, prevLen, prevStart := Some(answer), |answer.files|, 0;
        next, nextLen, nextStart := None, 0, prevLen;
      } else {
        next, nextLen, nextStart := Some(answer), |answer.files|, prevStart + prevLen;
      }
      fetched := fetched + 1;
    }

    /** Remember the subdirectories of a page. */
    method Collect(subdirs: seq<string>)
      requires subdirSet == Names(subdirList)
      modifies this`subdirSet, this`subdirList
      ensures subdirList == AddNew(old(subdirList), subdirs) && subdirSet == Names(subdirList)
    {
      var k := 0;
      while k < |subdirs|
        invariant 0 <= k <= |subdirs| && subdirSet == Names(subdirList)
        invariant AddNew(subdirList, subdirs[k..]) == AddNew(old(subdirList), subdirs)
      {
        assert subdirs[k..][1..] == subdirs[k + 1..];
        if subdirs[k] !in subdirSet {
          subdirSet := subdirSet + {subdirs[k]};
          subdirList := subdirList + [subdirs[k]];
        }
        k := k + 1;
      }
    }

    /** findChild...Inode and convertToPhysInodeIfNecessary on a listed name. */
    method MakePhysical(cur: nat, name: string)
      requires Valid() && cur <= seen && cur < |Listed(pages)| && name == Listed(pages)[cur]
      modifies this`virt, this`seen
      ensures Valid() && seen == if old(seen) > cur then old(seen) else cur + 1
    {
      WithoutTwice(virtAtOpen, Names(Visited(pages, seen)), name);
      VisitOne(pages, seen, cur);
      virt := Without(virt, {name});
      seen := if seen > cur then seen else cur + 1;
    }

    /** The switch of DoReadDir: the entry at the cursor. */
    method Visit(cur: nat) returns (ok: bool, name: string)
      requires Valid() && prevStart <= cur <= seen && (done || cur < nextStart + nextLen)
      modifies this`virt, this`seen
      ensures Valid() && ok == (cur < |All()|)
      ensures ok ==> name == All()[cur] && cur < seen
      ensures seen >= old(seen)
    {
      hide Files, Subdirs, AddNew, Without, Names, Listed, Visited, Total;
      WindowEnds(pages, fetched);
      var filesCap := nextStart + nextLen;
      var subdirsCap := filesCap + |subdirList|;
      if cur < nextStart {
        ok, name := true, prev.value.files[cur - prevStart];
        FileAt(pages, virtAtOpen, if fetched == 1 then 0 else fetched - 2, cur);
        MakePhysical(cur, name);
      } else if cur < filesCap {
        ok, name := true, next.value.files[cur - nextStart];
        FileAt(pages, virtAtOpen, fetched - 1, cur);
        MakePhysical(cur, name);
      } else if cur < subdirsCap {
        ok, name := true, subdirList[cur - filesCap];
        SubdirAt(pages, virtAtOpen, fetched, cur);
        MakePhysical(cur, name);
      } else {
        VirtAt(pages, virtAtOpen, fetched, cur, seen);
        if cur < subdirsCap + |virt| {
          ok, name := true, virt[cur - subdirsCap];
          seen := if seen > cur then seen else cur + 1;
        } else {
          ok, name := false, "";
        }
      }
    }

    /**
     DoReadDir, below a backend's root. Whatever the page boundaries, and wherever the window stands,
     the entries are those of the flat list that fit, from where the client stands; and the client may
     resume after the last of them.
     */
    method ReadDir(offset: nat, size: nat) returns (ents: seq<DirEnt>)
      requires Valid() && Resumable(offset)
      modifies this
      ensures Valid() && ents == Fill(All(), pending, offset, size) && Resumable(Resume(offset, ents))
    {
      hide Files, Subdirs, AddNew, Without, Names, Listed, Visited, Total, EntSize, Fill, AllPending, Progress, Resume;
      ents := [];
      var cur: nat, used: nat := offset, 0;
      if cur < prevStart {
        cur := prevStart;
      }
      ProgressStart(All(), pending, offset, size, cur);
      while true
        invariant Valid() && prevStart <= cur <= seen && Progress(All(), pending, offset, size, cur, used, ents)
        decreases |pages| - fetched, |All()| - cur
      {
        if !done && cur >= nextStart + nextLen {
          FetchNext();
          continue;
        }
        var ok, name := Visit(cur);
        ProgressStep(All(), pending, offset, size, cur, used, ents, prevStart);
        if !ok {
          return;
        }
        cur := cur + 1;
        if name !in pending {
          if used + EntSize(name) > size {
            return;
          }
          used := used + EntSize(name);
          ents := ents + [DirEnt(cur, name)];
        }
      }
    }

    /** Any number of calls, with any buffer sizes, each resuming where the one before left off. */
    method ReadAll(sizes: seq<nat>) returns (all: seq<DirEnt>)
      requires Valid() && Resumable(0)
      modifies this
      ensures Valid() && all == Chain(All(), pending, 0, sizes) && all <= Visible(All(), pending, 0)
      ensures |Visible(All(), pending, 0)| <= |sizes| && (forall k :: 0 <= k < |sizes| ==> Fits(All(), sizes[k])) ==>
        all == Visible(All(), pending, 0)
    {
      hide Files, Subdirs, AddNew, Without, Names, Listed, Visited, Total, Fill, Visible, Resume, Chain, Fits;
      all := [];
      var k, offset := 0, 0;
      assert sizes[0..] == sizes;
      while k < |sizes|
        invariant 0 <= k <= |sizes| && Valid() && Resumable(offset)
        invariant all + Chain(All(), pending, offset, sizes[k..]) == Chain(All(), pending, 0, sizes)
      {
        var ents := ReadDir(offset, sizes[k]);
        ChainStep(All(), pending, offset, sizes, k);
        all := all + ents;
        offset := Resume(offset, ents);
        k := k + 1;
      }
      ChainEnd(All(), pending, offset);
      assert sizes[k..] == [] && all + [] == all;
      ChainIsPrefix(All(), pending, 0, sizes);
      if |Visible(All(), pending, 0)| <= |sizes| && forall j :: 0 <= j < |sizes| ==> Fits(All(), sizes[j]) {
        ChainIsComplete(All(), pending, sizes);
      }
    }
  }

  lemma ChainStep(t: seq<string>, pending: set<string>, offset: nat, sizes: seq<nat>, k: nat)
    requires k < |sizes|
    ensures var ents := Fill(t, pending, offset, sizes[k]);
      Chain(t, pending, offset, sizes[k..]) == ents + Chain(t, pending, Resume(offset, ents), sizes[k + 1..])
  {
    assert sizes[k..][0] == sizes[k] && sizes[k..][1..] == sizes[k + 1..];
  }

  lemma ChainEnd(t: seq<string>, pending: set<string>, offset: nat)
    ensures Chain(t, pending, offset, []) == []
  {
  }

  /** DoReadDir on the FUSE root, whose entries are all virtual and never pending. */
  method ReadRootDir(virt: seq<string>, offset: nat, size: nat) returns (ents: seq<DirEnt>)
    ensures ents == Fill(virt, {}, offset, size)
  {
    ents := [];
    var cur, used := offset, 0;
    while cur < |virt|
      invariant used <= size
      invariant ents + Fill(virt, {}, cur, size - used) == Fill(virt, {}, offset, size)
      decreases |virt| - cur
    {
      var name := virt[cur];
      cur := cur + 1;
      if used + EntSize(name) > size {
        return;
      }
      used := used + EntSize(name);
      ents := ents + [DirEnt(cur, name)];
    }
  }

  // -------- What the cursor has turned physical --------

  /** The listed names among the first `seen` entries. */
  function Visited(pages: seq<Page>, seen: nat): seq<string> {
    if seen <= |Listed(pages)| then Listed(pages)[..seen] else Listed(pages)
  }

  lemma VisitOne(pages: seq<Page>, seen: nat, cur: nat)
    requires cur < |Listed(pages)| && cur <= seen
    ensures Names(Visited(pages, seen)) + {Listed(pages)[cur]} == Names(Visited(pages, if seen > cur then seen else cur + 1))
  {
    if seen > cur {
      assert Visited(pages, seen)[cur] == Listed(pages)[cur];
    } else {
      assert Listed(pages)[..cur + 1] == Listed(pages)[..cur] + [Listed(pages)[cur]];
    }
  }

  // -------- The flat list, region by region --------

  lemma FileAt(pages: seq<Page>, virt: seq<string>, k: nat, cur: nat)
    requires k < |pages| && |Files(pages[..k])| <= cur < |Files(pages[..k])| + |pages[k].files|
    ensures cur < |Listed(pages)| <= |Total(pages, virt)|
    ensures Total(pages, virt)[cur] == Listed(pages)[cur] == pages[k].files[cur - |Files(pages[..k])|]
  {
    FilesPrefix(pages, k + 1);
    assert pages[..k + 1][..k] == pages[..k];
  }

  lemma SubdirAt(pages: seq<Page>, virt: seq<string>, fetched: nat, cur: nat)
    requires fetched == |pages| && |Files(pages[..fetched])| <= cur < |Files(pages[..fetched])| + |Subdirs(pages[..fetched])|
    ensures cur < |Listed(pages)| <= |Total(pages, virt)|
    ensures Total(pages, virt)[cur] == Listed(pages)[cur] == Subdirs(pages[..fetched])[cur - |Files(pages[..fetched])|]
  {
    assert pages[..fetched] == pages;
  }

  lemma VirtAt(pages: seq<Page>, virt: seq<string>, fetched: nat, cur: nat, seen: nat)
    requires fetched == |pages| && |Files(pages[..fetched])| + |Subdirs(pages[..fetched])| <= cur <= seen
    ensures var base := |Files(pages[..fetched])| + |Subdirs(pages[..fetched])|;
      var left := Without(virt, Names(Visited(pages, seen)));
      && |Total(pages, virt)| == base + |left| && Visited(pages, cur + 1) == Visited(pages, seen)
      && (cur < base + |left| ==> Total(pages, virt)[cur] == left[cur - base])
  {
    hide Files, Subdirs, Without, Names;
    assert pages[..fetched] == pages;
    assert Listed(pages)[..|Listed(pages)|] == Listed(pages);
    assert Visited(pages, seen) == Listed(pages) && Visited(pages, cur + 1) == Listed(pages);
  }

  lemma SubdirsMore(pages: seq<Page>, fetched: nat)
    requires fetched < |pages|
    ensures Subdirs(pages[..fetched + 1]) == AddNew(Subdirs(pages[..fetched]), pages[fetched].subdirs)
  {
    assert pages[..fetched + 1][..fetched] == pages[..fetched];
  }

  lemma WindowEnds(pages: seq<Page>, fetched: nat)
    requires fetched <= |pages|
    ensures Files(pages[..0]) == []
    ensures fetched >= 1 ==> Files(pages[..fetched]) == Files(pages[..fetched - 1]) + pages[fetched - 1].files
    ensures fetched >= 2 ==> Files(pages[..fetched - 1]) == Files(pages[..fetched - 2]) + pages[fetched - 2].files
  {
    assert fetched >= 1 ==> pages[..fetched][..fetched - 1] == pages[..fetched - 1];
    assert fetched >= 2 ==> pages[..fetched - 1][..fetched - 2] == pages[..fetched - 2];
  }

  // -------- Chains of calls --------

  /** What a client gets that calls with these sizes, one after the other. */
  function Chain(t: seq<string>, pending: set<string>, offset: nat, sizes: seq<nat>): seq<DirEnt>
    decreases |sizes|
  {
    if sizes == [] then []
    else
      var ents := Fill(t, pending, offset, sizes[0]);
      ents + Chain(t, pending, Resume(offset, ents), sizes[1..])
  }

  /** Every entry from `pos` on that is not pending delete, once. */
  function Visible(t: seq<string>, pending: set<string>, pos: nat): seq<DirEnt>
    decreases |t| - pos
  {
    if pos >= |t| then []
    else if t[pos] in pending then Visible(t, pending, pos + 1)
    else [DirEnt(pos + 1, t[pos])] + Visible(t, pending, pos + 1)
  }

  lemma ResumeAfter(pos: nat, e: DirEnt, rest: seq<DirEnt>)
    requires e.off == pos + 1
    ensures Resume(pos, [e] + rest) == Resume(pos + 1, rest)
  {
  }

  lemma Regroup(a: seq<DirEnt>, b: seq<DirEnt>, c: seq<DirEnt>)
    ensures a + (b + c) == a + b + c
  {
  }

  lemma VisibleIs(t: seq<string>, pending: set<string>, pos: nat)
    requires pos < |t|
    ensures Visible(t, pending, pos) ==
      (if t[pos] in pending then [] else [DirEnt(pos + 1, t[pos])]) + Visible(t, pending, pos + 1)
  {
  }

  lemma FillIs(t: seq<string>, pending: set<string>, pos: nat, room: nat)
    ensures pos >= |t| || (t[pos] !in pending && EntSize(t[pos]) > room) ==> Fill(t, pending, pos, room) == []
    ensures pos < |t| && t[pos] in pending ==> Fill(t, pending, pos, room) == Fill(t, pending, pos + 1, room)
    ensures pos < |t| && t[pos] !in pending && EntSize(t[pos]) <= room ==>
      Fill(t, pending, pos, room) == [DirEnt(pos + 1, t[pos])] + Fill(t, pending, pos + 1, room - EntSize(t[pos]))
  {
  }

  /** A call returns a prefix of what there is to see, and what is left is what there is to see after it. */
  lemma {:induction false} FillIsPrefix(t: seq<string>, pending: set<string>, pos: nat, room: nat)
    ensures var ents := Fill(t, pending, pos, room);
      Visible(t, pending, pos) == ents + Visible(t, pending, Resume(pos, ents))
    decreases |t| - pos
  {
    hide Fill, Visible, EntSize;
    FillIs(t, pending, pos, room);
    if pos < |t| {
      VisibleIs(t, pending, pos);
      if t[pos] in pending {
        FillIsPrefix(t, pending, pos + 1, room);
      } else if EntSize(t[pos]) <= room {
        var rest := Fill(t, pending, pos + 1, room - EntSize(t[pos]));
        FillIsPrefix(t, pending, pos + 1, room - EntSize(t[pos]));
        ResumeAfter(pos, DirEnt(pos + 1, t[pos]), rest);
        Regroup([DirEnt(pos + 1, t[pos])], rest, Visible(t, pending, Resume(pos + 1, rest)));
      }
    }
  }

  /** The room that entries take. */
  function Room(ents: seq<DirEnt>): nat {
    if ents == [] then 0 else EntSize(ents[0].name) + Room(ents[1..])
  }

  /** A call fills its buffer: what it returns fits, and the next visible entry, if there is one, does not fit after it. */
  lemma {:induction false} FillIsFull(t: seq<string>, pending: set<string>, pos: nat, room: nat)
    ensures var ents := Fill(t, pending, pos, room);
      && Room(ents) <= room
      && var rest := Visible(t, pending, Resume(pos, ents)); rest != [] ==> Room(ents) + EntSize(rest[0].name) > room
    decreases |t| - pos
  {
    hide Fill, Visible, EntSize;
    FillIs(t, pending, pos, room);
    if pos < |t| {
      VisibleIs(t, pending, pos);
      if t[pos] in pending {
        FillIsFull(t, pending, pos + 1, room);
        VisibleSkips(t, pending, pos, Fill(t, pending, pos, room));
      } else if EntSize(t[pos]) <= room {
        var e, rest := DirEnt(pos + 1, t[pos]), Fill(t, pending, pos + 1, room - EntSize(t[pos]));
        FillIsFull(t, pending, pos + 1, room - EntSize(t[pos]));
        ResumeAfter(pos, e, rest);
        assert ([e] + rest)[1..] == rest;
      }
    } else {
      NothingVisible(t, pending, pos);
    }
  }

  lemma VisibleSkips(t: seq<string>, pending: set<string>, pos: nat, ents: seq<DirEnt>)
    requires pos < |t| && t[pos] in pending
    ensures Visible(t, pending, Resume(pos, ents)) == Visible(t, pending, Resume(pos + 1, ents))
  {
  }

  lemma NothingVisible(t: seq<string>, pending: set<string>, pos: nat)
    requires pos >= |t|
    ensures Visible(t, pending, pos) == []
  {
  }

  /** `room` is enough for whatever comes next. */
  ghost predicate Fits(t: seq<string>, room: nat) {
    forall n :: n in t ==> EntSize(n) <= room
  }

  lemma {:induction false} FillProgress(t: seq<string>, pending: set<string>, pos: nat, room: nat)
    requires Fits(t, room)
    ensures Fill(t, pending, pos, room) == [] ==> Visible(t, pending, pos) == []
    decreases |t| - pos
  {
    if pos < |t| {
      assert t[pos] in t;
      if t[pos] in pending {
        FillProgress(t, pending, pos + 1, room);
      }
    }
  }

  /** However the calls are sized, together they return a prefix of what there is to see: nothing twice, nothing left out. */
  lemma {:induction false} ChainIsPrefix(t: seq<string>, pending: set<string>, offset: nat, sizes: seq<nat>)
    ensures Chain(t, pending, offset, sizes) <= Visible(t, pending, offset)
    ensures |Chain(t, pending, offset, sizes)| < |Visible(t, pending, offset)| && (forall k :: 0 <= k < |sizes| ==> Fits(t, sizes[k]))
      ==> |Chain(t, pending, offset, sizes)| >= |sizes|
    decreases |sizes|
  {
    if sizes != [] {
      var ents := Fill(t, pending, offset, sizes[0]);
      FillIsPrefix(t, pending, offset, sizes[0]);
      ChainIsPrefix(t, pending, Resume(offset, ents), sizes[1..]);
      if forall k :: 0 <= k < |sizes| ==> Fits(t, sizes[k]) {
        FillProgress(t, pending, offset, sizes[0]);
      }
    }
  }

  /** As many calls as there are entries, each with room for one, return everything exactly once. */
  lemma ChainIsComplete(t: seq<string>, pending: set<string>, sizes: seq<nat>)
    requires |Visible(t, pending, 0)| <= |sizes| && forall k :: 0 <= k < |sizes| ==> Fits(t, sizes[k])
    ensures Chain(t, pending, 0, sizes) == Visible(t, pending, 0)
  {
    ChainIsPrefix(t, pending, 0, sizes);
  }

  /** What there is to see: each entry that is not pending, with the position after it as its Off. */
  lemma {:induction false} VisibleExactly(t: seq<string>, pending: set<string>, pos: nat, e: DirEnt)
    ensures e in Visible(t, pending, pos) <==> pos < e.off <= |t| && e.name == t[e.off - 1] && e.name !in pending
    decreases |t| - pos
  {
    if pos < |t| {
      VisibleExactly(t, pending, pos + 1, e);
    }
  }

  /** In order, past `pos`, and no position twice. */
  ghost predicate Increasing(v: seq<DirEnt>, pos: nat) {
    (forall i :: 0 <= i < |v| ==> v[i].off > pos) && (forall i, j :: 0 <= i < j < |v| ==> v[i].off < v[j].off)
  }

  lemma {:induction false} VisibleOrdered(t: seq<string>, pending: set<string>, pos: nat)
    ensures Increasing(Visible(t, pending, pos), pos)
    decreases |t| - pos
  {
    if pos < |t| {
      VisibleOrdered(t, pending, pos + 1);
      var rest := Visible(t, pending, pos + 1);
      assert Increasing(rest, pos + 1);
      assert Increasing([DirEnt(pos + 1, t[pos])] + rest, pos);
    }
  }
}
