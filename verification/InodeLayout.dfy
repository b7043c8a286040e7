/** Where each field of a packed inode is, byte by byte. */
module InodeLayout {
  import opened BigEndian
  import opened Bytes
  import opened InodeCodec

  /** The `w` bytes at `off` are a big-endian number. */
  ghost predicate Word(s: Str, off: nat, w: nat, n: nat) {
    off + w <= |s| && Decode(s[off..off + w]) == n
  }

  ghost predicate Bit(s: Str, off: nat, b: bool) {
    off < |s| && s[off] == if b then 1 else 0
  }

  /** A length and that many bytes. */
  ghost predicate Chars(s: Str, off: nat, text: Str) {
    Word(s, off, 8, |text|) && off + 8 + |text| <= |s| && s[off + 8..off + 8 + |text|] == text
  }

  /** A count and the numbers. */
  ghost predicate Words(s: Str, off: nat, count: nat, ns: seq<nat>) {
    Word(s, off, 8, count) && forall k :: 0 <= k < |ns| ==> Word(s, off + 8 + 8 * k, 8, ns[k])
  }

  // -------- One field --------

  /** `off` bytes hold the first `i` fields. */
  ghost predicate At(fs: seq<Field>, i: nat, off: nat) {
    i <= |fs| && FieldsOk(fs) && FieldsOk(fs[..i]) && off == |WrittenAll(fs[..i])|
  }

  /** Field `i` is written after those before it. */
  lemma FieldAt(fs: seq<Field>, i: nat, off: nat)
    requires At(fs, i, off) && i < |fs|
    ensures FieldsOk(fs) && FieldOk(fs[i]) && off + |Written(fs[i])| <= |WrittenAll(fs)| && WrittenAll(fs)[off..off + |Written(fs[i])|] == Written(fs[i])
    ensures At(fs, i + 1, off + |Written(fs[i])|)
  {
    hide Written, FieldOk, WrittenAll;
    StepFits(fs, i);
    assert fs[..i + 1] + fs[i + 1..] == fs;
    WrittenAppend(fs[..i + 1], fs[i + 1..]);
    var a, b, c := WrittenAll(fs[..i]), Written(fs[i]), WrittenAll(fs[i + 1..]);
    assert (a + b + c)[|a|..|a| + |b|] == b;
  }

  lemma NumAt(fs: seq<Field>, i: nat, off: nat, w: nat, n: nat)
    requires At(fs, i, off) && i < |fs| && fs[i] == Num(w, n)
    ensures FieldsOk(fs) && Word(WrittenAll(fs), off, w, n) && At(fs, i + 1, off + w)
  {
    hide WrittenAll, Encode, Decode;
    FieldAt(fs, i, off);
    DecodeEncode(n, w);
  }

  lemma FlagAt(fs: seq<Field>, i: nat, off: nat, b: bool)
    requires At(fs, i, off) && i < |fs| && fs[i] == Flag(b)
    ensures FieldsOk(fs) && Bit(WrittenAll(fs), off, b) && At(fs, i + 1, off + 1)
  {
    hide WrittenAll;
    FieldAt(fs, i, off);
    assert WrittenAll(fs)[off..off + 1][0] == if b then 1 else 0;
  }

  /** What lies inside a slice lies in the whole. */
  lemma Inside(s: Str, off: nat, part: Str, k: nat, w: nat)
    requires off + |part| <= |s| && s[off..off + |part|] == part && k + w <= |part|
    ensures s[off + k..off + k + w] == part[k..k + w]
  {
    var x, y := s[off + k..off + k + w], part[k..k + w];
    forall j | 0 <= j < w ensures x[j] == y[j] {
      assert s[off..off + |part|][k + j] == part[k + j];
    }
  }

  lemma NumberAt(s: Str, off: nat, n: nat)
    requires n <= MAX_UINT64 && off + 8 <= |s| && s[off..off + 8] == Number(n)
    ensures Word(s, off, 8, n)
  {
    hide Encode, Decode;
    Power8();
    DecodeEncode(n, 8);
  }

  lemma TextAt(fs: seq<Field>, i: nat, off: nat, text: Str)
    requires At(fs, i, off) && i < |fs| && fs[i] == Text(text)
    ensures FieldsOk(fs) && Chars(WrittenAll(fs), off, text) && At(fs, i + 1, off + 8 + |text|)
  {
    hide WrittenAll, Number;
    FieldAt(fs, i, off);
    var s, part := WrittenAll(fs), Number(|text|) + text;
    Inside(s, off, part, 0, 8);
    Inside(s, off, part, 8, |text|);
    assert part[0..8] == Number(|text|) && part[8..8 + |text|] == text;
    NumberAt(s, off, |text|);
  }

  lemma {:induction false} NumbersAt(ns: seq<nat>, k: nat)
    requires AllFit(ns) && k < |ns|
    ensures Numbers(ns)[8 * k..8 * k + 8] == Number(ns[k])
  {
    hide Number;
    var init := ns[..|ns| - 1];
    if k < |init| {
      NumbersAt(init, k);
      assert Numbers(ns)[8 * k..8 * k + 8] == Numbers(init)[8 * k..8 * k + 8];
    }
  }

  lemma NumsWritten(stride: nat, ns: seq<nat>, count: nat)
    requires FieldOk(Nums(stride, ns)) && ((stride == 1 && |ns| == count) || (stride == 2 && |ns| == 2 * count))
    ensures AllFit(ns) && count <= MAX_UINT64 && Written(Nums(stride, ns)) == Number(count) + Numbers(ns)
  {
    hide Number, Numbers, Encode;
    if stride == 1 {
      assert |ns| / 1 == count;
    } else {
      assert |ns| / 2 == count;
    }
  }

  lemma NumsAt(fs: seq<Field>, i: nat, off: nat, stride: nat, ns: seq<nat>, count: nat)
    requires At(fs, i, off) && i < |fs| && fs[i] == Nums(stride, ns)
    requires (stride == 1 && |ns| == count) || (stride == 2 && |ns| == 2 * count)
    ensures FieldsOk(fs) && Words(WrittenAll(fs), off, count, ns) && At(fs, i + 1, off + 8 + 8 * |ns|)
  {
    hide WrittenAll, Number, Numbers, Written, FieldOk, At;
    FieldAt(fs, i, off);
    NumsWritten(stride, ns, count);
    var s, part := WrittenAll(fs), Number(count) + Numbers(ns);
    Inside(s, off, part, 0, 8);
    assert part[0..8] == Number(count);
    NumberAt(s, off, count);
    forall k | 0 <= k < |ns| ensures Word(s, off + 8 + 8 * k, 8, ns[k]) {
      NumbersAt(ns, k);
      Inside(s, off, part, 8 + 8 * k, 8);
      assert part[8 + 8 * k..8 + 8 * k + 8] == Numbers(ns)[8 * k..8 * k + 8];
      NumberAt(s, off + 8 + 8 * k, ns[k]);
    }
  }

  // -------- All twenty --------

  lemma Fields(n: Inode, lines: seq<nat>, handles: seq<nat>)
    requires InodeOk(n) && forall k :: k in lines ==> k in n.cacheMap
    ensures var fs := Layout(n, lines, handles);
      && fs[0] == Num(8, n.number) && fs[1] == Num(4, n.kind) && fs[2] == Num(8, n.backend) && fs[3] == Num(8, n.parent) && fs[4] == Flag(n.isVirt)
      && fs[5] == Text(n.objectPath) && fs[6] == Text(n.basename) && fs[7] == Num(8, n.sizeInBackend) && fs[8] == Num(8, n.sizeInMemory)
      && fs[9] == Text(n.eTag) && fs[10] == Num(4, n.mode) && fs[11] == Num(8, TimeBits(n.mTime)) && fs[12] == Num(8, TimeBits(n.xTime))
      && fs[13] == Flag(n.prefetching) && fs[14] == Nums(2, Interleaved(lines, n.cacheMap)) && fs[15] == Num(8, n.inbound)
      && fs[16] == Num(8, n.outbound) && fs[17] == Num(8, n.dirty) && fs[18] == Nums(1, handles) && fs[19] == Flag(n.pendingDelete)
  {
    hide InodeOk, Interleaved, TimeBits;
  }

  /** Pairs of line and slot, in the order the map was visited in. */
  lemma {:induction false} PairAt(order: seq<nat>, m: map<nat, nat>, k: nat)
    requires (forall x :: x in order ==> x in m) && k < |order|
    ensures Interleaved(order, m)[2 * k] == order[k] && Interleaved(order, m)[2 * k + 1] == m[order[k]]
  {
    var init := order[..|order| - 1];
    if k < |init| {
      PairAt(init, m, k);
    }
  }

  ghost predicate HeadAt(s: Str, n: Inode) {
    Word(s, 0, 8, n.number) && Word(s, 8, 4, n.kind) && Word(s, 12, 8, n.backend) && Word(s, 20, 8, n.parent) && Bit(s, 28, n.isVirt)
  }

  ghost predicate NamesAt(s: Str, off: nat, n: Inode) {
    && Chars(s, off, n.objectPath)
    && var o := off + 8 + |n.objectPath|;
       && Chars(s, o, n.basename)
       && var p := o + 8 + |n.basename|;
          Word(s, p, 8, n.sizeInBackend) && Word(s, p + 8, 8, n.sizeInMemory) && Chars(s, p + 16, n.eTag)
  }

  ghost predicate TimesAt(s: Str, off: nat, n: Inode, lines: seq<nat>)
    requires InodeOk(n) && forall k :: k in lines ==> k in n.cacheMap
  {
    && Word(s, off, 4, n.mode) && Word(s, off + 4, 8, TimeBits(n.mTime)) && Word(s, off + 12, 8, TimeBits(n.xTime)) && Bit(s, off + 20, n.prefetching)
    && Words(s, off + 21, |n.cacheMap|, Interleaved(lines, n.cacheMap))
  }

  ghost predicate TailAt(s: Str, off: nat, n: Inode, handles: seq<nat>) {
    && Word(s, off, 8, n.inbound) && Word(s, off + 8, 8, n.outbound) && Word(s, off + 16, 8, n.dirty)
    && Words(s, off + 24, |n.fhSet|, handles) && Bit(s, off + 32 + 8 * |n.fhSet|, n.pendingDelete)
  }

  lemma HeadIs(n: Inode, lines: seq<nat>, handles: seq<nat>)
    requires InodeOk(n) && (forall k :: k in lines ==> k in n.cacheMap) && FieldsOk(Layout(n, lines, handles))
    ensures HeadAt(WrittenAll(Layout(n, lines, handles)), n) && At(Layout(n, lines, handles), 5, 29)
  {
    hide Layout, Word, Bit, FieldsOk, InodeOk, At, WrittenAll;
    var fs := Layout(n, lines, handles);
    Fields(n, lines, handles);
    NoneWritten(fs);
    NumAt(fs, 0, 0, 8, n.number);
    NumAt(fs, 1, 8, 4, n.kind);
    NumAt(fs, 2, 12, 8, n.backend);
    NumAt(fs, 3, 20, 8, n.parent);
    FlagAt(fs, 4, 28, n.isVirt);
  }

  lemma NoneWritten(fs: seq<Field>)
    requires FieldsOk(fs)
    ensures At(fs, 0, 0)
  {
  }

  lemma NamesAre(n: Inode, lines: seq<nat>, handles: seq<nat>, off: nat)
    requires InodeOk(n) && (forall k :: k in lines ==> k in n.cacheMap) && At(Layout(n, lines, handles), 5, off)
    ensures FieldsOk(Layout(n, lines, handles)) && NamesAt(WrittenAll(Layout(n, lines, handles)), off, n)
    ensures At(Layout(n, lines, handles), 10, off + 40 + |n.objectPath| + |n.basename| + |n.eTag|)
  {
    hide Layout, WrittenAll, Word, Chars, FieldsOk, InodeOk, At;
    var fs := Layout(n, lines, handles);
    Fields(n, lines, handles);
    TextAt(fs, 5, off, n.objectPath);
    var o := off + 8 + |n.objectPath|;
    TextAt(fs, 6, o, n.basename);
    var p := o + 8 + |n.basename|;
    NumAt(fs, 7, p, 8, n.sizeInBackend);
    NumAt(fs, 8, p + 8, 8, n.sizeInMemory);
    TextAt(fs, 9, p + 16, n.eTag);
  }

  lemma TimesAre(n: Inode, lines: seq<nat>, handles: seq<nat>, off: nat)
    requires InodeOk(n) && Orders(lines, n.cacheMap.Keys) && At(Layout(n, lines, handles), 10, off)
    ensures FieldsOk(Layout(n, lines, handles)) && TimesAt(WrittenAll(Layout(n, lines, handles)), off, n, lines)
    ensures At(Layout(n, lines, handles), 15, off + 29 + 16 * |n.cacheMap|)
  {
    hide Layout, WrittenAll, Word, Words, Bit, FieldsOk, InodeOk, Interleaved, TimeBits, At;
    assert |lines| == |n.cacheMap.Keys| == |n.cacheMap|;
    var fs := Layout(n, lines, handles);
    Fields(n, lines, handles);
    NumbersFit(n);
    NumAt(fs, 10, off, 4, n.mode);
    NumAt(fs, 11, off + 4, 8, TimeBits(n.mTime));
    NumAt(fs, 12, off + 12, 8, TimeBits(n.xTime));
    FlagAt(fs, 13, off + 20, n.prefetching);
    NumsAt(fs, 14, off + 21, 2, Interleaved(lines, n.cacheMap), |lines|);
  }

  lemma TailIs(n: Inode, lines: seq<nat>, handles: seq<nat>, off: nat)
    requires InodeOk(n) && (forall k :: k in lines ==> k in n.cacheMap) && Orders(handles, n.fhSet) && At(Layout(n, lines, handles), 15, off)
    ensures FieldsOk(Layout(n, lines, handles)) && TailAt(WrittenAll(Layout(n, lines, handles)), off, n, handles)
  {
    hide Layout, WrittenAll, Word, Words, Bit, FieldsOk, InodeOk, At;
    assert |handles| == |n.fhSet|;
    var fs := Layout(n, lines, handles);
    Fields(n, lines, handles);
    NumAt(fs, 15, off, 8, n.inbound);
    NumAt(fs, 16, off + 8, 8, n.outbound);
    NumAt(fs, 17, off + 16, 8, n.dirty);
    NumsAt(fs, 18, off + 24, 1, handles, |handles|);
    FlagAt(fs, 19, off + 32 + 8 * |handles|, n.pendingDelete);
  }

  /** Every field is where the layout puts it, for every inode and every order of its collections. */
  lemma FieldsAreInPlace(n: Inode, lines: seq<nat>, handles: seq<nat>)
    requires InodeOk(n) && Orders(lines, n.cacheMap.Keys) && Orders(handles, n.fhSet)
    ensures var s := Packed(n, lines, handles); var times := 69 + |n.objectPath| + |n.basename| + |n.eTag|;
      && HeadAt(s, n) && NamesAt(s, 29, n) && TimesAt(s, times, n, lines) && TailAt(s, times + 29 + 16 * |n.cacheMap|, n, handles)
  {
    hide Layout, WrittenAll, InodeOk, FieldsOk, HeadAt, NamesAt, TimesAt, TailAt, At, Shapes;
    LayoutIsOk(n, lines, handles);
    HeadIs(n, lines, handles);
    NamesAre(n, lines, handles, 29);
    var times := 69 + |n.objectPath| + |n.basename| + |n.eTag|;
    TimesAre(n, lines, handles, times);
    TailIs(n, lines, handles, times + 29 + 16 * |n.cacheMap|);
  }
}
