/**
 The byte layout of an inode in a B+Tree page: twenty fields, one after the
 other, numbers big-endian, strings and collections with their length first.

 The cursor over the buffer is an index; the layout is one table that both
 directions follow.
 */
module InodeCodec {
  import opened Arithmetic
  import opened Bytes
  import opened BigEndian

  const TWO_TO_THE_63: int := 0x8000_0000_0000_0000

  /** Go's zero time, or nanoseconds since the Unix epoch, in an int64. */
  datatype Time = ZeroTime | Unix(nanos: int)

  datatype Inode = Inode(number: nat, kind: nat, backend: nat, parent: nat, isVirt: bool, objectPath: Str, basename: Str,
                         sizeInBackend: nat, sizeInMemory: nat, eTag: Str, mode: nat, mTime: Time, xTime: Time,
                         prefetching: bool, cacheMap: map<nat, nat>, inbound: nat, outbound: nat, dirty: nat,
                         fhSet: set<nat>, pendingDelete: bool)

  // -------- Fields --------

  /** A number of some width, a flag, a string, or numbers in groups of `stride`, counted in groups. */
  datatype Field = Num(width: nat, n: nat) | Flag(b: bool) | Text(s: Str) | Nums(stride: nat, ns: seq<nat>)

  datatype Shape = NumOf(width: nat) | FlagOf | TextOf | NumsOf(stride: nat)

  function ShapeOf(f: Field): Shape {
    match f
    case Num(width, _) => NumOf(width)
    case Flag(_) => FlagOf
    case Text(_) => TextOf
    case Nums(stride, _) => NumsOf(stride)
  }

  predicate AllFit(ns: seq<nat>) {
    forall i :: 0 <= i < |ns| ==> ns[i] <= MAX_UINT64
  }

  predicate FieldOk(f: Field) {
    match f
    case Num(width, n) => width in {4, 8} && Fits(n, width)
    case Flag(_) => true
    case Text(s) => |s| <= MAX_UINT64
    case Nums(stride, ns) => stride in {1, 2} && |ns| % stride == 0 && |ns| <= MAX_UINT64 && AllFit(ns)
  }

  function Number(n: nat): (s: Str)
    requires n <= MAX_UINT64
    ensures |s| == 8
  {
    Power8();
    Encode(n, 8)
  }

  function Numbers(ns: seq<nat>): (s: Str)
    requires AllFit(ns)
    ensures |s| == 8 * |ns|
  {
    if ns == [] then [] else Numbers(ns[..|ns| - 1]) + Number(ns[|ns| - 1])
  }

  function Written(f: Field): Str
    requires FieldOk(f)
  {
    match f
    case Num(width, n) => Encode(n, width)
    case Flag(b) => if b then [1] else [0]
    case Text(s) => Number(|s|) + s
    case Nums(stride, ns) => Number(|ns| / stride) + Numbers(ns)
  }

  function WrittenAll(fs: seq<Field>): Str
    requires forall f :: f in fs ==> FieldOk(f)
  {
    if fs == [] then [] else WrittenAll(fs[..|fs| - 1]) + Written(fs[|fs| - 1])
  }

  // -------- Reading --------

  /** A value and the position after it, an error, or a slice out of bounds. */
  datatype Outcome<T> = Got(value: T, next: nat) | Short | Panics

  function ReadNumber(s: Str, pos: nat): Outcome<nat> {
    if |s| < pos + 8 then Short else Got(Decode(s[pos..pos + 8]), pos + 8)
  }

  /** Numbers whose total length was already checked. */
  function ReadNumbers(s: Str, pos: nat, count: nat): Outcome<seq<nat>> {
    if count == 0 then Got([], pos)
    else match ReadNumbers(s, pos, count - 1)
      case Got(ns, at) => if |s| < at + 8 then Panics else Got(ns + [Decode(s[at..at + 8])], at + 8)
      case other => other
  }

  /** One field. The sums that check a length are uint64 sums. */
  function Read(shape: Shape, s: Str, pos: nat): Outcome<Field> {
    match shape
    case NumOf(width) => if |s| < pos + width then Short else Got(Num(width, Decode(s[pos..pos + width])), pos + width)
    case FlagOf => if |s| < pos + 1 then Short else Got(Flag(s[pos] == 1), pos + 1)
    case TextOf =>
      (match ReadNumber(s, pos)
       case Got(n, at) =>
         if |s| < (at + n) % TWO_TO_THE_64 then Short
         else if |s| < at + n then Panics
         else Got(Text(s[at..at + n]), at + n)
       case _ => Short)
    case NumsOf(stride) =>
      (match ReadNumber(s, pos)
       case Got(n, at) =>
         if |s| < (at + n * stride * 8) % TWO_TO_THE_64 then Short
         else (match ReadNumbers(s, at, n * stride)
               case Got(ns, next) => Got(Nums(stride, ns), next)
               case _ => Panics)
       case _ => Short)
  }

  function ReadAll(shapes: seq<Shape>, s: Str): Outcome<seq<Field>> {
    if shapes == [] then Got([], 0)
    else match ReadAll(shapes[..|shapes| - 1], s)
      case Got(fs, pos) =>
        (match Read(shapes[|shapes| - 1], s, pos)
         case Got(f, next) => Got(fs + [f], next)
         case Short => Short
         case Panics => Panics)
      case Short => Short
      case Panics => Panics
  }

  // -------- Reading back what was written --------

  /** `s` holds `part` at `pos`. */
  predicate At(s: Str, pos: nat, part: Str) {
    pos + |part| <= |s| && s[pos..pos + |part|] == part
  }

  lemma NumberAt(s: Str, pos: nat, n: nat)
    requires n <= MAX_UINT64 && At(s, pos, Number(n))
    ensures ReadNumber(s, pos) == Got(n, pos + 8)
  {
    Power8();
    DecodeEncode(n, 8);
  }

  lemma AtParts(s: Str, pos: nat, a: Str, b: Str)
    requires At(s, pos, a + b)
    ensures At(s, pos, a) && At(s, pos + |a|, b)
  {
    assert (a + b)[..|a|] == a && (a + b)[|a|..] == b;
    assert s[pos..pos + |a + b|][..|a|] == s[pos..pos + |a|];
    assert s[pos..pos + |a + b|][|a|..] == s[pos + |a|..pos + |a| + |b|];
  }

  lemma {:induction false} NumbersAt(s: Str, pos: nat, ns: seq<nat>)
    requires AllFit(ns) && At(s, pos, Numbers(ns))
    ensures ReadNumbers(s, pos, |ns|) == Got(ns, pos + 8 * |ns|)
  {
    hide Number, Decode;
    if ns != [] {
      var init, last := ns[..|ns| - 1], ns[|ns| - 1];
      AtParts(s, pos, Numbers(init), Number(last));
      NumbersAt(s, pos, init);
      NumberAt(s, pos + 8 * |init|, last);
      assert ns == init + [last] && ReadNumbers(s, pos, |init|) == Got(init, pos + 8 * |init|);
    }
  }

  lemma TextAt(t: Str, s: Str, pos: nat)
    requires |t| <= MAX_UINT64 && At(s, pos, Number(|t|) + t) && |s| < TWO_TO_THE_63
    ensures Read(TextOf, s, pos) == Got(Text(t), pos + 8 + |t|)
  {
    hide Number, ReadNumber;
    AtParts(s, pos, Number(|t|), t);
    NumberAt(s, pos, |t|);
  }

  lemma NumsAt(stride: nat, ns: seq<nat>, count: nat, s: Str, pos: nat)
    requires AllFit(ns) && count <= MAX_UINT64 && At(s, pos, Number(count) + Numbers(ns))
    requires count * stride == |ns| && (pos + 8 + count * stride * 8) % TWO_TO_THE_64 <= |s|
    ensures Read(NumsOf(stride), s, pos) == Got(Nums(stride, ns), pos + 8 + 8 * |ns|)
  {
    hide Number, ReadNumber, Numbers, ReadNumbers, Read;
    AtParts(s, pos, Number(count), Numbers(ns));
    NumberAt(s, pos, count);
    NumbersAt(s, pos + 8, ns);
    NumsRead(stride, s, pos, count, ns, pos + 8 + 8 * |ns|);
  }

  lemma NumsRead(stride: nat, s: Str, pos: nat, n: nat, ns: seq<nat>, next: nat)
    requires ReadNumber(s, pos) == Got(n, pos + 8) && (pos + 8 + n * stride * 8) % TWO_TO_THE_64 <= |s|
    requires ReadNumbers(s, pos + 8, n * stride) == Got(ns, next)
    ensures Read(NumsOf(stride), s, pos) == Got(Nums(stride, ns), next)
  {
    hide ReadNumber, ReadNumbers;
  }

  lemma StrideFits(n: nat, stride: nat, at: nat)
    requires stride in {1, 2} && n % stride == 0 && at + 8 * n < TWO_TO_THE_63
    ensures n / stride <= n && n / stride * stride == n && (at + n / stride * stride * 8) % TWO_TO_THE_64 == at + 8 * n
  {
    if stride == 1 {
      assert n / 1 == n;
    } else {
      assert n / 2 * 2 == n;
    }
  }

  lemma ReadWritten(f: Field, s: Str, pos: nat)
    requires FieldOk(f) && At(s, pos, Written(f)) && |s| < TWO_TO_THE_63
    ensures Read(ShapeOf(f), s, pos) == Got(f, pos + |Written(f)|)
  {
    hide Decode, Encode, Number, Numbers, ReadNumbers, ReadNumber;
    match f {
      case Num(width, n) => DecodeEncode(n, width);
      case Flag(b) => assert s[pos..pos + 1][0] == s[pos];
      case Text(t) => TextAt(t, s, pos);
      case Nums(stride, ns) =>
        StrideFits(|ns|, stride, pos + 8);
        NumsAt(stride, ns, |ns| / stride, s, pos);
    }
  }

  /** A field cut short is an error, never a panic. */
  lemma ReadCut(f: Field, s: Str, pos: nat, whole: Str)
    requires FieldOk(f) && At(whole, pos, Written(f)) && |whole| < TWO_TO_THE_63
    requires pos <= |s| < pos + |Written(f)| && s == whole[..|s|]
    ensures Read(ShapeOf(f), s, pos) == Short
  {
    hide Decode, Encode, Numbers, ReadNumbers;
    match f {
      case Num(width, n) =>
      case Flag(b) =>
      case Text(t) => CutNumber(s, pos, |t|, t, whole);
      case Nums(stride, ns) =>
        var count := |ns| / stride;
        CutNumber(s, pos, count, Numbers(ns), whole);
        assert count * stride == |ns| && count * stride * 8 == 8 * |ns|;
    }
  }

  lemma CutNumber(s: Str, pos: nat, n: nat, part: Str, whole: Str)
    requires n <= MAX_UINT64 && At(whole, pos, Number(n) + part) && pos <= |s| <= |whole| && s == whole[..|s|]
    ensures ReadNumber(s, pos) == Short || (|s| >= pos + 8 && ReadNumber(s, pos) == Got(n, pos + 8))
  {
    AtParts(whole, pos, Number(n), part);
    if |s| >= pos + 8 {
      assert s[pos..pos + 8] == whole[pos..pos + 8];
      NumberAt(s, pos, n);
    }
  }

  function Shapes(fs: seq<Field>): seq<Shape> {
    seq(|fs|, i requires 0 <= i < |fs| => ShapeOf(fs[i]))
  }

  ghost predicate FieldsOk(fs: seq<Field>) {
    forall f :: f in fs ==> FieldOk(f)
  }

  lemma LastField(fs: seq<Field>)
    requires FieldsOk(fs) && fs != []
    ensures FieldsOk(fs[..|fs| - 1]) && FieldOk(fs[|fs| - 1])
    ensures WrittenAll(fs) == WrittenAll(fs[..|fs| - 1]) + Written(fs[|fs| - 1])
  {
    hide Written, FieldOk;
  }

  lemma LastShape(fs: seq<Field>)
    requires fs != []
    ensures |Shapes(fs)| == |fs|
    ensures Shapes(fs)[..|fs| - 1] == Shapes(fs[..|fs| - 1]) && Shapes(fs)[|fs| - 1] == ShapeOf(fs[|fs| - 1])
  {
    hide ShapeOf;
  }

  lemma {:induction false} ReadAllWritten(fs: seq<Field>, rest: Str)
    requires FieldsOk(fs) && |WrittenAll(fs) + rest| < TWO_TO_THE_63
    ensures ReadAll(Shapes(fs), WrittenAll(fs) + rest) == Got(fs, |WrittenAll(fs)|)
  {
    hide WrittenAll, Written, Shapes, ShapeOf, Read;
    if fs == [] {
      NoShapes();
    } else {
      LastField(fs);
      LastShape(fs);
      var init, last := fs[..|fs| - 1], fs[|fs| - 1];
      var s := WrittenAll(fs) + rest;
      assert s == WrittenAll(init) + (Written(last) + rest);
      ReadAllWritten(init, Written(last) + rest);
      assert At(s, |WrittenAll(init)|, Written(last));
      ReadWritten(last, s, |WrittenAll(init)|);
      assert fs == init + [last];
    }
  }

  lemma NoShapes()
    ensures Shapes([]) == [] && WrittenAll([]) == []
  {
  }

  lemma {:induction false} ReadAllCut(fs: seq<Field>, n: nat)
    requires FieldsOk(fs) && n < |WrittenAll(fs)| < TWO_TO_THE_63
    ensures ReadAll(Shapes(fs), WrittenAll(fs)[..n]) == Short
  {
    hide WrittenAll, Written, Shapes, ShapeOf, Read;
    if fs == [] {
      NoShapes();
    } else {
      LastField(fs);
      LastShape(fs);
      var init, last := fs[..|fs| - 1], fs[|fs| - 1];
      var whole, a := WrittenAll(fs), WrittenAll(init);
      if n < |a| {
        assert whole[..n] == a[..n];
        ReadAllCut(init, n);
      } else {
        assert whole[..n] == a + whole[|a|..n];
        ReadAllWritten(init, whole[|a|..n]);
        assert At(whole, |a|, Written(last));
        ReadCut(last, whole[..n], |a|, whole);
      }
    }
  }

  // -------- The layout of an inode --------

  predicate TimeOk(t: Time) {
    t == ZeroTime || -TWO_TO_THE_63 <= t.nanos < TWO_TO_THE_63
  }

  function TimeBits(t: Time): (u: nat)
    requires TimeOk(t)
    ensures u <= MAX_UINT64 && if t == ZeroTime then u == 0 else u == t.nanos || u == t.nanos + TWO_TO_THE_64
  {
    if t == ZeroTime then 0 else if t.nanos < 0 then t.nanos + TWO_TO_THE_64 else t.nanos
  }

  function TimeOf(u: nat): Time {
    if u == 0 then ZeroTime else Unix(if u < TWO_TO_THE_63 then u else u - TWO_TO_THE_64)
  }

  /** A time comes back, except that the Unix epoch itself comes back as the zero time. */
  function Kept(t: Time): Time {
    if t == Unix(0) then ZeroTime else t
  }

  lemma TimeRoundTrip(t: Time)
    requires TimeOk(t)
    ensures TimeOf(TimeBits(t)) == Kept(t)
  {
  }

  /** An order in which a Go map or set may be ranged over. */
  ghost predicate Orders(order: seq<nat>, keys: set<nat>) {
    |order| == |keys| && forall k :: k in order <==> k in keys
  }

  function Interleaved(order: seq<nat>, m: map<nat, nat>): (ns: seq<nat>)
    requires forall k :: k in order ==> k in m
    ensures |ns| == 2 * |order|
  {
    if order == [] then []
    else Interleaved(order[..|order| - 1], m) + [order[|order| - 1], m[order[|order| - 1]]]
  }

  function MapOf(ns: seq<nat>): map<nat, nat> {
    if |ns| < 2 then map[] else MapOf(ns[..|ns| - 2])[ns[|ns| - 2] := ns[|ns| - 1]]
  }

  function SetOf(ns: seq<nat>): set<nat> {
    set k | k in ns
  }

  lemma {:induction false} MapOfInterleaved(order: seq<nat>, m: map<nat, nat>)
    requires forall k :: k in order ==> k in m
    ensures forall k :: k in MapOf(Interleaved(order, m)) <==> k in order
    ensures forall k :: k in order ==> MapOf(Interleaved(order, m))[k] == m[k]
  {
    if order != [] {
      var init, last := order[..|order| - 1], order[|order| - 1];
      assert forall k :: k in init ==> k in order;
      MapOfInterleaved(init, m);
      var ns := Interleaved(order, m);
      assert ns[..|ns| - 2] == Interleaved(init, m);
      assert forall k :: k in order <==> k in init || k == last;
    }
  }

  lemma {:induction false} InterleavedFits(order: seq<nat>, m: map<nat, nat>)
    requires forall k :: k in order ==> k in m && k <= MAX_UINT64 && m[k] <= MAX_UINT64
    ensures AllFit(Interleaved(order, m))
  {
    if order != [] {
      var init := order[..|order| - 1];
      assert forall k :: k in init ==> k in order;
      InterleavedFits(init, m);
    }
  }

  predicate InodeOk(n: Inode) {
    && n.number <= MAX_UINT64 && Fits(n.kind, 4) && n.backend <= MAX_UINT64 && n.parent <= MAX_UINT64
    && |n.objectPath| <= MAX_UINT64 && |n.basename| <= MAX_UINT64 && n.sizeInBackend <= MAX_UINT64 && n.sizeInMemory <= MAX_UINT64
    && |n.eTag| <= MAX_UINT64 && Fits(n.mode, 4) && TimeOk(n.mTime) && TimeOk(n.xTime)
    && n.inbound <= MAX_UINT64 && n.outbound <= MAX_UINT64 && n.dirty <= MAX_UINT64
    && 2 * |n.cacheMap| <= MAX_UINT64 && (forall k :: k in n.cacheMap ==> k <= MAX_UINT64 && n.cacheMap[k] <= MAX_UINT64)
    && |n.fhSet| <= MAX_UINT64 && (forall k :: k in n.fhSet ==> k <= MAX_UINT64)
  }

  const SHAPES: seq<Shape> := [
    NumOf(8), NumOf(4), NumOf(8), NumOf(8), FlagOf,
    TextOf, TextOf, NumOf(8), NumOf(8), TextOf,
    NumOf(4), NumOf(8), NumOf(8), FlagOf, NumsOf(2),
    NumOf(8), NumOf(8), NumOf(8), NumsOf(1), FlagOf]

  /** The fields of an inode, its cache map and its handles in the orders they happen to be visited. */
  function Layout(n: Inode, lines: seq<nat>, handles: seq<nat>): (fs: seq<Field>)
    requires InodeOk(n) && forall k :: k in lines ==> k in n.cacheMap
    ensures |fs| == 20
  {
    [Num(8, n.number), Num(4, n.kind), Num(8, n.backend), Num(8, n.parent), Flag(n.isVirt)]
    + [Text(n.objectPath), Text(n.basename), Num(8, n.sizeInBackend), Num(8, n.sizeInMemory), Text(n.eTag)]
    + [Num(4, n.mode), Num(8, TimeBits(n.mTime)), Num(8, TimeBits(n.xTime)), Flag(n.prefetching), Nums(2, Interleaved(lines, n.cacheMap))]
    + [Num(8, n.inbound), Num(8, n.outbound), Num(8, n.dirty), Nums(1, handles), Flag(n.pendingDelete)]
  }

  function FromFields(fs: seq<Field>): Inode
    requires Shapes(fs) == SHAPES
  {
    ShapesMatch(fs);
    Inode(fs[0].n, fs[1].n, fs[2].n, fs[3].n, fs[4].b, fs[5].s, fs[6].s, fs[7].n, fs[8].n, fs[9].s, fs[10].n,
          TimeOf(fs[11].n), TimeOf(fs[12].n), fs[13].b, MapOf(fs[14].ns), fs[15].n, fs[16].n, fs[17].n,
          SetOf(fs[18].ns), fs[19].b)
  }

  lemma ShapesMatch(fs: seq<Field>)
    requires Shapes(fs) == SHAPES
    ensures |fs| == 20 && forall i :: 0 <= i < 20 ==> ShapeOf(fs[i]) == SHAPES[i]
  {
    assert |Shapes(fs)| == |fs|;
    forall i | 0 <= i < 20 ensures ShapeOf(fs[i]) == SHAPES[i] {
      assert Shapes(fs)[i] == SHAPES[i];
    }
  }

  lemma {:induction false} ReadKeepsShapes(shapes: seq<Shape>, s: Str)
    ensures ReadAll(shapes, s).Got? ==> Shapes(ReadAll(shapes, s).value) == shapes
  {
    hide ReadNumbers, ReadNumber, Decode;
    if shapes != [] && ReadAll(shapes, s).Got? {
      ReadKeepsShapes(shapes[..|shapes| - 1], s);
      var fs := ReadAll(shapes, s).value;
      LastShape(fs);
      assert fs[..|fs| - 1] == ReadAll(shapes[..|shapes| - 1], s).value;
      assert shapes == shapes[..|shapes| - 1] + [shapes[|shapes| - 1]];
      assert Shapes(fs) == Shapes(fs)[..|fs| - 1] + [Shapes(fs)[|fs| - 1]];
    }
  }

  function Unpacked(payload: Str): Outcome<Inode> {
    ReadKeepsShapes(SHAPES, payload);
    match ReadAll(SHAPES, payload)
    case Got(fs, next) => Got(FromFields(fs), next)
    case Short => Short
    case Panics => Panics
  }

  lemma LayoutIsOk(n: Inode, lines: seq<nat>, handles: seq<nat>)
    requires InodeOk(n) && Orders(lines, n.cacheMap.Keys) && Orders(handles, n.fhSet)
    ensures FieldsOk(Layout(n, lines, handles)) && Shapes(Layout(n, lines, handles)) == SHAPES
  {
    CollectionsFit(n, lines, handles);
    FlatFieldsFit(n);
    LayoutShapes(n, lines, handles);
  }

  lemma LayoutShapes(n: Inode, lines: seq<nat>, handles: seq<nat>)
    requires InodeOk(n) && forall k :: k in lines ==> k in n.cacheMap
    ensures Shapes(Layout(n, lines, handles)) == SHAPES
  {
    hide InodeOk, Interleaved, TimeBits;
  }

  lemma CollectionsFit(n: Inode, lines: seq<nat>, handles: seq<nat>)
    requires InodeOk(n) && Orders(lines, n.cacheMap.Keys) && Orders(handles, n.fhSet)
    ensures FieldOk(Nums(2, Interleaved(lines, n.cacheMap))) && FieldOk(Nums(1, handles))
  {
    InterleavedFits(lines, n.cacheMap);
    assert |n.cacheMap.Keys| == |n.cacheMap|;
    assert forall i :: 0 <= i < |handles| ==> handles[i] in n.fhSet;
  }

  lemma FlatFieldsFit(n: Inode)
    requires InodeOk(n)
    ensures forall u: nat :: u <= MAX_UINT64 ==> FieldOk(Num(8, u))
    ensures FieldOk(Num(4, n.kind)) && FieldOk(Num(4, n.mode)) && FieldOk(Text(n.objectPath)) && FieldOk(Text(n.basename)) && FieldOk(Text(n.eTag))
    ensures forall b :: FieldOk(Flag(b))
  {
    Power8();
  }

  lemma LayoutComesBack(n: Inode, lines: seq<nat>, handles: seq<nat>)
    requires InodeOk(n) && Orders(lines, n.cacheMap.Keys) && Orders(handles, n.fhSet)
    requires Shapes(Layout(n, lines, handles)) == SHAPES
    ensures FromFields(Layout(n, lines, handles)) == n.(mTime := Kept(n.mTime), xTime := Kept(n.xTime))
  {
    hide Shapes, MapOf, Interleaved;
    TimeRoundTrip(n.mTime);
    TimeRoundTrip(n.xTime);
    MapOfInterleaved(lines, n.cacheMap);
    assert MapOf(Interleaved(lines, n.cacheMap)) == n.cacheMap;
    assert SetOf(handles) == n.fhSet;
  }

  ghost function Packed(n: Inode, lines: seq<nat>, handles: seq<nat>): Str
    requires InodeOk(n) && Orders(lines, n.cacheMap.Keys) && Orders(handles, n.fhSet)
  {
    LayoutIsOk(n, lines, handles);
    WrittenAll(Layout(n, lines, handles))
  }

  /** Whatever orders the collections were packed in, and whatever follows, the inode comes back and its length is consumed. */
  lemma RoundTrip(n: Inode, lines: seq<nat>, handles: seq<nat>, rest: Str)
    requires InodeOk(n) && Orders(lines, n.cacheMap.Keys) && Orders(handles, n.fhSet)
    requires |Packed(n, lines, handles) + rest| < TWO_TO_THE_63
    ensures Unpacked(Packed(n, lines, handles) + rest)
      == Got(n.(mTime := Kept(n.mTime), xTime := Kept(n.xTime)), |Packed(n, lines, handles)|)
  {
    hide Layout, FromFields, WrittenAll, Shapes, InodeOk;
    LayoutIsOk(n, lines, handles);
    ReadAllWritten(Layout(n, lines, handles), rest);
    LayoutComesBack(n, lines, handles);
  }

  /** Every proper prefix of a packing is rejected. */
  lemma PrefixIsRejected(n: Inode, lines: seq<nat>, handles: seq<nat>, k: nat)
    requires InodeOk(n) && Orders(lines, n.cacheMap.Keys) && Orders(handles, n.fhSet)
    requires k < |Packed(n, lines, handles)| < TWO_TO_THE_63
    ensures Unpacked(Packed(n, lines, handles)[..k]) == Short
  {
    hide Layout, FromFields, WrittenAll, Shapes, InodeOk;
    LayoutIsOk(n, lines, handles);
    ReadAllCut(Layout(n, lines, handles), k);
  }

  /** An inode comes back unchanged from its packing exactly if neither of its times is the Unix epoch itself. */
  lemma ExactIff(n: Inode, lines: seq<nat>, handles: seq<nat>, rest: Str)
    requires InodeOk(n) && Orders(lines, n.cacheMap.Keys) && Orders(handles, n.fhSet)
    requires |Packed(n, lines, handles) + rest| < TWO_TO_THE_63
    ensures Unpacked(Packed(n, lines, handles) + rest) == Got(n, |Packed(n, lines, handles)|) <==> n.mTime != Unix(0) && n.xTime != Unix(0)
  {
    hide Packed, Unpacked, InodeOk, Orders;
    RoundTrip(n, lines, handles, rest);
    var kept := n.(mTime := Kept(n.mTime), xTime := Kept(n.xTime));
    assert kept.mTime == Kept(n.mTime) && kept.xTime == Kept(n.xTime);
  }

  /** A file modified at the Unix epoch: it comes back with no time at all. */
  lemma EpochIsLost(n: Inode, lines: seq<nat>, handles: seq<nat>, rest: Str)
    requires InodeOk(n) && Orders(lines, n.cacheMap.Keys) && Orders(handles, n.fhSet) && n.mTime == Unix(0)
    requires |Packed(n, lines, handles) + rest| < TWO_TO_THE_63
    ensures Unpacked(Packed(n, lines, handles) + rest).Got? && Unpacked(Packed(n, lines, handles) + rest).value.mTime == ZeroTime
  {
    hide Packed, Unpacked, InodeOk, Orders;
    RoundTrip(n, lines, handles, rest);
  }

  /** On bytes that are no packing, a string's length check lets exactly the lengths through that wrap. */
  lemma TextPanicsIff(s: Str, pos: nat)
    requires pos + 8 <= |s| < TWO_TO_THE_63
    ensures Read(TextOf, s, pos) == Panics <==> pos + 8 + Decode(s[pos..pos + 8]) >= TWO_TO_THE_64
  {
    hide Decode;
    Power8();
    DecodeFits(s[pos..pos + 8]);
  }

  lemma {:induction false} ReadNumbersIff(s: Str, pos: nat, count: nat)
    requires pos <= |s|
    ensures ReadNumbers(s, pos, count) != Short
    ensures ReadNumbers(s, pos, count).Got? <==> pos + 8 * count <= |s|
    ensures ReadNumbers(s, pos, count).Got? ==> ReadNumbers(s, pos, count).next == pos + 8 * count
  {
    hide Decode;
    if count > 0 {
      ReadNumbersIff(s, pos, count - 1);
    }
  }

  /** A collection's count likewise: the check lets exactly those counts through whose bytes are not there but whose uint64 sum wraps to what is. */
  lemma NumsPanicsIff(s: Str, pos: nat, stride: nat)
    requires pos + 8 <= |s| < TWO_TO_THE_63
    ensures var end := pos + 8 + Decode(s[pos..pos + 8]) * stride * 8;
      Read(NumsOf(stride), s, pos) == Panics <==> end % TWO_TO_THE_64 <= |s| < end
  {
    hide Decode, ReadNumbers;
    var n := Decode(s[pos..pos + 8]);
    ReadNumbersIff(s, pos + 8, n * stride);
  }

  // -------- Packing, in a buffer of the length worked out beforehand --------

  /** The sum at the top of PackValue. */
  function PackedLength(n: Inode): nat {
    8 + 4 + 8 + 8 + 1 + (8 + |n.objectPath|) + (8 + |n.basename|) + 8 + 8 + (8 + |n.eTag|) + 4 + 8 + 8 + 1
    + (8 + |n.cacheMap| * (8 + 8)) + 8 + 8 + 8 + (8 + |n.fhSet| * 8) + 1
  }

  lemma {:induction false} WrittenAppend(a: seq<Field>, b: seq<Field>)
    requires FieldsOk(a) && FieldsOk(b) && FieldsOk(a + b)
    ensures WrittenAll(a + b) == WrittenAll(a) + WrittenAll(b)
    decreases |b|
  {
    hide Written, FieldOk;
    if b == [] {
      assert a + b == a;
    } else {
      assert (a + b)[..|a + b| - 1] == a + b[..|b| - 1];
      WrittenAppend(a, b[..|b| - 1]);
    }
  }

  lemma WrittenFive(a: Field, b: Field, c: Field, d: Field, e: Field)
    requires FieldOk(a) && FieldOk(b) && FieldOk(c) && FieldOk(d) && FieldOk(e)
    ensures FieldsOk([a, b, c, d, e])
    ensures |WrittenAll([a, b, c, d, e])| == |Written(a)| + |Written(b)| + |Written(c)| + |Written(d)| + |Written(e)|
  {
    hide Written, FieldOk;
    assert [a, b, c, d, e][..4] == [a, b, c, d] && [a, b, c, d][..3] == [a, b, c] && [a, b, c][..2] == [a, b] && [a, b][..1] == [a];
    assert WrittenAll([a]) == Written(a);
    assert WrittenAll([a, b]) == WrittenAll([a]) + Written(b);
    assert WrittenAll([a, b, c]) == WrittenAll([a, b]) + Written(c);
    assert WrittenAll([a, b, c, d]) == WrittenAll([a, b, c]) + Written(d);
  }

  /** The sum is the length of what is written, so the length check at the end of PackValue never fails. */
  lemma LengthIsExact(n: Inode, lines: seq<nat>, handles: seq<nat>)
    requires InodeOk(n) && Orders(lines, n.cacheMap.Keys) && Orders(handles, n.fhSet)
    ensures |Packed(n, lines, handles)| == PackedLength(n)
  {
    hide WrittenAll, Encode, Numbers, Interleaved, TimeBits, InodeOk, FieldOk;
    LayoutIsOk(n, lines, handles);
    CollectionsFit(n, lines, handles);
    FlatFieldsFit(n);
    NumbersFit(n);
    var a := [Num(8, n.number), Num(4, n.kind), Num(8, n.backend), Num(8, n.parent), Flag(n.isVirt)];
    var b := [Text(n.objectPath), Text(n.basename), Num(8, n.sizeInBackend), Num(8, n.sizeInMemory), Text(n.eTag)];
    var c := [Num(4, n.mode), Num(8, TimeBits(n.mTime)), Num(8, TimeBits(n.xTime)), Flag(n.prefetching), Nums(2, Interleaved(lines, n.cacheMap))];
    var d := [Num(8, n.inbound), Num(8, n.outbound), Num(8, n.dirty), Nums(1, handles), Flag(n.pendingDelete)];
    WrittenFive(a[0], a[1], a[2], a[3], a[4]);
    WrittenFive(b[0], b[1], b[2], b[3], b[4]);
    WrittenFive(c[0], c[1], c[2], c[3], c[4]);
    WrittenFive(d[0], d[1], d[2], d[3], d[4]);
    WrittenParts(a, b, c, d);
    assert Layout(n, lines, handles) == a + b + c + d;
    assert |n.cacheMap.Keys| == |n.cacheMap|;
  }

  lemma NumbersFit(n: Inode)
    requires InodeOk(n)
    ensures n.number <= MAX_UINT64 && n.backend <= MAX_UINT64 && n.parent <= MAX_UINT64 && n.sizeInBackend <= MAX_UINT64
    ensures n.sizeInMemory <= MAX_UINT64 && n.inbound <= MAX_UINT64 && n.outbound <= MAX_UINT64 && n.dirty <= MAX_UINT64
    ensures TimeOk(n.mTime) && TimeOk(n.xTime)
  {
  }

  lemma WrittenParts(a: seq<Field>, b: seq<Field>, c: seq<Field>, d: seq<Field>)
    requires FieldsOk(a) && FieldsOk(b) && FieldsOk(c) && FieldsOk(d) && FieldsOk(a + b + c + d)
    ensures |WrittenAll(a + b + c + d)| == |WrittenAll(a)| + |WrittenAll(b)| + |WrittenAll(c)| + |WrittenAll(d)|
  {
    hide WrittenAll, FieldOk;
    WrittenAppend(a, b);
    WrittenAppend(a + b, c);
    WrittenAppend(a + b + c, d);
  }

  /** Put bytes in the buffer at the cursor. */
  method Put(buf: array<byte>, pos: nat, part: Str)
    requires pos + |part| <= buf.Length
    modifies buf
    ensures buf[..pos + |part|] == old(buf[..pos]) + part
  {
    forall i | 0 <= i < |part| {
      buf[pos + i] := part[i];
    }
  }

  /** The loop over a collection's elements. */
  method PutNumbers(buf: array<byte>, pos: nat, ns: seq<nat>) returns (next: nat)
    requires AllFit(ns) && pos + 8 * |ns| <= buf.Length
    modifies buf
    ensures next == pos + 8 * |ns| && buf[..next] == old(buf[..pos]) + Numbers(ns)
  {
    hide Number;
    next := pos;
    var i := 0;
    while i < |ns|
      invariant 0 <= i <= |ns| && next == pos + 8 * i && buf[..next] == old(buf[..pos]) + Numbers(ns[..i])
    {
      assert ns[..i + 1][..i] == ns[..i];
      Put(buf, next, Number(ns[i]));
      next := next + 8;
      i := i + 1;
    }
    assert ns[..i] == ns;
  }

  method PutField(buf: array<byte>, pos: nat, f: Field) returns (next: nat)
    requires FieldOk(f) && pos + |Written(f)| <= buf.Length
    modifies buf
    ensures next == pos + |Written(f)| && buf[..next] == old(buf[..pos]) + Written(f)
  {
    hide Number, Encode, Numbers;
    match f {
      case Num(width, n) =>
        Put(buf, pos, Encode(n, width));
        next := pos + width;
      case Flag(b) =>
        Put(buf, pos, if b then [1] else [0]);
        next := pos + 1;
      case Text(s) =>
        Put(buf, pos, Number(|s|));
        Put(buf, pos + 8, s);
        next := pos + 8 + |s|;
      case Nums(stride, ns) =>
        Put(buf, pos, Number(|ns| / stride));
        next := PutNumbers(buf, pos + 8, ns);
    }
  }

  /** PackValue. */
  method PackValue(n: Inode, lines: seq<nat>, handles: seq<nat>) returns (ok: bool, buf: array<byte>)
    requires InodeOk(n) && Orders(lines, n.cacheMap.Keys) && Orders(handles, n.fhSet)
    ensures ok && buf[..] == Packed(n, lines, handles)
  {
    hide Layout, WrittenAll, Written, PackedLength, InodeOk, FieldOk;
    LayoutIsOk(n, lines, handles);
    LengthIsExact(n, lines, handles);
    buf := new byte[PackedLength(n)];
    var fs, i := Layout(n, lines, handles), 0;
    var pos: nat := 0;
    NoShapes();
    while i < |fs|
      invariant 0 <= i <= |fs| && FieldsOk(fs[..i]) && pos <= buf.Length && buf[..pos] == WrittenAll(fs[..i])
    {
      StepFits(fs, i);
      pos := PutField(buf, pos, fs[i]);
      i := i + 1;
    }
    assert fs[..i] == fs;
    ok := PackedLength(n) == pos;
  }

  lemma StepFits(fs: seq<Field>, i: nat)
    requires FieldsOk(fs) && i < |fs|
    ensures FieldsOk(fs[..i]) && FieldsOk(fs[..i + 1]) && FieldOk(fs[i])
    ensures WrittenAll(fs[..i + 1]) == WrittenAll(fs[..i]) + Written(fs[i])
    ensures |WrittenAll(fs[..i + 1])| <= |WrittenAll(fs)|
  {
    hide Written, FieldOk, WrittenAll;
    LastField(fs[..i + 1]);
    assert fs[..i + 1][..i] == fs[..i];
    assert fs[..i + 1] + fs[i + 1..] == fs;
    WrittenAppend(fs[..i + 1], fs[i + 1..]);
  }

  // -------- Unpacking --------

  /** The loop over a collection's elements. */
  method GetNumbers(payload: Str, pos: nat, count: nat) returns (r: Outcome<seq<nat>>)
    ensures r == ReadNumbers(payload, pos, count)
  {
    var i := 0;
    r := Got([], pos);
    while i < count && r.Got?
      invariant 0 <= i <= count && r == ReadNumbers(payload, pos, i)
    {
      if |payload| < r.next + 8 {
        r := Panics;
      } else {
        r := Got(r.value + [Decode(payload[r.next..r.next + 8])], r.next + 8);
      }
      i := i + 1;
    }
    if !r.Got? {
      StaysBad(payload, pos, i, count);
    }
  }

  lemma {:induction false} StaysBad(payload: Str, pos: nat, i: nat, count: nat)
    requires i <= count && !ReadNumbers(payload, pos, i).Got?
    ensures ReadNumbers(payload, pos, count) == ReadNumbers(payload, pos, i)
    decreases count
  {
    if i < count {
      StaysBad(payload, pos, i, count - 1);
    }
  }

  /** UnpackValue: the fields one after the other, each where the one before ended. */
  method UnpackValue(payload: Str) returns (r: Outcome<Inode>)
    ensures r == Unpacked(payload)
  {
    hide FromFields, Decode, ReadNumbers;
    var i := 0;
    var got: Outcome<seq<Field>> := Got([], 0);
    while i < |SHAPES| && got.Got?
      invariant 0 <= i <= |SHAPES| && got == ReadAll(SHAPES[..i], payload)
    {
      assert SHAPES[..i + 1][..i] == SHAPES[..i];
      var f := GetField(SHAPES[i], payload, got.next);
      got := match f
        case Got(v, next) => Got(got.value + [v], next)
        case Short => Short
        case Panics => Panics;
      i := i + 1;
    }
    if !got.Got? {
      FailsForGood(SHAPES, i, payload);
    }
    assert SHAPES[..|SHAPES|] == SHAPES;
    ReadKeepsShapes(SHAPES, payload);
    r := match got
      case Got(fs, next) => Got(FromFields(fs), next)
      case Short => Short
      case Panics => Panics;
  }

  lemma {:induction false} FailsForGood(shapes: seq<Shape>, i: nat, payload: Str)
    requires i <= |shapes| && !ReadAll(shapes[..i], payload).Got?
    ensures ReadAll(shapes, payload) == ReadAll(shapes[..i], payload)
    decreases |shapes|
  {
    hide Read;
    if i < |shapes| {
      assert shapes[..|shapes| - 1][..i] == shapes[..i];
      FailsForGood(shapes[..|shapes| - 1], i, payload);
    } else {
      assert shapes[..i] == shapes;
    }
  }

  method GetField(shape: Shape, payload: Str, pos: nat) returns (r: Outcome<Field>)
    ensures r == Read(shape, payload, pos)
  {
    hide Decode, ReadNumbers;
    match shape {
      case NumOf(width) =>
        if |payload| < pos + width {
          return Short;
        }
        r := Got(Num(width, Decode(payload[pos..pos + width])), pos + width);
      case FlagOf =>
        if |payload| < pos + 1 {
          return Short;
        }
        r := Got(Flag(payload[pos] == 1), pos + 1);
      case TextOf =>
        if |payload| < pos + 8 {
          return Short;
        }
        var n, at := Decode(payload[pos..pos + 8]), pos + 8;
        if |payload| < (at + n) % TWO_TO_THE_64 {
          return Short;
        }
        r := if |payload| < at + n then Panics else Got(Text(payload[at..at + n]), at + n);
      case NumsOf(stride) =>
        if |payload| < pos + 8 {
          return Short;
        }
        var n, at := Decode(payload[pos..pos + 8]), pos + 8;
        if |payload| < (at + n * stride * 8) % TWO_TO_THE_64 {
          return Short;
        }
        var ns := GetNumbers(payload, at, n * stride);
        r := match ns
          case Got(v, next) => Got(Nums(stride, v), next)
          case _ => Panics;
    }
  }
}
