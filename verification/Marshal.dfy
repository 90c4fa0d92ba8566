/**
Marshalling of a heap graph with sharing and cycles. The writer walks the graph with an
explicit stack and numbers objects as it meets them; the reader numbers the objects it
allocates in the same order, so that a back-reference names the same object on both sides.
*/
module Marshal {
  import opened Options
  import opened Arithmetic
  import opened PositionTable
  import Graph = ReachableWords

  // ----- Objects and codes ---------------------------------------------------

  const DOUBLE_TAG: nat := 253
  const DOUBLE_ARRAY_TAG: nat := 254
  const STRING_TAG: nat := 252

  /** Abstract blocks and continuations are refused. */
  type RefusedTag = t: nat | t == 251 || t == 245 witness 251

  /** An object of the heap or of its copy; floats are their 64 bits. */
  datatype Object<+V> =
    | Str(bytes: seq<nat>)
    | Dbl(bits: nat)
    | DblArray(floats: seq<nat>)
    | Block(tag: nat, fields: seq<V>)
    | Abstract(refused: RefusedTag, words: nat)

  function Wosize<V>(o: Object<V>): nat {
    match o
    case Str(bytes) => (|bytes| + 8) / 8
    case Dbl(_) => 1
    case DblArray(floats) => |floats|
    case Block(_, fields) => |fields|
    case Abstract(_, words) => words
  }

  function Tag<V>(o: Object<V>): nat {
    match o
    case Str(_) => STRING_TAG
    case Dbl(_) => DOUBLE_TAG
    case DblArray(_) => DOUBLE_ARRAY_TAG
    case Block(tag, _) => tag
    case Abstract(refused, _) => refused
  }

  function Fields<V>(o: Object<V>): seq<V> {
    if o.Block? then o.fields else []
  }

  /** Tags of blocks that are written field by field; the others have forms of their own. */
  predicate Ordinary(tag: nat) {
    tag <= 244 || tag == 246
  }

  type HeapObject = o: Object<Value> | o.Block? ==> Ordinary(o.tag) witness Dbl(0)

  type Heap = map<nat, HeapObject>

  ghost predicate Closed(h: Heap) {
    forall a, i :: a in h && 0 <= i < |Fields(h[a])| && Fields(h[a])[i].Ptr? ==> Fields(h[a])[i].addr in h
  }

  ghost predicate InHeap(h: Heap, v: Value) {
    v.Ptr? ==> v.addr in h
  }

  /** What is written for one item, the width of the encoding left aside. */
  datatype Code =
    | NullCode
    | IntCode(n: int)
    | SharedCode(ref: nat)
    | HeaderCode(tag: nat, size: nat)
    | StringCode(bytes: seq<nat>)
    | DoubleCode(bits: nat)
    | DoubleArrayCode(floats: seq<nat>)

  predicate Bytes(s: seq<nat>) {
    forall i :: 0 <= i < |s| ==> s[i] < 256
  }

  predicate Words(s: seq<nat>) {
    forall i :: 0 <= i < |s| ==> s[i] < WORD
  }

  predicate IntFits(n: int) {
    -0x4000_0000_0000_0000 <= n < 0x4000_0000_0000_0000
  }

  predicate HeaderFits(tag: nat, size: nat) {
    tag < 256 && size < 0x4000_0000_0000
  }

  /** The numbers of a code are in the range of the machine: 63-bit integers, 64-bit floats and references, 46-bit sizes. */
  predicate Fits(c: Code) {
    match c
    case NullCode => true
    case IntCode(n) => IntFits(n)
    case SharedCode(r) => r < WORD
    case HeaderCode(tag, size) => HeaderFits(tag, size)
    case StringCode(bytes) => Bytes(bytes) && |bytes| < WORD
    case DoubleCode(bits) => bits < WORD
    case DoubleArrayCode(floats) => Words(floats) && |floats| < WORD
  }

  predicate ValueFits(v: Value) {
    v.Int? ==> IntFits(v.n)
  }

  predicate ObjectFits(o: Object<Value>) {
    && HeaderFits(Tag(o), Wosize(o))
    && match o
       case Str(bytes) => Bytes(bytes)
       case Dbl(bits) => bits < WORD
       case DblArray(floats) => Words(floats)
       case Block(_, fields) => forall i :: 0 <= i < |fields| ==> ValueFits(fields[i])
       case Abstract(_, _) => true
  }

  /** The heap is one the machine can hold. */
  ghost predicate MachineHeap(h: Heap, v: Value) {
    ValueFits(v) && |h| < WORD && forall a :: a in h ==> ObjectFits(h[a])
  }

  ghost predicate AllFit(codes: seq<Code>) {
    forall k :: 0 <= k < |codes| ==> Fits(codes[k])
  }

  /** Tags and sizes in the header: strings are padded to whole words, at least one byte of padding. */
  lemma HeaderTable(o: HeapObject)
    ensures o.Str? ==> Tag(o) == 252 && 8 * (Wosize(o) - 1) <= |o.bytes| < 8 * Wosize(o)
    ensures o.Dbl? ==> Tag(o) == 253 && Wosize(o) == 1
    ensures o.DblArray? ==> Tag(o) == 254 && Wosize(o) == |o.floats|
    ensures o.Block? ==> Tag(o) == o.tag < 256 && o.tag !in {245, 247, 248, 249, 250, 251, 252, 253, 254, 255} && Wosize(o) == |o.fields|
    ensures o.Abstract? ==> Tag(o) in {245, 251} && Wosize(o) == o.words
  {
  }

  /** All other tags are those of blocks that are written field by field. */
  lemma OrdinaryTags(tag: nat)
    ensures Ordinary(tag) <==> tag < 256 && tag !in {245, 247, 248, 249, 250, 251, 252, 253, 254, 255}
  {
  }

  /** An integer fits when the word with its tag bit is one of 64 bits; an object when its header and contents do. */
  lemma MachineNumbers(n: int, tag: nat, size: nat)
    ensures IntFits(n) <==> -0x8000_0000_0000_0000 <= 2 * n + 1 < 0x8000_0000_0000_0000
    ensures HeaderFits(tag, size) <==> tag < 0x100 && size * 0x400 + 0x3FF < 0x100_0000_0000_0000
    ensures HeaderFits(tag, size) && (tag == 251 || tag == 245) ==> ObjectFits(Abstract(tag, size))
  {
  }

  /** How a reference to object number `pos` is written when `count` objects are known. */
  function Reference(compressed: bool, count: nat, pos: nat): nat
    requires pos < count
  {
    if compressed then pos else count - pos
  }

  // ----- The reader ----------------------------------------------------------

  /** A value of the rebuilt heap, whose objects are numbered. */
  datatype Image = Hole | NullImage | IntImage(n: int) | Atom(tag: nat) | Ref(obj: nat)

  /** A place that waits for its value: the result, or a field of an object. */
  datatype Slot = Root | Field(obj: nat, i: nat)

  /** The reader's state; `todo` lists the places to fill in the order of filling. */
  datatype Rebuild = Rebuild(root: Image, objs: seq<Object<Image>>, todo: seq<Slot>)

  function SlotsFrom(obj: nat, first: nat, count: nat): seq<Slot> {
    seq(count, k requires 0 <= k => Field(obj, first + k))
  }

  ghost predicate SlotIn(objs: seq<Object<Image>>, s: Slot) {
    s.Field? ==> s.obj < |objs| && s.i < |Fields(objs[s.obj])|
  }

  function SetField(o: Object<Image>, i: nat, w: Image): Object<Image>
    requires i < |Fields(o)|
  {
    Block(o.tag, o.fields[i := w])
  }

  /** Store `w` at the first place of the agenda. */
  function Fill(d: Rebuild, w: Image): Rebuild
    requires d.todo != [] && SlotIn(d.objs, d.todo[0])
  {
    match d.todo[0]
    case Root => Rebuild(w, d.objs, d.todo[1..])
    case Field(j, i) => Rebuild(d.root, d.objs[j := SetField(d.objs[j], i, w)], d.todo[1..])
  }

  /** Allocate `o`, enter it in the object table and store it at the first place of the agenda. */
  function Allocate(d: Rebuild, o: Object<Image>): Rebuild
    requires d.todo != [] && SlotIn(d.objs, d.todo[0])
  {
    var d' := Fill(d, Ref(|d.objs|));
    d'.(objs := d'.objs + [o])
  }

  /** Read one code; `None` for a reference that is out of range. */
  function Read(compressed: bool, d: Rebuild, c: Code): Option<Rebuild>
    requires d.todo != [] && SlotIn(d.objs, d.todo[0])
  {
    match c
    case NullCode => Some(Fill(d, NullImage))
    case IntCode(n) => Some(Fill(d, IntImage(n)))
    case SharedCode(r) =>
      var ofs := if compressed then r else |d.objs| - r;
      if 0 <= ofs < |d.objs| then Some(Fill(d, Ref(ofs))) else None
    case HeaderCode(tag, size) =>
      if size == 0 then Some(Fill(d, Atom(tag)))
      else
        var d' := Allocate(d, Block(tag, seq(size, i => Hole)));
        Some(d'.(todo := SlotsFrom(|d.objs|, 0, size) + d'.todo))
    case StringCode(bytes) => Some(Allocate(d, Str(bytes)))
    case DoubleCode(bits) => Some(Allocate(d, Dbl(bits)))
    case DoubleArrayCode(floats) => Some(Allocate(d, DblArray(floats)))
  }

  ghost predicate Sound(d: Rebuild) {
    forall k :: 0 <= k < |d.todo| ==> SlotIn(d.objs, d.todo[k])
  }

  /** Reading keeps every place of the agenda a place that exists. */
  lemma ReadSound(compressed: bool, d: Rebuild, c: Code)
    requires Sound(d) && d.todo != []
    ensures Read(compressed, d, c).Some? ==> Sound(Read(compressed, d, c).value)
  {
    assert SlotIn(d.objs, d.todo[0]);
    hide Fill;
    match c
    case NullCode => FillSound(d, NullImage);
    case IntCode(n) => FillSound(d, IntImage(n));
    case SharedCode(r) =>
      var ofs := if compressed then r else |d.objs| - r;
      if 0 <= ofs < |d.objs| { FillSound(d, Ref(ofs)); }
    case HeaderCode(tag, size) =>
      FillSound(d, Atom(tag));
      AllocateSound(d, Block(tag, seq(size, i => Hole)), size);
    case StringCode(bytes) => AllocateSound(d, Str(bytes), 0);
    case DoubleCode(bits) => AllocateSound(d, Dbl(bits), 0);
    case DoubleArrayCode(floats) => AllocateSound(d, DblArray(floats), 0);
  }

  lemma FillSound(d: Rebuild, w: Image)
    requires Sound(d) && d.todo != []
    ensures Sound(Fill(d, w))
  {
  }

  lemma AllocateSound(d: Rebuild, o: Object<Image>, n: nat)
    requires Sound(d) && d.todo != [] && n <= |Fields(o)|
    ensures var d' := Allocate(d, o); Sound(d') && Sound(d'.(todo := SlotsFrom(|d.objs|, 0, n) + d'.todo))
  {
    FillSound(d, Ref(|d.objs|));
    FillKeeps(d, Ref(|d.objs|));
    hide Fill;
  }

  lemma FillKeeps(d: Rebuild, w: Image)
    requires Sound(d) && d.todo != []
    ensures |Fill(d, w).objs| == |d.objs|
  {
  }

  /** The state after all of `codes`; `None` when one is out of range or left over. */
  function ReadAll(compressed: bool, codes: seq<Code>): (d: Option<Rebuild>)
    ensures d.Some? ==> Sound(d.value)
  {
    if codes == [] then Some(Rebuild(Hole, [], [Root]))
    else
      var n := |codes| - 1;
      var d := ReadAll(compressed, codes[..n]);
      if d.None? || d.value.todo == [] then None
      else
        ReadSound(compressed, d.value, codes[n]);
        Read(compressed, d.value, codes[n])
  }

  // ----- The writer's agenda -------------------------------------------------

  /** The value at a place of the heap that is written; here objects go by their address. */
  function At(h: Heap, v: Value, s: Slot): Value
    requires s.Field? ==> s.obj in h && s.i < |Fields(h[s.obj])|
  {
    match s
    case Root => v
    case Field(a, i) => Fields(h[a])[i]
  }

  /** The code for `v`, when `count` objects have been written before, `v` as number `pos` if at all. */
  function CodeFor(h: Heap, compressed: bool, count: nat, pos: Option<nat>, v: Value): Option<Code>
    requires InHeap(h, v) && (pos.Some? ==> pos.value < count)
  {
    match v
    case Null => Some(NullCode)
    case Int(n) => Some(IntCode(n))
    case Ptr(a) =>
      if Wosize(h[a]) == 0 then Some(HeaderCode(Tag(h[a]), 0))
      else if pos.Some? then Some(SharedCode(Reference(compressed, count, pos.value)))
      else match h[a]
        case Str(bytes) => Some(StringCode(bytes))
        case Dbl(bits) => Some(DoubleCode(bits))
        case DblArray(floats) => Some(DoubleArrayCode(floats))
        case Block(tag, fields) => Some(HeaderCode(tag, |fields|))
        case Abstract(_, _) => None
  }

  // ----- When the two sides agree --------------------------------------------

  ghost predicate Distinct(order: seq<nat>) {
    forall i, j :: 0 <= i < j < |order| ==> order[i] != order[j]
  }

  /** `w` stands for `v`, when object number `i` of the image stands for the block `order[i]`. */
  ghost predicate Stands(h: Heap, order: seq<nat>, v: Value, w: Image) {
    match v
    case Null => w == NullImage
    case Int(n) => w == IntImage(n)
    case Ptr(a) =>
      a in h && if Wosize(h[a]) == 0 then w == Atom(Tag(h[a])) else w.Ref? && w.obj < |order| && order[w.obj] == a
  }

  /** Object `o` stands for `b`, the fields that are still to be filled left aside. */
  ghost predicate Resembles(h: Heap, order: seq<nat>, todo: seq<Slot>, a: nat, b: Object<Value>, o: Object<Image>) {
    match b
    case Str(bytes) => o == Str(bytes)
    case Dbl(bits) => o == Dbl(bits)
    case DblArray(floats) => o == DblArray(floats)
    case Block(tag, fields) =>
      && o.Block? && o.tag == tag && |o.fields| == |fields|
      && forall i :: 0 <= i < |fields| && Field(a, i) !in todo ==> Stands(h, order, fields[i], o.fields[i])
    case Abstract(_, _) => false
  }

  ghost predicate SameSlot(order: seq<nat>, s: Slot, t: Slot) {
    match s
    case Root => t == Root
    case Field(a, i) => t.Field? && t.obj < |order| && order[t.obj] == a && t.i == i
  }

  ghost predicate SameAgenda(order: seq<nat>, todo: seq<Slot>, todo': seq<Slot>) {
    |todo| == |todo'| && forall k :: 0 <= k < |todo| ==> SameSlot(order, todo[k], todo'[k])
  }

  ghost predicate SameObjects(h: Heap, order: seq<nat>, todo: seq<Slot>, objs: seq<Object<Image>>) {
    && |objs| == |order|
    && forall j :: 0 <= j < |order| ==> order[j] in h && Resembles(h, order, todo, order[j], h[order[j]], objs[j])
  }

  /** What has been read is a faithful copy of what has been written. */
  ghost predicate Agree(h: Heap, v: Value, order: seq<nat>, todo: seq<Slot>, d: Rebuild) {
    && Distinct(order)
    && SameAgenda(order, todo, d.todo)
    && SameObjects(h, order, todo, d.objs)
    && (Root !in todo ==> Stands(h, order, v, d.root))
  }

  ghost predicate AgendaInHeap(h: Heap, todo: seq<Slot>) {
    forall k :: 0 <= k < |todo| && todo[k].Field? ==> todo[k].obj in h && todo[k].i < |Fields(h[todo[k].obj])|
  }

  lemma ResemblesOn(h: Heap, order: seq<nat>, todo: seq<Slot>, todo': seq<Slot>, a: nat, x: nat, b: Object<Value>, o: Object<Image>)
    requires Resembles(h, order, todo, a, b, o) && forall s :: s in todo ==> s in todo'
    ensures Resembles(h, order + [x], todo', a, b, o)
  {
  }

  /** Filling the first place of the agenda with an image of the value there. */
  lemma FillAgrees(h: Heap, v: Value, order: seq<nat>, todo: seq<Slot>, d: Rebuild, w: Image)
    requires Agree(h, v, order, todo, d) && todo != [] && AgendaInHeap(h, todo)
    requires SlotIn(d.objs, d.todo[0]) && Stands(h, order, At(h, v, todo[0]), w)
    ensures Agree(h, v, order, todo[1..], Fill(d, w))
  {
    var d', s := Fill(d, w), todo[0];
    assert SameSlot(order, s, d.todo[0]);
    forall j | 0 <= j < |order| ensures Resembles(h, order, todo[1..], order[j], h[order[j]], d'.objs[j]) {
      assert Resembles(h, order, todo, order[j], h[order[j]], d.objs[j]);
      FillResembles(h, order, todo, order[j], h[order[j]], d.objs[j], d'.objs[j], w);
    }
  }

  lemma FillResembles(h: Heap, order: seq<nat>, todo: seq<Slot>, a: nat, b: Object<Value>, o: Object<Image>, o': Object<Image>, w: Image)
    requires todo != [] && Resembles(h, order, todo, a, b, o)
    requires todo[0].Field? && todo[0].obj == a ==>
      todo[0].i < |Fields(b)| && Stands(h, order, Fields(b)[todo[0].i], w) && o' == SetField(o, todo[0].i, w)
    requires !(todo[0].Field? && todo[0].obj == a) ==> o' == o
    ensures Resembles(h, order, todo[1..], a, b, o')
  {
    assert forall s :: s in todo ==> s == todo[0] || s in todo[1..];
  }

  /** A new object is known on both sides, and its fields wait behind the first place. */
  lemma Enlarge(h: Heap, v: Value, order: seq<nat>, todo: seq<Slot>, d: Rebuild, a: nat, o: Object<Image>, n: nat)
    requires Agree(h, v, order, todo, d) && todo != [] && a in h && a !in order
    requires Resembles(h, order + [a], SlotsFrom(a, 0, n), a, h[a], o)
    ensures Agree(h, v, order + [a], [todo[0]] + SlotsFrom(a, 0, n) + todo[1..],
                  Rebuild(d.root, d.objs + [o], [d.todo[0]] + SlotsFrom(|d.objs|, 0, n) + d.todo[1..]))
  {
    var order', todo' := order + [a], [todo[0]] + SlotsFrom(a, 0, n) + todo[1..];
    assert forall s :: s in todo ==> s == todo[0] || s in todo[1..];
    assert forall s :: s in todo ==> s in todo';
    forall j | 0 <= j < |order'| ensures order'[j] in h && Resembles(h, order', todo', order'[j], h[order'[j]], (d.objs + [o])[j]) {
      if j < |order| {
        assert Resembles(h, order, todo, order[j], h[order[j]], d.objs[j]);
        ResemblesOn(h, order, todo, todo', order[j], a, h[order[j]], d.objs[j]);
      }
    }
    EnlargeAgenda(order, todo, d.todo, a, n);
  }

  lemma EnlargeAgenda(order: seq<nat>, todo: seq<Slot>, todo': seq<Slot>, a: nat, n: nat)
    requires SameAgenda(order, todo, todo') && todo != []
    ensures SameAgenda(order + [a], [todo[0]] + SlotsFrom(a, 0, n) + todo[1..], [todo'[0]] + SlotsFrom(|order|, 0, n) + todo'[1..])
  {
    var t, t' := [todo[0]] + SlotsFrom(a, 0, n) + todo[1..], [todo'[0]] + SlotsFrom(|order|, 0, n) + todo'[1..];
    forall k | 0 <= k < |t| ensures SameSlot(order + [a], t[k], t'[k]) {
      if k == 0 { assert SameSlot(order, todo[0], todo'[0]); }
      else if k > n { assert SameSlot(order, todo[k - n], todo'[k - n]); }
    }
  }

  /** Allocating the image of a block that was not written before. */
  lemma AllocateAgrees(h: Heap, v: Value, order: seq<nat>, todo: seq<Slot>, d: Rebuild, a: nat, o: Object<Image>)
    requires Agree(h, v, order, todo, d) && todo != [] && AgendaInHeap(h, todo)
    requires Sound(d) && At(h, v, todo[0]) == Ptr(a)
    requires a in h && Wosize(h[a]) > 0 && a !in order
    requires Resembles(h, order + [a], SlotsFrom(a, 0, |Fields(h[a])|), a, h[a], o)
    ensures Agree(h, v, order + [a], SlotsFrom(a, 0, |Fields(h[a])|) + todo[1..],
                  Allocate(d, o).(todo := SlotsFrom(|d.objs|, 0, |Fields(h[a])|) + d.todo[1..]))
  {
    hide Agree, SlotsFrom, AgendaInHeap, Fill, Resembles, Sound, SlotIn, Allocate;
    AgreeCounts(h, v, order, todo, d);
    var n := |Fields(h[a])|;
    var todo1 := [todo[0]] + SlotsFrom(a, 0, n) + todo[1..];
    var d1 := Rebuild(d.root, d.objs + [o], [d.todo[0]] + SlotsFrom(|d.objs|, 0, n) + d.todo[1..]);
    Enlarge(h, v, order, todo, d, a, o, n);
    AgendaLater(h, todo, a);
    FillLater(d, o, n);
    assert Stands(h, order + [a], Ptr(a), Ref(|order|));
    FillAgrees(h, v, order + [a], todo1, d1, Ref(|order|));
    assert todo1[1..] == SlotsFrom(a, 0, n) + todo[1..];
  }

  lemma AgreeCounts(h: Heap, v: Value, order: seq<nat>, todo: seq<Slot>, d: Rebuild)
    requires Agree(h, v, order, todo, d)
    ensures |d.objs| == |order| && |d.todo| == |todo|
  {
  }

  lemma AgendaLater(h: Heap, todo: seq<Slot>, a: nat)
    requires AgendaInHeap(h, todo) && todo != [] && a in h
    ensures AgendaInHeap(h, [todo[0]] + SlotsFrom(a, 0, |Fields(h[a])|) + todo[1..])
    ensures AgendaInHeap(h, SlotsFrom(a, 0, |Fields(h[a])|) + todo[1..]) && AgendaInHeap(h, todo[1..])
  {
  }

  lemma FillLater(d: Rebuild, o: Object<Image>, n: nat)
    requires d.todo != [] && Sound(d)
    ensures SlotIn(d.objs, d.todo[0]) && SlotIn(d.objs + [o], d.todo[0])
    ensures var d1 := Rebuild(d.root, d.objs + [o], [d.todo[0]] + SlotsFrom(|d.objs|, 0, n) + d.todo[1..]);
      Fill(d1, Ref(|d.objs|)) == Allocate(d, o).(todo := SlotsFrom(|d.objs|, 0, n) + d.todo[1..])
  {
    var d1 := Rebuild(d.root, d.objs + [o], [d.todo[0]] + SlotsFrom(|d.objs|, 0, n) + d.todo[1..]);
    assert d1.todo[1..] == SlotsFrom(|d.objs|, 0, n) + d.todo[1..];
  }

  // ----- One item ------------------------------------------------------------

  /** The agenda after writing the item at its head. */
  function After(h: Heap, order: seq<nat>, todo: seq<Slot>, v: Value): seq<Slot>
    requires todo != [] && InHeap(h, v)
  {
    if v.Ptr? && v.addr !in order then SlotsFrom(v.addr, 0, |Fields(h[v.addr])|) + todo[1..] else todo[1..]
  }

  function OrderAfter(h: Heap, order: seq<nat>, v: Value): seq<nat>
    requires InHeap(h, v)
  {
    if v.Ptr? && Wosize(h[v.addr]) > 0 && v.addr !in order then order + [v.addr] else order
  }

  /** Where `x` stands among the objects written, if it does. */
  ghost predicate Position(order: seq<nat>, x: Value, pos: Option<nat>) {
    && (pos.Some? ==> pos.value < |order| && x == Ptr(order[pos.value]))
    && (pos.None? && x.Ptr? ==> x.addr !in order)
  }

  /** The reader makes of the code for an item what the writer made of the item. */
  lemma ItemAgrees(h: Heap, compressed: bool, v: Value, order: seq<nat>, todo: seq<Slot>, d: Rebuild, x: Value, pos: Option<nat>)
    requires Agree(h, v, order, todo, d) && todo != [] && AgendaInHeap(h, todo) && Sound(d) && |d.todo| > 0
    requires SlotIn(d.objs, d.todo[0]) && x == At(h, v, todo[0]) && InHeap(h, x) && Position(order, x, pos)
    requires CodeFor(h, compressed, |order|, pos, x).Some?
    ensures var r := Read(compressed, d, CodeFor(h, compressed, |order|, pos, x).value);
      r.Some? && Agree(h, v, OrderAfter(h, order, x), After(h, order, todo, x), r.value)
  {
    hide Fill, SlotsFrom, Agree, Read, AgendaInHeap, Sound, SlotIn;
    if x.Ptr? && pos.None? && Wosize(h[x.addr]) > 0 {
      NewItemAgrees(h, compressed, v, order, todo, d, x.addr);
    } else {
      OldItemAgrees(h, compressed, v, order, todo, d, x, pos);
      if x.Ptr? && x.addr !in order { NoSlots(x.addr); }
      assert [] + todo[1..] == todo[1..];
    }
  }

  lemma NoSlots(a: nat)
    ensures SlotsFrom(a, 0, 0) == []
  {
  }

  /** What the reader stores for an item that adds no object. */
  function ImageOf(h: Heap, x: Value, pos: Option<nat>): Image
    requires InHeap(h, x) && (x.Ptr? && Wosize(h[x.addr]) > 0 ==> pos.Some?)
  {
    match x
    case Null => NullImage
    case Int(n) => IntImage(n)
    case Ptr(a) => if Wosize(h[a]) == 0 then Atom(Tag(h[a])) else Ref(pos.value)
  }

  lemma ImageStands(h: Heap, order: seq<nat>, x: Value, pos: Option<nat>)
    requires InHeap(h, x) && (x.Ptr? && Wosize(h[x.addr]) > 0 ==> pos.Some?) && Position(order, x, pos)
    ensures Stands(h, order, x, ImageOf(h, x, pos))
  {
  }

  /** The reader fills in that image. */
  lemma ReadOld(h: Heap, compressed: bool, count: nat, d: Rebuild, x: Value, pos: Option<nat>)
    requires d.todo != [] && SlotIn(d.objs, d.todo[0]) && InHeap(h, x) && |d.objs| == count
    requires (pos.Some? ==> pos.value < count) && (x.Ptr? && Wosize(h[x.addr]) > 0 ==> pos.Some?)
    ensures var c := CodeFor(h, compressed, count, pos, x);
      c.Some? && Read(compressed, d, c.value) == Some(Fill(d, ImageOf(h, x, pos)))
  {
    hide Fill, SlotIn, Allocate, SlotsFrom;
  }

  /** The same for an item that adds no object. */
  lemma OldItemAgrees(h: Heap, compressed: bool, v: Value, order: seq<nat>, todo: seq<Slot>, d: Rebuild, x: Value, pos: Option<nat>)
    requires Agree(h, v, order, todo, d) && todo != [] && AgendaInHeap(h, todo) && |d.todo| > 0
    requires SlotIn(d.objs, d.todo[0]) && x == At(h, v, todo[0]) && InHeap(h, x) && Position(order, x, pos)
    requires pos.None? && x.Ptr? ==> Wosize(h[x.addr]) == 0
    ensures var c := CodeFor(h, compressed, |order|, pos, x);
      c.Some? && Read(compressed, d, c.value).Some? && Agree(h, v, order, todo[1..], Read(compressed, d, c.value).value)
  {
    hide Agree, Fill, AgendaInHeap, Read, CodeFor, Stands, SlotIn, At, ImageOf;
    AgreeCounts(h, v, order, todo, d);
    ReadOld(h, compressed, |order|, d, x, pos);
    ImageStands(h, order, x, pos);
    FillAgrees(h, v, order, todo, d, ImageOf(h, x, pos));
  }

  /** The new object of the reader for a block, its fields still empty. */
  function Fresh(b: Object<Value>): Object<Image> {
    match b
    case Str(bytes) => Str(bytes)
    case Dbl(bits) => Dbl(bits)
    case DblArray(floats) => DblArray(floats)
    case Block(tag, fields) => Block(tag, seq(|fields|, i => Hole))
    case Abstract(refused, n) => Abstract(refused, n)
  }

  lemma FreshResembles(h: Heap, order: seq<nat>, a: nat, b: Object<Value>)
    requires !b.Abstract?
    ensures Resembles(h, order, SlotsFrom(a, 0, |Fields(b)|), a, b, Fresh(b))
  {
    assert forall i :: 0 <= i < |Fields(b)| ==> SlotsFrom(a, 0, |Fields(b)|)[i] == Field(a, i);
  }

  lemma ReadFresh(h: Heap, compressed: bool, order: seq<nat>, d: Rebuild, a: nat)
    requires d.todo != [] && SlotIn(d.objs, d.todo[0])
    requires a in h && Wosize(h[a]) > 0 && !h[a].Abstract?
    ensures Read(compressed, d, CodeFor(h, compressed, |order|, None, Ptr(a)).value)
         == Some(Allocate(d, Fresh(h[a])).(todo := SlotsFrom(|d.objs|, 0, |Fields(h[a])|) + d.todo[1..]))
  {
    assert Allocate(d, Fresh(h[a])).todo == d.todo[1..];
    assert SlotsFrom(|d.objs|, 0, 0) + d.todo[1..] == d.todo[1..];
  }

  lemma NewItemAgrees(h: Heap, compressed: bool, v: Value, order: seq<nat>, todo: seq<Slot>, d: Rebuild, a: nat)
    requires Agree(h, v, order, todo, d) && todo != [] && AgendaInHeap(h, todo) && Sound(d)
    requires SlotIn(d.objs, d.todo[0])
    requires At(h, v, todo[0]) == Ptr(a) && a in h && Wosize(h[a]) > 0 && a !in order && !h[a].Abstract?
    ensures var r := Read(compressed, d, CodeFor(h, compressed, |order|, None, Ptr(a)).value);
      r.Some? && Agree(h, v, order + [a], SlotsFrom(a, 0, |Fields(h[a])|) + todo[1..], r.value)
  {
    hide Read, Agree, Resembles, SlotsFrom, Fill;
    AgreeCounts(h, v, order, todo, d);
    FreshResembles(h, order + [a], a, h[a]);
    AllocateAgrees(h, v, order, todo, d, a, Fresh(h[a]));
    ReadFresh(h, compressed, order, d, a);
  }

  // ----- What is to be written -----------------------------------------------

  /** The heap as a graph of blocks, each with its size and header. */
  ghost function Shape(h: Heap): Graph.Heap {
    map a | a in h :: Graph.Node(1 + Wosize(h[a]), Fields(h[a]))
  }

  ghost predicate Reached(h: Heap, v: Value, a: nat) {
    v.Ptr? && (v.addr == a || Graph.Reaches(Shape(h), {}, v.addr, a))
  }

  /** The blocks that marshalling `v` must write: those with a body that it reaches. */
  ghost function Content(h: Heap, v: Value): set<nat> {
    set a | a in h && Reached(h, v, a) && Wosize(h[a]) > 0
  }

  ghost predicate Marshallable(h: Heap, v: Value) {
    forall a :: a in Content(h, v) ==> !h[a].Abstract?
  }

  ghost function Members(order: seq<nat>): set<nat> {
    set a | a in order
  }

  /** All that was written or waits is reached from the value. */
  ghost predicate Relevant(h: Heap, v: Value, order: seq<nat>, todo: seq<Slot>) {
    && AgendaInHeap(h, todo)
    && (forall k :: 0 <= k < |todo| && todo[k].Field? ==> Reached(h, v, todo[k].obj))
    && (forall a :: a in order ==> a in Content(h, v))
  }

  lemma ReachedOn(h: Heap, v: Value, a: nat, i: nat)
    requires Closed(h) && a in h && Reached(h, v, a) && i < |Fields(h[a])| && Fields(h[a])[i].Ptr?
    ensures Reached(h, v, Fields(h[a])[i].addr)
  {
    var b := Fields(h[a])[i].addr;
    assert Ptr(b) in Shape(h)[a].fields;
    assert Graph.Edge(Shape(h), a, b);
    if v.addr == a { Graph.ReachesEdge(Shape(h), {}, a, b); } else { Graph.ReachesOn(Shape(h), {}, v.addr, a, b); }
  }

  lemma ReachedAt(h: Heap, v: Value, order: seq<nat>, todo: seq<Slot>)
    requires Closed(h) && InHeap(h, v) && Relevant(h, v, order, todo) && todo != []
    ensures var x := At(h, v, todo[0]); InHeap(h, x) && (x.Ptr? ==> Reached(h, v, x.addr))
  {
    if todo[0].Field? && At(h, v, todo[0]).Ptr? { ReachedOn(h, v, todo[0].obj, todo[0].i); }
  }

  /** What was written can be read back, and the copy agrees so far. */
  ghost predicate Written(h: Heap, compressed: bool, v: Value, order: seq<nat>, todo: seq<Slot>, out: seq<Code>) {
    && Relevant(h, v, order, todo)
    && ReadAll(compressed, out).Some?
    && Agree(h, v, order, todo, ReadAll(compressed, out).value)
    && (MachineHeap(h, v) ==> AllFit(out))
  }

  lemma {:induction false} DistinctCount(order: seq<nat>)
    requires Distinct(order)
    ensures |Members(order)| == |order|
  {
    if order != [] {
      var n := |order| - 1;
      DistinctCount(order[..n]);
      assert Members(order) == Members(order[..n]) + {order[n]};
    }
  }

  /** There are no more objects than the heap has. */
  lemma OrderInHeap(h: Heap, v: Value, order: seq<nat>, todo: seq<Slot>, d: Rebuild)
    requires Relevant(h, v, order, todo) && Agree(h, v, order, todo, d)
    ensures |order| <= |h|
  {
    DistinctCount(order);
    assert Members(order) <= h.Keys;
    SubsetSize(Members(order), h.Keys);
  }

  lemma SubsetSize(a: set<nat>, b: set<nat>)
    requires a <= b
    ensures |a| <= |b|
  {
    assert |b| == |a| + |b - a|;
  }

  lemma CodeFits(h: Heap, compressed: bool, v: Value, order: seq<nat>, todo: seq<Slot>, x: Value, pos: Option<nat>)
    requires MachineHeap(h, v) && todo != [] && AgendaInHeap(h, todo) && x == At(h, v, todo[0]) && InHeap(h, x)
    requires |order| <= |h| && Position(order, x, pos) && CodeFor(h, compressed, |order|, pos, x).Some?
    ensures Fits(CodeFor(h, compressed, |order|, pos, x).value)
  {
    assert ValueFits(x) by {
      if todo[0].Field? { assert ObjectFits(h[todo[0].obj]); }
    }
    if x.Ptr? { assert ObjectFits(h[x.addr]); }
  }

  lemma NothingWritten(h: Heap, compressed: bool, v: Value)
    ensures Written(h, compressed, v, [], [Root], [])
  {
  }

  lemma ItemRelevant(h: Heap, v: Value, order: seq<nat>, todo: seq<Slot>, x: Value)
    requires Relevant(h, v, order, todo) && todo != []
    requires InHeap(h, x) && (x.Ptr? ==> Reached(h, v, x.addr))
    ensures Relevant(h, v, OrderAfter(h, order, x), After(h, order, todo, x))
  {
    if x.Ptr? { AgendaLater(h, todo, x.addr); }
  }

  lemma ItemWritten(h: Heap, compressed: bool, v: Value, order: seq<nat>, todo: seq<Slot>, out: seq<Code>, x: Value, pos: Option<nat>)
    requires Written(h, compressed, v, order, todo, out) && todo != [] && AgendaInHeap(h, todo) && x == At(h, v, todo[0])
    requires InHeap(h, x) && (x.Ptr? ==> Reached(h, v, x.addr)) && Position(order, x, pos)
    requires CodeFor(h, compressed, |order|, pos, x).Some?
    ensures Written(h, compressed, v, OrderAfter(h, order, x), After(h, order, todo, x),
                    out + [CodeFor(h, compressed, |order|, pos, x).value])
  {
    hide Agree, Relevant, Read, CodeFor, After, OrderAfter, Reached, MachineHeap, Fits;
    ItemRelevant(h, v, order, todo, x);
    var d, c := ReadAll(compressed, out).value, CodeFor(h, compressed, |order|, pos, x).value;
    AgreeCounts(h, v, order, todo, d);
    ItemAgrees(h, compressed, v, order, todo, d, x, pos);
    OrderInHeap(h, v, order, todo, d);
    if MachineHeap(h, v) { CodeFits(h, compressed, v, order, todo, x, pos); }
    assert (out + [c])[..|out|] == out;
  }

  /** Only an abstract block stops the writer. */
  lemma ItemRefused(h: Heap, compressed: bool, v: Value, order: seq<nat>, x: Value, pos: Option<nat>)
    requires InHeap(h, x) && (x.Ptr? ==> Reached(h, v, x.addr)) && Position(order, x, pos)
    requires CodeFor(h, compressed, |order|, pos, x).None?
    ensures !Marshallable(h, v)
  {
    assert x.addr in Content(h, v);
  }

  /** The copy is complete: nothing waits, and objects stand for exactly the content. */
  ghost predicate Copy(h: Heap, v: Value, order: seq<nat>, root: Image, objs: seq<Object<Image>>) {
    && Distinct(order) && Members(order) == Content(h, v)
    && SameObjects(h, order, [], objs)
    && Stands(h, order, v, root)
  }

  lemma AllWritten(h: Heap, v: Value, order: seq<nat>, d: Rebuild)
    requires Closed(h) && InHeap(h, v) && Relevant(h, v, order, []) && Agree(h, v, order, [], d)
    ensures Members(order) == Content(h, v) && Marshallable(h, v)
    ensures Copy(h, v, order, d.root, d.objs)
  {
    var s := set a | a in h && (a in order || Wosize(h[a]) == 0);
    if v.Ptr? {
      forall a, b | a in s && Graph.Edge(Shape(h), a, b) ensures b in s { ChildWritten(h, v, order, d, a, b); }
      forall a | a in Content(h, v) ensures a in order {
        if a != v.addr { Graph.ReachedInside(Shape(h), {}, v.addr, s, a); }
      }
    }
    forall a | a in order ensures !h[a].Abstract? {
      var j :| 0 <= j < |order| && order[j] == a;
      assert Resembles(h, order, [], a, h[a], d.objs[j]);
    }
  }

  lemma ChildWritten(h: Heap, v: Value, order: seq<nat>, d: Rebuild, a: nat, b: nat)
    requires Agree(h, v, order, [], d) && a in h && (a in order || Wosize(h[a]) == 0) && Graph.Edge(Shape(h), a, b)
    ensures b in h && (b in order || Wosize(h[b]) == 0)
  {
    var i :| 0 <= i < |Fields(h[a])| && Fields(h[a])[i] == Ptr(b);
    var j :| 0 <= j < |order| && order[j] == a;
    assert Resembles(h, order, [], a, h[a], d.objs[j]);
    assert Stands(h, order, Ptr(b), d.objs[j].fields[i]);
  }

  // ----- The writer ----------------------------------------------------------

  /** Fields of a block from `next` on that are still to be written. */
  datatype Item = Item(block: nat, next: nat, count: nat)

  /** The places on the stack, the top of which is its last item. */
  ghost function Agenda(stack: seq<Item>): seq<Slot> {
    if stack == [] then []
    else var top := stack[|stack| - 1]; SlotsFrom(top.block, top.next, top.count) + Agenda(stack[..|stack| - 1])
  }

  ghost predicate NoEmptyItem(stack: seq<Item>) {
    forall k :: 0 <= k < |stack| ==> stack[k].count > 0
  }

  function Advance(stack: seq<Item>): seq<Item>
    requires |stack| > 0 && stack[|stack| - 1].count > 0
  {
    var top := stack[|stack| - 1];
    stack[..|stack| - 1] + if top.count > 1 then [Item(top.block, top.next + 1, top.count - 1)] else []
  }

  lemma {:induction false} AdvanceAgenda(stack: seq<Item>)
    requires |stack| > 0 && NoEmptyItem(stack)
    ensures NoEmptyItem(Advance(stack))
    ensures Agenda(stack) == [Field(stack[|stack| - 1].block, stack[|stack| - 1].next)] + Agenda(Advance(stack))
  {
    hide SlotsFrom;
    var low, top := stack[..|stack| - 1], stack[|stack| - 1];
    SlotsHead(top.block, top.next, top.count);
    if top.count > 1 {
      assert Advance(stack)[..|low|] == low;
    } else {
      assert Advance(stack) == low;
      assert SlotsFrom(top.block, top.next + 1, 0) == [];
    }
  }

  lemma SlotsHead(block: nat, next: nat, count: nat)
    requires count > 0
    ensures SlotsFrom(block, next, count) == [Field(block, next)] + SlotsFrom(block, next + 1, count - 1)
    ensures SlotsFrom(block, next + 1, 0) == []
  {
  }

  function Push(stack: seq<Item>, block: nat, size: nat): seq<Item> {
    if size > 1 then stack + [Item(block, 1, size - 1)] else stack
  }

  lemma {:induction false} PushAgenda(stack: seq<Item>, block: nat, size: nat)
    requires size > 0 && NoEmptyItem(stack)
    ensures NoEmptyItem(Push(stack, block, size))
    ensures SlotsFrom(block, 0, size) + Agenda(stack) == [Field(block, 0)] + Agenda(Push(stack, block, size))
  {
    hide SlotsFrom;
    SlotsHead(block, 0, size);
    if size > 1 { assert Push(stack, block, size)[..|stack|] == stack; }
  }

  ghost predicate Numbered(contents: map<Value, nat>, order: seq<nat>) {
    && (forall a :: Ptr(a) in contents <==> a in order)
    && (forall a :: Ptr(a) in contents ==> contents[Ptr(a)] < |order| && order[contents[Ptr(a)]] == a)
  }

  lemma WrittenRelevant(h: Heap, compressed: bool, v: Value, order: seq<nat>, todo: seq<Slot>, out: seq<Code>)
    requires Written(h, compressed, v, order, todo, out)
    ensures Relevant(h, v, order, todo)
  {
  }

  lemma LookupTells(contents: map<Value, nat>, order: seq<nat>, x: Value)
    requires Numbered(contents, order) && x.Ptr?
    ensures Position(order, x, if x in contents then Some(contents[x]) else None)
  {
  }

  lemma NumberedOn(contents: map<Value, nat>, order: seq<nat>, a: nat)
    requires Numbered(contents, order) && a !in order
    ensures Numbered(contents[Ptr(a) := |order|], order + [a])
  {
  }

  lemma SizeOn(h: Heap, order: seq<nat>, a: nat)
    requires a in h && a !in order
    ensures Graph.Words(Shape(h), Members(order + [a])) == Graph.Words(Shape(h), Members(order)) + 1 + Wosize(h[a])
  {
    Graph.WordsWith(Shape(h), Members(order), a);
    assert Members(order + [a]) == Members(order) + {a};
  }

  class Writer {
    const heap: Heap
    const compressed: bool
    const table: Table<nat>
    var out: seq<Code>
    var size64: nat

    constructor (heap: Heap, word: Value -> nat, compressed: bool)
      ensures this.heap == heap && this.compressed == compressed && out == [] && size64 == 0
      ensures fresh(table) && table.Valid() && table.contents == map[] && table.objCounter == 0
    {
      this.heap, this.compressed := heap, compressed;
      table := new Table(word);
      out, size64 := [], 0;
    }

    /** The objects `order` have been written, `todo` waits. */
    ghost predicate Progress(v: Value, order: seq<nat>, todo: seq<Slot>)
      reads this, table
    {
      && table.Valid() && table.objCounter == |order| && Numbered(table.contents, order)
      && Written(heap, compressed, v, order, todo, out)
      && size64 == Graph.Words(Shape(heap), Members(order))
    }

    /** One turn of the loop: write the item `x`, the value at the head of the agenda. */
    method WriteItem(ghost v: Value, ghost order: seq<nat>, ghost todo: seq<Slot>, x: Value) returns (ok: bool, isNew: bool)
      requires Closed(heap) && InHeap(heap, v) && Progress(v, order, todo)
      requires todo != [] && AgendaInHeap(heap, todo) && x == At(heap, v, todo[0])
      modifies this, table
      ensures InHeap(heap, x)
      ensures ok ==> Progress(v, OrderAfter(heap, order, x), After(heap, order, todo, x))
      ensures !ok ==> !Marshallable(heap, v)
      ensures isNew == (ok && OrderAfter(heap, order, x) != order)
    {
      hide Written, Closed, Table.Valid, Marshallable, Graph.Words, Reached, AgendaInHeap, Numbered;
      assert Relevant(heap, v, order, todo) by { WrittenRelevant(heap, compressed, v, order, todo, out); }
      ReachedAt(heap, v, order, todo);
      ok, isNew := true, false;
      var count := table.objCounter;
      var pos: Option<nat> := None;
      if x.Ptr? && Wosize(heap[x.addr]) > 0 {
        var h: nat;
        pos, h := table.Lookup(x);
        LookupTells(table.contents, order, x);
        if pos.None? {
          if heap[x.addr].Abstract? {
            ItemRefused(heap, compressed, v, order, x, pos);
            ok := false;
            return;
          }
          isNew := true;
          NumberedOn(table.contents, order, x.addr);
          table.Record(x, h, table.objCounter);
          SizeOn(heap, order, x.addr);
          size64 := size64 + match heap[x.addr]
            case Str(bytes) => 1 + (|bytes| + 8) / 8
            case Dbl(_) => 1 + 1
            case DblArray(floats) => 1 + |floats|
            case Block(_, fields) => 1 + |fields|
            case Abstract(_, _) => 0;
        }
      }
      ItemWritten(heap, compressed, v, order, todo, out, x, pos);
      out := out + [CodeFor(heap, compressed, count, pos, x).value];
    }

    /** The item in hand is the first of the agenda, and the stack has the rest. */
    ghost predicate InHand(v: Value, order: seq<nat>, slot: Slot, stack: seq<Item>, x: Value)
      reads this, table
    {
      && Progress(v, order, [slot] + Agenda(stack))
      && AgendaInHeap(heap, [slot] + Agenda(stack)) && SlotInHeap(heap, slot) && x == At(heap, v, slot)
    }

    /** One turn of the loop: write `x`, then go on to its first field or to the next item of the stack. */
    method Turn(ghost v: Value, ghost order: seq<nat>, ghost slot: Slot, stack: seq<Item>, x: Value)
      returns (good: bool, busy: bool, ghost order': seq<nat>, ghost slot': Slot, stack': seq<Item>, x': Value)
      requires Closed(heap) && InHeap(heap, v) && NoEmptyItem(stack) && InHand(v, order, slot, stack, x)
      modifies this, table
      ensures !good ==> !Marshallable(heap, v)
      ensures good ==> NoEmptyItem(stack') && if busy then InHand(v, order', slot', stack', x') else Progress(v, order', [])
      ensures good ==>
        (|heap.Keys - Members(order')| < |heap.Keys - Members(order)|
         || (order' == order && (busy ==> |Agenda(stack')| < |Agenda(stack)|)))
    {
      hide Written, Closed, Table.Valid, Marshallable, Graph.Words, Numbered, After, SlotsFrom, OrderAfter,
        AgendaInHeap, Agenda, Members;
      var isNew;
      good, isNew := WriteItem(v, order, [slot] + Agenda(stack), x);
      busy, order', slot', stack', x' := true, order, slot, stack, x;
      if !good { return; }
      AgendaAfter(heap, order, slot, stack, x);
      OrderGrows(heap, order, x);
      order' := OrderAfter(heap, order, x);
      if isNew && |Fields(heap[x.addr])| > 0 {
        PushAgenda(stack, x.addr, |Fields(heap[x.addr])|);
        stack' := Push(stack, x.addr, |Fields(heap[x.addr])|);
        slot' := Field(x.addr, 0);
        x' := Fields(heap[x.addr])[0];
      } else if |stack| == 0 {
        NothingCounted(heap);
        busy := false;
      } else {
        AdvanceAgenda(stack);
        var top := stack[|stack| - 1];
        slot', stack' := Field(top.block, top.next), Advance(stack);
        WrittenAgenda(heap, compressed, v, order', slot', Agenda(stack'), out);
        x' := Fields(heap[top.block])[top.next];
      }
      if busy { WrittenAgenda(heap, compressed, v, order', slot', Agenda(stack'), out); }
    }

    /** `extern_rec`: write `v`; fail when it reaches an abstract block or a continuation. */
    method Extern(v: Value) returns (ok: bool, ghost order: seq<nat>)
      requires Closed(heap) && InHeap(heap, v)
      requires out == [] && size64 == 0 && table.Valid() && table.contents == map[] && table.objCounter == 0
      modifies this, table
      ensures ok == Marshallable(heap, v)
      ensures ok ==> ReadAll(compressed, out).Some? && ReadAll(compressed, out).value.todo == []
      ensures ok ==> Copy(heap, v, order, ReadAll(compressed, out).value.root, ReadAll(compressed, out).value.objs)
      ensures ok ==> size64 == Graph.Words(Shape(heap), Content(heap, v))
      ensures ok && MachineHeap(heap, v) ==> AllFit(out)
    {
      hide Written, Closed, Table.Valid, Marshallable, Graph.Words, Numbered, Content, AgendaInHeap, Agenda, Members,
        Copy, ReadAll, AllFit, MachineHeap, InHand, Progress;
      ok, order := true, [];
      var x, stack: seq<Item> := v, [];
      ghost var slot := Root;
      Begins(v);
      var busy := true;
      while busy
        invariant NoEmptyItem(stack)
        invariant if busy then InHand(v, order, slot, stack, x) else Progress(v, order, [])
        decreases |heap.Keys - Members(order)|, busy, |Agenda(stack)|
      {
        ok, busy, order, slot, stack, x := Turn(v, order, slot, stack, x);
        if !ok { return; }
      }
      Completes(v, order);
    }

    lemma Begins(v: Value)
      requires InHeap(heap, v)
      requires out == [] && size64 == 0 && table.Valid() && table.contents == map[] && table.objCounter == 0
      ensures InHand(v, [], Root, [], v)
    {
      hide Written, Table.Valid, Graph.Words, Numbered, Agenda, Members;
      NothingWritten(heap, compressed, v);
      NothingCounted(heap);
      assert [Root] + Agenda([]) == [Root];
    }

    lemma Completes(v: Value, order: seq<nat>)
      requires Closed(heap) && InHeap(heap, v) && Progress(v, order, [])
      ensures Marshallable(heap, v)
      ensures ReadAll(compressed, out).Some? && ReadAll(compressed, out).value.todo == []
      ensures Copy(heap, v, order, ReadAll(compressed, out).value.root, ReadAll(compressed, out).value.objs)
      ensures size64 == Graph.Words(Shape(heap), Content(heap, v))
      ensures MachineHeap(heap, v) ==> AllFit(out)
    {
      hide Written, Closed, Table.Valid, Marshallable, Graph.Words, Numbered, Content, Members, Copy, ReadAll;
      WrittenCopy(heap, compressed, v, order, out);
    }
  }

  ghost predicate SlotInHeap(h: Heap, s: Slot) {
    s.Field? ==> s.obj in h && s.i < |Fields(h[s.obj])|
  }

  lemma NothingCounted(h: Heap)
    ensures Graph.Words(Shape(h), Members([])) == 0 && Agenda([]) == [] && Numbered(map[], [])
    ensures AgendaInHeap(h, [Root])
  {
    assert Members([]) == {};
  }

  lemma WrittenAgenda(h: Heap, compressed: bool, v: Value, order: seq<nat>, slot: Slot, rest: seq<Slot>, out: seq<Code>)
    requires Written(h, compressed, v, order, [slot] + rest, out)
    ensures AgendaInHeap(h, [slot] + rest) && SlotInHeap(h, slot)
  {
    assert ([slot] + rest)[0] == slot;
  }

  lemma AgendaAfter(h: Heap, order: seq<nat>, slot: Slot, stack: seq<Item>, x: Value)
    requires InHeap(h, x)
    ensures OrderAfter(h, order, x) != order ==>
      x.Ptr? && After(h, order, [slot] + Agenda(stack), x) == SlotsFrom(x.addr, 0, |Fields(h[x.addr])|) + Agenda(stack)
    ensures OrderAfter(h, order, x) == order || |Fields(h[x.addr])| == 0 ==>
      After(h, order, [slot] + Agenda(stack), x) == Agenda(stack)
  {
    assert ([slot] + Agenda(stack))[1..] == Agenda(stack);
    if x.Ptr? { NoSlots(x.addr); }
    assert |order + [0]| != |order|;
  }

  lemma OrderGrows(h: Heap, order: seq<nat>, x: Value)
    requires InHeap(h, x)
    ensures OrderAfter(h, order, x) != order ==>
      |h.Keys - Members(OrderAfter(h, order, x))| < |h.Keys - Members(order)|
  {
    if OrderAfter(h, order, x) != order {
      var rest := h.Keys - Members(order);
      assert x.addr in rest;
      assert h.Keys - Members(OrderAfter(h, order, x)) == rest - {x.addr};
    }
  }

  lemma WrittenCopy(h: Heap, compressed: bool, v: Value, order: seq<nat>, out: seq<Code>)
    requires Closed(h) && InHeap(h, v) && Written(h, compressed, v, order, [], out)
    ensures Marshallable(h, v) && Members(order) == Content(h, v)
    ensures ReadAll(compressed, out).Some? && ReadAll(compressed, out).value.todo == []
    ensures Copy(h, v, order, ReadAll(compressed, out).value.root, ReadAll(compressed, out).value.objs)
    ensures MachineHeap(h, v) ==> AllFit(out)
  {
    AllWritten(h, v, order, ReadAll(compressed, out).value);
  }

  // ----- The reader's loop ---------------------------------------------------

  lemma {:induction false} ItemsAgenda(stack: seq<Item>, obj: nat, size: nat)
    ensures Agenda(stack + [Item(obj, 0, size)]) == SlotsFrom(obj, 0, size) + Agenda(stack)
  {
    assert (stack + [Item(obj, 0, size)])[..|stack|] == stack;
  }

  /** One turn of the reader's loop: interpret a code and store what it stands for at `dest`. */
  method ReadItem(compressed: bool, root: Image, objs: seq<Object<Image>>, dest: Slot, stack: seq<Item>, c: Code)
    returns (ok: bool, root': Image, objs': seq<Object<Image>>, stack': seq<Item>)
    requires SlotIn(objs, dest) && NoEmptyItem(stack)
    ensures NoEmptyItem(stack')
    ensures Read(compressed, Rebuild(root, objs, [dest] + Agenda(stack)), c)
         == if ok then Some(Rebuild(root', objs', Agenda(stack'))) else None
  {
    hide Agenda, SlotsFrom;
    ghost var d := Rebuild(root, objs, [dest] + Agenda(stack));
    assert d.todo[1..] == Agenda(stack);
    ok, root', objs', stack' := true, root, objs, stack;
    var w := Hole;
    match c {
      case NullCode => w := NullImage;
      case IntCode(n) => w := IntImage(n);
      case SharedCode(r) =>
        var ofs := if compressed then r else |objs| - r;
        if ofs < 0 || ofs >= |objs| {
          ok := false;
          return;
        }
        w := Ref(ofs);
      case HeaderCode(tag, size) =>
        if size == 0 {
          w := Atom(tag);
        } else {
          w := Ref(|objs|);
          objs' := objs + [Block(tag, seq(size, i => Hole))];
          ItemsAgenda(stack, |objs|, size);
          stack' := stack + [Item(|objs|, 0, size)];
        }
      case StringCode(bytes) =>
        w := Ref(|objs|);
        objs' := objs + [Str(bytes)];
      case DoubleCode(bits) =>
        w := Ref(|objs|);
        objs' := objs + [Dbl(bits)];
      case DoubleArrayCode(floats) =>
        w := Ref(|objs|);
        objs' := objs + [DblArray(floats)];
    }
    match dest {
      case Root => root' := w;
      case Field(j, i) =>
        assert |objs'| > |objs| ==>
          objs'[j := SetField(objs[j], i, w)] == objs[j := SetField(objs[j], i, w)] + [objs'[|objs|]];
        objs' := objs'[j := SetField(objs'[j], i, w)];
    }
  }

  /** The codes rebuild a value, with none to spare. */
  ghost predicate Complete(compressed: bool, codes: seq<Code>) {
    ReadAll(compressed, codes).Some? && ReadAll(compressed, codes).value.todo == []
  }

  lemma {:induction false} NothingAfter(compressed: bool, codes: seq<Code>, k: nat, n: nat)
    requires k < n <= |codes|
    requires ReadAll(compressed, codes[..k]).None? || ReadAll(compressed, codes[..k]).value.todo == []
    ensures ReadAll(compressed, codes[..n]).None?
    decreases n
  {
    hide Read;
    assert codes[..n][..n - 1] == codes[..n - 1];
    if k < n - 1 { NothingAfter(compressed, codes, k, n - 1); }
  }

  /** No complete message is the beginning of another one. */
  lemma PrefixFree(compressed: bool, codes: seq<Code>, more: seq<Code>)
    requires Complete(compressed, codes) && Complete(compressed, codes + more)
    ensures more == []
  {
    var all := codes + more;
    assert all[..|codes|] == codes && all[..|all|] == all;
    if more != [] { NothingAfter(compressed, all, |codes|, |all|); }
  }

  /** `intern_rec`: rebuild a value from the codes; they may go on behind it. */
  method Intern(compressed: bool, codes: seq<Code>) returns (ok: bool, root: Image, objs: seq<Object<Image>>, used: nat)
    ensures ok ==> used <= |codes| && ReadAll(compressed, codes[..used]) == Some(Rebuild(root, objs, []))
    ensures !ok ==> forall n :: 0 <= n <= |codes| ==> !Complete(compressed, codes[..n])
  {
    hide Agenda, Read, ReadAll;
    root, objs, used, ok := Hole, [], 0, true;
    var dest, stack: seq<Item> := Root, [];
    var busy := true;
    StartOfReading(compressed);
    assert codes[..used] == [] && [dest] + Agenda(stack) == [Root];
    while busy
      invariant used <= |codes| && NoEmptyItem(stack)
      invariant ReadAll(compressed, codes[..used]) == Some(Rebuild(root, objs, if busy then [dest] + Agenda(stack) else []))
      invariant forall n :: 0 <= n < used ==> !Complete(compressed, codes[..n])
      decreases |codes| - used, busy
    {
      assert ([dest] + Agenda(stack))[0] == dest;
      if used == |codes| {
        ok := false;
        return;
      }
      ReadNext(compressed, codes, used);
      ok, root, objs, stack := ReadItem(compressed, root, objs, dest, stack, codes[used]);
      used := used + 1;
      if !ok {
        forall n | used <= n <= |codes| ensures !Complete(compressed, codes[..n]) {
          if used < n { NothingAfter(compressed, codes, used, n); }
        }
        return;
      }
      if |stack| == 0 {
        StartOfReading(compressed);
        busy := false;
      } else {
        AdvanceAgenda(stack);
        dest := Field(stack[|stack| - 1].block, stack[|stack| - 1].next);
        stack := Advance(stack);
      }
    }
  }

  lemma ReadNext(compressed: bool, codes: seq<Code>, k: nat)
    requires k < |codes| && ReadAll(compressed, codes[..k]).Some? && ReadAll(compressed, codes[..k]).value.todo != []
    ensures var d := ReadAll(compressed, codes[..k]).value;
      SlotIn(d.objs, d.todo[0]) && ReadAll(compressed, codes[..k + 1]) == Read(compressed, d, codes[k])
  {
    assert codes[..k + 1][..k] == codes[..k];
  }

  lemma StartOfReading(compressed: bool)
    ensures Agenda([]) == [] && ReadAll(compressed, []) == Some(Rebuild(Hole, [], [Root]))
  {
  }

  // ----- Results -------------------------------------------------------------

  /** The number of objects a message introduces. */
  function Objects(codes: seq<Code>): nat {
    if codes == [] then 0
    else
      var c := codes[|codes| - 1];
      Objects(codes[..|codes| - 1]) + if Introduces(c) then 1 else 0
  }

  predicate Introduces(c: Code) {
    c.StringCode? || c.DoubleCode? || c.DoubleArrayCode? || (c.HeaderCode? && c.size > 0)
  }

  lemma ReadCounts(compressed: bool, d: Rebuild, c: Code)
    requires d.todo != [] && SlotIn(d.objs, d.todo[0]) && Read(compressed, d, c).Some?
    ensures |Read(compressed, d, c).value.objs| == |d.objs| + if Introduces(c) then 1 else 0
  {
  }

  lemma {:induction false} ObjectsCounted(compressed: bool, codes: seq<Code>)
    requires ReadAll(compressed, codes).Some?
    ensures |ReadAll(compressed, codes).value.objs| == Objects(codes)
  {
    hide Read;
    if codes != [] {
      var n := |codes| - 1;
      ObjectsCounted(compressed, codes[..n]);
      ReadCounts(compressed, ReadAll(compressed, codes[..n]).value, codes[n]);
    }
  }

  /** Every back-reference of a readable message names an object introduced before it. */
  lemma {:induction false} ReferencesInRange(compressed: bool, codes: seq<Code>, k: nat)
    requires ReadAll(compressed, codes).Some? && k < |codes| && codes[k].SharedCode?
    ensures compressed ==> codes[k].ref < Objects(codes[..k])
    ensures !compressed ==> 1 <= codes[k].ref <= Objects(codes[..k])
  {
    var n := |codes| - 1;
    if k < n {
      ReferencesInRange(compressed, codes[..n], k);
      assert codes[..n][..k] == codes[..k];
    } else {
      ObjectsCounted(compressed, codes[..k]);
    }
  }

  lemma CompleteOnce(compressed: bool, codes: seq<Code>, k: nat, n: nat)
    requires k <= |codes| && n <= |codes| && Complete(compressed, codes[..k]) && Complete(compressed, codes[..n])
    ensures k == n
  {
    if k < n { NothingAfter(compressed, codes, k, n); }
    if n < k { NothingAfter(compressed, codes, n, k); }
  }

  /** Write a value and read it back: the copy is isomorphic, whatever follows it in the input. */
  method RoundTrip(heap: Heap, word: Value -> nat, compressed: bool, v: Value, more: seq<Code>)
    returns (ok: bool, size64: nat, root: Image, objs: seq<Object<Image>>, rest: seq<Code>, ghost order: seq<nat>)
    requires Closed(heap) && InHeap(heap, v)
    ensures ok == Marshallable(heap, v)
    ensures ok ==> Copy(heap, v, order, root, objs) && rest == more
    ensures ok ==> size64 == Graph.Words(Shape(heap), Content(heap, v))
  {
    hide Copy, Marshallable, Graph.Words, Closed, Content, Table.Valid, ReadAll;
    root, objs, rest := Hole, [], [];
    var w := new Writer(heap, word, compressed);
    ok, order := w.Extern(v);
    size64 := w.size64;
    if ok {
      var all, n := w.out + more, |w.out|;
      assert all[..n] == w.out;
      assert Complete(compressed, all[..n]);
      var read, used;
      read, root, objs, used := Intern(compressed, all);
      CompleteOnce(compressed, all, n, used);
      rest := all[used..];
    }
  }
}
