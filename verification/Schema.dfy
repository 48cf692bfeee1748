/** The Catapult serializer: a hand-written reader that walks a FlatBuffer along
    a schema and emits the flat byte string a node expects.

    The layout predicates below follow the "Tables" and "Vectors" sections of the
    FlatBuffers Internals document and use exact, signed arithmetic.  The reader
    uses wrapping 32-bit arithmetic, as the program does. */
module Schema {
  import opened Words

  datatype Attribute =
    | Scalar(size: uint32)
    | Array(size: uint32)
    | Table(fields: seq<Attribute>)
    | TableArray(fields: seq<Attribute>)

  /** What one slot of a table holds. */
  datatype Value =
    | AbsentScalar
    | Word(data: bytes)
    | AbsentVector
    | Vector(data: bytes)
    | Record(fields: seq<Value>)
    | AbsentTables
    | Tables(rows: seq<Value>)

  // ---------------------------------------------------------------------------
  // The reference output: depth-first, slot-order concatenation
  // ---------------------------------------------------------------------------

  function Flatten(v: Value): bytes
    decreases v, 1
  {
    match v
    case AbsentScalar => [0]
    case Word(data) => data
    case AbsentVector => [0]
    case Vector(data) => data
    case Record(fields) => FlattenAll(fields)
    case AbsentTables => []
    case Tables(rows) => FlattenAll(rows)
  }

  function FlattenAll(vs: seq<Value>): bytes
    decreases vs, 0
  {
    if vs == [] then [] else Flatten(vs[0]) + FlattenAll(vs[1..])
  }

  lemma {:induction false} FlattenAllAppend(vs: seq<Value>, ws: seq<Value>)
    ensures FlattenAll(vs + ws) == FlattenAll(vs) + FlattenAll(ws)
  {
    if vs == [] {
      assert vs + ws == ws;
    } else {
      assert (vs + ws)[1..] == vs[1..] + ws;
      FlattenAllAppend(vs[1..], ws);
    }
  }

  lemma FlattenAllStep(vs: seq<Value>, j: nat)
    requires j < |vs|
    ensures FlattenAll(vs[..j + 1]) == FlattenAll(vs[..j]) + Flatten(vs[j])
  {
    assert vs[..j + 1] == vs[..j] + [vs[j]];
    FlattenAllAppend(vs[..j], [vs[j]]);
    assert FlattenAll([vs[j]]) == Flatten(vs[j]) + FlattenAll([]);
  }

  // ---------------------------------------------------------------------------
  // The buffer layout
  // ---------------------------------------------------------------------------

  predicate InBuffer(b: bytes, at: int, n: nat) { 0 <= at && at + n <= |b| }

  /** Bytes taken by `count` elements of `size` bytes each. */
  function Span(count: nat, size: nat): nat { if size == 0 then 0 else count + Span(count, size - 1) }

  lemma {:induction false} SpanIsProduct(count: nat, size: nat)
    ensures Span(count, size) == count * size
  {
    if size > 0 {
      SpanIsProduct(count, size - 1);
      assert count * size == count + count * (size - 1);
    }
  }

  function U16At(b: bytes, at: int): uint16
    requires InBuffer(b, at, 2)
  {
    FromLE16(b[at..at + 2])
  }

  function U32At(b: bytes, at: int): uint32
    requires InBuffer(b, at, 4)
  {
    FromLE32(b[at..at + 4])
  }

  /** A table starts with the signed distance back to its vtable. */
  function VTable(b: bytes, p: int): int
    requires InBuffer(b, p, 4)
  {
    p - Signed32(U32At(b, p))
  }

  /** A table with a complete vtable sits at `p`; the vtable may lie on either side. */
  ghost predicate TableAt(b: bytes, p: int) {
    && InBuffer(b, p, 4)
    && var vt := VTable(b, p);
    && InBuffer(b, vt, 4)
    && 4 <= U16At(b, vt)
    && U16At(b, vt) % 2 == 0
    && InBuffer(b, vt, U16At(b, vt))
  }

  /** Distance from the table to the data of its slot `i`, or 0 when the slot is absent. */
  ghost function SlotOffset(b: bytes, p: int, i: nat): uint16
    requires TableAt(b, p)
  {
    var vt := VTable(b, p);
    if 4 + 2 * i < U16At(b, vt) then U16At(b, vt + 4 + 2 * i) else 0
  }

  /** The word at `q` refers forward to a length word. */
  ghost predicate VectorAt(b: bytes, q: int) {
    InBuffer(b, q, 4) && InBuffer(b, q + U32At(b, q), 4)
  }

  ghost function VectorLength(b: bytes, q: int): uint32
    requires VectorAt(b, q)
  {
    U32At(b, q + U32At(b, q))
  }

  ghost function VectorStart(b: bytes, q: int): int
    requires VectorAt(b, q)
  {
    q + U32At(b, q) + 4
  }

  /** Slot `i` of the table at `p` encodes `v`.  Slots of the kinds `Vector`, `Record` and
      `Tables` are present; an absent vector is readable only where the stray length read
      of the program stays inside the buffer. */
  ghost predicate EncodesField(b: bytes, p: int, i: nat, attr: Attribute, v: Value)
    requires TableAt(b, p)
    decreases attr, 2
  {
    var o := SlotOffset(b, p, i);
    if o == 0 then EncodesAbsence(b, p, attr, v)
    else if attr.Scalar? then InBuffer(b, p + o, attr.size) && v == Word(b[p + o..p + o + attr.size])
    else InBuffer(b, p + o, 4) && EncodesTarget(b, p + o + U32At(b, p + o), attr, v)
  }

  ghost predicate EncodesAbsence(b: bytes, p: int, attr: Attribute, v: Value)
    requires TableAt(b, p)
  {
    match attr
    case Scalar(_) => v == AbsentScalar
    case Array(_) => v == AbsentVector && InBuffer(b, ToUint32(p + U32At(b, p)), 4)
    case Table(_) => false
    case TableArray(_) => v == AbsentTables
  }

  /** The object at `t` that a slot refers to encodes `v`. */
  ghost predicate EncodesTarget(b: bytes, t: int, attr: Attribute, v: Value)
    decreases attr, 1
  {
    match attr
    case Scalar(_) => false
    case Array(n) =>
      && InBuffer(b, t, 4)
      && InBuffer(b, t + 4, Span(U32At(b, t), n))
      && v == Vector(b[t + 4..t + 4 + Span(U32At(b, t), n)])
    case Table(fields) =>
      v.Record? && EncodesTable(b, t, fields, v.fields)
    case TableArray(fields) =>
      && v.Tables?
      && InBuffer(b, t, 4)
      && U32At(b, t) == |v.rows|
      && InBuffer(b, t + 4, 4 * |v.rows|)
      && forall k :: 0 <= k < |v.rows| ==> EncodesRow(b, t + 4 + 4 * k, fields, v.rows[k])
  }

  /** The word at `e` refers forward to a table that encodes `v`. */
  ghost predicate EncodesRow(b: bytes, e: int, fields: seq<Attribute>, v: Value)
    decreases fields, 1
  {
    v.Record? && InBuffer(b, e, 4) && EncodesTable(b, e + U32At(b, e), fields, v.fields)
  }

  /** The table at `p` encodes `vs` under the schema `fields`. */
  ghost predicate EncodesTable(b: bytes, p: int, fields: seq<Attribute>, vs: seq<Value>)
    decreases fields, 0
  {
    && TableAt(b, p)
    && |fields| == |vs| <= 0x7FFD
    && forall i :: 0 <= i < |fields| ==> EncodesField(b, p, i, fields[i], vs[i])
  }

  /** A finished buffer: its first word locates the root table.  The program reads only
      the first byte of that word, and 32-bit offsets bound the buffer's size. */
  ghost predicate EncodesRoot(b: bytes, fields: seq<Attribute>, vs: seq<Value>) {
    && 4 <= |b| <= TWO31
    && U32At(b, 0) < 0x100
    && EncodesTable(b, U32At(b, 0), fields, vs)
  }

  /** A finished buffer of 31 bytes: the root's position, a vtable, a table with a byte vector
      in its first slot and a 16-bit scalar in its second, and the vector. */
  const SMALL_BUFFER: bytes :=
    [12, 0, 0, 0]
    + [8, 0, 12, 0, 4, 0, 8, 0]
    + [8, 0, 0, 0, 8, 0, 0, 0, 0x34, 0x12, 0, 0]
    + [3, 0, 0, 0, 0xAA, 0xBB, 0xCC]

  lemma SmallBufferEncodes()
    ensures EncodesRoot(SMALL_BUFFER, [Array(1), Scalar(2)], [Vector([0xAA, 0xBB, 0xCC]), Word([0x34, 0x12])])
    ensures FlattenAll([Vector([0xAA, 0xBB, 0xCC]), Word([0x34, 0x12])]) == [0xAA, 0xBB, 0xCC, 0x34, 0x12]
  {
    var b := SMALL_BUFFER;
    assert U32At(b, 0) == 12 && U32At(b, 12) == 8 && U32At(b, 16) == 8 && U32At(b, 24) == 3;
    assert U16At(b, 4) == 8 && U16At(b, 8) == 4 && U16At(b, 10) == 8;
    assert b[28..31] == [0xAA, 0xBB, 0xCC] && b[20..22] == [0x34, 0x12];
    SmallTableEncodes(b, [0xAA, 0xBB, 0xCC], [0x34, 0x12]);
    assert FlattenAll([Word([0x34, 0x12])]) == [0x34, 0x12];
  }

  lemma SmallTableEncodes(b: bytes, elements: bytes, scalar: bytes)
    requires |b| == 31 && U32At(b, 0) == 12 && U32At(b, 12) == 8 && U32At(b, 16) == 8 && U32At(b, 24) == 3
    requires U16At(b, 4) == 8 && U16At(b, 8) == 4 && U16At(b, 10) == 8
    requires b[28..31] == elements && b[20..22] == scalar
    ensures EncodesRoot(b, [Array(1), Scalar(2)], [Vector(elements), Word(scalar)])
  {
    hide FromLE16, FromLE32;
    assert VTable(b, 12) == 4 && TableAt(b, 12);
    assert SlotOffset(b, 12, 0) == 4 && SlotOffset(b, 12, 1) == 8;
    assert Span(3, 1) == 3;
    assert EncodesTarget(b, 24, Array(1), Vector(elements));
  }

  // ---------------------------------------------------------------------------
  // The reader
  // ---------------------------------------------------------------------------

  function ReadUint32(offset: uint32, b: bytes): (r: uint32)
    requires |b| <= TWO31 && InBuffer(b, offset, 4)
    ensures r == U32At(b, offset)
  {
    FromLE32(b[offset..ToUint32(offset + 4)])
  }

  function ReadUint16(offset: uint32, b: bytes): (r: uint32)
    requires |b| <= TWO31 && InBuffer(b, offset, 2)
    ensures r == U16At(b, offset)
  {
    FromLE16(b[offset..ToUint32(offset + 2)])
  }

  /** The vtable position as the program computes it: a wrapping subtraction. */
  function VTablePosition(inner: uint32, b: bytes): uint32
    requires |b| <= TWO31 && InBuffer(b, inner, 4)
  {
    ToUint32(inner - ReadUint32(inner, b))
  }

  ghost predicate SlotReadable(inner: uint32, position: uint32, b: bytes) {
    && |b| <= TWO31
    && InBuffer(b, inner, 4)
    && var vt := VTablePosition(inner, b);
    && InBuffer(b, vt, 2)
    && (position < ReadUint16(vt, b) ==> InBuffer(b, ToUint32(vt + position), 2))
  }

  function Offset(inner: uint32, position: uint32, b: bytes): uint32
    requires SlotReadable(inner, position, b)
  {
    var vtable := VTablePosition(inner, b);
    if position < ReadUint16(vtable, b) then ReadUint16(ToUint32(vtable + position), b) else 0
  }

  function Indirect(offset: uint32, b: bytes): uint32
    requires |b| <= TWO31 && InBuffer(b, offset, 4)
  {
    ToUint32(offset + ReadUint32(offset, b))
  }

  function VectorPosition(offset: uint32, b: bytes): uint32
    requires |b| <= TWO31 && InBuffer(b, offset, 4)
  {
    ToUint32(Indirect(offset, b) + 4)
  }

  function VectorCount(offset: uint32, b: bytes): uint32
    requires |b| <= TWO31 && InBuffer(b, offset, 4) && InBuffer(b, Indirect(offset, b), 4)
  {
    ReadUint32(Indirect(offset, b), b)
  }

  lemma VTableLookup(b: bytes, p: uint32)
    requires |b| <= TWO31 && TableAt(b, p)
    ensures VTablePosition(p, b) == VTable(b, p)
  {
  }

  /** For every table, the wrapping lookup of slot `i` is the signed one of the layout. */
  lemma SlotLookup(b: bytes, p: uint32, i: nat)
    requires |b| <= TWO31 && TableAt(b, p) && i <= 0x7FFD
    ensures SlotReadable(p, 4 + 2 * i, b)
    ensures Offset(p, 4 + 2 * i, b) == SlotOffset(b, p, i)
  {
    hide FromLE16, FromLE32;
    VTableLookup(b, p);
    hide VTablePosition;
  }

  ghost function VTableBytes(b: bytes, p: int): bytes
    requires TableAt(b, p)
  {
    b[VTable(b, p)..VTable(b, p) + U16At(b, VTable(b, p))]
  }

  /** The slots of a table are determined by the bytes of its vtable alone. */
  lemma SlotFromVTableBytes(b: bytes, p: int, i: nat)
    requires TableAt(b, p)
    ensures var t := VTableBytes(b, p);
            SlotOffset(b, p, i) == if 4 + 2 * i < |t| then U16At(t, 4 + 2 * i) else 0
  {
    hide FromLE16, FromLE32;
    var t, vt := VTableBytes(b, p), VTable(b, p);
    assert |t| == U16At(b, vt);
    if 4 + 2 * i < |t| {
      SliceOfSlice(b, vt, vt + |t|, 4 + 2 * i, 6 + 2 * i);
    }
  }

  /** Where the vtable sits does not matter: any two tables, in any two buffers, whose
      vtables hold the same bytes give the same result for every slot, whether each
      vtable lies before or after its table or is shared between them. */
  lemma SlotLookupAnywhere(b: bytes, p: uint32, b': bytes, p': uint32, i: nat)
    requires |b| <= TWO31 && TableAt(b, p) && |b'| <= TWO31 && TableAt(b', p') && i <= 0x7FFD
    requires VTableBytes(b, p) == VTableBytes(b', p')
    ensures SlotReadable(p, 4 + 2 * i, b) && SlotReadable(p', 4 + 2 * i, b')
    ensures Offset(p, 4 + 2 * i, b) == Offset(p', 4 + 2 * i, b')
  {
    SlotLookup(b, p, i);
    SlotLookup(b', p', i);
    SlotFromVTableBytes(b, p, i);
    SlotFromVTableBytes(b', p', i);
  }

  /** A vtable written at `vt` is found by the program from a table at `p` on either side. */
  lemma VTableOnEitherSide(b: bytes, p: uint32, vt: uint32)
    requires |b| <= TWO31 && InBuffer(b, p, 4) && InBuffer(b, vt, 4)
    requires b[p..p + 4] == LE32(ToUint32(p - vt))
    ensures VTablePosition(p, b) == vt == VTable(b, p)
  {
    hide FromLE16, FromLE32, LE32;
    LE32RoundTrip(ToUint32(p - vt));
  }

  // ---------------------------------------------------------------------------
  // The serializers
  // ---------------------------------------------------------------------------

  /** The slice expression of the program, whose upper bound wraps. */
  function Slice(b: bytes, start: uint32, length: nat): (r: bytes)
    requires |b| <= TWO31 && InBuffer(b, start, length)
    ensures r == b[start..start + length]
  {
    b[start..ToUint32(start + ToUint32(length))]
  }

  ghost predicate ParamReadable(inner: uint32, position: uint32, b: bytes, size: uint32) {
    && SlotReadable(inner, position, b)
    && var offset := Offset(inner, position, b);
    offset != 0 ==> inner + offset + size <= |b|
  }

  function FindParam(inner: uint32, position: uint32, b: bytes, size: uint32): bytes
    requires ParamReadable(inner, position, b, size)
  {
    var offset := Offset(inner, position, b);
    if offset == 0 then [0]
    else Slice(b, ToUint32(offset + inner), size)
  }

  lemma VectorWordsRead(b: bytes, q: uint32)
    requires |b| <= TWO31 && VectorAt(b, q)
    ensures Indirect(q, b) == q + U32At(b, q)
    ensures VectorPosition(q, b) == VectorStart(b, q)
    ensures VectorCount(q, b) == VectorLength(b, q)
  {
  }

  /** The bytes of the vector of `size`-byte elements that the word at `at` refers to. */
  function VectorBytes(at: uint32, b: bytes, size: uint32): (r: bytes)
    requires |b| <= TWO31 && VectorAt(b, at)
    requires InBuffer(b, VectorStart(b, at), Span(VectorLength(b, at), size))
    ensures r == b[VectorStart(b, at)..VectorStart(b, at) + Span(VectorLength(b, at), size)]
  {
    VectorWordsRead(b, at);
    Slice(b, VectorPosition(at, b), Span(VectorCount(at, b), size))
  }

  /** The vector's words are read before the slot is tested for absence, so an absent
      slot demands that the stray reads stay inside the buffer. */
  ghost predicate VectorReadable(inner: uint32, position: uint32, b: bytes, size: uint32) {
    && SlotReadable(inner, position, b)
    && var offset := Offset(inner, position, b);
    var at := ToUint32(offset + inner);
    if offset == 0 then InBuffer(b, Indirect(at, b), 4)
    else VectorAt(b, at) && InBuffer(b, VectorStart(b, at), Span(VectorLength(b, at), size))
  }

  function FindVector(inner: uint32, position: uint32, b: bytes, size: uint32): bytes
    requires VectorReadable(inner, position, b, size)
  {
    var offset := Offset(inner, position, b);
    if offset == 0 then [0] else VectorBytes(ToUint32(offset + inner), b, size)
  }

  lemma ScalarReads(b: bytes, p: uint32, i: nat, size: uint32, v: Value)
    requires |b| <= TWO31 && TableAt(b, p) && i <= 0x7FFD
    requires EncodesField(b, p, i, Scalar(size), v)
    ensures ParamReadable(p, 4 + 2 * i, b, size)
    ensures FindParam(p, 4 + 2 * i, b, size) == Flatten(v)
  {
    hide FromLE16, FromLE32;
    SlotLookup(b, p, i);
  }

  lemma VectorTarget(b: bytes, q: uint32, size: uint32, v: Value)
    requires |b| <= TWO31 && InBuffer(b, q, 4) && EncodesTarget(b, q + U32At(b, q), Array(size), v)
    ensures VectorAt(b, q) && InBuffer(b, VectorStart(b, q), Span(VectorLength(b, q), size))
    ensures v == Vector(VectorBytes(q, b, size))
  {
    hide FromLE32, Span;
  }

  lemma ArrayReads(b: bytes, p: uint32, i: nat, size: uint32, v: Value)
    requires |b| <= TWO31 && TableAt(b, p) && i <= 0x7FFD
    requires EncodesField(b, p, i, Array(size), v)
    ensures VectorReadable(p, 4 + 2 * i, b, size)
    ensures FindVector(p, 4 + 2 * i, b, size) == Flatten(v)
  {
    hide FromLE16, FromLE32, Offset, SlotReadable;
    SlotLookup(b, p, i);
    var o := SlotOffset(b, p, i);
    if o != 0 {
      hide SlotOffset;
      VectorTarget(b, p + o, size, v);
      assert p + o == ToUint32(o + p);
      hide EncodesTarget, Span;
    }
  }

  function ElementPosition(at: uint32, k: uint32, b: bytes): uint32
    requires |b| <= TWO31 && InBuffer(b, at, 4)
  {
    ToUint32(VectorPosition(at, b) + ToUint32(k * 4))
  }

  lemma ElementReads(b: bytes, at: uint32, k: uint32)
    requires |b| <= TWO31 && VectorAt(b, at) && InBuffer(b, VectorStart(b, at), 4 * k)
    ensures ElementPosition(at, k, b) == VectorStart(b, at) + 4 * k
  {
    VectorWordsRead(b, at);
  }

  lemma TableArrayReads(b: bytes, p: uint32, i: nat, fields: seq<Attribute>, v: Value)
    requires |b| <= TWO31 && TableAt(b, p) && i <= 0x7FFD
    requires EncodesField(b, p, i, TableArray(fields), v)
    requires SlotOffset(b, p, i) != 0
    ensures var at := p + SlotOffset(b, p, i);
            && v.Tables? && at < TWO31 && VectorAt(b, at)
            && VectorCount(at, b) == |v.rows|
            && forall k :: 0 <= k < |v.rows| ==> EncodesRow(b, ElementPosition(at, k, b), fields, v.rows[k])
  {
    hide FromLE16, FromLE32;
    var at := p + SlotOffset(b, p, i);
    VectorWordsRead(b, at);
    forall k | 0 <= k < |v.rows|
      ensures EncodesRow(b, ElementPosition(at, k, b), fields, v.rows[k])
    {
      ElementReads(b, at, k);
    }
  }

  lemma RowReads(b: bytes, e: uint32, fields: seq<Attribute>, v: Value)
    requires |b| <= TWO31 && EncodesRow(b, e, fields, v)
    ensures InBuffer(b, e, 4) && v.Record?
    ensures EncodesTable(b, Indirect(e, b), fields, v.fields)
  {
    assert TableAt(b, e + U32At(b, e));
    assert Indirect(e, b) == e + U32At(b, e);
  }

  /** Emits one attribute.  Every read of the body is checked to be in bounds. */
  method SerializeAttribute(attr: Attribute, b: bytes, position: uint32, inner: uint32, ghost i: nat, ghost v: Value)
    returns (r: bytes)
    requires |b| <= TWO31 && TableAt(b, inner) && i <= 0x7FFD
    requires position == 4 + 2 * i
    requires EncodesField(b, inner, i, attr, v)
    ensures r == Flatten(v)
    decreases attr, 1
  {
    hide FromLE16, FromLE32;
    match attr
    case Scalar(size) =>
      ScalarReads(b, inner, i, size, v);
      r := FindParam(inner, position, b, size);
    case Array(size) =>
      ArrayReads(b, inner, i, size, v);
      r := FindVector(inner, position, b, size);
    case Table(fields) =>
      SlotLookup(b, inner, i);
      var at := ToUint32(Offset(inner, position, b) + inner);
      assert EncodesRow(b, at, fields, v);
      RowReads(b, at, fields, v);
      r := SerializeFields(fields, b, Indirect(at, b), v.fields);
    case TableArray(fields) =>
      r := SerializeTableArray(fields, b, position, inner, i, v);
  }

  /** Emits the tables of a table array one after the other. */
  method SerializeTableArray(fields: seq<Attribute>, b: bytes, position: uint32, inner: uint32, ghost i: nat, ghost v: Value)
    returns (r: bytes)
    requires |b| <= TWO31 && TableAt(b, inner) && i <= 0x7FFD
    requires position == 4 + 2 * i
    requires EncodesField(b, inner, i, TableArray(fields), v)
    ensures r == Flatten(v)
    decreases fields, 1
  {
    hide FromLE16, FromLE32;
    SlotLookup(b, inner, i);
    r := [];
    var offset := Offset(inner, position, b);
    if offset == 0 { return; }
    TableArrayReads(b, inner, i, fields, v);
    var at := ToUint32(inner + offset);
    var k := 0;
    while k < VectorCount(at, b)
      invariant 0 <= k <= |v.rows|
      invariant r == FlattenAll(v.rows[..k])
    {
      var element := ElementPosition(at, k, b);
      RowReads(b, element, fields, v.rows[k]);
      var row := SerializeFields(fields, b, Indirect(element, b), v.rows[k].fields);
      FlattenAllStep(v.rows, k);
      r := r + row;
      k := k + 1;
    }
    assert v.rows[..k] == v.rows;
  }

  /** Emits the attributes of the table at `start`, in slot order. */
  method SerializeFields(fields: seq<Attribute>, b: bytes, start: uint32, ghost vs: seq<Value>)
    returns (r: bytes)
    requires |b| <= TWO31 && EncodesTable(b, start, fields, vs)
    ensures r == FlattenAll(vs)
    decreases fields, 0
  {
    r := [];
    var j := 0;
    while j < |fields|
      invariant 0 <= j <= |fields|
      invariant r == FlattenAll(vs[..j])
    {
      var position := ToUint32(4 + ToUint32(j * 2));
      var tmp := SerializeAttribute(fields[j], b, position, start, j, vs[j]);
      FlattenAllStep(vs, j);
      r := r + tmp;
      j := j + 1;
    }
    assert vs[..j] == vs;
  }

  /** Emits a finished buffer, taking its first byte as the root position. */
  method Serialize(fields: seq<Attribute>, b: bytes, ghost vs: seq<Value>) returns (r: bytes)
    requires EncodesRoot(b, fields, vs)
    ensures r == FlattenAll(vs)
  {
    hide EncodesTable, FromLE32;
    RootByte(b);
    r := SerializeFields(fields, b, b[0], vs);
  }

  /** A root offset below 256 is its own first byte. */
  lemma RootByte(b: bytes)
    requires 4 <= |b| && U32At(b, 0) < 0x100
    ensures b[0] == U32At(b, 0)
  {
    assert b[0..4][0] == b[0];
  }
}
