/** A FlatBuffers builder: it grows a buffer towards its front and names objects by
    their distance from the end.  The vector builders are those of the program; the
    table layout stands in for the library, whose source is not part of this model.
    It shows that every value tree the program hands over has a buffer that encodes it. */
module Builder {
  import opened Words
  import opened Schema

  datatype Slot = NoSlot | Inline(data: bytes) | Ref(offset: nat)

  const MAX_SLOTS: nat := 100

  /** The value trees the program builds: scalars of at most four bytes, byte vectors and
      pairs of 32-bit words, every vector present. */
  ghost predicate Conforms(attr: Attribute, v: Value)
    decreases attr, 1
  {
    match attr
    case Scalar(n) => 0 < n <= 4 && (v == AbsentScalar || (v.Word? && |v.data| == n))
    case Array(n) => v.Vector? && (n == 1 || (n == 4 && |v.data| == 8))
    case Table(fields) => v.Record? && ConformsAll(fields, v.fields)
    case TableArray(fields) =>
      v == AbsentTables || (v.Tables? && forall k :: 0 <= k < |v.rows| ==> ConformsRow(fields, v.rows[k]))
  }

  ghost predicate ConformsRow(fields: seq<Attribute>, v: Value)
    decreases fields, 1
  {
    v.Record? && ConformsAll(fields, v.fields)
  }

  ghost predicate ConformsAll(fields: seq<Attribute>, vs: seq<Value>)
    decreases fields, 0
  {
    |fields| == |vs| <= MAX_SLOTS && forall i :: 0 <= i < |fields| ==> Conforms(fields[i], vs[i])
  }

  // ---------------------------------------------------------------------------
  // The size of what is built
  // ---------------------------------------------------------------------------

  /** Bytes of the objects that a value refers to. */
  function BuiltValue(v: Value): nat
    decreases v, 1
  {
    match v
    case Vector(data) => 4 + |data|
    case Record(fields) => BuiltTable(fields)
    case Tables(rows) => 4 + BuiltRows(rows)
    case _ => 0
  }

  /** Bytes of a value within its table. */
  function InlineSize(v: Value): nat {
    match v
    case Word(data) => |data|
    case Vector(_) => 4
    case Record(_) => 4
    case Tables(_) => 4
    case _ => 0
  }

  function BuiltFields(vs: seq<Value>): nat
    decreases vs, 0
  {
    if vs == [] then 0
    else BuiltFields(vs[..|vs| - 1]) + BuiltValue(vs[|vs| - 1])
  }

  function InlineSizes(vs: seq<Value>): nat {
    if vs == [] then 0 else InlineSizes(vs[..|vs| - 1]) + InlineSize(vs[|vs| - 1])
  }

  /** The fields' objects, the vtable, the distance back to it, and the fields. */
  function BuiltTable(vs: seq<Value>): nat
    decreases vs, 1
  {
    BuiltFields(vs) + 4 + 2 * |vs| + 4 + InlineSizes(vs)
  }

  function BuiltRows(rows: seq<Value>): nat
    decreases rows, 0
  {
    if rows == [] then 0
    else
      var last := rows[|rows| - 1];
      BuiltRows(rows[..|rows| - 1]) + 4 + if last.Record? then BuiltTable(last.fields) else 0
  }

  lemma BuiltFieldsStep(vs: seq<Value>, k: nat)
    requires k < |vs|
    ensures BuiltFields(vs[..k + 1]) == BuiltFields(vs[..k]) + BuiltValue(vs[k])
    ensures InlineSizes(vs[..k + 1]) == InlineSizes(vs[..k]) + InlineSize(vs[k])
  {
    hide BuiltValue, InlineSize;
    assert vs[..k + 1][..k] == vs[..k];
  }

  lemma BuiltRowsStep(rows: seq<Value>, k: nat)
    requires k < |rows| && rows[k].Record?
    ensures BuiltRows(rows[..k + 1]) == BuiltRows(rows[..k]) + 4 + BuiltTable(rows[k].fields)
  {
    hide BuiltTable;
    assert rows[..k + 1][..k] == rows[..k];
  }

  /** A finished buffer starts with the offset of its root. */
  function BuiltSize(vs: seq<Value>): nat { 4 + BuiltTable(vs) }

  // ---------------------------------------------------------------------------
  // Encodings survive growth at the front
  // ---------------------------------------------------------------------------

  ghost predicate Suffix(b: bytes, b': bytes) {
    |b| <= |b'| && b'[|b'| - |b|..] == b
  }

  lemma SuffixTransitive(a: bytes, b: bytes, c: bytes)
    requires Suffix(a, b) && Suffix(b, c)
    ensures Suffix(a, c)
  {
    assert c[|c| - |a|..] == c[|c| - |b|..][|b| - |a|..];
  }

  lemma WordsShift(b: bytes, b': bytes, at: nat)
    requires Suffix(b, b')
    ensures InBuffer(b, at, 2) ==> U16At(b', |b'| - |b| + at) == U16At(b, at)
    ensures InBuffer(b, at, 4) ==> U32At(b', |b'| - |b| + at) == U32At(b, at)
  {
    hide FromLE16, FromLE32;
    if InBuffer(b, at, 2) { SliceShift(b, b', at, 2); }
    if InBuffer(b, at, 4) { SliceShift(b, b', at, 4); }
  }

  lemma SliceShift(b: bytes, b': bytes, at: nat, n: nat)
    requires Suffix(b, b') && InBuffer(b, at, n)
    ensures b'[|b'| - |b| + at..|b'| - |b| + at + n] == b[at..at + n]
  {
    var d := |b'| - |b|;
    assert b'[d..][at..at + n] == b'[d + at..d + at + n];
  }

  lemma TableShift(b: bytes, b': bytes, p: nat, i: nat)
    requires Suffix(b, b') && TableAt(b, p)
    ensures TableAt(b', |b'| - |b| + p)
    ensures SlotOffset(b', |b'| - |b| + p, i) == SlotOffset(b, p, i)
  {
    hide FromLE16, FromLE32;
    var vt := VTable(b, p);
    WordsShift(b, b', p);
    WordsShift(b, b', vt);
    if 4 + 2 * i < U16At(b, vt) { WordsShift(b, b', vt + 4 + 2 * i); }
  }

  lemma {:induction false} TargetShift(b: bytes, b': bytes, t: nat, attr: Attribute, v: Value)
    requires Suffix(b, b') && Conforms(attr, v) && EncodesTarget(b, t, attr, v)
    ensures EncodesTarget(b', |b'| - |b| + t, attr, v)
    decreases attr, 1
  {
    hide FromLE16, FromLE32;
    var d := |b'| - |b|;
    match attr
    case Array(n) =>
      WordsShift(b, b', t);
      SliceShift(b, b', t + 4, Span(U32At(b, t), n));
    case Table(fields) =>
      EncodingShift(b, b', t, fields, v.fields);
    case TableArray(fields) =>
      WordsShift(b, b', t);
      forall k | 0 <= k < |v.rows|
        ensures EncodesRow(b', d + t + 4 + 4 * k, fields, v.rows[k])
      {
        assert EncodesRow(b, t + 4 + 4 * k, fields, v.rows[k]);
        assert ConformsRow(fields, v.rows[k]);
        RowShift(b, b', t + 4 + 4 * k, fields, v.rows[k]);
      }
  }

  lemma {:induction false} RowShift(b: bytes, b': bytes, e: nat, fields: seq<Attribute>, v: Value)
    requires Suffix(b, b') && ConformsRow(fields, v) && EncodesRow(b, e, fields, v)
    ensures EncodesRow(b', |b'| - |b| + e, fields, v)
    decreases fields, 1
  {
    hide FromLE16, FromLE32;
    WordsShift(b, b', e);
    EncodingShift(b, b', e + U32At(b, e), fields, v.fields);
  }

  lemma {:induction false} FieldShift(b: bytes, b': bytes, p: nat, i: nat, attr: Attribute, v: Value)
    requires Suffix(b, b') && Conforms(attr, v) && TableAt(b, p) && EncodesField(b, p, i, attr, v)
    ensures TableAt(b', |b'| - |b| + p)
    ensures EncodesField(b', |b'| - |b| + p, i, attr, v)
    decreases attr, 2
  {
    hide FromLE16, FromLE32;
    TableShift(b, b', p, i);
    var q := p + SlotOffset(b, p, i);
    if q != p {
      if attr.Scalar? {
        SliceShift(b, b', q, attr.size);
      } else {
        WordsShift(b, b', q);
        TargetShift(b, b', q + U32At(b, q), attr, v);
      }
    }
  }

  /** A table keeps encoding its values when the buffer grows at the front. */
  lemma {:induction false} EncodingShift(b: bytes, b': bytes, p: nat, fields: seq<Attribute>, vs: seq<Value>)
    requires Suffix(b, b') && ConformsAll(fields, vs) && EncodesTable(b, p, fields, vs)
    ensures EncodesTable(b', |b'| - |b| + p, fields, vs)
    decreases fields, 0
  {
    TableShift(b, b', p, 0);
    forall i | 0 <= i < |fields|
      ensures EncodesField(b', |b'| - |b| + p, i, fields[i], vs[i])
    {
      FieldShift(b, b', p, i, fields[i], vs[i]);
    }
  }

  // ---------------------------------------------------------------------------
  // The layout of one table
  // ---------------------------------------------------------------------------

  /** The bytes of a slot placed in front of `tail` bytes; a reference is stored as the
      forward distance to its object. */
  function SlotBytes(slot: Slot, tail: nat): bytes {
    match slot
    case NoSlot => []
    case Inline(data) => data
    case Ref(offset) => LE32(ToUint32(tail + 4 - offset))
  }

  function InlineBytes(slots: seq<Slot>, tail: nat): bytes {
    if slots == [] then []
    else
      var rest := InlineBytes(slots[1..], tail);
      SlotBytes(slots[0], tail + |rest|) + rest
  }

  /** Distance of slot `i` from the start of its table. */
  function FieldOffset(slots: seq<Slot>, i: nat, tail: nat): int
    requires i < |slots|
  {
    if slots[i].NoSlot? then 0 else 4 + |InlineBytes(slots, tail)| - |InlineBytes(slots[i..], tail)|
  }

  function SlotTable(slots: seq<Slot>, k: nat, tail: nat): (r: bytes)
    requires k <= |slots|
    ensures |r| == 2 * (|slots| - k)
    decreases |slots| - k
  {
    if k == |slots| then [] else LE16(ToUint16(FieldOffset(slots, k, tail))) + SlotTable(slots, k + 1, tail)
  }

  function VTableLength(slots: seq<Slot>): nat { 4 + 2 * |slots| }

  /** The vtable, then the distance back to it, as an unsigned word. */
  function TableHead(slots: seq<Slot>, tail: nat): (r: bytes)
    ensures |r| == VTableLength(slots) + 4
  {
    LE16(ToUint16(VTableLength(slots))) + LE16(ToUint16(4 + |InlineBytes(slots, tail)|)) + SlotTable(slots, 0, tail)
    + LE32(ToUint32(VTableLength(slots)))
  }

  function TableBytes(slots: seq<Slot>, tail: nat): bytes {
    TableHead(slots, tail) + InlineBytes(slots, tail)
  }

  ghost predicate SmallSlot(slot: Slot) {
    slot.Inline? ==> 0 < |slot.data| <= 4
  }

  lemma InlineStep(slots: seq<Slot>, i: nat, tail: nat)
    requires i < |slots|
    ensures var rest := InlineBytes(slots[i + 1..], tail);
            InlineBytes(slots[i..], tail) == SlotBytes(slots[i], tail + |rest|) + rest
  {
    hide SlotBytes;
    assert slots[i..][1..] == slots[i + 1..];
  }

  lemma {:induction false} InlineAt(slots: seq<Slot>, tail: nat, i: nat)
    requires i <= |slots|
    ensures Suffix(InlineBytes(slots[i..], tail), InlineBytes(slots, tail))
  {
    hide SlotBytes;
    if i == 0 {
      assert slots[0..] == slots;
    } else {
      InlineAt(slots[1..], tail, i - 1);
      assert slots[1..][i - 1..] == slots[i..];
      assert InlineBytes(slots, tail)
          == SlotBytes(slots[0], tail + |InlineBytes(slots[1..], tail)|) + InlineBytes(slots[1..], tail);
      SuffixTransitive(InlineBytes(slots[i..], tail), InlineBytes(slots[1..], tail), InlineBytes(slots, tail));
    }
  }

  lemma {:induction false} InlineSmall(slots: seq<Slot>, tail: nat)
    requires forall i :: 0 <= i < |slots| ==> SmallSlot(slots[i])
    ensures |InlineBytes(slots, tail)| <= 4 * |slots|
  {
    if slots != [] {
      assert SmallSlot(slots[0]);
      forall i | 0 <= i < |slots[1..]| ensures SmallSlot(slots[1..][i]) {
        assert slots[1..][i] == slots[i + 1];
      }
      InlineSmall(slots[1..], tail);
    }
  }

  lemma {:induction false} SlotTableAt(slots: seq<Slot>, k: nat, tail: nat, i: nat)
    requires k <= i < |slots|
    ensures SlotTable(slots, k, tail)[2 * (i - k)..2 * (i - k) + 2] == LE16(ToUint16(FieldOffset(slots, i, tail)))
    decreases i - k
  {
    var first, rest := LE16(ToUint16(FieldOffset(slots, k, tail))), SlotTable(slots, k + 1, tail);
    assert SlotTable(slots, k, tail) == first + rest;
    if k == i {
      assert (first + rest)[0..2] == first;
    } else {
      SlotTableAt(slots, k + 1, tail, i);
      var at := 2 * (i - k - 1);
      assert (first + rest)[at + 2..at + 4] == rest[at..at + 2];
    }
  }

  /** The words of a table head in front of any bytes. */
  lemma HeadWords(slots: seq<Slot>, tail: nat, rest: bytes)
    requires |slots| <= MAX_SLOTS
    ensures var b, p := TableHead(slots, tail) + rest, VTableLength(slots);
            U16At(b, 0) == p && U32At(b, p) == p
  {
    hide FromLE16, FromLE32, LE16, LE32;
    var p := VTableLength(slots);
    var size, table := LE16(ToUint16(4 + |InlineBytes(slots, tail)|)), SlotTable(slots, 0, tail);
    var b := TableHead(slots, tail) + rest;
    assert b[0..2] == LE16(ToUint16(p));
    LE16RoundTrip(ToUint16(p));
    var before := LE16(ToUint16(p)) + size + table;
    assert b == before + LE32(ToUint32(p)) + rest;
    Middle(before, LE32(ToUint32(p)), rest);
    LE32RoundTrip(ToUint32(p));
  }

  lemma HeadSlot(slots: seq<Slot>, tail: nat, rest: bytes, i: nat)
    requires |slots| <= MAX_SLOTS && i < |slots|
    requires forall i :: 0 <= i < |slots| ==> SmallSlot(slots[i])
    ensures U16At(TableHead(slots, tail) + rest, 4 + 2 * i) == FieldOffset(slots, i, tail)
  {
    hide FromLE16, FromLE32, LE16, LE32;
    var table := SlotTable(slots, 0, tail);
    var front := LE16(ToUint16(VTableLength(slots))) + LE16(ToUint16(4 + |InlineBytes(slots, tail)|));
    var b := TableHead(slots, tail) + rest;
    assert b == front + table + (LE32(ToUint32(VTableLength(slots))) + rest);
    Middle(front, table, LE32(ToUint32(VTableLength(slots))) + rest);
    var at := 2 * i;
    assert b[4 + at..4 + at + 2] == b[4..4 + |table|][at..at + 2];
    SlotTableAt(slots, 0, tail, i);
    InlineAt(slots, tail, i);
    InlineSmall(slots, tail);
    LE16RoundTrip(ToUint16(FieldOffset(slots, i, tail)));
  }

  lemma TableSlotOffset(slots: seq<Slot>, b: bytes, i: nat)
    requires |slots| <= MAX_SLOTS && i < |slots|
    requires forall i :: 0 <= i < |slots| ==> SmallSlot(slots[i])
    ensures var grown, p := TableBytes(slots, |b|) + b, VTableLength(slots);
            TableAt(grown, p) && SlotOffset(grown, p, i) == FieldOffset(slots, i, |b|)
  {
    TableStands(slots, b);
    hide FromLE16, FromLE32, LE16, LE32;
    var rest := InlineBytes(slots, |b|) + b;
    assert TableBytes(slots, |b|) + b == TableHead(slots, |b|) + rest;
    HeadWords(slots, |b|, rest);
    HeadSlot(slots, |b|, rest, i);
  }

  lemma TableStands(slots: seq<Slot>, b: bytes)
    requires |slots| <= MAX_SLOTS
    ensures var grown, p := TableBytes(slots, |b|) + b, VTableLength(slots);
            Suffix(b, grown) && TableAt(grown, p) && VTable(grown, p) == 0
  {
    hide FromLE16, FromLE32, LE16, LE32;
    var rest := InlineBytes(slots, |b|) + b;
    assert TableBytes(slots, |b|) + b == TableHead(slots, |b|) + rest;
    HeadWords(slots, |b|, rest);
  }

  /** The bytes of slot `i` in front of those of the slots after it. */
  lemma InlineSplit(slots: seq<Slot>, tail: nat, i: nat) returns (before: bytes)
    requires i < |slots|
    ensures var after := InlineBytes(slots[i + 1..], tail);
            && InlineBytes(slots, tail) == before + SlotBytes(slots[i], tail + |after|) + after
            && (!slots[i].NoSlot? ==> FieldOffset(slots, i, tail) == 4 + |before|)
  {
    hide LE32, SlotBytes;
    InlineAt(slots, tail, i);
    InlineStep(slots, i, tail);
    var l, rest := InlineBytes(slots, tail), InlineBytes(slots[i..], tail);
    before := l[..|l| - |rest|];
    assert l == before + rest;
  }

  /** Slot `i` of a table written in front of `b` is found where its bytes were put. */
  lemma TableSlot(slots: seq<Slot>, b: bytes, i: nat)
    requires |slots| <= MAX_SLOTS && i < |slots| && !slots[i].NoSlot?
    ensures var grown, q := TableBytes(slots, |b|) + b, VTableLength(slots) + FieldOffset(slots, i, |b|);
            var tail := |b| + |InlineBytes(slots[i + 1..], |b|)|;
            var held := SlotBytes(slots[i], tail);
            && 0 <= q && q + |held| + tail == |grown|
            && grown[q..q + |held|] == held
  {
    hide LE32, TableHead, InlineBytes, SlotBytes;
    var before := InlineSplit(slots, |b|, i);
    var after := InlineBytes(slots[i + 1..], |b|);
    var held := SlotBytes(slots[i], |b| + |after|);
    MiddleNested(TableHead(slots, |b|), before, held, after, b);
  }

  // ---------------------------------------------------------------------------
  // Slots that hold values
  // ---------------------------------------------------------------------------

  ghost predicate SlotHolds(b: bytes, slot: Slot, attr: Attribute, v: Value) {
    match slot
    case NoSlot => (attr.Scalar? && v == AbsentScalar) || (attr.TableArray? && v == AbsentTables)
    case Inline(data) => attr.Scalar? && v == Word(data) && |data| == attr.size
    case Ref(offset) => !attr.Scalar? && 0 < offset <= |b| && EncodesTarget(b, |b| - offset, attr, v)
  }

  lemma SlotShift(b: bytes, b': bytes, slot: Slot, attr: Attribute, v: Value)
    requires Suffix(b, b') && Conforms(attr, v) && SlotHolds(b, slot, attr, v)
    ensures SlotHolds(b', slot, attr, v)
  {
    if slot.Ref? { TargetShift(b, b', |b| - slot.offset, attr, v); }
  }

  ghost predicate SlotsHold(b: bytes, slots: seq<Slot>, fields: seq<Attribute>, vs: seq<Value>) {
    && |slots| <= |fields| && |slots| <= |vs|
    && forall i :: 0 <= i < |slots| ==> SlotHolds(b, slots[i], fields[i], vs[i])
  }

  lemma SlotsShift(b: bytes, b': bytes, slots: seq<Slot>, fields: seq<Attribute>, vs: seq<Value>)
    requires Suffix(b, b') && ConformsAll(fields, vs) && SlotsHold(b, slots, fields, vs)
    ensures SlotsHold(b', slots, fields, vs)
  {
    forall i | 0 <= i < |slots|
      ensures SlotHolds(b', slots[i], fields[i], vs[i])
    {
      SlotShift(b, b', slots[i], fields[i], vs[i]);
    }
  }

  lemma FieldEncodes(slots: seq<Slot>, b: bytes, i: nat, attr: Attribute, v: Value)
    requires |slots| <= MAX_SLOTS && i < |slots|
    requires forall i :: 0 <= i < |slots| ==> SmallSlot(slots[i])
    requires Conforms(attr, v) && SlotHolds(b, slots[i], attr, v)
    requires |TableBytes(slots, |b|) + b| <= TWO31
    ensures TableAt(TableBytes(slots, |b|) + b, VTableLength(slots))
    ensures EncodesField(TableBytes(slots, |b|) + b, VTableLength(slots), i, attr, v)
  {
    hide FromLE16, FromLE32, LE16, LE32, TableBytes, InlineBytes, EncodesField, EncodesTarget, SlotOffset, TableAt, FieldOffset,
      VTableLength;
    var grown, p := TableBytes(slots, |b|) + b, VTableLength(slots);
    TableStands(slots, b);
    TableSlotOffset(slots, b, i);
    if slots[i].NoSlot? {
      AbsentField(slots, i, |b|);
      AbsenceEncodes(grown, p, i, attr, v);
    } else {
      TableSlot(slots, b, i);
      FieldOffsetPositive(slots, i, |b|);
      var q := p + FieldOffset(slots, i, |b|);
      if slots[i].Ref? {
        var offset := slots[i].offset;
        LE32RoundTrip(ToUint32(|grown| - q - offset));
        TargetShift(b, grown, |b| - offset, attr, v);
        RefEncodes(grown, p, i, attr, v, |grown| - offset);
      } else {
        InlineEncodes(grown, p, i, attr, v);
      }
    }
  }

  lemma AbsentField(slots: seq<Slot>, i: nat, tail: nat)
    requires i < |slots| && slots[i].NoSlot?
    ensures FieldOffset(slots, i, tail) == 0
  {
  }

  lemma AbsenceEncodes(b: bytes, p: int, i: nat, attr: Attribute, v: Value)
    requires TableAt(b, p) && SlotOffset(b, p, i) == 0
    requires (attr.Scalar? && v == AbsentScalar) || (attr.TableArray? && v == AbsentTables)
    ensures EncodesField(b, p, i, attr, v)
  {
    hide TableAt, SlotOffset;
  }

  lemma InlineEncodes(b: bytes, p: int, i: nat, attr: Attribute, v: Value)
    requires TableAt(b, p) && SlotOffset(b, p, i) > 0 && attr.Scalar? && v.Word? && |v.data| == attr.size
    requires var at := p + SlotOffset(b, p, i); InBuffer(b, at, |v.data|) && b[at..at + |v.data|] == v.data
    ensures EncodesField(b, p, i, attr, v)
  {
    hide TableAt, SlotOffset;
  }

  lemma RefEncodes(b: bytes, p: int, i: nat, attr: Attribute, v: Value, t: int)
    requires TableAt(b, p) && SlotOffset(b, p, i) > 0 && !attr.Scalar? && EncodesTarget(b, t, attr, v)
    requires InBuffer(b, p + SlotOffset(b, p, i), 4)
    requires U32At(b, p + SlotOffset(b, p, i)) == t - (p + SlotOffset(b, p, i))
    ensures EncodesField(b, p, i, attr, v)
  {
    hide TableAt, SlotOffset, EncodesTarget, FromLE32;
  }

  lemma FieldOffsetPositive(slots: seq<Slot>, i: nat, tail: nat)
    requires i < |slots| && !slots[i].NoSlot?
    ensures 4 <= FieldOffset(slots, i, tail)
  {
    InlineAt(slots, tail, i);
  }

  /** A table whose slots hold the values encodes them. */
  lemma TableEncodes(slots: seq<Slot>, b: bytes, fields: seq<Attribute>, vs: seq<Value>)
    requires ConformsAll(fields, vs) && |slots| == |fields| && SlotsHold(b, slots, fields, vs)
    requires |TableBytes(slots, |b|) + b| <= TWO31
    ensures EncodesTable(TableBytes(slots, |b|) + b, VTableLength(slots), fields, vs)
  {
    hide TableBytes;
    forall i | 0 <= i < |slots| ensures SmallSlot(slots[i]) {
      assert SlotHolds(b, slots[i], fields[i], vs[i]) && Conforms(fields[i], vs[i]);
    }
    TableStands(slots, b);
    forall i | 0 <= i < |slots|
      ensures EncodesField(TableBytes(slots, |b|) + b, VTableLength(slots), i, fields[i], vs[i])
    {
      FieldEncodes(slots, b, i, fields[i], vs[i]);
    }
  }

  // ---------------------------------------------------------------------------
  // Vectors
  // ---------------------------------------------------------------------------

  function WordBytes(words: seq<uint32>): bytes {
    if words == [] then [] else LE32(words[0]) + WordBytes(words[1..])
  }

  function References(offsets: seq<nat>): seq<Slot> {
    seq(|offsets|, i requires 0 <= i < |offsets| => Ref(offsets[i]))
  }

  lemma VectorEncodes(count: uint32, d: bytes, b: bytes, size: uint32)
    requires Span(count, size) == |d|
    ensures EncodesTarget(LE32(count) + d + b, 0, Array(size), Vector(d))
  {
    hide LE32, FromLE32;
    var grown := LE32(count) + d + b;
    assert grown[0..4] == LE32(count);
    LE32RoundTrip(count);
    assert grown[4..4 + |d|] == d;
  }

  ghost predicate RowsHold(b: bytes, offsets: seq<nat>, fields: seq<Attribute>, rows: seq<Value>) {
    && |offsets| <= |rows|
    && forall k :: 0 <= k < |offsets| ==>
         && rows[k].Record?
         && 0 < offsets[k] <= |b|
         && EncodesTable(b, |b| - offsets[k], fields, rows[k].fields)
  }

  lemma RowsShift(b: bytes, b': bytes, offsets: seq<nat>, fields: seq<Attribute>, rows: seq<Value>)
    requires Suffix(b, b') && RowsHold(b, offsets, fields, rows)
    requires forall k :: 0 <= k < |rows| ==> ConformsRow(fields, rows[k])
    ensures RowsHold(b', offsets, fields, rows)
  {
    forall k | 0 <= k < |offsets|
      ensures EncodesTable(b', |b'| - offsets[k], fields, rows[k].fields)
    {
      assert ConformsRow(fields, rows[k]);
      EncodingShift(b, b', |b| - offsets[k], fields, rows[k].fields);
    }
  }

  lemma {:induction false} ReferencesLength(offsets: seq<nat>, tail: nat)
    ensures |InlineBytes(References(offsets), tail)| == 4 * |offsets|
  {
    hide LE32;
    if offsets != [] {
      assert References(offsets)[1..] == References(offsets[1..]);
      ReferencesLength(offsets[1..], tail);
    }
  }

  /** A vector of references to the row tables encodes the rows. */
  lemma RowsEncode(offsets: seq<nat>, b: bytes, fields: seq<Attribute>, rows: seq<Value>)
    requires |offsets| == |rows| && RowsHold(b, offsets, fields, rows)
    requires forall k :: 0 <= k < |rows| ==> ConformsRow(fields, rows[k])
    requires var grown := LE32(ToUint32(|rows|)) + InlineBytes(References(offsets), |b|) + b; |grown| <= TWO31
    ensures var grown := LE32(ToUint32(|rows|)) + InlineBytes(References(offsets), |b|) + b;
            Suffix(b, grown) && EncodesTarget(grown, 0, TableArray(fields), Tables(rows))
  {
    hide LE32, FromLE32, FromLE16;
    var grown := LE32(ToUint32(|rows|)) + InlineBytes(References(offsets), |b|) + b;
    ReferencesLength(offsets, |b|);
    assert Suffix(b, grown);
    assert grown[0..4] == LE32(ToUint32(|rows|));
    LE32RoundTrip(ToUint32(|rows|));
    RowsShift(b, grown, offsets, fields, rows);
    forall k | 0 <= k < |rows|
      ensures EncodesRow(grown, 4 + 4 * k, fields, rows[k])
    {
      ReferenceReads(offsets, b, k);
    }
  }

  lemma ReferenceReads(offsets: seq<nat>, b: bytes, k: nat)
    requires k < |offsets| && offsets[k] <= |b|
    requires var grown := LE32(ToUint32(|offsets|)) + InlineBytes(References(offsets), |b|) + b; |grown| <= TWO31
    ensures var grown := LE32(ToUint32(|offsets|)) + InlineBytes(References(offsets), |b|) + b;
            InBuffer(grown, 4 + 4 * k, 4) && 4 + 4 * k + U32At(grown, 4 + 4 * k) == |grown| - offsets[k]
  {
    hide LE32, FromLE32, InlineBytes;
    var slots := References(offsets);
    var count := LE32(ToUint32(|offsets|));
    var before := InlineSplit(slots, |b|, k);
    var after := InlineBytes(slots[k + 1..], |b|);
    ReferencesLength(offsets, |b|);
    assert slots[k + 1..] == References(offsets[k + 1..]);
    ReferencesLength(offsets[k + 1..], |b|);
    var held := SlotBytes(slots[k], |b| + |after|);
    MiddleNested(count, before, held, after, b);
    LE32RoundTrip(ToUint32(|b| + |after| + 4 - offsets[k]));
  }

  lemma RowAdded(b: bytes, b': bytes, offsets: seq<nat>, row: nat, fields: seq<Attribute>, rows: seq<Value>)
    requires Suffix(b, b') && |offsets| < |rows| && rows[|offsets|].Record?
    requires forall k :: 0 <= k < |rows| ==> ConformsRow(fields, rows[k])
    requires |b| <= TWO31 ==> RowsHold(b, offsets, fields, rows)
    requires 0 < row <= |b'| && (|b'| <= TWO31 ==> EncodesTable(b', |b'| - row, fields, rows[|offsets|].fields))
    ensures |b'| <= TWO31 ==> RowsHold(b', offsets + [row], fields, rows)
  {
    assert |b| <= |b'|;
    hide EncodesTable, ConformsRow, RowsHold, Suffix;
    if |b'| <= TWO31 {
      RowsShift(b, b', offsets, fields, rows);
      RowsHoldSnoc(b', offsets, row, fields, rows);
    }
  }

  lemma RowsHoldSnoc(b: bytes, offsets: seq<nat>, row: nat, fields: seq<Attribute>, rows: seq<Value>)
    requires RowsHold(b, offsets, fields, rows) && |offsets| < |rows| && rows[|offsets|].Record?
    requires 0 < row <= |b| && EncodesTable(b, |b| - row, fields, rows[|offsets|].fields)
    ensures RowsHold(b, offsets + [row], fields, rows)
  {
    hide EncodesTable;
  }

  lemma FieldAdded(b: bytes, b': bytes, slots: seq<Slot>, slot: Slot, fields: seq<Attribute>, vs: seq<Value>)
    requires Suffix(b, b') && ConformsAll(fields, vs) && |slots| < |fields|
    requires |b| <= TWO31 ==> SlotsHold(b, slots, fields, vs)
    requires |b'| <= TWO31 ==> SlotHolds(b', slot, fields[|slots|], vs[|slots|])
    ensures |b'| <= TWO31 ==> SlotsHold(b', slots + [slot], fields, vs)
  {
    assert |fields| == |vs| && |b| <= |b'|;
    hide ConformsAll, SlotHolds, Suffix;
    if |b'| <= TWO31 { SlotsShift(b, b', slots, fields, vs); }
  }

  /** The first rows have been added to the buffer `was`, which has become `b`. */
  ghost predicate RowsDone(was: bytes, b: bytes, offsets: seq<nat>, fields: seq<Attribute>, rows: seq<Value>) {
    && |offsets| <= |rows| && Suffix(was, b)
    && |b| + 4 * |offsets| == |was| + BuiltRows(rows[..|offsets|])
    && (|b| <= TWO31 ==> RowsHold(b, offsets, fields, rows))
  }

  lemma RowsEnd(was: bytes, b: bytes, offsets: seq<nat>, fields: seq<Attribute>, rows: seq<Value>)
    requires RowsDone(was, b, offsets, fields, rows) && |offsets| == |rows|
    ensures Suffix(was, b) && |b| + 4 * |rows| == |was| + BuiltRows(rows)
    ensures |b| <= TWO31 ==> RowsHold(b, offsets, fields, rows)
  {
    assert rows[..|offsets|] == rows;
  }

  lemma RowsBegin(b: bytes, fields: seq<Attribute>, rows: seq<Value>)
    ensures RowsDone(b, b, [], fields, rows)
  {
  }

  lemma RowsNext(
    was: bytes, b: bytes, b': bytes, offsets: seq<nat>, row: nat, fields: seq<Attribute>, rows: seq<Value>)
    requires RowsDone(was, b, offsets, fields, rows) && |offsets| < |rows| && rows[|offsets|].Record?
    requires forall k :: 0 <= k < |rows| ==> ConformsRow(fields, rows[k])
    requires Suffix(b, b') && |b'| == |b| + BuiltTable(rows[|offsets|].fields)
    requires 0 < row <= |b'| && (|b'| <= TWO31 ==> EncodesTable(b', |b'| - row, fields, rows[|offsets|].fields))
    ensures RowsDone(was, b', offsets + [row], fields, rows)
  {
    hide EncodesTable, ConformsRow, RowsHold, BuiltTable, BuiltRows, Suffix;
    assert |b| <= |b'|;
    SuffixTransitive(was, b, b');
    BuiltRowsStep(rows, |offsets|);
    RowAdded(b, b', offsets, row, fields, rows);
  }

  /** The objects of the first fields have been added to `was`, which has become `b`. */
  ghost predicate FieldsDone(was: bytes, b: bytes, slots: seq<Slot>, fields: seq<Attribute>, vs: seq<Value>) {
    && |slots| <= |fields| == |vs| && Suffix(was, b)
    && |b| == |was| + BuiltFields(vs[..|slots|]) && SlotSizes(slots) == InlineSizes(vs[..|slots|])
    && (|b| <= TWO31 ==> SlotsHold(b, slots, fields, vs))
  }

  lemma FieldsEnd(was: bytes, b: bytes, slots: seq<Slot>, fields: seq<Attribute>, vs: seq<Value>)
    requires FieldsDone(was, b, slots, fields, vs) && |slots| == |fields|
    ensures Suffix(was, b) && |b| == |was| + BuiltFields(vs) && SlotSizes(slots) == InlineSizes(vs)
    ensures |b| <= TWO31 ==> SlotsHold(b, slots, fields, vs)
  {
    assert vs[..|slots|] == vs;
  }

  lemma FieldsBegin(b: bytes, fields: seq<Attribute>, vs: seq<Value>)
    requires |fields| == |vs|
    ensures FieldsDone(b, b, [], fields, vs)
  {
  }

  lemma FieldsNext(
    was: bytes, b: bytes, b': bytes, slots: seq<Slot>, slot: Slot, fields: seq<Attribute>, vs: seq<Value>)
    requires FieldsDone(was, b, slots, fields, vs) && |slots| < |fields| && ConformsAll(fields, vs)
    requires Suffix(b, b') && |b'| == |b| + BuiltValue(vs[|slots|]) && SlotSize(slot) == InlineSize(vs[|slots|])
    requires |b'| <= TWO31 ==> SlotHolds(b', slot, fields[|slots|], vs[|slots|])
    ensures FieldsDone(was, b', slots + [slot], fields, vs)
  {
    hide ConformsAll, SlotHolds, SlotsHold, BuiltFields, BuiltValue, InlineSizes, InlineSize, SlotSizes, SlotSize, Suffix;
    SuffixTransitive(was, b, b');
    BuiltFieldsStep(vs, |slots|);
    SlotSizesSnoc(slots, slot);
    FieldAdded(b, b', slots, slot, fields, vs);
  }

  /** What a table written over its fields' objects amounts to. */
  lemma TableAdded(was: bytes, b: bytes, slots: seq<Slot>, fields: seq<Attribute>, vs: seq<Value>)
    requires ConformsAll(fields, vs) && |slots| == |fields| && Suffix(was, b)
    requires |b| == |was| + BuiltFields(vs) && SlotSizes(slots) == InlineSizes(vs)
    requires |b| <= TWO31 ==> SlotsHold(b, slots, fields, vs)
    ensures var b' := TableBytes(slots, |b|) + b;
            && Suffix(was, b') && |b'| == |was| + BuiltTable(vs)
            && VTableLength(slots) == 4 + 2 * |fields| < |b'|
            && (|b'| <= TWO31 ==> EncodesTable(b', VTableLength(slots), fields, vs))
  {
    assert |fields| == |vs| <= MAX_SLOTS;
    hide EncodesTable, TableBytes, BuiltFields, InlineSizes, SlotSizes, SlotsHold, ConformsAll;
    var b' := TableBytes(slots, |b|) + b;
    TableLength(slots, |b|);
    TableStands(slots, b);
    SuffixTransitive(was, b, b');
    hide Suffix;
    if |b'| <= TWO31 { TableEncodes(slots, b, fields, vs); }
  }

  lemma TableTarget(b: bytes, t: nat, fields: seq<Attribute>, v: Value)
    requires v.Record? && EncodesTable(b, t, fields, v.fields)
    ensures EncodesTarget(b, t, Table(fields), v)
  {}

  lemma RowConforms(fields: seq<Attribute>, row: Value)
    requires ConformsRow(fields, row)
    ensures row.Record? && ConformsAll(fields, row.fields)
  {}

  lemma FieldConforms(fields: seq<Attribute>, vs: seq<Value>, k: nat)
    requires ConformsAll(fields, vs) && k < |fields|
    ensures Conforms(fields[k], vs[k])
  {}

  function SlotSize(slot: Slot): nat {
    match slot
    case NoSlot => 0
    case Inline(data) => |data|
    case Ref(_) => 4
  }

  function SlotSizes(slots: seq<Slot>): nat { if slots == [] then 0 else SlotSize(slots[0]) + SlotSizes(slots[1..]) }

  lemma {:induction false} InlineLength(slots: seq<Slot>, tail: nat)
    ensures |InlineBytes(slots, tail)| == SlotSizes(slots)
  {
    if slots != [] { InlineLength(slots[1..], tail); }
  }

  lemma TableLength(slots: seq<Slot>, tail: nat)
    ensures |TableBytes(slots, tail)| == 4 + 2 * |slots| + 4 + SlotSizes(slots)
  {
    InlineLength(slots, tail);
  }

  lemma {:induction false} SlotSizesSnoc(slots: seq<Slot>, last: Slot)
    ensures SlotSizes(slots + [last]) == SlotSizes(slots) + SlotSize(last)
  {
    if slots == [] {
      assert [] + [last] == [last];
    } else {
      assert (slots + [last])[1..] == slots[1..] + [last];
      SlotSizesSnoc(slots[1..], last);
    }
  }

  // ---------------------------------------------------------------------------
  // The builder object
  // ---------------------------------------------------------------------------

  class FlatBuilder {
    var data: bytes

    constructor ()
      ensures data == []
    {
      data := [];
    }

    method PrependByte(x: byte)
      modifies this
      ensures data == [x] + old(data)
    {
      data := [x] + data;
    }

    method PrependUint32(x: uint32)
      modifies this
      ensures data == LE32(x) + old(data)
    {
      data := LE32(x) + data;
    }

    /** Prepends the forward distance from the new word to an earlier object. */
    method PrependUOffset(offset: nat)
      modifies this
      ensures data == LE32(ToUint32(|old(data)| + 4 - offset)) + old(data)
    {
      data := LE32(ToUint32(|data| + 4 - offset)) + data;
    }

    /** Bytes are prepended from the last to the first, so they end up in order. */
    method CreateByteVector(d: bytes) returns (offset: nat)
      modifies this
      ensures data == LE32(ToUint32(|d|)) + d + old(data)
      ensures offset == |data|
    {
      var i := |d|;
      while i > 0
        invariant 0 <= i <= |d|
        invariant data == d[i..] + old(data)
      {
        i := i - 1;
        PrependByte(d[i]);
      }
      PrependUint32(ToUint32(|d|));
      offset := |data|;
    }

    method CreateUint32Vector(d: seq<uint32>) returns (offset: nat)
      modifies this
      ensures data == LE32(ToUint32(|d|)) + WordBytes(d) + old(data)
      ensures offset == |data|
    {
      hide LE32;
      var i := |d|;
      while i > 0
        invariant 0 <= i <= |d|
        invariant data == WordBytes(d[i..]) + old(data)
      {
        i := i - 1;
        PrependUint32(d[i]);
        assert d[i..][1..] == d[i + 1..];
      }
      assert d[0..] == d;
      PrependUint32(ToUint32(|d|));
      offset := |data|;
    }

    method CreateUOffsetVector(d: seq<nat>) returns (offset: nat)
      modifies this
      ensures data == LE32(ToUint32(|d|)) + InlineBytes(References(d), |old(data)|) + old(data)
      ensures offset == |data|
    {
      var i := |d|;
      ghost var slots, n, inline := References(d), |data|, [];
      assert InlineBytes(slots[i..], n) == [];
      hide LE32, InlineBytes;
      while i > 0
        invariant 0 <= i <= |d|
        invariant inline == InlineBytes(slots[i..], n)
        invariant data == inline + old(data)
      {
        i := i - 1;
        PrependUOffset(d[i]);
        ghost var word := SlotBytes(slots[i], n + |inline|);
        assert data == word + (inline + old(data));
        Associates(word, inline, old(data));
        InlineStep(slots, i, n);
        inline := word + inline;
      }
      assert slots[0..] == slots;
      PrependUint32(ToUint32(|d|));
      Associates(LE32(ToUint32(|d|)), inline, old(data));
      offset := |data|;
    }

    /** The library's table writer, by its layout. */
    method EndTable(slots: seq<Slot>) returns (offset: nat)
      modifies this
      ensures data == TableBytes(slots, |old(data)|) + old(data)
      ensures offset == |data| - VTableLength(slots)
    {
      data := TableBytes(slots, |data|) + data;
      offset := |data| - VTableLength(slots);
    }

    /** Stores a vector of bytes, or of two words. */
    method AddVector(n: uint32, d: bytes) returns (offset: nat)
      requires n == 1 || (n == 4 && |d| == 8)
      modifies this
      ensures Suffix(old(data), data)
      ensures offset == |data| == |old(data)| + 4 + |d|
      ensures |data| <= TWO31 ==> EncodesTarget(data, 0, Array(n), Vector(d))
    {
      hide LE32, FromLE32, EncodesTarget;
      if n == 1 {
        offset := CreateByteVector(d);
        if |data| <= TWO31 {
          SpanIsProduct(|d|, 1);
          VectorEncodes(|d|, d, old(data), 1);
        }
      } else {
        var words := [FromLE32(d[..4]), FromLE32(d[4..])];
        offset := CreateUint32Vector(words);
        PairBytes(d);
        SpanIsProduct(2, 4);
        VectorEncodes(2, d, old(data), 4);
      }
    }

    /** Stores a value and returns its slot; past two gigabytes nothing is promised. */
    method AddValue(attr: Attribute, v: Value) returns (slot: Slot)
      requires Conforms(attr, v)
      modifies this
      ensures Suffix(old(data), data)
      ensures |data| == |old(data)| + BuiltValue(v) && SlotSize(slot) == InlineSize(v)
      ensures |data| <= TWO31 ==> SlotHolds(data, slot, attr, v)
      decreases attr, 1
    {
      hide EncodesTarget, EncodesTable, BuiltRows, BuiltTable;
      match attr
      case Scalar(_) =>
        slot := if v.AbsentScalar? then NoSlot else Inline(v.data);
      case Array(n) =>
        var offset := AddVector(n, v.data);
        slot := Ref(offset);
      case Table(fields) =>
        var offset := AddTable(fields, v.fields);
        if |data| <= TWO31 { TableTarget(data, |data| - offset, fields, v); }
        slot := Ref(offset);
      case TableArray(fields) =>
        if v.AbsentTables? {
          slot := NoSlot;
        } else {
          var offset := AddRows(fields, v.rows);
          slot := Ref(offset);
        }
    }

    method AddRows(fields: seq<Attribute>, rows: seq<Value>) returns (offset: nat)
      requires forall k :: 0 <= k < |rows| ==> ConformsRow(fields, rows[k])
      modifies this
      ensures Suffix(old(data), data)
      ensures 0 < offset == |data| == |old(data)| + 4 + BuiltRows(rows)
      ensures |data| <= TWO31 ==> EncodesTarget(data, 0, TableArray(fields), Tables(rows))
      decreases fields, 1
    {
      var offsets: seq<nat> := [];
      ghost var was := data;
      RowsBegin(was, fields, rows);
      hide *;
      for k := 0 to |rows|
        invariant |offsets| == k && RowsDone(was, data, offsets, fields, rows)
      {
        ghost var before := data;
        RowConforms(fields, rows[k]);
        var row := AddTable(fields, rows[k].fields);
        RowsNext(was, before, data, offsets, row, fields, rows);
        offsets := offsets + [row];
      }
      ghost var before := data;
      RowsEnd(was, data, offsets, fields, rows);
      offset := AddReferences(offsets, fields, rows);
      SuffixTransitive(was, before, data);
    }

    method AddReferences(offsets: seq<nat>, ghost fields: seq<Attribute>, ghost rows: seq<Value>) returns (offset: nat)
      requires forall k :: 0 <= k < |rows| ==> ConformsRow(fields, rows[k])
      requires |offsets| == |rows|
      requires |data| <= TWO31 ==> RowsHold(data, offsets, fields, rows)
      modifies this
      ensures Suffix(old(data), data)
      ensures 0 < offset == |data| == |old(data)| + 4 + 4 * |rows|
      ensures |data| <= TWO31 ==> EncodesTarget(data, 0, TableArray(fields), Tables(rows))
    {
      hide EncodesTarget, InlineBytes, RowsHold;
      ghost var before := data;
      ReferencesLength(offsets, |data|);
      offset := CreateUOffsetVector(offsets);
      if |data| <= TWO31 { RowsEncode(offsets, before, fields, rows); }
    }

    method AddTable(fields: seq<Attribute>, vs: seq<Value>) returns (offset: nat)
      requires ConformsAll(fields, vs)
      modifies this
      ensures Suffix(old(data), data)
      ensures 0 < offset <= |data|
      ensures |data| - offset == 4 + 2 * |fields|
      ensures |data| == |old(data)| + BuiltTable(vs)
      ensures |data| <= TWO31 ==> EncodesTable(data, |data| - offset, fields, vs)
      decreases fields, 0, 1
    {
      hide *;
      ghost var was := data;
      var slots := AddFields(fields, vs);
      ghost var before := data;
      offset := EndTable(slots);
      TableAdded(was, before, slots, fields, vs);
    }

    /** Stores the objects of a table's fields and returns its slots. */
    method AddFields(fields: seq<Attribute>, vs: seq<Value>) returns (slots: seq<Slot>)
      requires ConformsAll(fields, vs)
      modifies this
      ensures Suffix(old(data), data) && |slots| == |fields|
      ensures |data| == |old(data)| + BuiltFields(vs) && SlotSizes(slots) == InlineSizes(vs)
      ensures |data| <= TWO31 ==> SlotsHold(data, slots, fields, vs)
      decreases fields, 0, 0
    {
      slots := [];
      assert |fields| == |vs|;
      ghost var was := data;
      FieldsBegin(was, fields, vs);
      hide *;
      for k := 0 to |fields|
        invariant |slots| == k && FieldsDone(was, data, slots, fields, vs)
      {
        ghost var before := data;
        FieldConforms(fields, vs, k);
        var slot := AddValue(fields[k], vs[k]);
        FieldsNext(was, before, data, slots, slot, fields, vs);
        slots := slots + [slot];
      }
      FieldsEnd(was, data, slots, fields, vs);
    }

    /** Builds and finishes a buffer, or fails when it passes two gigabytes. */
    method Finish(fields: seq<Attribute>, vs: seq<Value>) returns (b: bytes, ok: bool)
      requires ConformsAll(fields, vs)
      modifies this
      ensures b == data && |b| == |old(data)| + BuiltSize(vs)
      ensures ok <==> |b| <= TWO31
      ensures ok ==> EncodesRoot(b, fields, vs)
    {
      hide LE32, FromLE32, FromLE16;
      var offset := AddTable(fields, vs);
      ghost var before := data;
      PrependUOffset(offset);
      b, ok := data, |data| <= TWO31;
      if ok {
        assert b[0..4] == LE32(ToUint32(|before| + 4 - offset));
        LE32RoundTrip(ToUint32(|before| + 4 - offset));
        EncodingShift(before, b, |before| - offset, fields, vs);
      }
    }
  }

  lemma PairBytes(d: bytes)
    requires |d| == 8
    ensures WordBytes([FromLE32(d[..4]), FromLE32(d[4..])]) == d
  {
    hide LE32, FromLE32;
    LE32Inverse(d[..4]);
    LE32Inverse(d[4..]);
    var words := [FromLE32(d[..4]), FromLE32(d[4..])];
    assert words[1..] == [words[1]] && words[1..][1..] == [];
    assert WordBytes(words[1..]) == LE32(words[1]) + WordBytes(words[1..][1..]);
    assert WordBytes(words) == LE32(words[0]) + WordBytes(words[1..]);
    assert d == d[..4] + d[4..];
  }

  /** Reading back what was built: for every conforming value tree, the reader run on the
      finished buffer emits exactly the depth-first concatenation of the tree. */
  method BuildAndSerialize(fields: seq<Attribute>, vs: seq<Value>) returns (r: bytes, ok: bool)
    requires ConformsAll(fields, vs)
    ensures ok <==> BuiltSize(vs) <= TWO31
    ensures ok ==> r == FlattenAll(vs)
  {
    var builder := new FlatBuilder();
    var b;
    b, ok := builder.Finish(fields, vs);
    r := [];
    if ok {
      r := Serialize(fields, b, vs);
    }
  }
}