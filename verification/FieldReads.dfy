/** Where the flat form of a value tree holds each of its fields and rows. */
module FieldReads {
  import opened Words
  import opened Wrappers
  import opened Schema
  import opened Transactions
  import opened SizeLaw
  import opened InnerEncodings
  import opened ReadBacks

  // ---------------------------------------------------------------------------
  // Where a flat form holds its fields
  // ---------------------------------------------------------------------------

  function OffsetAt(vs: seq<Value>, k: nat): nat
    requires k <= |vs|
  {
    |FlattenAll(vs[..k])|
  }

  lemma OffsetsEnd(vs: seq<Value>)
    ensures OffsetAt(vs, 0) == 0 && OffsetAt(vs, |vs|) == |FlattenAll(vs)|
  {
    assert vs[..|vs|] == vs;
  }

  lemma FieldAt(vs: seq<Value>, k: nat)
    requires k < |vs|
    ensures OffsetAt(vs, k + 1) == OffsetAt(vs, k) + |Flatten(vs[k])|
    ensures BytesAt(FlattenAll(vs), OffsetAt(vs, k), Flatten(vs[k]))
  {
    hide Flatten, FlattenAll;
    FlattenAllStep(vs, k);
    FlattenAllAppend(vs[..k + 1], vs[k + 1..]);
    assert vs == vs[..k + 1] + vs[k + 1..];
    var before, field, after := FlattenAll(vs[..k]), Flatten(vs[k]), FlattenAll(vs[k + 1..]);
    Middle(before, field, after);
  }

  /** A field whose flat form is known. */
  lemma FieldIs(vs: seq<Value>, k: nat, s: bytes)
    requires k < |vs| && Flatten(vs[k]) == s
    ensures OffsetAt(vs, k + 1) == OffsetAt(vs, k) + |s| && BytesAt(FlattenAll(vs), OffsetAt(vs, k), s)
  {
    hide *;
    FieldAt(vs, k);
  }

  // What is read of a string is read of every string that holds it.

  lemma ByteShift(d: bytes, at: nat, f: bytes, i: nat, x: int)
    requires BytesAt(d, at, f) && ByteAt(f, i, x)
    ensures ByteAt(d, at + i, x)
  {
    assert d[at..at + |f|][i] == d[at + i];
  }

  lemma ShortShift(d: bytes, at: nat, f: bytes, i: nat, x: int)
    requires BytesAt(d, at, f) && ShortAt(f, i, x)
    ensures ShortAt(d, at + i, x)
  {
    hide FromLE16, ByteAt;
    if x == 0 {
      ByteShift(d, at, f, i, 0);
    } else {
      SliceOfSlice(d, at, at + |f|, i, i + 2);
    }
  }

  lemma IntShift(d: bytes, at: nat, f: bytes, i: nat, x: int)
    requires BytesAt(d, at, f) && IntAt(f, i, x)
    ensures IntAt(d, at + i, x)
  {
    hide FromLE32, ByteAt;
    if x == 0 {
      ByteShift(d, at, f, i, 0);
    } else {
      SliceOfSlice(d, at, at + |f|, i, i + 4);
    }
  }

  lemma LongShift(d: bytes, at: nat, f: bytes, i: nat, x: int64)
    requires BytesAt(d, at, f) && LongAt(f, i, x)
    ensures LongAt(d, at + i, x)
  {
    hide ReadLong;
    SliceOfSlice(d, at, at + |f|, i, i + 8);
  }

  lemma WordShift(d: bytes, at: nat, f: bytes, i: nat, x: uint64)
    requires BytesAt(d, at, f) && WordAt(f, i, x)
    ensures WordAt(d, at + i, x)
  {
    hide ReadWord;
    SliceOfSlice(d, at, at + |f|, i, i + 8);
  }

  // How each number is stored.

  lemma ByteFlat(x: byte)
    ensures |Flatten(ByteValue(x))| == 1 && ByteAt(Flatten(ByteValue(x)), 0, x)
  {
  }

  lemma ShortFlat(x: uint16)
    ensures |Flatten(ShortValue(x))| == ShortWidth(x) && ShortAt(Flatten(ShortValue(x)), 0, x)
  {
    hide LE16, FromLE16;
    LE16RoundTrip(x);
    assert LE16(x)[0..2] == LE16(x);
  }

  lemma IntFlat(x: uint32)
    ensures |Flatten(IntValue(x))| == IntWidth(x) && IntAt(Flatten(IntValue(x)), 0, x)
  {
    hide LE32, FromLE32;
    LE32RoundTrip(x);
    assert LE32(x)[0..4] == LE32(x);
  }

  lemma LongFlat(x: int64)
    ensures |Flatten(LongValue(x))| == 8 && LongAt(Flatten(LongValue(x)), 0, x)
  {
    hide LE64, ReadLong, ToUint64;
    ReadLongBack(x);
    assert LE64(ToUint64(x))[0..8] == LE64(ToUint64(x));
  }

  lemma WordFlat(x: uint64)
    ensures |Flatten(LongValue(x))| == 8 && WordAt(Flatten(LongValue(x)), 0, x)
  {
    assert ToUint64(x) == x;
    hide LE64, ReadWord, ToUint64;
    ReadWordBack(x);
    assert LE64(x)[0..8] == LE64(x);
  }

  // The fields that hold them.

  lemma ByteField(vs: seq<Value>, k: nat, x: byte)
    requires k < |vs| && vs[k] == ByteValue(x)
    ensures OffsetAt(vs, k + 1) == OffsetAt(vs, k) + 1 && ByteAt(FlattenAll(vs), OffsetAt(vs, k), x)
  {
    hide *;
    var s := Flatten(ByteValue(x));
    ByteFlat(x);
    FieldIs(vs, k, s);
    ByteShift(FlattenAll(vs), OffsetAt(vs, k), s, 0, x);
  }

  lemma CountField(vs: seq<Value>, k: nat, n: nat)
    requires k < |vs| && vs[k] == ByteValue(ToUint8(n))
    ensures OffsetAt(vs, k + 1) == OffsetAt(vs, k) + 1 && ByteAt(FlattenAll(vs), OffsetAt(vs, k), n % 256)
  {
    hide *;
    Truncations(n);
    ByteField(vs, k, ToUint8(n));
  }

  lemma ShortField(vs: seq<Value>, k: nat, x: uint16)
    requires k < |vs| && vs[k] == ShortValue(x)
    ensures OffsetAt(vs, k + 1) == OffsetAt(vs, k) + ShortWidth(x) && ShortAt(FlattenAll(vs), OffsetAt(vs, k), x)
  {
    hide *;
    var s := Flatten(ShortValue(x));
    ShortFlat(x);
    FieldIs(vs, k, s);
    ShortShift(FlattenAll(vs), OffsetAt(vs, k), s, 0, x);
  }

  lemma LengthField(vs: seq<Value>, k: nat, n: nat)
    requires k < |vs| && vs[k] == ShortValue(ToUint16(n))
    ensures OffsetAt(vs, k + 1) == OffsetAt(vs, k) + ShortWidth(n % 65536)
    ensures ShortAt(FlattenAll(vs), OffsetAt(vs, k), n % 65536)
  {
    hide *;
    Truncations(n);
    ShortField(vs, k, ToUint16(n));
  }

  lemma IntField(vs: seq<Value>, k: nat, x: uint32)
    requires k < |vs| && vs[k] == IntValue(x)
    ensures OffsetAt(vs, k + 1) == OffsetAt(vs, k) + IntWidth(x) && IntAt(FlattenAll(vs), OffsetAt(vs, k), x)
  {
    hide *;
    var s := Flatten(IntValue(x));
    IntFlat(x);
    FieldIs(vs, k, s);
    IntShift(FlattenAll(vs), OffsetAt(vs, k), s, 0, x);
  }

  lemma LongField(vs: seq<Value>, k: nat, x: int64)
    requires k < |vs| && vs[k] == LongValue(x)
    ensures OffsetAt(vs, k + 1) == OffsetAt(vs, k) + 8 && LongAt(FlattenAll(vs), OffsetAt(vs, k), x)
  {
    hide *;
    var s := Flatten(LongValue(x));
    LongFlat(x);
    FieldIs(vs, k, s);
    LongShift(FlattenAll(vs), OffsetAt(vs, k), s, 0, x);
  }

  lemma WordField(vs: seq<Value>, k: nat, x: uint64)
    requires k < |vs| && vs[k] == LongValue(x)
    ensures OffsetAt(vs, k + 1) == OffsetAt(vs, k) + 8 && WordAt(FlattenAll(vs), OffsetAt(vs, k), x)
  {
    hide *;
    var s := Flatten(LongValue(x));
    WordFlat(x);
    FieldIs(vs, k, s);
    WordShift(FlattenAll(vs), OffsetAt(vs, k), s, 0, x);
  }

  lemma BytesField(vs: seq<Value>, k: nat, s: bytes)
    requires k < |vs| && vs[k] == Vector(s)
    ensures OffsetAt(vs, k + 1) == OffsetAt(vs, k) + |s| && BytesAt(FlattenAll(vs), OffsetAt(vs, k), s)
  {
    FieldAt(vs, k);
    hide FlattenAll, OffsetAt;
  }

  /** A 64-bit number that the program stores as eight bytes. */
  lemma WordBytesField(vs: seq<Value>, k: nat, x: uint64)
    requires k < |vs| && vs[k] == Vector(LE64(x))
    ensures OffsetAt(vs, k + 1) == OffsetAt(vs, k) + 8 && WordAt(FlattenAll(vs), OffsetAt(vs, k), x)
  {
    hide FlattenAll, OffsetAt, LE64, ReadWord;
    BytesField(vs, k, LE64(x));
    ReadWordBack(x);
  }

  // ---------------------------------------------------------------------------
  // Where a list holds its rows
  // ---------------------------------------------------------------------------

  lemma Within(d: bytes, at: nat, whole: bytes, i: nat, s: bytes)
    requires BytesAt(d, at, whole) && BytesAt(whole, i, s)
    ensures BytesAt(d, at + i, s)
  {
    SliceOfSlice(d, at, at + |whole|, i, i + |s|);
  }

  lemma OneByte(d: bytes, at: nat, x: byte)
    requires BytesAt(d, at, [x])
    ensures ByteAt(d, at, x)
  {
    assert d[at..at + 1][0] == d[at];
  }

  lemma PairFlat(a: Value, b: Value)
    ensures Flatten(Record([a, b])) == Flatten(a) + Flatten(b)
  {
    hide Flatten;
    assert [a, b] == [a] + [b];
    FlattenAllAppend([a], [b]);
    SingleFlat(a);
    SingleFlat(b);
    RecordFlat([a, b]);
  }

  lemma RecordFlat(vs: seq<Value>)
    ensures Flatten(Record(vs)) == FlattenAll(vs) && Flatten(Tables(vs)) == FlattenAll(vs)
  {
  }

  lemma SingleFlat(v: Value)
    ensures FlattenAll([v]) == Flatten(v)
  {
    assert [v][1..] == [];
  }

  /** Rows of `n` bytes stand `n` bytes apart. */
  lemma RowAt(rows: seq<Value>, n: nat, i: nat)
    requires i < |rows| && forall k :: 0 <= k < |rows| ==> |Flatten(rows[k])| == n
    ensures BytesAt(FlattenAll(rows), n * i, Flatten(rows[i]))
  {
    hide Flatten, FlattenAll;
    FieldAt(rows, i);
    RowsLength(rows[..i], n);
  }

  /** Row `i` of a list. */
  lemma RowWhole(vs: seq<Value>, k: nat, rows: seq<Value>, n: nat, i: nat)
    requires k < |vs| && vs[k] == Tables(rows) && i < |rows|
    requires forall k :: 0 <= k < |rows| ==> |Flatten(rows[k])| == n
    ensures BytesAt(FlattenAll(vs), OffsetAt(vs, k) + n * i, Flatten(rows[i]))
  {
    hide Flatten, FlattenAll, OffsetAt, BytesAt;
    FieldAt(vs, k);
    RecordFlat(rows);
    RowAt(rows, n, i);
    Within(FlattenAll(vs), OffsetAt(vs, k), FlattenAll(rows), n * i, Flatten(rows[i]));
  }

  lemma PairParts(d: bytes, at: nat, a: Value, b: Value)
    requires BytesAt(d, at, Flatten(Record([a, b])))
    ensures BytesAt(d, at, Flatten(a)) && BytesAt(d, at + |Flatten(a)|, Flatten(b))
  {
    hide Flatten, BytesAt;
    PairFlat(a, b);
    var whole := Flatten(a) + Flatten(b);
    Halves(Flatten(a), Flatten(b));
    Within(d, at, whole, 0, Flatten(a));
    Within(d, at, whole, |Flatten(a)|, Flatten(b));
  }

  /** The two parts of row `i` in a list of pairs. */
  lemma PairRow(vs: seq<Value>, k: nat, rows: seq<Value>, n: nat, i: nat, a: Value, b: Value)
    requires k < |vs| && vs[k] == Tables(rows) && i < |rows| && rows[i] == Record([a, b])
    requires forall k :: 0 <= k < |rows| ==> |Flatten(rows[k])| == n
    ensures var d, at := FlattenAll(vs), OffsetAt(vs, k) + n * i;
            BytesAt(d, at, Flatten(a)) && BytesAt(d, at + |Flatten(a)|, Flatten(b))
  {
    hide Flatten, FlattenAll, OffsetAt, BytesAt;
    RowWhole(vs, k, rows, n, i);
    var at := OffsetAt(vs, k) + n * i;
    NonNegative(n, i);
    PairParts(FlattenAll(vs), at, a, b);
  }

  lemma NonNegative(n: nat, i: nat)
    ensures n * i >= 0
  {
  }

  lemma Halves(a: bytes, b: bytes)
    ensures BytesAt(a + b, 0, a) && BytesAt(a + b, |a|, b)
  {
  }

  lemma RowsField(vs: seq<Value>, k: nat, rows: seq<Value>, n: nat)
    requires k < |vs| && vs[k] == Tables(rows) && forall k :: 0 <= k < |rows| ==> |Flatten(rows[k])| == n
    ensures OffsetAt(vs, k + 1) == OffsetAt(vs, k) + n * |rows|
  {
    hide Flatten, FlattenAll, OffsetAt;
    FieldAt(vs, k);
    RecordFlat(rows);
    RowsLength(rows, n);
  }

  lemma PairRowLengths(a: Value, b: Value, n: nat)
    requires |Flatten(a)| + |Flatten(b)| == n
    ensures |Flatten(Record([a, b]))| == n
  {
    PairFlat(a, b);
  }

  lemma ChangeRowLengths(changes: seq<Change<bytes>>, n: nat)
    requires forall i :: 0 <= i < |changes| ==> |changes[i].value| == n
    ensures forall i :: 0 <= i < |ChangeRows(changes)| ==> |Flatten(ChangeRows(changes)[i])| == 1 + n
  {
    forall i | 0 <= i < |changes| ensures |Flatten(ChangeRows(changes)[i])| == 1 + n {
      ChangeFlat(changes[i]);
      hide Flatten;
      PairRowLengths(ByteValue(changes[i].kind), Vector(changes[i].value), 1 + n);
    }
  }

  lemma ChangeRow(vs: seq<Value>, k: nat, changes: seq<Change<bytes>>, n: nat, i: nat)
    requires k < |vs| && vs[k] == Tables(ChangeRows(changes)) && i < |changes|
    requires forall i :: 0 <= i < |changes| ==> |changes[i].value| == n
    ensures var d, at := FlattenAll(vs), OffsetAt(vs, k) + (1 + n) * i;
            ByteAt(d, at, changes[i].kind) && BytesAt(d, at + 1, changes[i].value)
  {
    hide FlattenAll, OffsetAt, Flatten, BytesAt, ByteAt;
    ChangeRowLengths(changes, n);
    PairRow(vs, k, ChangeRows(changes), 1 + n, i, ByteValue(changes[i].kind), Vector(changes[i].value));
    ChangeFlat(changes[i]);
    NonNegative(1 + n, i);
    OneByte(FlattenAll(vs), OffsetAt(vs, k) + (1 + n) * i, changes[i].kind);
  }

  lemma ChangesField(vs: seq<Value>, k: nat, changes: seq<Change<bytes>>, n: nat)
    requires k < |vs| && vs[k] == Tables(ChangeRows(changes))
    requires forall i :: 0 <= i < |changes| ==> |changes[i].value| == n
    ensures OffsetAt(vs, k + 1) == OffsetAt(vs, k) + (1 + n) * |changes|
    ensures ChangesAt(FlattenAll(vs), OffsetAt(vs, k), changes, n)
  {
    hide FlattenAll, OffsetAt, Flatten, BytesAt, ByteAt;
    ChangeRowLengths(changes, n);
    RowsField(vs, k, ChangeRows(changes), 1 + n);
    forall i | 0 <= i < |changes|
      ensures ByteAt(FlattenAll(vs), OffsetAt(vs, k) + (1 + n) * i, changes[i].kind)
      ensures BytesAt(FlattenAll(vs), OffsetAt(vs, k) + (1 + n) * i + 1, changes[i].value)
    {
      ChangeRow(vs, k, changes, n, i);
    }
  }

  lemma ChangeFlat(c: Change<bytes>)
    ensures Flatten(ByteValue(c.kind)) == [c.kind] && Flatten(Vector(c.value)) == c.value
  {
  }

  lemma AssetRow(vs: seq<Value>, k: nat, changes: seq<Change<uint64>>, i: nat)
    requires k < |vs| && vs[k] == Tables(ChangeRows(MosaicBytes(changes))) && i < |changes|
    ensures var d, at := FlattenAll(vs), OffsetAt(vs, k) + 9 * i;
            ByteAt(d, at, changes[i].kind) && WordAt(d, at + 1, changes[i].value)
  {
    hide FlattenAll, OffsetAt, LE64, ReadWord;
    ChangeRow(vs, k, MosaicBytes(changes), 8, i);
    ReadWordBack(changes[i].value);
  }

  lemma AssetsField(vs: seq<Value>, k: nat, changes: seq<Change<uint64>>)
    requires k < |vs| && vs[k] == Tables(ChangeRows(MosaicBytes(changes)))
    ensures OffsetAt(vs, k + 1) == OffsetAt(vs, k) + 9 * |changes|
    ensures AssetChangesAt(FlattenAll(vs), OffsetAt(vs, k), changes)
  {
    hide FlattenAll, OffsetAt, LE64, ByteAt, WordAt, ChangesAt;
    ChangesField(vs, k, MosaicBytes(changes), 8);
    hide ChangeRows;
    forall i | 0 <= i < |changes|
      ensures ByteAt(FlattenAll(vs), OffsetAt(vs, k) + 9 * i, changes[i].kind)
      ensures WordAt(FlattenAll(vs), OffsetAt(vs, k) + 9 * i + 1, changes[i].value)
    {
      AssetRow(vs, k, changes, i);
    }
  }

  lemma EntityTypeRow(vs: seq<Value>, k: nat, changes: seq<Change<uint16>>, i: nat)
    requires k < |vs| && vs[k] == Tables(ChangeRows(EntityTypeBytes(changes))) && i < |changes|
    ensures EntityTypeChangeAt(FlattenAll(vs), OffsetAt(vs, k) + 3 * i, changes[i])
  {
    hide FlattenAll, OffsetAt, LE16, FromLE16;
    ChangeRow(vs, k, EntityTypeBytes(changes), 2, i);
    LE16RoundTrip(changes[i].value);
  }

  lemma EntityTypesField(vs: seq<Value>, k: nat, changes: seq<Change<uint16>>)
    requires k < |vs| && vs[k] == Tables(ChangeRows(EntityTypeBytes(changes)))
    ensures OffsetAt(vs, k + 1) == OffsetAt(vs, k) + 3 * |changes|
    ensures EntityTypeChangesAt(FlattenAll(vs), OffsetAt(vs, k), changes)
  {
    hide FlattenAll, OffsetAt, LE16, EntityTypeChangeAt, ChangesAt;
    ChangesField(vs, k, EntityTypeBytes(changes), 2);
    hide ChangeRows;
    forall i | 0 <= i < |changes| ensures EntityTypeChangeAt(FlattenAll(vs), OffsetAt(vs, k) + 3 * i, changes[i]) {
      EntityTypeRow(vs, k, changes, i);
    }
  }

  lemma PropertiesField(vs: seq<Value>, k: nat, properties: seq<Change<int64>>)
    requires k < |vs| && vs[k] == Tables(PropertyRows(properties))
    ensures OffsetAt(vs, k + 1) == OffsetAt(vs, k) + 9 * |properties|
    ensures PropertiesAt(FlattenAll(vs), OffsetAt(vs, k), properties)
  {
    hide FlattenAll, OffsetAt, LE64, ReadLong, ToUint64;
    var rows, d, at := PropertyRows(properties), FlattenAll(vs), OffsetAt(vs, k);
    forall i | 0 <= i < |rows| ensures |Flatten(rows[i])| == 9 {
      PairRowLengths(ByteValue(properties[i].kind), LongValue(properties[i].value), 9);
    }
    RowsField(vs, k, rows, 9);
    forall i | 0 <= i < |properties|
      ensures ByteAt(d, at + 9 * i, properties[i].kind) && LongAt(d, at + 9 * i + 1, properties[i].value)
    {
      PairRow(vs, k, rows, 9, i, ByteValue(properties[i].kind), LongValue(properties[i].value));
      assert Flatten(ByteValue(properties[i].kind)) == [properties[i].kind];
      OneByte(d, at + 9 * i, properties[i].kind);
      ReadLongBack(properties[i].value);
    }
  }

  lemma MosaicsField(vs: seq<Value>, k: nat, mosaics: seq<Mosaic>)
    requires k < |vs| && vs[k] == Tables(MosaicRows(mosaics))
    ensures OffsetAt(vs, k + 1) == OffsetAt(vs, k) + 16 * |mosaics|
    ensures MosaicsAt(FlattenAll(vs), OffsetAt(vs, k), mosaics)
  {
    hide FlattenAll, OffsetAt, LE64, ReadLong, ReadWord;
    var rows, d, at := MosaicRows(mosaics), FlattenAll(vs), OffsetAt(vs, k);
    forall i | 0 <= i < |rows| ensures |Flatten(rows[i])| == 16 {
      PairRowLengths(LongValue(mosaics[i].id), LongValue(mosaics[i].amount), 16);
    }
    RowsField(vs, k, rows, 16);
    forall i | 0 <= i < |mosaics|
      ensures WordAt(d, at + 16 * i, mosaics[i].id) && LongAt(d, at + 16 * i + 8, mosaics[i].amount)
    {
      PairRow(vs, k, rows, 16, i, LongValue(mosaics[i].id), LongValue(mosaics[i].amount));
      assert ToUint64(mosaics[i].id) == mosaics[i].id;
      hide ToUint64;
      ReadWordBack(mosaics[i].id);
      ReadLongBack(mosaics[i].amount);
    }
  }

  lemma MessageField(vs: seq<Value>, k: nat, messageType: byte, payload: bytes)
    requires k < |vs| && vs[k] == Record([ByteValue(messageType), Vector(payload)])
    ensures OffsetAt(vs, k + 1) == OffsetAt(vs, k) + 1 + |payload|
    ensures ByteAt(FlattenAll(vs), OffsetAt(vs, k), messageType)
    ensures BytesAt(FlattenAll(vs), OffsetAt(vs, k) + 1, payload)
  {
    hide *;
    var d, at := FlattenAll(vs), OffsetAt(vs, k);
    FieldAt(vs, k);
    PairFlat(ByteValue(messageType), Vector(payload));
    ChangeFlat(Change(messageType, payload));
    Halves([messageType], payload);
    Within(d, at, [messageType] + payload, 0, [messageType]);
    Within(d, at, [messageType] + payload, 1, payload);
    OneByte(d, at, messageType);
  }

  // ---------------------------------------------------------------------------
  // Metadata rows
  // ---------------------------------------------------------------------------

  /** The six parts of a row, one after the other. */
  lemma RowParts(vs: seq<Value>, size: uint32, kind: byte, key: bytes, value: bytes)
    requires vs == [IntValue(size), ByteValue(kind), ByteValue(ToUint8(|key|)),
                    Vector(LE16(ToUint16(|value|))), Vector(key), Vector(value)]
    ensures var d, w := FlattenAll(vs), IntWidth(size);
            && |d| == w + 4 + |key| + |value|
            && IntAt(d, 0, size) && ByteAt(d, w, kind) && ByteAt(d, w + 1, |key| % 256)
            && FromLE16(d[w + 2..w + 4]) == |value| % 65536
            && BytesAt(d, w + 4, key) && BytesAt(d, w + 4 + |key|, value)
  {
    hide *;
    Truncations(|value|);
    OffsetsEnd(vs);
    IntField(vs, 0, size);
    ByteField(vs, 1, kind);
    CountField(vs, 2, |key|);
    ShortBytesField(vs, 3, ToUint16(|value|));
    BytesField(vs, 4, key);
    BytesField(vs, 5, value);
  }

  /** One row by itself. */
  lemma MetadataRowReads(vs: seq<Value>, m: MetadataChange)
    requires vs == [IntValue(ToUint32(RowSize(m))), ByteValue(m.kind), ByteValue(ToUint8(|m.key|)),
                    Vector(LE16(ToUint16(|m.value|))), Vector(m.key), Vector(m.value)]
    ensures MetadataRowAt(FlattenAll(vs), 0, m) && |FlattenAll(vs)| == RowWidth(m)
  {
    Truncations(RowSize(m));
    RowParts(vs, ToUint32(RowSize(m)), m.kind, m.key, m.value);
    hide FlattenAll, LE16, FromLE16, ToUint16, ToUint8, ToUint32, IntAt, ByteAt, BytesAt, RowSize, SizeWordAt, IntWidth;
    SizeWord(FlattenAll(vs), 0, m);
  }

  lemma SizeWord(d: bytes, at: nat, m: MetadataChange)
    requires IntAt(d, at, RowSize(m) % TWO32)
    ensures SizeWordAt(d, at, m)
  {
    if RowSize(m) < TWO32 { assert RowSize(m) % TWO32 == RowSize(m) && RowWidth(m) == RowSize(m); }
  }

  lemma MetadataRowAlone(m: MetadataChange)
    ensures MetadataRowAt(Flatten(MetadataRow(m)), 0, m)
    ensures |Flatten(MetadataRow(m))| == RowWidth(m)
  {
    var vs := MetadataRow(m).fields;
    RecordFlat(vs);
    assert MetadataChangeSize(m) == RowSize(m);
    hide Flatten, FlattenAll, MetadataRowAt, RowWidth, RowSize;
    MetadataRowReads(vs, m);
  }

  /** A 16-bit number that the program stores as two bytes, zero or not. */
  lemma ShortBytesField(vs: seq<Value>, k: nat, x: uint16)
    requires k < |vs| && vs[k] == Vector(LE16(x))
    ensures var d, at := FlattenAll(vs), OffsetAt(vs, k);
            OffsetAt(vs, k + 1) == at + 2 && InBuffer(d, at, 2) && FromLE16(d[at..at + 2]) == x
  {
    hide FlattenAll, OffsetAt, LE16, FromLE16;
    BytesField(vs, k, LE16(x));
    LE16RoundTrip(x);
  }

  /** The parts of a row within a larger string. */
  lemma PartsShift(d: bytes, at: nat, f: bytes, w: nat, size: int, kind: byte, key: bytes, value: bytes)
    requires BytesAt(d, at, f) && |f| == w + 4 + |key| + |value|
    requires IntAt(f, 0, size) && ByteAt(f, w, kind) && ByteAt(f, w + 1, |key| % 256)
    requires BytesAt(f, w + 4, key) && BytesAt(f, w + 4 + |key|, value)
    ensures InBuffer(d, at, |f|) && d[at + w + 2..at + w + 4] == f[w + 2..w + 4]
    ensures IntAt(d, at, size) && ByteAt(d, at + w, kind) && ByteAt(d, at + w + 1, |key| % 256)
    ensures BytesAt(d, at + w + 4, key) && BytesAt(d, at + w + 4 + |key|, value)
  {
    SliceOfSlice(d, at, at + |f|, w + 2, w + 4);
    hide ByteAt, IntAt;
    IntShift(d, at, f, 0, size);
    ByteShift(d, at, f, w, kind);
    ByteShift(d, at, f, w + 1, |key| % 256);
    Within(d, at, f, w + 4, key);
    Within(d, at, f, w + 4 + |key|, value);
    hide BytesAt;
  }

  /** The same row within a larger string. */
  lemma MetadataRowShift(d: bytes, at: nat, f: bytes, m: MetadataChange)
    requires BytesAt(d, at, f) && MetadataRowAt(f, 0, m) && |f| == RowWidth(m)
    ensures MetadataRowAt(d, at, m)
  {
    hide BytesAt, FromLE16, FromLE32, IntAt, ByteAt, RowSize, SizeWordAt, IntWidth;
    var w := IntWidth(RowSize(m) % TWO32);
    PartsShift(d, at, f, w, RowSize(m) % TWO32, m.kind, m.key, m.value);
    SizeWord(d, at, m);
  }

  lemma {:induction false} MetadataRead(d: bytes, at: nat, changes: seq<MetadataChange>)
    requires BytesAt(d, at, FlattenAll(MetadataRows(changes)))
    ensures MetadataAt(d, at, changes) && |FlattenAll(MetadataRows(changes))| == RowWidths(changes)
    decreases |changes|
  {
    hide Flatten, MetadataRow, MetadataRowAt, RowWidth;
    if changes == [] {
      assert MetadataRows(changes) == [];
    } else {
      var row, rest := Flatten(MetadataRow(changes[0])), FlattenAll(MetadataRows(changes[1..]));
      assert MetadataRows(changes)[0] == MetadataRow(changes[0]);
      assert MetadataRows(changes)[1..] == MetadataRows(changes[1..]);
      assert FlattenAll(MetadataRows(changes)) == row + rest;
      Halves(row, rest);
      Within(d, at, row + rest, 0, row);
      Within(d, at, row + rest, |row|, rest);
      MetadataRowAlone(changes[0]);
      MetadataRowShift(d, at, row, changes[0]);
      MetadataRead(d, at + |row|, changes[1..]);
    }
  }

  lemma MetadataField(vs: seq<Value>, k: nat, changes: seq<MetadataChange>)
    requires k < |vs| && vs[k] == Tables(MetadataRows(changes))
    ensures OffsetAt(vs, k + 1) == OffsetAt(vs, k) + RowWidths(changes)
    ensures MetadataAt(FlattenAll(vs), OffsetAt(vs, k), changes)
  {
    hide Flatten, FlattenAll, OffsetAt, MetadataAt, RowWidths;
    FieldAt(vs, k);
    RecordFlat(MetadataRows(changes));
    MetadataRead(FlattenAll(vs), OffsetAt(vs, k), changes);
  }
}
