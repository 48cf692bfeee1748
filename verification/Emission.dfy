/** Emission of transactions: the builder is filled, the finished buffer is read back
    along the schema, and inner transactions are stripped and concatenated. */
module Emission {
  import opened Words
  import opened Wrappers
  import opened Schema
  import opened TransactionSchemas
  import opened Transactions
  import opened Builder
  import opened SizeLaw
  import opened ReadBacks
  import opened EmissionReadBacks

  // ---------------------------------------------------------------------------
  // The trees conform to the schemas
  // ---------------------------------------------------------------------------

  function SchemaOf(body: Body): seq<Attribute> { COMMON + BodySchema(body) }

  lemma ConformsAppend(fields: seq<Attribute>, vs: seq<Value>, fields': seq<Attribute>, vs': seq<Value>)
    requires ConformsAll(fields, vs) && ConformsAll(fields', vs') && |fields| + |fields'| <= MAX_SLOTS
    ensures ConformsAll(fields + fields', vs + vs')
  {
    hide Conforms;
  }

  lemma ChangeRowsConform(changes: seq<Change<bytes>>)
    ensures Conforms(TableArray(CHANGE), Tables(ChangeRows(changes)))
  {
    var rows := ChangeRows(changes);
    forall k | 0 <= k < |rows| ensures ConformsRow(CHANGE, rows[k]) {
      assert rows[k].fields == [ByteValue(changes[k].kind), Vector(changes[k].value)];
    }
  }

  lemma PropertyRowsConform(properties: seq<Change<int64>>)
    ensures Conforms(TableArray(MOSAIC_PROPERTY), Tables(PropertyRows(properties)))
  {
    hide LE64;
    var rows := PropertyRows(properties);
    forall k | 0 <= k < |rows| ensures ConformsRow(MOSAIC_PROPERTY, rows[k]) {
      assert rows[k].fields == [ByteValue(properties[k].kind), LongValue(properties[k].value)];
      assert Conforms(Scalar(1), ByteValue(properties[k].kind)) && Conforms(Array(4), LongValue(properties[k].value));
    }
  }

  lemma MosaicRowsConform(mosaics: seq<Mosaic>)
    ensures Conforms(TableArray(MOSAIC), Tables(MosaicRows(mosaics)))
  {
    hide LE64;
    var rows := MosaicRows(mosaics);
    forall k | 0 <= k < |rows| ensures ConformsRow(MOSAIC, rows[k]) {
      assert rows[k].fields == [LongValue(mosaics[k].id), LongValue(mosaics[k].amount)];
      assert Conforms(Array(4), LongValue(mosaics[k].id)) && Conforms(Array(4), LongValue(mosaics[k].amount));
    }
  }

  lemma MetadataRowConforms(m: MetadataChange)
    ensures ConformsRow(METADATA_CHANGE, MetadataRow(m))
  {
    hide LE16, LE32, MetadataChangeSize;
    var vs := MetadataRow(m).fields;
    assert Conforms(METADATA_CHANGE[0], vs[0]) && Conforms(METADATA_CHANGE[1], vs[1]) && Conforms(METADATA_CHANGE[2], vs[2]);
    assert Conforms(METADATA_CHANGE[3], vs[3]) && Conforms(METADATA_CHANGE[4], vs[4]) && Conforms(METADATA_CHANGE[5], vs[5]);
  }

  lemma MetadataRowsConform(changes: seq<MetadataChange>)
    ensures Conforms(TableArray(METADATA_CHANGE), Tables(MetadataRows(changes)))
  {
    hide LE32, LE16;
    var rows := MetadataRows(changes);
    forall k | 0 <= k < |rows| ensures ConformsRow(METADATA_CHANGE, rows[k]) {
      MetadataRowConforms(changes[k]);
    }
  }

  lemma HeaderConforms(tx: Transaction)
    ensures ConformsAll(COMMON, HeaderTree(tx))
  {
    hide LE16, LE32, LE64, Size;
  }

  lemma MessageConforms(messageType: byte, payload: bytes)
    ensures Conforms(Table(MESSAGE), Record([ByteValue(messageType), Vector(payload)]))
  {
    assert ConformsAll(MESSAGE, [ByteValue(messageType), Vector(payload)]);
  }

  lemma ValuesConform()
    ensures forall x: byte :: Conforms(Scalar(1), ByteValue(x))
    ensures forall x: uint16 :: Conforms(Scalar(2), ShortValue(x))
    ensures forall x: uint32 :: Conforms(Scalar(4), IntValue(x))
    ensures forall x: int :: Conforms(Array(4), LongValue(x))
    ensures forall d: bytes :: Conforms(Array(1), Vector(d))
  {
    hide LE16, LE32, LE64;
  }

  lemma FlatLeafConforms(body: Body)
    requires !body.Aggregate? && !HasTables(body)
    ensures ConformsAll(BodySchema(body), LeafTree(body))
  {
    ValuesConform();
    hide LE16, LE32, LE64, ByteValue, ShortValue, IntValue, LongValue, Conforms;
  }

  lemma TableLeafConforms(body: Body)
    requires HasTables(body) && !body.ModifyContract?
    ensures ConformsAll(BodySchema(body), LeafTree(body))
  {
    ValuesConform();
    hide LE16, LE32, LE64, ByteValue, ShortValue, IntValue, LongValue, Conforms;
    match body
    case AccountPropertiesAddress(_, ms) => ChangeRowsConform(ms);
    case AccountPropertiesMosaic(_, ms) => ChangeRowsConform(MosaicBytes(ms));
    case AccountPropertiesEntityType(_, ms) => ChangeRowsConform(EntityTypeBytes(ms));
    case ModifyMetadata(_, _, changes) => MetadataRowsConform(changes);
    case MosaicDefinition(_, _, _, _, _, ps) => PropertyRowsConform(ps);
    case Transfer(_, messageType, payload, mosaics) =>
      MosaicRowsConform(mosaics);
      MessageConforms(messageType, payload);
    case ModifyMultisig(_, _, cs) => ChangeRowsConform(cs);
  }

  lemma LeafConforms(body: Body)
    requires !body.Aggregate?
    ensures ConformsAll(BodySchema(body), LeafTree(body))
  {
    if body.ModifyContract? {
      ValuesConform();
      hide LE16, LE32, LE64, ByteValue, LongValue, Conforms;
      ChangeRowsConform(body.customers);
      ChangeRowsConform(body.executors);
      ChangeRowsConform(body.verifiers);
    } else if HasTables(body) {
      TableLeafConforms(body);
    } else {
      FlatLeafConforms(body);
    }
  }

  // ---------------------------------------------------------------------------
  // Sizes, by loops
  // ---------------------------------------------------------------------------

  method MetadataSizeOf(changes: seq<MetadataChange>) returns (n: nat)
    ensures n == MetadataSizes(changes)
  {
    n := 0;
    var i := 0;
    while i < |changes|
      invariant 0 <= i <= |changes|
      invariant n == MetadataSizes(changes[..i])
    {
      assert changes[..i + 1][..i] == changes[..i];
      n := n + MetadataChangeSize(changes[i]);
      i := i + 1;
    }
    assert changes[..i] == changes;
  }

  method SizeOf(tx: Transaction) returns (n: int)
    ensures n == Size(tx)
    decreases tx, 0
  {
    match tx.body
    case Aggregate(inner) =>
      var innerSize := 0;
      var i := 0;
      while i < |inner|
        invariant 0 <= i <= |inner|
        invariant innerSize == InnerSizes(inner[..i])
      {
        assert inner[..i + 1][..i] == inner[..i];
        var size := SizeOf(inner[i]);
        innerSize := innerSize + size - SIGNATURE_SIZE - MAX_FEE_SIZE - DEADLINE_SIZE;
        i := i + 1;
      }
      assert inner[..i] == inner;
      n := TRANSACTION_HEADER_SIZE + SIZE_SIZE + innerSize;
    case ModifyMetadata(_, target, changes) =>
      var changeSize := MetadataSizeOf(changes);
      n := TRANSACTION_HEADER_SIZE + METADATA_TYPE_SIZE + changeSize + TargetSize(target);
    case _ =>
      n := Size(tx);
  }

  // ---------------------------------------------------------------------------
  // Bytes
  // ---------------------------------------------------------------------------

  /** Copies as much of `src` as fits into `dst[lo..hi]`. */
  method Copy(dst: array<byte>, lo: nat, hi: nat, src: bytes)
    requires lo <= hi <= dst.Length
    modifies dst
    ensures var n := if |src| < hi - lo then |src| else hi - lo;
            dst[..] == Splice(old(dst[..]), lo, src[..n])
  {
    var n := if |src| < hi - lo then |src| else hi - lo;
    var i := 0;
    while i < n
      invariant 0 <= i <= n
      invariant forall k :: 0 <= k < lo || lo + i <= k < dst.Length ==> dst[k] == old(dst[k])
      invariant forall k :: 0 <= k < i ==> dst[lo + k] == src[k]
    {
      dst[lo + i] := src[i];
      i := i + 1;
    }
    ghost var was := old(dst[..]);
    assert dst[..lo] == was[..lo] && dst[lo..lo + n] == src[..n] && dst[lo + n..] == was[lo + n..];
    assert dst[..] == dst[..lo] + dst[lo..lo + n] + dst[lo + n..];
  }

  /** A copy that goes on where the last one ended: `head` has been written, `tail` is left. */
  method CopyNext(dst: array<byte>, lo: nat, hi: nat, src: bytes, ghost head: bytes, ghost tail: bytes)
    requires |head| == lo && lo + |src| <= hi <= dst.Length && dst[..] == head + tail
    modifies dst
    ensures |src| <= |tail| && dst[..] == head + src + tail[|src|..]
  {
    assert |dst[..]| == |head| + |tail|;
    SpliceNext(head, tail, src);
    Copy(dst, lo, hi, src);
    assert src[..|src|] == src;
  }

  /** The inner form of an emitted transaction, written into a fresh buffer. */
  method StripInto(b: bytes, signer: bytes) returns (rB: array<byte>)
    requires |b| >= TRANSACTION_HEADER_SIZE && |signer| >= SIGNER_SIZE
    ensures fresh(rB)
    ensures StripHeader(b, signer) == Success(rB[..])
  {
    hide LE32, StripHeader;
    rB := new byte[|b| - SIGNATURE_SIZE - MAX_FEE_SIZE - DEADLINE_SIZE](_ => 0);
    var from := SIZE_SIZE + SIGNER_SIZE + SIGNATURE_SIZE;
    var key, middle, body := signer[..SIGNER_SIZE], b[from..from + VERSION_SIZE + TYPE_SIZE], b[TRANSACTION_HEADER_SIZE..];
    ghost var start, left := rB[..4], rB[4..];
    assert rB[..] == start + left;
    CopyNext(rB, SIZE_SIZE, SIGNER_SIZE + SIZE_SIZE, key, start, left);
    left := left[|key|..];
    CopyNext(rB, SIGNER_SIZE + SIZE_SIZE, SIGNER_SIZE + SIZE_SIZE + VERSION_SIZE + TYPE_SIZE, middle, start + key, left);
    left := left[|middle|..];
    CopyNext(rB, SIGNER_SIZE + SIZE_SIZE + VERSION_SIZE + TYPE_SIZE, rB.Length, body, start + key + middle, left);
    left := left[|body|..];
    ghost var written := rB[..];
    WriteSize(rB);
    InnerWritten(b, signer, start, left, written, rB[..]);
  }

  lemma InnerWritten(b: bytes, signer: bytes, start: bytes, left: bytes, written: bytes, inner: bytes)
    requires |b| >= TRANSACTION_HEADER_SIZE && |signer| >= SIGNER_SIZE && |start| == SIZE_SIZE
    requires |written| == |b| - STRIPPED_SIZE
    requires var from := SIZE_SIZE + SIGNER_SIZE + SIGNATURE_SIZE;
             written == start + signer[..SIGNER_SIZE] + b[from..from + VERSION_SIZE + TYPE_SIZE]
                        + b[TRANSACTION_HEADER_SIZE..] + left
    requires inner == LE32(ToUint32(|written|)) + written[4..]
    ensures StripHeader(b, signer) == Success(inner)
  {
    hide LE32;
    var from := SIZE_SIZE + SIGNER_SIZE + SIGNATURE_SIZE;
    var size := LE32(ToUint32(|written|));
    var rest := signer[..SIGNER_SIZE] + b[from..from + VERSION_SIZE + TYPE_SIZE] + b[TRANSACTION_HEADER_SIZE..];
    assert |left| == 0 && written == start + rest;
    assert written[4..] == rest;
    assert size + rest == size + signer[..SIGNER_SIZE] + b[from..from + VERSION_SIZE + TYPE_SIZE] + b[TRANSACTION_HEADER_SIZE..];
  }

  /** Writes the length of a buffer over its first four bytes. */
  method WriteSize(dst: array<byte>)
    requires dst.Length >= 4
    modifies dst
    ensures dst[..] == LE32(ToUint32(dst.Length)) + old(dst[..])[4..]
  {
    var size := LE32(ToUint32(dst.Length));
    hide *;
    ghost var was := dst[..];
    assert [] + was == was && [] + size == size;
    CopyNext(dst, 0, 4, size, [], was);
  }

  /** Some buffer on the way passes the two gigabytes that 32-bit offsets allow. */
  predicate Oversized(tx: Transaction)
    decreases tx
  {
    || (tx.body.Aggregate? && exists i :: 0 <= i < |tx.body.inner| && Oversized(tx.body.inner[i]))
    || (Tree(tx).Success? && BuiltSize(Tree(tx).value) > TWO31)
  }

  method ToAggregateTransactionBytes(tx: Transaction) returns (r: Result<bytes, Error>)
    ensures r == InnerBytes(tx) || (r == Failure(BufferTooLarge) && Oversized(tx))
    ensures InnerBytes(tx).Success? && Oversized(tx) ==> r == Failure(BufferTooLarge)
    decreases tx, 2
  {
    if tx.header.signer.None? { return Failure(NoSigner); }
    var b := GenerateBytes(tx);
    if b.Failure? { return b; }
    if |b.value| < TRANSACTION_HEADER_SIZE || |tx.header.signer.value| < SIGNER_SIZE { return Failure(SliceOutOfRange); }
    var rB := StripInto(b.value, tx.header.signer.value);
    r := Success(rB[..]);
  }

  method AggregatePayload(inner: seq<Transaction>) returns (r: Result<bytes, Error>)
    ensures r == Payload(inner)
            || (r == Failure(BufferTooLarge) && exists i :: 0 <= i < |inner| && Oversized(inner[i]))
    ensures Payload(inner).Success? && (exists i :: 0 <= i < |inner| && Oversized(inner[i])) ==>
              r == Failure(BufferTooLarge)
    decreases inner, 3
  {
    hide Oversized;
    var payload := [];
    var i := 0;
    while i < |inner|
      invariant 0 <= i <= |inner|
      invariant Payload(inner[..i]) == Success(payload)
      invariant forall k :: 0 <= k < i ==> !Oversized(inner[k])
    {
      var b := ToAggregateTransactionBytes(inner[i]);
      assert inner[..i + 1][..i] == inner[..i];
      if b.Failure? {
        if b == InnerBytes(inner[i]) { PayloadFails(inner, i + 1); }
        return b;
      }
      payload := payload + b.value;
      i := i + 1;
    }
    assert inner[..i] == inner;
    r := Success(payload);
  }

  /** A payload fails with the error of its first failing prefix. */
  lemma {:induction false} PayloadFails(inner: seq<Transaction>, i: nat)
    requires i <= |inner| && Payload(inner[..i]).Failure?
    ensures Payload(inner) == Payload(inner[..i])
    decreases |inner| - i
  {
    if i < |inner| {
      assert inner[..i + 1][..i] == inner[..i];
      PayloadFails(inner, i + 1);
    } else {
      assert inner[..i] == inner;
    }
  }

  /** For every transaction: filling a builder with its fields and reading the finished
      buffer back along the schema gives the depth-first concatenation of its value tree,
      unless a buffer grows past two gigabytes. */
  method GenerateBytes(tx: Transaction) returns (r: Result<bytes, Error>)
    ensures r == Bytes(tx) || (r == Failure(BufferTooLarge) && Oversized(tx))
    ensures Bytes(tx).Success? && Oversized(tx) ==> r == Failure(BufferTooLarge)
    ensures r.Success? && WellFormed(tx) ==> EmissionReads(tx, r.value)
    ensures r.Failure? && WellFormed(tx) ==> FailsWith(tx, r.error) || (r.error == BufferTooLarge && Oversized(tx))
    decreases tx, 1
  {
    hide HeaderTree, LeafTree, FlattenAll, Conforms, BuiltSize, EmissionReads, WellFormed, FailsWith;
    if WellFormed(tx) && Bytes(tx).Failure? { FailsExactly(tx, Bytes(tx).error); }
    var values;
    HeaderConforms(tx);
    if tx.body.Aggregate? {
      var payload := AggregatePayload(tx.body.inner);
      if payload.Failure? { return Failure(payload.error); }
      values := HeaderTree(tx) + AggregateTree(payload.value);
      AggregateConforms(payload.value);
      ConformsAppend(COMMON, HeaderTree(tx), AGGREGATE, AggregateTree(payload.value));
    } else {
      if EmptyKey(tx.body) { return Failure(EmptyMetadataKey); }
      values := HeaderTree(tx) + LeafTree(tx.body);
      LeafConforms(tx.body);
      ConformsAppend(COMMON, HeaderTree(tx), BodySchema(tx.body), LeafTree(tx.body));
    }
    var b, ok := BuildAndSerialize(SchemaOf(tx.body), values);
    r := if ok then Success(b) else Failure(BufferTooLarge);
    if ok && WellFormed(tx) { EmissionReadBack(tx); }
  }

  lemma AggregateConforms(payload: bytes)
    ensures ConformsAll(AGGREGATE, AggregateTree(payload))
  {
    hide LE32;
  }
}
