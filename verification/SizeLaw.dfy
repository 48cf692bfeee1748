/** The size law: what a transaction declares against what it emits.  The two are
    written independently; they differ by exactly the zero scalars wider than a byte. */
module SizeLaw {
  import opened Wrappers
  import opened Words
  import opened Schema
  import opened Transactions

  /** Fields of fixed length have it. */
  predicate WellFormed(tx: Transaction)
    decreases tx
  {
    && (tx.header.signer.Some? ==> |tx.header.signer.value| == SIGNER_SIZE)
    && match tx.body
       case AccountPropertiesAddress(_, ms) => forall i :: 0 <= i < |ms| ==> |ms[i].value| == ADDRESS_SIZE
       case AddressAlias(_, _, address) => |address| == ADDRESS_SIZE
       case AccountLink(_, key) => |key| == KEY_SIZE
       case Aggregate(inner) => forall i :: 0 <= i < |inner| ==> WellFormed(inner[i])
       case ModifyMetadata(_, target, _) => target.OfAddress? ==> |target.address| == ADDRESS_SIZE
       case Transfer(recipient, _, _, _) => |recipient| == ADDRESS_SIZE
       case ModifyMultisig(_, _, cs) => KeyedChanges(cs)
       case ModifyContract(_, hash, cs, es, vs) =>
         |hash| == HASH256 && KeyedChanges(cs) && KeyedChanges(es) && KeyedChanges(vs)
       case LockFunds(_, _, hash) => |hash| == HASH256
       case SecretLock(_, _, _, secret, recipient) => |secret| == HASH256 && |recipient| == ADDRESS_SIZE
       case SecretProof(_, secret, recipient, _) => |secret| == HASH256 && |recipient| == ADDRESS_SIZE
       case _ => true
  }

  predicate KeyedChanges(changes: seq<Change<bytes>>) {
    forall i :: 0 <= i < |changes| ==> |changes[i].value| == KEY_SIZE
  }

  // ---------------------------------------------------------------------------
  // Bytes missing because a scalar is zero
  // ---------------------------------------------------------------------------

  function Gap(x: int, width: nat): nat
    requires width > 0
  {
    if x == 0 then width - 1 else 0
  }

  function MetadataGaps(changes: seq<MetadataChange>): nat {
    if changes == [] then 0
    else MetadataGaps(changes[..|changes| - 1]) + Gap(ToUint32(MetadataChangeSize(changes[|changes| - 1])), 4)
  }

  function HeaderGaps(tx: Transaction): nat {
    Gap(ToUint32(Size(tx)), 4) + Gap(VersionWord(tx.header), 4) + Gap(tx.header.entityType, 2)
  }

  /** The width less one, summed over the zero scalars wider than a byte. */
  function Gaps(tx: Transaction): nat
    decreases tx, 0
  {
    HeaderGaps(tx) +
    match tx.body
    case NetworkConfig(_, config, supported) => Gap(ToUint16(|config|), 2) + Gap(ToUint16(|supported|), 2)
    case Aggregate(inner) => Gap(ToUint32(InnerSizes(inner) - InnerGaps(inner)), 4) + InnerGaps(inner)
    case ModifyMetadata(_, _, changes) => MetadataGaps(changes)
    case MosaicDefinition(nonce, _, _, _, _, _) => Gap(nonce, 4)
    case Transfer(_, _, payload, _) => Gap(ToUint16(MessageSize(payload)), 2)
    case SecretProof(_, _, _, proof) => Gap(ToUint16(|proof|), 2)
    case _ => 0
  }

  function InnerGaps(inner: seq<Transaction>): nat
    decreases inner, 0
  {
    if inner == [] then 0 else InnerGaps(inner[..|inner| - 1]) + Gaps(inner[|inner| - 1])
  }

  // ---------------------------------------------------------------------------
  // Lengths of value trees
  // ---------------------------------------------------------------------------

  function LengthAt(vs: seq<Value>, i: nat): nat { if i < |vs| then |Flatten(vs[i])| else 0 }

  lemma PrefixLength(vs: seq<Value>, j: nat)
    requires j < |vs|
    ensures |FlattenAll(vs[..j + 1])| == |FlattenAll(vs[..j])| + LengthAt(vs, j)
  {
    FlattenAllStep(vs, j);
  }

  lemma FieldLengths(vs: seq<Value>)
    requires |vs| <= 8
    ensures |FlattenAll(vs)| == LengthAt(vs, 0) + LengthAt(vs, 1) + LengthAt(vs, 2) + LengthAt(vs, 3)
                              + LengthAt(vs, 4) + LengthAt(vs, 5) + LengthAt(vs, 6) + LengthAt(vs, 7)
  {
    hide Flatten, LengthAt, FlattenAll;
    if |vs| > 0 { PrefixLength(vs, 0); }
    if |vs| > 1 { PrefixLength(vs, 1); }
    if |vs| > 2 { PrefixLength(vs, 2); }
    if |vs| > 3 { PrefixLength(vs, 3); }
    if |vs| > 4 { PrefixLength(vs, 4); }
    if |vs| > 5 { PrefixLength(vs, 5); }
    if |vs| > 6 { PrefixLength(vs, 6); }
    if |vs| > 7 { PrefixLength(vs, 7); }
    MissingLengths(vs);
    assert vs[..|vs|] == vs;
    EmptyPrefix(vs);
  }

  lemma MissingLengths(vs: seq<Value>)
    ensures forall i: nat :: |vs| <= i ==> LengthAt(vs, i) == 0
  {
  }

  lemma EmptyPrefix(vs: seq<Value>)
    ensures FlattenAll(vs[..0]) == []
  {
  }

  lemma {:induction false} RowsLength(rows: seq<Value>, n: nat)
    requires forall k :: 0 <= k < |rows| ==> |Flatten(rows[k])| == n
    ensures |FlattenAll(rows)| == n * |rows|
  {
    hide Flatten;
    if rows != [] {
      forall k | 0 <= k < |rows[1..]| ensures |Flatten(rows[1..][k])| == n {
        assert rows[1..][k] == rows[k + 1];
      }
      RowsLength(rows[1..], n);
      assert n * |rows| == n * |rows[1..]| + n;
    }
  }

  lemma PairLength(a: Value, b: Value)
    ensures |Flatten(Record([a, b]))| == |Flatten(a)| + |Flatten(b)|
  {
    FieldLengths([a, b]);
  }

  lemma ChangeRowsLength(changes: seq<Change<bytes>>, n: nat)
    requires forall i :: 0 <= i < |changes| ==> |changes[i].value| == n
    ensures |Flatten(Tables(ChangeRows(changes)))| == (1 + n) * |changes|
  {
    var rows := ChangeRows(changes);
    forall k | 0 <= k < |rows| ensures |Flatten(rows[k])| == 1 + n {
      PairLength(ByteValue(changes[k].kind), Vector(changes[k].value));
    }
    RowsLength(rows, 1 + n);
  }

  lemma PropertyRowsLength(properties: seq<Change<int64>>)
    ensures |Flatten(Tables(PropertyRows(properties)))| == 9 * |properties|
  {
    var rows := PropertyRows(properties);
    forall k | 0 <= k < |rows| ensures |Flatten(rows[k])| == 9 {
      PairLength(ByteValue(properties[k].kind), LongValue(properties[k].value));
    }
    RowsLength(rows, 9);
  }

  lemma MosaicRowsLength(mosaics: seq<Mosaic>)
    ensures |Flatten(Tables(MosaicRows(mosaics)))| == 16 * |mosaics|
  {
    var rows := MosaicRows(mosaics);
    forall k | 0 <= k < |rows| ensures |Flatten(rows[k])| == 16 {
      PairLength(LongValue(mosaics[k].id), LongValue(mosaics[k].amount));
    }
    RowsLength(rows, 16);
  }

  lemma MetadataRowLength(m: MetadataChange)
    ensures |Flatten(MetadataRow(m))| == MetadataChangeSize(m) - Gap(ToUint32(MetadataChangeSize(m)), 4)
  {
    hide LE32, LE16;
    FieldLengths(MetadataRow(m).fields);
  }

  lemma {:induction false} MetadataRowsLength(changes: seq<MetadataChange>)
    ensures |FlattenAll(MetadataRows(changes))| == MetadataSizes(changes) - MetadataGaps(changes)
  {
    hide MetadataRow, Gap, MetadataChangeSize;
    if changes != [] {
      var n := |changes| - 1;
      MetadataRowsLength(changes[..n]);
      MetadataRowLength(changes[n]);
      assert MetadataRows(changes)[..n] == MetadataRows(changes[..n]);
      FlattenAllStep(MetadataRows(changes), n);
      assert MetadataRows(changes)[..n + 1] == MetadataRows(changes);
    }
  }

  lemma MetadataTableLength(changes: seq<MetadataChange>)
    ensures |Flatten(Tables(MetadataRows(changes)))| == MetadataSizes(changes) - MetadataGaps(changes)
  {
    MetadataRowsLength(changes);
  }

  // ---------------------------------------------------------------------------
  // The law
  // ---------------------------------------------------------------------------

  lemma HeaderLength(tx: Transaction)
    ensures |FlattenAll(HeaderTree(tx))| == TRANSACTION_HEADER_SIZE - HeaderGaps(tx)
  {
    hide LE16, LE32, LE64, Size;
    FieldLengths(HeaderTree(tx));
  }

  lemma ValueLengths()
    ensures forall x: byte :: |Flatten(ByteValue(x))| == 1
    ensures forall x: uint16 :: |Flatten(ShortValue(x))| == 2 - Gap(x, 2)
    ensures forall x: uint32 :: |Flatten(IntValue(x))| == 4 - Gap(x, 4)
    ensures forall x :: |Flatten(LongValue(x))| == 8
    ensures forall d :: |Flatten(Vector(d))| == |d|
  {
    hide LE16, LE32, LE64;
  }

  ghost predicate LeafFits(tx: Transaction)
    requires !tx.body.Aggregate?
  {
    |FlattenAll(LeafTree(tx.body))| == Size(tx) - TRANSACTION_HEADER_SIZE - (Gaps(tx) - HeaderGaps(tx))
  }

  lemma FlatLeafLength(tx: Transaction)
    requires !tx.body.Aggregate? && WellFormed(tx)
    requires !HasTables(tx.body)
    ensures LeafFits(tx)
  {
    hide LE16, LE32, LE64, Flatten, FlattenAll, HeaderGaps, ByteValue, ShortValue, IntValue, LongValue, Gap;
    ValueLengths();
    FieldLengths(LeafTree(tx.body));
  }

  lemma TableLeafLength(tx: Transaction)
    requires HasTables(tx.body) && !tx.body.ModifyContract? && WellFormed(tx)
    ensures LeafFits(tx)
  {
    hide LE16, LE32, LE64, Flatten, FlattenAll, HeaderGaps, ByteValue, ShortValue, IntValue, LongValue, Gap;
    ValueLengths();
    FieldLengths(LeafTree(tx.body));
    match tx.body
    case AccountPropertiesAddress(_, ms) => ChangeRowsLength(ms, 25);
    case AccountPropertiesMosaic(_, ms) => ChangeRowsLength(MosaicBytes(ms), 8);
    case AccountPropertiesEntityType(_, ms) => ChangeRowsLength(EntityTypeBytes(ms), 2);
    case ModifyMetadata(_, _, changes) => MetadataTableLength(changes);
    case MosaicDefinition(_, _, _, _, _, ps) => PropertyRowsLength(ps);
    case Transfer(_, messageType, payload, mosaics) =>
      PairLength(ByteValue(messageType), Vector(payload));
      MosaicRowsLength(mosaics);
    case ModifyMultisig(_, _, cs) => ChangeRowsLength(cs, 32);
  }

  lemma ContractLeafLength(tx: Transaction)
    requires tx.body.ModifyContract? && WellFormed(tx)
    ensures LeafFits(tx)
  {
    hide LE16, LE32, LE64, Flatten, FlattenAll, HeaderGaps, ByteValue, LongValue;
    ValueLengths();
    FieldLengths(LeafTree(tx.body));
    ChangeRowsLength(tx.body.customers, 32);
    ChangeRowsLength(tx.body.executors, 32);
    ChangeRowsLength(tx.body.verifiers, 32);
  }

  /** The attributes of a kind take what its size says beyond the header, less their gaps. */
  lemma LeafLength(tx: Transaction)
    requires !tx.body.Aggregate? && WellFormed(tx)
    ensures LeafFits(tx)
  {
    if tx.body.ModifyContract? {
      ContractLeafLength(tx);
    } else if HasTables(tx.body) {
      TableLeafLength(tx);
    } else {
      FlatLeafLength(tx);
    }
  }

  /** For every transaction of every kind, however deeply aggregated: whatever is emitted
      has the declared size less the gaps of its zero scalars. */
  lemma {:induction false} LengthLaw(tx: Transaction)
    requires WellFormed(tx) && Bytes(tx).Success?
    ensures |Bytes(tx).value| == Size(tx) - Gaps(tx)
    decreases tx, 1
  {
    hide LE16, LE32, LE64, HeaderGaps, HeaderTree, LeafTree, Flatten;
    HeaderLength(tx);
    if tx.body.Aggregate? {
      PayloadLength(tx.body.inner);
      var payload := Payload(tx.body.inner).value;
      AggregateLength(payload);
      FlattenAllAppend(HeaderTree(tx), AggregateTree(payload));
    } else {
      LeafLength(tx);
      FlattenAllAppend(HeaderTree(tx), LeafTree(tx.body));
    }
  }

  lemma AggregateLength(payload: bytes)
    ensures |FlattenAll(AggregateTree(payload))| == SIZE_SIZE + |payload| - Gap(ToUint32(|payload|), 4)
  {
    FieldLengths(AggregateTree(payload));
  }

  lemma {:induction false} PayloadLength(inner: seq<Transaction>)
    requires Payload(inner).Success? && forall i :: 0 <= i < |inner| ==> WellFormed(inner[i])
    ensures |Payload(inner).value| == InnerSizes(inner) - InnerGaps(inner)
    decreases inner, 0
  {
    hide LE16, LE32, Size, Gaps;
    if inner != [] {
      var n := |inner| - 1;
      PayloadLength(inner[..n]);
      InnerLength(inner[n]);
    }
  }

  lemma {:induction false} InnerLength(tx: Transaction)
    requires WellFormed(tx) && InnerBytes(tx).Success?
    ensures |InnerBytes(tx).value| == Size(tx) - STRIPPED_SIZE - Gaps(tx)
    decreases tx, 2
  {
    hide LE16, LE32, Size, Gaps;
    LengthLaw(tx);
  }

  /** When emission succeeds: every inner transaction has a signer and is long enough to be
      stripped of its header, and no metadata key is empty. */
  predicate Emits(tx: Transaction)
    decreases tx, 0
  {
    match tx.body
    case Aggregate(inner) => forall i :: 0 <= i < |inner| ==> EmitsInner(inner[i])
    case ModifyMetadata(_, _, changes) => forall i :: 0 <= i < |changes| ==> changes[i].key != []
    case _ => true
  }

  predicate EmitsInner(tx: Transaction)
    decreases tx, 1
  {
    tx.header.signer.Some? && Emits(tx) && Size(tx) - Gaps(tx) >= TRANSACTION_HEADER_SIZE
  }

  lemma {:induction false} EmitsExactly(tx: Transaction)
    requires WellFormed(tx)
    ensures Bytes(tx).Success? <==> Emits(tx)
    decreases tx, 1
  {
    hide LE16, LE32, Size, Gaps, HeaderTree, LeafTree, FlattenAll;
    if tx.body.Aggregate? { PayloadEmits(tx.body.inner); }
  }

  lemma {:induction false} PayloadEmits(inner: seq<Transaction>)
    requires forall i :: 0 <= i < |inner| ==> WellFormed(inner[i])
    ensures Payload(inner).Success? <==> forall i :: 0 <= i < |inner| ==> EmitsInner(inner[i])
    decreases inner, 0
  {
    hide LE16, LE32, Size, Gaps, Emits;
    if inner != [] {
      var n := |inner| - 1;
      PayloadEmits(inner[..n]);
      EmitsExactly(inner[n]);
      if Bytes(inner[n]).Success? { LengthLaw(inner[n]); }
    }
  }

  /** What an emission that fails reports: an empty metadata key, or what is wrong with the
      first inner transaction that cannot be encoded. */
  ghost predicate FailsWith(tx: Transaction, e: Error)
    decreases tx, 0
  {
    match tx.body
    case Aggregate(inner) =>
      exists i :: 0 <= i < |inner| && InnerFailsWith(inner[i], e) && forall k :: 0 <= k < i ==> EmitsInner(inner[k])
    case ModifyMetadata(_, _, changes) => e == EmptyMetadataKey && exists i :: 0 <= i < |changes| && changes[i].key == []
    case _ => false
  }

  /** It has no signer, or else cannot be emitted, or else is too short to be stripped. */
  ghost predicate InnerFailsWith(tx: Transaction, e: Error)
    decreases tx, 1
  {
    if tx.header.signer.None? then e == NoSigner
    else FailsWith(tx, e) || (e == SliceOutOfRange && Emits(tx) && Size(tx) - Gaps(tx) < TRANSACTION_HEADER_SIZE)
  }

  lemma {:induction false} FailsExactly(tx: Transaction, e: Error)
    requires WellFormed(tx)
    ensures Bytes(tx) == Failure(e) <==> FailsWith(tx, e)
    decreases tx, 1
  {
    hide LE16, LE32, Size, Gaps, HeaderTree, LeafTree, FlattenAll;
    if tx.body.Aggregate? { PayloadFailsExactly(tx.body.inner, e); }
  }

  ghost predicate FirstFailure(inner: seq<Transaction>, i: nat, e: Error) {
    i < |inner| && InnerBytes(inner[i]) == Failure(e) && forall k :: 0 <= k < i ==> InnerBytes(inner[k]).Success?
  }

  lemma {:induction false} FirstFailureFound(inner: seq<Transaction>, e: Error)
    ensures Payload(inner) == Failure(e) <==> exists i: nat :: FirstFailure(inner, i, e)
    ensures Payload(inner).Success? ==> forall k :: 0 <= k < |inner| ==> InnerBytes(inner[k]).Success?
    decreases |inner|
  {
    hide InnerBytes;
    if inner != [] {
      var n := |inner| - 1;
      var before := inner[..n];
      FirstFailureFound(before, e);
      assert forall i: nat :: i < n ==> (FirstFailure(before, i, e) <==> FirstFailure(inner, i, e));
      if Payload(before).Success? {
        assert Payload(inner) == Failure(e) ==> FirstFailure(inner, n, e);
      } else if Payload(before) == Failure(e) {
        var i: nat :| FirstFailure(before, i, e);
        assert FirstFailure(inner, i, e);
      } else {
        FirstFailureFound(before, Payload(before).error);
        var j: nat :| FirstFailure(before, j, Payload(before).error);
        assert InnerBytes(inner[j]) == Failure(Payload(before).error);
      }
    }
  }

  lemma {:induction false} PayloadFailsExactly(inner: seq<Transaction>, e: Error)
    requires forall i :: 0 <= i < |inner| ==> WellFormed(inner[i])
    ensures Payload(inner) == Failure(e) <==>
            exists i :: 0 <= i < |inner| && InnerFailsWith(inner[i], e) && forall k :: 0 <= k < i ==> EmitsInner(inner[k])
    decreases inner, 0
  {
    hide Payload, InnerBytes, InnerFailsWith, EmitsInner;
    FirstFailureFound(inner, e);
    forall i | 0 <= i < |inner|
      ensures InnerBytes(inner[i]) == Failure(e) <==> InnerFailsWith(inner[i], e)
      ensures InnerBytes(inner[i]).Success? <==> EmitsInner(inner[i])
    {
      InnerFailsExactly(inner[i], e);
    }
    if exists i: nat :: FirstFailure(inner, i, e) {
      var i: nat :| FirstFailure(inner, i, e);
      assert InnerFailsWith(inner[i], e);
    }
    if i :| 0 <= i < |inner| && InnerFailsWith(inner[i], e) && forall k :: 0 <= k < i ==> EmitsInner(inner[k]) {
      assert FirstFailure(inner, i, e);
    }
  }

  lemma {:induction false} InnerFailsExactly(tx: Transaction, e: Error)
    requires WellFormed(tx)
    ensures InnerBytes(tx) == Failure(e) <==> InnerFailsWith(tx, e)
    ensures InnerBytes(tx).Success? <==> EmitsInner(tx)
    decreases tx, 2
  {
    hide LE16, LE32, Size, Gaps, Bytes, FailsWith, Emits, WellFormed;
    assert tx.header.signer.Some? ==> |tx.header.signer.value| >= SIGNER_SIZE by { SignerWhole(tx); }
    FailsExactly(tx, e);
    EmitsExactly(tx);
    if Bytes(tx).Success? { LengthLaw(tx); }
  }

  lemma SignerWhole(tx: Transaction)
    requires WellFormed(tx)
    ensures tx.header.signer.Some? ==> |tx.header.signer.value| >= SIGNER_SIZE
  {
  }

  // ---------------------------------------------------------------------------
  // When the declared size is exact
  // ---------------------------------------------------------------------------

  /** No scalar wider than a byte is zero, here or in any inner transaction. */
  predicate NoZeroWord(tx: Transaction)
    decreases tx, 0
  {
    && ToUint32(Size(tx)) != 0 && VersionWord(tx.header) != 0 && tx.header.entityType != 0
    && match tx.body
       case NetworkConfig(_, config, supported) => ToUint16(|config|) != 0 && ToUint16(|supported|) != 0
       case Aggregate(inner) =>
         && (forall i :: 0 <= i < |inner| ==> NoZeroWord(inner[i]))
         && ToUint32(InnerSizes(inner)) != 0
       case ModifyMetadata(_, _, changes) =>
         forall i :: 0 <= i < |changes| ==> ToUint32(MetadataChangeSize(changes[i])) != 0
       case MosaicDefinition(nonce, _, _, _, _, _) => nonce != 0
       case Transfer(_, _, payload, _) => ToUint16(MessageSize(payload)) != 0
       case SecretProof(_, _, _, proof) => ToUint16(|proof|) != 0
       case _ => true
  }

  lemma {:induction false} NoGaps(tx: Transaction)
    ensures Gaps(tx) == 0 <==> NoZeroWord(tx)
    decreases tx, 1
  {
    hide Size, ToUint32, ToUint16, MetadataChangeSize, VersionWord;
    match tx.body
    case Aggregate(inner) => NoInnerGaps(inner);
    case ModifyMetadata(_, _, changes) => NoMetadataGaps(changes);
    case _ =>
  }

  lemma {:induction false} NoInnerGaps(inner: seq<Transaction>)
    ensures InnerGaps(inner) == 0 <==> forall i :: 0 <= i < |inner| ==> NoZeroWord(inner[i])
    decreases inner, 0
  {
    hide Gaps, NoZeroWord;
    if inner != [] {
      NoInnerGaps(inner[..|inner| - 1]);
      NoGaps(inner[|inner| - 1]);
    }
  }

  lemma {:induction false} NoMetadataGaps(changes: seq<MetadataChange>)
    ensures MetadataGaps(changes) == 0 <==> forall i :: 0 <= i < |changes| ==> ToUint32(MetadataChangeSize(changes[i])) != 0
  {
    hide ToUint32, MetadataChangeSize;
    if changes != [] { NoMetadataGaps(changes[..|changes| - 1]); }
  }

  /** The declared size is the emitted length exactly when no scalar wider than a byte is
      zero; otherwise the declared size is larger. */
  lemma DeclaredSizeExact(tx: Transaction)
    requires WellFormed(tx) && Bytes(tx).Success?
    ensures |Bytes(tx).value| <= Size(tx)
    ensures |Bytes(tx).value| == Size(tx) <==> NoZeroWord(tx)
  {
    LengthLaw(tx);
    NoGaps(tx);
  }

  /** In an aggregate without zero words the declared payload size is the total length of
      the inner encodings, and the aggregate's own size is its emitted length. */
  lemma AggregateSizesExact(tx: Transaction)
    requires tx.body.Aggregate? && WellFormed(tx) && Bytes(tx).Success? && NoZeroWord(tx)
    ensures Payload(tx.body.inner).Success?
    ensures |Payload(tx.body.inner).value| == InnerSizes(tx.body.inner) == Size(tx) - TRANSACTION_HEADER_SIZE - SIZE_SIZE
    ensures |Bytes(tx).value| == Size(tx)
  {
    hide NoZeroWord;
    DeclaredSizeExact(tx);
    NoGaps(tx);
    PayloadLength(tx.body.inner);
  }

  /** A mosaic definition with a zero nonce declares 0x92 bytes and emits three fewer. */
  lemma ZeroNonceIsShort(header: Header, id: uint64, value: int64)
    requires header.networkType == 0x90 && header.version == 3 && header.entityType == 0x414d && header.signer.None?
    ensures var tx := Transaction(header, MosaicDefinition(0, id, true, true, 4, [Change(2, value)]));
            Size(tx) == 0x92 && Bytes(tx).Success? && |Bytes(tx).value| == 0x92 - 3
  {
    hide LE32, FlattenAll, HeaderTree, LeafTree;
    LengthLaw(Transaction(header, MosaicDefinition(0, id, true, true, 4, [Change(2, value)])));
  }
}
