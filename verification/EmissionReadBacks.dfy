/** Every emission reads back: kind by kind, through aggregates, and as a whole. */
module EmissionReadBacks {
  import opened Words
  import opened Wrappers
  import opened Schema
  import opened Transactions
  import opened SizeLaw
  import opened InnerEncodings
  import opened ReadBacks
  import opened FieldReads

  // ---------------------------------------------------------------------------
  // Every kind but the aggregate
  // ---------------------------------------------------------------------------

  lemma AccountAddressesReads(vs: seq<Value>, body: Body)
    requires body.AccountPropertiesAddress?
    requires forall i :: 0 <= i < |body.addresses| ==> |body.addresses[i].value| == 25
    requires vs == [ByteValue(body.propertyType), Count(body.addresses), Tables(ChangeRows(body.addresses))]
    ensures AccountAddressesBodyAt(FlattenAll(vs), body)
  {
    OffsetsEnd(vs);
    hide FlattenAll, OffsetAt, Flatten, LE64, LE16, ToUint8, ToUint16, ToUint64, ByteValue, ShortValue, IntValue, LongValue,
      ByteAt, ShortAt, IntAt, LongAt, WordAt, BytesAt, ShortWidth, IntWidth, ChangeRows, MosaicBytes, EntityTypeBytes,
      PropertyRows, MosaicRows, MetadataRows, ChangesAt, AssetChangesAt, EntityTypeChangesAt, PropertiesAt, MosaicsAt,
      MetadataAt, RowWidths, Flags;
    ByteField(vs, 0, body.propertyType);
    CountField(vs, 1, |body.addresses|);
    ChangesField(vs, 2, body.addresses, 25);
  }

  lemma AccountMosaicsReads(vs: seq<Value>, body: Body)
    requires body.AccountPropertiesMosaic?
    requires vs == [ByteValue(body.propertyType), Count(body.assets), Tables(ChangeRows(MosaicBytes(body.assets)))]
    ensures AccountMosaicsBodyAt(FlattenAll(vs), body)
  {
    OffsetsEnd(vs);
    hide FlattenAll, OffsetAt, Flatten, LE64, LE16, ToUint8, ToUint16, ToUint64, ByteValue, ShortValue, IntValue, LongValue,
      ByteAt, ShortAt, IntAt, LongAt, WordAt, BytesAt, ShortWidth, IntWidth, ChangeRows, MosaicBytes, EntityTypeBytes,
      PropertyRows, MosaicRows, MetadataRows, ChangesAt, AssetChangesAt, EntityTypeChangesAt, PropertiesAt, MosaicsAt,
      MetadataAt, RowWidths, Flags;
    ByteField(vs, 0, body.propertyType);
    CountField(vs, 1, |body.assets|);
    AssetsField(vs, 2, body.assets);
  }

  lemma AccountEntityTypesReads(vs: seq<Value>, body: Body)
    requires body.AccountPropertiesEntityType?
    requires vs == [ByteValue(body.propertyType), Count(body.entityTypes),
                    Tables(ChangeRows(EntityTypeBytes(body.entityTypes)))]
    ensures AccountEntityTypesBodyAt(FlattenAll(vs), body)
  {
    OffsetsEnd(vs);
    hide FlattenAll, OffsetAt, Flatten, LE64, LE16, ToUint8, ToUint16, ToUint64, ByteValue, ShortValue, IntValue, LongValue,
      ByteAt, ShortAt, IntAt, LongAt, WordAt, BytesAt, ShortWidth, IntWidth, ChangeRows, MosaicBytes, EntityTypeBytes,
      PropertyRows, MosaicRows, MetadataRows, ChangesAt, AssetChangesAt, EntityTypeChangesAt, PropertiesAt, MosaicsAt,
      MetadataAt, RowWidths, Flags;
    ByteField(vs, 0, body.propertyType);
    CountField(vs, 1, |body.entityTypes|);
    EntityTypesField(vs, 2, body.entityTypes);
  }

  lemma AccountLinkReads(vs: seq<Value>, body: Body)
    requires body.AccountLink? && |body.remoteKey| == 32
    requires vs == [Vector(body.remoteKey), ByteValue(body.action)]
    ensures AccountLinkBodyAt(FlattenAll(vs), body)
  {
    OffsetsEnd(vs);
    hide FlattenAll, OffsetAt, Flatten, LE64, LE16, ToUint8, ToUint16, ToUint64, ByteValue, ShortValue, IntValue, LongValue,
      ByteAt, ShortAt, IntAt, LongAt, WordAt, BytesAt, ShortWidth, IntWidth, ChangeRows, MosaicBytes, EntityTypeBytes,
      PropertyRows, MosaicRows, MetadataRows, ChangesAt, AssetChangesAt, EntityTypeChangesAt, PropertiesAt, MosaicsAt,
      MetadataAt, RowWidths, Flags;
    BytesField(vs, 0, body.remoteKey);
    ByteField(vs, 1, body.action);
  }

  lemma AddressAliasReads(vs: seq<Value>, body: Body)
    requires body.AddressAlias? && |body.address| == 25
    requires vs == [ByteValue(body.action), LongValue(body.namespaceId), Vector(body.address)]
    ensures AddressAliasBodyAt(FlattenAll(vs), body)
  {
    OffsetsEnd(vs);
    hide FlattenAll, OffsetAt, Flatten, LE64, LE16, ToUint8, ToUint16, ToUint64, ByteValue, ShortValue, IntValue, LongValue,
      ByteAt, ShortAt, IntAt, LongAt, WordAt, BytesAt, ShortWidth, IntWidth, ChangeRows, MosaicBytes, EntityTypeBytes,
      PropertyRows, MosaicRows, MetadataRows, ChangesAt, AssetChangesAt, EntityTypeChangesAt, PropertiesAt, MosaicsAt,
      MetadataAt, RowWidths, Flags;
    ByteField(vs, 0, body.action);
    WordField(vs, 1, body.namespaceId);
    BytesField(vs, 2, body.address);
  }

  lemma MosaicAliasReads(vs: seq<Value>, body: Body)
    requires body.MosaicAlias?
    requires vs == [ByteValue(body.action), LongValue(body.namespaceId), Vector(LE64(body.mosaicId))]
    ensures MosaicAliasBodyAt(FlattenAll(vs), body)
  {
    OffsetsEnd(vs);
    hide FlattenAll, OffsetAt, Flatten, LE64, LE16, ToUint8, ToUint16, ToUint64, ByteValue, ShortValue, IntValue, LongValue,
      ByteAt, ShortAt, IntAt, LongAt, WordAt, BytesAt, ShortWidth, IntWidth, ChangeRows, MosaicBytes, EntityTypeBytes,
      PropertyRows, MosaicRows, MetadataRows, ChangesAt, AssetChangesAt, EntityTypeChangesAt, PropertiesAt, MosaicsAt,
      MetadataAt, RowWidths, Flags;
    ByteField(vs, 0, body.action);
    WordField(vs, 1, body.namespaceId);
    WordBytesField(vs, 2, body.mosaicId);
  }

  lemma RegisterNamespaceReads(vs: seq<Value>, body: Body)
    requires body.RegisterNamespace?
    requires vs == [ByteValue(body.namespaceType),
                    LongValue(if body.namespaceType == 0 then body.duration else body.parentId),
                    LongValue(body.namespaceId), Count(body.name), Vector(body.name)]
    ensures RegisterNamespaceBodyAt(FlattenAll(vs), body)
  {
    OffsetsEnd(vs);
    hide FlattenAll, OffsetAt, Flatten, LE64, LE16, ToUint8, ToUint16, ToUint64, ByteValue, ShortValue, IntValue, LongValue,
      ByteAt, ShortAt, IntAt, LongAt, WordAt, BytesAt, ShortWidth, IntWidth, ChangeRows, MosaicBytes, EntityTypeBytes,
      PropertyRows, MosaicRows, MetadataRows, ChangesAt, AssetChangesAt, EntityTypeChangesAt, PropertiesAt, MosaicsAt,
      MetadataAt, RowWidths, Flags;
    ByteField(vs, 0, body.namespaceType);
    if body.namespaceType == 0 { LongField(vs, 1, body.duration); } else { WordField(vs, 1, body.parentId); }
    WordField(vs, 2, body.namespaceId);
    CountField(vs, 3, |body.name|);
    BytesField(vs, 4, body.name);
  }

  lemma NetworkConfigReads(vs: seq<Value>, body: Body)
    requires body.NetworkConfig?
    requires vs == [LongValue(body.applyHeightDelta), ShortValue(ToUint16(|body.config|)),
                    ShortValue(ToUint16(|body.supported|)), Vector(body.config), Vector(body.supported)]
    ensures NetworkConfigBodyAt(FlattenAll(vs), body)
  {
    OffsetsEnd(vs);
    hide FlattenAll, OffsetAt, Flatten, LE64, LE16, ToUint8, ToUint16, ToUint64, ByteValue, ShortValue, IntValue, LongValue,
      ByteAt, ShortAt, IntAt, LongAt, WordAt, BytesAt, ShortWidth, IntWidth, ChangeRows, MosaicBytes, EntityTypeBytes,
      PropertyRows, MosaicRows, MetadataRows, ChangesAt, AssetChangesAt, EntityTypeChangesAt, PropertiesAt, MosaicsAt,
      MetadataAt, RowWidths, Flags;
    LongField(vs, 0, body.applyHeightDelta);
    LengthField(vs, 1, |body.config|);
    LengthField(vs, 2, |body.supported|);
    BytesField(vs, 3, body.config);
    BytesField(vs, 4, body.supported);
  }

  lemma UpgradeReads(vs: seq<Value>, body: Body)
    requires body.BlockchainUpgrade?
    requires vs == [LongValue(body.upgradePeriod), LongValue(body.newVersion)]
    ensures UpgradeBodyAt(FlattenAll(vs), body)
  {
    OffsetsEnd(vs);
    hide FlattenAll, OffsetAt, Flatten, LE64, LE16, ToUint8, ToUint16, ToUint64, ByteValue, ShortValue, IntValue, LongValue,
      ByteAt, ShortAt, IntAt, LongAt, WordAt, BytesAt, ShortWidth, IntWidth, ChangeRows, MosaicBytes, EntityTypeBytes,
      PropertyRows, MosaicRows, MetadataRows, ChangesAt, AssetChangesAt, EntityTypeChangesAt, PropertiesAt, MosaicsAt,
      MetadataAt, RowWidths, Flags;
    LongField(vs, 0, body.upgradePeriod);
    WordField(vs, 1, body.newVersion);
  }

  lemma ProofReads(vs: seq<Value>, body: Body)
    requires body.SecretProof? && |body.secret| == 32 && |body.recipient| == 25
    requires vs == [ByteValue(body.hashType), Vector(body.secret), Vector(body.recipient),
                    ShortValue(ToUint16(|body.proof|)), Vector(body.proof)]
    ensures ProofBodyAt(FlattenAll(vs), body)
  {
    OffsetsEnd(vs);
    hide FlattenAll, OffsetAt, Flatten, LE64, LE16, ToUint8, ToUint16, ToUint64, ByteValue, ShortValue, IntValue, LongValue,
      ByteAt, ShortAt, IntAt, LongAt, WordAt, BytesAt, ShortWidth, IntWidth, ChangeRows, MosaicBytes, EntityTypeBytes,
      PropertyRows, MosaicRows, MetadataRows, ChangesAt, AssetChangesAt, EntityTypeChangesAt, PropertiesAt, MosaicsAt,
      MetadataAt, RowWidths, Flags;
    ByteField(vs, 0, body.hashType);
    BytesField(vs, 1, body.secret);
    BytesField(vs, 2, body.recipient);
    LengthField(vs, 3, |body.proof|);
    BytesField(vs, 4, body.proof);
  }

  lemma FundsLockReads(vs: seq<Value>, body: Body)
    requires body.LockFunds? && |body.hash| == 32
    requires vs == [LongValue(body.mosaic.id), LongValue(body.mosaic.amount), LongValue(body.lockDuration),
                    Vector(body.hash)]
    ensures FundsLockBodyAt(FlattenAll(vs), body)
  {
    OffsetsEnd(vs);
    hide FlattenAll, OffsetAt, Flatten, LE64, LE16, ToUint8, ToUint16, ToUint64, ByteValue, ShortValue, IntValue, LongValue,
      ByteAt, ShortAt, IntAt, LongAt, WordAt, BytesAt, ShortWidth, IntWidth, ChangeRows, MosaicBytes, EntityTypeBytes,
      PropertyRows, MosaicRows, MetadataRows, ChangesAt, AssetChangesAt, EntityTypeChangesAt, PropertiesAt, MosaicsAt,
      MetadataAt, RowWidths, Flags;
    WordField(vs, 0, body.mosaic.id);
    LongField(vs, 1, body.mosaic.amount);
    LongField(vs, 2, body.lockDuration);
    BytesField(vs, 3, body.hash);
  }

  lemma SecretLockReads(vs: seq<Value>, body: Body)
    requires body.SecretLock? && |body.secret| == 32 && |body.recipient| == 25
    requires vs == [LongValue(body.mosaic.id), LongValue(body.mosaic.amount), LongValue(body.lockDuration),
                    ByteValue(body.hashType), Vector(body.secret), Vector(body.recipient)]
    ensures SecretLockBodyAt(FlattenAll(vs), body)
  {
    OffsetsEnd(vs);
    hide FlattenAll, OffsetAt, Flatten, LE64, LE16, ToUint8, ToUint16, ToUint64, ByteValue, ShortValue, IntValue, LongValue,
      ByteAt, ShortAt, IntAt, LongAt, WordAt, BytesAt, ShortWidth, IntWidth, ChangeRows, MosaicBytes, EntityTypeBytes,
      PropertyRows, MosaicRows, MetadataRows, ChangesAt, AssetChangesAt, EntityTypeChangesAt, PropertiesAt, MosaicsAt,
      MetadataAt, RowWidths, Flags;
    WordField(vs, 0, body.mosaic.id);
    LongField(vs, 1, body.mosaic.amount);
    LongField(vs, 2, body.lockDuration);
    ByteField(vs, 3, body.hashType);
    BytesField(vs, 4, body.secret);
    BytesField(vs, 5, body.recipient);
  }

  lemma SupplyChangeReads(vs: seq<Value>, body: Body)
    requires body.MosaicSupplyChange?
    requires vs == [LongValue(body.mosaicId), ByteValue(body.direction), LongValue(body.delta)]
    ensures SupplyChangeBodyAt(FlattenAll(vs), body)
  {
    OffsetsEnd(vs);
    hide FlattenAll, OffsetAt, Flatten, LE64, LE16, ToUint8, ToUint16, ToUint64, ByteValue, ShortValue, IntValue, LongValue,
      ByteAt, ShortAt, IntAt, LongAt, WordAt, BytesAt, ShortWidth, IntWidth, ChangeRows, MosaicBytes, EntityTypeBytes,
      PropertyRows, MosaicRows, MetadataRows, ChangesAt, AssetChangesAt, EntityTypeChangesAt, PropertiesAt, MosaicsAt,
      MetadataAt, RowWidths, Flags;
    WordField(vs, 0, body.mosaicId);
    ByteField(vs, 1, body.direction);
    LongField(vs, 2, body.delta);
  }

  lemma MosaicReads(vs: seq<Value>, body: Body)
    requires body.MosaicDefinition?
    requires vs == [IntValue(body.nonce), LongValue(body.mosaicId), Count(body.properties),
                    ByteValue(FlagBits(body.supplyMutable, body.transferable)), ByteValue(body.divisibility),
                    Tables(PropertyRows(body.properties))]
    ensures MosaicBodyAt(FlattenAll(vs), body)
  {
    OffsetsEnd(vs);
    hide FlattenAll, OffsetAt, Flatten, LE64, LE16, ToUint8, ToUint16, ToUint64, ByteValue, ShortValue, IntValue, LongValue,
      ByteAt, ShortAt, IntAt, LongAt, WordAt, BytesAt, ShortWidth, IntWidth, ChangeRows, MosaicBytes, EntityTypeBytes,
      PropertyRows, MosaicRows, MetadataRows, ChangesAt, AssetChangesAt, EntityTypeChangesAt, PropertiesAt, MosaicsAt,
      MetadataAt, RowWidths, FlagBits;
    IntField(vs, 0, body.nonce);
    WordField(vs, 1, body.mosaicId);
    CountField(vs, 2, |body.properties|);
    ByteField(vs, 3, FlagBits(body.supplyMutable, body.transferable));
    ByteField(vs, 4, body.divisibility);
    PropertiesField(vs, 5, body.properties);
  }

  lemma TransferReads(vs: seq<Value>, body: Body)
    requires body.Transfer? && |body.recipient| == 25
    requires vs == [Vector(body.recipient), ShortValue(ToUint16(MessageSize(body.payload))), Count(body.mosaics),
                    Record([ByteValue(body.messageType), Vector(body.payload)]), Tables(MosaicRows(body.mosaics))]
    ensures TransferBodyAt(FlattenAll(vs), body)
  {
    OffsetsEnd(vs);
    hide FlattenAll, OffsetAt, Flatten, LE64, LE16, ToUint8, ToUint16, ToUint64, ByteValue, ShortValue, IntValue, LongValue,
      ByteAt, ShortAt, IntAt, LongAt, WordAt, BytesAt, ShortWidth, IntWidth, ChangeRows, MosaicBytes, EntityTypeBytes,
      PropertyRows, MosaicRows, MetadataRows, ChangesAt, AssetChangesAt, EntityTypeChangesAt, PropertiesAt, MosaicsAt,
      MetadataAt, RowWidths, Flags;
    BytesField(vs, 0, body.recipient);
    LengthField(vs, 1, |body.payload| + 1);
    CountField(vs, 2, |body.mosaics|);
    MessageField(vs, 3, body.messageType, body.payload);
    MosaicsField(vs, 4, body.mosaics);
  }

  lemma MetadataReads(vs: seq<Value>, body: Body)
    requires body.ModifyMetadata?
    requires body.target.OfAddress? ==> |body.target.address| == 25
    requires vs == [ByteValue(body.metadataType), Vector(TargetBytes(body.target)), Tables(MetadataRows(body.changes))]
    ensures MetadataBodyAt(FlattenAll(vs), body)
  {
    OffsetsEnd(vs);
    hide FlattenAll, OffsetAt, Flatten, LE64, LE16, ToUint8, ToUint16, ToUint64, ByteValue, ShortValue, IntValue, LongValue,
      ByteAt, ShortAt, IntAt, LongAt, WordAt, BytesAt, ShortWidth, IntWidth, ChangeRows, MosaicBytes, EntityTypeBytes,
      PropertyRows, MosaicRows, MetadataRows, ChangesAt, AssetChangesAt, EntityTypeChangesAt, PropertiesAt, MosaicsAt,
      MetadataAt, RowWidths, Flags;
    ByteField(vs, 0, body.metadataType);
    match body.target {
      case OfAddress(address) => BytesField(vs, 1, address);
      case OfMosaic(id) => WordBytesField(vs, 1, id);
      case OfNamespace(id) => WordBytesField(vs, 1, id);
    }
    MetadataField(vs, 2, body.changes);
  }

  lemma MultisigReads(vs: seq<Value>, body: Body)
    requires body.ModifyMultisig? && KeyedChanges(body.cosignatories)
    requires vs == [ByteValue(body.minRemovalDelta), ByteValue(body.minApprovalDelta), Count(body.cosignatories),
                    Tables(ChangeRows(body.cosignatories))]
    ensures MultisigBodyAt(FlattenAll(vs), body)
  {
    OffsetsEnd(vs);
    hide FlattenAll, OffsetAt, Flatten, LE64, LE16, ToUint8, ToUint16, ToUint64, ByteValue, ShortValue, IntValue, LongValue,
      ByteAt, ShortAt, IntAt, LongAt, WordAt, BytesAt, ShortWidth, IntWidth, ChangeRows, MosaicBytes, EntityTypeBytes,
      PropertyRows, MosaicRows, MetadataRows, ChangesAt, AssetChangesAt, EntityTypeChangesAt, PropertiesAt, MosaicsAt,
      MetadataAt, RowWidths, Flags;
    ByteField(vs, 0, body.minRemovalDelta);
    ByteField(vs, 1, body.minApprovalDelta);
    CountField(vs, 2, |body.cosignatories|);
    ChangesField(vs, 3, body.cosignatories, 32);
  }

  lemma ContractReads(vs: seq<Value>, body: Body)
    requires body.ModifyContract? && |body.hash| == 32 && KeyedChanges(body.customers)
             && KeyedChanges(body.executors) && KeyedChanges(body.verifiers)
    requires vs == [LongValue(body.durationDelta), Vector(body.hash), Count(body.customers), Count(body.executors),
                    Count(body.verifiers), Tables(ChangeRows(body.customers)), Tables(ChangeRows(body.executors)),
                    Tables(ChangeRows(body.verifiers))]
    ensures ContractBodyAt(FlattenAll(vs), body)
  {
    OffsetsEnd(vs);
    hide FlattenAll, OffsetAt, Flatten, LE64, LE16, ToUint8, ToUint16, ToUint64, ByteValue, ShortValue, IntValue, LongValue,
      ByteAt, ShortAt, IntAt, LongAt, WordAt, BytesAt, ShortWidth, IntWidth, ChangeRows, MosaicBytes, EntityTypeBytes,
      PropertyRows, MosaicRows, MetadataRows, ChangesAt, AssetChangesAt, EntityTypeChangesAt, PropertiesAt, MosaicsAt,
      MetadataAt, RowWidths, Flags;
    LongField(vs, 0, body.durationDelta);
    BytesField(vs, 1, body.hash);
    CountField(vs, 2, |body.customers|);
    CountField(vs, 3, |body.executors|);
    CountField(vs, 4, |body.verifiers|);
    ChangesField(vs, 5, body.customers, 32);
    ChangesField(vs, 6, body.executors, 32);
    ChangesField(vs, 7, body.verifiers, 32);
  }

  /** The flat form of every kind's own fields reads back. */
  lemma LeafReadsBack(tx: Transaction)
    requires WellFormed(tx) && !tx.body.Aggregate?
    ensures BodyReads(tx.body, FlattenAll(LeafTree(tx.body)))
  {
    hide FlattenAll;
    match tx.body
    case AccountPropertiesAddress(_, _) => AccountAddressesReads(LeafTree(tx.body), tx.body);
    case AccountPropertiesMosaic(_, _) => AccountMosaicsReads(LeafTree(tx.body), tx.body);
    case AccountPropertiesEntityType(_, _) => AccountEntityTypesReads(LeafTree(tx.body), tx.body);
    case AccountLink(_, _) => AccountLinkReads(LeafTree(tx.body), tx.body);
    case AddressAlias(_, _, _) => AddressAliasReads(LeafTree(tx.body), tx.body);
    case MosaicAlias(_, _, _) => MosaicAliasReads(LeafTree(tx.body), tx.body);
    case RegisterNamespace(_, _, _, _, _) => RegisterNamespaceReads(LeafTree(tx.body), tx.body);
    case NetworkConfig(_, _, _) => NetworkConfigReads(LeafTree(tx.body), tx.body);
    case BlockchainUpgrade(_, _) => UpgradeReads(LeafTree(tx.body), tx.body);
    case SecretProof(_, _, _, _) => ProofReads(LeafTree(tx.body), tx.body);
    case LockFunds(_, _, _) => FundsLockReads(LeafTree(tx.body), tx.body);
    case SecretLock(_, _, _, _, _) => SecretLockReads(LeafTree(tx.body), tx.body);
    case MosaicSupplyChange(_, _, _) => SupplyChangeReads(LeafTree(tx.body), tx.body);
    case MosaicDefinition(_, _, mutable, transferable, _, _) =>
      assert Flags(mutable, transferable) == FlagBits(mutable, transferable);
      MosaicReads(LeafTree(tx.body), tx.body);
    case Transfer(_, _, _, _) => TransferReads(LeafTree(tx.body), tx.body);
    case ModifyMetadata(_, _, _) => MetadataReads(LeafTree(tx.body), tx.body);
    case ModifyMultisig(_, _, _) => MultisigReads(LeafTree(tx.body), tx.body);
    case ModifyContract(_, _, _, _, _) => ContractReads(LeafTree(tx.body), tx.body);
  }

  // ---------------------------------------------------------------------------
  // Aggregates and whole emissions
  // ---------------------------------------------------------------------------

  lemma AggregateFlat(payload: bytes)
    ensures var d, size := FlattenAll(AggregateTree(payload)), |payload| % TWO32;
            IntAt(d, 0, size) && IntWidth(size) <= |d| && d[IntWidth(size)..] == payload
  {
    var vs := AggregateTree(payload);
    Truncations(|payload|);
    hide FlattenAll, OffsetAt, Flatten, ToUint32, IntValue, IntAt, IntWidth;
    OffsetsEnd(vs);
    IntField(vs, 0, ToUint32(|payload|));
    BytesField(vs, 1, payload);
  }

  lemma NetworkAndVersionWord(h: Header)
    ensures NetworkAndVersion(h) == VersionWord(h)
  {
  }

  lemma {:induction false} PieceRead(tx: Transaction)
    requires WellFormed(tx) && InnerBytes(tx).Success?
    ensures PieceReads(tx, InnerBytes(tx).value)
    decreases tx, 1
  {
    hide LE16, LE32, FromLE16, FromLE32, Size, VersionWord, NetworkAndVersion, HeaderPresent, HeaderGaps, BodyReads, BodyBytes,
      Bytes, ToUint32;
    InnerLayout(tx);
    BodyRead(tx);
    var e, d := InnerBytes(tx).value, BodyBytes(tx).value;
    Truncations(|e|);
    LE32RoundTrip(ToUint32(|e|));
    if HeaderPresent(tx) {
      assert e[36..40] == e[36..42][..4] && e[40..42] == e[36..42][4..];
      LE32RoundTrip(VersionWord(tx.header));
      LE16RoundTrip(tx.header.entityType);
      NetworkAndVersionWord(tx.header);
    }
    StrippedBody(tx);
    assert e[42..] == d[HeaderGaps(tx)..];
  }

  /** Stripping cuts the body by the bytes missing from the header. */
  lemma StrippedBody(tx: Transaction)
    requires WellFormed(tx) && InnerBytes(tx).Success?
    ensures BodyBytes(tx).Success? && |InnerBytes(tx).value| >= 42
    ensures HeaderGaps(tx) <= |BodyBytes(tx).value|
    ensures InnerBytes(tx).value[42..] == BodyBytes(tx).value[HeaderGaps(tx)..]
  {
    hide LE16, LE32, Size, BodyBytes, Bytes, HeaderGaps, HeaderPresent;
    HeaderReadBack(tx);
    var b, d, g := Bytes(tx).value, BodyBytes(tx).value, HeaderGaps(tx);
    StrippedParts(b, tx.header.signer.value);
    EmissionParts(tx);
    hide StripHeader;
    assert b[122..] == b[122 - g..][g..];
  }

  lemma {:induction false} BodyRead(tx: Transaction)
    requires WellFormed(tx) && Bytes(tx).Success?
    ensures BodyBytes(tx).Success? && BodyReads(tx.body, BodyBytes(tx).value)
    decreases tx, 0
  {
    hide FlattenAll, LeafTree, AggregateTree, PiecesRead;
    if tx.body.Aggregate? {
      var inner := tx.body.inner;
      AggregateRead(tx, inner);
      assert PiecesRead(inner, Encodings(inner).value, BodyBytes(tx).value);
    } else {
      LeafReadsBack(tx);
    }
  }

  lemma {:induction false} AggregateRead(tx: Transaction, inner: seq<Transaction>)
    requires tx.body == Aggregate(inner) && WellFormed(tx) && Bytes(tx).Success?
    ensures Encodings(inner).Success? && BodyBytes(tx).Success?
    ensures PiecesRead(inner, Encodings(inner).value, BodyBytes(tx).value)
    decreases inner, 2
  {
    hide FlattenAll, AggregateTree, PieceReads, IntAt, IntWidth, Encodings, Payload, InnerBytes, HeaderTree;
    PayloadIsConcat(inner);
    AggregateFlat(Payload(inner).value);
    var pieces := Encodings(inner).value;
    EncodingsLength(inner);
    if forall i :: 0 <= i < |pieces| ==> |pieces[i]| < TWO32 { PayloadSplits(inner); }
    forall i | 0 <= i < |inner| ensures PieceReads(inner[i], pieces[i]) {
      EncodingsAt(inner, i);
      PieceRead(inner[i]);
    }
  }

  lemma RestAt(vs: seq<Value>, k: nat)
    requires k <= |vs|
    ensures OffsetAt(vs, k) <= |FlattenAll(vs)| && FlattenAll(vs)[OffsetAt(vs, k)..] == FlattenAll(vs[k..])
  {
    hide FlattenAll;
    assert vs == vs[..k] + vs[k..];
    FlattenAllAppend(vs[..k], vs[k..]);
  }

  lemma SizePositive(tx: Transaction)
    requires Bytes(tx).Success? && WellFormed(tx)
    ensures Size(tx) >= 0
  {
    hide Size, Gaps, Bytes;
    LengthLaw(tx);
  }

  lemma ZerosField(vs: seq<Value>, k: nat, n: nat)
    requires k < |vs| && vs[k] == Vector(Zeros(n))
    ensures OffsetAt(vs, k + 1) == OffsetAt(vs, k) + n <= |FlattenAll(vs)|
    ensures forall i :: OffsetAt(vs, k) <= i < OffsetAt(vs, k) + n ==> FlattenAll(vs)[i] == 0
  {
    hide FlattenAll, OffsetAt;
    BytesField(vs, k, Zeros(n));
    var d, at := FlattenAll(vs), OffsetAt(vs, k);
    forall i | at <= i < at + n ensures d[i] == 0 {
      assert d[at..at + n][i - at] == d[i];
    }
  }

  /** The size and the zero bytes. */
  lemma HeaderFront(vs: seq<Value>, size: nat)
    requires |vs| >= 3 && vs[0] == IntValue(ToUint32(size)) && vs[1] == Vector(Zeros(64)) && vs[2] == Vector(Zeros(32))
    ensures var b, zeros := FlattenAll(vs), IntWidth(size % TWO32);
            && OffsetAt(vs, 3) == zeros + 96 <= |b|
            && IntAt(b, 0, size % TWO32)
            && forall k :: zeros <= k < zeros + 96 ==> b[k] == 0
  {
    Truncations(size);
    hide FlattenAll, OffsetAt, Flatten, ToUint32, IntValue, IntAt, IntWidth, Zeros;
    OffsetsEnd(vs);
    IntField(vs, 0, ToUint32(size));
    ZerosField(vs, 1, 64);
    ZerosField(vs, 2, 32);
  }

  /** The version word, the type, the fee and the deadline. */
  lemma HeaderBack(vs: seq<Value>, version: uint32, entityType: uint16, fee: int64, deadline: int64)
    requires |vs| >= 7 && vs[3] == IntValue(version) && vs[4] == ShortValue(entityType)
    requires vs[5] == LongValue(fee) && vs[6] == LongValue(deadline)
    ensures var b, at := FlattenAll(vs), OffsetAt(vs, 3);
            var typeAt := at + IntWidth(version);
            var feeAt := typeAt + ShortWidth(entityType);
            && OffsetAt(vs, 7) == feeAt + 16 <= |b|
            && IntAt(b, at, version) && ShortAt(b, typeAt, entityType)
            && LongAt(b, feeAt, fee) && LongAt(b, feeAt + 8, deadline)
  {
    hide *;
    RestAt(vs, 7);
    IntField(vs, 3, version);
    ShortField(vs, 4, entityType);
    LongField(vs, 5, fee);
    LongField(vs, 6, deadline);
  }

  lemma HeaderFields(tx: Transaction, vs: seq<Value>)
    requires Size(tx) >= 0 && |vs| >= 7 && forall k :: 0 <= k < 7 ==> vs[k] == HeaderTree(tx)[k]
    ensures HeaderReads(tx, FlattenAll(vs), OffsetAt(vs, 7))
  {
    var h := tx.header;
    assert vs[0] == IntValue(ToUint32(Size(tx))) && vs[1] == Vector(Zeros(64)) && vs[2] == Vector(Zeros(32));
    assert vs[3] == IntValue(VersionWord(h)) && vs[4] == ShortValue(h.entityType);
    assert vs[5] == LongValue(h.maxFee) && vs[6] == LongValue(h.deadline);
    hide HeaderTree, FlattenAll, OffsetAt, Flatten, ToUint32, ToUint16, IntValue, ShortValue, LongValue, IntAt, ShortAt, LongAt,
      IntWidth, ShortWidth, Size, VersionWord, NetworkAndVersion, Zeros;
    NetworkAndVersionWord(h);
    HeaderFront(vs, Size(tx));
    HeaderBack(vs, VersionWord(h), h.entityType, h.maxFee, h.deadline);
  }

  lemma OffsetIs(vs: seq<Value>, k: nat)
    requires k <= |vs|
    ensures OffsetAt(vs, k) == |FlattenAll(vs[..k])|
  {
  }

  lemma TreeParts(tx: Transaction)
    requires Bytes(tx).Success?
    ensures Tree(tx).Success? && BodyTree(tx).Success? && |Tree(tx).value| >= 7
    ensures Tree(tx).value[..7] == HeaderTree(tx) && Tree(tx).value[7..] == BodyTree(tx).value
  {
    hide FlattenAll, LeafTree, AggregateTree;
    assert |HeaderTree(tx)| == 7;
    hide HeaderTree;
  }

  /** Every field of every transaction, however deeply aggregated, reads back from what is
      emitted, and nothing else is emitted. */
  lemma EmissionReadBack(tx: Transaction)
    requires WellFormed(tx) && Bytes(tx).Success?
    ensures EmissionReads(tx, Bytes(tx).value)
  {
    hide Tree, HeaderTree, BodyTree, FlattenAll, HeaderReads, BodyReads, OffsetAt, HeaderGaps;
    TreeParts(tx);
    var vs := Tree(tx).value;
    assert forall k :: 0 <= k < 7 ==> vs[k] == vs[..7][k];
    SizePositive(tx);
    HeaderFields(tx, vs);
    HeaderLength(tx);
    OffsetIs(vs, 7);
    RestAt(vs, 7);
    BodyRead(tx);
  }
}
