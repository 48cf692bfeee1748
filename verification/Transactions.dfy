/** The transaction kinds, their value trees, their sizes and their emitted bytes. */
module Transactions {
  import opened Words
  import opened Wrappers
  import opened Schema
  import opened TransactionSchemas

  // ---------------------------------------------------------------------------
  // Data
  // ---------------------------------------------------------------------------

  datatype Error = NoSigner | EmptyMetadataKey | SliceOutOfRange | BufferTooLarge

  /** The common part.  The deadline is the blockchain timestamp; the signer is the
      decoded public key. */
  datatype Header = Header(
    networkType: byte, version: uint32, entityType: uint16, maxFee: int64, deadline: int64, signer: Option<bytes>)

  datatype Change<+T> = Change(kind: byte, value: T)
  datatype MetadataChange = MetadataChange(kind: byte, key: bytes, value: bytes)
  datatype Mosaic = Mosaic(id: uint64, amount: int64)

  datatype MetadataTarget = OfAddress(address: bytes) | OfMosaic(mosaicId: uint64) | OfNamespace(namespaceId: uint64)

  datatype Body =
    | AccountPropertiesAddress(propertyType: byte, addresses: seq<Change<bytes>>)
    | AccountPropertiesMosaic(propertyType: byte, assets: seq<Change<uint64>>)
    | AccountPropertiesEntityType(propertyType: byte, entityTypes: seq<Change<uint16>>)
    | AddressAlias(action: byte, namespaceId: uint64, address: bytes)
    | MosaicAlias(action: byte, namespaceId: uint64, mosaicId: uint64)
    | AccountLink(action: byte, remoteKey: bytes)
    | NetworkConfig(applyHeightDelta: int64, config: bytes, supported: bytes)
    | BlockchainUpgrade(upgradePeriod: int64, newVersion: uint64)
    | Aggregate(inner: seq<Transaction>)
    | ModifyMetadata(metadataType: byte, target: MetadataTarget, changes: seq<MetadataChange>)
    | MosaicDefinition(nonce: uint32, mosaicId: uint64, supplyMutable: bool, transferable: bool, divisibility: byte,
                       properties: seq<Change<int64>>)
    | MosaicSupplyChange(mosaicId: uint64, direction: byte, delta: int64)
    | Transfer(recipient: bytes, messageType: byte, payload: bytes, mosaics: seq<Mosaic>)
    | ModifyMultisig(minRemovalDelta: byte, minApprovalDelta: byte, cosignatories: seq<Change<bytes>>)
    | ModifyContract(durationDelta: int64, hash: bytes,
                     customers: seq<Change<bytes>>, executors: seq<Change<bytes>>, verifiers: seq<Change<bytes>>)
    | RegisterNamespace(namespaceType: byte, namespaceId: uint64, duration: int64, parentId: uint64, name: bytes)
    | LockFunds(mosaic: Mosaic, lockDuration: int64, hash: bytes)
    | SecretLock(mosaic: Mosaic, lockDuration: int64, hashType: byte, secret: bytes, recipient: bytes)
    | SecretProof(hashType: byte, secret: bytes, recipient: bytes, proof: bytes)

  datatype Transaction = Transaction(header: Header, body: Body)

  // ---------------------------------------------------------------------------
  // Size constants
  // ---------------------------------------------------------------------------

  const ADDRESS_SIZE := 25
  const BASE_INT64_SIZE := 8
  const KEY_SIZE := 32
  const HASH256 := 32
  const SIZE_SIZE := 4
  const MAX_STRING_SIZE := 2
  const SIGNER_SIZE := KEY_SIZE
  const SIGNATURE_SIZE := 64
  const VERSION_SIZE := 4
  const TYPE_SIZE := 2
  const MAX_FEE_SIZE := BASE_INT64_SIZE
  const DEADLINE_SIZE := BASE_INT64_SIZE
  const TRANSACTION_HEADER_SIZE :=
    SIZE_SIZE + SIGNER_SIZE + SIGNATURE_SIZE + VERSION_SIZE + TYPE_SIZE + MAX_FEE_SIZE + DEADLINE_SIZE
  const PROPERTY_TYPE_SIZE := 2
  const PROPERTY_MODIFICATION_TYPE_SIZE := 1
  const LINK_ACTION_SIZE := 1
  const ALIAS_ACTION_SIZE := 1
  const HASH_TYPE_SIZE := 1
  const METADATA_TYPE_SIZE := 1
  const MODIFICATIONS_SIZE_SIZE := 1
  const MIN_APPROVAL_SIZE := 1
  const MIN_REMOVAL_SIZE := 1
  const MOSAIC_NONCE_SIZE := 4
  const MOSAIC_PROPERTIES_HEADER_SIZE := 3
  const MOSAIC_PROPERTY_ID_SIZE := 1
  const MOSAIC_SUPPLY_DIRECTION_SIZE := 1
  const NAMESPACE_TYPE_SIZE := 1
  const NAMESPACE_NAME_SIZE_SIZE := 1
  const PROOF_SIZE_SIZE := 2
  const MOSAICS_SIZE_SIZE := 1
  const MESSAGE_SIZE_SIZE := 2

  const SUPPLY_MUTABLE: byte := 1
  const TRANSFERABLE: byte := 2
  const ROOT: byte := 0

  /** What an inner transaction drops: signature, fee and deadline. */
  const STRIPPED_SIZE := SIGNATURE_SIZE + MAX_FEE_SIZE + DEADLINE_SIZE

  // ---------------------------------------------------------------------------
  // Declared sizes
  // ---------------------------------------------------------------------------

  function MessageSize(payload: bytes): nat { |payload| + 1 }

  function MetadataChangeSize(m: MetadataChange): nat { SIZE_SIZE + 1 + 1 + 2 + |m.key| + |m.value| }

  function MetadataSizes(changes: seq<MetadataChange>): nat {
    if changes == [] then 0 else MetadataSizes(changes[..|changes| - 1]) + MetadataChangeSize(changes[|changes| - 1])
  }

  function TargetSize(target: MetadataTarget): nat {
    if target.OfAddress? then ADDRESS_SIZE else BASE_INT64_SIZE
  }

  /** The size a transaction declares, computed per kind without looking at its bytes. */
  function Size(tx: Transaction): int
    decreases tx, 0
  {
    TRANSACTION_HEADER_SIZE +
    match tx.body
    case AccountPropertiesAddress(_, ms) => PROPERTY_TYPE_SIZE + (PROPERTY_MODIFICATION_TYPE_SIZE + ADDRESS_SIZE) * |ms|
    case AccountPropertiesMosaic(_, ms) => PROPERTY_TYPE_SIZE + (PROPERTY_MODIFICATION_TYPE_SIZE + BASE_INT64_SIZE) * |ms|
    case AccountPropertiesEntityType(_, ms) => PROPERTY_TYPE_SIZE + (PROPERTY_MODIFICATION_TYPE_SIZE + TYPE_SIZE) * |ms|
    case AddressAlias(_, _, _) => BASE_INT64_SIZE + ALIAS_ACTION_SIZE + ADDRESS_SIZE
    case MosaicAlias(_, _, _) => BASE_INT64_SIZE + ALIAS_ACTION_SIZE + BASE_INT64_SIZE
    case AccountLink(_, _) => KEY_SIZE + LINK_ACTION_SIZE
    case NetworkConfig(_, config, supported) => BASE_INT64_SIZE + 2 * MAX_STRING_SIZE + |config| + |supported|
    case BlockchainUpgrade(_, _) => 2 * BASE_INT64_SIZE
    case Aggregate(inner) => SIZE_SIZE + InnerSizes(inner)
    case ModifyMetadata(_, target, changes) => METADATA_TYPE_SIZE + MetadataSizes(changes) + TargetSize(target)
    case MosaicDefinition(_, _, _, _, _, ps) =>
      MOSAIC_NONCE_SIZE + BASE_INT64_SIZE + MOSAIC_PROPERTIES_HEADER_SIZE + |ps| * (MOSAIC_PROPERTY_ID_SIZE + BASE_INT64_SIZE)
    case MosaicSupplyChange(_, _, _) => 2 * BASE_INT64_SIZE + MOSAIC_SUPPLY_DIRECTION_SIZE
    case Transfer(_, _, payload, mosaics) =>
      ADDRESS_SIZE + MOSAICS_SIZE_SIZE + MESSAGE_SIZE_SIZE + 2 * BASE_INT64_SIZE * |mosaics| + MessageSize(payload)
    case ModifyMultisig(_, _, cs) => MIN_APPROVAL_SIZE + MIN_REMOVAL_SIZE + MODIFICATIONS_SIZE_SIZE + (KEY_SIZE + 1) * |cs|
    case ModifyContract(_, _, cs, es, vs) =>
      BASE_INT64_SIZE + HASH256 + 3 * MODIFICATIONS_SIZE_SIZE + (KEY_SIZE + 1) * (|cs| + |es| + |vs|)
    case RegisterNamespace(_, _, _, _, name) =>
      NAMESPACE_TYPE_SIZE + 2 * BASE_INT64_SIZE + NAMESPACE_NAME_SIZE_SIZE + |name|
    case LockFunds(_, _, _) => 3 * BASE_INT64_SIZE + HASH256
    case SecretLock(_, _, _, _, _) => 3 * BASE_INT64_SIZE + HASH_TYPE_SIZE + HASH256 + ADDRESS_SIZE
    case SecretProof(_, _, _, proof) => HASH_TYPE_SIZE + HASH256 + ADDRESS_SIZE + PROOF_SIZE_SIZE + |proof|
  }

  function InnerSizes(inner: seq<Transaction>): int
    decreases inner, 0
  {
    if inner == [] then 0
    else InnerSizes(inner[..|inner| - 1]) + Size(inner[|inner| - 1]) - STRIPPED_SIZE
  }

  // ---------------------------------------------------------------------------
  // Value trees
  // ---------------------------------------------------------------------------

  /** The builder omits a scalar that equals its default, zero. */
  function ByteValue(x: byte): Value { if x == 0 then AbsentScalar else Word([x]) }
  function ShortValue(x: uint16): Value { if x == 0 then AbsentScalar else Word(LE16(x)) }
  function IntValue(x: uint32): Value { if x == 0 then AbsentScalar else Word(LE32(x)) }

  /** A 64-bit number stored as two 32-bit words, low word first. */
  function LongValue(x: int): Value { Vector(LE64(ToUint64(x))) }

  function VersionWord(h: Header): uint32 { ToUint32(h.networkType * TWO24 + h.version) }

  function HeaderTree(tx: Transaction): seq<Value> {
    [IntValue(ToUint32(Size(tx))), Vector(Zeros(SIGNATURE_SIZE)), Vector(Zeros(SIGNER_SIZE)),
     IntValue(VersionWord(tx.header)), ShortValue(tx.header.entityType),
     LongValue(tx.header.maxFee), LongValue(tx.header.deadline)]
  }

  function ChangeRows(changes: seq<Change<bytes>>): seq<Value> {
    seq(|changes|, i requires 0 <= i < |changes| => Record([ByteValue(changes[i].kind), Vector(changes[i].value)]))
  }

  function MosaicBytes(changes: seq<Change<uint64>>): seq<Change<bytes>> {
    seq(|changes|, i requires 0 <= i < |changes| => Change(changes[i].kind, LE64(changes[i].value)))
  }

  function EntityTypeBytes(changes: seq<Change<uint16>>): seq<Change<bytes>> {
    seq(|changes|, i requires 0 <= i < |changes| => Change(changes[i].kind, LE16(changes[i].value)))
  }

  function PropertyRows(properties: seq<Change<int64>>): seq<Value> {
    seq(|properties|, i requires 0 <= i < |properties| =>
      Record([ByteValue(properties[i].kind), LongValue(properties[i].value)]))
  }

  function MosaicRows(mosaics: seq<Mosaic>): seq<Value> {
    seq(|mosaics|, i requires 0 <= i < |mosaics| => Record([LongValue(mosaics[i].id), LongValue(mosaics[i].amount)]))
  }

  function MetadataRow(m: MetadataChange): Value {
    Record([IntValue(ToUint32(MetadataChangeSize(m))), ByteValue(m.kind), ByteValue(ToUint8(|m.key|)),
            Vector(LE16(ToUint16(|m.value|))), Vector(m.key), Vector(m.value)])
  }

  function MetadataRows(changes: seq<MetadataChange>): seq<Value> {
    seq(|changes|, i requires 0 <= i < |changes| => MetadataRow(changes[i]))
  }

  function TargetBytes(target: MetadataTarget): bytes {
    match target
    case OfAddress(address) => address
    case OfMosaic(id) => LE64(id)
    case OfNamespace(id) => LE64(id)
  }

  function Flags(supplyMutable: bool, transferable: bool): byte {
    (if supplyMutable then SUPPLY_MUTABLE else 0) + (if transferable then TRANSFERABLE else 0)
  }

  function Count<T>(s: seq<T>): Value { ByteValue(ToUint8(|s|)) }

  function AggregateTree(payload: bytes): seq<Value> {
    [IntValue(ToUint32(|payload|)), Vector(payload)]
  }

  /** The attributes that follow the common ones, for every kind but the aggregate. */
  function LeafTree(body: Body): seq<Value>
    requires !body.Aggregate?
  {
    match body
    case AccountPropertiesAddress(t, ms) => [ByteValue(t), Count(ms), Tables(ChangeRows(ms))]
    case AccountPropertiesMosaic(t, ms) => [ByteValue(t), Count(ms), Tables(ChangeRows(MosaicBytes(ms)))]
    case AccountPropertiesEntityType(t, ms) => [ByteValue(t), Count(ms), Tables(ChangeRows(EntityTypeBytes(ms)))]
    case AddressAlias(action, ns, address) => [ByteValue(action), LongValue(ns), Vector(address)]
    case MosaicAlias(action, ns, mosaic) => [ByteValue(action), LongValue(ns), Vector(LE64(mosaic))]
    case AccountLink(action, key) => [Vector(key), ByteValue(action)]
    case NetworkConfig(delta, config, supported) =>
      [LongValue(delta), ShortValue(ToUint16(|config|)), ShortValue(ToUint16(|supported|)), Vector(config), Vector(supported)]
    case BlockchainUpgrade(period, version) => [LongValue(period), LongValue(version)]
    case ModifyMetadata(t, target, changes) => [ByteValue(t), Vector(TargetBytes(target)), Tables(MetadataRows(changes))]
    case MosaicDefinition(nonce, id, mutable, transferable, divisibility, ps) =>
      [IntValue(nonce), LongValue(id), Count(ps), ByteValue(Flags(mutable, transferable)), ByteValue(divisibility),
       Tables(PropertyRows(ps))]
    case MosaicSupplyChange(id, direction, delta) => [LongValue(id), ByteValue(direction), LongValue(delta)]
    case Transfer(recipient, messageType, payload, mosaics) =>
      [Vector(recipient), ShortValue(ToUint16(MessageSize(payload))), Count(mosaics),
       Record([ByteValue(messageType), Vector(payload)]), Tables(MosaicRows(mosaics))]
    case ModifyMultisig(removal, approval, cs) =>
      [ByteValue(removal), ByteValue(approval), Count(cs), Tables(ChangeRows(cs))]
    case ModifyContract(delta, hash, cs, es, vs) =>
      [LongValue(delta), Vector(hash), Count(cs), Count(es), Count(vs),
       Tables(ChangeRows(cs)), Tables(ChangeRows(es)), Tables(ChangeRows(vs))]
    case RegisterNamespace(t, id, duration, parent, name) =>
      [ByteValue(t), LongValue(if t == ROOT then duration else parent), LongValue(id), Count(name), Vector(name)]
    case LockFunds(m, duration, hash) => [LongValue(m.id), LongValue(m.amount), LongValue(duration), Vector(hash)]
    case SecretLock(m, duration, hashType, secret, recipient) =>
      [LongValue(m.id), LongValue(m.amount), LongValue(duration), ByteValue(hashType), Vector(secret), Vector(recipient)]
    case SecretProof(hashType, secret, recipient, proof) =>
      [ByteValue(hashType), Vector(secret), Vector(recipient), ShortValue(ToUint16(|proof|)), Vector(proof)]
  }

  /** Kinds with a list of nested tables. */
  predicate HasTables(body: Body) {
    body.AccountPropertiesAddress? || body.AccountPropertiesMosaic? || body.AccountPropertiesEntityType?
    || body.ModifyMetadata? || body.MosaicDefinition? || body.Transfer? || body.ModifyMultisig? || body.ModifyContract?
  }

  function BodySchema(body: Body): seq<Attribute> {
    match body
    case AccountPropertiesAddress(_, _) => ACCOUNT_PROPERTY
    case AccountPropertiesMosaic(_, _) => ACCOUNT_PROPERTY
    case AccountPropertiesEntityType(_, _) => ACCOUNT_PROPERTY
    case AddressAlias(_, _, _) => ALIAS
    case MosaicAlias(_, _, _) => ALIAS
    case AccountLink(_, _) => ACCOUNT_LINK
    case NetworkConfig(_, _, _) => NETWORK_CONFIG
    case BlockchainUpgrade(_, _) => BLOCKCHAIN_UPGRADE
    case Aggregate(_) => AGGREGATE
    case ModifyMetadata(_, _, _) => MODIFY_METADATA
    case MosaicDefinition(_, _, _, _, _, _) => MOSAIC_DEFINITION
    case MosaicSupplyChange(_, _, _) => MOSAIC_SUPPLY_CHANGE
    case Transfer(_, _, _, _) => TRANSFER
    case ModifyMultisig(_, _, _) => MODIFY_MULTISIG
    case ModifyContract(_, _, _, _, _) => MODIFY_CONTRACT
    case RegisterNamespace(_, _, _, _, _) => REGISTER_NAMESPACE
    case LockFunds(_, _, _) => LOCK_FUNDS
    case SecretLock(_, _, _, _, _) => SECRET_LOCK
    case SecretProof(_, _, _, _) => SECRET_PROOF
  }

  // ---------------------------------------------------------------------------
  // Emitted bytes
  // ---------------------------------------------------------------------------

  predicate EmptyKey(body: Body) {
    body.ModifyMetadata? && exists i :: 0 <= i < |body.changes| && body.changes[i].key == []
  }

  function Tree(tx: Transaction): Result<seq<Value>, Error>
    decreases tx, 0
  {
    match tx.body
    case Aggregate(inner) =>
      var payload :- Payload(inner);
      Success(HeaderTree(tx) + AggregateTree(payload))
    case _ =>
      if EmptyKey(tx.body) then Failure(EmptyMetadataKey) else Success(HeaderTree(tx) + LeafTree(tx.body))
  }

  /** What `generateBytes` returns: the depth-first concatenation of the value tree. */
  function Bytes(tx: Transaction): Result<bytes, Error>
    decreases tx, 1
  {
    var tree :- Tree(tx);
    Success(FlattenAll(tree))
  }

  /** An inner transaction: its own length, its signer, then version, type and body. */
  function StripHeader(b: bytes, signer: bytes): Result<bytes, Error> {
    if |b| < TRANSACTION_HEADER_SIZE || |signer| < SIGNER_SIZE then Failure(SliceOutOfRange)
    else
      var from := SIZE_SIZE + SIGNER_SIZE + SIGNATURE_SIZE;
      Success(LE32(ToUint32(|b| - STRIPPED_SIZE)) + signer[..SIGNER_SIZE]
              + b[from..from + VERSION_SIZE + TYPE_SIZE] + b[TRANSACTION_HEADER_SIZE..])
  }

  function InnerBytes(tx: Transaction): Result<bytes, Error>
    decreases tx, 2
  {
    if tx.header.signer.None? then Failure(NoSigner)
    else
      var b :- Bytes(tx);
      StripHeader(b, tx.header.signer.value)
  }

  function Payload(inner: seq<Transaction>): Result<bytes, Error>
    decreases inner, 0
  {
    if inner == [] then Success([])
    else
      var before :- Payload(inner[..|inner| - 1]);
      var last :- InnerBytes(inner[|inner| - 1]);
      Success(before + last)
  }
}
