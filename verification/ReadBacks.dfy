/** What a receiver finds in an emission: every field of the transaction, at its byte offset.
    The offsets are spelled out here, not taken from the value trees. */
module ReadBacks {
  import opened Words
  import opened Wrappers
  import opened Schema
  import opened Transactions
  import opened SizeLaw
  import opened InnerEncodings

  // ---------------------------------------------------------------------------
  // Reading one field
  // ---------------------------------------------------------------------------

  predicate ByteAt(d: bytes, at: int, x: int) { 0 <= at < |d| && d[at] == x }

  /** A number of two or four bytes takes a single byte when it is zero. */
  function ShortWidth(x: int): nat { if x == 0 then 1 else 2 }

  function IntWidth(x: int): nat { if x == 0 then 1 else 4 }

  predicate ShortAt(d: bytes, at: int, x: int) {
    if x == 0 then ByteAt(d, at, 0) else InBuffer(d, at, 2) && FromLE16(d[at..at + 2]) == x
  }

  predicate IntAt(d: bytes, at: int, x: int) {
    if x == 0 then ByteAt(d, at, 0) else InBuffer(d, at, 4) && FromLE32(d[at..at + 4]) == x
  }

  /** Eight bytes, signed and unsigned. */
  predicate LongAt(d: bytes, at: int, x: int64) { InBuffer(d, at, 8) && ReadLong(d[at..at + 8]) == x }

  predicate WordAt(d: bytes, at: int, x: uint64) { InBuffer(d, at, 8) && ReadWord(d[at..at + 8]) == x }

  predicate BytesAt(d: bytes, at: int, s: bytes) { InBuffer(d, at, |s|) && d[at..at + |s|] == s }

  // ---------------------------------------------------------------------------
  // Reading lists
  // ---------------------------------------------------------------------------

  /** Changes in order, each a kind and `n` bytes. */
  ghost predicate ChangesAt(d: bytes, at: int, changes: seq<Change<bytes>>, n: nat) {
    forall i :: 0 <= i < |changes| ==>
      ByteAt(d, at + (1 + n) * i, changes[i].kind) && BytesAt(d, at + (1 + n) * i + 1, changes[i].value)
  }

  ghost predicate AssetChangesAt(d: bytes, at: int, changes: seq<Change<uint64>>) {
    forall i :: 0 <= i < |changes| ==>
      ByteAt(d, at + 9 * i, changes[i].kind) && WordAt(d, at + 9 * i + 1, changes[i].value)
  }

  predicate EntityTypeChangeAt(d: bytes, at: int, change: Change<uint16>) {
    ByteAt(d, at, change.kind) && InBuffer(d, at + 1, 2) && FromLE16(d[at + 1..at + 3]) == change.value
  }

  ghost predicate EntityTypeChangesAt(d: bytes, at: int, changes: seq<Change<uint16>>) {
    forall i :: 0 <= i < |changes| ==> EntityTypeChangeAt(d, at + 3 * i, changes[i])
  }

  ghost predicate PropertiesAt(d: bytes, at: int, properties: seq<Change<int64>>) {
    forall i :: 0 <= i < |properties| ==>
      ByteAt(d, at + 9 * i, properties[i].kind) && LongAt(d, at + 9 * i + 1, properties[i].value)
  }

  ghost predicate MosaicsAt(d: bytes, at: int, mosaics: seq<Mosaic>) {
    forall i :: 0 <= i < |mosaics| ==>
      WordAt(d, at + 16 * i, mosaics[i].id) && LongAt(d, at + 16 * i + 8, mosaics[i].amount)
  }

  /** A metadata row tells its own length in its first four bytes. */
  function RowSize(m: MetadataChange): nat { 8 + |m.key| + |m.value| }

  function RowWidth(m: MetadataChange): nat { IntWidth(RowSize(m) % TWO32) + 4 + |m.key| + |m.value| }

  /** The row ends where its size word says. */
  predicate SizeWordAt(d: bytes, at: int, m: MetadataChange) {
    RowSize(m) < TWO32 ==> InBuffer(d, at, 4) && FromLE32(d[at..at + 4]) == RowWidth(m)
  }

  predicate MetadataRowAt(d: bytes, at: int, m: MetadataChange) {
    var w := IntWidth(RowSize(m) % TWO32);
    && IntAt(d, at, RowSize(m) % TWO32)
    && ByteAt(d, at + w, m.kind)
    && ByteAt(d, at + w + 1, |m.key| % 256)
    && InBuffer(d, at + w + 2, 2) && FromLE16(d[at + w + 2..at + w + 4]) == |m.value| % 65536
    && BytesAt(d, at + w + 4, m.key)
    && BytesAt(d, at + w + 4 + |m.key|, m.value)
    && SizeWordAt(d, at, m)
  }

  predicate MetadataAt(d: bytes, at: int, changes: seq<MetadataChange>)
    decreases |changes|
  {
    changes == [] || (MetadataRowAt(d, at, changes[0]) && MetadataAt(d, at + RowWidth(changes[0]), changes[1..]))
  }

  function RowWidths(changes: seq<MetadataChange>): nat {
    if changes == [] then 0 else RowWidth(changes[0]) + RowWidths(changes[1..])
  }

  // ---------------------------------------------------------------------------
  // Reading a body
  // ---------------------------------------------------------------------------

  /** The word made of network type and version. */
  function NetworkAndVersion(h: Header): int { (h.networkType * 16777216 + h.version) % TWO32 }

  ghost predicate AccountAddressesBodyAt(d: bytes, body: Body)
    requires body.AccountPropertiesAddress?
  {
    && |d| == 2 + 26 * |body.addresses|
    && ByteAt(d, 0, body.propertyType) && ByteAt(d, 1, |body.addresses| % 256) && ChangesAt(d, 2, body.addresses, 25)
  }

  ghost predicate AccountMosaicsBodyAt(d: bytes, body: Body)
    requires body.AccountPropertiesMosaic?
  {
    && |d| == 2 + 9 * |body.assets|
    && ByteAt(d, 0, body.propertyType) && ByteAt(d, 1, |body.assets| % 256) && AssetChangesAt(d, 2, body.assets)
  }

  ghost predicate AccountEntityTypesBodyAt(d: bytes, body: Body)
    requires body.AccountPropertiesEntityType?
  {
    && |d| == 2 + 3 * |body.entityTypes|
    && ByteAt(d, 0, body.propertyType) && ByteAt(d, 1, |body.entityTypes| % 256)
    && EntityTypeChangesAt(d, 2, body.entityTypes)
  }

  ghost predicate AddressAliasBodyAt(d: bytes, body: Body)
    requires body.AddressAlias?
  {
    |d| == 34 && ByteAt(d, 0, body.action) && WordAt(d, 1, body.namespaceId) && BytesAt(d, 9, body.address)
  }

  ghost predicate MosaicAliasBodyAt(d: bytes, body: Body)
    requires body.MosaicAlias?
  {
    |d| == 17 && ByteAt(d, 0, body.action) && WordAt(d, 1, body.namespaceId) && WordAt(d, 9, body.mosaicId)
  }

  ghost predicate AccountLinkBodyAt(d: bytes, body: Body)
    requires body.AccountLink?
  {
    |d| == 33 && BytesAt(d, 0, body.remoteKey) && ByteAt(d, 32, body.action)
  }

  ghost predicate NetworkConfigBodyAt(d: bytes, body: Body)
    requires body.NetworkConfig?
  {
    var w := ShortWidth(|body.config| % 65536);
    var w' := ShortWidth(|body.supported| % 65536);
    && |d| == 8 + w + w' + |body.config| + |body.supported|
    && LongAt(d, 0, body.applyHeightDelta)
    && ShortAt(d, 8, |body.config| % 65536) && ShortAt(d, 8 + w, |body.supported| % 65536)
    && BytesAt(d, 8 + w + w', body.config) && BytesAt(d, 8 + w + w' + |body.config|, body.supported)
  }

  ghost predicate UpgradeBodyAt(d: bytes, body: Body)
    requires body.BlockchainUpgrade?
  {
    |d| == 16 && LongAt(d, 0, body.upgradePeriod) && WordAt(d, 8, body.newVersion)
  }

  ghost predicate MetadataBodyAt(d: bytes, body: Body)
    requires body.ModifyMetadata?
  {
    var w := if body.target.OfAddress? then 25 else 8;
    && |d| == 1 + w + RowWidths(body.changes)
    && ByteAt(d, 0, body.metadataType)
    && (match body.target
        case OfAddress(address) => BytesAt(d, 1, address)
        case OfMosaic(mosaicId) => WordAt(d, 1, mosaicId)
        case OfNamespace(namespaceId) => WordAt(d, 1, namespaceId))
    && MetadataAt(d, 1 + w, body.changes)
  }

  /** The lowest bit and the one above it. */
  function FlagBits(supplyMutable: bool, transferable: bool): byte {
    (if supplyMutable then 1 else 0) + if transferable then 2 else 0
  }

  ghost predicate MosaicBodyAt(d: bytes, body: Body)
    requires body.MosaicDefinition?
  {
    var w := IntWidth(body.nonce);
    && |d| == w + 11 + 9 * |body.properties|
    && IntAt(d, 0, body.nonce) && WordAt(d, w, body.mosaicId) && ByteAt(d, w + 8, |body.properties| % 256)
    && ByteAt(d, w + 9, FlagBits(body.supplyMutable, body.transferable))
    && ByteAt(d, w + 10, body.divisibility) && PropertiesAt(d, w + 11, body.properties)
  }

  ghost predicate SupplyChangeBodyAt(d: bytes, body: Body)
    requires body.MosaicSupplyChange?
  {
    |d| == 17 && WordAt(d, 0, body.mosaicId) && ByteAt(d, 8, body.direction) && LongAt(d, 9, body.delta)
  }

  ghost predicate TransferBodyAt(d: bytes, body: Body)
    requires body.Transfer?
  {
    var w := ShortWidth((|body.payload| + 1) % 65536);
    && |d| == 27 + w + |body.payload| + 16 * |body.mosaics|
    && BytesAt(d, 0, body.recipient) && ShortAt(d, 25, (|body.payload| + 1) % 65536)
    && ByteAt(d, 25 + w, |body.mosaics| % 256)
    && ByteAt(d, 26 + w, body.messageType) && BytesAt(d, 27 + w, body.payload)
    && MosaicsAt(d, 27 + w + |body.payload|, body.mosaics)
  }

  ghost predicate MultisigBodyAt(d: bytes, body: Body)
    requires body.ModifyMultisig?
  {
    && |d| == 3 + 33 * |body.cosignatories|
    && ByteAt(d, 0, body.minRemovalDelta) && ByteAt(d, 1, body.minApprovalDelta) && ByteAt(d, 2, |body.cosignatories| % 256)
    && ChangesAt(d, 3, body.cosignatories, 32)
  }

  ghost predicate ContractBodyAt(d: bytes, body: Body)
    requires body.ModifyContract?
  {
    && |d| == 43 + 33 * |body.customers| + 33 * |body.executors| + 33 * |body.verifiers|
    && LongAt(d, 0, body.durationDelta) && BytesAt(d, 8, body.hash)
    && ByteAt(d, 40, |body.customers| % 256) && ByteAt(d, 41, |body.executors| % 256)
    && ByteAt(d, 42, |body.verifiers| % 256)
    && ChangesAt(d, 43, body.customers, 32)
    && ChangesAt(d, 43 + 33 * |body.customers|, body.executors, 32)
    && ChangesAt(d, 43 + 33 * |body.customers| + 33 * |body.executors|, body.verifiers, 32)
  }

  ghost predicate RegisterNamespaceBodyAt(d: bytes, body: Body)
    requires body.RegisterNamespace?
  {
    && |d| == 18 + |body.name|
    && ByteAt(d, 0, body.namespaceType)
    && (if body.namespaceType == 0 then LongAt(d, 1, body.duration) else WordAt(d, 1, body.parentId))
    && WordAt(d, 9, body.namespaceId) && ByteAt(d, 17, |body.name| % 256) && BytesAt(d, 18, body.name)
  }

  ghost predicate FundsLockBodyAt(d: bytes, body: Body)
    requires body.LockFunds?
  {
    && |d| == 56
    && WordAt(d, 0, body.mosaic.id) && LongAt(d, 8, body.mosaic.amount) && LongAt(d, 16, body.lockDuration)
    && BytesAt(d, 24, body.hash)
  }

  ghost predicate SecretLockBodyAt(d: bytes, body: Body)
    requires body.SecretLock?
  {
    && |d| == 82
    && WordAt(d, 0, body.mosaic.id) && LongAt(d, 8, body.mosaic.amount) && LongAt(d, 16, body.lockDuration)
    && ByteAt(d, 24, body.hashType) && BytesAt(d, 25, body.secret) && BytesAt(d, 57, body.recipient)
  }

  ghost predicate ProofBodyAt(d: bytes, body: Body)
    requires body.SecretProof?
  {
    var w := ShortWidth(|body.proof| % 65536);
    && |d| == 58 + w + |body.proof|
    && ByteAt(d, 0, body.hashType) && BytesAt(d, 1, body.secret) && BytesAt(d, 33, body.recipient)
    && ShortAt(d, 58, |body.proof| % 65536) && BytesAt(d, 58 + w, body.proof)
  }

  /** `d` is the body of a transaction with these fields, and nothing more. */
  ghost predicate BodyReads(body: Body, d: bytes)
    decreases body, 0
  {
    match body
    case AccountPropertiesAddress(_, _) => AccountAddressesBodyAt(d, body)
    case AccountPropertiesMosaic(_, _) => AccountMosaicsBodyAt(d, body)
    case AccountPropertiesEntityType(_, _) => AccountEntityTypesBodyAt(d, body)
    case AddressAlias(_, _, _) => AddressAliasBodyAt(d, body)
    case MosaicAlias(_, _, _) => MosaicAliasBodyAt(d, body)
    case AccountLink(_, _) => AccountLinkBodyAt(d, body)
    case NetworkConfig(_, _, _) => NetworkConfigBodyAt(d, body)
    case BlockchainUpgrade(_, _) => UpgradeBodyAt(d, body)
    case Aggregate(inner) => exists pieces: seq<bytes> :: PiecesRead(inner, pieces, d)
    case ModifyMetadata(_, _, _) => MetadataBodyAt(d, body)
    case MosaicDefinition(_, _, _, _, _, _) => MosaicBodyAt(d, body)
    case MosaicSupplyChange(_, _, _) => SupplyChangeBodyAt(d, body)
    case Transfer(_, _, _, _) => TransferBodyAt(d, body)
    case ModifyMultisig(_, _, _) => MultisigBodyAt(d, body)
    case ModifyContract(_, _, _, _, _) => ContractBodyAt(d, body)
    case RegisterNamespace(_, _, _, _, _) => RegisterNamespaceBodyAt(d, body)
    case LockFunds(_, _, _) => FundsLockBodyAt(d, body)
    case SecretLock(_, _, _, _, _) => SecretLockBodyAt(d, body)
    case SecretProof(_, _, _, _) => ProofBodyAt(d, body)
  }

  /** The size of what follows, and then the inner transactions one after the other, each
      found by following the sizes. */
  ghost predicate PiecesRead(inner: seq<Transaction>, pieces: seq<bytes>, d: bytes)
    decreases inner, 1
  {
    var size := |Concat(pieces)| % TWO32;
    && |pieces| == |inner|
    && IntAt(d, 0, size) && d[IntWidth(size)..] == Concat(pieces)
    && ((forall i :: 0 <= i < |pieces| ==> |pieces[i]| < TWO32) ==> Split(Concat(pieces)) == Some(pieces))
    && forall i :: 0 <= i < |inner| ==> PieceReads(inner[i], pieces[i])
  }

  /** An inner transaction: its length, its signer and, if no header scalar is zero, its
      network type, version, type and body.  Otherwise its body has lost as many bytes as
      the zero scalars have. */
  ghost predicate PieceReads(tx: Transaction, e: bytes)
    decreases tx, 1
  {
    && 42 <= |e| && FromLE32(e[..4]) == |e| % TWO32
    && tx.header.signer.Some? && e[4..36] == tx.header.signer.value
    && (HeaderPresent(tx) ==>
          FromLE32(e[36..40]) == NetworkAndVersion(tx.header) && FromLE16(e[40..42]) == tx.header.entityType)
    && exists d: bytes ::
         HeaderGaps(tx) <= |d| && e[42..] == d[HeaderGaps(tx)..] && BodyReads(tx.body, d)
  }

  /** The declared size, 96 zero bytes for signature and signer, the network type and
      version, the type, the fee and the deadline. */
  ghost predicate HeaderReads(tx: Transaction, b: bytes, bodyAt: nat) {
    var size := Size(tx) % TWO32;
    var version := NetworkAndVersion(tx.header);
    var zeros := IntWidth(size);
    var typeAt := zeros + 96 + IntWidth(version);
    var feeAt := typeAt + ShortWidth(tx.header.entityType);
    && bodyAt == feeAt + 16 <= |b|
    && IntAt(b, 0, size)
    && (forall k :: zeros <= k < zeros + 96 ==> b[k] == 0)
    && IntAt(b, zeros + 96, version) && ShortAt(b, typeAt, tx.header.entityType)
    && LongAt(b, feeAt, tx.header.maxFee) && LongAt(b, feeAt + 8, tx.header.deadline)
  }

  /** A whole emission: the header and then the body, which starts early by the bytes that
      zero scalars of the header lack. */
  ghost predicate EmissionReads(tx: Transaction, b: bytes) {
    var bodyAt := 122 - HeaderGaps(tx);
    HeaderReads(tx, b, bodyAt) && BodyReads(tx.body, b[bodyAt..])
  }
}
