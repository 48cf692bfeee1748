/** The schemas of the transaction kinds: seven common attributes, then those of the kind. */
module TransactionSchemas {
  import opened Schema

  const BYTE_SIZE := 1
  const SHORT_SIZE := 2
  const INT_SIZE := 4

  /** size, signature, signer, version, type, maxFee, deadline */
  const COMMON: seq<Attribute> :=
    [Scalar(INT_SIZE), Array(BYTE_SIZE), Array(BYTE_SIZE), Scalar(INT_SIZE), Scalar(SHORT_SIZE), Array(INT_SIZE), Array(INT_SIZE)]

  /** A change list entry: its type and its value. */
  const CHANGE: seq<Attribute> := [Scalar(BYTE_SIZE), Array(BYTE_SIZE)]

  const ACCOUNT_LINK: seq<Attribute> := [Array(BYTE_SIZE), Scalar(BYTE_SIZE)]

  const ACCOUNT_PROPERTY: seq<Attribute> := [Scalar(BYTE_SIZE), Scalar(BYTE_SIZE), TableArray(CHANGE)]

  const ALIAS: seq<Attribute> := [Scalar(BYTE_SIZE), Array(INT_SIZE), Array(BYTE_SIZE)]

  const AGGREGATE: seq<Attribute> := [Scalar(INT_SIZE), Array(BYTE_SIZE)]

  const NETWORK_CONFIG: seq<Attribute> :=
    [Array(INT_SIZE), Scalar(SHORT_SIZE), Scalar(SHORT_SIZE), Array(BYTE_SIZE), Array(BYTE_SIZE)]

  const BLOCKCHAIN_UPGRADE: seq<Attribute> := [Array(INT_SIZE), Array(INT_SIZE)]

  const METADATA_CHANGE: seq<Attribute> :=
    [Scalar(INT_SIZE), Scalar(BYTE_SIZE), Scalar(BYTE_SIZE), Array(BYTE_SIZE), Array(BYTE_SIZE), Array(BYTE_SIZE)]

  const MODIFY_METADATA: seq<Attribute> := [Scalar(BYTE_SIZE), Array(BYTE_SIZE), TableArray(METADATA_CHANGE)]

  const MOSAIC_PROPERTY: seq<Attribute> := [Scalar(BYTE_SIZE), Array(INT_SIZE)]

  const MOSAIC_DEFINITION: seq<Attribute> :=
    [Scalar(INT_SIZE), Array(INT_SIZE), Scalar(BYTE_SIZE), Scalar(BYTE_SIZE), Scalar(BYTE_SIZE), TableArray(MOSAIC_PROPERTY)]

  const MOSAIC_SUPPLY_CHANGE: seq<Attribute> := [Array(INT_SIZE), Scalar(BYTE_SIZE), Array(INT_SIZE)]

  const MESSAGE: seq<Attribute> := [Scalar(BYTE_SIZE), Array(BYTE_SIZE)]

  const MOSAIC: seq<Attribute> := [Array(INT_SIZE), Array(INT_SIZE)]

  const TRANSFER: seq<Attribute> :=
    [Array(BYTE_SIZE), Scalar(SHORT_SIZE), Scalar(BYTE_SIZE), Table(MESSAGE), TableArray(MOSAIC)]

  const MODIFY_MULTISIG: seq<Attribute> :=
    [Scalar(BYTE_SIZE), Scalar(BYTE_SIZE), Scalar(BYTE_SIZE), TableArray(CHANGE)]

  const MODIFY_CONTRACT: seq<Attribute> :=
    [Array(INT_SIZE), Array(BYTE_SIZE), Scalar(BYTE_SIZE), Scalar(BYTE_SIZE), Scalar(BYTE_SIZE),
     TableArray(CHANGE), TableArray(CHANGE), TableArray(CHANGE)]

  const REGISTER_NAMESPACE: seq<Attribute> :=
    [Scalar(BYTE_SIZE), Array(INT_SIZE), Array(INT_SIZE), Scalar(BYTE_SIZE), Array(BYTE_SIZE)]

  const LOCK_FUNDS: seq<Attribute> := [Array(INT_SIZE), Array(INT_SIZE), Array(INT_SIZE), Array(BYTE_SIZE)]

  const SECRET_LOCK: seq<Attribute> :=
    [Array(INT_SIZE), Array(INT_SIZE), Array(INT_SIZE), Scalar(BYTE_SIZE), Array(BYTE_SIZE), Array(BYTE_SIZE)]

  const SECRET_PROOF: seq<Attribute> :=
    [Scalar(BYTE_SIZE), Array(BYTE_SIZE), Array(BYTE_SIZE), Scalar(SHORT_SIZE), Array(BYTE_SIZE)]
}
