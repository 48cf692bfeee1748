/** Signing and hashing of emitted transactions, on byte buffers.  The signature scheme
    and the hash are functions about which only the result lengths are known. */
module Signing {
  import opened Words
  import opened Wrappers
  import opened Transactions
  import opened Emission
  import opened InnerEncodings

  const HALF_OF_SIGNATURE := SIGNATURE_SIZE / 2

  type Signature = s: bytes | |s| == SIGNATURE_SIZE witness Zeros(SIGNATURE_SIZE)
  type Key = s: bytes | |s| == KEY_SIZE witness Zeros(KEY_SIZE)
  type Hash = s: bytes | |s| == HASH256 witness Zeros(HASH256)

  datatype Account = Account(publicKey: Key, sign: bytes -> Signature, generationHash: Option<Hash>)

  datatype Signed = Signed(payload: bytes, hash: Hash)

  function GenerationBytes(generationHash: Option<Hash>): bytes {
    if generationHash.None? then [] else generationHash.value
  }

  // ---------------------------------------------------------------------------
  // The transaction hash
  // ---------------------------------------------------------------------------

  /** What is hashed: half of the signature, the signer, the generation hash and everything
      after the signer. */
  function Preimage(b: bytes, generationHash: Option<Hash>): bytes
    requires |b| >= 100
  {
    b[SIZE_SIZE..SIZE_SIZE + HALF_OF_SIGNATURE]
    + b[SIZE_SIZE + SIGNATURE_SIZE..SIZE_SIZE + SIGNATURE_SIZE + SIGNER_SIZE]
    + GenerationBytes(generationHash)
    + b[SIZE_SIZE + SIGNATURE_SIZE + SIGNER_SIZE..]
  }

  /** The four copies tile the preimage: nothing is left zero and nothing is overwritten. */
  method FillPreimage(b: bytes, generationHash: Option<Hash>) returns (sb: array<byte>)
    requires |b| >= 100
    ensures fresh(sb) && sb[..] == Preimage(b, generationHash)
  {
    var generation := GenerationBytes(generationHash);
    sb := new byte[|b| - SIZE_SIZE - HALF_OF_SIGNATURE + |generation|](_ => 0);
    var half := b[SIZE_SIZE..SIZE_SIZE + HALF_OF_SIGNATURE];
    var signer := b[SIZE_SIZE + SIGNATURE_SIZE..SIZE_SIZE + SIGNATURE_SIZE + SIGNER_SIZE];
    var rest := b[SIZE_SIZE + SIGNATURE_SIZE + SIGNER_SIZE..];
    assert Preimage(b, generationHash) == half + signer + generation + rest;
    assert generationHash.None? ==> generation == [];
    hide Preimage, GenerationBytes;
    ghost var left := sb[..];
    assert sb[..] == [] + left;
    CopyNext(sb, 0, HALF_OF_SIGNATURE, half, [], left);
    left := left[|half|..];
    assert [] + half == half;
    CopyNext(sb, HALF_OF_SIGNATURE, HALF_OF_SIGNATURE + SIGNER_SIZE, signer, half, left);
    left := left[|signer|..];
    if generationHash.Some? {
      CopyNext(sb, HALF_OF_SIGNATURE + SIGNER_SIZE, sb.Length, generation, half + signer, left);
      left := left[|generation|..];
    } else {
      assert half + signer + generation == half + signer;
    }
    CopyNext(sb, HALF_OF_SIGNATURE + SIGNER_SIZE + |generation|, sb.Length, rest, half + signer + generation, left);
    left := left[|rest|..];
    assert sb[..] == half + signer + generation + rest + left && |left| == 0;
  }

  function TransactionHash(b: bytes, generationHash: Option<Hash>, sha3: bytes -> Hash): Hash
    requires |b| >= 100
  {
    sha3(Preimage(b, generationHash))
  }

  method CreateTransactionHash(b: bytes, generationHash: Option<Hash>, sha3: bytes -> Hash) returns (h: Hash)
    requires |b| >= 100
    ensures h == TransactionHash(b, generationHash, sha3)
    ensures Digests(h, b, generationHash, sha3)
  {
    HashCovers(b, generationHash, sha3);
    var sb := FillPreimage(b, generationHash);
    h := sha3(sb[..]);
  }

  /** The digest of half the signature, the signer, the generation hash if there is one, and
      everything after the signer. */
  ghost predicate Digests(h: Hash, b: bytes, generationHash: Option<Hash>, sha3: bytes -> Hash)
    requires |b| >= 100
  {
    match generationHash
    case Some(g) => h == sha3(b[4..36] + b[68..100] + g + b[100..])
    case None => h == sha3(b[4..36] + b[68..100] + b[100..])
  }

  lemma HashCovers(b: bytes, generationHash: Option<Hash>, sha3: bytes -> Hash)
    requires |b| >= 100
    ensures Digests(TransactionHash(b, generationHash, sha3), b, generationHash, sha3)
  {
    if generationHash.None? { assert b[4..36] + b[68..100] + [] == b[4..36] + b[68..100]; }
  }

  /** Different generation hashes, or one and none, give different preimages of a payload. */
  lemma GenerationHashSeparates(b: bytes, g: Option<Hash>, g': Option<Hash>)
    requires |b| >= 100
    ensures Preimage(b, g) == Preimage(b, g') <==> g == g'
  {
    GenerationInPlace(b, g);
    GenerationInPlace(b, g');
  }

  lemma GenerationInPlace(b: bytes, generationHash: Option<Hash>)
    requires |b| >= 100
    ensures var p := Preimage(b, generationHash);
            match generationHash
            case Some(g) => |p| == |b| - 4 && p[64..96] == g
            case None => |p| == |b| - 36
  {
  }

  /** Two payloads have the same preimage exactly when they agree everywhere outside the
      size prefix and the second half of the signature. */
  lemma PreimageDetermines(b: bytes, c: bytes, generationHash: Option<Hash>)
    requires |b| >= 100 && |c| >= 100
    ensures Preimage(b, generationHash) == Preimage(c, generationHash)
            <==> b[4..36] == c[4..36] && b[68..] == c[68..]
  {
    var p, q, g := Preimage(b, generationHash), Preimage(c, generationHash), GenerationBytes(generationHash);
    PreimageParts(b, generationHash);
    PreimageParts(c, generationHash);
    assert b[68..] == b[68..100] + b[100..] && c[68..] == c[68..100] + c[100..];
    if b[68..] == c[68..] {
      assert b[68..][..32] == b[68..100] && c[68..][..32] == c[68..100];
      assert b[68..][32..] == b[100..] && c[68..][32..] == c[100..];
    }
  }

  lemma PreimageParts(b: bytes, generationHash: Option<Hash>)
    requires |b| >= 100
    ensures var p, g := Preimage(b, generationHash), |GenerationBytes(generationHash)|;
            |p| >= 64 + g && p[..32] == b[4..36] && p[32..64] == b[68..100] && p[64 + g..] == b[100..]
  {
  }

  // ---------------------------------------------------------------------------
  // One signature
  // ---------------------------------------------------------------------------

  /** What is signed: the generation hash and everything after the signer. */
  function SignedData(b: bytes, generationHash: Option<Hash>): bytes
    requires |b| >= 100
  {
    GenerationBytes(generationHash) + b[100..]
  }

  function SignedPayload(b: bytes, a: Account): bytes
    requires |b| >= 100
  {
    b[..4] + a.sign(SignedData(b, a.generationHash)) + a.publicKey + b[100..]
  }

  /** `payload` is `b` with the account's signature of the generation hash, if there is one,
      and everything after the signer, and with the account's key. */
  ghost predicate Signs(a: Account, b: bytes, payload: bytes)
    requires |b| >= 100
  {
    && |payload| == |b| && payload[..4] == b[..4] && payload[68..100] == a.publicKey && payload[100..] == b[100..]
    && match a.generationHash
       case Some(g) => payload[4..68] == a.sign(g + b[100..])
       case None => payload[4..68] == a.sign(b[100..])
  }

  lemma SignedPayloadSigns(b: bytes, a: Account)
    requires |b| >= 100
    ensures Signs(a, b, SignedPayload(b, a))
  {
    SigningKeepsTheRest(b, a);
    if a.generationHash.None? { assert [] + b[100..] == b[100..]; }
  }

  /** The four copies tile the payload. */
  method FillPayload(b: bytes, signature: Signature, key: Key) returns (p: array<byte>)
    requires |b| >= 100
    ensures fresh(p) && p[..] == b[..4] + signature + key + b[100..]
  {
    p := new byte[|b|](_ => 0);
    var size, rest := b[..SIZE_SIZE], b[SIZE_SIZE + SIGNATURE_SIZE + SIGNER_SIZE..];
    ghost var left := p[..];
    assert p[..] == [] + left;
    CopyNext(p, 0, SIZE_SIZE, size, [], left);
    left := left[|size|..];
    assert [] + size == size;
    CopyNext(p, SIZE_SIZE, SIZE_SIZE + SIGNATURE_SIZE, signature, size, left);
    left := left[|signature|..];
    CopyNext(p, SIZE_SIZE + SIGNATURE_SIZE, SIZE_SIZE + SIGNATURE_SIZE + SIGNER_SIZE, key, size + signature, left);
    left := left[|key|..];
    CopyNext(p, SIZE_SIZE + SIGNATURE_SIZE + SIGNER_SIZE, p.Length, rest, size + signature + key, left);
    left := left[|rest|..];
    assert p[..] == size + signature + key + rest + left && |left| == 0;
  }

  method SignBytes(b: bytes, a: Account, sha3: bytes -> Hash) returns (s: Signed)
    requires |b| >= 100
    ensures Signs(a, b, s.payload) && Digests(s.hash, s.payload, a.generationHash, sha3)
    ensures s.payload == SignedPayload(b, a)
    ensures s.hash == TransactionHash(s.payload, a.generationHash, sha3)
  {
    var sb := b[SIZE_SIZE + SIGNER_SIZE + SIGNATURE_SIZE..];
    if a.generationHash.Some? {
      sb := a.generationHash.value + sb;
    }
    assert sb == SignedData(b, a.generationHash);
    hide SignedData, Signs, Digests, TransactionHash;
    SignedPayloadSigns(b, a);
    var signature := a.sign(sb);
    var p := FillPayload(b, signature, a.publicKey);
    var payload := p[..];
    assert payload == SignedPayload(b, a);
    hide SignedPayload;
    var h := CreateTransactionHash(payload, a.generationHash, sha3);
    s := Signed(payload, h);
  }

  method SignTransactionWith(tx: Transaction, a: Account, sha3: bytes -> Hash) returns (r: Result<Signed, Error>)
    ensures r.Success? ==>
              && Bytes(tx).Success? && |Bytes(tx).value| >= 115
              && r.value.payload == SignedPayload(Bytes(tx).value, a)
              && r.value.hash == TransactionHash(r.value.payload, a.generationHash, sha3)
              && Signs(a, Bytes(tx).value, r.value.payload)
              && Digests(r.value.hash, r.value.payload, a.generationHash, sha3)
    ensures r.Failure? ==> Bytes(tx) == Failure(r.error) || (r.error == BufferTooLarge && Oversized(tx))
  {
    var b := GenerateBytes(tx);
    if b.Failure? { return Failure(b.error); }
    EmissionIsLong(tx);
    var s := SignBytes(b.value, a, sha3);
    r := Success(s);
  }

  /** The hash covers what was signed: its preimage is half of the signature, the signer's
      key and the signed data. */
  lemma HashCoversSignedData(b: bytes, a: Account)
    requires |b| >= 100
    ensures var signed := SignedData(b, a.generationHash);
            Preimage(SignedPayload(b, a), a.generationHash) == a.sign(signed)[..32] + a.publicKey + signed
  {
    var p, signature := SignedPayload(b, a), a.sign(SignedData(b, a.generationHash));
    assert p[4..36] == signature[..32];
    assert p[68..100] == a.publicKey;
    assert p[100..] == b[100..];
  }

  /** Signing writes only the signature and signer fields. */
  lemma SigningKeepsTheRest(b: bytes, a: Account)
    requires |b| >= 100
    ensures var p := SignedPayload(b, a);
            && |p| == |b| && p[..4] == b[..4] && p[100..] == b[100..]
            && p[4..68] == a.sign(SignedData(b, a.generationHash)) && p[68..100] == a.publicKey
  {
  }

  // ---------------------------------------------------------------------------
  // Cosignatures
  // ---------------------------------------------------------------------------

  /** A cosignatory's block: its key and its signature of the hash. */
  function Block(c: Account, hash: Hash): (r: bytes)
    ensures |r| == 96
  {
    c.publicKey + c.sign(hash)
  }

  function Blocks(cs: seq<Account>, hash: Hash): (r: bytes)
    ensures |r| == 96 * |cs|
  {
    if cs == [] then [] else Blocks(cs[..|cs| - 1], hash) + Block(cs[|cs| - 1], hash)
  }

  /** The base payload and the blocks in order, with the first four bytes rewritten to the
      new total length. */
  function CosignedPayload(base: bytes, cs: seq<Account>, hash: Hash): bytes
    requires |base| >= 4
  {
    LE32(ToUint32(|base| + 96 * |cs|)) + base[4..] + Blocks(cs, hash)
  }

  method AppendCosignatures(base: Signed, cs: seq<Account>) returns (r: Signed)
    requires |base.payload| >= 4
    ensures r == Signed(CosignedPayload(base.payload, cs, base.hash), base.hash)
    ensures Cosigns(cs, base.payload, base.hash, r.payload)
  {
    hide LE32, Blocks, Block;
    var p := AppendBlocks(base, cs);
    ghost var blocks := Blocks(cs, base.hash);
    var pb := new byte[|p|](k requires 0 <= k < |p| => p[k]);
    assert pb[..] == p;
    WriteSize(pb);
    assert p[4..] == base.payload[4..] + blocks;
    Associates(LE32(ToUint32(pb.Length)), base.payload[4..], blocks);
    r := Signed(pb[..], base.hash);
    CosignedPayloadCosigns(base.payload, cs, base.hash);
  }

  /** `payload` is `base` with its size rewritten and, for each cosignatory in order, the
      key and then the signature of the hash. */
  ghost predicate Cosigns(cs: seq<Account>, base: bytes, hash: Hash, payload: bytes)
    requires |base| >= 4
  {
    && |payload| == |base| + 96 * |cs|
    && (|payload| < TWO32 ==> FromLE32(payload[..4]) == |payload|)
    && payload[4..|base|] == base[4..]
    && forall i :: 0 <= i < |cs| ==> BlockHolds(cs[i], hash, payload, |base| + 96 * i)
  }

  ghost predicate BlockHolds(c: Account, hash: Hash, payload: bytes, at: nat) {
    at + 96 <= |payload| && payload[at..at + 32] == c.publicKey && payload[at + 32..at + 96] == c.sign(hash)
  }

  lemma CosignedPayloadCosigns(base: bytes, cs: seq<Account>, hash: Hash)
    requires |base| >= 4
    ensures Cosigns(cs, base, hash, CosignedPayload(base, cs, hash))
  {
    hide LE32, FromLE32;
    var p := CosignedPayload(base, cs, hash);
    assert p[..4] == LE32(ToUint32(|base| + 96 * |cs|));
    LE32RoundTrip(ToUint32(|base| + 96 * |cs|));
    assert p[|base|..] == Blocks(cs, hash);
    hide Blocks, Block, BlockHolds;
    forall i | 0 <= i < |cs| ensures BlockHolds(cs[i], hash, p, |base| + 96 * i) {
      BlockInPlace(cs, hash, p, |base|, i);
    }
  }

  lemma BlockInPlace(cs: seq<Account>, hash: Hash, p: bytes, from: nat, i: nat)
    requires i < |cs| && from <= |p| && p[from..] == Blocks(cs, hash)
    ensures BlockHolds(cs[i], hash, p, from + 96 * i)
  {
    hide Blocks;
    BlockAt(cs, hash, i);
    var block := Blocks(cs, hash)[96 * i..96 * i + 96];
    SliceOfSlice(p, from, |p|, 96 * i, 96 * i + 96);
    var at := from + 96 * i;
    assert p[at..at + 96] == block;
    SliceOfSlice(p, at, at + 96, 0, 32);
    SliceOfSlice(p, at, at + 96, 32, 96);
    assert block[0..32] == cs[i].publicKey && block[32..96] == cs[i].sign(hash);
  }

  method AppendBlocks(base: Signed, cs: seq<Account>) returns (p: bytes)
    ensures p == base.payload + Blocks(cs, base.hash)
  {
    p := base.payload;
    var i := 0;
    while i < |cs|
      invariant 0 <= i <= |cs|
      invariant p == base.payload + Blocks(cs[..i], base.hash)
    {
      var signature := cs[i].sign(base.hash);
      assert cs[..i + 1][..i] == cs[..i];
      Associates(base.payload, Blocks(cs[..i], base.hash), Block(cs[i], base.hash));
      p := p + (cs[i].publicKey + signature);
      i := i + 1;
    }
    assert cs[..i] == cs;
  }

  method SignTransactionWithCosignatures(tx: Transaction, a: Account, cs: seq<Account>, sha3: bytes -> Hash)
    returns (r: Result<Signed, Error>)
    requires tx.body.Aggregate?
    ensures r.Success? ==>
              && Bytes(tx).Success? && |Bytes(tx).value| >= 115
              && var base := SignedPayload(Bytes(tx).value, a);
              && r.value.hash == TransactionHash(base, a.generationHash, sha3)
              && r.value.payload == CosignedPayload(base, cs, r.value.hash)
              && Signs(a, Bytes(tx).value, base) && Digests(r.value.hash, base, a.generationHash, sha3)
              && Cosigns(cs, base, r.value.hash, r.value.payload)
    ensures r.Failure? ==> Bytes(tx) == Failure(r.error) || (r.error == BufferTooLarge && Oversized(tx))
  {
    var s := SignTransactionWith(tx, a, sha3);
    if s.Failure? { return Failure(s.error); }
    var cosigned := AppendCosignatures(s.value, cs);
    r := Success(cosigned);
    SignedPayloadSigns(Bytes(tx).value, a);
  }

  /** Cosigning changes nothing of the base payload but its size prefix, so that the rewritten
      base still hashes to the hash that was cosigned. */
  lemma CosigningKeepsTheBase(base: bytes, cs: seq<Account>, hash: Hash, generationHash: Option<Hash>, sha3: bytes -> Hash)
    requires |base| >= 100
    ensures var p := CosignedPayload(base, cs, hash);
            && Cosigns(cs, base, hash, p)
            && TransactionHash(p[..|base|], generationHash, sha3) == TransactionHash(base, generationHash, sha3)
  {
    hide LE32, FromLE32, Preimage;
    var p := CosignedPayload(base, cs, hash);
    CosignedPayloadCosigns(base, cs, hash);
    var rewritten := p[..|base|];
    assert rewritten[4..36] == base[4..36] && rewritten[68..] == base[68..];
    PreimageDetermines(rewritten, base, generationHash);
  }

  lemma {:induction false} BlockAt(cs: seq<Account>, hash: Hash, i: nat)
    requires i < |cs|
    ensures Blocks(cs, hash)[96 * i..96 * i + 96] == Block(cs[i], hash)
  {
    hide Block;
    var n := |cs| - 1;
    var before, all := Blocks(cs[..n], hash), Blocks(cs, hash);
    assert |before| == 96 * n && all == before + Block(cs[n], hash);
    if i < n {
      BlockAt(cs[..n], hash, i);
      assert cs[..n][i] == cs[i];
      assert all[0..96 * n] == before;
      SliceOfSlice(all, 0, 96 * n, 96 * i, 96 * i + 96);
    } else {
      assert all[96 * n..96 * n + 96] == Block(cs[n], hash);
    }
  }
}
