/** What an aggregate's payload says about the transactions inside it. */
module InnerEncodings {
  import opened Words
  import opened Wrappers
  import opened Schema
  import opened Transactions
  import opened SizeLaw
  import opened Timestamps

  /** The three header scalars are emitted in full. */
  predicate HeaderPresent(tx: Transaction) {
    ToUint32(Size(tx)) != 0 && VersionWord(tx.header) != 0 && tx.header.entityType != 0
  }

  lemma HeaderPresentMeansNoGaps(tx: Transaction)
    ensures HeaderPresent(tx) <==> HeaderGaps(tx) == 0
  {
  }

  /** The attributes after the common seven. */
  function BodyTree(tx: Transaction): Result<seq<Value>, Error> {
    match tx.body
    case Aggregate(inner) =>
      var payload :- Payload(inner);
      Success(AggregateTree(payload))
    case _ => if EmptyKey(tx.body) then Failure(EmptyMetadataKey) else Success(LeafTree(tx.body))
  }

  function BodyBytes(tx: Transaction): Result<bytes, Error> {
    var tree :- BodyTree(tx);
    Success(FlattenAll(tree))
  }

  lemma BytesSplit(tx: Transaction)
    requires Bytes(tx).Success?
    ensures BodyBytes(tx).Success?
    ensures Bytes(tx).value == FlattenAll(HeaderTree(tx)) + BodyBytes(tx).value
  {
    hide HeaderTree, LeafTree, AggregateTree, FlattenAll;
    FlattenAllAppend(HeaderTree(tx), BodyTree(tx).value);
  }

  function VersionAndType(h: Header): bytes { LE32(VersionWord(h)) + LE16(h.entityType) }

  /** A number as it is emitted: one byte when it is zero. */
  function EmittedInt(x: uint32): (r: bytes)
    ensures |r| == 4 - Gap(x, 4)
  {
    if x == 0 then [0] else LE32(x)
  }

  function EmittedShort(x: uint16): (r: bytes)
    ensures |r| == 2 - Gap(x, 2)
  {
    if x == 0 then [0] else LE16(x)
  }

  /** The header's bytes up to the version word. */
  function HeaderStart(tx: Transaction): (r: bytes)
    ensures |r| == 100 - Gap(ToUint32(Size(tx)), 4)
  {
    EmittedInt(ToUint32(Size(tx))) + Zeros(SIGNATURE_SIZE + SIGNER_SIZE)
  }

  /** The version word and the type. */
  function HeaderMiddle(h: Header): (r: bytes)
    ensures |r| == 6 - Gap(VersionWord(h), 4) - Gap(h.entityType, 2)
  {
    EmittedInt(VersionWord(h)) + EmittedShort(h.entityType)
  }

  /** The fee and the deadline. */
  function HeaderEnd(h: Header): (r: bytes)
    ensures |r| == 16
  {
    LE64(ToUint64(h.maxFee)) + LE64(ToUint64(h.deadline))
  }

  lemma HeaderEmitted(tx: Transaction)
    ensures FlattenAll(HeaderTree(tx)) == HeaderStart(tx) + HeaderMiddle(tx.header) + HeaderEnd(tx.header)
  {
    hide LE16, LE32, LE64, Size, FlattenAll, VersionWord;
    var vs := HeaderTree(tx);
    EmptyPrefix(vs);
    FlattenAllStep(vs, 0);
    FlattenAllStep(vs, 1);
    FlattenAllStep(vs, 2);
    assert Zeros(SIGNATURE_SIZE) + Zeros(SIGNER_SIZE) == Zeros(SIGNATURE_SIZE + SIGNER_SIZE);
    assert FlattenAll(vs[..3]) == HeaderStart(tx);
    hide HeaderStart, Zeros;
    FlattenAllStep(vs, 3);
    FlattenAllStep(vs, 4);
    assert FlattenAll(vs[..5]) == HeaderStart(tx) + HeaderMiddle(tx.header);
    hide HeaderMiddle;
    FlattenAllStep(vs, 5);
    FlattenAllStep(vs, 6);
    assert vs[..7] == vs;
  }

  /** An emission part by part. */
  lemma EmissionParts(tx: Transaction)
    requires Bytes(tx).Success?
    ensures BodyBytes(tx).Success?
    ensures Bytes(tx).value == HeaderStart(tx) + HeaderMiddle(tx.header) + HeaderEnd(tx.header) + BodyBytes(tx).value
    ensures |Bytes(tx).value| == TRANSACTION_HEADER_SIZE - HeaderGaps(tx) + |BodyBytes(tx).value|
    ensures HeaderGaps(tx) <= 7
  {
    hide LE16, LE32, LE64, Size, FlattenAll, VersionWord, HeaderTree, HeaderStart, HeaderMiddle, HeaderEnd;
    BytesSplit(tx);
    HeaderEmitted(tx);
  }

  /** An inner encoding carries its own length, the signer, and then the version, type and
      body of the transaction; the body is unchanged exactly when the header is emitted in
      full, because otherwise the stripped slices are out of step. */
  lemma InnerLayout(tx: Transaction)
    requires WellFormed(tx) && InnerBytes(tx).Success?
    ensures BodyBytes(tx).Success?
    ensures var e := InnerBytes(tx).value;
            && 42 <= |e|
            && e[..4] == LE32(ToUint32(|e|))
            && e[4..36] == tx.header.signer.value
            && (HeaderPresent(tx) ==> e[36..42] == VersionAndType(tx.header))
            && (HeaderPresent(tx) <==> e[42..] == BodyBytes(tx).value)
  {
    hide LE16, LE32, LE64, Size, FlattenAll, VersionWord, HeaderTree, HeaderPresent, HeaderGaps;
    BytesSplit(tx);
    HeaderLength(tx);
    HeaderPresentMeansNoGaps(tx);
    var b, e := Bytes(tx).value, InnerBytes(tx).value;
    StrippedParts(b, tx.header.signer.value);
    if HeaderPresent(tx) {
      EmissionParts(tx);
      PresentMiddle(tx);
      hide HeaderStart, HeaderMiddle, HeaderEnd, BodyBytes;
      Middle(HeaderStart(tx), HeaderMiddle(tx.header), HeaderEnd(tx.header) + BodyBytes(tx).value);
      Associates(HeaderStart(tx) + HeaderMiddle(tx.header), HeaderEnd(tx.header), BodyBytes(tx).value);
      assert b[122..] == BodyBytes(tx).value;
    }
  }

  /** Even with every header scalar zero an emission reaches past the version word. */
  lemma EmissionIsLong(tx: Transaction)
    requires Bytes(tx).Success?
    ensures |Bytes(tx).value| >= 115
  {
    hide Bytes, HeaderStart, HeaderMiddle, HeaderEnd, HeaderGaps, BodyBytes;
    EmissionParts(tx);
  }

  lemma PresentMiddle(tx: Transaction)
    requires HeaderPresent(tx)
    ensures HeaderMiddle(tx.header) == VersionAndType(tx.header) && |HeaderStart(tx)| == 100
  {
    hide Size, LE16, LE32;
  }

  lemma StrippedParts(b: bytes, signer: bytes)
    requires |b| >= TRANSACTION_HEADER_SIZE && |signer| == SIGNER_SIZE
    ensures var e := StripHeader(b, signer).value;
            && |e| == |b| - STRIPPED_SIZE
            && e[..4] == LE32(ToUint32(|e|)) && e[4..36] == signer && e[36..42] == b[100..106] && e[42..] == b[122..]
  {
    hide LE32;
    assert signer[..SIGNER_SIZE] == signer;
  }

  // ---------------------------------------------------------------------------
  // Splitting a payload by its size prefixes
  // ---------------------------------------------------------------------------

  /** Cuts a payload into pieces as long as their first four bytes say. */
  function Split(p: bytes): Option<seq<bytes>>
    decreases |p|
  {
    if p == [] then Some([])
    else if |p| < SIZE_SIZE then None
    else
      var n := FromLE32(p[..SIZE_SIZE]);
      if n < SIZE_SIZE || n > |p| then None
      else
        match Split(p[n..])
        case None => None
        case Some(rest) => Some([p[..n]] + rest)
  }

  predicate SelfDelimiting(e: bytes) {
    SIZE_SIZE <= |e| && FromLE32(e[..SIZE_SIZE]) == |e|
  }

  lemma {:induction false} SplitConcat(parts: seq<bytes>)
    requires forall i :: 0 <= i < |parts| ==> SelfDelimiting(parts[i])
    ensures Split(Concat(parts)) == Some(parts)
  {
    hide FromLE32;
    if parts != [] {
      assert SelfDelimiting(parts[0]);
      var p, rest := Concat(parts), Concat(parts[1..]);
      forall i | 0 <= i < |parts[1..]| ensures SelfDelimiting(parts[1..][i]) {
        assert parts[1..][i] == parts[i + 1];
      }
      SplitConcat(parts[1..]);
      assert p[..SIZE_SIZE] == parts[0][..SIZE_SIZE];
      assert p[|parts[0]|..] == rest && p[..|parts[0]|] == parts[0];
      assert parts == [parts[0]] + parts[1..];
    }
  }

  /** The encodings of the inner transactions, in order. */
  function Encodings(inner: seq<Transaction>): Result<seq<bytes>, Error> {
    if inner == [] then Success([])
    else
      var before :- Encodings(inner[..|inner| - 1]);
      var last :- InnerBytes(inner[|inner| - 1]);
      Success(before + [last])
  }

  lemma {:induction false} PayloadIsConcat(inner: seq<Transaction>)
    ensures Payload(inner).Success? <==> Encodings(inner).Success?
    ensures Payload(inner).Success? ==> Payload(inner).value == Concat(Encodings(inner).value)
  {
    hide InnerBytes;
    if inner != [] {
      PayloadIsConcat(inner[..|inner| - 1]);
      if Payload(inner).Success? {
        ConcatSnoc(Encodings(inner[..|inner| - 1]).value, InnerBytes(inner[|inner| - 1]).value);
      }
    }
  }

  lemma {:induction false} EncodingsAt(inner: seq<Transaction>, i: nat)
    requires Encodings(inner).Success? && i < |inner|
    ensures |Encodings(inner).value| == |inner|
    ensures InnerBytes(inner[i]) == Success(Encodings(inner).value[i])
  {
    hide InnerBytes;
    var n := |inner| - 1;
    EncodingsLength(inner[..n]);
    if i < n {
      EncodingsAt(inner[..n], i);
      assert inner[..n][i] == inner[i];
    }
  }

  lemma {:induction false} EncodingsLength(inner: seq<Transaction>)
    requires Encodings(inner).Success?
    ensures |Encodings(inner).value| == |inner|
  {
    hide InnerBytes;
    if inner != [] { EncodingsLength(inner[..|inner| - 1]); }
  }

  lemma SelfDelimited(tx: Transaction)
    requires WellFormed(tx) && InnerBytes(tx).Success? && |InnerBytes(tx).value| < TWO32
    ensures SelfDelimiting(InnerBytes(tx).value)
  {
    hide InnerBytes, LE32, FromLE32, HeaderPresent, VersionAndType, BodyBytes;
    InnerLayout(tx);
    LE32RoundTrip(ToUint32(|InnerBytes(tx).value|));
  }

  /** Following the size prefixes of an aggregate's payload gives back exactly the inner
      encodings, in order, whenever each is shorter than four gigabytes. */
  lemma PayloadSplits(inner: seq<Transaction>)
    requires forall i :: 0 <= i < |inner| ==> WellFormed(inner[i])
    requires Payload(inner).Success? && Encodings(inner).Success?
    requires forall i :: 0 <= i < |Encodings(inner).value| ==> |Encodings(inner).value[i]| < TWO32
    ensures Split(Payload(inner).value) == Some(Encodings(inner).value)
  {
    hide InnerBytes, Encodings, Payload, SelfDelimiting;
    PayloadIsConcat(inner);
    EncodingsLength(inner);
    forall i | 0 <= i < |Encodings(inner).value|
      ensures SelfDelimiting(Encodings(inner).value[i])
    {
      EncodingsAt(inner, i);
      SelfDelimited(inner[i]);
    }
    SplitConcat(Encodings(inner).value);
  }

  // ---------------------------------------------------------------------------
  // Reading the header back
  // ---------------------------------------------------------------------------

  function ExtractNetworkType(version: int64): byte { ToUint32(version) / TWO24 }
  function ExtractVersion(version: int64): uint32 { ToUint32(version) % TWO24 }

  /** The version word decodes to the network type and version it was made from exactly
      when the version fits the word's low 24 bits. */
  lemma VersionWordReadBack(h: Header)
    ensures ExtractVersion(VersionWord(h)) == h.version % TWO24
    ensures (ExtractNetworkType(VersionWord(h)) == h.networkType && ExtractVersion(VersionWord(h)) == h.version)
            <==> h.version < TWO24
  {
    var x := h.networkType * TWO24 + h.version;
    if x >= TWO32 { assert VersionWord(h) == x - TWO32; }
  }

  /** A pair of 32-bit words as the DTO holds it, low word first. */
  function Uint64ToArray(x: uint64): (uint32, uint32) { (x % TWO32, x / TWO32) }

  function BE32(x: uint32): (r: bytes)
    ensures |r| == 4
  {
    [x / 16777216, x / 65536 % 256, x / 256 % 256, x % 256]
  }

  function FromBE32(b: bytes): uint32
    requires |b| == 4
  {
    FromLE32([b[3], b[2], b[1], b[0]])
  }

  /** The DTO is assembled in a big-endian buffer, high word first. */
  function DtoToUint64(dto: (uint32, uint32)): uint64 {
    var b := BE32(dto.1) + BE32(dto.0);
    FromBE32(b[..4]) * TWO32 + FromBE32(b[4..])
  }

  lemma LowWordFirst()
    ensures Uint64ToArray(0x2_0000_0001) == (1, 2) && DtoToUint64((1, 2)) == 0x2_0000_0001
  {
  }

  lemma BE32RoundTrip(x: uint32)
    ensures FromBE32(BE32(x)) == x
  {
    hide FromLE32;
    LE32RoundTrip(x);
    assert LE32(x) == [BE32(x)[3], BE32(x)[2], BE32(x)[1], BE32(x)[0]];
  }

  lemma DtoRoundTrip(x: uint64)
    ensures DtoToUint64(Uint64ToArray(x)) == x
  {
    hide BE32, FromBE32;
    var dto := Uint64ToArray(x);
    assert (BE32(dto.1) + BE32(dto.0))[..4] == BE32(dto.1);
    assert (BE32(dto.1) + BE32(dto.0))[4..] == BE32(dto.0);
    BE32RoundTrip(dto.0);
    BE32RoundTrip(dto.1);
  }

  lemma SignedRoundTrip(x: int64)
    ensures ToInt64(ToUint64(x)) == x
  {
  }

  lemma LE64Words(x: uint64, b: bytes)
    requires b == LE64(x)
    ensures FromLE32(b[..4]) == Uint64ToArray(x).0 && FromLE32(b[4..8]) == Uint64ToArray(x).1
  {
    hide LE32, FromLE32;
    LE32RoundTrip(x % TWO32);
    LE32RoundTrip(x / TWO32);
    assert b[..4] == LE32(x % TWO32) && b[4..8] == LE32(x / TWO32);
  }

  /** Eight bytes read as two words through the DTO, unsigned and signed. */
  function ReadWord(b: bytes): uint64
    requires |b| == 8
  {
    DtoToUint64((FromLE32(b[..4]), FromLE32(b[4..8])))
  }

  function ReadLong(b: bytes): int64
    requires |b| == 8
  {
    ToInt64(ReadWord(b))
  }

  lemma ReadWordBack(x: uint64)
    ensures ReadWord(LE64(x)) == x
  {
    hide LE64, FromLE32, DtoToUint64, Uint64ToArray;
    LE64Words(x, LE64(x));
    assert Uint64ToArray(x) == (Uint64ToArray(x).0, Uint64ToArray(x).1);
    DtoRoundTrip(x);
  }

  lemma ReadLongBack(x: int64)
    ensures ReadLong(LE64(ToUint64(x))) == x
  {
    hide LE64, ReadWord, ToInt64, ToUint64;
    ReadWordBack(ToUint64(x));
    SignedRoundTrip(x);
  }

  /** Every emission holds the type, the fee and the deadline right before its body, which
      starts early by the bytes missing from the header; it starts where a receiver expects
      it exactly when none is missing. */
  lemma HeaderReadBack(tx: Transaction)
    requires Bytes(tx).Success?
    ensures BodyBytes(tx).Success?
    ensures var b, body := Bytes(tx).value, TRANSACTION_HEADER_SIZE - HeaderGaps(tx);
            && 115 <= body <= |b|
            && (tx.header.entityType != 0 ==> FromLE16(b[body - 18..body - 16]) == tx.header.entityType)
            && ReadLong(b[body - 16..body - 8]) == tx.header.maxFee
            && ReadLong(b[body - 8..body]) == tx.header.deadline
            && b[body..] == BodyBytes(tx).value
            && (HeaderPresent(tx) <==>
                  |b| >= TRANSACTION_HEADER_SIZE && b[TRANSACTION_HEADER_SIZE..] == BodyBytes(tx).value)
  {
    EmissionParts(tx);
    HeaderPresentMeansNoGaps(tx);
    ReadLongBack(tx.header.maxFee);
    ReadLongBack(tx.header.deadline);
    var b, body := Bytes(tx).value, TRANSACTION_HEADER_SIZE - HeaderGaps(tx);
    var start, middle, end, rest := HeaderStart(tx), HeaderMiddle(tx.header), HeaderEnd(tx.header), BodyBytes(tx).value;
    MiddleEndsWithType(tx.header);
    EndHalves(tx.header);
    assert |start + middle| == body - 16;
    hide LE16, LE32, FromLE16, FromLE32, LE64, Size, VersionWord, HeaderTree, HeaderPresent, ReadLong, ToUint64, HeaderStart,
         HeaderMiddle, HeaderEnd, HeaderGaps, Bytes, BodyBytes;
    Positions(start, middle, end, rest);
  }

  lemma MiddleEndsWithType(h: Header)
    ensures var m := HeaderMiddle(h);
            h.entityType != 0 ==> FromLE16(m[|m| - 2..]) == h.entityType
  {
    hide LE16, LE32, FromLE16, VersionWord;
    if h.entityType != 0 {
      LE16RoundTrip(h.entityType);
      var m := HeaderMiddle(h);
      assert m[|m| - 2..] == LE16(h.entityType);
    }
  }

  lemma EndHalves(h: Header)
    ensures HeaderEnd(h)[..8] == LE64(ToUint64(h.maxFee)) && HeaderEnd(h)[8..] == LE64(ToUint64(h.deadline))
  {
    hide LE64, ToUint64;
  }

  lemma Positions(start: bytes, middle: bytes, end: bytes, rest: bytes)
    requires |end| == 16 && |middle| >= 2
    ensures var b, at := start + middle + end + rest, |start| + |middle|;
            && b[at - 2..at] == middle[|middle| - 2..]
            && b[at..at + 8] == end[..8] && b[at + 8..at + 16] == end[8..]
            && b[at + 16..] == rest
  {
  }

  /** The four bytes where a receiver expects the version word. */
  function WordRead(h: Header): uint32 { FromLE32((HeaderMiddle(h) + HeaderEnd(h))[..4]) }

  lemma WordInPlace(tx: Transaction)
    requires Bytes(tx).Success? && ToUint32(Size(tx)) != 0
    ensures |Bytes(tx).value| >= 115 && FromLE32(Bytes(tx).value[100..104]) == WordRead(tx.header)
  {
    hide LE16, LE32, LE64, FromLE32, Size, VersionWord, HeaderMiddle, HeaderEnd, BodyBytes, Bytes;
    EmissionParts(tx);
    Associates(HeaderStart(tx), HeaderMiddle(tx.header), HeaderEnd(tx.header));
    assert Bytes(tx).value[100..104] == (HeaderMiddle(tx.header) + HeaderEnd(tx.header))[..4];
  }

  lemma FullWordRead(h: Header)
    requires VersionWord(h) != 0
    ensures WordRead(h) == VersionWord(h)
  {
    hide LE32, LE16, LE64, FromLE32, VersionWord;
    assert (HeaderMiddle(h) + HeaderEnd(h))[..4] == LE32(VersionWord(h));
    LE32RoundTrip(VersionWord(h));
  }

  /** A zero version word comes from the pair 0, 0 or from a version of more than 24 bits. */
  lemma ZeroWordPair(h: Header)
    requires VersionWord(h) == 0
    ensures h.version < TWO24 ==> h.networkType == 0 && h.version == 0
  {
  }

  /** With a zero version word and some type, the type is read as part of the version. */
  lemma TypeInPlace(h: Header)
    requires VersionWord(h) == 0 && h.entityType != 0
    ensures ExtractVersion(WordRead(h)) == 256 * h.entityType
  {
    hide LE64;
    var w := (HeaderMiddle(h) + HeaderEnd(h))[..4];
    assert w[0] == 0 && w[1] == LE16(h.entityType)[0] && w[2] == LE16(h.entityType)[1];
    LE16RoundTrip(h.entityType);
    assert FromLE32(w) == 256 * h.entityType + 16777216 * (w[3] as int);
  }

  /** With a zero version word and a zero type, the fee is read in their place. */
  lemma FeeInPlace(h: Header)
    requires VersionWord(h) == 0 && h.entityType == 0
    ensures var fee := ToUint64(h.maxFee);
            ExtractVersion(WordRead(h)) == 65536 * (fee % 256) && ExtractNetworkType(WordRead(h)) == fee / 256 % 256
  {
    hide LE64, VersionWord;
    var fee := ToUint64(h.maxFee);
    var w := (HeaderMiddle(h) + HeaderEnd(h))[..4];
    assert w[0] == 0 && w[1] == 0 && w[2] == LE64(fee)[0] && w[3] == LE64(fee)[1];
    LowBytes(fee);
    hide HeaderMiddle, HeaderEnd, ToUint64;
    assert FromLE32(w) == 65536 * (fee % 256) + 16777216 * (fee / 256 % 256);
  }

  predicate PairReadBack(h: Header) {
    ExtractNetworkType(WordRead(h)) == h.networkType && ExtractVersion(WordRead(h)) == h.version
  }

  lemma FullWordReadBack(h: Header)
    requires VersionWord(h) != 0
    ensures PairReadBack(h) <==> h.version < TWO24
  {
    hide WordRead, VersionWord, ExtractVersion, ExtractNetworkType;
    FullWordRead(h);
    VersionWordReadBack(h);
  }

  lemma SmallVersion(word: uint32)
    ensures ExtractVersion(word) < TWO24
  {
  }

  lemma TypeReadBack(h: Header)
    requires VersionWord(h) == 0 && h.entityType != 0
    ensures !PairReadBack(h)
  {
    hide WordRead, VersionWord, ExtractVersion, ExtractNetworkType;
    SmallVersion(WordRead(h));
    ZeroWordPair(h);
    TypeInPlace(h);
  }

  lemma LowBytesZero(x: nat)
    ensures x % 65536 == 0 <==> x % 256 == 0 && x / 256 % 256 == 0
  {
    var low, middle, high := x % 256, x / 256 % 256, x / 256 / 256;
    Word(x, high, 256 * middle + low);
  }

  lemma Word(x: int, rest: int, low: int)
    requires 0 <= low < 65536 && x == 65536 * rest + low
    ensures x % 65536 == low
  {
  }

  lemma FeeReadBack(h: Header)
    requires VersionWord(h) == 0 && h.entityType == 0
    ensures PairReadBack(h) <==> h.version < TWO24 && ToUint64(h.maxFee) % 65536 == 0
  {
    hide WordRead, VersionWord, ExtractVersion, ExtractNetworkType, ToUint64;
    SmallVersion(WordRead(h));
    ZeroWordPair(h);
    FeeInPlace(h);
    LowBytesZero(ToUint64(h.maxFee));
  }

  lemma WordReadBack(h: Header)
    ensures PairReadBack(h)
            <==> h.version < TWO24 && (VersionWord(h) != 0 || (h.entityType == 0 && ToUint64(h.maxFee) % 65536 == 0))
  {
    hide PairReadBack, VersionWord, ToUint64;
    if VersionWord(h) != 0 {
      FullWordReadBack(h);
    } else if h.entityType != 0 {
      TypeReadBack(h);
    } else {
      FeeReadBack(h);
    }
  }

  /** Reading the version word at its fixed position gives back the network type and the
      version exactly when the version fits 24 bits and the word is not zero; a zero word is
      emitted as one byte, so that the type and the fee are read in its place. */
  lemma VersionReadBack(tx: Transaction)
    requires Bytes(tx).Success? && ToUint32(Size(tx)) != 0
    ensures |Bytes(tx).value| >= 115
    ensures var word, h := FromLE32(Bytes(tx).value[100..104]), tx.header;
            (ExtractNetworkType(word) == h.networkType && ExtractVersion(word) == h.version)
            <==> h.version < TWO24 && (VersionWord(h) != 0 || (h.entityType == 0 && ToUint64(h.maxFee) % 65536 == 0))
  {
    hide ExtractNetworkType, ExtractVersion, FromLE32, WordRead, VersionWord, ToUint64, Bytes, Size;
    WordInPlace(tx);
    WordReadBack(tx.header);
  }

  /** For instance network type 0 with version 0, whatever the type and the fee: the type is
      read as part of the version. */
  lemma ZeroVersionMisread(tx: Transaction)
    requires Bytes(tx).Success? && ToUint32(Size(tx)) != 0
    requires tx.header.networkType == 0 && tx.header.version == 0 && tx.header.entityType != 0
    ensures |Bytes(tx).value| >= 115
    ensures ExtractVersion(FromLE32(Bytes(tx).value[100..104])) == 256 * tx.header.entityType
  {
    assert VersionWord(tx.header) == 0;
    hide ExtractVersion, FromLE32, WordRead, VersionWord, Bytes, Size;
    WordInPlace(tx);
    TypeInPlace(tx.header);
  }

  /** A deadline set from the wall clock is read back, to the millisecond, from the eight
      bytes before the body of every emission. */
  lemma DeadlineReadBack(tx: Transaction, nanos: int64)
    requires Bytes(tx).Success? && tx.header.deadline == ToBlockchainTimestamp(nanos)
    ensures var b, body := Bytes(tx).value, TRANSACTION_HEADER_SIZE - HeaderGaps(tx);
            && 115 <= body <= |b|
            && ToTimestamp(ReadLong(b[body - 8..body])) == Quotient(nanos, NANOS_PER_MILLISECOND) * NANOS_PER_MILLISECOND
  {
    hide *;
    HeaderReadBack(tx);
    WallClockRoundTrip(nanos);
  }
}
