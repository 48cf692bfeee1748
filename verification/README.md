# Catapult SDK: serializer, signing, configuration and subscriptions

A Dafny model of the parts of the Catapult Go SDK whose correctness is not visible from any
single function body, with proofs about them. `dafny verify dfyconfig.toml` checks everything.

**Serializer** (`Words`, `Schema`, `Builder`, `TransactionSchemas`, `Transactions`, `Emission`).
A transaction is built as a FlatBuffer, and a hand-written reader then chases offsets through
vtables, vectors and nested tables in wrapping 32-bit arithmetic and emits a flat byte string.
`Schema` defines, in exact signed arithmetic and following the "Tables" and "Vectors" sections of
the FlatBuffers Internals document, when a buffer encodes a value tree, and proves that the reader
returns the depth-first concatenation of that tree for every schema. Two conditions are part of
the definition because the code relies on them: the root offset fits in one byte (the reader looks
at the first byte only, sdk/sdk_schema.go:22), and table slots are present. `Builder` shows that
such a buffer exists for every tree the program hands over: its vector builders are the program's
own descending loops, its table layout stands in for the library. `Transactions` holds the value
tree, the schema and the independently written size of all 21 kinds of transaction.

**Length law** (`SizeLaw`). Declared and emitted length differ by exactly the zero scalars wider
than one byte, since an absent scalar is emitted as one byte (sdk/sdk_schema.go:34-36). A comment
in the code knows of this for metadata values (sdk/transaction_model.go:3709-3710); for a mosaic
definition with nonce 0 the expected bytes at sdk/transaction_test.go:112 declare 0x92 bytes and
carry a nonce of one byte. The model follows the code. For the same reason an inner transaction
whose size, version word or type is zero has its body shifted when its header is stripped by fixed
positions; `InnerEncodings.InnerLayout` says exactly when.

**Reading back** (`ReadBacks`, `FieldReads`, `EmissionReadBacks`). `ReadBacks` spells out, for every
kind of transaction and without the value trees, which field stands at which byte of an emission;
the other two prove that every emission is read back that way, however deeply it is aggregated.

**Aggregates, signing and hashing** (`InnerEncodings`, `Signing`). The slice copies into
preallocated buffers are modelled on arrays. Hash and signature functions are arbitrary functions
with outputs of 32 and 64 bytes. A receiver that reads the version word at its fixed position
misreads network type 0 with version 0 (`ZeroVersionMisread`), since that word is emitted as one
byte; `VersionReadBack` and `HeaderReadBack` say exactly what reads back from where.

**Configuration text** (`ConfigText`, `NetworkConfigs`, `ConfigFiles`, `ConfigComments`,
`ConfigRoundTrip`, `ConfigReprint`, `ConfigLayouts`, `ConfigTheorems`, `ConfigRounds`,
`ConfigExamples`). The
line-based reader and the sort-based printer are compared with a third form, the document in file
order. Printing and reading again keeps sections, keys and values. Two promises hold only under a
condition, which is proved to be exact. Indices are kept, and the printed order is that of the
file, when no key is set twice in a section: a key set again takes the number of fields as its
index, which the next key takes too (`RepeatedKeyFile`). Comments lose the newline that follows
each text when more text comes after it, so that their lines grow: rounds of printing and reading
go on for ever when the print with all those newlines removed fits the reader's limit on the
length of a line, and otherwise some round cannot be read (`SecondRoundFails`). The limit is a
parameter.

**Websocket subscriptions** (`Subscribers`, `Overlaps`, `Subscriptions`, `WireNames`,
`WebsocketClients`). One delivery is
a transition system over arbitrarily interleaved goroutines. Around it, a second one follows the
client, its router and what the server holds for each uid through additions, deliveries, lost
connections and reconnects. Because removal keeps an emptied entry and a reconnect goes through all
entries, a reconnect subscribes to addresses that nobody listens to any more, and later messages
do not end such a subscription; block has no entries and is exact. `WireNames` restates the steps
with every channel name written out. The classes of
`WebsocketClients` perform the operations in place, each taking one step of that system. Assumed:

- an addition, the routing of one message and a reconnect are atomic with respect to each other
  (the client starts a goroutine per message, sdk/websocket/client.go:169); within one delivery
  nothing is assumed about scheduling, except that the stores' own locks make each store operation
  atomic and that iterating the live map visits each remaining handler once. For one address whose
  deliveries do overlap, `Overlaps` says exactly when a removal can fail;
- the function that opens a connection is supplied (`NewClient` leaves it unset,
  sdk/websocket/client.go:54-73), and every connection gets a uid the server has not used before;
- the server adds a path on a subscribe message and removes it on an unsubscribe message; a message
  that cannot be written is not received; a message written to a lost connection may be lost;
- callbacks do not themselves add handlers, and a panic ends the run.

**Namespaces and timestamps** (`Namespaces`, `Timestamps`). The mutually recursive hierarchy
builder over an acyclic parent relation, with its doubling number of requests; and the exact range
in which deadlines survive their conversions in wrapping 64-bit arithmetic.

## Model

| member | source | states |
|---|---|---|
| Schema.Serialize | sdk/sdk_schema.go:19-26 | for every nested schema and every buffer that encodes a value tree under it, the offset-chasing reader stays inside the buffer and returns exactly the depth-first, slot-order concatenation of the fields |
| Schema.SerializeFields | sdk/sdk_schema.go:156-165 | the same for a nested table, wherever in the buffer it sits |
| Schema.SerializeAttribute | sdk/sdk_schema.go:107-122 | one slot of any kind is emitted as its value's bytes; an absent scalar as one zero byte |
| Schema.SerializeTableArray | sdk/sdk_schema.go:133-145 | an array of tables is emitted row after row, nothing when the slot is absent |
| Schema.SlotLookup | sdk/sdk_schema.go:78-84 | the wrapping 32-bit subtraction and the length test find the slot that signed arithmetic on the layout defines |
| Schema.VTableOnEitherSide | sdk/sdk_schema.go:78-80 | for a vtable before or after its table, the stored 32-bit distance leads back to it |
| Schema.SlotLookupAnywhere | sdk/sdk_schema.go:78-84 | tables whose vtables hold the same bytes give the same lookups wherever either vtable sits, so sharing one between rows never changes the output |
| Schema.ScalarReads | sdk/sdk_schema.go:32-38 | reading a scalar slot gives its bytes, or one zero byte when absent |
| Schema.ArrayReads | sdk/sdk_schema.go:40-49 | reading a vector slot gives its elements' bytes, with every intermediate read inside the buffer |
| Schema.TableArrayReads | sdk/sdk_schema.go:56-68 | the row count and the position of every row are those of the encoded array |
| Schema.SmallBufferEncodes | sdk/sdk_schema.go:19-49 | a 31-byte buffer written out in full, with a vtable, a vector and a scalar, encodes the tree one expects, and what is emitted of it is written out too |
| Words.LowBytesFirst | sdk/sdk_schema.go:70-76 | the lowest byte comes first in words of every width |
| Builder.EncodingShift | sdk/sdk_schema.go:147-165 | an encoded table stays encoded when the buffer grows at its front, whatever is put there |
| Builder.TableEncodes | transactions/transaction_buffer.go:11-34 | a table written from slots that hold its values encodes them, zero scalars being left out |
| Builder.VectorEncodes | transactions/transaction_buffer.go:35-48 | a length word followed by the elements encodes the vector |
| Builder.RowsEncode | transactions/transaction_buffer.go:49-55 | a vector of forward offsets to encoded rows encodes the array of tables |
| Builder.FlatBuilder.CreateByteVector | transactions/transaction_buffer.go:42-48 | the descending loop leaves the bytes in order behind their length word, in front of what was there |
| Builder.FlatBuilder.CreateUint32Vector | transactions/transaction_buffer.go:35-41 | the same for 32-bit words |
| Builder.FlatBuilder.CreateUOffsetVector | transactions/transaction_buffer.go:49-55 | the same for offsets, each made relative to the place it is stored at |
| Builder.FlatBuilder.Finish | sdk/transaction_model.go:1327-1333 | the finished buffer encodes the tree that was added, its root offset fits the one byte that the reader looks at, and its length is that of its parts |
| Builder.BuildAndSerialize | sdk/transaction_model.go:1309-1336 | building a tree and reading it back gives the tree's flat form, for every schema and every tree that fits it, and fails exactly when the finished buffer would pass 2 GB |
| Emission.GenerateBytes | sdk/transaction_model.go:1309-1336 | every kind of transaction is emitted as the flat form of its tree, in which every field reads back at its byte offset; a failure reports the first inner transaction without a signer or too short to be stripped, an empty metadata key, or a buffer past 2 GB, and nothing else fails |
| EmissionReadBacks.EmissionReadBack | sdk/transaction_schema.go:7-344 | from every emission, at explicit byte offsets: the declared size, 96 zero bytes, network type and version, the type, fee and deadline, and then every field of the body of its kind, through nested aggregates |
| EmissionReadBacks.BodyRead | sdk/transaction_schema.go:7-344 | every kind's body reads back field by field; the body of an aggregate is a size word and the inner encodings that following their sizes cuts |
| EmissionReadBacks.PieceRead | sdk/transaction_model.go:3583-3596 | every inner encoding reads back: its length, the signer, network type and version, the type and the fields of its own body |
| EmissionReadBacks.MultisigReads | sdk/transaction_model.go:2206-2230 | the removal delta, the approval delta, the number of changes, and change i as kind and key at byte 3 + 33 i |
| EmissionReadBacks.ContractReads | sdk/transaction_schema.go:233-268 | the duration delta, the hash, three counts and then customers, executors and verifiers, each in order |
| EmissionReadBacks.TransferReads | sdk/transaction_schema.go:181-208 | the recipient, the message size, the number of mosaics, the message type and payload, and mosaic i as id and amount, 16 bytes apart |
| EmissionReadBacks.MosaicReads | sdk/transaction_schema.go:139-162 | the nonce (one byte when zero), the id, the number of properties, the two flag bits, the divisibility and the properties in order |
| EmissionReadBacks.MetadataReads | sdk/transaction_schema.go:113-137 | the type, the address or id, and the modifications one after the other by their own size words |
| EmissionReadBacks.RegisterNamespaceReads | sdk/transaction_schema.go:270-287 | the type, the duration of a root or the parent of a child, the id, the name's size and the name |
| EmissionReadBacks.SecretLockReads | sdk/transaction_schema.go:307-325 | mosaic id and amount, duration, hash type, secret and recipient at their offsets |
| Emission.SizeOf | sdk/transaction_model.go:1338-1344 | the accumulating loops of the sizes compute the declared size, through nested aggregates |
| Emission.MetadataSizeOf | sdk/transaction_model.go:1446-1454 | the loop over metadata modifications adds up their sizes |
| SizeLaw.LengthLaw | sdk/transaction_model.go:2100-2107 | for every kind of transaction, nested aggregates included, the emitted length is the declared size less (width - 1) for each zero scalar wider than a byte |
| SizeLaw.LeafLength | sdk/transaction_schema.go:7-344 | the law for every kind without inner transactions: the schema's field widths add up to the independently written size |
| SizeLaw.PayloadLength | sdk/transaction_model.go:1312-1319 | the length of an aggregate's payload is the sum of the stripped sizes of its inner transactions, less their missing bytes |
| SizeLaw.InnerLength | sdk/transaction_model.go:3583-3589 | stripping the header removes exactly signature, fee and deadline |
| SizeLaw.NoGaps | sdk/sdk_schema.go:34-36 | no byte is missing exactly when no multi-byte scalar is zero, at any depth |
| SizeLaw.DeclaredSizeExact | sdk/transaction_model.go:1819-1821 | the emitted length never exceeds the declared size, and equals it if and only if no multi-byte scalar is zero |
| SizeLaw.AggregateSizesExact | sdk/transaction_model.go:1338-1344 | over nested aggregates without zero scalars the declared size is exact and so is the transactions' size |
| SizeLaw.EmitsExactly | sdk/transaction_model.go:3570-3583 | emission succeeds if and only if inner transactions are signed and long enough and no metadata key is empty |
| SizeLaw.FailsExactly | sdk/transaction_model.go:3570-3583 | a failing emission reports what is wrong with the first inner transaction that cannot be encoded: no signer, else its own failure, else too short; outside aggregates only an empty metadata key fails |
| SizeLaw.PayloadEmits | sdk/transaction_model.go:1312-1319 | a payload is produced if and only if each inner transaction can be encoded |
| SizeLaw.ZeroNonceIsShort | sdk/transaction_test.go:112 | the mosaic definition with nonce 0 declares 0x92 bytes and emits three fewer |
| InnerEncodings.InnerLayout | sdk/transaction_model.go:3583-3596 | an inner encoding is its own length, the signer, version and type, and then the body, unchanged if and only if no multi-byte header word is zero |
| InnerEncodings.SelfDelimited | sdk/transaction_model.go:3591-3594 | an inner encoding starts with its own length |
| InnerEncodings.SplitConcat | sdk/transaction_model.go:1318 | following length prefixes splits a concatenation of self-delimiting parts into those parts |
| InnerEncodings.PayloadIsConcat | sdk/transaction_model.go:1312-1319 | the payload is the concatenation of the inner encodings, in order |
| InnerEncodings.EncodingsAt | sdk/transaction_model.go:1313-1318 | the i-th encoding is that of the i-th inner transaction |
| InnerEncodings.PayloadSplits | sdk/transaction_model.go:1309-1320 | following the size prefixes of an aggregate's payload gives back exactly the sequence of inner encodings |
| InnerEncodings.VersionWordReadBack | sdk/network_model.go:57-59 | network type and version come back from the version word if and only if the version is below 2^24 |
| InnerEncodings.DtoRoundTrip | sdk/sdk_internal.go:15-39 | splitting a 64-bit value into two words and joining them is the identity |
| InnerEncodings.LowWordFirst | sdk/sdk_internal.go:15-39 | the low word is the first of the pair |
| InnerEncodings.HeaderReadBack | sdk/transaction_model.go:90-106 | in every emission the type (if not zero), the fee and the deadline read back from the bytes right before the body; the body starts early by the bytes missing from the header, and at byte 122 if and only if none is missing |
| InnerEncodings.VersionReadBack | sdk/transaction_model.go:90-106 | with a non-zero size word, network type and version read back from bytes 100 to 103 if and only if the version is below 2^24 and the version word is not zero (or type and low fee bytes are zero as well) |
| InnerEncodings.ZeroVersionMisread | sdk/network_model.go:28-48 | the failing input: with network type 0 and version 0 the type is read as part of the version |
| InnerEncodings.EmissionIsLong | sdk/transaction_model.go:3605-3606 | every emission has at least 115 bytes, so signing never slices out of range |
| InnerEncodings.DeadlineReadBack | sdk/transaction_model.go:127-130 | the deadline read back from the eight bytes before the body of any emission is the deadline set, truncated to milliseconds |
| Signing.FillPreimage | sdk/transaction_model.go:3547-3560 | the copies tile the preimage: half signature, signer, optional generation hash, rest |
| Signing.CreateTransactionHash | sdk/transaction_model.go:3541-3568 | the hash is the digest of bytes 4 to 35, bytes 68 to 99, the generation hash if there is one, and everything from byte 100 |
| Signing.GenerationHashSeparates | sdk/transaction_model.go:3552-3560 | one payload under two generation hashes, or with and without one, has two preimages |
| Signing.PreimageDetermines | sdk/transaction_model.go:3552-3560 | two payloads share a preimage if and only if they agree outside the size prefix and the second half of the signature |
| Signing.SignBytes | sdk/transaction_model.go:3605-3623 | bytes 4 to 67 are the signature of the generation hash, if there is one, followed by everything from byte 100; bytes 68 to 99 are the key; the rest is unchanged; the hash is that of the signed payload |
| Signing.SignedPayloadSigns | sdk/transaction_model.go:3605-3620 | the four copies of the signed payload, in terms of byte positions alone |
| Signing.HashCoversSignedData | sdk/transaction_model.go:3605-3623 | the preimage is half the signature, the public key and then exactly the data that was signed |
| Signing.SigningKeepsTheRest | sdk/transaction_model.go:3616-3620 | signing changes only the signature and the signer |
| Signing.SignTransactionWith | sdk/transaction_model.go:3599-3628 | a transaction's emitted bytes are signed together with the generation hash, and the hash covers it too; it fails only where emission does |
| Signing.AppendCosignatures | sdk/transaction_model.go:3636-3656 | the loop appends, for each cosignatory in order, the key and then the signature of the hash, and rewrites the size |
| Signing.SignTransactionWithCosignatures | sdk/transaction_model.go:3630-3657 | over the signed payload, with its hash: at 96 i bytes after its end the i-th key and 32 bytes later the i-th signature of the hash; the same failures |
| Signing.CosigningKeepsTheBase | sdk/transaction_model.go:3636-3656 | n cosignatories add keys and signatures in order, the prefix is the new total length, all other base bytes stay, and so does the hash |
| Timestamps.TimestampRoundTrip | sdk/sdk_model.go:150-165 | a blockchain timestamp survives the trip to the wall clock and back if and only if its offset milliseconds fit 64 bits as nanoseconds |
| Timestamps.WallClockRoundTrip | sdk/sdk_model.go:150-165 | every wall-clock reading comes back truncated to milliseconds |
| Timestamps.FirstBlock | sdk/sdk_model.go:150-165 | the first block is at 1459468800 seconds, and parts of a millisecond are dropped towards the epoch |
| Namespaces.NamespaceService.GetNamespaceInfo | sdk/namespace.go:19-47 | on acyclic parents: succeeds exactly when every ancestor is known, returns the full linked chain, and makes 2^d requests for d ancestors (or stops at the first unknown one) |
| Namespaces.NamespaceService.BuildNamespaceHierarchy | sdk/namespace.go:182-199 | attaches the parent's full chain in place and walks it once more, at the cost that gives the doubling |
| Namespaces.NamespaceService.CostStep | sdk/namespace.go:182-199 | the number of requests at each step of the mutual recursion |
| ConfigFiles.NetworkConfig.UnmarshalBinary | sdk/network_model.go:146-229 | a fresh configuration accepts a file exactly when each line fits and is in order; otherwise the error names the first line that is not and says what is wrong with it, by what is on the line, and the sections are those of the lines before it; a used one goes on from its sections |
| ConfigFiles.ParseOutcome | sdk/network_model.go:157-228 | the same between any two lines of a file: too long, a header without a closing bracket, a repeated section, no equals sign, an empty key, or a field before any section, each if and only if the line says so |
| ConfigFiles.StepReports | sdk/network_model.go:172-225 | a line that fits but is not in order gives the one error that describes it |
| ConfigFiles.NetworkConfig.MarshalBinary | sdk/network_model.go:231-248 | the sorting printer writes the sections and fields in index order, whatever order the maps are visited in |
| NetworkConfigs.SortByIndex | sdk/network_model.go:123-125 | the keys of the map, each once, in index order |
| NetworkConfigs.BagString | sdk/network_model.go:110-133 | one section as text: its comment and header, then its fields in index order |
| ConfigExamples.PrintedExample | sdk/network_model.go:87-115 | a header and two fields as printed, written out |
| ConfigText.TrimmedCharacters | sdk/network_model.go:172 | the six ASCII characters that are trimmed, and no others |
| NetworkConfigs.OrderUnique | sdk/network_model.go:239-241 | with distinct indices there is one sorted order |
| NetworkConfigs.LayoutUnique | sdk/network_model.go:231-248 | with distinct indices the order of sections and fields does not depend on the order of map iteration |
| ConfigRoundTrip.StepAgrees | sdk/network_model.go:179-225 | one line read into the maps is one line read in file order, a key set again included |
| ConfigRoundTrip.ParseAgrees | sdk/network_model.go:157-228 | for every file without an error, reading into maps by index gives the result of its assignments in file order |
| ConfigRoundTrip.ParseSucceedsExactly | sdk/network_model.go:157-228 | a file is accepted if and only if each line is in order and fits the limit |
| ConfigRoundTrip.FieldMapExact | sdk/network_model.go:220-223 | with distinct keys the fields are numbered 0 to m-1 in file order |
| ConfigRoundTrip.SectionMapExact | sdk/network_model.go:183-201 | the sections are numbered 0 to n-1 in file order |
| ConfigRoundTrip.NumberedExactly | sdk/network_model.go:220-223 | the result of a section's assignments carries each index from 0 if and only if no key repeats |
| ConfigRoundTrip.SetAgainSharesIndex | sdk/network_model.go:220-223 | a key that is set again shares its index with the key that is set next |
| ConfigExamples.RepeatedKeyFile | sdk/network_model.go:218-223 | files that are read without an error although two of their keys get one index |
| ConfigRoundTrip.ReadDocumentOk | sdk/network_model.go:157-228 | whatever is read has trimmed names, keys and values, and comments whose texts start with a marker |
| ConfigComments.PrintedCommentReadsBack | sdk/network_model.go:87-95 | printing a comment and reading it back drops exactly the newline after each text that more text follows |
| ConfigComments.SqueezeShape | sdk/network_model.go:174-181 | one newline goes from each run between two texts, leading and trailing runs stay |
| ConfigComments.SqueezeProgress | sdk/network_model.go:174-187 | the newlines between texts decrease by the number of runs until there is none, and the comment is kept exactly then |
| ConfigComments.RoundsConverge | sdk/network_model.go:174-187 | repeated, this ends in the comment without any newline between texts |
| ConfigReprint.ReadPrinted | sdk/network_model.go:110-133 | reading the printed form of a document gives the document with its comments squeezed |
| ConfigLayouts.PrintsLaid | sdk/network_model.go:231-248 | whatever the iteration order, the printed text is the print of the maps laid out by index |
| ConfigLayouts.LaidBack | sdk/network_model.go:231-248 | without repeated keys the maps of a file are laid out in file order |
| ConfigLayouts.LaidIsRead | sdk/network_model.go:231-248 | whatever a reader may hold is laid out with distinct names and keys and with texts that can be read |
| ConfigTheorems.ReadGives | sdk/network_model.go:146-229 | every successful read gives the maps of the file's content in file order, fit for printing |
| ConfigTheorems.RoundTrip | sdk/network_model.go:146-248 | the printed form of any configuration that was read, for any iteration order, is read back if and only if its lines fit the limit; it then gives the same sections, keys and values with squeezed comments, and the same indices if and only if no key was set twice |
| ConfigTheorems.IndicesInFileOrder | sdk/network_model.go:118-130 | every successful read numbers the sections 0 to n-1 in file order, and the fields of a section 0 to m-1 if and only if no key repeats in it, and then in file order |
| ConfigTheorems.RereadGives | sdk/network_model.go:146-248 | reading the print of a document, repeated keys included, gives its maps with squeezed comments if and only if its lines fit |
| ConfigTheorems.PrintUniqueExactly | sdk/network_model.go:231-248 | the printed text is the same for every map iteration order if and only if no two sections, and no two fields of one, share an index |
| ConfigRounds.PrintFits | sdk/network_model.go:157-163 | if the text after a round fits the limit, so did the text before it |
| ConfigRounds.RoundsExactly | sdk/network_model.go:87-248 | for any iteration orders, a number of rounds of printing and reading all succeed if and only if what the last of them prints fits the limit |
| ConfigRounds.RoundsSettle | sdk/network_model.go:87-248 | more rounds than the longest comment has inner newlines all succeed if and only if the print with stripped comments fits the limit; they end in stripped comments and otherwise the same contents, which further rounds keep |
| ConfigRounds.FileRounds | sdk/network_model.go:87-248 | the same for a file without repeated keys, in terms of the file's own content |
| ConfigRounds.RunExists | sdk/network_model.go:87-248 | every number of rounds can be carried out |
| ConfigExamples.SecondRoundFails | sdk/network_model.go:157-163 | the failing files: two comment lines that fit the limit but not together are printed and read once, and not a second time |
| Subscribers.AddressStore.AddHandlers | sdk/websocket/subscribers/confirmed_added.go:34-51 | adds the handlers to the address's set, making its entry |
| Subscribers.AddressStore.RemoveHandlers | sdk/websocket/subscribers/confirmed_added.go:53-74 | removes them, keeping an emptied entry; an error, and no change, when the address has none |
| Subscribers.AddressStore.Handle | sdk/websocket/handlers/confirmed_added.go:24-60 | with callbacks in goroutines scheduled arbitrarily: each is called once, those that ask to leave are gone, no others, and the result says whether any is left |
| Subscribers.BlockStore.Handle | sdk/websocket/handlers/block.go:24-60 | the same for block |
| Subscribers.BlockStore.RemoveHandlers | sdk/websocket/subscribers/block.go:48-71 | removes the handlers; an error only for an empty request |
| Subscribers.EverySchedule | sdk/websocket/handlers/confirmed_added.go:35-59 | every interleaving is finite, is never stuck before its end, never fails a removal, and ends with each callback called once and exactly the leaving ones removed |
| Subscribers.StepKeeps | sdk/websocket/handlers/confirmed_added.go:37-56 | every step of every goroutine keeps the delivery's invariant and brings its end nearer |
| Subscribers.SomeStepAllowed | sdk/websocket/handlers/confirmed_added.go:35-57 | until the delivery is done some goroutine can go on |
| Overlaps.RemovalFailsExactly | sdk/websocket/handlers/confirmed_added.go:35-55 | overlapping deliveries to one address can end in a removal that finds no handlers, and so in a panic, if and only if between them they make every handler leave and two of them make the same one leave |
| Overlaps.LiveIsWhatIsLeft | sdk/websocket/subscribers/confirmed_added.go:53-74 | at every moment of every interleaving of overlapping deliveries the handlers left are those that none of them has removed |
| Subscriptions.PathsDistinct | sdk/websocket/router.go:118-124 | no two topics share a path, whatever the addresses |
| Subscriptions.RouteFinds | sdk/websocket/router.go:42-50 | the router formats the path to which the client subscribed |
| Subscriptions.AddEffect | sdk/websocket/client.go:205-223 | what an addition changes, topic by topic: callbacks, entries and subscriptions |
| Subscriptions.MessageEffect | sdk/websocket/router.go:34-56 | what a delivery changes, topic by topic |
| Subscriptions.EveryRun | sdk/websocket/client.go:174-442 | every run of additions, deliveries, losses and reconnects keeps the protocol's invariant |
| Subscriptions.SubscribersServed | sdk/websocket/client.go:380-442 | in every run client and router hold one uid; while the last reconnect stands each topic with callbacks is subscribed under it and block exactly while it has some; what is subscribed finds the handler of its own channel |
| Subscriptions.SubscribedExactly | sdk/websocket/client.go:211-215 | before any loss or reconnect a topic is subscribed if and only if it has callbacks |
| Subscriptions.QuietRun | sdk/websocket/client.go:205-223 | between losses, a topic without callbacks is subscribed if and only if it was left over at the beginning and not added since |
| Subscriptions.ListedIsHistory | sdk/websocket/subscribers/confirmed_added.go:98-105 | in every run the addresses listed are exactly those that ever had callbacks |
| Subscriptions.ReconnectRestores | sdk/websocket/client.go:393-439 | a successful reconnect subscribes to exactly the addresses that ever had callbacks, and to block if and only if it has some |
| Subscriptions.SinceReconnect | sdk/websocket/client.go:380-442 | after a reconnect a topic is subscribed if and only if it has callbacks, or is an address that lost them all before the reconnect and has not been added since |
| Subscriptions.LeftOver | sdk/websocket/client.go:399-403 | for every address topic there is such a run, ending with a subscription nobody listens to |
| WireNames.NamesOnTheWire | sdk/websocket/client.go:27-36 | the literal name and path of block and of each of the seven channels |
| WireNames.AddOnTheWire | sdk/websocket/client.go:174-223 | for each channel by its literal name: a first addition that is sent adds the literal path to what the server holds and nothing else; the name gets its own handler; only that topic's callbacks change |
| WireNames.DeliveryOnTheWire | sdk/websocket/router.go:34-56 | a message under a channel's literal name changes that channel's store only, and the server gives up the literal path exactly when the last callback has left and the message is sent |
| WireNames.ReconnectOnTheWire | sdk/websocket/client.go:393-439 | a complete reconnect holds the literal path of each listed address, and of no other, and block's exactly while it has callbacks |
| WebsocketClients.MessageRouter.RouteMessage | sdk/websocket/router.go:34-56 | routing takes the delivery step of the protocol, for each channel by its literal name, and panics exactly for an unknown channel or a refused unsubscription |
| WebsocketClients.WebsocketClient.AddBlockHandlers | sdk/websocket/client.go:174-197 | takes the addition step for block, subscribing to "block" |
| WebsocketClients.WebsocketClient.AddAddressHandlers | sdk/websocket/client.go:199-223 | takes the addition step for an address, subscribing to the channel's literal path; a refused subscription stores nothing |
| WebsocketClients.WebsocketClient.Reconnect | sdk/websocket/client.go:380-442 | takes the reconnect step: it succeeds exactly when no listed topic is refused, the server then holds exactly the paths it received, and these are the literal paths of all listed topics exactly when all are sent |
| WebsocketClients.WantedIsTarget | sdk/websocket/client.go:393-439 | going through the channels one by one covers every listed topic and no other |

## Left out

- Emission.GenerateBytes: a buffer past 2 GB is a failure value where the library panics, and the bound is taken on the buffer without the library's padding.
- Builder.FlatBuilder.Finish: says nothing about alignment padding, sharing of vtables or the library's own buffer growth; the reader's theorems hold for any placement, so for those layouts too.
- Signing.SignTransactionWith: says nothing about the strength of signatures, and leaves errors of the hash and signature functions out.
- Subscribers.AddressStore.Handle: what each callback answers is a function of the callback, and no handler is added and no other delivery to the address goes on while the delivery lasts; overlapping deliveries are in Overlaps, on values.
- Namespaces.NamespaceService.GetNamespaceInfo: requests fail only for unknown namespaces; nothing is said about cyclic parents, for which the recursion does not end.
- ConfigFiles.NetworkConfig.UnmarshalBinary: for a configuration that already has sections the contract gives the run of the line machine only, and what each error means is stated for one that starts out empty; sections are values in the map, so a caller who keeps a reference to a section is not captured; bytes are ASCII, whitespace is the ASCII whitespace, a carriage return before a newline counts as whitespace at the end of the line, and read errors other than the end of the file do not occur.
- NetworkConfigs.SortByIndex: the library's sort is replaced by an insertion sort; only sortedness is used.
- Builder.BuildAndSerialize: the bound is that of a buffer without the library's padding, and a table has at most 100 slots, more than any schema here.
- InnerEncodings.VersionReadBack: nothing is said for a declared size that is a multiple of 4 GB, whose size word is zero; no buffer of that size is built.
- Schema.Serialize: an absent nested table or an absent array whose stray length read leaves the buffer is not an encoding; the program never produces either.
- WebsocketClients.WebsocketClient.AddAddressHandlers: one operation stands for the seven per-address ones, which are copies of each other; likewise for handlers and stores.
- WebsocketClients.MessageRouter.RouteMessage: the message is given as its channel, address and the callbacks' answers; mapping its JSON, and the panic when that fails, are not modelled.
- Data races on the router's handler map and the client's fields, which the atomicity assumption sets aside.
- HTTP services, failover, URL building, status codes, JSON decoding and the copying of transfer objects, including the dispatch on transaction type.
- Cryptography, base32 and hexadecimal text: public keys, addresses, hashes and secrets enter as decoded bytes, so decoding errors do not occur.
- The JSON text of supported entities: an opaque byte string.
- Dialling, the reconnect ticker, context cancellation and closing the websocket client.
- buildNamespacesHierarchy: a loop over the single-namespace operation.
- Accessors and mutators of the generated buffer code, string forms of the model structs, mocks and sample programs.
