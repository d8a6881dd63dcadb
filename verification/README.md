# Verified model of the Koinos One scripts and start order

Koinos One is a desktop shell around a native node. Around the node it has scripts that recompute
state-delta roots, publish bootstrap snapshots, build genesis files, audit receipts and measure
inclusion. This project models the algorithms in those scripts and in `electron/main.ts` in Dafny and
proves what they are for. `dafny verify dfyconfig.toml` checks everything.

How to read it:

- Code that is an expression or a recursion in the source is a function here. Code that loops or updates
  is a method with the source's loop, proved against a function or a property; the lemmas then say what
  that function means.
- What a sort, a counter, a match or an encoder gives is also said without the function that computes it: orders by
  the first difference, counters as numbers of heights and records, lines by the source's patterns, messages and
  JSON texts by readers that spell out field numbers and characters.
- SHA-256 is a parameter: any function into 32-byte strings (or 64 hex characters). A binding result says
  "equal, or two named, different byte strings that the computation hashed have the same hash". JSON
  readers and writers, `localeCompare`, the path policy and the network are parameters too.
- A Python generator is the list of what it yields and the exception, if any, that ends it.
- The file system (`FileSystem.dfy`) is a finite map with the steps the publishers take. Any step can fail;
  a write can stop with any content, and a recursive removal can stop anywhere. A ghost history records
  every state that a crash could leave, and a ghost flag whether a step failed, so `publish` is proved to
  return exactly when no step failed and the snapshot name was free.

What turned out differently from what the code or its messages suggest, each with the exact condition, told
from the input before the call:

- `validateBackupId` refuses ids that *end* in `.partial`, while the snapshot listing hides names that
  *contain* it. For such an id (`PlanBuilder.PartialIdsPass`) a publish that returns leaves `latest.json`
  naming a snapshot that the listing does not count as completed; for every other id the invariant holds
  (`Publish.Publish`).
- An overlay publish can remove the snapshot it has just installed and leave `latest.json` dangling
  (`Overlay.OlderIdIsNotRetained`). With no name that ties with the new one, it ends good exactly when pruning
  is off or fewer than the retention count of the snapshots completed before sort after it
  (`Overlay.PublishOverlay`).
- A removal of an old snapshot that stops keeps the snapshots good exactly when it has not taken the file list
  and left the `COMPLETE` mark (`Overlay.StoppedRemovalIff`; `Overlay.PruningStateIsGoodIff` for every state of
  the pruning). When the new snapshot is retained, `latest.json` names it, complete and intact, in every state
  after the rename (`Overlay.LatestStaysGood`).
- The JavaScript root uses 32-bit shifts in its varints, and reads every text that starts with `0x` as hex,
  although the byte fields of the JSON are base64url. For entries whose fields are shorter than 4 GiB it agrees
  with the Python root exactly when all object-space ids are below 2^32 and no zone, key or value b has
  |b| >= 2, b[0] = D3 and b[1] / 16 = 1, unless hashed strings collide (`StateRoot.ImplementationsAgree`). The
  bytes D3 1A B0 have the text `0xqw`, read as no bytes at all (`StateRoot.MisreadKeyShows`). On an empty list
  it throws, where the Python one has a root.
- The root forgets the order of the entries exactly when no database key is under two values, unless hashed
  strings collide (`StateRoot.RootForgetsOrderIff`). Equal length is needed for binding: two pairs have the root
  of one made of their hashes (`StateRoot.LengthIsNeeded`).
- Base58 round trips exactly for byte strings with a nonzero byte, and for strings with a character other
  than `1`.
- Writing a configuration value twice is writing it once exactly when no line of the text, as the editor splits
  it, ends in a carriage return but the one that the write replaces (`Config.IdempotentIff`); without the
  section, exactly when the text has no CRLF before its trailing white space (`Config.CrLfWithoutSection`).
- The audit skips its previous-root check while the carried root is empty: any previous root then passes, and
  otherwise only the carried one (`Audit.EmptyRootHidesMismatch`, `Audit.NonemptyRootIsChecked`).
- The audit's batch size shows in the summary exactly when one of the problems it keeps is of a block, other than
  the first, that does not state its height, or is about the previous root while the last block submitted before
  is such a block: that height is printed as the audit head's (`Audit.SizeDoesNotMatterIff`).
- The order of unknown service ids that `localeCompare` does not tell apart depends on the input order
  (`Services.InputOrderIrrelevantIffNoTies`); managed ids never tie.
- The raw-byte prefilter of the journal scan skips damaged records that do not contain a key. It equals the full
  scan exactly when the first damaged record holds a key, or there is none, or what follows it raises the very
  same error before it yields anything (`KeyScan.ScansEqualIff`; `KeyScan.ScansAtSkip` says what each yields
  otherwise, `KeyScan.EmptyRecordShows` gives a bucket).

## Model

| member | source | states |
|---|---|---|
| Varints.ReadVarint | scripts/recompute-anomaly2-rectified-root.py:32-40 | The reading loop returns the value and end of the varint at the position, or the error given for missing bytes (scripts/live-producer-transaction-regression.py:145-156 raises another one) |
| Varints.WriteVarint | scripts/live-producer-transaction-regression.py:159-167 | The loop that compares first writes the base-128 form |
| Varints.WriteVarintSplitFirst | scripts/recompute-anomaly2-rectified-root.py:61-70 | The loop that splits off the low bits first writes the same bytes |
| Varints.WriteVarint32 | scripts/verify-block-32789377-root.js:52-63 | With 32-bit shifts the loop writes the form of the value modulo 2^32 |
| Varints.Writer32Agrees | scripts/verify-block-32789377-root.js:52-63 | The 32-bit writer is right exactly below 2^32 |
| Varints.ReadInvertsWrite | scripts/recompute-anomaly2-rectified-root.py:32-40 | Wherever a written varint stands, whatever follows, reading there gives the value and the position behind it |
| Varints.WriteIsInjective | scripts/build-private-pob-genesis.js:176-190 | Different values have different encodings |
| Varints.LengthIsLogarithmic | scripts/recompute-anomaly2-rectified-root.py:61-70 | The encoding has k > 1 bytes exactly for 128^(k-1) <= n < 128^k, and one byte below 128 |
| Varints.WriteIsShortest | scripts/recompute-anomaly2-rectified-root.py:32-40 | Nothing that reads as n is shorter than the written form, and of that length only the written form does |
| Protobuf.ReadField | scripts/recompute-anomaly2-rectified-root.py:42-59 | One step of the field reader, for all four wire types, short data and unknown types |
| Protobuf.IterFields | scripts/recompute-anomaly2-rectified-root.py:42-59 | The generator yields the fields in order and ends with the exception the first bad field raises |
| Protobuf.FieldsOfPrefix | scripts/recompute-anomaly2-rectified-root.py:42-59 | Encoded fields anywhere in a buffer are yielded, and reading goes on behind them |
| Protobuf.FieldsInvertEncode | scripts/build-private-pob-genesis.js:209-233 | Reading a concatenation of encoded fields yields exactly those fields |
| Protobuf.EncodeFieldsIsInjective | scripts/build-private-pob-genesis.js:209-233 | Different field lists have different encodings |
| Protobuf.RawValuesAreSlices | scripts/recompute-anomaly2-rectified-root.py:53-58 | Every bytes value yielded is a contiguous part of the buffer, truncated ones included |
| StateDelta.SpaceIsFields | scripts/recompute-anomaly2-rectified-root.py:72-80 | The hand-written space encoder writes the protobuf message with defaults skipped |
| StateDelta.KeyIsFields | scripts/recompute-anomaly2-rectified-root.py:82-88 | The database key is a protobuf message whose space is never skipped |
| StateDelta.SpaceEncodingIsInjective | scripts/recompute-anomaly2-rectified-root.py:72-80 | The encoded space determines system, zone and id |
| StateDelta.KeyEncodingIsInjective | scripts/recompute-anomaly2-rectified-root.py:82-88 | The database key determines space and key |
| StateDelta.SpaceOfEncoded | scripts/recompute-anomaly2-rectified-root.py:138-147 | The space reader gives the same canonical space for the default-skipping and the always-writing encoder |
| Receipts.WriteObjectSpace | scripts/recompute-anomaly2-rectified-root.py:72-80 | The encoder on locals of any type, with the exceptions for an integer zone and a bytes id |
| Receipts.ReadSpace | scripts/recompute-anomaly2-rectified-root.py:138-147 | The innermost loop of the receipt reader |
| Receipts.ReadEntry | scripts/recompute-anomaly2-rectified-root.py:135-152 | The middle loop: the last occurrence of each field counts, and a value marks a put |
| Receipts.ReadReceipt | scripts/recompute-anomaly2-rectified-root.py:132-153 | The outer loop, with the exceptions of malformed receipts |
| Receipts.EntryOfEncoded | scripts/recompute-anomaly2-rectified-root.py:135-152 | An encoded entry reads back with its space, key, value and put/remove flag |
| Receipts.ReceiptReadsBack | scripts/recompute-anomaly2-rectified-root.py:132-153 | A receipt made of encoded entries with other fields between them reads back as those entries in order |
| Merkle.SplitPoint | scripts/recompute-anomaly2-rectified-root.py:168-179 | The split point of section 2.1 of RFC 6962: the largest power of two below n |
| Merkle.NextLevel | scripts/recompute-anomaly2-rectified-root.py:169-178 | One level: pairs are hashed, an odd node is promoted |
| Merkle.Fold | scripts/recompute-anomaly2-rectified-root.py:168-180 | The level loop ends, and its root is that of the top-down recursion |
| Merkle.BottomUpIsTopDown | scripts/verify-block-32789377-root.js:103-115 | For every nonempty leaf list the bottom-up fold is H(root(first k), root(rest)), k the largest power of two below n |
| Merkle.RootSplits | scripts/recompute-anomaly2-rectified-root.py:168-180 | The root of one leaf is the leaf; of more, the hash of the root of the first 2^e followed by that of the others, 2^e the largest power of two below their number |
| Merkle.LevelBinds | scripts/recompute-anomaly2-rectified-root.py:169-178 | Equal levels come from equal nodes, or two hashed strings of these levels collide |
| Merkle.TreeBinds | scripts/recompute-anomaly2-rectified-root.py:160-180 | Equal roots of equally many leaves mean equal leaves, or two strings hashed in the two trees collide |
| StateRoot.HashLeaves | scripts/recompute-anomaly2-rectified-root.py:162-167 | The leaf loop: key and value hashes in key order |
| StateRoot.DeltaRoot | scripts/recompute-anomaly2-rectified-root.py:160-180 | The whole root, with one leaf for no entries |
| StateRoot.RootHashesAscendingKeys | scripts/recompute-anomaly2-rectified-root.py:160-180 | The leaves are the hashes of key and value of each pair, in an arrangement whose keys ascend by the first byte that differs; of no pair the root is the hash of the empty string |
| StateRoot.RootOfTwo | scripts/recompute-anomaly2-rectified-root.py:160-180 | The roots of one pair and of two in either order as hash expressions, the smaller key first |
| StateRoot.ReceiptRootIsEntriesRoot | scripts/recompute-anomaly2-rectified-root.py:182-184 | Decoding a receipt, re-encoding its keys and hashing gives the root of the entries it was made of |
| StateRoot.RootForgetsOrder | scripts/recompute-anomaly2-rectified-root.py:160-162 | With distinct database keys the root does not depend on the order of the pairs |
| StateRoot.RootBindsPairs | scripts/recompute-anomaly2-rectified-root.py:160-180 | Equally many pairs with equal roots are the same sorted pairs, or two hashed strings collide |
| StateRoot.RootBindsEntries | scripts/recompute-anomaly2-rectified-root.py:160-184 | Equally many entries with equal roots are the same multiset of (system, zone, id, key, value), a removal counting as an empty value, or two hashed strings collide |
| StateRoot.DuplicateKeysShowOrder | scripts/recompute-anomaly2-rectified-root.py:162-162 | For every list with a key under two values, two orders have different roots, or two hashed strings collide |
| StateRoot.RootForgetsOrderIff | scripts/recompute-anomaly2-rectified-root.py:160-180 | The root is the same for all orders of a list exactly when no key is under two values, unless strings hashed for two orders collide |
| StateRoot.LengthIsNeeded | scripts/recompute-anomaly2-rectified-root.py:168-180 | Equal length cannot be dropped from binding: two pairs have the root of one pair made of their hashes |
| StateRoot.EncodePairs32 | scripts/verify-block-32789377-root.js:84-95 | The pairs that the script hashes: byte fields decoded from their text, keys written with 32-bit varints |
| StateRoot.DeltaMerkleRoot | scripts/verify-block-32789377-root.js:84-118 | The JavaScript root of JSON entries; it throws on an empty list, where the Python one has a root |
| JsonBytes.LooksHexIff | scripts/verify-block-32789377-root.js:46-46 | The text of b starts with `0x` exactly when b has two bytes, the first D3 and the second 1x |
| JsonBytes.MisreadIsShorter | scripts/verify-block-32789377-root.js:46-46 | Read as hex, such a text gives fewer bytes than it stands for |
| JsonBytes.ReadRightIff | scripts/verify-block-32789377-root.js:44-48 | So decoding a text gives its bytes exactly when it does not start with `0x` |
| JsonBytes.HexReadsBack | scripts/verify-block-32789377-root.js:46-46 | Hex digits, in either case, are read as their bytes, up to the end or the first pair that is none |
| JsonBytes.MisreadExample | scripts/verify-block-32789377-root.js:46-46 | D3 1A B0 has the text `0xqw`, which is read as no bytes |
| StateRoot.KeysAgree | scripts/verify-block-32789377-root.js:66-82 | For field lengths below 2^32 the two key encoders agree exactly for ids below 2^32 |
| StateRoot.PairsAgree | scripts/verify-block-32789377-root.js:84-95 | For an entry with fields below 4 GiB both scripts hash the same pair exactly when the id is below 2^32 and no field has a text that starts with `0x` |
| StateRoot.LargeIdIsMissed | scripts/verify-block-32789377-root.js:66-82 | No key the JavaScript encoder writes is the Python key of an entry with a larger id |
| StateRoot.PairSizes | scripts/verify-block-32789377-root.js:84-95 | With a smaller id the pair is never longer than the Python one, and shorter exactly when a field is misread |
| StateRoot.ImplementationsAgree | scripts/verify-block-32789377-root.js:84-118 | The two roots agree exactly when that holds of all entries, unless two hashed strings collide |
| StateRoot.MisreadKeyShows | scripts/verify-block-32789377-root.js:92-92 | An entry with a small id, removing the key D3 1A B0, whose two roots differ unless hashed strings collide |
| Records.FromInvertsTo | scripts/build-private-pob-genesis.js:192-207 | Fixed-width big-endian numbers read back |
| Records.ToInvertsFrom | scripts/recompute-anomaly2-rectified-root.py:112-115 | Every fixed-width byte string is the form of exactly the number it reads as |
| Records.DecodesExactlyEncoded | scripts/recompute-anomaly2-rectified-root.py:109-119 | A payload decodes to a record exactly when it is the magic and three length-prefixed fields with nothing left; over-long lengths are refused |
| Records.ReceiptIsSlice | scripts/recompute-anomaly2-rectified-root.py:109-119 | The decoded receipt is a contiguous part of the payload |
| Journal.ReadHead | scripts/recompute-anomaly2-rectified-root.py:97-104 | One frame header read from the file, at the end of file, with wrong magic and cut short |
| Journal.LoadBucket | scripts/recompute-anomaly2-rectified-root.py:92-107 | The loader groups the payloads of a bucket by height, in order, or raises |
| Journal.StreamBucket | scripts/inspect-journal-heights.py:28-40 | The skip-scan of one bucket yields the wanted frames in order, then any exception |
| Journal.BucketHolds | scripts/inspect-journal-heights.py:26-26 | Bucket b holds the heights from 100 000 b + 1 to 100 000 b + 100 000 |
| Journal.BucketReadsBack | scripts/recompute-anomaly2-rectified-root.py:92-107 | The frames written to a bucket, with big-endian heights and sizes, are the frames its readers find |
| Journal.SortedBuckets | scripts/inspect-journal-heights.py:24-27 | The buckets of the wanted heights, each once, ascending |
| Journal.StreamHeights | scripts/inspect-journal-heights.py:23-40 | The scan over all those buckets |
| Journal.StreamRefinesLoad | scripts/inspect-journal-heights.py:23-40 | When the buckets are well formed, and exactly then, the scan finishes, and for each wanted height it yields the payload list that the loader groups under it |
| KeyScan.EntryHits | scripts/compare-journal-keys.py:36-38 | The hits among the entries of one record, with their index |
| KeyScan.ScanRecord | scripts/compare-journal-keys.py:35-38 | Decoding one record and its receipt, and its hits |
| KeyScan.ScanBucket | scripts/compare-journal-keys.py:20-38 | The scan with the raw-byte prefilter, and nothing for a bucket without a file |
| KeyScan.ScanYieldsEntries | scripts/compare-journal-keys.py:20-38 | On a bucket of well-formed records the scan ends without an error and yields, record by record, one hit for each entry under a wanted key, with height, put or removal, and place in the receipt, in their order |
| KeyScan.SkippedRecordsHaveNoHits | scripts/compare-journal-keys.py:33-34 | A readable record whose bytes contain no key has no hit, since every decoded key is part of the payload |
| KeyScan.EqualUntilSkip | scripts/compare-journal-keys.py:33-34 | Unless the first damaged record holds no key, the prefiltered scan is the full scan |
| KeyScan.FullScanIsPrefix | scripts/compare-journal-keys.py:26-38 | In any case the full scan's hits are a prefix of the prefiltered ones, and equal if it does not raise |
| KeyScan.PrefilterLosesNothing | scripts/compare-journal-keys.py:20-38 | The same for whole bucket files; the full scan ends without an error exactly when the prefiltered one does and every record without a key decodes |
| KeyScan.ScansAtSkip | scripts/compare-journal-keys.py:33-35 | When the first damaged record holds no key, the full scan ends there with its error, and the prefiltered one yields the same hits and goes on behind it |
| KeyScan.OnlyRaisesIff | scripts/compare-journal-keys.py:26-38 | When the prefiltered scan of some frames yields nothing but a given error |
| KeyScan.ScansEqualIff | scripts/compare-journal-keys.py:20-38 | The two scans of a bucket are equal exactly when its first damaged record holds a key or does not exist, or the frames behind it raise its very error before any hit |
| KeyScan.EmptyRecordShows | scripts/compare-journal-keys.py:30-35 | A bucket of one empty record, where they differ |
| Services.Sorter.VisitOne | electron/main.ts:2610-2623 | The recursive closure that updates the three collections does what the specified visit does |
| Services.SortByDependencies | electron/main.ts:2601-2630 | The whole sort, on any graph; it ends on cycles too |
| Services.StartOrderIsTopological | electron/main.ts:2601-2630 | The result holds each included id exactly once, and every included dependency of s stands before s unless it reaches s itself |
| Services.AcyclicStartOrder | electron/main.ts:2601-2630 | Without cycles it is a topological order |
| Services.OrderWithoutDependencies | electron/main.ts:2579-2587 | Without dependencies between included services: managed ids in the order of their list, then the others in the order of `localeCompare` |
| Services.EarlierStartHasReason | electron/main.ts:2601-2630 | On any graph: whatever stands before s is reached along dependencies from s, or from an included service that is no later than s in that order |
| Services.StartOrderForgetsInputOrder | electron/main.ts:2579-2587 | When no two ids tie, the order and multiplicity of the input do not matter |
| Services.InputOrderIrrelevantIffNoTies | electron/main.ts:2579-2587 | That is exactly when they do not matter |
| Services.ManagedNeverTie | electron/main.ts:1024-1037 | The managed services never tie |
| Positional.FromTo | scripts/build-private-pob-genesis.js:127-132 | The digits of a number read back as the number |
| Positional.ToFrom | scripts/build-private-pob-genesis.js:108-112 | Digits without leading zeros are the digits of the number they read as |
| Positional.ConvertBack | scripts/build-private-pob-genesis.js:107-139 | Converting to another base and back is the identity when leading zeros are carried over one for one |
| Base58.HexBytes | scripts/build-private-pob-genesis.js:113-115 | Printing in hex, padding and pairing gives the base-256 digits, and one zero byte for 0 |
| Base58.DigitLoop | scripts/build-private-pob-genesis.js:129-133 | The division loop gives the base-58 digits |
| Base58.EncodeDigits | scripts/build-private-pob-genesis.js:125-137 | Accumulation, digits and leading ones |
| Base58.Base58Encode | scripts/build-private-pob-genesis.js:125-139 | The encoder, empty input included |
| Base58.Base58Decode | scripts/build-private-pob-genesis.js:107-123 | The decoder, with invalid characters |
| Base58.DecodeInvertsEncode | scripts/build-private-pob-genesis.js:107-139 | Decoding what was encoded gives the bytes back exactly when one of them is not zero |
| Base58.EncodeInvertsDecode | scripts/build-private-pob-genesis.js:107-139 | Encoding what was decoded gives the string back exactly when it is not made of `1` only |
| Base58.LeadingOnesMatch | scripts/build-private-pob-genesis.js:134-137 | Leading zero bytes and leading ones are equally many |
| Base58.DecodeGivesBytes | scripts/build-private-pob-genesis.js:107-123 | What is decoded are bytes |
| Base64.DecodeInvertsEncode | scripts/live-producer-transaction-regression.py:136-142 | Base64 decodes both the padded and the unpadded form, in both alphabets |
| Base64.SplitLength | scripts/live-producer-transaction-regression.py:141-142 | The last group of four is short by what three bytes are short of |
| Base64.AlphabetsAre | scripts/build-private-pob-genesis.js:147-149 | A standard text has letters, digits, `+` and `/`; the URL-safe one has `-` and `_` in their places |
| Base64.DigitsAre | scripts/live-producer-transaction-regression.py:141-142 | The decoder reads exactly the characters of the two alphabets |
| Base64.EncodeIsInjective | scripts/benchmark-transaction-submission.js:267-267 | Different bytes have different unpadded forms |
| Nonce.EncodeNoncePython | scripts/live-producer-transaction-regression.py:190-192 | The Python encoder: field 5 as a varint, padded base64url |
| Nonce.EncodeNonceJs | scripts/benchmark-transaction-submission.js:259-268 | The JavaScript loop writes the same bytes, unpadded |
| Nonce.DecodeNonceValue | scripts/live-producer-transaction-regression.py:170-187 | The decoding loop with its exceptions |
| Nonce.DecodesFirstNonce | scripts/live-producer-transaction-regression.py:170-187 | On any varint and length-delimited fields the decoder returns the first nonce field, or the error of there being none |
| Nonce.NonceReadsBack | scripts/live-producer-transaction-regression.py:170-192 | It returns n on both encodings of every n, and with any other such fields before and behind |
| Genesis.EntryList.UpsertEntry | scripts/build-private-pob-genesis.js:347-352 | The array after an upsert |
| Genesis.EntryList.UpsertEntries | scripts/build-private-pob-genesis.js:398-455 | The array after a run of upserts |
| Genesis.UpsertIsMapUpdate | scripts/build-private-pob-genesis.js:341-352 | As a map from normalised space and key, the array is updated at one key, whatever it held |
| Genesis.UpsertKeepsUnique | scripts/build-private-pob-genesis.js:347-352 | No key is repeated if none was |
| Genesis.UpsertAllIsOverlay | scripts/build-private-pob-genesis.js:398-455 | A run of upserts overlays the source map with the last entry of each key |
| Genesis.WrittenSlotsStay | scripts/build-private-pob-genesis.js:398-455 | A key once written is still held by one of the written entries at the end |
| Genesis.LastWrittenStays | scripts/build-private-pob-genesis.js:398-455 | An entry is there at the end when nothing is written to its slot after it |
| Genesis.Build | scripts/build-private-pob-genesis.js:396-455 | The builder's upserts in order, and the amounts it refuses; the probe accepts the result, and no key is repeated if none was |
| Genesis.BuilderMakesReady | scripts/probe-private-pob-genesis.js:111-199 | From any source genesis, the probe finds everything it requires in what the builder makes |
| Genesis.Probe | scripts/probe-private-pob-genesis.js:121-163 | The probe reports exactly what is lacking, so nothing exactly for a ready genesis |
| GenesisValues.KernelSays | scripts/build-private-pob-genesis.js:396-404 | Read back, the entries say the genesis address, and for each contract its bytecode and the hash of that bytecode under its id |
| GenesisValues.CallsSay | scripts/build-private-pob-genesis.js:406-420 | Each of the five system calls goes to its contract and entry point |
| GenesisValues.NamesSay | scripts/build-private-pob-genesis.js:421-434 | The five names lead to their addresses and the addresses to their names |
| GenesisValues.BalancesSay | scripts/build-private-pob-genesis.js:437-451 | The producer holds the whole supply of VHP and KOIN, with full mana, and the PoB contract may spend its VHP |
| GenesisValues.PobSays | scripts/build-private-pob-genesis.js:453-455 | The producer's key, the seed, the difficulty and the consensus parameters |
| GenesisData.NothingSkipped | scripts/build-private-pob-genesis.js:231-233 | The message fields that skip empty messages never do for spaces and entries |
| GenesisData.DataReadsBack | scripts/build-private-pob-genesis.js:305-324 | A reader of the message finds the entries in order: under 1 the space (system, zone and id under 1, 2, 3), under 2 the key, under 3 the value |
| GenesisData.DataIsInjective | scripts/build-private-pob-genesis.js:305-324 | The encoded genesis determines all entries and their order |
| GenesisData.DigestBinds | scripts/build-private-pob-genesis.js:458-461 | The printed digest binds the entries, or the two messages collide |
| CanonicalJson.EscapedIsPrefixFree | scripts/promote-public-bootstrap-backup.js:79-79 | String escaping (section 7 of RFC 8259, lone surrogates escaped) is unambiguous up to the closing quote |
| CanonicalJson.CanonicalIsPrefixFree | scripts/promote-public-bootstrap-backup.js:72-80 | Printed values are unambiguous inside any larger text |
| CanonicalJson.EqualPrintsSame | scripts/promote-public-bootstrap-backup.js:76-78 | Values equal up to key order print the same |
| CanonicalJson.CanonicalExactlyWhenEqual | scripts/promote-public-bootstrap-backup.js:72-80 | Two values print the same exactly when they are equal up to key order |
| JsonReader.CanonicalReadsBack | scripts/promote-public-bootstrap-backup.js:72-80 | A reader that accepts only the spellings of section 3.2.2.2 of RFC 8785 reads the text back as an equal value, with the keys of every object ascending by the first code unit that differs |
| JsonReader.OnlyCanonicalIsRead | scripts/promote-public-bootstrap-backup.js:72-80 | And back: every text that this reader reads to its end, with ascending keys, is the text printed for what was read |
| FileSystem.Disk.WriteFile | scripts/promote-public-bootstrap-backup.js:44-49 | A write, complete or torn, with every state a crash could leave |
| FileSystem.Disk.Remove | scripts/publish-public-bootstrap-overlay.js:86-86 | A recursive removal, complete or stopped |
| FileSystem.PrefixesAre | scripts/promote-public-bootstrap-backup.js:45-45 | A recursive mkdir makes the directory and everything above it |
| FileSystem.RenameDirAt | scripts/promote-public-bootstrap-backup.js:510-510 | What a renamed directory holds |
| FileSystem.RenameDirElsewhere | scripts/promote-public-bootstrap-backup.js:510-510 | Nothing else changes in a rename |
| Repository.ObjectStep | scripts/promote-public-bootstrap-backup.js:479-483 | Moving a verified partial object into place keeps the repository invariant |
| Repository.SnapshotStep | scripts/promote-public-bootstrap-backup.js:510-510 | Renaming an intact partial directory to a free name keeps it and carries all documents over |
| Repository.LatestStep | scripts/promote-public-bootstrap-backup.js:516-518 | Renaming `latest.json.partial` keeps it exactly when the named snapshot is completed |
| Repository.InvSame | scripts/publish-public-bootstrap-overlay.js:66-77 | The invariant depends only on objects, public snapshots and `latest.json` |
| Repository.ShaIsHex | scripts/promote-public-bootstrap-backup.js:9-9 | The names of objects are the lower-case hex texts of 32 bytes |
| Repository.ObjectPathSpells | scripts/promote-public-bootstrap-backup.js:82-87 | An object lies under the first two and the next two digits of its name |
| Repository.HasPartialIff | scripts/publish-public-bootstrap-overlay.js:73-73 | A name counts as partial exactly when it contains `.partial` |
| Publish.WriteAtomic | scripts/promote-public-bootstrap-backup.js:44-56 | Temporary file, then rename; only the two names change |
| Publish.PublishObject | scripts/promote-public-bootstrap-backup.js:469-484 | Whatever the source holds by then, every state keeps the invariant; a return means a verified object, a throw a failed step or a bad source file |
| Publish.PublishObjects | scripts/promote-public-bootstrap-backup.js:488-490 | All objects are verified after the loop |
| Publish.WriteDocs | scripts/promote-public-bootstrap-backup.js:502-509 | All documents are in the partial directory, COMPLETE last |
| Publish.WriteAndRename | scripts/promote-public-bootstrap-backup.js:501-514 | The `try` block: installed with all documents, or nothing but the partial directory differs |
| Publish.InstallFresh | scripts/promote-public-bootstrap-backup.js:494-514 | It is installed exactly when no step fails and the name is free |
| Publish.InstallSnapshot | scripts/promote-public-bootstrap-backup.js:492-514 | The same with the directory made first |
| Publish.SwingLatest | scripts/promote-public-bootstrap-backup.js:516-518 | Only the last step changes `latest.json`; it alone can break the invariant, and does exactly for ids containing `.partial` |
| Publish.Publish | scripts/promote-public-bootstrap-backup.js:486-519 | In every state on the way, throws included, objects hash to their names, completed snapshots have all objects, `latest.json` is the old one and nothing readers saw is gone; it returns exactly when no step failed and the name was free, and then everything is in place |
| Publish.ValidatePublishedTree | scripts/promote-public-bootstrap-backup.js:521-541 | It accepts exactly the trees with verified objects, the documents, and a `latest.json` naming the snapshot |
| Publish.PublishedValidates | scripts/promote-public-bootstrap-backup.js:521-541 | What a finished publish leaves is accepted |
| Publish.PublishAndValidate | scripts/promote-public-bootstrap-backup.js:601-604 | A publish that returns is never refused by the validation after it; every state of the run is as in `publish` |
| PlanBuilder.ParseFilesJson | scripts/promote-public-bootstrap-backup.js:131-158 | It accepts exactly lists of well-formed, allowed entries with distinct paths, and keeps them |
| PlanBuilder.ValidateSourceObjects | scripts/promote-public-bootstrap-backup.js:160-175 | It accepts exactly when every entry's object is there with its size and hash |
| PlanBuilder.CollectObjects | scripts/promote-public-bootstrap-backup.js:310-327 | Each entry has its object, each object its entry and size, one object per hash, and bytes come with exactly the configuration's object |
| PlanBuilder.SizesAreSums | scripts/promote-public-bootstrap-backup.js:222-238 | Database bytes are the sizes of the entries under `db/`, runtime bytes those of the others; the total is their sum, the minimum 128 MiB more, and the recommendation a fifth of the database, but at least 10 GiB, above that |
| PlanBuilder.SizesForgetOrder | scripts/promote-public-bootstrap-backup.js:328-330 | Sorting the entries does not change the sizes |
| PlanBuilder.OnlyConfigSizeChanges | scripts/promote-public-bootstrap-backup.js:312-317 | Paths stay distinct, and the total changes by the configuration's size only |
| PlanBuilder.CheckSource | scripts/promote-public-bootstrap-backup.js:277-308 | The checks pass exactly when the destination is outside the source, the id (or the one in `latest.json`) is valid, its snapshot is complete, both documents name it, the file list is good, its objects are verified and the template is accepted |
| PlanBuilder.LocationsOkIff | scripts/promote-public-bootstrap-backup.js:280-285 | The destination is refused exactly when it is the source or its path goes on behind the source's |
| PlanBuilder.ValidBackupIdIff | scripts/promote-public-bootstrap-backup.js:89-96 | An id is accepted exactly when it is one directory name and does not end in `.partial` |
| PlanBuilder.ResolvedIs | scripts/promote-public-bootstrap-backup.js:209-220 | The id is the accepted one that was requested, or for `latest` the accepted one that `latest.json` names |
| PlanBuilder.BuildPlan | scripts/promote-public-bootstrap-backup.js:277-463 | A plan is built exactly when those checks pass; it is closed, lists the source entries with the configuration replaced in path order, and its four digests are of the documents to be written |
| PlanBuilder.PublishedIsSigned | scripts/promote-public-bootstrap-backup.js:424-446 | After publishing, the four signed digests are the hashes of the bytes on disk |
| PlanBuilder.PublishedDelivers | scripts/promote-public-bootstrap-backup.js:310-327 | After publishing, each listed file reads back as the source's bytes, or the template for the configuration, unless two of these byte strings collide |
| PlanBuilder.PlanIsLinked | scripts/publish-public-bootstrap-overlay.js:96-98 | The objects an overlay does not write are the source's, verified when the plan was built |
| PlanBuilder.Promote | scripts/promote-public-bootstrap-backup.js:597-605 | Build, publish and validate: all of the above in one run, with every state on the way when it throws |
| PlanBuilder.PartialIdsPass | scripts/promote-public-bootstrap-backup.js:89-96 | The id check lets names through that contain `.partial` but do not end in it |
| Overlay.WriteOverlayOnlyObject | scripts/publish-public-bootstrap-overlay.js:48-64 | The sanitised configuration's object is verified afterwards, in every state the invariant holds |
| Overlay.WriteOverlayObjects | scripts/publish-public-bootstrap-overlay.js:96-98 | With the others linked, all objects are verified |
| Overlay.CompletedPublicSnapshots | scripts/publish-public-bootstrap-overlay.js:66-77 | Exactly the completed public snapshots, each once, ascending |
| Overlay.PrunePublicSnapshots | scripts/publish-public-bootstrap-overlay.js:79-90 | The excess is removed and returned ascending; nothing else changes, and every state is that of the removal of one of them, the ones before it being gone |
| Overlay.ExcessLeavesGreatest | scripts/publish-public-bootstrap-overlay.js:82-88 | What stays are the min(k, n) greatest, and exactly the others go |
| Overlay.PruningKeepsRest | scripts/publish-public-bootstrap-overlay.js:85-88 | In every state of the pruning, objects are good and every snapshot that stays is complete and intact |
| Overlay.DroppedIsGoodIff | scripts/publish-public-bootstrap-overlay.js:79-90 | After pruning, the repository is good exactly when the snapshot that `latest.json` names was not removed |
| Overlay.StoppedRemovalIff | scripts/publish-public-bootstrap-overlay.js:86-86 | Whatever a stopped removal has kept, the snapshots are good exactly when it has not kept the mark without the file list |
| Overlay.PruningStateIsGoodIff | scripts/publish-public-bootstrap-overlay.js:79-90 | The same for every state of the pruning, with what it means for `latest.json` |
| Overlay.StateIsAfter | scripts/publish-public-bootstrap-overlay.js:125-134 | In every state after the rename, objects are good, the snapshots outside the excess are complete and intact, `latest.json` names the new one intact unless it is in the excess, and the exact condition for the state to be good |
| Overlay.StoppedRemovalCanBreak | scripts/publish-public-bootstrap-overlay.js:86-86 | So a removal that stops can leave a snapshot marked complete without its file list |
| Overlay.PublishLinked | scripts/publish-public-bootstrap-overlay.js:92-127 | Up to the rename of `latest.json`, the guarantees of `publish` |
| Overlay.RetainedIff | scripts/publish-public-bootstrap-overlay.js:79-90 | The new snapshot is not among the excess exactly when pruning is off or fewer than the count of the snapshots completed before sort after it, no name tying with it |
| Overlay.PublishOverlay | scripts/publish-public-bootstrap-overlay.js:92-135 | Every state is as in `publish` up to the rename of `latest.json`; the state after it has everything in place and is good exactly for ids without `.partial`, and then every later one is that of a removal, good exactly when that has stopped well; a run that returns is good exactly when the new snapshot is retained, which the disk before the run tells |
| Overlay.OlderIdIsNotRetained | scripts/publish-public-bootstrap-overlay.js:125-134 | A good disk with one later snapshot and a plan that can be published to it, where retention count 1 removes the snapshot installed |
| Overlay.PublishedStays | scripts/publish-public-bootstrap-overlay.js:85-88 | Removing other snapshots leaves everything that was published |
| Overlay.BuildAndPublish | scripts/publish-public-bootstrap-overlay.js:169-174 | Build and overlay publish: when the new snapshot is retained, each listed file reads back with its bytes and the signed digests are those of the bytes on disk, after the pruning; every state is as in the overlay publish |
| Overlay.LatestStaysGood | scripts/publish-public-bootstrap-overlay.js:125-134 | When the new snapshot is retained, every state before the rename is good, and in every state after it `latest.json` names that snapshot, complete and intact |
| Lines.SplitIsDropCrs | electron/main.ts:1894-1894 | Splitting at `\r?\n` is splitting at line feeds and dropping one carriage return per broken line |
| Lines.RawSplitInvertsJoin | electron/main.ts:1923-1923 | Joined lines split back |
| Lines.StripBreaksIsStripBlank | electron/main.ts:1923-1923 | Stripping trailing line breaks is stripping trailing empty lines |
| Config.FindSectionEnd | electron/main.ts:1902-1908 | The loop finds the first line that ends the section |
| Config.ReplaceLine | electron/main.ts:1910-1917 | The loop replaces the first matching line of the section, if any |
| Config.UpsertBlockProducerConfigValue | electron/main.ts:1893-1924 | The editor gives the specified text |
| Config.CommentBlockProducerConfigValue | electron/main.ts:1937-1963 | So does the one that comments out, with its changed flag |
| Config.SettingMatches | electron/main.ts:1912-1912 | A written line is found under its own key and no other |
| Config.CommentedFacts | electron/main.ts:1955-1956 | A commented line still matches its key, and commenting again does nothing |
| Config.UpsertIsWritten | electron/main.ts:1893-1924 | The lines above the section and its header stay; the section is the edited one without trailing blanks |
| Config.CommentIsWritten | electron/main.ts:1937-1963 | The same for commenting out; without a match nothing changes |
| Config.MatchesIff | electron/main.ts:1912-1912 | A line is for a key exactly when it is white space, perhaps `#`, white space, the key and a colon, and anything |
| Config.SectionIff | electron/main.ts:1895-1895 | The header is the line that has only white space around `block_producer:` |
| Config.CommentedIs | electron/main.ts:1955-1956 | Commenting out puts `# ` behind the indentation in the place of any `#` and white space |
| Config.PutIs | electron/main.ts:1902-1921 | The first line for the key that only empty, indented or comment lines precede is replaced; if there is none, the line is added under the header |
| Config.FirstIs | electron/main.ts:1902-1960 | That line is what is found for the key, and what commenting out changes |
| Config.LastWriteWins | electron/main.ts:1893-1924 | Writing a key twice is writing it the second time; with the same value, the write is idempotent |
| Config.LookupAfterUpsert | electron/main.ts:1893-1924 | On any text, the first matching line of the section is then the new value, and what is found for every other key is as before, without a carriage return at its end |
| Config.LookupOfOthers | electron/main.ts:1893-1924 | Exactly as before, when no line but the replaced one ends in a carriage return |
| Config.LookupAfterComment | electron/main.ts:1937-1963 | What is found after commenting out is the old line as a comment |
| Config.CommentThenUpsert | electron/main.ts:1893-1963 | Commenting out does not matter to a later write |
| Config.UpsertCommentUpsert | electron/main.ts:1893-1963 | Write, comment out, write restores the first text exactly |
| Config.CommentTwice | electron/main.ts:1937-1963 | Commenting out again changes nothing and says so |
| Config.NoCrIsTidy | electron/main.ts:1894-1894 | No line of a text without carriage returns ends in one |
| Config.WritesWithoutCr | electron/main.ts:1893-1963 | For every text without carriage returns: the last write wins, commenting out before a write does not matter, write, comment out, write is one write |
| Config.ReadsWithoutCr | electron/main.ts:1893-1963 | For those: the value written is found and every other key as before; after commenting out the old line is found as a comment, and commenting again changes nothing and says so |
| Config.IdempotentIffNoCrLf | electron/main.ts:1893-1924 | For any text, a second write changes nothing exactly when the first left no CRLF |
| Config.IdempotentIff | electron/main.ts:1893-1924 | Told from the text before: exactly when no line but the one that is replaced ends in a carriage return |
| Config.KeepsNoCrWithoutSection | electron/main.ts:1896-1900 | Without the section these lines are the text's, but for white space at its end |
| Config.CrLfWithoutSection | electron/main.ts:1896-1900 | So without the section a second write changes nothing exactly when the text has no CRLF before its trailing white space |
| Audit.FirstListDifference | scripts/audit-state-deltas.py:303-314 | None exactly for equal lists, else the first index where they differ |
| Audit.CompareTransactionDeltas | scripts/audit-state-deltas.py:343-378 | A match exactly for equal lists, else the first mismatch |
| Audit.ClassifyComparison | scripts/audit-state-deltas.py:381-403 | Ok exactly when all deltas agree in order and the roots agree where both are present |
| Audit.AuditItem | scripts/audit-state-deltas.py:470-592 | One block: which problems are noted, with the heights they print, and counted, what is checked and carried, and whether the audit stops |
| Audit.AuditBatch | scripts/audit-state-deltas.py:470-592 | The inner loop continues the fold over heights |
| Audit.AuditRange | scripts/audit-state-deltas.py:435-648 | When the source holds the range, the summary is that of the fold over heights, and each checkpoint holds exactly start to its last height |
| Audit.RunHeads | scripts/audit-state-deltas.py:474-568 | A run stops exactly at the first bad block it may not pass; until then it carries the last root present and prints the height of the last block submitted |
| Audit.SummariesAgreeIff | scripts/audit-state-deltas.py:463-474 | Two batch sizes give the same summary exactly when the problems it keeps print the same block heights and head heights |
| Audit.SizeDoesNotMatterIff | scripts/audit-state-deltas.py:463-474 | No batch size changes the summary exactly when each height in the kept problems, their own and that of the last block submitted, is stated by its block or the first of the range; which they are is told from the blocks and replies |
| Audit.CountersForgetSize | scripts/audit-state-deltas.py:463-474 | The counters and the stop never depend on it |
| Audit.ProblemCount | scripts/audit-state-deltas.py:480-592 | In every run each counter is the number of records of its kinds, and all records are counted once |
| Audit.ProblemsAre | scripts/audit-state-deltas.py:480-592 | The records of a run, height by height, are those of the faults reported there, each with the height, the kind and, for a previous root, the head before it |
| Audit.SummaryCounts | scripts/audit-state-deltas.py:651-684 | The counters of the summary as numbers of records and, of an audit that goes on, of heights: without a receipt, without an answer, with a wrong previous root, with a differing answer, without a stored root; the records shown are the first ones and the others are counted |
| Audit.EveryBlockIsProcessed | scripts/audit-state-deltas.py:470-592 | In continue mode checked blocks and submit failures together are the blocks processed |
| Audit.GoodRun | scripts/audit-state-deltas.py:470-592 | While nothing is wrong, every block is checked and the carried root is the last one present |
| Audit.PassIffGood | scripts/audit-state-deltas.py:651-684 | The status is pass exactly when at every height the receipt is stored, the submission works, the receipts agree and the previous root is the carried one where both are nonempty; then every height was checked |
| Audit.FirstIsFirst | scripts/audit-state-deltas.py:485-485 | `first_problem` is the first of the problems |
| Audit.StoppingFindsTheFirst | scripts/audit-state-deltas.py:486-498 | Stopping at the first problem reports the one a full audit reports first, and one only |
| Audit.PassChecksPreviousRoots | scripts/audit-state-deltas.py:477-500 | After a pass, a stated previous root is the latest nonempty regenerated one, unless an empty root was carried |
| Audit.EmptyRootHidesMismatch | scripts/audit-state-deltas.py:500-500 | While the carried root is empty, the run passes whatever previous root the block states |
| Audit.NonemptyRootIsChecked | scripts/audit-state-deltas.py:500-500 | While it is not, a passing run still passes exactly with that root or none |
| Audit.EmptyRootRun | scripts/audit-state-deltas.py:500-500 | A passing run whose second block states a previous root that no block has left |
| Inclusion.CheckBlock | scripts/benchmark-transaction-submission.js:327-336 | The ids found in a block are noted with its height and leave the waiting set |
| Inclusion.ScanTo | scripts/benchmark-transaction-submission.js:324-338 | The inner loop scans heights in sequence up to the head or until nothing is waited for |
| Inclusion.WaitForPublicInclusion | scripts/benchmark-transaction-submission.js:315-349 | The report depends on the polls only through the highest head: an id is included exactly when a block from the start to it contains it, and no block is checked without need |
| Inclusion.ReportMeans | scripts/benchmark-transaction-submission.js:340-349 | Included and missing divide the ids; each included height is the least; no checked block contains a missing id |
| Sorting.SortIsSorted | scripts/recompute-anomaly2-rectified-root.py:162-162 | Sorting sorts |
| Sorting.SortIsStable | scripts/recompute-anomaly2-rectified-root.py:162-162 | Elements that tie keep their order, as in Python and JavaScript |
| Sorting.SortForgetsOrder | electron/main.ts:2579-2587 | Without ties the result does not depend on the input order |

## Left out

- Base64.DecodeInvertsEncode: Python's decoder drops characters outside the alphabet; here they are an error, which no encoder output reaches.
- Base58.Base58Decode: iterating over characters outside the basic plane is not modelled; they are invalid characters either way.
- JsonBytes.DecodeBytes: on text that is no base64, which no encoder writes, Node skips characters and the model gives no bytes; ids beyond 2^53, which JSON numbers round, are exact here.
- Journal.StreamBucket: sizes of 2^63 and more, which Python's `read` and `seek` refuse, are treated like any size past the end of the file.
- CanonicalJson.CanonicalExactlyWhenEqual: a number is its shortest decimal text, so -0, NaN and infinities, which JSON texts do not carry, are outside.
- PlanBuilder.ParseFilesJson: the allow and deny lists for paths are a parameter; the contents of those lists are data.
- PlanBuilder.RecomputeSizes: sums are exact, while JavaScript sums beyond 2^53 round.
- PlanBuilder.BuildPlan: the documents are functions of what varies between plans; the metadata copied from the source manifest is not part of this model. Paths are resolved before, and the JSON documents are parsed.
- Overlay.PublishOverlay: when a completed snapshot ties with the new one in `localeCompare`, the order in which the system lists them decides, so the condition on the disk before the run is stated without ties.
- Publish.Publish: two publishers at once are not modelled; nor are durability and symbolic links.
- Publish.PublishObject: a file that changes between its verification and its rename is not modelled.
- Overlay.PublishLinked: the `--replace` run, which removes a snapshot before installing the new one, and the checks of the objects link; the disk shows the linked objects from the start.
- Overlay.CompletedPublicSnapshots: `COMPLETE` is a file; a directory of that name would pass the original's test.
- Config.UpsertBlockProducerConfigValue: keys are letters, digits, `_` and `-`, which stand for themselves in a regular expression, and the laws take values without line breaks.
- Audit.AuditRange: the audit node answers by height, which it does when blocks are submitted in order; batch records, times, progress lines and the details in problem records other than heights are left out.
- Audit.ClassifyComparison: a delta is its text up to key order; the delta hashes and summaries it adds to the record are left out.
- Inclusion.WaitForPublicInclusion: time is the number of heads read before it runs out; block ids and durations are left out.
- Genesis.Build: options are decoded before and contract ids, bytecode and the manifest are parameters; the probe's counts and warnings are left out.
- SHA-256, Ed25519 signing and key files are parameters.
- `header_fields` and `rectify_entries` of the root script: reports and constants.
- Wallet, backup, producer and log services, Electron windows and IPC, process control: calls into code that is not part of this model.
- YAML parsing, packaging, benchmarks' statistics and report rendering: they would add only easy members.
