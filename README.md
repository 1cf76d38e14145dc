# Issuer, class and NFT type scripts, modelled in Dafny

The model covers the CKB type scripts behind an NFT system. Three kinds of cell are checked:

- An issuer cell names a creator. It counts the classes that creator has made.
- A class cell (version, cost in CKB, name, description, metadata type hash) describes a kind of NFT.
- An NFT cell is one token. Its type args are the 24-byte class identity followed by a 32-byte blake2b digest fixed at minting.

A metadata type script guards a name plus a mutable data field in the same way. Every script works the same way:

- It counts its cells among the transaction's inputs and outputs to classify the transaction as a creation, an update or a destruction.
- It decodes the cell data records.
- It either succeeds, or exits with one of the 30 numbered error codes.

A Rust panic (an `unwrap` of `None`, a slice out of range, a `copy_from_slice` length mismatch, a u64 overflow) also fails the script. In the model a panic is the `Abort` outcome, kept apart from the numbered errors, so every contract says which inputs panic.

The host (the transaction the script sees) is an immutable value `Host.Transaction`:

- inputs, outputs and cell deps, with their capacities, occupied capacities, locks, types and data;
- the witnesses;
- the first input's previous output.

blake2b and the type-hash function are parameters. The deployed code hashes and payment lock args are `Helper.DEPLOYED`; the functions take any `Helper.Config`. The core is expressions and early returns, so it is mostly functions. The one loop in the core, the NFT minting loop, is a `method` with a `while` loop, proved against a fold function.

Modules:

- `Host` and `SysErrors` (host.dfy): the host values and the syscall error enum.
- `Errors` (errors.dfy): the error codes and the `Outcome` type.
- `HelperBytes` (helper_bytes.dfy): the byte readers, big-endian encoding and size-prefixed fields.
- The record decoders: `ClassCell`, `IssuerCell`, `MetadataCell` and `NftCell`.
- `Helper` (helper.dfy): the cell scans.
- The three scripts, `NftType` (with `NftValidator`), `IssuerType` and `MetadataType`.

## Model

| member | source | states |
|---|---|---|
| Errors.CodesFollowDeclaration | contracts/script-utils/src/error.rs:5-36 | the codes run 1, 2, … 30 in declaration order: the first variant is 1 and each later one is its predecessor plus one |
| Errors.CodeAtPosition | contracts/script-utils/src/error.rs:5-36 | the variant declared at position k has code k + 1 |
| Errors.Code | contracts/script-utils/src/error.rs:4-36 | the exit code of a variant (`err as i8` under `#[repr(i8)]`) lies in 1 to 30; CodeAtPosition and CodeRoundTrip pin each one |
| Errors.CodesOfFirstBlock | contracts/script-utils/src/error.rs:6-15 | the first ten declared variants carry codes 1 to 10 |
| Errors.CodesOfSecondBlock | contracts/script-utils/src/error.rs:16-25 | variants eleven to twenty carry codes 11 to 20 |
| Errors.CodesOfThirdBlock | contracts/script-utils/src/error.rs:26-35 | the last ten variants carry codes 21 to 30 |
| Errors.AnchorsAgreeWithNumbering | contracts/script-utils/src/error.rs:5-36 | every explicit discriminant (`= 1`, `= 5`, … `= 30`) is the code the implicit numbering gives that variant |
| Errors.CodeRoundTrip | contracts/script-utils/src/error.rs:5-36 | every code lies in 1..30 and maps back to its own variant |
| Errors.CodeInjective | contracts/script-utils/src/error.rs:5-36 | distinct errors exit with distinct codes |
| Errors.FromSysError | contracts/script-utils/src/error.rs:38-48 | each known syscall error becomes the script error of the same name (IndexOutOfBound, ItemMissing, LengthNotEnough, Encoding, codes 1 to 4); an unknown one panics |
| Errors.SysFailure | contracts/script-utils/src/error.rs:38-48 | a failed syscall passed on with `?` never succeeds: a known syscall error becomes the error of its own name, an unknown one panics |
| HelperBytes.BeBytesOfValue | contracts/script-utils/src/helper.rs:185-195 | writing the big-endian value of n bytes back as n bytes gives the same bytes |
| HelperBytes.BeBytes | contracts/script-utils/src/helper.rs:185-195 | the n-byte big-endian encoding of v has length n and reads back as v |
| HelperBytes.SizePrefixOfBeBytes | contracts/script-utils/src/helper.rs:178-183 | a 2-byte size prefix written for a size reads back as that size |
| HelperBytes.SizePrefixIsBeValue | contracts/script-utils/src/helper.rs:178-183 | the u16 read from a size prefix is its big-endian value |
| HelperBytes.ParseDynVecLen | contracts/script-utils/src/helper.rs:178-183 | panics unless given exactly 2 bytes; otherwise the u16 those bytes encode plus 2, at most 65537 |
| HelperBytes.U32FromSlice | contracts/script-utils/src/helper.rs:185-189 | panics unless given exactly 4 bytes; otherwise the u32 whose big-endian bytes they are |
| HelperBytes.U64FromSlice | contracts/script-utils/src/helper.rs:191-195 | panics unless given exactly 8 bytes; otherwise the u64 whose big-endian bytes they are |
| HelperBytes.ReadersInvertEncoding | contracts/script-utils/src/helper.rs:178-195 | each reader returns the number whose encoding it is given |
| HelperBytes.Slice | nervos/contracts/script-utils/src/class.rs:64 | a range slice panics exactly when the range is out of bounds, and otherwise is the bytes in that range |
| HelperBytes.UsizeLeBytesInjective | contracts/nft-type/src/entry.rs:117 | distinct output indices feed distinct 8-byte little-endian encodings to blake2b |
| HelperBytes.CheckedDynField | nervos/contracts/script-utils/src/class.rs:45-59 | a size-prefixed field whose length is checked against the buffer: succeeds exactly when the field plus the next 2-byte prefix fit, never panics, then the field (prefix included) is the bytes at that position |
| HelperBytes.UncheckedDynField | nervos/contracts/script-utils/src/class.rs:61-64 | the last size-prefixed field of a record: panics exactly when its declared size runs past the buffer, otherwise is the bytes at that position |
| HelperBytes.CheckedDynFieldReads | nervos/contracts/script-utils/src/class.rs:45-59 | a well-formed field at a position, with room for the next prefix, is exactly what the checked read returns |
| HelperBytes.UncheckedDynFieldReads | nervos/contracts/script-utils/src/class.rs:61-64 | a well-formed field at a position is exactly what the unchecked read returns |
| HelperBytes.EncodeDyn | nervos/contracts/script-utils/src/class.rs:45-64 | the encoding of a field is its 2-byte size followed by the content, and is a well-formed field |
| ClassCell.FromData | nervos/contracts/script-utils/src/class.rs:33-73 | fewer than 13 bytes is ClassDataInvalid; a nonzero version is VersionInvalid; no other error is possible; a decoded record has version 0 |
| ClassCell.DecodedLayout | nervos/contracts/script-utils/src/class.rs:43-64 | in a decoded record, the cost is bytes 1..9 big-endian; name, description and metadata hash are well-formed fields laid end to end after byte 9 |
| ClassCell.DecodesLayout | nervos/contracts/script-utils/src/class.rs:33-73 | the converse: data laid out that way decodes to exactly that record |
| ClassCell.Outcomes | nervos/contracts/script-utils/src/class.rs:45-64 | for a well-versioned buffer: ClassDataInvalid exactly when name or description plus the next size prefix do not fit; a panic exactly when the metadata hash does not fit |
| ClassCell.AbortsWhenMetaOverruns | nervos/contracts/script-utils/src/class.rs:61-64 | when both checked fields fit but the metadata hash's declared size runs past the buffer, decoding panics |
| ClassCell.OverrunExample | nervos/contracts/script-utils/src/class.rs:61-64 | the 15-byte buffer with empty name and description and a metadata prefix claiming one byte panics |
| ClassCell.EncodeLayout | nervos/contracts/script-utils/src/class.rs:33-73 | an encoding holds version 0, the cost and the three fields end to end |
| ClassCell.RoundTrip | nervos/contracts/script-utils/src/class.rs:33-73 | decoding an encoding, followed by any trailing bytes, returns every field |
| ClassCell.TruncatedPrefixes | nervos/contracts/script-utils/src/class.rs:45-63 | an encoding cut short still holds every size prefix that lies before the cut |
| ClassCell.TruncatedInMeta | nervos/contracts/script-utils/src/class.rs:61-64 | an encoding cut inside the metadata hash panics |
| ClassCell.TruncatedBeforeMeta | nervos/contracts/script-utils/src/class.rs:45-58 | an encoding cut between byte 13 and the end of the metadata hash's prefix is ClassDataInvalid |
| ClassCell.Truncated | nervos/contracts/script-utils/src/class.rs:33-73 | any strict prefix of an encoding is ClassDataInvalid up to the metadata hash's size prefix, and panics after it |
| ClassCell.MutableFieldsIgnored | nervos/contracts/script-utils/src/class.rs:75-77 | version, cost and metadata hash may change without breaking immutable_equal |
| ClassCell.ImmutableEqual | nervos/contracts/script-utils/src/class.rs:75-77 | two classes are immutably equal exactly when they coincide once version, cost and metadata hash are taken from the second |
| ClassCell.ImmutableEqualIsEquivalence | nervos/contracts/script-utils/src/class.rs:75-77 | immutable_equal is reflexive, symmetric and transitive |
| IssuerCell.FromData | contracts/script-utils/src/issuer.rs:21-42 | fewer than 7 bytes is IssuerDataInvalid; a nonzero version is VersionInvalid; a well-versioned buffer is IssuerDataInvalid exactly when it is shorter than 5 bytes plus the name field; never panics; a decoded record's class count is bytes 1..5 big-endian |
| IssuerCell.RoundTrip | contracts/script-utils/src/issuer.rs:21-42 | decoding an encoding, with any trailing bytes, returns version 0 and the class count |
| IssuerCell.Truncated | contracts/script-utils/src/issuer.rs:21-42 | every strict prefix of an encoding is IssuerDataInvalid |
| MetadataCell.FromData | nervos/contracts/script-utils/src/metadata.rs:22-43 | fewer than 4 bytes is MetadataDataInvalid, the only error; a decoded record's name and data are well-formed fields laid end to end from byte 0 |
| MetadataCell.Outcomes | nervos/contracts/script-utils/src/metadata.rs:27-37 | MetadataDataInvalid exactly when the name plus the data's size prefix do not fit; a panic exactly when the data does not fit |
| MetadataCell.OverrunExample | nervos/contracts/script-utils/src/metadata.rs:35-37 | an empty name followed by a data prefix claiming one byte panics |
| MetadataCell.RoundTrip | nervos/contracts/script-utils/src/metadata.rs:22-43 | decoding an encoding, with any trailing bytes, returns both fields |
| MetadataCell.Truncated | nervos/contracts/script-utils/src/metadata.rs:22-43 | a strict prefix of an encoding is MetadataDataInvalid until the data's size prefix is complete, and panics after it |
| MetadataCell.DataIsMutable | nervos/contracts/script-utils/src/metadata.rs:44-46 | the data field may change without breaking immutable_equal |
| MetadataCell.ImmutableEqual | nervos/contracts/script-utils/src/metadata.rs:44-46 | two records are immutably equal exactly when they coincide once the data is taken from the second |
| MetadataCell.ImmutableEqualIsEquivalence | nervos/contracts/script-utils/src/metadata.rs:44-46 | immutable_equal is an equivalence |
| NftCell.FromData | nervos-scripts/script-utils/src/nft.rs:21-35 | fewer than 3 bytes is NFTDataInvalid; a nonzero version is VersionInvalid; no other error; a decoded record has version 0 and its data field is the well-formed field at byte 1 |
| NftCell.AbortIffDataOverruns | nervos-scripts/script-utils/src/nft.rs:31-32 | decoding panics exactly when a well-versioned buffer of at least 3 bytes is shorter than its data field's declared size |
| NftCell.OverrunExample | nervos-scripts/script-utils/src/nft.rs:31-32 | the buffer `0 0 5` panics |
| NftCell.RoundTrip | nervos-scripts/script-utils/src/nft.rs:21-35 | decoding an encoding, with any trailing bytes, returns version 0 and the content |
| NftCell.Truncated | nervos-scripts/script-utils/src/nft.rs:21-35 | a strict prefix of an encoding is NFTDataInvalid below 3 bytes and panics from there on |
| NftValidator.ValidateImmutableNftFields | contracts/nft-type/src/entry/validator.rs:6-14 | succeeds exactly when data and version agree; a data change is NFTDataNotSame (checked first), otherwise a version change is NFTVersionNotSame; never panics |
| NftValidator.AcceptsExactlyUnchanged | contracts/nft-type/src/entry/validator.rs:6-14 | the validator accepts exactly the pairs of equal records |
| Helper.Position | contracts/script-utils/src/helper.rs:85-88 | `Iterator::position`: None exactly when no element satisfies the predicate, else the first index that does |
| Helper.Count | contracts/script-utils/src/helper.rs:73-77 | `filter(..).count()`: at most the length, zero exactly when no element satisfies the predicate |
| Helper.CountAppend | contracts/script-utils/src/helper.rs:73-77 | counting over a concatenation adds the counts of the parts |
| Helper.CountAtLeastTwo | contracts/script-utils/src/helper.rs:73-77 | two distinct satisfying positions make the count at least two |
| Helper.CountCellsByType | contracts/script-utils/src/helper.rs:58-77 | counts the cells with a type script satisfying the predicate (cells without a type never count); zero exactly when there is none |
| Helper.ParseTypeOpt | contracts/script-utils/src/helper.rs:58-63 | a cell without a type script never satisfies a type predicate |
| Helper.UntypedCellNotCounted | contracts/script-utils/src/helper.rs:58-63 | removing a cell without a type script leaves the count unchanged |
| Helper.CountCellsByTypeAtLeastTwo | contracts/script-utils/src/helper.rs:73-77 | two distinct matching cells make the count at least two |
| Helper.CountCellsByTypeHash | contracts/script-utils/src/helper.rs:79-83 | counts the cells whose type hash satisfies the predicate; zero exactly when there is none |
| Helper.LoadOutputIndexByType | contracts/script-utils/src/helper.rs:85-88 | None exactly when no output has this exact type; else the first output that does |
| Helper.LoadCellDataByType | contracts/script-utils/src/helper.rs:90-97 | None exactly when no cell's type matches; else the data of the first matching cell, empty if that load fails |
| Helper.DataOrEmpty | contracts/script-utils/src/helper.rs:96 | the cell's data when it loads, otherwise the empty vector |
| Helper.LoadCellDataByTypeHash | contracts/script-utils/src/helper.rs:113-120 | the same, selecting by type hash |
| Helper.PaymentLockScript | contracts/script-utils/src/helper.rs:100-104 | the payment lock: the deployed payment code hash and args with hash type `type` |
| Helper.LoadPaymentCellCapacity | contracts/script-utils/src/helper.rs:99-111 | InvalidPaymentLockScript exactly when no output carries the payment lock; else the capacity of the first output that does |
| Helper.LoadClassType | contracts/script-utils/src/helper.rs:65-71 | the class type script: the class code hash, hash type `type`, and the first 24 bytes of the NFT args |
| Helper.LoadClassTypeByPrefix | contracts/script-utils/src/helper.rs:65-71 | two NFT args name the same class type exactly when their first 24 bytes agree |
| Helper.ParseTypeArgsId | contracts/script-utils/src/helper.rs:47-56 | panics when the start lies past the args; an id exactly when exactly 4 bytes follow the start, and then it is their big-endian value |
| Helper.OutputTypeArgsId | contracts/script-utils/src/helper.rs:122-130 | one output's contribution: nothing unless its type matches; panics when its type matches but its args are shorter than the start; otherwise at most one id, read from that output, and exactly the id held in its args when they end four bytes after the start |
| Helper.LoadOutputTypeArgsIds | contracts/script-utils/src/helper.rs:122-130 | never an error code, only ids or a panic; which ids is stated by LoadOutputTypeArgsIdsExact |
| Helper.LoadOutputTypeArgsIdsAborts | contracts/script-utils/src/helper.rs:122-130 | panics exactly when some matching output's args are shorter than the start |
| Helper.LoadOutputTypeArgsIdsAtMostMatches | contracts/script-utils/src/helper.rs:122-130 | no more ids are collected than there are matching outputs |
| Helper.LoadOutputTypeArgsIdsStep | contracts/script-utils/src/helper.rs:122-130 | the collection is the first output's ids followed by the rest's, and a panic in either is a panic of the whole |
| Helper.LoadOutputTypeArgsIdsSources | contracts/script-utils/src/helper.rs:122-130 | every collected id is the 4-byte tail of some matching output's args |
| Helper.LoadOutputTypeArgsIdsAppend | contracts/script-utils/src/helper.rs:122-130 | collecting over two runs of outputs concatenates the two collections, in output order |
| Helper.ArgsId | contracts/script-utils/src/helper.rs:47-56 | the u32 whose big-endian bytes are the four args bytes after the start |
| Helper.LoadOutputTypeArgsIdsExact | contracts/script-utils/src/helper.rs:122-130 | a collection that does not panic is exactly, in output order, the ids held by the matching outputs whose args end four bytes after the start (the reference MatchingIds): none dropped, none added |
| Helper.MatchingIdsKeep | contracts/script-utils/src/helper.rs:122-130 | the id of any matching output with four bytes after the start is among the reference ids |
| Helper.LoadOutputTypeArgsIdsKeeps | contracts/script-utils/src/helper.rs:122-130 | the keep direction: a non-panicking collection holds the id of every matching output with four bytes after the start |
| Helper.CheckGroupInputWitnessIsNoneWithType | contracts/script-utils/src/helper.rs:161-176 | Encoding exactly when no input has this type; otherwise whether the witness of the first input sharing that input's lock lacks a lock (a missing witness counts as lacking one) |
| Helper.WitnessIndexUnique | contracts/script-utils/src/helper.rs:169-171 | the witness inspected is determined by the lock alone |
| Helper.SharesFirstLock | contracts/script-utils/src/helper.rs:147-149 | the first cell dep and the first input exist and have the same lock |
| Helper.CellDepHasSameIssuerId | contracts/script-utils/src/helper.rs:132-137 | a cell dep without a type script is never the issuer; a match needs a 20-byte issuer id |
| Helper.CellDepsAndInputsHaveIssuerOrClassLock | contracts/script-utils/src/helper.rs:146-159 | IndexOutOfBound exactly when there is no cell dep or no input; false when the two first locks differ; with equal locks, a panic exactly when the args are under 20 bytes, or under 24 bytes and the issuer check fails; true exactly when the locks agree and the cell dep carries the issuer's type hash prefix or is the NFT's class cell |
| Helper.LoadGroupCellData | nervos/contracts/issuer-type/src/entry.rs:15-17 | the data of the group's first cell: None when the group is empty |
| NftType.CheckClassType | contracts/nft-type/src/entry.rs:30-33 | a script is of the NFT's class exactly when it has the class code hash, hash type `type` and the first 24 bytes of the NFT args |
| NftType.CheckNftType | contracts/nft-type/src/entry.rs:35-44 | a script of an NFT of the same class has at least the 24-byte class prefix and shares the NFT's 20-byte issuer prefix |
| NftType.CheckIssuerType | contracts/nft-type/src/entry.rs:76-85 | a script of an NFT of the same issuer has args long enough to name a class |
| NftType.ClassImpliesIssuer | contracts/nft-type/src/entry.rs:35-85 | a script of the NFT's class is also a script of its issuer, and the NFT's own type is of both |
| NftType.GetCellOutputIndexByType | contracts/nft-type/src/entry.rs:46-59 | Encoding exactly when no output has the NFT type; else the index of the first output that does |
| NftType.GetCellOccupiedCapacityByType | contracts/nft-type/src/entry.rs:61-74 | panics exactly when no output has the type; else the occupied capacity of the first output that does |
| NftType.Unwrap | contracts/nft-type/src/entry.rs:152 | `unwrap` panics exactly on None |
| NftType.LoadNftData | contracts/nft-type/src/entry.rs:87-89 | the data of the group's first cell, or NFTDataInvalid when there is none or its load fails |
| NftType.ClassNftCount | contracts/nft-type/src/entry.rs:35-44 | counts the cells holding any NFT of this class; zero exactly when there is none |
| NftType.ParseNftAction | contracts/nft-type/src/entry.rs:91-106 | Create exactly when no input holds an NFT of the class; Destroy exactly for one input and no output; Update exactly for equal nonzero counts; otherwise NFTCellsCountError |
| NftType.CreateIffNoClassInput | contracts/nft-type/src/entry.rs:91-106 | a transaction spending a cell of this very NFT type is never classified as a creation |
| NftType.ClassDepCount | contracts/nft-type/src/entry.rs:146-149 | the number of cell deps holding the NFT's class cell; zero exactly when there is none |
| NftType.ClassDepData | contracts/nft-type/src/entry.rs:152 | the class cell's data is found exactly when the class cell is among the cell deps |
| NftType.ClassDepOf | contracts/nft-type/src/entry.rs:146-152 | ClassCellsCountError unless exactly one class cell dep; a decoded class has version 0; errors are only ClassCellsCountError, ClassDataInvalid or VersionInvalid |
| NftType.MintAt | contracts/nft-type/src/entry.rs:136-158 | one loop turn: outputs outside the issuer add nothing; a minted output succeeds exactly when its class resolves, adding that class's cost in shannons and the occupied capacity of the first output of its exact type |
| NftType.MintsUpTo | contracts/nft-type/src/entry.rs:136-158 | the turns for the first k outputs, one per output |
| NftType.MintsUpToAt | contracts/nft-type/src/entry.rs:136-158 | the i-th element of that sequence is the turn of output i |
| NftType.Mints | contracts/nft-type/src/entry.rs:136-158 | one turn per output of the transaction |
| NftType.AddMint | contracts/nft-type/src/entry.rs:155-156 | the two u64 additions: they panic exactly when either sum reaches 2^64; otherwise they give the sums |
| NftType.FoldMints | contracts/nft-type/src/entry.rs:139-158 | any error the loop returns is the error of one of its turns |
| NftType.FoldMintsIsExact | contracts/nft-type/src/entry.rs:139-158 | the u64 loop succeeds exactly when every turn succeeds and neither exact sum reaches 2^64, and then returns the exact sums |
| NftType.FoldMintsFailurePersists | contracts/nft-type/src/entry.rs:147-149 | once a prefix of turns has failed, later turns do not change the outcome (the loop returns early) |
| NftType.MintTally | contracts/nft-type/src/entry.rs:136-158 | the loop's only errors are ClassCellsCountError, ClassDataInvalid and VersionInvalid |
| NftType.MintTallyIsExactSum | contracts/nft-type/src/entry.rs:136-158 | the loop succeeds exactly when every minted output's class resolves and neither total reaches 2^64, and then its totals are the exact sums of the class costs in shannons and of the occupied capacities |
| NftType.MintTurn | contracts/nft-type/src/entry.rs:142-156 | the body of one loop turn computes that output's turn |
| NftType.TallyMintedOutputs | contracts/nft-type/src/entry.rs:136-158 | the `for` loop with its two u64 accumulators computes the fold of all turns |
| NftType.CheckCreatedIdentity | contracts/nft-type/src/entry.rs:109-125 | IndexOutOfBound without a first input; on success the NFT's digest is blake2b of the first input's transaction hash and the little-endian index of the first output of this type, and that match is necessary and sufficient; never panics |
| NftType.CheckVersionWithClass | contracts/nft-type/src/entry.rs:127-133 | never NFTVersionNotSameWithClass; succeeds exactly when both the NFT record and the class cell load and decode; panics exactly when a decode panics or no class cell dep exists |
| NftType.CheckPayment | contracts/nft-type/src/entry.rs:160-166 | succeeds exactly when the payment output exists and occupied ≤ total cost ≤ payment + occupied; panics exactly when the subtraction underflows |
| NftType.CreationOutcome | contracts/nft-type/src/entry.rs:108-169 | handle_creation never returns NFTVersionNotSameWithClass |
| NftType.HandleCreation | contracts/nft-type/src/entry.rs:108-169 | the step-by-step handler computes the creation outcome |
| NftType.CreationAccepted | contracts/nft-type/src/entry.rs:108-169 | an accepted creation: the first output of this type carries the expected digest; every minted NFT has exactly one class cell dep; the payment output exists; payment + occupied capacity covers the total class cost, which is at least the occupied capacity |
| NftType.CreationAcceptedWhen | contracts/nft-type/src/entry.rs:108-169 | the converse: the committed digest, a decodable NFT record and class record, a decodable single class cell dep for every minted NFT, u64-sized sums and a covering payment make the creation succeed |
| NftType.HandleUpdate | contracts/nft-type/src/entry.rs:171-187 | succeeds exactly when the witness check says false and the first group input and output hold the same well-formed NFT record; a witness without a lock is GroupInputWitnessNoneError |
| NftType.HandleDestroying | contracts/nft-type/src/entry.rs:189-196 | succeeds exactly when the witness check says false; otherwise GroupInputWitnessNoneError or Encoding |
| NftType.ScriptMain | contracts/nft-type/src/entry.rs:198-210 | args not 56 bytes long are TypeArgsInvalid; otherwise dispatches on the classification to the matching handler, or NFTCellsCountError |
| IssuerType.IssuerCellCount | nervos/contracts/issuer-type/src/entry.rs:19-32 | counts the cells of exactly this issuer type; zero exactly when there is none |
| IssuerType.IssuerCellUnique | nervos/contracts/issuer-type/src/entry.rs:19-32 | a count of one names a single cell |
| IssuerType.ParseIssuerAction | nervos/contracts/issuer-type/src/entry.rs:19-32 | Create exactly for (0 in, 1 out), Update for (1, 1), Destroy for (1, 0); otherwise IssuerCellsCountError |
| IssuerType.LoadIssuerData | nervos/contracts/issuer-type/src/entry.rs:15-17 | the first group cell's data, or IssuerDataInvalid when it is missing or fails to load |
| IssuerType.LoadIssuer | nervos/contracts/issuer-type/src/entry.rs:59 | never panics; its errors are IssuerDataInvalid or VersionInvalid; succeeds exactly when the data loads and decodes |
| IssuerType.CreatedIdentity | nervos/contracts/issuer-type/src/entry.rs:35-46 | an identity is only established with a first input and 20-byte args |
| IssuerType.HandleCreation | nervos/contracts/issuer-type/src/entry.rs:34-52 | succeeds exactly when the args are the first 20 bytes of blake2b over the first input's previous output and the new issuer decodes to version 0 with no class; IndexOutOfBound without a first input, TypeArgsInvalid for wrong args, IssuerClassCountError for a nonzero count; never panics |
| IssuerType.CreationAcceptsNewIssuer | nervos/contracts/issuer-type/src/entry.rs:34-52 | a new issuer cell holding an encoded record with no class, after the correct args, is accepted |
| IssuerType.HandleUpdate | nervos/contracts/issuer-type/src/entry.rs:54-66 | succeeds exactly when the witness check says false, both records load and the class count does not decrease; a decrease is IssuerClassCountError; never panics |
| IssuerType.HandleDestroying | nervos/contracts/issuer-type/src/entry.rs:68-78 | succeeds exactly when the witness check says false and the issuer counts no class; a nonzero count is IssuerCellCannotDestroyed |
| IssuerType.ScriptMain | nervos/contracts/issuer-type/src/entry.rs:80-92 | args not 20 bytes long are TypeArgsInvalid; otherwise dispatches on the classification; never panics |
| MetadataType.MetadataCellCount | nervos/contracts/metadata/src/entry.rs:19-32 | counts the cells of exactly this metadata type; zero exactly when there is none |
| MetadataType.MetadataCellUnique | nervos/contracts/metadata/src/entry.rs:19-32 | a count of one names a single cell |
| MetadataType.ParseMetadataAction | nervos/contracts/metadata/src/entry.rs:19-32 | Create for (0, 1), Update for (1, 1), Destroy for (1, 0); otherwise MetadataCellsCountError |
| MetadataType.LoadMetadataData | nervos/contracts/metadata/src/entry.rs:15-17 | the first group cell's data, or MetadataDataInvalid |
| MetadataType.LoadMetadata | nervos/contracts/metadata/src/entry.rs:57 | the only error is MetadataDataInvalid; succeeds exactly when the data loads and decodes; panics exactly when the decoder does |
| MetadataType.CreatedIdentity | nervos/contracts/metadata/src/entry.rs:35-46 | an identity is only established with a first input and 20-byte args |
| MetadataType.HandleCreation | nervos/contracts/metadata/src/entry.rs:34-50 | succeeds exactly when the args are the first-input digest and the new record decodes; IndexOutOfBound and TypeArgsInvalid as for the issuer |
| MetadataType.CreationAcceptsEncoded | nervos/contracts/metadata/src/entry.rs:34-50 | any encoded record, after the correct args, is accepted |
| MetadataType.HandleUpdate | nervos/contracts/metadata/src/entry.rs:52-64 | succeeds exactly when the witness check says false, both records decode and the names are equal; a renamed record is MetadataImmutableFieldsNotSame |
| MetadataType.UpdateAcceptsNewData | nervos/contracts/metadata/src/entry.rs:52-64 | an update keeping the name accepts any new data |
| MetadataType.HandleDestroying | nervos/contracts/metadata/src/entry.rs:66-72 | succeeds exactly when the witness check says false |
| MetadataType.ScriptMain | nervos/contracts/metadata/src/entry.rs:74-86 | args not 20 bytes long are TypeArgsInvalid; otherwise dispatches on the classification |

## Behaviour of the code worth noting

The model follows the code in each case:

- **Payment underflow.** The comment at contracts/nft-type/src/entry.rs:163 says the check makes sure the cost of all minted NFTs is sent to the seller. The check computes `total_cost - minted_nfts_total_occupied_capacity` in u64 (contracts/nft-type/src/entry.rs:164), which panics when the occupied capacity exceeds the cost. For example, minting under a class of cost 0 always panics. `NftType.CheckPayment` states this: it panics exactly when the subtraction underflows.
- **Class cost overflow.** `class_data.cost * 100000000` and the two `+=` are u64 operations that panic on overflow. `NftType.AddMint` and `NftType.MintTallyIsExactSum` state exactly when this happens.
- **Version check.** The version check at contracts/nft-type/src/entry.rs:131 can never fail: both decoders reject every version but 0, so NFTVersionNotSameWithClass is unreachable (`NftType.CheckVersionWithClass`). The test data in tests/src/nft_tests.rs uses version bytes 1 and 2, which these decoders reject with VersionInvalid.
- **Metadata size prefix.** The metadata record's doc comment (nervos/contracts/script-utils/src/metadata.rs:14) gives `data` a u32 size, but the parser reads a u16 prefix, as for every other field.
- **Issuer name check.** The issuer decoder checks `len < name_len + FIXED_LEN`. That is, it checks that the name fits, without room for anything after it.
- **Unchecked last fields.** The last field of the class, metadata and NFT records is sliced without any length check, so a size prefix that runs past the end panics. It is not reported as an error code.
- **Classification.** NFT classification counts cells of any NFT of the same class (the first 24 bytes of the type args). Zero such inputs is a creation whatever the outputs hold.

## Left out

- Molecule encoding of scripts, out points and witnesses: the host hands over decoded values. An out point index is kept as its packed bytes.
- blake2b and the type-hash function: parameters of the model, not implemented.
- Syscalls and `QueryIter`: the transaction is an immutable value. The running script is a parameter rather than the result of `load_script`. The first input's previous output is a field, with no link to the inputs list.
- Syscall failures when loading capacities, occupied capacities, locks and types do not occur in the model. The source maps a failed capacity load to Encoding (contracts/script-utils/src/helper.rs:109-110), and that path is not modelled. Data and witness loads can fail: they are `Option`s.
- `copy_from_slice` into fixed buffers is modelled only by its panic on a length mismatch.
- `Helper.LoadClassType`: the source slices `nft_args[0..24]`, which panics on shorter args. The model requires 24 bytes instead. Every call in the model meets this: the nft-type callers run after the 56-byte args check, and `Helper.CellDepsAndInputsHaveIssuerOrClassLock` panics on shorter args before it calls.
- The class type script (contracts/class-type/src/main.rs), the tests and the polyjuice JavaScript deployment files are not part of this model.
- The deployed code hashes and payment args are kept in `Helper.DEPLOYED`, but every function takes the configuration as a parameter.
