# AmiSnap in Dafny

AmiSnap is a content-addressed backup tool for classic Amiga systems: a repository engine in
portable C, an independent reader in Python, and an LZ4 codec. This project models its core and
proves what the core is for.

* **The repository as a step machine** (`Backend`, `Repo`, `Safety`, `RepoWriter`, `Snapshot`,
  `SnapshotMain`, `Prune`, `PruneProofs`, `Paths`, `Restore`, `RestoreRun`, `RestoreMain`,
  `RoundTrip`, `SafePaths`, `Reuse`, `Garbage`, `Machine`, `Simulation`, `Index`, `SnapIds`,
  `Hex`). The state is a map from keys to bytes, the lock among them. Every operation may fail
  before or after it took effect; a ghost history records the store after each one, so "at
  every point" covers a crash between any two operations. `Machine` interleaves the single
  steps of any number of SNAPSHOT and PRUNE runs, with crashes; `Simulation` shows that the
  methods of `SnapshotMain` and `PruneProofs` are runs of it, store by store. Beside safety the
  methods say when they succeed: on a backend that does not fail, a snapshot records every file
  that is sure to be, a prune ends in exactly the pruned store, a restore writes every file.
* **Incremental snapshots** (`Incremental`, `History`, `StampReuse`, `ArchiveBit`): a source
  that is written to, archive bits that writes clear and runs set, runs that commit or are cut
  short, prunes; when an incremental snapshot is what a full one would have been, and a history
  in which it is not.
* **The LZ4 block codec** (`Lz4Format`, `Lz4Copy`, `Lz4Decoder`, `Lz4Encoding`, `Lz4Search`,
  `Lz4Compressor`, `Lz4Greedy`, `Lz4Bytes`, `Lz4Reader`) on real arrays: over-wide copies, the
  two-stage shortcut, the correction tables, an unreliable hash table; against a byte-at-a-time
  decoder and a greedy parse.
* **Frames and encryption** (`Frame`, `RepoCrypto`).
* **The streaming HTTP response parser** (`HttpSpec`, `HttpParser`, `HttpNumbers`,
  `HttpRoundTrip`, `HttpResponses`), a class whose loop turns are proved against a
  one-byte-at-a-time machine.
* **The TLV and manifest codec** (`Bytes`, `Tlv`, `Meta`, `Records`, `Manifest`,
  `ManifestProofs`, `Reencode`), its bytes as the format document has them (`FormatBytes`), and
  the Python reader as a second implementation (`ManifestReader`).
* **Excludes and the directory walk** (`Letters`, `Glob`, `GlobCase`, `Exclude`,
  `ExcludeLines`, `Scan`, `ScanOrder`, `ScanReach`, `MetaStamps`).
* **Streaming hashes** (`Blake2s`, `Sha256`, `HashCalls`), **the calendar and the .uaem codec**
  (`Calendar`, `Uaem`) and **the directory backend's put** (`BackendDir`).

Loops, buffers and records that the program updates in place are methods, arrays and classes
here, proved against specification functions; the properties are lemmas about those functions.
`dafny verify dfyconfig.toml` checks everything.

## Results that are not plain confirmations

* The C decoder accepts a match of offset zero and fills with zeros; the Python reader refuses
  it (`Lz4Reader.ZeroOffsetIsAccepted`). They agree exactly when no offset is zero
  (`Lz4Reader.DecodersAgree`), and the compressor never writes one.
* The wildcard matcher tests for a literal before it tests for a star, so a star in the subject
  uses up the pattern's star. It is right about a subject, whatever the pattern, if and only if
  the subject holds no star (`Glob.RightWithoutStars`).
* The Python parser refuses some manifests the C decoder accepts; the exact condition is
  `ManifestReader.ReadersAgree`.
* KEEP_LAST keeps the right number of snapshots if and only if at most 1024 were listed or
  nothing had to go (`SnapIds.KeepLastCount`).
* In manifest order the metadata pass would lose directory stamps
  (`MetaStamps.ForwardPassLosesStamps`); in reverse order it keeps them all.
* An incremental snapshot trusts a datestamp and a length together with the archive bit, and a
  run sets that bit before it commits. So a file written x, backed up, written y and then z
  under x's stamp and length is taken for x by the run after one that was aborted
  (`StampReuse.ZIsTakenForX`), even if each write moved the stamp
  (`StampReuse.MovingIsNotEnough`). For a set of file versions no history goes wrong if and
  only if stamp and length tell them apart (`StampReuse.StampsDecide`). The bit alone is enough
  when only committed runs set it and each run goes by the last snapshot
  (`ArchiveBit.BitIsEnough`).
* Under NOARCHIVEBIT, described as never setting the archive bit, a run sets it on exactly the
  recorded files of at most 256 KiB (`Reuse.ShortFilesAreMarked`); the model follows the code
  (src/cli/main.c:857 against the comment at line 621).

## Assumptions, all of them parameters or hypotheses

* Hash, keystream, keyed hash, compression functions of BLAKE2s and SHA-256, xxHash32 and
  DEFLATE are function parameters; DEFLATE is an inverse pair, the repository hash has 32
  bytes.
* The hash does not collide on the contents that occur in the runs considered
  (`Safety.NoCollision`), a hypothesis about those contents only.
* A put is atomic; `BackendDir` derives it for the directory backend from its file-system
  steps.
* A listing returns the names present when it starts.
* Files hold still while a run reads them. That a path which carries a datestamp again at the
  same length holds the same bytes (`Incremental.StampsTell`) is a hypothesis where it is used;
  `StampReuse.StampsDecide` shows that it cannot be weakened.

## Model

| member | source | states |
|---|---|---|
| Lz4Format.ReadVarIsReadExt | src/core/lz4.c:1979-2014 | the bounded length reader never changes a value, it only rejects: it equals the unbounded one exactly when that ends within the limit |
| Lz4Decoder.ReadVariableLength | src/core/lz4.c:1979-2014 | the loop reads a length, or fails exactly when it would pass the limit or starts past it with the initial check asked for |
| Lz4Decoder.ExtBack | src/core/lz4.c:474-475 | going back any whole number of periods reads the byte an endless overlapping match puts there, which is why the corrected distances are right |
| Lz4Decoder.SafeDistance | src/core/lz4.c:474-475 | both tables together give a distance of at least 8 that is a multiple of the offset and less than 9 above it |
| Lz4Decoder.CopyFirst8Short | src/core/lz4.c:2406-2414 | four bytes one at a time and four from the table's position are the first eight bytes of the match; nothing after them is written |
| Lz4Decoder.CopyMatchSafe | src/core/lz4.c:2387-2434 | the main match copy, tail and wild copy included, is the byte-by-byte overlapping copy; fails exactly when it would reach the last five bytes; never writes past the capacity |
| Lz4Decoder.CopyMatch18 | src/core/lz4.c:2240-2256 | the shortcut's 18-byte copy gives every match of at most 18 bytes and touches at most 18 |
| Lz4Decoder.WildCopyPeriod | src/core/lz4.c:465-472 | the 8-byte copy loop, overshoot included, continues the endless match |
| Lz4Decoder.DecodeLiterals | src/core/lz4.c:2228-2341 | literals of one turn, by the 16-byte copy, a wild copy or the exact final copy, are the block's bytes; the error cases are exactly those of the parsing rules |
| Lz4Decoder.DecodeMatch | src/core/lz4.c:2236-2434 | match of one turn equals the byte-by-byte copy, on both paths; refused exactly when the rules say so |
| Lz4Decoder.DecompressSafe | src/core/lz4.c:2213-2445 | for every block and capacity: accepts exactly what the specification accepts, with the same bytes, and writes nothing past the capacity |
| Lz4Format.SafeSeqIsParseSeq | src/core/lz4.c:2228-2262 | a turn the safe loop accepts parses as the plain format says, shortcut or not |
| Lz4Format.SafeDecodeIsDecode | src/core/lz4.c:2213-2445 | whatever the C decoder accepts is what the byte-at-a-time decoder gives |
| Lz4Bytes.SequenceIsRead | src/core/lz4.c:2213-2262 | a sequence written byte by byte as the block format has it, wherever it stands in a block, is read as its literals, its offset and its length |
| Lz4Bytes.BlockDecodes | src/core/lz4.c:2213-2445 | whatever sequences a block is written from, the byte-at-a-time decoder gives what they say, every byte of a match being the one at its offset before it |
| Lz4Compressor.Count | src/core/lz4.c:680-703 | word, four-, two- and one-byte steps find exactly the length of the common run up to the limit |
| Lz4Compressor.RepeatIsCopy | src/core/lz4.c:1166-1183 | a run that repeats the bytes d before it is what a match of offset d decodes to |
| Lz4Compressor.FindMatch | src/core/lz4.c:1040-1100 | the search of the hash table: a position that repeats four bytes within reach is found where it is first probed, nothing is reported only when no probe hits, and a hit recurs for four bytes at a distance in 1..65535, at least 12 bytes before the end, for any hash and any earlier table contents |
| Lz4Greedy.SearchIsFirst | src/core/lz4.c:1040-1100 | the search ends at the first of its probes whose slot holds an earlier place with the same four bytes within reach, and finds nothing only when no probe that leaves room for the next has one |
| Lz4Compressor.CatchUp | src/core/lz4.c:1104-1109 | extending backwards keeps the repeat and stays after the anchor |
| Lz4Compressor.EncodeLiterals | src/core/lz4.c:1111-1136 | token, length and literals as the format has them, nothing before them changed, wild copy included |
| Lz4Compressor.WriteMatchLength | src/core/lz4.c:1212-1225 | lengths written four 255s at a time, on top of what was there, read back as that length |
| Lz4Compressor.EncodeMatch | src/core/lz4.c:1154-1225 | offset and length complete the sequence whose literals are in place |
| Lz4Compressor.TestNext | src/core/lz4.c:1235-1295 | the test at the next position hits if and only if its slot holds an earlier place with the same four bytes within reach, and the table keeps both positions |
| Lz4Compressor.EncodeChain | src/core/lz4.c:1111-1295 | sequences written one after the other cover the input from the anchor on and decode to it |
| Lz4Compressor.EncodeLast | src/core/lz4.c:1302-1333 | the closing run completes a block within the bound |
| Lz4Compressor.Compress | src/core/lz4.c:930-1338 | for every input of 1 to 0x7E000000 bytes and every hash: the block is the greedy parse of the input, decodes byte at a time to it, the C decoder takes it in exactly that room, offsets are in 1..65535, no match starts in the last 11 bytes, the last 5 are literals, size and every write stay within n + n/255 + 16 |
| Lz4Greedy.RunsBlock | src/core/lz4.c:930-1338 | an input made of k runs of at least 13 bytes, under a hash that depends on the eight bytes at a place only, compresses to at most 5k + n/255 + 6 bytes; n equal bytes are one run |
| Lz4Encoding.BlockSafelyDecodes | src/core/lz4.c:2228-2434 | sequences written under the end-of-block rules, and closing literals, are accepted by the C decoder given exactly the room they need |
| Lz4Encoding.RulesMeanNoZeroOffset | src/core/lz4.c:1154-1163 | a block that obeys the rules never shows a decoder a zero offset |
| Lz4Encoding.EncodedSize | src/core/lz4.h:214-215 | sequences cost at most one byte in 255 more than they cover, which gives the bound |
| Lz4Reader.ReaderDecompress | tools/amisnap_reader.py:787-835 | the Python loop, with its checks in its order, computes the reader's result for a declared size |
| Lz4Reader.DecodersAgree | tools/amisnap_reader.py:787-835 | on what the C decoder accepts with k bytes the Python decoder gives the same k bytes if and only if no offset is zero |
| Lz4Reader.ZeroOffsetIsAccepted | src/core/lz4.c:2403-2420 | a block with a zero offset that the C decoder takes as zeros and Python refuses |
| Lz4Reader.ReaderTakesCompressed | tools/amisnap_reader.py:787-835 | a block that obeys the compressor's rules is taken by the Python decoder too |
| Frame.CompressDefault | src/core/lz4.c:1472-1475 | with the table type its length asks for, the result fits the bound and decodes to the input |
| Frame.FrameEncode | src/core/compress.c:36-103 | a frame decodes to its content and is never longer than the content and a header; the compressed form is kept exactly when it is shorter; fails exactly for an unknown algorithm or an input over LZ4's limit |
| Frame.RunsShrink | src/core/compress.c:49-69 | asked for LZ4, an input of runs is kept compressed |
| FormatBytes.FrameAsDocumented | docs/format.md:147-161 | byte for byte: algorithm 0 is stored, 1 LZ4, 2 zlib, then the plain size in eight bytes, then the payload; each is read exactly when it gives that size, anything else is refused |
| Frame.FrameDecodeInto | src/core/compress.c:105-174 | the decoder, with the real LZ4 decoder inside, equals the specified one, errors included |
| Frame.FrameRoundTrip | src/core/compress.c:18-34 | header and payload of each algorithm decode to the content |
| RepoCrypto.EncryptFrame | src/core/repo_crypto.c:77-88 | nonce, ciphertext and code in the caller's buffer, nothing after them touched |
| RepoCrypto.DecryptFrame | src/core/repo_crypto.c:90-112 | the C steps are the specified opening: too short, wrong code, or the plain bytes |
| RepoCrypto.CtEq | src/core/repo_crypto.c:69-75 | accumulating differences without an early exit decides equality |
| RepoCrypto.SealThenOpen | src/core/repo_crypto.c:77-112 | opening a sealed frame gives the plain bytes back |
| FormatBytes.SealAsDocumented | docs/format.md:330-338 | byte for byte: twelve bytes of nonce, the plain bytes under the keystream, sixteen of the keyed hash of both |
| RepoCrypto.OpensIffSealed | src/core/repo_crypto.c:90-112 | a frame opens to a text if and only if sealing that text under the frame's nonce makes that frame |
| RepoCrypto.WrapThenUnwrap | src/core/repo_crypto.c:114-162 | unwrapping a wrapped key gives the key; a wrapped key has 60 bytes |
| HttpParser.ParseU64 | src/core/http.c:114-127 | the value of the leading digits, or failure exactly when it does not fit 64 bits |
| HttpParser.ParseHex64 | src/core/http.c:129-148 | the same in base 16; what the digits say is `HttpNumbers.SizeIsRead` |
| HttpNumbers.SizeIsRead | src/core/http.c:129-148 | a size line is read as n if and only if it begins with digits 0-9, a-f or A-F, each in either case and with any zeros in front, that show n, and no digit follows them |
| HttpNumbers.HexRoundTrip | src/core/http.c:129-148 | whatever case each digit is written in, the digits of a size read back as the size |
| HttpParser.HttpResponse.PopulateHeaders | src/core/http.c:157-220 | the indexed header lines, framing fields and error are those of the block |
| HttpParser.HttpResponse.TakeLine | src/core/http.c:229-251 | consumes at least one byte; reading on from there is reading byte by byte |
| HttpParser.HttpResponse.HandleLine | src/core/http.c:270-413 | every line state's effect, in the fields and the outcome |
| HttpParser.HttpResponse.BodyTurn | src/core/http.c:331-345 | a bulk copy of body bytes is as many single bytes, and finishes with the last outstanding one |
| HttpParser.HttpResponse.ChunkTurn | src/core/http.c:365-376 | likewise inside a chunk |
| HttpParser.HttpResponse.Turn | src/core/http.c:268-418 | every turn consumes a byte and keeps the invariant that counted states have bytes outstanding |
| HttpParser.HttpResponse.Feed | src/core/http.c:258-421 | fields and result after a feed equal those of feeding single bytes; feeding a finished response is refused; what whole responses say is `HttpResponses` |
| HttpParser.SplitInvariant | src/core/http.c:258-421 | if a neither fails nor finishes, a then b gives the same status, headers, body, state and error as a ++ b |
| HttpParser.AnyCuttingAgrees | src/core/http.c:258-421 | any cutting of the input equals the uncut feed |
| HttpRoundTrip.ChunkedRoundTrip | src/core/http.c:347-413 | chunks with arbitrary data, size lines in digits of any case with leading zeros or extensions, lines ended by CRLF or by LF alone, and trailers parse to the body; done with the last byte of the final empty line and not before |
| HttpRoundTrip.EveryCuttingRoundTrips | src/core/http.c:347-413 | for every body, every cutting into non-empty chunks and every way to write their sizes, parsing the chunked encoding restores the body exactly at the final empty line |
| HttpRoundTrip.ChunkTooLongIsRefused | src/core/http.c:378-394 | a chunk whose data goes on where its empty line should stand is refused |
| HttpRoundTrip.LengthRoundTrip | src/core/http.c:297-345 | once the header block was found to frame that many bytes, exactly they are read, and the response is done with the last |
| HttpResponses.PopulateIsBlock | src/core/http.c:157-220 | a header block says what its lines say one after the other, each by its own bytes alone |
| HttpResponses.OneFrames | src/core/http.c:157-220 | a line that frames a response does so wherever it stands among lines that say nothing of framing |
| HttpNumbers.DigitsRoundTrip | src/core/http.c:114-127 | a number in decimal reads back as the number |
| HttpResponses.FramingNames | src/core/http.c:76-91 | the names that frame a response are Content-Length and Transfer-Encoding, in any mixture of cases, and no others |
| HttpResponses.ChunkedIsNamed | src/core/http.c:93-102 | a value names the chunked coding if and only if that word is in it somewhere, in any mixture of cases |
| HttpResponses.HeadersAreKept | src/core/http.c:157-183 | names and values of the first 32 header lines are kept, in order, the spaces before a value left out |
| HttpResponses.LengthResponse | src/core/http.c:258-345 | from the first byte: a status line, any headers, a Content-Length in any case with zeros in front or spaces behind among them, lines ended by CRLF or LF, and a body of that many bytes parse to that status and body, done with the last byte and not before |
| HttpResponses.UnframedResponse | src/core/http.c:303-319 | from the first byte: a response whose headers do not frame a body is done with its head, and flagged |
| HttpResponses.ChunkedResponse | src/core/http.c:258-413 | from the first byte: a status line, any headers, a chunked Transfer-Encoding in any case among them, and the body cut into chunks in any way, the sizes in digits of any case, parse to the body, done with the final empty line and not before |
| HttpRoundTrip.UnframedIsFlagged | src/core/http.c:303-319 | without chunking, a response without any length is done at once and flagged, one with a length never is |
| HttpRoundTrip.ChunkSizeOverflowIsRefused | src/core/http.c:129-148 | a chunk size that does not fit 64 bits is refused, not wrapped |
| HttpNumbers.ContentLengthExact | src/core/http.c:184-213 | a Content-Length is taken, and as n, if and only if it is decimal digits that are n, then spaces, and n fits 64 bits and the platform |
| HttpNumbers.LengthRefused | src/core/http.c:184-213 | how it is refused: too long if and only if it is such a number below 2^64, which the platform then cannot hold, and malformed otherwise |
| HttpRoundTrip.EarlierIsNotFinished | src/core/http.c:258-421 | no beginning of an unfinished input finishes or fails |
| Tlv.GetPutBe | src/core/tlv.c:7-41 | big-endian fields read back what was put |
| Tlv.AddItem | src/core/tlv.c:80-92 | appending a field to a buffer appends that item to what the buffer encodes |
| Tlv.ItemsRoundTrip | src/core/tlv.c:58-168 | the cursor returns exactly the items written, in order, and ends cleanly, at any position in a buffer |
| Tlv.ReadItemInPrefix | src/core/tlv.c:149-168 | in a cut buffer an item is read the same or reported cut, never misread |
| Tlv.StringRoundTrip | src/core/tlv.c:120-140 | strings up to 65535 bytes come back |
| Tlv.StampRoundTrip | src/core/meta.c:38-44 | datestamps come back |
| Meta.EncodeEntry | src/core/meta.c:18-87 | the appended fields are the entry's items in order; refused exactly when a string is too long |
| Meta.DecodeEntryLoop | src/core/meta.c:89-186 | the cursor loop reports the entry, or the first bad field, then a cut, then what is missing |
| Meta.EntryRoundTrip | src/core/meta.c:18-186 | decoding an encoded entry gives it back, every field |
| Meta.CapNeverBites | src/core/meta.c:145-151 | with room for every 46 bytes still to come the content limit makes no difference |
| Meta.ScratchIsEnough | src/core/manifest.c:388-396 | vlen/46 + 1 references are always enough: a larger array gives the same result on any bytes |
| FormatBytes.EntryAsDocumented | docs/format.md:217-230 | the fields of an entry with the tags, widths and order the format document gives, as numbers |
| FormatBytes.EntryFromTheFuture | docs/format.md:50-57 | an entry with a field of an unknown tag, wherever it stands, is read as if it were not there when the tag is below 0x8000, and refused otherwise |
| Records.EncodeSnap | src/core/manifest.c:42-71 | the snap body's items in order; refused exactly when a string is too long |
| Records.EncodeVolume | src/core/manifest.c:92-126 | likewise for volumes |
| Records.DecodeSnapLoop | src/core/manifest.c:193-237 | the cursor loop computes the specified result, errors in the code's order |
| Records.DecodeVolumeLoop | src/core/manifest.c:239-289 | likewise for volumes |
| Records.SnapRoundTrip | src/core/manifest.c:42-237 | a snap record reads back as written |
| Records.VolumeRoundTrip | src/core/manifest.c:92-289 | a volume record reads back as written |
| Manifest.ManifestWriter.AddSnap | src/core/manifest.c:73-90 | accepted exactly once, first; which error otherwise; errors stick and leave the records as they were |
| Manifest.ManifestWriter.AddVolume | src/core/manifest.c:128-144 | accepted exactly after a snap record and when strings fit; errors stick |
| Manifest.ManifestWriter.AddEntry | src/core/manifest.c:146-158 | likewise, and counts entries |
| Manifest.ManifestWriter.Finish | src/core/manifest.c:160-189 | header, records and an end record with the count and the hash of all before it; the sticky or missing-snap error otherwise |
| Manifest.DecodeManifestLoop | src/core/manifest.c:320-430 | the record loop makes the specified calls and ends with the specified error, on any bytes |
| Manifest.DecodeRecord | src/core/manifest.c:346-418 | one record's effect and error, in the code's order of tests |
| ManifestProofs.ManifestRoundTrip | src/core/manifest.c:73-430 | for every well-formed run of the writer, decoding its bytes makes exactly the written calls in order and returns OK |
| FormatBytes.ManifestAsDocumented | docs/format.md:186-239 | the bytes of a whole manifest, header, records and end record, with every tag and width as a number |
| FormatBytes.UnknownRecord | src/core/manifest.c:419-421 | a record of an unknown tag is skipped below 0x8000 and refused otherwise |
| ManifestProofs.ProperPrefixIsRejected | src/core/manifest.c:336-425 | whatever the hash, every proper prefix of an accepted manifest is rejected |
| ManifestProofs.ScratchNeverDecides | src/core/manifest.c:388-396 | however large the reference array already is, calls and verdict are the same |
| ManifestProofs.AcceptedIsSealed | src/core/manifest.c:398-430 | an accepted manifest has its one snap first and ends in an end record naming its entry count and the hash of everything before |
| ManifestProofs.DecodedRefs | src/core/meta.c:145-151 | every decoded reference has a 32-byte hash |
| Reencoding.LengthOfEntry | src/core/meta.c:18-87 | the exact length of an encoded entry |
| Reencoding.DecodedEntryIsValid | src/core/meta.c:89-186 | a decoded entry fits the fields of a record, is complete, and encoded again is no longer than the bytes it was read from |
| Reencoding.DecodedIsValid | src/core/manifest.c:320-430 | whatever a manifest decodes to can be written, and a manifest that is accepted, written again, decodes to the same |
| ManifestReader.ParseManifestLoop | tools/amisnap_reader.py:592-655 | the Python record loop computes the specified parse |
| ManifestReader.EntriesAgree | tools/amisnap_reader.py:519-556 | an entry body the C decoder takes, Python reads as the same entry |
| ManifestReader.ReadersAgree | tools/amisnap_reader.py:592-655 | on what the C decoder accepts, Python accepts if and only if header flags are 0, a volume precedes the first entry and there are fewer than 2^32 entries; then both give the same snap, volumes and entries in order |
| HexNames.HexKeepsOrder | src/core/repo.c:28-41 | lower-case hex keeps the bytewise order, both ways |
| HexNames.HexIsInjective | src/core/repo.c:15-26 | different hashes have different names |
| HexNames.HexText | src/core/repo.c:15-26 | each byte is two digits 0-9 or a-f, the upper half first |
| SnapIds.IdsAreChronological | src/core/repo.c:28-41 | id order is exactly time order, and ids are equal only for equal times |
| FormatBytes.IdAsDocumented | src/core/repo.c:28-41 | an id is day, minute and tick in eight, four and four hexadecimal digits |
| SnapIds.CandidatesDiffer | src/core/repo.c:285-303 | the 65536 ids the collision loop can try are pairwise different |
| SnapIds.SortIsSorted | src/cli/main.c:433-453 | the sorted list is a sorted permutation |
| SnapIds.KeepLastIsExact | src/cli/main.c:1526-1540 | up to 1024 snapshots: each is deleted or kept, min(n, count) are kept, every deleted id is older than every kept one |
| SnapIds.KeepLastCount | src/cli/main.c:424-431 | past the limit the right number survives if and only if nothing had to go |
| RepoWriters.PickId | src/core/repo.c:282-303 | the id is the first free one of the candidates; no id only when all 65536 exist |
| Repo.ObjectKeyIsInjective | src/core/repo.c:15-26 | an object key determines the hash |
| Repo.FetchObject | src/core/repo.c:368-448 | gives what the stored bytes decrypt, unframe and check to; a miss only if the object is absent, an I/O error only if the backend failed |
| Repo.StoredThenFetched | src/core/repo.c:105-160 | plain or sealed, framed or raw, what is stored for a content fetches to it |
| Repo.FetchedIsNamed | src/core/repo.c:423-447 | what is fetched has exactly the size and hash asked for |
| Repo.OpenManifestFile | src/core/repo.c:450-515 | opening as specified: sealed manifests exactly in repositories with keys, the nonce bound to the id |
| Repo.CommittedIsRead | src/core/repo.c:307-338 | a committed manifest file opens and decodes to exactly what the writer was told |
| RepoWriters.WriteObject | src/core/repo.c:105-160 | an object already there is left alone; otherwise one is added that fetches to its content, and nothing else changes; succeeds when the backend and the encoder do |
| RepoWriters.RepoWriter.File | src/core/repo.c:162-195 | a whole file becomes one object, stored before the entry is recorded with its size, hash and checksum |
| RepoWriters.RepoWriter.WriteChunks | src/core/repo.c:217-252 | the chunk loop stores every chunk of what can be read and returns their references in order |
| RepoWriters.RepoWriter.FileChunked | src/core/repo.c:199-260 | the entry records the size actually read and the chunks' references |
| RepoWriters.ChunksSplit | src/core/repo.c:217-252 | for any chunk size the chunks put together are the file |
| RepoWriters.OneChunk | src/core/repo.c:217-252 | a file no longer than a chunk has the same single reference either way |
| RepoWriters.RepoWriter.Finish | src/core/repo.c:267-338 | the manifest goes under the first free id of the snapshot's time; at most one manifest is added, nothing overwritten, and every reference in it was already backed by an object |
| RepoWriters.CommitIsSafe | src/core/repo.c:307-338 | a commit keeps the store safe and reads back as written |
| Safety.SafeMeansFetchable | src/core/repo.c:368-448 | in a safe store every reference of every snapshot names an object that fetches to a content of exactly that hash and size |
| Safety.SafeKept | src/core/repo.c:105-160 | adding objects under their own names keeps a store safe and every snapshot as it was |
| Safety.SplitsOnce | src/core/repo.c:217-252 | references determine the file they split |
| BackendStore.Backend.List | src/core/backend.h:24-60 | the names present when the listing starts, each once; all of them unless it fails |
| SnapshotRun.AcquireLock | src/core/repo.c:595-603 | refused while the lock object is there, with nothing changed; otherwise only the lock is added |
| SnapshotRun.ReleaseLock | src/core/repo.c:605-610 | only the lock goes; releasing twice is fine |
| SnapshotRun.ListSnapshots | src/core/repo.c:345-366 | exactly the ids of the manifests present, each once |
| SnapshotRun.ResolveLatest | src/cli/main.c:462-480 | up to the listing limit the latest snapshot; not found only when there is none |
| SnapshotRun.LoadIndex | src/cli/main.c:1216-1236 | the sorted entries of that snapshot; none only if there is none, it cannot be read, or the backend fails |
| SnapshotRun.RecordedIsFull | src/cli/main.c:744-783 | if the previous references are those of the file's bytes, reuse records what reading would, but for the advisory checksum |
| SnapshotRun.FullIsValid | src/core/repo.c:199-260 | the entry of a file below 4 GiB that was read fits a record: at most 16384 chunks of 46 bytes each |
| SnapshotRun.KnownIsValid | src/cli/main.c:770-782 | so does an entry that takes over the previous references: it is no longer than the record they came from |
| SnapshotRun.OnScanned | src/cli/main.c:666-860 | what is recorded for an entry, when its archive bit is marked, what stops the scan; an intact entry is always recorded |
| SnapshotRun.OnFile | src/cli/main.c:744-858 | reuse, paranoid check or read, in the code's order |
| SnapshotRun.IndexRefsAreGood | src/cli/main.c:751-760 | everything the previous snapshot's index refers to is there, so reuse without reading is safe |
| SnapshotMain.RecordAll | src/cli/main.c:1238-1250 | the events are those of the scanned entries in order, leaving out only failed ones; none fails when nothing is wrong |
| SnapshotMain.RunSnapshot | src/cli/main.c:1093-1269 | whatever it is given within the widths of the fields: safe at every point of the run; nothing there is changed; on success one new snapshot under the first free id that reads back as recorded; on a working backend the index used is that of the latest snapshot when that can be read, and none under NOARCHIVEBIT; stores follow one another lock, objects, manifest, release; when nothing stops it every file that is sure to be recorded is, and the manifest committed unless no id is left |
| Reuse.UnchangedMeans | src/core/index.c:122-178 | exactly what counts as unchanged: the archive bit set now, all else a directory shows as it was |
| Reuse.UnchangedIsReused | src/cli/main.c:744-760 | a run over a readable latest snapshot records an examined file whose entry there is unchanged with the references it has there, whether or not the file opens and whatever happens to others |
| Reuse.MarkedIsNotReadAgain | src/cli/main.c:744-760 | a file backed up by one run, then marked and otherwise left alone, is recorded by the next with the same references even if it cannot be opened |
| Reuse.ParanoidCompares | src/cli/main.c:820-846 | under PARANOID a file that shows no change is reused when its bytes are those recorded, and a short one only when their checksum is |
| Reuse.EveryFileIsMarked | src/cli/main.c:744-858 | a run that goes by the archive bit sets it on every file it recorded, and on no others |
| Reuse.ShortFilesAreMarked | src/cli/main.c:796-858 | under NOARCHIVEBIT it is set all the same, on exactly the recorded files of at most 256 KiB |
| Index.Build | src/core/index.c:59-86 | the manifest's entries as a sorted permutation, exactly when it decodes |
| Index.Lookup | src/core/index.c:100-120 | binary search finds an entry with the path if and only if there is one |
| Incremental.PickIsFull | src/core/index.c:122-178 | when stamps tell, a recorded entry, reused or read, is the full-scan entry in every field but the advisory checksum |
| Incremental.RunIsFull | src/cli/main.c:744-783 | likewise an incremental run's manifest as a whole |
| History.ActIsTrue | src/cli/main.c:744-783 | when stamps tell, any change of the source, run or prune leaves every readable snapshot true |
| History.IncrementalIsFull | src/cli/main.c:744-783 | when stamps tell, over any history of writes, deletions, any other change of the source, committed and aborted runs and prunes, every snapshot left behind has the paths, metadata, sizes and references a full scan would have given |
| History.TakeSnapshot | src/cli/main.c:1093-1269 | what RunSnapshot promises, as one predicate on the stores before and after |
| History.BackUpDisk | src/cli/main.c:1093-1269 | a SNAPSHOT over a disk that holds still, committed or cut short, is an act of a history, whichever of the marked bits could be set |
| History.PruneStore | src/cli/main.c:1504-1543 | so is a PRUNE |
| StampReuse.ZIsTakenForX | src/core/index.c:122-178 | for any two different versions of one path with equal stamp and length, a history of writes and runs in which an aborted run leaves the bit set and the next one records the wrong references |
| StampReuse.StampsDecide | src/core/index.c:122-178 | exactly when incremental snapshots can be trusted: no history over these versions goes wrong if and only if stamp and length tell them apart, and it is the same for histories of writes and runs only |
| StampReuse.MovingIsNotEnough | src/core/index.c:138-141 | it does not help that each write moves the datestamp, when a later one moves it back |
| ArchiveBit.SkippedIsRight | src/core/index.c:131-133 | a file with its bit set that is skipped has its own references, if only runs set bits and the last snapshot is gone by |
| ArchiveBit.BitIsEnough | src/core/index.c:131-133 | when bits are set by committed runs only and each run finds the last snapshot, every snapshot is what a full scan would have given, whatever the stamps |
| Prune.HashSet.Contains | src/core/prune.c:44-52 | binary search over the sorted marks decides membership |
| Prune.Mark | src/core/prune.c:62-112 | on success the marks are exactly the names readable snapshots refer to, and every snapshot left was readable |
| Prune.SweepBuckets | src/core/prune.c:118-170 | removes only unmarked objects of two-character buckets, and on success all of them |
| Prune.SweepTmp | src/core/prune.c:172-190 | removes only what is under tmp/, and on success all of it |
| Prune.PruneExecute | src/core/prune.c:192-269 | on success exactly the pruned store, counts adding up to what went; at every point only targets, or past them only unmarked objects, are gone; with no snapshot and none deleted nothing is removed; on a working backend succeeds if and only if the survivors can be read; targets go one by one, and only when all are gone and every survivor was readable do objects go one by one |
| PruneProofs.SurvivorUnharmed | src/core/prune.c:192-269 | at any point of a prune a snapshot still there says what it said and each object it refers to is untouched |
| PruneProofs.PrunePointIsSafe | src/core/prune.c:192-269 | a prune stopped anywhere leaves a safe store |
| PruneProofs.PrunedExactly | src/core/prune.c:192-269 | what a successful prune leaves: the non-target manifests, in two-character buckets exactly the objects a survivor refers to, an empty tmp/, all unchanged |
| Garbage.GarbageGoes | src/core/prune.c:192-269 | of all the objects a writer can make, a prune leaves exactly those an entry of a snapshot that stays refers to, as they were |
| PruneProofs.RunPrune | src/cli/main.c:1504-1543 | the command: safe throughout, refused with no change while locked, targets as chosen, exactly the pruned store on success, the lock released |
| Paths.ComponentsInjective | src/core/exclude.c:180-190 | a path is determined by its components |
| Restore.EntryPathIsSafe | src/core/restore.c:74-94 | the loop accepts exactly the safe paths; which those are is `SafePaths.SafeIsOrdinary` |
| SafePaths.SafeIsOrdinary | src/core/restore.c:74-94 | a path is safe if and only if it is empty or names joined with '/', none empty, with a colon or equal to ".." |
| SafePaths.StaysInside | src/core/restore.c:53-73 | resolved from any directory, on an Amiga or on a POSIX system, a safe path never leaves that directory on the way, and it names no volume |
| SafePaths.ScanIsRestorable | src/amiga/scan.c:109-296 | however it ends, a scan of a tree of ordinary names reports only paths that are safe and fit a restore's buffer |
| Restore.SubtreeIsByComponents | src/core/restore.c:18-30 | a path is in a subtree if and only if its components begin with the subtree's |
| Restore.VerifyManifest | src/core/repo.c:524-593 | on a working backend the counts are exactly the absent and the damaged references; zero counts mean every reference is sound |
| Restore.SoundFindsNothing | src/core/repo.c:524-563 | no finding if and only if everything is sound |
| RestoreRun.RestoreFile | src/core/restore.c:105-145 | the file appears whole or not at all, with the fetched contents in order; only I/O can fail |
| RestoreRun.RestoreOne | src/core/restore.c:148-187 | what one entry does to the destination and the counters; each error's exact cause; an unsafe path is refused before anything is written |
| RestoreMain.RestoreEntries | src/core/restore.c:331-343 | the content pass writes exactly the wanted files and directories, in order |
| RestoreMain.ApplyReverse | src/core/restore.c:259-278 | metadata goes to the restored entries, last first; stops exactly when asked to |
| RestoreMain.RestoreManifest | src/core/restore.c:280-353 | if the full check fails the destination gets no operation; if it passes no object is found missing or damaged later; on working backends succeeds if and only if every wanted path is safe and fits |
| RestoreMain.RestoreUndoesSnapshot | src/core/restore.c:105-187 | with distinct paths, restoring writes exactly each file's bytes, whatever was there |
| RestoreMain.SafeSnapshotsPass | src/core/restore.c:295-315 | in a safe store the full check of a readable snapshot passes |
| RoundTrip.RunKeepsOrder | src/amiga/scan.c:109-296 | the entries of a scanned source's manifest are those recorded, in the order of the scan: paths all different, directories before what is in them |
| RoundTrip.SnapshotThenRestore | src/core/restore.c:280-353 | after a committed run over a scanned source, restoring its snapshot from any later safe store that still has it writes exactly the bytes each recorded file had, incremental references included |
| RoundTrip.StampsComeBack | src/core/restore.c:228-278 | and gives every restored entry of the scanned source, directories included, the datestamp it had |
| RoundTrip.SnapshotAndRestore | src/cli/main.c:1093-1269 | the two commands one after the other: on working backends, nothing stopping them, a scan of ordinary names is restored without an error, and only files that could not be recorded are missing; every recorded file asked for is at the destination with its bytes, every directory is there, and every entry gets its stamp and the metadata the scan showed |
| Machine.StepKeeps | src/core/repo.h:283-292 | every step of every process, crash and lock steps included, keeps the invariant |
| Machine.NothingIsEverLost | src/core/repo.c:267-338 | from a repository with at most its header in it, in every reachable state of any interleaving of snapshots, prunes and crashes every committed manifest can be read and every reference in it fetches to exactly its hash and size |
| Machine.NoSnapshotIsOverwritten | src/core/repo.c:285-303 | from state to state a committed manifest stays as it is or goes |
| Simulation.SnapshotIsARun | src/core/repo.c:267-338 | the stores a SNAPSHOT leaves behind, up to repetition, are those of a run of the machine's snapshot process: every reference of the manifest was found, the id was free, the lock was held |
| Simulation.PruneIsARun | src/core/prune.c:192-269 | likewise PRUNE: manifests deleted, every one left marked, and only unmarked objects swept |
| Simulation.NoCommandLoses | src/core/repo.c:267-338 | from a new repository on, whatever SNAPSHOT and PRUNE commands run one after the other, each killed at any point, with stale locks removed in between: at every point every manifest that is there can be read and every reference in it fetches to exactly its hash and size |
| Machine.SweepKeeps | src/core/prune.c:126-139 | sweeping an unmarked object leaves every snapshot intact |
| Glob.GlobMatchOne | src/core/exclude.c:153-175 | the backtracking loop terminates and computes the matcher's verdict |
| Glob.GlobIsMatches | src/core/exclude.c:153-175 | for a subject without a star the loop accepts exactly what the recursive meaning accepts |
| GlobCase.CaseDoesNotMatter | src/core/exclude.c:141-148 | changing the case of any letters in pattern or subject changes neither the matcher's verdict nor what the pattern means |
| GlobCase.PlainIsItself | src/core/exclude.c:141-175 | a pattern without wildcards matches exactly the subjects that differ from it only in the case of letters |
| Glob.RightWithoutStars | src/core/exclude.c:153-175 | the matcher is right about a subject for every pattern if and only if the subject has no star |
| Glob.StarMeetsStar | src/core/exclude.c:159-166 | for every subject with a star, a pattern the matcher gets wrong |
| Exclude.RewriteTokens | src/core/exclude.c:86-97 | the in-place rewriting turns every AmigaDOS token into a star, never grows, touches nothing else |
| Exclude.NormalizeRemovesTokens | src/core/exclude.c:86-97 | no token is left, and text without one is untouched |
| Exclude.ParseLineInPlace | src/core/exclude.c:45-121 | one line trimmed and rewritten in place means the specified pattern, other lines untouched |
| Exclude.Parse | src/core/exclude.c:28-128 | exactly the patterns of the text's lines, in order |
| Exclude.MatchesAnchored | src/core/exclude.c:203-220 | anchored matching is componentwise matching of equally long component lists |
| Exclude.MatchesAnyComponent | src/core/exclude.c:222-238 | matches if and only if some component does |
| Exclude.ExcludeMatch | src/core/exclude.c:240-263 | true if and only if some pattern hits |
| GlobCase.HitsInAnyCase | src/core/exclude.c:203-263 | whether a pattern hits a path does not depend on the case of any letter in either |
| GlobCase.PlainHits | src/core/exclude.c:203-263 | a pattern without wildcards hits, in any case, the one path it is when it is tied to the root, and otherwise every path with a component it is |
| ExcludeLines.LineMeans | src/core/exclude.c:45-121 | what a line says from how it is written: blanks around it and a carriage return do not count, a slash behind asks for a directory, a slash in front or inside ties it to the root |
| ExcludeLines.TokenIsStar | src/core/exclude.c:86-97 | an AmigaDOS token reads as a star where it stands, whatever is around it |
| ExcludeLines.ListMeans | src/core/exclude.c:28-128 | lines ended by line feeds give their patterns in order |
| Exclude.HitsIsMeaning | src/core/exclude.c:203-263 | for a scanned path a hit is what the pattern means, by components |
| Scan.Scanner.PathPush | src/amiga/scan.c:89-103 | the name goes behind the prefix, which stays; fails exactly when it does not fit |
| Scan.Scanner.ProcessEntry | src/amiga/scan.c:109-231 | one entry's walk in the shared path buffer, which is restored; what it reports and every counter are as specified |
| Scan.Scanner.ScanVolume | src/amiga/scan.c:298-401 | the recursive walk over one shared buffer reports exactly the specified pre-order list, with the specified counters |
| ScanOrder.WalkNodeEmits | src/amiga/scan.c:109-231 | a walk reports a beginning of the tree's list, all of it when nothing stops it |
| ScanOrder.ScanTallies | src/amiga/scan.c:171-231 | however a scan ends, directories and files were counted exactly as often as they were reported |
| ScanOrder.ScanIsOrdered | src/amiga/scan.c:109-296 | the root first, paths all different, every entry's directory reported before it, excluded and link subtrees cut whole |
| ScanReach.ScanIsReached | src/amiga/scan.c:109-296 | a scan that ends well reports the root and exactly the entries a chain of directories leads to, each open and none of the chain a link or hit by a pattern, under the names of the chain joined with '/' |
| ScanReach.ScanEnds | src/amiga/scan.c:109-296 | it ends well when every listing works, every path fits and the visitor never objects |
| MetaStamps.ReversePassKeepsStamps | src/core/restore.c:228-278 | if setting metadata dirties the parent's stamp, after the reverse pass every restored entry has its manifest stamp |
| MetaStamps.ForwardPassLosesStamps | src/core/restore.c:242-248 | in manifest order a directory ends up with the time of its child's metadata |
| Blake2s.Blake2sContext.IncrementCounter | src/core/blake2s.c:97-102 | two 32-bit words with a carry count modulo 2^64 |
| Blake2s.AbsorbInTwo | src/core/blake2s.c:154-176 | cutting a message changes nothing: what is held back goes in again before the rest |
| Blake2s.FinishIsDigest | src/core/blake2s.c:178-193 | finishing gives the digest of section 3.3 of RFC 7693: only the last block, held back even at an exact multiple of 64, has the final flag |
| HashCalls.DigestCalls | src/core/blake2s.c:136-193 | the calls of the compression function for a message: one for every 64 bytes begun and at least one, each with its bytes and zeros behind the end, the counter of bytes so far, and only the last one marked |
| Blake2s.Blake2sContext.Update | src/core/blake2s.c:154-176 | the loop takes in exactly the bytes given, for any cutting |
| Blake2s.Blake2sContext.Final | src/core/blake2s.c:178-193 | the digest of everything taken in |
| Blake2s.HashParts | src/core/blake2s.c:136-193 | keyed or not, however the message is cut, the digest is that of the key block and the message |
| Sha256.FoldInTwo | src/core/sha256.c:85-118 | folding a message in two parts is folding it whole |
| HashCalls.PaddingPads | src/core/sha256.c:120-149 | the padded message is the message, a one bit, as few zeros as fill up the last 64 bytes, and the length in bits in its last eight |
| Sha256.Sha256Context.Update | src/core/sha256.c:85-118 | topping up, whole blocks from the input and the rest keep state and buffer those of the bytes so far |
| Sha256.Sha256Context.Final | src/core/sha256.c:120-149 | the digest of the padded message, section 5.1.1 of FIPS 180-4, the length modulo 2^64 bits |
| Sha256.PaddingAfter | src/core/sha256.c:120-149 | the padding fits one last block up to 55 bytes left over, else takes two |
| Calendar.NextDayIsNext | src/amiga/applyuaem.c:41-52 | each Gregorian day's successor is the next integer, in all years, negative ones included |
| Calendar.Epoch | src/amiga/applyuaem.c:41-52 | 1970-01-01 is day 0 |
| Calendar.AmigaDaysInvertsCalendar | src/amiga/applyuaem.c:56-59 | the day count inverts the writer's calendar for every day since 1978 |
| Uaem.FlagsToProt | src/amiga/applyuaem.c:66-81 | the loop over the eight letters adds up the bits they show |
| Uaem.FlagsMean | tools/amisnap_reader.py:1019-1037 | the eight letters: h, s, p and a show when their bit is set, r, w, e and d when it is clear |
| Uaem.BitsBack | tools/amisnap_reader.py:1019-1037 | the low eight protection bits come back from the flags |
| Uaem.ParseLine | src/amiga/applyuaem.c:86-131 | accepts exactly well-formed lines and computes their fields |
| Uaem.SidecarRoundTrip | tools/amisnap_reader.py:1040-1072 | up to the year 9999, minutes below 1440 and ticks below 3000, a written line parses to the same bits, day, minute, tick and comment |
| BackendDir.TmpIsElsewhere | src/core/backend_dir.c:57-93 | a key's temporary file is never the file it is for |
| BackendDir.MkdirP | src/core/backend_dir.c:109-124 | every directory on the way and the path itself are there afterwards |
| BackendDir.PutBegin | src/core/backend_dir.c:204-240 | an empty temporary file in an existing tmp/, all else as it was |
| BackendDir.PutAppend | src/core/backend_dir.c:242-250 | the temporary file holds what was appended; nothing else is touched at any point |
| BackendDir.PutFinish | src/core/backend_dir.c:252-274 | the only step that changes the target, at once, with its directory made first; on failure the target is untouched |
| BackendDir.PutAbort | src/core/backend_dir.c:276-286 | nothing but the temporary file is touched |
| BackendDir.Put | src/core/backend_dir.c:140-196 | atomic: cut off anywhere, even inside a write, the target is as it was or complete; succeeds on a sound file system exactly when the paths fit |

## Left out

- LZ4: `LZ4_NbCommonBytes` stands for "leading bytes in common", not its bit tricks; lengths are
  unbounded, so the 32-bit overflow and pointer-wrap tests have no counterpart; dictionary, streaming, partial-decode and fast-loop variants.
- The BLAKE2s and SHA-256 compression functions and the byte order of their output words.
- Allocation failure and `SIZE_MAX` tests: buffers grow.
- Keys are split into their components instead of being strings.
- The HTTP request builder, S3 and WebDAV clients, and the platform's transport code.
- A visitor that aborts the manifest decoder.
- `qsort` is one sorted permutation, by insertion.
- In `Machine` taking the lock is one step; the methods test and then put, as the code does,
  within one process.
- INIT and REKEY, the repository header, key derivation from a passphrase.
- In SNAPSHOT: the caps-only first pass, the overlap test between source and repository,
  logging and counters; of marking a file as backed up only whether it is done.
- Snapshot ids come from the time a parameter gives; clocks are not modelled.
- SnapshotMain.RunSnapshot: is stated for metadata within the widths of its C fields and for
  files that do not change while the run reads them.
- Lz4Decoder.DecompressSafe: does not give the position a negative result encodes, because its
  callers only test the sign.
- HttpRoundTrip.LengthRoundTrip: takes what the header block says as given;
  `HttpResponses.LengthResponse` derives it from the header lines.
- History.IncrementalIsFull: leaves the checksum field out, because the fast path does not
  carry it over.
- The walk: negotiation of ExAll's level of detail, joining of paths for Lock, capabilities.
- Restore's byte counter.
- Restore.EntryPathIsSafe: judges the whole byte string of a path; where it has a NUL byte, the
  key the destination sees ends there, which is not part of this model.
- In `Simulation` the references of a manifest are found again just before it is put, where the
  code remembers them; a store left behind is the same either way.
- Uaem.ParseLine: the 512-byte line buffer of the caller is not modelled.
