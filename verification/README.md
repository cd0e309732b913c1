# Tamper-evident evidence, verified

This project models the parts of omega_evidence that make its evidence tamper-evident, and proves what
they promise: Merkle epochs over audit records, the hash-chained ledger that several writers share, the
strict JSON under both, selective-disclosure tokens, renewable preservation records, the audit-trail
chain with its close record and tombstones, the trust registry, and the ES6 number printer.

`dafny verify dfyconfig.toml` checks the whole project.

| file | what it holds |
|---|---|
| Merkle.dfy, MerkleShape.dfy, Epochs.dfy, EpochTrees.dfy | the RFC 6962 tree and audit path, the bottom-up build, the decoders; anchoring records in place and checking them against anchors |
| JsonText.dfy, JsonGrammar.dfy | UTF-16 units, numbers and values; derivation trees of RFC 8259 and what they denote |
| JsonNesting.dfy, JsonSurrogates.dfy, JsonBytes.dfy, JsonFloats.dfy, JsonKeys.dfy | the linear scanners, each against the derivation tree, over units and over UTF-8 bytes |
| JsonParser.dfy, JsonReader.dfy, JsonLiterals.dfy | what the parser reads, in both directions; the object that advances a position |
| CodePoints.dfy, JsonPrinter.dfy, JsonCanonical.dfy, JsonWriters.dfy, PrintedText.dfy | key orders, printing, the canonical form, and the two printers |
| LedgerLines.dfy, LedgerChain.dfy, LedgerBadLines.dfy, LedgerReaders.dfy, LedgerBinding.dfy | lines, the chain, its three readers, and what the last hash fixes |
| LedgerData.dfy, LedgerAppend.dfy, LedgerStore.dfy, LedgerRuns.dfy, LedgerCuts.dfy | one append, the instance over a shared file, and any interleaving of any number of instances |
| Trust.dfy | the trust registry, its replay, and the replay of the second verifier |
| SdJwtProcess.dfy, SdJwt.dfy, SdJwtVerdict.dfy | Disclosure processing; issue, present, verify |
| Preservation.dfy, PreservationProof.dfy | evidence records and their renewals |
| AatChain.dfy, AatRecorder.dfy, Es6Number.dfy, Es6Notation.dfy | the audit-trail chain; the ES6 number printer |

## How it is modelled

A digest is a free constructor over what it covers, so two digests are equal exactly when their
preimages are; only the ledger and the tokens take a hash as a parameter of which nothing but the form of
its results is known, and there a collision shows up in the statement. A signature is a free constructor
over the key and the signed segments. The clock, salts, derived identifiers, the verdict of a
time-stamping authority and the outcome of an append the ledger may refuse are inputs.

Where the code is a loop, an object that changes its fields, or a list it changes in place, the model is
one too: a method or a class, each tied by its `ensures` to a specification about which the lemmas are
proved. Some properties hold only under a condition the code does not check. They are stated as
equivalences with that condition:

- an append leaves a ledger that verifies if and only if the last line was blank and the data is one a
  reader accepts (`LedgerAppend.AppendVerifies`, `LedgerAppend.EntryPortable`);
- a replay checks everything verification does but the number of an entry (`LedgerReaders.VerifiedIsReplayedInTurn`);
- an anchored list is accepted as complete if and only if no record object stands in it twice, since the
  batch is written into the object (`Epochs.AnchoredIsAccepted`);
- a tombstone replaced again keeps the chain if and only if the next record links to the hash it carries
  (`AatChain.TombstoneIsAccepted`, with the failing case in `AatChain.AppendedBehindTombstone`);
- the last entry of a preservation record fixes the record among those of equal length, and among all of
  them unless the shorter begins with a renewal (`Preservation.LastEntryFixesAll`, `Preservation.OneLastEntryOfTwoRecords`);
- the odd-duplicating Merkle root is injective among lists of one length only (`Preservation.RootFixesLeaves`, `Preservation.OddLastCountsTwice`);
- a replay takes every well-formed record, a live registry writes fewer: a ledger is one it can have written if and
  only if each record is writable where it stands (`Trust.LiveLedgers`, `Trust.WrittenIsWritable`). So on a ledger
  written elsewhere a signer's keys stay exactly while no record binds it otherwise (`Trust.ReplayKeepsKey`,
  `Trust.ReplayKeepsPq`), and a second trust record can rebind it (`Trust.ReplayRebinds`);
- over any run of any number of ledger instances the file verifies if and only if every completed append was one a
  reader accepts, and an instance is refused the file exactly when an append it has not read is not
  (`LedgerRuns.RunsAreSafe`, `LedgerRuns.RefusedBehindUnloadable`);
- an append to a ledger another writer has cut continues the chain that is left if and only if the instance has
  arrived at the state of the file (`LedgerCuts.AppendFits`); a longer memory than the file is refused
  (`LedgerCuts.AppendsContinue`), but a file of the same size is taken as unchanged
  (`LedgerCuts.SameSizeIsNotSameFile`, `LedgerCuts.ReplacedLineGoesUnseen`);
- two linked audit-trail chains with one last record are one chain where there is no tombstone; with tombstones
  this needs the last record to be a close (`AatChain.LastRecordFixesChain`, `AatChain.CloseFixesChain`, and
  `AatChain.TombstoneHidesFront` for the case without one).

In `LedgerRuns` a run is a list of steps: an instance opens the file, takes the lock, replays what it has
not seen, begins a line, writes it in parts, counts it and syncs when that is due, gives the lock back, and
only then moves its own fields on; other instances act in between. The field updates after the lock is
given back (ledger.py:372-374) are a step of their own. Every run starts from a file that verifies and
whose last line is blank; the data of an append is whatever passes the check before a write.

The comment on the number printer (aat.py:126-129) gives 1e-7 as the lower bound of fixed notation and prints 1e-7
with an exponent; the code does the latter, and the bound proved is 1e-6.

## Model

| member | source | states |
|---|---|---|
| Merkle.FindSplit | omega_evidence/interop/aat.py:237-247 | the loop finds the split of section 2.1 of RFC 6962: the largest power of two below the number of leaves |
| Merkle.SplitIsPowerOfTwo | omega_evidence/interop/aat.py:237-247 | that split is a power of two, below n, and its double reaches n |
| Merkle.MerkleRoot | omega_evidence/interop/aat.py:237-247 | the recursive method returns the RFC 6962 tree head of every leaf list, the empty one included |
| Merkle.FindAuditPath | omega_evidence/interop/aat.py:249-260 | the recursive method returns the RFC 6962 audit path of every leaf |
| Merkle.NextLevelKeepsRoot | omega_evidence/interop/aat.py:263-272 | hashing neighbours once, promoting an odd last node, leaves the recursive root unchanged |
| Merkle.NextLevelKeepsPath | omega_evidence/interop/aat.py:275-289 | a leaf's path is its step on one level followed by its path one level up, with no step where its node was promoted |
| Merkle.NodeIsRootOfSlice | omega_evidence/interop/aat.py:263-272 | node m of level j of the bottom-up tree is the tree head of the m-th aligned slice of width 2^j |
| Merkle.MerkleLevels | omega_evidence/interop/aat.py:263-272 | for every leaf list the last level of the bottom-up build is exactly the recursive root, and the levels in between are the bottom-up tree |
| Merkle.PathThrough | omega_evidence/interop/aat.py:280-288 | one leaf's path read off the levels is its recursive audit path |
| Merkle.AuditPaths | omega_evidence/interop/aat.py:275-289 | the fast form gives the recursive audit path of every index |
| Merkle.IndexFromPath | omega_evidence/interop/aat.py:292-308 | the loop over the reversed path decodes the same index as the recursion over the tree's shape, or refuses |
| Merkle.RootFromPath | omega_evidence/interop/aat.py:311-316 | folding a path over a leaf gives the root the path claims |
| Merkle.PathIsComplete | omega_evidence/interop/aat.py:249-316 | for every list and index the path leads from the leaf to the root and decodes to that index |
| Merkle.PathIsSound | omega_evidence/interop/aat.py:292-316 | a path that decodes to index j and leads to the root of n leaves starts at leaf j and is leaf j's audit path |
| Merkle.RootFixesLeaves | omega_evidence/interop/aat.py:237-247 | leaf lists of one length with one root are equal |
| Merkle.RootFixesLeafHashes | omega_evidence/interop/aat.py:228-247 | lists of leaf hashes with one root are equal, whatever their lengths: leaves and nodes are hashed apart |
| MerkleShape.HeadOfHalves | omega_evidence/interop/aat.py:237-247 | the head of no leaves, of one, and of more: the first 2^j leaves on the left and the others on the right, for the one j with 2^j below their number and 2^(j+1) not |
| MerkleShape.SidesAreBits | omega_evidence/interop/aat.py:249-260 | in a tree of 2^m leaves every path has m steps, and a sibling stands on the left exactly where the bit of the index is set |
| Epochs.IndexAnchors | omega_evidence/interop/aat.py:693-708 | the anchor index keeps the first usable anchor of every epoch, conflicting ones skipped, and nothing is reported exactly when every anchor is usable and none conflict |
| EpochTrees.FirstAnchorCounts | omega_evidence/interop/aat.py:693-708 | an epoch is checked against the first usable anchor of its identifier |
| Epochs.CheckBatch | omega_evidence/interop/aat.py:716-751 | what is reported of one batched record is nothing exactly when its batch is well formed, its root is its anchor's, its path proves its index, and its index is below the count |
| Epochs.CheckRecord | omega_evidence/interop/aat.py:710-751 | one turn of the loop: the slot and the claim it leaves, and a report exactly when the record, or its clash with an earlier one, is not in order |
| Epochs.CheckRecords | omega_evidence/interop/aat.py:710-751 | the map of slots the loop fills, with a proven leaf winning over one without proof; nothing is reported exactly when every record stands on its own and no two claim one slot differently |
| Epochs.CheckEpoch | omega_evidence/interop/aat.py:752-771 | a complete epoch is rebuilt and compared with its anchor, an incomplete one reported or tolerated, too many leaves refused |
| Epochs.CheckClaims | omega_evidence/interop/aat.py:761-764 | exactly the records without a proof that are not the leaf of the rebuilt epoch at their index are reported |
| Epochs.EpochOkBySlots | omega_evidence/interop/aat.py:752-779 | what the slots of an epoch say decides whether the epoch is in order, stated over the records |
| Epochs.CheckSeenEpochs | omega_evidence/interop/aat.py:752-771 | the loop over epochs with records reports nothing exactly when each of them is in order |
| Epochs.ReportUnverifiable | omega_evidence/interop/aat.py:772-773 | exactly the epochs that hold records without proof and cannot be rebuilt are reported, each once |
| Epochs.ReportUnseen | omega_evidence/interop/aat.py:774-779 | with completeness asked for exactly the anchored epochs without records are reported, each once; otherwise none |
| Epochs.VerifyEpochs | omega_evidence/interop/aat.py:679-800 | the whole loop accepts exactly the declarative condition on records and anchors |
| Epochs.AcceptedRecordIsItsLeaf | omega_evidence/interop/aat.py:729-766 | when the report is clean with completeness required and the anchor holds the root and count of a leaf list, every record batched in that epoch hashes to the leaf at its index, with or without its own proof |
| Epochs.AcceptedEpochIsComplete | omega_evidence/interop/aat.py:752-779 | under the same condition every index of the leaf list is present |
| EpochTrees.AcceptedByLeaves | omega_evidence/interop/aat.py:679-800 | against anchors of known trees records are accepted if and only if each that is batched is the leaf at its index under the root of its tree, with its own audit path or none, and every epoch has all its leaves, or, where that is not asked for, only records with paths |
| Epochs.HashLeaves | omega_evidence/interop/aat.py:661-661 | the leaf hashes of records that may be exported, or a refusal when one may not |
| Epochs.PutBatches | omega_evidence/interop/aat.py:663-667 | after the in-place loop every record carries the batch of its last place in the list |
| Epochs.AnchorEpoch | omega_evidence/interop/aat.py:644-676 | anchoring in place: refusals, what each record carries afterwards, and an anchor that depends on the records' own fields only, so that anchoring again gives the same root |
| EpochTrees.AnchoredFields | omega_evidence/interop/aat.py:663-667 | what anchoring writes into each record: the epoch, the root, the index of its last place in the list, and the audit path from there |
| EpochTrees.EpochIdForm | omega_evidence/interop/aat.py:652-658 | an epoch can be anchored under exactly the identifiers of five groups of lower-case hexadecimal digits, the third beginning with 4 and the fourth with one of 8, 9, a and b |
| Epochs.AnchoredIsAccepted | omega_evidence/interop/aat.py:644-800 | what was anchored is accepted with completeness required if and only if no record object stood in the list twice |
| JsonNesting.NestingDepth | verifiers/go/prescan.go:16-40 | the one-pass scan equals its specification over the text left, bytes or UTF-16 units |
| JsonNesting.DepthScanIsDepth | verifiers/js/oeverify.mjs:83-92 | on every valid text the scan returns exactly the nesting depth of the derivation tree, whatever brackets stand in strings |
| JsonSurrogates.HasLoneSurrogate | omega_evidence/ledger.py:142-169 | the cursor loop equals its specification over the text left |
| JsonSurrogates.LoneScanIsHasLone | verifiers/js/oeverify.mjs:111-131 | on every valid text that is well-formed UTF-16 the scan reports true exactly when some decoded key or string holds an unpaired surrogate |
| JsonBytes.BytesAreUtf8 | verifiers/go/canonical.go:155-160 | the bytes the scans run over are the UTF-8 bytes of the code points (section 3 of RFC 3629) |
| JsonBytes.ScansOfBytes | verifiers/go/prescan.go:16-90 | over the UTF-8 bytes of every text, valid JSON or not, both scans tell what they tell over its UTF-16 units |
| JsonBytes.ByteScansAreRight | verifiers/java/OeVerify.java:42-73 | over the bytes of every valid text: the nesting depth of the tree, and whether a decoded string holds an unpaired surrogate |
| JsonFloats.HasFloatLexeme | verifiers/js/oeverify.mjs:96-110 | the loop over flags and indices equals its specification |
| JsonFloats.FloatScanIsHasFloat | verifiers/js/oeverify.mjs:96-110 | on every valid text the scan reports true exactly when some number has a fraction or an exponent |
| JsonKeys.HasDuplicateKeys | verifiers/js/oeverify.mjs:49-82 | the one-pass scanner with its stack equals its specification, malformed escapes read as parseInt reads them |
| JsonKeys.KeyScanIsHasDuplicate | verifiers/js/oeverify.mjs:49-82 | on every valid text the scanner reports true exactly when some object repeats a decoded key, at any depth and through any escapes |
| JsonParser.ReadsTree | verifiers/java/OeVerify.java:109-187 | every value's text is read as its value with the rest of the text left, or refused exactly when it holds a float, an integer out of range or a repeated key |
| JsonParser.ParsesDocument | verifiers/java/OeVerify.java:93-102 | a syntactically valid text is parsed to its value exactly when it lies within the profile |
| JsonParser.ParsedIsDocument | verifiers/java/OeVerify.java:93-187 | whatever is parsed has a derivation within the profile, and the value is the one that derivation denotes |
| JsonLiterals.HexDigitIsPlace | verifiers/java/OeVerify.java:80-80 | the value of a hexadecimal digit is its place among the sixteen of either case, and no other unit has one |
| JsonLiterals.HexEscapeReads | verifiers/java/OeVerify.java:161-167 | every unit but a surrogate is read from each of the sixteen spellings of its escape, and half a pair is refused |
| JsonLiterals.PairEscapeReads | verifiers/java/OeVerify.java:161-167 | two halves of a pair are read as the two units, in any mix of cases |
| JsonLiterals.ShortEscapeReads | verifiers/java/OeVerify.java:157-169 | a backslash and one character make a string in exactly eight cases, each read as its unit |
| JsonLiterals.PlainCharacterReads | verifiers/java/OeVerify.java:147-157 | a character stands for itself in a string exactly when it is no control character, quote or backslash |
| JsonLiterals.WordsRead | verifiers/java/OeVerify.java:109-120 | null, true and false are read as what they say |
| JsonLiterals.BlankReads | verifiers/java/OeVerify.java:104-108 | exactly space, tab, LF and CR may stand in front of a value |
| JsonLiterals.NumberReads | verifiers/java/OeVerify.java:172-186 | a whole number is read exactly up to 9007199254740991, with or without a minus, and minus zero is zero |
| JsonLiterals.NestedReads | verifiers/java/OeVerify.java:93-102 | arrays and objects nested in any order are read exactly up to 512 levels |
| JsonReader.Parser.Value | verifiers/java/OeVerify.java:109-120 | the method advances the position over exactly what the recursive specification reads |
| JsonReader.Parser.Object | verifiers/java/OeVerify.java:122-136 | the loop over members reads what the specification reads, repeated keys refused |
| JsonReader.Parser.Array | verifiers/java/OeVerify.java:137-146 | the loop over items reads what the specification reads |
| JsonReader.Parser.String | verifiers/java/OeVerify.java:147-171 | the fast path and the escaping loop together read what the specification reads |
| JsonReader.Parser.Escape | verifiers/java/OeVerify.java:157-168 | one escape: the unit it stands for, and how far the position moves |
| JsonReader.Parser.Number | verifiers/java/OeVerify.java:172-186 | one number: minus zero read as zero, a point or an exponent refused, the range enforced |
| JsonReader.Parse | verifiers/java/OeVerify.java:93-102 | the whole object-based parser returns what the specification parses |
| CodePoints.Utf8KeepsOrder | verifiers/go/canonical.go:155-160 | the first differing code point decides the byte order of two UTF-8 texts (section 1 of RFC 3629) |
| CodePoints.ByteOrderIsPointOrder | verifiers/go/canonical.go:155-160 | comparing UTF-8 bytes is comparing code points, for all sequences of scalars |
| CodePoints.LexLessIs | verifiers/java/OeVerify.java:190-194 | the order is decided at the first place where two texts differ, or at the end of the one that begins the other |
| CodePoints.Utf8Decodes | verifiers/go/canonical.go:155-160 | the byte forms of section 3 of RFC 3629: length, lead byte, and six bits in each byte that follows |
| CodePoints.PointsInjective | verifiers/java/OeVerify.java:190-194 | a UTF-16 text is fixed by its code points |
| CodePoints.KeyOrderIsTotal | verifiers/java/OeVerify.java:190-194 | the key order is total and strict |
| CodePoints.KeyOrderIsTransitive | verifiers/java/OeVerify.java:190-194 | the key order is transitive |
| CodePoints.CompareKeys | verifiers/java/OeVerify.java:190-194 | the comparison loop returns the sign of the key order |
| JsonPrinter.PieceFor | verifiers/java/OeVerify.java:216-229 | each unit is written as a piece that decodes to it |
| JsonLiterals.UnitPrints | verifiers/java/OeVerify.java:216-229 | each unit of a string in print: seven as one-letter escapes, printable ASCII as it is, all else as four lower-case digits |
| PrintedText.ValuesPrint | verifiers/java/OeVerify.java:197-210 | arrays and objects in print: a comma between each two, a colon behind each name, and no blank anywhere |
| JsonPrinter.PrintIsTreeText | verifiers/java/OeVerify.java:199-229 | what is printed is the text of a derivation, for every value in memory |
| JsonPrinter.TreeForDenotes | verifiers/java/OeVerify.java:199-229 | that derivation denotes the value, with its depth and surrogates, and lies in the parser's language exactly when integers are in range |
| JsonPrinter.PrintPrintable | verifiers/java/OeVerify.java:216-229 | printed text is printable ASCII only |
| JsonPrinter.PrintedIsParsed | verifiers/java/OeVerify.java:93-229 | a printed value between white space is parsed back to itself if and only if it is within the profile |
| JsonPrinter.ParsedIsPortable | verifiers/java/OeVerify.java:93-229 | whatever is parsed is within the profile, and printing and parsing it again changes nothing |
| JsonCanonical.SortKeeps | verifiers/java/OeVerify.java:205-208 | sorting keeps the members |
| JsonCanonical.SortSorts | verifiers/java/OeVerify.java:205-208 | distinct keys come out strictly in order |
| JsonCanonical.SortValueIsSame | verifiers/java/OeVerify.java:199-209 | two values have one sorted form exactly when they are equal up to the order of members at every level |
| JsonCanonical.CanonicalIsParsed | verifiers/java/OeVerify.java:93-229 | the canonical text of a profile value is parsed to its sorted form, and canonicalising that changes nothing |
| JsonCanonical.CanonicalIsInjective | verifiers/java/OeVerify.java:197-229 | two profile values have one canonical text exactly when they are equal up to the order of members |
| JsonWriters.SortByBytesIsSort | verifiers/go/canonical.go:155-160 | sorting keys by UTF-8 bytes gives the order by code points, for every list of members with paired keys |
| JsonWriters.RunesAreUnits | verifiers/go/canonical.go:179-209 | writing a string by code points, with surrogate arithmetic above the basic plane, is writing it by UTF-16 units |
| JsonWriters.Writer.Encode | verifiers/java/OeVerify.java:197-210 | the writer with the digest spill puts out exactly the canonical text, whenever it spills |
| JsonWriters.Writer.WriteString | verifiers/java/OeVerify.java:216-229 | the per-unit loop writes the string's text |
| JsonWriters.RuneWriter.Encode | verifiers/go/canonical.go:130-178 | the second writer puts out the same canonical text |
| JsonWriters.RuneWriter.WriteString | verifiers/go/canonical.go:179-209 | the per-code-point loop writes the same string text |
| LedgerLines.LinesJoin | omega_evidence/ledger.py:450-460 | the lines of two texts run together: the last line of the first goes on as the first of the second |
| LedgerBadLines.LinesAreText | omega_evidence/ledger.py:450-460 | the lines hold no LF, and with an LF between each two they are the text |
| LedgerBadLines.StripTakesBlanks | omega_evidence/ledger.py:487-491 | a line is stripped of space, tab, CR and LF at both ends, and of nothing else |
| LedgerLines.StripIsParsedAlike | verifiers/go/pack.go:275-284 | a line is parsed alike with and without the blanks around it, so the reader that strips and the one that does not agree |
| LedgerChain.NextLine | omega_evidence/ledger.py:450-460 | the line from a position on and where the next one starts, against the recursive split into lines |
| LedgerChain.CheckLine | omega_evidence/ledger.py:484-500 | one turn of the loop: the line is bad exactly when it is neither blank nor the entry due, and the state it leaves |
| LedgerChain.VerifyText | omega_evidence/ledger.py:469-501 | the verdict is true exactly when the text verifies, and the list is the first thousand bad lines |
| LedgerChain.VerifiesIsChain | omega_evidence/ledger.py:469-501 | a text verifies exactly when its non-blank lines are entries that form the declared chain: sequential idx, prev_hash and self_hash |
| LedgerChain.WalkIsLinked | omega_evidence/ledger.py:297-318 | walking lines from a state goes through exactly when every line is an entry linked to the one before, and says where it ends |
| LedgerChain.WalkText | omega_evidence/ledger.py:320-334 | behind a blank last line a text is walked on from where the walk of its first part ended, so reading only what is new is enough |
| LedgerChain.FirstBadIsFirstBreak | verifiers/go/pack.go:262-304 | the lines before any point walk through exactly when no bad line is among them: the first bad line is where the other loop stops |
| LedgerChain.BadLinesIncrease | omega_evidence/ledger.py:476-481 | bad lines are reported in strictly increasing order, each a line of the text |
| LedgerChain.NoBadIsVerified | omega_evidence/ledger.py:469-501 | the bad list is empty exactly when the text verifies |
| LedgerBadLines.ReportedLines | omega_evidence/ledger.py:484-500 | a line is reported if and only if it is not blank and not the entry due: numbered by the lines in front of it that are not blank, linked to the last self_hash carried in front of it by a good line or a bad one, and carrying its own |
| LedgerChain.IndexedIsReplayed | omega_evidence/ledger.py:297-318 | where the checking walk arrives, the replay arrives |
| LedgerReaders.ReadEntry | verifiers/go/pack.go:284-303 | one line of the second loop is good exactly when it is the entry due, with missing members read as empty strings |
| LedgerReaders.LedgerEntries | verifiers/go/pack.go:253-309 | the loop that stops at the first break returns the entries exactly of the texts that verify |
| LedgerReaders.Replay | omega_evidence/ledger.py:297-318 | the replay loop returns the state the walk without idx arrives at, or refuses |
| LedgerReaders.VerifiedIsReplayedInTurn | omega_evidence/ledger.py:297-318 | what the replay does not check: a text verifies if and only if it is replayed and its entries are numbered in turn |
| LedgerReaders.ObjectEndsText | omega_evidence/ledger.py:184-193 | behind a complete object nothing but white space can follow in a text that is parsed |
| LedgerBinding.LastHashFixesLedger | omega_evidence/ledger.py:213-217 | two verified non-empty ledgers with one last self_hash have the same number of entries, pairwise equal up to key order, unless two of their contents collide |
| LedgerBinding.SameLink | omega_evidence/ledger.py:213-217 | entries of one content carry one idx and one prev_hash |
| LedgerAppend.CheckedIsWellFormed | omega_evidence/ledger.py:196-210 | data that passes the check before an append is well formed, and only keys can still hold an unpaired surrogate |
| LedgerData.TakenData | omega_evidence/ledger.py:196-210 | an append takes data exactly when every number in it lies within 2^53 - 1 and every string value has its surrogates paired, at any depth |
| LedgerData.LoneIs | omega_evidence/ledger.py:196-210 | a text holds an unpaired surrogate exactly where one stands without its neighbour |
| LedgerAppend.EntryFollows | omega_evidence/ledger.py:377-383 | the entry made is the one due, and its hash covers everything but itself |
| PrintedText.LineIs | omega_evidence/ledger.py:377-383 | the line of an entry, member by member, without blanks, and its LF |
| PrintedText.CoveredText | omega_evidence/ledger.py:213-217 | the text self_hash covers: the other four members by name, the data in canonical form |
| LedgerAppend.EntryPortable | omega_evidence/ledger.py:377-383 | the written entry is within the acceptance profile if and only if the data is at most 511 deep, no key holds an unpaired surrogate and idx is in range: the three things the check leaves out |
| LedgerAppend.AppendVerifies | omega_evidence/ledger.py:336-383 | behind any verified text, the text after an append verifies if and only if its last line was blank and the entry is one a reader accepts |
| LedgerAppend.AppendRunsOn | omega_evidence/ledger.py:336-383 | behind a last line that is not blank an append always breaks the ledger: no LF is inserted |
| LedgerAppend.CutLineVerifies | omega_evidence/ledger.py:223-231 | a line cut anywhere by a power loss verifies only when nothing of the entry is left, or all of it but the LF |
| LedgerStore.Ledger.constructor | omega_evidence/ledger.py:241-253 | a new instance before its first read: batch size at least one, empty state |
| LedgerStore.Ledger.Load | omega_evidence/ledger.py:281-294 | reading the whole file: refused exactly when it is no chain, nothing changed then |
| LedgerStore.Ledger.Resync | omega_evidence/ledger.py:320-334 | only the unseen part is replayed; a shorter file or a broken continuation is refused and changes nothing |
| LedgerStore.Ledger.EntryLocked | omega_evidence/ledger.py:377-383 | the entry hashed with an empty hash in place, and its line |
| LedgerStore.Ledger.Write | omega_evidence/ledger.py:347-369 | a line is appended, and synced at once or when the batch is full |
| LedgerStore.Ledger.Append | omega_evidence/ledger.py:336-375 | the whole append: what it returns, the file, the instance and what is on disk afterwards, and that a refusal changes nothing |
| LedgerStore.Ledger.FlushLocked | omega_evidence/ledger.py:268-272 | pending appends are synced, nothing otherwise |
| LedgerStore.Ledger.Close | omega_evidence/ledger.py:274-279 | closing syncs what is pending and gives up the handle |
| LedgerRuns.RenderedWalks | omega_evidence/ledger.py:336-383 | what any series of appends writes is walked through if and only if each of them is one a reader accepts, and then leaves the state the series leaves |
| LedgerRuns.ResyncDecides | omega_evidence/ledger.py:320-334 | bringing an instance that describes any prefix up to date succeeds if and only if every append it has not read is one a reader accepts, and leaves it describing the whole file |
| LedgerRuns.StepKeeps | omega_evidence/ledger.py:296-383 | every step of every instance (open, lock, resync, begin, write a part, sync, unlock, update, flush) keeps the invariant |
| LedgerRuns.RunKeeps | omega_evidence/ledger.py:296-383 | every run keeps it |
| LedgerRuns.RunsAreSafe | omega_evidence/ledger.py:296-383 | over any interleaving of any number of instances, whenever the lock is free: the file is the first text and one line per completed append; it verifies if and only if every one of them is one a reader accepts, and its entries are then the earlier ones followed by one per append |
| LedgerRuns.EntriesForAt | omega_evidence/ledger.py:377-383 | the k-th of those entries carries the k-th datum, its time and the next idx |
| LedgerRuns.InstancesAreSafe | omega_evidence/ledger.py:223-231 | over any run each instance describes a prefix of the file, a batch instance has at most batch_size-1 appends not on disk, a sync instance none |
| LedgerRuns.RefusedBehindUnloadable | omega_evidence/ledger.py:320-334 | over any run an instance that holds the lock is refused the file if and only if some append it has not read is not one a reader accepts; never, when all are |
| LedgerRuns.AppendIsRun | omega_evidence/ledger.py:336-375 | an append of the object is the run lock, resync, begin, write, sync when due, unlock, update: file, instance and mark of what is on disk come out alike, and a refusal leaves all as it was |
| LedgerCuts.AppendFits | omega_evidence/ledger.py:336-383 | an append to a file that verifies leaves one that does if and only if the last line is blank, the data is one a reader accepts, and the state the instance has arrived at is that of the file |
| LedgerCuts.AppendsContinue | omega_evidence/ledger.py:320-375 | over any run in which another writer cuts the file at any place between appends: an append by an instance that has read more than is left changes nothing, and one by an instance all of whose lines are left is taken exactly when the file is replayed, and writes the entry due |
| LedgerCuts.CarefulRunsVerify | omega_evidence/ledger.py:320-375 | with cuts at line ends, data a reader accepts and appends by instances all of whose lines are left, the file verifies at every moment |
| LedgerCuts.SameSizeIsNotSameFile | omega_evidence/ledger.py:324-326 | a file of the size an instance has read is taken as unchanged: with another last hash in it, the append breaks the ledger |
| LedgerCuts.ReplacedLineGoesUnseen | omega_evidence/ledger.py:324-326 | so it is when a line was cut off and one of the same length was appended in its place |
| LedgerRuns.CrashLeaves | omega_evidence/ledger.py:223-231 | the file cut inside any line verifies if and only if no entry is left in part |
| Trust.TrustRegistry.ApplyRecord | omega_evidence/trust.py:79-105 | one record of the ledger into the state, or a broken store |
| Trust.TrustRegistry.Load | omega_evidence/trust.py:61-71 | the state of a ledger that is already there, or a broken store |
| Trust.TrustRegistry.Trust | omega_evidence/trust.py:107-129 | the call leaves exactly the next registry of the specification, and what it answers |
| Trust.TrustRegistry.Rotate | omega_evidence/trust.py:131-154 | the same for rotation, with the post-quantum key kept, replaced or dropped |
| Trust.TrustRegistry.Revoke | omega_evidence/trust.py:161-169 | the same for revocation |
| Trust.NameIsStripped | omega_evidence/trust.py:73-77 | a name or key is one exactly when it is not empty and stripping blanks at both ends changes nothing |
| Trust.PqWasPinned | omega_evidence/trust.py:107-173 | over every history from an empty registry, the key pq_pubkey tells is K if and only if a taken trust or rotate call named K and every taken call about that signer since either named K again or is a rotation that names none and drops none |
| Trust.LiveIsReplayed | omega_evidence/trust.py:79-173 | after any calls, accepted or refused, replaying the ledger gives the live state |
| Trust.KeyChangesOnlyByRotate | omega_evidence/trust.py:107-173 | without a rotation of a signer its classical key stays and a revocation stays |
| Trust.RevokedIsUntrusted | omega_evidence/trust.py:161-173 | a revoked signer is trusted under no key until a rotation |
| Trust.PqGoesOnlyByDropping | omega_evidence/trust.py:131-154 | a pinned post-quantum key is removed only by a rotation that drops it, and replaced only by a rotation |
| Trust.TrustedWasBound | omega_evidence/trust.py:107-173 | over every history from an empty registry, a signer is trusted under a key if and only if a taken trust or rotate call bound it to that key and no taken call about it since revokes it or binds another |
| Trust.WrittenIsWritable | omega_evidence/trust.py:107-169 | a record is one that some call on this state writes if and only if it is writable: names without blanks at either end, a trust record only for a new signer or to add a post-quantum key to the key already bound, a rotation's post-quantum key given or kept, a revocation of a known signer only |
| Trust.LiveLedgers | omega_evidence/trust.py:79-173 | a ledger is one that some history of a live registry writes if and only if each of its records is replayed and writable on the state before it |
| Trust.ReplayedByStates | omega_evidence/trust.py:61-105 | a ledger is replayed to a state if and only if there are states from the empty one to it, each the outcome of one record |
| Trust.ReplayedUnlessBroken | omega_evidence/trust.py:79-105 | a ledger is replayed if and only if no record is malformed: no object, or one of the three actions without signer or key, or with a post-quantum key that is none; a record of another action is passed over |
| Trust.ReplayKeepsKey | omega_evidence/trust.py:79-105 | on every ledger that is replayed, between any two places a signer's classical key stays if and only if no record in between binds it to another: a rotation, or a trust record while it is not revoked |
| Trust.ReplayKeepsPq | omega_evidence/trust.py:79-105 | the same for the post-quantum key, pinned or absent |
| Trust.ReplayKeepsRevoked | omega_evidence/trust.py:79-105 | on every ledger that is replayed a revoked signer stays revoked exactly as long as no record rotates it |
| Trust.ReplayRebinds | omega_evidence/trust.py:93-100 | the gap between the two: a second trust record under any key, without a post-quantum key, is replayed, rebinds the signer and drops its pin, and no history of a live registry writes that ledger |
| Trust.GoApply | verifiers/go/pack.go:335-364 | one record of the second verifier's replay |
| Trust.GoTrustState | verifiers/go/pack.go:329-366 | the second verifier accepts the same ledgers and pins the same keys |
| SdJwtProcess.Take | omega_evidence/interop/sdjwt.py:214-226 | a digest is met at most once, and each Disclosure found leaves fewer to find: the first part of the termination measure |
| SdJwtProcess.Process | omega_evidence/interop/sdjwt.py:228-259 | processing terminates for every map from digests to Disclosures, also one whose Disclosures name one another; the digests met only grow |
| SdJwtProcess.ProcessGrows | omega_evidence/interop/sdjwt.py:205-263 | the digests met are exactly those standing in the value and in every Disclosure used |
| SdJwtProcess.EveryDisclosureOnce | omega_evidence/interop/sdjwt.py:205-263 | on acceptance every Disclosure was used exactly once, and in the payload and all the Disclosures together no digest stands twice |
| SdJwtProcess.PlainIsKept | omega_evidence/interop/sdjwt.py:87-100 | processing is the identity on every value whose names the issuer allows |
| SdJwtVerdict.ArrayIsOpened | omega_evidence/interop/sdjwt.py:248-258 | in an array every element comes out in its place, one behind a digest when its Disclosure is there, and a digest that stands twice is refused |
| SdJwtVerdict.NoMarkerIsKept | omega_evidence/interop/sdjwt.py:250-258 | an element that names a digest beside something else, or names no string, is an object like any other |
| SdJwtVerdict.ProcessedIsBare | omega_evidence/interop/sdjwt.py:228-259 | what comes out names nothing twice in any object and lists no digest at any depth |
| SdJwtProcess.Processor.TakeDigest | omega_evidence/interop/sdjwt.py:214-226 | the method over the two sets agrees with the specification |
| SdJwtProcess.Processor.ProcessNode | omega_evidence/interop/sdjwt.py:228-259 | the recursive method that changes the two sets returns what the specification says |
| SdJwt.Issue | omega_evidence/interop/sdjwt.py:103-127 | a token is made exactly of allowed claims, with one Disclosure per claim, or refused |
| SdJwtVerdict.IssueTakes | omega_evidence/interop/sdjwt.py:87-115 | an issuer takes exactly claims without reserved names and infinite numbers at any depth, and without a name both plain and selective |
| SdJwt.SortedHidesOrder | omega_evidence/interop/sdjwt.py:120-120 | the digests are listed in order, none lost or added, and two lists of digests come out alike if and only if they hold the same ones |
| SdJwt.IssuedHidesOrder | omega_evidence/interop/sdjwt.py:103-127 | the signed part does not depend on the order in which the claims were given |
| SdJwt.KeepDisclosures | omega_evidence/interop/sdjwt.py:141-145 | exactly the Disclosures of the named claims are kept, in order |
| SdJwt.Present | omega_evidence/interop/sdjwt.py:137-146 | the signed part is untouched; an unreadable Disclosure fails the presentation |
| SdJwtVerdict.HolderKeeps | omega_evidence/interop/sdjwt.py:137-146 | a presentation fails exactly when some segment has nothing at place 1, and keeps exactly those with one of the names there, in their order |
| SdJwt.IssuedIsPresented | omega_evidence/interop/sdjwt.py:137-146 | an issued token can be presented if and only if no claim is nested too deep to be read back |
| SdJwt.CollectByDigest | omega_evidence/interop/sdjwt.py:205-210 | the map of Disclosures by digest, refused when one digest stands for two |
| SdJwt.VerifyToken | omega_evidence/interop/sdjwt.py:180-277 | the verification with its sets agrees with the specification |
| SdJwtVerdict.VerifiedIsSigned | omega_evidence/interop/sdjwt.py:186-204 | a verified token carries the signature its key makes over exactly its header and its payload, with EdDSA for its alg and no digest algorithm but sha-256 |
| SdJwtVerdict.OthersTokenIsRefused | omega_evidence/interop/sdjwt.py:197-199 | a token without a signature, signed under another key, or with one segment changed is never verified |
| SdJwtVerdict.PlainTokenVerifies | omega_evidence/interop/sdjwt.py:186-277 | a token without digests is verified exactly when signed with its key under EdDSA, within depth and in time, with or without naming sha-256, and reads as its payload |
| SdJwtVerdict.VerdictIs | omega_evidence/interop/sdjwt.py:260-277 | the plain, disclosed and undisclosed parts of a verdict, read off payload and segments; exp lies ahead and nbf does not |
| SdJwtVerdict.AcceptedIsBare | omega_evidence/interop/sdjwt.py:186-263 | what is accepted ends in an empty segment and has no other, presents no Disclosure twice, and each is a salt with a claim or an element |
| SdJwt.RepeatedIsRefused | omega_evidence/interop/sdjwt.py:214-217 | a payload that lists a digest twice is never accepted |
| SdJwt.PresentationVerifies | omega_evidence/interop/sdjwt.py:87-277 | issue, present any names, verify: accepted if and only if the payload can be read back, no two digests are one and exp and nbf hold; then the processed payload is the plain claims and the named ones, and the undisclosed digests are those of the rest |
| SdJwt.HolderAddsNothing | omega_evidence/interop/sdjwt.py:137-277 | whatever segments a holder puts behind an issued signed part: refused, or a presented and an issued Disclosure that differ have one digest, or the verdict is the one on the issued Disclosures of some of the claims |
| Preservation.MerkleRoot | omega_evidence/preservation.py:77-91 | the loop that duplicates odd nodes returns the recursive root |
| Preservation.RootFixesLeaves | omega_evidence/preservation.py:77-91 | leaf lists of one length with one root are equal |
| Preservation.OddLastCountsTwice | omega_evidence/preservation.py:77-91 | of different lengths they need not be: every odd list of more than one leaf shares its root with the list that has its last leaf twice |
| PreservationProof.RootOfHalves | omega_evidence/preservation.py:77-91 | the root of a full tree is the digest of the roots of its two halves in their order |
| Preservation.EvidenceRecord.Build | omega_evidence/preservation.py:127-139 | a built record is sealed over its packs, or refused |
| Preservation.EvidenceRecord.RenewTimestamp | omega_evidence/preservation.py:147-158 | a timestamp renewal appends the entry that binds the previous one, and seals again |
| Preservation.EvidenceRecord.RenewHashTree | omega_evidence/preservation.py:161-186 | a hash-tree renewal appends the entry that binds the whole chain, and seals again |
| Preservation.EvidenceRecord.Verify | omega_evidence/preservation.py:225-304 | the layered verifier accepts exactly the records that are what they must be |
| PreservationProof.ValidIs | omega_evidence/preservation.py:225-304 | a record is valid if and only if its digest, the packs given, the first entry, every renewal, every algorithm and every declared token are as they must be, said of the fields |
| PreservationProof.RefusedIs | omega_evidence/preservation.py:147-175 | a renewal is refused exactly when there is nothing to renew, the algorithm is not known, or the packs are not the data objects in their order |
| PreservationProof.RenewalHolds | omega_evidence/preservation.py:147-186 | what a renewal adds: the next number, its kind, the algorithm, time and date as given, behind the entries there were |
| PreservationProof.BuiltHolds | omega_evidence/preservation.py:127-139 | a new record holds one entry, numbered zero, and is valid when its token is not refused over the root |
| Preservation.EvidenceRecord.CheckRenewal | omega_evidence/preservation.py:258-274 | one renewal passes exactly when it binds the entries before it |
| Preservation.EvidenceRecord.CheckTime | omega_evidence/preservation.py:276-300 | an asserted time is skipped, a declared token that is missing or refused fails |
| Preservation.RenewedIsValid | omega_evidence/preservation.py:147-304 | after a renewal a record is valid if and only if its packs, chain and times were and the new time is |
| Preservation.RenewalsStayValid | omega_evidence/preservation.py:127-186 | a valid record stays valid under any renewals with asserted times |
| PreservationProof.RenewedStaysValid | omega_evidence/preservation.py:147-186 | a renewal keeps a valid record valid when its token is not refused over what it binds: the entry before it, or the new root |
| Preservation.LastEntryFixesAll | omega_evidence/preservation.py:258-274 | two records that pass the chain checks and share the last entry are equal when they have equally many entries, data objects included; otherwise the shorter is the end of the longer and begins with a renewal |
| Preservation.OneLastEntryOfTwoRecords | omega_evidence/preservation.py:250-274 | that other case exists: the number of an entry is not checked |
| AatChain.ClosedIsAccepted | omega_evidence/interop/aat.py:564-596 | a chain with its close record is accepted if and only if it is linked, not closed yet, and the close's id is new; so the close carries the session_hash the verifier recomputes |
| AatRecorder.CloseHolds | omega_evidence/interop/aat.py:564-596 | what a close holds: the number of records with itself, the whole milliseconds since the first, its time to the millisecond, its links |
| AatRecorder.CloseIsMade | omega_evidence/interop/aat.py:569-577 | a linked chain can be closed unless the time given, to the millisecond, is before its last record |
| AatRecorder.TombstoneHolds | omega_evidence/interop/aat.py:599-640 | what a tombstone keeps of its record and what it holds instead |
| AatChain.TombstoneIsAccepted | omega_evidence/interop/aat.py:599-640 | with a tombstone in a record's place the chain is accepted if and only if the deletion, cut to the millisecond, is not before the record, and a tombstone replaced again was linked to by the hash it carries |
| AatChain.DeletionsAreAccepted | omega_evidence/interop/aat.py:599-640 | any deletions of any records, repeatedly, keep the chain accepted: links, answers to calls, and the close's hash |
| AatChain.AppendedBehindTombstone | omega_evidence/interop/aat.py:630-635 | the excluded case exists: a record appended behind a tombstone pins that tombstone |
| AatChain.LastRecordFixesTail | omega_evidence/interop/aat.py:1183-1212 | two linked chains with one last record agree on every record behind their last tombstones |
| AatChain.LastRecordFixesChain | omega_evidence/interop/aat.py:1183-1212 | two linked chains without tombstones and with one last record are equal, length included |
| AatChain.CloseFixesChain | omega_evidence/interop/aat.py:1183-1247 | two accepted chains with one close have one length and the same links, and in each place one record, a tombstone that carries the other's hash, or two tombstones that carry one |
| AatChain.TombstoneHidesFront | omega_evidence/interop/aat.py:1201-1212 | without a close that fails: a tombstone does not fix the record in front of it |
| AatChain.CheckLink | omega_evidence/interop/aat.py:1183-1212 | one link: parent, prev_hash, or the hash a tombstone carries |
| AatChain.CheckTomb | omega_evidence/interop/aat.py:1213-1234 | one tombstone against the rules for tombstones |
| AatChain.CheckEnd | omega_evidence/interop/aat.py:1235-1245 | one close against the digests collected so far |
| AatChain.CheckSeen | omega_evidence/interop/aat.py:1029-1101 | repeated ids and nonces, and answers that name no earlier call |
| AatChain.VerifyChain | omega_evidence/interop/aat.py:1026-1290 | the loop accepts exactly the declared chains, and names exactly the records against which something is to be said |
| AatChain.AcceptedByRecord | omega_evidence/interop/aat.py:1026-1290 | a chain is accepted exactly when it is not empty and nothing is to be said against any record |
| AatRecorder.FirstRecord | omega_evidence/interop/aat.py:1183-1190 | a chain of one record is linked exactly when that is a session start linked to nothing |
| AatRecorder.OneRecordMore | omega_evidence/interop/aat.py:1026-1247 | a chain with one record more is linked if and only if it was and the record fits behind it, said of its fields and those of the records in front: links, order, identifiers, answers to calls, tombstones |
| AatRecorder.AcceptedEnd | omega_evidence/interop/aat.py:1228-1245 | a linked chain is accepted if and only if its last record is no tombstone, a close stands nowhere else, and its hash is over the links of all |
| Es6Number.DigitsKeepValue | omega_evidence/interop/aat.py:139-149 | the stripped digits and the place of the point give the value of the text |
| Es6Number.PlacedKeepsValue | omega_evidence/interop/aat.py:150-159 | each of the four placements keeps the value |
| Es6Notation.NotationByValue | omega_evidence/interop/aat.py:150-160 | a number that is not zero is printed without an exponent if and only if its value lies from 1e-6 up to below 1e21, and each notation has one form, character by character |
| Es6Notation.ZeroText | omega_evidence/interop/aat.py:130-131 | zero is printed as one digit, whatever its sign |
| Es6Number.PrintedHasValue | omega_evidence/interop/aat.py:125-160 | the printed text of every decimal text that is not zero reads back as the same value |
| Es6Number.OneValueOneText | omega_evidence/interop/aat.py:125-160 | two such texts are printed alike if and only if they have one value and one sign (section 3.2.2.3 of RFC 8785) |

## Left out

- Signatures, hashes and their backends: signatures are a free constructor, hashes free constructors or parameters; curve and lattice arithmetic is not modelled.
- Collisions: where a digest is a free constructor, equal digests have equal preimages by construction, and a leaf text is never the concatenation of two digests.
- Files, pipes, FIFOs, symbolic links, size limits, exit codes and command-line grammars: input and output plumbing.
- Bytes: ledger and JSON texts are sequences of UTF-16 units, so a file's size is counted in units and malformed UTF-8 is not modelled; the scans over bytes are JsonBytes, the scans over code points are not modelled apart.
- Adjacent surrogates that a Python string holds as two separate code points: they count as a pair here, while the check before an append refuses them.
- Floats in ledger data, sets and non-string keys: the values of an append are JSON values with whole numbers.
- Failing writes, a full disk and a process that dies while it holds the lock: a run has no such step, and what a power loss leaves of a file is stated by LedgerAppend.CutLineVerifies and LedgerRuns.CrashLeaves.
- LedgerCuts.AppendsContinue: another writer cuts the file between appends, as one that takes the lock does; a cut while an append holds the lock is outside the guarantee the source declares.
- Threads of one instance: the instance's own lock is modelled by letting each instance take one append at a time.
- LedgerReaders.LedgerEntries: is stated on texts whose surrogates are paired, as every decoded UTF-8 text has them.
- Windows, NFS and writers that take no lock: outside the guarantee the source declares.
- The time-stamping tokens of epochs, the warnings and the report fields other than problems: not part of the model.
- AatChain.VerifyChain: models the links, order, answers, tombstones and close of unsigned self-recorded chains of objects; the field, vocabulary, URI, UUID, size, recording, trust-level and signature checks of the same loop are not modelled, and Epochs takes the canonical form of a record as given.
- AatChain.AcceptedByRecord: the same checks only.
- The close record's identifier: it is an input, and ClosedIsAccepted says that it must be new.
- Tokens: base64url and JSON are read as segments that either spell a value or do not; NaN and Infinity constants spell none, also when presenting. Key binding, `crit` and `aud` are the caller's in the source as well.
- Recursion limits of the Python interpreter: the depth bound of 512 is modelled, the interpreter's is not.
- Preservation: a missing algorithm counts as an unsupported one, record texts are free constructors over their fields, and the tokens' verdict is an input.
- Trust: one registry instance per store; the `since` field and the answer texts are not modelled, a record is what a replay reads of it and the reason of a live revocation is a string, and white space is that of str.strip.
- The layer-by-layer verdict of verifier.py and its copies, field mapping from omega logs, CSV export, cra.py, attestation.py, agent.py, dsse.py, ots.py and chip_registry.py: wide branching without induction, or foreign calls.
