# Taguru: verified models

Dafny models of the parts of Taguru that keep state, survive interruption or
promise agreement between two ways of computing the same thing, with proofs of
what they promise. `dafny verify dfyconfig.toml` checks everything.

| files | what they model |
|---|---|
| `Bm25*.dfy`, `Passages.dfy`, `Floats.dfy`, `Hash.dfy`, `Codec.dfy`, `Utf8.dfy` | the resident BM25 index: incremental upserts and retractions with tombstones, search and explain, the drift digests, the sidecar format |
| `Crc32c.dfy` | the CRC-32C table loop |
| `Breaker.dfy` | the provider circuit breaker |
| `Clock.dfy` | civil dates and timestamps |
| `Tail.dfy`, `Recorder.dfy`, `Matrix.dfy` | one benchmark cell: following the child's diagnostics, recording them over interrupted sessions, and the loop over cells |
| `Connectivity.dfy`, `Anchoring.dfy`, `Graph.dfy` | union-find: alias groups and the anchoring judgment, and the shape of an extracted graph |
| `Metrics.dfy`, `Rollup.dfy` | metric buckets and their roll-up into contexts, groups and the run |
| `Paging.dfy`, `ParallelMap.dfy` | ranked pages and cursors, pooled pages across contexts, and the bounded fan-out |
| `Auth.dfy`, `Reload.dfy` | the keyring, its grants, and hot reloads under every interleaving |
| `Communities.dfy`, `GroupMembers.dfy` | deriving the community-summaries artifact, and the contexts a group reaches |
| `Orders.dfy`, `Common.dfy` | sorting, byte-string order, fixed-width integers |

## How the models are made

The BM25 index is a class with the source's fields. Its meaning is a table of
rows, one for each live paragraph and one for each term a live paragraph uses,
and a naive rescan of the stored records writes the same table. Every method is
specified by what it does to the table, every answer is an answer about it, and
the sidecar is the one canonical image of it. Names are byte strings, ordered
as Rust orders `str`; lengths and frequencies are 32-bit float patterns, and
adding 1.0 repeatedly is modelled exactly, its stop at 2^24 included. The score
functions `idf` and `contribution` are parameters, and so is the addition of
scores, of which `explain` needs that adding 0.0 changes nothing.

Loops over mutable maps, buffers and cursors are methods with invariants,
proved against functions; what the source promises is proved about the
functions. Where a method and its specification use the same small function, a
lemma says what that function means without it: what a rank, a digest row, a
verdict or a counter is. Iteration over a hash map is a loop that picks any remaining key.
A mutex-guarded object is a state machine whose methods are its atomic steps,
and its theorems are about every run of steps. Input and output, clocks, child
processes and model calls appear as parameters: the bytes each read yields, the
clock readings, the exit code, the answers, and which write fails.

What a union-find's parent links mean is a ghost shape: the root of each node
and a rank that climbs along every link, which gives termination of `find` and
of the walks. The equivalence is defined apart from it, by walks along the pairs
in either direction.

## Where the code and its documentation differ

The models follow the code.

- Reloading the keyring is documented as serialized from reading the sources to
  the swap (src/auth.rs:441-455 and 592-597). The sources are read before the
  lock is taken (src/auth.rs:600 and 624), so an older read can win:
  `Reload.StaleReadWins`, with a replaced token in `Reload.ReplacedTokenLives`.
  The newest sources are armed exactly when the last reload to end had read a ring
  no caller can tell from theirs (`Reload.NewestExactly`, `Reload.NewestAfterRun`),
  so always when they did not change since it read (`Reload.UnchangedSinceLook`).
- A torn derivation is documented as leaving a manifest that honestly mismatches
  and re-derives (src/communities.rs:21-24). When it has overwritten an id that the
  old manifest lists for another fingerprint, the next run reuses the wrong summary:
  `Communities.TornRunMisleads`. `Communities.TornExactly`,
  `Communities.NextRunTrusts` and `Communities.HistoryExactly` say exactly when it
  keeps the promise, from the old manifest and the analysis alone.
- The sidecar reader is documented as refusing an image whose slots of one source
  do not ascend (src/bm25.rs:704-709). It compares neighbouring slots only, so an
  image that scatters one source's slots around another's is accepted:
  `Bm25Canon.InterleavedAccepted`. `Bm25Canon.OrderedExactly` says which accepted
  images load in order.
- A resumed benchmark cell's totals are documented as cumulative over both
  attempts (src/benchmark.rs:2743-2747). The seed counts failed ends as written
  segments, so the totals are those of the whole file exactly when no earlier
  session left a failed end in it: `Recorder.TotalsExactly`. A session whose
  child opens a segment and fails, and whose manifest entry is then lost
  (src/benchmark.rs:3824-3829), is one that did: `Recorder.TotalsOvercount`.
- An open breaker tells its caller when the next probe is allowed
  (src/breaker.rs:337-345), in seconds rounded down and at least one. An attempt
  after exactly that long is refused unless the wait was at most a second or a
  whole number of seconds: `Breaker.RetryHint`, with an input in
  `Breaker.RetryHintEarly`.

## Model

| member | source | states |
|---|---|---|
| `Bm25.Bm25Index.Empty` | src/bm25.rs:234-245 | the empty index is sound and its contents are the rescan of no record |
| `Bm25.Bm25Index.Intern` | src/bm25.rs:860-868 | a name keeps one id for good; a known name changes nothing, a new one is numbered next, and the contents stay |
| `Bm25.Bm25Index.Tombstone` | src/bm25.rs:353-370 | kills exactly the source's live paragraphs: its rows leave the contents and no other row does; answers whether there was one |
| `Bm25.CountGrams` | src/bm25.rs:300-312 | the frequencies a paragraph and its questions are filed under are the occurrence counts of its terms |
| `Bm25.Bm25Index.Append` | src/bm25.rs:314-332 | a paragraph is appended as a live slot with its postings; the counters, lists and postings agree afterwards |
| `Bm25.Bm25Index.AppendParagraph` | src/bm25.rs:297-333 | paragraph and questions taken in lockstep give the row a rescan of the record writes for it |
| `Bm25.Bm25Index.AppendRecord` | src/bm25.rs:297-333 | the record's paragraphs become exactly the rows of its rescan |
| `Bm25.Bm25Index.UpsertSource` | src/bm25.rs:277-336 | the contents become the old ones with the source's rows replaced by the record's; `changed` exactly when something live was dropped or something was appended; an empty record for an unknown source interns nothing |
| `Bm25.Bm25Index.RemoveSource` | src/bm25.rs:343-350 | the source's rows, and only they, leave the contents; `changed` exactly when there was one |
| `Bm25.Bm25Index.Build` | src/bm25.rs:249-255 | a build holds the rescan of the listed records, a later one of a name replacing an earlier |
| `Bm25.Replay` | src/bm25.rs:249-350 | after any history of upserts, removals and rebuilds the index holds exactly what a naive rescan of the current records writes |
| `Bm25Table.RescanStore` | src/bm25.rs:277-336 | storing a record replaces its source's rows in the rescan and no other row |
| `Bm25Table.RescanRetract` | src/bm25.rs:343-350 | retracting a record removes its source's rows from the rescan and no other row |
| `Bm25Table.DocMeans` | src/bm25.rs:291-332 | a row of a rescan is a stored paragraph: its index and hash, as many terms as it and its questions have, and the fold of their texts |
| `Bm25Table.UseMeans` | src/bm25.rs:291-332 | a paragraph has a row for exactly the terms that it or a question attached to it uses, with how often they do |
| `Bm25State.TombstonedTable` | src/bm25.rs:353-370 | killing a source's listed slots removes exactly its rows, though postings keep pointing at dead slots |
| `Bm25State.AppendedTable` | src/bm25.rs:314-332 | appending a slot with its postings adds exactly one paragraph's rows |
| `Bm25Query.CountersAgree` | src/bm25.rs:228-232 | the incrementally kept live count and total length are those of the live paragraphs |
| `Bm25Query.CarriersAgree` | src/bm25.rs:454-466 | the live postings of a term number the live paragraphs that carry it |
| `Bm25Query.CarriersAtMostLive` | src/bm25.rs:712-720 | a term's carriers never outnumber the live paragraphs, in every sound index, loaded ones included |
| `Bm25Search.ScoreSlots` | src/bm25.rs:449-477 | the score map holds exactly the eligible live paragraphs that carry a query term, each with the sum of its contributions in query order |
| `Bm25Search.Search` | src/bm25.rs:409-501 | the hits are the best `limit` of the paragraphs a rescan matches, whatever order the maps are walked in |
| `Bm25.Bm25Index.Search` | src/bm25.rs:409-501 | search answers from the live contents: every eligible paragraph carrying a query term, scored by live-only frequencies, ordered by score, source and paragraph, cut at the limit |
| `Bm25.ReplayAndSearch` | src/bm25.rs:249-501 | after any history a search answers the best `limit` of what a naive rescan of the current records matches |
| `Bm25Table.BestUnique` | src/bm25.rs:492-500 | equal contents have one ranking, so the answer is determined by the current records |
| `Bm25Table.RankedByScore` | src/bm25.rs:492-500 | along the hits scores never rise, and equal ones go by the bytes of the source, then by paragraph |
| `Bm25Table.LeftOutIsWorse` | src/bm25.rs:492-500 | a match left out scores at most every hit, and loses every tie |
| `Bm25Table.HitsAreMatches` | src/bm25.rs:409-501 | the hits are matches, each once, as many as the limit and the matches allow |
| `Orders.BytesLessMeans` | src/bm25.rs:492-500 | byte order: the first byte that differs decides, and a proper prefix comes first |
| `Bm25Search.FilterKeepsScores` | src/bm25.rs:390-398 | a source filter selects among the unfiltered hits and changes no score |
| `Bm25Search.FilteredSearch` | src/bm25.rs:390-398 | a search limited to some sources gives the unlimited ranking with the other sources left out, cut at the limit |
| `Bm25.Bm25Index.Explain` | src/bm25.rs:508-571 | evidence for a held paragraph is its per-term account and their sum; none exactly when the paragraph is not held |
| `Bm25Search.HitsAreExplained` | src/bm25.rs:503-571 | a hit's score and hash are those `explain` reports for its paragraph |
| `Bm25Search.EvidenceSums` | src/bm25.rs:518-566 | the contributions of the evidence added in query order are the whole score |
| `Passages.TakeQuestionsFold` | src/bm25.rs:890-903 | on a record in order the cursor consumes exactly the paragraph's own questions, and folds and hands them over in order |
| `Passages.TakeParagraphQuestions` | src/bm25.rs:291-333 | walking paragraphs and questions in lockstep hands each paragraph its own questions and no other |
| `Passages.RecordDigest` | src/bm25.rs:918-927 | the record's digest folds its paragraphs with their own questions; none exactly for a record without paragraphs |
| `Hash.StepTells` | src/hash.rs:22-29 | a step of the fold tells digests apart under one byte and bytes under one digest |
| `Hash.OneByteTold` | src/hash.rs:22-29 | strings that differ in one byte fold differently |
| `Hash.PublishedDigests` | src/hash.rs:52-60 | the published digests of "" and "a" |
| `Passages.RecordTold` | src/bm25.rs:870-886 | records alike but for one byte of the index, the hash or the question fold of one paragraph have different digests |
| `Passages.QuestionsTold` | src/bm25.rs:888-903 | question lists that differ in one byte of one text fold differently |
| `Passages.StreamTells` | src/bm25.rs:888-892 | the separator keeps adjacent questions from blending: the texts are read off the stream again |
| `Bm25Digest.SourceDigests` | src/bm25.rs:578-595 | one digest for every source with a live paragraph, folded over them upwards |
| `Bm25.Bm25Index.SourceDigests` | src/bm25.rs:578-595 | in every valid index there is a digest for each source with a live paragraph, folded in the order of its slot list; over lists that rise, as in every built, replayed or round-tripped index, they are those of the contents |
| `Bm25Digest.DigestsUnique` | src/bm25.rs:578-595 | contents determine the digests |
| `Bm25Digest.DigestsMatchRecords` | src/bm25.rs:905-927 | a source's digest is `record_digest` of its current record, with no entry exactly when that is none |
| `Bm25.ReplayDigests` | src/bm25.rs:578-595 | after any history the digests are those of the records then stored, with no entry exactly for a record without paragraphs |
| `Bm25.SavedDigests` | src/bm25.rs:578-845 | and so they are after a round trip through the sidecar |
| `Bm25Save.SaveState` | src/bm25.rs:616-690 | the bytes are those of the one canonical image of the contents: sources sorted, slots by source and paragraph, terms sorted, postings upwards, nothing dead |
| `Bm25.Bm25Index.ToBytes` | src/bm25.rs:616-690 | the index writes the canonical image of its contents, which is a legal one |
| `Bm25Canon.CanonicalUnique` | src/bm25.rs:612-615 | equal contents have one canonical image |
| `Bm25Canon.CanonicalLegal` | src/bm25.rs:692-720 | what an index writes passes every check of the reader |
| `Bm25Image.ReadsWritten` | src/bm25.rs:721-845 | a legal image is read back from its bytes |
| `Bm25Image.ReadIsImage` | src/bm25.rs:721-845 | what is read writes the very bytes it was read from |
| `Bm25Image.AcceptedExactly` | src/bm25.rs:721-845 | a byte string is accepted exactly when it is the bytes of a legal image, and every other one is refused |
| `Bm25Image.ImageLayout` | src/bm25.rs:650-689 | the image opens with its mark and its three counted parts, in their order |
| `Bm25Image.SlotLayout` | src/bm25.rs:657-666 | a slot is 28 bytes, its five fields at their places |
| `Bm25Image.TermLayout` | src/bm25.rs:676-687 | a term's block is its number, its count and eight bytes a posting |
| `Utf8.ValidExactly` | src/bm25.rs:721-845 | a name is well-formed exactly when it encodes a list of Unicode scalar values |
| `Utf8.EncodesOne` | src/bm25.rs:721-845 | and then only one |
| `Bm25Load.LoadState` | src/bm25.rs:721-845 | the cursor loops stay in bounds on arbitrary bytes and fill the index the image describes, or refuse |
| `Bm25.Bm25Index.FromBytes` | src/bm25.rs:721-845 | an accepted byte string gives a sound index with nothing dead, that of its image |
| `Bm25Canon.LoadedSound` | src/bm25.rs:692-720 | every accepted image loads into a sound index: distinct live paragraphs, strictly ascending in-range postings with positive frequencies |
| `Bm25Canon.OrderedExactly` | src/bm25.rs:704-709 | an accepted image loads into rising lists exactly when each source's slots rise, others between or not |
| `Bm25Canon.InterleavedAccepted` | src/bm25.rs:721-845 | an image with one source's slots scattered around another's is read back and loads out of order |
| `Bm25Canon.LoadedTable` | src/bm25.rs:721-845 | the canonical image of some contents loads into an index with those contents |
| `Bm25.SavedLoads` | src/bm25.rs:616-845 | bytes written are read back, into a sound index in order with the same contents |
| `Bm25.RoundTrip` | src/bm25.rs:616-845 | writing, reading back and writing again: equal contents, no tombstone, equal bytes |
| `Bm25.SameContentsSameBytes` | src/bm25.rs:612-690 | two indexes with equal contents, however they came about, write equal bytes |
| `Codec.ReadWrittenAll` | src/bm25.rs:640-689 | counted lists of fixed-width little-endian records are read back |
| `Codec.ReadAllIsWritten` | src/bm25.rs:929-933 | what is read as a counted list is what writing it gives |
| `Codec.LowByteFirst` | src/bm25.rs:650-689 | numbers are written low byte first |
| `Floats.FromCountIsExact` | src/bm25.rs:301-306 | adding 1.0 n times gives the float of value n, up to the point where the sum stops growing |
| `Floats.FieldsDecide` | src/bm25.rs:771-800 | finite, below zero and above zero by a pattern's sign, exponent and fraction |
| `Floats.PositiveValue` | src/bm25.rs:771-800 | and by the number it stands for |
| `Crc32c.BuildTable` | src/crc32c.rs:16-34 | each of the 256 entries is its index eight bit steps on |
| `Crc32c.UpdateIsSteps` | src/crc32c.rs:42 | one table lookup is eight bit steps of the register with the byte mixed in |
| `Crc32c.Checksum` | src/crc32c.rs:39-45 | the byte loop computes the checksum of the bitwise register |
| `Crc32c.RegisterIsShift` | src/crc32c.rs:39-45 | the byte loop is the bit loop over the message's bits, lowest first |
| `Crc32c.ShiftDivides` | src/crc32c.rs:13-45 | the shift register holds the remainder of long division by the Castagnoli polynomial |
| `Crc32c.StartIsComplement` | src/crc32c.rs:36-40 | starting from all ones complements the first 32 coefficients of the dividend |
| `Crc32c.ChecksumDivides` | src/crc32c.rs:36-45 | for every byte string the checksum is the polynomial remainder with the stated start and final complement |
| `Crc32c.BurstDetected` | src/crc32c.rs:36-45 | two messages of one length that differ only inside 32 consecutive bits have different sums |
| `Crc32c.FourByteBurstDetected` | src/crc32c.rs:36-45 | in particular damage confined to at most four consecutive bytes changes the sum |
| `Crc32c.DivisorExponents` | src/crc32c.rs:13-34 | the divisor is the Castagnoli polynomial, by its published exponents |
| `Crc32c.OddDamageDetected` | src/crc32c.rs:36-45 | damage to an odd number of bits, wherever they are, changes the sum |
| `Crc32c.PublishedSums` | src/crc32c.rs:51-60 | the published sums of "" and "123456789" |
| `Breaker.ProviderBreaker.WithPolicy` | src/breaker.rs:125-138 | a new breaker is closed with no failure counted, its threshold at least one |
| `Breaker.ProviderBreaker.NextProbeGeneration` | src/breaker.rs:146-152 | each claim gets the next generation, which becomes the latest |
| `Breaker.ProviderBreaker.Admit` | src/breaker.rs:157-204 | grants or refuses, and leaves the state, exactly as the state machine's step says |
| `Breaker.ProviderBreaker.RefusalAt` | src/breaker.rs:211-229 | the pre-flight gate gives the step's refusal, counts it, and claims nothing |
| `Breaker.ProviderBreaker.Record` | src/breaker.rs:254-291 | applies one outcome as the step says, nothing for a superseded probe |
| `Breaker.ProviderBreaker.Abandon` | src/breaker.rs:301-312 | releases the probe slot only for the claim it belongs to |
| `Breaker.ClosedCounts` | src/breaker.rs:254-291 | a closed breaker has counted every failure of an ordinary attempt since the last success that counted |
| `Breaker.OpensExactly` | src/breaker.rs:254-291 | it opens at exactly the failure that makes the threshold in a row, or a current probe's, and from that moment |
| `Breaker.FailuresTrip` | src/breaker.rs:270-285 | failures and nothing else: each is counted, and the one that makes the threshold opens it for good |
| `Breaker.ReportsDecide` | src/breaker.rs:254-291 | a success that counts closes it with nothing counted, a current probe's failure opens it, and an ordinary failure changes nothing unless it is closed |
| `Breaker.Granting` | src/breaker.rs:157-204 | closed it grants at any moment, and a released probe makes room at once |
| `Breaker.ClaimHolds` | src/breaker.rs:181-203 | after a claim others are refused until both the cooldown and 50 ms have gone by |
| `Breaker.RunConsistent` | src/breaker.rs:56-90 | in every run a closed breaker holds fewer failures than the threshold and a half-open generation is the latest minted |
| `Breaker.GenerationsFresh` | src/breaker.rs:141-152 | over any run probe generations are handed out once each, upwards |
| `Breaker.ProbeGrant` | src/breaker.rs:161-203 | a new probe is granted only when the one before was settled or released, a normal success closed the breaker, or it sat unsettled for the longer of the cooldown and 50 ms |
| `Breaker.ClaimStands` | src/breaker.rs:56-78 | a claim nobody frees stays as it was made |
| `Breaker.StragglerIgnored` | src/breaker.rs:239-263 | a superseded probe's report changes nothing at all |
| `Breaker.StragglersInvisible` | src/breaker.rs:239-312 | deleting every report of a superseded probe from any run leaves the same breaker |
| `Breaker.RefusalAgrees` | src/breaker.rs:206-229 | pre-flight checks, however many and wherever, decide nothing: the check and an attempt at the same moment answer as in the run without them, the attempt granted exactly when the check lets it through |
| `Breaker.PreflightsClaimNothing` | src/breaker.rs:206-229 | deleting every pre-flight check from a run leaves the same breaker but for the count of short circuits |
| `Breaker.RefusalStands` | src/breaker.rs:157-229 | after a refusal, open or half-open, attempts and checks are refused and counted until the state's own time is up, and from then on an attempt is granted |
| `Breaker.WaitRecovers` | src/breaker.rs:326-333 | from every reachable state an undisturbed wait of the longer of the cooldown and 50 ms makes an attempt succeed |
| `Breaker.WaitIsExact` | src/breaker.rs:163-176 | the wait behind an open refusal, not yet cut to seconds, is the time until an attempt is granted, to the nanosecond |
| `Breaker.RetryHint` | src/breaker.rs:337-345 | an attempt is granted after the whole seconds an open refusal shows if and only if the wait is at most a second or a whole number of seconds; one second later it always is |
| `Breaker.RetryHintEarly` | src/breaker.rs:337-345 | a 30 s cooldown refused at 300 ms shows 29 s, and an attempt 29 s later is refused |
| `Clock.CivilIsValid` | src/clock.rs:48-60 | every day number has a date of the proleptic Gregorian calendar |
| `Clock.CivilNext` | src/clock.rs:48-60 | day z + 1 is the calendar successor of day z, leap years and negative years included |
| `Clock.Epoch` | src/clock.rs:23-31 | day zero is 1 January 1970 |
| `Clock.DaysOfCivil` | src/clock.rs:38-60 | from day to date and back, for every integer |
| `Clock.CivilOfDays` | src/clock.rs:38-60 | from date to day and back, for every valid date |
| `Clock.DateExists` | src/extract/args.rs:774-783 | the round trip tells exactly the dates that exist |
| `Clock.DatesGrow` | src/clock.rs:48-60 | later days have later dates |
| `Clock.FourDigits` | src/clock.rs:23-31 | the year has at most four digits exactly before second 253402300800 |
| `Clock.TimestampsSort` | src/clock.rs:18-31 | rendered timestamps sort as strings exactly like their seconds while the year has four digits |
| `Clock.TenThousandSortsFirst` | src/clock.rs:18-31 | the first timestamp of the year 10000 sorts before every earlier one, so that bound is the last |
| `Clock.StampReads` | src/clock.rs:18-31 | the twenty characters of a timestamp, read by their places, give its second |
| `Anchoring.AliasGroups.Find` | src/anchoring.rs:585-596 | finding inserts a missing node as its own root, compresses the path, keeps the forest acyclic and every root what it was |
| `Anchoring.AliasGroups.Join` | src/anchoring.rs:603-605 | joining a pair's roots makes the trees the classes of the pairs with it |
| `Anchoring.AliasGroups.constructor` | src/anchoring.rs:583-616 | whatever the aliases, the parent links are an acyclic forest whose trees are the classes of the normalized pairs, each listed once under its root |
| `Anchoring.AliasGroups.Group` | src/anchoring.rs:618-638 | the walk ends; the group starts with the name, repeats nothing, and holds exactly what the pairs connect with it |
| `Anchoring.GroupsIgnoreOrder` | src/anchoring.rs:570-576 | the order, direction and repetition of aliases change no group |
| `Anchoring.Judge` | src/anchoring.rs:642-706 | every association is judged against its cited paragraph, or the whole passage when it cites none or one that does not exist, with all spellings connected to its names; the counts tally the verdicts |
| `Anchoring.VerdictMeans` | src/anchoring.rs:667-703 | what a verdict says of the cited paragraph or the passage: both ends in it, a spelling of each in it, and for a citation its paragraph with a spelling of either |
| `Anchoring.TallyCounts` | src/anchoring.rs:667-703 | each count is the number of verdicts of its kind |
| `Anchoring.OneMoreAnchors` | src/anchoring.rs:667-703 | with more aliases a verdict's strict part stays, its alias part and its locator never get worse, and strict implies with aliases |
| `Anchoring.MoreAliasesAnchorMore` | src/anchoring.rs:13-24 | adding aliases never lowers the aliased count or the valid citations and leaves the strict count alone, which never exceeds the aliased one |
| `Connectivity.OnePairMore` | src/anchoring.rs:569-576 | one more pair connects exactly what was connected and what it bridges |
| `Connectivity.PairRepresented` | src/anchoring.rs:598-605 | growing a forest by a pair and uniting the roots represents the classes of the pairs with it |
| `Connectivity.PairJoined` | src/anchoring.rs:603-605 | linking one root under the other in the parent links does what uniting the classes does, and keeps the forest acyclic |
| `Connectivity.Relinked` | scripts/extract_metrics.py:299-303 | relinking a node to one higher on its way keeps the forest acyclic and its roots |
| `Graph.Find` | scripts/extract_metrics.py:299-303 | path halving ends at the root and keeps the forest and its roots |
| `Graph.AddEdge` | scripts/extract_metrics.py:305-309 | after an edge the trees are the classes of the edges so far |
| `Graph.Measure` | scripts/extract_metrics.py:295-317 | the concepts are the ends of edges, the isolated those of degree one (a loop counts two), the components the classes of the edges' equivalence closure |
| `Graph.DegreeCounts` | scripts/extract_metrics.py:305-311 | a degree is the edges that begin and those that end at the node, and an isolated node is at one end of one edge |
| `Graph.ShareMeans` | scripts/extract_metrics.py:291-317 | the isolated share is that fraction of the concepts, absent exactly when there are none |
| `Graph.RootsAreComponents` | scripts/extract_metrics.py:312 | the distinct roots number the equivalence classes |
| `Graph.ShapeIgnoresOrder` | scripts/extract_metrics.py:295-317 | the shape does not depend on the order of the edges |
| `Metrics.Bucket.AbsorbTrace` | scripts/extract_metrics.py:204-228 | one trace record adds exactly its worth to the bucket |
| `Metrics.Bucket.AbsorbAttempt` | scripts/extract_metrics.py:233-273 | one attempts-log record adds exactly its worth, a replayed attempt nothing |
| `Metrics.Bucket.AbsorbSegment` | scripts/extract_metrics.py:199-273 | absorbing a segment into any bucket is merging that segment's own bucket into it |
| `Metrics.Bucket.MergeInto` | scripts/extract_metrics.py:276-285 | merging adds counters and sums, appends lists and keeps the largest vocabulary |
| `Metrics.MergedIsAssociative` | scripts/extract_metrics.py:276-285 | merging is associative with the blank bucket neutral |
| `Metrics.AttemptsCost` | scripts/extract_metrics.py:247-257 | seconds and tokens are the sums of the live attempts' own, the lost ones those of the attempts that did not end valid |
| `Metrics.AttemptsCounted` | scripts/extract_metrics.py:233-273 | every counter of the attempts log under every key |
| `Metrics.IssuesAreLast` | scripts/extract_metrics.py:226-264 | a correction answers the issues of the last record of the attempt it names, at least one |
| `Metrics.TraceCounted` | scripts/extract_metrics.py:204-220 | every counter of the trace under every key |
| `Metrics.TraceGathered` | scripts/extract_metrics.py:204-225 | chunk bytes add up and the edges are the associations', in order |
| `Metrics.LargestOffered` | scripts/extract_metrics.py:221-225 | the largest vocabulary offered is kept |
| `Rollup.Aggregate` | scripts/extract_metrics.py:408-443 | the run holds every segment's bucket, and each context and group the buckets filed under it, in objects of their own |
| `Rollup.RunSegments` | scripts/extract_metrics.py:199-203 | the run counts every segment once, as failed or not |
| `Rollup.ContextNames` | scripts/extract_metrics.py:408-443 | which contexts have a bucket, the unassigned one included |
| `Rollup.GroupNames` | scripts/extract_metrics.py:408-443 | which groups have one, an output directory standing in for none |
| `Rollup.FiledMergeToTotal` | scripts/extract_metrics.py:434-436 | named buckets merged in any order give the merge of everything filed, but for the order of edges |
| `Rollup.ContextsMergeToRun` | scripts/extract_metrics.py:434-443 | the contexts' buckets merged in any order are the run's up to the order of edges |
| `Rollup.SimilarShape` | scripts/extract_metrics.py:408-443 | buckets equal up to the order of edges have the same graph shape |
| `Rollup.ErasingReplays` | scripts/extract_metrics.py:236-246 | erasing replayed attempts changes no attempt, second or token total |
| `Rollup.ReplaysCostNothing` | scripts/extract_metrics.py:225-273 | a log without its replayed attempts is worth the same but for flagged issues, and exactly the same when no correction answers a replay |
| `Rollup.RunWithoutReplays` | scripts/extract_metrics.py:225-285 | so for the whole run: every log without its replayed attempts gives the same run bucket but for flagged issues, and the same bucket when no correction answers a replay |
| `Rollup.RunConsistent` | scripts/extract_metrics.py:199-285 | in the run an association is counted per edge, no more is lost than spent, and every correction is settled one way |
| `Paging.DistinctTotal` | src/api.rs:1731-1742 | matches with distinct names are totally ordered by rank |
| `Paging.StrongerFirst` | src/api.rs:1731-1738 | the place `total_cmp` gives a weight, sign cleared, is earlier exactly when its magnitude as a number is greater |
| `Paging.TriplesDistinct` | src/api.rs:1710-1722 | associations told apart by subject, label and object have distinct rank names, as the ranking requires |
| `Paging.CrossTriplesDistinct` | src/api/recall.rs:292-300 | across contexts the context id and the triple do |
| `Paging.ExploredTriplesDistinct` | src/api.rs:1808-1839 | in exploration pages, ranked by distance first, the triple alone does |
| `Paging.PageBy` | src/api.rs:1770-1806 | a page is what follows the cursor, ranked and cut at the clamped limit; the total counts all matches |
| `Paging.PagesRise` | src/api.rs:1770-1806 | pages come in rank order |
| `Paging.RanksMean` | src/api.rs:1724-1742 | stronger first, then by triple; across contexts by the context before it; in an exploration nearer first |
| `Paging.PageSize` | src/api.rs:1770-1806 | as many as asked for, a hundred by default, at most a thousand, as long as they last |
| `Paging.CursorNeverReturned` | src/api.rs:1788-1797 | for any match list, whatever became of weights or distances, the cursor's own edge is not on its page |
| `Paging.NextPage` | src/api.rs:1764-1806 | the page after the first k matches of the ranking is the next stretch of it |
| `Paging.FollowPages` | src/api.rs:1644-1648 | taking each page's last match as the next cursor yields the whole ranking once, in order, with one total, unless the limit asked for is zero |
| `Paging.CutPoolKeeps` | src/api/recall.rs:396-411 | cutting a pool to a page before adding more loses nothing the final page holds |
| `Paging.PooledPage` | src/api/recall.rs:455-489 | trimming whenever the pool outgrows twice the limit, the page and the total are those of all contexts' matches together |
| `ParallelMap.BoundedParallelMap` | src/api.rs:1909-1948 | under every schedule each job is started and finished once with at most the clamped permits in flight, and the answer is all values in index order or the smallest panicking index |
| `ParallelMap.SpawnAll` | src/api.rs:1918-1934 | jobs start in index order, none without a permit, and spawning never gets stuck |
| `ParallelMap.JoinAll` | src/api.rs:1935-1940 | every outcome is slotted under its own index in whatever order jobs end and are joined |
| `ParallelMap.OneAnswer` | src/api.rs:1896-1908 | there is one answer, independent of the schedule |
| `ParallelMap.RanOnce` | src/api.rs:1922-1934 | in a complete trace every job starts once and finishes once |
| `ParallelMap.StartedFirst` | src/api.rs:1922-1934 | no job finishes before it started |
| `Tail.DiagnosticsTail.Poll` | src/benchmark.rs:2634-2660 | however growth is cut into polls and reads, the lines returned so far are the lines of the bytes read so far and the buffer is what follows the last newline |
| `Tail.SplitIsUnique` | src/benchmark.rs:2648-2658 | there is one split into newline-ended lines and a rest, and the reader makes it |
| `Tail.HandedOn` | src/benchmark.rs:2648-2658 | exactly the well-formed lines with anything left are handed on, trimmed |
| `Tail.TrimmedMeans` | src/benchmark.rs:2648-2658 | trimming takes the line ending off and nothing else |
| `Tail.ReadingOn` | src/benchmark.rs:2612-2618 | reading on from an unfinished line is reading it all at once |
| `Recorder.CellRecorder.constructor` | src/benchmark.rs:3141-3162 | an existing runs file is continued with its counts, a new one gets a header |
| `Recorder.SeedCounts` | src/benchmark.rs:2748-2767 | the seeds are the attempt records and all end records of the file |
| `Recorder.CellRecorder.Transcribe` | src/benchmark.rs:2825-2926 | one line extends the file by its transcription and keeps the open set and both counts those of the file |
| `Recorder.CellRecorder.SynthesizeFailedEnds` | src/benchmark.rs:2933-2960 | a failed end is written for each open segment, in source order |
| `Recorder.CellRecorder.Conclude` | src/benchmark.rs:3257-3270 | concluding closes what is open and writes the totals, unless the child was interrupted or exited unexpectedly |
| `Recorder.RunCell` | src/benchmark.rs:3123-3270 | the runs file holds what it held and the records of the lines of all bytes read, concluded by the exit code |
| `Recorder.TranscriptTells` | src/benchmark.rs:2825-2926 | a transcript passes on what its lines report, all of it, once and in order, attempts with their chunk |
| `Recorder.CodesMean` | src/benchmark.rs:3257-3270 | which exit codes complete, fail or interrupt a cell |
| `Recorder.OpenMeans` | src/benchmark.rs:2820-2824 | a segment is open exactly when it was started and has not ended since |
| `Recorder.SessionBrackets` | src/benchmark.rs:2809-2824 | in any session every end follows an open start of its segment, and a concluding session leaves none open |
| `Recorder.RecordedBrackets` | src/benchmark.rs:2928-2932 | so it is in every session of the file, cut short anywhere |
| `Recorder.FinalTotals` | src/benchmark.rs:2743-2747 | after any sessions and a concluding one the totals are the file's attempts, and its written ends plus the failed ends of earlier sessions |
| `Recorder.TotalsExactly` | src/benchmark.rs:2743-2767 | the totals are the attempts and written ends of the whole file exactly when no earlier session left a failed end in it |
| `Recorder.TotalsOvercount` | src/benchmark.rs:2748-2767 | a session that opens a segment and fails, losing its place in the manifest, then an empty one: the totals say one segment written, the file holds none |
| `Recorder.FailedByConclusion` | src/benchmark.rs:2933-2960 | a concluding session writes one failed end for each segment its transcript leaves open and no other, and no other written end |
| `Recorder.InterruptedLeaveNone` | src/benchmark.rs:2928-2932 | interrupted sessions, and those whose child exited unexpectedly, leave no failed end |
| `Matrix.RunMatrix` | src/benchmark.rs:3804-3856 | exactly the due cells reached ran, each recorded with what it came to and every other cell of the manifest as given; the exit is 130 for a stop or an interrupted cell, 1 when the harness gives up or a write fails, 0 otherwise |
| `Matrix.RunAgainExactly` | src/benchmark.rs:3810-3821 | a recorded cell is run again by a resumed matrix exactly when it was interrupted |
| `Auth.SplitJoins` | src/auth.rs:190 | splitting at commas loses nothing and leaves no comma in a piece |
| `Auth.Parse` | src/auth.rs:178-248 | accepted exactly when both variables are proper: entries name:token, none empty, no '@' in a name, no name or token twice; then the keys are those spelled out, in order |
| `Auth.WrittenRingReads` | src/auth.rs:178-248 | keys written out as the named ring are read back as they were, and accepted when nothing repeats |
| `Auth.NothingEmpty` | src/auth.rs:178-248 | no accepted key lacks a name or a token |
| `Auth.CheckedGrant` | src/auth.rs:271-310 | an entry is accepted exactly when its name is a configured key, its role is known and its contexts, if given, are a nonempty list of ids |
| `Auth.ApplyGrants` | src/auth.rs:258-314 | accepted exactly when every grant fits a configured key; then the grants are those of the JSON, in whatever order it is walked |
| `Auth.BuiltSound` | src/auth.rs:171-314 | a ring built from accepted variables has distinct names and tokens and grants only for configured names |
| `Auth.GrantMeans` | src/auth.rs:258-327 | a configured key may do what the grants say of its name, and everything when they do not name it |
| `Auth.Authenticate` | src/auth.rs:345-353 | the scan names the last key with the presented token |
| `Auth.MatchesItsKey` | src/auth.rs:341-353 | with distinct tokens a token names its own key, and nothing else authenticates |
| `Auth.BaseOf` | src/auth.rs:91-93 | the base of a delegation is its key, and of a plain name the name |
| `Auth.DelegationInherits` | src/auth.rs:316-327 | a delegation has its key's grant and lives as long as the key |
| `Reload.DiffRings` | src/auth.rs:379-413 | the four lists are the names that were added, removed, rotated or regranted |
| `Reload.DiffMeans` | src/auth.rs:379-413 | a name is added, removed, rotated or regranted exactly by its token and grant before and after |
| `Reload.UnchangedIsUnobservable` | src/auth.rs:371-413 | the difference is empty exactly when the rings authenticate, recognize and grant alike for every string |
| `Reload.SharedKeyring.ApplyReload` | src/auth.rs:619-671 | a reload swaps in the ring its values describe or keeps the old one, and never disarms an armed server |
| `Reload.StepKeeps` | src/auth.rs:569-579 | a reload answered unchanged could not be observed, and one answered applied can |
| `Reload.EveryInterleaving` | src/auth.rs:581-624 | under every interleaving, stale reads included, the armed ring is sound, an armed server stays armed, and the ring is one the sources really described |
| `Reload.NewestExactly` | src/auth.rs:592-671 | after any run of changes, reads and reloads, the reload that applies next leaves the newest sources armed exactly when what it read builds a ring no caller can tell from theirs |
| `Reload.UnchangedSinceLook` | src/auth.rs:592-624 | when the sources do not change between a reload's read and its end the newest are armed, whatever other reloads do around and between |
| `Reload.LastEndedArmed` | src/auth.rs:619-671 | the ring after a run is that of the last reload to end |
| `Reload.NewestAfterRun` | src/auth.rs:592-671 | so after a whole run the newest sources are armed exactly when the last reload to end had read a ring no caller can tell from theirs |
| `Reload.StaleReadWins` | src/auth.rs:600-624 | of two reloads around a change the one that read before it can end last, and the newest sources are then armed exactly if both rings look alike to callers |
| `Reload.ReplacedTokenLives` | src/auth.rs:592-624 | a single token replaced by another: after both reloads the old one authenticates, the new one does not, and no reload is pending |
| `Communities.CountWork` | src/communities.rs:333-341 | fresh and torn communities together are those without a usable summary |
| `Communities.Summarize` | src/communities.rs:483-552 | asked only with a client, and only after every community of a lower level; an empty answer fails |
| `Communities.SummarizeAll` | src/communities.rs:394-430 | a community with a reusable summary gets that one, and every other the text the model answered when shown settled summaries, those of all lower levels among them; with exactly as many model calls as needed, and refused only for a question the model fails or leaves without a text |
| `Communities.NeededByLevel` | src/communities.rs:407-430 | the order of the work does not change how many calls it takes |
| `Communities.ByLevelIsStable` | src/communities.rs:407-408 | communities of one level are summarized in the order given |
| `Communities.LastWithIsLast` | src/communities.rs:323-328 | of the manifest's entries with a fingerprint the last is reused |
| `Communities.ImportSources` | src/communities.rs:432-463 | the store holds the sources up to the first write that fails, and no later one |
| `Communities.WriteArtifact` | src/communities.rs:432-474 | the store and its manifest are exactly what the first failing write leaves, every id the manifest lists has a source at every stop, and it is done exactly when nothing is left to do |
| `Communities.Derive` | src/communities.rs:294-477 | nothing is written until every summary is settled, then the store is what the stop leaves, new summaries in the model's words; it succeeds exactly when they are settled and no write fails, and they are settled unless a client is missing or a question goes unanswered; the calls are fresh plus torn |
| `Communities.ProvenanceExactly` | src/communities.rs:14-24 | after a completed derivation the manifest tells the truth exactly when what it reused was right; `RepairedExactly` and `HistoryExactly` turn that into a condition on manifests and analyses |
| `Communities.DerivedClean` | src/communities.rs:14-24 | completed derivations keep the sources equal to the manifest's ids, each with its own summary |
| `Communities.CompletedRunsAreClean` | src/communities.rs:14-24 | so it is after any sequence of completed derivations |
| `Communities.UnchangedNeedsNothing` | src/communities.rs:16-24 | over a clean artifact an unchanged analysis needs no model call |
| `Communities.TornExactly` | src/communities.rs:21-24 | a run torn after k sources leaves a truthful manifest exactly when each old entry whose id was among the k has the written community's fingerprint and the algorithm did not change |
| `Communities.NextRunTrusts` | src/communities.rs:21-24 | the next run, of any analysis, reuses only right summaries exactly when no source it would reuse was among the k for another fingerprint or algorithm |
| `Communities.RepairedExactly` | src/communities.rs:21-24 | a completed run after a torn one puts the manifest right exactly then |
| `Communities.HistoryExactly` | src/communities.rs:14-24 | over any history of runs, each completed or stopped anywhere, the manifest tells the truth throughout exactly when every run stopped before its manifest met that condition |
| `Communities.TornRunMisleads` | src/communities.rs:21-24 | two communities swapped ids and the second write fails: what that stop leaves is accounted for, and misleads the next run |
| `Communities.TornThenRetried` | src/communities.rs:294-477 | both runs carried out: the torn derivation and the completed one after it, which asks the model nothing and leaves a manifest that is not true |
| `GroupMembers.GroupMembers` | src/communities.rs:659-684 | the contexts are exactly those of the groups reached, cycles or not, and an error exactly names a reached group that is missing |

## Left out

- Bm25.Bm25Index.UpsertSource: requires fewer than 2^32 slots and sources, because ids and slot numbers are cast to 32 bits and the casts are not modelled beyond that
- Bm25.Bm25Index.Search: the 32-bit rounding of `idf`, `contribution` and the average length is not modelled; the total length is an exact sum, and scores are places in the total order of floats, NaN payloads aside
- Bm25.Bm25Index.FromBytes: says nothing of the index `load` falls back to; a refused sidecar is rebuilt outside this model
- Passages: splitting a passage into paragraphs, their hashes, and the terms of a text are given as data, ascending and distinct as the source makes them
- Breaker.ProviderBreaker.Admit: generations and counters are unbounded where the source's are 64 bits wide; of the refusal texts only their numbers are kept
- Anchoring.Judge: the passage comes split, and normalization is a function given to it; the report's rates, its file handling and the list of named associations are left out
- Metrics.Bucket.AbsorbSegment: seconds are exact numbers, so the rounding of float sums is not modelled
- Rollup.Aggregate: the per-segment table with its renamed duplicates, and the rates `summarize` derives from a bucket, are left out
- Paging.PageBy: one method stands for the three page functions, which differ only in the key they rank by; the fields of a match beside its rank are one opaque number
- Paging.PooledPage: every context's search succeeds; the first failure ending the response is left out
- ParallelMap.BoundedParallelMap: a panic is one of a job's two outcomes; cancellation and a poisoned runtime are left out
- Recorder.RunCell: reading JSON is a function given to it, and a record's numbers and file names are one opaque body; a write that fails, or a crash that tears the last line, is left out: the counts may then exceed what the file holds, and since the file is opened for appending a torn line joins the next session's first record and both are lost to a reader
- Matrix.RunMatrix: what a cell comes to is given; checking that a resumed directory fits the configuration is left out
- Auth.ApplyGrants: reading JSON and the syntax of a context id are functions given to it; the texts of refusals are shortened
- Reload.DiffRings: the lists keep the order of the keys, where the source sorts each for its log line
- Communities.Derive: an import is one write per source, where the server may take several in one request; parsing the analysis and the manifest, the membership and hierarchy edges, and prompts are left out
- GroupMembers.GroupMembers: answers a set, which the source lists in ascending order
- The term hasher, seeds and memory footprint: they change no result
- Roles and routes, OAuth flows, HTTP extraction, error envelopes, middleware, metrics and logging: transport
- The command lines, usage texts and report rendering: single-branch text
- The embedding lane, passage storage with its log and snapshots, and the graph library: other components
