# Verified models of the Companion and the validation worker

Dafny models of the parts of this repository whose promises hold over whole runs or whole inputs, with proofs of those
promises.

- **Event spool** (`Chain`, `SpoolState`, `Spool`, `SpoolRuns`, `SpoolGuarantees`, `SpoolDelivery`, `SpoolTamper`,
  `SpoolChecks`, `SpoolAnswers`, `SpoolPrimitives`). The tables are a value, each transaction a function from the
  tables before it to its answer and the tables after it, and `EncryptedSpool` a class whose methods are proved
  against those functions. `SpoolRuns` lets any number of threads interleave their appends, between the unlocked early
  lookup and the transaction, with batching, retries, acknowledgements, key changes, failures and restarts, and
  carries one invariant that ties the tables to the history of accepted appends. Everything else is read off that
  invariant: integrity, conservation and order, one sequence for an id, capacity, the life of the pending batch, and
  every answer field by field (`SpoolAnswers`). `SpoolChecks` says what the integrity check means for any tables at
  all.
- **Tar inspector** (`TarReader`, `TarPaths`, `TarHeaders`, `TarPax`, `TarArchive`, `TarProperties`, `TarRefusals`).
  The chunked reader, the pax parser and the block loop are methods; each is proved against a function of the whole
  byte sequence, so how the stream is cut cannot matter. An induction principle over that scan (`ScanKeeps`) then
  gives the layout of an accepted archive, its tree, and the pairing of extended headers with entries; and what has
  all three is accepted (`InspectExactly`). `TarRefusals` says which fault of the bytes a refused archive is refused
  for.
- **Canonical JSON and package.json** (`Json`, `CanonicalJson`, `CanonicalReader`, `PackageJson`, `PackageChange`,
  `PackageChecks`). Printing gives JSON that reads back as the value, is injective on normal forms for any comparison
  of keys, and free of key order exactly when that comparison is strict on names, the keys that are no array indices.
  On it rest the check that one dependency was changed and nothing else, and the condition on two locales under which
  the program making the change passes the check.
- **Frames and sessions** (`Frames`, `IpcSession`, `IpcGuarantees`, `IpcTranscript`, `RuntimeHandler`,
  `HandlerAnswers`). The extension's incremental decoder, the Companion's reader, a whole authenticated connection,
  and the handler behind it, whose events form brackets in the spool.
- **Observation lease** (`ObservationLease`), **Codex adapter** (`CodexAdapter`, `CodexHistory`, `CodexAnswers`) and
  **validation outcomes** (`ValidationOutcomes`, `ValidationVerdict`).

Each main operation is specified twice: by a function that its method is proved against, and by a relation that says
what the answer means without that function or those it calls (`…Exactly`), with a proof that they agree.

`Common` and `Sorting` hold what several of them share; `Sorting` has the theory of stable sorts that the printer, the
package change, the classifier and the spool's queries use.

Cryptography, hashing, redaction, UTF-8 and JSON parsing are functions passed in as parameters. Of the spool's, only
`Primitives.Lawful` is assumed: opening undoes sealing, decoding undoes encoding, a signature verifies;
`SpoolPrimitives.LawfulInstance` is an instance. Collision-freedom is a hypothesis of `SpoolTamper` and of
`SpoolChecks.CheckDeterminesEvents` alone, for the records at hand; that the cipher refuses a wrong key is one of
`IntegrityExactly` and `IntegrityInEveryRun`, for the rows whose version was rebound. `localeCompare` is a parameter
too, assumed to be a total preorder; where a result needs it to tell the names in an object or the ids of a run apart,
that is one side of an equivalence. The worker's and the sandbox's are two parameters. Clocks and random draws are
parameters of each operation.

## Where the code does not meet its own promise

Each is stated as an exact condition.

- `PackageChange.ChangeAccepted`: every plain object inherits a member called `constructor`, and the check reads the
  section with an ordinary property access. Removing a dependency of that name from a section that keeps another is
  carried out correctly and then always refused.
- `PackageChange.ChangeAccepted`: the program sorts the section by the locale of the sandbox, and the check sorts it
  by that of the worker. Setting a dependency is accepted exactly when the sandbox keeps the other names that the
  worker ties in the order they had, as it does when the two locales agree or the worker's ties none of them;
  `ReorderedTieRefused` is a correct change that is refused.
- `CanonicalJson.UntiedExactly`: names that `localeCompare` ties (it ties canonically equivalent strings) keep the
  order they came in, so a value prints like everything it equals exactly when no two names in one of its objects tie.
  Array indices are not concerned: every object lists them first and ascending. NaN and infinities print as `null`.
- `PackageChange.AcceptsAllExactly`: the check of a changed package.json never accepts more than the change, and
  accepts every way of writing it exactly when no two names tie in what is left of the original.
- `ValidationOutcomes.VerifiedExactly`, `VerifiedByPairs`: required ids are sorted by code units and attested ids by
  locale. A complete run is verified exactly when the locale respects code units on its ids and the ids it ties are
  attested in that order; one with targets `B` and `a` is refused as a binding mismatch (`UpperCaseBeforeLower`).
- `ValidationOutcomes.OrderIrrelevantExactly`: the verdict of a run depends on the order of its lists exactly when the
  run is complete, the locale respects code units on its ids, and it ties two of them.
- `RuntimeHandler.BracketsExactly`: the spool answers an id it knows without writing, so the events of a run are in
  brackets throughout exactly when no start or stop that takes effect draws such an id; `IdDrawnTwiceBreaks` is one.
  The fallback of the id generator, process id and seconds, does not rule that out.
- `CodexHistory.GivenOutExactly`: an id is consumed before its event is validated or ordered, so an event is given out
  exactly when it is valid, not late, and no earlier document let in had its id, be it invalid or late itself;
  `CorrectedResendDropped` shows a correction dropped for either reason.

Conventions: integers are unbounded unless a bound is written out; the 64-bit and 32-bit limits of the spool, the
53-bit limit of the archive numbers and the saturating clock arithmetic are explicit.

## Model

| member | source | states |
|---|---|---|
| `Chain.EventHash` | crates/companion/src/chain.rs:8-29 | the hasher fed update by update ends with the digest of exactly the specified preimage |
| `Chain.PreimageInjective` | crates/companion/src/chain.rs:8-34 | two encodable records with one preimage are the same record: sequence, parent, id, source sequence or its absence, payload digest |
| `Chain.PreimageLayout` | crates/companion/src/chain.rs:8-34 | the bytes hashed for an event are the domain and a zero, the sequence, the parent, the id behind its length, the source sequence behind a one and its length or a zero, and the payload digest |
| `Spool.EncryptedSpool.AddEncryptionKey` | crates/companion/src/spool/mod.rs:250-265 | loads a key under its version and, when asked, makes that version active; nothing else changes |
| `Spool.EncryptedSpool.BeginAppend` | crates/companion/src/spool/mod.rs:289-331 | the first critical section answers with an error, an earlier receipt, or nothing, and changes no table |
| `Spool.EncryptedSpool.CommitAppend` | crates/companion/src/spool/mod.rs:333-418 | the append transaction: a second lookup, capacity, sealing, hash and three writes, or the tables as they were on any error |
| `Spool.EncryptedSpool.AppendEvent` | crates/companion/src/spool/mod.rs:289-418 | both sections in a row are the specified append |
| `Spool.EncryptedSpool.LoadBatchRows` | crates/companion/src/spool/mod.rs:1035-1116 | a batch document is its row and its decrypted events in order, refused when the signature or the attempt count is bad |
| `Spool.EncryptedSpool.TakeNextBatch` | crates/companion/src/spool/mod.rs:425-518 | a pending batch is loaded once due; otherwise the oldest queued rows become a signed batch and are handed out, all or nothing |
| `Spool.EncryptedSpool.RecordRetryAttempt` | crates/companion/src/spool/mod.rs:525-567 | only a pending batch gets a higher attempt count, a checked next attempt and a failure code |
| `Spool.EncryptedSpool.AcknowledgeBatch` | crates/companion/src/spool/mod.rs:575-665 | a matching acknowledgement prunes the batch and advances the pruned state; a repeat changes nothing; a mismatch is refused |
| `Spool.EncryptedSpool.CheckRow` | crates/companion/src/spool/mod.rs:744-760 | a row is sound exactly when it decrypts under its key and its payload digest and event hash recompute |
| `Spool.EncryptedSpool.CheckIntegrity` | crates/companion/src/spool/mod.rs:712-771 | the verification loop computes the chain walk from the pruned state to the head, and then the batch signatures |
| `SpoolChecks.CheckExactly` | crates/companion/src/spool/mod.rs:712-771 | on any tables the check passes if and only if the stored rows are, in some order, a chain from the pruned state to the stored head, each in its place, opened under its key for its own id, place and hash to a payload of its id and digest, and hashed over the row before it, and every batch signature verifies |
| `SpoolChecks.FirstBreakReported` | crates/companion/src/spool/mod.rs:712-771 | a failed check reports the first row, in order of sequence, that breaks this chain: misplaced or not opened is tampering, a key that is not loaded, bytes that are no envelope or a payload that does not parse are their own errors |
| `SpoolChecks.WrongEndReported` | crates/companion/src/spool/mod.rs:764-771 | if no row breaks the chain, another stored head than its end, or a signature that does not verify, is tampering |
| `SpoolChecks.CheckDeterminesEvents` | crates/companion/src/spool/mod.rs:712-771 | two databases that pass the check and agree on pruned state and head hold the same events, under collision-freedom: none is lost, added or altered |
| `SpoolAnswers.AppendExactly` | crates/companion/src/spool/mod.rs:289-418 | in every state of the invariant an append is refused, answered from the history, or writes one row: the event redacted field by field, hashed after the last accepted one, sealed for its own place, with its receipt and the next place |
| `SpoolAnswers.NewDocument` | crates/companion/src/spool/mod.rs:449-518 | with nothing pending, the oldest events up to the limit become one new signed batch, nothing else changes, and the answer is its document |
| `SpoolAnswers.PendingDocument` | crates/companion/src/spool/mod.rs:431-448 | with a batch pending, asking changes nothing and answers its document once it is due |
| `SpoolAnswers.DocumentIsChained` | crates/companion/src/spool/mod.rs:1080-1100 | in a document the hash of each event is the previous hash of the next, and that of the last is the document's chain head |
| `SpoolAnswers.LoadExactly` | crates/companion/src/spool/mod.rs:1035-1116 | from any tables a batch is given out if and only if each of its rows opens, its signature verifies and its attempt count fits, and the document shows its row and its events field by field; a signature that does not verify is tampering |
| `SpoolAnswers.RetryExactly` | crates/companion/src/spool/mod.rs:525-567 | a retry is recorded for the pending batch and no other: one more attempt, its next time and its failure, and nothing else |
| `SpoolAnswers.AcknowledgeExactly` | crates/companion/src/spool/mod.rs:575-665 | an acknowledgement with another chain head is refused, a repeated one changes nothing, and one of the pending batch removes its events, marks their receipts, leaves an anchor and moves the pruned state to its end |
| `SpoolRuns.BatchIdInjective` | crates/companion/src/spool/mod.rs:471-474 | a batch id determines its first and last sequence and the first eight bytes of its head |
| `SpoolRuns.BatchIdsDistinct` | crates/companion/src/spool/mod.rs:425-518 | in every state the invariant allows, two batches never share an id |
| `SpoolRuns.AtMostOnePending` | crates/companion/src/spool/mod.rs:425-448 | at most the newest batch is pending |
| `SpoolRuns.AppendShape` | crates/companion/src/spool/mod.rs:333-418 | an append either leaves the tables alone or inserts exactly one row under the next sequence |
| `SpoolRuns.StepKeepsInvariant` | crates/companion/src/spool/mod.rs:199-771 | every operation, in any interleaving with appends between their two lookups, keeps the tables tied to the history of accepted appends |
| `SpoolRuns.RunKeepsInvariant` | crates/companion/src/spool/mod.rs:199-771 | so does every run, restarts and key changes included |
| `SpoolRuns.RunHoldsSchema` | crates/companion/src/spool/mod.rs:804-904 | every state a run can reach keeps the primary keys and references of the schema, which opening the spool relies on |
| `SpoolRuns.NoKeyIsTaken` | crates/companion/src/spool/mod.rs:379-405 | a new event never meets a taken key, so no append fails on a constraint of the schema |
| `SpoolPrimitives.LawfulInstance` | crates/companion/src/crypto.rs:67-140 | the laws assumed of sealing, encoding, signing and printing have an instance, and one whose cipher refuses every wrong key |
| `SpoolGuarantees.IntegrityExactly` | crates/companion/src/spool/mod.rs:712-771 | verification succeeds exactly when every key an unpruned row was sealed with is loaded under its version; for a version that was rebound, given that the cipher refuses the wrong key on those rows |
| `SpoolGuarantees.IntegrityInEveryRun` | crates/companion/src/spool/mod.rs:712-771 | from a fresh spool, after every run, restarts and key changes in any order included, verification succeeds when the keys of the unpruned rows are loaded then, and only then if the cipher refuses the wrong keys then loaded |
| `SpoolGuarantees.SafeRunKeepsIntegrity` | crates/companion/src/spool/mod.rs:250-265 | runs that never lose or rebind a needed key are such runs |
| `SpoolGuarantees.ConservationInEveryRun` | crates/companion/src/spool/mod.rs:425-665 | the events of acknowledged batches in the order of acknowledgement, followed by the rows still stored, are all accepted appends, each once and in order |
| `SpoolGuarantees.OneSequenceForever` | crates/companion/src/spool/mod.rs:325-345 | an accepted event id is answered with its one sequence and hash after any run, pruned or not |
| `SpoolGuarantees.SequencesAreDense` | crates/companion/src/spool/mod.rs:347-418 | a new append takes the sequence after the last accepted one, and one that fails takes none |
| `SpoolGuarantees.CapacityInEveryRun` | crates/companion/src/spool/mod.rs:931-949 | row count and envelope bytes never exceed the limits in any run between restarts |
| `SpoolDelivery.NewIdIsFree` | crates/companion/src/spool/mod.rs:471-499 | the id of a new batch is never taken, so creating it cannot fail on the key |
| `SpoolDelivery.PendingAnswer` | crates/companion/src/spool/mod.rs:431-448 | with a batch pending, asking changes no table and gives that batch's document once it is due |
| `SpoolDelivery.FreshAnswer` | crates/companion/src/spool/mod.rs:449-518 | with none pending, the oldest rows up to the batch limit become a batch and its document is given at once |
| `SpoolDelivery.BatchIsContiguous` | crates/companion/src/spool/mod.rs:1035-1116 | event k of a batch's document shows the k-th sequence of its range, the accepted event there, and as its hashes the chain head before it and the one after it |
| `SpoolDelivery.BatchRange` | crates/companion/src/spool/mod.rs:425-518 | a batch starts right after the one before it and ends at its own chain head |
| `SpoolDelivery.PendingUntilAcknowledged` | crates/companion/src/spool/mod.rs:425-567 | until it is acknowledged the pending batch is given again unchanged but for its attempt count, whatever else happens, once the keys of the unpruned rows are loaded again |
| `SpoolTamper.WalkIsLinked` | crates/companion/src/spool/mod.rs:735-768 | rows that pass the walk are a linked chain of records from the pruned state to the head |
| `SpoolTamper.StartNotRevisited` | crates/companion/src/chain.rs:8-34 | a chain that starts at the hash of the event before it never comes back to that hash unless two records collide |
| `SpoolTamper.HeadDeterminesRecords` | crates/companion/src/chain.rs:8-34 | under a collision-free hash, linked chains with one start and one head are the same records; only a head back at the start has to be ruled out |
| `SpoolTamper.HeadDeterminesRows` | crates/companion/src/spool/mod.rs:712-771 | so two row lists that both pass the walk to one head other than its start agree in length, ids, source sequences, parents and payload digests |
| `SpoolTamper.HeadDeterminesPrunedRows` | crates/companion/src/spool/mod.rs:712-771 | after a pruned event they agree for every head, by collision-freedom alone |
| `TarReader.BoundedByteReader.EnsureChunk` | apps/worker/src/services/npm-validation-materializer.ts:633-652 | moves to the next non-empty chunk without changing what is unread, or reports the end or the limit |
| `TarReader.BoundedByteReader.ReadExactly` | apps/worker/src/services/npm-validation-materializer.ts:580-597 | reads from the chunks what a read of the whole byte sequence would give, unless the stream is over its limit |
| `TarReader.BoundedByteReader.ReadRequired` | apps/worker/src/services/npm-validation-materializer.ts:599-605 | as above, with the clean end an error |
| `TarReader.BoundedByteReader.Skip` | apps/worker/src/services/npm-validation-materializer.ts:607-617 | passes over exactly the length, or fails because the stream is too short or too long |
| `TarReader.BoundedByteReader.AssertRemainingZero` | apps/worker/src/services/npm-validation-materializer.ts:619-631 | succeeds exactly when every unread byte is zero, and then the total is the stream's length |
| `TarPaths.HasFileAsParent` | apps/worker/src/services/npm-validation-materializer.ts:791-801 | the double loop finds whether some recorded path has a recorded file among its cut-off ancestors |
| `TarPaths.FileAsParentMeaning` | apps/worker/src/services/npm-validation-materializer.ts:791-801 | which is exactly that some recorded file has a recorded path below it |
| `TarPaths.PathExactly` | apps/worker/src/services/npm-validation-materializer.ts:759-789 | a path, without one slash at its end, is taken for a root and a path below it if and only if it is short, plain, of proper pieces and not off limits; what is improper and what is off limits have their own errors |
| `TarHeaders.OctalExactly` | apps/worker/src/services/npm-validation-materializer.ts:696-712 | a numeric field reads as n if and only if it is n in octal digits among blanks and NULs, starts with no byte over 127, and is a safe integer |
| `TarHeaders.HeaderExactly` | apps/worker/src/services/npm-validation-materializer.ts:675-688 | a header is sound if and only if its magic reads ustar and its checksum field is the sum of its bytes with blanks for the field itself |
| `TarHeaders.HeaderPathExactly` | apps/worker/src/services/npm-validation-materializer.ts:690-694 | the header's path is its name, behind its prefix and a slash if there is a prefix |
| `TarHeaders.ValidateTarHeader` | apps/worker/src/services/npm-validation-materializer.ts:675-688 | the summing loop refuses a header exactly when its magic, its checksum field or its sum is wrong |
| `TarPax.ParseRecord` | apps/worker/src/services/npm-validation-materializer.ts:717-735 | reads one record with every slice in range, or refuses it, as a function of the payload from the offset on |
| `TarPax.ParsePax` | apps/worker/src/services/npm-validation-materializer.ts:714-746 | the parsing loop ends and computes the specified fields |
| `TarPax.RecordsParse` | apps/worker/src/services/npm-validation-materializer.ts:714-746 | any sequence of self-counting records is accepted exactly when no field is malformed or set twice, with those fields |
| `TarPax.PaxExactly` | apps/worker/src/services/npm-validation-materializer.ts:714-746 | the accepted payloads are exactly those that split into self-counting records with these fields |
| `TarPax.FieldsExactly` | apps/worker/src/services/npm-validation-materializer.ts:714-746 | so a payload is accepted with these fields if and only if it is cut into self-counting records that all have a keyword, and each field is what the one record for its keyword says, or absent |
| `TarPax.SplitUnique` | apps/worker/src/services/npm-validation-materializer.ts:714-746 | a payload splits into self-counting records in at most one way |
| `TarArchive.ReadPax` | apps/worker/src/services/npm-validation-materializer.ts:460-482 | reads a pax header and its padding as the specification does on the unread bytes |
| `TarArchive.ReadLongName` | apps/worker/src/services/npm-validation-materializer.ts:483-490 | reads a long name and its padding as the specification does |
| `TarArchive.ReadEntry` | apps/worker/src/services/npm-validation-materializer.ts:495-541 | judges an entry and passes over its content as the specification does |
| `TarArchive.ReadHeaderBlock` | apps/worker/src/services/npm-validation-materializer.ts:456-541 | judges a header and reads on by its type flag as the specification does |
| `TarArchive.NextBlock` | apps/worker/src/services/npm-validation-materializer.ts:443-542 | one turn of the loop agrees with the block reader on the unread bytes, in result, error and what is left |
| `TarArchive.ScanStream` | apps/worker/src/services/npm-validation-materializer.ts:443-542 | the whole loop agrees with the scan of the whole byte sequence |
| `TarArchive.InspectStream` | apps/worker/src/services/npm-validation-materializer.ts:424-565 | within the limit the answer is that of the whole byte sequence, error codes included; over it some error is certain |
| `TarArchive.InspectTwice` | apps/worker/src/services/npm-validation-materializer.ts:424-565 | two ways of cutting the same bytes are both accepted with one result or both refused, and within the limit with one error |
| `TarProperties.PaxSizeExactly` | apps/worker/src/services/npm-validation-materializer.ts:748-757 | a pax size is n exactly when it is n as a decimal number without superfluous zeros, and a safe integer |
| `TarProperties.TellsExactly` | apps/worker/src/services/npm-validation-materializer.ts:456-541 | reading a header and its content agrees with what they say by type flag: recorded size, path, pax fields or long name, each put without the functions that read it |
| `TarProperties.AcceptedLayout` | apps/worker/src/services/npm-validation-materializer.ts:443-542 | an accepted archive is its items laid end to end from offset zero, each header at a multiple of 512 and true to its item, the fields of a pax header those of its payload, a long name its payload without trailing NULs, and then at least two blocks of zeros only |
| `TarProperties.AcceptedTree` | apps/worker/src/services/npm-validation-materializer.ts:424-565 | an accepted archive has one root, proper relative paths, all distinct, no path below a file, nothing off limits, and a report whose counts, sums and bounds are those of its entries |
| `TarProperties.HeadersServeOneEntry` | apps/worker/src/services/npm-validation-materializer.ts:460-499 | each pax header or long name is consumed by the first entry after it, and whatever an entry consumed is the last such header before it |
| `TarProperties.InspectExactly` | apps/worker/src/services/npm-validation-materializer.ts:424-565 | the bytes are accepted with these items if and only if the items lie end to end as said and then zeros, make one tree of distinct paths with no path below a file and within every limit, and match their extended headers with entries one for one; so a byte sequence reads in one way |
| `TarRefusals.RefusedWith` | apps/worker/src/services/npm-validation-materializer.ts:443-565 | a refused archive gets the error that its first fault calls for: the items before it are as many as can be read, and the header or content behind them has the field, size, path, kind or place that the error names, in the order in which they are looked at; otherwise the blocks end properly and the archive is invalid as a whole |
| `TarProperties.AcceptsArchives` | apps/worker/src/services/npm-validation-materializer.ts:424-565 | the inspector accepts exactly the byte sequences that are such an archive |
| `TarProperties.ServesIsInjective` | apps/worker/src/services/npm-validation-materializer.ts:460-499 | no two headers of one kind serve the same entry |
| `Json.QuoteRoundTrip` | packages/integrations/src/internal/digest.ts:8-10 | reading undoes `JSON.stringify` of a string, lone surrogates and escapes included, and stops at its closing quote |
| `CanonicalReader.PrintReadsBack` | packages/integrations/src/internal/digest.ts:7-18 | canonical text is JSON: a reader takes exactly one value from it, equal to the printed one, with the keys of each object in the order of the comparison |
| `CanonicalJson.PrintIsText` | packages/integrations/src/internal/digest.ts:7-18 | canonical printing writes out the normal form: members sorted at every depth, NaN and infinities as null |
| `CanonicalJson.PrintInjective` | packages/integrations/src/internal/digest.ts:7-18 | two values print alike exactly when their normal forms are equal, for any comparison of keys |
| `CanonicalJson.SamePlace` | packages/integrations/src/internal/digest.ts:14 | property order tells any two different keys apart unless neither is an array index |
| `CanonicalJson.PrintTellsApart` | packages/integrations/src/internal/digest.ts:7-18 | values that print alike are equal, for any comparison of keys at all |
| `CanonicalJson.PrintEqualsSame` | packages/integrations/src/internal/digest.ts:7-18 | a value of which no object has two names that tie prints like another exactly when they are equal as values, key order ignored, for any preorder of keys; what array indices tie with does not matter, property order settles it |
| `CanonicalJson.TiedKeysBreakIt` | packages/integrations/src/internal/digest.ts:14-16 | two names the comparison ties give equal objects, both in property order, that print differently |
| `CanonicalJson.TiedPrintsApart` | packages/integrations/src/internal/digest.ts:7-18 | every value with two tied names in one of its objects equals a value a program can hold that prints differently, the one with those members exchanged |
| `CanonicalJson.UntiedExactly` | packages/integrations/src/internal/digest.ts:7-18 | a given value prints like exactly the values it equals if and only if no two names in one of its objects tie |
| `CanonicalJson.OrderFreeExactly` | packages/integrations/src/internal/digest.ts:7-18 | this holds of all values at once if and only if the comparison tells any two names apart |
| `PackageJson.Mutate` | apps/worker/src/services/npm-validation-materializer.ts:67-113 | the program's assignments make the specified document, or none when it throws |
| `PackageJson.StrippedLookup` | apps/worker/src/services/npm-validation-materializer.ts:877-890 | removing the target leaves every other property, and the section without the dependency or nothing if it had no other |
| `PackageJson.CloneNormal` | apps/worker/src/services/npm-validation-materializer.ts:881 | cloning through JSON text changes nothing canonical text can see |
| `PackageJson.AcceptsNormal` | apps/worker/src/services/npm-validation-materializer.ts:836-854 | the check accepts exactly when the target is as asked and both documents without it have one normal form |
| `PackageChange.AcceptsExactly` | apps/worker/src/services/npm-validation-materializer.ts:836-854 | for any documents and any comparison of keys the check accepts only those with the target as asked and nothing else changed, up to an emptied section; all of them when no two names in one object tie in what is left of the original |
| `PackageChange.AcceptsDependencies` | apps/worker/src/services/npm-validation-materializer.ts:836-854 | for validated documents that is: the target is as asked and every other dependency and every other property is as it was |
| `PackageChange.AcceptsAllExactly` | apps/worker/src/services/npm-validation-materializer.ts:836-854 | for an original with a plain section, and not the removal that can never be confirmed, the check accepts every document with only the change if and only if no two names tie in what is left of the original |
| `PackageChange.AskedExactly` | apps/worker/src/services/npm-validation-materializer.ts:842-849 | the target is as asked if and only if a set dependency is in its section with that version, and a removed one is not and has no namesake among what objects inherit |
| `PackageChecks.ValidatedExactly` | apps/worker/src/services/npm-validation-materializer.ts:803-834 | a document passes if and only if no member has one of the four names of workspaces, overrides and bundled dependencies, a package manager is a text of the allowed form, and each dependency section is an object from npm names, spelled out letter by letter, to versions of the allowed form |
| `PackageChecks.ThrowsExactly` | apps/worker/src/services/npm-validation-materializer.ts:67-96 | the program throws exactly for another section, a name npm does not allow, a section that is no object, or a set without a version |
| `PackageChange.InheritedPackageName` | apps/worker/src/services/npm-validation-materializer.ts:24 | `constructor` is the only package name that is also a member every object inherits |
| `PackageChange.ChangeKeepsValid` | apps/worker/src/services/npm-validation-materializer.ts:803-834 | a validated document and operation are always changed, and the written document is validated again |
| `PackageChange.ChangeAccepted` | apps/worker/src/services/npm-validation-materializer.ts:67-113 | with one comparison of names in the sandbox and another in the worker, what the program writes passes the check if and only if it is not the removal of a package called `constructor` from a section that keeps another and, for a set, the sandbox puts the other names the worker ties in the order they had |
| `PackageChange.ChangeAcceptedAlike` | apps/worker/src/services/npm-validation-materializer.ts:94-96 | in particular that removal alone fails when both compare names alike, ties or not, and when the worker ties none of the other names |
| `PackageChange.ReorderedTieRefused` | apps/worker/src/services/npm-validation-materializer.ts:933-935 | a section of two names the worker ties and the sandbox puts the other way round: setting a third changes nothing else and is refused |
| `PackageChange.ChangeIsAsAsked` | apps/worker/src/services/npm-validation-materializer.ts:67-113 | however names are compared, the written document has the target as asked and everything else as it was, save for that removal |
| `Frames.JsonFrameDecoder.Push` | apps/extension/src/companion/ipc.ts:404-432 | a push decodes the buffer and the chunk as one: same frames, same leftover, a throw exactly at a bad frame, and a leftover shorter than four plus the limit |
| `Frames.EncodeJsonFrame` | apps/extension/src/companion/ipc.ts:370-387 | writes the big-endian length and then the payload, or refuses an empty, oversized or unprintable one |
| `Frames.ChunkingIsInvisible` | apps/extension/src/companion/ipc.ts:404-432 | however a stream is cut the decoder throws exactly when one push would; if not, frames and leftover are equal, and if so its frames are the first of the whole |
| `Frames.LeftoverSettled` | apps/extension/src/companion/ipc.ts:404-432 | what is left over holds no complete frame and is shorter than four plus the limit |
| `Frames.FramesRoundTrip` | apps/extension/src/companion/ipc.ts:370-432 | concatenated encoder outputs decode to the original values with nothing left |
| `Frames.DecodeExactly` | apps/extension/src/companion/ipc.ts:404-432 | a buffer decodes to these frames and this leftover if and only if it is made of them |
| `Frames.Incoming.ReadFrame` | crates/companion/src/ipc.rs:676-699 | the Companion's reader takes the frame at the front, a clean end only at a frame boundary, and the right error otherwise |
| `Frames.ReadersAgree` | crates/companion/src/ipc.rs:676-699 | read to the end, it takes the frames the extension's decoder gives and ends cleanly exactly when nothing is left over |
| `IpcSession.IpcTransport.WriteFrame` | crates/companion/src/ipc.rs:701-718 | writes length and payload when they fit the limit, and nothing otherwise |
| `IpcSession.Connection.ReceiveRequest` | crates/companion/src/ipc.rs:668-733 | reads one frame, and accepts it only with the right version, a new version 4 id, a valid kind and an object payload |
| `IpcSession.Connection.AnswerChallenge` | crates/companion/src/ipc.rs:539-568 | answers a good challenge with the server's proof over both nonces |
| `IpcSession.Connection.CheckProof` | crates/companion/src/ipc.rs:570-600 | acknowledges the client's proof only for this connection's nonces and the right code |
| `IpcSession.Connection.AnswerRequest` | crates/companion/src/ipc.rs:603-624 | decodes, calls the handler at most once and replies under the request's id |
| `IpcSession.Connection.ServeConnection` | crates/companion/src/ipc.rs:531-626 | the whole connection is the specified session |
| `IpcGuarantees.CallsNeedProof` | crates/companion/src/ipc.rs:531-626 | whatever the peer sends, the handler is called only after an accepted proof, no request id is accepted twice, and its final state is made by the logged calls alone |
| `IpcTranscript.SoundExactly` | crates/companion/src/ipc.rs:720-817 | an envelope is read if and only if it is of protocol version 1, with a version 4 UUID, a kind in small letters and an object payload |
| `IpcTranscript.ConnectionExactly` | crates/companion/src/ipc.rs:531-675 | whatever the peer sends: every request is sound with an id of its own, the first is a challenge answered with the server's code, the second a proof of the secret, each later one is called for what its kind asks and is told what came of it, and the connection ends for one stated reason |
| `IpcTranscript.CallsNeedSecret` | crates/companion/src/ipc.rs:570-600 | a call is made only after a proof request for both nonces whose code decodes to the bytes of the code made with the secret |
| `IpcTranscript.WrongProofRefused` | crates/companion/src/ipc.rs:570-600 | a second request without such a proof ends the connection as an authentication failure, or an invalid frame if it has no proof payload, with nothing called and the handler as it was |
| `IpcGuarantees.ClientReadsReplies` | crates/companion/src/ipc.rs:602-626 | the extension's decoder reads exactly one response a request, in order and under its id, save that the last may be missing |
| `IpcGuarantees.RequestsAreFirstFrames` | crates/companion/src/ipc.rs:676-733 | the accepted requests are the first frames the peer sent |
| `IpcGuarantees.ConnectionKeepsBrackets` | crates/companion/src/main.rs:257-376 | a connection to the runtime handler is a run of it, in brackets throughout if and only if none of its calls is stale |
| `RuntimeHandler.RuntimeIpcHandler.AppendEvent` | crates/companion/src/main.rs:235-254 | appends one event with a drawn id to the spool and reports its sequence |
| `RuntimeHandler.RuntimeIpcHandler.CreateCheckpoint` | crates/companion/src/main.rs:282-305 | needs an active observation and writes a checkpoint for its session |
| `RuntimeHandler.RuntimeIpcHandler.StartObservation` | crates/companion/src/main.rs:307-344 | repeats the answer for the same project and surface, refuses another, and otherwise opens a session once its start is written |
| `RuntimeHandler.RuntimeIpcHandler.StopObservation` | crates/companion/src/main.rs:346-375 | closes only the active session, and only once its stop is written |
| `HandlerAnswers.HandleExactly` | crates/companion/src/main.rs:235-375 | every call is answered field by field from what is active, what is drawn and what the spool answered, appends the event of its kind or none, and leaves the observation as described |
| `RuntimeHandler.CallKeepsBrackets` | crates/companion/src/main.rs:282-375 | from brackets, a call leaves brackets if and only if it is not stale: a start or a stop that takes effect under a valid event id the spool already knows |
| `RuntimeHandler.BracketsExactly` | crates/companion/src/main.rs:282-375 | the events written since the process started are brackets that never overlap, with an observation active exactly while the last is open, throughout a run if and only if no call of the run is stale |
| `RuntimeHandler.BracketsInEveryRun` | crates/companion/src/main.rs:282-375 | so at the end of every run without a stale call the events written are brackets and an observation is active exactly while the last is open |
| `RuntimeHandler.BracketMeaning` | crates/companion/src/main.rs:282-375 | in such a log each checkpoint and stop belongs to the bracket its session opened, and each start follows a stop |
| `RuntimeHandler.StaleStartBreaks` | crates/companion/src/main.rs:307-344 | with an id the spool already knows a start sets the active observation but writes nothing |
| `RuntimeHandler.IdDrawnTwiceBreaks` | crates/companion/src/main.rs:307-375 | one id drawn for a start and again for its stop: the stop is answered, nothing is written, and the bracket stays open |
| `RuntimeHandler.TraceInEveryRun` | crates/companion/src/main.rs:235-254 | each event written is the accepted event of its sequence in the spool's history, and sequences ascend |
| `ObservationLease.NewPolicy` | crates/companion/src/observation_lease.rs:43-59 | a policy is made exactly from a positive representable timeout and a quiet period no longer than it |
| `ObservationLease.ObservationLease.RecordProcessStart` | crates/companion/src/observation_lease.rs:160-182 | admits a process of the root's boot through a known parent, resets the quiet mark and advances |
| `ObservationLease.ObservationLease.RecordProcessExit` | crates/companion/src/observation_lease.rs:187-201 | removes a live process, marks the quiet when the last one goes, and advances |
| `ObservationLease.ObservationLease.RequestSessionEnd` | crates/companion/src/observation_lease.rs:206-218 | starts the drain once, with its deadline and quiet mark |
| `ObservationLease.ObservationLease.AdvanceTo` | crates/companion/src/observation_lease.rs:225-263 | ends the drain as observer health, deadline and quiet barrier say |
| `ObservationLease.InvariantInEveryRun` | crates/companion/src/observation_lease.rs:160-274 | draining has a deadline and a quiet mark exactly when nothing is live, checkpointing and ended have nothing live, gaps exist exactly in partial capture, and all known processes share the root's boot |
| `ObservationLease.LineageInEveryRun` | crates/companion/src/observation_lease.rs:160-182 | the lineage is the root and the admitted processes, each through a parent known before it |
| `ObservationLease.KnownDescends` | crates/companion/src/observation_lease.rs:160-182 | the known processes are exactly those with a chain of admitted parents up to the root |
| `ObservationLease.DeadlineSetBy` | crates/companion/src/observation_lease.rs:206-218 | only an end request while observing sets the deadline, at its time plus the timeout, saturating |
| `ObservationLease.DeadlineIsFixed` | crates/companion/src/observation_lease.rs:206-263 | once set, the deadline never moves |
| `ObservationLease.DeadlineEndsDrain` | crates/companion/src/observation_lease.rs:225-252 | at or past the deadline every clock reading and every exit leaves draining |
| `ObservationLease.EarlyOnlyAfterQuiet` | crates/companion/src/observation_lease.rs:225-263 | with times that never go back, checkpointing begins before the deadline only when no descendant was live for the whole quiet period |
| `ObservationLease.CheckpointingBegins` | crates/companion/src/observation_lease.rs:225-263 | so checkpointing begins only at a time, and either at or past the deadline or after such a quiet period |
| `ObservationLease.DrainExactly` | crates/companion/src/observation_lease.rs:160-263 | an event in a drain makes it partial with the observer-loss gap exactly when the observer is lost, partial with the timeout gap exactly when the deadline has come with someone live, and checkpointing exactly when nobody is live and the deadline or a whole quiet period has passed |
| `ObservationLease.EndExactly` | crates/companion/src/observation_lease.rs:206-218 | a request to end sets deadline and quiet mark while observing, may end the drain at once, and changes nothing otherwise |
| `ObservationLease.OverStays` | crates/companion/src/observation_lease.rs:160-274 | once over, a lease keeps its phase, gaps and lineage, save that checkpointing completes |
| `CodexAdapter.DeltaLeads` | crates/companion/src/observation.rs:104-119 | a delta applied to the inventory before gives the one after, with nothing in it that was not needed |
| `CodexAdapter.CodexAdapter.NormalizeDocument` | crates/companion/src/providers/codex.rs:296-330 | checks the document's header, drops an id seen before, and passes the event on |
| `CodexAdapter.CodexAdapter.NormalizeAdmitted` | crates/companion/src/providers/codex.rs:332-423 | orders, tracks, snapshots and emits one event as specified |
| `CodexHistory.AdapterFollowsHistory` | crates/companion/src/providers/codex.rs:296-423 | after any stream the adapter's answer is the one its history of consumed ids and accepted events determines |
| `CodexHistory.EmittedOnceAndInOrder` | crates/companion/src/providers/codex.rs:322-352 | no event id is given out twice, and sequences ascend strictly within each session |
| `CodexHistory.SessionEndExactly` | crates/companion/src/providers/codex.rs:359-363 | a session end reports a missing close exactly when some start given out has no later close of its key |
| `CodexHistory.CloseExactly` | crates/companion/src/providers/codex.rs:369-377 | a close reports a missing start exactly when its action was not open |
| `CodexHistory.ConsumedExactly` | crates/companion/src/providers/codex.rs:322-327 | the ids consumed are exactly those of the earlier documents let in, whatever became of their events |
| `CodexHistory.GivenOutExactly` | crates/companion/src/providers/codex.rs:322-352 | an event is given out if and only if it is valid, not late, and no earlier document let in had its id; if one had, it is dropped as a duplicate |
| `CodexHistory.DeltaExactly` | crates/companion/src/observation.rs:272-292 | with an inventory before, the event's own or its command's standing start snapshot, and one after, the delta leads from one to the other; otherwise the gap says so |
| `CodexHistory.DecidedOnce` | crates/companion/src/providers/codex.rs:322-333 | a later document with an id already consumed is dropped, even when the first was invalid or out of order |
| `CodexHistory.CorrectedResendDropped` | crates/companion/src/providers/codex.rs:322-352 | four documents: a corrected turn is given out on its own, but dropped after an invalid turn with its id, and after a late one |
| `CodexAnswers.AnswersExactly` | crates/companion/src/providers/codex.rs:296-423 | the whole answer to a document, from the documents before it and the events they gave: the error or the gap of one not let in, the drop of a repeated id, and otherwise the event field by field, its boundary, its action with outcome, effect and delta, and exactly its gaps |
| `ValidationOutcomes.CodeUnitsTotalOrder` | apps/worker/src/services/validation-outcomes.ts:114 | the default order of `sort` is a total order of strings |
| `ValidationOutcomes.ResultsMeaning` | apps/worker/src/services/validation-outcomes.ts:119-121 | the map built from distinct results holds each under its id |
| `ValidationOutcomes.MatchesMeaning` | apps/worker/src/services/validation-outcomes.ts:207-235 | an attestation matches when its source, patch, contract and policy digests are those of the run, its ids sort to the required ones, and each target digest is that of the result |
| `ValidationOutcomes.WorstFailureReported` | apps/worker/src/services/validation-outcomes.ts:96-104 | the failure reported is the most serious one present, with exactly the targets it happened to |
| `ValidationVerdict.RefusedExactly` | apps/worker/src/services/validation-outcomes.ts:237-280 | facts are refused for a digest that is none, then for ids that are empty or repeated, then for a result nobody required |
| `ValidationVerdict.VerdictExactly` | apps/worker/src/services/validation-outcomes.ts:110-235 | any other facts get the verdict they deserve: each reason with its status, the condition it means and exactly the targets it concerns, and verified only with an attestation made for this source, patch, contract and policy |
| `ValidationVerdict.OtherBindingRefused` | apps/worker/src/services/validation-outcomes.ts:207-216 | if nothing else is wrong, an attestation made for another source, patch, contract or policy is a binding mismatch on all required targets |
| `ValidationOutcomes.VerifiedExactly` | apps/worker/src/services/validation-outcomes.ts:110-166 | verified if and only if all facts are complete and the default order and the locale sort the target ids alike |
| `ValidationOutcomes.SortsAlikeExactly` | apps/worker/src/services/validation-outcomes.ts:114-228 | the locale sorts ids as code units do if and only if it respects code units on them and the ids it ties are in that order |
| `ValidationOutcomes.VerifiedByPairs` | apps/worker/src/services/validation-outcomes.ts:110-235 | verified if and only if all facts are complete, the locale respects code units on every pair of required ids, and ids it ties are attested in code unit order |
| `ValidationOutcomes.AgreeingOrdersSuffice` | apps/worker/src/services/validation-outcomes.ts:110-235 | when the locale orders the required ids of the run as code units do, verified if and only if all facts are complete |
| `ValidationOutcomes.UpperCaseBeforeLower` | apps/worker/src/services/validation-outcomes.ts:219-228 | a complete run with targets `B` and `a` is refused under a locale that puts `a` first |
| `ValidationOutcomes.CompleteButRefused` | apps/worker/src/services/validation-outcomes.ts:159-161 | a complete run the orders disagree on is refused as a binding mismatch |
| `ValidationOutcomes.OrderIrrelevantExactly` | apps/worker/src/services/validation-outcomes.ts:110-276 | a run has the result of all its rearrangements, error and affected targets included, unless it is complete, the locale respects code units on its required ids, and two of them tie; then it has not |
| `ValidationOutcomes.VerdictIgnoresListOrder` | apps/worker/src/services/validation-outcomes.ts:110-276 | in particular when no attested ids of the run tie |
| `ValidationOutcomes.OrderIrrelevantForAll` | apps/worker/src/services/validation-outcomes.ts:110-276 | all runs at once ignore list order if and only if the locale ties no two usable ids |
| `Sorting.SortsAlike` | packages/integrations/src/internal/digest.ts:14-15 | two arrangements sort alike under a stable sort exactly when no tie was reordered |
| `Sorting.SwapSortsApart` | packages/integrations/src/internal/digest.ts:14-15 | two different elements that tie sort differently once they are exchanged |
| `Sorting.PlacedSortAlike` | packages/integrations/src/internal/digest.ts:14-15 | keys in property order sort alike whatever the order of the names, if no two that property order leaves free tie |
| `Sorting.ResortedSortsAlike` | apps/worker/src/services/npm-validation-materializer.ts:94-96 | a section sorted by one comparison and enumerated again sorts under another as before if and only if the first leaves in order what ties under the second and has no place of its own |
| `Sorting.SortIgnoresOrder` | apps/worker/src/services/validation-outcomes.ts:114 | under a strict order sorting forgets the order of its input |

## Left out

- Spool: pragmas, `quick_check`, file creation, schema versioning, mutex poisoning, creation timestamps, and failures of
  the canonical serializer; a transaction is one step and an SQL error leaves the tables as they were.
- Spool.EncryptedSpool.RecordRetryAttempt: the attempt count is unbounded in the table, where SQLite would turn it into a
  floating-point number past 64 bits; a count past 32 bits is reported as corrupt, as in the code.
- Spool.EncryptedSpool.CommitAppend: rows and tables are values that the method reassigns, so durability across a crash in
  the middle of a commit is taken from the database.
- SpoolState.AppendTransaction: sealing fails only for want of randomness, not for a plaintext past the limit of the
  cipher; an envelope longer than any byte vector can be is refused as one whose length does not convert.
- SpoolGuarantees.IntegrityInEveryRun: when a needed version was rebound, the failure rests on the hypothesis that the
  cipher refuses that key on those rows; nothing is said of one that does not.
- SpoolGuarantees.CapacityInEveryRun: stated between restarts, since a restart may bring lower limits.
- SpoolTamper.HeadDeterminesRows: for a head equal to its start it needs that no record hashes to that head, which collision-freedom
  gives after a pruned event (`HeadDeterminesPrunedRows`); of a spool never pruned, that nothing hashes to the all-zero digest.
- TarArchive.InspectStream: gzip decompression, errors of the underlying stream, and their translation into
  `invalid_archive` are not modelled; the stream is its chunks.
- TarPax.ParsePax: text decoding is a parameter, and the byte order mark a text decoder strips is not modelled.
- PackageJson.Mutate: reading and writing the file, indentation, line ends, and a byte order mark (which the worker's
  decoder accepts and the program's parser does not); the two version patterns are predicates passed in.
- PackageChange.AcceptsAllExactly: says nothing of an original whose section is not an object, which validation refuses;
  the documents it ranges over are those `JSON.parse` can give, validated or not.
- PackageChange.ChangeAccepted: the lock file check, npm itself and the tree inventory between the two documents.
- CanonicalJson.PrintEqualsSame: numbers are known by their printed tokens, so `-0` and `0` are one value.
- Frames.EncodeJsonFrame: the JSON text of a value is a parameter; parsing is assumed to undo it.
- Frames.Incoming.ReadFrame: a read returns all it asked for or the stream has ended; partial reads and interrupted calls are
  not modelled.
- IpcSession.IpcTransport.WriteFrame: a frame is written whole or not at all, so a peer never sees part of one.
- IpcSession.Connection.CheckProof: the comparison of the codes is equality; its timing is not modelled.
- IpcSession.Connection.ServeConnection: sockets, pipes, timeouts as time, and drawing the server's nonce.
- The extension's client of the protocol, with its map of pending requests and their timers.
- RuntimeHandler.RuntimeIpcHandler.GetStatus: health, coverage and queue figures of the answers are left out.
- RuntimeHandler.BracketsInEveryRun: the handler's append is atomic here; appends cut in two by others are in `SpoolRuns`.
- CodexAdapter.CodexAdapter.NormalizeAdmitted: attribution, approvals, path pseudonyms and the other fields passed through
  unchanged are left out; they touch no state.
- ValidationOutcomes.VerifiedExactly: the reason code of a failed target is its outcome, one constructor for the seven names.
- Provider adapters other than Codex, `validate-candidate.ts` (it gives the fault classifier no control canary, so its
  verified branch cannot be reached), state transition tables, backoff arithmetic, source scanners, UI and clients of
  other services: they would add only easy members.
