# CrowdRelay verification models

Models of the parts of CrowdRelay whose correctness does not show in any one function:
an event-claim lease protocol, a concurrent cache, parsers, proof formats, two programs
that must agree, and operational scripts that may be cut short. Each model does what the
code does, branch by branch; where the code changes things step by step, so does the
model, in a class or a loop proved against a specification. The theorems are about that
specification: all runs, all interleavings, all inputs.

`dafny verify dfyconfig.toml` checks everything.

## What is here

- **Edge bridge** (`EdgeBridge`, `EdgeBridgeRuns`, `EdgeBridgeAnswers`): the claim table of
  the webhook bridge. Class `Bridge` performs the statements one at a time, any of which may
  throw; `StepOf` is the atomic step that each call amounts to. The theorems are about runs
  of any calls with any failures: commits of a key are more than the retention apart, claims
  at least the lease apart, superseded tokens are fenced, the winner's commit repeats. Every
  answer follows from the calls and answers before it: who holds a key, and until when.
- **City cache** (`CityCache`, `CityCacheRuns`, `CityAnswers`, `CityServer`): a snapshot
  behind a lock, a single-flight refresh and pages cached per snapshot. Requests interleave
  at every `await` and may be dropped there. `Arc` identity is an address that is reused as
  soon as nothing holds it. Class `Server` is the code over the shared cell, one method per
  stretch between two `await`s, each proved to be one step of the interleaving model. What
  every step leads to is told from the refreshes so far and the limit asked for.
- **OpenAPI checks** (`YamlScan`, `YamlMappings`, `YamlLines`, `YamlRoundTrip`,
  `JsonPointer`): the line scanner, the stack of open mappings against a declarative reading
  of indentation, a round trip from a tree of mappings through the text of a file, in every
  form that `openapi.yaml` uses, and back, and references against emitted paths.
- **Public proofs** (`Bytes`, `Merkle`, `MerkleBatches`, `ProofVerifier`, `DrawReceipt`):
  the API's Merkle trees and the offline verifier, complete and sound up to an exhibited
  collision between two inputs that were really hashed; which batches share a root; and the
  draw receipt's preimage with its decoder.
- **Concert tokens** (`Text`, `ConcertToken`, `TokenForms`): what `sign_token` prints,
  exactly what `verify_token` accepts, and which of those tokens are the signed ones.
- **Attestation and heartbeat** (`Manifest`, `Attestation`, `Heartbeat`,
  `AttestationFields`, `AttestationFailures`): the producer of the n8n workflow attestation
  and its checker, the exact condition of agreement, and what both accept, refuse and say,
  told from the fields of the documents.
- **Ratchets and scanners** (`ProductionBody`, `SqlRatchet`, `SizeRatchet`, `IncludeTree`):
  cutting test modules out of a source, two baselines that may only shrink, and a walk over
  a cyclic include graph.
- **Operations** (`Canary`, `CanaryReplies`, `CanaryRuns`, `ReleaseReceipts`, `ReleaseRuns`,
  `ReviewLoop`): a feature-flag canary that may fail or be interrupted at any request,
  release receipts written by a process that may crash or raise at any file operation, and
  the operator's review session.

## Where the code falls short of what is said of it

Each of these is kept as the code has it, with an input that shows it and the condition
under which the code does meet the property.

- A claim that throws can change the table: both sweeps run before `BEGIN`.
  `ThrowingClaimCanChangeTable` is a run whose last claim throws and empties the table;
  `FailedClaimKeepsTableIff` says for every fault when the table stays.
- A canary run that does not return 0 can leave the flag enabled with nothing to undo it:
  a signal in the `finally` block of a run that had succeeded. `LeaveInterrupted` makes such
  a run; `LeftChangedIff` is the exact condition for any run.
- The canary says "feature flag restored" also when restoring it failed: `UndoLost` makes
  such a run, and `SaysRestoredTrulyIff` says when the message is right.
- `generatedAt` drops the fraction of a second, so an attestation expires up to a second
  early (`FractionShortensTheWindow`; `ProducerAndCheckerAgree` is the exact window).
- The SQL write count skips more than test items. `RoundRemovesItemIff` is exact for any
  text behind `#[cfg(test)]`: it alone goes if and only if its braces first match up at its
  end. An item without braces takes the next block with it (`UseLineSwallowsFunction`), and
  an unmatched brace in a literal everything behind it (`LiteralBraceSwallowsRest`).
- `--write-baseline` of the size ratchet drops the failure of a file that outgrew its
  record but is not large (`SmallOutgrownRecordDropped`, `WriteKeepsGrowthIff`). That takes
  a record below the threshold, and a baseline without one never gets one
  (`WritesKeepGrowth`). A recorded file outside the walk escapes the bound
  (`UnseenFileEscapes`) that holds for every file inside it (`SlackNeverCompounds`).
- The usage text of the release receipts says that rollback restores the previous receipt.
  The code restores nothing: `RollBackKeepsCurrent` is such a run, `RollBackRestoresIff` and
  `RunRollBackRestoresIff` are the condition.
- A comment says that finalize only runs on success. It promotes a receipt of any status:
  `FailedBecomesCurrent`, and `CurrentPassedIff`.
- `phase` and `finalize` require a release id and act on the pending release whatever it is:
  `FinalizeOfAnother`, `FinalizeNamesPendingIff` and `PhaseNamesPendingIff`.
- The same comment says that a release that is rolled back was never promoted.
  `deploy-bluegreen.sh` rolls back when its `finalize` is interrupted, and then it may have
  been: `RolledBackReleaseStaysCurrent`, and `RolledBackIsCurrentIff`.
- Finalizing again after a crash can lose the previous receipt (`RetryLosesPrevious`,
  `RetryLosesPreviousIff`), and a rollback behind a finished release overwrites its receipt
  on file (`RollBackOverwritesReceipt`, `RunOnFileIff`).
- A concert token's text is not unique, for any claims (`AnotherTokenAccepted`); an accepted
  one is the signed one exactly if its parts are in canonical form (`AcceptedIsSignedIff`).
- A Merkle root does not determine the batch behind it (`RepeatedLastLeafHasSameRoot`);
  `SameRootIff` says exactly which batches share one.

## Model

| member | source | states |
|---|---|---|
| `EdgeBridge.LoadConfig` | ops/edge/bridge.js:24-32 | start-up fails exactly when the lease is not in 60..7200 or the retention not in 86400..31536000, and otherwise takes the given settings |
| `EdgeBridge.DigestsEqualExactly` | ops/edge/bridge.js:65-68 | the case-insensitive hex comparison of two digests is equality |
| `EdgeBridge.Bridge.constructor` | ops/edge/bridge.js:119-136 | the process starts on the table it finds, with no transaction open |
| `EdgeBridge.Bridge.Start` | ops/edge/bridge.js:119-140 | start-up fails exactly when `quick_check` does, and otherwise serves the table it finds |
| `EdgeBridge.Bridge.Rollback` | ops/edge/bridge.js:206 | restores the table of the open transaction's start and closes it |
| `EdgeBridge.Bridge.EndTransaction` | ops/edge/bridge.js:195 | a COMMIT that throws leaves the transaction open |
| `EdgeBridge.Bridge.AbortTransaction` | ops/edge/bridge.js:198 | ROLLBACK inside the `try`, and what it leaves when it throws |
| `EdgeBridge.Bridge.Caught` | ops/edge/bridge.js:206 | whatever was thrown, the transaction is closed and undone |
| `EdgeBridge.Bridge.DeleteStale` | ops/edge/bridge.js:147-148 | one sweep removes a row exactly if it has the status and was updated before the cutoff, and keeps every other as it is |
| `EdgeBridge.Bridge.TryClaim` | ops/edge/bridge.js:192-205 | the statements of the claim transaction, failing at any database operation, against the transaction as one atomic step |
| `EdgeBridge.Bridge.ClaimTransaction` | ops/edge/bridge.js:191-206 | the whole transaction is atomic: it returns with none open and the table either as the step says or as it was |
| `EdgeBridge.Bridge.VerifyAndClaim` | ops/edge/bridge.js:183-207 | a call does to the table, and answers, what the specification step says, for every failure point |
| `EdgeBridge.Bridge.TryCommit` | ops/edge/bridge.js:216-225 | the statements of the commit transaction, failing anywhere, against the atomic step |
| `EdgeBridge.Bridge.Commit` | ops/edge/bridge.js:208-227 | the same for a whole commit call, invalid identities included |
| `EdgeBridge.Bridge.TryRelease` | ops/edge/bridge.js:231-237 | the statements of the release transaction, failing anywhere, against the atomic step |
| `EdgeBridge.Bridge.Release` | ops/edge/bridge.js:228-239 | the same for a whole release call |
| `EdgeBridgeRuns.RowChangeOf` | ops/edge/bridge.js:183-239 | every call changes the row of any one key in one of six named ways, each with the condition under which the code does it |
| `EdgeBridgeRuns.StepKeepsInv` | ops/edge/bridge.js:144-148 | every call keeps every row well formed: an inflight row has a token, no committed hash and one timestamp; a committed row has no token; both hashes come from one event id |
| `EdgeBridgeRuns.AlwaysWellFormed` | ops/edge/bridge.js:183-239 | so every row of every table of every run is well formed and was written no later than now |
| `EdgeBridgeRuns.CommittedRowOnlySwept` | ops/edge/bridge.js:189-239 | a committed row is never reclaimed, recommitted or released: only the sweep of an expired one removes it |
| `EdgeBridgeRuns.RowSource` | ops/edge/bridge.js:187-202 | the hashes of every row are those of an event id that an earlier call of the run presented |
| `EdgeBridgeRuns.HashCollisionNeedsShaCollision` | ops/edge/bridge.js:198 | `claim_hash_collision` is answered only if two presented event ids have one SHA-256 |
| `EdgeBridgeRuns.CommittedUntilSwept` | ops/edge/bridge.js:189-199 | after a commit its row stays unchanged until more than the retention has passed |
| `EdgeBridgeRuns.CommitsMoreThanRetentionApart` | ops/edge/bridge.js:213-227 | in every run two first-time commits of one claim key are more than the retention apart |
| `EdgeBridgeRuns.ClaimHeldForLease` | ops/edge/bridge.js:189-203 | until the lease ends or the key is released, a claim's row is its own: inflight with its token, or committed by it |
| `EdgeBridgeRuns.ClaimsAtLeastLeaseApart` | ops/edge/bridge.js:189-203 | two claims of one key with no release between are at least the lease apart, whichever way the key was freed |
| `EdgeBridgeRuns.InflightSource` | ops/edge/bridge.js:195-202 | the token of an inflight row is the one the last claim of its key handed out |
| `EdgeBridgeRuns.CommittedSource` | ops/edge/bridge.js:219-225 | the hash of a committed row is that of the token that committed it as owner, and the key has not been claimed since |
| `EdgeBridgeRuns.SupersededTokenOwnsNothing` | ops/edge/bridge.js:145-146 | once a key is claimed again, no row of any key is held by the superseded token |
| `EdgeBridgeRuns.SupersededTokenIsFenced` | ops/edge/bridge.js:208-239 | so no later commit or release with it changes the table, and such a commit is answered `ok` only on a hash collision with the winner's token |
| `EdgeBridgeRuns.RowStaysForRetention` | ops/edge/bridge.js:189-199 | within the retention of a commit its row is there and committed |
| `EdgeBridgeRuns.SameRowWhileCommitted` | ops/edge/bridge.js:183-239 | while a committed row exists, no call changes it |
| `EdgeBridgeRuns.WinnerRepeatsOthersRefused` | ops/edge/bridge.js:213-239 | for as long as the row exists the winner's repeated commit is idempotent, and every other commit and every release is refused, with the table unchanged |
| `EdgeBridgeRuns.RedeliveryIsDuplicate` | ops/edge/bridge.js:193-199 | within the retention a redelivered event is a duplicate, or its id collides with another |
| `EdgeBridgeRuns.FailedCallKeepsTable` | ops/edge/bridge.js:183-239 | a failed commit or release leaves the table as it was; a failed claim may have swept it and nothing more |
| `EdgeBridgeRuns.FailedClaimKeepsTableIff` | ops/edge/bridge.js:189-206 | a failed claim leaves the table unchanged exactly when its first sweep failed, or nothing was stale for the sweeps that ran |
| `EdgeBridgeRuns.ThrowingClaimCanChangeTable` | ops/edge/bridge.js:189-191 | a run of three calls whose last, a claim, throws and empties the table: the sweeps run before BEGIN |
| `EdgeBridgeAnswers.TableIsRecord` | ops/edge/bridge.js:189-239 | the row of every key, and whether there is one, follows from the recorded calls and answers: the claim that holds it or the commit that finished it, unless a sweep has since forgotten it |
| `EdgeBridgeAnswers.ClaimAnswer` | ops/edge/bridge.js:193-205 | the exact answer to a verified event from that record: claimed if the key is free or was held for the lease, busy within the lease, a duplicate once finished, a collision for another event |
| `EdgeBridgeAnswers.CommitAnswer` | ops/edge/bridge.js:208-227 | the exact answer to a commit: done for the token that holds the key, repeated for the one that committed it, otherwise refused, and why |
| `EdgeBridgeAnswers.ReleaseAnswer` | ops/edge/bridge.js:228-239 | the exact answer to a release |
| `EdgeBridgeAnswers.IdentityForm` | ops/edge/bridge.js:208-212 | a claim identity is valid exactly if it is 64 lower-case hex digits and a token of 36 hex digits and hyphens |
| `EdgeBridgeAnswers.FaultAnswer` | ops/edge/bridge.js:183-239 | a database operation that fails and is reached makes the call throw; nothing is granted by it |
| `EdgeBridgeAnswers.ExpiredLeaseIsReclaimed` | ops/edge/bridge.js:200-205 | the event of a dead worker is handed out again from exactly one lease after its claim on, flagged as reclaimed unless the row was swept in between, and is busy before that |
| `EdgeBridgeAnswers.DeadWorkersEventIsReclaimed` | ops/edge/bridge.js:200-203 | a run in which that happens at the first possible moment |
| `EdgeBridgeAnswers.HolderCommits` | ops/edge/bridge.js:223-225 | the holder's commit is done as long as its claim was neither swept, released nor claimed over |
| `EdgeBridgeAnswers.HolderReleases` | ops/edge/bridge.js:235-237 | and so is its release |
| `EdgeBridgeAnswers.FreeKeyIsClaimed` | ops/edge/bridge.js:194-197 | a key without a row is claimed by the next fault-free call for its event |
| `EdgeBridgeAnswers.ReleasedIsFree` | ops/edge/bridge.js:235-237 | behind a release the key has no row until it is claimed again |
| `CityCache.SnapshotCell.constructor` | crates/crowdrelay-api/src/acquisition.rs:99-105 | an empty snapshot that was never filled |
| `CityCache.SnapshotCell.CachedSnapshot` | crates/crowdrelay-api/src/acquisition.rs:179-189 | gives the current items exactly when there was a refresh that is not older than the age limit, if there is one |
| `CityCache.SnapshotCell.Replace` | crates/crowdrelay-api/src/acquisition.rs:231-235 | after a refresh no page of the replaced items is left to be served |
| `CityCache.SnapshotCell.Lookup` | crates/crowdrelay-api/src/acquisition.rs:260-267 | a page found is what rendering the held items would give, and one is found exactly if they are current and it is stored |
| `CityCache.SnapshotCell.Store` | crates/crowdrelay-api/src/acquisition.rs:287-293 | stored pages keep describing the current items: the page is kept if its items are current, superseded items add none, and nothing else changes |
| `CityServer.Server.constructor` | crates/crowdrelay-api/src/acquisition.rs:99-105 | the shared state of the interleaving model, and its invariant, hold at the start |
| `CityServer.Server.Arrive` | crates/crowdrelay-api/src/acquisition.rs:250-256 | a new request is refused for a bad limit or waits for the snapshot, as one step of the model |
| `CityServer.Server.HeldIsKnown` | crates/crowdrelay-api/src/acquisition.rs:264 | whatever a request holds, equal addresses are equal contents, so the cell's address comparisons are right |
| `CityServer.Server.Read` | crates/crowdrelay-api/src/acquisition.rs:212-228 | what a request does after each read of the cell is what the model says |
| `CityServer.Server.Render` | crates/crowdrelay-api/src/acquisition.rs:256-286 | the page found in the cell, or rendered, is the one the model answers, and shows the first `limit` cities, or all if there are fewer |
| `CityServer.Server.Refreshed` | crates/crowdrelay-api/src/acquisition.rs:229-237 | the code that writes a refresh into the shared cell and gives the lock back is one step of the model and keeps its invariant |
| `CityServer.Server.Stored` | crates/crowdrelay-api/src/acquisition.rs:287-294 | so is the code that stores a rendered page |
| `CityServer.Server.Resume` | crates/crowdrelay-api/src/acquisition.rs:179-295 | every stretch of a request between two awaits does to the whole shared state what the model's step does, and keeps the invariant |
| `CityServer.Server.ReadReturns` | crates/crowdrelay-api/src/acquisition.rs:229-231 | a finished read brings a fresh `Arc` to the writer, with the lock still held |
| `CityServer.Server.ReadFails` | crates/crowdrelay-api/src/acquisition.rs:238-245 | a failed read gives the lock back and serves the previous snapshot, or the error if there never was one |
| `CityServer.Server.Drop` | crates/crowdrelay-api/src/acquisition.rs:212-228 | a dropped request gives back the lock it holds and nothing else changes |
| `CityCacheRuns.HeldBefore` | crates/crowdrelay-api/src/acquisition.rs:228-236 | only a finished read puts a new `Arc` in anyone's hands, so an address is reused only when free |
| `CityCacheRuns.StepKeepsArcInv` | crates/crowdrelay-api/src/acquisition.rs:264 | among everything held, one address has one contents, which is what `Arc::ptr_eq` relies on |
| `CityCacheRuns.StepKeepsRenderedInv` | crates/crowdrelay-api/src/acquisition.rs:231-293 | every stored page stays the rendering of the current items |
| `CityCacheRuns.StepKeepsInv` | crates/crowdrelay-api/src/acquisition.rs:179-295 | every step of every request keeps the whole invariant |
| `CityCacheRuns.Reachable` | crates/crowdrelay-api/src/acquisition.rs:179-295 | so it holds in every state of every interleaving |
| `CityCacheRuns.StoredPagesDescribeCurrentSnapshot` | crates/crowdrelay-api/src/acquisition.rs:256-294 | in every reachable state the body of `rendered[limit]` is the serialization of a front part of the current cities, as long as the smaller of `limit` and their number, with its digest as ETag |
| `CityCacheRuns.HitEqualsFreshRender` | crates/crowdrelay-api/src/acquisition.rs:256-294 | a hit answers with exactly the first `limit` of the cities the request holds, and so does a fresh render; a render of superseded items leaves the snapshot alone |
| `CityCacheRuns.AnswersAreSeenSnapshots` | crates/crowdrelay-api/src/acquisition.rs:197-295 | every page shows the first `limit` cities of, and every slug answer names the first city of that slug in, a list that a read returned and that was current while the request ran |
| `CityCacheRuns.FoundIsFirst` | crates/crowdrelay-api/src/acquisition.rs:197-207 | the id for a slug is that of the first city that has it, and there is none exactly if no city has it |
| `CityAnswers.ArrivalIs` | crates/crowdrelay-api/src/acquisition.rs:250-256 | a request is refused on arrival exactly for a limit outside 1..100 |
| `CityAnswers.FreshSnapshotIsServed` | crates/crowdrelay-api/src/acquisition.rs:215-223 | a snapshot refreshed no longer than the age limit ago is served without a read, in front of the lock and behind it; otherwise the request goes on to the lock, and then to the read |
| `CityAnswers.FailedReadFallsBack` | crates/crowdrelay-api/src/acquisition.rs:238-245 | a failed read serves the cities of the last refresh, or the error if there never was one, and changes no snapshot |
| `CityAnswers.ReadBecomesCurrent` | crates/crowdrelay-api/src/acquisition.rs:229-237 | a read that returned is the new current list, without pages, and serves its own request |
| `CityAnswers.StoredPageIsServed` | crates/crowdrelay-api/src/acquisition.rs:260-286 | the page stored for the held items, if they are current, is the answer; without one the first `limit` cities are serialized, or the request ends with the serializer's error |
| `CityAnswers.RenderedPageIsKept` | crates/crowdrelay-api/src/acquisition.rs:287-295 | the rendered page is answered, and stored under its limit exactly if its items are still current |
| `CityCacheRuns.AtMostOneReadInFlight` | crates/crowdrelay-api/src/acquisition.rs:219-228 | at most one city read is in flight |
| `CityCacheRuns.ReadsStartOnlyAfterMaxAge` | crates/crowdrelay-api/src/acquisition.rs:215-228 | a read starts only more than CITY_SNAPSHOT_MAX_AGE after the last refresh, so refreshes are further apart than that |
| `CityCacheRuns.RefreshesOnlyGrow` | crates/crowdrelay-api/src/acquisition.rs:229-237 | the refreshes of a run are only ever added to |
| `CityCacheRuns.NoErrorAfterFirstRefresh` | crates/crowdrelay-api/src/acquisition.rs:223-245 | once one refresh has succeeded no request is answered with the read's error |
| `CityCacheRuns.StepsLowerRank` | crates/crowdrelay-api/src/acquisition.rs:212-295 | every step takes its own request strictly nearer to its answer, or drops it with its lock, and takes no other further away |
| `CityCacheRuns.NeverStuck` | crates/crowdrelay-api/src/acquisition.rs:219 | no deadlock: an unanswered request, or the holder of the refresh lock, can always take a step |
| `YamlScan.CommentStart` | scripts/validate-contract-assets.ts:128-157 | the first `#` outside quotes at the start or behind white space |
| `YamlScan.ColonFrom` | scripts/validate-contract-assets.ts:159-192 | the first colon outside quotes and brackets |
| `YamlScan.StripYamlComment` | scripts/validate-contract-assets.ts:128-157 | the loop with its quote flags cuts exactly there |
| `YamlScan.FindMappingColon` | scripts/validate-contract-assets.ts:159-192 | the loop with its flags and depths returns exactly that colon, or -1 |
| `YamlMappings.Enclosers` | scripts/validate-contract-assets.ts:237-247 | the declarative reading: exactly the containers that every entry up to this one is indented under, in order |
| `YamlMappings.StackGivesPath` | scripts/validate-contract-assets.ts:237-245 | the keys left on the stack and the entry's own are its declarative path |
| `YamlMappings.StackAfterPush` | scripts/validate-contract-assets.ts:237-249 | after pops and a push the stack holds exactly the containers still open |
| `YamlMappings.StackIndentsIncrease` | scripts/validate-contract-assets.ts:237 | indentation grows strictly up the stack |
| `YamlMappings.PopTo` | scripts/validate-contract-assets.ts:237 | keeps the front of the stack and pops every entry indented as far as the new one or further |
| `YamlMappings.ReadMapping` | scripts/validate-contract-assets.ts:213-235 | one line's contribution: an error, nothing, or a key, value and indentation |
| `YamlMappings.AddMapping` | scripts/validate-contract-assets.ts:237-249 | the emitted path is the declarative one, and the stack stays the open containers |
| `YamlMappings.AddLine` | scripts/validate-contract-assets.ts:213-249 | one callback of the loop keeps entries and stack right, or reports the line's error |
| `YamlMappings.ParseLines` | scripts/validate-contract-assets.ts:209-252 | the loop over the lines keeps entries and stack right, and stops at the first bad line |
| `YamlMappings.ParseYamlMappings` | scripts/validate-contract-assets.ts:209-252 | the result is every mapping line in order, each with the path of its enclosing mappings; or the first bad line's error |
| `YamlMappings.ChainOfEncloser` | scripts/validate-contract-assets.ts:237-245 | the chain of an enclosing mapping is the front part of the chain |
| `YamlMappings.PrefixesWereEmitted` | scripts/validate-contract-assets.ts:239-246 | every non-empty prefix of an emitted path was itself emitted, no later |
| `YamlMappings.PathIndentsIncrease` | scripts/validate-contract-assets.ts:237 | indentation grows strictly along every path |
| `YamlMappings.EmittedPathsNonEmpty` | scripts/validate-contract-assets.ts:239-246 | emitted paths end in the entry's key, so none is empty |
| `YamlLines.QuotedIsPlain` | scripts/validate-contract-assets.ts:128-157 | any quoted text, with `#` in it or not, is a value that survives comment stripping |
| `YamlLines.LineReadsBack` | scripts/validate-contract-assets.ts:209-252 | a printed line reads back as its key, value and indentation: key plain, in single or in double quotes, with or without `- ` in front and a comment behind; an empty key reads as nothing |
| `YamlLines.ScalarReadsBack` | scripts/validate-contract-assets.ts:194-207 | a scalar reads back in every form: plain, in single quotes with each quote doubled, or as the JSON text of it |
| `YamlLines.PlainScalarReads` | scripts/validate-contract-assets.ts:194-207 | what is in no quotes reads as itself, trimmed, whatever it is |
| `YamlLines.ScalarHides` | scripts/validate-contract-assets.ts:128-192 | no comment and no colon is seen inside a scalar in any form, and its quotes are closed behind it |
| `YamlLines.FlowHides` | scripts/validate-contract-assets.ts:159-192 | nor inside brackets or braces |
| `YamlLines.SkipReads` | scripts/validate-contract-assets.ts:213-231 | blank lines, comment lines, document marks and list items without a colon contribute nothing |
| `YamlLines.BadKeyIsError` | scripts/validate-contract-assets.ts:194-201 | a double-quoted key that is no JSON text is an error with the line's number |
| `YamlLines.TabIndentedIff` | scripts/validate-contract-assets.ts:214-216 | a line is refused exactly if a tab is in the white space in front of it |
| `YamlLines.OpensIff` | scripts/validate-contract-assets.ts:249 | a mapping may hold nested ones exactly if its value is empty or an anchor of letters, digits, `_` and `-` |
| `YamlRoundTrip.LinesReadBack` | scripts/validate-contract-assets.ts:209-252 | so do all lines of a printed tree, in order, whatever form each is written in and with blank lines, comments and list items between |
| `YamlRoundTrip.BlockIsWellPathed` | scripts/validate-contract-assets.ts:237-249 | the paths from the root of a tree are the declarative paths of its printed lines |
| `YamlRoundTrip.SourceSplits` | scripts/validate-contract-assets.ts:213 | splitting the text of a file at its line ends gives back the printed lines |
| `YamlRoundTrip.EndedSplits` | scripts/validate-contract-assets.ts:213 | so does splitting a text in which any of the lines end with a carriage return as well |
| `YamlRoundTrip.PrintedBlockReadsBack` | scripts/validate-contract-assets.ts:209-252 | round trip from the text: reading the printed source of a tree, every line in any of those forms, gives no error and exactly its nodes with their paths |
| `YamlRoundTrip.ReadPrinted` | scripts/validate-contract-assets.ts:209-252 | so the parsing loop itself returns exactly the tree's nodes for its printed source |
| `YamlRoundTrip.ResolveIffTargetsExist` | scripts/validate-contract-assets.ts:267-276 | references that are quoted pointers resolve exactly when the paths they point at were emitted |
| `YamlRoundTrip.CheckPrinted` | scripts/validate-contract-assets.ts:209-276 | from text to verdict: the references of a printed tree pass exactly when each points at a node of the tree |
| `JsonPointer.EscapeIsOnePass` | scripts/validate-contract-assets.ts:255 | the two replacements escape each character once |
| `JsonPointer.UnescapeEscape` | scripts/validate-contract-assets.ts:255 | unescaping as in section 4 of RFC 6901 undoes the escaping of every segment |
| `JsonPointer.ParseSegmentIsUnescape` | scripts/validate-contract-assets.ts:255 | the strict reading of a segment agrees with RFC 6901's wherever it accepts |
| `JsonPointer.ParsePointerFor` | scripts/validate-contract-assets.ts:254-256 | the pointer of a non-empty path names that path |
| `JsonPointer.PointerForParse` | scripts/validate-contract-assets.ts:254-256 | what names a path is that path's pointer |
| `JsonPointer.PointerForInjective` | scripts/validate-contract-assets.ts:254-256 | different non-empty paths have different pointers |
| `JsonPointer.EmptyPathSharesPointer` | scripts/validate-contract-assets.ts:254-256 | the empty path, which is never emitted, is the one exception |
| `YamlMappings.RefIsFineIffItNames` | scripts/validate-contract-assets.ts:268-275 | one reference passes exactly when it is a well-formed pointer that names an emitted path |
| `YamlMappings.CheckReference` | scripts/validate-contract-assets.ts:269-275 | one reference passes exactly when it names an emitted path, and the error says whether it is external, malformed or dangling |
| `YamlMappings.CheckReferences` | scripts/validate-contract-assets.ts:267-276 | the check passes exactly when every `$ref` names an emitted path, and otherwise reports the first that does not |
| `Merkle.Pairs` | crates/crowdrelay-api/src/proofs/support.rs:189-202 | one level up: pairs hashed, an odd last one with itself |
| `Merkle.Layouts` | crates/crowdrelay-api/src/proofs/support.rs:168-182 | a leaf is hashed behind a zero byte and its length in eight bytes, a node behind a one byte and in 65 bytes |
| `Merkle.MerkleRoot` | crates/crowdrelay-api/src/proofs/support.rs:184-203 | the loop computes the root of the level-by-level tree, or nothing for no leaves |
| `Merkle.MerklePath` | crates/crowdrelay-api/src/proofs/support.rs:211-244 | the loop computes the sibling path of the leaf, or fails for an index outside |
| `Merkle.VerifyPath` | crates/crowdrelay-api/src/proofs/support.rs:246-261 | accepts exactly when folding the path from the leaf gives the root |
| `Merkle.EveryLeafHasPath` | crates/crowdrelay-api/src/proofs/support.rs:184-261 | completeness: the path of every leaf of every batch leads to its root, and is as long as the tree is deep |
| `MerkleBatches.AnyTreeVerifies` | crates/crowdrelay-api/src/proofs/support.rs:179-182 | in a tree of any shape built with `node_hash`, the sibling path of every leaf folds to the root |
| `Merkle.FullPathProvesLeaf` | scripts/verify-external-proof.py:30-48 | soundness: an accepted path of full length proves the leaf its sides select, or exhibits two different hashed inputs with one hash |
| `Merkle.SameSidesSameProof` | scripts/verify-external-proof.py:34-48 | two accepted proofs with one side sequence and root have equal leaves and siblings, or exhibit a collision |
| `Merkle.ShortPathCollides` | crates/crowdrelay-api/src/proofs/support.rs:168-182 | a shorter path proves an inner node and never a record, thanks to the leaf and node prefixes |
| `Merkle.LongPathCollides` | crates/crowdrelay-api/src/proofs/support.rs:168-182 | a longer path cannot end in a record either |
| `Merkle.AcceptedRecordIsInBatch` | crates/crowdrelay-api/src/proofs/support.rs:168-261 | whatever its length, an accepted path for a record proves the record is in the batch at the place its sides select, or exhibits a collision |
| `Merkle.RootDeterminesLeaves` | crates/crowdrelay-api/src/proofs/support.rs:184-203 | for batches of one size the root determines every leaf, or exhibits a collision |
| `Merkle.RepeatedLastLeafHasSameRoot` | crates/crowdrelay-api/src/proofs/support.rs:198-200 | it does not determine their number: repeating the last of an odd number of leaves keeps the root |
| `MerkleBatches.FilledKeepsRoot` | crates/crowdrelay-api/src/proofs/support.rs:189-202 | repeating every odd last node at every level changes neither the root nor what is hashed on the way to it |
| `MerkleBatches.DepthsCollide` | crates/crowdrelay-api/src/proofs/support.rs:168-203 | batches of different depths with one root exhibit a collision, by the leaf and node prefixes |
| `MerkleBatches.SameRootIff` | crates/crowdrelay-api/src/proofs/support.rs:168-203 | two batches of any sizes share a root exactly when they agree once every odd last node is repeated, unless two inputs they really hash collide |
| `ProofVerifier.DecodeHashAcceptsExactly` | scripts/verify-external-proof.py:21-27 | the two length checks around `bytes.fromhex` admit exactly the strings of 64 hex digits |
| `Bytes.DigitsAre` | scripts/verify-external-proof.py:24 | the sixteen hex digits in order, in either case, and nothing else is one |
| `ProofVerifier.VerifyInclusion` | scripts/verify-external-proof.py:34-54 | the loop gives the verdict of decoding everything and folding, with the first error in reading order |
| `ProofVerifier.VerdictShows` | scripts/verify-external-proof.py:45-50 | the computed root it shows is the fold of the document's own leaf and steps, the expected one is the document's root, and it is valid exactly if they are the same |
| `ProofVerifier.VerdictIff` | scripts/verify-external-proof.py:35-45 | there is a verdict exactly if leaf, root and all siblings decode and every side is left or right |
| `ProofVerifier.NodesAgree` | scripts/verify-external-proof.py:30-31 | the verifier hashes a node as the API does |
| `ProofVerifier.ServedDocumentsVerify` | scripts/verify-external-proof.py:34-54 | the verifier accepts the document that the API serves for any leaf of any batch |
| `ProofVerifier.AcceptedDocumentIsInBatch` | scripts/verify-external-proof.py:34-54 | a document accepted for a record names a record of the batch, or exhibits a collision |
| `DrawReceipt.DecodeEncode` | scripts/verify-external-proof.py:57-81 | the preimage is injective: a decoder recovers all fields of every receipt in range |
| `DrawReceipt.EncodeDecode` | scripts/verify-external-proof.py:57-81 | the decoder accepts nothing else |
| `DrawReceipt.TakesSignedBack` | scripts/verify-external-proof.py:61-62 | two's complement round trip at any width, for exactly the values Python accepts |
| `DrawReceipt.TakesPrefixedBack` | scripts/verify-external-proof.py:57-58 | length-prefixed bytes come back whatever follows them |
| `DrawReceipt.ReceiptBindsFields` | scripts/verify-external-proof.py:65-93 | one receipt hash vouches for one set of fields, unless the two preimages collide |
| `DrawReceipt.SamePreimage` | crates/crowdrelay-api/src/proofs/support.rs:264-297 | the API hashes exactly the bytes the verifier does, for every value its types hold |
| `DrawReceipt.PublishedReceiptVerifiesIff` | scripts/verify-external-proof.py:65-93 | a published receipt is valid exactly when its hash is the one the API computes |
| `ConcertToken.UuidRoundTrip` | crates/crowdrelay-api/src/concert_qr.rs:834-835 | a printed UUID parses back |
| `ConcertToken.SignVerifyRoundTrip` | crates/crowdrelay-api/src/concert_qr.rs:826-868 | for every key, campaign, event and expiry, a signed token verifies to exactly those claims and has at most 162 of 256 bytes |
| `ConcertToken.AcceptsExactly` | crates/crowdrelay-api/src/concert_qr.rs:846-868 | the accepted tokens are exactly those of at most 256 bytes whose five parts read as the claims and as the MAC of their canonical print |
| `ConcertToken.UnsignedInjective` | crates/crowdrelay-api/src/concert_qr.rs:832-837 | the message under the MAC determines the claims |
| `ConcertToken.SignatureVouchesForClaims` | crates/crowdrelay-api/src/concert_qr.rs:859-868 | one signature under one key vouches for one set of claims, unless the MAC collides on two different messages |
| `ConcertToken.AnotherTokenAccepted` | crates/crowdrelay-api/src/concert_qr.rs:846-868 | tokens are not unique: for all claims there is an accepted token other than the signed one |
| `TokenForms.UuidForm` | crates/crowdrelay-api/src/concert_qr.rs:851-853 | a UUID text prints back to itself exactly when it has 36 characters and no upper-case digit |
| `TokenForms.IntForm` | crates/crowdrelay-api/src/concert_qr.rs:854 | an expiry prints back to itself exactly when it has no plus sign, no leading zero and is not minus zero |
| `TokenForms.AcceptedIsSignedIff` | crates/crowdrelay-api/src/concert_qr.rs:826-868 | an accepted token is the very token `sign_token` prints for its claims exactly when its UUIDs, expiry and signature are in these canonical forms |
| `TokenForms.OtherNumbers` | crates/crowdrelay-api/src/concert_qr.rs:854 | a plus sign, zeros in front and the minus sign are read as numbers are, and nothing outside the 64-bit range is read |
| `TokenForms.OtherUuids` | crates/crowdrelay-api/src/concert_qr.rs:851-853 | a UUID is also read without hyphens, in braces and as a URN |
| `Manifest.RowCapabilities` | scripts/n8n_manifest_capabilities.py:5-11 | a row's capabilities are its own and at most the welcome template |
| `Manifest.RowCapabilitiesAre` | scripts/n8n_manifest_capabilities.py:5-11 | a row is refused exactly when it names a template other than the welcome, or names that off the lifecycle route; otherwise it has its own capability and the templates it names |
| `Attestation.LoadWorkflows` | scripts/generate_n8n_workflow_attestation.py:49-72 | loads each export of each file under its id, or reports the first file that is no JSON of a supported shape, or the first id that was there before |
| `Attestation.LoadedIds` | scripts/generate_n8n_workflow_attestation.py:49-72 | an id loads to a document exactly if it is not empty, is the document's own and some file holds the document |
| `AttestationFields.DocumentsAre` | scripts/generate_n8n_workflow_attestation.py:49-59 | a file loads exactly if it is a list, or an object with a list of `nodes` or of `data`; and it holds the objects of the list, itself, or the objects of its `data` |
| `AttestationFields.IdIs` | scripts/generate_n8n_workflow_attestation.py:66 | an export's id is its `id`, or the text of it, without the white space around it, and none if it is missing or falsy |
| `Attestation.GroupRows` | scripts/generate_n8n_workflow_attestation.py:155-158 | groups exactly the rows that name a workflow, in order |
| `Attestation.CheckSmoke` | scripts/generate_n8n_workflow_attestation.py:186-202 | the checks of smoke evidence in order, with a bad timestamp ending the run |
| `Attestation.ProcessWorkflow` | scripts/generate_n8n_workflow_attestation.py:162-229 | the loop body: failures and at most one entry, or a ValueError |
| `Attestation.ProcessAll` | scripts/generate_n8n_workflow_attestation.py:160-229 | the loop over the sorted workflows, stopping at the first ValueError |
| `Attestation.BuildAttestation` | scripts/generate_n8n_workflow_attestation.py:147-241 | the whole producer against its specification: a document, the list of failures, or a ValueError |
| `Attestation.PassesIffAttested` | scripts/generate_n8n_workflow_attestation.py:162-215 | a workflow passes exactly when it is disabled, or its export is active, safely persisted and covered by smoke evidence that names its exact hash |
| `Attestation.BuiltIffAttested` | scripts/generate_n8n_workflow_attestation.py:231-241 | a document is produced exactly when every routed workflow passes |
| `Heartbeat.LastItemWins` | scripts/build_n8n_executor_heartbeat.py:61-65 | the evidence of an id is the last item that names it |
| `Heartbeat.FirstFault` | scripts/build_n8n_executor_heartbeat.py:66-85 | the checker passes exactly when no row has a fault |
| `Heartbeat.EntriesById` | scripts/build_n8n_executor_heartbeat.py:61-72 | in a produced document a workflow's id leads to that workflow's own entry |
| `Heartbeat.EmittedIsAccepted` | scripts/build_n8n_executor_heartbeat.py:72-84 | the entry satisfies the checker for every enabled row of the workflow, whose export is proven for the row's capabilities |
| `Heartbeat.ProducerAndCheckerAgree` | scripts/build_n8n_executor_heartbeat.py:43-85 | the checker accepts a produced document, for the manifest it was made for, exactly from 5 minutes before the whole second of its generation to 14 days after it, and only if no enabled row is UNAVAILABLE |
| `Heartbeat.FractionShortensTheWindow` | scripts/generate_n8n_workflow_attestation.py:236 | 14 days after a generation time with a fraction of a second the document is already refused |
| `Heartbeat.AdvertisesEnabledRows` | scripts/build_n8n_executor_heartbeat.py:105 | the advertised capabilities are exactly those of the enabled rows, once each |
| `Heartbeat.AdvertisedIsProven` | scripts/build_n8n_executor_heartbeat.py:88-123 | every advertised capability belongs to an enabled row whose export was active, safely persisted and covered by smoke evidence that names its exact hash |
| `Heartbeat.HeartbeatBuiltIff` | scripts/build_n8n_executor_heartbeat.py:96-107 | exactly when a heartbeat is built on a produced document |
| `AttestationFields.AcceptedIff` | scripts/build_n8n_executor_heartbeat.py:43-85 | for every JSON value: it is accepted exactly if it names this manifest's digest, its time is in the window, its workflows can be iterated and every enabled row has a workflow whose last item is enabled and active with all smoke checks |
| `AttestationFields.BuiltIff` | scripts/build_n8n_executor_heartbeat.py:96-107 | for every JSON value: a heartbeat is built exactly if that holds, the names are readable and not too long, the time to live is 1 to 120 minutes and some row is enabled |
| `AttestationFields.HeartbeatSays` | scripts/build_n8n_executor_heartbeat.py:108-120 | a heartbeat shows the executor as given, the digests of the manifest and of the attestation it was built on, and the attestation's own time |
| `AttestationFields.HeartbeatTimes` | scripts/build_n8n_executor_heartbeat.py:121-122 | it is observed at the last whole second and expires at the last whole second before now plus the time to live |
| `AttestationFields.WholeSecondBefore` | scripts/build_n8n_executor_heartbeat.py:121-122 | the last whole second is less than a second ago |
| `AttestationFields.HeartbeatAdvertises` | scripts/build_n8n_executor_heartbeat.py:105 | it advertises exactly the capabilities and templates that the enabled rows of the manifest name |
| `AttestationFields.ReadableIs` | scripts/build_n8n_executor_heartbeat.py:96-99 | a name is fit exactly if it is no longer than allowed and has a character that is no white space |
| `AttestationFields.AttestedIff` | scripts/generate_n8n_workflow_attestation.py:160-215 | a workflow passes the producer exactly if its rows name allowed templates only and, if one is enabled, its export is active, saves nothing, and the smoke file has recent evidence with its hash and every check its rows need |
| `AttestationFields.ProducedIff` | scripts/generate_n8n_workflow_attestation.py:160-241 | a document is produced exactly if every routed workflow is such a one |
| `AttestationFields.DocumentSays` | scripts/generate_n8n_workflow_attestation.py:234-241 | a produced document names the manifest's digest, both contracts and a time within the second in front of its making |
| `AttestationFields.EntrySays` | scripts/generate_n8n_workflow_attestation.py:217-229 | its entry for a workflow shows the export's digest, exactly the events and capabilities of the rows, and whether it is enabled and active |
| `AttestationFields.EntryShows` | scripts/generate_n8n_workflow_attestation.py:217-229 | and the settings that decide what is saved and, exactly if it is enabled, the public part of its evidence |
| `AttestationFailures.RaisedIff` | scripts/generate_n8n_workflow_attestation.py:173-190 | a workflow ends the run with a ValueError exactly if a row names a template that is not allowed, or the time of an enabled one's evidence cannot be read |
| `AttestationFailures.FailureIff` | scripts/generate_n8n_workflow_attestation.py:163-202 | otherwise it reports a failure exactly if its fields explain it |
| `AttestationFailures.RefusalIff` | scripts/generate_n8n_workflow_attestation.py:160-232 | and the run reports exactly the failures of its workflows |
| `ProductionBody.FindEnd` | scripts/api-sql-ratchet.py:63-71 | the end of a cut is the first point where the braces counted from its first one return to depth zero |
| `ProductionBody.ScanBlock` | scripts/api-sql-ratchet.py:61-71 | the scanning loop finds exactly that point |
| `ProductionBody.ProductionBodyOf` | scripts/api-sql-ratchet.py:44-74 | the loops terminate and compute the specified text |
| `ProductionBody.TestOnlyIff` | scripts/api-sql-ratchet.py:41-53 | a file counts as nothing but tests exactly if it is blank lines and `//` comments followed by the inner attribute |
| `ProductionBody.StrippedIsFree` | scripts/api-sql-ratchet.py:54-57 | the result never contains the marker |
| `ProductionBody.StrippedIsPicked` | scripts/api-sql-ratchet.py:74 | the result is the source with characters left out, in order |
| `ProductionBody.RoundRemovesItemIff` | scripts/api-sql-ratchet.py:55-74 | for any text behind the attribute, a round removes exactly that text if and only if its braces first match up at its end, or nothing follows and they never do |
| `ProductionBody.WholeIsBraced` | scripts/api-sql-ratchet.py:58-71 | such a text is a header without braces and one block with balanced braces, and nothing else |
| `ProductionBody.BracedIsWhole` | scripts/api-sql-ratchet.py:58-71 | and every header with a balanced block is such a text |
| `ProductionBody.OpenBraceSwallowsRest` | scripts/api-sql-ratchet.py:61-74 | an item with an open brace too many takes everything behind it out of the count, up to a closing brace |
| `ProductionBody.LiteralBraceSwallowsRest` | scripts/api-sql-ratchet.py:61-74 | a brace in a character literal is such a brace |
| `ProductionBody.UseLineSwallowsFunction` | scripts/api-sql-ratchet.py:58 | the attribute on an item without braces takes the whole next block, header and all, out of the count |
| `ProductionBody.StripsTestItems` | scripts/api-sql-ratchet.py:53-74 | behind clean production code, exactly the test items with blocks go, however many |
| `ProductionBody.BodyIsProduction` | scripts/api-sql-ratchet.py:44-74 | a file keeps exactly its production code, also behind its test modules |
| `SqlRatchet.Ratchet.Compare` | scripts/api-sql-ratchet.py:92-103 | the loop reports exactly the files that introduce or add writes |
| `SqlRatchet.Ratchet.Run` | scripts/api-sql-ratchet.py:86-136 | a run's exit and the baseline it leaves |
| `SqlRatchet.PassesIffEqual` | scripts/api-sql-ratchet.py:92-124 | a check passes exactly when every file has as many writes as its entry says |
| `SqlRatchet.WriteKeepsFailures` | scripts/api-sql-ratchet.py:110-115 | `--write-baseline` leaves every growth failure standing and makes none |
| `SqlRatchet.WriteClearsStale` | scripts/api-sql-ratchet.py:105-115 | it clears what is stale, leaves entries for exactly the files that had one and have writes, and doing it twice changes nothing |
| `SqlRatchet.WritesNeverGrow` | scripts/api-sql-ratchet.py:86-136 | after any measurements and writes, at a passing check no file has more writes than the first baseline or any measurement it was lowered to |
| `SizeRatchet.Ratchet.Walk` | scripts/source-size-ratchet.py:37-51 | the walk reports exactly the large files without a record |
| `SizeRatchet.Ratchet.Compare` | scripts/source-size-ratchet.py:52-70 | the loop over the records finds exactly what outgrew them, what is stale, and the lowered records |
| `SizeRatchet.Ratchet.Run` | scripts/source-size-ratchet.py:30-85 | a run's exit and the records it leaves |
| `SizeRatchet.PassesIff` | scripts/source-size-ratchet.py:48-85 | a check passes exactly when every large file is recorded and every record is of a large file within the allowance on either side |
| `SizeRatchet.WriteIsIdempotent` | scripts/source-size-ratchet.py:65-72 | writing the baseline twice is writing it once |
| `SizeRatchet.WriteClearsStale` | scripts/source-size-ratchet.py:65-72 | it clears every stale entry, for every allowance that is not negative and exactly when |
| `SizeRatchet.WriteKeepsGrowthIff` | scripts/source-size-ratchet.py:61-72 | it leaves the growth failures as they were exactly when no recorded file outgrew its record at or below the threshold |
| `SizeRatchet.SmallOutgrownRecordDropped` | scripts/source-size-ratchet.py:61-72 | a file of 500 lines with a record of 100 fails a check, and passes it behind a write |
| `SizeRatchet.RecordsStayLarge` | scripts/source-size-ratchet.py:65-72 | records above the threshold stay above it through all edits and writes |
| `SizeRatchet.WritesKeepGrowth` | scripts/source-size-ratchet.py:61-72 | so from such a baseline no write of any run hides or adds a growth failure |
| `SizeRatchet.WriteThenPasses` | scripts/source-size-ratchet.py:65-85 | after a write the same files pass, unless they had grown |
| `SizeRatchet.SlackNeverCompounds` | scripts/source-size-ratchet.py:37-80 | over any edits, writes and checks, at a passing check an originally recorded file has at most max(1200, first record + allowance) lines |
| `SizeRatchet.UnseenFileEscapes` | scripts/source-size-ratchet.py:38-45 | a recorded file that the walk does not see is bound by its record alone, and escapes once that is dropped |
| `IncludeTree.Walk.Validate` | scripts/test-modularity-contract.py:166-176 | the recursion ends on every include graph; it adds only what is reachable, all of it closed under includes, or finds a broken include |
| `IncludeTree.ValidateIncludeTree` | scripts/test-modularity-contract.py:166-176 | it returns normally exactly when every include in a reachable file exists, and then `seen` has grown by exactly the reachable files |
| `IncludeTree.ClosedIsReachable` | scripts/test-modularity-contract.py:170-176 | a closed set of reachable files with the root is all that is reachable |
| `Canary.Run.SetFlagTo` | scripts/rekor-canary.py:173-180 | a request that reaches the server settles the flag, also when its reply is lost |
| `Canary.Run.CurrentFlag` | scripts/rekor-canary.py:102-112 | the flag as the canary reads it off the reply, which is the server's, or a failure if the reply does not tell it; no other request is made |
| `Canary.Run.WaitReady` | scripts/rekor-canary.py:78-99 | succeeds exactly when the last probe said ready, ends with a signal exactly when one cut the last probe short, tries again otherwise, and fails only past the deadline |
| `Canary.Run.Prepare` | scripts/rekor-canary.py:225-228 | success means a ready reply, then the exact build, the flag and no batch in progress, with nothing but probes in front |
| `Canary.Run.Arm` | scripts/rekor-canary.py:230-235 | the rollback is armed before the request that needs it |
| `Canary.Run.VerifyConfirmed` | scripts/rekor-canary.py:281-285 | Rekor entry, exact build, no batch in progress, flag enabled |
| `Canary.Run.Judge` | scripts/rekor-canary.py:271-309 | a confirmed batch is verified or fails the run, a failed, dead or stalled one fails it, any other leads to another round |
| `Canary.Run.Poll` | scripts/rekor-canary.py:253-310 | one round of polling: the time of progress moves only with the reply, and the reply is judged against it |
| `Canary.Run.Watch` | scripts/rekor-canary.py:248-314 | the polling loop ends, verified or not, and never touches the flag |
| `Canary.Run.RollBack` | scripts/rekor-canary.py:315-336 | the handler asks for the preflight value, swallows a failure and lets a signal through |
| `Canary.Run.RunCanary` | scripts/rekor-canary.py:217-339 | every run, failing or interrupted at any request, has one of the specified logs, settled flags and exits; if nothing fails up to the report, the flag is enabled, and the run returns 0 if the report comes through, but for its `finally` block |
| `Canary.ZeroIsVerified` | scripts/rekor-canary.py:225-296 | a return of 0 implies the preflight checks in front, a confirmed batch with everything verified at the end, and the flag enabled |
| `CanaryRuns.ZeroHasRead` | scripts/rekor-canary.py:69-296 | spelled out on the fields of the replies: ready, the exact build, the flag as the list's first entry of its key tells it, no batch; then as the last things a confirmed batch with safe coordinates, its log entry, the exact build again, no batch and the flag enabled, and the report |
| `CanaryReplies.FlagInIff` | scripts/rekor-canary.py:102-112 | whatever the reply: the flag is read as enabled or not exactly if the reply is a list whose first entry with the flag's key says so |
| `CanaryReplies.TruthfulIsHonest` | scripts/rekor-canary.py:102-112 | so nothing is asked of a server but that entries with that key are true; what other entries say does not matter |
| `CanaryReplies.CreatedIff` | scripts/rekor-canary.py:244-247 | a batch was created exactly if the reply holds one with a text for its id |
| `CanaryReplies.StatusIff` | scripts/rekor-canary.py:254-305 | which replies count as confirmed, failed, dead and processing |
| `CanaryReplies.ObservedSameIff` | scripts/rekor-canary.py:255-261 | a batch moves exactly if one of five fields of the reply does |
| `CanaryReplies.CoordinatesIff` | scripts/rekor-canary.py:272-281 | a confirmed batch is gone on with exactly if it names the anchor kind, a safe URL, 64 to 128 lower-case hex digits and a SHA-256 fingerprint |
| `CanaryReplies.HoldsEntryIff` | scripts/rekor-canary.py:196-197 | the log has the entry exactly if its id is a key of the object, an item of the list or a part of the text |
| `CanaryRuns.RunOn` | scripts/rekor-canary.py:217-339 | the canary against any server that tells the truth about its flag |
| `CanaryRuns.ExitIs` | scripts/rekor-canary.py:315-339 | how a run ends, from its log: an exception leaves it exactly if a signal hits the undo request or the `finally` block breaks off, and otherwise it returns 0 exactly behind its report, 130 exactly if SIGINT ended it, 143 exactly if another signal did, and else 1 |
| `Canary.RestoredIff` | scripts/rekor-canary.py:315-336 | a run that does not return 0 leaves the flag to settle as it was found exactly when enabling it never reached the server or undoing it did |
| `Canary.LeftChanged` | scripts/rekor-canary.py:337-339 | it is left changed only if the request to undo never reached the server, or a signal hit the `finally` block of a run that had succeeded |
| `Canary.LeftChangedIff` | scripts/rekor-canary.py:315-339 | exactly when such a run leaves it changed: it was off, enabling it reached the server, and in front of `finally` came the report of a success or an undo that never reached the server |
| `CanaryRuns.LeaveInterrupted` | scripts/rekor-canary.py:286-339 | for every build and log server such a run exists: everything succeeds, a signal arrives in `finally`, the run ends with an exception and the flag stays enabled |
| `CanaryRuns.SaysRestoredTrulyIff` | scripts/rekor-canary.py:326-336 | a run that says the flag is restored says so truly exactly if the flag was on, enabling it never reached the server, or undoing did |
| `CanaryRuns.UndoLost` | scripts/rekor-canary.py:315-336 | a run whose report fails and whose undo is lost: it says that the flag is restored and leaves it enabled |
| `ReleaseReceipts.StateDir.AtomicWrite` | scripts/release_receipt.py:85-102 | make a temporary file, fill it, rename it: wherever that stops, the target is as it was or exactly the data, and an exception removes the temporary file |
| `ReleaseReceipts.StateDir.Pending` | scripts/release_receipt.py:139-181 | `pending`, stopped by a crash or an exception at any file operation |
| `ReleaseReceipts.StateDir.RecordPhase` | scripts/release_receipt.py:184-197 | `phase` rewrites the pending receipt whatever release it names, or is refused without one |
| `ReleaseReceipts.StateDir.CopyCurrent` | scripts/release_receipt.py:226-227 | the copy empties its target first and fills it from the current file |
| `ReleaseReceipts.StateDir.FinalizeRelease` | scripts/release_receipt.py:206-235 | `finalize` of the pending release, whatever release it names, stopped at any file operation |
| `ReleaseReceipts.StateDir.RollBackRelease` | scripts/release_receipt.py:238-276 | `rollback`, stopped at any file operation |
| `ReleaseRuns.CutIs` | scripts/release_receipt.py:85-276 | which state files every command has replaced when it is stopped behind k of its file operations, and that at most one temporary file is left, by a crash alone |
| `ReleaseRuns.DoneIsComplete` | scripts/release_receipt.py:206-276 | a command that gets to do all its file operations, and only such a one, exits as done |
| `ReleaseRuns.OthersKeep` | scripts/release_receipt.py:238-276 | whatever is no finalize of a pending release leaves current and previous alone, wherever it is stopped |
| `ReleaseRuns.CurrentAndPrevious` | scripts/release_receipt.py:206-276 | in every crash-free run current is the receipt finalised last, whatever its status, and previous the one finalised before |
| `ReleaseRuns.CurrentIsNeverTorn` | scripts/release_receipt.py:85-102 | with a crash or an exception at any file operation, those inside a write among them: current is absent or exactly a finalised receipt, pending is absent or an unfinished release's, every receipt on file is whole and its own release's, and previous is a finalised receipt unless it was being copied |
| `ReleaseRuns.TempsAreOfCrashes` | scripts/release_receipt.py:85-102 | temporary files are left behind by crashes alone, at most one by each |
| `ReleaseRuns.PendingRecords` | scripts/release_receipt.py:139-196 | over every run: the pending receipt has the release, the facts given to the last `pending`, its start, and for every phase exactly the entry recorded last |
| `ReleaseRuns.CurrentRecords` | scripts/release_receipt.py:206-230 | a finalize that replaces current makes it that receipt, with the status and time of the finalize added and nothing else changed |
| `ReleaseRuns.RolledBackRecords` | scripts/release_receipt.py:238-262 | a rollback puts that receipt on file with the reason added and leaves current alone |
| `ReleaseRuns.FinalizeNamesPendingIff` | scripts/release_receipt.py:206-230 | a completed finalize makes the named release current exactly if it is the pending one |
| `ReleaseRuns.PhaseNamesPendingIff` | scripts/release_receipt.py:184-196 | a phase goes to the named release exactly if it is the pending one |
| `ReleaseRuns.FinalizeOfAnother` | scripts/release_receipt.py:336-340 | a run that begins one release and finalises another: the first is current |
| `ReleaseRuns.RollBackRestoresIff` | scripts/release_receipt.py:264-269 | a completed rollback makes the previous receipt current exactly if it was that already |
| `ReleaseRuns.RunRollBackRestoresIff` | scripts/release_receipt.py:264-269 | which without crashes is so exactly if nothing was ever finalised, or the same receipt twice in a row |
| `ReleaseRuns.RollBackKeepsCurrent` | scripts/release_receipt.py:238-269 | a run of two releases and a third that is rolled back: the second stays current and the first previous |
| `ReleaseRuns.CurrentPassedIff` | scripts/release_receipt.py:213-229 | without crashes the current release is a passed one exactly if the last finalize of a pending release was given the status pass |
| `ReleaseRuns.FailedBecomesCurrent` | scripts/release_receipt.py:213-229 | a release finalised with the status fail becomes current |
| `ReleaseRuns.PreviousIsAnotherReleaseIff` | scripts/release_receipt.py:222-230 | after a finalize previous names another release exactly when the pending release was not already current |
| `ReleaseRuns.RetryLosesPreviousIff` | scripts/release_receipt.py:226-230 | a finalize run again after it was stopped makes up for it, the first release's too, unless it had replaced current and not yet removed pending: then previous is the same release |
| `ReleaseRuns.RetryLosesPrevious` | scripts/release_receipt.py:226-230 | a run in which previous is lost that way |
| `ReleaseRuns.RolledBackIsCurrentIff` | scripts/release_receipt.py:262-269 | a release whose finalize was stopped and that is then rolled back is current all the same exactly if the finalize had replaced current |
| `ReleaseRuns.RolledBackReleaseStaysCurrent` | scripts/deploy-bluegreen.sh:134-142 | a run in which that happens: the deployment's trap answers a signal during finalize with a rollback |
| `ReleaseRuns.OnFileIff` | scripts/release_receipt.py:200-262 | what each command, stopped anywhere, does to whether the current receipt is the one on file for its release |
| `ReleaseRuns.RunOnFileIff` | scripts/release_receipt.py:200-262 | and so for every run: a finalize that replaces current puts it on file, a rollback of the current release or a finalize of it stopped in between takes it off |
| `ReleaseRuns.RollBackOverwritesReceipt` | scripts/release_receipt.py:241-262 | a rollback behind a finished release overwrites its receipt with a minimal one |
| `ReviewLoop.Decide` | scripts/latarnik_review.py:135-152 | the questions behind a letter: a send only on `s` and then `tak`, and an unanswered one ends the session |
| `ReviewLoop.Confirm` | scripts/latarnik_review.py:141-152 | the second question: behind anything but `tak` the person is skipped, and behind `tak` the letter is sent |
| `ReviewLoop.Deliver` | scripts/latarnik_review.py:146-152 | the send behind both answers, and its three outcomes |
| `ReviewLoop.ReviewOne` | scripts/latarnik_review.py:123-152 | one person: preview, letter, questions, any of which may raise |
| `ReviewLoop.ReviewLoop` | scripts/latarnik_review.py:108-153 | every send directly follows `s` and `tak` for the same person's letter, every event follows the one in front as the code has it (a shown letter is asked about, `s` leads to the second question, `tak` to the send) and at most `limit` letters are shown, however the session ends; without an exception the counts add up and it ends only at the end of the list, at the limit or on `q`; an exception ends it at once |
| `ReviewLoop.ConfirmedIsSent` | scripts/latarnik_review.py:141-146 | in every session, each `tak` is followed at once by the send to the person whose letter it was |
| `ReviewLoop.NoSendWithoutLetter` | scripts/latarnik_review.py:133-152 | there are never more sends than letters shown |

## Left out

Assumptions of the models:

- The bridge is one process on one table; runs start from the empty one, and a restart goes
  on with a run. The clock never goes back and `crypto.randomUUID` never repeats. At most
  one database operation of a call fails, a failed COMMIT is not durable, and ROLLBACK
  succeeds. Rows migrated from before `committed_token_hash` existed are not there.
- SHA-256 and HMAC are arbitrary functions; results that need collision freedom exhibit the
  collision. UUID, decimal and hex parsing are the libraries' documented behaviour.
- Strings are sequences of Unicode characters; the TypeScript code sees UTF-16 units.
  `JSON.parse` of a double-quoted YAML scalar is an arbitrary partial function, and texts
  in draw receipts are given as their UTF-8 bytes.
- JSON numbers are reals. Timestamps of the attestation tools are microseconds; printing a
  whole second and parsing it is taken to be a round trip, and sorting to list a set once.
- Manifest rows have all their columns. The node type counts of an attestation are an
  arbitrary value, which the checker does not read.
- Only the canary changes its flag, the server applies what reaches it in order, and an
  entry for this flag that tells whether it is enabled tells the truth. Signals arrive at requests: one between
  two requests is one at the next.
- The review session's rows have an id, and printing does not raise.
- Include paths are resolved; symbolic links that make one file include differently under
  two names are not modelled.
- Recorded paths of the size ratchet are the walk's own, and which paths it looks at is a
  parameter.

Contracts weaker than the code:

- EdgeBridge.Bridge.Caught: takes ROLLBACK to succeed; one that fails is swallowed by the
  code, which then goes on with the transaction still open.

Not modelled:

- HTTP servers, routing, status codes, proxying and envelope verification around the bridge;
  the verified event id is an input.
- Everything in `validate-contract-assets.ts` beyond the OpenAPI mappings and references.
- SQL queries other than the bridge's statements, and the Rust domain and infrastructure
  crates.
- `smoke_template`, argument parsing, file loading and the other read-only commands of the
  scripts; the research loop, which sends one request a row.
- File modes, the order in which a power failure makes file operations durable, and the
  `configs` directory of the release receipts; temporary files have names of their own.
- Output text, except where it is a promise: the review session's letters and the canary's
  final report.
