# Skillonomia registry: a verified model

Skillonomia is a registry of skills that agents adopt. This project models the parts of it whose correctness is
argued over unbounded inputs and whole histories, and proves what its design promises of them. Each module follows
one part of the program:

| module | part of the registry |
|---|---|
| `TarFormat`, `TarProfile`, `TarPax`, `TarReader`, `TarWriter`, `TarReference` | the ustar/pax package codec (IEEE Std 1003.1-2017, utility `pax`, sections "ustar Interchange Format" and "pax Extended Header") |
| `JsonGrammar`, `JsonScanner`, `JsonCanonical` | strict JSON and its canonical form (RFC 8259 sections 2 to 7, RFC 8785 sections 3.1, 3.2.2 and 3.2.3) |
| `Delivery`, `DeliveryRuns`, `DeliveryStore` | the delivery queue: claims, leases, backoff, the sweeper, the human hold, endpoint health |
| `FileTree`, `Activation` | materializing a package under an activation root on a disk full of symbolic links |
| `Findings`, `Drafts`, `DraftRuns` | captured drafts, their revisions, reviews, decisions and per-revision approvals |
| `Lifecycle`, `LifecycleRuns`, `Registry` | assignments of approved revisions as event journals, and the tables that hold all of it |
| `Deployments` | deployments pushed to agents, their journals and their supersession |
| `Inbox`, `InboxPaging` | the Approval Inbox: projection, order, filters and cursors |
| `RateLimit` | the token bucket per key |
| `Cell` | the provenance cell grammar |
| `Common`, `Rows`, `Decimal`, `Lex`, `Sorting` | what several parts share |

How the model is built:

- A table is a sequence or a map of rows; `SELECT … WHERE … ORDER BY` is a filter in insertion order, and the
  invariants prove that insertion order is the order asked for. A transaction is one step whose refusal changes
  nothing. Identifiers are opaque and a repeated primary key is a constraint failure, so it is never assumed that a
  new identifier is new.
- Clocks, identifiers, and the results of `SELECT` races are parameters: a theorem about a run holds for every
  sequence of the modelled operations, by any workers, and with any clock readings, monotone or not, but for two
  results that are about time: `DeliveryRuns.BackoffHolds` asks that no later call reads a clock before the failure's,
  and `DeliveryRuns.LeaseIsExclusive` is about the calls made up to the lease's expiry.
- Code that changes things in steps is written that way: the packer fills a header buffer in place, the reader moves
  an offset and pending overrides, the JSON scanner is a class around one cursor, the stores are classes whose
  methods read, check and update their tables, a poll performs other workers' calls between its own updates. Each
  such method is proved equal to a specification function, and the theorems are about that function.
- Foreign code is a parameter with stated laws: UTF-8 and Unicode tables (`TarProfile.Text`, `Lawful`), base64url and
  `Number` (`InboxPaging.Wire`), ECMAScript's number texts (`JsonCanonical.Numerals`), the operating system's refusals (`FileTree.Fault`), and the text heuristics of the
  draft compiler, whose findings are inputs.

Three results differ from what the surrounding prose says, and the code was followed:

- `attempt_count` can be 5 on a row that is pending again (its fifth lease was reclaimed). The next claim would make
  it 6, which the column's `CHECK(attempt_count BETWEEN 0 AND 5)` (`migrations/0002_p5.sql:31`) refuses: the poll
  raises. `DeliveryRuns.SixthClaim` says exactly when, `SixthClaimIsReachable` is a run that reaches it, and `SpentRowStays` says such a row is never
  claimed again and ends only in the sweeper.
- The endpoint of a request is described as snapshotted when the request is created (`migrations/0002_p5.sql:33`), but
  its foreign key is `ON DELETE SET NULL`: deleting an endpoint clears that column on every request, in whatever state,
  and no guard of a claim looks at it. A claim therefore wins on its snapshot exactly, and the returned job equals the
  stored row, if and only if the endpoint was not deleted since the poll's read (`DeliveryRuns.ClaimNoABA`,
  `DeliveryStore.JobsAreStored`; `DeliveryStore.JobMayNameADeletedEndpoint` is a poll for which they differ). What the
  other run theorems say of an unchanged row is likewise up to that one column.
- The header comment of `src/jcs.ts` says only safe integers are accepted; the code accepts every finite double, and so
  do the canonical-form theorems.

## Model

| member | source | states |
|---|---|---|
| TarWriter.TarRoundTrip | src/archive.ts:432-471 | whatever the packer returns, the reader accepts, and it returns the members in byte order of their paths: the same members and the same path-to-bytes map |
| TarWriter.ArchiveIgnoresOrder | src/archive.ts:432-471 | the archive or the refusal is the same for every insertion order of the package's members |
| TarWriter.WriteTar | src/archive.ts:432-471 | limits first, then collisions, then the sorted members with their path and name checks: exactly the specified archive or error |
| TarWriter.CheckLimits | src/archive.ts:433-439 | the packer's limit loop refuses exactly a package with too many files, a too large file or a too large total |
| TarWriter.CheckCollisions | src/archive.ts:440-445 | the packer's loop over seen keys answers exactly whether two members fold to one collision key |
| TarWriter.PackAll | src/archive.ts:448-470 | the packing loop refuses exactly a bad or over-long name and otherwise emits header, data and padding of each member and the end marker |
| TarWriter.PackedReadsBack | src/archive.ts:218-389 | reading a packed tail from any intermediate reader state yields what was read before followed by the packed members |
| TarWriter.HeaderParses | src/archive.ts:451-464 | every header the packer builds is taken apart by the reader into the same path, size, type and empty prefix |
| TarFormat.BuildHeader | src/archive.ts:451-464 | the header buffer, zeroed and filled in place with the checksum written last, equals the specified 512 bytes |
| TarFormat.HeaderChecksum | src/archive.ts:210-215 | the checksum the packer stores is the one the reader recomputes with the field blanked |
| TarFormat.VerifyHeaderChecksum | src/archive.ts:210-215 | the reader's summing loop accepts exactly the headers whose stored octal number equals that sum |
| TarFormat.NumericFieldRoundTrip | src/archive.ts:163-174 | an octal number padded to its width and followed by NULs and spaces reads back as itself |
| TarReader.ReadTar | src/archive.ts:218-389 | the reader's loop over offset, pending overrides and seen keys computes the specified answer for every byte string |
| TarReader.ReadEntry | src/archive.ts:233-388 | one round of that loop: the header's fields and checks in order, the data slice, the settled override, the padded advance |
| TarReader.HandleExtended | src/archive.ts:286-352 | the records of a local or global extended header are applied or refused one by one as specified |
| TarReader.AcceptedIsSound | src/archive.ts:218-389 | every accepted archive yields only legal paths, no two colliding keys, hence no path twice, and all limits met, from any accounted state |
| TarReference.AcceptedReadsTheSame | src/archive.ts:233-388 | on every accepted archive a lenient reader that applies pax path and size attributes, local over global, returns the same files |
| TarReference.ReadersAgree | src/archive.ts:233-388 | the same from any pair of intermediate states that agree on their pending attributes |
| TarPax.ParsePaxRecords | src/archive.ts:177-197 | the record loop computes the specified records or refuses, advancing on every round |
| TarPax.PaxRoundTrip | src/archive.ts:177-197 | parsing inverts the length-prefixed encoding of every list of encodable records, lengths counted in bytes |
| TarPax.RecordInBounds | src/archive.ts:183-194 | an accepted record lies inside the payload and is exactly length, space, body and newline: no slice is cut short |
| TarPax.AcceptedRecordsTile | src/archive.ts:177-197 | an accepted payload is non-empty, ends with a newline, and every record in it is one the encoding could have produced |
| TarPax.RecordLengthIsExact | src/archive.ts:174-176 | the stated length of an encoded record counts its own digits exactly |
| JsonScanner.ScanIsExact | src/jcs.ts:73-151 | on every valid JSON text the cursor stops exactly after the value, and the scan throws if and only if some object has two members with equal decoded names |
| JsonScanner.ScansValue | src/jcs.ts:100-149 | the same for a value inside a longer text: the scan decides duplicates and leaves the parser's own remainder |
| JsonScanner.ScansString | src/jcs.ts:79-98 | on a valid string the scanner yields the decoded text and stops after the closing quote |
| JsonScanner.ScanAloneIsLenient | src/jcs.ts:100-149 | the scanner alone accepts a text that is not JSON, so the parse before it is needed |
| JsonScanner.ParseJsonStrict | src/jcs.ts:73-151 | parse, then scan with the mutable cursor: exactly the specified value, syntax error or duplicate key |
| JsonGrammar.ParserDecidesGrammar | src/jcs.ts:74 | the RFC 8259 parser answers a tree exactly for the texts that render it, and the tree is unique |
| JsonGrammar.LiteralIsWordOrNumber | src/jcs.ts:145-147 | the characters the scanner skips for a literal lose nothing: literals are exactly the three words and the RFC numbers |
| JsonCanonical.CanonicalRoundTrip | src/jcs.ts:24-52 | for every value with finite numbers of any size, a canonical text is JSON, and its tree denotes the value with sorted members, equal to the value up to member order and the sign of zero |
| JsonCanonical.CanonicalIffSame | src/jcs.ts:24-52 | two values have the same canonical text if and only if they are equal up to member order and the sign of zero |
| JsonCanonical.CanonicalPassesScan | src/jcs.ts:73-151 | the strict parser accepts every canonical text |
| JsonCanonical.CanonicalDefined | src/jcs.ts:24-52 | canonicalization succeeds if and only if every number is finite and every string and member name is well-formed UTF-16 |
| JsonCanonical.SameIffNorm | src/jcs.ts:42-46 | sorting member names by code units, at every depth, is a canonical choice: equal up to order means equal after sorting |
| Delivery.InvAlways | src/delivery.ts:88-385 | in every reachable state lease fields are set exactly in leased, a reason exactly in dead_letter, attempts stay within 0..5, decisions match their request, only an agent's newest endpoint may be live, and no request points at an endpoint that is gone |
| DeliveryRuns.EvolvesAlways | src/delivery.ts:88-259 | along every run a request keeps its identity and only moves forward in (attempts, phase); its endpoint is the one it was given unless that is deleted; beyond that pushed and dead_letter rows never change |
| DeliveryRuns.ClaimNoABA | src/delivery.ts:88-115 | a claim made from a snapshot that wins after any operations of others finds the row to be that snapshot if and only if its endpoint was not deleted meanwhile, and that snapshot without an endpoint otherwise; it changes only that row |
| DeliveryRuns.OneWinnerPerSnapshot | src/delivery.ts:88-115 | after one claim from a snapshot has won, no later claim from the same snapshot wins |
| DeliveryRuns.SixthClaim | migrations/0002_p5.sql:31 | in every run a claim raises the column constraint if and only if its row is due and five earlier claims of it have won |
| DeliveryRuns.SixthClaimIsReachable | src/delivery.ts:216-223 | a concrete run of five abandoned leases reaches that constraint failure |
| DeliveryRuns.SpentRowStays | src/delivery.ts:209-259 | a pending row with five attempts is never claimed again and ends only as stale_lease or endpoint_dead; until then at most a deletion of its endpoint touches it |
| DeliveryRuns.LeaseIsExclusive | src/delivery.ts:117-185 | until it expires a lease is its owner's alone: no other worker, stale call or claim changes the row, only the sweeper may end it, and a deleted endpoint costs it that column and nothing else |
| DeliveryRuns.NewRequest | src/service.ts:4690-4701 | a new request is due at once unless held, and carries the one live endpoint of its adopter when there is one |
| DeliveryRuns.DeliveryIsBounded | src/delivery.ts:137-178 | over every run a request has at most one accepted complete and at most five accepted fails, the fifth dead-letters as max_attempts, and attempts count the claims that won |
| DeliveryRuns.BackoffHolds | src/delivery.ts:152-178 | after a fail at attempt a no claim wins for 2^a seconds, whatever happens in between |
| DeliveryRuns.BackoffIsExponential | src/delivery.ts:39-41 | below the attempt limit the cap never binds; beyond it the wait is the cap; it is always positive |
| DeliveryRuns.HeldUntilDecided | src/approvals.ts:422-436 | a held request stays held, and unchanged but for a deleted endpoint, exactly as long as no decision on it is recorded |
| DeliveryRuns.SweepClosure | src/delivery.ts:209-259 | after a sweep no lease has expired, nothing open is too old and nothing open points at a dead endpoint; held and terminal rows are untouched |
| DeliveryRuns.SweepIdempotent | src/delivery.ts:209-259 | sweeping twice at one instant is sweeping once |
| DeliveryRuns.HealthRefinesHistory | src/delivery.ts:394-424 | an endpoint is dead if and only if five consecutive failures occurred; otherwise its count is the trailing run of failures and it is failing exactly when that is positive |
| DeliveryRuns.HookFollowsItsResults | src/delivery.ts:394-424 | in a run, until its agent registers another, an endpoint is the fold of its own results if and only if it has not been deleted, and its agent has lost it if and only if it has |
| DeliveryRuns.SelectsTheLiveEndpoint | src/delivery.ts:360-365 | the selection by recency is the agent's only live endpoint, or none |
| DeliveryStore.JobsAreStored | src/delivery.ts:88-115 | each job a poll returns was the stored row an instant before its claim, and is the stored row just after it, if and only if nothing deleted its endpoint since the read; otherwise the stored row is the job without an endpoint |
| DeliveryStore.JobMayNameADeletedEndpoint | migrations/0002_p5.sql:34 | a concrete poll whose one job names an endpoint that the stored row has lost |
| DeliveryStore.SweepListsAreExact | src/delivery.ts:195-259 | the three lists name exactly the rows each pass changed, no row is both aged out and abandoned, and an unnamed row is unchanged |
| DeliveryStore.Store.PollDelivery | src/delivery.ts:88-115 | one read, then one guarded update per row with other workers' calls between them: the state, the jobs and the exception are those of the interleaved run |
| DeliveryStore.Store.SelectDue | src/delivery.ts:89-95 | the due list is sorted, within the limit, and skips nothing due for something later |
| DeliveryStore.Store.ClaimRow | src/delivery.ts:100-107 | the claim's update in place is the specified one, including the constraint failure |
| DeliveryStore.Store.RenewLease | src/delivery.ts:118-126 | a live lease of this worker is extended to ten seconds from now, anything else is left alone |
| DeliveryStore.Store.CompleteDelivery | src/delivery.ts:137-145 | a live owner's complete makes the row pushed; otherwise not found or the current state is reported and nothing changes |
| DeliveryStore.Store.FailDelivery | src/delivery.ts:152-178 | a live owner's fail retries with backoff, or dead-letters when the attempt limit is reached, which is looked at first |
| DeliveryStore.Store.MarkEndpoint | src/delivery.ts:343-385 | a live owner's endpoint_dead or endpoint_missing dead-letters the row; a stale caller changes nothing |
| DeliveryStore.Store.SweepQueue | src/delivery.ts:209-259 | the three loops in order make exactly the specified change and return exactly the specified lists |
| DeliveryStore.Store.RecordApproval | src/approvals.ts:324-471 | gate, existence, version, replay or conflict in that order; otherwise the decision is recorded and a held row released together |
| DeliveryStore.Store.RecordWebhookResult | src/delivery.ts:394-424 | the health update in place is the specified one and a dead endpoint is never revived |
| DeliveryStore.Store.RegisterWebhook | src/webhooks.ts:256-265 | registering retires every live endpoint of the agent and adds one fresh active endpoint |
| DeliveryStore.Store.DeleteWebhook | src/webhooks.ts:277-286 | an agent's own endpoint is removed and every request naming it loses it; an unknown or another agent's endpoint is not found and nothing changes |
| DeliveryStore.Store.EnqueueRequest | src/service.ts:4690-4701 | the inserted row: held or pending, no attempts, due now, the selected endpoint |
| Activation.Materialize | src/activation.ts:291-315 | for every disk, links, faults and package: on return and on every error nothing outside the resolved root differs and no link appears; on success every file is where it was put, and with no link below the root that is exactly root, native directory, package path |
| Activation.MkdirWithinRoot | src/activation.ts:227-257 | the returned text is a canonical directory path within the root, and whether it returns or refuses nothing that existed is touched and only empty directories below the root are added |
| Activation.Descend | src/activation.ts:233-254 | one component is created if absent, resolved and checked before it is entered; the result stays within the root |
| Activation.PlaceFile | src/activation.ts:298-312 | one package file: path checks, directories, replacement; confined, no existing file lost but the one replaced |
| Activation.Replace | src/activation.ts:301-310 | whatever holds the name is unlinked and the file created right there: a planted link is never written through |
| Activation.ResolveRoot | src/activation.ts:193-203 | an accepted root is an absolute text that resolves to a canonical existing directory |
| Activation.StraightHolds | src/activation.ts:291-315 | without links distinct package paths have distinct places, so at the end every file of the package holds its own bytes |
| Activation.FileDirectorySplits | src/activation.ts:300-301 | the directory walked for a file and the file's last name together are the native directory's and the package path's components |
| FileTree.WithinIsPrefix | src/activation.ts:184-186 | on canonical texts the string test with the trailing separator is exactly component-wise containment, the root directory included |
| FileTree.ResolveIsCanonical | src/activation.ts:241-246 | whatever links and loops there are, resolution yields only existing link-free paths |
| FileTree.ResolveSelf | src/activation.ts:234-250 | a canonical path resolves to itself without following a link |
| FileTree.LandingIsPlace | src/activation.ts:307-311 | wherever a write ends up, it is a name inside an existing directory and not a link |
| FileTree.JoinIsChild | src/activation.ts:234 | joining one plain name to a canonical directory text names its child |
| Findings.ReviewShowsSevereFirst | src/draft.ts:473-485 | a review lists as many blocking findings as fit, in source order, before any other, while both counts cover the whole set; zero blocking means none anywhere |
| Findings.SortPartitions | src/draft.ts:112-115 | the stable sort by severity is the severe findings in source order followed by the others in source order |
| Sorting.SortStable | src/draft.ts:112-115 | findings of one rank keep their source order whatever the ranking |
| Sorting.SortForgetsOrder | src/approval-inbox.ts:140-149 | sorting by a key that tells members apart gives one result for every order of arrival |
| DraftRuns.InvAlways | src/capture.ts:752-1193 | in every reachable store revisions are 1..n with each parent the one before, redaction lists are min(total, 200) long and only grow, a capture is drafted iff it has a revision, approvals are of unblocked revisions in strictly increasing number, an undecided or rejected draft has none |
| DraftRuns.ApproveVerdictIsEnforced | src/console-view.ts:207-227 | approve is offered beside a revision if and only if approving that revision by name, by an owner with a valid reason, would be accepted |
| DraftRuns.RejectVerdictIsEnforced | src/draft-decision.ts:270-288 | reject is offered if and only if rejecting the head, named or not, with a valid reason would be accepted |
| DraftRuns.RejectOfOlderRevision | src/draft-decision.ts:374-382 | naming an older revision in a rejection is accepted if and only if reject is offered and that revision is the head |
| DraftRuns.ReviseVerdictIsEnforced | src/draft-decision.ts:299-308 | revise is offered if and only if a well-formed revision that fits its columns would be accepted |
| DraftRuns.DecidedWhenApproved | src/console-view.ts:76-83 | an approved revision belongs to a draft whose recorded decision is an approval |
| DraftRuns.ApprovedIsListed | src/draft-decision.ts:174-187 | a revision is found approved in the whole table exactly when its own draft's approvals name its number |
| DraftRuns.HistoryOnlyGrows | src/draft-decision.ts:351-475 | along any run lineages and approvals only grow and a decision never changes |
| DraftRuns.RejectionIsFinal | src/draft-decision.ts:384-387 | a rejected draft keeps its lineage, has no approval, and refuses every later decision and revision, however the run goes on |
| Registry.Store.SubmitCapture | src/capture.ts:752-1012 | the arrival and its first revision are inserted together or not at all, with the specified refusals |
| Registry.Store.ReviseDraft | src/capture.ts:1043-1193 | an edit or recompile appends exactly one revision of the head with the carried list and total, or refuses in the specified order |
| Registry.Store.CollectRedactions | src/capture.ts:1082-1107 | the findings of every edited section are collected in section order |
| Registry.Store.DecideDraft | src/draft-decision.ts:351-475 | the first decision writes both tables, a later approval only its own, and every refusal comes in the code's order |
| LifecycleRuns.InvAlways | src/assignment-lifecycle.ts:577-805 | in every reachable store each journal is 1..n, starts with assigned, obeys the table, has nothing after revoked, names only approved (revision, digest) pairs of its lineage, classifies rollback by revision number, and at most one assignment per agent and lineage stands |
| LifecycleRuns.ActionVerdictIsEnforced | src/assignment-lifecycle.ts:508-526 | activate, pause or revoke is offered, and the version named is the current one or none, if and only if the command returns |
| LifecycleRuns.SelectVerdictIsEnforced | src/assignment-lifecycle.ts:519-524 | select_revision is offered if and only if some revision exists whose selection appends an event |
| LifecycleRuns.RollbackIsAlwaysPossible | src/assignment-lifecycle.ts:749-805 | while an assignment stands, every revision its journal ever named can be selected again |
| LifecycleRuns.DesiredIsApproved | src/assignment-lifecycle.ts:647-805 | every revision and digest a journal names is a stored revision of the lineage with that digest and nothing blocking |
| LifecycleRuns.OneWriterPerVersion | src/assignment-lifecycle.ts:577-589 | of all commands that name one version of one assignment, in any run, at most one appends an event |
| LifecycleRuns.JournalOnlyGrows | src/assignment-lifecycle.ts:591-629 | along any run a journal is only extended |
| LifecycleRuns.RevokedIsFinal | src/assignment-lifecycle.ts:48-53 | after revoked a journal never changes again |
| Registry.Store.LiveAssignment | src/assignment-lifecycle.ts:459-467 | the loop finds a standing assignment of the lineage at the agent if and only if there is one |
| Registry.Store.AssignRevision | src/service.ts:5329-5337 | eligibility in the code's order, then the assignment and its first event together |
| Registry.Store.ApplyAction | src/assignment-lifecycle.ts:689-735 | version check, convergent answer, transition table, one appended event, in that order |
| Registry.Store.SelectRevision | src/assignment-lifecycle.ts:749-805 | version, revoked, approved-in-lineage, same-revision checks in order, then one event with its direction |
| Deployments.InvAlways | src/assignments.ts:361-454 | every reachable journal runs 1..n along the deployment table, and only the newest assignment of a skill may stand at an agent |
| Deployments.PushSupersedes | src/assignments.ts:431-454 | after a push only the successor stands; each assignment it replaced gained one revocation naming it, retained exactly when the last recorded copy was written; every other journal is untouched |
| Deployments.PushRefusal | src/assignments.ts:431-454 | a push under a fresh identifier is refused if and only if the assignment it would replace is being activated |
| Deployments.HeadFrom | src/assignments.ts:259-282 | the loop over a sound journal yields its last state and the last value given to each placement field |
| Deployments.HeadCopyIsLast | src/assignments.ts:272-276 | the head's managed copy is the last one any event recorded |
| Deployments.SupersedingKeyIsFree | src/assignments.ts:446-451 | the idempotency key of a supersession never collides with one already in the journal |
| Deployments.Tables.AppendEvent | src/assignments.ts:361-416 | an illegal transition or a used key is refused, otherwise exactly one event with the next number is appended |
| Deployments.Tables.PushDeployment | src/assignments.ts:309-454 | creation and supersession are one transaction: a rival that cannot be revoked takes everything back |
| Inbox.ProjectionForgetsOrder | src/approval-inbox.ts:300-600 | for every permutation of the version, review, activity, approval and request rows the projection is the same list |
| Inbox.ItemsAreDistinct | src/approval-inbox.ts:300-600 | no two items of a projection share an identifier, within a kind or across the three kinds |
| Inbox.LatestIsMaximum | src/approval-inbox.ts:140-144 | the fold of laterOf is a member that no member comes after in (created_at, id) |
| Inbox.LatestForgetsOrder | src/approval-inbox.ts:140-149 | that fold gives the same row for every order of the rows |
| Inbox.ReviewPendingMeans | src/approval-inbox.ts:408-426 | a version awaits a verdict if and only if it has none or some request came after every one it has |
| Inbox.ItemIdRoundTrip | src/console-v2.ts:228-242 | the identifier parser accepts exactly the identifiers of a kind and a non-empty subject, and returns them |
| Inbox.ItemIdInjective | src/console-v2.ts:228-230 | different kinds or subjects have different identifiers |
| Inbox.Bounded | src/approval-inbox.ts:252-254 | the history is the twenty most recent decisions, or all of them, oldest first |
| Inbox.LatestRow | src/approval-inbox.ts:140-144 | the loop computes that fold |
| Inbox.GroupBy | src/approval-inbox.ts:389-401 | the loop that fills a Map of lists gives each subject exactly its rows in row order |
| Inbox.LatestByRequest | src/approval-inbox.ts:543-553 | the loop over adoption approvals keeps the latest row bound to each request |
| Inbox.ProjectReviews | src/approval-inbox.ts:389-467 | one item per reviewed or requested version, in version order |
| Inbox.ProjectPublishes | src/approval-inbox.ts:484-535 | one item per version with a publish approval or whose publish gate is still ahead, in version order |
| Inbox.ProjectAdoptions | src/approval-inbox.ts:543-597 | one item per held, decided or denied request, in request order |
| Inbox.ProjectInbox | src/approval-inbox.ts:300-600 | the three loops together compute the projection |
| InboxPaging.PagingIsExact | src/approval-inbox.ts:639-673 | following the cursors from the start concatenates to the whole listing, with no gap or repeat, in max(1, ceil(n / limit)) pages, for every positive limit |
| InboxPaging.ListingIsStrict | src/approval-inbox.ts:651-653 | for every filter the listing holds exactly the wanted items, each strictly before the next |
| InboxPaging.ListingForgetsOrder | src/approval-inbox.ts:651-653 | the filtered and sorted listing is the same for every order of the tables' rows |
| InboxPaging.ListingIsPageable | src/approval-inbox.ts:639-673 | every listing of a projection meets what exact paging needs |
| InboxPaging.CursorRoundTrip | src/console-v2.ts:370-389 | a cursor decodes to the timestamp and identifier it encoded, whatever characters the identifier holds |
| InboxPaging.CompareIsKeyOrder | src/console-v2.ts:362-365 | the comparator is a strict total order: later first, then identifier, zero only for equal pairs |
| InboxPaging.AfterItem | src/approval-inbox.ts:655-659 | what a cursor selects is exactly everything behind the item it was made from |
| RateLimit.TokensAreExact | src/ratelimit.ts:31-44 | after any call history, with time read as its running maximum, the tokens are the minimum over earlier calls of capacity plus refill since then minus grants since then |
| RateLimit.GrantIsExact | src/ratelimit.ts:41-43 | a call is granted if and only if every one of those bounds still holds a token for it |
| RateLimit.WindowBound | src/ratelimit.ts:31-44 | the grants of any stretch of calls are at most the capacity plus the refill of the time it spans |
| RateLimit.KeysAreIndependent | src/ratelimit.ts:32-36 | in any mixed history a key's bucket is the fold of that key's own calls |
| RateLimit.RateLimiter.Take | src/ratelimit.ts:31-44 | the update in place advances the map of buckets by exactly this call and answers exactly its grant |
| RateLimit.RateLimiter.Create | src/ratelimit.ts:23-28 | a limiter exists exactly for a capacity of at least one and a refill that is not negative |
| Cell.FormatParse | src/console-proofline.ts:96-116 | formatting what was parsed gives the text back, for every string |
| Cell.ParseFormat | src/console-proofline.ts:96-116 | parsing what was formatted gives the cell back if and only if no chunk before a separator contains one or ends in its first two characters, the last chunk contains none, and each part is unambiguous about its key |
| Cell.ParseCell | src/console-proofline.ts:96-109 | the loop over the chunks computes the specified cell |
| Cell.SplitJoin | src/console-proofline.ts:97-115 | splitting undoes joining on the self-overlapping separator exactly for clean chunks |

## Left out

- Unicode tables, NFC and case folding, UTF-8 itself: parameters with the laws used (`TarProfile.AsciiOnlyIsLawful` shows the laws consistent).
- gzip, SHA-256, ULIDs, `readDirectory` and package integrity digests: foreign code or I/O around the codec.
- Per-file `hdrcharset` records: neither reader interprets them.
- `Number::toString` and the reading of a number's text: a parameter with the two laws used (`JsonCanonical.BitsAreLawful` shows the laws consistent); the canonical theorems hold for every finite double, up to the sign of zero.
- Concurrent writers during materialization, file modes, `removeManaged`, `readBack` and `skillFilesUnder`.
- Activation.Descend: an error of realpath other than absence is the same refusal in the code and is not told apart here.
- Multi-statement races other than a poll's: every other delivery call, and every registry call, is one atomic step.
- `requester_context_json`: a cached copy on the request row that no delivery decision reads, rewritten at adoption (`src/service.ts:7226`); it is not a column of `Delivery.Row`, so "the stored row" means the other columns.
- DeliveryStore.Store.RecordApproval: does not model publish-scope approvals, which touch no request, the checks of the payload's shape, or the transparency-log append in the same transaction.
- Delivery of the HTTP request itself, signing secrets, notification kinds and the transparency log.
- Several workspaces: one workspace is modelled, so cross-workspace access checks are not.
- The draft compiler's, classifier's and reviewers' text heuristics, the draft audit journal, column sizes other than the decision reason's (an oversize draft is an input flag).
- Reasons, provenance, actors and timestamps carried on journal events, and observed runtime states: no decision depends on them.
- Idempotency-key replay in front of the service methods.
- Inbox query validation (default and maximum limit, vocabulary checks) and the approval-condition matrix, which is a parameter.
- Deployments.Tables.AppendEvent: does not model the pattern an event reason must match.
- Floating-point rounding in the token bucket: it is modelled over reals.
- Browser code, HTTP routing, CLI, authentication and countersigning.
