# Verified model of escurel

A Dafny 4.11 model of the parts of escurel where correctness rests on an argument rather than on one
line of code. escurel stores pages of markdown, edits them live through a CRDT op log, indexes them
with embeddings, keeps an events table that clients page through and tail, freezes pages that have been
signed off, and decides who may read and write them.

`dafny verify dfyconfig.toml` checks the whole project.

| component | modules |
|---|---|
| op log, live actor, reconciler (`escurel-crdt`) | `OpLog`, `LiveDoc`, `Recovery`, `Allocation`, `Actor`, `Reconciler` |
| freeze gates | `Freeze`, `FreezeRuns` |
| embedding space and chat vectors | `EmbeddingSpace`, `EmbeddingIndexer`, `EmbeddingRuns` |
| events, cursors, listings, tails, retention | `Events`, `Cursor`, `Keyset`, `EventPaging`, `ChatPaging`, `EventTail`, `Retention` |
| statements sent to Postgres | `PgNative`, `PgExact`, `PgListing`, `PgScanner`, `PgSql`, `PgTexts`, `PgMeaning` |
| retrieval metrics | `Metrics`, `Latency` |
| connection strings | `Utf8`, `Dsn`, `DsnKeyValue`, `DsnUri`, `DsnAppend`, `DsnRoundTrip` |
| access decision | `Acl` |
| shared | `Wrappers`, `Ordering`, `Text`, `Decimal` |

Where the source changes things step by step, the model does too: `Actor.Backend`, `Actor.Actor`,
`EmbeddingIndexer.Indexer` and `Events.EventStore` are classes whose methods are proved against the
functions the theorems are about, and the source's loops are loops. Concurrency is modelled as a state
machine over the critical sections of the code, and the theorems hold for every interleaving.

Outside code enters as parameters with a stated law: the CRDT engine (a snapshot reads back as the
document it was taken from), the embedder (a function of model and text), MD5, base64url and HMAC
(inverse pairs, and collision freedom only where a lemma says so), the discount of nDCG (positive and
growing), the order a hash map is visited in (any), wikilink recognition and the markdown parser.
A failing write or a failing embedding batch is a flag on the step, so every theorem covers it.

## Results that are exact

Some promises hold only under a condition. The model keeps the code as it is, and each of these has
both directions proved:

- A tail delivers every event once, in capture order, for exactly the filters that ask for the inbox or
  have neither a `status` nor an `instance_page_id` condition (`EventTail.TailIff`). What it delivered
  stays the beginning of the listing for exactly the latter, or where nothing is ever selected
  (`EventTail.PrefixIff`).
- The documentation promises that a frozen page refuses every write (`docs/spec/protocol.md:174-190`). The
  validator asks about the freeze only when the new content is an instance
  (`crates/escurel-index/src/validate.rs:1608`), so skill-page content sent to a frozen instance is admitted
  and thaws it (`FreezeRuns.SkillContentThaws`); and a page archived before it froze can be purged
  (`FreezeRuns.FrozenHuskPurged`). `FreezeRuns.KeepsFrozenIff` says exactly which admitted edits leave every
  frozen page alone, and freezes are stable over every run of edits that strike none
  (`FreezeRuns.FreezeIsStable`).
- The documentation of a write asks for ownership of both the stored page and the incoming text
  (`crates/escurel-index/src/acl.rs:461-467`); the code asks for the stored page's owner, and for the incoming
  text's owner where there is no stored owner, and a listed group is enough for either. The documented rule
  holds of a caller's overwrites exactly when the caller can overwrite nothing (`Acl.OverwriteRuleIff`), of
  creations exactly when no held group is listed (`Acl.CreateRuleIff`), and pages without an owner field are
  for administrators alone exactly then too (`Acl.OwnerlessRuleIff`). `Acl.Transfer` is an owner giving a page
  away. The model follows the code.
- The incoming page's `acl` key has no say in its own write, except when the skill names `acl` as its
  owner field and the write hangs on ownership of the incoming page (`Acl.OwnBlockIff`).
- `with_param` and the parser agree for exactly the keys, values and strings given by
  `DsnAppend.AppendToUri` and `DsnAppend.AppendToKeyValue`.
- As read by a lexer of one-character symbols, ASCII words, plain constants and line comments, a statement
  keeps its meaning under every choice of binds exactly when each `?` is outside quotes and comments, stands
  between boundaries and not after a minus sign (`PgExact.PreservesIff`; `PgExact.MarkAfterWord` and
  `PgExact.MarkAfterMinus` are failing inputs). Postgres reads longer operators, decimals and prefixed strings,
  so for other templates it asks for more. The statements the code builds meet a stronger condition, every `?`
  between a space or `(` and a space, `)` or the end (`PgListing.ListingRenders`), under which they keep their
  meaning for every scanner that starts afresh at parentheses and single spaces (`PgScanner.ListingReads`). What
  they mean is `PgMeaning.ListingMeans`: read by a grammar of SQL conditions and evaluated in its three-valued
  logic, they are true at exactly the rows of the tenant that the local listing selects.
- A ranking scores at most 1 under every relevance map exactly when it has no repeats (`Metrics.BoundedIff`).
- After an op whose write failed, a restart rebuilds the actor's document exactly when the engine refused the
  op or it changed nothing (`Recovery.UnstoredOpIff`).
- After a committing close a restart rebuilds the actor's document exactly when some op was acknowledged or the
  document is still the opening one (`Recovery.CrashRecovery`).
- A cited page keeps its log exactly when it has a snapshot, or the file holds no text to take instead
  (`Reconciler.CitedKeptIff`).
- A whole-page write under a live session is what a restart rebuilds unless it writes the session's own
  document (`Recovery.ForeignWrite`).
- The reconciler's head-then-insert is an allocation exactly when the head stood still in between
  (`Allocation.ReconcileInTwoSteps`).
- A move keeps every frozen page exactly when it does not replace one (`FreezeRuns.MoveKeepsFrozenIff`),
  and a parent read through a link and read on its own is judged under the same skill exactly when the page
  declares its skill or the link's skill has no slash (`FreezeRuns.SamePageIff`). A page is called anchored
  below when a chain of such links freezes it.
- Over an index without a record, chat vectors agree with whatever any run comes to record exactly when each is
  empty, zero or the embedding of its message under every real model (`EmbeddingRuns.UnrecordedChat`), that
  is, for every embedder, when each is empty or zero (`EmbeddingRuns.UnrecordedVectors`).

## Model

| member | source | states |
|---|---|---|
| OpLog.MaxHlcBounds | crates/escurel-crdt/src/backend.rs:654-699 | no stored op or snapshot of a page lies above the page's maximum |
| OpLog.MaxHlcAttained | crates/escurel-crdt/src/backend.rs:654-699 | on a numbered log it is 0 exactly without rows, and otherwise some row carries it |
| OpLog.LoadsNothing | crates/escurel-crdt/src/backend.rs:313-397 | a load finds nothing exactly when the page has no row |
| OpLog.LoadMeans | crates/escurel-crdt/src/backend.rs:313-397 | otherwise it is the state of a snapshot none is newer than, and the payload of every op above it, each as often as stored, oldest first |
| OpLog.AuthorsMean | crates/escurel-crdt/src/backend.rs:543-573 | the timeline is id, hlc and principal of each of the page's ops, by hlc and then by id |
| OpLog.CompactIff | crates/escurel-crdt/src/backend.rs:453-541 | compaction removes an op exactly when a snapshot of its page is at or above it |
| OpLog.BytesAdd | crates/escurel-crdt/src/backend.rs:453-541 | the bytes counted are the payloads' added up |
| OpLog.CompactLoad | crates/escurel-crdt/src/backend.rs:453-541 | compacting one page leaves what loading returns the same for every page |
| OpLog.CompactMaxHlc | crates/escurel-crdt/src/backend.rs:453-541 | compaction moves no page's highest hlc |
| OpLog.CompactAuthors | crates/escurel-crdt/src/backend.rs:543-573 | after compaction the op authors are a suffix of what they were |
| OpLog.CompactTwice | crates/escurel-crdt/src/backend.rs:453-541 | a second compaction finds nothing to remove |
| OpLog.CompactionInvisible | crates/escurel-crdt/src/backend.rs:453-541 | load, head, timeline and second sweep at once, and the count and bytes removed are exactly what is missing from the table |
| LiveDoc.AppendSucceeds | crates/escurel-crdt/src/backend.rs:289-299 | the op id spelled from the next hlc is free, so the insert is accepted |
| LiveDoc.LoadAfterAppend | crates/escurel-crdt/src/backend.rs:313-397 | loading after an append is loading before, with the op last |
| LiveDoc.LoadAfterSnapshot | crates/escurel-crdt/src/backend.rs:313-397 | a snapshot at or above every row is the whole state a load returns |
| LiveDoc.HydrateAfterAppend | crates/escurel-crdt/src/livedoc.rs:33-48 | rebuilding after an append is rebuilding and then importing the op |
| LiveDoc.HydrateAfterSnapshot | crates/escurel-crdt/src/livedoc.rs:33-48 | rebuilding after a snapshot gives the document it was taken from |
| Recovery.SnapshotNextLands | crates/escurel-crdt/src/backend.rs:301-306 | a snapshot at the next hlc is accepted, becomes the head, and is what a restart rebuilds |
| Recovery.OpenMeans | crates/escurel-crdt/src/livedoc.rs:81-145 | with an op above the newest snapshot or a snapshot that is not empty nothing is written and the stored document is opened, whatever the seed; without, a seed that is not empty becomes the document and is what a restart rebuilds; otherwise nothing is written; it fails exactly when the stored state cannot be rebuilt |
| Recovery.ApplyMeans | crates/escurel-crdt/src/livedoc.rs:247-264 | acknowledged exactly when the engine takes the op and the store answers; the log then holds one op more, with its author, one above the head; a refused op changes nothing, an unstored one only the document |
| Recovery.CloseMeans | crates/escurel-crdt/src/livedoc.rs:266-297 | nothing is written without a commit or an acknowledged op; otherwise, if the store answers, one snapshot of the document at the head |
| Recovery.AckTracks | crates/escurel-crdt/src/livedoc.rs:247-264 | an acknowledged op extends log and document in step |
| Recovery.CloseStores | crates/escurel-crdt/src/livedoc.rs:266-297 | a committing close after an acknowledged op stores exactly the actor's document |
| Recovery.StepKeeps | crates/escurel-crdt/src/livedoc.rs:81-297 | every command, failing writes and crashes included, keeps each live actor's document tied to the log |
| Recovery.RunKeeps | crates/escurel-crdt/src/livedoc.rs:81-297 | every run of commands keeps that tie |
| Recovery.CrashRecovery | crates/escurel-crdt/src/livedoc.rs:81-297 | after any run a restart of any live page rebuilds its opening document plus exactly the acknowledged ops, the whole document when every imported op was acknowledged, and after a committing close the whole document if and only if some op was acknowledged or the document is the opening one |
| Recovery.RecoversEverything | crates/escurel-crdt/src/livedoc.rs:81-297 | in runs where no op write fails, a restart at any point rebuilds every live document |
| Recovery.CloseRecovers | crates/escurel-crdt/src/livedoc.rs:266-297 | closing with or without commit, even when the snapshot cannot be written, loses nothing stored |
| Recovery.ForeignWrite | crates/escurel-crdt/src/backend.rs:301-306 | a whole-page write under a live actor leaves a restart with the actor's document if and only if it wrote that document |
| Recovery.UnstoredOpIsLost | crates/escurel-crdt/src/livedoc.rs:247-264 | an op whose write failed is in the actor's document and in no restart's |
| Recovery.UnstoredOpIff | crates/escurel-crdt/src/livedoc.rs:247-264 | after a failed op write a restart rebuilds the actor's document if and only if the engine refused the op or it changed nothing |
| Allocation.Published | crates/escurel-crdt/src/backend.rs:301-306 | a snapshot at the next hlc never collides and moves only its page's head, by one |
| Allocation.Appended | crates/escurel-crdt/src/backend.rs:289-299 | an op at the next hlc never collides and moves only its page's head, by one |
| Allocation.Settled | crates/escurel-crdt/src/livedoc.rs:274-296 | the snapshot of a close, at an hlc the page has passed, is accepted when free and moves no head |
| Allocation.EndKeeps | crates/escurel-crdt/src/livedoc.rs:266-297 | in every reachable state that snapshot is free, so a close never fails and never moves a head |
| Allocation.NextKeeps | crates/escurel-crdt/src/backend.rs:289-306 | every action of every session is accepted and keeps the allocation invariant |
| Allocation.NextLands | crates/escurel-crdt/src/backend.rs:289-311 | the rows each action adds or removes, for every reachable state |
| Allocation.RunKeeps | crates/escurel-crdt/src/backend.rs:289-306 | no run of actions is ever refused |
| Allocation.VersionAllocation | crates/escurel-crdt/src/backend.rs:289-306 | over every interleaving no insert collides and each page's issued hlcs strictly increase |
| Allocation.CloseNeverMovesHead | crates/escurel-crdt/src/livedoc.rs:274-296 | a committing close at any point of any run leaves every head where it was |
| Allocation.ReconcileInTwoSteps | crates/escurel-crdt/src/reconciler.rs:209-226 | writing at an earlier head plus one is an allocation if and only if the head stood still |
| Allocation.LateReconcileDropsOp | crates/escurel-crdt/src/reconciler.rs:209-226 | an op accepted between the two steps is no longer loaded |
| Actor.Backend.HighestHlc | crates/escurel-crdt/src/backend.rs:654-699 | the highest hlc of the page: no row is above it, some row carries it, 0 without rows |
| Actor.Backend.AppendNext | crates/escurel-crdt/src/backend.rs:289-299 | stores the op one above the old maximum, or changes nothing; succeeds on a numbered log |
| Actor.Backend.Snapshot | crates/escurel-crdt/src/backend.rs:308-311 | stores the row, or changes nothing because the hlc is taken |
| Actor.Backend.SnapshotAtNext | crates/escurel-crdt/src/backend.rs:301-306 | always stores one above the old maximum |
| Actor.Backend.CompactSubsumedOps | crates/escurel-crdt/src/backend.rs:453-541 | the reported count and bytes are what left the table |
| Actor.Actor.Open | crates/escurel-crdt/src/livedoc.rs:81-145 | fails exactly when the stored state cannot be rebuilt; stored state is opened and kept whatever the seed, a page without any takes a seed that is not empty and a restart rebuilds it, otherwise nothing is written; the open is a step of the machine |
| Actor.Actor.ApplyOp | crates/escurel-crdt/src/livedoc.rs:247-264 | import then persist: imported exactly when the engine takes the op, acknowledged exactly when it is also stored; the apply is a step of the machine and keeps the tie to the log |
| Actor.Actor.Close | crates/escurel-crdt/src/livedoc.rs:266-297 | the head stays; nothing is written without commit, store and an acknowledged op; a restart rebuilds the document when everything was acknowledged or the commit wrote it; the close is a step of the machine |
| Actor.Actor.Serve | crates/escurel-crdt/src/livedoc.rs:216-245 | the loop serves every message up to a close: what it imports and what it acknowledges are exactly the ops the engine takes in turn and those of them the store answers, and with no failing write a restart after any inbox rebuilds the document |
| Reconciler.ReconcileMeans | crates/escurel-crdt/src/reconciler.rs:124-203 | a cited page with a snapshot is never overwritten, nothing is written unless the file wins, and then a restart rebuilds the file's text |
| Reconciler.ReconcileIff | crates/escurel-crdt/src/reconciler.rs:124-203 | each of the five answers exactly when it is given, in terms of the file, the snapshot's text and the citation; and the log changes exactly when a file wins whose text the snapshot does not hold |
| Reconciler.CanonicalMeans | crates/escurel-crdt/src/reconciler.rs:124-150 | the canonical bytes are the newest snapshot's, none when that is empty |
| Reconciler.CitedKeptIff | crates/escurel-crdt/src/reconciler.rs:152-185 | a cited page keeps its log if and only if it has a snapshot or the file holds no readable text |
| Reconciler.ReconcileIdempotent | crates/escurel-crdt/src/reconciler.rs:124-203 | reconciling again with the same file writes nothing and answers the same |
| Reconciler.ReconcileStore | crates/escurel-crdt/src/reconciler.rs:124-226 | the store after the call is the one the decision describes |
| Freeze.ReasonHasChain | crates/escurel-index/src/freeze.rs:89-162 | a reason comes with a chain of parents within the depth limit that ends at a page frozen by itself |
| Freeze.ChainIsFound | crates/escurel-index/src/freeze.rs:89-162 | every such chain makes the recursion answer with a reason |
| Freeze.ParentLinksIff | crates/escurel-index/src/relation_guard.rs:54-66 | the recursion follows a link exactly when it stands in a declared parent field that is a text, or in a text item of one that is a list |
| Freeze.OwnReasonIff | crates/escurel-index/src/freeze.rs:89-117 | a page freezes itself exactly when its contract names a field and the field holds one of the values, texts as they are, numbers and booleans as they are spelled |
| Freeze.ParentIff | crates/escurel-index/src/freeze.rs:118-162 | the parent a link resolves to: the pending page, or else the stored one, at the link's path, if it is an instance |
| Freeze.FrozenIffReachable | crates/escurel-index/src/freeze.rs:29-162 | the recursion answers if and only if at most four such links lead to a page that freezes itself, the empty chain only when the page's own state counts; stated over the pages' fields and contracts |
| FreezeRuns.ChainPagesFrozen | crates/escurel-index/src/freeze.rs:89-190 | every page of an anchoring chain is itself anchored, so frozen |
| FreezeRuns.FrozenIsAnchored | crates/escurel-index/src/freeze.rs:89-190 | where no governed skill has a slash in its name, every frozen page is anchored |
| FreezeRuns.FrozenMeans | crates/escurel-index/src/freeze.rs:165-190 | a stored page is frozen if and only if it is an instance, under the skill it declares or its folder's, that reaches a page freezing itself |
| FreezeRuns.WriteAllowedIff | crates/escurel-index/src/freeze.rs:165-227 | content is admitted if and only if it parses and is no instance, or has an id and a skill, replaces no frozen page and hangs under no frozen parent, pending siblings standing in for stored pages |
| FreezeRuns.RemovalMeans | crates/escurel-index/src/freeze.rs:265-310 | a removal is refused as frozen, else as immutable, else as protected from the verb, each exactly when a skill of the page says so |
| FreezeRuns.RemovalsAllowedIff | crates/escurel-index/src/indexer.rs:1283-1393 | when an archive, a move and a purge are admitted |
| FreezeRuns.EditLands | crates/escurel-index/src/indexer.rs:1283-1393 | what every page holds after an admitted write, archive, move, batch or purge |
| FreezeRuns.ChainSurvives | crates/escurel-index/src/freeze.rs:89-162 | a chain survives any change that leaves its pages alone, pending pages included |
| FreezeRuns.BatchRefusedAlong | crates/escurel-index/src/validate.rs:1608-1618 | unless a skill page lands on a frozen page, the touched page nearest the end of an anchoring chain fails its own check |
| FreezeRuns.BatchTouchingFrozenRefused | crates/escurel-index/src/validate.rs:1608-1618 | a batch that writes an anchored page, and puts no skill page on a frozen one, is refused although its members see each other's new content |
| FreezeRuns.FrozenUntouched | crates/escurel-index/src/freeze.rs:196-310 | a write, archive, move, batch or purge that strikes no frozen page with a skill page, a move or a purge changes no anchored page |
| FreezeRuns.FrozenStays | crates/escurel-index/src/freeze.rs:89-310 | and leaves it anchored |
| FreezeRuns.KeepsFrozenIff | crates/escurel-index/src/validate.rs:1608-1618 | an admitted edit leaves every frozen page's content alone if and only if no skill page lands on a frozen page, no move replaces one, no purge removes one and a batch rewrites none that is not anchored |
| FreezeRuns.FreezeIsStable | crates/escurel-index/src/freeze.rs:89-310 | over every run whose admitted edits meet that condition an anchored page stays frozen and keeps its content |
| FreezeRuns.SkillContentThaws | crates/escurel-index/src/validate.rs:1608-1618 | skill-page content sent to any frozen page is admitted and thaws it |
| FreezeRuns.FrozenHuskPurged | crates/escurel-index/src/indexer.rs:1283-1322 | a frozen page that is archived is purged, although it could not be archived now |
| FreezeRuns.NoteThawed | crates/escurel-index/src/validate.rs:1608-1618 | both at a concrete corpus |
| FreezeRuns.MoveKeepsFrozenIff | crates/escurel-index/src/indexer.rs:1339-1393 | an admitted move keeps every frozen page if and only if it does not replace one with other content |
| FreezeRuns.NewChildRefused | crates/escurel-index/src/validate.rs:1608-1618 | content hanging under a parent frozen by at most three links is refused if and only if it is an instance |
| FreezeRuns.BatchFamilyRefused | crates/escurel-index/src/freeze.rs:196-227 | a batch that creates a frozen parent and an instance under it is refused: the pending parent counts |
| FreezeRuns.PathSkillIff | crates/escurel-index/src/freeze.rs:313-318 | the skill read from a page's path is the skill it was built from if and only if that has no slash |
| FreezeRuns.SamePageIff | crates/escurel-index/src/freeze.rs:118-190 | a page seen as a parent and on its own is judged under the same skill if and only if it declares one or the link's has no slash |
| FreezeRuns.SlashedSkillUnfreezes | crates/escurel-index/src/freeze.rs:313-318 | through a link that is not legible a frozen page is thawed by an ordinary instance write of the page it rests on |
| EmbeddingSpace.CleanKeepsGood | crates/escurel-index/src/embedding_space.rs:218-229 | what cleaning leaves staged is of the target model and the current text |
| EmbeddingSpace.CleanIff | crates/escurel-index/src/embedding_space.rs:42-229 | a row staged for a text survives cleaning if and only if its model is the target and its block still has that text, context and body |
| EmbeddingSpace.BatchIsLeast | crates/escurel-index/src/embedding_space.rs:230-245 | a batch is the 64 unstaged blocks with the least ids, in order, or all of them; in a repair pass only those without a vector |
| EmbeddingSpace.ClearChatKeeps | crates/escurel-index/src/embedding_space.rs:277-304 | the chat reset takes every vector and neither a message nor its content |
| EmbeddingSpace.BatchKeeps | crates/escurel-index/src/embedding_space.rs:230-276 | a delivered batch embeds only unstaged blocks and disturbs no staged one |
| EmbeddingSpace.BatchProgress | crates/escurel-index/src/embedding_space.rs:230-276 | the number of blocks still to embed strictly falls |
| EmbeddingSpace.ResumeKeepsAll | crates/escurel-index/src/embedding_space.rs:218-229 | a retry over the same texts cleans away nothing that was staged |
| EmbeddingSpace.SwapFits | crates/escurel-index/src/embedding_space.rs:277-304 | after the swap every block and chat vector is empty, zero or of the recorded model; a full pass covers every block |
| EmbeddingIndexer.Indexer.StageAllBlocks | crates/escurel-index/src/embedding_space.rs:218-276 | the batch loop ends, adds to the cleaned staging table exactly the blocks it paid for, on success leaves none unstaged, fails exactly at the first request the provider fails and for that reason, and is a run of batch steps of the machine |
| EmbeddingIndexer.Indexer.SwapIn | crates/escurel-index/src/embedding_space.rs:277-310 | swap, record and chat reset happen together and then the model is active; every block keeps its text and every chat message its content; the count is the number of blocks with a staged vector |
| EmbeddingIndexer.Indexer.Reembed | crates/escurel-index/src/embedding_space.rs:210-310 | a failing pass changes only the staging table, no staged block is paid for again, a successful pass covers every block and counts the swapped ones, no text or message is lost or reworded, and both are runs of the machine |
| EmbeddingIndexer.Indexer.Reconcile | crates/escurel-index/src/embedding_space.rs:115-172 | which outcome it is, from the record and the vectors alone; on error nothing but staging changes; no text or chat message is lost or reworded; a placeholder target rewrites no vector; a real target ends recorded and active; its counts are the swapped blocks; the whole call is a run of the machine from its start step |
| EmbeddingIndexer.Indexer.AppendChat | crates/escurel-index/src/chat.rs:288-529 | a first append stores the message with a vector of the active model, a repeated one changes nothing |
| EmbeddingRuns.StepKeeps | crates/escurel-index/src/embedding_space.rs:115-310 | every step of passes, failures, restarts, page writes and chat appends keeps one embedding space |
| EmbeddingRuns.RunKeeps | crates/escurel-index/src/embedding_space.rs:115-310 | every run keeps one embedding space, staged vectors included |
| EmbeddingRuns.OneSpace | crates/escurel-index/src/embedding_space.rs:115-310 | in every reachable state with a real recorded model each block vector that is not empty or zero is that model's embedding of the block's context and body, and each such chat vector of its message |
| EmbeddingRuns.MessageKept | crates/escurel-index/src/embedding_space.rs:115-310 | no run loses or rewords a stored message that it does not drop |
| EmbeddingRuns.MessageCame | crates/escurel-index/src/chat.rs:288-529 | every message a run holds was there before or appended under its key with that content |
| EmbeddingRuns.TextsKept | crates/escurel-index/src/embedding_space.rs:115-310 | a run without page writes keeps every block and its text |
| EmbeddingRuns.WriteLands | crates/escurel-index/src/indexer.rs:1415-1441 | a page write leaves the blocks it neither drops nor replaces, and its own in the active model |
| EmbeddingRuns.RestartServes | crates/escurel-index/src/embedding_space.rs:115-172 | after a restart the placeholder serves until a reconcile is started |
| EmbeddingRuns.ActiveIsRecorded | crates/escurel-index/src/embedding_space.rs:115-172 | the model in use is at all times the placeholder or the recorded one |
| EmbeddingRuns.UnrecordedChat | crates/escurel-index/src/embedding_space.rs:115-172 | over an index without a record, chat vectors agree with the record in every state of every run if and only if each is empty, zero or its message's embedding under every real model |
| EmbeddingRuns.UnrecordedVectors | crates/escurel-index/src/embedding_space.rs:115-172 | and for every embedder if and only if each is empty or zero |
| Cursor.FrameInjective | crates/escurel-index/src/cursor.rs:64-73 | no scope and payload frame like another pair |
| Cursor.OpensOnlyInScope | crates/escurel-index/src/cursor.rs:78-90 | a sealed token opens exactly in the scope it was sealed for and gives its payload back |
| Cursor.UnsealSeal | crates/escurel-index/src/cursor.rs:78-90 | a token opens in its own scope, whatever collisions the signature has |
| Cursor.DecodeEncode | crates/escurel-index/src/cursor.rs:100-115 | a cursor round-trips whatever characters the row id holds |
| Keyset.ResumeIsSuffix | crates/escurel-index/src/events.rs:1016-1051 | the rows a resume predicate selects are the listing after its row, for any total order and filter |
| Keyset.ListingOrderFree | crates/escurel-index/src/events.rs:1054-1133 | a listing does not depend on the order the table stores its rows in |
| Events.LifeCycle | crates/escurel-index/src/events.rs:562-782 | over every run a stored event keeps its position and captured fields, moves to processed at most once and then keeps its target |
| Events.RunGrows | crates/escurel-index/src/events.rs:562-782 | over every run the table only grows at its end and ids stay unique |
| Events.FirstWriterWins | crates/escurel-index/src/events.rs:562-782 | a capture of a stored id changes nothing, whatever it carries |
| Events.CaptureMeans | crates/escurel-index/src/events.rs:562-782 | a capture under a new id stores every field as given, at one past the greatest position, as its own root when none is named, processed exactly when it is a system event with a target; under a stored id nothing changes |
| Events.AssignMeans | crates/escurel-index/src/events.rs:1939-2014 | an unknown id is an error, an event in the inbox is processed with the target, a processed one is left alone with an error that names its target unless it is the same; no other row changes |
| Events.AssignOnce | crates/escurel-index/src/events.rs:1939-2014 | after a successful assign and any further run, assigning again succeeds if and only if the target is the same, and changes nothing |
| Events.EventStore.CaptureEvent | crates/escurel-index/src/events.rs:562-782 | appends at the next position or keeps the first writer's row, and answers with what is stored |
| Events.EventStore.AssignEvent | crates/escurel-index/src/events.rs:1939-2014 | success leaves the event processed under the target, failure changes nothing |
| EventPaging.DecodeAt | crates/escurel-index/src/events.rs:113-143 | a chronological cursor decodes to the row it was made for, undated rows included |
| EventPaging.DecodeSeq | crates/escurel-index/src/events.rs:113-143 | a position cursor decodes to its position |
| EventPaging.ResumesAfter | crates/escurel-index/src/events.rs:1016-1051 | the cursor of a row resumes at exactly the rows that sort after it, in both directions, with undated rows last |
| EventPaging.RestOfListing | crates/escurel-index/src/events.rs:945-1133 | the page query under a cursor selects exactly the rest of the listing |
| EventPaging.PageFrom | crates/escurel-index/src/events.rs:1134-1150 | a page is the next rows of the listing, with a next cursor exactly when rows remain |
| EventPaging.FullIsSorted | crates/escurel-index/src/events.rs:1054-1133 | the listing holds the selected rows, each once, in the order of the listing |
| EventPaging.FullMembers | crates/escurel-index/src/events.rs:977-1012 | a row is listed exactly when target, run, label and status are the filter's where it gives them, its root or its id is the root asked, and its kind is the one asked, absent counting as user, or, none asked, it is no system row unless those are included |
| EventPaging.FullPrecedes | crates/escurel-index/src/events.rs:1054-1060 | of two rows the earlier has the smaller position, for a label, lineage or run, or the earlier date with undated rows last in both directions, the id breaking ties |
| EventPaging.RefusedIff | crates/escurel-index/src/events.rs:1041-1053 | a request is refused exactly when its cursor does not open or is one of the other kind of listing |
| EventPaging.DecodeMeans | crates/escurel-index/src/events.rs:113-143 | what an opened payload decodes to, malformed ones included |
| EventPaging.ListAll | crates/escurel-index/src/events.rs:945-1150 | following the cursors until none is given reads exactly the rows of the table with the fields the filter asks for, each once, in the listing's order |
| ChatPaging.ResumesAfter | crates/escurel-index/src/chat.rs:149-175 | the encoded place of a message resumes at exactly the messages after it |
| ChatPaging.ListMessages | crates/escurel-index/src/chat.rs:593-722 | the row loop builds the next page of the selected history, or refuses the cursor |
| ChatPaging.ReadAll | crates/escurel-index/src/chat.rs:593-722 | following the cursors reads exactly the messages of the group within the bounds, once each, by timestamp and id in the direction asked, every field as stored and the timestamp cut to the second |
| EventTail.AscendingFull | crates/escurel-index/src/events.rs:958-964 | an ascending label, lineage or run listing is the selected rows in capture order |
| EventTail.NoneJoins | crates/escurel-index/src/events.rs:586-637 | under a filter that asks for the inbox or for neither status nor instance, no stored event ever becomes selected |
| EventTail.PollKeeps | crates/escurel-index/src/events.rs:1134-1140 | a poll delivers the next selected events behind the cursor, even when the cursor's own event left the listing, and points at the last one |
| EventTail.FollowKeeps | crates/escurel-index/src/events.rs:84-89 | every interleaving keeps every selected event at or behind the cursor delivered, in capture order |
| EventTail.ExactlyOnce | crates/escurel-index/src/events.rs:84-89 | over every interleaving of captures, assigns and polls no selected event is passed over, none is delivered twice, the order is that of capture, and a poll delivers selected events only and a full page or all that is left; selection is by the rows' fields |
| EventTail.TailIff | crates/escurel-index/src/events.rs:84-89 | no loss, no repeat and capture order hold over every run if and only if the filter asks for the inbox or for neither status nor instance |
| EventTail.PrefixIff | crates/escurel-index/src/events.rs:84-89 | what was delivered stays the beginning of the listing if and only if the filter asks for neither, or selects nothing ever |
| EventTail.JoinsBehind | crates/escurel-index/src/events.rs:1939-2014 | otherwise an event assigned late is selected behind the cursor and never delivered |
| EventTail.LeavesListing | crates/escurel-index/src/events.rs:1939-2014 | an event delivered from the inbox can leave the listing |
| Retention.PurgeMeans | crates/escurel-index/src/events.rs:1330-1439 | a purge deletes no other label and no witness row, under a cutoff no undated or recent row, under a keep count none of the newest, and its report adds up |
| Retention.PurgeIff | crates/escurel-index/src/events.rs:1330-1439 | a purge deletes a row exactly when it is of the label, its id is no `write-back:…:applied`, it is dated before the cutoff where one is given, and as many rows of the label are newer as are to be kept |
| Retention.ReportMeans | crates/escurel-index/src/events.rs:1330-1439 | the report counts the label's rows, the deletable ones and the rest |
| Retention.PurgeIdempotent | crates/escurel-index/src/events.rs:1330-1439 | the newest rows stay the newest and the same request then matches nothing |
| Retention.PruneMeans | crates/escurel-index/src/events.rs:1250-1294 | after pruning the label's history is its former newest rows and every other label is whole |
| Retention.PruneIff | crates/escurel-index/src/events.rs:1250-1294 | a row survives pruning exactly when it is of another label or fewer than the number to keep are newer |
| Retention.PurgeEvents | crates/escurel-index/src/events.rs:1330-1439 | the stored table changes by exactly the reported deletions |
| Retention.PruneLabel | crates/escurel-index/src/events.rs:1250-1294 | the stored history of the label is its newest rows |
| PgNative.RenderLexes | crates/escurel-index/src/events.rs:352-364 | read by a lexer of one-character symbols, ASCII words, constants and line comments, a rendered well-placed statement is the template's tokens with each `?` replaced, in order, by a literal whose value is the bind |
| PgNative.WellPlacedLexes | crates/escurel-index/src/events.rs:352-364 | a well-placed template lexes |
| PgNative.RendersIff | crates/escurel-index/src/events.rs:333-364 | rendering gives up exactly on a wrong number of binds or a value with a NUL or a backslash |
| PgNative.EmbeddedStatement | crates/escurel-index/src/events.rs:367-371 | the outer string argument reads back as the statement |
| PgNative.RenderStatement | crates/escurel-index/src/events.rs:352-364 | the character loop computes the rendering, and keeps its meaning under that lexer |
| PgExact.OneValueTells | crates/escurel-index/src/events.rs:352-364 | a template that keeps its meaning whenever one value is bound throughout is well placed |
| PgExact.PreservesIff | crates/escurel-index/src/events.rs:352-364 | under that lexer a template keeps its meaning for every choice of binds if and only if each `?` is outside quotes and comments, between boundaries and not after a minus sign |
| PgExact.MarkAfterWord | crates/escurel-index/src/events.rs:352-364 | a `?` outside quotes but next to a word lets a bound number join the word |
| PgExact.MarkAfterMinus | crates/escurel-index/src/events.rs:352-364 | a `?` after a minus sign lets a bound negative number open a comment |
| PgListing.SpacedPlaced | crates/escurel-index/src/events.rs:977-1053 | pieces that meet at parentheses and single spaces make a well-placed statement with one `?` per placeholder |
| PgListing.ListingRenders | crates/escurel-index/src/events.rs:977-1053 | for every filter, tenant, direction and cursor the built `WHERE` renders exactly when its values can be quoted, then reads as the clauses with those values, and has every `?` between a space or `(` and a space, `)` or the end |
| PgScanner.PiecesRead | crates/escurel-index/src/events.rs:352-364 | under any scanner that starts afresh at parentheses and single spaces, a rendered statement of such pieces reads as the pieces with the bound values between them |
| PgScanner.ListingReads | crates/escurel-index/src/events.rs:977-1053 | so does the `WHERE` of every listing |
| PgScanner.LexLawful | crates/escurel-index/src/events.rs:352-364 | the lexer of this model is such a scanner |
| PgSql.DisjParses | crates/escurel-index/src/events.rs:977-1053 | every condition of comparisons, `IS NULL`, `COALESCE`, `CAST`, `AND`, `OR` and parentheses, spelled as tokens, parses back to itself |
| PgTexts.WrittenScans | crates/escurel-index/src/events.rs:977-1053 | a text of words with symbols between them lexes to those words and symbols |
| PgMeaning.ListingMeans | crates/escurel-index/src/events.rs:977-1053 | for every filter, tenant, direction and cursor the rendered `WHERE` parses, and in SQL's three-valued logic it is true at an event's row, columns by name, if and only if the row is the tenant's, has what the filter asks and sorts after the cursor |
| PgMeaning.NativeIsLocal | crates/escurel-index/src/events.rs:965-1101 | over the table all tenants share it selects the rows the local listing selects of the tenant's |
| Metrics.Dominates | crates/escurel-eval/src/metrics.rs:40-46 | no ranking without repeats collects more gain in its first ranks than an ideal one |
| Metrics.ByParts | crates/escurel-eval/src/metrics.rs:109-115 | a discounted sum keeps an order of prefix sums (summation by parts) |
| Metrics.DcgAtMostIdeal | crates/escurel-eval/src/metrics.rs:40-46 | the ideal ranking has the highest DCG at every cut-off |
| Metrics.NdcgBounds | crates/escurel-eval/src/metrics.rs:40-46 | nDCG is between 0 and 1 for every ranking without repeats, relevance map, cut-off and growing discount |
| Metrics.NdcgIs | crates/escurel-eval/src/metrics.rs:40-46 | nDCG is the ranking's DCG in units of that of the map's gains in descending order, 0 where that is 0 |
| Metrics.IdealIs | crates/escurel-eval/src/metrics.rs:42-43 | the ideal gains are the map's, greatest first |
| Metrics.DcgAdds | crates/escurel-eval/src/metrics.rs:104-115 | each rank up to the cut-off adds its gain over its discount and no other rank adds anything |
| Metrics.NdcgIsOne | crates/escurel-eval/src/metrics.rs:40-46 | nDCG is 1 if and only if some gain counts and the first k gains are the ideal ones |
| Metrics.IdealRanking | crates/escurel-eval/src/metrics.rs:40-46 | any ranking in descending gain that leaves no relevant document out reaches the ideal |
| Metrics.NdcgOrderFree | crates/escurel-eval/src/metrics.rs:42-43 | the order the relevance map is visited in does not show in the score |
| Metrics.RepeatsExceedOne | crates/escurel-eval/src/metrics.rs:40-46 | one document returned twice scores above 1 |
| Metrics.BoundedIff | crates/escurel-eval/src/metrics.rs:40-46 | a ranking scores at most 1 under every relevance map and cut-off if and only if it has no repeats |
| Metrics.RecallMeans | crates/escurel-eval/src/metrics.rs:24-35 | recall is at most 1, never falls with k, and is 1 if and only if every relevant document is in the top k |
| Metrics.RecallIs | crates/escurel-eval/src/metrics.rs:24-35 | recall is the number of documents with positive gain in the top k over the number of them there are, 0 without any |
| Metrics.PrecisionAtMostHits | crates/escurel-eval/src/metrics.rs:63-77 | the precisions add up to at most the hits, and to all of them if and only if the hits come first |
| Metrics.PrecisionAdds | crates/escurel-eval/src/metrics.rs:63-77 | a rank adds the share of relevant ranks down to it if its document is relevant, else nothing |
| Metrics.AveragePrecision | crates/escurel-eval/src/metrics.rs:63-77 | average precision is at most 1 without repeats, and 1 if and only if the first ranks are all the relevant documents |
| Latency.DedupDocIds | crates/escurel-eval/src/latency.rs:163-172 | the distinct ids of the hits in the order they first occur |
| Latency.FirstOccurrencesUnique | crates/escurel-eval/src/latency.rs:163-172 | that description has one solution |
| Latency.RankIsNearest | crates/escurel-eval/src/latency.rs:36-40 | the sample at the nearest rank has at least that many samples at or below it and fewer below |
| Latency.NearestRankMonotone | crates/escurel-eval/src/latency.rs:36-40 | nearest-rank percentiles grow with p |
| Latency.AtShare | crates/escurel-eval/src/latency.rs:36-40 | the clamped rank reads the nearest-rank percentile |
| Latency.Percentiles | crates/escurel-eval/src/latency.rs:25-49 | sorts in place; p50, p95 and p99 are nearest-rank percentiles of the original samples in ascending order, the mean is theirs; zeros without samples |
| Utf8.DecodeEncode | crates/escurel-index/src/dsn.rs:88-107 | decoding the bytes of a text gives the text |
| Utf8.EncodeCharMeans | crates/escurel-index/src/dsn.rs:88-107 | a character's bytes are the shortest form that holds its code point, six bits to every byte after the first |
| Utf8.EncodeDecode | crates/escurel-index/src/dsn.rs:88-107 | accepted bytes are exactly the bytes of the text they decode to |
| Dsn.ParseKeyValue | crates/escurel-index/src/dsn.rs:27-86 | the position loop computes the key/value grammar, errors included |
| Dsn.ReadQuoted | crates/escurel-index/src/dsn.rs:56-66 | the quoted-value loop computes the quoted grammar with its escapes and its two errors |
| Dsn.ReadBare | crates/escurel-index/src/dsn.rs:67-82 | the unquoted-value loop stops at white space, with escapes |
| Dsn.DecodePercent | crates/escurel-index/src/dsn.rs:88-107 | the byte loop computes percent-decoding, errors included |
| Dsn.ParseHosts | crates/escurel-index/src/dsn.rs:134-151 | the host loop computes the host and port lists |
| Dsn.ParseParameters | crates/escurel-index/src/dsn.rs:161-168 | the query loop computes the parameter list |
| DsnKeyValue.ParsesOn | crates/escurel-index/src/dsn.rs:27-86 | a string that does not dangle parses on its own in front of anything after white space |
| DsnKeyValue.DanglingChanges | crates/escurel-index/src/dsn.rs:27-86 | a dangling string never parses to its pairs and the appended one |
| DsnKeyValue.DanglingIff | crates/escurel-index/src/dsn.rs:27-86 | dangling is an empty last value and a last character `=` |
| DsnKeyValue.PairIsPlain | crates/escurel-index/src/dsn.rs:27-86 | text no longer than its only pair has a plain key and a plain value |
| DsnKeyValue.PlainIsPair | crates/escurel-index/src/dsn.rs:27-86 | a plain key and value spelled with `=` parse to that pair |
| DsnUri.DecodeMeans | crates/escurel-index/src/dsn.rs:88-107 | decoding never lengthens, and is the identity exactly on text without `%` |
| DsnUri.DecodeEscaped | crates/escurel-index/src/dsn.rs:256-265 | every value survives the encoding |
| DsnUri.UriParsesOn | crates/escurel-index/src/dsn.rs:109-168 | an appended query is read on its own after what the URI already gives |
| DsnUri.ParameterIff | crates/escurel-index/src/dsn.rs:251-271 | the appended parameter reads as its pair if and only if the key has no `=`, `&` or `%` |
| DsnAppend.AppendToUri | crates/escurel-index/src/dsn.rs:251-271 | for every URI that parses and every value the pair is appended if and only if the key has no `=`, `&` or `%` |
| DsnAppend.AppendToKeyValue | crates/escurel-index/src/dsn.rs:251-271 | for every key/value string that parses the pair is appended if and only if key and value are plain, the string does not dangle, and an empty string does not become a URI |
| DsnAppend.UriIsNotPair | crates/escurel-index/src/dsn.rs:17-25 | the text of a pair that happens to be a URI never parses to that pair |
| DsnRoundTrip.HostsReadBack | crates/escurel-index/src/dsn.rs:134-151 | a spelled host list, each host bare, with a port, or in brackets with or without one, comes back as its names and ports |
| DsnRoundTrip.UriReadsBack | crates/escurel-index/src/dsn.rs:109-168 | a URI spelled from a login, hosts, a database and parameters, any of them left out, parses to their pairs, the ports only where some host has one |
| DsnRoundTrip.HostFailsIff | crates/escurel-index/src/dsn.rs:137-146 | a host is malformed exactly when it opens a bracket and never closes it |
| DsnRoundTrip.BracketTail | crates/escurel-index/src/dsn.rs:137-141 | after a closing bracket only what follows a colon is a port |
| DsnRoundTrip.JoinMeans | crates/escurel-index/src/dsn.rs:150-155 | names and ports come with commas between them: cut at the commas they are the list again |
| DsnRoundTrip.EscapedMeans | crates/escurel-index/src/dsn.rs:256-265 | an ASCII text is its own encoding exactly when it is letters, digits and `-_.,:` |
| DsnRoundTrip.QuotedReadsBack | crates/escurel-index/src/dsn.rs:56-66 | every value in quotes, with its quotes and backslashes escaped, reads back |
| DsnRoundTrip.QuotedFails | crates/escurel-index/src/dsn.rs:56-66 | without the closing quote, or after a lone backslash, it is the error for that |
| DsnRoundTrip.KeyValueReadsBack | crates/escurel-index/src/dsn.rs:27-86 | any list of pairs with plain keys, each value in quotes or bare with escapes, parses to those pairs |
| DsnRoundTrip.ParsePairsIs | crates/escurel-index/src/dsn.rs:17-25 | white space around the string does not matter, and one of the three schemes makes it a URI |
| Acl.CollectGroups | crates/escurel-index/src/acl.rs:957-975 | the loops collect `public` and the unreserved names of token and membership |
| Acl.DecideByPolicy | crates/escurel-index/src/acl.rs:296-317 | allowed if and only if the list that speaks for reads names a group the caller holds by token, membership or being authenticated, or names `owner` and the caller is the owner |
| Acl.DecideByReference | crates/escurel-index/src/acl.rs:324-372 | the event loop finds a vouching event exactly when there is one |
| Acl.MayReadInstance | crates/escurel-index/src/acl.rs:260-292 | a deny means no listed group is held and no ownership counts; an allow names an administrator, a held listed group, ownership, or an event that shows the page whose capturer may read it |
| Acl.MayWriteInstance | crates/escurel-index/src/acl.rs:541-617 | the write decision, orphan reclaim included |
| Acl.ReadIff | crates/escurel-index/src/acl.rs:260-372 | who may read, spelled out: an administrator; a caller holding a group that the page's block lists, else its skill's, else the defaults, `owner` standing for whoever the owner field names; or one granted both `read_referenced` and `read_events` on an event that links the page and whose capturer is granted the page; a page's block counts only where its skill has not switched such blocks off |
| Acl.WriteIff | crates/escurel-index/src/acl.rs:541-617 | who may write, spelled out: an administrator, or a caller in scope holding such a group for updates of the stored page or creations, `owner` standing for the stored owner, or the incoming one where nobody owns the page |
| Acl.MostSpecificWins | crates/escurel-index/src/acl.rs:177-188 | the first block that declares the verb decides, then the defaults, then nobody |
| Acl.ShippedDefaults | crates/escurel-index/src/acl.rs:190-201 | where no block speaks, the shipped defaults let everyone read and only administrators write |
| Acl.NoHijack | crates/escurel-index/src/acl.rs:574-590 | overwriting another's page takes a group other than `owner` that the update policy lists and the caller holds by token or membership, or `public` |
| Acl.NoCreateForAnother | crates/escurel-index/src/acl.rs:591-601 | creating in another's name takes such a group of the create policy |
| Acl.OwnerOnly | crates/escurel-index/src/acl.rs:574-617 | under an owner policy exactly the stored owner writes, or the incoming owner where there is none |
| Acl.OverwriteRuleIff | crates/escurel-index/src/acl.rs:460-467 | every admitted overwrite is by the owner of both the stored page and the incoming text if and only if the caller is out of scope, or holds no listed group and has no listed ownership or reclaim |
| Acl.CreateRuleIff | crates/escurel-index/src/acl.rs:460-467 | every admitted creation is by the owner of the incoming text if and only if the caller is out of scope or holds no listed group |
| Acl.OwnerlessRuleIff | crates/escurel-index/src/acl.rs:460-467 | pages of a skill without an owner field are for administrators alone if and only if the caller is out of scope or holds no listed group |
| Acl.Transfer | crates/escurel-index/src/acl.rs:574-590 | an owner overwrites the page with text that names another owner, who then writes it while the former owner no longer does |
| Acl.ReferenceIsVouched | crates/escurel-index/src/acl.rs:319-372 | a page read by reference is mentioned by an event the caller reads by grant and whose capturer may read the page |
| Acl.GroupsOnlyGrant | crates/escurel-index/src/acl.rs:260-372 | further token groups never turn a read or write allow into a deny |
| Acl.ReservedNamesInert | crates/escurel-index/src/acl.rs:957-975 | reserved names in any token or membership row change no decision |
| Acl.ForgedNamesAreAnonymous | crates/escurel-index/src/acl.rs:145-151 | a token of reserved names only is a token without groups |
| Acl.ScopeOnlyRestricts | crates/escurel-index/src/acl.rs:552-557 | a scoped token writes what the unscoped one writes within its skills, and reads the same |
| Acl.OwnBlockIff | crates/escurel-index/src/acl.rs:541-617 | the incoming page's `acl` value has no say in its write if and only if the caller's write does not hang on an owner read from it |
| Acl.BlockDecides | crates/escurel-index/src/acl.rs:541-617 | where it does, one value allows the write and leaving the key out denies it |

## Left out

- The CRDT engine, its merge and byte formats, and three-way text merge: parameters with a snapshot round trip.
- The shared Postgres and lake backends of ops, events and chat: their reads and inserts are separate steps; the model is the local backend, one step per critical section.
- Machine integers: hlcs and positions are unbounded, so overflow at 2^63 is not modelled.
- Floating point: scores and percentiles are over the reals, so rounding of `p * n` and NaN samples are not modelled.
- Timestamps: integers of microseconds, spelled in decimal in the cursor instead of as dates.
- Row deletion during a tail: a purge of the newest row lets its position be issued again.
- Skill page edits that change a contract during a freeze run: the skill contracts are fixed.
- Validator rules other than parsing, the id, the declared skill and the freeze: they only refuse more writes.
- Page indexing, skill resolution and markdown parsing: parameters of the freeze and access models.
- `is_timestamp_text`, the `ORDER BY` and `LIMIT` text, and the scanner fallback of a listing. A cursor text that is no timestamp, which the code does not send to Postgres, casts to NULL in `PgSql`.
- SQL beyond the conditions of a listing: `PgSql` has no other operators, functions or types, reads keywords and columns as the statements spell them, orders text by code point, and takes a comparison across types as unknown.
- A full Postgres lexer: operator runs, decimals, prefixed and dollar-quoted strings, quoted identifiers and block comments; `PgScanner` covers the statements the code builds for any scanner with the stated laws.
- PgExact.PreservesIff: exact for the lexer of `PgNative` only; Postgres also reads `U&?`, `a %?`, `1.?` or a `?` after a non-ASCII letter differently once bound.
- `targets`, `scrub` and `has_key` of connection strings: uses of the parser with easy facts.
- `may_write_page`, chat access, event read and proposal decisions: compositions of the decisions modelled.
- `mrr` and the means over a query set: one-line folds.
- Drafts, branches, leases, credentials, groups, endpoints and filters: single guarded statements.
- Runner status, run progress and gateway expiry: thin queries over the events table.
- Token verification, HTTP, the CLI, the workbench and the embedders: input and output.
- Events.EventStore.CaptureEvent: takes the minted id and the attestation as arguments instead of drawing them.
- Actor.Actor.Serve: takes the messages in arrival order; the channel and its replies are not modelled.
