# Verified model of Kontur

Kontur compares the project, working and as-built documents of a construction object, lets an inspector
decide on what it finds, and hands a finalized protocol to an external system. This project models the parts
of it where a wrong step would be invisible, in Dafny, and proves what each part is for. `dafny verify
dfyconfig.toml` checks all of it.

| files | part of the system |
|---|---|
| WorkerCore, WorkerProtocol, WorkerReaders, WorkerRules | the background worker: its shared fields in place, all interleavings of submitters, waiters and the one thread, and why every waiter comes back |
| Documents, Components, FileChain, Revisions, ChainHead, IdentityHeads, HeadCoverage, Recheck, StagePages, SuccessorGraph, RevisionLimits, ReferenceRules | the choice of the reference revision: disjoint sets of linked files, chains of file names, heads, and the second resolution that has to agree with the first |
| Archive, ArchiveContents, FileKinds, Worklist, Expansion, Reruns, IdClash, Origins | the worklist that opens zips and reads documents, and what one run amounts to |
| StoredFiles, StoredRuns, FileHistory | the files a process keeps, and its runs from upload to upload |
| Findings, FindingRules, ProcessRecord, ProcessRules, RunResults, Workspace, WorkspaceRules, WorkspaceRuns, ProcessWorkspace, Protocol, ProtocolCards | findings, decisions, the life of a process from creation to transfer, and its protocol |
| Clipping, ClippingRules, ConvexRings, Rectangles, EditDistance, Wilson, ScoreRules | the arithmetic of acceptance: polygon overlap, edit distance, Wilson intervals |
| StringOrder, RoomMerge, RoomCompare, PairVerdicts, WordBreak | room verdicts of sheet pairs and their merge in stages |
| Multipart, PartSizes, UploadLimiter | the limits of the gateway |
| Decimal | reading localized numbers |
| Options, Lists, Grouping, Texts, Reals | shared vocabulary |

A module named for rules, contents, kinds, cards, verdicts, results or sizes says what the functions of its
neighbour mean without naming them: when each outcome arises, and what it then is.

Objects that the program updates in place are classes here (`PipelineWorker`, `Forest`, `Limiter`,
`Processes`), its loops are methods with loops; each is proved against a function, and the properties are
proved about the functions and about whole runs. Functions stand where the program has expressions.

Conventions of the model:

- An exception is an outcome: `Option`, `Result`, `Conflict`, `Refused` or a `fault`.
- Floats are exact reals; the area tolerance of clipping stays as it is. The square root inside the Wilson
  interval is the non-negative number given by its square; the quantile is 1.96.
- Regular expressions, Unicode folding and the reading of marks and volume names from file names are done
  before the model begins: a document carries its parsed mark, volume and whether it is named.
- A comment or reason is given stripped, so an empty one is a blank one.
- The stamp that a choice of a revision reads from the content of a file is given with the call; a file keeps the
  stamp recorded last. Loading a content into the cache of a process is no change of it.
- An id made on upload has no two underscores in a row and is new, as a version 4 UUID.
- A decision remembers whether its actor was human. The program does not store this; the model keeps it as
  history, to say who decided.
- A protocol payload is a JSON value, and a clone through canonical JSON is that value.
- The etalon policy (`sole_head` or `strict`) is a parameter, the same for both resolutions.
- Every workspace operation is one atomic step. The choice of a revision checks for decisions, runs the matrix
  and clears the findings (runtime.py:844-920); what is proved of runs, `DecisionsEndOnlyInRuns` among it, holds of
  calls that do not overlap.

Where a promise is false of the code, the code is kept and the exact condition is proved:

- The second resolution of a page fails for a file chained by its name whose stored successor is itself
  (`RecheckAgrees`, `SelfSuccessorFails`). This is about stored data or a direct call of the resolver: an upload
  links an earlier file to a fresh id (presentation/api.py:233-243) and does not produce such a file.
- A cycle goes unreported exactly when one file is without an eligible successor and another does not reach it
  along successors (`UnreportedCycleExactly`, `SideCycleUndetected`).
- Room verdicts may be merged in stages only for safe batches (`StagingExact`, `UnshapedBatchDiffers`); those
  of the pair stage always are.
- The limiter needs a clock that does not step back (`SameDecisions`, `BackwardClockDiffers`). At the first step
  back the answer is wrong exactly when the limit lies between the count of recent calls at the last reading of
  the key and the count at the new one (`FirstBackwardStep`).
- A printed number of one non-zero digit, a dot and three digits is refused, and two groups without a fraction
  do not come back (`PrintThenParse`, `GroupsAloneComeBack`).
- A refused call leaves a trace exactly when it is a review by a machine that would open a READY queue, a run or a
  choice of a revision that was let in and whose matrix then fails, or a choice refused for its actor, comment or
  stamp when the stamp read from the file is not the one recorded. Each can be told before the call from the
  state, the stamp in the file and the outcome of the matrix (`RefusalsChangeNothing`,
  `MachineReviewLeavesTrace`, `RefusedChoiceForgetsStamp`).
- A given file is not read from its own content exactly when a zip before it yields a document with its id and
  another content (`GivenReads`, `OwnContentExactly`, `MemberReplacesGiven`). This takes a direct call with such
  an id: an upload gets a version 4 UUID, and with those every stored file keeps its content, also the documents
  of zips, which every later run is given beside their zip and reports as repeats (`NoClashReadsOwn`,
  `StoredFilesHavePages`, `LaterRunsKeepPages`).

The repeated run is a fixpoint without the distinct keys one might ask for (`RerunIsFixpoint`).

## Model

| member | source | states |
|---|---|---|
| WorkerCore.PipelineWorker.SubmitLocked | backend/src/kontur/application/pipeline_worker.py:32-39 | The locked half of a submit: the next generation of the process, an event that is unset and is renewed only if it was missing or set; fields change exactly as `Assign` says |
| WorkerCore.PipelineWorker.Put | backend/src/kontur/application/pipeline_worker.py:40 | The put outside the lock appends one entry and touches nothing else |
| WorkerCore.PipelineWorker.Take | backend/src/kontur/application/pipeline_worker.py:93-96 | The worker takes the oldest entry |
| WorkerCore.PipelineWorker.MayRun | backend/src/kontur/application/pipeline_worker.py:97-99 | An entry passes the locked test exactly when its generation is still the newest |
| WorkerCore.PipelineWorker.NoteOutcome | backend/src/kontur/application/pipeline_worker.py:100-103 | A raising run leaves only its error name behind |
| WorkerCore.PipelineWorker.Finish | backend/src/kontur/application/pipeline_worker.py:107-113 | Only the newest generation sets the event of its process |
| WorkerCore.PipelineWorker.ReadEvent | backend/src/kontur/application/pipeline_worker.py:48-52 | The first locked read of `wait`: event and generation as of one instant, or nothing to wait for |
| WorkerCore.PipelineWorker.Recheck | backend/src/kontur/application/pipeline_worker.py:54-56 | The second locked read: true only if no submit came between and the event is set |
| WorkerCore.PipelineWorker.Idle | backend/src/kontur/application/pipeline_worker.py:67 | The idle test of `wait_all` is true exactly when every submitted process's event is set |
| WorkerProtocol.NextKeeps | backend/src/kontur/application/pipeline_worker.py:29-113 | Every atomic step of submitters, waiters and the worker keeps the invariant (numbering, places, order of stamps, no overlap, no lost wakeup, what every open call may rely on) |
| WorkerProtocol.ReachableInv | backend/src/kontur/application/pipeline_worker.py:29-113 | The invariant holds in every state of every run |
| WorkerProtocol.WaitNeverReturnsEarly | backend/src/kontur/application/pipeline_worker.py:42-56 | `wait(p)` after a submit of p returns only if, at one instant inside the call, the run of the newest generation of p had finished, and that run began after the generation was assigned |
| WorkerProtocol.WaitAllNeverReturnsEarly | backend/src/kontur/application/pipeline_worker.py:58-75 | `wait_all` returns only if, at one instant inside the call, the newest generation of everything submitted by then had finished |
| WorkerProtocol.RunsAreExclusive | backend/src/kontur/application/pipeline_worker.py:90-105 | Runs never overlap, and a generation superseded before it left the queue never runs |
| WorkerProtocol.NoLostWakeup | backend/src/kontur/application/pipeline_worker.py:29-113 | An unset event means the newest generation is about to be put, queued, or in the hands of the worker, even if earlier runs raised |
| WorkerProtocol.LoadFalls | backend/src/kontur/application/pipeline_worker.py:90-113 | Every put or worker step lowers a measure that only a submit can raise |
| WorkerProtocol.CanProgress | backend/src/kontur/application/pipeline_worker.py:90-113 | While an event is unset some put or worker step is possible |
| WorkerProtocol.DrainsInBoundedSteps | backend/src/kontur/application/pipeline_worker.py:90-113 | A run without further submits has at most as many put and worker steps as the initial measure, whatever the waiters do in between |
| WorkerProtocol.DrainedMeansAllSet | backend/src/kontur/application/pipeline_worker.py:58-75 | When no such step is left all current events are set |
| WorkerReaders.ReachableReaders | backend/src/kontur/application/pipeline_worker.py:28-75 | In every reachable state an event replaced by a later submit is set, and what a `wait_all` has not waited for yet is finished or still on its list as long as no generation changed |
| WorkerReaders.DrainedMeansEveryEventSet | backend/src/kontur/application/pipeline_worker.py:28-59 | When no put or worker step is left every event is set, also those no process holds any more |
| WorkerReaders.DrainedCallsGoOn | backend/src/kontur/application/pipeline_worker.py:42-75 | Then a `wait` or `wait_all` in any phase, whatever event it holds, can take a step exactly when it has not returned |
| WorkerReaders.CallsNeedFewSections | backend/src/kontur/application/pipeline_worker.py:42-75 | While nothing is submitted a call in any phase takes at most a fixed number of its own sections, whatever the others do; after that many it has returned |
| WorkerReaders.EveryReaderReturns | backend/src/kontur/application/pipeline_worker.py:28-110 | A run without further submits that is drained and in which the call cannot go on has returned that call, after a bounded number of put, worker and own steps |
| WorkerRules.SubmitIsNeverRefused | backend/src/kontur/application/pipeline_worker.py:28-40 | A submit is possible in every reachable state and gives its process the next generation and an unset event |
| WorkerRules.WaitAllSawNoSubmit | backend/src/kontur/application/pipeline_worker.py:58-75 | `wait_all` returns only with every event set, at its first look or at its second with no generation given in between |
| EditDistance.EditDistance | backend/src/kontur/evaluation/metrics.py:422-439 | The two-row loop with its length swap computes the recursive distance of any two sequences |
| EditDistance.Levenshtein | backend/src/kontur/evaluation/metrics.py:442-447 | The shortcut for equal strings gives the same distance |
| EditDistance.DistanceIsLeastPrice | backend/src/kontur/evaluation/metrics.py:422-439 | The distance is the least number of insertions, deletions and substitutions of any edit script between the two sequences: one script attains it, none is cheaper |
| EditDistance.DistanceSymmetric | backend/src/kontur/evaluation/metrics.py:425-426 | Swapping the arguments does not change the distance, so the swap is sound |
| EditDistance.DistanceZero | backend/src/kontur/evaluation/metrics.py:442-447 | The distance is zero exactly on equal inputs |
| EditDistance.DistanceBounds | backend/src/kontur/evaluation/metrics.py:422-439 | It lies between the difference of the lengths and the longer length |
| EditDistance.DistanceTriangle | backend/src/kontur/evaluation/metrics.py:422-439 | Triangle inequality for all three sequences |
| EditDistance.CharacterAccuracyMeaning | backend/src/kontur/evaluation/metrics.py:450-466 | The accuracy stays in [0;1], is 1 exactly for the reference text, and is 0 for a non-empty reference exactly when the distance reaches its length |
| ScoreRules.AccuracyExactly | backend/src/kontur/evaluation/metrics.py:450-466 | The score times the length of the reference is the length less the distance, or zero below that |
| ScoreRules.CloserScoresMore | backend/src/kontur/evaluation/metrics.py:450-466 | A less distant text never scores less |
| Wilson.ContainsShare | backend/src/kontur/evaluation/metrics.py:101-110 | For all 0 <= k <= n, n >= 1 the interval contains k/n and lies inside [0;1]; the clamps never act |
| Wilson.ThresholdIsScoreTest | backend/src/kontur/evaluation/metrics.py:113-119 | Every threshold check, upper or lower, is decided by a score test without a square root: the share is on the right side and far enough from the threshold |
| ScoreRules.Minima | backend/src/kontur/evaluation/metrics.py:24-46 | The eight minima of the acceptance specification |
| Wilson.RecallGate | backend/src/kontur/evaluation/frozen_val.py:44-61 | The recall gate is two comparisons of whole numbers, for every gold and prediction of one length; other lengths are refused |
| Wilson.SixteenPositives | backend/src/kontur/evaluation/frozen_val.py:44-61 | Passing the gate needs at least 16 gold positives, and a prediction without a miss passes from 16 on |
| Wilson.PerfectHits | backend/src/kontur/evaluation/frozen_val.py:51-55 | All positives are hit exactly when each gold positive is predicted |
| Clipping.ClipByHalfplane | backend/src/kontur/evaluation/metrics.py:315-352 | The loop with its cyclic predecessor computes the clip of the polygon by one edge |
| Clipping.IntersectPolygons | backend/src/kontur/evaluation/metrics.py:355-366 | The loop over the edges of the oriented clip, with its early exits, computes the intersection |
| Clipping.MeetOnEdge | backend/src/kontur/evaluation/metrics.py:334-341 | A step across an edge meets it exactly, or, when it crosses by less than the tolerance, stays at a start that is outside by less than the tolerance |
| Clipping.IntersectionSound | backend/src/kontur/evaluation/metrics.py:315-366 | Every output vertex has cross product at least minus the tolerance against every clip edge, for concave clips too, and lies in every half-plane that contains the whole subject |
| ClippingRules.ClosingChangesNothing | backend/src/kontur/evaluation/metrics.py:282-312 | Repeating the first vertex at the end changes neither area nor orientation nor clipping nor quotient |
| ClippingRules.QuotientExactly | backend/src/kontur/evaluation/metrics.py:373-394 | The quotient: none without area, else common area over the area of the union, kept between zero and one |
| ConvexRings.AreaIsLoop | backend/src/kontur/evaluation/metrics.py:282-299 | The signed area is half the cyclic shoelace sum, however often the ring is closed and however few points it has |
| ConvexRings.LoopReverse | backend/src/kontur/evaluation/metrics.py:308-312 | Reversing a ring negates its signed area, so orientation works |
| ConvexRings.OrientedLeft | backend/src/kontur/evaluation/metrics.py:308-312 | If all points are on one side of all edges, orientation puts them on the left of all of them |
| ConvexRings.ConvexRingMatchesItself | backend/src/kontur/evaluation/metrics.py:308-394 | A convex ring above the tolerated area, in either orientation, clipped by itself is unchanged, and its IoU with itself and with its reversal is exactly 1 |
| Rectangles.IntersectionShows | backend/src/kontur/evaluation/metrics.py:315-366 | Two rectangles whose distinct coordinates differ by more than 1e-9: the clipped polygon is a rotation of the common box, or has no extent across some axis |
| Rectangles.RectanglesAgree | backend/src/kontur/evaluation/metrics.py:373-394 | For such rectangles, from any first corner, in either orientation, open or closed, disjoint, touching, crossing or nested, the clipping IoU equals the bounding-box IoU |
| Rectangles.RectangleBounds | backend/src/kontur/domain/geometry.py:10-17 | The bounding box of such a rectangle is the rectangle |
| Rectangles.BoxIoUMeaning | backend/src/kontur/application/element_match.py:29-43 | The bounding-box IoU is the common area over the area of the union |
| Components.Forest.constructor | backend/src/kontur/application/revision_resolver.py:480 | Every file starts as its own root |
| Components.Forest.Find | backend/src/kontur/application/revision_resolver.py:482-486 | Path halving ends, returns the root and changes no root |
| Components.Forest.Union | backend/src/kontur/application/revision_resolver.py:488-494 | A link to a listed file joins the two classes; a missing or foreign end is ignored |
| Components.BlankComponents | backend/src/kontur/application/revision_resolver.py:477-502 | The in-place disjoint-set algorithm lists the components in the order of their first files |
| Components.ComponentsAreClasses | backend/src/kontur/application/revision_resolver.py:477-502 | The list holds exactly the classes of the reflexive, symmetric and transitive closure of the predecessor and successor links among the given files; every member of a component names that component |
| Components.SameRootIffConnected | backend/src/kontur/application/revision_resolver.py:488-494 | Two files have one root exactly when a path of links joins them |
| FileChain.ChainByFilename | backend/src/kontur/application/revision_resolver.py:70-101 | The three loops compute the chain or the first reason to refuse it |
| FileChain.RefusedExactly | backend/src/kontur/application/revision_resolver.py:75-88 | A chain is refused exactly for mixed marks, marks on two scales, an unread number, or one number on files with different content |
| FileChain.ChainShape | backend/src/kontur/application/revision_resolver.py:85-101 | An accepted chain is strictly increasing in number and doubly linked end to end; each link is the last file of its number, and a file that gave way has the same content as the one that stayed |
| FileChain.RechainAccepted | backend/src/kontur/application/revision_resolver.py:463-474 | Chaining an accepted chain again refuses nothing |
| ChainHead.HeadOfChain | backend/src/kontur/application/revision_resolver.py:315-353 | On a linked chain with at least one file that is not refused: one head, the highest, if the others form one block, otherwise a conflict |
| ChainHead.HeadOfFilenames | backend/src/kontur/application/revision_resolver.py:315-353 | The same for the accepted chain of any unkeyed files of one stage; the head has the highest number of the block |
| Revisions.ResolveRevision | backend/src/kontur/application/revision_resolver.py:259-353 | The method, with its filters and its call of the components, computes the resolution |
| Revisions.InspectorOnlyFillsUnknown | backend/src/kontur/application/revision_resolver.py:222-256 | The inspector never lifts a refusal or lowers a stamp, and becomes the basis exactly when the stamp proved nothing |
| Revisions.ReferenceIsApproved | backend/src/kontur/application/revision_resolver.py:176-219 | When a head becomes the reference: a project file needs a stamp, the inspector, or the sole-head policy with no other approved file; nothing but its approval changes |
| Revisions.ResolvedIsOnlyHead | backend/src/kontur/application/revision_resolver.py:328-353 | Whatever is resolved is the one eligible selected file, or else the one eligible file without an eligible successor |
| Revisions.ResolvePermutes | backend/src/kontur/application/revision_resolver.py:259-353 | The whole outcome, chosen file or reason of conflict, is the same for every order of the input |
| Revisions.AnchorComponent | backend/src/kontur/application/revision_resolver.py:298-307 | An unkeyed anchor falls into the component of its file, and into nothing if the file is not there |
| ReferenceRules.SameKeyIs | backend/src/kontur/application/revision_resolver.py:104-109 | Two files share a key exactly when both bear one cipher, on one sheet of one discipline; an empty cipher is no key |
| ReferenceRules.PoolExactly | backend/src/kontur/application/revision_resolver.py:259-353 | Which outcome a pool has: missing, unclear, two ciphers, a cipher beside none, or its head |
| ReferenceRules.PickExactly | backend/src/kontur/application/revision_resolver.py:325-353 | Which head is picked, and of what: the chosen files, and those whose successor is not among the eligible |
| ReferenceRules.FinishExactly | backend/src/kontur/application/revision_resolver.py:176-219 | What becomes of a head, stamp and basis included |
| ReferenceRules.StaleExactly | backend/src/kontur/application/revision_resolver.py:505-521 | A reference is stale exactly when another file of its stage that is not refused names it as its predecessor |
| ReferenceRules.OverlayTable | backend/src/kontur/application/revision_resolver.py:222-256 | Stamp and basis after a choice of the inspector, for each stamp |
| IdentityHeads.BlankFilenameGroups | backend/src/kontur/application/revision_resolver.py:424-460 | The loops over components and volume names compute the groups of unkeyed files |
| IdentityHeads.ResolveHeads | backend/src/kontur/application/revision_resolver.py:365-421 | The method computes one head per cipher, component and chain, conflicts caught as clarifications |
| IdentityHeads.ChainedHead | backend/src/kontur/application/revision_resolver.py:424-474 | The head of several unkeyed files of one volume: the highest of one block, otherwise a clarification |
| IdentityHeads.NameConflictExactly | backend/src/kontur/application/revision_resolver.py:463-474 | A file name conflict arises exactly for two or more unlinked, named files of one volume name, outside the as-built stage, whose chain is refused |
| IdentityHeads.NameConflictWins | backend/src/kontur/application/revision_resolver.py:399-402 | Such a conflict beats every choice of the inspector |
| HeadCoverage.NoFileIsLost | backend/src/kontur/application/revision_resolver.py:365-460 | For every document of the stage some head lists its id, or, outside the as-built stage, the id of a document of the pool it gave way to: both unkeyed, each alone in its component, of one volume name, one number and one content |
| Recheck.KeyedHead | backend/src/kontur/application/revision_resolver.py:377-420 | A key has a head exactly when files of the stage have it, and the head is that of these files alone |
| Recheck.OtherDocumentsDoNotMatter | backend/src/kontur/application/revision_resolver.py:365-421 | A document of another stage or key, put anywhere, never changes the head of a key |
| StagePages.StagePages | backend/src/kontur/application/process_pipeline.py:396-426 | The pages of a stage are, in the order of the heads, the documents of the resolved heads that have a cipher, are no project documents, were chosen, or are compared while nothing is chosen; no other head has a page |
| StagePages.KeyedHeadsSurvive | backend/src/kontur/application/process_pipeline.py:416-422 | Whatever unkeyed files the inspector chooses, the heads of ciphers stay what they were and the resolved ones are compared |
| Recheck.RawDocument | backend/src/kontur/application/process_pipeline.py:402-415 | Every resolved head stands for a raw document of the pool |
| Recheck.RecheckAgrees | backend/src/kontur/application/evaluate.py:1592-1647 | For every resolved head, keyed, linked or chained by name, the resolution over the raw pool anchored at it is resolved to the same file if and only if its raw document does not name itself as successor or was selected |
| StagePages.EveryPagePasses | backend/src/kontur/application/evaluate.py:1592-1647 | Every resolved document has a raw document in the pool, and passes the second check exactly unless that names itself as successor unselected |
| RevisionLimits.SelfSuccessorFails | backend/src/kontur/application/evaluate.py:1592-1647 | A concrete pair of files, given directly to the resolver, on which the page is selected and the second check reports a cycle |
| RevisionLimits.RefusedByCount | backend/src/kontur/application/revision_resolver.py:339-353 | Without a choice: a conflict exactly when not just one eligible file is without an eligible successor, a cycle exactly when none is |
| RevisionLimits.ReportedCycleIsOne | backend/src/kontur/application/revision_resolver.py:345-347 | A cycle reported for a non-empty pool is one |
| RevisionLimits.UnreportedCycleExactly | backend/src/kontur/application/revision_resolver.py:339-353 | Without a choice: there is a cycle and no conflict exactly when one file is without an eligible successor and some file does not reach it along successors |
| SuccessorGraph.CycleFreeExactly | backend/src/kontur/application/revision_resolver.py:339-347 | No cycle, a rank that rises along every successor, and every walk coming to an end are the same |
| SuccessorGraph.CycleFreeReachesSink | backend/src/kontur/application/revision_resolver.py:339-353 | With one file without an eligible successor: no cycle exactly when every file reaches it along successors |
| RevisionLimits.SideCycleUndetected | backend/src/kontur/application/revision_resolver.py:339-353 | Three files with a cycle beside one head: the head is resolved and the cycle is not reported |
| Archive.ExpandZip | backend/src/kontur/application/archive_expand.py:18-60 | The loop over the entries of an archive: the documents under their base names, or a refusal for an unsafe name, an unreadable document, more than forty documents or none |
| Archive.MembersAreDocuments | backend/src/kontur/application/archive_expand.py:29-47 | Whatever comes out was read from an entry and ends in .pdf, .docx or .xml, also under its base name |
| ArchiveContents.ExpandExactly | backend/src/kontur/application/archive_expand.py:18-60 | An archive is expanded exactly when every file in it has a relative path without empty, current or parent steps, every document a content, and there are one to forty documents; there is then one member for each file ending in .pdf, .docx or .xml in any case, in order, under its last step and with its content |
| ArchiveContents.EveryDocumentComesOut | backend/src/kontur/application/archive_expand.py:29-47 | No document of an expanded archive is left out |
| ArchiveContents.UnsafeIs | backend/src/kontur/application/archive_expand.py:57-60 | A name is safe exactly when no step between its slashes is empty, "." or ".." |
| FileKinds.KindExactly | backend/src/kontur/application/process_pipeline.py:100-121 | Which suffix, in any case, makes a file a text, a zip, a closed archive, a drawing or none of them |
| FileKinds.FateExactly | backend/src/kontur/application/process_pipeline.py:226-320 | What becomes of a file by its suffix, its content and its reader |
| Archive.DocumentIsNoZip | backend/src/kontur/application/process_pipeline.py:100-121 | A name ending in one of these does not end in .zip |
| Worklist.PagesFromBlobs | backend/src/kontur/application/process_pipeline.py:219-387 | The worklist ends, and its pages, errors, expanded files and their contents are those of a log in which every file, given or out of a zip, is taken once in its turn and treated by its name, by whether its id was seen, and by what was stored then |
| Expansion.LogIsDetermined | backend/src/kontur/application/process_pipeline.py:219-387 | Files, contents and readers leave one such log only |
| Expansion.ZipComesOut | backend/src/kontur/application/process_pipeline.py:280-306 | A given zip, the first of its id, whose content when taken can be read puts exactly its documents among the expanded files, together, in order, under their ids and with their contents |
| Expansion.OnlyMembersComeOut | backend/src/kontur/application/process_pipeline.py:280-306 | Every expanded file is a document of a given zip as that was stored when taken, and by its name no zip, so nothing that came out of a zip is opened again |
| Expansion.RunIsBounded | backend/src/kontur/application/archive_expand.py:43-44 | However archives are built, a run takes the given files and at most forty more for each given zip |
| Expansion.ChildIdInjective | backend/src/kontur/application/process_pipeline.py:291-294 | The id of an expanded file determines the zip and the place in it |
| Expansion.NoRepeatExactly | backend/src/kontur/application/process_pipeline.py:226-231 | No file is refused as a repeat exactly when the given ids differ from each other and from the ids of the expanded files |
| Expansion.FirstReads | backend/src/kontur/application/process_pipeline.py:226-385 | The first file of an id, given or out of a zip, is treated by its name and the content it is taken with, which for a document out of a zip is its own; every later file of the id is a repeat |
| Expansion.GivenReads | backend/src/kontur/application/process_pipeline.py:280-306 | A given file is taken with the content it came with if and only if every document of its id that a zip before it yielded has that content; otherwise with the content of such a document |
| Expansion.PagesExactly | backend/src/kontur/application/process_pipeline.py:219-387 | No id gives two pages, every page bears the id of a taken file, and an id has a page exactly when the first file that bears it is a document by its name and is read from the content it is taken with |
| Reruns.OwnContentExactly | backend/src/kontur/application/process_pipeline.py:280-306 | All given files are taken with the contents they came with if and only if, as computed from names, contents and readers alone, no zip yields another content under the id of a file given after it |
| Reruns.NoClashReadsOwn | backend/src/kontur/application/process_pipeline.py:291-302 | That is so whatever the archives hold when no given id is the id of an earlier given zip, two underscores and a number up to forty |
| IdClash.MemberReplacesGiven | backend/src/kontur/application/process_pipeline.py:291-302 | A zip "a" and a document given as "a__1" with other bytes: the page of "a__1" is read from the document in the zip |
| StoredRuns.ClearRun | backend/src/kontur/application/process_pipeline.py:219-387 | When the given ids differ and what bears the id of a document out of a zip has its content, the whole log in closed form: each given file by its own content, each document by its own or as a repeat if its id was given |
| StoredRuns.DistinctRunIsClear | backend/src/kontur/application/process_pipeline.py:226-231 | A first run in which no id occurs twice is of this kind, and all it took is what the process stores |
| StoredRuns.RerunIsSame | backend/src/kontur/application/runtime.py:540-605 | The next run over what a run stored, with or without more files behind it: it begins with everything the first took, repeats aside, in order and with the same outcomes; each document is then a repeat, once; with no file added there is nothing else |
| StoredRuns.RerunKeepsPages | backend/src/kontur/application/runtime.py:540-605 | The pages of a run come first in the next one; with no file added the pages are the same, and the errors are those of the run, repeats aside, and one repeat for each document |
| FileHistory.HistoryIsTidy | backend/src/kontur/presentation/api.py:215-249 | Over any sequence of uploads under fresh ids without two underscores in a row and of runs, ids of stored files differ and every file keeps its content |
| FileHistory.RunStores | backend/src/kontur/application/runtime.py:562-580 | What the store becomes after a run is what that run took out of zips |
| FileHistory.StoredFilesHavePages | backend/src/kontur/application/runtime.py:540-605 | At any time every stored file, uploaded or out of a zip, has a page in a run exactly when it is a document by its name and its own content is there and is read |
| FileHistory.LaterRunsKeepPages | backend/src/kontur/application/runtime.py:540-605 | Whatever is uploaded and run in between, the pages of a run are the first pages, in order, of every later run, which reports each document of the first as a repeat, once |
| Origins.OriginsDoNotMatter | backend/src/kontur/application/runtime.py:744-756 | A run over the same files without their places in the manifest takes the same ids and names with the same outcomes, pages and errors |
| StoredFiles.AppendExpanded | backend/src/kontur/application/runtime.py:562-580 | The loop that stores documents of unknown ids behind the files |
| StoredFiles.RecordStamps | backend/src/kontur/application/runtime.py:581-584 | The loop that records the stamps read: files not read keep theirs |
| StoredFiles.FirstRunAddsAll | backend/src/kontur/application/runtime.py:562-580 | Documents of new, different ids are all stored, behind the files and in order |
| StoredFiles.RerunAddsNoFile | backend/src/kontur/application/runtime.py:562-580 | A later run that takes the same documents out of zips stores no file again, whatever stamps were recorded since |
| Findings.ReviewSigns | backend/src/kontur/application/review.py:36-65 | An accepted review signs the finding and changes nothing else of it, never makes a candidate, gives a human-only status only for a human, and never touches a decided finding |
| FindingRules.TransitionTable | backend/src/kontur/domain/state_machines.py:32-64 | Exactly eleven changes of status are possible |
| FindingRules.StatusDemands | backend/src/kontur/domain/models.py:196-212 | What each status demands of evidence and decision |
| FindingRules.ReviewAccepted | backend/src/kontur/application/review.py:36-65 | A review is accepted exactly from a human on an open finding with evidence, a rejection with a reason, or as a request for clarification of a candidate, always with a comment; and what it then writes |
| FindingRules.ReviewRefused | backend/src/kontur/application/review.py:36-65 | Which refusal is given, and what is judged before what |
| FindingRules.BatchAccepted | backend/src/kontur/application/review.py:68-92 | A batch passes exactly when a human names one to fifty different candidates |
| FindingRules.KeyIs | backend/src/kontur/application/runtime.py:607-619 | A finding is kept under its evidence group, or under its own id without one |
| Findings.ConfirmCandidates | backend/src/kontur/application/review.py:68-92 | The batch is confirmed as a whole or refused as a whole |
| Findings.CarryExactly | backend/src/kontur/application/runtime.py:216-246 | The decision moves to the re-found finding exactly when it is the same candidate of the same rule with the same values; otherwise the new one stands as found |
| Findings.RerunIsFixpoint | backend/src/kontur/application/runtime.py:607-619 | A repeated identical run is a fixpoint on the dict, order included, even when several findings of the run share a key |
| Findings.RunKeepsDecision | backend/src/kontur/application/runtime.py:607-619 | A run keeps the decision under a key exactly when every finding it puts there is the same candidate with the same values |
| RunResults.RunReports | backend/src/kontur/application/runtime.py:540-605 | After an accepted run with a report the process is READY, every reported key holds the last finding put under it, with the decision it had exactly if that difference is found again each time, other keys and processes are as before |
| RunResults.RunWithoutReport | backend/src/kontur/application/runtime.py:526-538 | A run no longer wanted does nothing; a failing one leaves a note and nothing else |
| RunResults.FilesAfterRun | backend/src/kontur/application/runtime.py:562-584 | The files after a run: the old ones in place, the new documents behind them once each, with the stamps read |
| RunResults.ChoiceReplaces | backend/src/kontur/application/runtime.py:876-920 | An accepted choice replaces all findings by the last reported of each key, undecided, and records the stamps |
| ProcessWorkspace.Processes.constructor | backend/src/kontur/application/runtime.py:259-270 | The workspace starts empty |
| ProcessWorkspace.Processes.CreateProcess | backend/src/kontur/application/runtime.py:446-457 | A new process starts in PARSING without findings or transfer |
| ProcessWorkspace.Processes.ReopenForUpload | backend/src/kontur/application/runtime.py:459-463 | A finalized process is refused, any other goes to PARSING |
| ProcessWorkspace.Processes.RunMatrix | backend/src/kontur/application/runtime.py:526-605 | The guarded run stores the expanded documents and the stamps, puts the reported findings one by one and ends in READY; a failing run leaves files and findings |
| ProcessWorkspace.Processes.AttachFile | backend/src/kontur/application/runtime.py:465-475 | A file joins the process without a stamp unless its stage already has its content |
| ProcessWorkspace.Processes.LocateFinding | backend/src/kontur/application/runtime.py:621-645 | The loops over processes compute the located entry |
| ProcessWorkspace.Processes.ReviewFinding | backend/src/kontur/application/runtime.py:647-684 | The review of the located finding, its log, and the opening of a ready queue |
| ProcessWorkspace.Processes.ConfirmFindings | backend/src/kontur/application/runtime.py:686-733 | All lookups and checks of a batch before its first write |
| ProcessWorkspace.Processes.SelectRevision | backend/src/kontur/application/runtime.py:844-920 | The checks in their order, with the stamp written before actor, comment and stamp are checked, then the recorded stamps and the findings of the new run in place of the old |
| ProcessWorkspace.Processes.StartVerification | backend/src/kontur/application/runtime.py:922-928 | READY to VERIFYING, by a human |
| ProcessWorkspace.Processes.CompleteVerification | backend/src/kontur/application/runtime.py:930-939 | VERIFYING to COMPLETED, by a human and without candidates |
| ProcessWorkspace.Processes.FinalizeProtocol | backend/src/kontur/application/runtime.py:941-972 | The record is written first and rolled back, log included, when the protocol cannot be stored |
| ProcessWorkspace.Processes.CancelFinalization | backend/src/kontur/application/runtime.py:974-987 | Back to COMPLETED, with a reason, by a human, and only before any transfer |
| ProcessWorkspace.Processes.RequestTransfer | backend/src/kontur/application/runtime.py:989-1003 | The transfer request of a finalized process |
| Workspace.LocateChooses | backend/src/kontur/application/runtime.py:621-645 | The located entry is the first match of its process; if any process has one that may take the decision, it may, and no later process has one that may |
| WorkspaceRules.LocateExactly | backend/src/kontur/application/runtime.py:621-645 | The finding an id names is that of the last process where it may take the decision, or of the last that has one |
| WorkspaceRules.NewProcess | backend/src/kontur/application/runtime.py:446-457 | A new process parses and has nothing yet |
| WorkspaceRules.OperationSteps | backend/src/kontur/application/runtime.py:446-1003 | An operation does its step on the process it names and nothing elsewhere; an unknown process is refused |
| ProcessRules.StartAccepted | backend/src/kontur/application/review.py:95-111 | When a queue is opened, what that changes, and which refusal comes first |
| ProcessRules.CompleteAccepted | backend/src/kontur/application/review.py:114-134 | When a queue is closed, what that changes, and which refusal comes first |
| ProcessRules.FinalizeAccepted | backend/src/kontur/application/runtime.py:941-972 | When a process is finalized, what that changes, and which refusal comes first |
| ProcessRules.UnfinalizeAccepted | backend/src/kontur/application/runtime.py:974-987 | When a finalization is cancelled, what that changes, and which refusal comes first |
| ProcessRules.CancelUndoesFinalize | backend/src/kontur/application/runtime.py:941-987 | Cancelling undoes finalizing but for two entries of the log |
| ProcessRules.TransferAccepted | backend/src/kontur/application/runtime.py:989-1003 | When a transfer is requested and what is counted |
| ProcessRules.ReopenAccepted | backend/src/kontur/application/runtime.py:459-463 | An upload brings every process but a finalized one back to parsing |
| ProcessRules.MoveTable | backend/src/kontur/domain/state_machines.py:19-135 | The moves of a process without an actor |
| ProcessRules.ChoiceAccepted | backend/src/kontur/application/runtime.py:844-920 | When a choice of a revision is let in, and which refusal comes first |
| ProcessRules.AttachAccepted | backend/src/kontur/application/runtime.py:465-475 | When a file joins and with which stamp |
| ProcessRules.ReviewIsLogged | backend/src/kontur/application/runtime.py:647-684 | When a review of a located finding is accepted, what it logs, and whether it opens the queue |
| ProcessRules.BatchIsLogged | backend/src/kontur/application/runtime.py:686-733 | When a batch is confirmed, what it logs, and whether it opens the queue |
| ProcessRules.PicksFirst | backend/src/kontur/application/runtime.py:705-717 | A batch picks the first finding of each id and fails when an id names none |
| Workspace.ApplyKeeps | backend/src/kontur/application/runtime.py:446-1003 | Every operation keeps the invariant of every process |
| WorkspaceRuns.ClosedQueueIsEmpty | backend/src/kontur/application/review.py:114-172 | In every reachable workspace a COMPLETED or FINALIZED process has no candidate |
| WorkspaceRuns.HumansDecide | backend/src/kontur/domain/state_machines.py:138-156 | In every reachable workspace, across re-runs, a confirmed violation or a negative was decided by a human, by the right action, with a comment, and with a reason if rejected |
| WorkspaceRuns.TransferNeedsFinal | backend/src/kontur/application/runtime.py:974-1003 | A transfer state other than NOT_REQUESTED implies FINALIZED, and exactly the finalized processes are signed and numbered |
| WorkspaceRuns.SentForever | backend/src/kontur/application/runtime.py:974-1003 | Once a transfer was requested the process stays finalized through every later run, and its findings, signature and protocol never change |
| WorkspaceRuns.RefusalsChangeNothing | backend/src/kontur/application/runtime.py:465-1003 | A refused operation, a failed finalization included, leaves everything as it was if and only if it is not: a machine review that would open the queue; a run started in PARSING whose matrix fails; an accepted choice of a revision whose matrix fails; a choice refused for its actor, comment or stamp when the stamp read differs from the one kept |
| WorkspaceRuns.RefusedChoiceKeepsOnlyStamp | backend/src/kontur/application/runtime.py:867-876 | A choice refused for its actor, comment or stamp has replaced the stamp of its file and nothing else |
| WorkspaceRuns.RefusedChoiceForgetsStamp | backend/src/kontur/application/runtime.py:867-876 | An approved text document chosen with a blank comment: the call is refused and the recorded approval is gone |
| WorkspaceRuns.MachineReviewLeavesTrace | backend/src/kontur/application/runtime.py:672-684 | A clarification requested by a machine in READY is recorded although the call is refused |
| WorkspaceRuns.ReviewTouchesOne | backend/src/kontur/application/runtime.py:661-684 | An accepted review decides the located finding, opens a ready queue and touches nothing else |
| WorkspaceRuns.BatchAllOrNothing | backend/src/kontur/application/runtime.py:696-733 | An accepted batch confirms exactly the picked candidates and leaves every other finding; a refused one leaves all |
| WorkspaceRuns.OnlyHumansOpenGates | backend/src/kontur/domain/state_machines.py:19-121 | States move only along the table of transitions; opening, closing, finalizing and reopening a queue is done by humans alone |
| WorkspaceRuns.TransferBudget | backend/src/kontur/application/retry_policy.py:77-102 | The first request queues, the next three wait for a retry, every later one is queued for a manual transfer |
| WorkspaceRuns.DecisionsEndOnlyInRuns | backend/src/kontur/application/runtime.py:607-1003 | A decided finding outlives every operation but a run of the matrix on its own process |
| Protocol.AssembleProtocol | backend/src/kontur/application/protocol.py:214-289 | The loop over findings fills the sections; PENDING and PARSING have no protocol |
| Protocol.MembersExactly | backend/src/kontur/application/protocol.py:16-28 | A finding is in a section exactly when the section is that of its status |
| Protocol.SectionsConserve | backend/src/kontur/application/protocol.py:251-264 | The sections together hold as many findings as there are |
| Protocol.CountIsViolations | backend/src/kontur/application/protocol.py:266-279 | The violation count is the number of findings that count as violations |
| Protocol.ClosedHasNoCandidates | backend/src/kontur/application/runtime.py:941-972 | The protocol of a completed or finalized process has no candidates |
| Protocol.CleanSection | backend/src/kontur/application/protocol.py:101-115 | The loop over one section keeps the rows whose status the section admits, and refuses malformed rows |
| Protocol.RinIsIdempotent | backend/src/kontur/application/protocol.py:79-119 | Filtering a filtered payload changes nothing, for every JSON payload |
| Protocol.RinAfterHttp | backend/src/kontur/application/protocol.py:61-119 | The HTTP filter before it makes no difference, for every JSON payload |
| Protocol.OnlyDecidedLeave | backend/src/kontur/application/protocol.py:71-119 | Only the two decided sections leave, with only the status of their section, and the count is that of the confirmed rows |
| Protocol.WireKeepsProtocol | backend/src/kontur/application/protocol.py:79-119 | Of an assembled protocol the wire keeps all decided cards in their order and the violation count |
| ProtocolCards.SectionTable | backend/src/kontur/application/protocol.py:16-28 | The section of every status |
| ProtocolCards.CardFields | backend/src/kontur/application/protocol.py:161-212 | Every value of a finding stands under its key, a missing one under none |
| ProtocolCards.CardDetermines | backend/src/kontur/application/protocol.py:161-212 | Two findings with one card agree in every value of it |
| ProtocolCards.ProtocolFields | backend/src/kontur/application/protocol.py:214-289 | The whole payload: heading, state, sections, completeness, count and changes |
| ProtocolCards.HttpDropsPreliminary | backend/src/kontur/application/protocol.py:61-68 | The HTTP filter takes out the preliminary section and nothing else |
| ProtocolCards.RinRefuses | backend/src/kontur/application/protocol.py:79-121 | The external filter refuses exactly a malformed section of its two and keeps all else but the changes of revisions |
| ProtocolCards.RinKeepsDecided | backend/src/kontur/application/protocol.py:79-121 | Every row with the status of its section goes through, in order and as often as it is there |
| RoomMerge.CollapseRoomDiffs | backend/src/kontur/application/room_compare.py:155-205 | The loops that merge verdicts by room compute the merge |
| RoomMerge.VerdictOutcome | backend/src/kontur/application/room_compare.py:171-204 | The verdict of a room: abstain absorbs, two-sided verdicts outweigh one-sided ones, conflicting kinds abstain, otherwise a member of the single kind |
| RoomMerge.OneVerdictPerRoom | backend/src/kontur/application/room_compare.py:155-205 | Each named room has exactly its one verdict after the merge, unknown rooms have none, sheet verdicts are untouched |
| RoomMerge.StagedEqualsFlat | backend/src/kontur/application/evaluate.py:938-963 | Any number of batches of the shapes the pair stage emits: merging each and then the results gives every room the kind of one flat merge |
| RoomMerge.StagingExact | backend/src/kontur/application/evaluate.py:938-963 | A batch may be merged early, whatever comes later, if and only if an abstain or a two-sided verdict settles the room or its one-sided verdicts agree |
| RoomMerge.UnshapedBatchDiffers | backend/src/kontur/application/room_compare.py:180-193 | A one-sided candidate shows that the shape is needed |
| RoomMerge.OrderIndependent | backend/src/kontur/application/room_compare.py:155-205 | The kind of a room does not depend on the order of the verdicts |
| RoomCompare.PairDiffs | backend/src/kontur/application/room_compare.py:669-752 | A pair of sheets says one verdict for each differing room, one sheet-wide abstain above the limit or beside a repeated number, one two-sided match without differences |
| PairVerdicts.PairDiffsMeaning | backend/src/kontur/application/room_compare.py:669-752 | On the rooms and marks of the sheets: a pair is given up, matches, or has one verdict for each unequal room: suspicious with the one spot when one sheet has it, a candidate when the project alone marks it, suspicious when the working document alone does |
| PairVerdicts.SaidMeaning | backend/src/kontur/application/room_compare.py:110-140 | All first verdicts of a comparison and the rooms of pairs given up, on the sheets alone |
| PairVerdicts.JaccardMeaning | backend/src/kontur/application/room_compare.py:662-666 | The quotient of two sheets is their common rooms over all: symmetric, zero without a common room, one for equal sheets |
| PairVerdicts.AnswerMeaning | backend/src/kontur/application/room_compare.py:110-140 | In the whole answer every verdict about a room was said by a pair of sheets or read from the marks, or abstains without spots; no room has two; verdicts about whole sheets stand as the pairs gave them |
| RoomCompare.PairAnswerShaped | backend/src/kontur/application/room_compare.py:669-752 | Whatever a pair says has the shape that may be merged in stages |
| RoomCompare.PairSheets | backend/src/kontur/application/room_compare.py:643-666 | Every pair of sheets at or above the threshold and no other |
| RoomCompare.PreferMarkedFacts | backend/src/kontur/application/room_compare.py:584-597 | A room is kept if it is on some sheet, marked if it is marked on some sheet |
| RoomCompare.AcrossSheets | backend/src/kontur/application/room_compare.py:600-640 | A verdict for every unsettled room of both stages whose marks differ, and no other |
| RoomCompare.CollectPairs | backend/src/kontur/application/room_compare.py:128-136 | The pair loop collects all first verdicts and blocks exactly the rooms of given-up pairs |
| RoomCompare.CompareRooms | backend/src/kontur/application/room_compare.py:110-140 | A room named by a first verdict ends with the kind of their flat merge, a room of both stages that no pair settled is decided by its marks, every other room is left out |
| WordBreak.WalkExactly | backend/src/kontur/application/room_compare.py:238-248 | The backtracking walk succeeds exactly on texts that can be cut into matching pieces |
| WordBreak.WalkComplete | backend/src/kontur/application/room_compare.py:238-248 | It finds the cut whose pieces are shortest from the front |
| WordBreak.PiecesExactly | backend/src/kontur/application/room_compare.py:229-253 | A number is its own single piece; any other text gives pieces exactly when it can be cut, and these are then at least two, each matching the pattern, that join to the text |
| StringOrder.SortedKeys | backend/src/kontur/application/room_compare.py:170 | The keys in ascending order |
| StringOrder.SortedIsUnique | backend/src/kontur/application/room_compare.py:170 | An ascending listing of a set without repeats is the sorted one |
| Multipart.ScanMarkers | gateway/src/limits.js:20-28 | The scan finds the boundary markers from left to right without overlap |
| Multipart.SizeParts | gateway/src/limits.js:29-33 | The sizes of the finished slices, file parts only |
| Multipart.MultipartFileState | gateway/src/limits.js:19-41 | The scanner computes complete and open sizes |
| Multipart.ScanReadsEncoding | gateway/src/limits.js:19-60 | Whole parts followed by anything: the complete sizes are the content lengths of the file parts in order, the open size is that of the rest |
| Multipart.FinishedBody | gateway/src/limits.js:19-60 | For an encoded list of parts whose marker occurs only at delimiters, `complete` is exactly the file content lengths in order and `open` is 0 |
| Multipart.CutInsideContent | gateway/src/limits.js:19-60 | Cut anywhere inside the content of part k: `complete` covers the file parts before k, `open` is the number of its content bytes received, or 0 if it is no file |
| PartSizes.HasFilenameIs | gateway/src/limits.js:43-60 | Headers name a file exactly when "filename=" occurs in them in whatever case |
| PartSizes.SliceExactly | gateway/src/limits.js:43-60 | The line breaks around a slice do not count, every byte of the content does |
| PartSizes.WithoutBlankLine | gateway/src/limits.js:43-60 | A slice without a blank line is no part when finished and an empty one while it is not |
| UploadLimiter.Limiter.Admit | gateway/src/limits.js:62-75 | One call of the limiter: the answer and the new table |
| UploadLimiter.SameDecisions | gateway/src/limits.js:62-75 | With a clock that never steps back the limiter that discards stamps answers every call as one over the full history of accepted calls |
| UploadLimiter.FirstBackwardStep | gateway/src/limits.js:62-75 | At the first reading before the last one of its key the two differ exactly when the limit exceeds the count at the last reading and not the count at the new one |
| UploadLimiter.BackwardClockDiffers | gateway/src/limits.js:62-75 | Calls with a clock that steps back on which the two differ |
| UploadLimiter.WindowNeverOverflows | gateway/src/limits.js:62-75 | No half-open window of the given length ever holds more accepted calls of a key than the limit |
| Decimal.BothSeparatorsExact | backend/src/kontur/application/normalize.py:376-428 | A string with both separators is accepted exactly when it is a digit string grouped by three with a separator and a non-empty digit fraction, in either convention, and the result is those digits, a dot and the fraction |
| Decimal.PrintThenParse | backend/src/kontur/application/normalize.py:376-428 | Printing with a fraction and parsing gives the number back if and only if it is not one non-zero digit, a dot and three digits, which is refused as ambiguous |
| Decimal.OneCommaIsFraction | backend/src/kontur/application/normalize.py:376-428 | Two strings without separators around one comma: the comma becomes a dot, whatever their length |
| Decimal.OneDotIsFraction | backend/src/kontur/application/normalize.py:376-428 | Two strings without separators around one dot come back as they are, unless it is one non-zero digit before and three digits behind, which is refused |
| Decimal.NoSeparatorComesBack | backend/src/kontur/application/normalize.py:376-428 | A string without separators comes back as it is |
| Decimal.BothRefused | backend/src/kontur/application/normalize.py:376-428 | With both separators a refusal names the fraction or the groups |
| Decimal.RepeatedSeparatorExact | backend/src/kontur/application/normalize.py:376-428 | Two or more equal separators: accepted exactly when the string is at least seven grouped digits, and the result is the digits |
| Decimal.GroupsAloneComeBack | backend/src/kontur/application/normalize.py:376-428 | Grouped digits without a fraction come back exactly with one group or with three and more |

## Left out

- PDF, DOCX, XML and ZIP reading, OCR, page rendering, token binding by distance and protocol rendering: foreign libraries; tokens, spots, polygons and archive entries are given.
- The database, queue, object store and cache behind the workspace: a store call succeeds or raises; failures in the middle of a batch write, the outbox, the relay that moves SYNCING and SYNCED, and reloading after a restart are not modelled.
- HTTP, access rights, the proxy, metrics endpoints, the screens and the usability recorder: plumbing.
- The end of the worker thread by `BaseException`, a `None` entry in its queue and restarting the thread: the thread of the model lives once started, and what `_run` computes is not looked at.
- Evidence groups, manifest hash, completeness, clocks and revision links of a process, and `_link_declared_predecessor`: of a file a process keeps id, content hash, stage and stamp, and a run of the matrix is the findings, expanded files and stamps it reports. The links and the second run of `_with_prior_revisions` follow only on an accepted choice.
- The texts of reasons, rationales and notices, and the remaining fields of a finding card (versions, delta, references, timestamps): kinds of faults are kept, texts are not.
- `split` of a finding into atomic ones: a copy loop with checks, not called by the workspace.
- Rule data, coverage counts, the normative registry, claims checks, exports, demo scripts, bootstrap resampling and the other accuracy scores of the evaluation: tables, reporting and sums.
- `_exclude_boxes`, `_expand`, `_join_touching` and `_choose_rooms` of the room comparison: they prepare the sheets that the model starts from.
- `apply_number_normalizations` and unit scaling around the decimal parser: rewriting by regular expressions. Digits are ASCII digits.
- Rounding of floating point numbers and NaN: reals are exact and finite.
- Wilson.ContainsShare: the interval is taken with the exact square root, which the program only approximates.
- WorkerReaders.EveryReaderReturns: that the scheduler lets an enabled thread run at last is not modelled; the bounds count steps that are taken.
- FileHistory.LaterRunsKeepPages: readers give the same result for the same bytes in every run; time-outs of the PDF reader that differ between runs are not modelled, nor is a run that raises.
- Worklist.PagesFromBlobs: what a reader makes of bytes, the stamp and the injection flag of a file, and the text of errors are not modelled; a page is its id and its content.
- Archive.ExpandZip: the bomb test and the reading of the central directory come before it; lower case is ASCII.
- IdentityHeads.ResolveHeads: reasons of conflicts are kept as kinds, without the file ids the messages list.
