# Verified model of the sbw-limiter edge agent

A Dafny model of the edge agent's desired-state machine: how snapshots and deltas pushed by the controller
become VPP policers and classify sessions and BIRD announcements, and what every run of that machine keeps.
`dafny verify dfyconfig.toml` checks the whole project.

## Parts

| module | models |
|---|---|
| `Model`, `Desired`, `Store` | the controller's messages, folding a delta into the held state, the held state over whole runs |
| `Classify`, `MapKey` | the classifier's byte layout against real packet headers; in-memory session names |
| `VppApi` | VPP as a machine behind the binary API: every call may fail, and a failing call changes nothing |
| `Plan`, `Reconcile`, `Bindings`, `Guard` | the full pass: what it should leave, the code that leaves it, interface bindings, the reconcile-to-empty guard |
| `DeltaPlan`, `DeltaPath`, `DeltaFits` | the delta fast path: what it should leave and when that is what a full pass would leave; the code; when it can succeed |
| `Sequencer`, `Agent` | reordering deltas onto the generation chain; merge, apply and advance in lockstep |
| `Codec`, `Feed` | BIRD's wire format with a decoder; the connection and the feed that keeps BIRD's table equal to desired |
| `Chunks` | reassembling chunked snapshots |
| `Sensors` | the forwarding probe and the heartbeat monitor against their histories |
| `Traffic` | what the programmed tables, sessions and bindings do to a packet |
| `Witnesses` | literal inputs at which the agent falls short, and one that meets every hypothesis of a main result |

Code that updates fields step by step is a class or a method whose contract ties the new state to a
specification function (`Step`, `Submit`, `MonitorStep`, ...) or to a predicate on the state (`Converged`,
`Applied`, `FullScript`, ...); the theorems are about those, over all inputs, all runs, all orders of map
iteration and all patterns of VPP failures.

## Main results

- **The fast path refines the slow path** (`DeltaPlan.FastPathRefinesIff`, `Agent.Lockstep.ApplyOneDelta`,
  `Agent.DeltasKeepSync`, `Agent.PassAfterDeltaQuietIff`). From a VPP in sync with the held state, down to every
  field of every policer, a delta that VPP took in full leaves VPP in sync with the merged state exactly when no
  upserted pool drops a policer and no upsert claims a member of a pool upserted later in the same delta; a full
  pass then has nothing to do exactly when every policer reads back as sent.
- **When a delta can be applied** (`DeltaFits.FitsIff`, `DeltaPath.ApplyDelta`). A VPP in sync that refuses only
  the impossible takes a delta in full exactly when no pool with members is removed twice, no pool both removed
  and upserted drops a member no earlier upsert listed, and VPP accepts what the upserts list
  (`Witnesses.RemovedMemberIsMissed` is a delta of either kind).
- **Self-stabilization** (`Reconcile.Reconciler.Reconcile`, `Plan.NoChangeIffInPlace`, `Plan.AsSentAfterPassIff`,
  `Reconcile.PassesAgree`, `Agent.SecondPassQuietIff`). From any VPP contents and any known indexes a completed
  pass leaves, by name, exactly the desired managed policers and, on every mask, exactly the desired sessions.
  From right indexes it has converged, with every index right and every session on its policer's live index,
  exactly when no desired policer VPP already had was relearned wrongly; if it has not, no later pass will. The
  policers then run on their whole desired configurations exactly when those the pass left alone already did: a
  pass compares rate and burst only (`Witnesses.LaxPolicerStays`). The report is empty exactly when nothing the
  pass compares was off; a second pass is quiet exactly when every policer written reads back as sent, which
  kbps policers do and pps policers in general do not (`Witnesses.PpsIsNeverQuiet`).
- **A failed delta is healed** (`Agent.DeltaSequencer.SubmitThenReconcile`, `Reconcile.KnownIsRight`). After any
  deltas from a VPP in sync, failing anywhere, a completed pass over the held state that the guard did not hold
  back leaves exactly the held
  policer names, indexes, sessions, rates and bursts; other fields again as a pass leaves them.
- **Delta reordering** (`Sequencer.AnyOrderIsInOrder`, `Sequencer.MergedInFullIffFits`,
  `Agent.DeltaSequencer.SubmitAll`). A linear chain delivered in any order is merged once and in order, whatever
  VPP answers; with each delta sent once, exactly when the reorder buffer never overflows. A full pass that lands
  inside the chain leaves the rest mergeable exactly when the delta it lands on was not already buffered
  (`Sequencer.MergedAfterJumpIff`).
- **Feed crash safety** (`Feed.Feed.Run`, `Feed.DiffIsResync`, `Codec.CutIsHandOver`, `Feed.Client.Spill`).
  Through any run of passes, deaths, half-delivered flushes and reconnects, a live connection with no failure
  outstanding means that BIRD's table is exactly the desired image, which read by the decoder announces exactly
  the desired anchors and flows (`Feed.ImageAnnounces`). With valid prefixes every frame written can
  be framed, so a flush cut at any byte hands over whole frames.
- **Index soundness and conservation** (`DeltaPath.ApplyDelta`, `Agent.Lockstep.ApplyOneDelta`,
  `Plan.SoundAfterRelearnIff`). Right indexes stay right on every exit of the delta path, and on every exit of
  a full pass exactly when relearning keeps them right; `Witnesses.ClaimUnsettlesIndexes` is an ordinary
  snapshot at which it does not. Counts follow VPP exactly along deltas that fail anywhere; from a synced state
  no installed session is left hitting an index without a policer.
- **Packets meet policers as desired says** (`Traffic.PolicedIff`, `Traffic.CoveredIsPoliced`,
  `Classify.KeyPolicesIff`, `VppApi.SentRunsAsIff`). In a VPP in sync with bound interfaces a frame, taken octet by
  octet, comes to and is handed to a policer exactly when a desired session covers it; that policer is the live one
  the session names and carries out its spec field by field.
- **Classifier correctness** (`Classify.MembershipIffCanonical`, `Classify.MatchIffInPrefix`).

## Hypotheses

- Desired sessions have distinct (mask, key) pairs across pools, name policers of their own pool that the
  same state lists, and policer names parse to their pool (`Plan.WellFormed`). Prefixes are canonical for
  their mask width (the type `Desired.Session`): `SessionKey` does not apply the netmask, and
  `Classify.MembershipIffCanonical` shows that this is exactly what is needed.
- VPP has at most one table per mask, gives distinct policers distinct indexes, reports an error for deleting
  an absent session, and answers lookups and dumps truthfully (`VppApi.Vpp.Valid` and its methods).
- Statements about when an operation succeeds are for a VPP that refuses only what it cannot do (`obliging`):
  a policer outside `accepts`, one already there, no free index, an absent session or policer.
- The fast path starts from right indexes (`Reconcile.Reconciler.Valid`). A full pass does not need them.
- A family's only table ends its chain (`VppApi.GoodLinks`): true of an empty VPP and kept by everything the
  agent does, as it never deletes a table.
- Upserts list only their own pool's policers and sessions, and no pool twice (`Desired.OwnIds`); each lists a
  (mask, key) once and managed policer names only (`DeltaPath.Applicable`).
- Each delta builds on its predecessor's generation and generations grow (`Sequencer.Linear`); the reordering
  theorems are about runs without a snapshot in between, except `Sequencer.MergedAfterJumpIff`.
- BIRD applies frames in order; when it accepts a new connection it has stopped reading the old one, and its
  table may then be anything.

## Where code and comments differ

- `internal/agent/reconcile.go:819-821` compares rate and burst only, so a full pass never restores a policer
  whose rate type, colour mode or actions differ (`Witnesses.LaxPolicerStays`), while `internal/agent/delta.go:148`
  rewrites them. `Plan.AsSentAfterPassIff` is the exact condition. The full pass heals a failed
  delta, as `cmd/edge-agent/main.go:305-308` says, in everything but those fields (`Agent.Lockstep.RunOnce`).
- `internal/agent/delta.go:62-95` deletes recorded sessions without asking whether an earlier part of the same
  delta deleted them, so a repeated removal, or a removed pool upserted without a member, fails
  (`Witnesses.RemovedMemberIsMissed`).
- `internal/agent/deltaseq.go:64-76` evicts what a full resync has passed, but only a submission drains the buffer.
  A delta waiting at the very generation the resync lands on is stranded with all that follow it
  (`Witnesses.JumpStrandsDelta`); `Sequencer.MergedAfterJumpIff` is the exact condition.
- `internal/agent/reconcile.go:819` compares burst bytes although pps policers are sent milliseconds, so a
  pps policer is rewritten on every pass (`Plan.PpsSteadyIff`). The model follows the code.
- `internal/agent/delta.go:127` speaks of updating drifted policers; the code updates every known one. The
  model follows the code.
- `internal/grpcclient/client.go:56-62` promises that an older epoch is dropped. The epoch is forgotten once
  a snapshot completes, so a complete older one is handed on again (`Chunks.OlderEpochAfterNewer`);
  `Chunks.DroppedIff` says exactly when a fragment is dropped.
- `internal/agent/reconcile.go:457-500` calls relearning lossless. It reads a policer's index off a session
  that desired gives to it but that may still hit another policer (`Witnesses.ClaimUnsettlesIndexes`,
  `Witnesses.MoveDuringRestartMisleads`); `Plan.SoundAfterRelearnIff` and `Plan.UsableAfterRelearnIff` are the
  exact conditions.
- `internal/agent/reconcile.go:594-596` trusts that a lone table ends its chain. `Bindings.FamilyHead` states
  the exact condition, which everything the agent does keeps.

## Model

| member | source | states |
|---|---|---|
| `Classify.MatchIffInPrefix` | internal/vpp/classify.go:66-137 | for every mask, canonical prefix and untagged frame, the masked byte comparison after the skip vectors succeeds iff the packet's source or destination address (RFC 791 section 3.1, RFC 8200 section 3 offsets) lies in the prefix |
| `Classify.NonCanonicalNeverMatches` | internal/vpp/classify.go:229-240 | a prefix with host bits gives a key that matches no packet at all |
| `Classify.MembershipIffCanonical` | internal/vpp/classify.go:229-240 | the key decides prefix membership for every frame iff the prefix is canonical for the mask width |
| `Classify.KeyPolicesIff` | internal/vpp/classify.go:46-137 | kind by kind and octet by octet (destination at 30 and 38 of the frame, source at 26 and 22, 32, 24 or 128 bits): the agent's key matches exactly the frames its mask kind is for, and none with host bits set; an unknown kind has no key |
| `Classify.StoredPolicesIff` | internal/vpp/classify.go:46-137 | the key VPP stores matches exactly those frames, host bits or not |
| `Classify.CoversIffInPrefix` | internal/vpp/classify.go:46-82 | those frames are the ones whose address of the kind's direction lies in the prefix at the kind's width, bit by bit |
| `Classify.KeyedIff` | internal/vpp/classify.go:46-63 | a session has a key iff its mask is one of the six and its address, not an IPv4-mapped one, is of the mask's family |
| `Classify.StoredIsSessionKey` | internal/vpp/classify.go:297-315 | the key VPP stores after masking the inserted buffer is `SessionKey` iff the prefix is canonical |
| `Classify.SessionKeyInjective` | internal/vpp/classify.go:229-240 | two prefixes of one mask with the same key have the same address |
| `Classify.Ip6KeysCoincide` | internal/vpp/classify.go:229-240 | a member's ip6-dst and ip6-src keys are the same bytes, so the mask has to namespace them |
| `Classify.DeleteBufferIsAddBuffer` | internal/vpp/classify.go:245-263 | deleting by `SessionKey` sends the very buffer the insertion sent |
| `Classify.LayoutsDiffer` | internal/vpp/classify.go:46-89 | the six table layouts are pairwise different, so a layout identifies its mask |
| `Classify.Netmask` | internal/vpp/classify.go:91-106 | the octet loop yields the left-aligned netmask of the mask width |
| `Classify.TableMask` | internal/vpp/classify.go:110-116 | the filled buffer is the netmask at the address offset inside the match vectors, zero elsewhere |
| `Classify.SessionMatch` | internal/vpp/classify.go:120-137 | the filled buffer is the address at its absolute offset, and a prefix of the wrong family is refused |
| `Classify.DeleteBuffer` | internal/vpp/classify.go:245-263 | the skipped vectors are put back as zeros in front of the key |
| `Classify.MaskOf` | internal/vpp/classify.go:269-295 | finds the mask whose layout a table has, or shows that no mask has it |
| `Classify.RecoverTables` | internal/vpp/classify.go:269-295 | recovers exactly the masks some listed table has, each with the last listed table of exactly that layout |
| `Classify.RecoveredExactly` | internal/vpp/classify.go:269-295 | a listing of tables no two of which share a layout is recovered exactly |
| `MapKey.MapKeyIffSameSession` | internal/agent/classifydiff.go:29-31 | with distinct NUL-free mask names, two in-memory session keys are equal iff mask and match key are |
| `MapKey.HexInjective` | internal/agent/classifydiff.go:57-59 | the hex rendering of a match key determines it |
| `Desired.MergeOverridesPools` | internal/agent/desiredstore.go:116-170 | merging is a per-pool override of policers and sessions: untouched pools keep theirs, an upserted pool has exactly its upsert, a removed one nothing |
| `Desired.MergedHeader` | internal/agent/desiredstore.go:158-174 | generation and version are the delta's, the stamp the held one, and each family's next hop the last one an upsert brings, else the held one |
| `Desired.MergeInSteps` | internal/agent/desiredstore.go:150-175 | dropping touched contributions and re-adding upsert by upsert is the closed form `MergeState` |
| `Desired.MergeKeepsPrefixesUnique` | internal/agent/desiredstore.go:135-163 | a merge never duplicates an anchor or flow prefix, whatever sessions the held state lacks |
| `Desired.AnchorsByPrefix` | internal/agent/desiredstore.go:123-163 | what is announced of a prefix stays as held unless a pool the delta upserts or removes has a held member on it or an upsert announces it; then it is exactly what the upserts announce |
| `Desired.SurvivesIff` | internal/agent/desiredstore.go:123-163 | for any delta a held anchor or flow survives iff no upserted or removed pool has a held member on its prefix and no upsert announces the prefix, or an upsert lists it again |
| `Store.DesiredStore.Accept` | internal/agent/desiredstore.go:66-89 | takes a snapshot unless it is older in generation or content; the new state is the specified step |
| `Store.DesiredStore.Merge` | internal/agent/desiredstore.go:103-186 | folds a delta in, as `MergedHeader`, `MergeOverridesPools` and `SurvivesIff` describe, and returns the previous sessions; refuses without a base state |
| `Store.DesiredStore.Desired` | internal/agent/desiredstore.go:235-242 | serves the held state, or nothing before the first snapshot |
| `Store.FilterOutBy` | internal/agent/desiredstore.go:189-211 | both accumulating filters compute the order-preserving filter |
| `Store.WatermarkIsMaximum` | internal/agent/desiredstore.go:72-87 | over every run the watermark is the largest stamp ever taken |
| `Store.TakenIff` | internal/agent/desiredstore.go:66-89 | a snapshot is taken, replacing whatever is held, iff nothing is held or neither its generation nor, if stamped, its stamp is behind |
| `Store.HeldIsLastTaken` | internal/agent/desiredstore.go:66-186 | over every run the held state is the last snapshot taken with the deltas since then merged in order |
| `Store.NewestSnapshotWins` | internal/agent/desiredstore.go:66-89 | after any run that saw no higher generation and, if it is stamped, no later stamp, a snapshot is what the store serves |
| `Store.HealthyIff` | internal/agent/desiredstore.go:66-229 | the store counts as healthy iff the controller was not lost since it last reported, sent a snapshot that was taken or a delta that was merged |
| `Store.PoolOutlivesStaleSnapshots` | internal/agent/desiredstore.go:66-89 | a pool held under watermark w stays unchanged through every run whose events neither touch it by delta nor are snapshots that are unstamped or stamped at least w |
| `Store.MergedDeltaIsProtected` | internal/agent/desiredstore.go:172-182 | from the merge of a stamped delta on, its pools have exactly its policers and sessions under the same proviso |
| `Store.RunKeepsPrefixesUnique` | internal/agent/desiredstore.go:116-170 | in every run held anchors and flow sources have no duplicate prefix |
| `Store.ServesStateIffSnapshotSeen` | internal/agent/desiredstore.go:216-242 | a cold store serves a state iff some snapshot arrived; losing the controller changes nothing served |
| `Store.GenerationDropsOnlyByMerge` | internal/agent/desiredstore.go:172-172 | the held generation goes back on an event iff that event merges a delta of lower generation |
| `VppApi.Vpp.FindTablesByMask` | internal/vpp/classify.go:269-295 | lists VPP's tables, recovers them by layout and so returns exactly VPP's tables by mask |
| `VppApi.Vpp.LookupHits` | internal/vpp/classify.go:400-443 | lookups in chunks of 1024 answer exactly as one lookup per prefix, for any prefixes and any list length |
| `VppApi.StoredIsTableKey` | internal/vpp/classify.go:110-137 | masking a buffer twice is masking it once, so whatever VPP stores is a key of the table |
| `VppApi.CanonicalStoredKey` | internal/vpp/classify.go:229-240 | the key VPP stores is the one the agent computes, for a prefix without host bits |
| `VppApi.CutJoined` | internal/vpp/classify.go:400-443 | match buffers of one length survive being packed into one request |
| `VppApi.Vpp.AddSession` | internal/vpp/classify.go:214-217 | any prefix of the family is installed under the key VPP makes of its buffer; a failure changes nothing |
| `VppApi.Vpp.DelSessionByKey` | internal/vpp/classify.go:245-263 | removes exactly the session of that key, which must be there; a failure changes nothing |
| `VppApi.Vpp.AddPolicer` | internal/vpp/policer.go:103-125 | adds a policer on a fresh index, and what is sent carries out the spec field by field (`RunsAs`) |
| `VppApi.Vpp.UpdatePolicer` | internal/vpp/policer.go:130-140 | rewrites the policer at an index in place with what carries out the spec (`RunsAs`) |
| `VppApi.SentRunsAsIff` | internal/vpp/policer.go:27-75 | what is sent has the spec's rate in 32 bits, its own rate type, colour mode, conform and exceed action, and as burst its bytes or, in packets a second, the nearest number of milliseconds, ties upwards; within 64 bits nothing else has |
| `VppApi.Vpp.DeletePolicerByName` | internal/vpp/policer.go:170-173 | removes exactly that policer |
| `VppApi.Vpp.SetPolicerInterface` | internal/vpp/classify.go:322-331 | attach replaces a family's table, detach needs the attached one, a combined call acts on ip4 only |
| `Plan.RelearnSoundIff` | internal/agent/reconcile.go:457-500 | relearned indexes are right iff, for each policer to be learned, the first installed session desired gives to it already hits it |
| `Plan.RelearnedIs` | internal/agent/reconcile.go:457-500 | the relearn step adds exactly the unknown desired policers an installed session names, at the index the first such session hits |
| `Plan.SoundAfterRelearnIff` | internal/agent/reconcile.go:457-500 | right indexes stay right through relearning iff each desired policer to be learned is in VPP at the index its first installed session hits |
| `Plan.UsableAfterRelearnIff` | internal/agent/reconcile.go:457-500 | a pass can use what it relearned iff that holds of the desired policers VPP already has |
| `Plan.RelearnTakesFirst` | internal/agent/reconcile.go:485-498 | a missing index is learned from the first installed session naming that policer, and only then |
| `Plan.KbpsIsSteady` | internal/vpp/policer.go:45-48 | a kbps policer reads back as not drifted |
| `Plan.PpsSteadyIff` | internal/agent/reconcile.go:819-821 | a pps policer reads back as drifted unless the number of its byte burst is the nearest number of milliseconds |
| `Plan.NoChangeIffInPlace` | internal/agent/reconcile.go:649-815 | a completed pass reports no policer or session change iff VPP had exactly the desired managed policers, known and at their rate and burst, and exactly the desired sessions |
| `Plan.InPlaceAfterPassIff` | internal/agent/reconcile.go:737-815 | after a pass VPP is in place iff every policer the pass had to write reads back as sent |
| `Plan.AsSentAfterPassIff` | internal/agent/reconcile.go:819-821 | after a converged pass every desired policer runs on its whole desired configuration iff each one the pass left alone, because rate and burst agreed, already did |
| `Plan.PassSetsRates` | internal/agent/reconcile.go:772-821 | after a converged pass every policer VPP lacked, had at an unknown index or ran at another rate or burst carries out its spec, every other one is as it was, and every policer not in packets a second is at its rate and burst |
| `Plan.ToUpdateIs` | internal/agent/reconcile.go:785-821 | the policers counted as updated are exactly those VPP had at an unknown index or at another rate or burst |
| `Plan.ByNameIsLast` | internal/agent/reconcile.go:740-743 | of several specs of one name the last one counts |
| `Plan.HashedPoolsAreDesired` | internal/agent/reconcile.go:374-389 | after a completed pass the learned names are the desired ones and the hashed pools are the desired pools |
| `Plan.WantsForIsGoal` | internal/agent/classifydiff.go:45-63 | the wants of one mask, as a map, are exactly that mask's part of the goal |
| `Plan.MaskReplaced` | internal/agent/reconcile.go:662-702 | deleting a mask's orphans and upserting its wants leaves exactly its goal, and the other masks alone |
| `Bindings.WalkFollowsChain` | internal/agent/reconcile.go:597-606 | following next-table from the head visits the linked tables in order and then ends |
| `Bindings.WalkVisitsFamilyOnce` | internal/agent/reconcile.go:584-607 | the walk meets every table of the family exactly once and no other table |
| `Bindings.NoMismatchIff` | internal/agent/reconcile.go:539-578 | the pass reports no binding change iff every configured interface already is on both heads |
| `Bindings.MismatchesCount` | internal/agent/reconcile.go:539-578 | the count is the number of configured positions whose interface is off a head |
| `Bindings.LinksKept` | internal/agent/reconcile.go:584-607 | linking a family keeps: a family's only table ends its chain |
| `Bindings.LoneIsChain` | internal/agent/reconcile.go:594-596 | so a lone table is a chain, as the code trusts |
| `Bindings.FamilyHead` | internal/agent/reconcile.go:584-607 | returns the lowest table; the family ends up chained iff it does not consist of one table, or that one already ended its chain, and always in a VPP whose tables only the agent created and linked |
| `Bindings.LinkAll` | internal/agent/reconcile.go:598-605 | links ascending tables into one chain and touches no other link |
| `Bindings.SortedFamily` | internal/agent/reconcile.go:585-597 | collects exactly the tables of a family in ascending order |
| `Bindings.BindInterface` | internal/agent/reconcile.go:541-573 | each family of an interface ends on its head (or detached), other interfaces untouched |
| `Bindings.BindAll` | internal/agent/reconcile.go:539-578 | every configured interface ends on both heads, counting exactly those that needed a change |
| `Bindings.BothHeads` | internal/agent/reconcile.go:512-523 | both families chained, each head the lowest table of its family |
| `Bindings.ReconcileBindings` | internal/agent/reconcile.go:508-579 | a completed binding pass chains both families, leaves every configured interface on both heads and counts those that were not, none iff all were |
| `Guard.FlagsAreHistory` | internal/agent/reconcile.go:287-294 | the two flags say: the last completed pass was non-empty; the last pass was deferred |
| `Guard.EmptyTeardownNeedsTwo` | internal/agent/reconcile.go:287-294 | in every run an empty pass that reaches VPP after a non-empty completed pass comes right after a deferred empty one |
| `Guard.NeverDefersTwice` | internal/agent/reconcile.go:288-294 | no two passes in a row are deferred |
| `Guard.DeferredIff` | internal/agent/reconcile.go:287-294 | over every run a pass is held back iff it is empty, the last completed pass was not, and the pass before it was not held back |
| `Reconcile.Reconciler.Reconcile` | internal/agent/reconcile.go:282-366 | from any VPP contents and any known indexes: a deferred pass changes neither VPP nor the applied generation; a completed one reports exactly what it changed (nothing iff policers, sessions and bindings were in place), publishes the indexes and anchors the counts, and has converged iff each desired policer VPP held under an unknown index has no installed session naming it or the first one hits it, always when every managed policer was known; then the policers off their rate or burst carry out their specs, all others are as they were, and the desired configurations run iff those already ran on them; right indexes stay right on every exit if each desired policer to be relearned is in VPP at the index its first installed session hits |
| `Reconcile.Reconciler.RunPass` | internal/agent/reconcile.go:296-349 | policers, sessions, bindings, then the authoritative count, stopping at the first failure; convergence iff the indexes were usable, interfaces on the heads of chained families, exact reports |
| `Reconcile.Reconciler.Program` | internal/agent/reconcile.go:309-325 | from any VPP contents and any known indexes: exactly the desired managed policers, on their whole desired configuration iff those left alone already were, and on every mask exactly the desired sessions on the known indexes, which are their policers' live ones iff the indexes were usable; right indexes stay right on every exit if relearning keeps them so, and on the exit after a failed policer dump only then |
| `Reconcile.Reconciler.ReconcilePolicers` | internal/agent/reconcile.go:737-815 | exactly the desired managed policers remain, with exact counts; indexes right, policers off their rate or burst or at an unknown index made to carry out their specs and all others untouched iff the indexes it started from were usable; right indexes stay right on every exit |
| `Reconcile.TracksAfterPassIff` | internal/agent/reconcile.go:757-813 | after the policer phase the known indexes are right iff they were right for the desired policers VPP had and named no other absent one |
| `Reconcile.PassesAgree` | internal/agent/reconcile.go:282-366 | over any number of completed passes on one desired state all converge iff the first does: a wrongly relearned index is never corrected |
| `Reconcile.KnownIsRight` | internal/agent/reconcile.go:457-500 | where every managed policer of VPP is known, relearning cannot mislead a pass |
| `Reconcile.Reconciler.DeleteOrphans` | internal/agent/reconcile.go:759-769 | removes the orphans from VPP and from the index map together |
| `Reconcile.Reconciler.UpsertPolicer` | internal/agent/reconcile.go:772-813 | settles one desired policer: add, re-create for an unknown index, rewrite when drifted, or keep; with a wrong index only indexes and names are sure |
| `Reconcile.Reconciler.ReconcileClassify` | internal/agent/reconcile.go:649-731 | the installed sessions become exactly the goal, emptied masks included, with exact added/deleted/moved counts |
| `Reconcile.Reconciler.ReconcileMask` | internal/agent/reconcile.go:662-702 | one mask becomes exactly its goal |
| `Reconcile.Reconciler.PruneTable` | internal/agent/reconcile.go:714-726 | a mask no longer desired is emptied |
| `Reconcile.Reconciler.BuildSessionWants` | internal/agent/classifydiff.go:45-63 | groups the wants by mask with their hit targets, or fails on an unknown policer or an unusable prefix |
| `Reconcile.Reconciler.EnsureTable` | internal/agent/classifydiff.go:66-77 | returns the mask's table, creating and recording it when absent |
| `Reconcile.Reconciler.ApplySessionUpserts` | internal/agent/classifydiff.go:85-102 | adds missing and moves misdirected sessions, nothing else, with exact counts, also when it stops half way |
| `Reconcile.Reconciler.RelearnPolicerIndexes` | internal/agent/reconcile.go:457-500 | fills missing indexes from installed sessions without touching VPP |
| `Reconcile.Reconciler.CountProgrammed` | internal/agent/reconcile.go:423-445 | counts the managed policers and the sessions of every mask table |
| `Reconcile.Reconciler.RecomputePoolHash` | internal/agent/reconcile.go:374-389 | collects each pool with a learned policer once |
| `DeltaPlan.FastPathRefinesIff` | internal/agent/delta.go:42-101 | from a VPP in sync with the held state, whole policer configurations included, a delta VPP took in full leaves VPP in sync with the merged state iff no upserted pool drops a policer and no upsert claims a member of a pool upserted later |
| `DeltaPlan.PolicersRefineIff` | internal/agent/delta.go:134-180 | the policer half, whole configurations included: in sync iff no upserted, not removed pool drops a policer |
| `DeltaPlan.SessionsRefineIff` | internal/agent/delta.go:221-294 | the session half: the goal of the merged state iff no upsert claims a member too early |
| `DeltaPlan.ClaimLosesMember` | internal/agent/delta.go:241-258 | a member claimed by an upsert listed before its old pool's upsert ends up uninstalled |
| `DeltaPlan.SyncedInPlaceIff` | internal/agent/reconcile.go:649-815 | a VPP in sync leaves a full pass nothing to do iff every policer reads back as sent |
| `DeltaPlan.SyncedRunsOn` | internal/vpp/policer.go:27-61 | in a VPP in sync every desired policer carries out its spec, field by field |
| `DeltaPlan.AppliedRunsOn` | internal/agent/delta.go:134-155 | after a delta VPP took in full every listed policer carries out its spec, the last entry of its name |
| `DeltaPlan.DeltaConserves` | internal/agent/delta.go:62-95 | sessions added less sessions deleted is the growth of the session table |
| `DeltaPath.ApplyDelta` | internal/agent/delta.go:42-101 | on every exit: indexes live, counts off by the same constant and the same managed policers unknown as before, and from a linked state no installed session without a policer; anchored counts stay VPP's own; on success exactly the planned effect, every listed policer carrying out its spec, exact `Result` counters and the new generation; with a VPP that refuses only the impossible and knows nothing unknown it succeeds iff every call it makes can be done (`Fits`) |
| `DeltaPath.ApplyPools` | internal/agent/delta.go:62-95 | removals, then upserts, in order, with the same effect, counters and success condition |
| `DeltaPath.AdoptDeltaBaseline` | internal/agent/delta.go:117-125 | publishes the current indexes and pools and moves the applied generation |
| `DeltaPath.UpsertPoolPolicers` | internal/agent/delta.go:134-155 | adds unknown and rewrites known policers exactly as listed, counting both, also for the part done before a failure; an obliging VPP with room takes exactly the acceptable ones |
| `DeltaPath.DeletePoolPolicers` | internal/agent/delta.go:160-180 | deletes learned policers of one pool only, from VPP and the index map together, with their count; all of them on success, which an obliging VPP always grants |
| `DeltaPath.DeletePoolSessions` | internal/agent/delta.go:186-213 | removes exactly the recorded members dealt with and counts those removed; with an obliging VPP it completes iff every member still has its session or has lost its table |
| `DeltaPath.DropUnlisted` | internal/agent/delta.go:241-258 | removes exactly the recorded members that the upsert no longer lists, with their count; with an obliging VPP it completes iff all members have keys and the unlisted ones their sessions |
| `DeltaPath.UpsertPoolSessions` | internal/agent/delta.go:221-294 | leaves the listed members on their policers' indexes and the unlisted ones gone, touching no other session, with exact added, deleted and moved counts; with an obliging VPP it completes iff the listed ones resolve and the unlisted ones can be deleted |
| `DeltaPath.LookupWants` | internal/agent/delta.go:270-283 | point lookups answer for every wanted session as VPP holds it |
| `DeltaPath.RemovePool` | internal/agent/delta.go:62-73 | sessions before policers, so from a linked state no installed session is left hitting a removed policer; both counted |
| `DeltaPath.RemovePools` | internal/agent/delta.go:62-73 | pool by pool, with counts; an obliging VPP lets all go iff each removal finds its sessions after the earlier ones |
| `DeltaPath.UpsertPools` | internal/agent/delta.go:80-95 | upsert by upsert, exactly the planned effect and counts; a willing VPP takes all iff each fits after the earlier ones |
| `DeltaPath.SyncedIsLinked` | internal/agent/delta.go:62-95 | a synced VPP is linked: every session is a recorded one on its policer's index |
| `DeltaFits.FitsIff` | internal/agent/delta.go:62-95 | from a VPP in sync everything a delta asks for can be done iff no pool with members is removed twice, no pool both removed and upserted drops a member that no earlier upsert listed, and the upserts list only policers VPP takes and sessions with a key |
| `DeltaFits.RemovalsFitIff` | internal/agent/delta.go:62-73 | the removals can be done iff no pool with recorded members is listed twice |
| `DeltaFits.UpsertsFitIff` | internal/agent/delta.go:80-95 | the upserts can be done iff what a removed pool drops was listed before and everything listed is presentable |
| `Sequencer.DeliveredPrefixIsMerged` | internal/agent/deltaseq.go:62-107 | whatever part of a linear chain arrives, in whatever order, with repeats, exactly its longest complete prefix is merged in order and exactly the rest is buffered |
| `Sequencer.AnyOrderIsInOrder` | internal/agent/deltaseq.go:62-107 | a complete delivery in any order ends as in-order delivery would: all merged once, buffer empty, held state the in-order fold, generation the last |
| `Sequencer.MergedInFullIffFits` | internal/agent/deltaseq.go:62-107 | when each delta arrives exactly once, the chain is merged in full iff no submission finds the buffer full |
| `Sequencer.SubmitKeepsInv` | internal/agent/deltaseq.go:62-93 | one submission keeps: merged prefix, fold, applied generation, buffered remainder |
| `Sequencer.DrainReachesGap` | internal/agent/deltaseq.go:96-107 | draining merges up to the first delta not yet received |
| `Sequencer.StuckSubmit` | internal/agent/deltaseq.go:75-84 | once a delta was lost to a full buffer no later submission of others gets the chain past it |
| `Sequencer.FullBufferIsLost` | internal/agent/deltaseq.go:79-84 | a delta that finds the buffer full is lost with everything buffered |
| `Sequencer.BufferIsBounded` | internal/agent/deltaseq.go:62-93 | the buffer never holds more than its limit |
| `Sequencer.MovesOnlyOnBase` | internal/agent/deltaseq.go:62-93 | over any submissions the chain moves only when a delta based where it stands is submitted |
| `Sequencer.MergedAfterJumpIff` | internal/agent/deltaseq.go:64-107 | when a full pass lands inside the chain and every delta not yet received then arrives, the rest is merged in full iff the delta based at the landing point was not already waiting; buffered deltas beyond it are used, those before it evicted |
| `Agent.DeltaSequencer.Submit` | internal/agent/deltaseq.go:62-93 | the running sequencer is the protocol step, whatever VPP answers, and keeps indexes live and counts exact |
| `Agent.DeltaSequencer.SubmitAll` | internal/agent/deltaseq.go:62-107 | a chain submitted in any order leaves the running agent where the protocol says, and merged in full, in order, once all of it arrived without overflow, whatever VPP answers |
| `Agent.DeltaSequencer.Drain` | internal/agent/deltaseq.go:96-107 | the loop is the protocol's drain |
| `Agent.DeltaSequencer.EvictPassed` | internal/agent/deltaseq.go:66-70 | drops exactly the buffered deltas whose base the chain has passed |
| `Agent.Lockstep.ApplyOneDelta` | cmd/edge-agent/main.go:297-321 | merge, apply, advance anyway: the chain moves iff a base state is held; BIRD is woken only for a delta VPP took in full, which from sync a VPP refusing only the impossible does iff the delta is doable; sync, whole configurations included, is then kept iff the two delta conditions hold |
| `Agent.Lockstep.ProgramDelta` | cmd/edge-agent/main.go:304-318 | VPP's share: applied iff doable from a carried state, and the baseline moves whether or not it was applied |
| `Agent.Lockstep.RunOnce` | internal/agent/reconcile.go:876-905 | without a held state nothing is touched; where no managed policer is unknown a completed pass over the held state heals, and restores sync iff the policers it left alone already ran on the held configuration |
| `Agent.DeltaSequencer.SubmitThenReconcile` | cmd/edge-agent/main.go:304-318 | after any deltas in any order, whatever VPP refused of them, a completed pass over the held state heals: names, indexes and sessions are exactly the held ones, and sync is back iff the policers left alone were right |
| `Agent.SecondPassQuietIff` | internal/agent/reconcile.go:737-821 | a second pass changes no policer or session iff every policer the first pass had to write reads back as sent |
| `Agent.KbpsIsAllSteady` | internal/vpp/policer.go:45-48 | with kbps policers only, every policer reads back as sent |
| `Agent.PassSyncsIff` | internal/agent/reconcile.go:649-821 | a completed pass leaves VPP in sync, whole configurations included, iff every policer it left alone already ran on the desired configuration |
| `Agent.DeltasKeepSync` | internal/agent/delta.go:42-101 | through any run of clean deltas that VPP takes in full, VPP carries exactly the merged held state |
| `Agent.PassAfterDeltaQuietIff` | internal/agent/delta.go:42-101 | after a clean delta from a synced VPP a full pass adds, updates, moves and deletes nothing iff every policer of the merged state reads back as sent |
| `Codec.Frame` | internal/birdfeed/encode.go:58-66 | fills version, opcode, zero flags, big-endian length of the whole frame, body |
| `Codec.FrameAnchor` | internal/birdfeed/encode.go:86-101 | an anchor frame is the encoding of its add or delete |
| `Codec.FrameFlow` | internal/birdfeed/encode.go:151-166 | a flow frame is the encoding of its add or delete |
| `Codec.AnchorAttrBytes` | internal/birdfeed/encode.go:110-144 | the loops yield the community TLVs, cut to 63 and 21 entries |
| `Codec.RedirectIP4` | internal/redirectec/redirectec.go:24-30 | the 8-octet redirect community of an IPv4 target |
| `Codec.RedirectI6` | internal/redirectec/redirectec.go:37-43 | the 20-octet redirect community of an IPv6 target, in the form of RFC 5701 section 2 |
| `Codec.StreamRoundTrip` | internal/birdfeed/encode.go:58-166 | decoding any concatenation of frames returns every operation in order with prefix, attributes and redirect target, community lists cut to their caps |
| `Codec.CutStreamIsPrefix` | internal/birdfeed/encode.go:58-66 | however the byte stream is cut, the receiver has seen exactly a prefix of the operations |
| `Codec.CutIsHandOver` | internal/birdfeed/encode.go:58-66 | cutting the stream is handing over the whole operations before the cut; the rest can be sent and cut again as a stream of its own from the first one that was not whole |
| `Codec.AnchorRoundTrip` | internal/birdfeed/encode.go:110-144 | BIRD reads back the blackhole marker and both community lists (12-octet values as in RFC 8092 section 3) up to the caps |
| `Codec.RedirectRoundTrip` | internal/redirectec/redirectec.go:19-43 | BIRD reads back the redirect target, of either family |
| `Codec.LosslessIff` | internal/birdfeed/encode.go:110-144 | an announcement is read back unchanged iff its lists fit 63 and 21 entries |
| `Codec.SignatureIffSameAttrs` | internal/birdfeed/encode.go:103-110 | two anchors have the same diff signature iff BIRD would see the same communities |
| `Codec.OnTheWire` | internal/birdfeed/encode.go:28-166 | every frame octet by octet: version 1, opcodes 1 to 4, net types 1, 2, 7 and 8, network-order length, blackhole marker, redirect community of 8 or 20 octets |
| `Codec.AttrOctets` | internal/birdfeed/encode.go:43-144 | an anchor's attributes are a TLV of type 4 with at most 63 communities and one of type 5 with at most 21 large ones, each only if there are any |
| `Codec.CommunityOctets` | internal/birdfeed/encode.go:122-124 | each community is its two halves in network order, at its place |
| `Codec.LargeOctets` | internal/birdfeed/encode.go:136-141 | each large community is its three words in network order, at its place |
| `Codec.AttrBytes` | internal/birdfeed/encode.go:106-107 | attribute bytes stay within two TLVs of at most 252 value octets |
| `Feed.FullScriptYields` | internal/birdfeed/feed.go:283-306 | HELLO, every route in any order, EOR gives BIRD exactly those routes, whatever it held |
| `Feed.DiffScriptYields` | internal/birdfeed/feed.go:310-340 | any sequence of updates covering the differences takes BIRD from the snapshot to exactly desired |
| `Feed.DiffIsResync` | internal/birdfeed/feed.go:283-340 | the incremental diff leaves exactly the routes and attributes a full resync would |
| `Feed.DiffMustCover` | internal/birdfeed/feed.go:310-340 | updates that miss a difference never reach desired |
| `Feed.NextHopNeedsResyncIff` | internal/birdfeed/feed.go:256-260 | the diff alone is enough iff no flow that stays changes its redirect community |
| `Feed.ImageAnnounces` | internal/birdfeed/feed.go:187-232 | the desired image read by the decoder: a unicast route for exactly the anchors, with the blackhole marker and the capped communities of the last one of its prefix; a flow route for exactly the flow sources, redirecting to the target of the source's family |
| `Feed.RedirectableIff` | internal/birdfeed/feed.go:205-224 | the guard that lets a pass write holds iff every flow has a redirect target of its source's family |
| `Feed.ScriptSettles` | internal/birdfeed/feed.go:283-340 | updates in any order and with repeats settle the routes they name and leave the others |
| `Feed.Feed.Apply` | internal/birdfeed/feed.go:174-281 | a successful pass commits desired, and on a live connection BIRD's table then announces it (`Announces`); a failed one keeps the snapshot and forces a resync; a flow without a next hop of its family writes nothing, any other failure closes the connection; frames are a full or a diff script whatever the pacing, and for valid prefixes can all be framed |
| `Feed.RepertoireIsSendable` | internal/birdfeed/feed.go:283-340 | every frame a pass between snapshots with valid prefixes writes, also one that fails, can be framed and read back |
| `Feed.ValidIsSendable` | internal/birdfeed/feed.go:187-203 | a desired state with valid prefixes asks for nothing that cannot be framed |
| `Feed.Feed.FullResync` | internal/birdfeed/feed.go:287-306 | writes a full script of the desired image |
| `Feed.Feed.Incremental` | internal/birdfeed/feed.go:310-340 | writes a diff script from the snapshot to the desired image |
| `Feed.Feed.PacedWrite` | internal/birdfeed/feed.go:238-254 | one frame, a flush every `maxOps` frames: never more than `maxOps` between flushes |
| `Feed.Feed.Stream` | internal/birdfeed/feed.go:256-276 | after a clean flush a live connection carries exactly the desired image; after a failure the connection is closed and a resync is pending |
| `Feed.Feed.Pass` | internal/birdfeed/feed.go:144-165 | skips without a state, counts consecutive failures, resets on success |
| `Feed.Feed.Run` | internal/birdfeed/feed.go:126-142 | over any run, with BIRD dying and returning anywhere: no failure outstanding and a live connection imply BIRD's table is exactly the last desired image and, decoded, announces exactly the last desired state; with valid prefixes every frame ever written can be framed |
| `Feed.Client.Connect` | internal/birdfeed/client.go:46-60 | a new connection starts with an empty buffer and an arbitrary BIRD table |
| `Feed.Client.Environment` | internal/birdfeed/client.go:69-87 | BIRD reads, dies, and the watcher notices; on a connection that stays live what BIRD will end up with does not change |
| `Feed.Client.Spill` | internal/birdfeed/client.go:91-113 | any number of buffered bytes reaches the kernel: the frames whole among them are on the wire and are what BIRD can decode of those bytes |
| `Feed.Client.Write` | internal/birdfeed/client.go:91-100 | one more frame is on its way, or the connection is gone |
| `Feed.Client.Flush` | internal/birdfeed/client.go:102-113 | success leaves nothing in the agent's buffer; failure closes the connection |
| `Feed.WantFlows` | internal/birdfeed/feed.go:194-203 | the set of flow sources and which families occur |
| `Feed.WantAnchors` | internal/birdfeed/feed.go:190-193 | each prefix with the attribute bytes of its last anchor |
| `Chunks.HandedIsWhole` | internal/grpcclient/client.go:296-346 | in every run what is handed on is fragments 0..n of one epoch received on the current stream, ending with the fragment just received |
| `Chunks.NewerEpochSupersedes` | internal/grpcclient/client.go:296-346 | an in-order snapshot of a newer epoch replaces an unfinished one and is handed on in full, whatever older stragglers come in between |
| `Chunks.OlderEpochAfterNewer` | internal/grpcclient/client.go:336-337 | a complete older snapshot is handed on after a newer one was completed |
| `Chunks.DroppedIff` | internal/grpcclient/client.go:296-346 | over every run a fragment leaves no trace iff a newer snapshot is unfinished, or it is a last but not first fragment with nothing unfinished, or it repeats the latest one of its number |
| `Chunks.HandedIff` | internal/grpcclient/client.go:312-345 | over every run a fragment completes a snapshot iff it is a last one, no newer snapshot is unfinished and every earlier number is there; the latest of each are handed on |
| `Chunks.PartialIs` | internal/grpcclient/client.go:299-313 | the unfinished snapshot consists of the fragments received since the last one that ended a snapshot |
| `Chunks.RunHoldsPartial` | internal/grpcclient/client.go:299-313 | the assembler holds the newest epoch of the unfinished snapshot and the latest fragment of each number |
| `Chunks.ChunkClient.AcceptChunk` | internal/grpcclient/client.go:296-346 | the assembler takes the specified step and hands on the assembled state iff it is complete and its schema is known |
| `Chunks.ChunkClient.Gather` | internal/grpcclient/client.go:323-334 | collects fragments 0..last in order, or nothing when one is missing |
| `Chunks.ChunkClient.Subscribe` | internal/grpcclient/client.go:214-229 | a fresh stream abandons the partial of the old one |
| `Traffic.PolicedIff` | internal/vpp/classify.go:46-137 | in a VPP in sync a frame is handed to a policer on a mask's table iff a desired session of that mask covers it, and then to the live policer that session names, which carries out its spec |
| `Traffic.WalkReachesSession` | internal/agent/reconcile.go:508-607 | from every configured interface the walk for packets of a session's family comes to that session's table |
| `Traffic.CoveredIsPoliced` | internal/agent/reconcile.go:282-366 | a frame a desired session covers, arriving on any configured interface, comes to a table where it is handed to the live policer the session names, running on the whole desired configuration |
| `Witnesses.DroppedPolicerStays` | internal/agent/delta.go:134-155 | a literal delta whose upsert drops a policer: in sync before, not after |
| `Witnesses.RemovedMemberIsMissed` | internal/agent/delta.go:186-213 | two literal deltas, a pool removed twice and a removed pool upserted without its member, that a VPP in sync refusing only the impossible cannot take |
| `Witnesses.JumpStrandsDelta` | internal/agent/deltaseq.go:64-107 | a delta that waits for its predecessor when a full pass lands on its base is never merged, nor is any later one |
| `Witnesses.LaxPolicerStays` | internal/agent/reconcile.go:819-821 | a live policer that transmits excess traffic where desired says drop: a completed pass converges, reports nothing and leaves it so |
| `Witnesses.EarlyClaimLosesMember` | internal/agent/delta.go:241-258 | a literal delta that claims a member before its old pool is upserted: the member ends up uninstalled |
| `Witnesses.PpsDrifts` | internal/agent/reconcile.go:819-821 | a pps policer of 1000 packets a second reads back as drifted right after it was written |
| `Witnesses.PpsIsNeverQuiet` | internal/agent/reconcile.go:806-812 | two literal passes over it: the second one rewrites it again |
| `Witnesses.ClaimUnsettlesIndexes` | internal/agent/reconcile.go:485-498 | a new pool claims an installed member: relearning makes right indexes wrong, which a failing dump leaves behind and a completed pass repairs |
| `Witnesses.MoveDuringRestartMisleads` | internal/agent/reconcile.go:485-498 | a member moved during an agent restart between two policers VPP has: the relearned index is not usable, so a completed pass does not converge |
| `Witnesses.LeftoverLinkIsNoChain` | internal/agent/reconcile.go:594-596 | a lone table with a leftover link is no chain |
| `Witnesses.JoinMeetsHypotheses` | internal/agent/delta.go:42-101 | a literal delta, VPP and pass that meet every hypothesis of the delta-then-full-pass theorem |
| `Sensors.BrokenIff` | internal/agent/probe.go:99-149 | broken iff a reachable round was followed by at least k zero-reach, idle, error-free rounds with neither a reachable round nor a VPP restart since |
| `Sensors.ProbeIsHistory` | internal/agent/probe.go:99-149 | every field of the probe is a function of its rounds |
| `Sensors.ForwardingProbe.DoRound` | internal/agent/probe.go:99-149 | one round is the specified step |
| `Sensors.DeadIff` | internal/agent/vpp_liveness.go:119-173 | dead iff some check saw the socket gone, or an idle stall past the grace, and no later check saw the heartbeat advance |
| `Sensors.DeadClearsOnlyOnAdvance` | internal/agent/vpp_liveness.go:128-140 | the verdict clears only on the first or a changed heartbeat |
| `Sensors.StallIsDeclared` | internal/agent/vpp_liveness.go:153-169 | a stall still present at an idle check past the grace is declared, however long the edge was busy |
| `Sensors.AnnouncementsAlternate` | internal/agent/vpp_liveness.go:175-187 | announced transitions alternate, starting with a death, and end at the verdict |
| `Sensors.RebuildsAreSpaced` | internal/agent/vpp_liveness.go:164-167 | reader rebuilds are at least the configured interval apart |
| `Sensors.RebuildIff` | internal/agent/vpp_liveness.go:153-169 | the reader is rebuilt at exactly the idle, stalled checks past the grace at which rebuilding is on and the last rebuild lies the interval back |
| `Sensors.RebuildsInTime` | internal/agent/vpp_liveness.go:156-167 | at a stalled check the reader is never older than the interval |
| `Sensors.RebuiltWhileStalled` | internal/agent/vpp_liveness.go:156-167 | every rebuild is at a stalled check |
| `Sensors.VppLiveness.DoCheck` | internal/agent/vpp_liveness.go:119-173 | one check is the specified step |

## Left out

- Policer fields that no spec has a say in (excess rate and burst, rounding, policer type) and the violate action,
  which repeats the exceed action.
- Worker binding after `policer_add` (internal/vpp/policer.go:117-123): a failing add changes nothing here.
- `ParsePolicerName`, `PoolSetHash`, `AssembleChunks`, `Validate` and the mask names are defined outside this
  repository; they are parameters (`Plan.Parse`, the collected pool ids, `ChunkClient.assemble`, any add or
  update may fail, a naming function).
- A VPP restart between two deltas before `Reset` is called: restart and `Reset` are one step.
- Full passes are not claimed to avoid a session hitting a removed policer while they run, only when they
  complete: `reconcilePolicers` deletes orphan policers before their sessions are moved.
- Interface bindings are not touched by the fast path, so `DeltaPlan.Synced` says nothing about them.
- The `Result` counters of a delta that fails half way; `ApplyDelta` states those of one applied in full.
- `DesiredStore.lastTouch` and `Status`, the reporter, phases, health, metering and metrics.
- Locks and goroutines: the reconcile goroutine's calls are sequential as in the source; the feed's watcher
  and BIRD move between any two client calls.
- Timers, sleeps, reconnect backoff and retry wake-ups; they decide when a pass runs, not what it does.
- `VppLiveness.check` reads the clock up to three times per check; the model reads it once.
- Sizing of classify tables and the heap (internal/agent/classifysizing.go), easy clamps.
- The legacy file renderers (internal/anchors, internal/flowspec, internal/bird) and binary-API bindings.
- IPv6 zones in addresses, and 32-bit exhaustion of policer and table indexes.
