# Redundancy merge, transfers and agent protocols of mxl-k8s, in Dafny

This project models the parts of mxl-k8s whose correctness rests on an argument over whole
runs, and proves that argument. `dafny verify dfyconfig.toml` checks all of it.

**The redundancy merge.** The gateway serves a flow whose slots are views over the rings of
several member flows. A policy decides which member each slot shows and how far the output
may be published; members go on writing one ring period ahead into the very slots readers
still trust.
- `DiscretePolicy`, `AudioPolicy`: the policies' operations as functions of their state.
- `DiscreteMerge`, `AudioMerge`: the objects the gateway keeps, with `current` as an array and
  every loop of the code, proved to do exactly what those functions say; and the engine's
  output (`apply`, `publish`).
- `DiscreteSafety`, `AudioSafety`: machines in which members write, rings are replaced and
  the engine passes, and what every state of every run shows its readers.
- `DiscreteOvertaken`, `AudioOvertaken`: for each, a run that a ring's replacement ends badly.
- `AudioShrinking`: a run whose last pass shows what a member has already overwritten.
- `DiscreteDecisions`, `AudioDecisions`: how Step's turns and Retire's decide, and over every
  run when the primary changes.
- `DiscreteChoices`, `AudioChoices`: what each call comes to, in terms of the members and the
  state alone: whom Step shows and when it waits, how far Retire takes members to write, where
  Drop moves a slot, and which selects they order.
- `Ring`: the modular arithmetic of ring slots.

**Stalls** (`Progress`): the hysteresis of each member's stalled state and its flap bound.

**Transfers** (`SampleTransfer`, `GrainTransfer`): the loops of a mirror's source, against a
reader and a fabric that answer anything.

**Agent and placement protocols**: the burst limit and its retry queue (`BurstLimiter`), Want
against Release (`Redundancy`), location updates of many agents (`Locations`), and the
ref-counted ring holds with their two locks (`RingHolds`).

**Names** (`Names`): the printers and parsers of flow and Lease names.

Times are integers of nanoseconds (unless a lemma names none), indices and sample numbers are
unbounded naturals, and a member ring is a sequence of slots. Source `members` is the
placeholder, or silence, as the engine sets it up.

## What the members are relied on for

`DiscreteSafety`: between two passes a member writes nothing above the index `next(m)` its
last Retire computed. The machine does not take a pass as one step: writes go on between
Step, Retire and each select. From when a pass reads the heads to its end a member writes at
most the grain after the head read; `serves` leaves exactly that one grain of room. When a
ring is replaced, this begins with Drop's reading of the heads if, and only if, Drop leaves a
slot to a member that may overwrite it under `next(m)`. Of the new ring nothing is relied on
until the pass that first reads it: it may hold anything and be written to any index. A
member's head may move either way. `PublishedTrue` holds after every single select and
publish.

`AudioSafety`: between passes a member writes nothing past `max(evHead, due) + Ahead + batch`
as the last Retire computed it, or past where it already is when that is farther; commits are
reported in ascending order, are not empty, and are of samples written. A replaced ring may be
written to any limit. A pass is a step wherever the members' writes have got to.

## Where the code does less than it says

Each of these has a run or an input that shows it, and the exact condition.

- `Drop` picks a slot's or a page's new member without asking, as Retire does, what that
  member may overwrite. Until the next pass a trusted sample can be shown from a ring that
  already holds the next period's (`AudioOvertaken.DropShowsOverwritten`), and a trusted grain
  be overwritten within `next(m)` (`DiscreteOvertaken.DropLeavesOverwritten`), each at the end
  of a run. They stay intact exactly when each new member spares what it is given
  (`AudioSafety.DropIntact`, `DiscreteSafety.DropIntact`), and the run theorems take exactly
  that condition.
- Audio Retire looks at how far members may write from now on, and takes a member's next batch
  to be as long as its last. A member that wrote as far as a long batch allowed and then
  committed a short one is past the bound of the next pass, which can publish samples it has
  already overwritten (`AudioShrinking.PassShowsOverwritten`). What a pass shows is intact
  exactly when no member has written over a page it shows (`AudioSafety.PassIntact`), and it
  is whenever the bounds of the pass are not below the limits of the one before
  (`AudioSafety.PassSettles`).
- The grain loop, after a resync to the head, sends the first batch of the head's grain but
  leaves `lastSent` behind, so the next batch goes to another grain from the middle
  (`GrainTransfer.SplitResyncMixesGrains`, for every batch size). Every run sends whole grains
  exactly when grains are not sent in batches (`GrainTransfer.WholeExactly`), and every single
  turn keeps its place exactly when it is not such a split (`GrainTransfer.TurnLinks`).
- The sample loop posts past the head when `maxReadable` is under two batches
  (`SampleTransfer.PastHead`); it never does exactly when `maxReadable` is 0, one batch, or two
  and more (`SampleTransfer.NeverPastHead`).
- Release reads the clock before it takes the lock, so it can write an older time over a use
  a Want has just recorded, and the node can leave before that use's grace has passed
  (`Redundancy.GraceCutShort`). Runs without that keep the whole grace (`Redundancy.GraceKept`
  with no slack), and wherever it happens to a Want in its grace the grace can be cut short
  (`Redundancy.BackdatingCutsShort`).
- `ParseLeaseNameFor` is documented as unambiguous. It inverts `LeaseNameFor` except where a
  primary-domain node name itself holds ".&lt;id&gt;-&lt;node&gt;" or a domain ".&lt;id&gt;-"
  (`Names.LeaseNameForRoundTrip`), and there the lease does share its name with another, the
  one its name parses to (`Names.SharesName`), unless the name begins with an empty domain's
  dot. `ParseFlowName` likewise (`Names.FlowNameRoundTrip`).

## Model

| member | source | states |
|---|---|---|
| DiscretePolicy.FirstServing | gateway/internal/merge/policy.go:84-125 | the least member other than the one skipped that holds the index complete, and -1 exactly when none does |
| DiscretePolicy.Heir | gateway/internal/merge/policy.go:199-208 | the least other member that holds the index and will not overwrite it before the next pass, or the placeholder when none is |
| DiscretePolicy.DropExact | gateway/internal/merge/policy.go:218-239 | Drop leaves no slot on the member, moves each to the first other member that holds the index the slot has below the head, or to the placeholder, and touches no other slot |
| DiscretePolicy.ToleranceFor | gateway/internal/merge/policy.go:58-65 | half the skew, and no less than 2ms |
| DiscreteMerge.Discrete.constructor | gateway/internal/merge/policy.go:74-82 | every slot starts on the placeholder, with no primary and nothing published |
| DiscreteMerge.Discrete.Candidates | gateway/internal/merge/policy.go:115-125 | the loop finds the primary if it serves, and the first other member that does |
| DiscreteMerge.Discrete.Decide | gateway/internal/merge/policy.go:113-150 | one turn of Step in place is the specified decision and changes nothing else |
| DiscreteMerge.Discrete.Step | gateway/internal/merge/policy.go:99-158 | Step in place yields the specified state, selects, head and wait |
| DiscreteMerge.Discrete.ObserveHeads | gateway/internal/merge/policy.go:177-185 | each member's head and its lateness when it last moved are recorded |
| DiscreteMerge.Discrete.Retire | gateway/internal/merge/policy.go:177-213 | Retire in place yields the specified state and selects |
| DiscreteMerge.Discrete.Drop | gateway/internal/merge/policy.go:218-239 | Drop in place yields the specified state and selects |
| DiscreteMerge.Output.Apply | gateway/internal/merge/engine.go:937-952 | the views become the replay of the selects, and the head the one published before the last select that needed it |
| DiscreteSafety.ReplayConcat | gateway/internal/merge/engine.go:892-902 | replaying Step's selects and then Retire's is replaying their concatenation, for the view and the published head |
| DiscreteSafety.StepSafe | gateway/internal/merge/policy.go:95-158 | replaying Step's selects turns the old Current into the new, and every select and publish on the way leaves each trusted index held, even when the head jumps by more than a ring |
| DiscreteSafety.RetireSafe | gateway/internal/merge/policy.go:160-213 | the same of Retire's selects |
| DiscreteSafety.RetireSettles | gateway/internal/merge/policy.go:160-213 | after Retire no trusted index is shown from a member that may overwrite it before the next pass |
| DiscreteSafety.DropSafe | gateway/internal/merge/policy.go:215-239 | where each slot's new member may not overwrite its trusted index, replaying Drop's selects is safe at every select and publishes nothing |
| DiscreteSafety.DropIntact | gateway/internal/merge/policy.go:218-239 | Drop keeps the trusted indices held under the members' limits exactly when each slot's new member may not overwrite its own |
| DiscreteOvertaken.DropLeavesOverwritten | gateway/internal/merge/policy.go:228-233 | a run of four passes after which Drop leaves a trusted grain to a member that may write over it before the next |
| DiscreteSafety.NextInv | gateway/internal/merge/engine.go:863-931 | every step of the machine (a write, a ring taken, its swap for any ring written to any limit, Step, Retire, one apply, the publish) keeps the invariant |
| DiscreteSafety.PublishedTrue | gateway/internal/merge/engine.go:937-960 | in every state of every run each index readers trust under the head published at that moment is shown from the placeholder or from a member whose slot holds that very grain, complete; between passes the view is Current |
| DiscreteDecisions.StepEnds | gateway/internal/merge/policy.go:112-157 | Step ends at the lead, or where nobody holds the next index and the lag is within Skew, or where an alternative holds it while the primary is late and the wait is positive |
| DiscreteDecisions.StepWaitBounded | gateway/internal/merge/policy.go:129-141 | the wait never exceeds Tolerance under a monotone clock |
| DiscreteDecisions.StepChoices | gateway/internal/merge/policy.go:112-156 | every index Step publishes is shown from a member that serves it; from the placeholder exactly when nobody does, and then only with the lead Skew past it |
| DiscreteDecisions.StepUntouched | gateway/internal/merge/policy.go:151-155 | Step leaves alone every slot it does not come round to |
| DiscreteDecisions.PrimaryStep | gateway/internal/merge/policy.go:129-150 | one Step replaces the primary only at the index that waited, by a member that serves it, before the primary reached it, after Tolerance |
| DiscreteDecisions.PrimaryStable | gateway/internal/merge/policy.go:100-150 | in every run of Step, Retire and Drop calls the primary changes only in a Step, at an index another member serves, its own head has not reached, and that was first found waiting behind it at least Tolerance before |
| DiscreteDecisions.RetireExact | gateway/internal/merge/policy.go:196-211 | Retire moves exactly the trusted slots whose source may write the next period into them, each to its heir |
| DiscreteDecisions.RetireIdle | gateway/internal/merge/policy.go:160-170 | nothing moves while the output keeps up with what members may write |
| DiscreteChoices.StepServes | gateway/internal/merge/policy.go:27-38 | every index Step publishes is shown from the primary if that has it, otherwise from the least member that has it, otherwise from the placeholder; one the primary is late with while another has it is published only first, once it waited Tolerance, and replaces the primary |
| DiscreteChoices.StepStops | gateway/internal/merge/policy.go:95-158 | with the greatest head as the lead, Step starts just below it if nothing is published, ends in one of the three ways, and waits from when the index was first found waiting |
| DiscreteChoices.ServesTrusted | gateway/internal/merge/policy.go:84-93 | a member with every grain of its ring serves exactly what readers trust under its head |
| DiscreteChoices.StepSelects | gateway/internal/merge/policy.go:95-98 | Step's selects are in index order, each to its index's slot and each changing what that shows |
| DiscreteChoices.RetireClears | gateway/internal/merge/policy.go:160-213 | after Retire a trusted index is shown only from a member that writes neither its next grain nor what is due of it over that index; a slot already so is not moved, and any other goes to the least other member that has the index and is so, or to the placeholder |
| DiscreteChoices.RetireTouches | gateway/internal/merge/policy.go:192-196 | Retire moves no slot without a trusted index |
| DiscreteChoices.LateIsSeen | gateway/internal/merge/policy.go:171-185 | in every run a member's lateness is how far behind due its head was when a Retire last saw it moved |
| DiscreteChoices.DropFinds | gateway/internal/merge/policy.go:215-239 | a dropped slot goes to the least other member that has the index the slot shows below the head, or to the placeholder |
| DiscreteChoices.DropSelects | gateway/internal/merge/policy.go:219-236 | Drop selects the member's slots only, in order, each as the index it shows below the head |
| AudioPolicy.BestOther | gateway/internal/merge/policy.go:335-350 | the other member that holds the head's page farthest past the head, and -1 exactly when none holds it past |
| AudioPolicy.BestIsFirst | gateway/internal/merge/policy.go:347-349 | of the other members that hold the page as far, it is the first |
| AudioPolicy.TurnAdvances | gateway/internal/merge/policy.go:332-378 | every turn moves the head, and none past the lead, so Step ends |
| AudioPolicy.Heir | gateway/internal/merge/policy.go:447-457 | the least other member that holds the page whole and spares its first trusted sample, or silence |
| AudioPolicy.DropExact | gateway/internal/merge/policy.go:386-408 | Drop moves exactly the member's page slots, each to the first other member holding the page it shows below the head, or to silence |
| AudioMerge.Audio.constructor | gateway/internal/merge/policy.go:278-290 | every page starts on silence, with nothing committed |
| AudioMerge.Audio.Committed | gateway/internal/merge/policy.go:292-318 | a commit in place yields the specified state |
| AudioMerge.Audio.CommitRing | gateway/internal/merge/policy.go:300-311 | the page loop enters the commit page by page |
| AudioMerge.Audio.Candidates | gateway/internal/merge/policy.go:335-350 | the loop finds whether the primary holds the page past the head, and the best other member |
| AudioMerge.Audio.Decide | gateway/internal/merge/policy.go:333-373 | one turn of Step is the specified decision |
| AudioMerge.Audio.Step | gateway/internal/merge/policy.go:326-381 | Step in place yields the specified state, selects and wait |
| AudioMerge.Audio.Retire | gateway/internal/merge/policy.go:416-462 | Retire in place yields the specified state and selects |
| AudioMerge.Audio.Drop | gateway/internal/merge/policy.go:383-414 | Drop in place yields the specified state and selects, and forgets what the member committed |
| AudioSafety.UnbrokenIsGapless | gateway/internal/merge/policy.go:244-250 | an entry is unbroken exactly when the page's committed samples are a prefix of it, and then ends where they do |
| AudioSafety.UptoMeans | gateway/internal/merge/policy.go:338-344 | an entry holds a page past a sample exactly when that sample was committed, the page's commits have no gap, and no later page is in the slot |
| AudioSafety.WholeMeans | gateway/internal/merge/policy.go:396-403 | an entry holds a page whole exactly when all of it below the head was committed, without a gap, and no later page is in the slot |
| AudioSafety.CommitPageExact | gateway/internal/merge/policy.go:300-311 | one page's part of a commit keeps its slot's entry exact |
| AudioSafety.CommitExact | gateway/internal/merge/policy.go:292-318 | an ascending commit of any length, longer than the ring too, leaves every entry exactly what the committed samples say |
| AudioSafety.StepHas | gateway/internal/merge/policy.go:327-381 | after Step every trusted sample is shown from silence or from a member that committed it |
| AudioSafety.RetireHolds | gateway/internal/merge/policy.go:416-462 | after Retire every trusted sample is shown from a source that committed it and will not overwrite it before the next pass |
| AudioSafety.DropHas | gateway/internal/merge/policy.go:383-414 | after Drop every trusted sample is shown from silence or from a member that committed it |
| AudioSafety.NextInv | gateway/internal/merge/engine.go:903-926 | a member's write, a commit, a ring's replacement and any pass each keep the invariant; its not-overwritten half is kept by a replacement whenever each page's new member spares it, and set by a pass whenever no member has written over a page shown |
| AudioSafety.CoverageTrue | gateway/internal/merge/policy.go:244-250 | in every run each page entry is exactly what was committed since the ring was taken, and `to` never exceeds evHead |
| AudioSafety.ReportsTrue | gateway/internal/merge/policy.go:312-317 | in every run evHead is one past the greatest sample committed since the ring was taken, and batch the length of the last report, at most half the buffer |
| AudioSafety.TrustedSamplesTrue | gateway/internal/merge/policy.go:416-462 | in every state of every run each sample of [Head - min(Head, length/2), Head) is shown from silence or from a member that committed it since its ring was taken, and has not overwritten it unless the last pass found a page it shows already overwritten, or a replacement since left a page to a member that does not spare it |
| AudioSafety.DropIntact | gateway/internal/merge/policy.go:386-414 | Drop alone keeps the trusted samples intact exactly when each page's new member spares it |
| AudioOvertaken.DropShowsOverwritten | gateway/internal/merge/policy.go:391-406 | a run, with the engine's own parameters at 48 kHz, after which Drop shows a trusted sample from a member that wrote over it |
| AudioSafety.PassIntact | gateway/internal/merge/policy.go:424-462 | what a pass shows is intact exactly when no member has written over the first trusted sample of a page it shows |
| AudioSafety.PassSettles | gateway/internal/merge/policy.go:429-438 | it is when no bound of the pass is below the limit the pass before left |
| AudioShrinking.PassShowsOverwritten | gateway/internal/merge/policy.go:315-317 | a run, with the engine's own parameters at 48 kHz, whose last pass publishes a trusted sample its member has overwritten, after a long batch and then a short one |
| AudioDecisions.StepEnds | gateway/internal/merge/policy.go:327-381 | Step ends at the lead, or where nobody holds the next sample and the lag is within Skew, or waiting for a late primary at most Tolerance |
| AudioDecisions.StepSilence | gateway/internal/merge/policy.go:327-381 | a page Step leaves on silence is one that, from some sample of it Step reached, nobody held past, with the lead Skew past that sample |
| AudioDecisions.StepUntouched | gateway/internal/merge/policy.go:374-378 | Step leaves alone every page it has passed until it comes round to its slot |
| AudioDecisions.StepNoSilence | gateway/internal/merge/policy.go:337-373 | a page some member holds to its end or to the lead is not left as silence |
| AudioDecisions.RetireExact | gateway/internal/merge/policy.go:440-460 | Retire moves exactly the trusted pages whose source may write over their first trusted sample, each to its heir |
| AudioChoices.CommitStarts | gateway/internal/merge/policy.go:294-299 | the first commit starts publication at the first page boundary on from it, and no later one moves it |
| AudioChoices.CommitJoins | gateway/internal/merge/policy.go:303-310 | a part joins the page's entry exactly when it begins where that ends; any other, a repeated one too, leaves the page broken for good |
| AudioChoices.StepPages | gateway/internal/merge/policy.go:252-258 | every page Step publishes of is left on what its last turn chose: the primary while that holds the page, another member, the first of the farthest, only over a gap of the primary, silence only where nobody holds it and the lead is Skew past; and the head ends where that reaches |
| AudioChoices.StepStops | gateway/internal/merge/policy.go:326-381 | with the greatest reported head as the lead, how Step ends, that it replaces the primary only on a page that waited Tolerance, and from when it waits |
| AudioChoices.StepSelects | gateway/internal/merge/policy.go:374-377 | Step's selects turn what was shown into what Step shows, each changing its page |
| AudioChoices.RetireClears | gateway/internal/merge/policy.go:416-462 | after Retire a page with a trusted sample is shown only from a member with max(evHead, due) + Ahead + batch within a ring of the first such sample; a page already so is not moved, and any other goes to the least other member that holds it whole and is so, or to silence |
| AudioChoices.RetireTouches | gateway/internal/merge/policy.go:439-444 | Retire moves no page without a trusted sample |
| AudioChoices.RetireSelects | gateway/internal/merge/policy.go:458-459 | Retire's selects turn what was shown into what it shows, each changing its page |
| AudioChoices.DropFinds | gateway/internal/merge/policy.go:383-408 | a dropped page goes to the least other member that holds whole the page its slot shows below the head, or to silence |
| AudioChoices.DropSelects | gateway/internal/merge/policy.go:406-407 | Drop's selects turn what was shown into what it shows, each changing its page |
| AudioChoices.DropKeeps | gateway/internal/merge/policy.go:409-413 | Drop leaves the head, whom Step goes by and every other member's coverage, head and batch alone |
| Progress.StallWindow | gateway/internal/merge/progress.go:45-49 | the greater of StallAfter and three periods |
| Progress.MovedIsLastMove | gateway/internal/merge/progress.go:95-104 | in every run `moved` is the time of the last observed move, and an undecided member is not stalled |
| Progress.HeadIsLast | gateway/internal/merge/progress.go:103 | in every run the head kept is the one last observed |
| Progress.EveryRecoveryIsSteady | gateway/internal/merge/progress.go:26-33 | every recovery of every run, the first of a member reported stalled at the start too, follows RecoverAfter of moves no two of which are half a window apart |
| Progress.RecoveryIsSteady | gateway/internal/merge/progress.go:97-110 | those moves are all since the member last turned stalled |
| Progress.StallTakesAWindow | gateway/internal/merge/progress.go:40-42 | a member that recovered stalls no sooner than the rest of its window |
| Progress.FlapBound | gateway/internal/merge/progress.go:26-43 | in every run three consecutive changes span more than RecoverAfter plus half the window |
| Progress.StallsExactly | gateway/internal/merge/progress.go:111-114 | in every run a member not stalled stalls exactly when it has stood still for its window since its last move, or for StartGrace since the start if it has not moved |
| Progress.RecoversExactly | gateway/internal/merge/progress.go:107-110 | in every run a stalled member turns moving exactly when it has moved steadily since a move RecoverAfter ago |
| Progress.DecidedExactly | gateway/internal/merge/progress.go:61-63 | in every run a member is decided exactly once it moved, StartGrace passed, or it was reported stalled |
| Progress.Tracker.constructor | gateway/internal/merge/progress.go:65-71 | nothing has moved and nothing is decided |
| Progress.Tracker.StalledFrom | gateway/internal/merge/progress.go:73-81 | exactly the members reported are taken as stalled |
| Progress.Tracker.ObserveAll | gateway/internal/merge/progress.go:83-123 | every member is judged as specified, and a change is reported exactly when some member's state changed |
| Progress.Tracker.Report | gateway/internal/merge/progress.go:125-142 | exactly the decided stalled members and exactly the undecided ones, each in order |
| SampleTransfer.AwaitTransfer | gateway/internal/mirror/source_transfer.go:178-212 | it ends at the first turn that leaves nothing outstanding, done exactly when that is ready, evicted exactly when interrupted twice |
| SampleTransfer.RunLoop | gateway/internal/mirror/source_transfer.go:435-490 | the loop is the specified run |
| SampleTransfer.LoopSound | gateway/internal/mirror/source_transfer.go:400-491 | in every run lastSent = head0 + skipped + batch * completed, and every post is within the readable window of the head probed in its turn |
| SampleTransfer.NeverPastHead | gateway/internal/mirror/source_transfer.go:420-458 | no run posts past the probed head exactly when maxReadable is 0, one batch, or two and more |
| SampleTransfer.PastHead | gateway/internal/mirror/source_transfer.go:450-458 | otherwise a loop two batches behind does |
| SampleTransfer.SkipsOnlyAged | gateway/internal/mirror/source_transfer.go:450-456 | in every run the loop skips exactly the samples that have left what is readable, less a batch |
| SampleTransfer.TurnPostsExactly | gateway/internal/mirror/source_transfer.go:443-487 | a turn posts exactly when the head it probes is a batch on and the post is taken, and the loop ends exactly on a post that fails or is lost |
| GrainTransfer.BatchEnd | gateway/internal/mirror/source_transfer.go:105-113 | the 16-bit sum never wraps and asks for more than is there |
| GrainTransfer.RunLoop | gateway/internal/mirror/source_transfer.go:294-384 | the loop is the specified run |
| GrainTransfer.TurnLinks | gateway/internal/mirror/source_transfer.go:292-384 | `start` goes on belonging to grain lastSent + 1, with its slices up to there carried, exactly when the turn does not send part of a grain it resynced to |
| GrainTransfer.GrainsWhole | gateway/internal/mirror/source_transfer.go:263-385 | in every run without such a turn the completed posts of each finished grain partition its slices in order |
| GrainTransfer.WholeExactly | gateway/internal/mirror/source_transfer.go:263-385 | every run does so exactly when grains are not sent in batches |
| GrainTransfer.SplitResyncMixesGrains | gateway/internal/mirror/source_transfer.go:305-383 | for every batch size a run that finishes a grain without its first slices |
| GrainTransfer.SendsWhatIsRead | gateway/internal/mirror/source_transfer.go:80-103 | in every run the posts answer the reads one for one: an invalid grain's carries nothing and finishes it, a data grain's carries all that was read valid and finishes it, a video grain's goes on up to what was read valid |
| GrainTransfer.LastSentIsDone | gateway/internal/mirror/source_transfer.go:322-383 | in every run lastSent is the last grain finished, or the head at which the loop last gave up, or where it began |
| GrainTransfer.TurnTakes | gateway/internal/mirror/source_transfer.go:304-319 | a turn takes the next grain, or, between grains and more than four behind, the head; a video post starts where the last ended |
| BurstLimiter.Dispatcher.PruneBursts | agent/internal/intent/dispatcher.go:622-640 | what has left the window is gone, and pods with nothing left |
| BurstLimiter.Dispatcher.BurstRefusal | agent/internal/intent/dispatcher.go:642-668 | refusing or passing a flow yields the specified queue and retry time |
| BurstLimiter.Dispatcher.AdmitMirror | agent/internal/intent/dispatcher.go:580-620 | admit in place yields the specified limiter and verdict |
| BurstLimiter.Dispatcher.EnsureMirror | agent/internal/intent/dispatcher.go:530-570 | admitting and recording a creation in place is one step of the runs BurstHolds is about, and keeps the pod's creations sorted and within Burst |
| BurstLimiter.KeepSuffix | agent/internal/intent/dispatcher.go:630-632 | pruning sorted creations takes off exactly those out of the window, a prefix |
| BurstLimiter.BurstHolds | agent/internal/intent/dispatcher.go:530-570 | in every run any interval (t - BurstWindow, t] holds at most Burst creations of a pod, and `created` stays sorted and within Burst |
| BurstLimiter.QueuedOnce | agent/internal/intent/dispatcher.go:642-668 | in every run no flow is queued twice |
| BurstLimiter.RefusedHasItsPlace | agent/internal/intent/dispatcher.go:582-592 | in every run a refused flow is told a time strictly in the future, the one of its only position, with exactly Burst creations in the window |
| BurstLimiter.AdmitsExactly | agent/internal/intent/dispatcher.go:580-620 | in every run a request is refused for its burst exactly when the window up to now holds Burst creations of its pod, for a count exactly when otherwise its pod or the node is at a limit that is set, and admitted otherwise |
| BurstLimiter.AdmitsByCount | agent/internal/intent/dispatcher.go:648-653 | without a burst limit only the counts refuse |
| BurstLimiter.RefuseKeepsQueue | agent/internal/intent/dispatcher.go:645-662 | refusing or passing a flow leaves the others' queue as it is, and a refused flow keeps its position or takes the last |
| BurstLimiter.PruneKeepsQueue | agent/internal/intent/dispatcher.go:633-635 | pruning keeps exactly the waiters told a time less than a window ago, in order |
| BurstLimiter.RetrySchedule | agent/internal/intent/dispatcher.go:658-662 | retry times are in the future, never earlier for a later position, and one window later Burst positions on |
| BurstLimiter.ScheduleFeasible | agent/internal/intent/dispatcher.go:658-662 | flows that ask again at their times pass, one after the other, within the limit |
| BurstLimiter.ScheduleEarliest | agent/internal/intent/dispatcher.go:658-662 | no creations the limit allows serve a position sooner |
| Redundancy.NextInv | agent/internal/redundancy/redundancy.go:86-195 | every interleaved step keeps what the grace rests on |
| Redundancy.ListedForGrace | agent/internal/redundancy/redundancy.go:86-108 | in every interleaving, once a Want has returned, the node stays listed for the grace after its use, less the longest backdating, unless another writer takes it off |
| Redundancy.GraceKept | agent/internal/redundancy/redundancy.go:165-195 | in every interleaving the node leaves no sooner than grace after any Want's use, less the longest time Release backdated a use by |
| Redundancy.MarkCovers | agent/internal/redundancy/redundancy.go:134-156 | Release keeps every use covered exactly when it does not backdate one |
| Redundancy.BackdatingCutsShort | agent/internal/redundancy/redundancy.go:134-195 | from every state where a Want in its grace is backdated, steps that remove the node within that grace |
| Redundancy.GraceCutShort | agent/internal/redundancy/redundancy.go:134-146 | a run that reaches such a state |
| RingHolds.NextInv | gateway/internal/numaplace/numaplace.go:161-207 | every step of every thread keeps mutual exclusion, the counts, the flows map, one place per pin and closed files |
| RingHolds.LinksTrue | gateway/internal/numaplace/numaplace.go:165-207 | in every run a pin's links are its outstanding acquires, place ran at most once, and after the last release no file is open |
| RingHolds.HoldsKept | gateway/internal/numaplace/numaplace.go:161-207 | in every run no step opens or closes a file of a pin between an acquire's return and its release |
| RingHolds.LastIsAlone | gateway/internal/numaplace/numaplace.go:189-207 | when the last release takes pin.mu inside p.mu no other thread holds it or waits for it |
| RingHolds.NoDeadlock | gateway/internal/numaplace/numaplace.go:189-207 | in every state of every run some thread inside Acquire or release can go on |
| Locations.Copy.Upsert | agent/internal/flowpublisher/publisher.go:507-576 | the edit is the specified one, reports the phase the node's entry then has, and writes nothing for a Stale of a node not listed |
| Locations.Copy.Refresh | agent/internal/flowpublisher/publisher.go:949-960 | only the node's observation time changes, and only when it is not Stale |
| Locations.Copy.Claims | agent/internal/flowpublisher/publisher.go:438-442 | ClaimOrigin goes on exactly when no entry of the node says Origin |
| Locations.AppliedEntry | agent/internal/flowpublisher/publisher.go:507-581 | an agent's edit does to its node's entry what a lone register would do, and nothing to any other |
| Locations.KeptEntry | operator/internal/flow/controller.go:421-432 | the operator's prune takes exactly the departed nodes' entries |
| Locations.WritesAtomic | agent/internal/flowpublisher/publisher.go:489-576 | in every run the stored list is the log of changes applied one by one: the version check loses and repeats none |
| Locations.OneEntryPerNode | agent/internal/flowpublisher/publisher.go:507-581 | in every version of every run one entry per node at most, with AppearedAt exactly when not Stale |
| Locations.EntryIsOwn | agent/internal/flowpublisher/publisher.go:489-493 | in every run each node's entry is what its own agent's writes made it, whatever others wrote between |
| Locations.OriginLeft | agent/internal/flowpublisher/publisher.go:524-550 | Origin is left exactly through the agent's own Stale, the node's prune or the object's end, taken only by the agent's claim, and AppearedAt changes only by an appearance or a vanish |
| Locations.OriginKept | agent/internal/flowpublisher/publisher.go:425-456 | a claim of Origin holds through any interleaving until something leaves it |
| Names.FlowNameRoundTrip | api/v1alpha1/flowref.go:30-45 | ParseFlowName inverts Name exactly for dot-free ids |
| Names.ParsedNameRoundTrip | api/v1alpha1/flowref.go:39-45 | Name inverts ParseFlowName exactly when the last dot does not come first |
| Names.ParseLeaseNameFor | api/v1alpha1/lease.go:85-109 | the scanning loop is the specified parse |
| Names.LeaseNameRoundTrip | api/v1alpha1/lease.go:32-79 | ParseLeaseName inverts LeaseName exactly for canonical ids and non-empty nodes |
| Names.LeaseNameForRoundTrip | api/v1alpha1/lease.go:36-109 | ParseLeaseNameFor inverts LeaseNameFor exactly for a canonical id, a node, and a node or domain that does not itself hold an id so placed |
| Names.DotFreeDecomposes | api/v1alpha1/lease.go:81-109 | a dot-free domain always comes apart |
| Names.NamesCollide | api/v1alpha1/lease.go:39-41 | a primary-domain lease and one of another domain with the same name |
| Names.SharesName | api/v1alpha1/lease.go:81-109 | every lease with a canonical id and a node outside that condition, whose name does not begin with an empty domain's dot, shares its name with the other lease the name parses to |
| Names.NamesDistinct | api/v1alpha1/lease.go:39-41 | decomposable leases have distinct names |
| Names.ParsedPrints | api/v1alpha1/lease.go:85-109 | a name that parses prints back exactly when it does not begin with an empty domain's dot |

## Left out

- mmap, ioctl, futex and cgo of the engine: selecting is a write to an array of sources and always succeeds; a select that fails part way is not modelled.
- retireDue and the clock: `due` and `now` are inputs; what a member may write by then is the stated reliance.
- uint64 overflow of indices, samples and times: numbers are unbounded.
- Audio select by select: the engine publishes after all page selects, so the audio machine takes a pass as one step.
- The audio primary late without a break for Tolerance: the wait is kept per page.
- Retire's lateness estimate as a prediction of real members: it is taken as the reliance, not derived from a clock model.
- The loop of `run` itself, its futex waits and timeouts.
- The resync counter of the grain loop: a grain can be counted again when the read after a resync fails.
- SampleTransfer.LoopSound: a post and its answer are one turn, so that transfers do not overlap is the loop's shape and not a theorem; AwaitTransfer states when the wait ends.
- GrainTransfer.RunLoop: a post and its wait are one event, so that nothing is posted meanwhile is the loop's shape and not a theorem there; AwaitTransfer states when the wait ends.
- mxl.GrainValidSlicesAll is taken as the largest 16-bit number.
- The retry time refuseEarly gives: it reads the clock twice; its pruning and queueing are steps of the burst limiter's runs.
- The listing of mirrors behind the per-pod and per-node limits: both counts are inputs.
- Redundancy.NextInv: the protocol is a machine over values, of one set and one node; the lastUsed map and the status list are not objects here, and a Release that goes over several sets is not modelled.
- RingHolds.NextInv: the protocol is a machine over values; a critical section that takes no other lock is one step, and the maps and mutexes are not objects here.
- HoldTarget, memory placement and its ioctls: place opens and closes files as it likes.
- Locations.WritesAtomic: the API server is a sequence of versions; retries that give up, Leases and the refreshed definition are left out.
- Kubernetes clients, watches, events, metrics, configuration, CSI, mounts, fanotify, /proc: I/O.
- gateway/internal/cadence keeps floating-point statistics, and api/selection and api/v1alpha1/origin.go scan a list once for its first match: neither has state or a run to argue over.
