# Verification models for the print-loss recovery kernels

A Dafny project beside the recovery plugin and its analyzer crates. It models the parts where a wrong step costs a
print or a nozzle, and proves what they promise for every input, every run or every reachable state:

- **Geometry and raster** (`Geom`, `DistanceTransform`, `CellScan`, `Raster`, `HalfPlane`, `Clearance`): the closest-point and segment/box
  distances, the in-place Felzenszwalb-Huttenlocher transform, the sampled neighbourhood scans and the tiled area
  sweep, each proved against a one-line specification (the least distance; the cells whose centre is within r).
  `HalfPlane` and `Clearance` say what a clearance reading promises about a point.
- **The recovery conversation** (`RecoveryProtocol`, `Recovery`, `RecoverySystem`, `RecoveryChannel`): the reply classification and
  deadlines, the session's transitions as functions on values, the session object with each method proved against
  its function, and a transition system of operator commands, plrd's choices, deliveries, transport failures, timers,
  shutdown, detached aborts and time. `RecoverySystem.Inv` is inductive; the safety results hold in every run.
  `RecoveryChannel` maps each of its runs to a run of the worker channel.
- **The worker channel and the wizard** (`DaemonWorker`, `Wizard`): the same two-level treatment of `AsyncDaemon`
  and of the wizard's flow on top of it.
- **Layer model, matcher and preview** (`Model`, `Matcher`, `Representatives`, `Preview`).
- **Probing** (`Statistics`, `TouchSequence`, `Classifier`, `DragProbe`): the consensus window, the windowed RMS
  detector and the drag staircase, with the probe, the accelerometer and the clock as arbitrary inputs.
- **Counter widening** (`Clock`).

`Arith` holds sign rules for products. `{:induction false}` marks the lemmas Dafny would otherwise induct on by itself;
their proofs do not use it. Coordinates, heights and times are exact reals. Where the code takes a
square root, distances are kept squared; where a root is needed as a length (sampling steps, clearances) it is a
function parameter constrained to be the non-negative root. Objects whose methods update fields are classes here,
and each method's contract equates the new state with a function of the old one; the lemmas are about those
functions.

## Where code and documentation disagree

The models follow the code.

- `ranks_better` orders E agreement ascending, though its comments say descending. The collected result is the documented
  one exactly when all consistent moves agree equally well with the evidence E
  (`Matcher.DocumentedOrderIffSameAgreement`; `Matcher.WorseAgreementComesFirst` is a window where it is not).
- `layers_in_window` reads a missing end as the single offset `start`, though its comment says "to the end". The two give
  the same layers exactly when the last layer has begun by `start` (`Model.MissingEndReadsToTheEndIffLastLayer`;
  `Model.MissingEndIsNotToTheEnd` is a pair of layers where they differ).
- `clearance_at` is documented as a genuine lower bound on the distance to the nearest point that is not material. For a
  given point it bounds every reading exactly when each cell has a background centre within its distance from the
  point and the slack (`Clearance.BoundExactlyWhenBackgroundInReach`). That holds within the square root of two cells of a
  background centre and for all points outside convex material, in particular one bead; a gap narrower than a cell
  between two beads is not seen (`Clearance.GapNarrowerThanACellIsMissed`).
- `representatives` with a cap of one returns both endpoints (`Representatives.CapOfOneReturnsBothEndpoints`).
- If plrd rejects an answer unread, `_close_out_request` drops the token but restores `awaiting_confirmation`: a
  dead end only a shutdown leaves. `RecoverySystem.DeadEndExactlyWhenQuestionLost` says exactly when.
- The drag stall detector asks for a descent of eight steps, so it stalls exactly on nine or more flat passes, even where
  eight are configured (`DragProbe.StallNeedsNinePasses`, `DragProbe.EightFlatPassesDoNotStall`); in exact arithmetic
  the floor check before a descent never fires (`DragProbe.FloorCheckNeverFires`).

## Model

| member | source | states |
|---|---|---|
| Geom.ClosestIsNearest | crates/plr-analyzer/src/geom.rs:19-38 | no point of the segment is closer to p than the one at `closest_point_t`, degenerate segments included |
| Geom.SegBoxDistance | crates/plr-analyzer/src/geom.rs:79-111 | the edge-and-corner loop returns the value of the distance function, which `SegBoxIsExact` shows least and attained |
| Geom.MeetsFromOutside | crates/plr-analyzer/src/geom.rs:60-103 | a segment with both ends outside that meets the box properly crosses an edge or passes through a corner: the fallbacks miss no touching, collinear or corner case |
| Geom.NoPointCloser | crates/plr-analyzer/src/geom.rs:73-111 | no point of the segment and point of the box are closer than the reported distance |
| Geom.DistanceAttained | crates/plr-analyzer/src/geom.rs:73-111 | some point of the segment and some point of the box are exactly that far apart |
| Geom.SegBoxIsExact | crates/plr-analyzer/src/geom.rs:73-111 | the reported distance is the least one: a lower bound for all pairs of points, and attained, degenerate boxes included |
| Geom.ZeroIffTheyMeet | crates/plr-analyzer/src/geom.rs:73-78 | zero exactly when segment and box have a common point |
| DistanceTransform.IntersectionOrders | crates/plr-analyzer/src/raster.rs:552-556 | left of the crossing the older parabola is lower, right of it the newer one |
| DistanceTransform.PopSupersedes | crates/plr-analyzer/src/raster.rs:523-536 | a hull parabola whose stretch starts at or after the crossing is nowhere needed again, so popping keeps the envelope |
| DistanceTransform.PushExtends | crates/plr-analyzer/src/raster.rs:536-540 | the new parabola takes over at its crossing with the last one kept, so pushing keeps the envelope |
| DistanceTransform.EnvelopeIsLeast | crates/plr-analyzer/src/raster.rs:514-548 | the envelope the read-out is compared with is a lower bound on every parabola and one of them attains it |
| DistanceTransform.Edt1d | crates/plr-analyzer/src/raster.rs:518-548 | for every input, `dest[q]` is the least (q-p)^2 + source[p]; every hull and bounds index stays in range and the stack never underflows |
| DistanceTransform.RowPass | crates/plr-analyzer/src/raster.rs:480-499 | every row is replaced by its one-dimensional transform and nothing else changes |
| DistanceTransform.ColumnPass | crates/plr-analyzer/src/raster.rs:500-506 | every column is replaced by its one-dimensional transform and nothing else changes |
| DistanceTransform.TwoPassesAreExact | crates/plr-analyzer/src/raster.rs:471-506 | rows then columns give each cell the exact squared distance to its nearest background cell whenever there is one |
| DistanceTransform.GapBelowBig | crates/plr-analyzer/src/raster.rs:481-484 | the sentinel for solid cells exceeds every squared distance in the grid |
| DistanceTransform.ClearanceField | crates/plr-analyzer/src/raster.rs:480-511 | every cell's clearance is that of its exact distance to the nearest background cell, less the slack, in millimetres, floored at zero |
| DistanceTransform.FewerSolidShorterDistance | crates/plr-analyzer/src/raster.rs:160-198 | with fewer solid cells no nearest-background distance grows |
| DistanceTransform.FewerSolidLessClearance | crates/plr-analyzer/src/raster.rs:160-198 | removing solid cells, as a truncated fill does, never raises a clearance |
| CellScan.SomeSampleReaches | crates/plr-analyzer/src/raster.rs:201-233 | every cell whose centre is within the radius of a segment lies in the scanned neighbourhood of one of its samples |
| CellScan.ScanSegment | crates/plr-analyzer/src/raster.rs:205-233 | the scan adds only cells near the segment, and all of them unless the test budget stops it |
| CellScan.SamplesAreFew | crates/plr-analyzer/src/raster.rs:201-216 | the samples of a bead, at 81 tests each, are at most its length in cells and two more: the work bound |
| CellScan.RejectedMissesNothing | crates/plr-analyzer/src/raster.rs:396-409 | a segment rejected by the tile's bounding-box test has no near cell in the tile |
| CellScan.MarkTile | crates/plr-analyzer/src/raster.rs:389-449 | the count is that of the tile's strictly inside cells, or a lower one when the test budget stops it; the tests grow by at most the work of the beads |
| CellScan.TileRect | crates/plr-analyzer/src/raster.rs:355-380 | a tile's own count equals the count of its rectangle in the whole grid |
| CellScan.MarksCounted | crates/plr-analyzer/src/raster.rs:440-449 | counting the marks in storage order is counting the cells row by row |
| CellScan.GrowCell | crates/plr-analyzer/src/raster.rs:331-354 | the first cell of the growth sequence that keeps the tile budget, or the last after 64 steps |
| CellScan.SweepTiles | crates/plr-analyzer/src/raster.rs:355-385 | the tiled sum is the untiled count unless the test budget stops the sweep, and never more; the tests are at most the tiles times the work |
| CellScan.StrictArea | crates/plr-analyzer/src/raster.rs:331-385 | the area is that of the strictly inside cells of one grid, or a lower bound on it when cut short; it is not cut short when the strict radius is positive, the first cell keeps the tile budget and the work fits the test budget |
| CellScan.StrictRadiusIsHalfADiagonalLess | crates/plr-analyzer/src/raster.rs:337-338 | the strict radius is the half width less half a cell diagonal, to within a hundred-thousandth of a cell |
| CellScan.StrictCellsInAreaGrid | crates/plr-analyzer/src/raster.rs:331-354 | every lattice cell strictly inside a capsule of the box is in the area grid |
| CellScan.CountedCellInsideCapsule | crates/plr-analyzer/src/raster.rs:318-330 | every point of a counted cell is within the half width of one segment: the area is a lower bound |
| Raster.FitGrid | crates/plr-analyzer/src/raster.rs:455-470 | the finest cell of the coarsening sequence whose grid fits the cell budget; none exactly when all 64 fail |
| Raster.NearCellsInsideRing | crates/plr-analyzer/src/raster.rs:160-198 | every lattice cell near a segment of the box is in the grid, two cells from its border |
| Raster.Raster.Fill | crates/plr-analyzer/src/raster.rs:201-233 | without truncation exactly the cells whose centre is within the half width of some segment become solid, otherwise a subset of them; it is not truncated when the work of the beads fits the test budget |
| Raster.Raster.Build | crates/plr-analyzer/src/raster.rs:160-198 | the built raster: first fitting grid, near cells solid, exact clearances of what was filled, area bound, flags; empty exactly for degenerate input or when no grid fits; not truncated when fill and area fit the test budget |
| Raster.MaterialByMidpoint | crates/plr-analyzer/src/raster.rs:276-284 | for every point of the plane: material exactly when the centre of its lattice cell is within the half width of a segment, unless truncated; then only if |
| Raster.RasterOfOneBead | crates/plr-analyzer/src/raster.rs:160-198 | the raster of a 10 mm bead is neither truncated nor coarsened and has material at its middle |
| Raster.PaddingIsBackground | crates/plr-analyzer/src/raster.rs:160-198 | the corner cell of a built raster is never solid, so a background cell always exists |
| Raster.ClearanceIsOfNearestBackground | crates/plr-analyzer/src/raster.rs:160-198 | every stored clearance is that of a true nearest background cell, never of the sentinel |
| Clearance.BoundExactlyWhenBackgroundInReach | crates/plr-analyzer/src/raster.rs:62-90 | for every point w: all readings are at most the distance to w if and only if every cell has a background centre within its distance from w and the slack |
| Clearance.NearBackgroundIsBounded | crates/plr-analyzer/src/raster.rs:62-90 | no reading exceeds the distance to a point within the square root of two cells of a background centre: the three terms of the slack |
| Clearance.ClearanceBelowDistance | crates/plr-analyzer/src/raster.rs:284-300 | no reading exceeds the distance to a point of a background cell |
| HalfPlane.ConvexIsSupported | crates/plr-analyzer/src/raster.rs:79-84 | a point outside convex material has a line through it that leaves all the material strictly behind |
| Clearance.SupportedIsBounded | crates/plr-analyzer/src/raster.rs:79-84 | with such a line through a point no reading exceeds the distance to it: one step outward finds a background centre, or the padding |
| Clearance.ConvexMaterialIsBounded | crates/plr-analyzer/src/raster.rs:79-90 | for convex material the documented bound holds for every query and every point that is not material, truncated rasters included |
| HalfPlane.OneBeadIsConvex | crates/plr-analyzer/src/raster.rs:79-84 | one bead is convex material |
| Clearance.OneBeadIsBounded | crates/plr-analyzer/src/raster.rs:79-90 | so the bound holds for every island of one bead |
| Clearance.GapNarrowerThanACellIsMissed | crates/plr-analyzer/src/raster.rs:284-300 | the built raster of two beads 0.1 mm apart reads over 3.8 mm at a point 0.55 mm from the gap, which is not material |
| RecoveryProtocol.WriterCases | klippy_plugin/plr/recovery.py:183-212 | which changes are calmer, and that just those need a reason |
| RecoveryProtocol.ReplyPublishes | klippy_plugin/plr/recovery.py:968-1075 | for every tag and `ok`, which state a reply to a request in flight publishes |
| RecoveryProtocol.ReplyKeepsToken | klippy_plugin/plr/recovery.py:1045-1304 | for every tag and `ok`, which question is left standing or aborted detached |
| RecoveryProtocol.ReplyArms | klippy_plugin/plr/recovery.py:1045-1304 | a question left standing has its wait armed anew, and without one no wait is left running |
| RecoveryProtocol.DeadlineCases | klippy_plugin/plr/recovery.py:333-369 | the wait is plrd's deadline and thirty seconds, an hour when not configured; the claim ends at 630 seconds and only then |
| RecoveryProtocol.StartCases | klippy_plugin/plr/recovery.py:653-754 | when a start goes through, and the question it abandons is aborted detached |
| RecoveryProtocol.AnswerCases | klippy_plugin/plr/recovery.py:806-925 | when an answer is sent: a question of its kind stands, klippy is up or it is an abort, the channel takes it |
| RecoveryProtocol.LifecycleCases | klippy_plugin/plr/recovery.py:1334-1775 | what a failure, the claim's and the wait's end, a shutdown, a disconnect and a detached report do |
| RecoverySystem.ReadAsSaid | klippy_plugin/plr/recovery.py:265-296 | the single reading takes every response for what plrd, by tag and `ok`, says with it |
| RecoverySystem.NoQuestionIsForgotten | klippy_plugin/plr/recovery.py:653-966 | a question the session lets go of is out with an answer, aborted detached, or plrd is done with it |
| RecoverySystem.StepKeepsInv | klippy_plugin/plr/recovery.py:653-1075 | every step of commands, replies, failures, timers, shutdown and detached reports keeps the invariant tying session, channel and plrd |
| RecoverySystem.RunKeepsInv | klippy_plugin/plr/recovery.py:17-37 | the invariant holds in every state of every run |
| RecoverySystem.IdleIsNeverPublishedOverAnEngagedPlrd | klippy_plugin/plr/recovery.py:437-497 | in every run, `idle` is never published while plrd executes or is paused on this session's recovery |
| RecoverySystem.RunningMeansOneRequestInFlight | klippy_plugin/plr/recovery.py:653-925 | in every run, `running` is published exactly while one request is in flight, and a held token means none is |
| RecoveryChannel.ConversationIsAWorkerRun | klippy_plugin/plr/recovery.py:392-435 | every run of the conversation drives the worker channel through a run of its own protocol, call for call and outcome for callback |
| RecoveryChannel.RunningMeansOneWorkerCall | klippy_plugin/plr/recovery.py:653-925 | in every run the worker channel holds at most one call, and `running` is published exactly while it holds one |
| RecoverySystem.ExpiryFollowsPlrdsOwn | klippy_plugin/plr/recovery.py:1382-1486 | in every run, a wait that ends the question fires after plrd's own deadline and cleanup, also when timers were re-armed or restored |
| RecoverySystem.ExpiryOnlyAfterPlrdIsDone | klippy_plugin/plr/recovery.py:1457-1486 | when the expiry publishes `idle`, plrd is no longer engaged |
| RecoverySystem.CallsArePublished | klippy_plugin/plr/recovery.py:437-497 | the recorded calls of the state writer are the ones made: the last one's target is what the event publishes |
| RecoverySystem.WriterNeverRefuses | klippy_plugin/plr/recovery.py:437-475 | in every run, the refusing branch of `_transition` is never taken |
| RecoverySystem.DeadEndExactlyWhenQuestionLost | klippy_plugin/plr/recovery.py:1045-1075 | a step from a live state is a dead end exactly when it delivers a protocol refusal of an answer |
| RecoverySystem.DeadEndIsPermanent | klippy_plugin/plr/recovery.py:512-545 | once there, nothing but a shutdown leads out |
| RecoverySystem.NoDeadEnds | klippy_plugin/plr/recovery.py:212-249 | if protocol refusals only answer `recover_execute`, every run outside a shutdown has a request in flight, an answerable question or room for a new recovery |
| RecoverySystem.RejectedAnswerIsADeadEnd | klippy_plugin/plr/recovery.py:1055-1064 | without that hypothesis a seven-event run reaches a dead end |
| Recovery.RecoverySession.SetState | klippy_plugin/plr/recovery.py:437-475 | the one writer: the calmer move without evidence is refused, the rest published |
| Recovery.RecoverySession.StartRecovery | klippy_plugin/plr/recovery.py:653-754 | the whole new state and the verdict, refused starts included |
| Recovery.RecoverySession.AnswerQuestion | klippy_plugin/plr/recovery.py:806-925 | the whole new state and the verdict; an answer not sent restores token, published state and timers |
| Recovery.RecoverySession.CancelRecovery | klippy_plugin/plr/recovery.py:940-966 | cancel is the abort answer where there is a question, and refused elsewhere |
| Recovery.RecoverySession.HandleResponse | klippy_plugin/plr/recovery.py:968-1075 | each class of reply leads to its own new state, listener call and detached abort |
| Recovery.RecoverySession.ReportPause | klippy_plugin/plr/recovery.py:1251-1304 | a pause is taken over, or aborted detached when it arrives under shutdown |
| Recovery.RecoverySession.HandleError | klippy_plugin/plr/recovery.py:1334-1380 | a transport failure drops the question and publishes the unresolved state, whatever was in flight |
| Recovery.RecoverySession.ClaimExpired | klippy_plugin/plr/recovery.py:1428-1455 | the claim's warning raises the alarm and keeps the question |
| Recovery.RecoverySession.WaitExpired | klippy_plugin/plr/recovery.py:1457-1486 | the expiry of the wait drops the question and publishes `idle` |
| Recovery.RecoverySession.ShutdownSeen | klippy_plugin/plr/recovery.py:1490-1545 | a standing question is aborted detached, under the session's epoch |
| Recovery.RecoverySession.DisconnectSeen | klippy_plugin/plr/recovery.py:1547-1570 | the session closes, its timers disarmed, its question aborted detached |
| Recovery.RecoverySession.AbortOutcome | klippy_plugin/plr/recovery.py:1681-1775 | a detached report changes the state only under its own epoch |
| DaemonWorker.AsyncDaemon.Call | klippy_plugin/plr/daemon_worker.py:210-253 | the slot is taken under the current generation, refused when busy or closed, and given back when no thread starts |
| DaemonWorker.AsyncDaemon.Cancel | klippy_plugin/plr/daemon_worker.py:255-272 | the generation moves on and the slot stays taken |
| DaemonWorker.AsyncDaemon.Invoke | klippy_plugin/plr/daemon_worker.py:311-340 | the slot is freed and the callback runs exactly when the generation is current |
| DaemonWorker.AsyncDaemon.HandleDisconnect | klippy_plugin/plr/daemon_worker.py:342-350 | the channel closes and every outstanding result goes stale |
| DaemonWorker.AsyncDaemon.RefusalText | klippy_plugin/plr/daemon_worker.py:162-208 | which of the refusals applies, state unchanged |
| DaemonWorker.RunKeepsInv | klippy_plugin/plr/daemon_worker.py:116-350 | the channel's invariant holds in every interleaving of call, worker, delivery, thread failure, cancel and disconnect |
| DaemonWorker.AtMostOneOutstanding | klippy_plugin/plr/daemon_worker.py:210-253 | in every interleaving at most one worker or undelivered result exists, and then the channel is busy |
| DaemonWorker.AtMostOneCallback | klippy_plugin/plr/daemon_worker.py:298-340 | in every interleaving each call's callback runs at most once |
| DaemonWorker.NoCallbackAfterDismissal | klippy_plugin/plr/daemon_worker.py:255-272 | a callback runs only for a call made before it with no cancel or disconnect in between |
| DaemonWorker.DeliveryIffUndismissed | klippy_plugin/plr/daemon_worker.py:311-340 | a result coming back runs its callback exactly when nothing dismissed its call |
| DaemonWorker.SlotFreedOnlyByOutcome | klippy_plugin/plr/daemon_worker.py:255-340 | only a thread that could not start or an outcome coming back frees the slot; cancel never does |
| DaemonWorker.RefusalCases | klippy_plugin/plr/daemon_worker.py:162-208 | which refusal is given, for every state of the slot |
| DaemonWorker.FailedStartIsNamed | klippy_plugin/plr/daemon_worker.py:162-253 | from a thread that could not start until the next call, the refusal names it, whatever is cancelled or disconnected |
| DaemonWorker.RefusalIsTruthful | klippy_plugin/plr/daemon_worker.py:162-208 | "answer discarded" is said exactly of a dismissed call still outstanding |
| Wizard.AskedUnlessBothAgree | klippy_plugin/plr/wizard.py:118-185 | the cleaning question is skipped exactly when plan and configuration both say cleaning is automatic |
| Wizard.AnswerCases | klippy_plugin/plr/wizard.py:342-523 | what each answer does: trouble, nothing pending and a failed dry run end the flow and dismiss the channel, a pending status is offered, an ok dry run opens the execute prompt or the clean check |
| Wizard.AskingCases | klippy_plugin/plr/wizard.py:360-471 | when a start and a dry run ask the daemon |
| Wizard.CommandCases | klippy_plugin/plr/wizard.py:565-629 | what an attestation, a hand-off, the end of a recovery and a cancel do |
| Wizard.CommandsAreTheObjects | klippy_plugin/plr/wizard.py:360-629 | over any well-formed channel, the system's command and callback steps are the functions the object's methods are proved against |
| Wizard.RecoveryWizard.StartWizard | klippy_plugin/plr/wizard.py:360-411 | a start asks the daemon only from idle, with nothing to answer and a new recovery allowed |
| Wizard.RecoveryWizard.RunDry | klippy_plugin/plr/wizard.py:450-471 | a dry run is asked for only from an open prompt |
| Wizard.RecoveryWizard.AttestClean | klippy_plugin/plr/wizard.py:565-572 | an attestation moves the clean check, and nothing else, to the execute prompt |
| Wizard.RecoveryWizard.FinishedSeen | klippy_plugin/plr/wizard.py:597-600 | the end of a handed-off recovery resets the flow |
| Wizard.RecoveryWizard.HandleAnswer | klippy_plugin/plr/wizard.py:413-523 | each answer moves the flow on, asks for cleaning, or resets it |
| Wizard.RecoveryWizard.HandOff | klippy_plugin/plr/wizard.py:574-595 | execution is handed off only from the execute prompt, and only when recovery starts |
| Wizard.RecoveryWizard.CancelWizard | klippy_plugin/plr/wizard.py:602-629 | cancel is routed to the recovery, refused, or resets the flow |
| Wizard.WizardRunKeepsInv | klippy_plugin/plr/wizard.py:266-629 | the wizard's invariant over its channel and its history holds in every run |
| Wizard.HandOffFollowsPlanAndCleanNozzle | klippy_plugin/plr/wizard.py:450-595 | in every run, a hand-off follows a dry run of the same flow answered with `ok` that both sources call clean, or one and then CONFIRM_CLEAN |
| Wizard.DismissedAnswerChangesNothing | klippy_plugin/plr/wizard.py:321-358 | in every run, the answer to a query dismissed by a reset changes nothing the wizard holds |
| Wizard.DeliveredAnswerIsAwaited | klippy_plugin/plr/wizard.py:342-358 | in every run, a delivered answer finds the wizard still waiting for it |
| Model.LayerModel.RecordMove | crates/plr-analyzer/src/model.rs:635-708 | the layers, paths and moves after one planned move |
| Model.RecordingKeeps | crates/plr-analyzer/src/model.rs:635-708 | recording conserves deposition: the layers concatenate to the segments of exactly the planned moves that are not extrude-only and grow E, in order and under their types; layers open exactly at the heights beyond z_epsilon of the current one; segments are within z_epsilon of their layer, adjacent paths differ in type and have their type's class |
| Model.LayerModel.Build | crates/plr-analyzer/src/model.rs:543-614 | up to the first failing line the planned moves are recorded one for one, each with its kind, its layer and the part its line belongs to, and the result is well recorded |
| Model.LayersAreApart | crates/plr-analyzer/src/model.rs:653-658 | consecutive layers differ in height by more than z_epsilon |
| Model.DepositedLayer | crates/plr-analyzer/src/model.rs:652-676 | a new layer takes the deposition's Z, trust, bytes and pending annotation; the current one keeps its own and reaches to the deposition's end |
| Model.LayersInWindow | crates/plr-analyzer/src/model.rs:467-505 | the loop collects exactly the layers whose cell overlaps the window |
| Model.OneOwner | crates/plr-analyzer/src/model.rs:451-466 | with layers on distinct lines every offset from the first on has exactly one owner |
| Model.WindowIsUnionOfOwners | crates/plr-analyzer/src/model.rs:451-505 | a window's layers are the contiguous union of the owners of its offsets, those up to its end exclusive or the start alone, and `before_first` says the start has none |
| Model.MissingEndReadsToTheEndIffLastLayer | crates/plr-analyzer/src/model.rs:451-473 | the code's reading of a missing end gives the documented layers if and only if the last layer has begun by the start |
| Model.MissingEndIsNotToTheEnd | crates/plr-analyzer/src/model.rs:451-473 | two layers on which that differs from the documented "to the end" |
| Matcher.PointInsideIsNeverDropped | crates/plr-analyzer/src/matcher.rs:299-400 | a move through a point inside every constraint is consistent, at distance zero and full agreement |
| Matcher.AcceptedExactly | crates/plr-analyzer/src/matcher.rs:255-297 | evidence and configuration are accepted exactly for non-negative tolerances, a positive limit, ordered intervals and an ordered window |
| Matcher.ConsistentExactly | crates/plr-analyzer/src/matcher.rs:299-370 | a move is consistent exactly when it shares a byte with the window, is known at both ends on every constrained axis and is near the evidence in the plane and on each axis |
| Matcher.CandidateOfMove | crates/plr-analyzer/src/matcher.rs:383-399 | a candidate carries its move's line, layer, kind and matched point |
| Matcher.FittingLayersAre | crates/plr-analyzer/src/matcher.rs:472-540 | the layers offered when nothing matches are those of known height near one of the heights whose bytes meet the window |
| Matcher.AcceptedIffNear | crates/plr-analyzer/src/matcher.rs:320-370 | a move is accepted exactly when, in the plane and on each constrained axis, one of its points is within tolerance of the evidence |
| Matcher.AgreementGrades | crates/plr-analyzer/src/matcher.rs:351-368 | agreement is one exactly on overlap, zero exactly at the tolerance, between otherwise |
| Matcher.AgreementIsLinear | crates/plr-analyzer/src/matcher.rs:351-368 | between, it falls linearly with the gap |
| Matcher.MatchedPointIsBest | crates/plr-analyzer/src/matcher.rs:369-390 | the matched point is on the move, nearest the evidence's middle E when E varies and nearest the box centre otherwise |
| Matcher.DocumentedOrderIffSameAgreement | crates/plr-analyzer/src/matcher.rs:401-465 | the collected result is the one the documented order gives, kept chords and ranking, if and only if all consistent moves agree equally well with the evidence E |
| Matcher.WorseAgreementComesFirst | crates/plr-analyzer/src/matcher.rs:401-465 | a two-line window whose exact match is collected second |
| Matcher.CollectCandidates | crates/plr-analyzer/src/matcher.rs:427-465 | one candidate for exactly the lines with an in-window, axis-known, consistent move, each its line's best chord, in rank order; and the count of moves skipped as unknown |
| Matcher.RankingIsUnique | crates/plr-analyzer/src/matcher.rs:403-465 | kept chords and order are the only ones the ranking allows, up to equal-ranking chords of one line |
| Matcher.LineCount | crates/plr-analyzer/src/matcher.rs:427-465 | as many candidates as consistent lines, with the same offsets |
| Matcher.MatchStopPoint | crates/plr-analyzer/src/matcher.rs:472-540 | the confidence follows the number of consistent lines and their layers; ambiguous windows list all the lines ascending |
| Matcher.UniqueIffOneLine | crates/plr-analyzer/src/matcher.rs:472-540 | UniqueLine if and only if one line is consistent; AmbiguousWindow if and only if two up to the limit are |
| Representatives.Representatives | crates/plr-analyzer/src/preview.rs:290-339 | the endpoints, then picks that are furthest from those chosen with ties by (offset, index), until the cap or the pool is reached, sorted |
| Representatives.RepresentativesAreTheCap | crates/plr-analyzer/src/preview.rs:283-339 | with a cap of at least two, min(cap, n) indices, the earliest and latest stops among them |
| Representatives.CapOfOneReturnsBothEndpoints | crates/plr-analyzer/src/preview.rs:295-304 | below two the cap is not kept |
| Representatives.UnchosenIsNear | crates/plr-analyzer/src/preview.rs:305-334 | covering: every unchosen stop is within the last pick's distance of a chosen one |
| Representatives.ChosenAreApart | crates/plr-analyzer/src/preview.rs:305-334 | packing: chosen stops other than the two endpoints are at least that far apart |
| Representatives.OrderOfInputIsIrrelevant | crates/plr-analyzer/src/preview.rs:283-290 | every permutation of the input gives the same representatives |
| Preview.NextKept | crates/plr-analyzer/src/preview.rs:660-668 | the first kept deposition at or after an offset, or none |
| Preview.NoOracleIsTheResolver | crates/plr-analyzer/src/preview.rs:646-668 | without an oracle it is the resolver's own lookup |
| Preview.BuildStops | crates/plr-analyzer/src/preview.rs:488-549 | one stop for exactly the trusted, not cancelled moves of the domain whose next kept deposition is trusted or absent, in order |
| Preview.EveryStopIsSafe | crates/plr-analyzer/src/preview.rs:488-549 | a stop hovers over the start of an in-window deposition that is trusted and not cancelled, with its line's feature, and resumes at the next deposition not cancelled, which is trusted, or at its line end when none remains |
| Preview.ResumesAdvance | crates/plr-analyzer/src/preview.rs:488-549 | over lines in file order, nudging forward never resumes earlier and no resume repeats its stop's line |
| Preview.LineAnchor | crates/plr-analyzer/src/preview.rs:604-612 | the first and mid anchors: the last chord on the line, else the nearest stop before it |
| Preview.OffsetsHoldTheLines | crates/plr-analyzer/src/preview.rs:575-608 | the ascending offsets hold the least consistent line first, the greatest last, and at the median index the one with as many lines before as after, or one fewer |
| Preview.LastAnchorOtherwise | crates/plr-analyzer/src/preview.rs:583-603 | without a trusted target, or a stop that resumes at it or lies on it, the last anchor is the nearest stop before the line |
| Preview.LastIndexCommitsTheTarget | crates/plr-analyzer/src/preview.rs:359-480 | the same of a whole preview, resolved from the greatest consistent line |
| Preview.LastCommitsTheTarget | crates/plr-analyzer/src/preview.rs:575-617 | `last_index` commits the resolver's trusted target if and only if the kept deposition line just before it has an in-window, trusted move |
| Preview.LastSkipsForward | crates/plr-analyzer/src/preview.rs:583-603 | with a stop that resumes at the target or lies on its line, the cursor commits the target or, when no stop resumes there, one past it |
| Preview.RepresentativesSpanTheCandidates | crates/plr-analyzer/src/preview.rs:412-432 | min(7, n) of the n candidate stops, the first and the last among them |
| Preview.BuildPreview | crates/plr-analyzer/src/preview.rs:359-480 | which outcome follows, gate by gate, and the set it returns: first anchored on the least consistent line, mid on the middle one, last resolved from the greatest |
| Statistics.MedianIsTheMiddle | klippy_plugin/plr/touch_sequence.py:187-198 | the median is the mean of the two middle values, one for an odd count, each by how many values lie on either side |
| Statistics.MedianFollowsTheMajority | klippy_plugin/plr/touch_sequence.py:187-198 | wherever more than half the values lie, the median lies too |
| TouchSequence.AcceptedConfigs | klippy_plugin/plr/touch_sequence.py:119-157 | which configurations are accepted, exactly |
| TouchSequence.FindBestSubset | klippy_plugin/plr/touch_sequence.py:225-252 | the first subset of least spread, none below two or above the window, refused above the maximum |
| TouchSequence.AgreeIsASortedRun | klippy_plugin/plr/touch_sequence.py:214-252 | k touches agree within r exactly when k consecutive sorted touches spread over at most r |
| TouchSequence.LeastIsTheTightestRun | klippy_plugin/plr/touch_sequence.py:225-252 | the least spread is the smallest over consecutive runs of the sorted window |
| TouchSequence.RunConsensus | klippy_plugin/plr/touch_sequence.py:255-314 | stops at the first touch count whose recent window holds enough agreeing touches, fails if and only if none within the budget does, and reports the least spread and its median |
| TouchSequence.RecentWindowIsTheLatest | klippy_plugin/plr/touch_sequence.py:282-284 | the searched window is the latest touches, as many as it takes |
| TouchSequence.MedianIsNearEveryTouch | klippy_plugin/plr/touch_sequence.py:290-303 | the reported height is within the subset's spread of every touch in it |
| TouchSequence.ScatteredTouchesFail | klippy_plugin/plr/touch_sequence.py:10-21 | touches whose close pairs are at least a window apart never reach a consensus, for every configuration and count |
| TouchSequence.ScatteredYetAgreeing | klippy_plugin/plr/touch_sequence.py:10-21 | such a run on which a search of all the touches would have passed |
| Classifier.WindowsCover | klippy_plugin/plr/classifier.py:242-256 | the RMS windows cover every sample |
| Classifier.BurstInsideAWindow | klippy_plugin/plr/classifier.py:242-256 | any burst of window - stride + 1 samples lies inside one full window |
| Classifier.LongerBurstSlipsThrough | klippy_plugin/plr/classifier.py:242-256 | the bound is sharp: one sample more can fall between two windows |
| Classifier.Stats | klippy_plugin/plr/classifier.py:275-284 | the squared total RMS, and the squared peak: the largest window mean square, attained |
| Classifier.BurstRaisesThePeak | klippy_plugin/plr/classifier.py:275-284 | magnitude m throughout a burst forces peak^2 * window >= m^2 * length |
| Classifier.MedianResistsAlteration | klippy_plugin/plr/classifier.py:259-266 | with fewer than half the samples altered, the median stays within the range of the untouched ones |
| Classifier.ClassifiedCapturesRise | klippy_plugin/plr/classifier.py:167-223 | a capture that is classified is long enough, rises in time and moves on some axis |
| Classifier.ClassifiedExactly | klippy_plugin/plr/classifier.py:167-223 | a capture is classified exactly when it has 128 samples, moves, and its gaps are positive and at most five times their median |
| Classifier.SteadyCapturesAreClassified | klippy_plugin/plr/classifier.py:167-223 | a moving capture at a steady rate is classified |
| Classifier.ClassifyPass | klippy_plugin/plr/classifier.py:330-363 | refused first, else contact exactly when the peak exceeds the threshold |
| Classifier.ConfidenceMeasuresDistanceFromThreshold | klippy_plugin/plr/classifier.py:315-327 | confidence is abs(q-1)/(q+1) of the squared ratio q: zero exactly at the threshold, at most one |
| Classifier.BurstIsContact | klippy_plugin/plr/classifier.py:242-363 | end to end: a long enough burst, large against the threshold on either side of any quiet axis, is classified as contact |
| Classifier.BurstIsAnsweredContact | klippy_plugin/plr/classifier.py:330-363 | such a burst in a capture good enough to classify is answered as contact |
| Classifier.QuietIsAnsweredClean | klippy_plugin/plr/classifier.py:330-363 | a quiet capture good enough to classify is answered as clean |
| Classifier.QuietIsClean | klippy_plugin/plr/classifier.py:259-363 | a capture quiet to within eps on every axis is clean whenever threshold^2 >= 12 eps^2 |
| DragProbe.BoundReachesTheFloor | klippy_plugin/plr/drag_probe.py:175-190 | the pass bound is the least number of steps that reach the floor |
| DragProbe.DragProbe | klippy_plugin/plr/drag_probe.py:448-714 | the outcome is that of the run; every commanded height lies between floor and start; every abort leaves the head at the start, a contact two steps above it |
| DragProbe.Staircase | klippy_plugin/plr/drag_probe.py:512-688 | the loop with its counters computes the run pass by pass |
| DragProbe.Toolhead.RestoreZ | klippy_plugin/plr/drag_probe.py:717-722 | a lift to the start, never a move down |
| DragProbe.FlatRunIsFlat | klippy_plugin/plr/drag_probe.py:623-631 | neighbours inside the flat run differ by less than the tolerance |
| DragProbe.FlatRunIsLongest | klippy_plugin/plr/drag_probe.py:623-631 | the flat run reaches back to the last step of at least the tolerance |
| DragProbe.StallNeedsNinePasses | klippy_plugin/plr/drag_probe.py:641-649 | a run stalls if and only if its flat run has the configured length, at least nine passes, and ends no higher than it began |
| DragProbe.EightFlatPassesDoNotStall | klippy_plugin/plr/drag_probe.py:641-649 | eight equal ratios, with eight passes configured, are no stall |
| DragProbe.ProbeEndsAsSaid | klippy_plugin/plr/drag_probe.py:523-688 | every run ends for the reason it gives, down to the pass, the budget, the sample window and the ratios |
| DragProbe.GoodCapturesEndByContactStallOrEnvelope | klippy_plugin/plr/drag_probe.py:523-688 | within budget, with bracketed motion and no receding signal, a run ends only by contact, a stall or the envelope |
| DragProbe.ContactIsOneStepDown | klippy_plugin/plr/drag_probe.py:575-589 | success: contact one step below the trigger, every earlier pass clean, not below the floor |
| DragProbe.SurfaceIsBracketed | klippy_plugin/plr/drag_probe.py:697-714 | with a perfect contact oracle the surface lies in (trigger - step, trigger] |
| DragProbe.PassesAreBounded | klippy_plugin/plr/drag_probe.py:175-190 | at most ceil((start - floor) / step) passes, whatever the machine answers |
| DragProbe.ExhaustionReachesTheFloor | klippy_plugin/plr/drag_probe.py:668-688 | exhaustion: every pass clean and the last within one step of the floor |
| DragProbe.FloorCheckNeverFires | klippy_plugin/plr/drag_probe.py:666-676 | the pass bound already keeps every descent above the floor |
| DragProbe.WideningCases | klippy_plugin/plr/drag_probe.py:350-363 | no widening within fifteen degrees, two percent a degree beyond, half from forty |
| DragProbe.WideningOnlySuppresses | klippy_plugin/plr/drag_probe.py:350-363 | the threshold is never narrowed, at most half again as wide, and grows with the drift |
| Clock.ReceiveSeqWidener.Observe | crates/plr-klipper/src/clock.rs:263-293 | the widened value, the stored state and the kind of update for one reading |
| Clock.NeverDecreases | crates/plr-klipper/src/clock.rs:196-208 | over any sequence of readings the widened counter never decreases and stays within 64 bits |
| Clock.TracksTheTrueCounter | crates/plr-klipper/src/clock.rs:196-203 | if the true counter advances by less than 2^31 between readings, widened minus true stays constant across any number of wraps |
| Clock.AdvanceIsReported | crates/plr-klipper/src/clock.rs:263-293 | a true advance below 2^31 is reported with its size and widened by it |
| Clock.RegressionIsReported | crates/plr-klipper/src/clock.rs:203-208 | a true step back of at most 2^31 is reported with its size and the widened value holds |
| Clock.AdvanceOfHalfIsLost | crates/plr-klipper/src/clock.rs:279-288 | the bound is sharp: a true advance of 2^31 is taken for a step back |

## Left out

- Floating point: rounding, NaN and infinity, and the guards that exist only for them (non-finite coordinates, samples and sample ranges). Infinite hull bounds are a datatype, an infinite spread is `None`.
- Square roots and real powers: distances are squared, a needed root is a parameter; the sensitivity-to-multiplier curve is the threshold's factor and otherwise unconstrained.
- The plrd daemon, Moonraker, sockets, threads and klippy itself. plrd is a transition system built from what `recovery.py` records. One hypothesis is made about the transport, that a request of the session whose connection already failed is not dispatched later (a detached abort may be, even after its outcome was reported), and one about plrd, that its cleanup ends within the headroom of the deadlines.
- Console text, prompts, status lines, logging, the `source` and `advice` strings, and gcode argument parsing and ranges.
- The G-code parser, state machine and simulator: planned moves, annotations and object brackets are arbitrary inputs, and feature classification is a function parameter.
- Arc provenance on moves and candidates, the `annotated` flag, spiral fraction and slicer-mark cross-checks: single-field accumulations.
- `contact.rs`, `structure.rs`, `work.rs` and `arc.rs`: thin over code not modelled here, or resting on trigonometric facts.
- `ClockCorrelator` and `McuClock`: one addition or one division each.
- Capture motion in XY, settling, temperature reading and its sensor, the stall warning printed at half the budget, and the numpy path of the classifier.
- `_unknown_token`'s choice of wording by cause; its state change is the one of an unresolved request.
- The wizard's setup report and rendering.
- Matcher.AcceptedIffNear: each axis is tested on its own by the code, so the points that satisfy the plane, the Z and the E constraints may differ.
