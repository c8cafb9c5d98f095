/** The recovery wizard: offer, dry run, clean-nozzle check, execute.  Its daemon calls go through one
    `AsyncDaemon` channel; the recovery session's own decisions are inputs. */
module Wizard {
  import opened DaemonWorker

  datatype Option<T> = None | Some(value: T)

  // ----- the clean-nozzle decision -----

  /** A field of the response as found. */
  datatype Field = Absent | NotBool | Bool(value: bool)

  /** The dry-run data: the flag at the top level, and under `plan` when that is a map. */
  datatype PlanData = PlanData(top: Field, nested: Option<Field>)

  function CleanFlag(data: PlanData): Option<bool> {
    if data.top.Bool? then Some(data.top.value)
    else if data.nested.Some? && data.nested.value.Bool? then Some(data.nested.value.value)
    else None
  }

  datatype AskReason = NoMacro | FlagUnknown | SourcesDisagree

  /** Whether to ask, and why. */
  function CleanDecision(flag: Option<bool>, macroAvailable: bool): (bool, Option<AskReason>) {
    if flag == Some(false) && macroAvailable then (false, None)
    else if flag == None then (true, Some(FlagUnknown))
    else if flag == Some(false) then (true, Some(SourcesDisagree))
    else (true, Some(NoMacro))
  }

  /** The daemon reports automatic cleaning and the plugin sees the macro. */
  predicate BothSourcesClean(data: PlanData, macroAvailable: bool) {
    macroAvailable && (data.top == Bool(false) || (!data.top.Bool? && data.nested == Some(Bool(false))))
  }

  /** The question is skipped exactly when both sources agree. */
  lemma AskedUnlessBothAgree(data: PlanData, macroAvailable: bool)
    ensures CleanDecision(CleanFlag(data), macroAvailable).0 <==> !BothSourcesClean(data, macroAvailable)
    ensures CleanDecision(CleanFlag(data), macroAvailable).1.Some? <==> CleanDecision(CleanFlag(data), macroAvailable).0
  {
  }

  // ----- the flow -----

  datatype State = Idle | Querying | Offered | CleanCheck | ExecutePrompt | Handed

  datatype Flow = Flow(state: State, prompt: bool)

  datatype Query = StatusQuery | DryRunQuery

  /** What a worker brought back. */
  datatype Payload =
    | Trouble
    | StatusReply(pending: bool)
    | PlanReply(ok: bool, data: PlanData, macroAvailable: bool)

  function Reset(f: Flow, s: Slot): (Flow, Slot) {
    (Flow(Idle, false), Cancelled(s))
  }

  function Asked(f: Flow, s: Slot, threadStarts: bool): (Flow, Slot, bool) {
    if !Free(s) then (f, s, false)
    else if !threadStarts then (f, GivenBack(Taken(s)), false)
    else (f.(state := Querying), Taken(s), true)
  }

  function Start(f: Flow, s: Slot, canAnswer: bool, mayStartNew: bool, threadStarts: bool): (Flow, Slot, bool) {
    if canAnswer || f.state == Handed || !mayStartNew || f.state != Idle then (f, s, false)
    else Asked(f, s, threadStarts)
  }

  function DryRun(f: Flow, s: Slot, threadStarts: bool): (Flow, Slot, bool) {
    if f.state in {Idle, Querying, Handed} then (f, s, false)
    else Asked(f, s, threadStarts)
  }

  /** Answers that send the wizard back to idle: an error, nothing pending, a failed dry run. */
  predicate EndsFlow(p: Payload) {
    p.Trouble? || (p.StatusReply? && !p.pending) || (p.PlanReply? && !p.ok)
  }

  function Answered(f: Flow, s: Slot, p: Payload): (Flow, Slot) {
    if EndsFlow(p) then Reset(f, s)
    else match p
    case StatusReply(_) => (Flow(Offered, true), s)
    case PlanReply(_, data, macroAvailable) =>
      if CleanDecision(CleanFlag(data), macroAvailable).0 then (Flow(CleanCheck, true), s)
      else (Flow(ExecutePrompt, true), s)
  }

  function ConfirmClean(f: Flow): Flow {
    if f.state == CleanCheck then Flow(ExecutePrompt, true) else f
  }

  /** `recoveryStarts`: the recovery session accepted the hand-off. */
  function Execute(f: Flow, recoveryStarts: bool): Flow {
    if f.state == ExecutePrompt && recoveryStarts then Flow(Handed, false) else f
  }

  function RecoveryFinished(f: Flow, s: Slot): (Flow, Slot) {
    if f.state == Handed then Reset(f, s) else (f, s)
  }

  /** `cancelAccepted`: the recovery session, when it needs attention, could be told to abort. */
  function Cancel(f: Flow, s: Slot, needsAttention: bool, cancelAccepted: bool): (Flow, Slot) {
    if needsAttention && !cancelAccepted then (f, s) else Reset(f, s)
  }

  class RecoveryWizard {
    const daemon: AsyncDaemon
    var state: State
    var prompt: bool

    function View(): Flow
      reads this
    {
      Flow(state, prompt)
    }

    constructor (daemon: AsyncDaemon)
      ensures View() == Flow(Idle, false) && this.daemon == daemon
    {
      this.daemon := daemon;
      state, prompt := Idle, false;
    }

    method Show(next: State)
      modifies this
      ensures View() == Flow(next, true)
    {
      prompt := true;
      state := next;
    }

    method ResetFlow()
      modifies this, daemon
      ensures (View(), daemon.View()) == Reset(old(View()), old(daemon.View()))
    {
      state := Idle;
      prompt := false;
      daemon.Cancel();
    }

    method Ask(threadStarts: bool) returns (asked: bool)
      modifies this, daemon
      ensures (View(), daemon.View(), asked) == Asked(old(View()), old(daemon.View()), threadStarts)
    {
      var mine;
      asked, mine := daemon.Call(threadStarts);
      if !asked {
        return;
      }
      state := Querying;
    }

    method StartWizard(canAnswer: bool, mayStartNew: bool, threadStarts: bool) returns (asked: bool)
      modifies this, daemon
      ensures (View(), daemon.View(), asked) == Start(old(View()), old(daemon.View()), canAnswer, mayStartNew, threadStarts)
    {
      if canAnswer {
        return false;
      }
      if state == Handed || !mayStartNew {
        return false;
      }
      if state == Querying {
        return false;
      }
      if state != Idle {
        return false;
      }
      asked := Ask(threadStarts);
    }

    method RunDry(threadStarts: bool) returns (asked: bool)
      modifies this, daemon
      ensures (View(), daemon.View(), asked) == DryRun(old(View()), old(daemon.View()), threadStarts)
    {
      if state == Idle {
        return false;
      }
      if state == Querying || state == Handed {
        return false;
      }
      asked := Ask(threadStarts);
    }

    method HandleAnswer(p: Payload)
      modifies this, daemon
      ensures (View(), daemon.View()) == Answered(old(View()), old(daemon.View()), p)
    {
      match p {
        case Trouble => ResetFlow();
        case StatusReply(pending) =>
          if !pending {
            ResetFlow();
            return;
          }
          Show(Offered);
        case PlanReply(ok, data, macroAvailable) =>
          if !ok {
            ResetFlow();
            return;
          }
          var (ask, reason) := CleanDecision(CleanFlag(data), macroAvailable);
          if ask {
            Show(CleanCheck);
          } else {
            Show(ExecutePrompt);
          }
      }
    }

    method AttestClean() returns (accepted: bool)
      modifies this
      ensures View() == ConfirmClean(old(View())) && accepted == (old(state) == CleanCheck)
    {
      if state != CleanCheck {
        return false;
      }
      Show(ExecutePrompt);
      accepted := true;
    }

    method HandOff(recoveryStarts: bool) returns (handed: bool)
      modifies this
      ensures View() == Execute(old(View()), recoveryStarts) && handed == (old(state) == ExecutePrompt && recoveryStarts)
    {
      if state != ExecutePrompt || !recoveryStarts {
        return false;
      }
      state := Handed;
      prompt := false;
      handed := true;
    }

    method FinishedSeen()
      modifies this, daemon
      ensures (View(), daemon.View()) == RecoveryFinished(old(View()), old(daemon.View()))
    {
      if state == Handed {
        ResetFlow();
      }
    }

    method CancelWizard(needsAttention: bool, cancelAccepted: bool)
      modifies this, daemon
      ensures (View(), daemon.View()) == Cancel(old(View()), old(daemon.View()), needsAttention, cancelAccepted)
    {
      if needsAttention && !cancelAccepted {
        return;
      }
      ResetFlow();
    }
  }

  // ----- every run of the wizard and its channel -----

  /** What the flow records: a plan reply as it came, an attestation, the hand-off, the end of a flow. */
  datatype Note = PlanReplied(ok: bool, data: PlanData, macroAvailable: bool) | Attested | HandedOff | FlowEnded

  /** `queries[id]` is what call `id` of the channel asked. */
  datatype WizardWorld = WizardWorld(flow: Flow, channel: DaemonWorker.World, queries: seq<Query>, notes: seq<Note>)

  const NEW_WIZARD := WizardWorld(Flow(Idle, false), DaemonWorker.NEW_WORLD, [], [])

  datatype Event =
    | StartCommand(canAnswer: bool, mayStartNew: bool, threadStarts: bool)
    | DryRunCommand(threadStarts: bool)
    | ConfirmCleanCommand
    | ExecuteCommand(recoveryStarts: bool)
    | CancelCommand(needsAttention: bool, cancelAccepted: bool)
    | RecoveryReports
    | WorkerReports(index: nat)
    | WorkerLost(index: nat)
    | ReactorRuns(index: nat, payload: Payload)
    | KlippyDisconnects

  /** The payload is one the query can have: an error, or a reply of its own kind. */
  predicate Fits(q: Query, p: Payload) {
    p.Trouble? || (q == StatusQuery && p.StatusReply?) || (q == DryRunQuery && p.PlanReply?)
  }

  /** The channel sees the call, and the thread's start, as one step of the reactor thread. */
  function CallStep(ch: DaemonWorker.World, threadStarts: bool): DaemonWorker.World {
    if !Free(ch.slot) then ch
    else
      var begun := DaemonWorker.Step(ch, BeginCall);
      DaemonWorker.Step(begun, if threadStarts then ThreadStarts(|ch.tasks|) else ThreadFails(|ch.tasks|))
  }

  function AskStep(w: WizardWorld, asks: bool, q: Query, threadStarts: bool): WizardWorld {
    if !asks || !Free(w.channel.slot) then w
    else
      w.(flow := Asked(w.flow, w.channel.slot, threadStarts).0, channel := CallStep(w.channel, threadStarts), queries := w.queries + [q])
  }

  function Ended(w: WizardWorld): WizardWorld {
    w.(flow := Flow(Idle, false), channel := DaemonWorker.Step(w.channel, CancelCall), notes := w.notes + [FlowEnded])
  }

  /** The callback of a result that is delivered. */
  function CallbackStep(w: WizardWorld, p: Payload): WizardWorld {
    if EndsFlow(p) then Ended(w)
    else w.(flow := Answered(w.flow, w.channel.slot, p).0, notes := if p.PlanReply? then w.notes + [PlanReplied(p.ok, p.data, p.macroAvailable)] else w.notes)
  }

  /** The reactor runs a queued delivery: the channel decides whether the callback runs. */
  function ReactorStep(w: WizardWorld, k: nat, p: Payload): WizardWorld {
    if In(w.channel, k, Queued) && w.channel.tasks[k].id < |w.queries| && Fits(w.queries[w.channel.tasks[k].id], p) then
      var delivered := w.(channel := DaemonWorker.Step(w.channel, ReactorInvokes(k)));
      if Current(w.channel.slot, w.channel.tasks[k].generation) then CallbackStep(delivered, p) else delivered
    else w
  }

  function Step(w: WizardWorld, e: Event): WizardWorld {
    match e
    case StartCommand(canAnswer, mayStartNew, threadStarts) =>
      AskStep(w, !canAnswer && mayStartNew && w.flow.state == Idle, StatusQuery, threadStarts)
    case DryRunCommand(threadStarts) =>
      AskStep(w, w.flow.state !in {Idle, Querying, Handed}, DryRunQuery, threadStarts)
    case ConfirmCleanCommand =>
      if w.flow.state == CleanCheck then w.(flow := ConfirmClean(w.flow), notes := w.notes + [Attested]) else w
    case ExecuteCommand(recoveryStarts) =>
      if w.flow.state == ExecutePrompt && recoveryStarts then w.(flow := Execute(w.flow, true), notes := w.notes + [HandedOff]) else w
    case CancelCommand(needsAttention, cancelAccepted) => if needsAttention && !cancelAccepted then w else Ended(w)
    case RecoveryReports => if w.flow.state == Handed then Ended(w) else w
    case WorkerReports(k) => w.(channel := DaemonWorker.Step(w.channel, WorkerDelivers(k)))
    case WorkerLost(k) => w.(channel := DaemonWorker.Step(w.channel, WorkerCannotDeliver(k)))
    case ReactorRuns(k, p) => ReactorStep(w, k, p)
    case KlippyDisconnects => w.(channel := DaemonWorker.Step(w.channel, Disconnect))
  }

  function Run(events: seq<Event>): WizardWorld {
    if events == [] then NEW_WIZARD else Step(Run(events[..|events| - 1]), events[|events| - 1])
  }

  /** The system's commands and callbacks are the object's methods. */
  lemma CommandsAreTheObjects(w: WizardWorld, canAnswer: bool, mayStartNew: bool, flag: bool, other: bool, k: nat, p: Payload)
    requires DaemonWorker.Inv(w.channel)
    ensures var v := Step(w, StartCommand(canAnswer, mayStartNew, flag)); var r := Start(w.flow, w.channel.slot, canAnswer, mayStartNew, flag);
            v.flow == r.0 && v.channel.slot == r.1
    ensures var v := Step(w, DryRunCommand(flag)); var r := DryRun(w.flow, w.channel.slot, flag);
            v.flow == r.0 && v.channel.slot == r.1
    ensures Step(w, ConfirmCleanCommand).flow == ConfirmClean(w.flow) && Step(w, ExecuteCommand(flag)).flow == Execute(w.flow, flag)
    ensures var v := Step(w, CancelCommand(flag, other)); (v.flow, v.channel.slot) == Cancel(w.flow, w.channel.slot, flag, other)
    ensures var v := Step(w, RecoveryReports); (v.flow, v.channel.slot) == RecoveryFinished(w.flow, w.channel.slot)
    ensures RunsCallback(w, k, p) ==>
              var v := Step(w, ReactorRuns(k, p)); (v.flow, v.channel.slot) == Answered(w.flow, Released(w.channel.slot), p)
  {
    AsksAreTheObjects(w, canAnswer, mayStartNew, flag);
    OthersAreTheObjects(w, flag, other);
    if RunsCallback(w, k, p) { CallbackIsTheObjects(w, k, p); }
    hide Step, Start, DryRun, ConfirmClean, Execute, Cancel, RecoveryFinished, Answered, DaemonWorker.Inv;
  }

  /** When the daemon is asked: a start from idle, with nothing to answer and a new recovery allowed; a dry run from a prompt
      the wizard shows.  Either needs the channel free and a thread; otherwise the flow stays as it was. */
  lemma AskingCases(f: Flow, s: Slot, canAnswer: bool, mayStartNew: bool, threadStarts: bool)
    ensures var (g, _, asked) := Start(f, s, canAnswer, mayStartNew, threadStarts);
            && (asked <==> !canAnswer && mayStartNew && f.state == Idle && !s.closed && !s.busy && threadStarts)
            && g == (if asked then Flow(Querying, f.prompt) else f)
    ensures var (g, _, asked) := DryRun(f, s, threadStarts);
            && (asked <==> (f.state == Offered || f.state == CleanCheck || f.state == ExecutePrompt) && !s.closed && !s.busy && threadStarts)
            && g == (if asked then Flow(Querying, f.prompt) else f)
  {
  }

  /** What an answer does, case by case: trouble, nothing pending or a failed dry run end the flow and dismiss the channel; a
      pending status is offered; an ok dry run opens the execute prompt when both sources call the nozzle clean, and else
      the clean check. */
  lemma AnswerCases(f: Flow, s: Slot, data: PlanData, macroAvailable: bool)
    ensures Answered(f, s, Trouble) == (Flow(Idle, false), s.(generation := s.generation + 1))
    ensures Answered(f, s, StatusReply(false)) == (Flow(Idle, false), s.(generation := s.generation + 1))
    ensures Answered(f, s, StatusReply(true)) == (Flow(Offered, true), s)
    ensures Answered(f, s, PlanReply(false, data, macroAvailable)) == (Flow(Idle, false), s.(generation := s.generation + 1))
    ensures Answered(f, s, PlanReply(true, data, macroAvailable)) ==
            (Flow(if BothSourcesClean(data, macroAvailable) then ExecutePrompt else CleanCheck, true), s)
  {
    AskedUnlessBothAgree(data, macroAvailable);
  }

  /** The other commands: an attestation counts only at the clean check, a hand-off only from the execute prompt, the end of a
      recovery only after a hand-off; a cancel ends the flow unless the recovery needs attention and turns it down. */
  lemma CommandCases(f: Flow, s: Slot, recoveryStarts: bool, needsAttention: bool, cancelAccepted: bool)
    ensures ConfirmClean(f) == if f.state == CleanCheck then Flow(ExecutePrompt, true) else f
    ensures Execute(f, recoveryStarts) == if f.state == ExecutePrompt && recoveryStarts then Flow(Handed, false) else f
    ensures RecoveryFinished(f, s) == if f.state == Handed then (Flow(Idle, false), s.(generation := s.generation + 1)) else (f, s)
    ensures Cancel(f, s, needsAttention, cancelAccepted) ==
            if !needsAttention || cancelAccepted then (Flow(Idle, false), s.(generation := s.generation + 1)) else (f, s)
  {
  }

  /** The reactor runs a queued answer of the call now current. */
  predicate RunsCallback(w: WizardWorld, k: nat, p: Payload) {
    && In(w.channel, k, Queued) && w.channel.tasks[k].id < |w.queries| && Fits(w.queries[w.channel.tasks[k].id], p)
    && Current(w.channel.slot, w.channel.tasks[k].generation)
  }

  lemma AsksAreTheObjects(w: WizardWorld, canAnswer: bool, mayStartNew: bool, threadStarts: bool)
    requires DaemonWorker.Inv(w.channel)
    ensures var v := Step(w, StartCommand(canAnswer, mayStartNew, threadStarts)); var r := Start(w.flow, w.channel.slot, canAnswer, mayStartNew, threadStarts);
            v.flow == r.0 && v.channel.slot == r.1
    ensures var v := Step(w, DryRunCommand(threadStarts)); var r := DryRun(w.flow, w.channel.slot, threadStarts);
            v.flow == r.0 && v.channel.slot == r.1
  {
  }

  lemma OthersAreTheObjects(w: WizardWorld, flag: bool, other: bool)
    ensures Step(w, ConfirmCleanCommand).flow == ConfirmClean(w.flow) && Step(w, ExecuteCommand(flag)).flow == Execute(w.flow, flag)
    ensures var v := Step(w, CancelCommand(flag, other)); (v.flow, v.channel.slot) == Cancel(w.flow, w.channel.slot, flag, other)
    ensures var v := Step(w, RecoveryReports); (v.flow, v.channel.slot) == RecoveryFinished(w.flow, w.channel.slot)
  {
  }

  lemma CallbackIsTheObjects(w: WizardWorld, k: nat, p: Payload)
    requires RunsCallback(w, k, p)
    ensures var v := Step(w, ReactorRuns(k, p)); (v.flow, v.channel.slot) == Answered(w.flow, Released(w.channel.slot), p)
  {
  }

  // ----- what every run keeps -----

  /** No flow ended after position k. */
  ghost predicate SameFlowSince(notes: seq<Note>, k: nat) {
    forall m | k < m < |notes| :: notes[m] != FlowEnded
  }

  /** In the present flow an ok plan came in that both sources call clean, or that was followed by an attestation. */
  ghost predicate Cleared(notes: seq<Note>) {
    exists k | 0 <= k < |notes| ::
      && OkPlan(notes[k]) && SameFlowSince(notes, k)
      && (BothSourcesClean(notes[k].data, notes[k].macroAvailable) || exists m | k < m < |notes| :: notes[m] == Attested)
  }

  /** An answer to a dry run that came with `ok`. */
  predicate OkPlan(x: Note) {
    x.PlanReplied? && x.ok
  }

  ghost predicate PlanSeen(notes: seq<Note>) {
    exists k | 0 <= k < |notes| :: OkPlan(notes[k]) && SameFlowSince(notes, k)
  }

  ghost predicate HandOffsAreCleared(notes: seq<Note>) {
    forall k | 0 <= k < |notes| && notes[k] == HandedOff :: Cleared(notes[..k])
  }

  /** A call that nothing dismissed is the one the wizard is waiting for. */
  ghost predicate WaitsForItsAnswer(w: WizardWorld) {
    forall t | t in w.channel.tasks && Undismissed(w.channel.history, t.id) :: w.flow.state == Querying
  }

  ghost predicate WizardInv(w: WizardWorld) {
    && DaemonWorker.Inv(w.channel) && |w.queries| == w.channel.calls
    && HandOffsAreCleared(w.notes)
    && (w.flow.state == CleanCheck ==> PlanSeen(w.notes))
    && (w.flow.state == ExecutePrompt ==> Cleared(w.notes))
    && WaitsForItsAnswer(w)
  }

  lemma PlanArrives(notes: seq<Note>, data: PlanData, macroAvailable: bool)
    ensures var notes' := notes + [PlanReplied(true, data, macroAvailable)];
            PlanSeen(notes') && (BothSourcesClean(data, macroAvailable) ==> Cleared(notes'))
  {
    var notes' := notes + [PlanReplied(true, data, macroAvailable)];
    assert OkPlan(notes'[|notes|]) && SameFlowSince(notes', |notes|);
  }

  lemma AttestationClears(notes: seq<Note>)
    requires PlanSeen(notes)
    ensures Cleared(notes + [Attested])
  {
    var notes' := notes + [Attested];
    var k :| 0 <= k < |notes| && OkPlan(notes[k]) && SameFlowSince(notes, k);
    assert OkPlan(notes'[k]) && SameFlowSince(notes', k) && notes'[|notes|] == Attested;
  }

  lemma HandOffsExtend(notes: seq<Note>, x: Note)
    requires HandOffsAreCleared(notes) && (x == HandedOff ==> Cleared(notes))
    ensures HandOffsAreCleared(notes + [x])
  {
    var notes' := notes + [x];
    forall k | 0 <= k < |notes'| && notes'[k] == HandedOff
      ensures Cleared(notes'[..k])
    {
      if k < |notes| { assert notes'[..k] == notes[..k]; } else { assert notes'[..k] == notes; }
    }
  }

  /** After a reset no outstanding call is still waited for. */
  lemma ResetDismisses(w: WizardWorld)
    requires DaemonWorker.Inv(w.channel)
    ensures forall t | t in Ended(w).channel.tasks :: !Undismissed(Ended(w).channel.history, t.id)
  {
    forall t | t in Ended(w).channel.tasks
      ensures !Undismissed(Ended(w).channel.history, t.id)
    {
      Dismissed(w.channel.history, CancelMark, t.id);
    }
  }

  lemma EndedKeepsInv(w: WizardWorld)
    requires DaemonWorker.Inv(w.channel) && |w.queries| == w.channel.calls && HandOffsAreCleared(w.notes)
    ensures WizardInv(Ended(w))
  {
    DaemonWorker.StepKeepsInv(w.channel, CancelCall);
    HandOffsExtend(w.notes, FlowEnded);
    ResetDismisses(w);
  }

  lemma AskKeepsInv(w: WizardWorld, asks: bool, q: Query, threadStarts: bool)
    requires WizardInv(w)
    ensures WizardInv(AskStep(w, asks, q, threadStarts))
  {
    if asks && Free(w.channel.slot) {
      assert w.channel.tasks == [];
      var begun := DaemonWorker.Step(w.channel, BeginCall);
      DaemonWorker.StepKeepsInv(w.channel, BeginCall);
      DaemonWorker.StepKeepsInv(begun, if threadStarts then ThreadStarts(0) else ThreadFails(0));
      assert !threadStarts ==> CallStep(w.channel, threadStarts).tasks == [];
    }
  }

  lemma ReactorKeepsInv(w: WizardWorld, k: nat, p: Payload)
    requires WizardInv(w)
    ensures WizardInv(ReactorStep(w, k, p))
  {
    if In(w.channel, k, Queued) && w.channel.tasks[k].id < |w.queries| && Fits(w.queries[w.channel.tasks[k].id], p) {
      DaemonWorker.StepKeepsInv(w.channel, ReactorInvokes(k));
      var delivered := w.(channel := DaemonWorker.Step(w.channel, ReactorInvokes(k)));
      assert delivered.channel.tasks == [];
      if Current(w.channel.slot, w.channel.tasks[k].generation) {
        if EndsFlow(p) {
          EndedKeepsInv(delivered);
        } else {
          AnswerKeepsInv(delivered, p);
        }
      }
    }
  }

  lemma AnswerKeepsInv(w: WizardWorld, p: Payload)
    requires WizardInv(w) && w.channel.tasks == [] && !EndsFlow(p)
    ensures WizardInv(CallbackStep(w, p))
  {
    if p.PlanReply? {
      HandOffsExtend(w.notes, PlanReplied(p.ok, p.data, p.macroAvailable));
      PlanArrives(w.notes, p.data, p.macroAvailable);
      AskedUnlessBothAgree(p.data, p.macroAvailable);
    }
  }

  lemma CommandKeepsInv(w: WizardWorld, e: Event)
    requires WizardInv(w) && (e.ConfirmCleanCommand? || e.ExecuteCommand?)
    ensures WizardInv(Step(w, e))
  {
    if e.ConfirmCleanCommand? && w.flow.state == CleanCheck {
      HandOffsExtend(w.notes, Attested);
      AttestationClears(w.notes);
    }
    if e.ExecuteCommand? && w.flow.state == ExecutePrompt {
      HandOffsExtend(w.notes, HandedOff);
    }
  }

  lemma ChannelKeepsInv(w: WizardWorld, e: Event)
    requires WizardInv(w) && (e.WorkerReports? || e.WorkerLost? || e.KlippyDisconnects?)
    ensures WizardInv(Step(w, e))
  {
    var ce := if e.WorkerReports? then WorkerDelivers(e.index) else if e.WorkerLost? then WorkerCannotDeliver(e.index) else Disconnect;
    DaemonWorker.StepKeepsInv(w.channel, ce);
    StillWaits(w, ce);
    hide DaemonWorker.Step, DaemonWorker.Inv, WaitsForItsAnswer, HandOffsAreCleared, Cleared, PlanSeen;
  }

  /** What the worker and a disconnect do to the channel leaves the wizard waiting for what it waited for. */
  lemma StillWaits(w: WizardWorld, ce: DaemonWorker.Event)
    requires WizardInv(w) && (ce.WorkerDelivers? || ce.WorkerCannotDeliver? || ce.Disconnect?)
    ensures WaitsForItsAnswer(w.(channel := DaemonWorker.Step(w.channel, ce))) && DaemonWorker.Step(w.channel, ce).calls == w.channel.calls
  {
    hide HandOffsAreCleared, Cleared, PlanSeen;
    var ch := DaemonWorker.Step(w.channel, ce);
    forall t | t in ch.tasks && Undismissed(ch.history, t.id)
      ensures w.flow.state == Querying
    {
      if ce.Disconnect? {
        Dismissed(w.channel.history, DisconnectMark, t.id);
      } else {
        assert |w.channel.tasks| == 1 && t.id == w.channel.tasks[0].id && w.channel.tasks[0] in w.channel.tasks;
      }
    }
  }

  lemma {:induction false} WizardRunKeepsInv(events: seq<Event>)
    ensures WizardInv(Run(events))
  {
    if events != [] {
      var before, e := events[..|events| - 1], events[|events| - 1];
      WizardRunKeepsInv(before);
      var w := Run(before);
      match e
      case StartCommand(canAnswer, mayStartNew, threadStarts) =>
        AskKeepsInv(w, !canAnswer && mayStartNew && w.flow.state == Idle, StatusQuery, threadStarts);
      case DryRunCommand(threadStarts) => AskKeepsInv(w, w.flow.state !in {Idle, Querying, Handed}, DryRunQuery, threadStarts);
      case ConfirmCleanCommand => CommandKeepsInv(w, e);
      case ExecuteCommand(_) => CommandKeepsInv(w, e);
      case CancelCommand(_, _) => EndedKeepsInv(w);
      case RecoveryReports => EndedKeepsInv(w);
      case ReactorRuns(k, p) => ReactorKeepsInv(w, k, p);
      case _ => ChannelKeepsInv(w, e);
    } else {
      assert DaemonWorker.Inv(DaemonWorker.NEW_WORLD);
    }
  }

  /** In every run, each hand-off to execution follows an ok dry run of the same flow that both sources call
      clean, or an ok dry run of the same flow and then an attestation. */
  lemma {:induction false} HandOffFollowsPlanAndCleanNozzle(events: seq<Event>, k: nat)
    requires k < |Run(events).notes| && Run(events).notes[k] == HandedOff
    ensures Cleared(Run(events).notes[..k])
  {
    WizardRunKeepsInv(events);
  }

  /** In every run, the answer to a query that a reset dismissed changes nothing the wizard holds. */
  lemma {:induction false} DismissedAnswerChangesNothing(events: seq<Event>, k: nat, p: Payload)
    requires var w := Run(events); In(w.channel, k, Queued) && !Undismissed(w.channel.history, w.channel.tasks[k].id)
    ensures var w := Run(events); var v := Step(w, ReactorRuns(k, p)); v.flow == w.flow && v.notes == w.notes
  {
    WizardRunKeepsInv(events);
    assert TaskIsTracked(Run(events).channel, Run(events).channel.tasks[k]);
  }

  /** In every run, an answer that is delivered finds the wizard still waiting for it. */
  lemma {:induction false} DeliveredAnswerIsAwaited(events: seq<Event>, k: nat, p: Payload)
    requires Step(Run(events), ReactorRuns(k, p)).flow != Run(events).flow || Step(Run(events), ReactorRuns(k, p)).notes != Run(events).notes
    ensures Run(events).flow.state == Querying
  {
    WizardRunKeepsInv(events);
    var w := Run(events);
    assert In(w.channel, k, Queued) && TaskIsTracked(w.channel, w.channel.tasks[k]);
  }
}
