/** The recovery conversation as a whole: the session, its one channel, plrd, the detached aborts, the
    operator, shutdown and the clock, as one transition system whose every run is considered. */
module RecoverySystem {
  import opened RecoveryProtocol

  /** plrd, as far as the protocol records it.  `attached` work answers the session's call in flight.
      An unanswered pause is aborted at `since` + deadline; that abort, like a detached one, is over before `before`. */
  datatype Plrd =
    | Free
    | Foreign
    | Executing(attached: bool)
    | Paused(token: nat, since: real)
    | Aborting(before: Option<real>, attached: bool)

  /** plrd is executing or paused on this session's recovery. */
  predicate Ours(p: Plrd) {
    p.Executing? || p.Paused? || p.Aborting?
  }

  predicate Attached(p: Plrd) {
    (p.Executing? || p.Aborting?) && p.attached
  }

  datatype Request = Execute | Confirm(token: nat, answer: Answer)

  /** The session's channel: one call at a time, from the request to the queued reply or failure. */
  datatype Channel =
    | Quiet
    | Sent(req: Request)
    | Serving(req: Request)
    | Replied(req: Request, response: Response)
    | Failed(req: Request)

  /** `aborts` are detached aborts not yet reported; `late` the tokens of those reported, which plrd may still take up. */
  datatype System = System(
    session: Session,
    channel: Channel,
    plrd: Plrd,
    aborts: seq<DetachedAbort>,
    late: seq<nat>,
    shutdown: bool,
    now: real)

  /** Fixed for a run: the plugin's reading of the key and the deadline plrd really uses. */
  datatype Config = Config(configured: Setting, deadline: real)

  /** plrd uses the configured deadline when it is a positive number, and else some deadline of its own band, up to an hour. */
  predicate Coherent(c: Config) {
    if c.configured.Number? && c.configured.seconds > 0.0 then c.deadline == c.configured.seconds else 0.0 < c.deadline <= 3600.0
  }

  /** How long plrd may clean up after a question it aborts, in seconds. */
  const PLRD_CLEANUP_S: real := 30.0

  /** One step of a run: an operator command, a choice of plrd's, a delivery, a timer, shutdown, or time. */
  datatype Event =
    | OperatorStart(launches: bool)
    | OperatorAnswer(answer: Answer, launches: bool)
    | OperatorCancel(launches: bool)
    | Dispatch(response: Response)
    | PlrdAccepts
    | PlrdPauses(token: nat, response: Response)
    | PlrdEnds(response: Response)
    | PlrdFails(response: Response, stillExecuting: bool)
    | DeadlineExpires
    | CleanupDone
    | ForeignChanges
    | TransportFails
    | Deliver
    | WaitTimer
    | ClaimTimer
    | AbortReaches(index: nat)
    | AbortReports(index: nat)
    | LateAbortReaches(index: nat)
    | KlippyShutdown
    | TimePasses(to: real)

  // ----- what plrd may reply -----

  // plrd chooses its replies by tag and `ok`, as its own side of the protocol records them, not by how they are read.

  /** Nothing is left running: one of the outcomes that prove it, or `ok`, which plrd sends only for a good outcome. */
  predicate SaysFinished(r: Response) {
    r.Reply? &&
    match r.tag
    case Completed => true
    case AbortedOrRefused => true
    case RefusedTag => true
    case CleanShutdown => true
    case MachineRejected => true
    case ManualFallback => true
    case NotPossible => true
    case Malformed => r.ok
    case ErrorTag => r.ok
    case OtherTag => r.ok
    case MissingTag => r.ok
    case _ => false
  }

  predicate AsksToConfirm(r: Response) {
    r.Reply? && r.tag == AwaitingConfirmation
  }

  predicate SaysBusy(r: Response) {
    r.Reply? && r.tag == BusyTag
  }

  predicate SaysUnknownToken(r: Response) {
    r.Reply? && r.tag == UnknownTokenTag
  }

  /** Rejected before dispatch. */
  predicate RejectsRequest(r: Response) {
    r.Reply? && (r.tag == UnknownCmd || r.tag == Oversized)
  }

  predicate IsMalformed(r: Response) {
    r.Reply? && r.tag == Malformed && !r.ok
  }

  /** `error`, a tag this plugin does not know, or no data at all. */
  predicate SaysNothing(r: Response) {
    !r.Reply? || (!r.ok && r.tag in {ErrorTag, OtherTag, MissingTag})
  }

  /** Every response is one of these and no other, and the single reading takes each for what plrd says. */
  lemma ReadAsSaid(r: Response)
    ensures SaysFinished(r) <==> Classify(r) == Terminal
    ensures AsksToConfirm(r) <==> Classify(r) == PauseKindOf
    ensures SaysBusy(r) <==> Classify(r) == BusyKind
    ensures SaysUnknownToken(r) <==> Classify(r) == StaleToken
    ensures RejectsRequest(r) <==> Classify(r) == ProtocolRefusal
    ensures IsMalformed(r) || SaysNothing(r) <==> Classify(r) == Unclassifiable
    ensures !(IsMalformed(r) && SaysNothing(r))
  {
  }

  /** A reply to `recover_execute` sent without starting anything. */
  predicate ExecuteRefusal(p: Plrd, r: Response) {
    SaysBusy(r) || RejectsRequest(r) || IsMalformed(r) || SaysNothing(r) || (SaysFinished(r) && p.Free?)
  }

  /** A reply to `recover_confirm` that leaves plrd as it was: `unknown-token` whenever the token is not the one
      outstanding, whether plrd is idle, executing, paused on another question or already aborting. */
  predicate ConfirmRefusal(p: Plrd, token: nat, r: Response) {
    || SaysBusy(r) || RejectsRequest(r) || IsMalformed(r) || SaysNothing(r)
    || (SaysUnknownToken(r) && !(p.Paused? && p.token == token))
  }

  predicate Accepts(p: Plrd, req: Request) {
    match req
    case Execute => p.Free?
    case Confirm(token, _) => p.Paused? && p.token == token
  }

  function Accepted(p: Plrd, req: Request): Plrd {
    if req.Confirm? && req.answer == Abort then Aborting(None, true) else Executing(true)
  }

  /** Time stops at an unanswered pause's deadline until plrd aborts it, and before the end of a bounded cleanup. */
  predicate MayReach(p: Plrd, to: real, c: Config) {
    match p
    case Paused(_, since) => to <= since + c.deadline
    case Aborting(Some(before), _) => to < before
    case _ => true
  }

  // ----- one step -----

  function WithAbort(sys: System, s: Session, a: Option<DetachedAbort>): System {
    sys.(session := s, aborts := if a.Some? then sys.aborts + [a.value] else sys.aborts)
  }

  predicate ChannelBusyNow(sys: System) {
    !sys.channel.Quiet?
  }

  function StartStep(sys: System, launches: bool): System {
    var (s, verdict, abandoned) := Start(sys.session, sys.shutdown, ChannelBusyNow(sys), launches);
    var next := WithAbort(sys, s, abandoned);
    if verdict == Done then next.(channel := Sent(Execute)) else next
  }

  function AnswerStep(sys: System, a: Answer, launches: bool, c: Config): System {
    var (s, verdict) := AnswerPause(sys.session, a, sys.shutdown, ChannelBusyNow(sys), launches, c.configured, sys.now);
    if verdict == Done && sys.session.token.Some? then sys.(session := s, channel := Sent(Confirm(sys.session.token.value, a)))
    else sys.(session := s)
  }

  function CancelStep(sys: System, launches: bool, c: Config): System {
    var (s, verdict) := Cancel(sys.session, sys.shutdown, ChannelBusyNow(sys), launches, c.configured, sys.now);
    if verdict == Done && sys.session.token.Some? then sys.(session := s, channel := Sent(Confirm(sys.session.token.value, Abort)))
    else sys.(session := s)
  }

  function DispatchStep(sys: System, r: Response): System {
    if !sys.channel.Sent? then sys
    else match sys.channel.req
      case Execute => if ExecuteRefusal(sys.plrd, r) then sys.(channel := Replied(sys.channel.req, r)) else sys
      case Confirm(token, _) => if ConfirmRefusal(sys.plrd, token, r) then sys.(channel := Replied(sys.channel.req, r)) else sys
  }

  function AcceptStep(sys: System): System {
    if sys.channel.Sent? && Accepts(sys.plrd, sys.channel.req) then
      sys.(channel := Serving(sys.channel.req), plrd := Accepted(sys.plrd, sys.channel.req))
    else sys
  }

  /** plrd stops to ask; the reply carries the token, or no usable one. */
  function PauseStep(sys: System, token: nat, r: Response): System {
    if !sys.plrd.Executing? then sys
    else
      var paused := sys.(plrd := Paused(token, sys.now));
      if !sys.plrd.attached then paused
      else if sys.channel.Serving? && AsksToConfirm(r) && (r.resumeToken.Some? ==> r.resumeToken.value == token) then
        paused.(channel := Replied(sys.channel.req, r))
      else sys
  }

  function EndStep(sys: System, r: Response): System {
    if !Attached(sys.plrd) then (if sys.plrd.Executing? then sys.(plrd := Free) else sys)
    else if sys.channel.Serving? && SaysFinished(r) then
      sys.(plrd := Free, channel := Replied(sys.channel.req, r))
    else sys
  }

  /** The execution task failed: an answer that says nothing, with plrd idle or still moving.  (`malformed` is
      only ever sent before an answer is taken up.) */
  function FailStep(sys: System, r: Response, stillExecuting: bool): System {
    if Attached(sys.plrd) && sys.channel.Serving? && SaysNothing(r) then
      sys.(plrd := if stillExecuting then Executing(false) else Free, channel := Replied(sys.channel.req, r))
    else sys
  }

  function DeadlineStep(sys: System, c: Config): System {
    if sys.plrd.Paused? && sys.now >= sys.plrd.since + c.deadline then
      sys.(plrd := Aborting(Some(sys.now + PLRD_CLEANUP_S), false))
    else sys
  }

  function CleanupStep(sys: System): System {
    if sys.plrd.Aborting? && !sys.plrd.attached then sys.(plrd := Free) else sys
  }

  function ForeignStep(sys: System): System {
    if sys.plrd.Free? then sys.(plrd := Foreign)
    else if sys.plrd.Foreign? then sys.(plrd := Free)
    else sys
  }

  /** The call fails: its request never reaches plrd, or plrd works on with nobody listening. */
  function TransportStep(sys: System): System {
    match sys.channel
    case Sent(req) => sys.(channel := Failed(req))
    case Serving(req) => sys.(channel := Failed(req), plrd := if Attached(sys.plrd) then sys.plrd.(attached := false) else sys.plrd)
    case _ => sys
  }

  function DeliverStep(sys: System, c: Config): System {
    match sys.channel
    case Replied(_, r) =>
      var (s, a) := OnResponse(sys.session, r, sys.shutdown, c.configured, sys.now);
      WithAbort(sys, s, a).(channel := Quiet)
    case Failed(_) => sys.(session := OnError(sys.session), channel := Quiet)
    case _ => sys
  }

  function TimerStep(sys: System): System {
    if sys.session.timer.At? && sys.now >= sys.session.timer.wake then sys.(session := OnExpiry(sys.session)) else sys
  }

  function ClaimStep(sys: System): System {
    if sys.session.claimTimer.At? && sys.now >= sys.session.claimTimer.wake then sys.(session := OnClaimExpiry(sys.session)) else sys
  }

  /** A detached abort arrives: it ends the pause it names and nothing else. */
  function AbortReachesStep(sys: System, index: nat): System {
    if index < |sys.aborts| && sys.plrd.Paused? && sys.plrd.token == sys.aborts[index].token then
      sys.(plrd := Aborting(Some(sys.now + PLRD_CLEANUP_S), false))
    else sys
  }

  /** The same after its outcome was reported: the report may have been a failure of the transport. */
  function LateAbortStep(sys: System, index: nat): System {
    if index < |sys.late| && sys.plrd.Paused? && sys.plrd.token == sys.late[index] then
      sys.(plrd := Aborting(Some(sys.now + PLRD_CLEANUP_S), false))
    else sys
  }

  /** Its outcome, whatever it was, is reported once. */
  function AbortReportsStep(sys: System, index: nat): System {
    if index < |sys.aborts| then
      sys.(session := AbortReported(sys.session, sys.aborts[index].epoch), aborts := sys.aborts[..index] + sys.aborts[index + 1..],
           late := sys.late + [sys.aborts[index].token])
    else sys
  }

  function ShutdownStep(sys: System): System {
    if sys.shutdown then sys
    else
      var (s, a) := HandleShutdown(sys.session);
      WithAbort(sys, s, a).(shutdown := true)
  }

  function TimeStep(sys: System, to: real, c: Config): System {
    if to >= sys.now && MayReach(sys.plrd, to, c) then sys.(now := to) else sys
  }

  /** An event that is not enabled changes nothing. */
  function Step(sys: System, e: Event, c: Config): System {
    match e
    case OperatorStart(launches) => StartStep(sys, launches)
    case OperatorAnswer(a, launches) => AnswerStep(sys, a, launches, c)
    case OperatorCancel(launches) => CancelStep(sys, launches, c)
    case Dispatch(r) => DispatchStep(sys, r)
    case PlrdAccepts => AcceptStep(sys)
    case PlrdPauses(token, r) => PauseStep(sys, token, r)
    case PlrdEnds(r) => EndStep(sys, r)
    case PlrdFails(r, still) => FailStep(sys, r, still)
    case DeadlineExpires => DeadlineStep(sys, c)
    case CleanupDone => CleanupStep(sys)
    case ForeignChanges => ForeignStep(sys)
    case TransportFails => TransportStep(sys)
    case Deliver => DeliverStep(sys, c)
    case WaitTimer => TimerStep(sys)
    case ClaimTimer => ClaimStep(sys)
    case AbortReaches(k) => AbortReachesStep(sys, k)
    case AbortReports(k) => AbortReportsStep(sys, k)
    case LateAbortReaches(k) => LateAbortStep(sys, k)
    case KlippyShutdown => ShutdownStep(sys)
    case TimePasses(to) => TimeStep(sys, to, c)
  }

  predicate Initial(sys: System) {
    sys.session == NEW_SESSION && sys.channel == Quiet && !Ours(sys.plrd) && sys.aborts == [] && sys.late == [] && !sys.shutdown
  }

  function Run(sys: System, events: seq<Event>, c: Config): System {
    if events == [] then sys else Step(Run(sys, events[..|events| - 1], c), events[|events| - 1], c)
  }

  // ----- the invariant -----

  /** What plrd can be doing about a question whose token the session still trusts: nothing, waiting for
      exactly that answer, or cleaning up after an unanswered pause. */
  predicate Standing(p: Plrd, token: nat) {
    match p
    case Free => true
    case Foreign => true
    case Executing(_) => false
    case Paused(t, _) => t == token
    case Aborting(before, attached) => before.Some? && !attached
  }

  /** A wait that ends at `wake` outlasts plrd's deadline and cleanup. */
  predicate Outlasts(p: Plrd, wake: real, c: Config) {
    match p
    case Paused(_, since) => since + c.deadline + PLRD_CLEANUP_S <= wake
    case Aborting(Some(before), _) => before <= wake
    case _ => true
  }

  predicate PlrdTimely(sys: System, c: Config) {
    match sys.plrd
    case Paused(_, since) => since <= sys.now <= since + c.deadline
    case Aborting(Some(before), _) => sys.now < before <= sys.now + PLRD_CLEANUP_S
    case _ => true
  }

  /** Published `running` means exactly one request in flight, and a token means none. */
  predicate OneConversation(sys: System) {
    && !sys.session.closed
    && (sys.session.state == Running <==> sys.channel != Quiet)
    && (sys.session.token.Some? ==> sys.channel == Quiet)
    && Attached(sys.plrd) == sys.channel.Serving?
    && (sys.channel != Quiet ==>
          match sys.channel.req
          case Execute => sys.session.answeringToken == None && sys.session.prior in {Idle, PlrdBusy, Unknown}
          case Confirm(t, _) => sys.session.answeringToken == Some(t) && sys.session.prior != Running)
  }

  /** The session only trusts a token plrd can still be waiting on, and waits longer than plrd will. */
  predicate TokenTrusted(sys: System, c: Config) {
    sys.session.token.Some? ==>
      && Standing(sys.plrd, sys.session.token.value)
      && (sys.session.timer.At? ==> Outlasts(sys.plrd, sys.session.timer.wake, c))
  }

  /** The same for a token that is out with an answer plrd has not taken up, or in with a pause not yet delivered. */
  predicate TokenInFlight(sys: System) {
    match sys.channel
    case Sent(Confirm(t, _)) => Standing(sys.plrd, t)
    case Replied(req, r) =>
      && (SaysFinished(r) ==> !Ours(sys.plrd))
      && (AsksToConfirm(r) && r.resumeToken.Some? ==> Standing(sys.plrd, r.resumeToken.value))
      && (req.Confirm? && (SaysBusy(r) || IsMalformed(r)) ==> Standing(sys.plrd, req.token))
    case _ => true
  }

  /** `idle` is never published, nor about to be restored, while plrd is on this session's recovery. */
  predicate IdleIsHonest(sys: System) {
    && (sys.session.state == Idle ==> !Ours(sys.plrd))
    && (sys.channel.Sent? && sys.session.prior == Idle ==> !Ours(sys.plrd))
    && (sys.channel.Replied? && RejectsRequest(sys.channel.response) && sys.session.prior == Idle ==> !Ours(sys.plrd))
  }

  predicate AbortsTagged(sys: System) {
    forall k | 0 <= k < |sys.aborts| ::
      sys.aborts[k].epoch <= sys.session.epoch && (sys.aborts[k].epoch == sys.session.epoch ==> sys.channel == Quiet && sys.shutdown)
  }

  /** A question that was lost has no deadline left running. */
  predicate LostQuestionIsSilent(s: Session) {
    s.state == Awaiting && s.token.None? ==> !s.timer.At? && !s.claimTimer.At?
  }

  predicate Inv(sys: System, c: Config) {
    && LostQuestionIsSilent(sys.session)
    && OneConversation(sys) && TokenTrusted(sys, c) && TokenInFlight(sys) && IdleIsHonest(sys) && AbortsTagged(sys) && PlrdTimely(sys, c)
  }

  lemma InitialInv(sys: System, c: Config)
    requires Initial(sys)
    ensures Inv(sys, c)
  {
  }

  lemma StartKeepsInv(sys: System, launches: bool, c: Config)
    requires Inv(sys, c)
    ensures Inv(StartStep(sys, launches), c)
  {
  }

  /** An answer that was not sent leaves the deadlines as they were. */
  lemma UnsentAnswerKeepsTimers(s: Session, a: Answer, shutdown: bool, channelBusy: bool, launches: bool, configured: Setting, now: real)
    requires !s.timer.Unregistered? || !s.claimTimer.Unregistered?
    ensures var (t, verdict) := AnswerPause(s, a, shutdown, channelBusy, launches, configured, now);
            verdict != Done ==> t.timer == s.timer && t.claimTimer == s.claimTimer
  {
  }

  lemma AnswerKeepsInv(sys: System, a: Answer, launches: bool, c: Config)
    requires Inv(sys, c) && Coherent(c)
    ensures Inv(AnswerStep(sys, a, launches, c), c)
  {
    var s := sys.session;
    var (t, verdict) := AnswerPause(s, a, sys.shutdown, ChannelBusyNow(sys), launches, c.configured, sys.now);
    if !s.timer.Unregistered? || !s.claimTimer.Unregistered? {
      UnsentAnswerKeepsTimers(s, a, sys.shutdown, ChannelBusyNow(sys), launches, c.configured, sys.now);
    }
    if verdict == Done {
      AnswerSent(sys, a, c);
    } else {
      AnswerRefused(sys, t, c);
    }
    hide Inv, Spent, TakenBack;
  }

  lemma AnswerSent(sys: System, a: Answer, c: Config)
    requires Inv(sys, c) && sys.session.token.Some?
    ensures Inv(sys.(session := Spent(sys.session, a), channel := Sent(Confirm(sys.session.token.value, a))), c)
  {
    hide Classify;
  }

  /** A refused answer changes at most the epoch, the prior state and never-armed timers. */
  lemma AnswerRefused(sys: System, t: Session, c: Config)
    requires Inv(sys, c) && Coherent(c)
    requires t == sys.session || (sys.session.token.Some? && !t.closed && t.state == sys.session.state && t.token == sys.session.token && t.token.Some? && t.epoch == sys.session.epoch + 1)
    requires t.timer == sys.session.timer || t.timer == At(sys.now + PromptDeadline(c.configured))
    ensures Inv(sys.(session := t), c)
  {
  }

  lemma TakenUpKeepsInv(sys: System, c: Config)
    requires Inv(sys, c)
    ensures Inv(AcceptStep(sys), c)
  {
    hide Classify;
  }

  lemma RefusedKeepsInv(sys: System, r: Response, c: Config)
    requires Inv(sys, c)
    ensures Inv(DispatchStep(sys, r), c)
  {
  }

  lemma PausedKeepsInv(sys: System, token: nat, r: Response, c: Config)
    requires Inv(sys, c) && Coherent(c)
    ensures Inv(PauseStep(sys, token, r), c)
  {
    hide Classify;
  }

  lemma EndedKeepsInv(sys: System, r: Response, c: Config)
    requires Inv(sys, c)
    ensures Inv(EndStep(sys, r), c)
  {
    hide Classify;
  }

  lemma FailedKeepsInv(sys: System, r: Response, stillExecuting: bool, c: Config)
    requires Inv(sys, c)
    ensures Inv(FailStep(sys, r, stillExecuting), c)
  {
    hide Classify;
  }

  lemma TransportKeepsInv(sys: System, c: Config)
    requires Inv(sys, c)
    ensures Inv(TransportStep(sys), c)
  {
    hide Classify;
  }

  lemma ForeignKeepsInv(sys: System, c: Config)
    requires Inv(sys, c)
    ensures Inv(ForeignStep(sys), c)
  {
    hide Classify;
  }

  lemma DeadlineKeepsInv(sys: System, c: Config)
    requires Inv(sys, c)
    ensures Inv(DeadlineStep(sys, c), c) && Inv(CleanupStep(sys), c)
  {
    hide Classify;
  }

  lemma TimeKeepsInv(sys: System, to: real, c: Config)
    requires Inv(sys, c)
    ensures Inv(TimeStep(sys, to, c), c)
  {
    hide Classify;
  }

  /** Ending the pause a detached abort names, whether or not the abort was reported before. */
  lemma AbortKeepsInv(sys: System, index: nat, c: Config)
    requires Inv(sys, c)
    ensures Inv(AbortReachesStep(sys, index), c) && Inv(LateAbortStep(sys, index), c)
  {
    hide Classify;
  }

  /** A wait armed now outlasts whatever plrd may still do about a standing question. */
  lemma ArmedNowOutlasts(sys: System, token: nat, c: Config)
    requires PlrdTimely(sys, c) && Coherent(c) && Standing(sys.plrd, token)
    ensures Outlasts(sys.plrd, sys.now + PromptDeadline(c.configured), c)
  {
  }

  lemma PauseDelivered(sys: System, c: Config)
    requires Inv(sys, c) && Coherent(c) && sys.channel.Replied? && AsksToConfirm(sys.channel.response)
    ensures Inv(DeliverStep(sys, c), c)
  {
    var r := sys.channel.response;
    if r.resumeToken.Some? { ArmedNowOutlasts(sys, r.resumeToken.value, c); }
  }

  lemma QuestionKept(sys: System, c: Config)
    requires Inv(sys, c) && Coherent(c) && sys.channel.Replied?
    requires SaysBusy(sys.channel.response) || IsMalformed(sys.channel.response)
    ensures Inv(DeliverStep(sys, c), c)
  {
    if SaysBusy(sys.channel.response) { BusyKeepsQuestion(sys, c); } else { MalformedKeepsQuestion(sys, c); }
  }

  lemma BusyKeepsQuestion(sys: System, c: Config)
    requires Inv(sys, c) && Coherent(c) && sys.channel.Replied? && SaysBusy(sys.channel.response)
    ensures Inv(DeliverStep(sys, c), c)
  {
    var req := sys.channel.req;
    if req.Confirm? { ArmedNowOutlasts(sys, req.token, c); }
    ReadAsSaid(sys.channel.response);
    hide Classify, PromptDeadline, Outlasts;
  }

  lemma MalformedKeepsQuestion(sys: System, c: Config)
    requires Inv(sys, c) && Coherent(c) && sys.channel.Replied? && IsMalformed(sys.channel.response)
    ensures Inv(DeliverStep(sys, c), c)
  {
    var req := sys.channel.req;
    if req.Confirm? { ArmedNowOutlasts(sys, req.token, c); }
    ReadAsSaid(sys.channel.response);
    hide Classify, PromptDeadline, Outlasts;
  }

  lemma ReplyEndsConversation(sys: System, c: Config)
    requires Inv(sys, c) && Coherent(c) && sys.channel.Replied?
    requires var r := sys.channel.response; SaysUnknownToken(r) || RejectsRequest(r) || SaysFinished(r) || SaysNothing(r)
    ensures Inv(DeliverStep(sys, c), c)
  {
    ReadAsSaid(sys.channel.response);
    hide PromptDeadline, ClaimDeadline, Outlasts, Classify;
  }

  lemma DeliveryKeepsInv(sys: System, c: Config)
    requires Inv(sys, c) && Coherent(c)
    ensures Inv(DeliverStep(sys, c), c)
  {
    match sys.channel
    case Replied(_, r) =>
      ReadAsSaid(r);
      if AsksToConfirm(r) { PauseDelivered(sys, c); }
      else if SaysBusy(r) || IsMalformed(r) { QuestionKept(sys, c); }
      else { ReplyEndsConversation(sys, c); }
    case Failed(_) =>
    case _ =>
  }

  /** When the wait ends the question with `idle`, plrd's deadline has passed and its cleanup is over. */
  lemma ExpiryOnlyAfterPlrdIsDone(sys: System, c: Config)
    requires Inv(sys, c) && Coherent(c)
    requires sys.session.token.Some? && sys.session.timer.At? && sys.now >= sys.session.timer.wake
    ensures !Ours(sys.plrd)
  {
  }

  lemma WaitKeepsInv(sys: System, c: Config)
    requires Inv(sys, c) && Coherent(c)
    ensures Inv(TimerStep(sys), c)
  {
    hide Classify;
    if sys.session.token.Some? && sys.session.timer.At? && sys.now >= sys.session.timer.wake { ExpiryOnlyAfterPlrdIsDone(sys, c); }
  }

  lemma ClaimKeepsInv(sys: System, c: Config)
    requires Inv(sys, c)
    ensures Inv(ClaimStep(sys), c)
  {
    hide Classify;
  }

  lemma ReportKeepsInv(sys: System, index: nat, c: Config)
    requires Inv(sys, c)
    ensures Inv(AbortReportsStep(sys, index), c)
  {
    hide Classify;
  }

  lemma ShutdownKeepsInv(sys: System, c: Config)
    requires Inv(sys, c)
    ensures Inv(ShutdownStep(sys), c)
  {
    hide Classify;
  }

  lemma StepKeepsInv(sys: System, e: Event, c: Config)
    requires Inv(sys, c) && Coherent(c)
    ensures Inv(Step(sys, e, c), c)
  {
    hide Inv, StartStep, AnswerStep, DispatchStep, AcceptStep, PauseStep, EndStep, FailStep, DeadlineStep, CleanupStep, ForeignStep,
         TransportStep, DeliverStep, TimerStep, ClaimStep, AbortReachesStep, LateAbortStep, AbortReportsStep, ShutdownStep, TimeStep;
    match e
    case OperatorStart(launches) => StartKeepsInv(sys, launches, c);
    case OperatorAnswer(a, launches) => AnswerKeepsInv(sys, a, launches, c);
    case OperatorCancel(launches) =>
      CancelIsAbort(sys, launches, c);
      AnswerKeepsInv(sys, Abort, launches, c);
    case Dispatch(r) => RefusedKeepsInv(sys, r, c);
    case PlrdAccepts => TakenUpKeepsInv(sys, c);
    case PlrdPauses(token, r) => PausedKeepsInv(sys, token, r, c);
    case PlrdEnds(r) => EndedKeepsInv(sys, r, c);
    case PlrdFails(r, still) => FailedKeepsInv(sys, r, still, c);
    case Deliver => DeliveryKeepsInv(sys, c);
    case WaitTimer => WaitKeepsInv(sys, c);
    case ClaimTimer => ClaimKeepsInv(sys, c);
    case AbortReports(k) => ReportKeepsInv(sys, k, c);
    case KlippyShutdown => ShutdownKeepsInv(sys, c);
    case DeadlineExpires => DeadlineKeepsInv(sys, c);
    case CleanupDone => DeadlineKeepsInv(sys, c);
    case ForeignChanges => ForeignKeepsInv(sys, c);
    case TransportFails => TransportKeepsInv(sys, c);
    case AbortReaches(k) => AbortKeepsInv(sys, k, c);
    case LateAbortReaches(k) => AbortKeepsInv(sys, k, c);
    case TimePasses(to) => TimeKeepsInv(sys, to, c);
  }

  /** A cancel is the abort answer, or nothing. */
  lemma CancelIsAbort(sys: System, launches: bool, c: Config)
    ensures CancelStep(sys, launches, c) == AnswerStep(sys, Abort, launches, c) || CancelStep(sys, launches, c) == sys
  {
    hide AnswerPause;
  }

  // ----- every run -----

  lemma {:induction false} RunKeepsInv(sys: System, events: seq<Event>, c: Config)
    requires Initial(sys) && Coherent(c)
    ensures Inv(Run(sys, events, c), c)
  {
    if events == [] {
      InitialInv(sys, c);
    } else {
      var before := events[..|events| - 1];
      RunKeepsInv(sys, before, c);
      StepKeepsInv(Run(sys, before, c), events[|events| - 1], c);
    }
  }

  /** In every run, `idle` is never published while plrd is executing or paused on this session's recovery. */
  lemma {:induction false} IdleIsNeverPublishedOverAnEngagedPlrd(sys: System, events: seq<Event>, c: Config)
    requires Initial(sys) && Coherent(c)
    ensures var end := Run(sys, events, c); end.session.state == Idle ==> !Ours(end.plrd)
  {
    RunKeepsInv(sys, events, c);
  }

  /** In every run, `running` is published exactly while one request is in flight, and a held token means none is. */
  lemma {:induction false} RunningMeansOneRequestInFlight(sys: System, events: seq<Event>, c: Config)
    requires Initial(sys) && Coherent(c)
    ensures var end := Run(sys, events, c);
            && (end.session.state == Running <==> end.channel != Quiet)
            && (CanAnswer(end.session) ==> end.channel == Quiet)
  {
    RunKeepsInv(sys, events, c);
  }

  /** In every run, a wait that fires on a held token fires after plrd's own deadline and cleanup: whenever
      `_on_expiry` publishes `idle`, plrd is done. */
  lemma {:induction false} ExpiryFollowsPlrdsOwn(sys: System, events: seq<Event>, c: Config)
    requires Initial(sys) && Coherent(c)
    ensures var end := Run(sys, events, c);
            end.session.token.Some? && end.session.timer.At? && end.now >= end.session.timer.wake ==> !Ours(end.plrd)
  {
    RunKeepsInv(sys, events, c);
    var end := Run(sys, events, c);
    if end.session.token.Some? && end.session.timer.At? && end.now >= end.session.timer.wake {
      ExpiryOnlyAfterPlrdIsDone(end, c);
    }
  }

  // ----- the guard never has to refuse -----

  /** A call of the one writer: the state it finds, the one it asks for, and whether it names a reason. */
  datatype Call = Call(from: State, to: State, reason: bool)

  predicate TurnedDown(call: Call) {
    call.to != call.from && Alarm(call.to) < Alarm(call.from) && !call.reason
  }

  /** The calls one event makes, in order. */
  function Calls(sys: System, e: Event, c: Config): seq<Call> {
    var s := sys.session;
    match e
    case OperatorStart(launches) =>
      if Start(s, sys.shutdown, ChannelBusyNow(sys), launches).1 == Done then [Call(s.state, Running, true)] else []
    case OperatorAnswer(a, launches) => AnswerCalls(sys, a, launches, c)
    case OperatorCancel(launches) => if CanAnswer(s) then AnswerCalls(sys, Abort, launches, c) else []
    case Deliver => DeliveryCalls(sys)
    case WaitTimer =>
      if s.timer.At? && sys.now >= s.timer.wake && s.token.Some? && (s.state == Awaiting || s.state == Unknown) then [Call(s.state, Idle, true)]
      else []
    case ClaimTimer =>
      if s.claimTimer.At? && sys.now >= s.claimTimer.wake && s.state == Awaiting then [Call(s.state, Unknown, false)] else []
    case AbortReports(k) => if k < |sys.aborts| && sys.aborts[k].epoch == s.epoch then Raise(s.state) else []
    case KlippyShutdown => if !sys.shutdown && s.token.Some? then Raise(s.state) else []
    case _ => []
  }

  /** `_raise_alarm` only calls the writer when the alarm does not fall. */
  function Raise(from: State): seq<Call> {
    if Alarm(Unknown) < Alarm(from) then [] else [Call(from, Unknown, false)]
  }

  function AnswerCalls(sys: System, a: Answer, launches: bool, c: Config): seq<Call> {
    var s := sys.session;
    var verdict := AnswerPause(s, a, sys.shutdown, ChannelBusyNow(sys), launches, c.configured, sys.now).1;
    if verdict == Done then [Call(s.state, Running, true)]
    else if verdict == NotLaunched then [Call(s.state, Running, true), Call(Running, s.state, true)]
    else []
  }

  function DeliveryCalls(sys: System): seq<Call> {
    match sys.channel
    case Replied(_, r) => ReplyCalls(sys.session, r, sys.shutdown)
    case Failed(_) => [Call(sys.session.state, Unknown, false)]
    case _ => []
  }

  function ReplyCalls(s: Session, r: Response, shutdown: bool): seq<Call> {
    match Classify(r)
    case PauseKindOf =>
      if r.resumeToken.None? then [Call(s.state, Unknown, false)]
      else if shutdown then Raise(s.state)
      else [Call(s.state, Awaiting, true)]
    case BusyKind => [Call(s.state, PlrdBusy, false)]
    case StaleToken => [Call(s.state, Unknown, false)]
    case ProtocolRefusal => [Call(s.state, s.prior, true)]
    case Terminal => [Call(s.state, Idle, true)]
    case Unclassifiable => [Call(s.state, Unknown, false)]
  }

  /** The recorded calls are the ones made: the last one's target is what the event publishes. */
  lemma CallsArePublished(sys: System, e: Event, c: Config)
    requires Inv(sys, c)
    ensures var calls := Calls(sys, e, c);
            Step(sys, e, c).session.state == if calls == [] then sys.session.state else calls[|calls| - 1].to
  {
    if e.OperatorAnswer? { AnswerCallsPublished(sys, e.answer, e.launches, c); }
    else if e.OperatorCancel? { AnswerCallsPublished(sys, Abort, e.launches, c); }
    else if e.Deliver? { DeliveryCallsPublished(sys, c); }
    else { QuietCallsPublished(sys, e, c); }
  }

  lemma DeliveryCallsPublished(sys: System, c: Config)
    requires Inv(sys, c)
    ensures var calls := DeliveryCalls(sys);
            DeliverStep(sys, c).session.state == if calls == [] then sys.session.state else calls[|calls| - 1].to
  {
    if sys.channel.Replied? {
      ReplyCallsPublished(sys.session, sys.channel.response, sys.shutdown, c.configured, sys.now);
    }
    hide OnResponse, ReplyCalls;
  }

  lemma ReplyCallsPublished(s: Session, r: Response, shutdown: bool, configured: Setting, now: real)
    requires s.state == Running && !s.closed
    ensures var calls := ReplyCalls(s, r, shutdown);
            OnResponse(s, r, shutdown, configured, now).0.state == if calls == [] then s.state else calls[|calls| - 1].to
  {
    hide Classify, PromptDeadline, ClaimDeadline;
  }

  lemma QuietCallsPublished(sys: System, e: Event, c: Config)
    requires Inv(sys, c) && !e.OperatorAnswer? && !e.OperatorCancel? && !e.Deliver?
    ensures var calls := Calls(sys, e, c);
            Step(sys, e, c).session.state == if calls == [] then sys.session.state else calls[|calls| - 1].to
  {
    hide OnResponse, AnswerPause;
  }

  lemma AnswerCallsPublished(sys: System, a: Answer, launches: bool, c: Config)
    ensures var calls := AnswerCalls(sys, a, launches, c);
            AnswerStep(sys, a, launches, c).session.state == if calls == [] then sys.session.state else calls[|calls| - 1].to
  {
  }

  /** In every run, the refusing branch of the one writer is never taken. */
  lemma {:induction false} WriterNeverRefuses(sys: System, events: seq<Event>, e: Event, c: Config)
    requires Initial(sys) && Coherent(c)
    ensures forall k | 0 <= k < |Calls(Run(sys, events, c), e, c)| :: !TurnedDown(Calls(Run(sys, events, c), e, c)[k])
  {
    RunKeepsInv(sys, events, c);
  }

  // ----- what becomes of a question -----

  /** A question the session lets go of is out with an answer, or aborted detached under its own token, or plrd is done
      with it. */
  lemma NoQuestionIsForgotten(sys: System, e: Event, c: Config)
    requires Inv(sys, c) && Coherent(c) && sys.session.token.Some? && Step(sys, e, c).session.token != sys.session.token
    ensures var t, next := sys.session.token.value, Step(sys, e, c);
            || (next.channel.Sent? && next.channel.req.Confirm? && next.channel.req.token == t)
            || (|next.aborts| == |sys.aborts| + 1 && next.aborts[|sys.aborts|].token == t)
            || !Ours(sys.plrd)
  {
    if e.WaitTimer? && sys.session.timer.At? && sys.now >= sys.session.timer.wake { ExpiryOnlyAfterPlrdIsDone(sys, c); }
    if e.OperatorCancel? { CancelIsAbort(sys, e.launches, c); }
    hide OnResponse, OnError, Classify;
  }

  // ----- dead ends -----

  /** Nothing in flight, nothing to answer, and no new recovery allowed. */
  predicate DeadEnd(sys: System) {
    !sys.shutdown && sys.channel == Quiet && !CanAnswer(sys.session) && !MayStartNew(sys.session)
  }

  /** plrd rejecting an answer before dispatching it. */
  predicate RefusesAnswer(sys: System, e: Event) {
    e.Dispatch? && sys.channel.Sent? && sys.channel.req.Confirm? && RejectsRequest(e.response)
  }

  /** The delivery that loses the question: an answer rejected unread, with `awaiting` to go back to. */
  predicate LosesQuestion(sys: System, e: Event) {
    && e.Deliver? && sys.channel.Replied? && sys.channel.req.Confirm?
    && RejectsRequest(sys.channel.response) && sys.session.prior == Awaiting
  }

  /** A step from a live state is a dead end exactly when it delivers such a rejection. */
  lemma DeadEndExactlyWhenQuestionLost(sys: System, e: Event, c: Config)
    requires Inv(sys, c) && !sys.shutdown && !DeadEnd(sys)
    ensures DeadEnd(Step(sys, e, c)) <==> LosesQuestion(sys, e)
  {
    if e.Deliver? {
      DeliveredDeadEnd(sys, c);
    } else if !e.OperatorAnswer? && !e.OperatorCancel? {
      NoDeadEndByOther(sys, e, c);
    }
    hide DeliverStep, OnResponse;
    if e.OperatorAnswer? {
      AnswerCallsPublished(sys, e.answer, e.launches, c);
    } else if e.OperatorCancel? {
      AnswerCallsPublished(sys, Abort, e.launches, c);
    }
  }

  lemma NoDeadEndByOther(sys: System, e: Event, c: Config)
    requires Inv(sys, c) && !sys.shutdown && !DeadEnd(sys) && !e.Deliver? && !e.OperatorAnswer? && !e.OperatorCancel?
    ensures !DeadEnd(Step(sys, e, c))
  {
    hide Classify, OnResponse, AnswerPause;
  }

  lemma DeliveredDeadEnd(sys: System, c: Config)
    requires Inv(sys, c) && !sys.shutdown && !DeadEnd(sys)
    ensures DeadEnd(DeliverStep(sys, c)) <==> LosesQuestion(sys, Deliver)
  {
    if sys.channel.Replied? { ReplyLosesQuestion(sys.session, sys.channel.response, c.configured, sys.now); }
    hide OnResponse;
  }

  /** A reply leaves nothing to do exactly when it refuses unread what was asked while awaiting. */
  lemma ReplyLosesQuestion(s: Session, r: Response, configured: Setting, now: real)
    requires !s.closed && s.state == Running && s.prior != Running && s.token.None?
    ensures var t := OnResponse(s, r, false, configured, now).0;
            !CanAnswer(t) && !MayStartNew(t) <==> RejectsRequest(r) && s.prior == Awaiting
  {
    hide PromptDeadline, ClaimDeadline;
  }

  /** Once there, nothing but a shutdown leads out. */
  lemma DeadEndIsPermanent(sys: System, e: Event, c: Config)
    requires Inv(sys, c) && DeadEnd(sys) && !e.KlippyShutdown?
    ensures DeadEnd(Step(sys, e, c))
  {
  }

  /** A run in which plrd rejects no answer unread. */
  predicate AnswersAreRead(sys: System, events: seq<Event>, c: Config) {
    events == [] || (AnswersAreRead(sys, events[..|events| - 1], c) &&
                     !RefusesAnswer(Run(sys, events[..|events| - 1], c), events[|events| - 1]))
  }

  predicate NoRejectedAnswer(sys: System) {
    sys.channel.Replied? && sys.channel.req.Confirm? ==> !RejectsRequest(sys.channel.response)
  }

  lemma {:induction false} ReadAnswersLeaveNoRejection(sys: System, events: seq<Event>, c: Config)
    requires Initial(sys) && Coherent(c) && AnswersAreRead(sys, events, c)
    ensures NoRejectedAnswer(Run(sys, events, c))
  {
    if events != [] {
      ReadAnswersLeaveNoRejection(sys, events[..|events| - 1], c);
      StepLeavesNoRejection(Run(sys, events[..|events| - 1], c), events[|events| - 1], c);
    }
  }

  lemma StepLeavesNoRejection(sys: System, e: Event, c: Config)
    requires NoRejectedAnswer(sys) && !RefusesAnswer(sys, e)
    ensures NoRejectedAnswer(Step(sys, e, c))
  {
    hide Classify, OnResponse, AnswerPause, Start, OnExpiry, HandleShutdown;
  }

  /** If protocol refusals only ever answer `recover_execute`, no run reaches a dead end. */
  lemma {:induction false} NoDeadEnds(sys: System, events: seq<Event>, c: Config)
    requires Initial(sys) && Coherent(c) && AnswersAreRead(sys, events, c)
    ensures !DeadEnd(Run(sys, events, c))
  {
    if events != [] {
      var before := events[..|events| - 1];
      NoDeadEnds(sys, before, c);
      RunKeepsInv(sys, before, c);
      ReadAnswersLeaveNoRejection(sys, before, c);
      var mid := Run(sys, before, c);
      if mid.shutdown {
        ShutdownStays(mid, events[|events| - 1], c);
      } else {
        DeadEndExactlyWhenQuestionLost(mid, events[|events| - 1], c);
      }
    }
  }

  lemma ShutdownStays(sys: System, e: Event, c: Config)
    requires sys.shutdown
    ensures Step(sys, e, c).shutdown
  {
  }

  /** Without that hypothesis one is reached: start, pause, answer `continue`, and plrd answers `unknown-cmd`. */
  lemma {:induction false} RejectedAnswerIsADeadEnd(c: Config, now: real)
    requires Coherent(c)
    ensures var start := System(NEW_SESSION, Quiet, Free, [], [], false, now);
            && Initial(start)
            && DeadEnd(Run(start, [OperatorStart(true), PlrdAccepts, PlrdPauses(7, PAUSE_REPLY), Deliver,
                                   OperatorAnswer(Continue, true), Dispatch(UNREAD_REPLY), Deliver], c))
  {
    var start := System(NEW_SESSION, Quiet, Free, [], [], false, now);
    var events := [OperatorStart(true), PlrdAccepts, PlrdPauses(7, PAUSE_REPLY), Deliver,
                   OperatorAnswer(Continue, true), Dispatch(UNREAD_REPLY), Deliver];
    RunOneMore(start, events, 7, c);
    RunOneMore(start, events, 6, c);
    RunOneMore(start, events, 5, c);
    RunOneMore(start, events, 4, c);
    RunOneMore(start, events, 3, c);
    RunOneMore(start, events, 2, c);
    RunOneMore(start, events, 1, c);
    assert events[..7] == events && events[..0] == [];
    hide Step, DeadEnd, Initial;
    QuestionReached(start, c);
    QuestionLost(Run(start, events[..4], c), c);
  }

  const PAUSE_REPLY := Reply(false, AwaitingConfirmation, Some(7), Binary)
  const UNREAD_REPLY := Reply(false, UnknownCmd, None, Binary)

  predicate AsksSeven(sys: System) {
    && !sys.shutdown && sys.channel == Quiet && sys.session.state == Awaiting && !sys.session.closed
    && sys.session.token == Some(7) && sys.session.data == Some(Binary)
  }

  lemma QuestionReached(start: System, c: Config)
    requires start.session == NEW_SESSION && start.channel == Quiet && start.plrd == Free && !start.shutdown
    ensures AsksSeven(Step(Step(Step(Step(start, OperatorStart(true), c), PlrdAccepts, c), PlrdPauses(7, PAUSE_REPLY), c), Deliver, c))
  {
    var s1 := StartStep(start, true);
    var s2 := AcceptStep(s1);
    var s3 := PauseStep(s2, 7, PAUSE_REPLY);
    assert s3.channel == Replied(Execute, PAUSE_REPLY) && s3.session == s1.session;
  }

  lemma QuestionLost(sys: System, c: Config)
    requires AsksSeven(sys)
    ensures DeadEnd(Step(Step(Step(sys, OperatorAnswer(Continue, true), c), Dispatch(UNREAD_REPLY), c), Deliver, c))
  {
    var s1 := AnswerStep(sys, Continue, true, c);
    assert s1.channel == Sent(Confirm(7, Continue)) && s1.session.prior == Awaiting && s1.session.state == Running;
    var s2 := DispatchStep(s1, UNREAD_REPLY);
    assert s2 == s1.(channel := Replied(s1.channel.req, UNREAD_REPLY));
  }

  lemma {:induction false} RunOneMore(sys: System, events: seq<Event>, n: nat, c: Config)
    requires 0 < n <= |events|
    ensures Run(sys, events[..n], c) == Step(Run(sys, events[..n - 1], c), events[n - 1], c)
  {
    assert events[..n][..n - 1] == events[..n - 1];
  }
}
