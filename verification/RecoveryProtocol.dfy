/** What the recovery session knows and how every event changes it, as functions on values: plrd's tags
    and their one classification, the deadlines, and the session's transitions. */
module RecoveryProtocol {

  datatype Option<T> = None | Some(value: T)

  // ----- plrd's answers -----

  datatype Tag =
    | AwaitingConfirmation | BusyTag | UnknownTokenTag
    | UnknownCmd | Oversized
    | Completed | AbortedOrRefused | RefusedTag | CleanShutdown | MachineRejected | ManualFallback | NotPossible
    | Malformed | ErrorTag | OtherTag | MissingTag

  /** `confirm_kind`: a resume preview is answered differently from every other pause. */
  datatype PauseKind = Preview | Binary

  /** A response map; `resumeToken` is None unless it is a non-empty string. */
  datatype Response =
    | NotAMap
    | NoData
    | Reply(ok: bool, tag: Tag, resumeToken: Option<nat>, kind: PauseKind)

  datatype Kind = PauseKindOf | BusyKind | StaleToken | ProtocolRefusal | Terminal | Unclassifiable

  predicate TerminalOutcome(tag: Tag) {
    tag in {Completed, AbortedOrRefused, RefusedTag, CleanShutdown, MachineRejected, ManualFallback, NotPossible}
  }

  /** The single reading of a response. */
  function Classify(r: Response): Kind {
    if !r.Reply? then Unclassifiable
    else if r.tag == AwaitingConfirmation then PauseKindOf
    else if r.tag == BusyTag then BusyKind
    else if r.tag == UnknownTokenTag then StaleToken
    else if r.tag == UnknownCmd || r.tag == Oversized then ProtocolRefusal
    else if TerminalOutcome(r.tag) then Terminal
    else if r.ok then Terminal
    else Unclassifiable
  }

  // ----- deadlines -----

  const CONFIRM_HEADROOM_S: real := 30.0
  const DAEMON_CONFIRM_CEILING_S: real := 3600.0
  const DAEMON_CONFIRM_DEFAULT_S: real := 600.0

  /** `[plr] confirm_timeout_s` as read: absent, a bool, a finite number, or NaN / infinity. */
  datatype Setting = Unset | NotANumber | Number(seconds: real) | NotFinite

  function DaemonConfirmDeadline(configured: Setting): (r: (real, bool))
    ensures r.0 > 0.0
  {
    if !configured.Number? || configured.seconds <= 0.0 then (DAEMON_CONFIRM_CEILING_S, false)
    else (configured.seconds, true)
  }

  function PromptDeadline(configured: Setting): real {
    DaemonConfirmDeadline(configured).0 + CONFIRM_HEADROOM_S
  }

  function ClaimDeadline(configured: Setting): Option<real> {
    if DaemonConfirmDeadline(configured).1 then None
    else Some(DAEMON_CONFIRM_DEFAULT_S + CONFIRM_HEADROOM_S)
  }

  // ----- the session -----

  datatype State = Idle | Running | Awaiting | PlrdBusy | Unknown

  function Alarm(s: State): nat {
    match s
    case Idle => 0
    case Running => 1
    case Awaiting => 1
    case PlrdBusy => 2
    case Unknown => 3
  }

  datatype Timer = Unregistered | Never | At(wake: real)

  datatype Answer = Continue | Abort | Accept | Next | Prev | Nudge(count: int)

  predicate PreviewAnswer(a: Answer) {
    a.Accept? || a.Next? || a.Prev? || a.Nudge?
  }

  /** An `abort` sent from a detached thread, tagged with the conversation it belongs to. */
  datatype DetachedAbort = DetachedAbort(token: nat, epoch: nat)

  datatype Session = Session(
    state: State,
    token: Option<nat>,
    data: Option<PauseKind>,
    answering: Option<Answer>,
    answeringToken: Option<nat>,
    prior: State,
    epoch: nat,
    pauses: nat,
    listener: bool,
    timer: Timer,
    claimTimer: Timer,
    closed: bool)

  const NEW_SESSION := Session(Idle, None, None, None, None, Idle, 0, 0, false, Unregistered, Unregistered, false)

  predicate MayStartNew(s: Session) {
    s.state == Idle || s.state == PlrdBusy || s.state == Unknown
  }

  predicate CanAnswer(s: Session) {
    s.token.Some?
  }

  /** The one writer of `state`: calmer only with a reason. */
  function Transition(s: Session, to: State, reason: bool): Session {
    if Alarm(to) < Alarm(s.state) && !reason then s else s.(state := to)
  }

  function RaiseAlarm(s: Session, to: State): Session {
    if Alarm(to) < Alarm(s.state) then s else Transition(s, to, false)
  }

  function NotifyFinished(s: Session): Session {
    s.(listener := false)
  }

  // ----- timers -----

  function ToNever(t: Timer): Timer {
    if t.Unregistered? then Unregistered else Never
  }

  function DisarmTimers(s: Session): Session {
    s.(timer := ToNever(s.timer), claimTimer := ToNever(s.claimTimer))
  }

  function ArmTimers(s: Session, configured: Setting, now: real): Session {
    var claim := ClaimDeadline(configured);
    s.(timer := At(now + PromptDeadline(configured)),
       claimTimer := if claim.None? then ToNever(s.claimTimer) else At(now + claim.value))
  }

  function RestoreTimers(s: Session, wait: Timer, claim: Timer, configured: Setting, now: real): Session {
    if wait.Unregistered? && claim.Unregistered? then ArmTimers(s, configured, now)
    else s.(timer := if !s.timer.Unregistered? && !wait.Unregistered? then wait else s.timer,
            claimTimer := if !s.claimTimer.Unregistered? && !claim.Unregistered? then claim else s.claimTimer)
  }

  // ----- operator commands -----

  /** Why a command was turned down. */
  datatype Verdict = Done | ShutDown | InFlight | ChannelBusy | NotLaunched | NothingToAnswer | WrongKind | NothingToCancel

  /** `start`.  `launches` is whether the worker thread could be started on the free channel. */
  function Start(s: Session, shutdown: bool, channelBusy: bool, launches: bool): (Session, Verdict, Option<DetachedAbort>) {
    if s.closed || shutdown then (s, ShutDown, None)
    else if !MayStartNew(s) then (s, InFlight, None)
    else if channelBusy then (s, ChannelBusy, None)
    else if !launches then (s.(listener := true), NotLaunched, None)
    else
      var abandoned := if s.token.Some? then Some(DetachedAbort(s.token.value, s.epoch)) else None;
      (Transition(s.(listener := true, pauses := 0, data := None, answering := None, answeringToken := None,
                     epoch := s.epoch + 1, prior := s.state, token := None),
                  Running, true),
       Done, abandoned)
  }

  /** The token spent on an answer, the deadlines stopped. */
  function Spent(s: Session, a: Answer): Session {
    DisarmTimers(Transition(s.(token := None, answeringToken := s.token, epoch := s.epoch + 1, prior := s.state), Running, true).(answering := Some(a)))
  }

  /** An answer that could not be sent, taken back: token, state and deadlines as before. */
  function TakenBack(sent: Session, token: Option<nat>, to: State, wait: Timer, claim: Timer, configured: Setting, now: real): Session {
    RestoreTimers(Transition(sent.(token := token, answeringToken := None), to, true).(answering := None), wait, claim, configured, now)
  }

  /** `answer`.  A refused answer leaves the token unspent. */
  function AnswerPause(s: Session, a: Answer, shutdown: bool, channelBusy: bool, launches: bool, configured: Setting, now: real): (Session, Verdict) {
    if !CanAnswer(s) then (s, NothingToAnswer)
    else if a != Abort && shutdown then (s, ShutDown)
    else if PreviewAnswer(a) && s.data != Some(Preview) then (s, WrongKind)
    else if a == Continue && s.data == Some(Preview) then (s, WrongKind)
    else if !channelBusy && launches then (Spent(s, a), Done)
    else (TakenBack(Spent(s, a), s.token, s.state, s.timer, s.claimTimer, configured, now), NotLaunched)
  }

  /** `cancel`: an outstanding question is answered `abort`; nothing else can be cancelled. */
  function Cancel(s: Session, shutdown: bool, channelBusy: bool, launches: bool, configured: Setting, now: real): (Session, Verdict) {
    if CanAnswer(s) then AnswerPause(s, Abort, shutdown, channelBusy, launches, configured, now) else (s, NothingToCancel)
  }

  // ----- plrd's replies -----

  function CloseOutRequest(s: Session): Session {
    NotifyFinished(Transition(
      DisarmTimers(s.(answering := None, answeringToken := None, token := None, data := None)), s.prior, true))
  }

  function WrongKindRestore(s: Session, configured: Setting, now: real): Session {
    var kept := s.(answering := None, answeringToken := None, token := s.answeringToken,
                   data := if s.answeringToken.None? then None else s.data);
    var alarmed := DisarmTimers(Transition(kept, Unknown, false));
    NotifyFinished(if s.answeringToken.Some? then ArmTimers(alarmed, configured, now) else alarmed)
  }

  function PlrdIsBusy(s: Session, configured: Setting, now: real): Session {
    var kept := s.(answering := None, answeringToken := None, token := s.answeringToken,
                   data := if s.answeringToken.Some? then s.data else None);
    var alarmed := DisarmTimers(Transition(kept, PlrdBusy, false));
    NotifyFinished(if s.answeringToken.Some? then ArmTimers(alarmed, configured, now) else alarmed)
  }

  function Unresolved(s: Session): Session {
    NotifyFinished(DisarmTimers(Transition(
      s.(answering := None, answeringToken := None, token := None, data := None), Unknown, false)))
  }

  function Finish(s: Session): Session {
    NotifyFinished(DisarmTimers(Transition(
      s.(answering := None, answeringToken := None, token := None, data := None), Idle, true)))
  }

  function PauseReported(s: Session, resumeToken: Option<nat>, kind: PauseKind, shutdown: bool, configured: Setting, now: real)
    : (Session, Option<DetachedAbort>)
  {
    if resumeToken.None? then (Unresolved(s), None)
    else if shutdown then
      (NotifyFinished(RaiseAlarm(DisarmTimers(s.(answering := None, token := None, data := None)), Unknown)),
       Some(DetachedAbort(resumeToken.value, s.epoch)))
    else
      var paused := Transition(s.(answering := None, token := resumeToken, data := Some(kind)), Awaiting, true);
      (ArmTimers(paused.(pauses := s.pauses + 1), configured, now), None)
  }

  function OnResponse(s: Session, r: Response, shutdown: bool, configured: Setting, now: real): (Session, Option<DetachedAbort>) {
    if s.closed then (s, None)
    else match Classify(r)
      case PauseKindOf => PauseReported(s, r.resumeToken, r.kind, shutdown, configured, now)
      case BusyKind => (PlrdIsBusy(s, configured, now), None)
      case StaleToken => (Unresolved(s), None)
      case ProtocolRefusal => (CloseOutRequest(s), None)
      case Terminal => (Finish(s), None)
      case Unclassifiable =>
        if r.Reply? && r.tag == Malformed && s.answeringToken.Some? then (WrongKindRestore(s, configured, now), None)
        else (Unresolved(s), None)
  }

  /** A question left standing has its wait armed anew; with none, no wait is left running. */
  predicate Armed(t: Session, configured: Setting, now: real) {
    if t.token.Some? then t.timer == At(now + PromptDeadline(configured)) else !t.timer.At? && !t.claimTimer.At?
  }

  /** The ways a reply can end: state, token and waits of each. */
  lemma EndingCases(s: Session, configured: Setting, now: real)
    requires s.state == Running
    ensures var t := CloseOutRequest(s); t.state == s.prior && t.token == None && Armed(t, configured, now) && !t.listener && t.answering == None
    ensures var t := Unresolved(s); t.state == Unknown && t.token == None && Armed(t, configured, now) && !t.listener && t.answering == None
    ensures var t := Finish(s); t.state == Idle && t.token == None && Armed(t, configured, now) && !t.listener && t.answering == None
  {
  }

  /** The ways a reply can keep the question. */
  lemma KeepingCases(s: Session, configured: Setting, now: real)
    requires s.state == Running
    ensures var t := PlrdIsBusy(s, configured, now);
            t.state == PlrdBusy && t.token == s.answeringToken && Armed(t, configured, now) && !t.listener && t.answering == None
    ensures var t := WrongKindRestore(s, configured, now);
            t.state == Unknown && t.token == s.answeringToken && Armed(t, configured, now) && !t.listener && t.answering == None
  {
    hide PromptDeadline, ClaimDeadline;
  }

  /** The ways a reply can ask. */
  lemma PauseCases(s: Session, resumeToken: Option<nat>, kind: PauseKind, shutdown: bool, configured: Setting, now: real)
    requires s.state == Running
    ensures var (t, abort) := PauseReported(s, resumeToken, kind, shutdown, configured, now);
            var taken := resumeToken.Some? && !shutdown;
            && t.state == (if taken then Awaiting else Unknown) && t.token == (if taken then resumeToken else None)
            && abort == (if resumeToken.Some? && shutdown then Some(DetachedAbort(resumeToken.value, s.epoch)) else None)
            && Armed(t, configured, now) && t.listener == (taken && s.listener) && t.answering == None
            && (taken ==> t.data == Some(kind))
  {
    EndingCases(s, configured, now);
    hide PromptDeadline, ClaimDeadline, Unresolved;
  }

  /** Which branch a reply takes, tag by tag. */
  lemma BranchOfTag(s: Session, r: Response, shutdown: bool, configured: Setting, now: real)
    requires !s.closed
    ensures OnResponse(s, r, shutdown, configured, now) ==
            match r
            case NotAMap => (Unresolved(s), None)
            case NoData => (Unresolved(s), None)
            case Reply(ok, tag, resumeToken, kind) =>
              match tag
              case AwaitingConfirmation => PauseReported(s, resumeToken, kind, shutdown, configured, now)
              case BusyTag => (PlrdIsBusy(s, configured, now), None)
              case UnknownTokenTag => (Unresolved(s), None)
              case UnknownCmd => (CloseOutRequest(s), None)
              case Oversized => (CloseOutRequest(s), None)
              case Completed => (Finish(s), None)
              case AbortedOrRefused => (Finish(s), None)
              case RefusedTag => (Finish(s), None)
              case CleanShutdown => (Finish(s), None)
              case MachineRejected => (Finish(s), None)
              case ManualFallback => (Finish(s), None)
              case NotPossible => (Finish(s), None)
              case Malformed => (if ok then Finish(s) else if s.answeringToken.Some? then WrongKindRestore(s, configured, now) else Unresolved(s), None)
              case ErrorTag => (if ok then Finish(s) else Unresolved(s), None)
              case OtherTag => (if ok then Finish(s) else Unresolved(s), None)
              case MissingTag => (if ok then Finish(s) else Unresolved(s), None)
  {
    hide CloseOutRequest, Unresolved, Finish, PlrdIsBusy, WrongKindRestore, PauseReported;
  }

  /** What a reply to a request in flight publishes, tag by tag. */
  lemma ReplyPublishes(s: Session, r: Response, shutdown: bool, configured: Setting, now: real)
    requires !s.closed && s.state == Running
    ensures var t := OnResponse(s, r, shutdown, configured, now).0;
            t.state ==
              match r
              case NotAMap => Unknown
              case NoData => Unknown
              case Reply(ok, tag, resumeToken, _) =>
                match tag
                case AwaitingConfirmation => if resumeToken.None? || shutdown then Unknown else Awaiting
                case BusyTag => PlrdBusy
                case UnknownTokenTag => Unknown
                case UnknownCmd => s.prior
                case Oversized => s.prior
                case Completed => Idle
                case AbortedOrRefused => Idle
                case RefusedTag => Idle
                case CleanShutdown => Idle
                case MachineRejected => Idle
                case ManualFallback => Idle
                case NotPossible => Idle
                case Malformed => if ok then Idle else Unknown
                case ErrorTag => if ok then Idle else Unknown
                case OtherTag => if ok then Idle else Unknown
                case MissingTag => if ok then Idle else Unknown
  {
    EndingCases(s, configured, now);
    KeepingCases(s, configured, now);
    if r.Reply? { PauseCases(s, r.resumeToken, r.kind, shutdown, configured, now); }
    BranchOfTag(s, r, shutdown, configured, now);
    hide CloseOutRequest, Unresolved, Finish, PlrdIsBusy, WrongKindRestore, PauseReported, Armed, OnResponse, Classify;
  }

  /** What becomes of the question: a new one is taken up, or aborted detached under shutdown; an answer turned down as
      busy or malformed keeps its token; every other reply leaves none. */
  lemma ReplyKeepsToken(s: Session, r: Response, shutdown: bool, configured: Setting, now: real)
    requires !s.closed && s.state == Running
    ensures var (t, abort) := OnResponse(s, r, shutdown, configured, now);
            var asks := r.Reply? && r.tag == AwaitingConfirmation && r.resumeToken.Some?;
            && t.token == (if asks && !shutdown then r.resumeToken
                           else if r.Reply? && (r.tag == BusyTag || (r.tag == Malformed && !r.ok)) then s.answeringToken
                           else None)
            && abort == (if asks && shutdown then Some(DetachedAbort(r.resumeToken.value, s.epoch)) else None)
            && t.listener == (asks && !shutdown && s.listener) && t.answering == None
  {
    EndingCases(s, configured, now);
    KeepingCases(s, configured, now);
    if r.Reply? { PauseCases(s, r.resumeToken, r.kind, shutdown, configured, now); }
    BranchOfTag(s, r, shutdown, configured, now);
    hide CloseOutRequest, Unresolved, Finish, PlrdIsBusy, WrongKindRestore, PauseReported, Armed, OnResponse, Classify;
  }

  lemma ReplyArms(s: Session, r: Response, shutdown: bool, configured: Setting, now: real)
    requires !s.closed && s.state == Running
    ensures var t := OnResponse(s, r, shutdown, configured, now).0;
            Armed(t, configured, now)
  {
    EndingCases(s, configured, now);
    KeepingCases(s, configured, now);
    if r.Reply? { PauseCases(s, r.resumeToken, r.kind, shutdown, configured, now); }
    BranchOfTag(s, r, shutdown, configured, now);
    hide CloseOutRequest, Unresolved, Finish, PlrdIsBusy, WrongKindRestore, PauseReported, Armed, OnResponse, Classify;
  }

  function OnError(s: Session): Session {
    if s.closed then s
    else NotifyFinished(DisarmTimers(Transition(s.(answering := None, token := None, data := None), Unknown, false)))
  }

  // ----- timers firing, klippy's lifecycle, detached aborts -----

  function OnClaimExpiry(s: Session): Session {
    (if s.state == Awaiting then Transition(s, Unknown, false) else s).(claimTimer := Never)
  }

  function OnExpiry(s: Session): Session {
    if s.token.Some? && (s.state == Awaiting || s.state == Unknown) then
      var expired := Transition(s.(answering := None, token := None, data := None), Idle, true);
      NotifyFinished(expired.(claimTimer := ToNever(expired.claimTimer), timer := Never))
    else
      s.(timer := Never)
  }

  function HandleShutdown(s: Session): (Session, Option<DetachedAbort>) {
    if s.closed then (s, None)
    else
      var dropped := DisarmTimers(s.(answering := None, token := None, data := None));
      if s.token.Some? then
        (NotifyFinished(RaiseAlarm(dropped, Unknown)), Some(DetachedAbort(s.token.value, s.epoch)))
      else
        (dropped, None)
  }

  function HandleDisconnect(s: Session): (Session, Option<DetachedAbort>) {
    if s.closed then (s, None)
    else
      var over := DisarmTimers(Transition(s.(closed := true, answering := None, token := None, data := None), Idle, true));
      (NotifyFinished(over), if s.token.Some? then Some(DetachedAbort(s.token.value, s.epoch)) else None)
  }

  /** A detached abort's outcome may only raise the alarm, and only for its own conversation. */
  function AbortReported(s: Session, epoch: nat): Session {
    if s.closed || epoch != s.epoch then s else RaiseAlarm(s, Unknown)
  }

  // ----- cases, each by what the caller sees -----

  /** Calmer states: idle below a conversation of our own, that below plrd seen busy, that below not knowing. */
  predicate Calmer(to: State, from: State) {
    match to
    case Idle => from != Idle
    case Running => from == PlrdBusy || from == Unknown
    case Awaiting => from == PlrdBusy || from == Unknown
    case PlrdBusy => from == Unknown
    case Unknown => false
  }

  /** The writer publishes every change but a calmer one without a reason. */
  lemma WriterCases(s: Session, to: State, reason: bool)
    ensures Transition(s, to, reason) == if Calmer(to, s.state) && !reason then s else s.(state := to)
  {
  }

  /** The waits: thirty seconds past plrd's own deadline, taken as an hour when it is not configured; the claim is given up
      thirty seconds past plrd's default of ten minutes, and only when no deadline is configured. */
  lemma DeadlineCases(configured: Setting)
    ensures var known := configured.Number? && configured.seconds > 0.0;
            && PromptDeadline(configured) == (if known then configured.seconds + 30.0 else 3630.0)
            && ClaimDeadline(configured) == (if known then None else Some(630.0))
  {
  }

  /** A start goes through exactly when the session is open, klippy is up, no conversation of its own is live, and the channel
      takes the request; a question it abandons is aborted detached. */
  lemma StartCases(s: Session, shutdown: bool, channelBusy: bool, launches: bool)
    ensures var (t, verdict, abort) := Start(s, shutdown, channelBusy, launches);
            && (verdict == Done <==> !s.closed && !shutdown && s.state != Running && s.state != Awaiting && !channelBusy && launches)
            && (verdict == Done ==> t.state == Running && t.token == None && t.prior == s.state && t.epoch == s.epoch + 1 && t.listener)
            && (verdict == Done && s.token.Some? ==> abort == Some(DetachedAbort(s.token.value, s.epoch)))
            && (verdict != Done || s.token.None? ==> abort == None)
            && (verdict != Done ==> t.state == s.state && t.token == s.token && t.epoch == s.epoch)
  {
  }

  /** An answer is sent exactly when a question stands, it is of the question's kind, klippy is up or it is an abort, and the
      channel takes it; otherwise the question and its published state stay. */
  lemma AnswerCases(s: Session, a: Answer, shutdown: bool, channelBusy: bool, launches: bool, configured: Setting, now: real)
    ensures var (t, verdict) := AnswerPause(s, a, shutdown, channelBusy, launches, configured, now);
            var fits := a == Abort || (a == Continue && s.data != Some(Preview)) || (a != Continue && s.data == Some(Preview));
            && (verdict == Done <==> s.token.Some? && (a == Abort || !shutdown) && fits && !channelBusy && launches)
            && (verdict == Done ==> t.state == Running && t.token == None && t.answeringToken == s.token && t.prior == s.state
                                    && !t.timer.At? && !t.claimTimer.At?)
            && (verdict != Done ==> t.state == s.state && t.token == s.token && t.data == s.data)
  {
    SpentAndTakenBack(s, a, configured, now);
    hide Spent, TakenBack;
  }

  lemma SpentAndTakenBack(s: Session, a: Answer, configured: Setting, now: real)
    ensures var t := Spent(s, a);
            t.state == Running && t.token == None && t.answeringToken == s.token && t.prior == s.state && !t.timer.At? && !t.claimTimer.At?
    ensures var t := TakenBack(Spent(s, a), s.token, s.state, s.timer, s.claimTimer, configured, now);
            t.state == s.state && t.token == s.token && t.data == s.data
  {
    hide PromptDeadline, ClaimDeadline;
  }

  /** A transport failure, the claim's end, the wait's end, a shutdown, a disconnect and a detached report. */
  lemma LifecycleCases(s: Session, epoch: nat)
    requires !s.closed
    ensures var t := OnError(s); t.state == Unknown && t.token == None && !t.timer.At? && !t.claimTimer.At? && !t.listener
    ensures var t := OnClaimExpiry(s); t.state == (if s.state == Awaiting then Unknown else s.state) && t.token == s.token && t.timer == s.timer
    ensures s.token.Some? && (s.state == Awaiting || s.state == Unknown) ==> OnExpiry(s).state == Idle && OnExpiry(s).token == None
    ensures !(s.token.Some? && (s.state == Awaiting || s.state == Unknown)) ==> OnExpiry(s).state == s.state && OnExpiry(s).token == s.token
    ensures var (t, abort) := HandleShutdown(s);
            && t.token == None && !t.timer.At? && !t.claimTimer.At?
            && t.state == (if s.token.Some? then Unknown else s.state)
            && abort == if s.token.Some? then Some(DetachedAbort(s.token.value, s.epoch)) else None
    ensures var (t, abort) := HandleDisconnect(s);
            && t.closed && t.state == Idle && t.token == None && !t.timer.At? && !t.claimTimer.At? && !t.listener
            && abort == if s.token.Some? then Some(DetachedAbort(s.token.value, s.epoch)) else None
    ensures AbortReported(s, epoch).state == (if epoch == s.epoch then Unknown else s.state) && AbortReported(s, epoch).token == s.token
  {
  }
}
