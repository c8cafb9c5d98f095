/** The recovery session object: the fields the reactor callbacks and the operator's commands update, each
    method against the value-level transition it performs. */
module Recovery {
  import opened RecoveryProtocol

  class RecoverySession {
    const configured: Setting
    var state: State
    var token: Option<nat>
    var data: Option<PauseKind>
    var answering: Option<Answer>
    var answeringToken: Option<nat>
    var prior: State
    var epoch: nat
    var pauses: nat
    var listener: bool
    var timer: Timer
    var claimTimer: Timer
    var closed: bool

    function View(): Session
      reads this
    {
      Session(state, token, data, answering, answeringToken, prior, epoch, pauses, listener, timer, claimTimer, closed)
    }

    constructor (configured: Setting)
      ensures View() == NEW_SESSION && this.configured == configured
    {
      this.configured := configured;
      state, prior := Idle, Idle;
      token, data, answering, answeringToken := None, None, None, None;
      epoch, pauses, listener := 0, 0, false;
      timer, claimTimer, closed := Unregistered, Unregistered, false;
    }

    // ----- the one writer -----

    method SetState(to: State, reason: bool)
      modifies this`state
      ensures View() == Transition(old(View()), to, reason)
    {
      if to == state {
        return;
      }
      if Alarm(to) < Alarm(state) && !reason {
        return;
      }
      state := to;
    }

    method Raise(to: State)
      modifies this`state
      ensures View() == RaiseAlarm(old(View()), to)
    {
      if Alarm(to) < Alarm(state) {
        return;
      }
      SetState(to, false);
    }

    // ----- timers -----

    method DisarmClaimTimer()
      modifies this`claimTimer
      ensures claimTimer == ToNever(old(claimTimer))
    {
      if !claimTimer.Unregistered? {
        claimTimer := Never;
      }
    }

    method Disarm()
      modifies this`timer, this`claimTimer
      ensures View() == DisarmTimers(old(View()))
    {
      if !timer.Unregistered? {
        timer := Never;
      }
      DisarmClaimTimer();
    }

    method Arm(now: real)
      modifies this`timer, this`claimTimer
      ensures View() == ArmTimers(old(View()), configured, now)
    {
      timer := At(now + PromptDeadline(configured));
      var claim := ClaimDeadline(configured);
      if claim.None? {
        DisarmClaimTimer();
        return;
      }
      claimTimer := At(now + claim.value);
    }

    method Restore(wait: Timer, claim: Timer, now: real)
      modifies this`timer, this`claimTimer
      ensures View() == RestoreTimers(old(View()), wait, claim, configured, now)
    {
      if wait.Unregistered? && claim.Unregistered? {
        Arm(now);
        return;
      }
      if !timer.Unregistered? && !wait.Unregistered? {
        timer := wait;
      }
      if !claimTimer.Unregistered? && !claim.Unregistered? {
        claimTimer := claim;
      }
    }

    // ----- operator commands -----

    method StartRecovery(shutdown: bool, channelBusy: bool, launches: bool) returns (verdict: Verdict, sent: Option<DetachedAbort>)
      modifies this
      ensures (View(), verdict, sent) == Start(old(View()), shutdown, channelBusy, launches)
    {
      sent := None;
      if closed || shutdown {
        return ShutDown, sent;
      }
      if !MayStartNew(View()) {
        return InFlight, sent;
      }
      var priorEpoch := epoch;
      if channelBusy {
        return ChannelBusy, sent;
      }
      listener := true;
      if !launches {
        return NotLaunched, sent;
      }
      pauses := 0;
      data := None;
      answering := None;
      answeringToken := None;
      epoch := epoch + 1;
      prior := state;
      var abandoned := token;
      token := None;
      if abandoned.Some? {
        sent := Some(DetachedAbort(abandoned.value, priorEpoch));
      }
      SetState(Running, true);
      verdict := Done;
    }

    method AnswerQuestion(a: Answer, shutdown: bool, channelBusy: bool, launches: bool, now: real) returns (verdict: Verdict)
      modifies this
      ensures (View(), verdict) == AnswerPause(old(View()), a, shutdown, channelBusy, launches, configured, now)
    {
      if token.None? {
        return NothingToAnswer;
      }
      if a != Abort && shutdown {
        return ShutDown;
      }
      if PreviewAnswer(a) && data != Some(Preview) {
        return WrongKind;
      }
      if a == Continue && data == Some(Preview) {
        return WrongKind;
      }
      var spent, was := token, state;
      var wait, claim := timer, claimTimer;
      Spend(a);
      if channelBusy || !launches {
        TakeBack(spent, was, wait, claim, now);
        return NotLaunched;
      }
      verdict := Done;
    }

    method Spend(a: Answer)
      modifies this
      ensures View() == Spent(old(View()), a)
    {
      var spent, was := token, state;
      token := None;
      answeringToken := spent;
      epoch := epoch + 1;
      prior := was;
      SetState(Running, true);
      answering := Some(a);
      Disarm();
    }

    method TakeBack(spent: Option<nat>, was: State, wait: Timer, claim: Timer, now: real)
      modifies this
      ensures View() == TakenBack(old(View()), spent, was, wait, claim, configured, now)
    {
      token := spent;
      answeringToken := None;
      SetState(was, true);
      answering := None;
      Restore(wait, claim, now);
    }

    method CancelRecovery(shutdown: bool, channelBusy: bool, launches: bool, now: real) returns (verdict: Verdict)
      modifies this
      ensures (View(), verdict) == Cancel(old(View()), shutdown, channelBusy, launches, configured, now)
    {
      if token.Some? {
        verdict := AnswerQuestion(Abort, shutdown, channelBusy, launches, now);
      } else {
        verdict := NothingToCancel;
      }
    }

    // ----- plrd's replies -----

    method Notify()
      modifies this`listener
      ensures View() == NotifyFinished(old(View()))
    {
      listener := false;
    }

    method CloseOut()
      modifies this
      ensures View() == CloseOutRequest(old(View()))
    {
      answering := None;
      answeringToken := None;
      token := None;
      data := None;
      Disarm();
      SetState(prior, true);
      Notify();
    }

    method KeepAfterWrongKind(now: real)
      modifies this
      ensures View() == WrongKindRestore(old(View()), configured, now)
    {
      var kept := answeringToken;
      answering := None;
      answeringToken := None;
      token := kept;
      if kept.None? {
        data := None;
      }
      SetState(Unknown, false);
      Disarm();
      if kept.Some? {
        Arm(now);
      }
      Notify();
    }

    method ReportBusy(now: real)
      modifies this
      ensures View() == PlrdIsBusy(old(View()), configured, now)
    {
      var kept := answeringToken;
      answering := None;
      answeringToken := None;
      token := kept;
      data := if kept.Some? then data else None;
      SetState(PlrdBusy, false);
      Disarm();
      if kept.Some? {
        Arm(now);
      }
      Notify();
    }

    method LeaveUnresolved()
      modifies this
      ensures View() == Unresolved(old(View()))
    {
      answering := None;
      answeringToken := None;
      token := None;
      data := None;
      SetState(Unknown, false);
      Disarm();
      Notify();
    }

    method ReportFinished()
      modifies this
      ensures View() == Finish(old(View()))
    {
      answering := None;
      answeringToken := None;
      token := None;
      data := None;
      SetState(Idle, true);
      Disarm();
      Notify();
    }

    method ReportPause(resumeToken: Option<nat>, kind: PauseKind, shutdown: bool, now: real) returns (sent: Option<DetachedAbort>)
      modifies this
      ensures (View(), sent) == PauseReported(old(View()), resumeToken, kind, shutdown, configured, now)
    {
      sent := None;
      if resumeToken.None? {
        LeaveUnresolved();
        return;
      }
      if shutdown {
        answering := None;
        token := None;
        data := None;
        Disarm();
        sent := AbortShutdownPause(resumeToken.value);
        Notify();
        return;
      }
      answering := None;
      token := resumeToken;
      data := Some(kind);
      SetState(Awaiting, true);
      pauses := pauses + 1;
      Arm(now);
    }

    method HandleResponse(r: Response, shutdown: bool, now: real) returns (sent: Option<DetachedAbort>)
      modifies this
      ensures (View(), sent) == OnResponse(old(View()), r, shutdown, configured, now)
    {
      sent := None;
      if closed {
        return;
      }
      match Classify(r) {
        case PauseKindOf => sent := ReportPause(r.resumeToken, r.kind, shutdown, now);
        case BusyKind => ReportBusy(now);
        case StaleToken => LeaveUnresolved();
        case ProtocolRefusal => CloseOut();
        case Terminal => ReportFinished();
        case Unclassifiable =>
          if r.Reply? && r.tag == Malformed && answeringToken.Some? {
            KeepAfterWrongKind(now);
            return;
          }
          LeaveUnresolved();
      }
    }

    method HandleError()
      modifies this
      ensures View() == OnError(old(View()))
    {
      if closed {
        return;
      }
      answering := None;
      token := None;
      data := None;
      SetState(Unknown, false);
      Disarm();
      Notify();
    }

    // ----- timers firing; the returned NEVER becomes the timer's next wake -----

    method ClaimExpired()
      modifies this
      ensures View() == OnClaimExpiry(old(View()))
    {
      if state == Awaiting {
        SetState(Unknown, false);
      }
      claimTimer := Never;
    }

    method WaitExpired()
      modifies this
      ensures View() == OnExpiry(old(View()))
    {
      if token.Some? && (state == Awaiting || state == Unknown) {
        answering := None;
        token := None;
        data := None;
        SetState(Idle, true);
        DisarmClaimTimer();
        Notify();
      }
      timer := Never;
    }

    // ----- klippy's lifecycle and the detached abort -----

    method AbortShutdownPause(question: nat) returns (sent: Option<DetachedAbort>)
      modifies this`state
      ensures View() == RaiseAlarm(old(View()), Unknown) && sent == Some(DetachedAbort(question, epoch))
    {
      Raise(Unknown);
      sent := Some(DetachedAbort(question, epoch));
    }

    method ShutdownSeen() returns (sent: Option<DetachedAbort>)
      modifies this
      ensures (View(), sent) == HandleShutdown(old(View()))
    {
      sent := None;
      if closed {
        return;
      }
      var outstanding := token;
      answering := None;
      token := None;
      data := None;
      Disarm();
      if outstanding.Some? {
        sent := AbortShutdownPause(outstanding.value);
        Notify();
      }
    }

    method DisconnectSeen() returns (sent: Option<DetachedAbort>)
      modifies this
      ensures (View(), sent) == HandleDisconnect(old(View()))
    {
      sent := None;
      if closed {
        return;
      }
      closed := true;
      var outstanding := token;
      answering := None;
      token := None;
      data := None;
      SetState(Idle, true);
      Disarm();
      if outstanding.Some? {
        sent := Some(DetachedAbort(outstanding.value, epoch));
      }
      Notify();
    }

    method AbortOutcome(conversation: nat)
      modifies this`state
      ensures View() == AbortReported(old(View()), conversation)
    {
      if closed || conversation != epoch {
        return;
      }
      Raise(Unknown);
    }
  }
}
