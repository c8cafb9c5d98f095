/** The recovery system's one-call channel is the worker channel: every run of the conversation is a run of the
    worker protocol, call for call. */
module RecoveryChannel {
  import opened RecoveryProtocol
  import opened RecoverySystem
  import D = DaemonWorker

  /** The worker channel while the conversation's channel is ch: idle, one call with its worker, or one outcome queued. */
  ghost predicate Mirrors(ch: Channel, w: D.World) {
    && D.Inv(w) && !w.slot.closed && (w.slot.busy <==> ch != Quiet)
    && (forall k | 0 <= k < |w.history| :: !w.history[k].CancelMark? && !w.history[k].DisconnectMark?)
    && match ch
       case Quiet => w.tasks == []
       case Sent(_) => D.In(w, 0, D.Working) && D.Current(w.slot, w.tasks[0].generation)
       case Serving(_) => D.In(w, 0, D.Working) && D.Current(w.slot, w.tasks[0].generation)
       case Replied(_, _) => D.In(w, 0, D.Queued) && D.Current(w.slot, w.tasks[0].generation)
       case Failed(_) => D.In(w, 0, D.Queued) && D.Current(w.slot, w.tasks[0].generation)
  }

  /** A command reached the worker channel and its thread could not be started. */
  predicate LaunchFails(sys: System, e: Event, c: Config) {
    sys.channel == Quiet &&
    match e
    case OperatorStart(launches) => Start(sys.session, sys.shutdown, false, launches).1 == NotLaunched
    case OperatorAnswer(a, launches) => AnswerPause(sys.session, a, sys.shutdown, false, launches, c.configured, sys.now).1 == NotLaunched
    case OperatorCancel(launches) => Cancel(sys.session, sys.shutdown, false, launches, c.configured, sys.now).1 == NotLaunched
    case _ => false
  }

  /** What a move of the conversation's channel is to the worker channel. */
  function WorkerMoves(ch: Channel, next: Channel, launchFails: bool): seq<D.Event> {
    if launchFails then [D.BeginCall, D.ThreadFails(0)]
    else if ch == Quiet && next.Sent? then [D.BeginCall, D.ThreadStarts(0)]
    else if (ch.Sent? || ch.Serving?) && (next.Replied? || next.Failed?) then [D.WorkerDelivers(0)]
    else if (ch.Replied? || ch.Failed?) && next == Quiet then [D.ReactorInvokes(0)]
    else []
  }

  /** The moves a step of the conversation can make on its channel. */
  predicate Moves(ch: Channel, next: Channel) {
    || next == ch || (ch == Quiet && next.Sent?) || (ch.Sent? && next.Serving?)
    || ((ch.Sent? || ch.Serving?) && (next.Replied? || next.Failed?)) || ((ch.Replied? || ch.Failed?) && next == Quiet)
  }

  lemma StepMoves(sys: System, e: Event, c: Config)
    requires RecoverySystem.Inv(sys, c)
    ensures Moves(sys.channel, RecoverySystem.Step(sys, e, c).channel)
    ensures LaunchFails(sys, e, c) ==> RecoverySystem.Step(sys, e, c).channel == Quiet
  {
    hide Classify, OnResponse, OnExpiry, HandleShutdown, Spent, TakenBack;
  }

  function After(w: D.World, moves: seq<D.Event>): D.World
    decreases |moves|
  {
    if moves == [] then w else After(D.Step(w, moves[0]), moves[1..])
  }

  /** Each move keeps the channels in step; an outcome delivered to the conversation is one callback run. */
  lemma {:induction false} MoveMirrors(ch: Channel, next: Channel, launchFails: bool, w: D.World)
    requires Mirrors(ch, w) && Moves(ch, next) && (launchFails ==> ch == Quiet && next == Quiet)
    ensures var w' := After(w, WorkerMoves(ch, next, launchFails));
            && Mirrors(next, w')
            && ((ch.Replied? || ch.Failed?) && next == Quiet ==> w'.history == w.history + [D.Fired(w.tasks[0].id)])
  {
    hide D.Inv;
    var moves := WorkerMoves(ch, next, launchFails);
    if |moves| == 2 {
      TwoMoves(w, moves);
      var begun := D.Step(w, moves[0]);
      D.StepKeepsInv(w, moves[0]);
      D.StepKeepsInv(begun, moves[1]);
    } else if |moves| == 1 {
      assert moves[1..] == [];
      D.StepKeepsInv(w, moves[0]);
    }
  }

  lemma {:induction false} TwoMoves(w: D.World, moves: seq<D.Event>)
    requires |moves| == 2
    ensures After(w, moves) == D.Step(D.Step(w, moves[0]), moves[1])
  {
    assert After(D.Step(w, moves[0]), moves[1..]) == After(D.Step(D.Step(w, moves[0]), moves[1..][0]), moves[1..][1..]);
    assert moves[1..][1..] == [];
  }

  // ----- every run -----

  function WorkerRun(sys: System, events: seq<Event>, c: Config): seq<D.Event> {
    if events == [] then []
    else
      var before, last := events[..|events| - 1], events[|events| - 1];
      var mid := RecoverySystem.Run(sys, before, c);
      WorkerRun(sys, before, c) + WorkerMoves(mid.channel, RecoverySystem.Step(mid, last, c).channel, LaunchFails(mid, last, c))
  }

  lemma {:induction false} RunAppends(a: seq<D.Event>, b: seq<D.Event>)
    ensures D.Run(a + b) == After(D.Run(a), b)
    decreases |b|
  {
    if b == [] {
      assert a + b == a;
    } else {
      var a' := a + [b[0]];
      assert a'[..|a|] == a && a' + b[1..] == a + b;
      RunAppends(a', b[1..]);
    }
  }

  /** Every run of the conversation drives the worker channel through a run of its own protocol, in step with it. */
  lemma {:induction false} ConversationIsAWorkerRun(sys: System, events: seq<Event>, c: Config)
    requires Initial(sys) && Coherent(c)
    ensures Mirrors(RecoverySystem.Run(sys, events, c).channel, D.Run(WorkerRun(sys, events, c)))
  {
    if events == [] {
      D.RunKeepsInv([]);
    } else {
      var before, last := events[..|events| - 1], events[|events| - 1];
      var mid := RecoverySystem.Run(sys, before, c);
      ConversationIsAWorkerRun(sys, before, c);
      RecoverySystem.RunKeepsInv(sys, before, c);
      StepMoves(mid, last, c);
      var moves := WorkerMoves(mid.channel, RecoverySystem.Step(mid, last, c).channel, LaunchFails(mid, last, c));
      RunAppends(WorkerRun(sys, before, c), moves);
      MoveMirrors(mid.channel, RecoverySystem.Step(mid, last, c).channel, LaunchFails(mid, last, c), D.Run(WorkerRun(sys, before, c)));
    }
  }

  /** In every run the worker channel holds at most one call, and `running` is published exactly while it holds one. */
  lemma {:induction false} RunningMeansOneWorkerCall(sys: System, events: seq<Event>, c: Config)
    requires Initial(sys) && Coherent(c)
    ensures var end, w := RecoverySystem.Run(sys, events, c), D.Run(WorkerRun(sys, events, c));
            |w.tasks| <= 1 && (end.session.state == Running <==> |w.tasks| == 1) && (end.session.token.Some? ==> w.tasks == [])
  {
    ConversationIsAWorkerRun(sys, events, c);
    RecoverySystem.RunningMeansOneRequestInFlight(sys, events, c);
    D.AtMostOneOutstanding(WorkerRun(sys, events, c));
  }
}
