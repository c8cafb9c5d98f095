/** One logical channel to plrd: the fields the reactor thread and the workers share under a lock, and every
    interleaving of calls, cancels, workers, deliveries and teardown at the grain of that lock. */
module DaemonWorker {

  /** The shared fields. */
  datatype Slot = Slot(busy: bool, generation: nat, closed: bool, threadFailed: bool, inFlightGeneration: nat)

  const NEW_SLOT := Slot(false, 0, false, false, 0)

  /** What `refusal_text` says. */
  datatype Refusal = NoRefusal | NoThread | Closing | AnswerDiscarded | StillWaiting

  class AsyncDaemon {
    var busy: bool
    var generation: nat
    var closed: bool
    var threadFailed: bool
    var inFlightGeneration: nat

    function View(): Slot
      reads this
    {
      Slot(busy, generation, closed, threadFailed, inFlightGeneration)
    }

    constructor ()
      ensures View() == NEW_SLOT
    {
      busy, generation, closed, threadFailed, inFlightGeneration := false, 0, false, false, 0;
    }

    /** The first locked part of `call`: take the slot, or refuse. */
    method TakeSlot() returns (taken: bool, mine: nat)
      modifies this
      ensures taken == Free(old(View())) && mine == old(generation)
      ensures View() == if taken then Taken(old(View())) else old(View())
    {
      mine := generation;
      if closed || busy {
        return false, mine;
      }
      busy := true;
      threadFailed := false;
      inFlightGeneration := generation;
      taken := true;
    }

    /** The second locked part of `call`, reached only when the thread could not be created. */
    method GiveSlotBack()
      modifies this
      ensures View() == GivenBack(old(View()))
    {
      busy := false;
      threadFailed := true;
    }

    /** `call`, with the thread starting or not. */
    method Call(threadStarts: bool) returns (started: bool, mine: nat)
      modifies this
      ensures started == (Free(old(View())) && threadStarts) && mine == old(generation)
      ensures View() == if !Free(old(View())) then old(View())
                        else if threadStarts then Taken(old(View()))
                        else GivenBack(Taken(old(View())))
    {
      started, mine := TakeSlot();
      if started && !threadStarts {
        GiveSlotBack();
        started := false;
      }
    }

    method Cancel()
      modifies this`generation
      ensures View() == Cancelled(old(View()))
    {
      generation := generation + 1;
    }

    /** The locked part of `_invoke`; the callback runs exactly when the result is `true`. */
    method Invoke(mine: nat) returns (run: bool)
      modifies this`busy
      ensures run == Current(old(View()), mine) && View() == Released(old(View()))
    {
      var stale := closed || mine != generation;
      busy := false;
      run := !stale;
    }

    method HandleDisconnect()
      modifies this`closed, this`generation
      ensures View() == TornDown(old(View()))
    {
      closed := true;
      generation := generation + 1;
    }

    method RefusalText() returns (r: Refusal)
      ensures r == WhyRefused(View())
    {
      var dropped := inFlightGeneration != generation;
      if threadFailed && !busy {
        return NoThread;
      }
      if closed {
        return Closing;
      }
      if !busy {
        return NoRefusal;
      }
      if dropped {
        return AnswerDiscarded;
      }
      return StillWaiting;
    }
  }

  predicate Free(s: Slot) {
    !s.closed && !s.busy
  }

  function Taken(s: Slot): Slot {
    s.(busy := true, threadFailed := false, inFlightGeneration := s.generation)
  }

  function GivenBack(s: Slot): Slot {
    s.(busy := false, threadFailed := true)
  }

  function Cancelled(s: Slot): Slot {
    s.(generation := s.generation + 1)
  }

  predicate Current(s: Slot, mine: nat) {
    !s.closed && mine == s.generation
  }

  function Released(s: Slot): Slot {
    s.(busy := false)
  }

  function TornDown(s: Slot): Slot {
    s.(closed := true, generation := s.generation + 1)
  }

  function WhyRefused(s: Slot): Refusal {
    if s.threadFailed && !s.busy then NoThread
    else if s.closed then Closing
    else if !s.busy then NoRefusal
    else if s.inFlightGeneration != s.generation then AnswerDiscarded
    else StillWaiting
  }

  // ----- every interleaving -----

  /** A call that took the slot: its thread is being created, is working, or its outcome is queued for the reactor. */
  datatype Phase = Starting | Working | Queued
  datatype Task = Task(id: nat, generation: nat, phase: Phase)

  /** What happened, in order.  Every call has its own id; `Fired` is its callback running. */
  datatype Mark = Called(id: nat) | Fired(id: nat) | CancelMark | DisconnectMark

  datatype World = World(slot: Slot, tasks: seq<Task>, history: seq<Mark>, calls: nat)

  const NEW_WORLD := World(NEW_SLOT, [], [], 0)

  datatype Event =
    | BeginCall
    | ThreadStarts(index: nat)
    | ThreadFails(index: nat)
    | WorkerDelivers(index: nat)
    | WorkerCannotDeliver(index: nat)
    | ReactorInvokes(index: nat)
    | CancelCall
    | Disconnect

  function Without(tasks: seq<Task>, k: nat): seq<Task>
    requires k < |tasks|
  {
    tasks[..k] + tasks[k + 1..]
  }

  function Moved(w: World, k: nat, phase: Phase): World
    requires k < |w.tasks|
  {
    w.(tasks := w.tasks[k := w.tasks[k].(phase := phase)])
  }

  predicate In(w: World, k: nat, phase: Phase) {
    k < |w.tasks| && w.tasks[k].phase == phase
  }

  /** An event that is not enabled changes nothing. */
  function Step(w: World, e: Event): World {
    match e
    case BeginCall =>
      if Free(w.slot) then
        World(Taken(w.slot), w.tasks + [Task(w.calls, w.slot.generation, Starting)], w.history + [Called(w.calls)], w.calls + 1)
      else w
    case ThreadStarts(k) => if In(w, k, Starting) then Moved(w, k, Working) else w
    case ThreadFails(k) =>
      if In(w, k, Starting) then w.(slot := GivenBack(w.slot), tasks := Without(w.tasks, k)) else w
    case WorkerDelivers(k) => if In(w, k, Working) then Moved(w, k, Queued) else w
    case WorkerCannotDeliver(k) => if In(w, k, Working) then w.(tasks := Without(w.tasks, k)) else w
    case ReactorInvokes(k) =>
      if In(w, k, Queued) then
        var t := w.tasks[k];
        w.(slot := Released(w.slot), tasks := Without(w.tasks, k),
           history := if Current(w.slot, t.generation) then w.history + [Fired(t.id)] else w.history)
      else w
    case CancelCall => w.(slot := Cancelled(w.slot), history := w.history + [CancelMark])
    case Disconnect => w.(slot := TornDown(w.slot), history := w.history + [DisconnectMark])
  }

  function Run(events: seq<Event>): World {
    if events == [] then NEW_WORLD else Step(Run(events[..|events| - 1]), events[|events| - 1])
  }

  /** Neither a cancel nor a disconnect after position k. */
  ghost predicate QuietAfter(h: seq<Mark>, k: nat) {
    forall m | k < m < |h| :: !h[m].CancelMark? && !h[m].DisconnectMark?
  }

  /** Call `id` was made and nothing has dismissed it since. */
  ghost predicate Undismissed(h: seq<Mark>, id: nat) {
    exists k | 0 <= k < |h| :: h[k] == Called(id) && QuietAfter(h, k)
  }

  /** Every callback that ran belonged to a call not dismissed by then, and ran once. */
  ghost predicate FiringsAreRight(h: seq<Mark>) {
    && (forall k | 0 <= k < |h| && h[k].Fired? :: Undismissed(h[..k], h[k].id))
    && (forall j, k | 0 <= j < k < |h| && h[j].Fired? && h[k].Fired? :: h[j].id != h[k].id)
  }

  ghost predicate Inv(w: World) {
    && |w.tasks| <= 1
    && (|w.tasks| == 1 ==> w.slot.busy)
    && (forall k | 0 <= k < |w.history| && (w.history[k].Called? || w.history[k].Fired?) :: w.history[k].id < w.calls)
    && (forall j, k | 0 <= j < k < |w.history| && w.history[j].Called? && w.history[k].Called? :: w.history[j].id != w.history[k].id)
    && FiringsAreRight(w.history)
    && (forall t | t in w.tasks :: TaskIsTracked(w, t))
  }

  ghost predicate TaskIsTracked(w: World, t: Task) {
    && t.id < w.calls && t.generation <= w.slot.generation && w.slot.inFlightGeneration == t.generation
    && (forall k | 0 <= k < |w.history| && w.history[k].Fired? :: w.history[k].id != t.id)
    && (Current(w.slot, t.generation) <==> Undismissed(w.history, t.id))
  }

  lemma MarkAdded(h: seq<Mark>, x: Mark, id: nat)
    requires x.Called? || x.Fired?
    ensures Undismissed(h + [x], id) <==> Undismissed(h, id) || x == Called(id)
  {
    var h' := h + [x];
    if x == Called(id) {
      assert h'[|h|] == Called(id) && QuietAfter(h', |h|);
    }
    if k :| 0 <= k < |h| && h[k] == Called(id) && QuietAfter(h, k) {
      assert h'[k] == Called(id) && QuietAfter(h', k);
    }
    if k :| 0 <= k < |h'| && h'[k] == Called(id) && QuietAfter(h', k) {
      if k < |h| {
        assert forall m | k < m < |h| :: h'[m] == h[m];
        assert h[k] == Called(id) && QuietAfter(h, k);
      }
    }
  }

  lemma Dismissed(h: seq<Mark>, x: Mark, id: nat)
    requires x.CancelMark? || x.DisconnectMark?
    ensures !Undismissed(h + [x], id)
  {
    var h' := h + [x];
    forall k | 0 <= k < |h'| && h'[k] == Called(id)
      ensures !QuietAfter(h', k)
    {
      assert k < |h| && h'[|h|] == x;
    }
  }

  lemma FiringsExtend(h: seq<Mark>, x: Mark)
    requires FiringsAreRight(h)
    requires x.Fired? ==> Undismissed(h, x.id) && forall k | 0 <= k < |h| && h[k].Fired? :: h[k].id != x.id
    ensures FiringsAreRight(h + [x])
  {
    var h' := h + [x];
    forall k | 0 <= k < |h'| && h'[k].Fired?
      ensures Undismissed(h'[..k], h'[k].id)
    {
      if k < |h| {
        assert h'[..k] == h[..k];
      } else {
        assert h'[..k] == h;
      }
    }
  }

  lemma BeginKeepsInv(w: World)
    requires Inv(w)
    ensures Inv(Step(w, BeginCall))
  {
    if Free(w.slot) {
      var w' := Step(w, BeginCall);
      FiringsExtend(w.history, Called(w.calls));
      MarkAdded(w.history, Called(w.calls), w.calls);
      var t := Task(w.calls, w.slot.generation, Starting);
      assert w.tasks == [] && w'.tasks == [t];
      assert TaskIsTracked(w', t);
    }
  }

  lemma InvokeKeepsInv(w: World, k: nat)
    requires Inv(w)
    ensures Inv(Step(w, ReactorInvokes(k)))
  {
    if In(w, k, Queued) {
      var t := w.tasks[k];
      assert TaskIsTracked(w, t);
      assert Step(w, ReactorInvokes(k)).tasks == [];
      if Current(w.slot, t.generation) {
        FiringsExtend(w.history, Fired(t.id));
      }
    }
  }

  lemma DismissalKeepsInv(w: World, e: Event)
    requires Inv(w) && (e.CancelCall? || e.Disconnect?)
    ensures Inv(Step(w, e))
  {
    var x := if e.CancelCall? then CancelMark else DisconnectMark;
    var w' := Step(w, e);
    FiringsExtend(w.history, x);
    forall t | t in w'.tasks
      ensures TaskIsTracked(w', t)
    {
      assert TaskIsTracked(w, t);
      Dismissed(w.history, x, t.id);
    }
  }

  lemma PhaseKeepsInv(w: World, e: Event)
    requires Inv(w) && (e.ThreadStarts? || e.ThreadFails? || e.WorkerDelivers? || e.WorkerCannotDeliver?)
    ensures Inv(Step(w, e))
  {
    var w' := Step(w, e);
    if w' != w {
      assert e.index == 0 && TaskIsTracked(w, w.tasks[0]);
      if e.ThreadStarts? || e.WorkerDelivers? {
        assert w'.tasks == [w'.tasks[0]] && TaskIsTracked(w', w'.tasks[0]);
      } else {
        assert w'.tasks == [];
      }
    }
  }

  lemma StepKeepsInv(w: World, e: Event)
    requires Inv(w)
    ensures Inv(Step(w, e))
  {
    match e
    case BeginCall => BeginKeepsInv(w);
    case ReactorInvokes(k) => InvokeKeepsInv(w, k);
    case CancelCall => DismissalKeepsInv(w, e);
    case Disconnect => DismissalKeepsInv(w, e);
    case _ => PhaseKeepsInv(w, e);
  }

  lemma {:induction false} RunKeepsInv(events: seq<Event>)
    ensures Inv(Run(events))
  {
    if events != [] {
      RunKeepsInv(events[..|events| - 1]);
      StepKeepsInv(Run(events[..|events| - 1]), events[|events| - 1]);
    }
  }

  /** In every interleaving the channel has at most one worker or undelivered result, and then it is busy. */
  lemma {:induction false} AtMostOneOutstanding(events: seq<Event>)
    ensures |Run(events).tasks| <= 1 && (Run(events).tasks != [] ==> Run(events).slot.busy)
  {
    RunKeepsInv(events);
  }

  /** In every interleaving each call's callback runs at most once. */
  lemma {:induction false} AtMostOneCallback(events: seq<Event>, j: nat, k: nat)
    requires var h := Run(events).history; j < k < |h| && h[j].Fired? && h[k].Fired?
    ensures var h := Run(events).history; h[j].id != h[k].id
  {
    RunKeepsInv(events);
  }

  /** In every interleaving a callback runs only for a call made before it, with no cancel or disconnect in between. */
  lemma NoCallbackAfterDismissal(events: seq<Event>, k: nat) returns (c: nat)
    requires var h := Run(events).history; k < |h| && h[k].Fired?
    ensures var h := Run(events).history;
            && c < k && h[c] == Called(h[k].id)
            && forall m | c < m < k :: !h[m].CancelMark? && !h[m].DisconnectMark?
  {
    RunKeepsInv(events);
    var h := Run(events).history;
    assert Undismissed(h[..k], h[k].id);
    c :| 0 <= c < k && h[..k][c] == Called(h[k].id) && QuietAfter(h[..k], c);
    assert forall m | c < m < k :: h[..k][m] == h[m];
  }

  /** A result that comes back for a call nothing dismissed does run its callback; a dismissed one never does. */
  lemma {:induction false} DeliveryIffUndismissed(events: seq<Event>, k: nat)
    requires In(Run(events), k, Queued)
    ensures var w := Run(events); var w' := Step(w, ReactorInvokes(k));
            w'.history == if Undismissed(w.history, w.tasks[k].id) then w.history + [Fired(w.tasks[k].id)] else w.history
  {
    RunKeepsInv(events);
    assert TaskIsTracked(Run(events), Run(events).tasks[k]);
  }

  /** Cancelling keeps the slot taken; it is freed only by a thread that could not start or an outcome coming back. */
  lemma {:induction false} SlotFreedOnlyByOutcome(events: seq<Event>, e: Event)
    requires var w := Run(events); w.slot.busy && !Step(w, e).slot.busy
    ensures var w := Run(events); (e.ThreadFails? && In(w, e.index, Starting)) || (e.ReactorInvokes? && In(w, e.index, Queued))
    ensures Step(Run(events), e).tasks == []
  {
    RunKeepsInv(events);
  }

  /** Which refusal is given, for every state of the slot. */
  lemma RefusalCases(s: Slot)
    ensures !s.busy && s.threadFailed ==> WhyRefused(s) == NoThread
    ensures s.closed && (s.busy || !s.threadFailed) ==> WhyRefused(s) == Closing
    ensures !s.closed && !s.busy && !s.threadFailed ==> WhyRefused(s) == NoRefusal
    ensures !s.closed && s.busy && s.inFlightGeneration == s.generation ==> WhyRefused(s) == StillWaiting
    ensures !s.closed && s.busy && s.inFlightGeneration != s.generation ==> WhyRefused(s) == AnswerDiscarded
  {
  }

  /** From a thread that could not start until the next call that takes the slot, the refusal names the missing thread,
      whatever is cancelled or disconnected meanwhile. */
  lemma {:induction false} FailedStartIsNamed(events: seq<Event>, k: nat, later: seq<Event>)
    requires In(Run(events), k, Starting) && forall e | e in later :: !e.BeginCall?
    ensures var w := Run(events + [ThreadFails(k)] + later);
            w.tasks == [] && !w.slot.busy && WhyRefused(w.slot) == NoThread
    decreases |later|
  {
    if later == [] {
      RunKeepsInv(events);
      assert (events + [ThreadFails(k)] + later)[..|events|] == events;
    } else {
      var before := later[..|later| - 1];
      FailedStartIsNamed(events, k, before);
      assert (events + [ThreadFails(k)] + later)[..|events| + |later|] == events + [ThreadFails(k)] + before;
      assert later[|later| - 1] in later;
    }
  }

  /** A refused call is explained, and `answer discarded` is said exactly of a dismissed call still outstanding. */
  lemma {:induction false} RefusalIsTruthful(events: seq<Event>)
    ensures var w := Run(events);
            && (!Free(w.slot) ==> WhyRefused(w.slot) != NoRefusal)
            && (!w.slot.closed && |w.tasks| == 1 ==>
                  (WhyRefused(w.slot) == AnswerDiscarded <==> !Undismissed(w.history, w.tasks[0].id)))
  {
    RunKeepsInv(events);
    var w := Run(events);
    if |w.tasks| == 1 { assert TaskIsTracked(w, w.tasks[0]); }
  }
}
