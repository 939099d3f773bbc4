/** That the task comes to be parked again: after a start that finds a measurement open, and at the
    end of every run that is left alone and has a last image. */
module AcquisitionProgress {
  import opened Machine
  import opened Wrappers
  import opened Acquisition
  import opened AcquisitionCounting

  // ----- A start that finds a measurement open

  function TaskSteps(actions: seq<Action>): nat {
    if actions == [] then 0
    else TaskSteps(actions[..|actions| - 1]) + if actions[|actions| - 1].TaskStep? then 1 else 0
  }

  /** How many steps of the task lead from a wake-up with a measurement open, through the handler,
      to the next wait for a start. */
  function ToParking(pc: Pc): nat {
    match pc
    case Woken => 8
    case Setup(_) => 7
    case Handle(at) =>
      (match at
       case DropStateSub => 6
       case DropUpdateSub => 5
       case CheckState => 4
       case DropSpectrum => 3
       case EndMeasurement => 2)
    case Leave => 1
    case _ => 0
  }

  /** Only the task moves the task, and here every step of it leads on. */
  lemma DoomedMoves(s: State, a: Action)
    requires Inv(s) && HandlerSucceeds(s, a) && s.task.pc != Parked
    requires if s.task.pc == Woken then Open(s) else s.history.wokeOpen
    ensures var t := Step(s, a);
            && (if t.task.pc == Woken then Open(t) else t.history.wokeOpen)
            && ToParking(t.task.pc) + (if a.TaskStep? then 1 else 0) <= ToParking(s.task.pc)
  {
    AwakeStep(s, a);
    if a.TaskStep? {
      DoomedTaskMoves(s, a.ok, a.callbacks);
    }
    hide Inv, TaskStepped, Open;
  }

  lemma DoomedTaskMoves(s: State, ok: bool, callbacks: bool)
    requires Inv(s) && (s.task.pc.Handle? ==> ok) && s.task.pc != Parked
    requires if s.task.pc == Woken then Open(s) else s.history.wokeOpen
    ensures ToParking(TaskStepped(s, ok, callbacks).task.pc) < ToParking(s.task.pc)
  {
    hide Inv, Open, Throw, SetupStep, ExposureStep, FinishStep, HandlerStep, FrameDone, Left;
    DoomedPlaces(s);
    if s.task.pc.Setup? {
      DoomedThrows(s);
    } else if s.task.pc.Handle? {
      HandlerMoves(s, s.task.pc.cleanup);
    } else if s.task.pc == Leave {
      FailedParks(s, callbacks);
    }
  }

  lemma DoomedPlaces(s: State)
    requires Inv(s) && s.task.pc != Parked
    requires s.task.pc == Woken || s.history.wokeOpen
    ensures match s.task.pc
            case Woken => true
            case Setup(at) => at == GetState && s.server.phase != Active
            case Handle(_) => true
            case Leave => s.task.failed
            case _ => false
  {
    hide Bracket, Signals, Owned, Paired, Locals, Stops;
  }

  lemma DoomedThrows(s: State)
    requires s.task.pc == Setup(GetState) && s.server.phase != Active
    ensures SetupStep(s, GetState).task.pc == Handle(DropStateSub) == Throw(s).task.pc
  {
  }

  lemma HandlerMoves(s: State, at: Cleanup)
    requires s.task.pc == Handle(at)
    ensures ToParking(HandlerStep(s, at, true).task.pc) < ToParking(s.task.pc)
  {
    hide DropState, DropUpdates, MeasurementFinished;
  }

  lemma FailedParks(s: State, callbacks: bool)
    requires s.task.pc == Leave && s.task.failed
    ensures Left(s, callbacks).task.pc == Parked
  {
  }

  /** After parking with a measurement open, the next start ends in an error, with the measurement
      and the subscriptions closed again, as soon as the task has made eight steps, whatever the
      other parties do in between; and it has not been parked before. */
  lemma NextStartParks(run: seq<State>, actions: seq<Action>, i: nat, j: nat)
    requires IsRun(run, actions) && Inv(run[0]) && i <= j < |run|
    requires run[i].task.pc == Woken && Open(run[i]) && TaskSteps(actions[i..j]) >= 8
    ensures exists k :: i < k <= j && FirstPark(run, i, k) &&
              run[k].table.status == Failed && Closed(run[k]) && run[k].server.subscriptions == {}
  {
    hide Inv, Open, Closed, Step, HandlerSucceeds;
    if forall m :: i <= m <= j ==> run[m].task.pc != Parked {
      StepsToParking(run, actions, i, j);
      NotYetParked(run[j]);
    } else {
      var k := FirstParked(run, i, j);
      NextStartFails(run, actions, i, k);
    }
  }

  lemma NotYetParked(s: State)
    requires Inv(s) && s.task.pc != Parked && (s.task.pc == Woken || s.history.wokeOpen)
    ensures ToParking(s.task.pc) > 0
  {
    hide Bracket, Signals, Owned, Paired, Locals, Stops;
  }

  /** The task is parked at moment `k`, and has not been since moment `i`. */
  predicate FirstPark(run: seq<State>, i: int, k: int)
    requires 0 <= i && k < |run|
  {
    i <= k && run[k].task.pc == Parked && forall m :: i <= m < k ==> run[m].task.pc != Parked
  }

  lemma {:induction false} FirstParked(run: seq<State>, i: nat, j: nat) returns (k: nat)
    requires i <= j < |run| && run[i].task.pc != Parked
    requires exists m :: i <= m <= j && run[m].task.pc == Parked
    ensures i < k <= j && FirstPark(run, i, k)
  {
    k := i;
    while run[k].task.pc != Parked
      invariant i <= k <= j && forall m :: i <= m < k ==> run[m].task.pc != Parked
      decreases j - k
    {
      k := k + 1;
    }
  }

  lemma {:induction false} StepsToParking(run: seq<State>, actions: seq<Action>, i: nat, j: nat)
    requires IsRun(run, actions) && Inv(run[0]) && i <= j < |run|
    requires run[i].task.pc == Woken && Open(run[i])
    requires forall m :: i <= m < j ==> run[m].task.pc != Parked
    ensures Inv(run[j]) && if run[j].task.pc == Woken then Open(run[j]) else run[j].history.wokeOpen
    ensures TaskSteps(actions[i..j]) + ToParking(run[j].task.pc) <= 8
    decreases j
  {
    hide Inv, Open, Step, HandlerSucceeds;
    RunKeeps(run, actions, j);
    if j > i {
      StepsToParking(run, actions, i, j - 1);
      DoomedMoves(run[j - 1], actions[j - 1]);
      assert actions[i..j][..j - 1 - i] == actions[i..j - 1];
    }
  }

  // ----- A run that is left alone

  /** No stop, no new settings, and every call returns. */
  predicate LeavesAlone(a: Action) {
    match a
    case TaskStep(ok, _) => ok
    case WriteAcquire(value, _) => value
    case WriteSettings(_) => false
    case _ => true
  }

  /** The action is one that its party can make now: the task waits for the stop event, the server
      completes what is running, and delivers what is pending. */
  predicate Moves(s: State, a: Action) {
    match a
    case TaskStep(_, _) => s.task.pc == Expose(Wait) ==> s.stopEvent
    case Complete => s.server.phase == Running
    case Deliver => s.server.pending > 0
    case _ => false
  }

  /** The moves between two moments of a run. */
  function MovesMade(run: seq<State>, actions: seq<Action>, i: nat, j: nat): nat
    requires i <= j <= |actions| <= |run|
    decreases j
  {
    if j == i then 0 else MovesMade(run, actions, i, j - 1) + if Moves(run[j - 1], actions[j - 1]) then 1 else 0
  }

  /** What `images` further images take at most: clearing, fetching and publishing, finishing, and
      six moves for each exposure. */
  function Work(images: int, exposures: nat): nat
    decreases images
  {
    if images <= 0 then 0 else Work(images - 1, exposures) + 8 + 6 * exposures
  }

  /** The moves that are left of a frame, from a point of it on. */
  function LeftOfFrame(s: State): nat {
    var n := PerImage(s.task.settings);
    var later := 6 * Max(0, n - s.task.exposuresCounter);
    match s.task.pc
    case Parked => 0
    case Woken => 0
    case Setup(at) => 8 + 6 * n + LeftOfSetup(at)
    case Expose(at) =>
      (match at
       case Clear => 8 + 6 * n
       case ClearStop => 13 + later
       case Start => 12 + later
       case Wait => later + if s.server.phase == Running then 11 else if !s.stopEvent then 10 else 9
       case Completed => 8 + later
       case Fetch => 7)
    case Finish(at) =>
      (match at
       case UnsubState => 6
       case UnsubUpdates => 5
       case FinishSpectrum => 4
       case FinishMeasurement => 3)
    case Handle(_) => 0
    case Leave => 2
    case Callbacks => 1
  }

  function LeftOfSetup(at: First): nat {
    match at
    case GetState => 6
    case Define => 5
    case StartMeasurement => 4
    case SetupSpectrum => 3
    case SubscribeState => 2
    case SubscribeUpdates => 1
  }

  /** The images still to take behind the frame in progress. */
  function LaterImages(s: State): int {
    Wanted(s.task.settings) - s.task.imagesCounter - if s.task.pc.Setup? || s.task.pc.Expose? then 1 else 0
  }

  function Remaining(s: State): nat {
    LeftOfFrame(s) + Work(LaterImages(s), PerImage(s.task.settings))
  }

  /** A measurement is open where the calls of the task need one, and none where they must not find
      one. */
  predicate Healthy(s: State) {
    match s.task.pc
    case Setup(at) => at.GetState? || at.Define? || at.StartMeasurement? ==> s.server.phase == Active
    case Expose(_) => s.server.phase != Active
    case Finish(_) => s.server.phase != Active
    case Leave => LastImage(s.task.settings, s.task.imagesCounter) || s.server.phase != Active
    case Callbacks => LastImage(s.task.settings, s.task.imagesCounter) || s.server.phase != Active
    case _ => true
  }

  /** In the middle of a run that has been left alone. */
  predicate Alone(s: State) {
    && Inv(s) && Counted(s) && Healthy(s) && s.history.undisturbed && s.task.pc != Woken
    && s.history.settings.imageMode != Continuous
  }

  /** What a step does to a run that is left alone. */
  predicate Leads(s: State, t: State, moved: bool) {
    && Healthy(t) && t.history.undisturbed && t.task.pc != Woken
    && t.history.settings == s.history.settings
    && (t.task.pc != Parked ==> Remaining(t) + (if moved then 1 else 0) <= Remaining(s))
  }

  lemma SetupLeads(s: State, at: First)
    requires Alone(s) && s.task.pc == Setup(at)
    ensures Leads(s, SetupStep(s, at), true)
  {
  }

  lemma ExposureLeads(s: State, at: Exposure)
    requires Alone(s) && s.task.pc == Expose(at)
    ensures Leads(s, ExposureStep(s, at, true), at == Wait ==> s.stopEvent)
  {
  }

  lemma FinishLeads(s: State, at: Last)
    requires Alone(s) && s.task.pc == Finish(at)
    ensures Leads(s, FinishStep(s, at, true), true)
  {
  }

  lemma FrameLeads(s: State)
    requires Alone(s) && s.task.pc == Callbacks
    ensures Leads(s, FrameDone(s), true)
  {
  }

  lemma LeaveLeads(s: State, callbacks: bool)
    requires Alone(s) && s.task.pc == Leave
    ensures Leads(s, Left(s, callbacks), true)
  {
  }

  lemma OthersLead(s: State, a: Action)
    requires Alone(s) && s.task.pc != Parked && !a.TaskStep? && LeavesAlone(a)
    ensures Leads(s, Step(s, a), Moves(s, a))
  {
  }

  lemma AloneStep(s: State, a: Action)
    requires Alone(s) && s.task.pc != Parked && LeavesAlone(a)
    ensures Leads(s, Step(s, a), Moves(s, a)) && Alone(Step(s, a))
  {
    StepKeeps(s, a);
    StepCounts(s, a);
    if a.TaskStep? {
      TaskLeads(s, a.callbacks);
    } else {
      OthersLead(s, a);
    }
    hide Inv, Counted, Healthy, TaskStepped, Remaining;
  }

  lemma TaskLeads(s: State, callbacks: bool)
    requires Alone(s) && s.task.pc != Parked
    ensures Leads(s, TaskStepped(s, true, callbacks), Moves(s, TaskStep(true, callbacks)))
  {
    hide Inv, Healthy, SetupStep, ExposureStep, FinishStep, HandlerStep, Left, FrameDone, Leads;
    match s.task.pc {
      case Setup(at) => SetupLeads(s, at);
      case Expose(at) => ExposureLeads(s, at);
      case Finish(at) => FinishLeads(s, at);
      case Leave => LeaveLeads(s, callbacks);
      case Callbacks => FrameLeads(s);
      case _ =>
    }
  }

  /** Until the task parks, there is always a party that can move. */
  lemma SomePartyMoves(s: State)
    requires Inv(s) && s.task.pc != Parked
    ensures Moves(s, TaskStep(true, true)) || Moves(s, Complete) || Moves(s, Deliver)
  {
    hide Bracket, Owned, Paired, Locals, Stops, Doomed;
  }

  lemma WakesAlone(s: State)
    requires Inv(s) && Counted(s) && s.task.pc == Woken && Closed(s) && s.table.acquire
    requires s.table.settings.imageMode != Continuous
    ensures var t, settings := WakeUp(s), s.table.settings;
            && Alone(t) && t.task.pc != Parked && t.history.settings == settings
            && Remaining(t) == Work(Wanted(settings), PerImage(settings)) + 6
  {
    var a := TaskStep(true, true);
    StepKeeps(s, a);
    StepCounts(s, a);
    hide Inv, Counted;
  }

  lemma {:induction false} MovesLeft(run: seq<State>, actions: seq<Action>, i: nat, j: nat)
    requires IsRun(run, actions) && i <= j < |run| && Alone(run[i])
    requires forall k :: i <= k < j ==> LeavesAlone(actions[k]) && run[k].task.pc != Parked
    ensures Alone(run[j]) && run[j].history.settings == run[i].history.settings
    ensures run[j].task.pc != Parked ==> MovesMade(run, actions, i, j) + Remaining(run[j]) <= Remaining(run[i])
    decreases j
  {
    hide Alone, Step, HandlerSucceeds, Moves, LeavesAlone, Remaining, Healthy;
    if j > i {
      MovesLeft(run, actions, i, j - 1);
      AloneStep(run[j - 1], actions[j - 1]);
    }
  }

  lemma TakenUp(run: seq<State>, actions: seq<Action>, i: nat)
    requires IsRun(run, actions) && i < |actions| && actions[i].TaskStep? && run[i].task.pc == Woken
    requires Inv(run[i]) && Counted(run[i]) && Closed(run[i]) && run[i].table.acquire
    requires run[i].table.settings.imageMode != Continuous
    ensures var t, wanted := run[i + 1], run[i].table.settings;
            && Alone(t) && t.task.pc != Parked && t.history.settings == wanted
            && Remaining(t) == Work(Wanted(wanted), PerImage(wanted)) + 6
  {
    hide Inv, Counted, Closed, Remaining, Alone, WakeUp;
    WakesAlone(run[i]);
  }

  lemma NotDone(s: State)
    requires Alone(s) && s.task.pc != Parked
    ensures Remaining(s) > 0
  {
    hide Inv, Healthy;
  }

  lemma ParkedClosed(s: State)
    requires Inv(s) && s.task.pc == Parked && s.server.phase == Active
    ensures Closed(s)
  {
  }

  /** A run that the task takes up with nothing open and ADAcquire set, and that is then left alone,
      comes to its end if it has one: there is a bound on the moves of the task and the server, and
      by then the task has been parked, with the images that were wanted. (Until it is, one of them
      can move: SomePartyMoves.) */
  lemma LeftAloneItParks(run: seq<State>, actions: seq<Action>, settings: Settings, arrayCounter: int, i: nat, j: nat)
    requires IsRun(run, actions) && run[0] == Initially(settings, arrayCounter) && i < j < |run|
    requires run[i].task.pc == Woken && Closed(run[i]) && run[i].table.acquire && actions[i].TaskStep?
    requires run[i].table.settings.imageMode != Continuous
    requires forall k :: i < k < j ==> LeavesAlone(actions[k])
    requires var wanted := run[i].table.settings;
             MovesMade(run, actions, i + 1, j) >= Work(Wanted(wanted), PerImage(wanted)) + 6
    ensures var wanted := run[i].table.settings;
            exists k :: i < k <= j && FirstPark(run, i + 1, k) &&
              run[k].history.log == Frames(Wanted(wanted), PerImage(wanted)) &&
              run[k].table.status == Idle && Closed(run[k]) && run[k].server.subscriptions == {}
  {
    hide Inv, Counted, Closed, Step, HandlerSucceeds, Moves, LeavesAlone, Remaining, Work, Wanted, PerImage, Frames;
    InitiallyHolds(settings, arrayCounter);
    RunKeeps(run, actions, i);
    RunCounts(run, actions, settings, arrayCounter, i);
    TakenUp(run, actions, i);
    if forall m :: i < m <= j ==> run[m].task.pc != Parked {
      MovesLeft(run, actions, i + 1, j);
      NotDone(run[j]);
    } else {
      var k := FirstParked(run, i + 1, j);
      MovesLeft(run, actions, i + 1, k);
      UndisturbedRun(run, actions, settings, arrayCounter, k - 1);
      ParkedClosed(run[k]);
    }
  }
}
