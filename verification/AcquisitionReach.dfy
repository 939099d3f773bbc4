/** What runs of `acquisitionTask` can come to: the states at which something goes wrong are reached. */
module AcquisitionReach {
  import opened Wrappers
  import opened Acquisition
  import opened AcquisitionParking

  /** Some run from the start, in which the settings are never written, comes to the state. */
  ghost predicate Reachable(settings: Settings, arrayCounter: int, t: State) {
    exists run, actions :: RunTo(run, actions, settings, arrayCounter, t)
  }

  predicate RunTo(run: seq<State>, actions: seq<Action>, settings: Settings, arrayCounter: int, t: State) {
    && IsRun(run, actions) && run[0] == Initially(settings, arrayCounter) && run[|actions|] == t
    && forall k :: 0 <= k < |actions| ==> !actions[k].WriteSettings?
  }

  lemma StartIsReachable(settings: Settings, arrayCounter: int)
    ensures Reachable(settings, arrayCounter, Initially(settings, arrayCounter))
  {
    hide Initially;
    var run := [Initially(settings, arrayCounter)];
    assert RunTo(run, [], settings, arrayCounter, run[0]);
  }

  /** A run can be continued by any step. */
  lemma Onward(settings: Settings, arrayCounter: int, s: State, a: Action)
    requires Reachable(settings, arrayCounter, s) && HandlerSucceeds(s, a) && !a.WriteSettings?
    ensures Reachable(settings, arrayCounter, Step(s, a))
  {
    hide Initially, Step, HandlerSucceeds;
    var run, actions :| RunTo(run, actions, settings, arrayCounter, s);
    var run', actions' := run + [Step(s, a)], actions + [a];
    assert run'[0] == run[0];
    assert RunTo(run', actions', settings, arrayCounter, Step(s, a));
  }

  /** A call that returns. */
  lemma CallReturns(settings: Settings, arrayCounter: int, s: State) returns (t: State)
    requires Reachable(settings, arrayCounter, s)
    ensures t == TaskStepped(s, true, false) && Reachable(settings, arrayCounter, t)
  {
    t := Step(s, TaskStep(true, false));
    Onward(settings, arrayCounter, s, TaskStep(true, false));
    hide TaskStepped, Reachable;
  }

  // ----- From the start to the exposures

  /** At the first call of a frame that sets up a measurement. */
  predicate AtSetup(s: State, settings: Settings) {
    && s.task.pc == Setup(GetState) && Closed(s) && s.server.pending == 0
    && s.task.settings == settings && s.task.imagesCounter == 0 && s.task.exposuresCounter == 0
    && s.task.acquire && s.table.acquire && !s.task.failed
  }

  /** Behind `e - 1` exposures of a run's first image, with the measurement open. */
  predicate Exposing(s: State, settings: Settings, e: int) {
    && s.task.pc == (if e - 1 < settings.numExposures then Expose(ClearStop) else Expose(Fetch))
    && Open(s) && s.server.phase == Measuring && s.server.pending == 0
    && s.task.settings == settings && s.task.imagesCounter == 0 && s.task.exposuresCounter == e
    && s.task.acquire && s.table.acquire && !s.task.failed
  }

  lemma ComesToSetup(settings: Settings, arrayCounter: int) returns (t: State)
    ensures Reachable(settings, arrayCounter, t) && AtSetup(t, settings)
    ensures t.table == Table(true, Acquiring, settings, arrayCounter, 0)
  {
    hide Reachable;
    StartIsReachable(settings, arrayCounter);
    var s := Initially(settings, arrayCounter);
    Onward(settings, arrayCounter, s, WriteAcquire(true, true));
    t := CallReturns(settings, arrayCounter, Step(s, WriteAcquire(true, true)));
    t := CallReturns(settings, arrayCounter, t);
  }

  lemma SetsUp(settings: Settings, arrayCounter: int, s: State) returns (t: State)
    requires Reachable(settings, arrayCounter, s) && AtSetup(s, settings)
    ensures Reachable(settings, arrayCounter, t) && Exposing(t, settings, 1) && t.table == s.table
  {
    hide Reachable;
    t := CallReturns(settings, arrayCounter, s);
    t := CallReturns(settings, arrayCounter, t);
    t := CallReturns(settings, arrayCounter, t);
    t := CallReturns(settings, arrayCounter, t);
    t := CallReturns(settings, arrayCounter, t);
    t := CallReturns(settings, arrayCounter, t);
    t := CallReturns(settings, arrayCounter, t);
  }

  /** At the wait for the end of an exposure. */
  predicate Waiting(s: State, settings: Settings, e: int) {
    && s.task.pc == Expose(Wait) && Open(s) && s.server.phase == Running && s.server.pending == 0 && !s.stopEvent
    && s.task.settings == settings && s.task.imagesCounter == 0 && s.task.exposuresCounter == e
    && s.task.acquire && s.table.acquire && !s.task.failed
  }

  lemma StartsExposure(settings: Settings, arrayCounter: int, s: State, e: int) returns (t: State)
    requires Reachable(settings, arrayCounter, s) && Exposing(s, settings, e) && e <= settings.numExposures
    ensures Reachable(settings, arrayCounter, t) && Waiting(t, settings, e) && t.table == s.table
  {
    hide Reachable;
    t := CallReturns(settings, arrayCounter, s);
    t := CallReturns(settings, arrayCounter, t);
  }

  lemma EndsExposure(settings: Settings, arrayCounter: int, s: State, e: int) returns (t: State)
    requires Reachable(settings, arrayCounter, s) && Waiting(s, settings, e)
    ensures Reachable(settings, arrayCounter, t) && Exposing(t, settings, e + 1) && t.table == s.table
  {
    hide Reachable;
    Onward(settings, arrayCounter, s, Complete);
    var u := Step(s, Complete);
    Onward(settings, arrayCounter, u, Deliver);
    t := CallReturns(settings, arrayCounter, Step(u, Deliver));
    t := CallReturns(settings, arrayCounter, t);
  }

  /** All exposures are made. */
  lemma {:induction false} ExposesAll(settings: Settings, arrayCounter: int, s: State, e: int) returns (t: State)
    requires Reachable(settings, arrayCounter, s) && Exposing(s, settings, e)
    ensures Reachable(settings, arrayCounter, t) && t.task.pc == Expose(Fetch) && t.table == s.table
    ensures Exposing(t, settings, t.task.exposuresCounter)
    decreases settings.numExposures - e
  {
    hide Reachable;
    if e <= settings.numExposures {
      var u := StartsExposure(settings, arrayCounter, s, e);
      u := EndsExposure(settings, arrayCounter, u, e);
      t := ExposesAll(settings, arrayCounter, u, e + 1);
    } else {
      t := s;
    }
  }

  // ----- A stop that comes too late

  /** The image is fetched, and a stop comes before it is published. */
  lemma StopsLate(settings: Settings, arrayCounter: int, s: State) returns (t: State)
    requires Reachable(settings, arrayCounter, s) && s.task.pc == Expose(Fetch)
    requires Exposing(s, settings, s.task.exposuresCounter) && !LastImage(settings, 1)
    ensures Reachable(settings, arrayCounter, t) && t.task.pc == Parked && Open(t) && t.table.status == Idle
  {
    hide Reachable;
    var u := CallReturns(settings, arrayCounter, s);
    Onward(settings, arrayCounter, u, WriteAcquire(false, true));
    t := CallReturns(settings, arrayCounter, Step(u, WriteAcquire(false, true)));
  }

  lemma SomeRunParksOpen(settings: Settings, arrayCounter: int) returns (t: State)
    requires !LastImage(settings, 1)
    ensures Reachable(settings, arrayCounter, t) && t.task.pc == Parked && Open(t) && t.table.status == Idle
  {
    hide Reachable, Open, AtSetup, Exposing;
    t := ComesToSetup(settings, arrayCounter);
    t := SetsUp(settings, arrayCounter, t);
    t := ExposesAll(settings, arrayCounter, t, 1);
    t := StopsLate(settings, arrayCounter, t);
  }

  // ----- Which settings allow it

  /** As long as the settings are not written, the task works with them; and behind an image it has
      counted at least that one. */
  predicate Unwritten(s: State, settings: Settings) {
    && s.table.settings == settings && s.task.settings == settings
    && s.table.imagesCounter >= 0 && s.task.imagesCounter >= 0 && s.task.exposuresCounter >= 0
    && (s.task.pc.Expose? && s.task.pc != Expose(Clear) && s.task.pc != Expose(Fetch) ==> settings.numExposures >= 1)
    && (s.task.pc.Finish? || s.task.pc == Leave || s.task.pc == Callbacks ==>
          s.task.acquire && !s.task.failed ==> s.task.imagesCounter >= 1)
    && ((s.task.pc == Parked || s.task.pc == Woken) && s.server.phase != Active ==>
          s.task.imagesCounter >= 1 && !LastImage(settings, s.task.imagesCounter))
  }

  lemma FrameUnwritten(s: State, settings: Settings)
    requires Inv(s) && Unwritten(s, settings) && s.task.acquire && !s.task.failed
    requires s.task.pc == Callbacks || s.task.pc == Leave
    ensures Unwritten(FrameDone(s), settings)
  {
    hide Signals, Owned, Paired, Stops, Doomed, Locals;
  }

  lemma LeftUnwritten(s: State, callbacks: bool, settings: Settings)
    requires Inv(s) && Unwritten(s, settings) && s.task.pc == Leave
    ensures Unwritten(Left(s, callbacks), settings)
  {
    if GivesUp(s) {
      GivingUpClosed(s);
      hide Inv;
    } else {
      PublishedKeeps(s);
      FrameUnwritten(Published(s), settings);
      hide Inv, FrameDone;
    }
  }

  /** Most calls touch neither the parameters nor what is counted. */
  predicate SameCounters(s: State, t: State) {
    && t.table == s.table && t.task.settings == s.task.settings && t.task.acquire == s.task.acquire
    && t.task.imagesCounter == s.task.imagesCounter && t.task.exposuresCounter == s.task.exposuresCounter
  }

  lemma SetupTouches(s: State, at: First)
    requires s.task.pc == Setup(at)
    ensures var t := SetupStep(s, at);
            SameCounters(s, t) && (t.task.pc.Setup? || t.task.pc == Expose(Clear) || t.task.pc.Handle?)
  {
    hide Subscribe;
  }

  lemma SetupUnwritten(s: State, at: First, settings: Settings)
    requires Unwritten(s, settings) && s.task.pc == Setup(at)
    ensures Unwritten(SetupStep(s, at), settings)
  {
    hide LastImage, SetupStep;
    SetupTouches(s, at);
  }

  lemma ExposureUnwritten(s: State, at: Exposure, ok: bool, settings: Settings)
    requires Unwritten(s, settings) && s.task.pc == Expose(at)
    ensures Unwritten(ExposureStep(s, at, ok), settings)
  {
    hide Unwritten, ExposureStep;
    match at {
      case Clear => CountingUnwritten(s, Clear, ok, settings);
      case Completed => CountingUnwritten(s, Completed, ok, settings);
      case Fetch => FetchUnwritten(s, ok, settings);
      case _ => StartingUnwritten(s, at, ok, settings);
    }
  }

  lemma CountingUnwritten(s: State, at: Exposure, ok: bool, settings: Settings)
    requires Unwritten(s, settings) && s.task.pc == Expose(at) && (at == Clear || at == Completed)
    ensures Unwritten(ExposureStep(s, at, ok), settings)
  {
    hide LastImage, Log;
    LogKeeps(s, Cleared);
  }

  lemma StartingUnwritten(s: State, at: Exposure, ok: bool, settings: Settings)
    requires Unwritten(s, settings) && s.task.pc == Expose(at) && (at == ClearStop || at == Start || at == Wait)
    ensures Unwritten(ExposureStep(s, at, ok), settings)
  {
    hide LastImage, Log;
    LogKeeps(Go(s, Expose(Wait)), Started);
  }

  lemma FetchUnwritten(s: State, ok: bool, settings: Settings)
    requires Unwritten(s, settings) && s.task.pc == Expose(Fetch)
    ensures Unwritten(ExposureStep(s, Fetch, ok), settings)
  {
    hide LastImage;
  }

  lemma LogKeeps(s: State, e: Event)
    ensures Log(s, e).table == s.table && Log(s, e).task == s.task && Log(s, e).server == s.server
  {
  }

  lemma DropsKeep(s: State)
    ensures SameCounters(s, DropState(s)) && DropState(s).task.failed == s.task.failed
    ensures SameCounters(s, DropUpdates(s)) && DropUpdates(s).task.failed == s.task.failed
    ensures SameCounters(s, MeasurementFinished(s)) && MeasurementFinished(s).task == s.task
    ensures SameCounters(s, Throw(s))
  {
  }

  lemma GoKeeps(s: State, pc: Pc)
    ensures SameCounters(s, Go(s, pc)) && Go(s, pc).task.pc == pc && Go(s, pc).task.failed == s.task.failed
  {
  }

  lemma FinishTouches(s: State, at: Last, ok: bool)
    requires s.task.pc == Finish(at)
    ensures var t := FinishStep(s, at, ok);
            && SameCounters(s, t)
            && (t.task.pc == Handle(DropStateSub) ||
                ((t.task.pc.Finish? || t.task.pc == Leave) && t.task.failed == s.task.failed))
  {
    hide DropState, DropUpdates, MeasurementFinished, Go;
    DropsKeep(s);
    match at {
      case UnsubState => GoKeeps(DropState(s), Finish(UnsubUpdates));
      case UnsubUpdates => GoKeeps(DropUpdates(s), Finish(FinishSpectrum));
      case FinishSpectrum =>
      case FinishMeasurement => GoKeeps(MeasurementFinished(s), Leave);
    }
  }

  lemma FinishUnwritten(s: State, at: Last, ok: bool, settings: Settings)
    requires Unwritten(s, settings) && s.task.pc == Finish(at)
    ensures Unwritten(FinishStep(s, at, ok), settings)
  {
    hide LastImage, FinishStep;
    FinishTouches(s, at, ok);
  }

  lemma HandlerTouches(s: State, at: Cleanup, ok: bool)
    requires s.task.pc == Handle(at)
    ensures var t := HandlerStep(s, at, ok);
            SameCounters(s, t) && t.task.failed == s.task.failed && (t.task.pc.Handle? || t.task.pc == Leave)
  {
    hide DropState, DropUpdates, MeasurementFinished, Go;
    DropsKeep(s);
    GoKeeps(s, Leave);
    match at {
      case DropStateSub => GoKeeps(DropState(s), Handle(DropUpdateSub));
      case DropUpdateSub => GoKeeps(DropUpdates(s), Handle(CheckState));
      case CheckState => GoKeeps(s, Handle(DropSpectrum));
      case DropSpectrum => GoKeeps(s, Handle(EndMeasurement));
      case EndMeasurement => GoKeeps(MeasurementFinished(s), Leave);
    }
  }

  lemma HandlerUnwritten(s: State, at: Cleanup, ok: bool, settings: Settings)
    requires Locals(s) && Unwritten(s, settings) && s.task.pc == Handle(at)
    ensures Unwritten(HandlerStep(s, at, ok), settings)
  {
    hide LastImage, HandlerStep;
    HandlerTouches(s, at, ok);
  }

  lemma TaskUnwritten(s: State, ok: bool, callbacks: bool, settings: Settings)
    requires Inv(s) && Unwritten(s, settings)
    ensures Unwritten(TaskStepped(s, ok, callbacks), settings)
  {
    CallbacksAcquire(s);
    hide Bracket, Signals, Owned, Paired, Stops, Doomed, Locals;
    hide Left, FrameDone, SetupStep, ExposureStep, FinishStep, HandlerStep;
    match s.task.pc {
      case Setup(at) => SetupUnwritten(s, at, settings);
      case Expose(at) => ExposureUnwritten(s, at, ok, settings);
      case Finish(at) => FinishUnwritten(s, at, ok, settings);
      case Handle(at) => HandlerUnwritten(s, at, ok, settings);
      case Leave => LeftUnwritten(s, callbacks, settings);
      case Callbacks => FrameUnwritten(s, settings);
      case _ =>
    }
  }

  lemma StepUnwritten(s: State, a: Action, settings: Settings)
    requires Inv(s) && Unwritten(s, settings) && !a.WriteSettings?
    ensures Unwritten(Step(s, a), settings)
  {
    if a.TaskStep? {
      TaskUnwritten(s, a.ok, a.callbacks, settings);
    }
    hide Inv, TaskStepped;
  }

  lemma {:induction false} RunUnwritten(run: seq<State>, actions: seq<Action>, settings: Settings,
                                        arrayCounter: int, k: nat)
    requires |run| == |actions| + 1 && k < |run|
    requires RunTo(run, actions, settings, arrayCounter, run[|actions|])
    ensures Unwritten(run[k], settings)
    decreases k
  {
    if k > 0 {
      RunUnwritten(run, actions, settings, arrayCounter, k - 1);
      InitiallyHolds(settings, arrayCounter);
      hide Initially, Inv, Step, Unwritten;
      RunKeeps(run, actions, k - 1);
      StepUnwritten(run[k - 1], actions[k - 1], settings);
    }
  }

  lemma ReachableUnwritten(settings: Settings, arrayCounter: int, t: State)
    requires Reachable(settings, arrayCounter, t)
    ensures Inv(t) && Unwritten(t, settings)
  {
    hide Initially, Inv, Unwritten;
    var run, actions :| RunTo(run, actions, settings, arrayCounter, t);
    RunUnwritten(run, actions, settings, arrayCounter, |actions|);
    InitiallyHolds(settings, arrayCounter);
    RunKeeps(run, actions, |actions|);
  }

  /** With settings that are not written, some run parks with a measurement open if and only if a
      run of those settings can have a second image. */
  lemma ParksOpenForSome(settings: Settings, arrayCounter: int)
    ensures (exists t :: Reachable(settings, arrayCounter, t) && t.task.pc == Parked && Open(t)) <==>
            !LastImage(settings, 1)
  {
    hide Reachable, Open;
    if !LastImage(settings, 1) {
      var t := SomeRunParksOpen(settings, arrayCounter);
    }
    forall t | Reachable(settings, arrayCounter, t) && t.task.pc == Parked && Open(t)
      ensures !LastImage(settings, 1)
    {
      ReachableUnwritten(settings, arrayCounter, t);
      OpenHasMore(t, settings);
    }
  }

  lemma OpenHasMore(t: State, settings: Settings)
    requires Inv(t) && Unwritten(t, settings) && (t.task.pc == Parked || t.task.pc == Woken) && Open(t)
    ensures !LastImage(settings, 1)
  {
  }

  lemma StartsAgain(settings: Settings, arrayCounter: int, s: State) returns (t: State)
    requires Reachable(settings, arrayCounter, s) && s.task.pc == Parked && Open(s) && s.table.status == Idle
    ensures Reachable(settings, arrayCounter, t) && t.task.pc == Woken && Open(t)
  {
    hide Reachable;
    Onward(settings, arrayCounter, s, WriteAcquire(true, true));
    t := CallReturns(settings, arrayCounter, Step(s, WriteAcquire(true, true)));
  }

  /** And then the next start finds the measurement open. */
  lemma WakesOpenForSome(settings: Settings, arrayCounter: int)
    ensures (exists t :: Reachable(settings, arrayCounter, t) && t.task.pc == Woken && Open(t)) <==>
            !LastImage(settings, 1)
  {
    hide Reachable, Open;
    if !LastImage(settings, 1) {
      var t := SomeRunParksOpen(settings, arrayCounter);
      t := StartsAgain(settings, arrayCounter, t);
    }
    forall t | Reachable(settings, arrayCounter, t) && t.task.pc == Woken && Open(t)
      ensures !LastImage(settings, 1)
    {
      ReachableUnwritten(settings, arrayCounter, t);
      OpenHasMore(t, settings);
    }
  }
}
