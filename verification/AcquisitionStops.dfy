/** Which stops reach the server: over whole runs, a stop ends a running acquisition if and only if
    the run that is in progress came from a start event. */
module AcquisitionStops {
  import opened Wrappers
  import opened Acquisition
  import opened AcquisitionParking
  import opened AcquisitionReach

  /** Whether the run in progress was taken up after a start event. One that is taken up where an
      abort has just been reported, because ADAcquire was set again in the meantime, was not. */
  function ByEvent(run: seq<State>, k: nat): bool
    requires k < |run|
  {
    k > 0 && EventNext(ByEvent(run, k - 1), run[k - 1], run[k])
  }

  function EventNext(byEvent: bool, s: State, t: State): bool {
    (s.task.pc == Woken && t.task.pc != Woken) || (byEvent && !(GivesUp(s) && t.task.pc != Leave))
  }

  /** In the middle of a run ADStatus tells how it was taken up. */
  predicate StatusTells(s: State, byEvent: bool) {
    s.task.pc != Parked && s.task.pc != Woken ==> s.table.status == if byEvent then Acquiring else Aborted
  }

  lemma CallsTell(s: State, ok: bool, byEvent: bool)
    requires StatusTells(s, byEvent) && s.task.pc != Leave && s.task.pc != Callbacks
    ensures var t := TaskStepped(s, ok, true); StatusTells(t, EventNext(byEvent, s, t))
  {
    hide SetupStep, ExposureStep, FinishStep, HandlerStep, Left, FrameDone;
    CallsKeepStatus(s, ok);
  }

  lemma CallsKeepStatus(s: State, ok: bool)
    ensures match s.task.pc
            case Setup(at) => SetupStep(s, at).table == s.table
            case Expose(at) => ExposureStep(s, at, ok).table == s.table
            case Finish(at) => FinishStep(s, at, ok).table == s.table
            case Handle(at) => HandlerStep(s, at, ok).table == s.table
            case _ => true
  {
  }

  lemma FrameTells(s: State, byEvent: bool)
    requires Inv(s) && StatusTells(s, byEvent) && s.task.acquire && !s.task.failed
    requires s.task.pc == Callbacks || s.task.pc == Leave
    ensures var t := FrameDone(s); StatusTells(t, EventNext(byEvent, s, t))
  {
    hide Inv;
  }

  lemma LeftTells(s: State, callbacks: bool, byEvent: bool)
    requires Inv(s) && StatusTells(s, byEvent) && s.task.pc == Leave
    ensures var t := Left(s, callbacks); StatusTells(t, EventNext(byEvent, s, t))
  {
    if !GivesUp(s) {
      PublishedKeeps(s);
      FrameTells(Published(s), byEvent);
      hide Inv, FrameDone;
    } else {
      hide Inv, FrameDone;
    }
  }

  lemma StepTells(s: State, a: Action, byEvent: bool)
    requires Inv(s) && StatusTells(s, byEvent)
    ensures StatusTells(Step(s, a), EventNext(byEvent, s, Step(s, a)))
  {
    if a.TaskStep? {
      CallbacksAcquire(s);
      if s.task.pc == Leave {
        LeftTells(s, a.callbacks, byEvent);
      } else if s.task.pc == Callbacks {
        FrameTells(s, byEvent);
      } else {
        CallsTell(s, a.ok, byEvent);
      }
      hide Inv, StatusTells, EventNext, Left, FrameDone, SetupStep, ExposureStep, FinishStep, HandlerStep;
    } else {
      hide TaskStepped, Inv;
    }
  }

  lemma {:induction false} RunTells(run: seq<State>, actions: seq<Action>, settings: Settings,
                                    arrayCounter: int, k: nat)
    requires IsRun(run, actions) && run[0] == Initially(settings, arrayCounter) && k < |run|
    ensures StatusTells(run[k], ByEvent(run, k))
    decreases k
  {
    if k > 0 {
      RunTells(run, actions, settings, arrayCounter, k - 1);
      InitiallyHolds(settings, arrayCounter);
      hide Initially, Inv, Step, StatusTells, EventNext;
      RunKeeps(run, actions, k - 1);
      StepTells(run[k - 1], actions[k - 1], ByEvent(run, k - 1));
    }
  }

  lemma RunningWaits(s: State)
    requires Inv(s) && s.server.phase == Running
    ensures s.task.pc == Expose(Wait) && s.task.guidState.Some? && s.server.pending == 0 && !s.stopEvent
  {
  }

  /** A stop while the server runs ends the acquisition, and the task will be told once, if and only
      if the call goes through and the run came from a start event; ADStatus says which it is.
      Otherwise the server runs on, and the stop only clears ADAcquire. */
  lemma StopEndsExactlyWhen(run: seq<State>, actions: seq<Action>, settings: Settings, arrayCounter: int, k: nat,
                            reached: bool)
    requires IsRun(run, actions) && run[0] == Initially(settings, arrayCounter) && k < |actions|
    requires run[k].server.phase == Running && actions[k] == WriteAcquire(false, reached)
    ensures var s, t := run[k], run[k + 1];
            && (t.server.phase != Running <==> reached && ByEvent(run, k))
            && t.server == (if t.server.phase == Running then s.server
                            else s.server.(phase := Measuring, pending := 1))
            && t.table == s.table.(acquire := false) && t.task == s.task
            && s.table.status == if ByEvent(run, k) then Acquiring else Aborted
  {
    InitiallyHolds(settings, arrayCounter);
    RunTells(run, actions, settings, arrayCounter, k);
    RunKeeps(run, actions, k);
    RunningWaits(run[k]);
    hide Initially, Inv, ByEvent, TaskStepped;
  }

  /** In a run that did not come from a start event, whatever the user writes and the task does, the
      server runs until it completes by itself. */
  lemma {:induction false} RunsToItsEnd(run: seq<State>, actions: seq<Action>, settings: Settings,
                                        arrayCounter: int, i: nat, j: nat)
    requires IsRun(run, actions) && run[0] == Initially(settings, arrayCounter) && i <= j < |run|
    requires run[i].server.phase == Running && !ByEvent(run, i)
    requires forall k :: i <= k < j ==> !actions[k].Complete?
    ensures run[j].server.phase == Running && run[j].task.pc == Expose(Wait) && !ByEvent(run, j)
    decreases j
  {
    hide Initially, Inv, Step, EventNext, StatusTells, HandlerSucceeds;
    InitiallyHolds(settings, arrayCounter);
    RunKeeps(run, actions, j);
    if j > i {
      RunsToItsEnd(run, actions, settings, arrayCounter, i, j - 1);
      RunKeeps(run, actions, j - 1);
      RunTells(run, actions, settings, arrayCounter, j - 1);
      RunsOn(run[j - 1], actions[j - 1]);
    }
    RunningWaits(run[j]);
  }

  lemma RunsOn(s: State, a: Action)
    requires Inv(s) && StatusTells(s, false) && s.server.phase == Running && !a.Complete?
    ensures Step(s, a).server.phase == Running && !EventNext(false, s, Step(s, a))
  {
    RunningWaits(s);
    hide Inv;
  }

  // ----- Such a run

  /** A stop of the exposure is seen. */
  lemma StopIsSeen(settings: Settings, arrayCounter: int, s: State) returns (t: State)
    requires Reachable(settings, arrayCounter, s) && Waiting(s, settings, 1) && s.table.status == Acquiring
    ensures Reachable(settings, arrayCounter, t) && t.task.pc == Expose(Completed) && Open(t)
    ensures t.table == s.table.(acquire := false) && t.server.phase == Measuring && t.server.pending == 0
    ensures !t.task.failed && t.task.settings == settings
  {
    hide Reachable;
    Onward(settings, arrayCounter, s, WriteAcquire(false, true));
    var u := Step(s, WriteAcquire(false, true));
    Onward(settings, arrayCounter, u, Deliver);
    t := CallReturns(settings, arrayCounter, Step(u, Deliver));
  }

  /** The user starts again before the abort has been reported. */
  lemma StartsBeforeReport(settings: Settings, arrayCounter: int, s: State) returns (t: State)
    requires Reachable(settings, arrayCounter, s) && s.task.pc == Expose(Completed) && Open(s)
    requires s.table.status == Acquiring && !s.table.acquire && s.server.phase == Measuring && s.server.pending == 0
    requires !s.task.failed && s.task.settings == settings
    ensures Reachable(settings, arrayCounter, t) && t.task.pc == Finish(UnsubState) && Open(t)
    ensures t.table == s.table.(acquire := true) && t.server.phase == Measuring && t.server.pending == 0
    ensures !t.task.acquire && !t.task.failed && t.task.settings == settings
  {
    hide Reachable;
    t := CallReturns(settings, arrayCounter, s);
    t := CallReturns(settings, arrayCounter, t);
    Onward(settings, arrayCounter, t, WriteAcquire(true, true));
    t := Step(t, WriteAcquire(true, true));
  }

  lemma ReportsAndGoesOn(settings: Settings, arrayCounter: int, s: State) returns (t: State)
    requires Reachable(settings, arrayCounter, s) && s.task.pc == Finish(UnsubState) && Open(s)
    requires s.table == Table(true, Acquiring, settings, arrayCounter, 0)
    requires s.server.phase == Measuring && s.server.pending == 0
    requires !s.task.acquire && !s.task.failed && s.task.settings == settings
    ensures Reachable(settings, arrayCounter, t) && AtSetup(t, settings) && t.table == s.table.(status := Aborted)
  {
    hide Reachable;
    t := CallReturns(settings, arrayCounter, s);
    t := CallReturns(settings, arrayCounter, t);
    t := CallReturns(settings, arrayCounter, t);
    t := CallReturns(settings, arrayCounter, t);
    t := CallReturns(settings, arrayCounter, t);
  }

  lemma SomeRunIsDeaf(settings: Settings, arrayCounter: int) returns (t: State)
    requires settings.numExposures >= 1
    ensures Reachable(settings, arrayCounter, t) && Waiting(t, settings, 1) && t.table.status == Aborted
  {
    hide Reachable, Open, AtSetup, Exposing, Waiting;
    t := ComesToSetup(settings, arrayCounter);
    t := SetsUp(settings, arrayCounter, t);
    t := StartsExposure(settings, arrayCounter, t, 1);
    t := StopIsSeen(settings, arrayCounter, t);
    t := StartsBeforeReport(settings, arrayCounter, t);
    t := ReportsAndGoesOn(settings, arrayCounter, t);
    t := SetsUp(settings, arrayCounter, t);
    t := StartsExposure(settings, arrayCounter, t, 1);
  }

  lemma RunningExposes(t: State, settings: Settings)
    requires Inv(t) && Unwritten(t, settings) && t.server.phase == Running
    ensures settings.numExposures >= 1
  {
    RunningWaits(t);
    hide Inv;
  }

  /** With settings that are not written, some run comes to an acquisition that no stop can end if and
      only if there are exposures to make. */
  lemma DeafForSome(settings: Settings, arrayCounter: int)
    ensures (exists t :: Reachable(settings, arrayCounter, t) && t.server.phase == Running && t.table.status == Aborted)
            <==> settings.numExposures >= 1
  {
    hide Reachable, Open;
    if settings.numExposures >= 1 {
      var t := SomeRunIsDeaf(settings, arrayCounter);
      assert t.server.phase == Running && t.table.status == Aborted;
    }
    forall t | Reachable(settings, arrayCounter, t) && t.server.phase == Running
      ensures settings.numExposures >= 1
    {
      ReachableUnwritten(settings, arrayCounter, t);
      RunningExposes(t, settings);
    }
  }
}
