/** The two events of `acquisitionTask`, which are taken when they are waited for, and the calls that
    throw or are not made at all. */
module AcquisitionEvents {
  import opened Wrappers
  import opened Acquisition

  /** The driver before the first start: at its loop's first wait, reporting Idle, with nothing open,
      nothing signalled, and nothing counted. */
  lemma InitialValues(settings: Settings, arrayCounter: int)
    ensures var s := Initially(settings, arrayCounter);
            && s.task.pc == Parked && s.table == Table(false, Idle, settings, arrayCounter, 0)
            && s.server.phase == Active && s.server.subscriptions == {} && s.server.pending == 0
            && !s.startEvent && !s.stopEvent && s.history.images == [] && s.history.log == []
            && s.task.guidState == None && s.task.guidUpdates == None && !s.task.spectrum
            && !s.task.acquire && !s.task.failed
            && s.task.imageCounter == s.task.imagesCounter == s.task.exposuresCounter == 0
  {
  }

  // ----- The start event

  function Starts(actions: seq<Action>): nat {
    if actions == [] then 0
    else
      var a := actions[|actions| - 1];
      Starts(actions[..|actions| - 1]) + if a.WriteAcquire? && a.value then 1 else 0
  }

  /** How often the task has been woken. */
  function Wakings(run: seq<State>): nat {
    if |run| <= 1 then 0
    else
      var n := |run| - 1;
      Wakings(run[..n]) + if run[n - 1].task.pc == Parked && run[n].task.pc == Woken then 1 else 0
  }

  /** Only the wait takes the start event, and no other step of the task gives it. */
  lemma CallsLeaveStart(s: State, ok: bool, callbacks: bool)
    requires s.task.pc != Parked && s.task.pc != Leave && s.task.pc != Callbacks
    ensures var t := TaskStepped(s, ok, callbacks); t.startEvent == s.startEvent && t.task.pc != Woken
  {
  }

  lemma TopLeavesStart(s: State)
    ensures AtTop(s).startEvent == s.startEvent && AtTop(s).stopEvent == s.stopEvent
  {
  }

  lemma FrameLeavesStart(s: State)
    ensures FrameDone(s).startEvent == s.startEvent && FrameDone(s).stopEvent == s.stopEvent
  {
    TopLeavesStart(s);
    TopLeavesStart(s.(table := s.table.(acquire := false, status := Idle)));
    hide AtTop;
  }

  lemma EndsLeaveStart(s: State, callbacks: bool)
    ensures Left(s, callbacks).startEvent == s.startEvent && Left(s, callbacks).stopEvent == s.stopEvent
    ensures FrameDone(s).startEvent == s.startEvent
  {
    TopLeavesStart(s.(table := s.table.(acquire := false, status := Failed)));
    TopLeavesStart(s.(table := s.table.(status := Aborted)));
    FrameLeavesStart(s);
    FrameLeavesStart(Published(s));
    hide AtTop, FrameDone;
  }

  lemma OneWaking(s: State, a: Action)
    ensures var t := Step(s, a);
            var start := if a.WriteAcquire? && a.value then 1 else 0;
            var waking := if s.task.pc == Parked && t.task.pc == Woken then 1 else 0;
            waking + (if t.startEvent then 1 else 0) <= start + if s.startEvent then 1 else 0
  {
    if a.TaskStep? {
      if s.task.pc == Leave || s.task.pc == Callbacks {
        EndsLeaveStart(s, a.callbacks);
      } else if s.task.pc != Parked {
        CallsLeaveStart(s, a.ok, a.callbacks);
      }
    }
    hide SetupStep, ExposureStep, FinishStep, HandlerStep, Left, FrameDone, WakeUp, Throw;
  }

  /** No run without a start: in every run the task has been woken at most as often as ADAcquire 1
      has been written. */
  lemma {:induction false} WokenByStarts(run: seq<State>, actions: seq<Action>, settings: Settings,
                                         arrayCounter: int, k: nat)
    requires IsRun(run, actions) && run[0] == Initially(settings, arrayCounter) && k <= |actions|
    ensures Wakings(run[..k + 1]) + (if run[k].startEvent then 1 else 0) <= Starts(actions[..k])
    decreases k
  {
    hide Initially, Step, Starts, Wakings;
    if k == 0 {
      InitialValues(settings, arrayCounter);
      NoneYet(run[..1]);
    } else {
      WokenByStarts(run, actions, settings, arrayCounter, k - 1);
      OneWaking(run[k - 1], actions[k - 1]);
      OneMoreState(run, actions, k);
    }
  }

  lemma NoneYet(run: seq<State>)
    requires |run| == 1
    ensures Wakings(run) == 0 && Starts([]) == 0
  {
  }

  lemma OneMoreState(run: seq<State>, actions: seq<Action>, k: nat)
    requires 0 < k <= |actions| < |run|
    ensures Wakings(run[..k + 1]) ==
            Wakings(run[..k]) + if run[k - 1].task.pc == Parked && run[k].task.pc == Woken then 1 else 0
    ensures Starts(actions[..k]) ==
            Starts(actions[..k - 1]) + if actions[k - 1].WriteAcquire? && actions[k - 1].value then 1 else 0
  {
    assert run[..k + 1][..k] == run[..k];
    assert actions[..k][..k - 1] == actions[..k - 1];
  }

  // ----- The stop event, and what is forgotten

  /** A stop event is only there while it is waited for, and a spectrum that has been finished is
      forgotten. */
  predicate Tidy(s: State) {
    && (s.stopEvent ==> s.task.pc == Expose(Wait))
    && (s.task.pc == Handle(EndMeasurement) || s.task.pc == Finish(FinishMeasurement) ==> !s.task.spectrum)
  }

  lemma SetupTidy(s: State, at: First)
    requires Tidy(s) && s.task.pc == Setup(at)
    ensures Tidy(SetupStep(s, at))
  {
    hide Subscribe;
  }

  lemma ExposureTidy(s: State, at: Exposure, ok: bool)
    requires Tidy(s) && s.task.pc == Expose(at)
    ensures Tidy(ExposureStep(s, at, ok))
  {
    hide LastImage;
  }

  lemma FinishTidy(s: State, at: Last, ok: bool)
    requires Tidy(s) && s.task.pc == Finish(at)
    ensures Tidy(FinishStep(s, at, ok))
  {
    hide DropState, DropUpdates;
    DropsLeave(s);
  }

  lemma DropsLeave(s: State)
    ensures DropState(s).stopEvent == DropUpdates(s).stopEvent == s.stopEvent
  {
  }

  lemma HandlerTidy(s: State, at: Cleanup, ok: bool)
    requires Tidy(s) && s.task.pc == Handle(at)
    ensures Tidy(HandlerStep(s, at, ok))
  {
    hide DropState, DropUpdates;
    DropsLeave(s);
  }

  lemma TaskTidy(s: State, ok: bool, callbacks: bool)
    requires Tidy(s)
    ensures Tidy(TaskStepped(s, ok, callbacks))
  {
    hide SetupStep, ExposureStep, FinishStep, HandlerStep, Left, FrameDone;
    match s.task.pc {
      case Setup(at) => SetupTidy(s, at);
      case Expose(at) => ExposureTidy(s, at, ok);
      case Finish(at) => FinishTidy(s, at, ok);
      case Handle(at) => HandlerTidy(s, at, ok);
      case Leave => LeftTidy(s, callbacks);
      case Callbacks => FrameTidy(s);
      case _ =>
    }
  }

  lemma FrameTidy(s: State)
    requires s.task.pc == Callbacks && !s.stopEvent
    ensures Tidy(FrameDone(s))
  {
  }

  lemma LeftTidy(s: State, callbacks: bool)
    requires s.task.pc == Leave && !s.stopEvent
    ensures Tidy(Left(s, callbacks))
  {
  }

  lemma StepTidy(s: State, a: Action)
    requires Inv(s) && Tidy(s)
    ensures Tidy(Step(s, a))
  {
    if a.TaskStep? {
      hide Inv, TaskStepped, Tidy;
      TaskTidy(s, a.ok, a.callbacks);
    } else {
      hide Bracket, Owned, Paired, Locals, Stops, Doomed, TaskStepped;
    }
  }

  lemma {:induction false} RunTidy(run: seq<State>, actions: seq<Action>, settings: Settings,
                                   arrayCounter: int, k: nat)
    requires IsRun(run, actions) && run[0] == Initially(settings, arrayCounter) && k < |run|
    ensures Tidy(run[k])
    decreases k
  {
    hide Inv, Step, Tidy;
    InitiallyHolds(settings, arrayCounter);
    if k == 0 {
      TidyAtFirst(settings, arrayCounter);
    } else {
      hide Initially;
      RunTidy(run, actions, settings, arrayCounter, k - 1);
      RunKeeps(run, actions, k - 1);
      StepTidy(run[k - 1], actions[k - 1]);
    }
  }

  lemma TidyAtFirst(settings: Settings, arrayCounter: int)
    ensures Tidy(Initially(settings, arrayCounter))
  {
    InitialValues(settings, arrayCounter);
    hide Initially;
  }

  // ----- Calls

  /** Where a call to the server is made next. A guid or a spectrum that the task has not got, or has
      already dropped, is not mentioned to the server. */
  predicate Calls(s: State) {
    match s.task.pc
    case Setup(_) => true
    case Expose(at) => at == Clear || at == Start || at == Fetch
    case Finish(at) =>
      (at == UnsubState ==> s.task.guidState.Some?) && (at == UnsubUpdates ==> s.task.guidUpdates.Some?)
    case Handle(at) =>
      && (at == DropStateSub ==> s.task.guidState.Some?) && (at == DropUpdateSub ==> s.task.guidUpdates.Some?)
      && (at == DropSpectrum ==> s.task.spectrum)
    case _ => false
  }

  /** A call that throws changes nothing but the way of the task: into the handler, or, from the
      handler, out of it. */
  lemma ThrowingCall(s: State, callbacks: bool)
    requires Calls(s)
    ensures var t := Step(s, TaskStep(false, callbacks));
            && t.server == s.server && t.table == s.table && t.startEvent == s.startEvent
            && t.stopEvent == s.stopEvent
            && t.task == (if s.task.pc.Handle? then s.task.(pc := Leave)
                          else s.task.(pc := Handle(DropStateSub), failed := true))
  {
  }

  /** Where no call is made, none can throw. */
  lemma NoCall(s: State, callbacks: bool)
    requires !Calls(s)
    ensures Step(s, TaskStep(false, callbacks)) == Step(s, TaskStep(true, callbacks))
  {
    hide AtTop, Published;
  }

  /** The server refuses what does not suit its state: a measurement starts from Active, an exposure
      from Measuring, and only Measuring is finished. */
  lemma RefusedCall(s: State, callbacks: bool)
    requires || (s.task.pc == Setup(GetState) && s.server.phase != Active)
             || (s.task.pc == Setup(StartMeasurement) && s.server.phase != Active)
             || (s.task.pc == Expose(Start) && s.server.phase != Measuring)
             || (s.task.pc == Finish(FinishMeasurement) && s.server.phase != Measuring)
             || (s.task.pc == Handle(EndMeasurement) && s.server.phase != Measuring)
    ensures Step(s, TaskStep(true, callbacks)) == Step(s, TaskStep(false, callbacks))
  {
  }
}
