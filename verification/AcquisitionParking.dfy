/** Exactly when `acquisitionTask` parks with a measurement open, over whole runs. */
module AcquisitionParking {
  import opened Wrappers
  import opened Acquisition

  /** Whether the frames of the run that is in progress began with the setting up of a measurement:
      they do if ADNumImagesCounter is 0 when the task takes them up, as it is after every start
      event. A start that comes while an abort is being reported is taken up without the event, with
      the counter as the aborted run left it. */
  function SetUpAt(run: seq<State>, k: nat): bool
    requires k < |run|
  {
    if k == 0 then run[k].task.pc == Setup(GetState) else SetUpNext(SetUpAt(run, k - 1), run[k - 1], run[k])
  }

  function SetUpNext(setUp: bool, s: State, t: State): bool {
    t.task.pc == Setup(GetState) || (setUp && !(GivesUp(s) && t.task.pc != Leave))
  }

  /** An error or a stop is reported next. */
  predicate GivesUp(s: State) {
    s.task.pc == Leave && (s.task.failed || !s.task.acquire)
  }

  /** Inside a frame, and behind it if it was not the last, the measurement is open if and only if
      the frames began with setting it up; and they did as long as the driver is acquiring. */
  predicate OpenAsSetUp(s: State, setUp: bool) {
    && (s.task.pc.Setup? ==> setUp)
    && (s.task.pc.Expose? ==> (Open(s) <==> setUp))
    && (GoesOn(s) ==> (Open(s) <==> setUp))
    && (s.table.status == Acquiring && s.task.pc != Parked && s.task.pc != Woken ==> setUp)
  }

  /** Behind an image that was taken and is not the last. */
  predicate GoesOn(s: State) {
    && ((s.task.pc == Leave && s.task.acquire && !s.task.failed) || s.task.pc == Callbacks)
    && !LastImage(s.task.settings, s.task.imagesCounter)
  }

  lemma SetupOpens(s: State, at: First)
    requires Inv(s) && OpenAsSetUp(s, true) && s.task.pc == Setup(at)
    ensures OpenAsSetUp(SetupStep(s, at), true)
  {
  }

  lemma ExposureStaysOpen(s: State, at: Exposure, ok: bool, setUp: bool)
    requires Inv(s) && OpenAsSetUp(s, setUp) && s.task.pc == Expose(at)
    ensures OpenAsSetUp(ExposureStep(s, at, ok), setUp)
  {
  }

  lemma FinishCloses(s: State, at: Last, ok: bool, setUp: bool)
    requires Inv(s) && OpenAsSetUp(s, setUp) && s.task.pc == Finish(at)
    ensures OpenAsSetUp(FinishStep(s, at, ok), setUp)
  {
  }

  lemma HandlerCloses(s: State, at: Cleanup, setUp: bool)
    requires Inv(s) && OpenAsSetUp(s, setUp) && s.task.pc == Handle(at)
    ensures OpenAsSetUp(HandlerStep(s, at, true), setUp)
  {
  }

  lemma TopAsSetUp(s: State, setUp: bool)
    requires (Closed(s) || Open(s)) && (s.table.acquire ==> (Open(s) <==> setUp))
    requires s.table.status == Acquiring ==> setUp
    ensures var t := AtTop(s); OpenAsSetUp(t, setUp || t.task.pc == Setup(GetState))
  {
  }

  lemma FrameAsSetUp(s: State, setUp: bool)
    requires Inv(s) && OpenAsSetUp(s, setUp) && s.task.acquire && !s.task.failed
    requires s.task.pc == Callbacks || s.task.pc == Leave
    ensures OpenAsSetUp(FrameDone(s), SetUpNext(setUp, s, FrameDone(s)))
  {
    var t := if !s.table.acquire || LastImage(s.task.settings, s.task.imagesCounter)
             then s.(table := s.table.(acquire := false, status := Idle)) else s;
    TopAsSetUp(t, setUp);
    hide AtTop;
  }

  lemma LeftAsSetUp(s: State, callbacks: bool, setUp: bool)
    requires Inv(s) && OpenAsSetUp(s, setUp) && s.task.pc == Leave
    ensures OpenAsSetUp(Left(s, callbacks), SetUpNext(setUp, s, Left(s, callbacks)))
  {
    if GivesUp(s) {
      GivingUpClosed(s);
      TopAsSetUp(s.(table := s.table.(acquire := false, status := Failed)), false);
      TopAsSetUp(s.(table := s.table.(status := Aborted)), false);
      hide AtTop, Inv;
    } else {
      ImageAsSetUp(s, callbacks, setUp);
    }
  }

  lemma GivingUpClosed(s: State)
    requires Inv(s) && GivesUp(s)
    ensures Closed(s)
  {
  }

  lemma ImageAsSetUp(s: State, callbacks: bool, setUp: bool)
    requires Inv(s) && OpenAsSetUp(s, setUp) && s.task.pc == Leave && !GivesUp(s)
    ensures OpenAsSetUp(Left(s, callbacks), SetUpNext(setUp, s, Left(s, callbacks)))
  {
    var u := Published(s);
    PublishedKeeps(s);
    FrameAsSetUp(u, setUp);
    hide Inv, FrameDone, Go;
  }

  lemma WakingAsSetUp(s: State, setUp: bool)
    requires Inv(s) && OpenAsSetUp(s, setUp) && (s.task.pc == Parked || s.task.pc == Woken)
    ensures var t := TaskStepped(s, true, true); OpenAsSetUp(t, SetUpNext(setUp, s, t))
  {
    hide SetupStep, ExposureStep, FinishStep, HandlerStep, Left, FrameDone;
  }

  lemma TaskAsSetUp(s: State, ok: bool, callbacks: bool, setUp: bool)
    requires Inv(s) && OpenAsSetUp(s, setUp) && (s.task.pc.Handle? ==> ok)
    ensures var t := TaskStepped(s, ok, callbacks); OpenAsSetUp(t, SetUpNext(setUp, s, t))
  {
    CallbacksAcquire(s);
    match s.task.pc {
      case Setup(at) => SetupOpens(s, at);
      case Expose(at) => ExposureStaysOpen(s, at, ok, setUp);
      case Finish(at) => FinishCloses(s, at, ok, setUp);
      case Handle(at) => HandlerCloses(s, at, setUp);
      case Leave => LeftAsSetUp(s, callbacks, setUp);
      case Callbacks => FrameAsSetUp(s, setUp);
      case _ => WakingAsSetUp(s, setUp);
    }
    hide Inv, Open, SetupStep, ExposureStep, FinishStep, HandlerStep, Left, FrameDone;
  }

  lemma OthersAsSetUp(s: State, a: Action, setUp: bool)
    requires OpenAsSetUp(s, setUp) && !a.TaskStep?
    ensures OpenAsSetUp(Step(s, a), SetUpNext(setUp, s, Step(s, a)))
  {
    hide TaskStepped;
  }

  lemma StepAsSetUp(s: State, a: Action, setUp: bool)
    requires Inv(s) && OpenAsSetUp(s, setUp) && HandlerSucceeds(s, a)
    ensures OpenAsSetUp(Step(s, a), SetUpNext(setUp, s, Step(s, a)))
  {
    if a.TaskStep? {
      TaskAsSetUp(s, a.ok, a.callbacks, setUp);
    } else {
      OthersAsSetUp(s, a, setUp);
    }
    hide Inv, OpenAsSetUp, SetUpNext, TaskStepped;
  }

  lemma {:induction false} RunAsSetUp(run: seq<State>, actions: seq<Action>, settings: Settings,
                                      arrayCounter: int, k: nat)
    requires IsRun(run, actions) && run[0] == Initially(settings, arrayCounter) && k < |run|
    ensures OpenAsSetUp(run[k], SetUpAt(run, k))
    decreases k
  {
    InitiallyHolds(settings, arrayCounter);
    if k > 0 {
      RunAsSetUp(run, actions, settings, arrayCounter, k - 1);
      hide Initially, Inv, OpenAsSetUp, SetUpNext, Step;
      RunKeeps(run, actions, k - 1);
      StepAsSetUp(run[k - 1], actions[k - 1], SetUpAt(run, k - 1));
    }
  }

  /** In every run, when the task comes to the end of a frame whose image it has made: it parks with a
      measurement open if and only if ADAcquire has been cleared, more images are to follow, and the
      run began with setting up a measurement, which every run does that came from a start event.
      Either way it reports Idle when it parks. */
  lemma ParksOpenExactlyWhen(run: seq<State>, actions: seq<Action>, settings: Settings, arrayCounter: int, k: nat)
    requires IsRun(run, actions) && run[0] == Initially(settings, arrayCounter) && k < |actions|
    requires var s, a := run[k], actions[k];
             a.TaskStep? && s.task.acquire && !s.task.failed &&
             (s.task.pc == Callbacks || (s.task.pc == Leave && !a.callbacks))
    ensures var s, t := run[k], run[k + 1];
            && (t.task.pc == Parked && Open(t) <==>
                !s.table.acquire && !LastImage(s.task.settings, s.task.imagesCounter) && SetUpAt(run, k))
            && (t.task.pc == Parked ==> t.table.status == Idle && (Open(t) || Closed(t)))
            && (s.table.status == Acquiring ==> SetUpAt(run, k))
  {
    InitiallyHolds(settings, arrayCounter);
    RunAsSetUp(run, actions, settings, arrayCounter, k);
    RunKeeps(run, actions, k);
    FrameParks(run[k], SetUpAt(run, k));
    if run[k].task.pc == Leave {
      PublishedKeeps(run[k]);
      FrameParks(Published(run[k]), SetUpAt(run, k));
    }
    hide Initially, Inv, SetUpAt, OpenAsSetUp, FrameDone, Open;
  }

  lemma FrameParks(s: State, setUp: bool)
    requires Inv(s) && OpenAsSetUp(s, setUp) && s.task.acquire && !s.task.failed
    requires s.task.pc == Callbacks || s.task.pc == Leave
    ensures var t := FrameDone(s);
            && (t.task.pc == Parked && Open(t) <==>
                !s.table.acquire && !LastImage(s.task.settings, s.task.imagesCounter) && setUp)
            && (t.task.pc == Parked ==> t.table.status == Idle && (Open(t) || Closed(t)))
            && (s.table.status == Acquiring ==> setUp)
  {
  }
}
