/** How many images a run takes and how many exposures each of them has, and which ids the images
    get, over the transition system of `acquisitionTask`. */
module AcquisitionCounting {
  import opened Machine
  import opened Wrappers
  import opened Acquisition

  // ----- Image ids

  /** NDArrayCounter is the id of the last image, and ids are consecutive; an image that has been
      counted but not yet made has the next id. */
  predicate Ids(s: State, first: int) {
    Numbered(s, first) && NextId(s)
  }

  predicate Numbered(s: State, first: int) {
    && s.table.arrayCounter == first + |s.history.images|
    && (forall k :: 0 <= k < |s.history.images| ==> s.history.images[k] == first + 1 + k)
  }

  predicate NextId(s: State) {
    match s.task.pc
    case Setup(_) => s.task.imageCounter == s.table.arrayCounter
    case Expose(_) => s.task.imageCounter == s.table.arrayCounter
    case Finish(_) => s.task.acquire ==> s.task.imageCounter == s.table.arrayCounter + 1
    case Leave => s.task.acquire && !s.task.failed ==> s.task.imageCounter == s.table.arrayCounter + 1
    case _ => true
  }

  lemma SetupKeepsIds(s: State, at: First)
    requires NextId(s) && s.task.pc == Setup(at)
    ensures NextId(SetupStep(s, at))
  {
  }

  lemma ExposureKeepsIds(s: State, at: Exposure, ok: bool)
    requires NextId(s) && s.task.pc == Expose(at)
    ensures NextId(ExposureStep(s, at, ok))
  {
  }

  lemma FinishKeepsIds(s: State, at: Last, ok: bool)
    requires NextId(s) && s.task.pc == Finish(at)
    ensures NextId(FinishStep(s, at, ok))
  {
  }

  lemma HandlerKeepsIds(s: State, at: Cleanup, ok: bool)
    requires Locals(s) && s.task.pc == Handle(at)
    ensures NextId(HandlerStep(s, at, ok))
  {
  }

  /** Only publishing touches the ids. */
  lemma SameIds(s: State, t: State, first: int)
    requires Numbered(s, first) && t.history.images == s.history.images && t.table.arrayCounter == s.table.arrayCounter
    ensures Numbered(t, first)
  {
  }

  lemma AtTopKeepsIds(s: State, first: int)
    requires Numbered(s, first)
    ensures Ids(AtTop(s), first)
  {
  }

  lemma FrameDoneKeepsIds(s: State, first: int)
    requires Numbered(s, first)
    ensures Ids(FrameDone(s), first)
  {
    AtTopKeepsIds(s, first);
    AtTopKeepsIds(s.(table := s.table.(acquire := false, status := Idle)), first);
    hide Ids, AtTop;
  }

  lemma LeftKeepsIds(s: State, callbacks: bool, first: int)
    requires Ids(s, first) && s.task.pc == Leave
    ensures Ids(Left(s, callbacks), first)
  {
    AtTopKeepsIds(s.(table := s.table.(acquire := false, status := Failed)), first);
    AtTopKeepsIds(s.(table := s.table.(status := Aborted)), first);
    var u := Published(s);
    if s.task.acquire && !s.task.failed {
      assert Numbered(u, first);
      FrameDoneKeepsIds(u, first);
    }
    hide AtTop, FrameDone;
  }

  lemma StepKeepsIds(s: State, a: Action, first: int)
    requires Locals(s) && Ids(s, first)
    ensures Ids(Step(s, a), first)
  {
    if a.TaskStep? {
      TaskKeepsIds(s, a.ok, a.callbacks, first);
      hide TaskStepped, Locals;
    } else {
      hide TaskStepped, Locals;
      SameIds(s, Step(s, a), first);
    }
  }

  lemma TaskKeepsIds(s: State, ok: bool, callbacks: bool, first: int)
    requires Locals(s) && Ids(s, first)
    ensures Ids(TaskStepped(s, ok, callbacks), first)
  {
    match s.task.pc {
      case Setup(at) => SetupKeepsIds(s, at);
      case Expose(at) => ExposureKeepsIds(s, at, ok);
      case Finish(at) => FinishKeepsIds(s, at, ok);
      case Handle(at) => HandlerKeepsIds(s, at, ok);
      case Leave => LeftKeepsIds(s, callbacks, first);
      case Callbacks => FrameDoneKeepsIds(s, first);
      case _ =>
    }
    hide Locals, NextId, SetupStep, ExposureStep, FinishStep, HandlerStep, Left, FrameDone;
    if !s.task.pc.Leave? && !s.task.pc.Callbacks? {
      SameIds(s, TaskStepped(s, ok, callbacks), first);
    }
  }

  /** In every run the images carry consecutive ids, the first one behind the number that was in
      NDArrayCounter at the start. */
  lemma {:induction false} ConsecutiveIds(run: seq<State>, actions: seq<Action>, settings: Settings,
                                          arrayCounter: int, k: nat)
    requires IsRun(run, actions) && run[0] == Initially(settings, arrayCounter) && k < |run|
    ensures Ids(run[k], arrayCounter)
    decreases k
  {
    if k > 0 {
      ConsecutiveIds(run, actions, settings, arrayCounter, k - 1);
      InitiallyHolds(settings, arrayCounter);
      hide Initially, Step, Ids;
      RunKeeps(run, actions, k - 1);
      StepKeepsIds(run[k - 1], actions[k - 1], arrayCounter);
    }
  }

  // ----- Images and exposures of a run

  function Starts(n: nat): seq<Event> {
    if n == 0 then [] else Starts(n - 1) + [Started]
  }

  /** The events of one image up to its fetching: the spectrum is cleared, then exposed. */
  function Exposures(n: nat): seq<Event> {
    [Cleared] + Starts(n)
  }

  function Frames(k: nat, exposures: nat): seq<Event> {
    if k == 0 then [] else Frames(k - 1, exposures) + Exposures(exposures) + [Imaged]
  }

  function PerImage(settings: Settings): nat {
    Max(0, settings.numExposures)
  }

  /** The number of images of a run that is left alone. */
  function Wanted(settings: Settings): int {
    if settings.imageMode == Single then 1 else Max(1, settings.numImages)
  }

  /** What an undisturbed run has done at each point. */
  predicate Progress(s: State) {
    match s.task.pc
    case Parked =>
      && s.table.status == Idle && s.history.settings.imageMode != Continuous
      && s.history.log == Frames(Wanted(s.history.settings), PerImage(s.history.settings))
      && LastImage(s.task.settings, s.task.imagesCounter)
    case Woken => true
    case Setup(_) => Running(s) && s.task.imagesCounter == 0 && s.history.log == []
    case Expose(at) => Running(s) && MoreWanted(s, s.task.imagesCounter) && ExposureProgress(s, at)
    case Finish(_) =>
      && Running(s) && MoreWanted(s, s.task.imagesCounter - 1)
      && AllExposed(s)
    case Handle(_) => false
    case Leave =>
      && Running(s) && !s.task.failed && MoreWanted(s, s.task.imagesCounter - 1)
      && AllExposed(s)
    case Callbacks => ImageMade(s)
  }

  /** Nobody has changed what the run started with. */
  predicate Running(s: State) {
    && s.table.acquire && s.task.acquire
    && s.task.settings == s.table.settings == s.history.settings
  }

  /** The exposures of the image that is about to be made are complete. */
  predicate AllExposed(s: State)
    requires s.task.imagesCounter >= 1
  {
    var n := PerImage(s.task.settings);
    s.history.log == Frames(s.task.imagesCounter - 1, n) + Exposures(n)
  }

  /** After `n` images the run goes on. */
  predicate MoreWanted(s: State, n: int) {
    n >= 0 && (n > 0 ==> !LastImage(s.task.settings, n))
  }

  predicate ExposureProgress(s: State, at: Exposure)
    requires s.task.imagesCounter >= 0
  {
    var e, n := s.task.exposuresCounter, PerImage(s.task.settings);
    var done := Frames(s.task.imagesCounter, n);
    match at
    case Clear => e == 0 && s.history.log == done
    case ClearStop => 1 <= e <= n && s.history.log == done + Exposures(e - 1)
    case Start => 1 <= e <= n && s.history.log == done + Exposures(e - 1)
    case Wait => 1 <= e <= n && s.history.log == done + Exposures(e)
    case Completed => 1 <= e <= n && s.history.log == done + Exposures(e)
    case Fetch => s.history.log == done + Exposures(n)
  }

  predicate Counted(s: State) {
    s.history.undisturbed ==> Progress(s)
  }

  lemma SetupCounts(s: State, at: First)
    requires Counted(s) && Locals(s) && s.task.pc == Setup(at)
    ensures Counted(SetupStep(s, at))
  {
  }

  lemma NextExposureCounts(s: State)
    requires Running(s) && s.task.imagesCounter >= 0 && MoreWanted(s, s.task.imagesCounter)
    requires 0 <= s.task.exposuresCounter <= PerImage(s.task.settings)
    requires s.history.log == Frames(s.task.imagesCounter, PerImage(s.task.settings)) +
                              Exposures(s.task.exposuresCounter)
    ensures Progress(NextExposure(s))
  {
    hide Frames, Exposures;
  }

  lemma ExposureCounts(s: State, at: Exposure, ok: bool)
    requires Counted(s) && Locals(s) && s.task.pc == Expose(at)
    ensures Counted(ExposureStep(s, at, ok))
  {
    if s.history.undisturbed {
      match at {
        case Clear => ClearCounts(s, ok);
        case Completed => CompletedCounts(s, ok);
        case Fetch => FetchCounts(s, ok);
        case _ => StartCounts(s, at, ok);
      }
      hide ExposureStep, Progress;
    } else {
      StaysDisturbed(s, at, ok);
      hide ExposureStep;
    }
  }

  lemma StaysDisturbed(s: State, at: Exposure, ok: bool)
    requires !s.history.undisturbed && s.task.pc == Expose(at)
    ensures !ExposureStep(s, at, ok).history.undisturbed
  {
  }

  lemma ClearCounts(s: State, ok: bool)
    requires s.history.undisturbed && Progress(s) && Locals(s) && s.task.pc == Expose(Clear)
    ensures Counted(ExposureStep(s, Clear, ok))
  {
    hide Frames, Exposures, LastImage, PerImage, NextExposure;
    OneMore(Frames(s.task.imagesCounter, PerImage(s.task.settings)), 0);
    NextExposureCounts(Log(s, Cleared));
  }

  lemma CompletedCounts(s: State, ok: bool)
    requires s.history.undisturbed && Progress(s) && s.task.pc == Expose(Completed)
    ensures Counted(ExposureStep(s, Completed, ok))
  {
    hide Frames, Exposures, LastImage, PerImage, NextExposure;
    NextExposureCounts(ReadAcquire(s));
  }

  lemma FetchCounts(s: State, ok: bool)
    requires s.history.undisturbed && Progress(s) && s.task.pc == Expose(Fetch) && Locals(s)
    ensures Counted(ExposureStep(s, Fetch, ok))
  {
    hide Frames, Exposures, PerImage, LastImage;
  }

  lemma StartCounts(s: State, at: Exposure, ok: bool)
    requires s.history.undisturbed && Progress(s) && s.task.pc == Expose(at)
    requires at == ClearStop || at == Start || at == Wait
    ensures Counted(ExposureStep(s, at, ok))
  {
    hide Frames, Exposures, LastImage, PerImage;
    OneMore(Frames(s.task.imagesCounter, PerImage(s.task.settings)), s.task.exposuresCounter);
  }

  lemma OneMore(done: seq<Event>, e: int)
    ensures e >= 1 ==> done + Exposures(e - 1) + [Started] == done + Exposures(e)
    ensures done + [Cleared] == done + Exposures(0)
  {
    assert Exposures(0) == [Cleared];
    if e >= 1 {
      assert Exposures(e - 1) + [Started] == Exposures(e);
    }
  }

  lemma FinishCounts(s: State, at: Last, ok: bool)
    requires Counted(s) && s.task.pc == Finish(at) && Locals(s)
    ensures Counted(FinishStep(s, at, ok))
  {
    hide Frames, Exposures, PerImage, LastImage;
  }

  lemma HandlerCounts(s: State, at: Cleanup, ok: bool)
    requires Counted(s) && s.task.pc == Handle(at)
    ensures Counted(HandlerStep(s, at, ok))
  {
    hide Frames, Exposures;
  }

  /** The image of a frame has been made and counted. */
  predicate ImageMade(s: State) {
    && Running(s) && MoreWanted(s, s.task.imagesCounter - 1) && s.table.imagesCounter == s.task.imagesCounter
    && s.history.log == Frames(s.task.imagesCounter, PerImage(s.task.settings))
  }

  lemma FrameDoneCounts(s: State)
    requires s.history.undisturbed ==> ImageMade(s)
    ensures Counted(FrameDone(s))
  {
    hide Frames, Exposures, PerImage;
    if s.history.undisturbed && LastImage(s.task.settings, s.task.imagesCounter) {
      WantedTaken(s);
      hide Wanted, LastImage;
    }
  }

  /** The last image is the last that is wanted. */
  lemma WantedTaken(s: State)
    requires MoreWanted(s, s.task.imagesCounter - 1) && LastImage(s.task.settings, s.task.imagesCounter)
    ensures s.task.settings.imageMode != Continuous && s.task.imagesCounter == Wanted(s.task.settings)
  {
  }

  lemma LeftCounts(s: State, callbacks: bool)
    requires Counted(s) && s.task.pc == Leave
    ensures Counted(Left(s, callbacks))
  {
    if s.history.undisturbed {
      ImageCounts(s);
      FrameDoneCounts(Published(s));
      hide FrameDone, Published, Frames, Exposures, MoreWanted;
    } else {
      Disturbed(s, callbacks);
      hide Left;
    }
  }

  lemma Disturbed(s: State, callbacks: bool)
    requires !s.history.undisturbed && s.task.pc == Leave
    ensures !Left(s, callbacks).history.undisturbed
  {
  }

  /** Making the image completes the events of its frame. */
  lemma ImageCounts(s: State)
    requires s.history.undisturbed && Progress(s) && s.task.pc == Leave
    ensures ImageMade(Published(s)) && Published(s).history.undisturbed
  {
    var n, exposures := s.task.imagesCounter, PerImage(s.task.settings);
    assert Frames(n, exposures) == Frames(n - 1, exposures) + Exposures(exposures) + [Imaged];
    hide Frames, Exposures, PerImage;
  }

  lemma WakingCounts(s: State)
    requires Counted(s) && (s.task.pc == Parked || s.task.pc == Woken)
    ensures Counted(TaskStepped(s, true, true))
  {
    hide SetupStep, ExposureStep, FinishStep, HandlerStep, Left, FrameDone;
  }

  lemma TaskCounts(s: State, ok: bool, callbacks: bool)
    requires Counted(s) && Locals(s)
    ensures Counted(TaskStepped(s, ok, callbacks))
  {
    match s.task.pc {
      case Setup(at) => SetupCounts(s, at);
      case Expose(at) => ExposureCounts(s, at, ok);
      case Finish(at) => FinishCounts(s, at, ok);
      case Handle(at) => HandlerCounts(s, at, ok);
      case Leave => LeftCounts(s, callbacks);
      case Callbacks => FrameDoneCounts(s);
      case _ => WakingCounts(s);
    }
    hide Locals, Progress, SetupStep, ExposureStep, FinishStep, HandlerStep, Left, FrameDone;
  }

  lemma StepCounts(s: State, a: Action)
    requires Counted(s) && Locals(s)
    ensures Counted(Step(s, a))
  {
    if a.TaskStep? {
      TaskCounts(s, a.ok, a.callbacks);
      hide TaskStepped, Counted, Locals;
    } else {
      OthersCount(s, a);
    }
  }

  lemma OthersCount(s: State, a: Action)
    requires Counted(s) && !a.TaskStep?
    ensures Counted(Step(s, a))
  {
    hide TaskStepped, Progress;
    var t := Step(s, a);
    if t.history.undisturbed {
      SameProgress(s, t);
    }
  }

  lemma SameProgress(s: State, t: State)
    requires t.task == s.task && t.history.log == s.history.log && t.history.settings == s.history.settings
    requires t.table.status == s.table.status && t.table.imagesCounter == s.table.imagesCounter
    requires s.task.pc == Parked || t.table == s.table || t.table == s.table.(acquire := true)
    ensures Progress(s) ==> Progress(t)
  {
    hide Frames, Exposures, PerImage, Wanted;
  }

  lemma {:induction false} RunCounts(run: seq<State>, actions: seq<Action>, settings: Settings,
                                     arrayCounter: int, k: nat)
    requires IsRun(run, actions) && run[0] == Initially(settings, arrayCounter) && k < |run|
    ensures Counted(run[k])
    decreases k
  {
    if k > 0 {
      RunCounts(run, actions, settings, arrayCounter, k - 1);
      InitiallyHolds(settings, arrayCounter);
      hide Initially, Step, Counted;
      RunKeeps(run, actions, k - 1);
      StepCounts(run[k - 1], actions[k - 1]);
    }
  }

  /** A run that started with ADAcquire set and was then left alone, with no stop, no new settings
      and no exception: when the task parks again, it has taken exactly the wanted number of images,
      max(1, numImages) of them in Multiple mode, each with one clearing of the spectrum followed by
      max(0, numExposures) exposures; the driver is idle, ADAcquire is 0, and nothing is open. */
  lemma UndisturbedRun(run: seq<State>, actions: seq<Action>, settings: Settings, arrayCounter: int, k: nat)
    requires IsRun(run, actions) && run[0] == Initially(settings, arrayCounter) && k < |actions|
    requires run[k].task.pc != Parked && run[k + 1].task.pc == Parked && run[k + 1].history.undisturbed
    ensures var s := run[k + 1];
            && s.history.settings.imageMode != Continuous
            && s.history.log == Frames(Wanted(s.history.settings), PerImage(s.history.settings))
            && s.table.status == Idle && !s.table.acquire
            && s.server.phase == Active && s.server.subscriptions == {}
  {
    RunCounts(run, actions, settings, arrayCounter, k + 1);
    ParkingReads(run[k], actions[k]);
    hide Initially, Step, Inv;
    MeasurementBracket(run, actions, settings, arrayCounter, k + 1);
  }

  /** The task parks only when it has read ADAcquire as 0. */
  lemma ParkingReads(s: State, a: Action)
    requires s.task.pc != Parked && Step(s, a).task.pc == Parked
    ensures !Step(s, a).table.acquire
  {
    hide SetupStep, ExposureStep, FinishStep, HandlerStep, Left, FrameDone;
  }
}
