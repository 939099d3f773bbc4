/** `acquisitionTask` of peakAnalyser.cpp as a transition system of three parties: the task, the
    analyser server, and the user who writes parameters. A step of the task is the code between
    two points where another party can come in; while the task holds the driver's lock the user
    cannot. Any call may throw. */
module Acquisition {
  import opened Wrappers

  // ----- State

  datatype Status = Idle | Acquiring | Failed | Aborted

  datatype ImageMode = Single | Multiple | Continuous

  datatype Settings = Settings(numExposures: int, numImages: int, imageMode: ImageMode)

  /** The parameters the task and the user share: ADAcquire, ADStatus, the settings,
      NDArrayCounter and ADNumImagesCounter. */
  datatype Table = Table(acquire: bool, status: Status, settings: Settings, arrayCounter: int, imagesCounter: int)

  /** Where the task is, by what it does next: waiting to be started, awake but without the lock,
      at one of the calls, behind them, or publishing an image without the lock. */
  datatype Pc = Parked | Woken | Setup(first: First) | Expose(exposure: Exposure) | Finish(last: Last)
              | Handle(cleanup: Cleanup) | Leave | Callbacks

  datatype First = GetState | Define | StartMeasurement | SetupSpectrum | SubscribeState | SubscribeUpdates
  datatype Exposure = Clear | ClearStop | Start | Wait | Completed | Fetch
  datatype Last = UnsubState | UnsubUpdates | FinishSpectrum | FinishMeasurement
  datatype Cleanup = DropStateSub | DropUpdateSub | CheckState | DropSpectrum | EndMeasurement

  /** The local variables of the task. A guid or spectrum id that is the empty string is None or
      false. */
  datatype Task = Task(pc: Pc, acquire: bool, failed: bool, settings: Settings, imageCounter: int,
                       imagesCounter: int, exposuresCounter: int, spectrum: bool,
                       guidState: Option<nat>, guidUpdates: Option<nat>)

  datatype Phase = Active | Measuring | Running

  /** The server: its state, the subscriptions it serves, the notifications of "Measuring" that are
      on their way to the state subscription, and a supply of guids. */
  datatype Analyser = Analyser(phase: Phase, subscriptions: set<nat>, pending: nat, nextGuid: nat)

  datatype Event = Cleared | Started | Imaged

  /** What has happened, for stating properties: successful calls of startMeasurement and
      finishMeasurement; the ids of all images; where the task was at the last stop since it last
      read ADAcquire, and what that was when it parked; whether the task woke with a measurement
      still open; and, for the run since the last wake-up, its settings, its events, and whether
      it has been left alone (no stop, no new settings, no exception). */
  datatype History = History(starts: nat, finishes: nat, images: seq<int>,
                             lastStop: Option<Pc>, parkedBy: Option<Pc>, wokeOpen: bool,
                             settings: Settings, log: seq<Event>, undisturbed: bool)

  datatype State = State(table: Table, task: Task, server: Analyser, startEvent: bool, stopEvent: bool,
                         history: History)

  datatype Action =
    | TaskStep(ok: bool, callbacks: bool)   // ok: the call returns; callbacks: array callbacks are on
    | WriteAcquire(value: bool, reached: bool)  // reached: the abort call reaches the server
    | WriteSettings(settings: Settings)
    | Complete
    | Deliver

  // ----- The server

  /** A running acquisition ends: the state subscription, if there is one, will be notified. */
  function Ended(s: State): State {
    if s.server.phase != Running then s
    else s.(server := s.server.(phase := Measuring,
                                pending := s.server.pending + if s.task.guidState.Some? then 1 else 0))
  }

  function Subscribe(v: Analyser): Analyser {
    v.(subscriptions := v.subscriptions + {v.nextGuid}, nextGuid := v.nextGuid + 1)
  }

  // ----- The user

  /** `writeInt32` on ADAcquire: a start is signalled unless the driver is acquiring, a stop is
      passed on only if it is. */
  function WrittenAcquire(s: State, value: bool, reached: bool): State {
    var t := s.(table := s.table.(acquire := value));
    if value then
      if s.table.status != Acquiring then t.(startEvent := true) else t
    else
      var u := t.(history := t.history.(lastStop := Some(s.task.pc),
                                        undisturbed := t.history.undisturbed && s.task.pc.Parked?));
      if s.table.status == Acquiring && reached then Ended(u) else u
  }

  function WrittenSettings(s: State, settings: Settings): State {
    s.(table := s.table.(settings := settings),
       history := s.history.(undisturbed := s.history.undisturbed && s.task.pc.Parked?))
  }

  // ----- The task

  function Go(s: State, pc: Pc): State {
    s.(task := s.task.(pc := pc))
  }

  /** An exception: the handler starts. */
  function Throw(s: State): (t: State)
    ensures t.history.wokeOpen == s.history.wokeOpen && t.task.pc != Woken
    ensures t.history.images == s.history.images && t.table.arrayCounter == s.table.arrayCounter
  {
    s.(task := s.task.(pc := Handle(DropStateSub), failed := true), history := s.history.(undisturbed := false))
  }

  /** Reading ADAcquire into the local variable. */
  function ReadAcquire(s: State): State {
    s.(task := s.task.(acquire := s.table.acquire), history := s.history.(lastStop := None))
  }

  /** The settings and counters are read and the first call of the frame is next. */
  function BeginFrame(s: State): State {
    s.(task := s.task.(settings := s.table.settings, imageCounter := s.table.arrayCounter,
                       imagesCounter := s.table.imagesCounter, exposuresCounter := 0,
                       pc := if s.table.imagesCounter == 0 then Setup(GetState) else Expose(Clear)))
  }

  /** The top of the endless loop. */
  function AtTop(s: State): (t: State)
    ensures t.history.wokeOpen == s.history.wokeOpen && t.task.pc != Woken
    ensures t.history.images == s.history.images && t.table.arrayCounter == s.table.arrayCounter
    ensures t.task.pc == Parked <==> !t.table.acquire
  {
    var t := ReadAcquire(s);
    if t.task.acquire then BeginFrame(t)
    else Go(t, Parked).(history := t.history.(parkedBy := s.history.lastStop))
  }

  /** After the start event: the counters are reset, and a frame begins without another look at
      ADAcquire. */
  function WakeUp(s: State): State {
    var t := ReadAcquire(s);
    BeginFrame(t.(task := t.task.(failed := false),
                  table := t.table.(status := Acquiring, imagesCounter := 0),
                  history := t.history.(wokeOpen := s.server.phase != Active, settings := s.table.settings,
                                        log := [], undisturbed := s.table.acquire)))
  }

  /** `while (numExposuresCounter++ < numExposures)`. */
  function NextExposure(s: State): State {
    s.(task := s.task.(exposuresCounter := s.task.exposuresCounter + 1,
                       pc := if s.task.exposuresCounter < s.task.settings.numExposures
                             then Expose(ClearStop) else Expose(Fetch)))
  }

  /** No further image is to be taken. */
  predicate LastImage(settings: Settings, imagesCounter: int) {
    settings.imageMode == Single || (settings.imageMode == Multiple && imagesCounter >= settings.numImages)
  }

  /** The spectrum has been fetched: it counts unless the run was stopped. */
  function Fetched(s: State): State {
    var t := if s.task.acquire
             then s.(task := s.task.(imageCounter := s.task.imageCounter + 1,
                                     imagesCounter := s.task.imagesCounter + 1))
             else s;
    Go(t, if !t.task.acquire || LastImage(t.task.settings, t.task.imagesCounter) then Finish(UnsubState) else Leave)
  }

  /** Dropping the state subscription drops the notifications still on their way to it. An empty
      guid is not known to the client, so nothing is called. */
  function DropState(s: State): State {
    if s.task.guidState == None then s
    else s.(server := s.server.(subscriptions := s.server.subscriptions - {s.task.guidState.value}, pending := 0),
            task := s.task.(guidState := None))
  }

  function DropUpdates(s: State): State {
    if s.task.guidUpdates == None then s
    else s.(server := s.server.(subscriptions := s.server.subscriptions - {s.task.guidUpdates.value}),
            task := s.task.(guidUpdates := None))
  }

  function MeasurementFinished(s: State): State {
    s.(server := s.server.(phase := Active), history := s.history.(finishes := s.history.finishes + 1))
  }

  function Log(s: State, e: Event): State {
    s.(history := s.history.(log := s.history.log + [e]))
  }

  /** The image is made, under the next id. */
  function Published(s: State): (t: State)
    ensures t.history.wokeOpen == s.history.wokeOpen && t.task == s.task && t.server == s.server
    ensures t.table == s.table.(arrayCounter := s.task.imageCounter, imagesCounter := s.task.imagesCounter)
  {
    s.(table := s.table.(arrayCounter := s.task.imageCounter, imagesCounter := s.task.imagesCounter),
       history := s.history.(log := s.history.log + [Imaged],
                             images := s.history.images + [s.task.imageCounter]))
  }

  /** Behind the handler, with the lock taken again: an error or a stop is reported and the loop
      starts over; otherwise the image is made. */
  function Left(s: State, callbacks: bool): (t: State)
    ensures t.history.wokeOpen == s.history.wokeOpen && t.task.pc != Woken
    ensures t.task.pc == Parked ==> !t.table.acquire
  {
    if s.task.failed then AtTop(s.(table := s.table.(acquire := false, status := Failed)))
    else if !s.task.acquire then AtTop(s.(table := s.table.(status := Aborted)))
    else
      if callbacks then Go(Published(s), Callbacks) else FrameDone(Published(s))
  }

  function FrameDone(s: State): (t: State)
    ensures t.history.wokeOpen == s.history.wokeOpen && t.task.pc != Woken
    ensures t.task.pc == Parked ==> !t.table.acquire
  {
    if !s.table.acquire || LastImage(s.task.settings, s.task.imagesCounter)
    then AtTop(s.(table := s.table.(acquire := false, status := Idle)))
    else AtTop(s)
  }

  /** The first calls of a run. */
  function SetupStep(s: State, at: First): (t: State)
    requires s.task.pc == Setup(at)
    ensures t.history.wokeOpen == s.history.wokeOpen && t.task.pc != Woken
    ensures t.history.images == s.history.images && t.table.arrayCounter == s.table.arrayCounter
    ensures t.task.pc != Parked
  {
    match at
    case GetState => if s.server.phase == Active then Go(s, Setup(Define)) else Throw(s)
    case Define => s.(task := s.task.(pc := Setup(StartMeasurement), spectrum := true))
    case StartMeasurement =>
      if s.server.phase == Active
      then Go(s, Setup(SetupSpectrum)).(server := s.server.(phase := Measuring),
                                        history := s.history.(starts := s.history.starts + 1))
      else Throw(s)
    case SetupSpectrum => Go(s, Setup(SubscribeState))
    case SubscribeState =>
      s.(task := s.task.(pc := Setup(SubscribeUpdates), guidState := Some(s.server.nextGuid)),
         server := Subscribe(s.server))
    case SubscribeUpdates =>
      s.(task := s.task.(pc := Expose(Clear), guidUpdates := Some(s.server.nextGuid)), server := Subscribe(s.server))
  }

  /** The exposures of one image. */
  function ExposureStep(s: State, at: Exposure, ok: bool): (t: State)
    requires s.task.pc == Expose(at)
    ensures t.history.wokeOpen == s.history.wokeOpen && t.task.pc != Woken
    ensures t.history.images == s.history.images && t.table.arrayCounter == s.table.arrayCounter
    ensures t.task.pc != Parked
  {
    match at
    case Clear => if ok then NextExposure(Log(s, Cleared)) else Throw(s)
    case ClearStop => Go(s, Expose(Start)).(stopEvent := false)
    case Start =>
      if ok && s.server.phase == Measuring
      then Log(Go(s, Expose(Wait)), Started).(server := s.server.(phase := Running))
      else Throw(s)
    case Wait => if s.stopEvent then Go(s, Expose(Completed)).(stopEvent := false) else s
    case Completed =>
      var t := ReadAcquire(s);
      if t.task.acquire then NextExposure(t) else Go(t, Expose(Fetch))
    case Fetch => if ok then Fetched(s) else Throw(s)
  }

  /** The last calls of a run. */
  function FinishStep(s: State, at: Last, ok: bool): (t: State)
    requires s.task.pc == Finish(at)
    ensures t.history.wokeOpen == s.history.wokeOpen && t.task.pc != Woken
    ensures t.history.images == s.history.images && t.table.arrayCounter == s.table.arrayCounter
    ensures t.task.pc != Parked
  {
    match at
    case UnsubState => if ok || s.task.guidState == None then Go(DropState(s), Finish(UnsubUpdates)) else Throw(s)
    case UnsubUpdates =>
      if ok || s.task.guidUpdates == None then Go(DropUpdates(s), Finish(FinishSpectrum)) else Throw(s)
    case FinishSpectrum =>
      if ok then s.(task := s.task.(pc := Finish(FinishMeasurement), spectrum := false)) else Throw(s)
    case FinishMeasurement => if ok && s.server.phase == Measuring then Go(MeasurementFinished(s), Leave) else Throw(s)
  }

  /** The handler. An exception in it is caught and ends it. */
  function HandlerStep(s: State, at: Cleanup, ok: bool): (t: State)
    requires s.task.pc == Handle(at)
    ensures t.history.wokeOpen == s.history.wokeOpen && t.task.pc != Woken
    ensures t.history.images == s.history.images && t.table.arrayCounter == s.table.arrayCounter
    ensures t.task.pc != Parked
  {
    match at
    case DropStateSub =>
      if ok || s.task.guidState == None then Go(DropState(s), Handle(DropUpdateSub)) else Go(s, Leave)
    case DropUpdateSub =>
      if ok || s.task.guidUpdates == None then Go(DropUpdates(s), Handle(CheckState)) else Go(s, Leave)
    case CheckState => if ok && s.server.phase == Measuring then Go(s, Handle(DropSpectrum)) else Go(s, Leave)
    case DropSpectrum =>
      if !s.task.spectrum then Go(s, Handle(EndMeasurement))
      else if ok then s.(task := s.task.(pc := Handle(EndMeasurement), spectrum := false))
      else Go(s, Leave)
    case EndMeasurement => if ok && s.server.phase == Measuring then Go(MeasurementFinished(s), Leave) else Go(s, Leave)
  }

  function TaskStepped(s: State, ok: bool, callbacks: bool): State {
    match s.task.pc
    case Parked => if s.startEvent then Go(s, Woken).(startEvent := false) else s
    case Woken => WakeUp(s)
    case Setup(at) => if ok then SetupStep(s, at) else Throw(s)
    case Expose(at) => ExposureStep(s, at, ok)
    case Finish(at) => FinishStep(s, at, ok)
    case Handle(at) => HandlerStep(s, at, ok)
    case Leave => Left(s, callbacks)
    case Callbacks => FrameDone(s)
  }

  /** One step of any party. A party that cannot move leaves the state as it is. */
  function Step(s: State, a: Action): State {
    match a
    case TaskStep(ok, callbacks) => TaskStepped(s, ok, callbacks)
    case WriteAcquire(value, reached) => WrittenAcquire(s, value, reached)
    case WriteSettings(settings) => WrittenSettings(s, settings)
    case Complete => Ended(s)
    case Deliver =>
      if s.server.pending > 0 then s.(server := s.server.(pending := s.server.pending - 1), stopEvent := true) else s
  }

  /** The driver after construction: nothing is open and the task is at the top of its loop. */
  function Initially(settings: Settings, arrayCounter: int): State {
    var table := Table(false, Idle, settings, arrayCounter, 0);
    AtTop(State(table, Task(Parked, false, false, settings, 0, 0, 0, false, None, None), Analyser(Active, {}, 0, 0),
                false, false, History(0, 0, [], None, None, false, settings, [], false)))
  }

  /** The calls of the handler succeed; all others may throw. */
  predicate HandlerSucceeds(s: State, a: Action) {
    a.TaskStep? && s.task.pc.Handle? ==> a.ok
  }

  // ----- What holds in every reachable state

  /** No measurement is open and no subscription is left. */
  predicate Closed(s: State) {
    s.server.phase == Active && s.task.guidState == None && s.task.guidUpdates == None
  }

  /** A measurement is open, with its spectrum and both subscriptions. */
  predicate Open(s: State) {
    s.server.phase != Active && s.task.guidState.Some? && s.task.guidUpdates.Some? && s.task.spectrum
  }

  /** The task has the state subscription, or the update subscription, and nothing beyond it. */
  predicate OpenWith(s: State, state: bool, updates: bool, spectrum: bool) {
    s.server.phase == Measuring && (s.task.guidState.Some? <==> state) && (s.task.guidUpdates.Some? <==> updates) &&
    s.task.spectrum == spectrum
  }

  predicate SetupBracket(s: State, at: First) {
    match at
    case GetState => Closed(s) || Open(s)
    case Define => Closed(s)
    case StartMeasurement => Closed(s) && s.task.spectrum
    case SetupSpectrum => OpenWith(s, false, false, true)
    case SubscribeState => OpenWith(s, false, false, true)
    case SubscribeUpdates => OpenWith(s, true, false, true)
  }

  predicate FinishBracket(s: State, at: Last) {
    match at
    case UnsubState => Closed(s) || Open(s)
    case UnsubUpdates => Closed(s) || OpenWith(s, false, true, true)
    case FinishSpectrum => Closed(s) || OpenWith(s, false, false, true)
    case FinishMeasurement => Closed(s) || OpenWith(s, false, false, false)
  }

  predicate HandlerBracket(s: State, at: Cleanup) {
    && (s.server.phase == Active ==> Closed(s))
    && (!at.DropStateSub? ==> s.task.guidState == None)
    && (!at.DropStateSub? && !at.DropUpdateSub? ==> s.task.guidUpdates == None)
    && (at.DropSpectrum? || at.EndMeasurement? ==> s.server.phase == Measuring)
  }

  /** The bracket: what is open at each point of the task. Between frames, and after a stop that
      came too late, a measurement is open with everything that belongs to it; behind the last
      image, a stop that was seen, or an exception, nothing is. */
  predicate Bracket(s: State) {
    match s.task.pc
    case Parked => Closed(s) || Open(s)
    case Woken => Closed(s) || Open(s)
    case Setup(at) => SetupBracket(s, at)
    case Expose(at) => Open(s) || (Closed(s) && !at.Wait? && !at.Completed?)
    case Finish(at) => FinishBracket(s, at)
    case Handle(at) => HandlerBracket(s, at)
    case Leave =>
      Closed(s) || (Open(s) && !s.task.failed && s.task.acquire && !LastImage(s.task.settings, s.task.imagesCounter))
    case Callbacks => Closed(s) || (Open(s) && !LastImage(s.task.settings, s.task.imagesCounter))
  }

  /** The server runs only while the task waits, and exactly one completion reaches the wait. */
  predicate Signals(s: State) {
    if s.task.pc == Expose(Wait) then
      || (s.server.phase == Running && s.server.pending == 0 && !s.stopEvent)
      || (s.server.phase == Measuring && s.server.pending == 1 && !s.stopEvent)
      || (s.server.phase == Measuring && s.server.pending == 0 && s.stopEvent)
    else
      s.server.phase != Running && s.server.pending == 0 && (s.task.pc == Expose(Start) ==> !s.stopEvent)
  }

  /** The server serves exactly the subscriptions the task knows of. */
  predicate Owned(s: State) {
    && s.server.subscriptions == (if s.task.guidState.Some? then {s.task.guidState.value} else {}) +
                                 (if s.task.guidUpdates.Some? then {s.task.guidUpdates.value} else {})
    && (s.task.guidState.Some? ==> s.task.guidState.value < s.server.nextGuid)
    && (s.task.guidUpdates.Some? ==> s.task.guidUpdates.value < s.server.nextGuid)
    && (s.task.guidState.Some? && s.task.guidUpdates.Some? ==> s.task.guidState != s.task.guidUpdates)
  }

  predicate Paired(s: State) {
    s.history.starts == s.history.finishes + if s.server.phase == Active then 0 else 1
  }

  /** The points between the last reading of ADAcquire inside a frame and the next one behind it,
      for a frame with exposures. */
  predicate BehindReading(pc: Pc) {
    pc == Expose(Fetch) || pc == Leave || pc == Callbacks
  }

  /** An image has been taken, or is about to be, and more are to follow. */
  predicate MoreToCome(s: State) {
    && s.task.acquire && !s.task.failed && BehindReading(s.task.pc)
    && (s.task.pc != Expose(Fetch) ==> !LastImage(s.task.settings, s.task.imagesCounter))
  }

  /** If ADAcquire has been cleared since the task read it set, there was a stop; and between the
      last reading of a frame and the next, that stop came in this very stretch. */
  predicate Stops(s: State) {
    && (s.task.pc != Parked && s.task.acquire && !s.table.acquire ==> s.history.lastStop.Some?)
    && (MoreToCome(s) && s.history.lastStop.Some? && s.task.settings.numExposures > 0 ==>
          BehindReading(s.history.lastStop.value))
    && (s.task.pc == Parked && s.server.phase != Active ==> ParkedByLateStop(s))
  }

  /** The task parked because of a stop that came too late for this frame, with images still to
      take. */
  predicate ParkedByLateStop(s: State) {
    && s.history.parkedBy.Some?
    && !LastImage(s.task.settings, s.task.imagesCounter)
    && (s.task.settings.numExposures > 0 ==> BehindReading(s.history.parkedBy.value))
  }

  /** A run that started with a measurement still open goes straight into the handler, and ends
      with an error and everything closed. */
  predicate Doomed(s: State) {
    s.history.wokeOpen ==>
      match s.task.pc
      case Parked => s.table.status == Failed && Closed(s)
      case Woken => true
      case Setup(at) => at == GetState && s.server.phase != Active
      case Handle(_) => true
      case Leave => s.task.failed
      case _ => false
  }

  /** What the local variables are at the points of the task. */
  predicate Locals(s: State) {
    match s.task.pc
    case Parked => !s.task.acquire
    case Woken => !s.task.acquire
    case Setup(_) => !s.task.failed && s.task.exposuresCounter == 0
    case Expose(at) => !s.task.failed && (at == Clear ==> s.task.exposuresCounter == 0)
    case Finish(_) => !s.task.failed && (s.task.acquire ==> LastImage(s.task.settings, s.task.imagesCounter))
    case Handle(_) => s.task.failed
    case Leave => true
    case Callbacks => !s.task.failed && s.task.acquire
  }

  predicate Inv(s: State) {
    Bracket(s) && Signals(s) && Owned(s) && Paired(s) && Locals(s) && Stops(s) && Doomed(s)
  }

  // ----- Every step keeps it

  /** An exception outside of the handler, when no acquisition is running. */
  lemma ThrowKeeps(s: State)
    requires Inv(s) && s.task.pc != Expose(Wait) && s.task.pc != Parked && s.task.pc != Woken
    requires s.server.phase == Active ==> Closed(s)
    ensures Inv(Throw(s))
  {
  }

  /** What is open, owed and known at a point of the task. */
  predicate Books(s: State) {
    Bracket(s) && Signals(s) && Owned(s) && Paired(s)
  }

  /** How the task came there. */
  predicate Story(s: State) {
    Locals(s) && Stops(s) && Doomed(s)
  }

  lemma SetupKeeps(s: State, at: First)
    requires Inv(s) && s.task.pc == Setup(at)
    ensures Inv(SetupStep(s, at))
  {
    ThrowKeeps(s);
    assert Books(SetupStep(s, at)) by { SetupBooks(s, at); }
    assert Story(SetupStep(s, at)) by { SetupStory(s, at); }
    hide Bracket, Signals, Owned, Paired, Locals, Stops, Doomed, SetupStep;
  }

  lemma SetupBooks(s: State, at: First)
    requires Inv(s) && s.task.pc == Setup(at) && Inv(Throw(s))
    ensures Books(SetupStep(s, at))
  {
    hide Throw, FinishBracket, HandlerBracket, Locals, Stops, Doomed;
  }

  lemma SetupStory(s: State, at: First)
    requires Inv(s) && s.task.pc == Setup(at) && Inv(Throw(s))
    ensures Story(SetupStep(s, at))
  {
    hide Throw, Signals, Owned, Paired;
  }

  lemma ExposureKeeps(s: State, at: Exposure, ok: bool)
    requires Inv(s) && s.task.pc == Expose(at)
    ensures Inv(ExposureStep(s, at, ok))
  {
    if at != Wait {
      ThrowKeeps(s);
    }
    assert Books(ExposureStep(s, at, ok)) by { ExposureBooks(s, at, ok); }
    assert Story(ExposureStep(s, at, ok)) by { ExposureStory(s, at, ok); }
    hide Bracket, Signals, Owned, Paired, Locals, Stops, Doomed, ExposureStep;
  }

  lemma ExposureBooks(s: State, at: Exposure, ok: bool)
    requires Inv(s) && s.task.pc == Expose(at) && (at != Wait ==> Inv(Throw(s)))
    ensures Books(ExposureStep(s, at, ok))
  {
    hide Throw, SetupBracket, HandlerBracket, Stops, Doomed;
  }

  lemma ExposureStory(s: State, at: Exposure, ok: bool)
    requires Inv(s) && s.task.pc == Expose(at) && (at != Wait ==> Inv(Throw(s)))
    ensures Story(ExposureStep(s, at, ok))
  {
    hide Throw, Signals, Owned, Paired;
  }

  lemma FinishKeeps(s: State, at: Last, ok: bool)
    requires Inv(s) && s.task.pc == Finish(at)
    ensures Inv(FinishStep(s, at, ok))
  {
    ThrowKeeps(s);
    assert Books(FinishStep(s, at, ok)) by { FinishBooks(s, at, ok); }
    assert Story(FinishStep(s, at, ok)) by { FinishStory(s, at, ok); }
    hide Bracket, Signals, Owned, Paired, Locals, Stops, Doomed, FinishStep;
  }

  lemma FinishBooks(s: State, at: Last, ok: bool)
    requires Inv(s) && s.task.pc == Finish(at) && Inv(Throw(s))
    ensures Books(FinishStep(s, at, ok))
  {
    hide Throw, SetupBracket, HandlerBracket, Stops, Doomed;
  }

  lemma FinishStory(s: State, at: Last, ok: bool)
    requires Inv(s) && s.task.pc == Finish(at) && Inv(Throw(s))
    ensures Story(FinishStep(s, at, ok))
  {
    hide Throw, Signals, Owned, Paired;
  }

  lemma HandlerKeeps(s: State, at: Cleanup)
    requires Inv(s) && s.task.pc == Handle(at)
    ensures Inv(HandlerStep(s, at, true))
  {
    assert Books(HandlerStep(s, at, true)) by { HandlerBooks(s, at); }
    assert Story(HandlerStep(s, at, true)) by { HandlerStory(s, at); }
    hide Bracket, Signals, Owned, Paired, Locals, Stops, Doomed, HandlerStep;
  }

  lemma HandlerBooks(s: State, at: Cleanup)
    requires Inv(s) && s.task.pc == Handle(at)
    ensures Books(HandlerStep(s, at, true))
  {
    hide SetupBracket, FinishBracket, Locals, Stops, Doomed, DropState, DropUpdates;
    match at {
      case DropStateSub => DropsState(s);
      case DropUpdateSub => DropsUpdates(s);
      case _ =>
    }
  }

  lemma DropsState(s: State)
    requires Owned(s)
    ensures var t := DropState(s);
            && Owned(t) && t.task == s.task.(guidState := None)
            && t.server == s.server.(subscriptions := t.server.subscriptions,
                                     pending := if s.task.guidState == None then s.server.pending else 0)
            && t == s.(task := t.task, server := t.server)
  {
  }

  lemma DropsUpdates(s: State)
    requires Owned(s)
    ensures var t := DropUpdates(s);
            && Owned(t) && t.task == s.task.(guidUpdates := None)
            && t.server == s.server.(subscriptions := t.server.subscriptions)
            && t == s.(task := t.task, server := t.server)
  {
  }

  lemma HandlerStory(s: State, at: Cleanup)
    requires Inv(s) && s.task.pc == Handle(at)
    ensures Story(HandlerStep(s, at, true))
  {
    hide Signals, Owned, Paired, SetupBracket, FinishBracket;
  }

  lemma WakingKeeps(s: State)
    requires Inv(s) && (s.task.pc == Parked || s.task.pc == Woken)
    ensures Inv(TaskStepped(s, true, true))
  {
    hide SetupStep, ExposureStep, FinishStep, HandlerStep, Left, FrameDone;
  }

  /** What the top of the loop is reached with: the lock is held, so nothing has happened since. */
  predicate ReadyForTop(s: State) {
    && (s.task.pc == Leave || s.task.pc == Callbacks)
    && (Closed(s) || Open(s)) && Signals(s) && Owned(s) && Paired(s)
    && (s.task.failed ==> !s.table.acquire)
    && (s.history.wokeOpen ==> Closed(s) && s.table.status == Failed && !s.table.acquire)
    && (!s.table.acquire && Open(s) ==>
          && s.history.lastStop.Some? && !LastImage(s.task.settings, s.task.imagesCounter)
          && (s.task.settings.numExposures > 0 ==> BehindReading(s.history.lastStop.value)))
  }

  lemma AtTopKeeps(s: State)
    requires ReadyForTop(s)
    ensures Inv(AtTop(s))
  {
  }

  lemma FrameDoneKeeps(s: State)
    requires Inv(s) && s.task.acquire && !s.task.failed
    requires s.task.pc == Callbacks || s.task.pc == Leave
    ensures Inv(FrameDone(s))
  {
    FrameIsReady(s);
    var t := if !s.table.acquire || LastImage(s.task.settings, s.task.imagesCounter)
             then s.(table := s.table.(acquire := false, status := Idle)) else s;
    hide Inv, AtTop, ReadyForTop;
    AtTopKeeps(t);
  }

  lemma FrameIsReady(s: State)
    requires Inv(s) && s.task.acquire && !s.task.failed
    requires s.task.pc == Callbacks || s.task.pc == Leave
    ensures ReadyForTop(if !s.table.acquire || LastImage(s.task.settings, s.task.imagesCounter)
                        then s.(table := s.table.(acquire := false, status := Idle)) else s)
  {
  }

  /** Changes to the parameters and to the record of images do not touch what is open. */
  lemma SameTask(s: State, t: State)
    requires Bracket(s) && Signals(s) && Owned(s) && Paired(s) && Locals(s)
    requires t.task == s.task && t.server == s.server && t.stopEvent == s.stopEvent
    requires t.history.starts == s.history.starts && t.history.finishes == s.history.finishes
    ensures Bracket(t) && Signals(t) && Owned(t) && Paired(t) && Locals(t)
  {
  }

  lemma LeavingKeeps(s: State, callbacks: bool)
    requires Inv(s) && s.task.pc == Leave
    ensures Inv(Left(s, callbacks))
  {
    if s.task.failed {
      var t := s.(table := s.table.(acquire := false, status := Failed));
      assert ReadyForTop(t);
      AtTopKeeps(t);
    } else if !s.task.acquire {
      var t := s.(table := s.table.(status := Aborted));
      assert ReadyForTop(t);
      AtTopKeeps(t);
    } else {
      ImageKeeps(s, callbacks);
    }
  }

  lemma ImageKeeps(s: State, callbacks: bool)
    requires Inv(s) && s.task.pc == Leave && s.task.acquire && !s.task.failed
    ensures Inv(Left(s, callbacks))
  {
    PublishedKeeps(s);
    GoToCallbacks(Published(s));
    FrameDoneKeeps(Published(s));
    hide Inv, FrameDone, Go;
  }

  lemma PublishedKeeps(s: State)
    requires Inv(s) && s.task.pc == Leave && s.task.acquire && !s.task.failed
    ensures Inv(Published(s))
  {
    SameTask(s, Published(s));
    ImageStory(s, Published(s));
  }

  lemma ImageStory(s: State, u: State)
    requires Stops(s) && Doomed(s) && s.task.pc == Leave && s.task.acquire && !s.task.failed
    requires u.task == s.task && u.server == s.server && u.table.acquire == s.table.acquire
    requires u.history.lastStop == s.history.lastStop && u.history.wokeOpen == s.history.wokeOpen
    ensures Stops(u) && Doomed(u)
  {
  }

  lemma GoToCallbacks(s: State)
    requires Inv(s) && s.task.pc == Leave && s.task.acquire && !s.task.failed
    ensures Inv(Go(s, Callbacks))
  {
  }

  lemma AcquireWritten(s: State, value: bool)
    requires Inv(s)
    ensures Inv(WrittenAcquire(s, value, false))
  {
    SameTask(s, WrittenAcquire(s, value, false));
    hide Bracket, Signals, Owned, Paired;
  }

  lemma SettingsWritten(s: State, settings: Settings)
    requires Inv(s)
    ensures Inv(WrittenSettings(s, settings))
  {
    SameTask(s, WrittenSettings(s, settings));
    hide Bracket, Signals, Owned, Paired, Locals;
  }

  lemma WritesKeep(s: State, a: Action)
    requires Inv(s) && (a.WriteAcquire? || a.WriteSettings?)
    ensures Inv(Step(s, a))
  {
    if a.WriteAcquire? {
      AcquireWritten(s, a.value);
      EndedKeeps(WrittenAcquire(s, a.value, false));
      hide Inv, Ended;
    } else {
      SettingsWritten(s, a.settings);
      hide Inv;
    }
  }

  lemma EndedKeeps(s: State)
    requires Inv(s)
    ensures Inv(Ended(s))
  {
  }

  lemma DeliverKeeps(s: State)
    requires Inv(s)
    ensures Inv(Step(s, Deliver))
  {
  }

  /** Every step of every party keeps the invariant, as long as the handler's calls succeed. */
  lemma StepKeeps(s: State, a: Action)
    requires Inv(s) && HandlerSucceeds(s, a)
    ensures Inv(Step(s, a))
  {
    match a {
      case TaskStep(ok, callbacks) => TaskKeeps(s, ok, callbacks);
      case WriteAcquire(_, _) => WritesKeep(s, a);
      case WriteSettings(_) => WritesKeep(s, a);
      case Complete => EndedKeeps(s);
      case Deliver => DeliverKeeps(s);
    }
    hide Inv, TaskStepped;
  }

  lemma TaskKeeps(s: State, ok: bool, callbacks: bool)
    requires Inv(s) && (s.task.pc.Handle? ==> ok)
    ensures Inv(TaskStepped(s, ok, callbacks))
  {
    CallbacksAcquire(s);
    hide Inv, SetupStep, ExposureStep, FinishStep, HandlerStep, Left, FrameDone, Throw;
    match s.task.pc {
      case Setup(at) => if ok { SetupKeeps(s, at); } else { SetupThrows(s); }
      case Expose(at) => ExposureKeeps(s, at, ok);
      case Finish(at) => FinishKeeps(s, at, ok);
      case Handle(at) => HandlerKeeps(s, at);
      case Leave => LeavingKeeps(s, callbacks);
      case Callbacks => FrameDoneKeeps(s);
      case _ => WakingKeeps(s);
    }
  }

  lemma SetupThrows(s: State)
    requires Inv(s) && s.task.pc.Setup?
    ensures Inv(Throw(s))
  {
    ThrowKeeps(s);
  }

  lemma CallbacksAcquire(s: State)
    requires Inv(s)
    ensures s.task.pc == Callbacks ==> s.task.acquire && !s.task.failed
  {
  }

  // ----- Whole runs

  predicate IsRun(run: seq<State>, actions: seq<Action>) {
    && |run| == |actions| + 1
    && forall k :: 0 <= k < |actions| ==> run[k + 1] == Step(run[k], actions[k]) && HandlerSucceeds(run[k], actions[k])
  }

  lemma InitiallyHolds(settings: Settings, arrayCounter: int)
    ensures Inv(Initially(settings, arrayCounter))
  {
  }

  lemma {:induction false} RunKeeps(run: seq<State>, actions: seq<Action>, k: nat)
    requires IsRun(run, actions) && Inv(run[0]) && k < |run|
    ensures Inv(run[k])
    decreases k
  {
    hide Inv, Step, HandlerSucceeds;
    if k > 0 {
      RunKeeps(run, actions, k - 1);
      StepKeeps(run[k - 1], actions[k - 1]);
    }
  }

  /** In every run of the three parties, at every moment: successful calls of startMeasurement and
      finishMeasurement pair up, up to one measurement that is open; the server serves exactly the
      subscriptions the task holds; and whenever the task is parked, no measurement is open and no
      subscription is left, unless a stop came too late for the frame that was its last, with
      images still to take. */
  lemma MeasurementBracket(run: seq<State>, actions: seq<Action>, settings: Settings, arrayCounter: int, k: nat)
    requires IsRun(run, actions) && run[0] == Initially(settings, arrayCounter) && k < |run|
    ensures var s := run[k];
            && s.history.finishes <= s.history.starts <= s.history.finishes + 1
            && (s.server.phase != Active <==> s.history.starts == s.history.finishes + 1)
            && Owned(s)
            && (s.task.pc == Parked ==>
                  || (s.server.phase == Active && s.server.subscriptions == {} &&
                      s.history.starts == s.history.finishes)
                  || (Open(s) && ParkedByLateStop(s)))
  {
    InitiallyHolds(settings, arrayCounter);
    hide Initially, Step, IsRun;
    RunKeeps(run, actions, k);
  }

  /** A run that ends with an error or with a stop that was seen in time leaves nothing open, says
      which of the two it was, and after an error the task is parked. */
  lemma ErrorsAndStopsClose(s: State, callbacks: bool)
    requires Inv(s) && s.task.pc == Leave && (s.task.failed || !s.task.acquire)
    ensures var t := Left(s, callbacks);
            && Closed(t) && t.server.subscriptions == {} && t.history.images == s.history.images
            && t.table.status == (if s.task.failed then Failed else Aborted)
            && (s.task.failed ==> t.task.pc == Parked && !t.table.acquire)
  {
  }

  /** After parking with a measurement open, the next start ends in an error, with the measurement
      and the subscriptions closed again: from the moment the task wakes up, the first time it is
      parked it reports an error and nothing is open. */
  lemma {:induction false} NextStartFails(run: seq<State>, actions: seq<Action>, i: nat, j: nat)
    requires IsRun(run, actions) && Inv(run[0]) && i < j < |run|
    requires run[i].task.pc == Woken && Open(run[i])
    requires forall k :: i <= k < j ==> run[k].task.pc != Parked
    ensures run[j].task.pc != Woken ==> run[j].history.wokeOpen
    ensures run[j].task.pc == Woken ==> Open(run[j])
    ensures run[j].task.pc == Parked ==>
              run[j].table.status == Failed && Closed(run[j]) && run[j].server.subscriptions == {}
    decreases j
  {
    hide Inv, Step, Open, Closed, HandlerSucceeds;
    RunKeeps(run, actions, j);
    RunKeeps(run, actions, j - 1);
    if j - 1 > i {
      NextStartFails(run, actions, i, j - 1);
    }
    AwakeStep(run[j - 1], actions[j - 1]);
    if run[j].task.pc == Parked {
      DoomedEnd(run[j]);
    }
  }

  lemma DoomedEnd(s: State)
    requires Inv(s) && s.history.wokeOpen && s.task.pc == Parked
    ensures s.table.status == Failed && Closed(s) && s.server.subscriptions == {}
  {
  }

  lemma AwakeStep(s: State, a: Action)
    requires Inv(s) && s.task.pc != Parked
    ensures var t := Step(s, a);
            && (s.task.pc == Woken && Open(s) ==> if t.task.pc == Woken then Open(t) else t.history.wokeOpen)
            && (s.task.pc != Woken ==> t.task.pc != Woken && t.history.wokeOpen == s.history.wokeOpen)
  {
    if s.task.pc == Woken {
      NotRunningAsleep(s);
    }
    hide Inv, SetupStep, ExposureStep, FinishStep, HandlerStep, Left, FrameDone, Throw;
  }

  lemma NotRunningAsleep(s: State)
    requires Inv(s) && s.task.pc == Woken
    ensures s.server.phase != Running
  {
  }
}
