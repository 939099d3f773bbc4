/** What a written start does, over whole runs: a parked task takes it up, whatever the last run
    ended with, and works with the settings as they then are. */
module AcquisitionStarts {
  import opened Wrappers
  import opened Acquisition
  import opened AcquisitionParking
  import opened AcquisitionProgress

  // ----- How a run ends

  /** A task that waits for a start has reported the end of its last run. */
  predicate Reported(s: State) {
    s.task.pc == Parked || s.task.pc == Woken ==>
      s.table.status == Idle || s.table.status == Failed || s.table.status == Aborted
  }

  lemma FrameReported(s: State)
    requires s.task.pc == Callbacks || s.task.pc == Leave
    ensures Reported(FrameDone(s))
  {
  }

  lemma LeftReported(s: State, callbacks: bool)
    requires s.task.pc == Leave
    ensures Reported(Left(s, callbacks))
  {
    FrameReported(Published(s));
    hide FrameDone;
  }

  lemma StepReported(s: State, a: Action)
    requires Reported(s)
    ensures Reported(Step(s, a))
  {
    hide SetupStep, ExposureStep, FinishStep, HandlerStep, Left, FrameDone;
    if a.TaskStep? {
      if s.task.pc == Leave {
        LeftReported(s, a.callbacks);
      } else if s.task.pc == Callbacks {
        FrameReported(s);
      }
    }
  }

  lemma {:induction false} RunReported(run: seq<State>, actions: seq<Action>, settings: Settings,
                                       arrayCounter: int, k: nat)
    requires IsRun(run, actions) && run[0] == Initially(settings, arrayCounter) && k < |run|
    ensures Reported(run[k])
    decreases k
  {
    if k > 0 {
      RunReported(run, actions, settings, arrayCounter, k - 1);
      hide Initially, Step, Reported;
      StepReported(run[k - 1], actions[k - 1]);
    }
  }

  // ----- The start

  /** A written 1 gives the start event unless the status is Acquiring; besides, only ADAcquire
      changes. */
  lemma StartSignalled(s: State, reached: bool)
    ensures var t := Step(s, WriteAcquire(true, reached));
            && (t.startEvent <==> s.startEvent || s.table.status != Acquiring)
            && t == s.(table := s.table.(acquire := true), startEvent := t.startEvent)
  {
  }

  /** Nobody writes ADAcquire 0. */
  predicate NoStop(actions: seq<Action>) {
    forall k :: 0 <= k < |actions| ==> !(actions[k].WriteAcquire? && !actions[k].value)
  }

  /** On the way from a start to the run: no step of the task made yet, or one. */
  predicate Starting(s: State, steps: nat) {
    if steps == 0 then s.task.pc == Parked && s.startEvent else steps == 1 && s.task.pc == Woken
  }

  lemma StartingStep(s: State, a: Action, steps: nat)
    requires Starting(s, steps) && (a.TaskStep? ==> steps == 0)
    ensures var t := Step(s, a);
            && Starting(t, steps + if a.TaskStep? then 1 else 0)
            && (s.table.acquire && !(a.WriteAcquire? && !a.value) ==> t.table.acquire)
  {
    hide SetupStep, ExposureStep, FinishStep, HandlerStep, Left, FrameDone, WakeUp;
  }

  lemma {:induction false} OnTheWay(run: seq<State>, actions: seq<Action>, i: nat, j: nat)
    requires IsRun(run, actions) && i <= j <= |actions| < |run| && Starting(run[i], 0)
    requires TaskSteps(actions[i..j]) <= 1
    ensures Starting(run[j], TaskSteps(actions[i..j]))
    ensures run[i].table.acquire && NoStop(actions[i..j]) ==> run[j].table.acquire
    decreases j
  {
    hide IsRun, Step, Starting;
    if j > i {
      OneAction(actions, i, j);
      OneStep(run, actions, j - 1);
      OnTheWay(run, actions, i, j - 1);
      StartingStep(run[j - 1], actions[j - 1], TaskSteps(actions[i..j - 1]));
    }
  }

  lemma OneAction(actions: seq<Action>, i: nat, j: nat)
    requires i < j <= |actions|
    ensures TaskSteps(actions[i..j]) == TaskSteps(actions[i..j - 1]) + if actions[j - 1].TaskStep? then 1 else 0
    ensures NoStop(actions[i..j]) ==>
              NoStop(actions[i..j - 1]) && !(actions[j - 1].WriteAcquire? && !actions[j - 1].value)
  {
    var later, before := actions[i..j], actions[i..j - 1];
    assert later == before + [actions[j - 1]];
    assert later[..|later| - 1] == before;
    assert later[|later| - 1] == actions[j - 1];
    assert forall k :: 0 <= k < |before| ==> before[k] == later[k];
  }

  lemma OneStep(run: seq<State>, actions: seq<Action>, k: nat)
    requires IsRun(run, actions) && k < |actions|
    ensures run[k + 1] == Step(run[k], actions[k])
  {
  }

  /** No start is lost: in every run, when the task is parked, after an error and after a stop as well
      as after a whole run, and ADAcquire 1 is written, then the second step of the task behind
      that begins a run, with the first call of a measurement next, whatever the other parties do
      in between; it reports Acquiring, and works with ADAcquire set unless it was cleared again. */
  lemma StartIsTakenUp(run: seq<State>, actions: seq<Action>, settings: Settings, arrayCounter: int, i: nat, j: nat)
    requires IsRun(run, actions) && run[0] == Initially(settings, arrayCounter) && i < j < |actions|
    requires run[i].task.pc == Parked && actions[i].WriteAcquire? && actions[i].value
    requires TaskSteps(actions[i + 1..j]) == 1 && actions[j].TaskStep?
    ensures run[j + 1].task.pc == Setup(GetState) && run[j + 1].table.status == Acquiring
    ensures NoStop(actions[i + 1..j]) ==> run[j + 1].table.acquire && run[j + 1].task.acquire
  {
    RunReported(run, actions, settings, arrayCounter, i);
    StartSignalled(run[i], actions[i].reached);
    OneStep(run, actions, i);
    OneStep(run, actions, j);
    hide IsRun, Initially, SetupStep, ExposureStep, FinishStep, HandlerStep, Left, FrameDone;
    OnTheWay(run, actions, i + 1, j);
    assert Starting(run[j], 1);
  }

  // ----- What a frame works with

  /** A frame begins when the task comes from the start event, from an image, or from a report. */
  predicate BeginsFrame(s: State, t: State) {
    && (s.task.pc == Woken || s.task.pc == Leave || s.task.pc == Callbacks)
    && (t.task.pc.Setup? || t.task.pc.Expose?)
  }

  /** A frame works with the settings and counters that the parameters have when it begins, no
      exposure made, and sets up a measurement exactly if no image has been counted. */
  predicate TakesUp(s: State, t: State) {
    && t.task.settings == s.table.settings == t.table.settings
    && t.task.imageCounter == t.table.arrayCounter && t.task.imagesCounter == t.table.imagesCounter
    && t.task.exposuresCounter == 0
    && t.task.pc == (if t.task.imagesCounter == 0 then Setup(GetState) else Expose(Clear))
  }

  lemma TopTakesUp(s: State)
    ensures var t := AtTop(s);
            && (t.task.pc == Parked <==> !s.table.acquire)
            && (t.task.pc != Parked ==> TakesUp(s, t) && t.task.acquire && t.table.acquire)
  {
  }

  lemma FrameDoneTakesUp(s: State)
    ensures var t := FrameDone(s);
            t.task.pc != Parked ==> TakesUp(s, t) && t.task.acquire && t.table.acquire
  {
    TopTakesUp(s);
    TopTakesUp(s.(table := s.table.(acquire := false, status := Idle)));
    hide AtTop;
  }

  lemma LeftTakesUp(s: State, callbacks: bool)
    ensures var t := Left(s, callbacks);
            t.task.pc != Parked && t.task.pc != Callbacks ==> TakesUp(s, t) && t.task.acquire && t.table.acquire
  {
    TopTakesUp(s.(table := s.table.(acquire := false, status := Failed)));
    TopTakesUp(s.(table := s.table.(status := Aborted)));
    FrameDoneTakesUp(Published(s));
    hide AtTop, FrameDone;
  }

  lemma FrameTakesSettings(s: State, a: Action)
    requires BeginsFrame(s, Step(s, a))
    ensures var t := Step(s, a);
            && TakesUp(s, t)
            && (s.task.pc == Woken ==> t.task.imagesCounter == 0 && !t.task.failed)
            && (s.task.pc != Woken ==> t.task.acquire && t.table.acquire)
  {
    hide SetupStep, ExposureStep, FinishStep, HandlerStep, Left, FrameDone;
    if a.TaskStep? {
      LeftTakesUp(s, a.callbacks);
      FrameDoneTakesUp(s);
    }
  }

  /** Written settings are in the parameters, and change nothing else but the record of the run. */
  lemma SettingsAreWritten(s: State, settings: Settings)
    ensures var t := Step(s, WriteSettings(settings));
            t == s.(table := s.table.(settings := settings), history := t.history)
  {
  }
}
