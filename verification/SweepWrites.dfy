/** What writing the centre of a swept axis does to the sweep that is sent to the analyser. For
    energies the number of points never changes. A ThetaY range is cut to the range of the lens
    mode before the number of points is taken, so there it can. */
module SweepWrites {
  import opened Wrappers
  import opened SpectrumSettings

  /** Between one step less and itself, a number of steps is the only one. */
  lemma StepsOnly(m: nat, n: nat, d: real, step: real)
    requires step > 0.0
    requires Steps(m, step) - step < d <= Steps(m, step) && Steps(n, step) - step < d <= Steps(n, step)
    ensures m == n
  {
    hide Times;
    TimesNext(m as real, step);
    TimesNext(n as real, step);
    TimesOrder(m as real - 1.0, n as real, step);
    TimesOrder(n as real - 1.0, m as real, step);
  }

  /** The count of a sweep is `n` exactly when its width less epsilon takes `n` - 1 steps. */
  lemma CountExactlyWhen(low: real, high: real, step: real, epsilon: real, n: nat)
    requires step > 0.0 && n >= 1
    ensures SweepCount(low, high, step, epsilon) == Some(n) <==>
            Steps(n - 1, step) - step < Abs(high - low - epsilon) <= Steps(n - 1, step)
  {
    CountReaches(low, high, step, epsilon);
    var count := SweepCount(low, high, step, epsilon).value;
    hide SweepCount, Steps, Abs;
    var d := Abs(high - low - epsilon);
    if Steps(n - 1, step) - step < d <= Steps(n - 1, step) {
      StepsOnly(count - 1, n - 1, d, step);
    }
  }

  // ----- What is sent

  /** The definition is sent unless an index is out of range or an energy is not above zero. */
  predicate Sends(c: Config, s: Settings) {
    IndicesInRange(c, s.params) && !EnergiesRejected(s.params, s.requested)
  }

  /** The sweeps of the definition that is sent. */
  lemma SweepsSent(c: Config, s: Settings, answer: Option<Reply>)
    requires Indexed(c, s.params)
    ensures var t := SetUp(c, s, answer);
            && t.requested == s.requested
            && if Sends(c, s) then
                 && t.definition.Some?
                 && t.definition.value.sweepX == EnergySweep(c, s.params, s.requested)
                 && t.definition.value.sweepZ == AngleSweep(c, s.params, s.requested)
               else
                 t.definition == s.definition
  {
    if IndicesInRange(c, s.params) {
      SameSweeps(c, s.params, PassEnergyValidated(c, s.params), s.requested);
    }
    hide PassEnergyValidated, EnergySweep, AngleSweep, EnergiesRejected, WithRegion, AreaOf, Binning, Bounded, Shift;
  }

  /** Bringing the pass energy into range leaves the sweeps as they are. */
  lemma SameSweeps(c: Config, p: Params, q: Params, requested: map<AxisParam, real>)
    requires Indexed(c, p) && Indexed(c, q) && q == p.(ints := q.ints, passEnergyValue := q.passEnergyValue)
    requires forall f :: f != PassEnergy ==> GetInt(q, f) == GetInt(p, f)
    ensures EnergySweep(c, q, requested) == EnergySweep(c, p, requested)
    ensures AngleSweep(c, q, requested) == AngleSweep(c, p, requested)
    ensures EnergiesRejected(q, requested) <==> EnergiesRejected(p, requested)
  {
    hide SweepCount, GetAxis, Bounded;
  }

  /** Writing a centre is setting up the definition with the requested range moved. */
  lemma CenterWritten(c: Config, s: Settings, f: AxisParam, center: real, answer: Option<Reply>)
    requires Indexed(c, s.params) && (f == CenterEnergy || f == CenterAngleY)
    ensures var p := SetFloat(s.params, Axis(f), center);
            var requested := Request(s.requested, GetInt(s.params, AcquisitionMode), f, center);
            && WriteFloat(c, s, Axis(f), center, answer) == SetUp(c, s.(params := p, requested := requested), answer)
            && p.ints == s.params.ints && Shift(p) == Shift(s.params)
  {
    hide SetUp, Request;
  }

  /** Setting up the definition changes no index but that of the pass energy. */
  lemma SetUpIndices(c: Config, s: Settings, answer: Option<Reply>)
    requires Indexed(c, s.params)
    ensures var t := SetUp(c, s, answer);
            && Indexed(c, t.params) && (IndicesInRange(c, s.params) ==> IndicesInRange(c, t.params))
            && GetInt(t.params, LensMode) == GetInt(s.params, LensMode)
            && GetInt(t.params, AcquisitionMode) == GetInt(s.params, AcquisitionMode)
  {
    hide PassEnergyValidated, DefinitionOf, EnergiesRejected;
  }

  lemma IndicesStay(c: Config, s: Settings, f: AxisParam, center: real, answer: Option<Reply>)
    requires Indexed(c, s.params) && (f == CenterEnergy || f == CenterAngleY)
    ensures var t := WriteFloat(c, s, Axis(f), center, answer);
            && Indexed(c, t.params) && (IndicesInRange(c, s.params) ==> IndicesInRange(c, t.params))
            && GetInt(t.params, LensMode) == GetInt(s.params, LensMode)
            && GetInt(t.params, AcquisitionMode) == GetInt(s.params, AcquisitionMode)
  {
    hide WriteFloat, SetUp, Request;
    CenterWritten(c, s, f, center, answer);
    SetUpIndices(c, s.(params := SetFloat(s.params, Axis(f), center),
                       requested := Request(s.requested, GetInt(s.params, AcquisitionMode), f, center)), answer);
  }

  // ----- Energies

  /** One written centre energy: the width stays, and what is sent, if the range is above zero, is
      the same number of points around the new centre. */
  lemma CenterEnergySent(c: Config, s: Settings, center: real, answer: Option<Reply>)
    requires Indexed(c, s.params) && SweepsEnergy(GetInt(s.params, AcquisitionMode))
    requires Width(s.requested, CenterEnergy) >= 0.0
    ensures var t := WriteFloat(c, s, Axis(CenterEnergy), center, answer);
            var width, step := Width(s.requested, CenterEnergy), GetAxis(s.requested, EnergyStep);
            var low := Shift(s.params) + center - width / 2.0;
            && Width(t.requested, CenterEnergy) == width && GetAxis(t.requested, EnergyStep) == step
            && if IndicesInRange(c, s.params) && low > 0.0 then
                 t.definition.Some? &&
                 t.definition.value.sweepX == Some(Sweep(low, step, SweepCount(0.0, width, step, c.epsilon)))
               else
                 t.definition == s.definition
  {
    hide WriteFloat, SetUp, EnergySweep, SweepCount;
    var p := SetFloat(s.params, Axis(CenterEnergy), center);
    var requested := Request(s.requested, GetInt(s.params, AcquisitionMode), CenterEnergy, center);
    CenterWritten(c, s, CenterEnergy, center, answer);
    SweepsSent(c, s.(params := p, requested := requested), answer);
    CenterKeepsWidth(s.requested, GetInt(s.params, AcquisitionMode), CenterEnergy, center);
    EnergySweepSent(c, p, requested);
    hide Request;
  }

  /** The energy sweep, and when it is passed on. */
  lemma EnergySweepSent(c: Config, p: Params, requested: map<AxisParam, real>)
    requires Indexed(c, p) && SweepsEnergy(GetInt(p, AcquisitionMode)) && Width(requested, CenterEnergy) >= 0.0
    requires GetAxis(requested, CenterEnergy) == (GetAxis(requested, HighEnergy) + GetAxis(requested, LowEnergy)) / 2.0
    ensures var center, width := GetAxis(requested, CenterEnergy), Width(requested, CenterEnergy);
            var low, step := Shift(p) + center - width / 2.0, GetAxis(requested, EnergyStep);
            && (EnergiesRejected(p, requested) <==> low <= 0.0)
            && EnergySweep(c, p, requested) == Some(Sweep(low, step, SweepCount(0.0, width, step, c.epsilon)))
  {
    hide SweepCount, GetAxis, Shift, Bounded;
    SameWidth(0.0, Width(requested, CenterEnergy), Shift(p) + GetAxis(requested, LowEnergy),
              Shift(p) + GetAxis(requested, HighEnergy), GetAxis(requested, EnergyStep), c.epsilon);
  }

  datatype Center = Center(value: real, answer: Option<Reply>)

  /** Centres written one after the other, to the same axis. */
  function CentersWritten(c: Config, s: Settings, f: AxisParam, ws: seq<Center>): (t: Settings)
    requires Indexed(c, s.params) && (f == CenterEnergy || f == CenterAngleY)
    ensures Indexed(c, t.params)
  {
    if ws == [] then s
    else
      var before, last := CentersWritten(c, s, f, ws[..|ws| - 1]), ws[|ws| - 1];
      IndicesStay(c, before, f, last.value, last.answer);
      WriteFloat(c, before, Axis(f), last.value, last.answer)
  }

  /** Any number of centre energies, whatever the analyser answers: the width of the range stays what
      it was, and every definition that is sent has the number of points of that width. */
  lemma {:induction false} EnergyCountKept(c: Config, s: Settings, ws: seq<Center>)
    requires Indexed(c, s.params) && SweepsEnergy(GetInt(s.params, AcquisitionMode))
    requires Width(s.requested, CenterEnergy) >= 0.0
    ensures var t := CentersWritten(c, s, CenterEnergy, ws);
            var width, step := Width(s.requested, CenterEnergy), GetAxis(s.requested, EnergyStep);
            && GetInt(t.params, AcquisitionMode) == GetInt(s.params, AcquisitionMode)
            && Width(t.requested, CenterEnergy) == width && GetAxis(t.requested, EnergyStep) == step
            && (t.definition == s.definition ||
                (t.definition.Some? && t.definition.value.sweepX.Some? &&
                 t.definition.value.sweepX.value.count == SweepCount(0.0, width, step, c.epsilon)))
    decreases |ws|
  {
    hide WriteFloat, SweepCount, IndicesInRange, Shift, Width;
    if ws != [] {
      var front, last := ws[..|ws| - 1], ws[|ws| - 1];
      EnergyCountKept(c, s, front);
      IndicesStay(c, CentersWritten(c, s, CenterEnergy, front), CenterEnergy, last.value, last.answer);
      CenterEnergySent(c, CentersWritten(c, s, CenterEnergy, front), last.value, last.answer);
    }
  }

  // ----- ThetaY

  /** How much of a range of this width around this centre lies inside the range of the lens mode. */
  function Overlap(lens: LensModeSetting, center: real, width: real): real {
    Clamp(center + width / 2.0, lens.yLow, lens.yHigh) - Clamp(center - width / 2.0, lens.yLow, lens.yHigh)
  }

  /** All of it exactly when both ends are inside. */
  lemma OverlapIsWhole(lens: LensModeSetting, center: real, width: real)
    requires lens.yLow <= lens.yHigh && width >= 0.0
    ensures 0.0 <= Overlap(lens, center, width) <= width
    ensures Overlap(lens, center, width) == width <==>
            width == 0.0 || (lens.yLow <= center - width / 2.0 && center + width / 2.0 <= lens.yHigh)
  {
  }

  /** One written centre angle: the requested width stays, and what is sent is the part of the range
      that the lens mode has. */
  lemma CenterAngleSent(c: Config, s: Settings, center: real, answer: Option<Reply>)
    requires ModesAgree(c, s.params) && IndicesInRange(c, s.params)
    requires SweepsAngle(GetInt(s.params, AcquisitionMode)) && !EnergiesRejected(s.params, s.requested)
    requires Width(s.requested, CenterAngleY) >= 0.0
    ensures var t := WriteFloat(c, s, Axis(CenterAngleY), center, answer);
            var width, step := Width(s.requested, CenterAngleY), GetAxis(s.requested, AngleYStep);
            var lens := c.lensModes[GetInt(s.params, LensMode)];
            && Width(t.requested, CenterAngleY) == width && GetAxis(t.requested, AngleYStep) == step
            && t.definition.Some?
            && t.definition.value.sweepZ ==
               Some(Sweep(Clamp(center - width / 2.0, lens.yLow, lens.yHigh), step,
                          SweepCount(0.0, Overlap(lens, center, width), step, c.epsilon)))
  {
    hide WriteFloat, SetUp, AngleSweep, Overlap, SweepCount, Clamp;
    var p := SetFloat(s.params, Axis(CenterAngleY), center);
    var requested := Request(s.requested, GetInt(s.params, AcquisitionMode), CenterAngleY, center);
    CenterWritten(c, s, CenterAngleY, center, answer);
    SweepsSent(c, s.(params := p, requested := requested), answer);
    CenterKeepsWidth(s.requested, GetInt(s.params, AcquisitionMode), CenterAngleY, center);
    AngleSweepSent(c, p, requested);
  }

  /** The angle sweep. */
  lemma AngleSweepSent(c: Config, p: Params, requested: map<AxisParam, real>)
    requires ModesAgree(c, p) && SweepsAngle(GetInt(p, AcquisitionMode))
    requires GetAxis(requested, CenterAngleY) ==
             (GetAxis(requested, HighAngleY) + GetAxis(requested, LowAngleY)) / 2.0
    ensures var lens := c.lensModes[GetInt(p, LensMode)];
            var center, width := GetAxis(requested, CenterAngleY), Width(requested, CenterAngleY);
            var step := GetAxis(requested, AngleYStep);
            AngleSweep(c, p, requested) ==
            Some(Sweep(Clamp(center - width / 2.0, lens.yLow, lens.yHigh), step,
                       SweepCount(0.0, Overlap(lens, center, width), step, c.epsilon)))
  {
    hide Clamp, SweepCount, GetAxis;
    var lens := c.lensModes[GetInt(p, LensMode)];
    var low, high := GetAxis(requested, LowAngleY), GetAxis(requested, HighAngleY);
    var center, width := GetAxis(requested, CenterAngleY), Width(requested, CenterAngleY);
    assert center - width / 2.0 == low && center + width / 2.0 == high;
    SameWidth(0.0, Overlap(lens, center, width), Clamp(low, lens.yLow, lens.yHigh), Clamp(high, lens.yLow, lens.yHigh),
              GetAxis(requested, AngleYStep), c.epsilon);
  }

  /** When a written centre angle keeps the number of points, `n`, of the definition before: exactly
      when the part of the range inside the range of the lens mode, less epsilon, still takes
      `n` - 1 steps. */
  lemma AngleCountKept(c: Config, s: Settings, center: real, answer: Option<Reply>, n: nat)
    requires ModesAgree(c, s.params) && IndicesInRange(c, s.params)
    requires SweepsAngle(GetInt(s.params, AcquisitionMode)) && !EnergiesRejected(s.params, s.requested)
    requires Width(s.requested, CenterAngleY) >= 0.0 && GetAxis(s.requested, AngleYStep) > 0.0 && n >= 1
    ensures var t := WriteFloat(c, s, Axis(CenterAngleY), center, answer);
            var width, step := Width(s.requested, CenterAngleY), GetAxis(s.requested, AngleYStep);
            var inside := Overlap(c.lensModes[GetInt(s.params, LensMode)], center, width);
            t.definition.Some? && t.definition.value.sweepZ.Some? &&
            (t.definition.value.sweepZ.value.count == Some(n) <==>
             Steps(n - 1, step) - step < Abs(inside - c.epsilon) <= Steps(n - 1, step))
  {
    CenterAngleSent(c, s, center, answer);
    var width, step := Width(s.requested, CenterAngleY), GetAxis(s.requested, AngleYStep);
    var inside := Overlap(c.lensModes[GetInt(s.params, LensMode)], center, width);
    CountExactlyWhen(0.0, inside, step, c.epsilon, n);
    hide WriteFloat, SweepCount, Steps, Abs;
    assert inside - 0.0 - c.epsilon == inside - c.epsilon;
  }

  /** A range that takes three points or more is sent with all of them exactly when more than its last
      step but epsilon stays inside the range of the lens mode. */
  lemma AngleCountOfWidth(c: Config, s: Settings, center: real, answer: Option<Reply>)
    requires ModesAgree(c, s.params) && IndicesInRange(c, s.params) && RangesOrdered(c)
    requires SweepsAngle(GetInt(s.params, AcquisitionMode)) && !EnergiesRejected(s.params, s.requested)
    requires 0.0 <= c.epsilon < GetAxis(s.requested, AngleYStep)
    requires Width(s.requested, CenterAngleY) >= 2.0 * c.epsilon
    requires SweepCount(0.0, Width(s.requested, CenterAngleY), GetAxis(s.requested, AngleYStep), c.epsilon).value >= 3
    ensures var t := WriteFloat(c, s, Axis(CenterAngleY), center, answer);
            var width, step := Width(s.requested, CenterAngleY), GetAxis(s.requested, AngleYStep);
            var count := SweepCount(0.0, width, step, c.epsilon);
            var inside := Overlap(c.lensModes[GetInt(s.params, LensMode)], center, width);
            t.definition.Some? && t.definition.value.sweepZ.Some? &&
            (t.definition.value.sweepZ.value.count == count <==> inside > Steps(count.value - 2, step) + c.epsilon)
  {
    hide WriteFloat, Steps, Overlap, Width, GetAxis, RangesOrdered, EnergiesRejected, IndicesInRange, SweepsAngle;
    var width, step := Width(s.requested, CenterAngleY), GetAxis(s.requested, AngleYStep);
    var n := SweepCount(0.0, width, step, c.epsilon).value;
    hide SweepCount;
    var lens := c.lensModes[GetInt(s.params, LensMode)];
    LensOrdered(c, GetInt(s.params, LensMode));
    AngleCountKept(c, s, center, answer, n);
    CountReaches(0.0, width, step, c.epsilon);
    OverlapIsWhole(lens, center, width);
    OneStepLess(n, step);
    LastStepInside(Overlap(lens, center, width), width, c.epsilon, step, Steps(n - 1, step));
  }

  lemma LensOrdered(c: Config, i: nat)
    requires RangesOrdered(c) && i < |c.lensModes|
    ensures c.lensModes[i].yLow <= c.lensModes[i].yHigh
  {
  }

  lemma LastStepInside(inside: real, width: real, epsilon: real, step: real, most: real)
    requires 0.0 <= epsilon < step && width >= 2.0 * epsilon && 0.0 <= inside <= width
    requires Abs(width - 0.0 - epsilon) <= most && most - step >= step
    ensures most - step < Abs(inside - epsilon) <= most <==> inside > most - step + epsilon
  {
  }

  lemma OneStepLess(n: nat, step: real)
    requires n >= 3 && step > 0.0
    ensures Steps(n - 2, step) == Steps(n - 1, step) - step && Steps(n - 2, step) >= step
  {
    TimesNext((n - 1) as real, step);
    TimesOrder(1.0, (n - 2) as real, step);
    TimesNext(1.0, step);
  }

  function TiltingLens(): Config {
    Config([LensModeSetting(false, true, -10.0, 10.0, 0.0, 100.0)], [5.0], 1, 1, 1000, 1000, 0.001,
           500.0, 500.0, 1.0)
  }

  function Tilted(): Settings {
    Settings(Params(map[AcquisitionMode := 2], map[], 0.0, 0.0, 0.0, Position(0.0, 0.0, 0.0), 5.0, false, true,
                    Slices(0.0, 0.0, 0.0, 0), 0, 0, 0, 0),
             map[LowAngleY := -1.0, HighAngleY := 1.0, AngleYStep := 1.0], None)
  }

  /** It is not always kept: with the angles from -1 to 1 in steps of 1 and a lens mode that goes from
      -10 to 10, writing the centre 0 sends three points, and then the centre 10 two. */
  lemma AngleCountChanges(answer: Option<Reply>, answer': Option<Reply>)
    ensures var t := WriteFloat(TiltingLens(), Tilted(), Axis(CenterAngleY), 0.0, answer);
            && t.definition.Some? && t.definition.value.sweepZ.Some?
            && t.definition.value.sweepZ.value.count == Some(3)
            && Indexed(TiltingLens(), t.params)
            && var u := WriteFloat(TiltingLens(), t, Axis(CenterAngleY), 10.0, answer');
            && u.definition.Some? && u.definition.value.sweepZ.Some?
            && u.definition.value.sweepZ.value.count == Some(2)
  {
    hide WriteFloat;
    var c, s := TiltingLens(), Tilted();
    AngleCountKept(c, s, 0.0, answer, 3);
    CenterAngleSent(c, s, 0.0, answer);
    IndicesStay(c, s, CenterAngleY, 0.0, answer);
    AngleCountKept(c, WriteFloat(c, s, Axis(CenterAngleY), 0.0, answer), 10.0, answer', 2);
  }
}
