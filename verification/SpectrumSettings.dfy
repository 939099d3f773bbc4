/** The parameter writes of peakAnalyser.cpp and the spectrum definition they lead to. The asyn
    parameter table is a record; the answer of the analyser to a definition is a parameter of
    every write, None when the call throws. Energies and angles are real numbers. */
module SpectrumSettings {
  import opened Wrappers
  import PeakSpectrum

  // ----- What does not change after connecting

  datatype LensModeSetting = LensModeSetting(hasXDeflection: bool, hasYDeflection: bool,
                                             yLow: real, yHigh: real, passEnergyLow: real, passEnergyHigh: real)

  datatype Config = Config(lensModes: seq<LensModeSetting>, passEnergies: seq<real>, elementSets: nat,
                           detectorModes: nat, maxSizeX: int, maxSizeY: int, epsilon: real,
                           centerX: real, centerY: real, pixelDensity: real)

  // ----- The parameter table

  /** The parameters that are requested for an axis and kept apart from the values read back. */
  datatype AxisParam = LowEnergy | HighEnergy | CenterEnergy | EnergyStep | CenterSlice
                     | LowAngleY | HighAngleY | CenterAngleY | AngleYStep

  datatype IntParam = AcquisitionMode | EnergyMode | LensMode | PassEnergy | DetectorChannels | DetectorSlices
                    | MinX | MinY | SizeX | SizeY | ElementSet | DetectorMode

  datatype FloatParam = Axis(axis: AxisParam) | ExcitationEnergy | WorkFunction | AcquireTime
                      | FocalX | FocalY | FocalZ

  datatype Position = Position(x: real, y: real, z: real)

  /** The slice axis, of which only the centre can be requested. */
  datatype Slices = Slices(low: real, step: real, high: real, count: int)

  datatype Params = Params(ints: map<IntParam, int>, axes: map<AxisParam, real>, excitationEnergy: real,
                           workFunction: real, acquireTime: real, focal: Position, passEnergyValue: real,
                           withSlice: bool, withAngleY: bool, slices: Slices, energyCount: int, angleYCount: int,
                           numSteps: int, stepsCounter: int)

  function GetInt(p: Params, f: IntParam): int {
    if f in p.ints then p.ints[f] else 0
  }

  function SetInt(p: Params, f: IntParam, value: int): Params {
    p.(ints := p.ints[f := value])
  }

  /** `m_RequestedAxes[f]`: a missing entry is 0. */
  function GetAxis(m: map<AxisParam, real>, f: AxisParam): real {
    if f in m then m[f] else 0.0
  }

  /** `value & 0x01` and `value & 0x02` for an `int` in two's complement. */
  predicate SweepsEnergy(mode: int) { mode % 2 == 1 }
  predicate SweepsAngle(mode: int) { (mode / 2) % 2 == 1 }

  // ----- Spectrum definitions

  /** A swept axis; the count is None when the step is zero and the division has no value. */
  datatype Sweep = Sweep(offset: real, delta: real, count: Option<int>)

  /** A fixed detector axis; the binning is None when it has no value. */
  datatype Fixed = Fixed(center: real, binning: Option<real>)

  datatype Area = Area(lowX: real, lowY: real, highX: real, highY: real)

  /** Names are their indices. */
  datatype Definition = Definition(elementSet: int, lensMode: nat, passEnergy: real, detectorMode: int,
                                   dwellTime: real, position: Position, area: Option<Area>,
                                   sweepX: Option<Sweep>, fixedX: Option<Fixed>, fixedY: Fixed,
                                   sweepZ: Option<Sweep>, fixedZ: Option<real>)

  function Abs(x: real): real { if x < 0.0 then -x else x }

  function Ceil(x: real): (n: int)
    ensures n as real - 1.0 < x <= n as real
  {
    if x.Floor as real == x then x.Floor else x.Floor + 1
  }

  function SweepCount(low: real, high: real, step: real, epsilon: real): Option<int> {
    if step == 0.0 then None else Some(Ceil(Abs(high - low - epsilon) / step) + 1)
  }

  function Clamp(value: real, low: real, high: real): (r: real)
    ensures low <= high ==> low <= r <= high
    ensures low <= value <= high ==> r == value
    ensures r == value || r == low || r == high
  {
    if value < low then low else if value > high then high else value
  }

  /** What the analyser answers: the requested axes as it adjusted them, and the counts of the
      acquired axes. */
  datatype AxisReply = AxisReply(offset: real, delta: real, lastOffset: real, center: real, count: int)

  datatype Reply = Reply(x: AxisReply, y: AxisReply, z: Option<AxisReply>,
                         acquiredX: Option<int>, acquiredZ: Option<int>)

  // ----- The driver's settings as a value

  datatype Settings = Settings(params: Params, requested: map<AxisParam, real>, definition: Option<Definition>)

  /** The shift from the energies the user sees to the kinetic energies the analyser is sent. */
  function Shift(p: Params): real {
    if GetInt(p, EnergyMode) == 1 then p.excitationEnergy - p.workFunction else 0.0
  }

  /** The first index at which a value occurs, as `std::find` returns it. */
  function IndexOf(s: seq<real>, v: real): (i: Option<nat>)
    ensures i.Some? ==> i.value < |s| && s[i.value] == v && forall k :: 0 <= k < i.value ==> s[k] != v
    ensures i == None ==> v !in s
  {
    if s == [] then None
    else if s[0] == v then Some(0)
    else
      match IndexOf(s[1..], v)
      case None => None
      case Some(i) => assert forall k :: 0 < k < |s| ==> s[k] == s[1..][k - 1]; Some(i + 1)
  }

  /** `setPassEnergy`: an energy that is not in the list is ignored. */
  function WithPassEnergy(c: Config, p: Params, energy: real): Params {
    match IndexOf(c.passEnergies, energy)
    case None => p
    case Some(i) => SetInt(p, PassEnergy, i).(passEnergyValue := energy)
  }

  /** `setRegion`: the axes as the analyser sees them become the values read back. */
  function WithRegion(p: Params, r: Reply): Params {
    var shift := Shift(p);
    var mode := GetInt(p, AcquisitionMode);
    var z := if r.z.Some? then r.z.value else AxisReply(0.0, 0.0, 0.0, 0.0, 0);
    var steps := (if SweepsEnergy(mode) && r.acquiredX.Some? then r.acquiredX.value else 1) *
                 (if SweepsAngle(mode) && r.acquiredZ.Some? then r.acquiredZ.value else 1);
    p.(axes := map[LowEnergy := r.x.offset - shift, EnergyStep := r.x.delta, HighEnergy := r.x.lastOffset - shift,
                   CenterEnergy := r.x.center - shift, CenterSlice := r.y.center,
                   LowAngleY := z.offset, AngleYStep := z.delta, HighAngleY := z.lastOffset, CenterAngleY := z.center],
       slices := Slices(r.y.offset, r.y.delta, r.y.lastOffset, r.y.count),
       energyCount := r.x.count, angleYCount := z.count, numSteps := steps, stepsCounter := 0)
  }

  predicate IndicesInRange(c: Config, p: Params) {
    && GetInt(p, ElementSet) < c.elementSets && GetInt(p, LensMode) < |c.lensModes|
    && GetInt(p, PassEnergy) < |c.passEnergies| && GetInt(p, DetectorMode) < c.detectorModes
  }

  /** The parameters after the pass energy has been brought into the range of the lens mode, if
      the end of the range is an energy on the list. */
  function PassEnergyValidated(c: Config, p: Params): (q: Params)
    requires Indexed(c, p)
    ensures Indexed(c, q)
    ensures q == p.(ints := q.ints, passEnergyValue := q.passEnergyValue)
    ensures forall f :: f != PassEnergy ==> GetInt(q, f) == GetInt(p, f)
  {
    var lens := c.lensModes[GetInt(p, LensMode)];
    var q := WithPassEnergy(c, p,
                            Clamp(c.passEnergies[GetInt(p, PassEnergy)], lens.passEnergyLow, lens.passEnergyHigh));
    q.(passEnergyValue := c.passEnergies[GetInt(q, PassEnergy)])
  }

  /** The sweep of energies and the sweep of angles, if there are any. */
  function EnergySweep(c: Config, p: Params, requested: map<AxisParam, real>): Option<Sweep> {
    var low, high := Shift(p) + GetAxis(requested, LowEnergy), Shift(p) + GetAxis(requested, HighEnergy);
    var step := GetAxis(requested, EnergyStep);
    if SweepsEnergy(GetInt(p, AcquisitionMode))
    then Some(Sweep(low, step, SweepCount(low, high, step, c.epsilon))) else None
  }

  function AngleSweep(c: Config, p: Params, requested: map<AxisParam, real>): Option<Sweep>
    requires Indexed(c, p)
  {
    var lens := c.lensModes[GetInt(p, LensMode)];
    var low, high := Bounded(lens, GetAxis(requested, LowAngleY)), Bounded(lens, GetAxis(requested, HighAngleY));
    var step := GetAxis(requested, AngleYStep);
    if SweepsAngle(GetInt(p, AcquisitionMode))
    then Some(Sweep(low, step, SweepCount(low, high, step, c.epsilon))) else None
  }

  /** The definition the validated parameters describe. */
  function DefinitionOf(c: Config, p: Params, requested: map<AxisParam, real>): Definition
    requires Indexed(c, p)
  {
    var mode := GetInt(p, AcquisitionMode);
    var lens := c.lensModes[GetInt(p, LensMode)];
    Definition(GetInt(p, ElementSet), GetInt(p, LensMode), c.passEnergies[GetInt(p, PassEnergy)],
               GetInt(p, DetectorMode), p.acquireTime, p.focal, AreaOf(c, p),
               EnergySweep(c, p, requested),
               if SweepsEnergy(mode) then None
               else Some(Fixed(Shift(p) + GetAxis(requested, CenterEnergy),
                               Binning(GetInt(p, SizeX), GetInt(p, DetectorChannels)))),
               Fixed(GetAxis(requested, CenterSlice), Binning(GetInt(p, SizeY), GetInt(p, DetectorSlices))),
               AngleSweep(c, p, requested),
               if SweepsAngle(mode) then None else Some(Bounded(lens, GetAxis(requested, CenterAngleY))))
  }

  /** The pixels of the region that go into one channel or slice. */
  function Binning(size: int, parts: int): Option<real> {
    if parts == 0 then None else Some(size as real / parts as real)
  }

  /** The region of interest in units of length; None when the density is zero. */
  function AreaOf(c: Config, p: Params): Option<Area> {
    var minX, minY := GetInt(p, MinX) as real, GetInt(p, MinY) as real;
    var sizeX, sizeY := GetInt(p, SizeX) as real, GetInt(p, SizeY) as real;
    if c.pixelDensity == 0.0 then None
    else Some(Area((minX - c.centerX - 1.0) / c.pixelDensity, (minY - c.centerY) / c.pixelDensity,
                   (minX + sizeX - c.centerX - 1.0) / c.pixelDensity, (minY + sizeY - c.centerY) / c.pixelDensity))
  }

  /** An angle is clamped if the lens mode has a range for it. */
  function Bounded(lens: LensModeSetting, angle: real): real {
    if lens.hasYDeflection then Clamp(angle, lens.yLow, lens.yHigh) else angle
  }

  /** A sweep over kinetic energies that are not positive is not passed on. */
  predicate EnergiesRejected(p: Params, requested: map<AxisParam, real>) {
    && SweepsEnergy(GetInt(p, AcquisitionMode))
    && (|| Shift(p) + GetAxis(requested, CenterEnergy) <= 0.0
        || Shift(p) + GetAxis(requested, LowEnergy) <= 0.0
        || Shift(p) + GetAxis(requested, HighEnergy) <= 0.0)
  }

  /** `setupSpectrumDefinition`. */
  function SetUp(c: Config, s: Settings, reply: Option<Reply>): (t: Settings)
    requires Indexed(c, s.params) || !IndicesInRange(c, s.params)
  {
    if !IndicesInRange(c, s.params) then s
    else
      var p := PassEnergyValidated(c, s.params);
      if EnergiesRejected(p, s.requested) then s.(params := p)
      else
        Settings(if reply.Some? then WithRegion(p, reply.value) else p, s.requested,
                 Some(DefinitionOf(c, p, s.requested)))
  }

  /** Lens mode and pass energy are indices into their lists. */
  predicate Indexed(c: Config, p: Params) {
    0 <= GetInt(p, LensMode) < |c.lensModes| && 0 <= GetInt(p, PassEnergy) < |c.passEnergies|
  }

  // ----- Integer writes

  /** `setROI`. */
  function WithRoi(c: Config, p: Params): Params {
    var q := if GetInt(p, MinX) + GetInt(p, SizeX) > c.maxSizeX
             then SetInt(p, SizeX, c.maxSizeX - GetInt(p, MinX)) else p;
    if GetInt(q, MinY) + GetInt(q, SizeY) > c.maxSizeY then SetInt(q, SizeY, c.maxSizeY - GetInt(q, MinY)) else q
  }

  /** A detector size above the region's is cut to it, one below 1 becomes 1. */
  function DetectorSize(value: int, size: int): int {
    if value > size then size else if value <= 0 then 1 else value
  }

  /** An index that is written must not be negative; the lists are not searched below 0. */
  predicate WriteAllowed(f: IntParam, value: int) {
    f == LensMode || f == PassEnergy ==> value >= 0
  }

  lemma RoiStaysIndexed(c: Config, p: Params)
    requires Indexed(c, p)
    ensures Indexed(c, WithRoi(c, p))
  {
  }

  /** The parameters after `writeInt32` has looked at the value, and whether it goes on to set up
      the spectrum definition. */
  function Accept(c: Config, p: Params, f: IntParam, value: int): (r: (Params, bool))
    requires Indexed(c, p) && WriteAllowed(f, value)
    ensures Indexed(c, r.0)
  {
    hide WithRoi;
    var q := SetInt(p, f, value);
    match f
    case AcquisitionMode =>
      if SweepsAngle(value) && !c.lensModes[GetInt(p, LensMode)].hasYDeflection then (SetInt(p, f, GetInt(p, f)), false)
      else (q, true)
    case EnergyMode => (q, true)
    case DetectorChannels =>
      (SetInt(p, f, DetectorSize(value, GetInt(p, SizeX))),
       !SweepsEnergy(GetInt(p, AcquisitionMode)) || !SweepsAngle(GetInt(p, AcquisitionMode)))
    case DetectorSlices => (SetInt(p, f, DetectorSize(value, GetInt(p, SizeY))), true)
    case LensMode =>
      if value >= |c.lensModes| then (SetInt(p, f, GetInt(p, f)), false)
      else if SweepsAngle(GetInt(p, AcquisitionMode)) && !c.lensModes[value].hasYDeflection
      then (SetInt(p, f, GetInt(p, f)), false)
      else (q.(withSlice := c.lensModes[value].hasXDeflection, withAngleY := c.lensModes[value].hasYDeflection), true)
    case PassEnergy => if value < |c.passEnergies| then (q, true) else (SetInt(p, f, GetInt(p, f)), false)
    case MinX | MinY | SizeX | SizeY => RoiStaysIndexed(c, q); (WithRoi(c, q), true)
    case ElementSet | DetectorMode => (q, false)
  }

  function WriteInt(c: Config, s: Settings, f: IntParam, value: int, reply: Option<Reply>): Settings
    requires Indexed(c, s.params) && WriteAllowed(f, value)
  {
    var (p, setUp) := Accept(c, s.params, f, value);
    if setUp then SetUp(c, s.(params := p), reply) else s.(params := p)
  }

  // ----- Float writes

  /** What a write does to the requested axes: a written centre moves both ends of a swept axis. */
  function Request(requested: map<AxisParam, real>, mode: int, f: AxisParam, value: real): map<AxisParam, real> {
    var r := requested[f := value];
    if f == CenterEnergy && SweepsEnergy(mode) then Recentered(r, LowEnergy, HighEnergy, value)
    else if f == CenterAngleY && SweepsAngle(mode) then Recentered(r, LowAngleY, HighAngleY, value)
    else r
  }

  function Recentered(r: map<AxisParam, real>, low: AxisParam, high: AxisParam, center: real): map<AxisParam, real> {
    var width := Abs(GetAxis(r, high) - GetAxis(r, low));
    r[low := center - width / 2.0][high := center + width / 2.0]
  }

  /** The ends and the step of an axis, which only matter when it is swept. */
  predicate OnlySwept(f: AxisParam, mode: int) {
    || ((f == LowEnergy || f == HighEnergy || f == EnergyStep) && !SweepsEnergy(mode))
    || ((f == LowAngleY || f == HighAngleY || f == AngleYStep) && !SweepsAngle(mode))
  }

  function SetFloat(p: Params, f: FloatParam, value: real): Params {
    match f
    case Axis(a) => p.(axes := p.axes[a := value])
    case ExcitationEnergy => p.(excitationEnergy := value)
    case WorkFunction => p.(workFunction := value)
    case AcquireTime => p.(acquireTime := value)
    case FocalX => p.(focal := p.focal.(x := value))
    case FocalY => p.(focal := p.focal.(y := value))
    case FocalZ => p.(focal := p.focal.(z := value))
  }

  function WriteFloat(c: Config, s: Settings, f: FloatParam, value: real, reply: Option<Reply>): Settings
    requires Indexed(c, s.params)
  {
    var p := SetFloat(s.params, f, value);
    var mode := GetInt(p, AcquisitionMode);
    match f
    case Axis(a) =>
      var requested := Request(s.requested, mode, a, value);
      if OnlySwept(a, mode)
      then s.(params := SetFloat(p, f, GetAxis(s.params.axes, a)), requested := requested)
      else SetUp(c, s.(params := p, requested := requested), reply)
    case AcquireTime | FocalX | FocalY | FocalZ => SetUp(c, s.(params := p), reply)
    case ExcitationEnergy | WorkFunction =>
      if GetInt(p, EnergyMode) == 1 then SetUp(c, s.(params := p), reply) else s.(params := p)
  }

  // ----- What every write keeps

  /** ThetaY is swept only with a lens mode that has it. */
  predicate ModesAgree(c: Config, p: Params) {
    Indexed(c, p) &&
    (SweepsAngle(GetInt(p, AcquisitionMode)) ==> c.lensModes[GetInt(p, LensMode)].hasYDeflection)
  }

  /** Every definition that was ever made: each of X and Z is either swept or fixed, a swept energy
      range starts above zero, ThetaY is swept only with a lens mode that has it and from inside
      its range, and the pass energy is one on the list. */
  predicate DefinitionSound(c: Config, d: Definition) {
    && d.lensMode < |c.lensModes|
    && d.passEnergy in c.passEnergies
    && (d.sweepX.Some? <==> d.fixedX == None) && (d.sweepZ.Some? <==> d.fixedZ == None)
    && (d.sweepX.Some? ==> d.sweepX.value.offset > 0.0)
    && (d.sweepZ.Some? ==>
          var lens := c.lensModes[d.lensMode];
          lens.hasYDeflection && lens.yLow <= d.sweepZ.value.offset <= lens.yHigh)
  }

  /** The flags follow the lens mode. They are set by the first accepted lens mode. */
  predicate FlagsAgree(c: Config, p: Params) {
    Indexed(c, p) &&
    p.withSlice == c.lensModes[GetInt(p, LensMode)].hasXDeflection &&
    p.withAngleY == c.lensModes[GetInt(p, LensMode)].hasYDeflection
  }

  predicate Consistent(c: Config, s: Settings) {
    ModesAgree(c, s.params) && (s.definition.Some? ==> DefinitionSound(c, s.definition.value))
  }

  /** The ranges the analyser reports are ranges. */
  predicate RangesOrdered(c: Config) {
    forall i :: 0 <= i < |c.lensModes| ==>
      c.lensModes[i].yLow <= c.lensModes[i].yHigh && c.lensModes[i].passEnergyLow <= c.lensModes[i].passEnergyHigh
  }

  lemma ValidatedKeepsModes(c: Config, p: Params)
    requires ModesAgree(c, p)
    ensures ModesAgree(c, PassEnergyValidated(c, p))
    ensures FlagsAgree(c, p) ==> FlagsAgree(c, PassEnergyValidated(c, p))
  {
    hide PassEnergyValidated;
  }

  lemma DefinitionIsSound(c: Config, p: Params, requested: map<AxisParam, real>)
    requires ModesAgree(c, p) && RangesOrdered(c) && !EnergiesRejected(p, requested)
    ensures DefinitionSound(c, DefinitionOf(c, p, requested))
  {
    hide SweepCount;
    var lens := c.lensModes[GetInt(p, LensMode)];
    assert lens.yLow <= lens.yHigh;
  }

  lemma RegionKeepsModes(c: Config, p: Params, r: Reply)
    ensures ModesAgree(c, p) ==> ModesAgree(c, WithRegion(p, r))
    ensures FlagsAgree(c, p) ==> FlagsAgree(c, WithRegion(p, r))
  {
  }

  lemma SetUpKeeps(c: Config, s: Settings, reply: Option<Reply>)
    requires Consistent(c, s) && RangesOrdered(c)
    ensures Consistent(c, SetUp(c, s, reply))
    ensures FlagsAgree(c, s.params) ==> FlagsAgree(c, SetUp(c, s, reply).params)
  {
    hide PassEnergyValidated, DefinitionOf, EnergiesRejected, DefinitionSound, RangesOrdered,
      WithRegion, IndicesInRange;
    if IndicesInRange(c, s.params) {
      var p := PassEnergyValidated(c, s.params);
      ValidatedKeepsModes(c, s.params);
      if !EnergiesRejected(p, s.requested) {
        DefinitionIsSound(c, p, s.requested);
        if reply.Some? {
          RegionKeepsModes(c, p, reply.value);
        }
      }
    }
  }

  lemma AcceptKeeps(c: Config, p: Params, f: IntParam, value: int)
    requires ModesAgree(c, p) && WriteAllowed(f, value)
    ensures ModesAgree(c, Accept(c, p, f, value).0)
    ensures FlagsAgree(c, p) || (f == LensMode && Accept(c, p, f, value).1) ==> FlagsAgree(c, Accept(c, p, f, value).0)
  {
    RoiKeepsModes(c, SetInt(p, f, value));
    hide WithRoi;
  }

  lemma RoiKeepsModes(c: Config, p: Params)
    ensures ModesAgree(c, p) ==> ModesAgree(c, WithRoi(c, p))
    ensures FlagsAgree(c, p) ==> FlagsAgree(c, WithRoi(c, p))
  {
  }

  /** The region of interest ends inside the detector, only its sizes are ever cut, and it is left
      with a positive width exactly when it starts inside. */
  lemma RoiFits(c: Config, p: Params)
    ensures var q := WithRoi(c, p);
            && GetInt(q, MinX) + GetInt(q, SizeX) <= c.maxSizeX && GetInt(q, MinY) + GetInt(q, SizeY) <= c.maxSizeY
            && GetInt(q, SizeX) <= GetInt(p, SizeX) && GetInt(q, SizeY) <= GetInt(p, SizeY)
            && (forall f :: f != SizeX && f != SizeY ==> GetInt(q, f) == GetInt(p, f))
            && (GetInt(q, SizeX) > 0 <==> GetInt(p, SizeX) > 0 && GetInt(p, MinX) < c.maxSizeX)
            && (GetInt(q, SizeY) > 0 <==> GetInt(p, SizeY) > 0 && GetInt(p, MinY) < c.maxSizeY)
  {
  }

  /** Once the region has been cut to the detector, the area that is sent is as large as the region
      and ends inside the detector. */
  lemma AreaFits(c: Config, p: Params)
    requires c.pixelDensity > 0.0
    ensures var q := WithRoi(c, p);
            AreaOf(c, q).Some? &&
            var area := AreaOf(c, q).value;
            && Times(area.highX - area.lowX, c.pixelDensity) == GetInt(q, SizeX) as real
            && Times(area.highY - area.lowY, c.pixelDensity) == GetInt(q, SizeY) as real
            && area.highX <= (c.maxSizeX as real - c.centerX - 1.0) / c.pixelDensity
            && area.highY <= (c.maxSizeY as real - c.centerY) / c.pixelDensity
  {
    RoiFits(c, p);
    var q := WithRoi(c, p);
    hide WithRoi;
    var d := c.pixelDensity;
    Quotients(GetInt(q, MinX) as real - c.centerX - 1.0, GetInt(q, SizeX) as real, d);
    Quotients(GetInt(q, MinY) as real - c.centerY, GetInt(q, SizeY) as real, d);
    QuotientOrder(GetInt(q, MinX) as real + GetInt(q, SizeX) as real - c.centerX - 1.0,
                  c.maxSizeX as real - c.centerX - 1.0, d);
    QuotientOrder(GetInt(q, MinY) as real + GetInt(q, SizeY) as real - c.centerY, c.maxSizeY as real - c.centerY, d);
    hide Times;
    assert GetInt(q, MinX) as real + GetInt(q, SizeX) as real - c.centerX - 1.0 ==
           GetInt(q, MinX) as real - c.centerX - 1.0 + GetInt(q, SizeX) as real;
    assert GetInt(q, MinY) as real + GetInt(q, SizeY) as real - c.centerY ==
           GetInt(q, MinY) as real - c.centerY + GetInt(q, SizeY) as real;
  }

  lemma Quotients(a: real, b: real, d: real)
    requires d > 0.0
    ensures Times((a + b) / d - a / d, d) == b
  {
    assert Times((a + b) / d - a / d, d) == Times((a + b) / d, d) - Times(a / d, d);
    TimesDivide(a + b, d);
    TimesDivide(a, d);
  }

  lemma QuotientOrder(a: real, b: real, d: real)
    requires d > 0.0 && a <= b
    ensures a / d <= b / d
  {
    TimesDivide(a, d);
    TimesDivide(b, d);
    TimesOrder(a / d, b / d, d);
  }

  /** A detector size ends between 1 and the size of the region exactly when there is such a size,
      and one that is in range is kept. */
  lemma DetectorSizeInRange(value: int, size: int)
    ensures 1 <= DetectorSize(value, size) <= size <==> size >= 1
    ensures 1 <= value <= size ==> DetectorSize(value, size) == value
  {
  }

  /** Acquisition mode, lens mode and pass energy: a write is accepted exactly when the modes still
      agree with the new value, its index on its list; a rejected write changes nothing. */
  lemma RejectedWriteChangesNothing(c: Config, p: Params, f: IntParam, value: int)
    requires ModesAgree(c, p) && WriteAllowed(f, value)
    requires f == AcquisitionMode || f == LensMode || f == PassEnergy
    ensures var (q, accepted) := Accept(c, p, f, value);
            && (accepted <==> ModesAgree(c, SetInt(p, f, value)))
            && (accepted ==> GetInt(q, f) == value)
            && (!accepted ==> forall g :: GetInt(q, g) == GetInt(p, g))
  {
  }

  datatype Write = IntWrite(i: IntParam, int_: int, answer: Option<Reply>)
                 | FloatWrite(f: FloatParam, float: real, answer: Option<Reply>)

  function Written(c: Config, s: Settings, w: Write): Settings
    requires Indexed(c, s.params) && (w.IntWrite? ==> WriteAllowed(w.i, w.int_))
  {
    match w
    case IntWrite(i, value, answer) => WriteInt(c, s, i, value, answer)
    case FloatWrite(f, value, answer) => WriteFloat(c, s, f, value, answer)
  }

  /** Whatever is written, and whatever the analyser answers or fails to answer, the modes agree
      and the definition is sound; and the flags follow the lens mode once they do. */
  lemma WriteKeeps(c: Config, s: Settings, w: Write)
    requires Consistent(c, s) && RangesOrdered(c)
    requires w.IntWrite? ==> WriteAllowed(w.i, w.int_)
    ensures Consistent(c, Written(c, s, w))
    ensures FlagsAgree(c, s.params) ==> FlagsAgree(c, Written(c, s, w).params)
    ensures w.IntWrite? && w.i == LensMode && Accept(c, s.params, w.i, w.int_).1 ==>
              FlagsAgree(c, Written(c, s, w).params)
  {
    hide SetUp, DefinitionSound, RangesOrdered;
    match w {
      case IntWrite(i, value, answer) =>
        AcceptKeeps(c, s.params, i, value);
        hide Accept;
        SetUpKeeps(c, s.(params := Accept(c, s.params, i, value).0), answer);
      case FloatWrite(f, value, answer) =>
        var p := SetFloat(s.params, f, value);
        SetUpKeeps(c, s.(params := p), answer);
        if f.Axis? {
          SetUpKeeps(c, s.(params := p,
                           requested := Request(s.requested, GetInt(p, AcquisitionMode), f.axis, value)), answer);
        }
    }
  }

  function AllWritten(c: Config, s: Settings, ws: seq<Write>): (t: Settings)
    requires Consistent(c, s) && RangesOrdered(c)
    requires forall k :: 0 <= k < |ws| && ws[k].IntWrite? ==> WriteAllowed(ws[k].i, ws[k].int_)
    ensures Consistent(c, t)
    ensures FlagsAgree(c, s.params) ==> FlagsAgree(c, t.params)
  {
    if ws == [] then s
    else
      var before := AllWritten(c, s, ws[..|ws| - 1]);
      WriteKeeps(c, before, ws[|ws| - 1]);
      Written(c, before, ws[|ws| - 1])
  }

  /** The pass energy that ends up in the definition is inside the range of the lens mode exactly
      when the chosen one was, or the end of the range it is cut to is an energy on the list. */
  lemma PassEnergyInRange(c: Config, p: Params)
    requires Indexed(c, p) && RangesOrdered(c)
    ensures var lens := c.lensModes[GetInt(p, LensMode)];
            var chosen := c.passEnergies[GetInt(p, PassEnergy)];
            var q := PassEnergyValidated(c, p);
            var used := c.passEnergies[GetInt(q, PassEnergy)];
            && q.passEnergyValue == used
            && (lens.passEnergyLow <= used <= lens.passEnergyHigh <==>
                || lens.passEnergyLow <= chosen <= lens.passEnergyHigh
                || (chosen < lens.passEnergyLow && lens.passEnergyLow in c.passEnergies)
                || (chosen > lens.passEnergyHigh && lens.passEnergyHigh in c.passEnergies))
  {
  }

  // ----- The grid a swept energy range leads to

  function Times(x: real, step: real): real {
    x * step
  }

  lemma TimesOrder(a: real, b: real, step: real)
    requires step > 0.0
    ensures a <= b <==> Times(a, step) <= Times(b, step)
    ensures a < b <==> Times(a, step) < Times(b, step)
  {
  }

  lemma TimesNext(a: real, step: real)
    ensures Times(a - 1.0, step) == Times(a, step) - step
    ensures Times(0.0, step) == 0.0 && Times(1.0, step) == step
  {
  }

  lemma TimesDivide(d: real, step: real)
    requires step != 0.0
    ensures Times(d / step, step) == d
  {
  }

  /** The width of `m` steps. */
  function Steps(m: nat, step: real): real {
    Times(m as real, step)
  }

  /** The last point, count - 1 steps from the first, and the point before it. */
  lemma LastPoints(low: real, step: real, count: int, center: real)
    requires count >= 2
    ensures var points := PeakSpectrum.AxisPoints(PeakSpectrum.Axis(count, low, step, center));
            && points[count - 1] == low + Steps(count - 1, step)
            && points[count - 2] == low + Steps(count - 1, step) - step
  {
    TimesNext((count - 1) as real, step);
  }

  /** The steps of a sweep are as many as are needed to come within epsilon of its high end. */
  lemma StepsReach(d: real, step: real)
    requires step > 0.0
    ensures Times(Ceil(d / step) as real, step) - step < d <= Times(Ceil(d / step) as real, step)
  {
    hide Times;
    var q := d / step;
    var n := Ceil(q) as real;
    TimesDivide(d, step);
    TimesOrder(q, n, step);
    TimesOrder(n - 1.0, q, step);
    TimesNext(n, step);
  }

  /** The count of a sweep: at least one, and one only for a range exactly epsilon wide. */
  lemma CountReaches(low: real, high: real, step: real, epsilon: real)
    requires step > 0.0
    ensures var d := Abs(high - low - epsilon);
            var count := SweepCount(low, high, step, epsilon).value;
            && count >= 1 && (count == 1 <==> d == 0.0)
            && Steps(count - 1, step) - step < d <= Steps(count - 1, step)
  {
    hide Times;
    var d := Abs(high - low - epsilon);
    var n := Ceil(d / step);
    StepsReach(d, step);
    TimesNext(0.0, step);
    TimesOrder(n as real, 0.0, step);
    TimesOrder(n as real, -1.0, step);
    TimesOrder(n as real, 1.0, step);
  }

  /** The points measured for a swept energy range at least epsilon wide: the last one reaches to
      within epsilon of the high end, and the one before it does not. There is a single point only
      if the range is exactly epsilon wide. */
  lemma GridCovers(low: real, high: real, step: real, epsilon: real, center: real)
    requires step > 0.0 && epsilon > 0.0 && high - low >= epsilon
    ensures var count := SweepCount(low, high, step, epsilon).value;
            && count >= 1 && (count == 1 <==> high - low == epsilon)
            && (count >= 2 ==>
                  var points := PeakSpectrum.AxisPoints(PeakSpectrum.Axis(count, low, step, center));
                  points[count - 1] >= high - epsilon && points[count - 2] < high - epsilon)
  {
    CountReaches(low, high, step, epsilon);
    hide Steps, SweepCount;
    var count := SweepCount(low, high, step, epsilon).value;
    if count >= 2 {
      LastPoints(low, step, count, center);
    }
  }

  /** Between a distance less epsilon and one step more there is only one multiple of the step. */
  lemma OnlyMultiple(m: nat, n: nat, step: real, distance: real, epsilon: real)
    requires 0.0 < epsilon < step && distance == Steps(m, step)
    requires Steps(n, step) - step < distance - epsilon <= Steps(n, step)
    ensures m == n
  {
    hide Times;
    TimesNext(n as real, step);
    TimesNext(m as real, step);
    TimesOrder(n as real - 1.0, m as real, step);
    TimesOrder(m as real - 1.0, n as real, step);
  }

  /** The grid ends exactly at the high end exactly when the width of the range is a multiple of the
      step, which must be larger than epsilon. */
  lemma GridEndsAtHigh(low: real, high: real, step: real, epsilon: real, center: real)
    requires 0.0 < epsilon < step && high - low > epsilon
    ensures var count := SweepCount(low, high, step, epsilon).value;
            && count >= 2
            && (PeakSpectrum.AxisPoints(PeakSpectrum.Axis(count, low, step, center))[count - 1] == high <==>
                exists m: nat :: high - low == Steps(m, step))
  {
    CountReaches(low, high, step, epsilon);
    hide Steps, SweepCount;
    var count := SweepCount(low, high, step, epsilon).value;
    LastPoints(low, step, count, center);
    if m: nat :| high - low == Steps(m, step) {
      OnlyMultiple(m, count - 1, step, high - low, epsilon);
    }
  }

  /** A range given the wrong way round is not swept backwards: its grid goes up from the low end,
      at least as far as the high end is below it. */
  lemma WrongOrder(low: real, high: real, step: real, epsilon: real, center: real)
    requires step > 0.0 && epsilon > 0.0 && high < low
    ensures var count := SweepCount(low, high, step, epsilon).value;
            && count >= 2
            && PeakSpectrum.AxisPoints(PeakSpectrum.Axis(count, low, step, center))[count - 1] >= low + (low - high)
  {
    CountReaches(low, high, step, epsilon);
    hide Steps, SweepCount;
    LastPoints(low, step, SweepCount(low, high, step, epsilon).value, center);
  }

  /** A written centre belongs to an axis that is swept in this mode. */
  predicate MovesRange(center: AxisParam, mode: int) {
    (center == CenterEnergy && SweepsEnergy(mode)) || (center == CenterAngleY && SweepsAngle(mode))
  }

  function LowOf(center: AxisParam): AxisParam { if center == CenterEnergy then LowEnergy else LowAngleY }
  function HighOf(center: AxisParam): AxisParam { if center == CenterEnergy then HighEnergy else HighAngleY }

  function Width(requested: map<AxisParam, real>, center: AxisParam): real {
    GetAxis(requested, HighOf(center)) - GetAxis(requested, LowOf(center))
  }

  /** Writing the centre of a swept axis keeps its width exactly when the range is the right way
      round. Then it is, with the new centre in its middle, and nothing else has changed. */
  lemma CenterKeepsWidth(requested: map<AxisParam, real>, mode: int, f: AxisParam, center: real)
    requires MovesRange(f, mode)
    ensures var r := Request(requested, mode, f, center);
            && (Width(r, f) == Width(requested, f) <==> Width(requested, f) >= 0.0) && Width(r, f) >= 0.0
            && GetAxis(r, f) == center == (GetAxis(r, HighOf(f)) + GetAxis(r, LowOf(f))) / 2.0
            && (forall g :: g != f && g != LowOf(f) && g != HighOf(f) ==> GetAxis(r, g) == GetAxis(requested, g))
  {
  }

  /** On an axis that is not swept only the written value changes. */
  lemma OtherWritesKeepRange(requested: map<AxisParam, real>, mode: int, f: AxisParam, value: real)
    requires !MovesRange(f, mode)
    ensures var r := Request(requested, mode, f, value);
            GetAxis(r, f) == value && forall g :: g != f ==> GetAxis(r, g) == GetAxis(requested, g)
  {
  }

  /** In binding mode the analyser is sent kinetic energies, the requested ones shifted; where it
      answers with an energy it was sent, the value read back is the requested one, so the shift
      is undone. */
  lemma ShiftUndone(c: Config, s: Settings, reply: Reply)
    requires Indexed(c, s.params) && IndicesInRange(c, s.params)
    requires !EnergiesRejected(PassEnergyValidated(c, s.params), s.requested)
    ensures var shift := if GetInt(s.params, EnergyMode) == 1
                         then s.params.excitationEnergy - s.params.workFunction else 0.0;
            var low, high := GetAxis(s.requested, LowEnergy), GetAxis(s.requested, HighEnergy);
            var center := GetAxis(s.requested, CenterEnergy);
            var t := SetUp(c, s, Some(reply));
            var sent := t.definition.value;
            && (sent.sweepX.Some? ==>
                  && sent.sweepX.value.offset == shift + low
                  && sent.sweepX.value.count == SweepCount(low, high, sent.sweepX.value.delta, c.epsilon))
            && (sent.fixedX.Some? ==> sent.fixedX.value.center == shift + center)
            && (reply.x.offset == shift + low ==> GetAxis(t.params.axes, LowEnergy) == low)
            && (reply.x.lastOffset == shift + high ==> GetAxis(t.params.axes, HighEnergy) == high)
            && (reply.x.center == shift + center ==> GetAxis(t.params.axes, CenterEnergy) == center)
  {
    hide PassEnergyValidated, DefinitionOf, WithRegion, EnergiesRejected, SweepCount, GetAxis;
    var p := PassEnergyValidated(c, s.params);
    SentShifted(c, p, s.requested);
    ReadBackShifted(p, reply);
  }

  lemma SentShifted(c: Config, p: Params, requested: map<AxisParam, real>)
    requires Indexed(c, p)
    ensures var d := DefinitionOf(c, p, requested);
            var low, high := GetAxis(requested, LowEnergy), GetAxis(requested, HighEnergy);
            && (d.sweepX.Some? ==>
                  && d.sweepX.value.offset == Shift(p) + low
                  && d.sweepX.value.count == SweepCount(low, high, d.sweepX.value.delta, c.epsilon))
            && (d.fixedX.Some? ==> d.fixedX.value.center == Shift(p) + GetAxis(requested, CenterEnergy))
  {
    ShiftedCount(c, p, requested);
    hide SweepCount, GetAxis, AngleSweep, AreaOf, Binning, Shift;
  }

  lemma ReadBackShifted(p: Params, reply: Reply)
    ensures var axes := WithRegion(p, reply).axes;
            && GetAxis(axes, LowEnergy) == reply.x.offset - Shift(p)
            && GetAxis(axes, HighEnergy) == reply.x.lastOffset - Shift(p)
            && GetAxis(axes, CenterEnergy) == reply.x.center - Shift(p)
  {
    hide Shift;
  }

  /** The number of points does not depend on the shift. */
  lemma ShiftedCount(c: Config, p: Params, requested: map<AxisParam, real>)
    ensures var low, high := GetAxis(requested, LowEnergy), GetAxis(requested, HighEnergy);
            var step := GetAxis(requested, EnergyStep);
            SweepCount(Shift(p) + low, Shift(p) + high, step, c.epsilon) == SweepCount(low, high, step, c.epsilon)
  {
    SameWidth(GetAxis(requested, LowEnergy), GetAxis(requested, HighEnergy),
              Shift(p) + GetAxis(requested, LowEnergy), Shift(p) + GetAxis(requested, HighEnergy),
              GetAxis(requested, EnergyStep), c.epsilon);
  }

  /** The number of points depends on the ends of a range only by their distance. */
  lemma SameWidth(low: real, high: real, low': real, high': real, step: real, epsilon: real)
    requires high - low == high' - low'
    ensures SweepCount(low, high, step, epsilon) == SweepCount(low', high', step, epsilon)
  {
    assert high - low - epsilon == high' - low' - epsilon;
  }

  // ----- The object

  class Driver {
    const config: Config
    var params: Params
    var requested: map<AxisParam, real>
    var definition: Option<Definition>

    ghost function Now(): Settings
      reads this
    {
      Settings(params, requested, definition)
    }

    constructor (config: Config, params: Params)
      ensures this.config == config && Now() == Settings(params, map[], None)
    {
      this.config, this.params, requested, definition := config, params, map[], None;
    }

    /** `setPassEnergy`, with the search of `std::find`. */
    method SetPassEnergy(energy: real)
      modifies this`params
      ensures params == WithPassEnergy(config, old(params), energy)
    {
      var i: nat := 0;
      assert config.passEnergies[0..] == config.passEnergies;
      while i < |config.passEnergies| && config.passEnergies[i] != energy
        invariant i <= |config.passEnergies|
        invariant forall k :: 0 <= k < i ==> config.passEnergies[k] != energy
      {
        i := i + 1;
      }
      FirstIndex(config.passEnergies, energy, i);
      if i < |config.passEnergies| {
        params := SetInt(params, PassEnergy, i);
        params := params.(passEnergyValue := energy);
      }
    }

    /** `setRegion`. */
    method SetRegion(r: Reply)
      modifies this`params
      ensures params == WithRegion(old(params), r)
    {
      var low, high, center := r.x.offset, r.x.lastOffset, r.x.center;
      if GetInt(params, EnergyMode) == 1 {
        high := high + params.workFunction - params.excitationEnergy;
        low := low + params.workFunction - params.excitationEnergy;
        center := center + params.workFunction - params.excitationEnergy;
      }
      var axes := map[LowEnergy := low, EnergyStep := r.x.delta, HighEnergy := high, CenterEnergy := center,
                      CenterSlice := r.y.center];
      var angleYCount := 0;
      if r.z.Some? {
        axes := axes[LowAngleY := r.z.value.offset][AngleYStep := r.z.value.delta]
                    [HighAngleY := r.z.value.lastOffset][CenterAngleY := r.z.value.center];
        angleYCount := r.z.value.count;
      } else {
        axes := axes[LowAngleY := 0.0][AngleYStep := 0.0][HighAngleY := 0.0][CenterAngleY := 0.0];
      }
      var mode, numSteps := GetInt(params, AcquisitionMode), 1;
      if SweepsEnergy(mode) && r.acquiredX.Some? { numSteps := numSteps * r.acquiredX.value; }
      if SweepsAngle(mode) && r.acquiredZ.Some? { numSteps := numSteps * r.acquiredZ.value; }
      assert axes == WithRegion(params, r).axes;
      params := params.(axes := axes, slices := Slices(r.y.offset, r.y.delta, r.y.lastOffset, r.y.count),
                        energyCount := r.x.count, angleYCount := angleYCount, numSteps := numSteps, stepsCounter := 0);
    }

    /** `setupSpectrumDefinition`. */
    method SetupSpectrumDefinition(answer: Option<Reply>)
      requires Indexed(config, params) || !IndicesInRange(config, params)
      modifies this
      ensures Now() == SetUp(config, old(Now()), answer)
    {
      hide DefinitionOf, WithRegion, WithPassEnergy;
      if !IndicesInRange(config, params) {
        return;
      }
      var lens := config.lensModes[GetInt(params, LensMode)];
      SetPassEnergy(Clamp(config.passEnergies[GetInt(params, PassEnergy)], lens.passEnergyLow, lens.passEnergyHigh));
      PassEnergyStaysIndexed(config, old(params));
      params := params.(passEnergyValue := config.passEnergies[GetInt(params, PassEnergy)]);
      if EnergiesRejected(params, requested) {
        return;
      }
      definition := Some(DefinitionOf(config, params, requested));
      if answer.Some? {
        SetRegion(answer.value);
      }
    }

    /** `setROI`. */
    method SetROI()
      modifies this`params
      ensures params == WithRoi(config, old(params))
    {
      var minX, minY := GetInt(params, MinX), GetInt(params, MinY);
      var sizeX, sizeY := GetInt(params, SizeX), GetInt(params, SizeY);
      if minX + sizeX > config.maxSizeX {
        params := SetInt(params, SizeX, config.maxSizeX - minX);
      }
      if minY + sizeY > config.maxSizeY {
        params := SetInt(params, SizeY, config.maxSizeY - minY);
      }
    }

    /** `writeInt32`, for the parameters above. */
    method WriteInt32(f: IntParam, value: int, answer: Option<Reply>)
      requires Indexed(config, params) && WriteAllowed(f, value)
      modifies this
      ensures Now() == WriteInt(config, old(Now()), f, value, answer)
    {
      hide SetUp;
      var oldValue := GetInt(params, f);
      forall a, b {
        SetTwice(params, f, a, b);
      }
      ghost var (p, setUp) := Accept(config, params, f, value);
      var goesOn := true;
      params := SetInt(params, f, value);
      match f {
        case AcquisitionMode =>
          if SweepsAngle(value) && !config.lensModes[GetInt(params, LensMode)].hasYDeflection {
            params := SetInt(params, f, oldValue);
            goesOn := false;
          }
        case DetectorChannels =>
          var sizeX, mode := GetInt(params, SizeX), GetInt(params, AcquisitionMode);
          if value > sizeX {
            params := SetInt(params, f, sizeX);
          } else if value <= 0 {
            params := SetInt(params, f, 1);
          }
          goesOn := !SweepsEnergy(mode) || !SweepsAngle(mode);
        case DetectorSlices =>
          var sizeY := GetInt(params, SizeY);
          if value > sizeY {
            params := SetInt(params, f, sizeY);
          } else if value <= 0 {
            params := SetInt(params, f, 1);
          }
        case LensMode =>
          if value >= |config.lensModes| ||
             (SweepsAngle(GetInt(params, AcquisitionMode)) && !config.lensModes[value].hasYDeflection) {
            params := SetInt(params, f, oldValue);
            goesOn := false;
          } else {
            params := params.(withSlice := config.lensModes[value].hasXDeflection);
            params := params.(withAngleY := config.lensModes[value].hasYDeflection);
          }
        case PassEnergy =>
          if value >= |config.passEnergies| {
            params := SetInt(params, f, oldValue);
            goesOn := false;
          }
        case ElementSet => goesOn := false;
        case DetectorMode => goesOn := false;
        case EnergyMode =>
        case _ => SetROI();
      }
      assert (params, goesOn) == (p, setUp);
      if goesOn {
        SetupSpectrumDefinition(answer);
      }
    }

    /** What `writeFloat64` does to the requested axes. */
    method UpdateRequested(mode: int, a: AxisParam, value: real)
      modifies this`requested
      ensures requested == Request(old(requested), mode, a, value)
    {
      requested := requested[a := value];
      if a == CenterEnergy && SweepsEnergy(mode) {
        var width := Abs(GetAxis(requested, HighEnergy) - GetAxis(requested, LowEnergy));
        requested := requested[LowEnergy := value - width / 2.0];
        requested := requested[HighEnergy := value + width / 2.0];
      } else if a == CenterAngleY && SweepsAngle(mode) {
        var width := Abs(GetAxis(requested, HighAngleY) - GetAxis(requested, LowAngleY));
        requested := requested[LowAngleY := value - width / 2.0];
        requested := requested[HighAngleY := value + width / 2.0];
      }
    }

    /** `writeFloat64`, for the parameters above. */
    method WriteFloat64(f: FloatParam, value: real, answer: Option<Reply>)
      requires Indexed(config, params)
      modifies this
      ensures Now() == WriteFloat(config, old(Now()), f, value, answer)
    {
      hide SetUp, Request;
      var before := params;
      params := SetFloat(params, f, value);
      var mode := GetInt(params, AcquisitionMode);
      match f {
        case Axis(a) =>
          UpdateRequested(mode, a, value);
          if OnlySwept(a, mode) {
            params := SetFloat(params, f, GetAxis(before.axes, a));
          } else {
            SetupSpectrumDefinition(answer);
          }
        case AcquireTime | FocalX | FocalY | FocalZ => SetupSpectrumDefinition(answer);
        case ExcitationEnergy | WorkFunction =>
          if GetInt(params, EnergyMode) == 1 {
            SetupSpectrumDefinition(answer);
          }
      }
    }
  }

  lemma SetTwice(p: Params, f: IntParam, a: int, b: int)
    ensures SetInt(SetInt(p, f, a), f, b) == SetInt(p, f, b)
  {
    assert p.ints[f := a][f := b] == p.ints[f := b];
  }

  lemma {:induction false} FirstIndex(s: seq<real>, v: real, i: nat)
    requires i <= |s| && (forall k :: 0 <= k < i ==> s[k] != v) && (i < |s| ==> s[i] == v)
    ensures IndexOf(s, v) == if i < |s| then Some(i) else None
    decreases i
  {
    if i > 0 {
      FirstIndex(s[1..], v, i - 1);
    }
  }

  lemma PassEnergyStaysIndexed(c: Config, p: Params)
    requires Indexed(c, p)
    ensures forall energy :: Indexed(c, WithPassEnergy(c, p, energy))
  {
  }

  /** A run of writes to the object keeps the modes in agreement and the definition sound. */
  method WriteAll(driver: Driver, ws: seq<Write>)
    requires Consistent(driver.config, driver.Now()) && RangesOrdered(driver.config)
    requires forall k :: 0 <= k < |ws| && ws[k].IntWrite? ==> WriteAllowed(ws[k].i, ws[k].int_)
    modifies driver
    ensures driver.Now() == AllWritten(driver.config, old(driver.Now()), ws)
    ensures Consistent(driver.config, driver.Now())
  {
    hide WriteInt, WriteFloat, Consistent, WriteAllowed, RangesOrdered;
    ghost var start := driver.Now();
    assert ws[..0] == [];
    for k := 0 to |ws|
      invariant driver.Now() == AllWritten(driver.config, start, ws[..k])
      invariant Consistent(driver.config, driver.Now())
    {
      ConsistentIsIndexed(driver.config, driver.Now());
      assert ws[..k + 1][..k] == ws[..k];
      match ws[k] {
        case IntWrite(i, value, answer) => driver.WriteInt32(i, value, answer);
        case FloatWrite(f, value, answer) => driver.WriteFloat64(f, value, answer);
      }
    }
    assert ws[..|ws|] == ws;
  }

  lemma ConsistentIsIndexed(c: Config, s: Settings)
    requires Consistent(c, s)
    ensures Indexed(c, s.params)
  {
  }
}
