/** What a parameter write leads to, written out value by value: the parameters and requested axes
    behind it, when a definition is sent to the analyser, what that definition says, and what is
    read back. Nothing here goes through the functions that make the definition. */
module SettingsSent {
  import opened Wrappers
  import opened SpectrumSettings

  // ----- What a definition says

  function ShiftOf(p: Params): real {
    if GetInt(p, EnergyMode) == 1 then p.excitationEnergy - p.workFunction else 0.0
  }

  /** The number of points that reach from low to high less epsilon; none for a step of 0. */
  predicate CountFits(count: Option<int>, low: real, high: real, step: real, epsilon: real) {
    var width := if high - low - epsilon < 0.0 then low + epsilon - high else high - low - epsilon;
    if step == 0.0 then count == None
    else count.Some? && count.value as real - 2.0 < width / step <= count.value as real - 1.0
  }

  predicate SweepIs(sweep: Option<Sweep>, low: real, high: real, step: real, epsilon: real) {
    sweep.Some? && sweep.value.offset == low && sweep.value.delta == step &&
    CountFits(sweep.value.count, low, high, step, epsilon)
  }

  predicate RatioIs(ratio: Option<real>, size: int, parts: int) {
    ratio == if parts == 0 then None else Some(size as real / parts as real)
  }

  predicate EnergiesDescribed(c: Config, p: Params, requested: map<AxisParam, real>, d: Definition) {
    var shift := ShiftOf(p);
    if GetInt(p, AcquisitionMode) % 2 == 1 then
      && d.fixedX == None
      && SweepIs(d.sweepX, shift + GetAxis(requested, LowEnergy), shift + GetAxis(requested, HighEnergy),
                 GetAxis(requested, EnergyStep), c.epsilon)
    else
      && d.sweepX == None && d.fixedX.Some? && d.fixedX.value.center == shift + GetAxis(requested, CenterEnergy)
      && RatioIs(d.fixedX.value.binning, GetInt(p, SizeX), GetInt(p, DetectorChannels))
  }

  /** An angle within the range of the lens mode, if it has one. */
  function WithinLens(lens: LensModeSetting, angle: real): real {
    if !lens.hasYDeflection || lens.yLow <= angle <= lens.yHigh then angle
    else if angle < lens.yLow then lens.yLow else lens.yHigh
  }

  predicate AnglesDescribed(c: Config, p: Params, requested: map<AxisParam, real>, d: Definition)
    requires Indexed(c, p)
  {
    var lens := c.lensModes[GetInt(p, LensMode)];
    if GetInt(p, AcquisitionMode) / 2 % 2 == 1 then
      && d.fixedZ == None
      && SweepIs(d.sweepZ, WithinLens(lens, GetAxis(requested, LowAngleY)),
                 WithinLens(lens, GetAxis(requested, HighAngleY)), GetAxis(requested, AngleYStep), c.epsilon)
    else
      d.sweepZ == None && d.fixedZ == Some(WithinLens(lens, GetAxis(requested, CenterAngleY)))
  }

  /** The region in units of length, counted from the centre. */
  predicate AreaDescribed(c: Config, p: Params, area: Option<Area>) {
    var lowX, lowY := GetInt(p, MinX) as real - c.centerX - 1.0, GetInt(p, MinY) as real - c.centerY;
    if c.pixelDensity == 0.0 then area == None
    else
      && area.Some?
      && area.value.lowX == lowX / c.pixelDensity && area.value.lowY == lowY / c.pixelDensity
      && area.value.highX == (lowX + GetInt(p, SizeX) as real) / c.pixelDensity
      && area.value.highY == (lowY + GetInt(p, SizeY) as real) / c.pixelDensity
  }

  /** The definition says what the parameters and the requested axes say. */
  predicate Describes(c: Config, p: Params, requested: map<AxisParam, real>, d: Definition)
    requires Indexed(c, p)
  {
    && d.elementSet == GetInt(p, ElementSet) && d.lensMode == GetInt(p, LensMode)
    && d.detectorMode == GetInt(p, DetectorMode) && d.passEnergy == c.passEnergies[GetInt(p, PassEnergy)]
    && d.dwellTime == p.acquireTime && d.position == p.focal
    && EnergiesDescribed(c, p, requested, d)
    && d.fixedY.center == GetAxis(requested, CenterSlice)
    && RatioIs(d.fixedY.binning, GetInt(p, SizeY), GetInt(p, DetectorSlices))
    && AnglesDescribed(c, p, requested, d)
    && AreaDescribed(c, p, d.area)
  }

  lemma CountIsSent(low: real, high: real, step: real, epsilon: real)
    ensures CountFits(SweepCount(low, high, step, epsilon), low, high, step, epsilon)
  {
  }

  lemma DefinitionDescribes(c: Config, p: Params, requested: map<AxisParam, real>)
    requires Indexed(c, p)
    ensures Describes(c, p, requested, DefinitionOf(c, p, requested))
  {
    hide SweepCount, CountFits, GetAxis, GetInt;
    var shift := Shift(p);
    CountIsSent(shift + GetAxis(requested, LowEnergy), shift + GetAxis(requested, HighEnergy),
                GetAxis(requested, EnergyStep), c.epsilon);
    var lens := c.lensModes[GetInt(p, LensMode)];
    CountIsSent(Bounded(lens, GetAxis(requested, LowAngleY)), Bounded(lens, GetAxis(requested, HighAngleY)),
                GetAxis(requested, AngleYStep), c.epsilon);
  }

  // ----- What setting up does

  /** Every index is on its list. */
  predicate Complete(c: Config, p: Params) {
    && GetInt(p, ElementSet) < c.elementSets && GetInt(p, LensMode) < |c.lensModes|
    && GetInt(p, PassEnergy) < |c.passEnergies| && GetInt(p, DetectorMode) < c.detectorModes
  }

  /** No swept energy is at or below zero. */
  predicate Positive(p: Params, requested: map<AxisParam, real>) {
    GetInt(p, AcquisitionMode) % 2 == 1 ==>
      && ShiftOf(p) + GetAxis(requested, CenterEnergy) > 0.0
      && ShiftOf(p) + GetAxis(requested, LowEnergy) > 0.0
      && ShiftOf(p) + GetAxis(requested, HighEnergy) > 0.0
  }

  /** The pass energy that is wanted: the chosen one, within the range of the lens mode. */
  function WithinPass(lens: LensModeSetting, energy: real): real {
    if energy < lens.passEnergyLow then lens.passEnergyLow
    else if energy > lens.passEnergyHigh then lens.passEnergyHigh else energy
  }

  /** The pass energy that is used: the first one that is the wanted one, or else the chosen one. */
  predicate PassEnergyUsed(c: Config, p: Params, q: Params)
    requires Indexed(c, p)
  {
    var wanted := WithinPass(c.lensModes[GetInt(p, LensMode)], c.passEnergies[GetInt(p, PassEnergy)]);
    var i := GetInt(q, PassEnergy);
    && 0 <= i < |c.passEnergies| && q.passEnergyValue == c.passEnergies[i]
    && if wanted in c.passEnergies
       then c.passEnergies[i] == wanted && forall k :: 0 <= k < i ==> c.passEnergies[k] != wanted
       else i == GetInt(p, PassEnergy)
  }

  /** Nothing but the readings and the pass energy is touched. */
  predicate OnlyReadings(p: Params, q: Params) {
    && (forall g :: g != PassEnergy ==> GetInt(q, g) == GetInt(p, g))
    && q.excitationEnergy == p.excitationEnergy && q.workFunction == p.workFunction
    && q.acquireTime == p.acquireTime && q.focal == p.focal
    && q.withSlice == p.withSlice && q.withAngleY == p.withAngleY
  }

  predicate SameReadings(p: Params, q: Params) {
    && q.axes == p.axes && q.slices == p.slices && q.energyCount == p.energyCount && q.angleYCount == p.angleYCount
    && q.numSteps == p.numSteps && q.stepsCounter == p.stepsCounter
  }

  /** The readings are those of the reply, energies shifted back; an axis it does not have is 0. */
  predicate ReadBack(p: Params, r: Reply) {
    && GetAxis(p.axes, LowEnergy) == r.x.offset - ShiftOf(p) && GetAxis(p.axes, EnergyStep) == r.x.delta
    && GetAxis(p.axes, HighEnergy) == r.x.lastOffset - ShiftOf(p)
    && GetAxis(p.axes, CenterEnergy) == r.x.center - ShiftOf(p)
    && p.energyCount == r.x.count
    && GetAxis(p.axes, CenterSlice) == r.y.center
    && p.slices.low == r.y.offset && p.slices.step == r.y.delta && p.slices.high == r.y.lastOffset
    && p.slices.count == r.y.count
    && AngleReadBack(p, r.z)
    && p.stepsCounter == 0 && p.numSteps == StepsOf(GetInt(p, AcquisitionMode), r)
  }

  predicate AngleReadBack(p: Params, z: Option<AxisReply>) {
    match z
    case Some(z) =>
      && GetAxis(p.axes, LowAngleY) == z.offset && GetAxis(p.axes, AngleYStep) == z.delta
      && GetAxis(p.axes, HighAngleY) == z.lastOffset && GetAxis(p.axes, CenterAngleY) == z.center
      && p.angleYCount == z.count
    case None =>
      && GetAxis(p.axes, LowAngleY) == GetAxis(p.axes, AngleYStep) == 0.0
      && GetAxis(p.axes, HighAngleY) == GetAxis(p.axes, CenterAngleY) == 0.0
      && p.angleYCount == 0
  }

  /** The steps of a sweep: the points of the axes that are swept and reported, multiplied. */
  function StepsOf(mode: int, r: Reply): int {
    if mode % 4 == 3 && r.acquiredX.Some? && r.acquiredZ.Some? then r.acquiredX.value * r.acquiredZ.value
    else if mode % 2 == 1 && r.acquiredX.Some? then r.acquiredX.value
    else if mode / 2 % 2 == 1 && r.acquiredZ.Some? then r.acquiredZ.value
    else 1
  }

  lemma PassEnergyIsUsed(c: Config, p: Params)
    requires Indexed(c, p)
    ensures var q := PassEnergyValidated(c, p);
            PassEnergyUsed(c, p, q) && OnlyReadings(p, q) && SameReadings(p, q) && Indexed(c, q)
  {
  }

  lemma RegionIsReadBack(p: Params, r: Reply)
    ensures var q := WithRegion(p, r);
            && ReadBack(q, r) && OnlyReadings(p, q)
            && GetInt(q, PassEnergy) == GetInt(p, PassEnergy) && q.passEnergyValue == p.passEnergyValue
  {
  }

  /** A definition is tried to be sent, with these parameters. */
  predicate TriedWith(c: Config, s: Settings, t: Settings, answer: Option<Reply>)
    requires Indexed(c, s.params)
  {
    && t.requested == s.requested && OnlyReadings(s.params, t.params) && Indexed(c, t.params)
    && (if Complete(c, s.params) then PassEnergyUsed(c, s.params, t.params) else t.params == s.params)
    && if Complete(c, s.params) && Positive(s.params, s.requested) then
         && t.definition.Some? && Describes(c, t.params, t.requested, t.definition.value)
         && (if answer.Some? then ReadBack(t.params, answer.value) else SameReadings(s.params, t.params))
       else
         t.definition == s.definition && SameReadings(s.params, t.params)
  }

  lemma SetUpTries(c: Config, s: Settings, answer: Option<Reply>)
    requires Indexed(c, s.params)
    ensures TriedWith(c, s, SetUp(c, s, answer), answer)
  {
    hide PassEnergyValidated, DefinitionOf, WithRegion, Describes, PassEnergyUsed, ReadBack;
    var p := PassEnergyValidated(c, s.params);
    PassEnergyIsUsed(c, s.params);
    if Complete(c, s.params) && Positive(s.params, s.requested) {
      DefinitionDescribes(c, p, s.requested);
      if answer.Some? {
        var q := WithRegion(p, answer.value);
        RegionIsReadBack(p, answer.value);
        SameDescription(c, p, q, s.requested, DefinitionOf(c, p, s.requested));
        SameUse(c, s.params, p, q);
      }
    }
  }

  lemma SameDescription(c: Config, p: Params, q: Params, requested: map<AxisParam, real>, d: Definition)
    requires Indexed(c, p) && OnlyReadings(p, q) && GetInt(q, PassEnergy) == GetInt(p, PassEnergy)
    ensures Indexed(c, q) && (Describes(c, p, requested, d) ==> Describes(c, q, requested, d))
  {
    hide SweepIs, GetAxis, GetInt;
  }

  lemma SameUse(c: Config, p: Params, q: Params, r: Params)
    requires Indexed(c, p) && PassEnergyUsed(c, p, q)
    requires GetInt(r, PassEnergy) == GetInt(q, PassEnergy) && r.passEnergyValue == q.passEnergyValue
    ensures PassEnergyUsed(c, p, r)
  {
  }

  // ----- Integer writes

  /** A mode or an index that fits: the lens mode has ThetaY if it is swept, and indices are on their
      lists. */
  predicate Fits(c: Config, p: Params, f: IntParam, value: int)
    requires Indexed(c, p) && WriteAllowed(f, value)
  {
    match f
    case AcquisitionMode => value / 2 % 2 == 1 ==> c.lensModes[GetInt(p, LensMode)].hasYDeflection
    case LensMode =>
      value < |c.lensModes| && (GetInt(p, AcquisitionMode) / 2 % 2 == 1 ==> c.lensModes[value].hasYDeflection)
    case PassEnergy => value < |c.passEnergies|
    case _ => true
  }

  /** Which integer writes try to send a definition. */
  predicate TriesInt(c: Config, p: Params, f: IntParam, value: int)
    requires Indexed(c, p) && WriteAllowed(f, value)
  {
    match f
    case ElementSet => false
    case DetectorMode => false
    case DetectorChannels => GetInt(p, AcquisitionMode) % 4 != 3
    case _ => Fits(c, p, f, value)
  }

  /** The part of a size that is inside the detector. */
  function Cut(start: int, size: int, max: int): int {
    if start + size <= max then size else max - start
  }

  function Parts(value: int, size: int): int {
    if value > size then size else if value < 1 then 1 else value
  }

  /** Each integer parameter behind the write. */
  function NewInt(c: Config, p: Params, f: IntParam, value: int, g: IntParam): int
    requires Indexed(c, p) && WriteAllowed(f, value)
  {
    var old_, new_ := GetInt(p, g), if g == f then value else GetInt(p, g);
    match f
    case DetectorChannels => if g == f then Parts(value, GetInt(p, SizeX)) else old_
    case DetectorSlices => if g == f then Parts(value, GetInt(p, SizeY)) else old_
    case MinX => if g == SizeX then Cut(value, old_, c.maxSizeX) else CutSlices(c, p, g, new_)
    case SizeX => if g == SizeX then Cut(GetInt(p, MinX), value, c.maxSizeX) else CutSlices(c, p, g, new_)
    case MinY => if g == SizeY then Cut(value, old_, c.maxSizeY) else CutChannels(c, p, g, new_)
    case SizeY => if g == SizeY then Cut(GetInt(p, MinY), value, c.maxSizeY) else CutChannels(c, p, g, new_)
    case _ => if Fits(c, p, f, value) then new_ else old_
  }

  /** A write to one direction of the region cuts the other one as well. */
  function CutSlices(c: Config, p: Params, g: IntParam, value: int): int {
    if g == SizeY then Cut(GetInt(p, MinY), value, c.maxSizeY) else value
  }

  function CutChannels(c: Config, p: Params, g: IntParam, value: int): int {
    if g == SizeX then Cut(GetInt(p, MinX), value, c.maxSizeX) else value
  }

  /** The parameters behind an integer write, before anything is sent. */
  predicate IntTaken(c: Config, p: Params, f: IntParam, value: int, q: Params)
    requires Indexed(c, p) && WriteAllowed(f, value)
  {
    && Indexed(c, q) && (forall g :: GetInt(q, g) == NewInt(c, p, f, value, g))
    && q.excitationEnergy == p.excitationEnergy && q.workFunction == p.workFunction
    && q.acquireTime == p.acquireTime && q.focal == p.focal && q.passEnergyValue == p.passEnergyValue
    && SameReadings(p, q)
    && if f == LensMode && Fits(c, p, f, value)
       then q.withSlice == c.lensModes[value].hasXDeflection && q.withAngleY == c.lensModes[value].hasYDeflection
       else q.withSlice == p.withSlice && q.withAngleY == p.withAngleY
  }

  lemma TableLaw(p: Params, f: IntParam, value: int, g: IntParam)
    ensures GetInt(SetInt(p, f, value), g) == if g == f then value else GetInt(p, g)
    ensures GetInt(p, g) == if g in p.ints then p.ints[g] else 0
  {
  }

  /** An axis that has never been written is 0. */
  lemma AxisLaw(m: map<AxisParam, real>, f: AxisParam, value: real, g: AxisParam)
    ensures GetAxis(map[], g) == 0.0
    ensures GetAxis(m[f := value], g) == if g == f then value else GetAxis(m, g)
  {
  }

  /** `setPassEnergy` on its own: the first index of an energy on the list, with its value. */
  lemma PassEnergyIsSet(c: Config, p: Params, energy: real)
    ensures var q := WithPassEnergy(c, p, energy);
            var i := GetInt(q, PassEnergy);
            && (energy !in c.passEnergies ==> q == p)
            && (energy in c.passEnergies ==>
                  && 0 <= i < |c.passEnergies| && c.passEnergies[i] == energy == q.passEnergyValue
                  && (forall k :: 0 <= k < i ==> c.passEnergies[k] != energy)
                  && OnlyReadings(p, q) && SameReadings(p, q))
  {
  }

  lemma RoiCut(c: Config, p: Params, g: IntParam)
    ensures var q := WithRoi(c, p);
            && GetInt(q, g) == (if g == SizeX then Cut(GetInt(p, MinX), GetInt(p, SizeX), c.maxSizeX)
                                else if g == SizeY then Cut(GetInt(p, MinY), GetInt(p, SizeY), c.maxSizeY)
                                else GetInt(p, g))
            && q == p.(ints := q.ints)
  {
  }

  predicate InRegion(f: IntParam) {
    f == MinX || f == MinY || f == SizeX || f == SizeY
  }

  lemma RegionSets(c: Config, p: Params, f: IntParam, value: int, g: IntParam)
    requires Indexed(c, p) && InRegion(f)
    ensures GetInt(Accept(c, p, f, value).0, g) == NewInt(c, p, f, value, g)
  {
    hide WithRoi, Cut, GetInt, SetInt;
    RoiCut(c, SetInt(p, f, value), g);
    TableLaw(p, f, value, g);
    TableLaw(p, f, value, MinX);
    TableLaw(p, f, value, MinY);
    TableLaw(p, f, value, SizeX);
    TableLaw(p, f, value, SizeY);
  }

  lemma ModeBits(mode: int)
    ensures SweepsEnergy(mode) <==> mode % 2 == 1
    ensures SweepsAngle(mode) <==> mode / 2 % 2 == 1
    ensures SweepsEnergy(mode) && SweepsAngle(mode) <==> mode % 4 == 3
  {
  }

  lemma AcceptSets(c: Config, p: Params, f: IntParam, value: int, g: IntParam)
    requires Indexed(c, p) && WriteAllowed(f, value) && !InRegion(f)
    ensures GetInt(Accept(c, p, f, value).0, g) == NewInt(c, p, f, value, g)
  {
    hide WithRoi, Cut, SweepsEnergy, SweepsAngle, SetInt;
    ModeBits(value);
    ModeBits(GetInt(p, AcquisitionMode));
    TableLaw(p, f, value, g);
    TableLaw(p, f, GetInt(p, f), g);
    TableLaw(p, f, DetectorSize(value, GetInt(p, SizeX)), g);
    TableLaw(p, f, DetectorSize(value, GetInt(p, SizeY)), g);
  }

  lemma AcceptLeaves(c: Config, p: Params, f: IntParam, value: int)
    requires Indexed(c, p) && WriteAllowed(f, value)
    ensures var q := Accept(c, p, f, value).0;
            q == p.(ints := q.ints, withSlice := q.withSlice, withAngleY := q.withAngleY)
    ensures var q := Accept(c, p, f, value).0;
            if f == LensMode && Fits(c, p, f, value)
            then q.withSlice == c.lensModes[value].hasXDeflection && q.withAngleY == c.lensModes[value].hasYDeflection
            else q.withSlice == p.withSlice && q.withAngleY == p.withAngleY
  {
    hide WithRoi, GetInt;
    RoiCut(c, SetInt(p, f, value), f);
  }

  lemma AcceptTries(c: Config, p: Params, f: IntParam, value: int)
    requires Indexed(c, p) && WriteAllowed(f, value)
    ensures Accept(c, p, f, value).1 <==> TriesInt(c, p, f, value)
  {
    hide WithRoi, GetInt, SetInt, SweepsEnergy, SweepsAngle;
    ModeBits(value);
    ModeBits(GetInt(p, AcquisitionMode));
  }

  lemma AcceptTakes(c: Config, p: Params, f: IntParam, value: int)
    requires Indexed(c, p) && WriteAllowed(f, value)
    ensures var (q, tries) := Accept(c, p, f, value);
            IntTaken(c, p, f, value, q) && (tries <==> TriesInt(c, p, f, value))
  {
    hide Accept, NewInt, TriesInt, Fits, GetInt;
    forall g
      ensures GetInt(Accept(c, p, f, value).0, g) == NewInt(c, p, f, value, g)
    {
      if InRegion(f) { RegionSets(c, p, f, value, g); } else { AcceptSets(c, p, f, value, g); }
    }
    AcceptLeaves(c, p, f, value);
    AcceptTries(c, p, f, value);
  }

  /** An integer write: the parameters take the value as above, and if it is one that tries to, the
      definition of these parameters is sent. */
  lemma IntWritten(c: Config, s: Settings, f: IntParam, value: int, answer: Option<Reply>)
    requires Indexed(c, s.params) && WriteAllowed(f, value)
    ensures var t := Written(c, s, IntWrite(f, value, answer));
            exists q :: IntTaken(c, s.params, f, value, q) &&
              if TriesInt(c, s.params, f, value) then TriedWith(c, s.(params := q), t, answer)
              else t == s.(params := q)
  {
    hide Accept, IntTaken, TriesInt, TriedWith, SetUp;
    AcceptTakes(c, s.params, f, value);
    var q := Accept(c, s.params, f, value).0;
    SetUpTries(c, s.(params := q), answer);
    assert IntTaken(c, s.params, f, value, q);
  }

  // ----- Float writes

  predicate TriesFloat(p: Params, f: FloatParam) {
    var mode := GetInt(p, AcquisitionMode);
    match f
    case Axis(a) =>
      if a == LowEnergy || a == HighEnergy || a == EnergyStep then mode % 2 == 1
      else if a == LowAngleY || a == HighAngleY || a == AngleYStep then mode / 2 % 2 == 1
      else true
    case ExcitationEnergy => GetInt(p, EnergyMode) == 1
    case WorkFunction => GetInt(p, EnergyMode) == 1
    case _ => true
  }

  /** The parameters behind a float write, before anything is sent: the end or the step of an axis
      that is not swept keeps its reading. */
  predicate FloatTaken(p: Params, f: FloatParam, value: real, q: Params) {
    && (forall g :: GetInt(q, g) == GetInt(p, g))
    && q.excitationEnergy == (if f == ExcitationEnergy then value else p.excitationEnergy)
    && q.workFunction == (if f == WorkFunction then value else p.workFunction)
    && q.acquireTime == (if f == AcquireTime then value else p.acquireTime)
    && q.focal.x == (if f == FocalX then value else p.focal.x)
    && q.focal.y == (if f == FocalY then value else p.focal.y)
    && q.focal.z == (if f == FocalZ then value else p.focal.z)
    && (forall a :: GetAxis(q.axes, a) == if f == Axis(a) && TriesFloat(p, f) then value else GetAxis(p.axes, a))
    && q.passEnergyValue == p.passEnergyValue && q.withSlice == p.withSlice && q.withAngleY == p.withAngleY
    && q.slices == p.slices && q.energyCount == p.energyCount && q.angleYCount == p.angleYCount
    && q.numSteps == p.numSteps && q.stepsCounter == p.stepsCounter
  }

  /** The axes that are requested behind a float write: a centre moves both ends of a swept axis to
      half its width on either side, and nothing else is moved. */
  predicate AxisTaken(p: Params, before: map<AxisParam, real>, f: FloatParam, value: real,
                      after: map<AxisParam, real>) {
    var mode := GetInt(p, AcquisitionMode);
    if f == Axis(CenterEnergy) && mode % 2 == 1 then
      && GetAxis(after, LowEnergy) + GetAxis(after, HighEnergy) == 2.0 * value
      && GetAxis(after, HighEnergy) - GetAxis(after, LowEnergy) ==
         AbsoluteOf(GetAxis(before, HighEnergy) - GetAxis(before, LowEnergy))
      && forall a :: a != LowEnergy && a != HighEnergy ==>
           GetAxis(after, a) == if a == CenterEnergy then value else GetAxis(before, a)
    else if f == Axis(CenterAngleY) && mode / 2 % 2 == 1 then
      && GetAxis(after, LowAngleY) + GetAxis(after, HighAngleY) == 2.0 * value
      && GetAxis(after, HighAngleY) - GetAxis(after, LowAngleY) ==
         AbsoluteOf(GetAxis(before, HighAngleY) - GetAxis(before, LowAngleY))
      && forall a :: a != LowAngleY && a != HighAngleY ==>
           GetAxis(after, a) == if a == CenterAngleY then value else GetAxis(before, a)
    else
      forall a :: GetAxis(after, a) == if f == Axis(a) then value else GetAxis(before, a)
  }

  function AbsoluteOf(x: real): real {
    if x >= 0.0 then x else 0.0 - x
  }

  /** A float write: the parameters and the requested axes take the value as above, and if it is one
      that tries to, the definition of these is sent. */
  lemma FloatWritten(c: Config, s: Settings, f: FloatParam, value: real, answer: Option<Reply>)
    requires Indexed(c, s.params)
    ensures var t := Written(c, s, FloatWrite(f, value, answer));
            exists q, r :: FloatTaken(s.params, f, value, q) && AxisTaken(s.params, s.requested, f, value, r) &&
              if TriesFloat(s.params, f) then Indexed(c, q) && TriedWith(c, Settings(q, r, s.definition), t, answer)
              else t == Settings(q, r, s.definition)
  {
    hide FloatTaken, AxisTaken, TriedWith, SetUp, Request;
    var p := SetFloat(s.params, f, value);
    var mode := GetInt(s.params, AcquisitionMode);
    assert p.ints == s.params.ints;
    var r := if f.Axis? then Request(s.requested, mode, f.axis, value) else s.requested;
    var q := if TriesFloat(s.params, f) || !f.Axis? then p
             else SetFloat(p, f, GetAxis(s.params.axes, f.axis));
    FloatIsTaken(s.params, f, value, q);
    AxisIsTaken(s.params, s.requested, f, value, r);
    SetUpTries(c, Settings(q, r, s.definition), answer);
    assert FloatTaken(s.params, f, value, q) && AxisTaken(s.params, s.requested, f, value, r);
  }

  lemma FloatIsTaken(p: Params, f: FloatParam, value: real, q: Params)
    requires q == if TriesFloat(p, f) || !f.Axis? then SetFloat(p, f, value)
                  else SetFloat(SetFloat(p, f, value), f, GetAxis(p.axes, f.axis))
    ensures FloatTaken(p, f, value, q)
  {
  }

  lemma AxisIsTaken(p: Params, before: map<AxisParam, real>, f: FloatParam, value: real, after: map<AxisParam, real>)
    requires after == if f.Axis? then Request(before, GetInt(p, AcquisitionMode), f.axis, value) else before
    ensures AxisTaken(p, before, f, value, after)
  {
  }

  // ----- Any write

  /** Whatever is written, and whatever is answered: either the definition is the one from before, or
      it describes the parameters and requested axes as they now are. */
  lemma DefinitionIsUpToDate(c: Config, s: Settings, w: Write)
    requires Indexed(c, s.params) && (w.IntWrite? ==> WriteAllowed(w.i, w.int_))
    ensures var t := Written(c, s, w);
            && Indexed(c, t.params)
            && (t.definition == s.definition ||
                (t.definition.Some? && Describes(c, t.params, t.requested, t.definition.value)))
  {
    hide Written, Describes, IntTaken, FloatTaken, AxisTaken, Complete, Positive, PassEnergyUsed, ReadBack, TriesInt;
    hide SameReadings;
    match w {
      case IntWrite(f, value, answer) =>
        IntWritten(c, s, f, value, answer);
        TakenIsIndexed(c, s.params, f, value);
      case FloatWrite(f, value, answer) =>
        FloatWritten(c, s, f, value, answer);
        FloatsStayIndexed(c, s.params, f, value);
    }
  }

  lemma TakenIsIndexed(c: Config, p: Params, f: IntParam, value: int)
    requires Indexed(c, p) && WriteAllowed(f, value)
    ensures forall q :: IntTaken(c, p, f, value, q) ==> Indexed(c, q)
  {
    hide NewInt, SameReadings;
  }

  lemma FloatsStayIndexed(c: Config, p: Params, f: FloatParam, value: real)
    requires Indexed(c, p)
    ensures forall q :: FloatTaken(p, f, value, q) ==> Indexed(c, q)
  {
  }
}
