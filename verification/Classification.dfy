/** The ordered rules that turn evidence into a pressure state, and their trace. */
module Classification {
  import opened Wrappers
  import opened Bytes
  import opened Identity
  import opened Evidence
  import opened Policy

  /** A counter's advance over the evaluation window; a value that is not known counts for nothing. */
  datatype Delta = Delta(known: bool, delta: u64)

  /** Every optional that is empty means not reported, never zero. */
  datatype Input = Input(
    queue: QueuePath, assessment: Assessment, reported: set<Field>,
    occupancyCells: Option<u64>, occupancyBytes: Option<u64>, depthPackets: Option<u64>,
    dynamicThreshold: Option<u64>, staticThreshold: Option<u64>, maxDepth: Option<u64>,
    drops: Delta, marks: Delta, pauseFrames: Delta, pauseDuration: Delta, enqueues: Delta, dequeues: Delta,
    peerConflict: bool)

  datatype BasisKind = NoBasis | CellsAgainstThreshold | PacketsAgainstDepth | Absolute

  datatype Basis = Basis(kind: BasisKind, valueField: Option<Field>, value: Option<u64>,
                         limitField: Option<Field>, limit: Option<u64>)

  const RULE_COUNT := 13
  type Rule = r: nat | r < 13
  const EVIDENCE_PRESENCE: Rule := 0
  const EVIDENCE_CONFLICT: Rule := 1
  const EVIDENCE_UNSUPPORTED: Rule := 2
  const EVIDENCE_FRESHNESS: Rule := 3
  const REQUIRED_FIELDS: Rule := 4
  const PRESSURE_BASIS: Rule := 5
  const DROPPING_EVIDENCE: Rule := 6
  const PAUSE_EVIDENCE: Rule := 7
  const SATURATION_LEVEL: Rule := 8
  const PRESSURE_LEVEL: Rule := 9
  const ELEVATION_LEVEL: Rule := 10
  const IDLE_EVIDENCE: Rule := 11
  const DEFAULT_NORMAL: Rule := 12

  /** A rule that was looked at, and the numbers it compared; zeros where it compared none. */
  datatype TraceEntry = TraceEntry(rule: Rule, matched: bool, operand: u64, threshold: u64)

  datatype Classified = Classified(
    state: Pressure, queue: QueuePath, trace: seq<TraceEntry>, basis: Basis, assessment: Assessment,
    policyVersion: u32, policyName: bytes, decidingRule: Rule)

  // ---- what counts as a measurement ------------------------------------------------------

  /** A value counts only together with its reported bit. */
  function Usable(i: Input, f: Field, v: Option<u64>): Option<u64> {
    if f in i.reported then v else None
  }

  function Cells(i: Input): Option<u64> { Usable(i, OCCUPANCY_CELLS, i.occupancyCells) }
  function Octets(i: Input): Option<u64> { Usable(i, OCCUPANCY_BYTES, i.occupancyBytes) }
  function Packets(i: Input): Option<u64> { Usable(i, QUEUE_DEPTH_PACKETS, i.depthPackets) }
  function CellLimit(i: Input): Option<u64> {
    Usable(i, DYNAMIC_THRESHOLD_CELLS, i.dynamicThreshold)
  }
  function FixedLimit(i: Input): Option<u64> { Usable(i, STATIC_THRESHOLD_CELLS, i.staticThreshold) }
  function DepthLimit(i: Input): Option<u64> { Usable(i, MAX_DEPTH_PACKETS, i.maxDepth) }

  function TryCells(i: Input): Option<Basis> {
    if Cells(i).None? then None
    else if CellLimit(i).Some? then
      Some(Basis(CellsAgainstThreshold, Some(OCCUPANCY_CELLS), Cells(i), Some(DYNAMIC_THRESHOLD_CELLS), CellLimit(i)))
    else if FixedLimit(i).Some? then
      Some(Basis(CellsAgainstThreshold, Some(OCCUPANCY_CELLS), Cells(i), Some(STATIC_THRESHOLD_CELLS), FixedLimit(i)))
    else None
  }

  function TryPackets(i: Input): Option<Basis> {
    if Packets(i).Some? && DepthLimit(i).Some? then
      Some(Basis(PacketsAgainstDepth, Some(QUEUE_DEPTH_PACKETS), Packets(i), Some(MAX_DEPTH_PACKETS), DepthLimit(i)))
    else None
  }

  function ResolveBasis(p: PressurePolicy, i: Input): Basis {
    var first := if p.preferCells then TryCells(i) else TryPackets(i);
    var second := if p.preferCells then TryPackets(i) else TryCells(i);
    var absolute := p.absolute.elevatedAt.Some? || p.absolute.pressuredAt.Some? || p.absolute.saturatedAt.Some?;
    if first.Some? then first.value
    else if second.Some? then second.value
    else if p.allowAbsolute && absolute && Cells(i).Some? then
      Basis(Absolute, Some(OCCUPANCY_CELLS), Cells(i), None, None)
    else if p.allowAbsolute && absolute && p.allowBytes && Octets(i).Some? then
      Basis(Absolute, Some(OCCUPANCY_BYTES), Octets(i), None, None)
    else if Cells(i).Some? then Basis(NoBasis, Some(OCCUPANCY_CELLS), Cells(i), None, None)
    else if Packets(i).Some? then Basis(NoBasis, Some(QUEUE_DEPTH_PACKETS), Packets(i), None, None)
    else if Octets(i).Some? then Basis(NoBasis, Some(OCCUPANCY_BYTES), Octets(i), None, None)
    else Basis(NoBasis, None, None, None, None)
  }

  const NO_BASIS := Basis(NoBasis, None, None, None, None)

  /** The threshold for a level, if it can be computed. */
  function Threshold(b: Basis, absolute: Option<u64>, permille: u32): Option<u64> {
    if b.kind == Absolute then absolute
    else
      var t := PermilleOf(b.limit.GetOr(0), permille);
      if t.Success? then Some(t.value) else None
  }

  function Measurement(b: Basis): u64 { b.value.GetOr(0) }

  predicate Reaches(b: Basis, threshold: Option<u64>) {
    threshold.Some? && Measurement(b) >= threshold.value
  }

  predicate AtLeast(d: Delta, threshold: u64) {
    d.known && d.delta >= threshold
  }

  // ---- the rules, each on its own -----------------------------------------------------------

  /** Whether a rule's own condition holds, whatever the rules before it say. */
  predicate Matches(p: PressurePolicy, i: Input, r: Rule) {
    var b := ResolveBasis(p, i);
    if r == EVIDENCE_PRESENCE then i.assessment.quality == QualityUnknown || i.reported == {}
    else if r == EVIDENCE_CONFLICT then i.peerConflict || i.assessment.quality == Conflicting
    else if r == EVIDENCE_UNSUPPORTED then i.assessment.quality == Unsupported
    else if r == EVIDENCE_FRESHNESS then i.assessment.freshness != Fresh
    else if r == REQUIRED_FIELDS then
      p.requiredFields - i.reported != {} || (p.requiredAny != {} && p.requiredAny * i.reported == {})
    else if r == PRESSURE_BASIS then b.kind == NoBasis
    else if r == DROPPING_EVIDENCE then AtLeast(i.drops, p.absolute.droppingAtDrops)
    else if r == PAUSE_EVIDENCE then
      AtLeast(i.pauseFrames, p.absolute.pausedAtFrames) || AtLeast(i.pauseDuration, p.absolute.pausedAtNanos)
    else if r == SATURATION_LEVEL then Reaches(b, Threshold(b, p.absolute.saturatedAt, p.relative.saturated))
    else if r == PRESSURE_LEVEL then
      Reaches(b, Threshold(b, p.absolute.pressuredAt, p.relative.pressured))
      || AtLeast(i.marks, p.absolute.marksIndicateAt)
    else if r == ELEVATION_LEVEL then Reaches(b, Threshold(b, p.absolute.elevatedAt, p.relative.elevated))
    else if r == IDLE_EVIDENCE then Measurement(b) == 0 && i.enqueues.known && i.enqueues.delta == 0
    else true
  }

  function StateOf(r: Rule): Pressure {
    if r == EVIDENCE_CONFLICT then InConflict
    else if r == EVIDENCE_FRESHNESS then OutOfDate
    else if r <= PRESSURE_BASIS then Unknown
    else if r == DROPPING_EVIDENCE then Dropping
    else if r == PAUSE_EVIDENCE then Paused
    else if r == SATURATION_LEVEL then Saturated
    else if r == PRESSURE_LEVEL then Pressured
    else if r == ELEVATION_LEVEL then Elevated
    else if r == IDLE_EVIDENCE then Idle
    else Normal
  }

  /** The first rule that matches, from some rule on. */
  function FirstFrom(p: PressurePolicy, i: Input, r: Rule): (k: Rule)
    ensures r <= k && Matches(p, i, k) && forall j :: r <= j < k ==> !Matches(p, i, j)
    decreases RULE_COUNT - r
  {
    if r == DEFAULT_NORMAL || Matches(p, i, r) then r else FirstFrom(p, i, r + 1)
  }

  function Deciding(p: PressurePolicy, i: Input): Rule {
    FirstFrom(p, i, 0)
  }

  /** The numbers that go with a rule in the trace. */
  function Numbers(p: PressurePolicy, i: Input, r: Rule, matched: bool): (u64, u64) {
    var b := ResolveBasis(p, i);
    if r == PRESSURE_BASIS then if matched then (0, 0) else (b.value.GetOr(0), b.limit.GetOr(0))
    else if r == DROPPING_EVIDENCE then if i.drops.known then (i.drops.delta, p.absolute.droppingAtDrops) else (0, 0)
    else if r == PAUSE_EVIDENCE then
      if !matched then (0, 0)
      else if AtLeast(i.pauseFrames, p.absolute.pausedAtFrames) then (i.pauseFrames.delta, p.absolute.pausedAtFrames)
      else (i.pauseDuration.delta, p.absolute.pausedAtNanos)
    else if r == SATURATION_LEVEL then (Measurement(b), Threshold(b, p.absolute.saturatedAt, p.relative.saturated).GetOr(0))
    else if r == PRESSURE_LEVEL then
      var pressured := Threshold(b, p.absolute.pressuredAt, p.relative.pressured);
      if matched && !Reaches(b, pressured) then (i.marks.delta, p.absolute.marksIndicateAt)
      else (Measurement(b), pressured.GetOr(0))
    else if r == ELEVATION_LEVEL then (Measurement(b), Threshold(b, p.absolute.elevatedAt, p.relative.elevated).GetOr(0))
    else if r == IDLE_EVIDENCE then
      if matched || (Measurement(b) == 0 && !i.enqueues.known) then (0, 0)
      else if Measurement(b) != 0 then (Measurement(b), 0)
      else (i.enqueues.delta, 0)
    else (0, 0)
  }

  function Entry(p: PressurePolicy, i: Input, r: Rule, matched: bool): TraceEntry {
    TraceEntry(r, matched, Numbers(p, i, r, matched).0, Numbers(p, i, r, matched).1)
  }

  /** The rules reached, in order; only the last matched. */
  function TraceTo(p: PressurePolicy, i: Input, k: nat): (t: seq<TraceEntry>)
    requires k < RULE_COUNT
    ensures |t| == k + 1
    ensures forall j :: 0 <= j <= k ==> t[j] == Entry(p, i, j, j == k)
  {
    seq(k + 1, j requires 0 <= j <= k => Entry(p, i, j, j == k))
  }

  function Classify(p: PressurePolicy, i: Input): Classified {
    var k := Deciding(p, i);
    Classified(StateOf(k), i.queue, TraceTo(p, i, k), if k >= PRESSURE_BASIS then ResolveBasis(p, i) else NO_BASIS,
               i.assessment, p.version, p.name, k)
  }

  // ---- the code --------------------------------------------------------------------------------

  /** Rule by rule, returning at the first that matches. */
  method ClassifyInput(p: PressurePolicy, i: Input) returns (result: Classified)
    ensures result == Classify(p, i)
  {
    hide Matches, ResolveBasis, Threshold, Usable, Numbers;
    ghost var k := Deciding(p, i);
    RuleMeanings(p, i);
    RuleNumbers(p, i);
    result := Classified(Unknown, i.queue, [], NO_BASIS, i.assessment, p.version, p.name, 0);
    if i.assessment.quality == QualityUnknown || i.reported == {} {
      return Concluded(result, EVIDENCE_PRESENCE, 0, 0);
    }
    result := Passed(result, EVIDENCE_PRESENCE, 0, 0);
    if i.peerConflict || i.assessment.quality == Conflicting {
      return Concluded(result, EVIDENCE_CONFLICT, 0, 0);
    }
    result := Passed(result, EVIDENCE_CONFLICT, 0, 0);
    if i.assessment.quality == Unsupported {
      return Concluded(result, EVIDENCE_UNSUPPORTED, 0, 0);
    }
    result := Passed(result, EVIDENCE_UNSUPPORTED, 0, 0);
    if i.assessment.freshness != Fresh {
      return Concluded(result, EVIDENCE_FRESHNESS, 0, 0);
    }
    result := Passed(result, EVIDENCE_FRESHNESS, 0, 0);
    var missing := p.requiredFields - i.reported;
    if missing != {} {
      return Concluded(result, REQUIRED_FIELDS, 0, 0);
    }
    if p.requiredAny != {} && p.requiredAny * i.reported == {} {
      return Concluded(result, REQUIRED_FIELDS, 0, 0);
    }
    result := Passed(result, REQUIRED_FIELDS, 0, 0);
    var basis := ResolveBasis(p, i);
    result := result.(basis := basis);
    if basis.kind == NoBasis {
      return Concluded(result, PRESSURE_BASIS, 0, 0);
    }
    result := Passed(result, PRESSURE_BASIS, basis.value.GetOr(0), basis.limit.GetOr(0));
    result := ClassifyLevels(p, i, result);
  }

  /** The rules on drops and pauses, once there is a measurement to judge. */
  method ClassifyLevels(p: PressurePolicy, i: Input, before: Classified) returns (result: Classified)
    requires before.basis == ResolveBasis(p, i) && PassedTo(p, i, before, PRESSURE_BASIS)
    requires before == Skeleton(p, i, before) && Deciding(p, i) > PRESSURE_BASIS
    ensures result == Classify(p, i)
  {
    hide Matches, ResolveBasis, Threshold, Usable, Numbers;
    RuleMeanings(p, i);
    RuleNumbers(p, i);
    result := before;
    if i.drops.known && i.drops.delta >= p.absolute.droppingAtDrops {
      return Concluded(result, DROPPING_EVIDENCE, i.drops.delta, p.absolute.droppingAtDrops);
    }
    if !i.drops.known {
      result := Passed(result, DROPPING_EVIDENCE, 0, 0);
    } else {
      result := Passed(result, DROPPING_EVIDENCE, i.drops.delta, p.absolute.droppingAtDrops);
    }
    var byFrames := i.pauseFrames.known && i.pauseFrames.delta >= p.absolute.pausedAtFrames;
    var byTime := i.pauseDuration.known && i.pauseDuration.delta >= p.absolute.pausedAtNanos;
    if byFrames || byTime {
      var operand := if byFrames then i.pauseFrames.delta else i.pauseDuration.delta;
      var threshold := if byFrames then p.absolute.pausedAtFrames else p.absolute.pausedAtNanos;
      return Concluded(result, PAUSE_EVIDENCE, operand, threshold);
    }
    result := Passed(result, PAUSE_EVIDENCE, 0, 0);
    result := ClassifyOccupancy(p, i, result);
  }

  /** The rules from the saturation rule on. */
  method ClassifyOccupancy(p: PressurePolicy, i: Input, before: Classified) returns (result: Classified)
    requires before.basis == ResolveBasis(p, i) && PassedTo(p, i, before, PAUSE_EVIDENCE)
    requires before == Skeleton(p, i, before) && Deciding(p, i) > PAUSE_EVIDENCE
    ensures result == Classify(p, i)
  {
    hide Matches, ResolveBasis, Threshold, Usable, Numbers;
    RuleMeanings(p, i);
    RuleNumbers(p, i);
    result := before;
    var basis := before.basis;
    var saturated := Threshold(basis, p.absolute.saturatedAt, p.relative.saturated);
    var pressured := Threshold(basis, p.absolute.pressuredAt, p.relative.pressured);
    var elevated := Threshold(basis, p.absolute.elevatedAt, p.relative.elevated);
    var measurement := basis.value.GetOr(0);
    if saturated.Some? && measurement >= saturated.value {
      return Concluded(result, SATURATION_LEVEL, measurement, saturated.value);
    }
    result := Passed(result, SATURATION_LEVEL, measurement, saturated.GetOr(0));
    if pressured.Some? && measurement >= pressured.value {
      return Concluded(result, PRESSURE_LEVEL, measurement, pressured.value);
    }
    if i.marks.known && i.marks.delta >= p.absolute.marksIndicateAt {
      return Concluded(result, PRESSURE_LEVEL, i.marks.delta, p.absolute.marksIndicateAt);
    }
    result := Passed(result, PRESSURE_LEVEL, measurement, pressured.GetOr(0));
    if elevated.Some? && measurement >= elevated.value {
      return Concluded(result, ELEVATION_LEVEL, measurement, elevated.value);
    }
    result := Passed(result, ELEVATION_LEVEL, measurement, elevated.GetOr(0));
    if measurement == 0 && i.enqueues.known && i.enqueues.delta == 0 {
      return Concluded(result, IDLE_EVIDENCE, 0, 0);
    }
    if measurement == 0 && !i.enqueues.known {
      result := Passed(result, IDLE_EVIDENCE, 0, 0);
    } else if measurement != 0 {
      result := Passed(result, IDLE_EVIDENCE, measurement, 0);
    } else {
      result := Passed(result, IDLE_EVIDENCE, i.enqueues.delta, 0);
    }
    return Concluded(result, DEFAULT_NORMAL, 0, 0);
  }

  function Passed(c: Classified, r: Rule, operand: u64, threshold: u64): Classified {
    c.(trace := c.trace + [TraceEntry(r, false, operand, threshold)])
  }

  function Concluded(c: Classified, r: Rule, operand: u64, threshold: u64): Classified {
    c.(trace := c.trace + [TraceEntry(r, true, operand, threshold)], state := StateOf(r), decidingRule := r)
  }

  ghost predicate PassedTo(p: PressurePolicy, i: Input, c: Classified, r: Rule) {
    |c.trace| == r + 1 && forall j :: 0 <= j <= r ==> c.trace[j] == Entry(p, i, j, false)
  }

  lemma RuleNumbers(p: PressurePolicy, i: Input)
    ensures forall r: Rule, m: bool :: r < PRESSURE_BASIS || r == DEFAULT_NORMAL ==> Numbers(p, i, r, m) == (0, 0)
    ensures (var b := ResolveBasis(p, i);
      && Numbers(p, i, PRESSURE_BASIS, true) == (0, 0)
      && Numbers(p, i, PRESSURE_BASIS, false) == (b.value.GetOr(0), b.limit.GetOr(0))
      && (forall m: bool :: Numbers(p, i, DROPPING_EVIDENCE, m)
            == if i.drops.known then (i.drops.delta, p.absolute.droppingAtDrops) else (0, 0))
      && Numbers(p, i, PAUSE_EVIDENCE, false) == (0, 0)
      && Numbers(p, i, PAUSE_EVIDENCE, true)
         == (if AtLeast(i.pauseFrames, p.absolute.pausedAtFrames) then (i.pauseFrames.delta, p.absolute.pausedAtFrames)
             else (i.pauseDuration.delta, p.absolute.pausedAtNanos)))
    ensures LevelNumbers(p, i)
  {
    hide ResolveBasis, Threshold;
  }

  /** The numbers of the rules about levels. */
  predicate LevelNumbers(p: PressurePolicy, i: Input) {
    var b := ResolveBasis(p, i);
    var pressured := Threshold(b, p.absolute.pressuredAt, p.relative.pressured);
    && (forall m: bool :: Numbers(p, i, SATURATION_LEVEL, m)
          == (Measurement(b), Threshold(b, p.absolute.saturatedAt, p.relative.saturated).GetOr(0)))
    && Numbers(p, i, PRESSURE_LEVEL, false) == (Measurement(b), pressured.GetOr(0))
    && Numbers(p, i, PRESSURE_LEVEL, true)
       == (if Reaches(b, pressured) then (Measurement(b), pressured.GetOr(0)) else (i.marks.delta, p.absolute.marksIndicateAt))
    && (forall m: bool :: Numbers(p, i, ELEVATION_LEVEL, m)
          == (Measurement(b), Threshold(b, p.absolute.elevatedAt, p.relative.elevated).GetOr(0)))
    && Numbers(p, i, IDLE_EVIDENCE, true) == (0, 0)
    && Numbers(p, i, IDLE_EVIDENCE, false)
       == (if Measurement(b) == 0 && !i.enqueues.known then (0, 0)
           else if Measurement(b) != 0 then (Measurement(b), 0) else (i.enqueues.delta, 0))
  }

  /** What a result under way has in common with the final one. */
  function Skeleton(p: PressurePolicy, i: Input, c: Classified): Classified {
    Classified(Unknown, i.queue, c.trace, c.basis, i.assessment, p.version, p.name, 0)
  }

  lemma RuleMeanings(p: PressurePolicy, i: Input)
    ensures Matches(p, i, EVIDENCE_PRESENCE) <==> i.assessment.quality == QualityUnknown || i.reported == {}
    ensures Matches(p, i, EVIDENCE_CONFLICT) <==> i.peerConflict || i.assessment.quality == Conflicting
    ensures Matches(p, i, EVIDENCE_UNSUPPORTED) <==> i.assessment.quality == Unsupported
    ensures Matches(p, i, EVIDENCE_FRESHNESS) <==> i.assessment.freshness != Fresh
    ensures Matches(p, i, REQUIRED_FIELDS) <==>
              p.requiredFields - i.reported != {} || (p.requiredAny != {} && p.requiredAny * i.reported == {})
    ensures Matches(p, i, PRESSURE_BASIS) <==> ResolveBasis(p, i).kind == NoBasis
    ensures Matches(p, i, DROPPING_EVIDENCE) <==> AtLeast(i.drops, p.absolute.droppingAtDrops)
    ensures Matches(p, i, PAUSE_EVIDENCE) <==>
              AtLeast(i.pauseFrames, p.absolute.pausedAtFrames) || AtLeast(i.pauseDuration, p.absolute.pausedAtNanos)
    ensures (var b := ResolveBasis(p, i);
      && (Matches(p, i, SATURATION_LEVEL) <==> Reaches(b, Threshold(b, p.absolute.saturatedAt, p.relative.saturated)))
      && (Matches(p, i, PRESSURE_LEVEL) <==> Reaches(b, Threshold(b, p.absolute.pressuredAt, p.relative.pressured))
                                             || AtLeast(i.marks, p.absolute.marksIndicateAt))
      && (Matches(p, i, ELEVATION_LEVEL) <==> Reaches(b, Threshold(b, p.absolute.elevatedAt, p.relative.elevated)))
      && (Matches(p, i, IDLE_EVIDENCE) <==> Measurement(b) == 0 && i.enqueues.known && i.enqueues.delta == 0))
  {
    hide ResolveBasis;
  }

  // ---- what the decision depends on -----------------------------------------------------------

  /** Two deltas that say the same. */
  predicate SameDelta(a: Delta, b: Delta) {
    a.known == b.known && (a.known ==> a.delta == b.delta)
  }

  /** Two inputs that agree on everything reported and every delta known. */
  predicate Agree(i: Input, j: Input) {
    && i.queue == j.queue && i.assessment == j.assessment && i.reported == j.reported && i.peerConflict == j.peerConflict
    && Cells(i) == Cells(j) && Octets(i) == Octets(j) && Packets(i) == Packets(j)
    && CellLimit(i) == CellLimit(j) && FixedLimit(i) == FixedLimit(j) && DepthLimit(i) == DepthLimit(j)
    && SameDelta(i.drops, j.drops) && SameDelta(i.marks, j.marks) && SameDelta(i.enqueues, j.enqueues)
    && SameDelta(i.pauseFrames, j.pauseFrames) && SameDelta(i.pauseDuration, j.pauseDuration)
  }

  /** What was not reported cannot make a difference: neither to the state nor to the
      trace nor to anything rendered from the result. */
  lemma MissingIsNotZero(p: PressurePolicy, i: Input, j: Input)
    requires Agree(i, j)
    ensures Classify(p, i) == Classify(p, j)
  {
    SameBasis(p, i, j);
    forall r: Rule
      ensures Matches(p, i, r) == Matches(p, j, r)
    {
      SameMatch(p, i, j, r);
    }
    var k, l := Deciding(p, i), Deciding(p, j);
    assert Matches(p, j, k) && Matches(p, i, l);
    SameTrace(p, i, j);
  }

  lemma SameTrace(p: PressurePolicy, i: Input, j: Input)
    requires Agree(i, j)
    ensures TraceTo(p, i, Deciding(p, i)) == TraceTo(p, j, Deciding(p, i))
  {
    hide Deciding, Numbers, Agree;
    var a, b := TraceTo(p, i, Deciding(p, i)), TraceTo(p, j, Deciding(p, i));
    forall r | 0 <= r < |a|
      ensures a[r] == b[r]
    {
      SameNumbers(p, i, j, r);
    }
  }

  lemma SameNumbers(p: PressurePolicy, i: Input, j: Input, r: Rule)
    requires Agree(i, j) && r <= Deciding(p, i)
    ensures Numbers(p, i, r, r == Deciding(p, i)) == Numbers(p, j, r, r == Deciding(p, i))
  {
    hide ResolveBasis, Threshold, Cells, Octets, Packets, CellLimit, FixedLimit, DepthLimit, Matches;
    SameBasis(p, i, j);
    RuleMeanings(p, i);
  }

  lemma SameBasis(p: PressurePolicy, i: Input, j: Input)
    requires Agree(i, j)
    ensures ResolveBasis(p, i) == ResolveBasis(p, j)
  {}

  lemma SameMatch(p: PressurePolicy, i: Input, j: Input, r: Rule)
    requires Agree(i, j)
    ensures Matches(p, i, r) == Matches(p, j, r)
  {
    hide ResolveBasis, Threshold, Cells, Octets, Packets, CellLimit, FixedLimit, DepthLimit;
    SameBasis(p, i, j);
  }

  /** The numbers in the trace bear out what it says: a rule from drops to elevation that matched
      has compared a number that reaches its threshold, and a level that did not match and has a
      threshold has one that does not. */
  lemma TraceNumbersTell(p: PressurePolicy, i: Input)
    ensures (var c := Classify(p, i); var b := ResolveBasis(p, i);
      forall e :: e in c.trace ==>
        && (DROPPING_EVIDENCE <= e.rule <= ELEVATION_LEVEL && e.matched ==> e.operand >= e.threshold)
        && (e.rule == SATURATION_LEVEL && !e.matched && Threshold(b, p.absolute.saturatedAt, p.relative.saturated).Some? ==>
              e.operand < e.threshold)
        && (e.rule == PRESSURE_LEVEL && !e.matched && Threshold(b, p.absolute.pressuredAt, p.relative.pressured).Some? ==>
              e.operand < e.threshold)
        && (e.rule == ELEVATION_LEVEL && !e.matched && Threshold(b, p.absolute.elevatedAt, p.relative.elevated).Some? ==>
              e.operand < e.threshold))
  {
    hide ResolveBasis, Threshold, Matches, Numbers;
    RuleMeanings(p, i);
    RuleNumbers(p, i);
    var k := Deciding(p, i);
    assert Classify(p, i).trace == TraceTo(p, i, k);
  }

  /** The trace tells the truth about every rule it lists, and lists those up to the
      first that holds. */
  lemma TraceIsPath(p: PressurePolicy, i: Input)
    ensures (var c := Classify(p, i);
      && |c.trace| == c.decidingRule + 1 && c.state == StateOf(c.decidingRule)
      && forall r :: 0 <= r < |c.trace| ==> c.trace[r].rule == r && (c.trace[r].matched <==> Matches(p, i, r)))
  {
    hide Matches;
    var k := Deciding(p, i);
    assert Classify(p, i).trace == TraceTo(p, i, k);
  }

  /** The authority of the source plays no part in the decision. */
  lemma AuthorityIgnored(p: PressurePolicy, i: Input, a: Authority)
    ensures (var j := i.(assessment := i.assessment.(authority := a));
      Classify(p, j) == Classify(p, i).(assessment := j.assessment))
  {
    var j := i.(assessment := i.assessment.(authority := a));
    assert ResolveBasis(p, j) == ResolveBasis(p, i);
    forall r: Rule
      ensures Matches(p, j, r) == Matches(p, i, r)
    {
      hide ResolveBasis, Threshold;
    }
    var k, l := Deciding(p, i), Deciding(p, j);
    assert Matches(p, j, k) && Matches(p, i, l);
  }

  /** A state that speaks for the present rests on evidence that may do so exactly when
      the evidence is complete, not recovered, and of at least primary authority; the
      rules themselves only ask for fresh evidence of a supported kind. */
  lemma SpeaksForPresentIff(p: PressurePolicy, i: Input)
    requires Deciding(p, i) >= DROPPING_EVIDENCE
    ensures i.assessment.freshness == Fresh
    ensures i.assessment.quality == Complete || i.assessment.quality == Incomplete
    ensures EstablishesCurrentPressure(i.assessment) <==>
            && i.assessment.quality == Complete && i.assessment.provenance != RecoveredFromPersistence
            && RecoveredFlag !in i.assessment.flags && i.assessment.authority >= PRIMARY
  {
    var k := Deciding(p, i);
    assert !Matches(p, i, EVIDENCE_PRESENCE) && !Matches(p, i, EVIDENCE_CONFLICT);
    assert !Matches(p, i, EVIDENCE_UNSUPPORTED) && !Matches(p, i, EVIDENCE_FRESHNESS);
  }

  /** So a source of unknown authority can put a queue into any state that a primary one can. */
  lemma LowAuthorityIsHeard(p: PressurePolicy, i: Input)
    requires Deciding(p, i) >= DROPPING_EVIDENCE
    ensures (var j := i.(assessment := i.assessment.(authority := AUTHORITY_UNKNOWN));
      Classify(p, j).state == Classify(p, i).state && !EstablishesCurrentPressure(j.assessment))
  {
    hide Classify;
    AuthorityIgnored(p, i, AUTHORITY_UNKNOWN);
  }

  // ---- levels ------------------------------------------------------------------------------------

  /** With limits reported, each level implies the ones below it under a valid policy. */
  lemma LevelsNest(p: PressurePolicy, i: Input)
    requires Validate(p) == Ok && ResolveBasis(p, i).limit.Some?
    ensures Reaches(ResolveBasis(p, i), Threshold(ResolveBasis(p, i), p.absolute.saturatedAt, p.relative.saturated))
            ==> Matches(p, i, PRESSURE_LEVEL)
    ensures Reaches(ResolveBasis(p, i), Threshold(ResolveBasis(p, i), p.absolute.pressuredAt, p.relative.pressured))
            ==> Matches(p, i, ELEVATION_LEVEL)
  {
    hide PermilleOf;
    var b := ResolveBasis(p, i);
    assert b.kind != Absolute;
    RuleMeanings(p, i);
    var limit := b.limit.value;
    if PermilleOf(limit, p.relative.saturated).Success? {
      ThresholdsAscend(limit, p.relative.pressured, p.relative.saturated);
    }
    if PermilleOf(limit, p.relative.pressured).Success? {
      ThresholdsAscend(limit, p.relative.elevated, p.relative.pressured);
    }
  }

  /** The same input with more in the queue. */
  predicate MoreOccupied(i: Input, j: Input) {
    && j == i.(occupancyCells := j.occupancyCells, occupancyBytes := j.occupancyBytes, depthPackets := j.depthPackets)
    && NoLess(i.occupancyCells, j.occupancyCells) && NoLess(i.occupancyBytes, j.occupancyBytes)
    && NoLess(i.depthPackets, j.depthPackets)
  }

  predicate NoLess(a: Option<u64>, b: Option<u64>) {
    a.Some? == b.Some? && (a.Some? ==> a.value <= b.value)
  }

  lemma BasisOfMore(p: PressurePolicy, i: Input, j: Input)
    requires MoreOccupied(i, j)
    ensures (var b, c := ResolveBasis(p, i), ResolveBasis(p, j);
      c == b.(value := c.value) && NoLess(b.value, c.value))
  {}

  /** A fuller queue never looks healthier. */
  lemma FullerIsNoHealthier(p: PressurePolicy, i: Input, j: Input)
    requires MoreOccupied(i, j)
    ensures SeverityRank(Classify(p, i).state) <= SeverityRank(Classify(p, j).state)
  {
    hide ResolveBasis, Matches;
    BasisOfMore(p, i, j);
    RuleMeanings(p, i);
    RuleMeanings(p, j);
    var k, l := Deciding(p, i), Deciding(p, j);
    EarlyRulesAgree(p, i, j);
    if k <= PAUSE_EVIDENCE || l <= PAUSE_EVIDENCE {
      assert k == l;
    } else {
      ThresholdsUnmoved(ResolveBasis(p, i), ResolveBasis(p, j).value, p);
      assert Matches(p, i, SATURATION_LEVEL) ==> Matches(p, j, SATURATION_LEVEL);
      assert Matches(p, i, PRESSURE_LEVEL) ==> Matches(p, j, PRESSURE_LEVEL);
      assert Matches(p, i, ELEVATION_LEVEL) ==> Matches(p, j, ELEVATION_LEVEL);
      assert Matches(p, j, IDLE_EVIDENCE) ==> Matches(p, i, IDLE_EVIDENCE);
    }
  }

  lemma ThresholdsUnmoved(b: Basis, v: Option<u64>, p: PressurePolicy)
    ensures Threshold(b.(value := v), p.absolute.saturatedAt, p.relative.saturated)
         == Threshold(b, p.absolute.saturatedAt, p.relative.saturated)
    ensures Threshold(b.(value := v), p.absolute.pressuredAt, p.relative.pressured)
         == Threshold(b, p.absolute.pressuredAt, p.relative.pressured)
    ensures Threshold(b.(value := v), p.absolute.elevatedAt, p.relative.elevated)
         == Threshold(b, p.absolute.elevatedAt, p.relative.elevated)
  {}

  /** Occupancy has no say in the rules before the levels. */
  lemma EarlyRulesAgree(p: PressurePolicy, i: Input, j: Input)
    requires MoreOccupied(i, j)
    ensures forall r: Rule :: r <= PAUSE_EVIDENCE ==> Matches(p, i, r) == Matches(p, j, r)
  {
    hide ResolveBasis;
    BasisOfMore(p, i, j);
    forall r: Rule | r <= PAUSE_EVIDENCE
      ensures Matches(p, i, r) == Matches(p, j, r)
    {}
  }
}
