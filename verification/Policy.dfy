/** The classification policy and its integer thresholds. */
module Policy {
  import opened Wrappers
  import opened Bytes
  import opened Checked
  import opened Evidence

  const OCCUPANCY_BYTES := 0
  const OCCUPANCY_CELLS := 1
  const QUEUE_DEPTH_PACKETS := 2
  const STATIC_THRESHOLD_CELLS := 6
  const DYNAMIC_THRESHOLD_CELLS := 7
  const MAX_DEPTH_PACKETS := 8
  const ENQUEUE_PACKETS := 10
  const DEQUEUE_PACKETS := 11
  const DROP_PACKETS := 12
  const DROP_BYTES := 13
  const MARK_PACKETS := 14
  const PAUSE_FRAMES := 15
  const PAUSE_DURATION_NANOS := 16
  const FIELD_COUNT := 17

  /** A sample field by its position; from the tenth on they are counters. */
  type Field = f: nat | f < 17

  predicate IsCounter(f: Field) {
    f >= ENQUEUE_PACKETS
  }

  datatype Pressure =
    Unknown | Idle | Normal | Elevated | Pressured | Saturated | Dropping | Paused | OutOfDate | InConflict

  /** The order in which states count as worse. */
  function SeverityRank(s: Pressure): nat {
    match s
    case Idle => 0 case Normal => 1 case Elevated => 2 case Pressured => 3 case Saturated => 4
    case Unknown => 5 case Paused => 6 case Dropping => 7 case OutOfDate => 8 case InConflict => 9
  }

  datatype AbsoluteThresholds = AbsoluteThresholds(
    elevatedAt: Option<u64>, pressuredAt: Option<u64>, saturatedAt: Option<u64>,
    droppingAtDrops: u64, pausedAtFrames: u64, pausedAtNanos: u64, marksIndicateAt: u64)

  datatype RelativeThresholds = RelativeThresholds(elevated: u32, pressured: u32, saturated: u32)

  datatype ConflictPolicy = ConflictPolicy(
    enabled: bool, windowNs: i64, absoluteTolerance: u64, relativePermille: u32)

  datatype PressurePolicy = PressurePolicy(
    version: u32, name: bytes, freshness: FreshnessPolicy,
    requiredFields: set<Field>, requiredAny: set<Field>,
    preferCells: bool, allowAbsolute: bool, allowBytes: bool,
    absolute: AbsoluteThresholds, relative: RelativeThresholds,
    evaluationWindowNs: i64, conflict: ConflictPolicy)

  /** Ascending where both are given. */
  predicate InOrder(a: Option<u64>, b: Option<u64>) {
    a.Some? && b.Some? ==> a.value <= b.value
  }

  /** The part of the policy's validation that concerns what is modelled here. */
  function Validate(p: PressurePolicy): Status {
    if p.version == 0 || p.name == [] then Failure(InvalidArgument)
    else if p.requiredFields == {} && p.requiredAny == {} then Failure(InvalidArgument)
    else if p.evaluationWindowNs <= 0 then Failure(InvalidArgument)
    else if p.relative.elevated == 0 || p.relative.elevated > 1000 then Failure(InvalidArgument)
    else if p.relative.pressured > 1000 || p.relative.saturated > 1000 then Failure(InvalidArgument)
    else if p.relative.elevated > p.relative.pressured || p.relative.pressured > p.relative.saturated then
      Failure(InvalidArgument)
    else if !InOrder(p.absolute.elevatedAt, p.absolute.pressuredAt)
         || !InOrder(p.absolute.pressuredAt, p.absolute.saturatedAt)
         || !InOrder(p.absolute.elevatedAt, p.absolute.saturatedAt) then Failure(InvalidArgument)
    else if p.freshness.freshWithinNs <= 0 || p.freshness.agingWithinNs < 0 || p.freshness.staleWithinNs < 0 then
      Failure(InvalidArgument)
    else if p.freshness.freshWithinNs > p.freshness.agingWithinNs
         || p.freshness.agingWithinNs > p.freshness.staleWithinNs then Failure(InvalidArgument)
    else if p.conflict.relativePermille > 1000 || p.conflict.windowNs <= 0 then Failure(InvalidArgument)
    else Ok
  }

  /** A fraction of a limit, rounded up, unless scaling the limit overflows. */
  function PermilleOf(limit: u64, permille: u32): Result<u64> {
    if permille > 1000 then Fault(OutOfRange)
    else
      var scaled := MulU64(limit, permille);
      if scaled.None? then Fault(Overflow) else
      var rounded := DivCeilU64(scaled.value, 1000);
      if rounded.None? then Fault(Internal) else Success(rounded.value)
  }

  /** A threshold is met exactly when the value is at least that many thousandths of the
      limit; it exists exactly when the scaled limit fits 64 bits. */
  lemma ThresholdMetIff(value: u64, limit: u64, permille: u32)
    requires permille <= 1000
    ensures PermilleOf(limit, permille).Success? <==> limit * permille <= U64_MAX
    ensures PermilleOf(limit, permille).Success? ==>
              (value >= PermilleOf(limit, permille).value <==> 1000 * value >= limit * permille)
    ensures PermilleOf(limit, permille).Success? ==> PermilleOf(limit, permille).value <= limit
  {
    Scale(limit, permille, 1000);
    if PermilleOf(limit, permille).Success? {
      RoundedUp(value, limit, limit * permille, PermilleOf(limit, permille).value);
    }
  }

  lemma RoundedUp(value: nat, limit: nat, scaled: nat, t: nat)
    requires scaled <= t * 1000 && (t > 0 ==> (t - 1) * 1000 < scaled) && scaled <= limit * 1000
    ensures (value >= t <==> 1000 * value >= scaled) && t <= limit
  {}

  /** Larger fractions of one limit make larger thresholds. */
  lemma ThresholdsAscend(limit: u64, lower: u32, higher: u32)
    requires lower <= higher <= 1000 && PermilleOf(limit, higher).Success?
    ensures PermilleOf(limit, lower).Success? && PermilleOf(limit, lower).value <= PermilleOf(limit, higher).value
  {
    hide PermilleOf;
    Scale(limit, lower, higher);
    ThresholdMetIff(0, limit, lower);
    ThresholdMetIff(PermilleOf(limit, higher).value, limit, higher);
    ThresholdMetIff(PermilleOf(limit, higher).value, limit, lower);
  }

  lemma Scale(limit: nat, lower: nat, higher: nat)
    requires lower <= higher
    ensures limit * lower <= limit * higher
  {}
}
