/** What a piece of evidence may be used for: its age, quality, origin and the
    authority of its source. */
module Evidence {
  import opened Bytes

  datatype Freshness = FreshnessUnknown | Fresh | Aging | Stale | Expired

  datatype Quality = QualityUnknown | Complete | Incomplete | Conflicting | Unsupported

  datatype Provenance = ProvenanceUnknown | FromSource | DerivedFromMetadata | Correlated | RecoveredFromPersistence

  /** Declared trust levels, by rank. */
  type Authority = a: nat | a <= 3
  const AUTHORITY_UNKNOWN: Authority := 0
  const SECONDARY: Authority := 1
  const PRIMARY: Authority := 2
  const AUTHORITATIVE: Authority := 3

  datatype Flag =
    | OrderAnomaly | ClockDomainUnknown | ClockDomainMismatch | DuplicateSuppressed | IncarnationChanged
    | GenerationChanged | CoverageInsufficient | RecoveredFlag | ClassResolvedFromMetadata | SyntheticTransport
    | PartialBatch | PeerDisagreement | CounterDiscontinuity

  datatype FreshnessPolicy = FreshnessPolicy(freshWithinNs: i64, agingWithinNs: i64, staleWithinNs: i64) {
    predicate Coherent() {
      0 < freshWithinNs <= agingWithinNs <= staleWithinNs
    }
  }

  datatype Assessment = Assessment(
    freshness: Freshness, quality: Quality, provenance: Provenance, authority: Authority,
    flags: set<Flag>, ageNs: int)

  /** A negative age counts as fresh. */
  function AssessFreshness(ageNs: int, p: FreshnessPolicy): Freshness {
    if ageNs < 0 then Fresh
    else if ageNs < p.freshWithinNs then Fresh
    else if ageNs < p.agingWithinNs then Aging
    else if ageNs < p.staleWithinNs then Stale
    else Expired
  }

  predicate EstablishesCurrentPressure(a: Assessment) {
    && a.freshness == Fresh && a.quality == Complete
    && a.provenance != RecoveredFromPersistence && RecoveredFlag !in a.flags
    && a.authority >= PRIMARY
  }

  function FreshnessRank(f: Freshness): nat {
    match f
    case Fresh => 0
    case Aging => 1
    case Stale => 2
    case Expired => 3
    case FreshnessUnknown => 4
  }

  /** Under a coherent policy evidence never gets fresher with age. */
  lemma FreshnessOnlyFades(age: int, later: int, p: FreshnessPolicy)
    requires p.Coherent() && age <= later
    ensures FreshnessRank(AssessFreshness(age, p)) <= FreshnessRank(AssessFreshness(later, p)) <= 3
  {}
}
