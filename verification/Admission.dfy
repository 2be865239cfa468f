/** Source registration and fencing: which samples of a source may count, by
    incarnation, generation, authority and sequence. */
module Admission {
  import opened Wrappers
  import opened Bytes
  import opened Identity
  import opened Evidence
  import opened Policy
  import opened History
  import Counter

  /** An observation as it is presented; the time of receipt may still be missing. */
  datatype Sample = Sample(
    queue: QueuePath, source: Name, incarnation: Name, sequence: u64, authority: Authority, generation: u64,
    observed: Counter.ObservationTime, receivedNs: i64, receivedWallNs: i64,
    reported: set<Field>, declared: set<Field>, values: map<Field, u64>)
  {
    function RawValue(f: Field): u64 {
      if f in values then values[f] else 0
    }

    function ValueOf(f: Field): Option<u64> {
      if f in reported then Some(RawValue(f)) else None
    }

    predicate IdentityComplete() {
      queue.Valid() && source != [] && incarnation != [] && generation != 0 && sequence != 0
    }
  }

  datatype SourceRecord = SourceRecord(
    authority: Authority, declared: Authority, incarnation: Name, ordinal: nat, lastSequence: u64,
    generation: u64, clockDomain: Name, recent: seq<(Name, nat)>, accepted: nat, fenced: nat, duplicates: nat)

  datatype Outcome =
    | Accepted | AcceptedNewSource | AcceptedNewIncarnation | AcceptedNewGeneration
    | RejectedInvalid | RejectedLimit
    | FencedStaleIncarnation | FencedStaleSequence | FencedStaleGeneration | FencedAuthorityDowngrade
  {
    predicate Admitted() {
      Accepted? || AcceptedNewSource? || AcceptedNewIncarnation? || AcceptedNewGeneration?
    }

    predicate Fenced() {
      FencedStaleIncarnation? || FencedStaleSequence? || FencedStaleGeneration? || FencedAuthorityDowngrade?
    }
  }

  const REMEMBERED := 4

  /** The ordinal a remembered token was given. */
  function OrdinalOf(recent: seq<(Name, nat)>, token: Name): Option<nat> {
    if recent == [] then None
    else if recent[0].0 == token then Some(recent[0].1)
    else OrdinalOf(recent[1..], token)
  }

  function Shortened(recent: seq<(Name, nat)>): seq<(Name, nat)> {
    if |recent| > REMEMBERED then recent[..REMEMBERED] else recent
  }

  function Registered(s: Sample, ordinal: nat): SourceRecord {
    SourceRecord(s.authority, s.authority, s.incarnation, ordinal, 0, s.generation, s.observed.domain,
                 [(s.incarnation, ordinal)], 0, 0, 0)
  }

  /** A token that is remembered belongs to an earlier life of the source. */
  predicate StaleToken(r: SourceRecord, s: Sample) {
    r.incarnation != s.incarnation && OrdinalOf(r.recent, s.incarnation).Some?
    && OrdinalOf(r.recent, s.incarnation).value <= r.ordinal
  }

  function Reincarnated(r: SourceRecord, s: Sample, ordinal: nat): SourceRecord {
    if r.incarnation == s.incarnation then r
    else r.(incarnation := s.incarnation, ordinal := ordinal, lastSequence := 0,
            recent := Shortened([(s.incarnation, ordinal)] + r.recent))
  }

  /** What becomes of a source's record and a sample of it; the sample's fate is that of
      the first fence it meets, and what changed before stays changed. */
  datatype Verdict = Verdict(record: SourceRecord, nextOrdinal: nat, outcome: Outcome)

  function Judge(r: SourceRecord, s: Sample, nextOrdinal: nat): Verdict {
    if StaleToken(r, s) then Verdict(r, nextOrdinal, FencedStaleIncarnation)
    else
      var same := r.incarnation == s.incarnation;
      var next := if same then nextOrdinal else nextOrdinal + 1;
      var r1 := Reincarnated(r, s, nextOrdinal);
      if s.generation < r1.generation then Verdict(r1, next, FencedStaleGeneration)
      else
        var r2 := r1.(generation := s.generation);
        if s.authority < r2.authority then Verdict(r2, next, FencedAuthorityDowngrade)
        else
          var r3 := if s.authority > r2.authority then r2.(authority := s.authority, declared := s.authority) else r2;
          if s.sequence <= r3.lastSequence then
            Verdict(r3.(duplicates := r3.duplicates + 1), next, FencedStaleSequence)
          else
            Verdict(r3, next, if !same then AcceptedNewIncarnation
                              else if s.generation > r.generation then AcceptedNewGeneration else Accepted)
  }

  /** Passing every fence uses up the sequence number, whatever happens to the sample next. */
  function Advanced(r: SourceRecord, s: Sample): SourceRecord {
    r.(lastSequence := s.sequence, clockDomain := if s.observed.domain != [] then s.observed.domain else r.clockDomain)
  }

  /** The record after a sample, with what fencing leaves in it. */
  function Marked(v: Verdict, s: Sample): SourceRecord {
    if v.outcome.Fenced() then v.record.(fenced := v.record.fenced + 1) else Advanced(v.record, s)
  }

  // ---- the record ------------------------------------------------------------------------

  /** Remembered tokens are distinct, newest first, and headed by the current one. */
  ghost predicate Remembers(r: SourceRecord, nextOrdinal: nat) {
    && 0 < |r.recent| <= REMEMBERED && r.recent[0] == (r.incarnation, r.ordinal) && r.ordinal < nextOrdinal
    && forall i, j :: 0 <= i < j < |r.recent| ==> r.recent[i].0 != r.recent[j].0 && r.recent[i].1 > r.recent[j].1
  }

  lemma {:induction false} OrdinalOfIs(recent: seq<(Name, nat)>, token: Name)
    ensures OrdinalOf(recent, token).Some? <==> exists i :: 0 <= i < |recent| && recent[i].0 == token
    ensures OrdinalOf(recent, token).Some? ==> exists i :: 0 <= i < |recent| && recent[i] == (token, OrdinalOf(recent, token).value)
  {
    if recent != [] && recent[0].0 != token {
      OrdinalOfIs(recent[1..], token);
      if OrdinalOf(recent, token).Some? {
        var i :| 0 <= i < |recent[1..]| && recent[1..][i] == (token, OrdinalOf(recent, token).value);
        assert recent[i + 1] == (token, OrdinalOf(recent, token).value);
      } else {
        assert forall i :: 0 < i < |recent| ==> recent[i] == recent[1..][i - 1];
      }
    }
  }

  /** A token is fenced exactly when it is remembered and not the current one. */
  lemma StaleTokenIff(r: SourceRecord, s: Sample, nextOrdinal: nat)
    requires Remembers(r, nextOrdinal)
    ensures StaleToken(r, s) <==> exists i :: 0 < i < |r.recent| && r.recent[i].0 == s.incarnation
  {
    OrdinalOfIs(r.recent, s.incarnation);
  }

  /** The three most recently superseded tokens, being remembered, are always fenced. */
  lemma SupersededIsFenced(r: SourceRecord, s: Sample, nextOrdinal: nat, i: nat)
    requires Remembers(r, nextOrdinal) && 0 < i < |r.recent| && s.incarnation == r.recent[i].0
    ensures Judge(r, s, nextOrdinal) == Verdict(r, nextOrdinal, FencedStaleIncarnation)
  {
    StaleTokenIff(r, s, nextOrdinal);
  }

  /** The order in which samples of a source may be admitted. */
  predicate Before(a: SourceRecord, b: SourceRecord) {
    a.ordinal < b.ordinal || (a.ordinal == b.ordinal && a.lastSequence < b.lastSequence)
  }

  predicate SamePlace(a: SourceRecord, b: SourceRecord) {
    a.ordinal == b.ordinal && a.lastSequence == b.lastSequence
  }

  lemma NewTokenRemembered(r: SourceRecord, s: Sample, nextOrdinal: nat)
    requires Remembers(r, nextOrdinal) && !StaleToken(r, s)
    ensures Remembers(Reincarnated(r, s, nextOrdinal), nextOrdinal + 1)
    ensures r.incarnation == s.incarnation ==> Remembers(Reincarnated(r, s, nextOrdinal), nextOrdinal)
  {
    if r.incarnation != s.incarnation {
      OrdinalOfIs(r.recent, s.incarnation);
      var longer := [(s.incarnation, nextOrdinal)] + r.recent;
      assert forall i :: 0 < i < |longer| ==> longer[i] == r.recent[i - 1];
    }
  }

  /** Whatever a sample says: the record stays in order, its place in (incarnation,
      sequence) never goes back and strictly advances when the sample passes every
      fence, and neither generation nor authority ever goes down. */
  lemma JudgeAdvances(r: SourceRecord, s: Sample, nextOrdinal: nat)
    requires Remembers(r, nextOrdinal)
    ensures (var v := Judge(r, s, nextOrdinal);
      var after := Marked(v, s);
      && v.nextOrdinal >= nextOrdinal && Remembers(after, v.nextOrdinal)
      && (Before(r, after) || SamePlace(r, after)) && (!v.outcome.Fenced() ==> v.outcome.Admitted() && Before(r, after))
      && r.generation <= after.generation && r.authority <= after.authority
      && after.recent == (if after.incarnation == r.incarnation then r.recent
                          else Shortened([(s.incarnation, nextOrdinal)] + r.recent)))
  {
    hide StaleToken, Remembers;
    HeadOrdinal(r, nextOrdinal);
    var v := Judge(r, s, nextOrdinal);
    if StaleToken(r, s) {
      PlaceOnlyMatters(r, Marked(v, s), nextOrdinal);
    } else {
      NewTokenRemembered(r, s, nextOrdinal);
      PlaceOnlyMatters(Reincarnated(r, s, nextOrdinal), Marked(v, s), v.nextOrdinal);
    }
  }

  lemma PlaceOnlyMatters(a: SourceRecord, b: SourceRecord, nextOrdinal: nat)
    requires a.recent == b.recent && a.incarnation == b.incarnation && a.ordinal == b.ordinal
    ensures Remembers(a, nextOrdinal) <==> Remembers(b, nextOrdinal)
  {}

  lemma HeadOrdinal(r: SourceRecord, nextOrdinal: nat)
    requires Remembers(r, nextOrdinal)
    ensures r.ordinal < nextOrdinal
  {}

  /** What a fenced sample leaves behind: nothing but tallies exactly when it failed at
      the first thing in which it differs from the record. */
  lemma FenceLeavesNothingIff(r: SourceRecord, s: Sample, nextOrdinal: nat)
    requires Remembers(r, nextOrdinal) && Judge(r, s, nextOrdinal).outcome.Fenced()
    ensures (var v := Judge(r, s, nextOrdinal);
      v.record.(duplicates := r.duplicates) == r <==>
        match v.outcome
        case FencedStaleIncarnation => true
        case FencedStaleGeneration => s.incarnation == r.incarnation
        case FencedAuthorityDowngrade => s.incarnation == r.incarnation && s.generation == r.generation
        case _ => s.incarnation == r.incarnation && s.generation == r.generation && s.authority == r.authority)
  {
    HeadOrdinal(r, nextOrdinal);
  }

  /** An old token that has been forgotten counts as new again, and its sequence numbers
      with it: the sample's number does not matter. */
  lemma ForgottenTokenReturns(r: SourceRecord, s: Sample, nextOrdinal: nat)
    requires Remembers(r, nextOrdinal) && s.incarnation !in set i | 0 <= i < |r.recent| :: r.recent[i].0
    requires s.generation >= r.generation && s.authority >= r.authority && s.sequence > 0
    ensures Judge(r, s, nextOrdinal).outcome == AcceptedNewIncarnation
  {
    StaleTokenIff(r, s, nextOrdinal);
    assert r.recent[0].0 == r.incarnation;
  }

  // ---- runs of one source ------------------------------------------------------------------

  /** One source's samples, each with the next free ordinal when it came. */
  function RecordAfter(r: SourceRecord, ss: seq<(Sample, nat)>): SourceRecord
    decreases |ss|
  {
    if ss == [] then r
    else RecordAfter(Marked(Judge(r, ss[0].0, ss[0].1), ss[0].0), ss[1..])
  }

  /** Ordinals are given out once, to this source or another. */
  ghost predicate Issued(r: SourceRecord, ss: seq<(Sample, nat)>, nextOrdinal: nat)
    decreases |ss|
  {
    ss != [] ==>
      (var v := Judge(r, ss[0].0, ss[0].1);
       nextOrdinal <= ss[0].1 && Issued(Marked(v, ss[0].0), ss[1..], v.nextOrdinal))
  }

  /** The tokens that became current, newest first. */
  function Lives(r: SourceRecord, ss: seq<(Sample, nat)>, before: seq<(Name, nat)>): seq<(Name, nat)>
    decreases |ss|
  {
    if ss == [] then before
    else
      var next := Marked(Judge(r, ss[0].0, ss[0].1), ss[0].0);
      Lives(next, ss[1..], if next.incarnation == r.incarnation then before else [(next.incarnation, next.ordinal)] + before)
  }

  /** Over any run the record remembers exactly the latest four tokens that were current. */
  lemma {:induction false} RemembersLatestLives(r: SourceRecord, ss: seq<(Sample, nat)>, before: seq<(Name, nat)>, nextOrdinal: nat)
    requires Remembers(r, nextOrdinal) && Issued(r, ss, nextOrdinal) && r.recent == Shortened(before)
    ensures RecordAfter(r, ss).recent == Shortened(Lives(r, ss, before))
    ensures exists n: nat :: Remembers(RecordAfter(r, ss), n)
    ensures Before(r, RecordAfter(r, ss)) || SamePlace(r, RecordAfter(r, ss))
    decreases |ss|
  {
    hide Judge, Marked, Remembers;
    if ss != [] {
      var (s, n) := ss[0];
      RemembersLater(r, nextOrdinal, n);
      JudgeAdvances(r, s, n);
      var next := Marked(Judge(r, s, n), s);
      HeadIs(next, Judge(r, s, n).nextOrdinal);
      var lives := if next.incarnation == r.incarnation then before else [(next.incarnation, next.ordinal)] + before;
      if next.incarnation != r.incarnation {
        assert next.recent[0] == (s.incarnation, n);
        ShortenedTwice((s.incarnation, n), before);
      }
      RemembersLatestLives(next, ss[1..], lives, Judge(r, s, n).nextOrdinal);
    }
  }

  lemma RemembersLater(r: SourceRecord, a: nat, b: nat)
    requires Remembers(r, a) && a <= b
    ensures Remembers(r, b)
  {}

  lemma HeadIs(r: SourceRecord, n: nat)
    requires Remembers(r, n)
    ensures r.recent != [] && r.recent[0] == (r.incarnation, r.ordinal)
  {}

  lemma ShortenedTwice(x: (Name, nat), before: seq<(Name, nat)>)
    ensures Shortened([x] + Shortened(before)) == Shortened([x] + before)
  {}
}
