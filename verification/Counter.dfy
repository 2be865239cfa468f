/** Finite-width device counters: what a reading says about how far one advanced. */
module Counter {
  import opened Wrappers
  import opened Bytes
  import opened Identity
  import opened Checked

  const NANOS_PER_SECOND := 1_000_000_000

  datatype Width = Bits32 | Bits64

  datatype Continuity =
    FirstObservation | Continuous | Unchanged | Wrapped | Reset | Discontinuous | AmbiguousWrap | Undetermined

  datatype Policy = Policy(width: Width, maxGapNs: i64, maxRate: Option<u64>, resetDetection: bool)

  /** A source's own timestamp; the empty domain stands for an unknown clock. */
  datatype ObservationTime = ObservationTime(ns: i64, domain: Name)

  datatype Reading = Reading(raw: u64, observed: ObservationTime, receivedNs: i64)

  datatype Update = Update(continuity: Continuity, known: bool, delta: u64, regressed: bool)

  /** What is remembered of one counter. Tallies count readings and do not wrap. */
  datatype State = State(
    initialized: bool, width: Width, last: Reading, knownTotal: u64, wraps: nat, resets: nat,
    ambiguous: nat, discontinuities: nat, knownDeltas: nat, unknownDeltas: nat)

  function Modulus(w: Width): nat {
    if w == Bits32 then U32_LIMIT else U64_LIMIT
  }

  predicate Comparable(a: ObservationTime, b: ObservationTime) {
    a.domain != [] && b.domain != [] && a.domain == b.domain
  }

  /** Time from one reading to the next: by the source's clock if both readings are on
      it, by the receiver's otherwise. */
  function Gap(a: Reading, b: Reading): int {
    if Comparable(a.observed, b.observed) then b.observed.ns - a.observed.ns else b.receivedNs - a.receivedNs
  }

  /** The rate bound and the gap multiply within 64 bits, so the bound is used. */
  predicate RateUsable(p: Policy, gap: int) {
    p.maxRate.Some? && gap >= 0 && p.maxRate.value * gap <= U64_MAX
  }

  /** How far the counter can have advanced in a gap, as far as the policy says. */
  function MaxAdvance(p: Policy, gap: int): (most: Option<u64>)
    ensures most.Some? <==> RateUsable(p, gap)
  {
    if p.maxRate.None? || gap < 0 || p.maxRate.value * gap > U64_MAX then None
    else Some(p.maxRate.value * gap / NANOS_PER_SECOND)
  }

  /** What the difference of two readings is taken to be. */
  function Delta(w: Width, previous: u64, raw: u64): u64 {
    if raw >= previous then raw - previous else (Modulus(w) - previous + raw) % U64_LIMIT
  }

  /** The policy's bound would have allowed a lap more. */
  predicate Ambiguous(p: Policy, most: Option<u64>, delta: u64) {
    p.width == Bits32 && most.Some? && delta + U32_LIMIT <= U64_MAX && most.value >= delta + U32_LIMIT
  }

  /** What two different readings say, in order and close enough together. */
  function Changed(p: Policy, previous: u64, raw: u64, most: Option<u64>): Update {
    var delta := Delta(p.width, previous, raw);
    if raw < previous && !(p.width == Bits32 && previous - raw > U32_LIMIT / 2) then
      Update(if p.resetDetection then Reset else Undetermined, false, 0, true)
    else if Ambiguous(p, most, delta) then Update(AmbiguousWrap, false, 0, false)
    else Update(if raw < previous then Wrapped else Continuous, true, delta, raw < previous)
  }

  function Interpret(p: Policy, last: Reading, r: Reading): Update {
    var gap := Gap(last, r);
    if gap < 0 then Update(Undetermined, false, 0, false)
    else if p.maxGapNs > 0 && gap > p.maxGapNs then Update(Discontinuous, false, 0, false)
    else if r.raw == last.raw then Update(Unchanged, true, 0, false)
    else Changed(p, last.raw, r.raw, MaxAdvance(p, gap))
  }

  /** A reading that cannot exist for a counter of its width. */
  predicate TooWide(p: Policy, r: Reading) {
    p.width == Bits32 && r.raw >= U32_LIMIT
  }

  function Tallied(s: State, u: Update): State {
    s.(knownTotal := if u.known then (s.knownTotal + u.delta) % U64_LIMIT else s.knownTotal,
       knownDeltas := if u.known then s.knownDeltas + 1 else s.knownDeltas,
       unknownDeltas := if u.known then s.unknownDeltas else s.unknownDeltas + 1,
       wraps := if u.continuity == Wrapped then s.wraps + 1 else s.wraps,
       resets := if u.continuity == Reset then s.resets + 1 else s.resets,
       ambiguous := if u.continuity == AmbiguousWrap then s.ambiguous + 1 else s.ambiguous,
       discontinuities := if u.continuity == Discontinuous then s.discontinuities + 1 else s.discontinuities)
  }

  function Observed(s: State, r: Reading, p: Policy): (State, Update) {
    if !s.initialized then
      (s.(initialized := true, width := p.width, last := r), Update(FirstObservation, false, 0, false))
    else if TooWide(p, r) then
      (Tallied(s.(last := r.(raw := s.last.raw)), Update(Undetermined, false, 0, false)),
       Update(Undetermined, false, 0, false))
    else
      var u := Interpret(p, s.last, r);
      (Tallied(s.(last := r), u), u)
  }

  // ---- the code ---------------------------------------------------------------------

  method MaxAdvanceInGap(p: Policy, gap: int) returns (most: Option<u64>)
    requires gap <= U64_MAX
    ensures most == MaxAdvance(p, gap)
  {
    if p.maxRate.None? || gap < 0 {
      return None;
    }
    var scaled := MulU64(p.maxRate.value, gap);
    if scaled.None? {
      return None;
    }
    return Some(scaled.value / NANOS_PER_SECOND);
  }

  class CounterState {
    var initialized: bool
    var width: Width
    var last: Reading
    var knownTotal: u64
    var wraps: nat
    var resets: nat
    var ambiguous: nat
    var discontinuities: nat
    var knownDeltas: nat
    var unknownDeltas: nat

    ghost function View(): State
      reads this
    {
      State(initialized, width, last, knownTotal, wraps, resets, ambiguous, discontinuities, knownDeltas, unknownDeltas)
    }

    constructor ()
      ensures View() == Fresh()
    {
      initialized, width, last := false, Bits32, Reading(0, ObservationTime(0, []), 0);
      knownTotal, wraps, resets, ambiguous, discontinuities, knownDeltas, unknownDeltas := 0, 0, 0, 0, 0, 0, 0;
    }

    /** Folds a reading in, in place. */
    method UpdateCounter(r: Reading, p: Policy) returns (update: Update)
      modifies this
      ensures (View(), update) == Observed(old(View()), r, p)
    {
      hide Comparable, Changed, MaxAdvance;
      if !initialized {
        initialized, width, last := true, p.width, r;
        return Update(FirstObservation, false, 0, false);
      }
      if p.width == Bits32 && r.raw >= U32_LIMIT {
        last := Reading(last.raw, r.observed, r.receivedNs);
        unknownDeltas := unknownDeltas + 1;
        return Update(Undetermined, false, 0, false);
      }
      var previous := last.raw;
      var gap := if Comparable(last.observed, r.observed) then r.observed.ns - last.observed.ns
                 else r.receivedNs - last.receivedNs;
      last := r;
      if gap < 0 {
        unknownDeltas := unknownDeltas + 1;
        return Update(Undetermined, false, 0, false);
      }
      if p.maxGapNs > 0 && gap > p.maxGapNs {
        discontinuities, unknownDeltas := discontinuities + 1, unknownDeltas + 1;
        return Update(Discontinuous, false, 0, false);
      }
      if r.raw == previous {
        knownDeltas := knownDeltas + 1;
        return Update(Unchanged, true, 0, false);
      }
      var most := MaxAdvanceInGap(p, gap);
      update := InterpretChange(previous, r.raw, most, p);
      Tally(update);
    }

    /** Where the reading differs from the one before: how far the counter is taken to
        have gone. */
    static method InterpretChange(previous: u64, raw: u64, most: Option<u64>, p: Policy) returns (update: Update)
      requires raw != previous
      ensures update == Changed(p, previous, raw, most) && update.continuity != Discontinuous
    {
      if raw > previous {
        var delta := raw - previous;
        if most.Some? && p.width == Bits32 {
          var extra := AddU64(delta, U32_LIMIT);
          if extra.Some? && most.value >= extra.value {
            return Update(AmbiguousWrap, false, 0, false);
          }
        }
        return Update(Continuous, true, delta, false);
      }
      if p.width == Bits32 && previous - raw > U32_LIMIT / 2 {
        var delta := (U32_LIMIT - previous + raw) % U64_LIMIT;
        if most.Some? {
          var extra := AddU64(delta, U32_LIMIT);
          if extra.Some? && most.value >= extra.value {
            return Update(AmbiguousWrap, false, 0, false);
          }
        }
        return Update(Wrapped, true, delta, true);
      }
      return Update(if p.resetDetection then Reset else Undetermined, false, 0, true);
    }

    method Tally(update: Update)
      requires update.continuity != Discontinuous
      modifies `knownTotal, `wraps, `resets, `ambiguous, `knownDeltas, `unknownDeltas
      ensures View() == Tallied(old(View()), update)
    {
      if update.known {
        knownTotal, knownDeltas := (knownTotal + update.delta) % U64_LIMIT, knownDeltas + 1;
      } else {
        unknownDeltas := unknownDeltas + 1;
      }
      if update.continuity == Wrapped {
        wraps := wraps + 1;
      } else if update.continuity == Reset {
        resets := resets + 1;
      } else if update.continuity == AmbiguousWrap {
        ambiguous := ambiguous + 1;
      }
    }
  }

  function Fresh(): State {
    State(false, Bits32, Reading(0, ObservationTime(0, []), 0), 0, 0, 0, 0, 0, 0, 0)
  }

  // ---- one step: is the claimed delta true? ----------------------------------------------

  /** A counter that stood at `from` and, never having been reset, stands at `to`. */
  predicate Advanced(w: Width, from: nat, to: nat, last: u64, raw: u64) {
    from <= to && (w == Bits64 ==> to < U64_LIMIT) && last == from % Modulus(w) && raw == to % Modulus(w)
  }

  predicate WithinRate(p: Policy, gap: int, from: nat, to: nat) {
    p.maxRate.Some? && gap >= 0 && NANOS_PER_SECOND * (to - from) <= p.maxRate.value * gap
  }

  lemma AdvanceIsDelta(w: Width, from: nat, to: nat, last: u64, raw: u64) returns (laps: nat)
    requires Advanced(w, from, to, last, raw)
    ensures Delta(w, last, raw) < Modulus(w)
    ensures to - from == Delta(w, last, raw) + laps * Modulus(w)
  {
    var m := Modulus(w);
    var turns := to / m - from / m;
    assert from == (from / m) * m + last && to == (to / m) * m + raw;
    assert to - from == turns * m + raw - last;
    Grows(turns, m);
    if raw >= last {
      laps := turns;
    } else {
      assert turns > 0;
      assert (turns - 1) * m == turns * m - m;
      laps := turns - 1;
    }
  }

  predicate Claims(c: Continuity) {
    c == Continuous || c == Wrapped
  }

  /** A claimed advance of a never-reset 32-bit counter that keeps to the rate bound is
      its true advance, when the bound can be used at all. */
  lemma ClaimIsTrue(p: Policy, last: Reading, r: Reading, from: nat, to: nat)
    requires Advanced(p.width, from, to, last.raw, r.raw)
    requires p.width == Bits32 ==> WithinRate(p, Gap(last, r), from, to) && RateUsable(p, Gap(last, r))
    requires Claims(Interpret(p, last, r).continuity)
    ensures Interpret(p, last, r).delta == to - from
  {
    hide Gap;
    var laps := AdvanceIsDelta(p.width, from, to, last.raw, r.raw);
    Grows(laps, Modulus(p.width));
    if p.width == Bits32 {
      RateBounds(p, Gap(last, r), from, to);
    }
  }

  lemma RateBounds(p: Policy, gap: int, from: nat, to: nat)
    requires from <= to && RateUsable(p, gap)
    ensures WithinRate(p, gap, from, to) <==> to - from <= MaxAdvance(p, gap).value
  {
    var most := p.maxRate.value * gap;
    assert most == (most / NANOS_PER_SECOND) * NANOS_PER_SECOND + most % NANOS_PER_SECOND;
  }

  ghost predicate Determined(p: Policy, last: Reading, r: Reading) {
    forall from: nat, to: nat ::
      Advanced(p.width, from, to, last.raw, r.raw) && WithinRate(p, Gap(last, r), from, to)
      ==> to - from == Delta(p.width, last.raw, r.raw)
  }

  /** Two readings and the rate bound leave one possible advance exactly when a lap more
      than the difference would be too fast. */
  lemma DeterminedIff(p: Policy, last: Reading, r: Reading)
    requires p.width == Bits32 && last.raw < U32_LIMIT && r.raw < U32_LIMIT && RateUsable(p, Gap(last, r))
    ensures Determined(p, last, r) <==> MaxAdvance(p, Gap(last, r)).value < Delta(p.width, last.raw, r.raw) + U32_LIMIT
  {
    hide Gap, MaxAdvance, Advanced, WithinRate, RateUsable, Delta;
    var gap, delta := Gap(last, r), Delta(p.width, last.raw, r.raw);
    forall from: nat, to: nat | Advanced(p.width, from, to, last.raw, r.raw) && WithinRate(p, gap, from, to)
      ensures to - from == delta || MaxAdvance(p, gap).value >= delta + U32_LIMIT
    {
      var laps := AdvanceIsDelta(p.width, from, to, last.raw, r.raw);
      Ordered(p.width, from, to, last.raw, r.raw);
      RateBounds(p, gap, from, to);
      Grows(laps, U32_LIMIT);
    }
    LapMore(last.raw, r.raw);
    RateBounds(p, gap, last.raw, last.raw + delta + U32_LIMIT);
  }

  lemma Ordered(w: Width, from: nat, to: nat, last: u64, raw: u64)
    requires Advanced(w, from, to, last, raw)
    ensures from <= to
  {}

  /** One lap more than the difference ends at the same reading. */
  lemma LapMore(last: u64, raw: u64)
    requires last < U32_LIMIT && raw < U32_LIMIT
    ensures Advanced(Bits32, last, last + Delta(Bits32, last, raw) + U32_LIMIT, last, raw)
  {}

  /** So the code claims a change exactly where the readings determine it; but readings
      that are equal are claimed as no change even where a whole lap was possible. */
  lemma ClaimsWhatIsDetermined(p: Policy, last: Reading, r: Reading)
    requires p.width == Bits32 && last.raw < U32_LIMIT && r.raw < U32_LIMIT && RateUsable(p, Gap(last, r))
    ensures (var c := Interpret(p, last, r).continuity;
      && (c == Continuous || c == Wrapped ==> Determined(p, last, r))
      && (c == AmbiguousWrap ==> !Determined(p, last, r))
      && (c == Unchanged ==> (Determined(p, last, r) <==> MaxAdvance(p, Gap(last, r)).value < U32_LIMIT)))
  {
    hide Gap;
    DeterminedIff(p, last, r);
  }

  /** Without a usable rate bound a 32-bit difference never determines the advance. */
  lemma NothingDeterminedWithoutRate(last: u64, raw: u64)
    requires last < U32_LIMIT && raw < U32_LIMIT
    ensures exists from: nat, to: nat :: Advanced(Bits32, from, to, last, raw) && to - from != Delta(Bits32, last, raw)
  {
    LapMore(last, raw);
  }

  // ---- runs -------------------------------------------------------------------------------

  function After(s: State, rs: seq<Reading>, p: Policy): State
    decreases |rs|
  {
    if rs == [] then s else After(Observed(s, rs[0], p).0, rs[1..], p)
  }

  function Updates(s: State, rs: seq<Reading>, p: Policy): (us: seq<Update>)
    ensures |us| == |rs|
    decreases |rs|
  {
    if rs == [] then [] else
      var (next, u) := Observed(s, rs[0], p);
      [u] + Updates(next, rs[1..], p)
  }

  function Sum(us: seq<Update>): nat {
    if us == [] then 0 else us[0].delta + Sum(us[1..])
  }

  predicate AllKnown(us: seq<Update>) {
    forall u :: u in us ==> u.known
  }

  /** The total is the sum of the claimed deltas, and every reading after the first is
      tallied once, as known or unknown. */
  lemma {:induction false} TotalIsSum(s: State, rs: seq<Reading>, p: Policy)
    requires s.initialized
    ensures (var t := After(s, rs, p);
      && t.knownTotal == (s.knownTotal + Sum(Updates(s, rs, p))) % U64_LIMIT
      && t.knownDeltas + t.unknownDeltas == s.knownDeltas + s.unknownDeltas + |rs|
      && (s.knownTotal + Sum(Updates(s, rs, p)) <= U64_MAX ==> t.knownTotal == s.knownTotal + Sum(Updates(s, rs, p))))
    decreases |rs|
  {
    hide Observed;
    if rs != [] {
      var (next, u) := Observed(s, rs[0], p);
      TotalStep(s, rs[0], p);
      TotalIsSum(next, rs[1..], p);
      var rest := Sum(Updates(next, rs[1..], p));
      assert Updates(s, rs, p)[1..] == Updates(next, rs[1..], p);
      SumModulo(s.knownTotal, u.delta, rest, U64_LIMIT);
    }
  }

  lemma TotalStep(s: State, r: Reading, p: Policy)
    requires s.initialized
    ensures (var (next, u) := Observed(s, r, p);
      && next.initialized && next.knownTotal == (s.knownTotal + u.delta) % U64_LIMIT
      && next.knownDeltas + next.unknownDeltas == s.knownDeltas + s.unknownDeltas + 1)
  {
    hide Gap, MaxAdvance, Ambiguous, Delta;
  }

  lemma SumModulo(a: nat, b: nat, c: nat, m: nat)
    requires m > 0
    ensures ((a + b) % m + c) % m == (a + (b + c)) % m
  {
    var q := (a + b) / m;
    assert a + b == q * m + (a + b) % m;
    Cancel((a + b) % m + c, q, m);
  }

  /** Over a stretch of known deltas the readings and the claims agree around the circle,
      whatever the baseline was. */
  lemma {:induction false} KnownStretchAgrees(s: State, rs: seq<Reading>, p: Policy)
    requires s.initialized && AllKnown(Updates(s, rs, p))
    ensures (s.last.raw + Sum(Updates(s, rs, p))) % U32_LIMIT == After(s, rs, p).last.raw % U32_LIMIT
    ensures p.width == Bits64 ==> s.last.raw + Sum(Updates(s, rs, p)) == After(s, rs, p).last.raw
    decreases |rs|
  {
    hide Observed;
    if rs != [] {
      var (next, u) := Observed(s, rs[0], p);
      var us := Updates(s, rs, p);
      assert us[0] == u && u in us && us[1..] == Updates(next, rs[1..], p);
      assert AllKnown(us[1..]);
      KnownStep(s, rs[0], p);
      KnownStretchAgrees(next, rs[1..], p);
      DeltaCongruent(p.width, s.last.raw, rs[0].raw);
      var rest := Sum(us[1..]);
      SumModulo(s.last.raw, u.delta, rest, U32_LIMIT);
      SumModulo(0, rs[0].raw, rest, U32_LIMIT);
    }
  }

  lemma KnownStep(s: State, r: Reading, p: Policy)
    requires s.initialized && Observed(s, r, p).1.known
    ensures (var (next, u) := Observed(s, r, p);
      && next.initialized && next.last.raw == r.raw && u.delta == Delta(p.width, s.last.raw, r.raw)
      && (p.width == Bits64 ==> r.raw >= s.last.raw))
  {
    hide Gap, MaxAdvance, Ambiguous;
  }

  lemma DeltaCongruent(w: Width, last: u64, raw: u64)
    ensures (last + Delta(w, last, raw)) % U32_LIMIT == raw % U32_LIMIT
  {
    if raw < last {
      var x := Modulus(w) - last + raw;
      var q := x / U64_LIMIT;
      assert x == q * U64_LIMIT + Delta(w, last, raw);
      assert last + Delta(w, last, raw) == raw + (Modulus(w) / U32_LIMIT - q * U32_LIMIT) * U32_LIMIT;
      Cancel(raw, Modulus(w) / U32_LIMIT - q * U32_LIMIT, U32_LIMIT);
    }
  }

  /** Readings of one counter that only ever goes up, at most as fast as the policy says. */
  ghost predicate Truthful(p: Policy, last: Reading, from: nat, rs: seq<Reading>, counts: seq<nat>)
    decreases |rs|
  {
    |counts| == |rs| && (rs != [] ==>
      && Advanced(p.width, from, counts[0], last.raw, rs[0].raw)
      && (p.width == Bits32 ==> WithinRate(p, Gap(last, rs[0]), from, counts[0]) && RateUsable(p, Gap(last, rs[0])))
      && Truthful(p, rs[0], counts[0], rs[1..], counts[1..]))
  }

  predicate Moved(us: seq<Update>) {
    forall u :: u in us ==> Claims(u.continuity)
  }

  /** Over any stretch of claimed movement the claims add up to what really happened. */
  lemma {:induction false} ClaimsAddUp(s: State, from: nat, rs: seq<Reading>, counts: seq<nat>, p: Policy)
    requires s.initialized && rs != [] && Truthful(p, s.last, from, rs, counts) && Moved(Updates(s, rs, p))
    ensures from <= counts[|counts| - 1] && Sum(Updates(s, rs, p)) == counts[|counts| - 1] - from
    decreases |rs|
  {
    hide Interpret, WithinRate, RateUsable;
    var (next, u) := Observed(s, rs[0], p);
    var us := Updates(s, rs, p);
    assert us[0] == u && u in us && us[1..] == Updates(next, rs[1..], p);
    ClaimIsTrue(p, s.last, rs[0], from, counts[0]);
    if |rs| > 1 {
      assert Moved(us[1..]);
      ClaimsAddUp(next, counts[0], rs[1..], counts[1..], p);
    } else {
      assert us[1..] == [];
    }
  }

  // ---- where the claims go wrong ---------------------------------------------------------------

  /** A backwards reading is one lap's distance exactly when the earlier reading is at
      most one lap ahead of it; the width of the very first reading is never checked. */
  lemma OneLapIff(p: Policy, last: Reading, r: Reading)
    requires p.width == Bits32 && r.raw < U32_LIMIT && Interpret(p, last, r).continuity == Wrapped
    ensures Delta(p.width, last.raw, r.raw) == U32_LIMIT + r.raw - last.raw <==> last.raw <= U32_LIMIT + r.raw
    ensures last.raw < U32_LIMIT ==> Delta(p.width, last.raw, r.raw) < U32_LIMIT / 2
    ensures last.raw > U32_LIMIT + r.raw ==> Delta(p.width, last.raw, r.raw) >= U32_LIMIT
  {}

  /** A first reading wider than the counter makes the second one claim an absurd delta. */
  lemma WideBaseline(time: ObservationTime)
    ensures (var p := Policy(Bits32, 0, None, true);
      var us := Updates(Fresh(), [Reading(0x100_0000_0000, time, 0), Reading(5, time, 0)], p);
      us[1] == Update(Wrapped, true, U64_LIMIT - 0x100_0000_0000 + U32_LIMIT + 5, true))
  {
    var p := Policy(Bits32, 0, None, true);
    var first, second := Reading(0x100_0000_0000, time, 0), Reading(5, time, 0);
    var rs := [first, second];
    var s := Observed(Fresh(), first, p).0;
    assert rs[1..] == [second];
    assert Updates(Fresh(), rs, p)[1] == Updates(s, [second], p)[0] == Observed(s, second, p).1;
  }

  /** A run of readings that are all too wide to be taken. */
  predicate AllTooWide(p: Policy, rs: seq<Reading>) {
    forall r :: r in rs ==> TooWide(p, r)
  }

  /** Refused readings leave the baseline and move the clock to the last of them. */
  lemma {:induction false} RefusedKeepBaseline(s: State, wide: seq<Reading>, p: Policy)
    requires s.initialized && AllTooWide(p, wide)
    ensures (var t := After(s, wide, p);
      && t.initialized && t.last.raw == s.last.raw && t.knownTotal == s.knownTotal
      && t.last == (if wide == [] then s.last else wide[|wide| - 1].(raw := s.last.raw)))
    decreases |wide|
  {
    if wide != [] {
      assert wide[0] in wide && forall r :: r in wide[1..] ==> r in wide;
      RefusedKeepBaseline(Observed(s, wide[0], p).0, wide[1..], p);
    }
  }

  /** A delta is right whatever the counter did since a reading, within the rate bound. */
  ghost predicate RightSince(p: Policy, last: Reading, r: Reading, delta: u64) {
    forall from: nat, to: nat ::
      Advanced(p.width, from, to, last.raw, r.raw) && WithinRate(p, Gap(last, r), from, to) ==> to - from == delta
  }

  /** After any run of refused readings, what is claimed for the next good one is right exactly
      when one lap more would have been too fast over the time since the last good one; the code
      asks about the time since the last refused one. */
  lemma ClaimAfterRefusedIff(s: State, wide: seq<Reading>, r: Reading, p: Policy)
    requires s.initialized && p.width == Bits32 && s.last.raw < U32_LIMIT && r.raw < U32_LIMIT
    requires AllTooWide(p, wide) && RateUsable(p, Gap(s.last, r))
    requires Claims(Interpret(p, After(s, wide, p).last, r).continuity)
    ensures (var u := Observed(After(s, wide, p), r, p).1;
      && u.delta == Delta(Bits32, s.last.raw, r.raw)
      && (RightSince(p, s.last, r, u.delta) <==> MaxAdvance(p, Gap(s.last, r)).value < u.delta + U32_LIMIT))
  {
    hide Gap, MaxAdvance, Advanced, WithinRate, RateUsable, Delta, After;
    RefusedKeepBaseline(s, wide, p);
    ClaimIsDelta(p, After(s, wide, p).last, r);
    DeterminedIff(p, s.last, r);
  }

  lemma ClaimIsDelta(p: Policy, last: Reading, r: Reading)
    requires p.width == Bits32 && last.raw < U32_LIMIT && r.raw < U32_LIMIT && Claims(Interpret(p, last, r).continuity)
    ensures Interpret(p, last, r).delta == Delta(Bits32, last.raw, r.raw)
  {
    hide Gap, MaxAdvance;
  }

  /** A refused reading moves the clock but not the baseline, so the next gap is too
      short: a claim can miss a lap that the rate bound allowed for. */
  lemma RefusedReadingHidesTime(domain: Name)
    requires domain != []
    ensures (var p := Policy(Bits32, 0, Some(U32_LIMIT + 5), true);
      var rs := [Reading(10, ObservationTime(0, domain), 0),
                 Reading(U32_LIMIT, ObservationTime(NANOS_PER_SECOND, domain), 0),
                 Reading(15, ObservationTime(NANOS_PER_SECOND, domain), 0)];
      && Updates(Fresh(), rs, p)[2] == Update(Continuous, true, 5, false)
      && Advanced(Bits32, 10, U32_LIMIT + 15, rs[0].raw, rs[2].raw)
      && WithinRate(p, Gap(rs[0], rs[2]), 10, U32_LIMIT + 15))
  {
    var p := Policy(Bits32, 0, Some(U32_LIMIT + 5), true);
    var a := Reading(10, ObservationTime(0, domain), 0);
    var b := Reading(U32_LIMIT, ObservationTime(NANOS_PER_SECOND, domain), 0);
    var c := Reading(15, ObservationTime(NANOS_PER_SECOND, domain), 0);
    var rs := [a, b, c];
    var s1 := Observed(Fresh(), a, p).0;
    var s2 := Observed(s1, b, p).0;
    assert rs[1..] == [b, c] && [b, c][1..] == [c];
    assert Updates(Fresh(), rs, p)[2] == Updates(s1, [b, c], p)[1] == Updates(s2, [c], p)[0] == Observed(s2, c, p).1;
  }
}
