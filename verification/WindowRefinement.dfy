/** Windows over observations that arrive in order of receive time, against a direct
    grouping of those observations. */
module WindowRefinement {
  import opened Wrappers
  import opened Bytes
  import opened Checked
  import opened Classification
  import opened History
  import opened Window

  // ---- the direct grouping -----------------------------------------------------------------

  predicate Ordered(os: seq<Observation>) {
    forall i, j :: 0 <= i < j < |os| ==> os[i].steadyNs <= os[j].steadyNs
  }

  function StartOf(spec: WindowSpec, o: Observation): int {
    AlignBucket(o.steadyNs, spec.bucketNs)
  }

  /** The start of an observation's bucket is itself a 64-bit time. */
  predicate Representable(spec: WindowSpec, os: seq<Observation>) {
    forall o :: o in os ==> StartOf(spec, o) >= I64_MIN
  }

  /** The starts that occur, in order of first occurrence. */
  function Starts(spec: WindowSpec, os: seq<Observation>): seq<int>
    decreases |os|
  {
    if os == [] then []
    else
      var before := Starts(spec, os[..|os| - 1]);
      var start := StartOf(spec, os[|os| - 1]);
      if start in before then before else before + [start]
  }

  /** The observations of one bucket, in order. */
  function Members(spec: WindowSpec, os: seq<Observation>, start: int): seq<Observation>
    decreases |os|
  {
    if os == [] then []
    else
      var before := Members(spec, os[..|os| - 1], start);
      if StartOf(spec, os[|os| - 1]) == start then before + [os[|os| - 1]] else before
  }

  function TrueSum(ms: seq<Observation>, k: nat): nat
    requires k < SUM_COUNT
    decreases |ms|
  {
    if ms == [] then 0
    else
      var d := ms[|ms| - 1].deltas[k];
      TrueSum(ms[..|ms| - 1], k) + if d.known then d.delta else 0
  }

  function CountUnknown(ms: seq<Observation>): nat {
    |Where(ms, (o: Observation) => o.anyUnknown)|
  }

  function CountNonCurrent(ms: seq<Observation>): nat {
    |Where(ms, (o: Observation) => !o.establishesCurrent)|
  }

  function Where(ms: seq<Observation>, p: Observation -> bool): seq<Observation>
    decreases |ms|
  {
    if ms == [] then []
    else
      var before := Where(ms[..|ms| - 1], p);
      if p(ms[|ms| - 1]) then before + [ms[|ms| - 1]] else before
  }

  function Reporting(ms: seq<Observation>): seq<Observation> {
    Where(ms, (o: Observation) => o.occupancy.Some?)
  }

  /** The occupancy seen: the largest, the smallest and the latest of the values reported. */
  ghost predicate SummarisesOccupancy(occupancy: Option<Occupancy>, rs: seq<Observation>) {
    && (forall o :: o in rs ==> o.occupancy.Some?)
    && (occupancy.None? <==> rs == [])
    && (occupancy.Some? ==>
          && (forall o :: o in rs ==> occupancy.value.min <= o.occupancy.value <= occupancy.value.max)
          && (exists o :: o in rs && o.occupancy.value == occupancy.value.max)
          && (exists o :: o in rs && o.occupancy.value == occupancy.value.min)
          && rs[|rs| - 1].occupancy.value == occupancy.value.last)
  }

  ghost predicate SummarisesSums(sums: Sums, ms: seq<Observation>) {
    forall k :: 0 <= k < SUM_COUNT ==> sums[k] == if TrueSum(ms, k) > U64_MAX then U64_MAX else TrueSum(ms, k)
  }

  ghost predicate SummarisesTime(last: int, ms: seq<Observation>) {
    && last >= 0 && (forall o :: o in ms ==> o.steadyNs <= last)
    && (last > 0 ==> exists o :: o in ms && o.steadyNs == last)
  }

  /** A bucket says about some observations what can be said of them directly. */
  ghost predicate Summarises(b: Bucket, ms: seq<Observation>) {
    && b.count == |ms| && b.unknown == CountUnknown(ms) && b.nonCurrent == CountNonCurrent(ms)
    && SummarisesOccupancy(b.occupancy, Reporting(ms)) && SummarisesSums(b.sums, ms)
    && SummarisesTime(b.lastReceivedNs, ms)
  }

  // ---- adding one observation ------------------------------------------------------------------

  lemma BlankSummarises(start: int)
    ensures Summarises(Blank(start), [])
  {}

  lemma WhereSnoc(ms: seq<Observation>, o: Observation, p: Observation -> bool)
    ensures Where(ms + [o], p) == if p(o) then Where(ms, p) + [o] else Where(ms, p)
  {
    assert (ms + [o])[..|ms|] == ms;
  }

  lemma TrueSumSnoc(ms: seq<Observation>, o: Observation, k: nat)
    requires k < SUM_COUNT
    ensures TrueSum(ms + [o], k) == TrueSum(ms, k) + if o.deltas[k].known then o.deltas[k].delta else 0
  {
    assert (ms + [o])[..|ms|] == ms;
  }

  lemma OccupancyGrows(before: Option<Occupancy>, rs: seq<Observation>, o: Observation)
    requires SummarisesOccupancy(before, rs) && o.occupancy.Some?
    ensures SummarisesOccupancy(Some(AddOccupancy(before, o.occupancy.value)), rs + [o])
  {
    var all := rs + [o];
    var now := AddOccupancy(before, o.occupancy.value);
    assert o in all;
    if before.Some? {
      var a :| a in rs && a.occupancy.value == before.value.max;
      var b :| b in rs && b.occupancy.value == before.value.min;
      assert a in all && b in all;
    }
  }

  lemma AddedSummarises(b: Bucket, ms: seq<Observation>, o: Observation)
    requires Summarises(b, ms)
    ensures Summarises(Added(b, o), ms + [o])
  {
    hide Where, TrueSum, SummarisesOccupancy;
    WhereSnoc(ms, o, (o: Observation) => o.anyUnknown);
    WhereSnoc(ms, o, (o: Observation) => !o.establishesCurrent);
    WhereSnoc(ms, o, (o: Observation) => o.occupancy.Some?);
    if o.occupancy.Some? {
      OccupancyGrows(b.occupancy, Reporting(ms), o);
    }
    forall k | 0 <= k < SUM_COUNT
      ensures Added(b, o).sums[k] == if TrueSum(ms + [o], k) > U64_MAX then U64_MAX else TrueSum(ms + [o], k)
    {
      TrueSumSnoc(ms, o, k);
    }
    assert o in ms + [o];
    if b.lastReceivedNs > 0 && o.steadyNs <= b.lastReceivedNs {
      var a :| a in ms && a.steadyNs == b.lastReceivedNs;
      assert a in ms + [o];
    }
  }

  // ---- starts ---------------------------------------------------------------------------------

  predicate StrictlyAscending(s: seq<int>) {
    forall i, j :: 0 <= i < j < |s| ==> s[i] < s[j]
  }

  lemma {:induction false} StartsOccur(spec: WindowSpec, os: seq<Observation>)
    ensures forall o :: o in os ==> StartOf(spec, o) in Starts(spec, os)
    ensures forall s :: s in Starts(spec, os) ==> exists o :: o in os && StartOf(spec, o) == s
    decreases |os|
  {
    hide StartOf;
    if os != [] {
      var last := os[|os| - 1];
      StartsOccur(spec, os[..|os| - 1]);
      assert os == os[..|os| - 1] + [last];
      forall s | s in Starts(spec, os)
        ensures exists o :: o in os && StartOf(spec, o) == s
      {
        if s in Starts(spec, os[..|os| - 1]) {
          var o :| o in os[..|os| - 1] && StartOf(spec, o) == s;
          assert o in os;
        } else {
          assert last in os && StartOf(spec, last) == s;
        }
      }
    }
  }

  /** Observations in order have starts in order: the next is the last one again or a later one. */
  lemma {:induction false} StartsAscend(spec: WindowSpec, os: seq<Observation>)
    requires spec.bucketNs > 0 && Ordered(os)
    ensures StrictlyAscending(Starts(spec, os))
    ensures os != [] ==> Starts(spec, os) != [] && Starts(spec, os)[|Starts(spec, os)| - 1] == StartOf(spec, os[|os| - 1])
    decreases |os|
  {
    hide AlignBucket;
    if os != [] {
      var before, last := os[..|os| - 1], os[|os| - 1];
      StartsAscend(spec, before);
      if before != [] {
        AlignMonotone(before[|before| - 1].steadyNs, last.steadyNs, spec.bucketNs);
        var s := Starts(spec, before);
        assert StartOf(spec, last) in s ==> StartOf(spec, last) == s[|s| - 1];
      }
    }
  }

  lemma {:induction false} NoMembers(spec: WindowSpec, os: seq<Observation>, start: int)
    requires start !in Starts(spec, os)
    ensures Members(spec, os, start) == []
    decreases |os|
  {
    if os != [] {
      NoMembers(spec, os[..|os| - 1], start);
    }
  }

  // ---- retained starts ------------------------------------------------------------------------

  function StartsIn(bs: seq<Bucket>): (s: seq<int>)
    ensures |s| == |bs| && forall i :: 0 <= i < |bs| ==> s[i] == bs[i].start
  {
    seq(|bs|, i requires 0 <= i < |bs| => bs[i].start)
  }

  /** How many starts lie before a cutoff. */
  function Below(s: seq<int>, cutoff: int): (n: nat)
    ensures n <= |s|
    ensures forall i :: 0 <= i < n ==> s[i] < cutoff
    ensures n < |s| ==> s[n] >= cutoff
  {
    if s == [] || s[0] >= cutoff then 0 else 1 + Below(s[1..], cutoff)
  }

  /** The newest of the starts inside the window. */
  function Current(spec: WindowSpec, s: seq<int>, now: i64): seq<int>
    requires spec.Valid()
  {
    Newest(s[Below(s, SubtractClamped(now, spec.durationNs))..], spec.BucketCount())
  }

  /** Where the current starts begin. */
  function FirstCurrent(spec: WindowSpec, s: seq<int>, now: i64): (n: nat)
    requires spec.Valid()
    ensures n <= |s|
  {
    var below := Below(s, SubtractClamped(now, spec.durationNs));
    if |s| - below <= spec.BucketCount() then below else |s| - spec.BucketCount()
  }

  lemma CurrentIsSuffix(spec: WindowSpec, s: seq<int>, now: i64)
    requires spec.Valid()
    ensures Current(spec, s, now) == s[FirstCurrent(spec, s, now)..]
  {}

  /** Buckets hold the observations of some starts from one on, and all of them. */
  ghost predicate Grouped(spec: WindowSpec, bs: seq<Bucket>, os: seq<Observation>, from: nat) {
    && from <= |Starts(spec, os)| && StartsIn(bs) == Starts(spec, os)[from..]
    && forall b :: b in bs ==> Summarises(b, Members(spec, os, b.start))
  }

  function Max(a: nat, b: nat): nat {
    if a >= b then a else b
  }

  /** Starts split around a cutoff in one place only. */
  lemma SplitOnce(s: seq<int>, cutoff: int, m: nat, n: nat)
    requires m <= |s| && n <= |s|
    requires (forall i :: 0 <= i < m ==> s[i] < cutoff) && (m < |s| ==> s[m] >= cutoff)
    requires (forall i :: 0 <= i < n ==> s[i] < cutoff) && (n < |s| ==> s[n] >= cutoff)
    ensures m == n
  {}

  lemma StartsOfSuffix(bs: seq<Bucket>, gone: nat)
    requires gone <= |bs|
    ensures StartsIn(bs[gone..]) == StartsIn(bs)[gone..]
  {}

  lemma BelowInSuffix(s: seq<int>, from: nat, cutoff: int, gone: nat)
    requires StrictlyAscending(s) && from <= |s| && gone <= |s| - from
    requires forall i :: 0 <= i < gone ==> s[from..][i] < cutoff
    requires gone < |s| - from ==> s[from..][gone] >= cutoff
    ensures from + gone == Max(from, Below(s, cutoff)) && s[from..][gone..] == s[Max(from, Below(s, cutoff))..]
  {
    var below := Below(s, cutoff);
    SplitOnce(s[from..], cutoff, gone, if from >= below then 0 else below - from);
  }

  lemma ExpireGrouped(w: Accumulator, os: seq<Observation>, from: nat, now: i64)
    requires w.spec.Valid() && StrictlyAscending(Starts(w.spec, os)) && Grouped(w.spec, w.buckets, os, from)
    ensures Grouped(w.spec, AfterExpiry(w, now).buckets, os,
                    Max(from, Below(Starts(w.spec, os), SubtractClamped(now, w.spec.durationNs))))
  {
    hide Summarises, Members, Starts, Below, DropOld, SubtractClamped, StartsIn, StrictlyAscending;
    var cutoff := SubtractClamped(now, w.spec.durationNs);
    DropOldKeeps(w, cutoff);
    var v := AfterExpiry(w, now);
    var gone := |w.buckets| - |v.buckets|;
    StartsOfSuffix(w.buckets, gone);
    BelowInSuffix(Starts(w.spec, os), from, cutoff, gone);
  }

  lemma FindLast(bs: seq<Bucket>, start: int)
    requires bs != [] && bs[|bs| - 1].start == start
    ensures Find(bs, start) == Some(|bs| - 1)
  {}

  lemma MembersSnoc(spec: WindowSpec, os: seq<Observation>, o: Observation, start: int)
    ensures Members(spec, os + [o], start)
         == if StartOf(spec, o) == start then Members(spec, os, start) + [o] else Members(spec, os, start)
  {
    assert (os + [o])[..|os|] == os;
  }

  lemma StartsSnoc(spec: WindowSpec, os: seq<Observation>, o: Observation)
    ensures Starts(spec, os + [o])
         == if StartOf(spec, o) in Starts(spec, os) then Starts(spec, os) else Starts(spec, os) + [StartOf(spec, o)]
  {
    assert (os + [o])[..|os|] == os;
  }

  /** A start later than all retained ones goes to the tail, pushing out the oldest
      bucket when all are in use. */
  lemma NewAtTail(v: Accumulator, start: int)
    requires v.spec.Valid() && |v.buckets| <= v.spec.BucketCount()
    requires forall i :: 0 <= i < |v.buckets| ==> v.buckets[i].start < start
    ensures (var (u, index) := Located(v, start);
      && u.spec == v.spec && index == Some(|u.buckets| - 1)
      && u.buckets == Newest(v.buckets + [Blank(start)], v.spec.BucketCount()))
  {
    NewestGrows(v.buckets, Blank(start), v.spec.BucketCount());
  }

  /** How far the retained starts reach back once the starts are s. */
  function Reach(spec: WindowSpec, s: seq<int>, from: nat): nat
    requires spec.Valid() && from <= |s|
  {
    if |s| - from <= spec.BucketCount() then from else |s| - spec.BucketCount()
  }

  function AddedToLast(bs: seq<Bucket>, o: Observation): seq<Bucket>
    requires bs != []
  {
    bs[|bs| - 1 := Added(bs[|bs| - 1], o)]
  }

  lemma AddToLast(spec: WindowSpec, bs: seq<Bucket>, os: seq<Observation>, o: Observation, from: nat)
    requires spec.Valid() && bs != [] && StrictlyAscending(Starts(spec, os + [o]))
    requires from <= |Starts(spec, os + [o])| && StartsIn(bs) == Starts(spec, os + [o])[from..]
    requires bs[|bs| - 1].start == StartOf(spec, o)
    requires forall b :: b in bs ==> Summarises(b, Members(spec, os, b.start))
    ensures Grouped(spec, AddedToLast(bs, o), os + [o], from)
  {
    hide Summarises, Members, Starts, Added;
    var last := |bs| - 1;
    var b := bs[last];
    assert b in bs;
    AddedSummarises(b, Members(spec, os, b.start), o);
    var now := AddedToLast(bs, o);
    forall c | c in now
      ensures Summarises(c, Members(spec, os + [o], c.start))
    {
      MembersSnoc(spec, os, o, c.start);
      var i :| 0 <= i <= last && now[i] == c;
      if i < last {
        assert StartsIn(bs)[i] < StartsIn(bs)[last];
        assert bs[i] in bs;
      }
    }
  }

  lemma LocateGrouped(v: Accumulator, os: seq<Observation>, o: Observation, from: nat)
    requires v.spec.Valid() && |v.buckets| <= v.spec.BucketCount() && Grouped(v.spec, v.buckets, os, from)
    requires StrictlyAscending(Starts(v.spec, os + [o]))
    requires StartOf(v.spec, o) in Starts(v.spec, os) ==>
               from < |Starts(v.spec, os)| && Starts(v.spec, os)[|Starts(v.spec, os)| - 1] == StartOf(v.spec, o)
    ensures from <= |Starts(v.spec, os + [o])|
    ensures Grouped(v.spec, Placed(v, o).buckets, os + [o], Reach(v.spec, Starts(v.spec, os + [o]), from))
  {
    hide Summarises, Members, Starts, Added, Located, AlignBucket, StrictlyAscending;
    var s, start := Starts(v.spec, os), StartOf(v.spec, o);
    StartsSnoc(v.spec, os, o);
    if start in s {
      assert v.buckets[|v.buckets| - 1].start == StartsIn(v.buckets)[|v.buckets| - 1] == s[from..][|v.buckets| - 1];
      FindLast(v.buckets, start);
      FoundIsThere(v, start);
      AddToLast(v.spec, v.buckets, os, o, from);
    } else {
      NewGrouped(v, os, o, from);
    }
  }

  lemma AllEarlier(s: seq<int>, from: nat, start: int, bs: seq<Bucket>)
    requires StrictlyAscending(s + [start]) && from <= |s| && StartsIn(bs) == s[from..]
    ensures forall i :: 0 <= i < |bs| ==> bs[i].start < start
  {
    forall i | 0 <= i < |bs|
      ensures bs[i].start < start
    {
      assert bs[i].start == StartsIn(bs)[i] == s[from..][i] == (s + [start])[from + i];
      assert (s + [start])[|s|] == start;
    }
  }

  lemma StartsOfNew(bs: seq<Bucket>, start: int, s: seq<int>, from: nat, n: nat)
    requires from <= |s| && StartsIn(bs) == s[from..] && n > 0
    ensures StartsIn(Newest(bs + [Blank(start)], n))
         == (s + [start])[if |s| + 1 - from <= n then from else |s| + 1 - n..]
  {
    var all := bs + [Blank(start)];
    assert StartsIn(all) == StartsIn(bs) + [start] == (s + [start])[from..];
    if |all| > n {
      StartsOfSuffix(all, |all| - n);
    }
  }

  lemma NewGrouped(v: Accumulator, os: seq<Observation>, o: Observation, from: nat)
    requires v.spec.Valid() && |v.buckets| <= v.spec.BucketCount() && Grouped(v.spec, v.buckets, os, from)
    requires StartOf(v.spec, o) !in Starts(v.spec, os)
    requires Starts(v.spec, os + [o]) == Starts(v.spec, os) + [StartOf(v.spec, o)]
    requires StrictlyAscending(Starts(v.spec, os + [o]))
    ensures Grouped(v.spec, Placed(v, o).buckets, os + [o], Reach(v.spec, Starts(v.spec, os + [o]), from))
  {
    hide Summarises, Members, Starts, Added, Located, AlignBucket, StrictlyAscending, StartsIn;
    var s, start := Starts(v.spec, os), StartOf(v.spec, o);
    AllEarlier(s, from, start, v.buckets);
    NewAtTail(v, start);
    var u := Located(v, start).0;
    NoMembers(v.spec, os, start);
    BlankSummarises(start);
    StartsOfNew(v.buckets, start, s, from, v.spec.BucketCount());
    forall b | b in u.buckets
      ensures Summarises(b, Members(v.spec, os, b.start))
    {
      assert b in v.buckets + [Blank(start)];
    }
    AddToLast(v.spec, u.buckets, os, o, Reach(v.spec, s + [start], from));
  }

  lemma FoundIsThere(v: Accumulator, start: int)
    requires v.spec.Valid() && Find(v.buckets, start).Some?
    ensures Located(v, start) == (v, Find(v.buckets, start))
  {}

  // ---- the refinement -------------------------------------------------------------------------------

  function ObservedAll(spec: WindowSpec, os: seq<Observation>): (w: Accumulator)
    requires spec.Valid()
    ensures w.spec == spec
    decreases |os|
  {
    if os == [] then Empty(spec)
    else
      var before := ObservedAll(spec, os[..|os| - 1]);
      KeepsSpec(before, os[|os| - 1]);
      Observed(before, os[|os| - 1])
  }

  lemma KeepsSpec(w: Accumulator, o: Observation)
    requires w.spec.Valid()
    ensures Observed(w, o).spec == w.spec
  {
    DropOldKeeps(w.(observations := w.observations + 1), SubtractClamped(o.steadyNs, w.spec.durationNs));
  }

  /** Whatever arrives, in whatever order, leaves the accumulator sound. */
  lemma {:induction false} AlwaysSound(spec: WindowSpec, os: seq<Observation>)
    requires spec.Valid()
    ensures Sound(ObservedAll(spec, os)) && ObservedAll(spec, os).observations == |os|
    decreases |os|
  {
    hide Sound, Observed;
    if os == [] {
      EmptyIsSound(spec);
    } else {
      AlwaysSound(spec, os[..|os| - 1]);
      ObservedSound(ObservedAll(spec, os[..|os| - 1]), os[|os| - 1]);
      ObservedTallies(ObservedAll(spec, os[..|os| - 1]), os[|os| - 1]);
    }
  }

  lemma EmptyIsSound(spec: WindowSpec)
    requires spec.Valid()
    ensures Sound(Empty(spec)) && Empty(spec).observations == 0
  {}

  lemma ObservedTallies(w: Accumulator, o: Observation)
    requires w.spec.Valid()
    ensures Observed(w, o).observations == w.observations + 1
  {
    DropOldKeeps(w.(observations := w.observations + 1), SubtractClamped(o.steadyNs, w.spec.durationNs));
  }

  /** The start of an observation's own bucket is inside the window at its time. */
  lemma OwnStartIsCurrent(spec: WindowSpec, o: Observation)
    requires spec.Valid() && StartOf(spec, o) >= I64_MIN
    ensures StartOf(spec, o) >= SubtractClamped(o.steadyNs, spec.durationNs)
  {
    hide AlignBucket;
    AlignIsFloor(o.steadyNs, spec.bucketNs);
  }

  lemma LaterCutoff(a: i64, b: i64, delta: i64)
    requires a <= b
    ensures SubtractClamped(a, delta) <= SubtractClamped(b, delta)
  {}

  lemma BelowGrows(s: seq<int>, start: int, a: int, b: int)
    requires a <= b <= start && StrictlyAscending(s + [start])
    ensures Below(s, a) <= Below(s, b) && Below(s + [start], b) == Below(s, b)
  {
    SplitOnce(s + [start], b, Below(s + [start], b), Below(s, b));
  }

  lemma ObserveGrouped(w: Accumulator, os: seq<Observation>, o: Observation, from: nat)
    requires w.spec.Valid() && |w.buckets| <= w.spec.BucketCount() && Grouped(w.spec, w.buckets, os, from)
    requires StrictlyAscending(Starts(w.spec, os)) && StrictlyAscending(Starts(w.spec, os + [o]))
    requires StartOf(w.spec, o) >= SubtractClamped(o.steadyNs, w.spec.durationNs)
    requires StartOf(w.spec, o) in Starts(w.spec, os) ==>
               from < |Starts(w.spec, os)| && Starts(w.spec, os)[|Starts(w.spec, os)| - 1] == StartOf(w.spec, o)
    ensures (var left := Max(from, Below(Starts(w.spec, os), SubtractClamped(o.steadyNs, w.spec.durationNs)));
      && left <= |Starts(w.spec, os + [o])|
      && Grouped(w.spec, Observed(w, o).buckets, os + [o], Reach(w.spec, Starts(w.spec, os + [o]), left)))
  {
    hide Starts, Placed, AlignBucket, SubtractClamped, DropOld, Below, StrictlyAscending, Grouped;
    var u := w.(observations := w.observations + 1);
    var s, cutoff := Starts(w.spec, os), SubtractClamped(o.steadyNs, w.spec.durationNs);
    ExpireGrouped(u, os, from, o.steadyNs);
    DropOldKeeps(u, cutoff);
    if StartOf(w.spec, o) in s {
      LastIsAbove(s, StartOf(w.spec, o), cutoff);
    }
    LocateGrouped(AfterExpiry(u, o.steadyNs), os, o, Max(from, Below(s, cutoff)));
  }

  /** One more observation: the buckets that stay are the current ones at its time. */
  lemma NextGroups(spec: WindowSpec, before: seq<Observation>, o: Observation, from: nat)
    requires spec.Valid() && Ordered(before + [o]) && Representable(spec, before + [o])
    requires Grouped(spec, ObservedAll(spec, before).buckets, before, from)
    requires (var s := Starts(spec, before);
      from <= Max(Below(s, SubtractClamped(o.steadyNs, spec.durationNs)), Excess(spec, s)))
    ensures Grouped(spec, ObservedAll(spec, before + [o]).buckets, before + [o],
                    FirstCurrent(spec, Starts(spec, before + [o]), o.steadyNs))
  {
    hide ObservedAll, Observed, Grouped, Starts, StartOf, SubtractClamped, Below, StrictlyAscending, Sound, Ordered, Representable;
    ObservedSnoc(spec, before, o);
    StepStarts(spec, before, o);
    AlwaysSound(spec, before);
    SoundIsBounded(ObservedAll(spec, before));
    ObserveGrouped(ObservedAll(spec, before), before, o, from);
  }

  lemma SoundIsBounded(w: Accumulator)
    requires Sound(w)
    ensures |w.buckets| <= w.spec.BucketCount()
  {}

  lemma ObservedSnoc(spec: WindowSpec, before: seq<Observation>, o: Observation)
    requires spec.Valid()
    ensures ObservedAll(spec, before + [o]) == Observed(ObservedAll(spec, before), o)
  {
    hide Observed;
    assert (before + [o])[..|before|] == before;
  }

  lemma OrderedPrefix(before: seq<Observation>, o: Observation)
    requires Ordered(before + [o])
    ensures Ordered(before)
  {
    assert forall i :: 0 <= i < |before| ==> (before + [o])[i] == before[i];
  }

  /** One more observation in order adds at most one start, at the end and inside the window. */
  lemma StepStarts(spec: WindowSpec, before: seq<Observation>, o: Observation)
    requires spec.Valid() && Ordered(before + [o]) && Representable(spec, before + [o])
    ensures (var s, t := Starts(spec, before), Starts(spec, before + [o]);
      var start, cutoff := StartOf(spec, o), SubtractClamped(o.steadyNs, spec.durationNs);
      && StrictlyAscending(s) && StrictlyAscending(t) && start >= cutoff
      && (if start in s then t == s && s[|s| - 1] == start else t == s + [start])
      && Below(t, cutoff) == Below(s, cutoff))
  {
    hide Starts, StartOf, SubtractClamped, Below, Ordered, StrictlyAscending;
    var os := before + [o];
    assert os[|os| - 1] == o && o in os;
    StartsAscend(spec, os);
    OrderedPrefix(before, o);
    StartsAscend(spec, before);
    OwnStartIsCurrent(spec, o);
    StartsSnoc(spec, before, o);
    var s, start, cutoff := Starts(spec, before), StartOf(spec, o), SubtractClamped(o.steadyNs, spec.durationNs);
    if start !in s {
      BelowGrows(s, start, cutoff, cutoff);
    }
  }

  /** How many starts are too many. */
  function Excess(spec: WindowSpec, s: seq<int>): nat
    requires spec.Valid()
  {
    if |s| <= spec.BucketCount() then 0 else |s| - spec.BucketCount()
  }

  /** For observations in order the window holds, at the time of the last of them, the
      newest of the directly grouped buckets that are inside it, each complete. */
  lemma {:induction false} HoldsNewestGroups(spec: WindowSpec, os: seq<Observation>)
    requires spec.Valid() && Ordered(os) && Representable(spec, os) && os != []
    ensures Grouped(spec, ObservedAll(spec, os).buckets, os, FirstCurrent(spec, Starts(spec, os), os[|os| - 1].steadyNs))
    decreases |os|
  {
    hide ObservedAll, Grouped, Starts, StartOf, SubtractClamped, Below;
    var before, o := os[..|os| - 1], os[|os| - 1];
    assert before + [o] == os;
    if before == [] {
      NothingGrouped(spec);
      NextGroups(spec, before, o, 0);
    } else {
      var t := before[|before| - 1].steadyNs;
      HoldsNewestGroups(spec, before);
      LaterCutoff(t, o.steadyNs, spec.durationNs);
      var s := Starts(spec, before);
      CutoffsAscend(s, SubtractClamped(t, spec.durationNs), SubtractClamped(o.steadyNs, spec.durationNs));
      NextGroups(spec, before, o, FirstCurrent(spec, s, t));
    }
  }

  lemma NothingGrouped(spec: WindowSpec)
    requires spec.Valid()
    ensures Grouped(spec, ObservedAll(spec, []).buckets, [], 0) && Starts(spec, []) == []
  {}

  lemma {:induction false} CutoffsAscend(s: seq<int>, a: int, b: int)
    requires a <= b
    ensures Below(s, a) <= Below(s, b)
    decreases |s|
  {
    if s != [] {
      CutoffsAscend(s[1..], a, b);
    }
  }

  lemma LastIsAbove(s: seq<int>, start: int, cutoff: int)
    requires s != [] && s[|s| - 1] == start >= cutoff
    ensures Below(s, cutoff) < |s|
  {}

  /** What the window consists of: the newest current starts, each with all its observations. */
  lemma HoldsExactlyCurrent(spec: WindowSpec, os: seq<Observation>)
    requires spec.Valid() && Ordered(os) && Representable(spec, os) && os != []
    ensures (var w := ObservedAll(spec, os);
      && StartsIn(w.buckets) == Current(spec, Starts(spec, os), os[|os| - 1].steadyNs)
      && StrictlyAscending(StartsIn(w.buckets))
      && forall b :: b in w.buckets ==> Summarises(b, Members(spec, os, b.start)))
  {
    hide ObservedAll, Starts, Members, Summarises, FirstCurrent, Current;
    HoldsNewestGroups(spec, os);
    StartsAscend(spec, os);
    CurrentIsSuffix(spec, Starts(spec, os), os[|os| - 1].steadyNs);
  }

  /** Expiring at a later time leaves exactly what is current then. */
  lemma ExpiredHoldsCurrent(spec: WindowSpec, os: seq<Observation>, now: i64)
    requires spec.Valid() && Ordered(os) && Representable(spec, os) && os != [] && os[|os| - 1].steadyNs <= now
    ensures (var w := AfterExpiry(ObservedAll(spec, os), now);
      && StartsIn(w.buckets) == Current(spec, Starts(spec, os), now)
      && forall b :: b in w.buckets ==> Summarises(b, Members(spec, os, b.start)))
  {
    hide ObservedAll, Starts, Members, Summarises, Current, SubtractClamped, Below, AfterExpiry;
    var s, t := Starts(spec, os), os[|os| - 1].steadyNs;
    HoldsNewestGroups(spec, os);
    StartsAscend(spec, os);
    ExpireGrouped(ObservedAll(spec, os), os, FirstCurrent(spec, s, t), now);
    ExpiredSpec(ObservedAll(spec, os), now);
    LaterCutoff(t, now, spec.durationNs);
    CutoffsAscend(s, SubtractClamped(t, spec.durationNs), SubtractClamped(now, spec.durationNs));
    CurrentIsSuffix(spec, s, now);
  }

  lemma ExpiredSpec(w: Accumulator, now: i64)
    ensures AfterExpiry(w, now).spec == w.spec
  {
    DropOldKeeps(w, SubtractClamped(now, w.spec.durationNs));
  }

  // ---- out of order -----------------------------------------------------------------------------

  /** The buckets stay in order unless a start falls into a gap between those retained:
      it then goes behind the newest. */
  lemma MisplacedIff(w: Accumulator, start: int)
    requires w.spec.Valid() && |w.buckets| <= w.spec.BucketCount() && StrictlyAscending(StartsIn(w.buckets))
    ensures StrictlyAscending(StartsIn(Located(w, start).0.buckets)) <==>
            !(w.buckets != [] && w.buckets[0].start < start < w.buckets[|w.buckets| - 1].start
              && Find(w.buckets, start) == None)
  {
    var s, bs := StartsIn(w.buckets), Located(w, start).0.buckets;
    var t := StartsIn(bs);
    if w.buckets != [] && Find(w.buckets, start) == None && start > w.buckets[0].start {
      assert t[|t| - 1] == start && |t| >= 1;
      if start < s[|s| - 1] {
        assert |s| > 1 && t[|t| - 2] == s[|s| - 1];
      }
    }
  }
}
