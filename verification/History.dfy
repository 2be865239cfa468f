/** The bounded ring of retained observations of one queue. */
module History {
  import opened Wrappers
  import opened Bytes
  import opened Identity
  import opened Evidence
  import opened Policy
  import opened Classification
  import opened Circular

  /** One retained observation. */
  datatype HistoryRecord = HistoryRecord(
    receivedNs: i64, source: Name, generation: u64, ordinal: nat, sequence: u64, authority: Authority,
    reported: set<Field>, freshness: Freshness, quality: Quality, flags: set<Flag>, ageNs: int,
    values: map<Field, u64>, deltas: map<Field, Delta>, state: Pressure)
  {
    /** The provenance is not kept, only the flags. */
    predicate EstablishesCurrent() {
      EstablishesCurrentPressure(Assessment(freshness, quality, ProvenanceUnknown, authority, flags, ageNs))
    }

    function DeltaOf(f: Field): Delta {
      if f in deltas then deltas[f] else Delta(false, 0)
    }

    function ValueOf(f: Field): Option<u64> {
      if f in reported && f in values then Some(values[f]) else None
    }
  }

  // ---- what a ring holds ------------------------------------------------------------------

  datatype Ring = Ring(capacity: nat, items: seq<HistoryRecord>, evicted: nat) {
    predicate Valid() { |items| <= capacity }
  }

  function Reserved(capacity: nat): Ring {
    Ring(capacity, [], 0)
  }

  function Pushed(r: Ring, x: HistoryRecord): Ring {
    if r.capacity == 0 then r.(evicted := r.evicted + 1)
    else if |r.items| < r.capacity then r.(items := r.items + [x])
    else r.(items := r.items[1..] + [x], evicted := r.evicted + 1)
  }

  function PushedAll(r: Ring, xs: seq<HistoryRecord>): Ring
    decreases |xs|
  {
    if xs == [] then r else Pushed(PushedAll(r, xs[..|xs| - 1]), xs[|xs| - 1])
  }

  function Newest<T>(xs: seq<T>, n: nat): seq<T> {
    if |xs| <= n then xs else xs[|xs| - n..]
  }

  /** A ring holds the newest records pushed, in order, and counts all the others. */
  lemma {:induction false} HoldsNewest(capacity: nat, xs: seq<HistoryRecord>)
    ensures (var r := PushedAll(Reserved(capacity), xs);
      && r.capacity == capacity && r.items == Newest(xs, capacity) && r.evicted + |r.items| == |xs|)
    decreases |xs|
  {
    if xs != [] {
      HoldsNewest(capacity, xs[..|xs| - 1]);
      NewestGrows(xs[..|xs| - 1], xs[|xs| - 1], capacity);
      assert xs[..|xs| - 1] + [xs[|xs| - 1]] == xs;
    }
  }

  lemma NewestGrows<T>(xs: seq<T>, x: T, n: nat)
    ensures n == 0 ==> Newest(xs + [x], n) == []
    ensures |xs| < n ==> Newest(xs + [x], n) == Newest(xs, n) + [x]
    ensures 0 < n <= |xs| ==> Newest(xs + [x], n) == Newest(xs, n)[1..] + [x]
  {}

  /** The newest records back to the first that is too old. */
  function SinceNewest(xs: seq<HistoryRecord>, from: int): seq<HistoryRecord>
    decreases |xs|
  {
    if xs == [] || xs[|xs| - 1].receivedNs < from then []
    else SinceNewest(xs[..|xs| - 1], from) + [xs[|xs| - 1]]
  }

  predicate Ascending(xs: seq<HistoryRecord>) {
    forall i, j :: 0 <= i < j < |xs| ==> xs[i].receivedNs <= xs[j].receivedNs
  }

  function Filtered(xs: seq<HistoryRecord>, from: int): seq<HistoryRecord>
    decreases |xs|
  {
    if xs == [] then []
    else
      var rest := Filtered(xs[..|xs| - 1], from);
      if xs[|xs| - 1].receivedNs >= from then rest + [xs[|xs| - 1]] else rest
  }

  /** The scan stops early, but over records in ascending order it misses nothing. */
  lemma {:induction false} SinceIsFilter(xs: seq<HistoryRecord>, from: int)
    requires Ascending(xs)
    ensures SinceNewest(xs, from) == Filtered(xs, from)
    decreases |xs|
  {
    if xs != [] {
      SinceIsFilter(xs[..|xs| - 1], from);
      if xs[|xs| - 1].receivedNs < from {
        NothingOlder(xs[..|xs| - 1], from);
      }
    }
  }

  lemma {:induction false} NothingOlder(xs: seq<HistoryRecord>, from: int)
    requires forall i :: 0 <= i < |xs| ==> xs[i].receivedNs < from
    ensures Filtered(xs, from) == []
    decreases |xs|
  {
    if xs != [] {
      NothingOlder(xs[..|xs| - 1], from);
    }
  }

  // ---- the code ---------------------------------------------------------------------------

  const EMPTY_RECORD := HistoryRecord(0, [], 0, 0, 0, AUTHORITY_UNKNOWN, {}, FreshnessUnknown, QualityUnknown, {}, 0,
                                      map[], map[], Unknown)

  class HistoryRing {
    var storage: array<HistoryRecord>
    var head: nat
    var size: nat
    var evicted: nat

    ghost predicate Valid()
      reads this
    {
      && (storage.Length == 0 ==> size == 0) && size <= storage.Length
      && (storage.Length > 0 ==> head < storage.Length)
    }

    ghost function Contents(): (r: Ring)
      requires Valid()
      reads this, storage
      ensures |r.items| == size
    {
      Ring(storage.Length, Elements(storage[..], head, size), evicted)
    }

    constructor (capacity: nat)
      ensures Valid() && fresh(storage) && Contents() == Reserved(capacity)
    {
      storage := new HistoryRecord[capacity](_ => EMPTY_RECORD);
      head, size, evicted := 0, 0, 0;
    }

    /** Appends, or overwrites the oldest record once the ring is full. */
    method Push(record: HistoryRecord)
      requires Valid()
      modifies this, storage
      ensures Valid() && storage == old(storage)
      ensures Contents() == Pushed(old(Contents()), record)
    {
      if storage.Length == 0 {
        evicted := evicted + 1;
        assert Contents().items == [];
        return;
      }
      ghost var cells := storage[..];
      if size < storage.Length {
        AppendCell(cells, head, size, record);
        storage[Slot(head, size, storage.Length)] := record;
        size := size + 1;
        return;
      }
      RotateCell(cells, head, record);
      storage[head] := record;
      head := Slot(head, 1, storage.Length);
      evicted := evicted + 1;
    }

    method At(index: nat) returns (r: HistoryRecord)
      requires Valid()
      ensures r == if index < size then Contents().items[index] else EMPTY_RECORD
    {
      if index >= size || storage.Length == 0 {
        return EMPTY_RECORD;
      }
      return storage[Slot(head, index, storage.Length)];
    }

    method Snapshot() returns (out: seq<HistoryRecord>)
      requires Valid()
      ensures out == Contents().items
    {
      out := [];
      for index := 0 to size
        invariant out == Contents().items[..index]
      {
        var r := At(index);
        out := out + [r];
      }
    }

    /** Newest first up to the first record that is too old, then turned around. */
    method Since(from: int) returns (out: seq<HistoryRecord>)
      requires Valid()
      ensures out == SinceNewest(Contents().items, from)
    {
      hide SinceNewest, Elements;
      out := [];
      ghost var items := Contents().items;
      SinceStep([], from);
      var offset := 0;
      assert items[..size] == items;
      while offset < size
        invariant 0 <= offset <= size
        invariant SinceNewest(items, from) == SinceNewest(items[..size - offset], from) + Reversed(out)
      {
        var record := At(size - 1 - offset);
        if record.receivedNs < from {
          SinceStep(items[..size - offset], from);
          break;
        }
        assert items[..size - offset][..size - offset - 1] == items[..size - offset - 1];
        SinceStep(items[..size - offset], from);
        ReversedSnoc(out, record);
        assert SinceNewest(items[..size - offset - 1], from) + [record] + Reversed(out)
            == SinceNewest(items[..size - offset - 1], from) + ([record] + Reversed(out));
        out := out + [record];
        offset := offset + 1;
      }
      assert SinceNewest(items, from) == Reversed(out);
      out := TurnAround(out);
    }
  }

  lemma SinceStep(xs: seq<HistoryRecord>, from: int)
    ensures SinceNewest(xs, from) ==
            if xs == [] || xs[|xs| - 1].receivedNs < from then []
            else SinceNewest(xs[..|xs| - 1], from) + [xs[|xs| - 1]]
  {}

  function Reversed<T>(xs: seq<T>): (r: seq<T>)
    ensures |r| == |xs| && forall i :: 0 <= i < |xs| ==> r[i] == xs[|xs| - 1 - i]
  {
    seq(|xs|, i requires 0 <= i < |xs| => xs[|xs| - 1 - i])
  }

  lemma ReversedSnoc<T>(xs: seq<T>, x: T)
    ensures Reversed(xs + [x]) == [x] + Reversed(xs)
  {}

  /** Swaps from both ends towards the middle. */
  method TurnAround<T>(xs: seq<T>) returns (out: seq<T>)
    ensures out == Reversed(xs)
  {
    out := xs;
    var left, right := 0, |out|;
    while left + 1 < right
      invariant 0 <= left && right == |xs| - left && left <= right + 1 && |out| == |xs|
      invariant forall i :: 0 <= i < left || right <= i < |xs| ==> out[i] == xs[|xs| - 1 - i]
      invariant forall i :: left <= i < right ==> out[i] == xs[i]
    {
      out := out[left := out[right - 1]][right - 1 := out[left]];
      left, right := left + 1, right - 1;
    }
  }
}
