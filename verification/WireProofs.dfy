/** The sample record comes back from the decoder, and when. */
module WireProofs {
  import opened Wrappers
  import opened Bytes
  import opened Text
  import opened Identity
  import opened JsonSpec
  import opened JsonProofs
  import opened Wire

  // ---- member names are told apart ----------------------------------------------------------

  /** The length, the first character and the last but one of a name. */
  function Mark(s: string): int {
    if |s| < 2 then |s| else |s| * 0x1_0000 + s[0] as int * 0x100 + s[|s| - 2] as int
  }

  function KeyMark(k: Key): int {
    match k
    case 0 => 0x46B6E
    case 1 => 0x1
    case 2 => 0x66463
    case 3 => 0x47072
    case 4 => 0x57175
    case 5 => 0x67363
    case 6 => 0xB696F
    case 7 => 0xA676F
    case 8 => 0x87363
    case 9 => 0x96174
    case 10 => 0xB6F6E
    case 11 => 0xC6369
    case 12 => 0x8726F
    case 13 => 0xD7473
    case 14 => 0x107373
    case 15 => 0xF6F65
    case 16 => 0xF6F6C
    case 17 => 0x137174
    case 18 => 0x13736C
    case 19 => 0xE686C
    case 20 => 0xE726C
    case 21 => 0x16736C
    case 22 => 0x17646C
    case 23 => 0x116D74
    case 24 => 0x14686C
    case 25 => 0xF6574
    case 26 => 0xF6474
    case 27 => 0xC6474
    case 28 => 0xA6465
    case 29 => 0xC6D74
    case 30 => 0xC7065
    case 31 => 0x14706F
    case _ => 0x86465
  }

  function KeyOfMark(m: int): Key {
    match m
    case 0x46B6E => 0
    case 0x1 => 1
    case 0x66463 => 2
    case 0x47072 => 3
    case 0x57175 => 4
    case 0x67363 => 5
    case 0xB696F => 6
    case 0xA676F => 7
    case 0x87363 => 8
    case 0x96174 => 9
    case 0xB6F6E => 10
    case 0xC6369 => 11
    case 0x8726F => 12
    case 0xD7473 => 13
    case 0x107373 => 14
    case 0xF6F65 => 15
    case 0xF6F6C => 16
    case 0x137174 => 17
    case 0x13736C => 18
    case 0xE686C => 19
    case 0xE726C => 20
    case 0x16736C => 21
    case 0x17646C => 22
    case 0x116D74 => 23
    case 0x14686C => 24
    case 0xF6574 => 25
    case 0xF6474 => 26
    case 0xC6474 => 27
    case 0xA6465 => 28
    case 0xC6D74 => 29
    case 0xC7065 => 30
    case 0x14706F => 31
    case _ => 32
  }

  lemma MarksDiffer(k: Key)
    ensures KeyOfMark(KeyMark(k)) == k
  {}

  predicate Plain(s: string) {
    0 < |s| <= 23 && s[0] as int < 0x80 && (|s| >= 2 ==> s[|s| - 2] as int < 0x80)
  }

  lemma LowHeadMark(k: Key)
    requires k < 8
    ensures Mark(HeadText(k)) == KeyMark(k) && Plain(HeadText(k))
  {}

  lemma HighHeadMark(k: Key)
    requires 8 <= k < FIRST_FIELD
    ensures Mark(HeadText(k)) == KeyMark(k) && Plain(HeadText(k))
  {}

  lemma LowFieldMark(f: nat)
    requires f < 9
    ensures Mark(MeasureText(f)) == KeyMark(FieldKey(f)) && Plain(MeasureText(f))
  {}

  lemma HighFieldMark(f: nat)
    requires 9 <= f < FIELD_COUNT
    ensures Mark(MeasureText(f)) == KeyMark(FieldKey(f)) && Plain(MeasureText(f))
  {}

  lemma LastMark()
    ensures Mark("declared") == KeyMark(DECLARED) && Plain("declared")
  {}

  lemma MarkOf(k: Key)
    ensures Mark(KeyText(k)) == KeyMark(k) && Plain(KeyText(k))
  {
    hide MeasureText, HeadText, KeyMark, Mark, Plain;
    if k < 8 {
      LowHeadMark(k);
    } else if k < FIRST_FIELD {
      HighHeadMark(k);
    } else if k < DECLARED {
      if k - FIRST_FIELD < 9 {
        LowFieldMark(k - FIRST_FIELD);
      } else {
        HighFieldMark(k - FIRST_FIELD);
      }
    } else {
      LastMark();
    }
  }

  /** No two members have the same name. */
  lemma KeysDiffer(k: Key, l: Key)
    ensures KeyName(k) == KeyName(l) <==> k == l
    ensures 0 < |KeyName(k)| <= 23
  {
    hide KeyText, KeyMark, KeyOfMark;
    MarkOf(k);
    MarkOf(l);
    MarksDiffer(k);
    MarksDiffer(l);
    if KeyName(k) == KeyName(l) {
      var s, t := KeyText(k), KeyText(l);
      assert |s| == |KeyName(k)| && |t| == |KeyName(l)|;
      assert KeyName(k)[0] == s[0] as int && KeyName(l)[0] == t[0] as int;
      if |s| >= 2 {
        assert KeyName(k)[|s| - 2] == s[|s| - 2] as int && KeyName(l)[|s| - 2] == t[|s| - 2] as int;
      }
    }
  }

  // ---- finding members ------------------------------------------------------------------------

  lemma {:induction false} FindSnoc(members: seq<Member>, m: Member, name: bytes)
    ensures Find(members + [m], name)
            == if Find(members, name).Some? then Find(members, name) else if m.name == name then Some(m.value) else None
    decreases |members|
  {
    if members == [] {
      assert (members + [m])[1..] == [];
    } else {
      assert (members + [m])[1..] == members[1..] + [m];
      FindSnoc(members[1..], m, name);
    }
  }

  lemma {:induction false} FindNormed(members: seq<Member>, name: bytes)
    ensures Find(NormMembers(members), name) == match Find(members, name) case None => None case Some(v) => Some(Norm(v))
    decreases |members|
  {
    hide Norm;
    if members != [] {
      assert NormMembers(members)[1..] == NormMembers(members[1..]);
      FindNormed(members[1..], name);
    }
  }

  lemma {:induction false} EntryFound(s: WireSample, n: nat, k: Key)
    requires s.Shaped() && n <= 33
    ensures Find(EntriesOf(s, n), KeyName(k)) == if k < n then EntryOf(s, k) else None
  {
    hide EntryOf, KeyName;
    if n > 0 {
      EntryFound(s, n - 1, k);
      KeysDiffer(n - 1, k);
      var entry := EntryOf(s, n - 1);
      if entry.Some? {
        FindSnoc(EntriesOf(s, n - 1), Member(KeyName(n - 1), entry.value), KeyName(k));
      } else {
        assert EntriesOf(s, n) == EntriesOf(s, n - 1);
      }
    }
  }

  lemma {:induction false} FoundMeansNamed(members: seq<Member>, name: bytes)
    ensures Find(members, name).Some? <==> Named(members, name)
    decreases |members|
  {
    if members != [] {
      FoundMeansNamed(members[1..], name);
      assert members == [members[0]] + members[1..];
      assert forall m :: m in members <==> m == members[0] || m in members[1..];
      if members[0].name == name {
        assert members[0] in members;
      }
    }
  }

  lemma {:induction false} EntriesDiffer(s: WireSample, n: nat)
    requires s.Shaped() && n <= 33
    ensures NamesDiffer(EntriesOf(s, n))
  {
    hide EntryOf, KeyName;
    if n > 0 {
      EntriesDiffer(s, n - 1);
      var before := EntriesOf(s, n - 1);
      EntryFound(s, n - 1, n - 1);
      FoundMeansNamed(before, KeyName(n - 1));
      assert forall m :: m in before ==> m.name != KeyName(n - 1);
    }
  }

  /** What the decoder finds under a name in a record that was written and read back. */
  lemma RecordGet(s: WireSample, k: Key)
    requires s.Shaped()
    ensures Get(NormMembers(EntriesOf(s, 33)), k) == match EntryOf(s, k) case None => None case Some(v) => Some(Norm(v))
  {
    EntryFound(s, 33, k);
    FindNormed(EntriesOf(s, 33), KeyName(k));
  }

  // ---- reading the sample back ------------------------------------------------------------------

  /** The n low bits of a mask. */
  function Low(mask: set<nat>, n: nat): set<nat> {
    set f: nat | f < n && f in mask
  }

  /** The sample as the wire carries it: nothing beyond the 17 measurements, zero where none
      was reported. */
  function Carried(s: WireSample): WireSample
    requires s.Shaped()
  {
    s.(reported := Low(s.reported, FIELD_COUNT),
       values := seq(FIELD_COUNT, f requires 0 <= f < FIELD_COUNT => if f in s.reported then s.values[f] else 0),
       declared := Low(s.declared, FIELD_COUNT))
  }

  /** What the decoder asks of a sample's content. */
  predicate Legible(s: WireSample) {
    && ValidPathName(s.path.device) && ValidPathName(s.path.port) && ValidName(s.source) && ValidName(s.incarnation)
    && ValidName(s.domain) && (s.schedulingClass.Some? ==> ValidName(s.schedulingClass.value))
    && s.observedNs >= 0 && exists f: nat :: f < FIELD_COUNT && f in s.reported
  }

  /** No string is longer than a field may be. */
  predicate ShortStrings(s: WireSample, lim: IngestLimits) {
    && |s.path.device| <= lim.maxFieldBytes && |s.path.port| <= lim.maxFieldBytes && |s.source| <= lim.maxFieldBytes
    && |s.incarnation| <= lim.maxFieldBytes && |s.domain| <= lim.maxFieldBytes
  }

  lemma {:induction false} NamesSnoc(declared: set<nat>, n: nat)
    requires n <= FIELD_COUNT
    ensures Norms(DeclaredNames(declared, n)) == DeclaredNames(declared, n)
  {
    hide KeyName;
    if n > 0 {
      NamesSnoc(declared, n - 1);
      NormsConcat(DeclaredNames(declared, n - 1), DeclaredNames(declared, n)[|DeclaredNames(declared, n - 1)|..]);
    }
  }

  lemma {:induction false} NormsConcat(a: seq<Json>, b: seq<Json>)
    ensures Norms(a + b) == Norms(a) + Norms(b)
    decreases |a|
  {
    hide Norm;
    if a == [] {
      assert a + b == b;
    } else {
      assert (a + b)[1..] == a[1..] + b;
      NormsConcat(a[1..], b);
    }
  }

  lemma {:induction false} FieldFound(f: nat, from: nat)
    requires from <= f < FIELD_COUNT
    ensures FindField(KeyName(FieldKey(f)), from) == Some(f)
    decreases FIELD_COUNT - from
  {
    hide KeyName;
    KeysDiffer(FieldKey(from), FieldKey(f));
    if from < f {
      FieldFound(f, from + 1);
    }
  }

  lemma LowStep(mask: set<nat>, n: nat)
    requires n > 0
    ensures Low(mask, n) == Low(mask, n - 1) + if n - 1 in mask then {n - 1} else {}
  {}

  lemma ReadNamesSnoc(items: seq<Json>, name: Json)
    requires name.Str?
    ensures ReadNames(items + [name])
            == match ReadNames(items)
               case None => None
               case Some((names, unknown)) =>
                 if FindField(name.s, 0).Some? then Some((names + {FindField(name.s, 0).value}, unknown))
                 else Some((names, unknown + 1))
  {
    assert (items + [name])[..|items + [name]| - 1] == items;
  }

  lemma {:induction false} NamesReadBack(declared: set<nat>, n: nat)
    requires n <= FIELD_COUNT
    ensures ReadNames(DeclaredNames(declared, n)) == Some((Low(declared, n), 0))
  {
    hide KeyName, FindField;
    if n > 0 {
      NamesReadBack(declared, n - 1);
      FieldFound(n - 1, 0);
      LowStep(declared, n);
      var before, name := DeclaredNames(declared, n - 1), Str(KeyName(FieldKey(n - 1)));
      if n - 1 in declared {
        ReadNamesSnoc(before, name);
      } else {
        assert DeclaredNames(declared, n) == before;
        assert Low(declared, n) == Low(declared, n - 1);
      }
    } else {
      assert Low(declared, 0) == {};
    }
  }

  lemma {:induction false} NoUnknown(s: WireSample, n: nat)
    requires s.Shaped() && n <= 33
    ensures UnknownKeys(EntriesOf(s, n)) == 0
  {
    hide EntryOf, KeyName;
    if n > 0 {
      NoUnknown(s, n - 1);
      var entries := EntriesOf(s, n);
      if EntryOf(s, n - 1).Some? {
        assert entries[..|entries| - 1] == EntriesOf(s, n - 1);
        assert KnownKey(entries[|entries| - 1].name);
      } else {
        assert entries == EntriesOf(s, n - 1);
      }
    }
  }

  lemma {:induction false} NormKeepsNames(members: seq<Member>)
    ensures UnknownKeys(NormMembers(members)) == UnknownKeys(members)
    decreases |members|
  {
    hide Norm;
    if members != [] {
      var before, last := members[..|members| - 1], members[|members| - 1];
      NormKeepsNames(before);
      NormMembersConcat(before, [last]);
      assert members == before + [last];
      assert NormMembers([last]) == [Member(last.name, Norm(last.value))] by { NormMembersOne(last); }
      var normed := NormMembers(members);
      assert normed[..|normed| - 1] == NormMembers(before);
    }
  }

  lemma {:induction false} NormMembersOne(m: Member)
    ensures NormMembers([m]) == [Member(m.name, Norm(m.value))]
  {
    assert [m][1..] == [];
  }

  lemma {:induction false} NormMembersConcat(a: seq<Member>, b: seq<Member>)
    ensures NormMembers(a + b) == NormMembers(a) + NormMembers(b)
    decreases |a|
  {
    hide Norm;
    if a == [] {
      assert a + b == b;
    } else {
      assert (a + b)[1..] == a[1..] + b;
      NormMembersConcat(a[1..], b);
    }
  }

  /** A record as the reader hands it to the decoder. */
  function MembersOf(s: WireSample): seq<Member>
    requires s.Shaped()
  {
    NormMembers(EntriesOf(s, 33))
  }

  predicate GoodIdentity(s: WireSample, lim: IngestLimits) {
    && ValidPathName(s.path.device) && ValidPathName(s.path.port) && ValidName(s.source) && ValidName(s.incarnation)
    && ValidName(s.domain) && s.observedNs >= 0 && ShortStrings(s, lim)
  }

  lemma StringBack(s: WireSample, k: Key, v: bytes, lim: IngestLimits)
    requires s.Shaped() && EntryOf(s, k) == Some(Str(v))
    ensures RequireString(MembersOf(s), k, lim) == if |v| <= lim.maxFieldBytes then Some(v) else None
  {
    hide EntryOf, KeyName, EntriesOf;
    RecordGet(s, k);
  }

  lemma NumberBack(s: WireSample, k: Key, v: u64)
    requires s.Shaped() && EntryOf(s, k) == Some(Uint(v))
    ensures RequireU64(MembersOf(s), k) == Some(v)
  {
    hide EntryOf, KeyName, EntriesOf;
    RecordGet(s, k);
  }

  lemma IdentityBack(s: WireSample, lim: IngestLimits)
    requires s.Shaped()
    ensures ReadIdentity(MembersOf(s), lim)
            == if GoodIdentity(s, lim)
               then Some(WireSample(s.path, s.source, s.incarnation, s.generation, s.sequence, 0, s.observedNs, s.domain, 0,
                                    None, None, {}, [], {}))
               else None
  {
    hide KeyName, EntriesOf, RequireString, RequireU64, ValidPathName, ValidName;
    var ms := MembersOf(s);
    StringBack(s, DEVICE, s.path.device, lim);
    StringBack(s, PORT, s.path.port, lim);
    StringBack(s, SOURCE, s.source, lim);
    StringBack(s, INCARNATION, s.incarnation, lim);
    StringBack(s, DOMAIN, s.domain, lim);
    NumberBack(s, QUEUE, s.path.queue);
    NumberBack(s, GENERATION, s.generation);
    NumberBack(s, SEQUENCE, s.sequence);
    ObservedBack(s);
  }

  /** A negative time of observation is written, and refused on reading. */
  lemma ObservedBack(s: WireSample)
    requires s.Shaped()
    ensures RequireU64(MembersOf(s), OBSERVED) == if s.observedNs >= 0 then Some(s.observedNs) else None
  {
    hide KeyName, EntriesOf;
    RecordGet(s, OBSERVED);
  }

  lemma AuthorityBack(s: WireSample)
    requires s.Shaped()
    ensures ReadAuthority(MembersOf(s)) == Good(s.authority)
  {
    hide KeyName, EntriesOf;
    RecordGet(s, AUTHORITY);
    AuthorityNamesDiffer(s.authority);
  }

  lemma AuthorityNamesDiffer(a: Evidence.Authority)
    ensures ParseAuthority(AuthorityName(a)) == Some(a)
  {
    assert |AuthorityName(0)| == 7 && |AuthorityName(1)| == 9 && |AuthorityName(2)| == 7 && |AuthorityName(3)| == 13;
    assert AuthorityName(0)[0] == 0x75 && AuthorityName(2)[0] == 0x70;
  }

  lemma ClassesBack(s: WireSample)
    requires s.Shaped()
    ensures OptionalU64(MembersOf(s), REVISION, 0) == Some(s.revision)
    ensures ReadTraffic(MembersOf(s)) == Good(s.trafficClass)
    ensures ReadScheduling(MembersOf(s))
            == if s.schedulingClass.Some? && !ValidName(s.schedulingClass.value) then Bad(MalformedLine) else Good(s.schedulingClass)
  {
    hide KeyName, EntriesOf, ValidName;
    RecordGet(s, REVISION);
    RecordGet(s, TRAFFIC);
    RecordGet(s, SCHEDULING);
  }

  lemma FieldBack(s: WireSample, f: nat)
    requires s.Shaped() && f < FIELD_COUNT
    ensures HasField(MembersOf(s), f) <==> f in s.reported
    ensures f in s.reported ==> RequireU64(MembersOf(s), FieldKey(f)) == Some(s.values[f])
    ensures FieldValue(MembersOf(s), f) == if f in s.reported then s.values[f] else 0
  {
    hide KeyName, EntriesOf;
    RecordGet(s, FieldKey(f));
  }

  lemma FieldsBack(s: WireSample)
    requires s.Shaped()
    ensures FieldsReadable(MembersOf(s)) && Measured(MembersOf(s)) == Low(s.reported, FIELD_COUNT)
    ensures seq(FIELD_COUNT, f requires 0 <= f < FIELD_COUNT => FieldValue(MembersOf(s), f)) == Carried(s).values
  {
    hide MembersOf, HasField, FieldValue, RequireU64;
    forall f: nat | f < FIELD_COUNT
      ensures HasField(MembersOf(s), f) <==> f in s.reported
      ensures HasField(MembersOf(s), f) ==> RequireU64(MembersOf(s), FieldKey(f)).Some?
      ensures FieldValue(MembersOf(s), f) == Carried(s).values[f]
    {
      FieldBack(s, f);
    }
  }

  lemma DeclaredBack(s: WireSample)
    requires s.Shaped()
    ensures ReadDeclared(MembersOf(s)) == Some((Low(s.declared, FIELD_COUNT), 0))
  {
    hide KeyName, EntriesOf, DeclaredNames, ReadNames;
    RecordGet(s, DECLARED);
    NamesSnoc(s.declared, FIELD_COUNT);
    NamesReadBack(s.declared, FIELD_COUNT);
  }

  /** The decoder makes of the written members the very sample, or nothing. */
  lemma SampleBack(s: WireSample, lim: IngestLimits)
    requires s.Shaped()
    ensures ReadSample(MembersOf(s), lim)
            == if Legible(s) && ShortStrings(s, lim) then Good((Carried(s), 0)) else Bad(MalformedLine)
  {
    hide MembersOf, ReadIdentity, ReadAuthority, OptionalU64, ReadTraffic, ReadScheduling, FieldsReadable, Measured, ReadDeclared,
         UnknownKeys, FieldValue, ValidName, ValidPathName, ShortStrings;
    IdentityBack(s, lim);
    AuthorityBack(s);
    ClassesBack(s);
    FieldsBack(s);
    DeclaredBack(s);
    NoneUnknown(s);
    SomeLow(s.reported);
  }

  lemma NoneUnknown(s: WireSample)
    requires s.Shaped()
    ensures UnknownKeys(MembersOf(s)) == 0
  {
    hide UnknownKeys, EntriesOf;
    NoUnknown(s, 33);
    NormKeepsNames(EntriesOf(s, 33));
  }

  lemma SomeLow(mask: set<nat>)
    ensures Low(mask, FIELD_COUNT) == {} <==> !exists f: nat :: f < FIELD_COUNT && f in mask
  {
    forall f: nat | f < FIELD_COUNT && f in mask
      ensures f in Low(mask, FIELD_COUNT)
    {}
  }
}
