/** When an encoded sample survives the wire, and that no line of a document spoils another. */
module WireTheorems {
  import opened Wrappers
  import opened Bytes
  import opened Text
  import opened Identity
  import opened JsonSpec
  import opened JsonProofs
  import opened JsonDraft
  import opened Wire
  import opened WireProofs

  // ---- a record is one line -----------------------------------------------------------------

  predicate NoControls(s: bytes) {
    forall i :: 0 <= i < |s| ==> s[i] >= 0x20
  }

  lemma {:induction false} EscapedHasNoControls(s: bytes)
    ensures NoControls(Escaped(s)) && |Escaped(s)| <= 6 * |s|
    decreases |s|
  {
    if s != [] {
      EscapedHasNoControls(s[1..]);
      OctetHasNoControls(s[0]);
      hide EscapedOctet;
    }
  }

  lemma OctetHasNoControls(b: byte)
    ensures NoControls(EscapedOctet(b)) && |EscapedOctet(b)| <= 6
  {}

  lemma QuotedHasNoControls(s: bytes)
    ensures NoControls(Quoted(s)) && |Quoted(s)| <= 6 * |s| + 2
  {
    hide Escaped;
    EscapedHasNoControls(s);
  }

  lemma DecimalsHaveNoControls(v: Json)
    requires v.Int? || v.Uint?
    ensures NoControls(Render(v, false, 0))
  {}

  /** A compact text has no control octets, so it is one line. */
  lemma {:induction false} CompactHasNoControls(t: Json, level: nat)
    requires Exact(t)
    ensures NoControls(Render(t, false, level))
    decreases t, 1
  {
    hide Quoted, ItemsText, MembersText, Decimal, SignedDecimal;
    match t
    case Str(s) => QuotedHasNoControls(s);
    case Arr(items) => ItemsHaveNoControls(items, level + 1, true);
    case Obj(members) => MembersHaveNoControls(members, level + 1, true);
    case Int(_) => DecimalsHaveNoControls(t);
    case Uint(_) => DecimalsHaveNoControls(t);
    case _ =>
  }

  lemma {:induction false} ItemsHaveNoControls(items: seq<Json>, level: nat, first: bool)
    requires Exact(Arr(items))
    ensures NoControls(ItemsText(items, false, level, first))
    decreases items, 0
  {
    hide Render;
    if items != [] {
      CompactHasNoControls(items[0], level);
      ItemsHaveNoControls(items[1..], level, false);
    }
  }

  lemma {:induction false} MembersHaveNoControls(members: seq<Member>, level: nat, first: bool)
    requires Exact(Obj(members))
    ensures NoControls(MembersText(members, false, level, first))
    decreases members, 0
  {
    hide Render, Quoted;
    if members != [] {
      QuotedHasNoControls(members[0].name);
      CompactHasNoControls(members[0].value, level);
      MembersHaveNoControls(members[1..], level, false);
    }
  }

  lemma {:induction false} RecordIsExact(s: WireSample, n: nat)
    requires s.Shaped() && n <= 33
    ensures Exact(Obj(EntriesOf(s, n)))
  {
    hide KeyName, DeclaredNames;
    if n > 0 {
      RecordIsExact(s, n - 1);
      NamesAreExact(s.declared, FIELD_COUNT);
    }
  }

  lemma {:induction false} NamesAreExact(declared: set<nat>, n: nat)
    requires n <= FIELD_COUNT
    ensures Exact(Arr(DeclaredNames(declared, n)))
  {
    hide KeyName;
    if n > 0 {
      NamesAreExact(declared, n - 1);
    }
  }

  /** The text of a sample's record. */
  function SampleText(s: WireSample): bytes
    requires s.Shaped()
  {
    Render(RecordOf(s), false, 0)
  }

  lemma SampleTextIsLine(s: WireSample)
    requires s.Shaped()
    ensures var text := SampleText(s);
            |text| >= 2 && text[0] == OPEN_BRACE && text[|text| - 1] == CLOSE_BRACE && NoControls(text)
            && Lines(text) == [text] && WithoutReturn(text) == text && Trimmed(text) == text
  {
    hide EntriesOf, MembersText;
    RecordIsExact(s, 33);
    CompactHasNoControls(RecordOf(s), 0);
    var text := SampleText(s);
    var inner := MembersText(EntriesOf(s, 33), false, 1, true);
    assert text == [OPEN_BRACE] + inner + [CLOSE_BRACE];
    TrimmedUnique([], text, []);
    assert [] + text + [] == text;
  }

  /** The record of a sample is recognised, whatever the sample, when it fits the limits. */
  lemma RecordIsSample(s: WireSample, lim: IngestLimits)
    requires s.Shaped()
    ensures KindOfLine(SampleText(s), lim)
            == if |SampleText(s)| <= MAX_LINE_BYTES && Fits(RecordOf(s), 0, lim.Json()) && Nodes(RecordOf(s)) <= lim.maxJsonNodes
               then SampleRecord(MembersOf(s)) else Unusable(MalformedLine)
  {
    hide ParseDocument, Fits, Nodes, Render, Lines, Trimmed, WithoutReturn, EntriesOf, KeyName, KindOfRecord;
    SampleTextIsLine(s);
    RecordIsExact(s, 33);
    DocumentReadsIff(RecordOf(s), false, lim.Json());
    RecognisedKind(s);
  }

  lemma RecognisedKind(s: WireSample)
    requires s.Shaped()
    ensures KindOfRecord(MembersOf(s)) == SampleRecord(MembersOf(s))
  {
    hide EntriesOf, KeyName;
    RecordGet(s, KIND);
    RecordGet(s, VERSION);
  }

  // ---- the round trip -----------------------------------------------------------------------

  lemma DecimalLengthBound(n: u64)
    ensures |Decimal(n)| <= 20
  {
    hide Decimal;
    assert Pow10(5) == 100000 && Pow10(10) == 100000 * Pow10(5) && Pow10(15) == 100000 * Pow10(10);
    assert Pow10(20) == 100000 * Pow10(15);
    DecimalLength(n, 20);
  }

  lemma {:induction false} NamesLength(declared: set<nat>, n: nat)
    requires n <= FIELD_COUNT
    ensures |ItemsText(DeclaredNames(declared, n), false, 2, true)| <= n * 141
  {
    hide KeyName, Quoted;
    if n > 0 {
      NamesLength(declared, n - 1);
      var name := KeyName(FieldKey(n - 1));
      KeysDiffer(FieldKey(n - 1), FieldKey(n - 1));
      QuotedHasNoControls(name);
      if n - 1 in declared {
        ItemsSnoc(DeclaredNames(declared, n - 1), Str(name), false, 2, true);
      } else {
        assert DeclaredNames(declared, n) == DeclaredNames(declared, n - 1);
      }
    }
  }

  /** Names as long as an identity may be, at most. */
  predicate ShortNames(s: WireSample) {
    && |s.path.device| <= 128 && |s.path.port| <= 128 && |s.source| <= 128 && |s.incarnation| <= 128
    && |s.domain| <= 128 && (s.schedulingClass.Some? ==> |s.schedulingClass.value| <= 128)
  }

  lemma LegibleIsShort(s: WireSample)
    requires Legible(s)
    ensures ShortNames(s)
  {}

  lemma EntryLength(s: WireSample, k: Key)
    requires s.Shaped() && ShortNames(s) && EntryOf(s, k).Some?
    ensures |Render(EntryOf(s, k).value, false, 1)| <= 2400
  {
    hide KeyName, Quoted, DeclaredNames, ItemsText, Decimal;
    match EntryOf(s, k).value
    case Str(text) => {
      assert |text| <= 128 by { AuthorityLength(s.authority); }
      QuotedHasNoControls(text);
    }
    case Uint(u) => DecimalLengthBound(u);
    case Int(i) => DecimalLengthBound(if i < 0 then 0 - i else i);
    case Arr(_) => NamesLength(s.declared, FIELD_COUNT);
    case _ =>
  }

  lemma AuthorityLength(a: Evidence.Authority)
    ensures |AuthorityName(a)| <= 128 && |SAMPLE_KIND| <= 128
  {}

  lemma {:induction false} RecordLength(s: WireSample, n: nat)
    requires s.Shaped() && ShortNames(s) && n <= 33
    ensures |MembersText(EntriesOf(s, n), false, 1, true)| <= n * 2600
  {
    hide KeyName, Quoted, EntryOf, Render;
    if n > 0 {
      RecordLength(s, n - 1);
      var entry, name := EntryOf(s, n - 1), KeyName(n - 1);
      KeysDiffer(n - 1, n - 1);
      QuotedHasNoControls(name);
      if entry.Some? {
        EntryLength(s, n - 1);
        MembersSnoc(EntriesOf(s, n - 1), Member(name, entry.value), false, 1, true);
      } else {
        assert EntriesOf(s, n) == EntriesOf(s, n - 1);
      }
    }
  }

  /** The record of a sample with valid names is far shorter than a line may be. */
  lemma LineLimitIsFar(s: WireSample)
    requires s.Shaped() && ShortNames(s)
    ensures |SampleText(s)| <= 86_000 < MAX_LINE_BYTES
  {
    hide EntriesOf, MembersText;
    RecordLength(s, 33);
  }

  const ONE_SAMPLE := NOTHING.(lines := 1, records := 1, sampleCount := 1)
  const ONE_MALFORMED := NOTHING.(lines := 1, malformed := 1, diagnostics := [Diagnostic(1, MalformedLine)])

  lemma {:induction false} FitsMeansShort(s: WireSample, lim: IngestLimits)
    requires s.Shaped() && Fits(RecordOf(s), 0, lim.Json())
    ensures ShortStrings(s, lim)
  {
    hide KeyName, EntriesOf;
    EntryFits(s, DEVICE, lim);
    EntryFits(s, PORT, lim);
    EntryFits(s, SOURCE, lim);
    EntryFits(s, INCARNATION, lim);
    EntryFits(s, DOMAIN, lim);
  }

  lemma EntryFits(s: WireSample, k: Key, lim: IngestLimits)
    requires s.Shaped() && Fits(RecordOf(s), 0, lim.Json()) && EntryOf(s, k).Some?
    ensures Fits(EntryOf(s, k).value, 1, lim.Json())
  {
    hide EntryOf, KeyName, EntriesOf;
    EntryFound(s, 33, k);
    FoundFits(EntriesOf(s, 33), KeyName(k), 1, lim.Json());
  }

  lemma {:induction false} FoundFits(members: seq<Member>, name: bytes, depth: nat, lim: JsonLimits)
    requires MembersFit(members, depth, lim) && Find(members, name).Some?
    ensures Fits(Find(members, name).value, depth, lim)
    decreases |members|
  {
    hide Fits;
    if members[0].name != name {
      FoundFits(members[1..], name, depth, lim);
    }
  }

  lemma OneLine(raw: bytes, lim: IngestLimits, tables: TableReader)
    requires lim.Valid() && Lines(raw) == [raw] && |raw| <= lim.maxPayloadBytes
    ensures Decode(raw, lim, tables) == Success(AfterLine(NOTHING, 1, raw, lim, tables))
  {
    hide Lines, AfterLine;
    assert [raw][..0] == [];
    assert AfterLines([], lim, tables) == NOTHING;
  }

  /** Every sample whose record the payload limit admits comes back as the wire carries it exactly
      when its names would pass validation, its time of observation is not negative, one of the 17
      measurements is reported, and the record is within the limits on JSON; otherwise its record
      is malformed to the decoder. */
  lemma SampleRoundTripIff(s: WireSample, lim: IngestLimits, tables: TableReader)
    requires s.Shaped() && lim.Valid() && |SampleText(s)| <= lim.maxPayloadBytes
    ensures Decode(SampleText(s), lim, tables)
            == Success(if Legible(s) && Fits(RecordOf(s), 0, lim.Json()) && Nodes(RecordOf(s)) <= lim.maxJsonNodes
                       then ONE_SAMPLE.(samples := [Carried(s)]) else ONE_MALFORMED)
  {
    hide Lines, SampleText, KindOfLine, ReadSample, MembersOf, Legible, Carried, ShortStrings, Fits, Nodes, Render, EntriesOf;
    SampleTextIsLine(s);
    OneLine(SampleText(s), lim, tables);
    RecordIsSample(s, lim);
    SampleBack(s, lim);
    var k := KindOfLine(SampleText(s), lim);
    if Fits(RecordOf(s), 0, lim.Json()) {
      FitsMeansShort(s, lim);
    }
    if Legible(s) {
      LegibleIsShort(s);
      LineLimitIsFar(s);
    }
    assert AfterLine(NOTHING, 1, SampleText(s), lim, tables) == WithRecord(NOTHING.(lines := 1), 1, k, lim, tables);
    assert NOTHING.samples + [Carried(s)] == [Carried(s)];
    assert NOTHING.diagnostics + [Diagnostic(1, MalformedLine)] == [Diagnostic(1, MalformedLine)];
  }

  /** The encoder does not refuse every sample that the decoder would refuse. */
  lemma EncodableYetMalformed(lim: IngestLimits, tables: TableReader) returns (s: WireSample)
    requires lim.Valid() && lim.maxPayloadBytes >= 86_000
    ensures s.Shaped() && Encodable(s) && s.observedNs < 0 && Legible(s.(observedNs := 0))
    ensures Decode(SampleText(s), lim, tables) == Success(ONE_MALFORMED)
  {
    var name: bytes := [0x61];
    s := WireSample(QueuePath(name, name, 0), name, name, 1, 1, 0, -1, name, 0, None, None, {0}, seq(FIELD_COUNT, _ => 0), {0});
    assert 0 in s.reported;
    LineLimitIsFar(s);
    SampleRoundTripIff(s, lim, tables);
  }

  // ---- the books --------------------------------------------------------------------------------

  /** Every line that is not skipped is a record or is counted as refused, for one reason. */
  predicate Balanced(o: Outcome, seen: nat) {
    && o.lines == o.records + o.malformed + o.unsupported + o.versionMismatches
    && o.lines + o.skipped == seen
    && o.records == |o.samples| + |o.metadata| && o.sampleCount == |o.samples|
    && o.metadataCount == |o.metadata| && o.metadataRecords == |o.metadata|
    && |o.diagnostics| == (if o.lines - o.records < MAX_DIAGNOSTICS then o.lines - o.records else MAX_DIAGNOSTICS)
    && (o.truncated <==> o.lines - o.records > MAX_DIAGNOSTICS)
  }

  /** An outcome that has counted one line more than it has placed. */
  predicate Owes(o: Outcome, seen: nat) {
    o.lines > 0 && seen > 0 && Balanced(o.(lines := o.lines - 1), seen - 1)
  }

  lemma BadSettles(o: Outcome, seen: nat, line: nat, status: DecodeStatus)
    requires Owes(o, seen)
    ensures Balanced(WithBad(o, line, status), seen)
    ensures WithBad(o, line, status).samples == o.samples && WithBad(o, line, status).metadata == o.metadata
  {
    assert |o.diagnostics + [Diagnostic(line, status)]| == |o.diagnostics| + 1;
  }

  lemma SampleSettles(o: Outcome, seen: nat, s: WireSample, unknown: nat)
    requires Owes(o, seen)
    ensures Balanced(WithSample(o, s, unknown), seen)
  {}

  lemma TableSettles(o: Outcome, seen: nat, t: Table)
    requires Owes(o, seen)
    ensures Balanced(WithTable(o, t), seen)
  {}

  predicate WithinLimits(o: Outcome, lim: IngestLimits) {
    |o.samples| <= lim.maxBatchSamples && |o.metadata| <= lim.maxBatchMetadata
  }

  lemma RecordSettles(o: Outcome, seen: nat, line: nat, k: LineKind, lim: IngestLimits, tables: TableReader)
    requires !k.Skipped? && Owes(o, seen) && WithinLimits(o, lim)
    ensures var after := WithRecord(o, line, k, lim, tables);
            Balanced(after, seen) && WithinLimits(after, lim) && o.samples <= after.samples && o.metadata <= after.metadata
  {
    hide WithBad, Balanced, Owes, ReadSample;
    forall status
      ensures Balanced(WithBad(o, line, status), seen)
      ensures WithBad(o, line, status).samples == o.samples && WithBad(o, line, status).metadata == o.metadata
    {
      BadSettles(o, seen, line, status);
    }
    forall s, unknown
      ensures Balanced(WithSample(o, s, unknown), seen)
    {
      SampleSettles(o, seen, s, unknown);
    }
    forall t
      ensures Balanced(WithTable(o, t), seen)
    {
      TableSettles(o, seen, t);
    }
  }

  lemma LineSettles(o: Outcome, seen: nat, line: nat, raw: bytes, lim: IngestLimits, tables: TableReader)
    requires Balanced(o, seen) && WithinLimits(o, lim)
    ensures var after := AfterLine(o, line, raw, lim, tables);
            Balanced(after, seen + 1) && WithinLimits(after, lim) && o.samples <= after.samples && o.metadata <= after.metadata
  {
    hide KindOfLine, WithRecord;
    var k := KindOfLine(raw, lim);
    if !k.Skipped? {
      assert o.(lines := o.lines + 1).(lines := o.lines) == o;
      RecordSettles(o.(lines := o.lines + 1), seen + 1, line, k, lim, tables);
    }
  }

  lemma OneMoreLine(lines: seq<bytes>, lim: IngestLimits, tables: TableReader)
    requires lines != []
    ensures AfterLines(lines, lim, tables)
            == AfterLine(AfterLines(lines[..|lines| - 1], lim, tables), |lines|, lines[|lines| - 1], lim, tables)
  {
    hide AfterLine;
  }

  lemma NoLines(lim: IngestLimits, tables: TableReader)
    ensures AfterLines([], lim, tables) == NOTHING && Balanced(NOTHING, 0) && !LimitMet([], lim, tables)
  {}

  /** The books balance after any document, and the samples and tables stay within the limits. */
  lemma {:induction false} LinesAccount(lines: seq<bytes>, lim: IngestLimits, tables: TableReader)
    ensures Balanced(AfterLines(lines, lim, tables), |lines|) && WithinLimits(AfterLines(lines, lim, tables), lim)
    decreases |lines|
  {
    hide AfterLine, AfterLines, Balanced, LimitMet;
    if lines == [] {
      NoLines(lim, tables);
    } else {
      var front := lines[..|lines| - 1];
      LinesAccount(front, lim, tables);
      LineSettles(AfterLines(front, lim, tables), |front|, |lines|, lines[|lines| - 1], lim, tables);
      OneMoreLine(lines, lim, tables);
    }
  }

  // ---- lines stand alone ------------------------------------------------------------------------

  lemma {:induction false} EndOfJoined(a: bytes, b: bytes)
    ensures LineEnd(a + [NEWLINE] + b) == LineEnd(a)
    decreases |a|
  {
    if a != [] && a[0] != NEWLINE {
      assert (a + [NEWLINE] + b)[1..] == a[1..] + [NEWLINE] + b;
      EndOfJoined(a[1..], b);
    }
  }

  lemma {:induction false} LinesOfJoined(a: bytes, b: bytes)
    ensures Lines(a + [NEWLINE] + b) == Lines(a) + Lines(b)
    decreases |a|
  {
    hide LineEnd;
    var s, n := a + [NEWLINE] + b, LineEnd(a);
    EndOfJoined(a, b);
    assert s[..n] == a[..n];
    if n == |a| {
      assert s[n + 1..] == b && a[..n] == a;
    } else {
      assert s[n + 1..] == a[n + 1..] + [NEWLINE] + b;
      LinesOfJoined(a[n + 1..], b);
    }
  }

  /** Some line would be turned away because the document is full. */
  predicate LimitMet(lines: seq<bytes>, lim: IngestLimits, tables: TableReader) {
    lines != []
    && (LimitMet(lines[..|lines| - 1], lim, tables)
        || AtLimit(AfterLines(lines[..|lines| - 1], lim, tables), KindOfLine(lines[|lines| - 1], lim), lim))
  }

  function Shifted(diagnostics: seq<Diagnostic>, shift: nat): seq<Diagnostic> {
    seq(|diagnostics|, i requires 0 <= i < |diagnostics| => Diagnostic(diagnostics[i].line + shift, diagnostics[i].status))
  }

  function FirstOnes(diagnostics: seq<Diagnostic>): seq<Diagnostic> {
    if |diagnostics| > MAX_DIAGNOSTICS then diagnostics[..MAX_DIAGNOSTICS] else diagnostics
  }

  /** One outcome after another, which began after so many lines. */
  function Joined(a: Outcome, shift: nat, b: Outcome): Outcome {
    var diagnostics := a.diagnostics + Shifted(b.diagnostics, shift);
    Outcome(a.lines + b.lines, a.records + b.records, a.sampleCount + b.sampleCount, a.metadataCount + b.metadataCount,
            a.metadataRecords + b.metadataRecords, a.skipped + b.skipped, a.malformed + b.malformed,
            a.unsupported + b.unsupported, a.versionMismatches + b.versionMismatches, a.unknownKeys + b.unknownKeys,
            a.samples + b.samples, a.metadata + b.metadata, FirstOnes(diagnostics),
            a.truncated || b.truncated || |diagnostics| > MAX_DIAGNOSTICS)
  }

  predicate Capped(o: Outcome) {
    |o.diagnostics| <= MAX_DIAGNOSTICS && (o.truncated ==> |o.diagnostics| == MAX_DIAGNOSTICS)
  }

  lemma JoinedDiagnosed(a: Outcome, shift: nat, b: Outcome, line: nat, status: DecodeStatus)
    requires Capped(a) && Capped(b)
    ensures Diagnosed(Joined(a, shift, b), line + shift, status) == Joined(a, shift, Diagnosed(b, line, status))
    ensures Capped(Diagnosed(b, line, status))
  {
    var after := Diagnosed(b, line, status);
    if |b.diagnostics| < MAX_DIAGNOSTICS {
      assert Shifted(after.diagnostics, shift) == Shifted(b.diagnostics, shift) + [Diagnostic(line + shift, status)];
      assert a.diagnostics + Shifted(after.diagnostics, shift)
          == a.diagnostics + Shifted(b.diagnostics, shift) + [Diagnostic(line + shift, status)];
    }
  }

  lemma JoinedBad(a: Outcome, shift: nat, b: Outcome, line: nat, status: DecodeStatus)
    requires Capped(a) && Capped(b)
    ensures WithBad(Joined(a, shift, b), line + shift, status) == Joined(a, shift, WithBad(b, line, status))
    ensures Capped(WithBad(b, line, status))
  {
    hide Diagnosed;
    hide FirstOnes, Shifted;
    JoinedDiagnosed(a, shift, match status
                           case MalformedLine => b.(malformed := b.malformed + 1)
                           case UnsupportedLine => b.(unsupported := b.unsupported + 1)
                           case WrongVersion => b.(versionMismatches := b.versionMismatches + 1), line, status);
  }

  lemma JoinedRecord(a: Outcome, shift: nat, b: Outcome, line: nat, k: LineKind, lim: IngestLimits, tables: TableReader)
    requires Capped(a) && Capped(b) && !k.Skipped? && !AtLimit(Joined(a, shift, b), k, lim)
    ensures WithRecord(Joined(a, shift, b), line + shift, k, lim, tables) == Joined(a, shift, WithRecord(b, line, k, lim, tables))
    ensures Capped(WithRecord(b, line, k, lim, tables))
  {
    hide WithBad, FirstOnes, Shifted, ReadSample;
    forall status
      ensures WithBad(Joined(a, shift, b), line + shift, status) == Joined(a, shift, WithBad(b, line, status))
      ensures Capped(WithBad(b, line, status))
    {
      JoinedBad(a, shift, b, line, status);
    }
    match k
    case SampleRecord(members) =>
      match ReadSample(members, lim) {
        case Good((s, unknown)) => assert a.samples + (b.samples + [s]) == (a.samples + b.samples) + [s];
        case Bad(_) =>
      }
    case TableRecord(members) =>
      match tables(members) {
        case Good(t) => assert a.metadata + (b.metadata + [t]) == (a.metadata + b.metadata) + [t];
        case Bad(_) =>
      }
    case _ =>
  }

  lemma OutcomesAreCapped(lines: seq<bytes>, lim: IngestLimits, tables: TableReader)
    ensures Capped(AfterLines(lines, lim, tables))
  {
    hide AfterLines;
    LinesAccount(lines, lim, tables);
  }

  lemma JoinedLine(a: Outcome, shift: nat, b: Outcome, line: nat, raw: bytes, lim: IngestLimits, tables: TableReader)
    requires Capped(a) && Capped(b) && !AtLimit(Joined(a, shift, b), KindOfLine(raw, lim), lim)
    ensures AfterLine(Joined(a, shift, b), line + shift, raw, lim, tables)
            == Joined(a, shift, AfterLine(b, line, raw, lim, tables))
  {
    hide KindOfLine, WithRecord, FirstOnes, Shifted;
    var k := KindOfLine(raw, lim);
    if !k.Skipped? {
      var counted := b.(lines := b.lines + 1);
      JoinedRecord(a, shift, counted, line, k, lim, tables);
      assert Joined(a, shift, counted) == Joined(a, shift, b).(lines := Joined(a, shift, b).lines + 1);
    }
  }

  lemma JoinedNothing(o: Outcome, shift: nat)
    requires Capped(o)
    ensures Joined(o, shift, NOTHING) == o
  {
    assert o.diagnostics + [] == o.diagnostics && o.samples + [] == o.samples && o.metadata + [] == o.metadata;
    assert Shifted([], shift) == [];
  }

  lemma LimitStep(lines: seq<bytes>, lim: IngestLimits, tables: TableReader)
    requires lines != []
    ensures LimitMet(lines, lim, tables)
            <==> LimitMet(lines[..|lines| - 1], lim, tables)
                 || AtLimit(AfterLines(lines[..|lines| - 1], lim, tables), KindOfLine(lines[|lines| - 1], lim), lim)
  {
    hide AfterLines, KindOfLine, AtLimit;
  }

  lemma FullerMeetsLimit(a: Outcome, shift: nat, b: Outcome, k: LineKind, lim: IngestLimits)
    requires AtLimit(b, k, lim)
    ensures AtLimit(Joined(a, shift, b), k, lim)
  {}

  /** While no limit is met, what some lines give does not depend on the lines before them. */
  lemma {:induction false} LinesStandAlone(a: seq<bytes>, b: seq<bytes>, lim: IngestLimits, tables: TableReader)
    requires !LimitMet(a + b, lim, tables)
    ensures !LimitMet(a, lim, tables) && !LimitMet(b, lim, tables)
    ensures AfterLines(a + b, lim, tables) == Joined(AfterLines(a, lim, tables), |a|, AfterLines(b, lim, tables))
    decreases |b|
  {
    hide KindOfLine, AfterLine, AfterLines, LimitMet, Joined, AtLimit, Balanced, Capped;
    OutcomesAreCapped(a, lim, tables);
    if b == [] {
      assert a + b == a;
      NoLines(lim, tables);
      JoinedNothing(AfterLines(a, lim, tables), |a|);
    } else {
      var front, last := b[..|b| - 1], b[|b| - 1];
      assert (a + b)[..|a + b| - 1] == a + front && (a + b)[|a + b| - 1] == last;
      LimitStep(a + b, lim, tables);
      LimitStep(b, lim, tables);
      LinesStandAlone(a, front, lim, tables);
      OutcomesAreCapped(front, lim, tables);
      var oa, ob := AfterLines(a, lim, tables), AfterLines(front, lim, tables);
      if AtLimit(ob, KindOfLine(last, lim), lim) {
        FullerMeetsLimit(oa, |a|, ob, KindOfLine(last, lim), lim);
      }
      OneMoreLine(a + b, lim, tables);
      OneMoreLine(b, lim, tables);
      JoinedLine(oa, |a|, ob, |b|, last, lim, tables);
    }
  }

  /** Two documents joined by a newline give what they give apart, one after the other, whatever
      malformed lines either holds, while no limit is met. */
  lemma LineIsolation(a: bytes, b: bytes, lim: IngestLimits, tables: TableReader)
    requires lim.Valid() && |a + [NEWLINE] + b| <= lim.maxPayloadBytes
    requires !LimitMet(Lines(a + [NEWLINE] + b), lim, tables)
    ensures var first, second := Decode(a, lim, tables), Decode(b, lim, tables);
            first.Success? && second.Success?
            && Decode(a + [NEWLINE] + b, lim, tables) == Success(Joined(first.value, |Lines(a)|, second.value))
  {
    hide Lines, AfterLines, LimitMet, Joined;
    LinesOfJoined(a, b);
    LinesStandAlone(Lines(a), Lines(b), lim, tables);
  }

  // ---- a bad line hides nothing -------------------------------------------------------------

  /** A line that no document takes a record from. */
  predicate Barren(raw: bytes, lim: IngestLimits, tables: TableReader) {
    match KindOfLine(raw, lim)
    case SampleRecord(members) => ReadSample(members, lim).Bad?
    case TableRecord(members) => tables(members).Bad?
    case _ => true
  }

  predicate SameRecords(a: Outcome, b: Outcome) {
    a.samples == b.samples && a.metadata == b.metadata && a.unknownKeys == b.unknownKeys && a.records == b.records
  }

  lemma RecordsFollowRecords(a: Outcome, b: Outcome, i: nat, j: nat, raw: bytes, lim: IngestLimits, tables: TableReader)
    requires SameRecords(a, b)
    ensures SameRecords(AfterLine(a, i, raw, lim, tables), AfterLine(b, j, raw, lim, tables))
    ensures Barren(raw, lim, tables) ==> SameRecords(AfterLine(a, i, raw, lim, tables), b)
  {
    hide KindOfLine, ReadSample, WithBad;
    forall o: Outcome, n: nat, status
      ensures SameRecords(WithBad(o, n, status), o)
    {
      BadKeepsRecords(o, n, status);
    }
  }

  lemma BadKeepsRecords(o: Outcome, n: nat, status: DecodeStatus)
    ensures SameRecords(WithBad(o, n, status), o)
  {}

  /** Putting in a line that carries no record changes none of the records, before it or after,
      limits or no limits. */
  lemma {:induction false} BadLineHidesNothing(a: seq<bytes>, bad: bytes, b: seq<bytes>, lim: IngestLimits, tables: TableReader)
    requires Barren(bad, lim, tables)
    ensures SameRecords(AfterLines(a + [bad] + b, lim, tables), AfterLines(a + b, lim, tables))
    decreases |b|
  {
    hide AfterLines, AfterLine, Barren;
    var longer, shorter := a + [bad] + b, a + b;
    OneMoreLine(longer, lim, tables);
    if b == [] {
      assert longer[..|longer| - 1] == a && shorter == a;
      var o := AfterLines(a, lim, tables);
      RecordsFollowRecords(o, o, |longer|, 0, bad, lim, tables);
    } else {
      var front, last := b[..|b| - 1], b[|b| - 1];
      assert longer[..|longer| - 1] == a + [bad] + front && shorter[..|shorter| - 1] == a + front;
      BadLineHidesNothing(a, bad, front, lim, tables);
      OneMoreLine(shorter, lim, tables);
      RecordsFollowRecords(AfterLines(a + [bad] + front, lim, tables), AfterLines(a + front, lim, tables),
                           |longer|, |shorter|, last, lim, tables);
    }
  }

  /** A limit stands in the way only of a document that holds that many already. */
  lemma {:induction false} RoomMeansNoLimit(lines: seq<bytes>, lim: IngestLimits, tables: TableReader)
    requires var o := AfterLines(lines, lim, tables); |o.samples| < lim.maxBatchSamples && |o.metadata| < lim.maxBatchMetadata
    ensures !LimitMet(lines, lim, tables)
    decreases |lines|
  {
    hide AfterLines, KindOfLine;
    if lines != [] {
      OnlyGrows(lines, lim, tables);
      RoomMeansNoLimit(lines[..|lines| - 1], lim, tables);
    }
  }

  lemma OnlyGrows(lines: seq<bytes>, lim: IngestLimits, tables: TableReader)
    requires lines != []
    ensures var before, after := AfterLines(lines[..|lines| - 1], lim, tables), AfterLines(lines, lim, tables);
            before.samples <= after.samples && before.metadata <= after.metadata
  {
    hide AfterLine, AfterLines, Balanced;
    var front := lines[..|lines| - 1];
    LinesAccount(front, lim, tables);
    LineSettles(AfterLines(front, lim, tables), |front|, |lines|, lines[|lines| - 1], lim, tables);
    OneMoreLine(lines, lim, tables);
  }
}
