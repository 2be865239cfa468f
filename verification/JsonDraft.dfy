/** What a sequence of writer calls builds: a value under construction, its text so far, and
    which sequences of calls are right. */
module JsonDraft {
  import opened Wrappers
  import opened Bytes
  import opened Text
  import opened JsonSpec
  import opened JsonProofs

  datatype Frame = ArrayFrame | ObjectFrame

  /** A container that is still open. An array is entered while its next element is being
      written; an object has a pending name between the name and the end of its value. */
  datatype Open =
    | OpenArr(items: seq<Json>, entered: bool)
    | OpenObj(members: seq<Member>, pending: Option<bytes>)
  {
    function Kind(): Frame {
      if OpenArr? then ArrayFrame else ObjectFrame
    }

    predicate Entered() {
      match this
      case OpenArr(_, entered) => entered
      case OpenObj(_, pending) => pending.Some?
    }

    predicate Empty() {
      match this
      case OpenArr(items, _) => items == []
      case OpenObj(members, _) => members == []
    }

    /** With the value it was waiting for. */
    function With(v: Json): Open
      requires Entered()
    {
      match this
      case OpenArr(items, _) => OpenArr(items + [v], false)
      case OpenObj(members, pending) => OpenObj(members + [Member(pending.value, v)], None)
    }

    function Closed(): Json {
      match this
      case OpenArr(items, _) => Arr(items)
      case OpenObj(members, _) => Obj(members)
    }
  }

  /** The open containers, outermost at the bottom. */
  datatype Stack = Bottom | On(below: Stack, top: Open) {
    function Depth(): nat {
      if Bottom? then 0 else below.Depth() + 1
    }

    /** Every frame waits for what is being written inside it. */
    predicate Waits() {
      Bottom? || (top.Entered() && below.Waits())
    }
  }

  datatype Draft = Draft(frames: Stack, done: Option<Json>, status: Status) {
    predicate Sound() {
      frames.On? ==> frames.below.Waits() && done.None? && !(frames.top.OpenArr? && frames.top.entered)
    }

    predicate Complete() {
      status.Ok? && frames.Bottom? && done.Some?
    }
  }

  const START := Draft(Bottom, None, Status.Ok)

  function Failed(d: Draft): Draft
    requires d.status.Ok?
  {
    d.(status := Failure(Internal))
  }

  function EmptyFrame(kind: Frame): Open {
    match kind
    case ArrayFrame => OpenArr([], false)
    case ObjectFrame => OpenObj([], None)
  }

  // ---- the calls --------------------------------------------------------------------------

  /** Whether a value may be written next. */
  predicate Ready(d: Draft) {
    d.status.Ok? && if d.frames.Bottom? then d.done.None? else d.frames.top.OpenArr? || d.frames.top.pending.Some?
  }

  /** The value goes where one was waited for. */
  function Placed(frames: Stack, v: Json): Draft
    requires frames.Waits()
  {
    match frames
    case Bottom => Draft(Bottom, Some(v), Status.Ok)
    case On(below, top) => Draft(On(below, top.With(v)), None, Status.Ok)
  }

  /** The open frames once the innermost waits for a value. */
  function Waiting(d: Draft): (frames: Stack)
    requires d.Sound() && Ready(d)
    ensures frames.Waits() && frames.Depth() == d.frames.Depth()
  {
    match d.frames
    case Bottom => Bottom
    case On(below, top) => On(below, if top.OpenArr? then top.(entered := true) else top)
  }

  function Write(d: Draft, v: Json): Draft
    requires d.Sound()
  {
    if d.status.Failure? then d
    else if !Ready(d) then Failed(d)
    else Placed(Waiting(d), v)
  }

  function Begin(d: Draft, kind: Frame): Draft
    requires d.Sound()
  {
    if d.status.Failure? then d
    else if !Ready(d) then Failed(d)
    else Draft(On(Waiting(d), EmptyFrame(kind)), None, Status.Ok)
  }

  predicate MayEnd(d: Draft, kind: Frame) {
    d.status.Ok? && d.frames.On? && d.frames.top.Kind() == kind && (kind == ObjectFrame ==> d.frames.top.pending.None?)
  }

  function End(d: Draft, kind: Frame): Draft
    requires d.Sound()
  {
    if d.status.Failure? then d
    else if !MayEnd(d, kind) then Failed(d)
    else Placed(d.frames.below, d.frames.top.Closed())
  }

  predicate MayName(d: Draft) {
    d.status.Ok? && d.frames.On? && d.frames.top.OpenObj? && d.frames.top.pending.None?
  }

  function Name(d: Draft, name: bytes): Draft
    requires d.Sound()
  {
    if d.status.Failure? then d
    else if !MayName(d) then Failed(d)
    else d.(frames := On(d.frames.below, OpenObj(d.frames.top.members, Some(name))))
  }

  // ---- the text so far --------------------------------------------------------------------

  /** What has been written of an open frame inside so many others. */
  function FrameText(f: Open, pretty: bool, level: nat): bytes {
    match f
    case OpenArr(items, entered) =>
      [OPEN_BRACKET] + ItemsText(items, pretty, level + 1, true)
      + (if entered then Separator(items == []) + Break(pretty, level + 1) else [])
    case OpenObj(members, pending) =>
      [OPEN_BRACE] + MembersText(members, pretty, level + 1, true)
      + (if pending.Some? then Separator(members == []) + Break(pretty, level + 1) + NameText(pending.value, pretty) else [])
  }

  function StackText(frames: Stack, pretty: bool): bytes {
    match frames
    case Bottom => []
    case On(below, top) => StackText(below, pretty) + FrameText(top, pretty, below.Depth())
  }

  function DraftText(d: Draft, pretty: bool): bytes {
    if d.frames.Bottom? && d.done.Some? then Render(d.done.value, pretty, 0) else StackText(d.frames, pretty)
  }

  lemma {:induction false} ItemsSnoc(items: seq<Json>, v: Json, pretty: bool, level: nat, first: bool)
    ensures ItemsText(items + [v], pretty, level, first)
            == ItemsText(items, pretty, level, first)
               + (Separator(first && items == []) + Break(pretty, level) + Render(v, pretty, level))
    decreases |items|
  {
    hide Render, Break;
    if items == [] {
      assert (items + [v])[1..] == [];
      assert ItemsText([], pretty, level, false) == [];
    } else {
      assert (items + [v])[1..] == items[1..] + [v];
      ItemsSnoc(items[1..], v, pretty, level, false);
    }
  }

  lemma {:induction false} MembersSnoc(members: seq<Member>, m: Member, pretty: bool, level: nat, first: bool)
    ensures MembersText(members + [m], pretty, level, first)
            == MembersText(members, pretty, level, first)
               + (Separator(first && members == []) + Break(pretty, level) + NameText(m.name, pretty)
                  + Render(m.value, pretty, level))
    decreases |members|
  {
    hide Render, Break, NameText;
    if members == [] {
      assert (members + [m])[1..] == [];
      assert MembersText([], pretty, level, false) == [];
    } else {
      assert (members + [m])[1..] == members[1..] + [m];
      MembersSnoc(members[1..], m, pretty, level, false);
    }
  }

  lemma Regroup(a: bytes, b: bytes, c: bytes, d: bytes)
    ensures a + (b + c + d) == (a + b) + c + d && a + (b + (c + d)) == (a + b) + c + d
  {}

  lemma FrameGrows(f: Open, v: Json, pretty: bool, level: nat)
    requires f.Entered()
    ensures FrameText(f.With(v), pretty, level) == FrameText(f, pretty, level) + Render(v, pretty, level + 1)
  {
    hide Render, ItemsText, MembersText, Break, NameText;
    var blanks, value := Break(pretty, level + 1), Render(v, pretty, level + 1);
    match f
    case OpenArr(items, _) => {
      ItemsSnoc(items, v, pretty, level + 1, true);
      Regroup([OPEN_BRACKET], ItemsText(items, pretty, level + 1, true), Separator(items == []) + blanks, value);
    }
    case OpenObj(members, pending) => {
      MembersSnoc(members, Member(pending.value, v), pretty, level + 1, true);
      Regroup([OPEN_BRACE], MembersText(members, pretty, level + 1, true),
              Separator(members == []) + blanks + NameText(pending.value, pretty), value);
    }
  }

  /** Writing a value where one is waited for appends exactly its text. */
  lemma PlacedText(frames: Stack, v: Json, pretty: bool)
    requires frames.Waits()
    ensures DraftText(Placed(frames, v), pretty) == StackText(frames, pretty) + Render(v, pretty, frames.Depth())
  {
    hide Render, FrameText;
    if frames.On? {
      FrameGrows(frames.top, v, pretty, frames.below.Depth());
    }
  }

  /** What stands between an element and the one before it. */
  lemma WaitingText(d: Draft, pretty: bool)
    requires d.Sound() && Ready(d)
    ensures StackText(Waiting(d), pretty)
            == DraftText(d, pretty)
               + (if d.frames.On? && d.frames.top.OpenArr?
                  then Separator(d.frames.top.Empty()) + Break(pretty, d.frames.Depth()) else [])
  {
    hide ItemsText, MembersText, Break, NameText;
  }

  /** Closing a frame completes the text of its value. */
  lemma ClosedText(f: Open, pretty: bool, level: nat)
    requires !f.Entered()
    ensures Render(f.Closed(), pretty, level)
            == FrameText(f, pretty, level) + (if f.Empty() then [] else Break(pretty, level))
               + [if f.OpenArr? then CLOSE_BRACKET else CLOSE_BRACE]
  {
    hide ItemsText, MembersText, Break;
  }

  lemma NamedText(d: Draft, name: bytes, pretty: bool)
    requires d.Sound() && MayName(d)
    ensures DraftText(Name(d, name), pretty)
            == DraftText(d, pretty)
               + (Separator(d.frames.top.Empty()) + Break(pretty, d.frames.Depth()) + NameText(name, pretty))
  {
    hide ItemsText, MembersText, Break, NameText;
  }

  lemma EndText(d: Draft, kind: Frame, pretty: bool)
    requires d.Sound() && MayEnd(d, kind)
    ensures DraftText(End(d, kind), pretty)
            == DraftText(d, pretty) + (if d.frames.top.Empty() then [] else Break(pretty, d.frames.Depth() - 1))
               + [if kind == ArrayFrame then CLOSE_BRACKET else CLOSE_BRACE]
  {
    hide Render, FrameText, Break;
    var below, top, level := d.frames.below, d.frames.top, d.frames.Depth() - 1;
    PlacedText(below, top.Closed(), pretty);
    ClosedText(top, pretty, level);
    var blanks := if top.Empty() then [] else Break(pretty, level);
    Regroup(StackText(below, pretty), FrameText(top, pretty, level), blanks,
            [if kind == ArrayFrame then CLOSE_BRACKET else CLOSE_BRACE]);
  }

  lemma BeginText(d: Draft, kind: Frame, pretty: bool)
    requires d.Sound() && Ready(d)
    ensures DraftText(Begin(d, kind), pretty)
            == StackText(Waiting(d), pretty) + [if kind == ArrayFrame then OPEN_BRACKET else OPEN_BRACE]
  {}

  // ---- sequences of calls ---------------------------------------------------------------------

  datatype Call = BeginCall(kind: Frame) | EndCall(kind: Frame) | NameCall(name: bytes) | ValueCall(v: Json)

  function Step(d: Draft, c: Call): (after: Draft)
    requires d.Sound()
    ensures after.Sound()
  {
    match c
    case BeginCall(kind) => Begin(d, kind)
    case EndCall(kind) => End(d, kind)
    case NameCall(name) => Name(d, name)
    case ValueCall(v) => Write(d, v)
  }

  function Feed(d: Draft, calls: seq<Call>): (after: Draft)
    requires d.Sound()
    ensures after.Sound()
  {
    if calls == [] then d else Step(Feed(d, calls[..|calls| - 1]), calls[|calls| - 1])
  }

  lemma {:induction false} FeedConcat(d: Draft, a: seq<Call>, b: seq<Call>)
    requires d.Sound()
    ensures Feed(d, a + b) == Feed(Feed(d, a), b)
    decreases |b|
  {
    if b == [] {
      assert a + b == a;
    } else {
      assert (a + b)[..|a + b| - 1] == a + b[..|b| - 1];
      FeedConcat(d, a, b[..|b| - 1]);
    }
  }

  /** The calls that write a value. */
  function CallsOf(t: Json): seq<Call> {
    match t
    case Arr(items) => [BeginCall(ArrayFrame)] + ItemsCalls(items) + [EndCall(ArrayFrame)]
    case Obj(members) => [BeginCall(ObjectFrame)] + MembersCalls(members) + [EndCall(ObjectFrame)]
    case _ => [ValueCall(t)]
  }

  function ItemsCalls(items: seq<Json>): seq<Call> {
    if items == [] then [] else CallsOf(items[0]) + ItemsCalls(items[1..])
  }

  function MembersCalls(members: seq<Member>): seq<Call> {
    if members == [] then [] else [NameCall(members[0].name)] + CallsOf(members[0].value) + MembersCalls(members[1..])
  }

  predicate Scalar(v: Json) {
    !v.Arr? && !v.Obj? && !v.Real?
  }

  /** The writer takes values one scalar at a time. */
  predicate ScalarCalls(calls: seq<Call>) {
    forall i :: 0 <= i < |calls| ==> calls[i].ValueCall? ==> Scalar(calls[i].v)
  }

  function FrameCalls(f: Open): seq<Call> {
    match f
    case OpenArr(items, _) => [BeginCall(ArrayFrame)] + ItemsCalls(items)
    case OpenObj(members, pending) =>
      [BeginCall(ObjectFrame)] + MembersCalls(members) + (if pending.Some? then [NameCall(pending.value)] else [])
  }

  function StackCalls(frames: Stack): seq<Call> {
    match frames
    case Bottom => []
    case On(below, top) => StackCalls(below) + FrameCalls(top)
  }

  function DraftCalls(d: Draft): seq<Call> {
    if d.frames.Bottom? && d.done.Some? then CallsOf(d.done.value) else StackCalls(d.frames)
  }

  lemma {:induction false} ItemsCallsSnoc(items: seq<Json>, v: Json)
    ensures ItemsCalls(items + [v]) == ItemsCalls(items) + CallsOf(v)
    decreases |items|
  {
    hide CallsOf;
    if items == [] {
      assert (items + [v])[1..] == [];
      assert ItemsCalls([]) == [];
    } else {
      assert (items + [v])[1..] == items[1..] + [v];
      ItemsCallsSnoc(items[1..], v);
    }
  }

  lemma {:induction false} MembersCallsSnoc(members: seq<Member>, m: Member)
    ensures MembersCalls(members + [m]) == MembersCalls(members) + [NameCall(m.name)] + CallsOf(m.value)
    decreases |members|
  {
    hide CallsOf;
    if members == [] {
      assert (members + [m])[1..] == [];
      assert MembersCalls([]) == [];
    } else {
      assert (members + [m])[1..] == members[1..] + [m];
      MembersCallsSnoc(members[1..], m);
    }
  }

  lemma PlacedCalls(frames: Stack, v: Json)
    requires frames.Waits()
    ensures DraftCalls(Placed(frames, v)) == StackCalls(frames) + CallsOf(v)
  {
    hide CallsOf, ItemsCalls, MembersCalls;
    match frames
    case Bottom =>
    case On(_, OpenArr(items, _)) => ItemsCallsSnoc(items, v);
    case On(_, OpenObj(members, pending)) => MembersCallsSnoc(members, Member(pending.value, v));
  }

  lemma WaitingCalls(d: Draft)
    requires d.Sound() && Ready(d)
    ensures StackCalls(Waiting(d)) == DraftCalls(d)
  {
    hide ItemsCalls, MembersCalls;
  }

  lemma StepRecords(d: Draft, c: Call)
    requires d.Sound() && Step(d, c).status.Ok? && (c.ValueCall? ==> Scalar(c.v))
    ensures DraftCalls(Step(d, c)) == DraftCalls(d) + [c]
  {
    hide ItemsCalls, MembersCalls;
    match c
    case ValueCall(v) => {
      WaitingCalls(d);
      PlacedCalls(Waiting(d), v);
    }
    case BeginCall(kind) => {
      WaitingCalls(d);
      NoCalls();
    }
    case EndCall(kind) => PlacedCalls(d.frames.below, d.frames.top.Closed());
    case NameCall(name) =>
  }

  lemma NoCalls()
    ensures ItemsCalls([]) == [] && MembersCalls([]) == []
  {}

  /** A run without errors can be told from what it has built. */
  lemma {:induction false} DraftTellsCalls(calls: seq<Call>)
    requires ScalarCalls(calls) && Feed(START, calls).status.Ok?
    ensures DraftCalls(Feed(START, calls)) == calls
    decreases |calls|
  {
    if calls != [] {
      var before, c := calls[..|calls| - 1], calls[|calls| - 1];
      assert ScalarCalls(before);
      DraftTellsCalls(before);
      hide DraftCalls;
      StepRecords(Feed(START, before), c);
      assert calls == before + [c];
    }
  }

  lemma {:induction false} ItemsFed(below: Stack, sofar: seq<Json>, items: seq<Json>)
    requires below.Waits()
    ensures Feed(Draft(On(below, OpenArr(sofar, false)), None, Status.Ok), ItemsCalls(items))
            == Draft(On(below, OpenArr(sofar + items, false)), None, Status.Ok)
    decreases items, 0
  {
    hide Feed, CallsOf;
    var d := Draft(On(below, OpenArr(sofar, false)), None, Status.Ok);
    if items == [] {
      assert sofar + items == sofar;
      NoneFed(d);
    } else {
      ValueFed(d, items[0]);
      FeedConcat(d, CallsOf(items[0]), ItemsCalls(items[1..]));
      ItemsFed(below, sofar + [items[0]], items[1..]);
      assert sofar + [items[0]] + items[1..] == sofar + items;
    }
  }

  lemma {:induction false} MembersFed(below: Stack, sofar: seq<Member>, members: seq<Member>)
    requires below.Waits()
    ensures Feed(Draft(On(below, OpenObj(sofar, None)), None, Status.Ok), MembersCalls(members))
            == Draft(On(below, OpenObj(sofar + members, None)), None, Status.Ok)
    decreases members, 0
  {
    hide Feed, CallsOf;
    var d := Draft(On(below, OpenObj(sofar, None)), None, Status.Ok);
    if members == [] {
      assert sofar + members == sofar;
      NoneFed(d);
    } else {
      var m := members[0];
      var named := Draft(On(below, OpenObj(sofar, Some(m.name))), None, Status.Ok);
      OneCall(d, NameCall(m.name));
      ValueFed(named, m.value);
      FeedConcat(d, [NameCall(m.name)], CallsOf(m.value));
      FeedConcat(d, [NameCall(m.name)] + CallsOf(m.value), MembersCalls(members[1..]));
      assert Write(named, m.value).frames == On(below, OpenObj(sofar + [m], None));
      MembersFed(below, sofar + [m], members[1..]);
      assert sofar + [m] + members[1..] == sofar + members;
    }
  }

  lemma NoneFed(d: Draft)
    requires d.Sound()
    ensures Feed(d, []) == d
  {}

  lemma OneCall(d: Draft, c: Call)
    requires d.Sound()
    ensures Feed(d, [c]) == Step(d, c)
  {
    assert [c][..0] == [];
    assert Feed(d, []) == d;
  }

  lemma FeedAround(d: Draft, first: Call, middle: seq<Call>, last: Call)
    requires d.Sound()
    ensures Feed(d, [first] + middle + [last]) == Step(Feed(Step(d, first), middle), last)
  {
    hide Feed, Step;
    OneCall(d, first);
    FeedConcat(d, [first], middle);
    FeedConcat(d, [first] + middle, [last]);
    OneCall(Feed(d, [first] + middle), last);
  }

  /** Wherever a value may be written, the calls for it write it. */
  lemma {:induction false} ValueFed(d: Draft, t: Json)
    requires d.Sound() && Ready(d)
    ensures Feed(d, CallsOf(t)) == Write(d, t)
    decreases t, 1
  {
    hide Feed, ItemsCalls, MembersCalls;
    match t
    case Arr(items) => {
      FeedAround(d, BeginCall(ArrayFrame), ItemsCalls(items), EndCall(ArrayFrame));
      ItemsFed(Waiting(d), [], items);
      assert [] + items == items;
    }
    case Obj(members) => {
      FeedAround(d, BeginCall(ObjectFrame), MembersCalls(members), EndCall(ObjectFrame));
      MembersFed(Waiting(d), [], members);
      assert [] + members == members;
    }
    case _ => OneCall(d, ValueCall(t));
  }

  /** A sequence of calls runs without error and closes every frame exactly when it is the
      sequence for the value it builds. */
  lemma CompleteIff(calls: seq<Call>, t: Json)
    requires ScalarCalls(calls)
    ensures Feed(START, calls) == Draft(Bottom, Some(t), Status.Ok) <==> calls == CallsOf(t)
  {
    if Feed(START, calls) == Draft(Bottom, Some(t), Status.Ok) {
      DraftTellsCalls(calls);
    }
    if calls == CallsOf(t) {
      ValueFed(START, t);
    }
  }

  lemma RealIsNoScalar(t: Json)
    requires t.Real?
    ensures !ScalarCalls(CallsOf(t))
  {
    assert CallsOf(t)[0] == ValueCall(t);
  }

  lemma {:induction false} CallsAreExact(t: Json)
    requires ScalarCalls(CallsOf(t))
    ensures Exact(t)
    decreases t, 1
  {
    match t
    case Arr(items) => {
      var calls := CallsOf(t);
      assert calls[1..|calls| - 1] == ItemsCalls(items);
      ItemsAreExact(items);
    }
    case Obj(members) => {
      var calls := CallsOf(t);
      assert calls[1..|calls| - 1] == MembersCalls(members);
      MembersAreExact(members);
    }
    case Real(_) => RealIsNoScalar(t);
    case _ =>
  }

  lemma {:induction false} ItemsAreExact(items: seq<Json>)
    requires ScalarCalls(ItemsCalls(items))
    ensures forall i :: 0 <= i < |items| ==> Exact(items[i])
    decreases items, 0
  {
    if items != [] {
      var calls := ItemsCalls(items);
      assert calls[..|CallsOf(items[0])|] == CallsOf(items[0]);
      assert calls[|CallsOf(items[0])|..] == ItemsCalls(items[1..]);
      CallsAreExact(items[0]);
      ItemsAreExact(items[1..]);
      assert forall i :: 0 < i < |items| ==> items[i] == items[1..][i - 1];
    }
  }

  lemma {:induction false} MembersAreExact(members: seq<Member>)
    requires ScalarCalls(MembersCalls(members))
    ensures forall i :: 0 <= i < |members| ==> Exact(members[i].value)
    decreases members, 0
  {
    if members != [] {
      var calls := MembersCalls(members);
      var n := 1 + |CallsOf(members[0].value)|;
      assert calls[1..n] == CallsOf(members[0].value);
      assert calls[n..] == MembersCalls(members[1..]);
      CallsAreExact(members[0].value);
      MembersAreExact(members[1..]);
      assert forall i :: 0 < i < |members| ==> members[i] == members[1..][i - 1];
    }
  }

  /** Every run of calls without error that closes its frames has written a text which the
      reader takes back, when it fits the limits and then only, as the very value written. */
  lemma WrittenIsReadBack(calls: seq<Call>, pretty: bool, lim: JsonLimits)
    requires ScalarCalls(calls) && Feed(START, calls).Complete()
    ensures var t := Feed(START, calls).done.value;
            var text := DraftText(Feed(START, calls), pretty);
            calls == CallsOf(t)
            && if |text| <= lim.maxDocumentBytes && Fits(t, 0, lim) && Nodes(t) <= lim.maxNodes
               then ParseDocument(text, lim) == Success(Norm(t))
               else ParseDocument(text, lim).Fault?
  {
    hide Render, ParseDocument, Fits, Nodes, Norm;
    var t := Feed(START, calls).done.value;
    CompleteIff(calls, t);
    CallsAreExact(t);
    DocumentReadsIff(t, pretty, lim);
  }
}
