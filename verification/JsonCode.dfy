/** The JSON writer and the bounded recursive reader, as they run. */
module JsonCode {
  import opened Wrappers
  import opened Bytes
  import opened Text
  import opened JsonSpec
  import opened JsonProofs
  import opened JsonDraft

  // ---- escaping ---------------------------------------------------------------------------

  lemma {:induction false} EscapedSnoc(s: bytes, b: byte)
    ensures Escaped(s + [b]) == Escaped(s) + EscapedOctet(b)
  {
    hide EscapedOctet;
    if s == [] {
      assert [] + [b] == [b];
    } else {
      assert (s + [b])[1..] == s[1..] + [b];
      EscapedSnoc(s[1..], b);
    }
  }

  lemma NothingEscaped()
    ensures Escaped([]) == []
  {}

  method EscapeJson(value: bytes) returns (out: bytes)
    ensures out == Escaped(value)
  {
    hide Escaped;
    assert Escaped([]) == [] by { NothingEscaped(); }
    out := [];
    for i := 0 to |value|
      invariant out == Escaped(value[..i])
    {
      var c := value[i];
      assert value[..i + 1] == value[..i] + [c];
      EscapedSnoc(value[..i], c);
      if c == QUOTE {
        out := out + [BACKSLASH, QUOTE];
      } else if c == BACKSLASH {
        out := out + [BACKSLASH, BACKSLASH];
      } else if c == 0x08 {
        out := out + [BACKSLASH, SMALL_B];
      } else if c == 0x0C {
        out := out + [BACKSLASH, SMALL_F];
      } else if c == NEWLINE {
        out := out + [BACKSLASH, SMALL_N];
      } else if c == 0x0D {
        out := out + [BACKSLASH, SMALL_R];
      } else if c == 0x09 {
        out := out + [BACKSLASH, SMALL_T];
      } else if c < 0x20 {
        out := out + [BACKSLASH, SMALL_U, ZERO, ZERO, HexDigit(c / 0x10 % 0x10), HexDigit(c % 0x10)];
      } else {
        out := out + [c];
      }
    }
    assert value[..|value|] == value;
  }

  // ---- the writer -------------------------------------------------------------------------

  ghost function Kinds(frames: Stack): (s: seq<Frame>)
    ensures |s| == frames.Depth()
  {
    if frames.Bottom? then [] else Kinds(frames.below) + [frames.top.Kind()]
  }

  ghost function Filled(frames: Stack): (s: seq<bool>)
    ensures |s| == frames.Depth()
  {
    if frames.Bottom? then [] else Filled(frames.below) + [!frames.top.Empty() || frames.top.Entered()]
  }

  class JsonWriter {
    var buffer: bytes
    var stack: seq<Frame>
    var hasItems: seq<bool>
    var awaitingValue: bool
    const pretty: bool
    var error: Status
    ghost var draft: Draft

    /** The fields between two calls. */
    ghost predicate Valid()
      reads this
    {
      && draft.Sound()
      && buffer == DraftText(draft, pretty) && (draft.done.Some? ==> buffer != [])
      && stack == Kinds(draft.frames) && hasItems == Filled(draft.frames)
      && awaitingValue == (draft.frames.On? && draft.frames.top.OpenObj? && draft.frames.top.pending.Some?)
      && error == draft.status
    }

    constructor (pretty: bool)
      ensures Valid() && draft == START && this.pretty == pretty
    {
      buffer, stack, hasItems, awaitingValue, error := [], [], [], false, Status.Ok;
      this.pretty := pretty;
      draft := START;
    }

    /** The first error stays, and nothing else is touched. */
    method Fail()
      requires Valid() && error.Ok?
      modifies this
      ensures Valid() && draft == Failed(old(draft)) && buffer == old(buffer)
    {
      hide DraftText, StackText;
      assert DraftText(Failed(draft), pretty) == DraftText(draft, pretty) by { SameText(draft); }
      error := Failure(Internal);
      draft := Failed(draft);
    }

    lemma SameText(d: Draft)
      requires d.status.Ok?
      ensures DraftText(Failed(d), pretty) == DraftText(d, pretty)
    {}

    method NewlineIndent()
      modifies this`buffer
      ensures buffer == old(buffer) + Break(pretty, |stack|)
    {
      if pretty {
        buffer := buffer + [NEWLINE];
        buffer := buffer + seq(|stack| * 2, _ => SPACE);
      }
    }

    method WriteName(name: bytes)
      modifies this`buffer
      ensures buffer == old(buffer) + NameText(name, pretty)
    {
      var text := EscapeJson(name);
      buffer := buffer + [QUOTE];
      buffer := buffer + text;
      buffer := buffer + [QUOTE, COLON];
      if pretty {
        buffer := buffer + [SPACE];
      }
    }

    /** What stands in front of the next element or member name. */
    method NextItem()
      requires stack != [] && |hasItems| == |stack|
      modifies this`hasItems, this`buffer
      ensures hasItems == old(hasItems)[..|stack| - 1] + [true]
      ensures buffer == old(buffer) + (Separator(!old(hasItems)[|stack| - 1]) + Break(pretty, |stack|))
    {
      if !hasItems[|hasItems| - 1] {
        hasItems := hasItems[..|hasItems| - 1] + [true];
      } else {
        buffer := buffer + [COMMA];
      }
      NewlineIndent();
    }

    /** The frames and the text are those of a writer that waits for a value. */
    ghost predicate Awaits()
      reads this
    {
      && draft.Sound() && JsonDraft.Ready(draft)
      && stack == Kinds(Waiting(draft)) && hasItems == Filled(Waiting(draft)) && !awaitingValue && error.Ok?
      && buffer == StackText(Waiting(draft), pretty)
    }

    method BeforeValue() returns (r: Status)
      requires Valid()
      modifies this
      ensures r.Ok? <==> JsonDraft.Ready(old(draft))
      ensures r.Ok? ==> draft == old(draft) && Awaits()
      ensures r.Failure? ==> Valid() && draft == (if old(draft).status.Ok? then Failed(old(draft)) else old(draft)) && r == draft.status
    {
      hide DraftText, StackText, Break;
      if error != Status.Ok {
        return error;
      }
      if stack == [] {
        if buffer != [] {
          EmptyDraft(draft);
          Fail();
          return error;
        }
        awaitingValue := false;
        assert StackText(Waiting(draft), pretty) == [] by { EmptyDraft(draft); }
        return Status.Ok;
      }
      if stack[|stack| - 1] == ObjectFrame {
        if !awaitingValue {
          Fail();
          return error;
        }
        WaitingText(draft, pretty);
        awaitingValue := false;
        return Status.Ok;
      }
      WaitingText(draft, pretty);
      NextItem();
      awaitingValue := false;
      return Status.Ok;
    }

    lemma PlacedFlags(frames: Stack, v: Json)
      requires frames.Waits()
      ensures Kinds(Placed(frames, v).frames) == Kinds(frames) && Filled(Placed(frames, v).frames) == Filled(frames)
    {}

    lemma EmptyDraft(d: Draft)
      requires d.frames.Bottom?
      ensures d.done.None? ==> DraftText(d, pretty) == []
      ensures StackText(Bottom, pretty) == []
    {}

    /** The text of a value has just been appended. */
    ghost method Settle(v: Json, before: bytes)
      requires draft.Sound() && JsonDraft.Ready(draft)
      requires stack == Kinds(Waiting(draft)) && hasItems == Filled(Waiting(draft)) && !awaitingValue && error.Ok?
      requires before == StackText(Waiting(draft), pretty)
      requires buffer == before + Render(v, pretty, |stack|) && buffer != []
      modifies this`draft
      ensures Valid() && draft == Write(old(draft), v)
    {
      hide DraftText, StackText, Render;
      PlacedText(Waiting(draft), v, pretty);
      draft := Write(draft, v);
    }

    method ValueString(value: bytes) returns (r: Status)
      requires Valid()
      modifies this
      ensures Valid() && draft == Write(old(draft), Str(value)) && r == error
    {
      hide DraftText, StackText, Escaped;
      r := BeforeValue();
      if r.Ok? {
        ghost var before := buffer;
        var text := EscapeJson(value);
        buffer := buffer + [QUOTE];
        buffer := buffer + text;
        buffer := buffer + [QUOTE];
        assert buffer == before + Quoted(value);
        Settle(Str(value), before);
      }
    }

    method ValueU64(value: u64) returns (r: Status)
      requires Valid()
      modifies this
      ensures Valid() && draft == Write(old(draft), Uint(value)) && r == error
    {
      hide DraftText, StackText;
      r := BeforeValue();
      if r.Ok? {
        ghost var before := buffer;
        buffer := buffer + Decimal(value);
        Settle(Uint(value), before);
      }
    }

    method ValueI64(value: i64) returns (r: Status)
      requires Valid()
      modifies this
      ensures Valid() && draft == Write(old(draft), Int(value)) && r == error
    {
      hide DraftText, StackText;
      r := BeforeValue();
      if r.Ok? {
        ghost var before := buffer;
        buffer := buffer + SignedDecimal(value);
        Settle(Int(value), before);
      }
    }

    method ValueBool(value: bool) returns (r: Status)
      requires Valid()
      modifies this
      ensures Valid() && draft == Write(old(draft), Bool(value)) && r == error
    {
      hide DraftText, StackText;
      r := BeforeValue();
      if r.Ok? {
        ghost var before := buffer;
        buffer := buffer + if value then TRUE_TEXT else FALSE_TEXT;
        Settle(Bool(value), before);
      }
    }

    method ValueNull() returns (r: Status)
      requires Valid()
      modifies this
      ensures Valid() && draft == Write(old(draft), Null) && r == error
    {
      hide DraftText, StackText;
      r := BeforeValue();
      if r.Ok? {
        ghost var before := buffer;
        buffer := buffer + NULL_TEXT;
        Settle(Null, before);
      }
    }

    method BeginContainer(kind: Frame, open: byte) returns (r: Status)
      requires Valid() && open == (if kind == ArrayFrame then OPEN_BRACKET else OPEN_BRACE)
      modifies this
      ensures Valid() && draft == Begin(old(draft), kind) && r == error
    {
      hide DraftText, StackText;
      r := BeforeValue();
      if r.Ok? {
        BeginText(draft, kind, pretty);
        buffer := buffer + [open];
        stack := stack + [kind];
        hasItems := hasItems + [false];
        awaitingValue := false;
        draft := Begin(draft, kind);
      }
    }

    method BeginObject() returns (r: Status)
      requires Valid()
      modifies this
      ensures Valid() && draft == Begin(old(draft), ObjectFrame) && r == error
    {
      r := BeginContainer(ObjectFrame, OPEN_BRACE);
    }

    method BeginArray() returns (r: Status)
      requires Valid()
      modifies this
      ensures Valid() && draft == Begin(old(draft), ArrayFrame) && r == error
    {
      r := BeginContainer(ArrayFrame, OPEN_BRACKET);
    }

    /** The innermost frame is taken off and its closing octet written. */
    method CloseFrame(kind: Frame, close: byte)
      requires Valid() && MayEnd(draft, kind)
      requires close == (if kind == ArrayFrame then CLOSE_BRACKET else CLOSE_BRACE)
      modifies this
      ensures Valid() && draft == End(old(draft), kind)
    {
      hide DraftText, StackText, Break;
      EndText(draft, kind, pretty);
      PlacedFlags(draft.frames.below, draft.frames.top.Closed());
      var hadItems := hasItems[|hasItems| - 1];
      stack := stack[..|stack| - 1];
      hasItems := hasItems[..|hasItems| - 1];
      awaitingValue := false;
      if hadItems {
        NewlineIndent();
      }
      buffer := buffer + [close];
      assert buffer == DraftText(End(draft, kind), pretty);
      draft := End(draft, kind);
    }

    method EndObject() returns (r: Status)
      requires Valid()
      modifies this
      ensures Valid() && draft == End(old(draft), ObjectFrame) && r == error
    {
      hide DraftText, StackText;
      if error != Status.Ok {
        return error;
      }
      if stack == [] || stack[|stack| - 1] != ObjectFrame {
        Fail();
        return error;
      }
      if awaitingValue {
        Fail();
        return error;
      }
      CloseFrame(ObjectFrame, CLOSE_BRACE);
      return Status.Ok;
    }

    method EndArray() returns (r: Status)
      requires Valid()
      modifies this
      ensures Valid() && draft == End(old(draft), ArrayFrame) && r == error
    {
      hide DraftText, StackText;
      if error != Status.Ok {
        return error;
      }
      if stack == [] || stack[|stack| - 1] != ArrayFrame {
        Fail();
        return error;
      }
      CloseFrame(ArrayFrame, CLOSE_BRACKET);
      return Status.Ok;
    }

    method Key(name: bytes) returns (r: Status)
      requires Valid()
      modifies this
      ensures Valid() && draft == Name(old(draft), name) && r == error
    {
      hide DraftText, StackText, Break, NameText;
      if error != Status.Ok {
        return error;
      }
      if stack == [] || stack[|stack| - 1] != ObjectFrame || awaitingValue {
        Fail();
        return error;
      }
      NamedText(draft, name, pretty);
      NextItem();
      WriteName(name);
      awaitingValue := true;
      draft := Name(draft, name);
      assert buffer == DraftText(draft, pretty);
      return Status.Ok;
    }

    method MemberString(name: bytes, value: bytes) returns (r: Status)
      requires Valid()
      modifies this
      ensures Valid() && draft == Write(Name(old(draft), name), Str(value)) && r == error
    {
      r := Key(name);
      if r.Ok? {
        r := ValueString(value);
      }
    }

    method MemberU64(name: bytes, value: u64) returns (r: Status)
      requires Valid()
      modifies this
      ensures Valid() && draft == Write(Name(old(draft), name), Uint(value)) && r == error
    {
      r := Key(name);
      if r.Ok? {
        r := ValueU64(value);
      }
    }

    method MemberI64(name: bytes, value: i64) returns (r: Status)
      requires Valid()
      modifies this
      ensures Valid() && draft == Write(Name(old(draft), name), Int(value)) && r == error
    {
      r := Key(name);
      if r.Ok? {
        r := ValueI64(value);
      }
    }
  }

  // ---- the reader -------------------------------------------------------------------------

  method AppendUtf8(out: bytes, c: nat) returns (r: bytes)
    requires c < 0x11_0000
    ensures r == out + Utf8(c)
  {
    if c < 0x80 {
      r := out + [c];
    } else if c < 0x800 {
      r := out + [0xC0 + c / 0x40];
      r := r + [0x80 + c % 0x40];
    } else if c < 0x1_0000 {
      r := out + [0xE0 + c / 0x1000];
      r := r + [0x80 + c / 0x40 % 0x40];
      r := r + [0x80 + c % 0x40];
    } else {
      r := out + [0xF0 + c / 0x4_0000];
      r := r + [0x80 + c / 0x1000 % 0x40];
      r := r + [0x80 + c / 0x40 % 0x40];
      r := r + [0x80 + c % 0x40];
    }
  }

  /** The number of so many hexadecimal digits. */
  ghost function HexRun(s: bytes, n: nat): Option<nat>
    requires n <= |s|
  {
    if n == 0 then Some(0)
    else
      var head, digit := HexRun(s, n - 1), Nibble(s[n - 1]);
      if head.None? || digit.None? then None else Some(head.value * 16 + digit.value)
  }

  lemma HexRunIs(s: bytes)
    requires |s| >= 4
    ensures Hex4(s) == HexRun(s, 4)
  {
    assert HexRun(s, 0) == Some(0);
    assert HexRun(s, 1) == Nibble(s[0]);
    assert HexRun(s, 2) == if Nibble(s[0]).None? || Nibble(s[1]).None? then None else Some(Nibble(s[0]).value * 16 + Nibble(s[1]).value);
    assert HexRun(s, 3) == if HexRun(s, 2).None? || Nibble(s[2]).None? then None else Some(HexRun(s, 2).value * 16 + Nibble(s[2]).value);
  }

  lemma NoHex(s: bytes, k: nat)
    requires k < 4 <= |s| && Nibble(s[k]).None?
    ensures Hex4(s).None?
  {}

  class Parser {
    const text: bytes
    const limits: JsonLimits
    var nodes: nat

    constructor (text: bytes, limits: JsonLimits)
      ensures this.text == text && this.limits == limits && nodes == 0
    {
      this.text, this.limits, nodes := text, limits, 0;
    }

    method SkipWhitespace(index: nat) returns (next: nat)
      requires index <= |text|
      ensures index <= next <= |text| && text[next..] == DropBlanks(text[index..])
    {
      hide DropBlanks;
      next := index;
      while next < |text| && IsBlank(text[next])
        invariant index <= next <= |text| && DropBlanks(text[next..]) == DropBlanks(text[index..])
      {
        DropStep(text[next..]);
        assert text[next..][1..] == text[next + 1..];
        next := next + 1;
      }
      DropStep(text[next..]);
    }

    /** The result of reading part of a text, and where that stopped. */
    ghost predicate Agrees<T>(p: Parsed<T>, r: Result<T>, next: nat) {
      match p
      case Broken(code) => r == Fault(code)
      case Got(v, rest) => r == Success(v) && next <= |text| && rest == text[next..]
    }

    ghost predicate AgreesValue(p: ParsedValue, r: Result<Json>, next: nat, now: nat) {
      match p
      case Refused(code) => r == Fault(code)
      case Read(v, rest, n) => r == Success(v) && next <= |text| && rest == text[next..] && now == n
    }

    method ParseHex4(index: nat) returns (r: Result<nat>)
      requires index <= |text|
      ensures r == match Hex4(text[index..]) case None => Fault(ParseError) case Some(v) => Success(v)
    {
      if |text| - index < 4 {
        return Fault(ParseError);
      }
      var s := text[index..];
      var value := 0;
      for digit := 0 to 4
        invariant HexRun(s, digit) == Some(value)
      {
        var c := text[index + digit];
        assert c == s[digit];
        var nibble := 0;
        if ZERO <= c <= ZERO + 9 {
          nibble := c - ZERO;
        } else if 0x61 <= c <= 0x66 {
          nibble := c - 0x61 + 10;
        } else if 0x41 <= c <= 0x46 {
          nibble := c - 0x41 + 10;
        } else {
          NoHex(s, digit);
          return Fault(ParseError);
        }
        value := value * 16 + nibble;
      }
      HexRunIs(s);
      return Success(value);
    }

    /** What an escape sequence stands for; the backslash has been consumed. */
    method ParseEscape(index: nat, out: bytes) returns (r: Result<bytes>, next: nat)
      requires index <= |text|
      ensures match Unescaped(text[index..])
              case Broken(code) => r == Fault(code)
              case Got(v, rest) => r == Success(out + v) && next <= |text| && rest == text[next..]
    {
      hide Hex4, Utf8;
      next := index;
      if index >= |text| {
        return Fault(ParseError), next;
      }
      var escape := text[index];
      next := index + 1;
      if escape == QUOTE || escape == BACKSLASH || escape == SLASH {
        return Success(out + [escape]), next;
      } else if escape == SMALL_B {
        return Success(out + [0x08]), next;
      } else if escape == SMALL_F {
        return Success(out + [0x0C]), next;
      } else if escape == SMALL_N {
        return Success(out + [NEWLINE]), next;
      } else if escape == SMALL_R {
        return Success(out + [0x0D]), next;
      } else if escape == SMALL_T {
        return Success(out + [0x09]), next;
      } else if escape != SMALL_U {
        return Fault(ParseError), next;
      }
      var first := ParseHex4(next);
      assert text[index..][1..] == text[next..];
      if first.Fault? {
        return Fault(first.code), next;
      }
      var codePoint := first.value;
      next := next + 4;
      assert text[index..][5..] == text[next..];
      if 0xD800 <= codePoint <= 0xDBFF {
        if |text| - next < 2 || text[next] != BACKSLASH || text[next + 1] != SMALL_U {
          return Fault(ParseError), next;
        }
        ghost var t := text[next..];
        assert t[2..] == text[next + 2..];
        assert |t| >= 6 ==> t[6..] == text[next + 6..];
        next := next + 2;
        var low := ParseHex4(next);
        if low.Fault? {
          return Fault(low.code), next;
        }
        next := next + 4;
        if low.value < 0xDC00 || low.value > 0xDFFF {
          return Fault(ParseError), next;
        }
        codePoint := 0x1_0000 + (codePoint - 0xD800) * 0x400 + (low.value - 0xDC00);
      } else if 0xDC00 <= codePoint <= 0xDFFF {
        return Fault(ParseError), next;
      }
      var longer := AppendUtf8(out, codePoint);
      return Success(longer), next;
    }

    method ParseStringAt(index: nat) returns (r: Result<bytes>, next: nat)
      requires index < |text|
      ensures Agrees(ParseString(text[index + 1..], [], limits), r, next)
    {
      hide ParseString, Unescaped;
      next := index + 1;
      var out: bytes := [];
      while true
        invariant next <= |text|
        invariant ParseString(text[next..], out, limits) == ParseString(text[index + 1..], [], limits)
        decreases |text| - next
      {
        ghost var s := text[next..];
        StringStep(s, out, limits);
        if next >= |text| {
          return Fault(ParseError), next;
        }
        var c := text[next];
        assert s[1..] == text[next + 1..];
        if c == QUOTE {
          return Success(out), next + 1;
        }
        if c < 0x20 {
          return Fault(ParseError), next;
        }
        if c != BACKSLASH {
          out := out + [c];
          next := next + 1;
          if |out| > limits.maxStringBytes {
            return Fault(LimitExceeded), next;
          }
        } else {
          UnescapedAdvances(s[1..]);
          var longer;
          longer, next := ParseEscape(next + 1, out);
          if longer.Fault? {
            return longer, next;
          }
          out := longer.value;
          if |out| > limits.maxStringBytes {
            return Fault(LimitExceeded), next;
          }
        }
      }
    }

    lemma UnescapedAdvances(s: bytes)
      ensures Unescaped(s).Got? ==> |Unescaped(s).rest| < |s|
    {}

    method SkipDigits(index: nat) returns (next: nat)
      requires index <= |text|
      ensures next == index + DigitRun(text[index..])
    {
      next := index;
      while next < |text| && IsDigit(text[next])
        invariant index <= next <= |text|
        invariant index + DigitRun(text[index..]) == next + DigitRun(text[next..])
      {
        assert text[next..][1..] == text[next + 1..];
        next := next + 1;
      }
    }

    method ScanWhole(start: nat) returns (r: Option<nat>)
      requires start < |text|
      ensures r == match WholeSpan(text[start..]) case None => None case Some(n) => Some(start + n)
    {
      hide DigitRun;
      var index := start;
      if text[index] == MINUS {
        index := index + 1;
      }
      ghost var digits := text[index..];
      assert digits == text[start..][index - start..];
      RunStep(digits);
      if index >= |text| || !IsDigit(text[index]) {
        return None;
      }
      if text[index] == ZERO {
        index := index + 1;
        assert digits[1..] == text[index..];
        RunStep(text[index..]);
        if index < |text| && IsDigit(text[index]) {
          return None;
        }
      } else {
        index := SkipDigits(index);
      }
      return Some(index);
    }

    method ScanFraction(start: nat) returns (r: Option<nat>)
      requires start <= |text|
      ensures r == match FractionSpan(text[start..]) case None => None case Some(n) => Some(start + n)
    {
      hide DigitRun;
      var index := start;
      if index < |text| && text[index] == POINT {
        index := index + 1;
        assert text[start..][1..] == text[index..];
        RunStep(text[index..]);
        if index >= |text| || !IsDigit(text[index]) {
          return None;
        }
        index := SkipDigits(index);
      }
      return Some(index);
    }

    method ScanExponent(start: nat) returns (r: Option<nat>)
      requires start <= |text|
      ensures r == match ExponentSpan(text[start..]) case None => None case Some(n) => Some(start + n)
    {
      hide DigitRun;
      var index := start;
      if index < |text| && (text[index] == SMALL_E || text[index] == LARGE_E) {
        index := index + 1;
        if index < |text| && (text[index] == PLUS || text[index] == MINUS) {
          index := index + 1;
        }
        assert text[start..][index - start..] == text[index..];
        RunStep(text[index..]);
        if index >= |text| || !IsDigit(text[index]) {
          return None;
        }
        index := SkipDigits(index);
      }
      return Some(index);
    }

    /** How far the number goes, and whether it is an integer. */
    method ScanNumber(start: nat) returns (r: Option<(nat, bool)>)
      requires start < |text|
      ensures r == match NumberSpan(text[start..]) case None => None case Some(span) => Some((start + span.0, span.1))
    {
      hide WholeSpan, FractionSpan, ExponentSpan;
      ghost var s := text[start..];
      var whole :- ScanWhole(start);
      assert s[whole - start..] == text[whole..];
      var mantissa :- ScanFraction(whole);
      assert s[mantissa - start..] == text[mantissa..];
      var end :- ScanExponent(mantissa);
      return Some((end, end == whole));
    }

    lemma RunStep(s: bytes)
      ensures DigitRun(s) == if s == [] || !IsDigit(s[0]) then 0 else 1 + DigitRun(s[1..])
    {}

    method ParseNumberAt(start: nat) returns (r: Result<Json>, next: nat)
      requires start < |text|
      ensures Agrees(ParseNumber(text[start..]), r, next)
    {
      hide NumberSpan, Signed, Value;
      ghost var s := text[start..];
      SpanIsPart(s);
      var scanned := ScanNumber(start);
      if scanned.None? {
        return Fault(ParseError), start;
      }
      next := scanned.value.0;
      var span := text[start..next];
      assert span == s[..next - start] && text[next..] == s[next - start..];
      if !scanned.value.1 {
        return Success(Real(span)), next;
      }
      if span[0] == MINUS {
        var parsed := ParseI64(span);
        if parsed.None? {
          return Fault(OutOfRange), next;
        }
        return Success(Int(parsed.value)), next;
      }
      var parsed := ParseU64(span);
      if parsed.None? {
        return Fault(OutOfRange), next;
      }
      return Success(Uint(parsed.value)), next;
    }

    lemma SpanIsPart(s: bytes)
      ensures NumberSpan(s).Some? ==> 0 < NumberSpan(s).value.0 <= |s|
    {}

    method ParseLiteralAt(index: nat, literal: bytes, value: Json) returns (r: Result<Json>, next: nat)
      requires index <= |text| && literal != []
      ensures Agrees(ParseLiteral(text[index..], literal, value), r, next)
    {
      ghost var s := text[index..];
      if |text| - index < |literal| || text[index..index + |literal|] != literal {
        assert |literal| <= |s| ==> text[index..index + |literal|] == s[..|literal|];
        return Fault(ParseError), index;
      }
      assert s[..|literal|] == text[index..index + |literal|];
      return Success(value), index + |literal|;
    }

    method ParseValueAt(index: nat, depth: nat) returns (r: Result<Json>, next: nat)
      requires index <= |text|
      modifies this
      ensures AgreesValue(ParseValue(text[index..], depth, old(nodes), limits), r, next, nodes)
      decreases |text| - index, 1
    {
      hide ParseObject, ParseArray, ParseString, ParseNumber, ParseLiteral, DropBlanks;
      if depth > limits.maxDepth {
        return Fault(LimitExceeded), index;
      }
      nodes := nodes + 1;
      if nodes > limits.maxNodes {
        return Fault(LimitExceeded), index;
      }
      var at := SkipWhitespace(index);
      if at >= |text| {
        return Fault(ParseError), at;
      }
      var c := text[at];
      ghost var t := text[at..];
      assert t[1..] == text[at + 1..];
      if c == OPEN_BRACE {
        r, next := ParseObjectAt(at, depth);
      } else if c == OPEN_BRACKET {
        r, next := ParseArrayAt(at, depth);
      } else if c == QUOTE {
        var s;
        s, next := ParseStringAt(at);
        r := if s.Success? then Success(Str(s.value)) else Fault(s.code);
      } else if c == SMALL_T {
        r, next := ParseLiteralAt(at, TRUE_TEXT, Bool(true));
      } else if c == SMALL_F {
        r, next := ParseLiteralAt(at, FALSE_TEXT, Bool(false));
      } else if c == SMALL_N {
        r, next := ParseLiteralAt(at, NULL_TEXT, Null);
      } else if c == MINUS || IsDigit(c) {
        r, next := ParseNumberAt(at);
      } else {
        return Fault(ParseError), at;
      }
    }

    method ParseArrayAt(index: nat, depth: nat) returns (r: Result<Json>, next: nat)
      requires index < |text|
      modifies this
      ensures AgreesValue(ParseArray(text[index + 1..], depth, old(nodes), limits), r, next, nodes)
      decreases |text| - index, 0
    {
      hide ParseElements, ParseValue, DropBlanks;
      next := SkipWhitespace(index + 1);
      if next < |text| && text[next] == CLOSE_BRACKET {
        assert text[next..][1..] == text[next + 1..];
        return Success(Arr([])), next + 1;
      }
      var items: seq<Json> := [];
      while true
        invariant index < next <= |text|
        invariant ParseElements(text[next..], items, depth, nodes, limits) == ParseArray(text[index + 1..], depth, old(nodes), limits)
        decreases |text| - next
      {
        ElementsStep(text[next..], items, depth, nodes, limits);
        ValueAdvances(text[next..], depth + 1, nodes);
        var value;
        value, next := ParseValueAt(next, depth + 1);
        if value.Fault? {
          return value, next;
        }
        items := items + [value.value];
        if |items| > limits.maxElements {
          return Fault(LimitExceeded), next;
        }
        next := SkipWhitespace(next);
        if next >= |text| {
          return Fault(ParseError), next;
        }
        assert text[next..][1..] == text[next + 1..];
        if text[next] == COMMA {
          next := next + 1;
          continue;
        }
        if text[next] == CLOSE_BRACKET {
          return Success(Arr(items)), next + 1;
        }
        return Fault(ParseError), next;
      }
    }

    lemma ValueAdvances(s: bytes, depth: nat, nodes: nat)
      ensures var r := ParseValue(s, depth, nodes, limits); r.Read? ==> |r.rest| < |s|
    {}

    /** A member's name and the colon after it. */
    method ParseNameAt(index: nat, members: seq<Member>) returns (r: Result<bytes>, next: nat)
      requires index <= |text|
      ensures Agrees(ParseName(text[index..], members, limits), r, next)
    {
      hide ParseString, DropBlanks, Named;
      next := SkipWhitespace(index);
      if next >= |text| || text[next] != QUOTE {
        return Fault(ParseError), next;
      }
      assert text[next..][1..] == text[next + 1..];
      r, next := ParseStringAt(next);
      if r.Fault? {
        return;
      }
      var found := FindMember(members, r.value);
      if found {
        return Fault(ParseError), next;
      }
      next := SkipWhitespace(next);
      if next >= |text| || text[next] != COLON {
        return Fault(ParseError), next;
      }
      assert text[next..][1..] == text[next + 1..];
      next := next + 1;
    }

    method ParseObjectAt(index: nat, depth: nat) returns (r: Result<Json>, next: nat)
      requires index < |text|
      modifies this
      ensures AgreesValue(ParseObject(text[index + 1..], depth, old(nodes), limits), r, next, nodes)
      decreases |text| - index, 0
    {
      hide ParseMembers, ParseValue, ParseName, DropBlanks;
      next := SkipWhitespace(index + 1);
      if next < |text| && text[next] == CLOSE_BRACE {
        assert text[next..][1..] == text[next + 1..];
        return Success(Obj([])), next + 1;
      }
      var members: seq<Member> := [];
      while true
        invariant index < next <= |text|
        invariant ParseMembers(text[next..], members, depth, nodes, limits) == ParseObject(text[index + 1..], depth, old(nodes), limits)
        decreases |text| - next
      {
        MembersStep(text[next..], members, depth, nodes, limits);
        NameAdvances(text[next..], members);
        var name;
        name, next := ParseNameAt(next, members);
        if name.Fault? {
          return Fault(name.code), next;
        }
        ValueAdvances(text[next..], depth + 1, nodes);
        var value;
        value, next := ParseValueAt(next, depth + 1);
        if value.Fault? {
          return value, next;
        }
        members := members + [Member(name.value, value.value)];
        if |members| > limits.maxMembers {
          return Fault(LimitExceeded), next;
        }
        next := SkipWhitespace(next);
        if next >= |text| {
          return Fault(ParseError), next;
        }
        assert text[next..][1..] == text[next + 1..];
        if text[next] == COMMA {
          next := next + 1;
          continue;
        }
        if text[next] == CLOSE_BRACE {
          return Success(Obj(members)), next + 1;
        }
        return Fault(ParseError), next;
      }
    }

    lemma NameAdvances(s: bytes, members: seq<Member>)
      ensures var r := ParseName(s, members, limits); r.Got? ==> |r.rest| < |s|
    {}
  }

  method FindMember(members: seq<Member>, name: bytes) returns (found: bool)
    ensures found <==> Named(members, name)
  {
    for i := 0 to |members|
      invariant !Named(members[..i], name)
    {
      if members[i].name == name {
        assert members[i] in members;
        return true;
      }
      assert members[..i + 1] == members[..i] + [members[i]];
    }
    assert members[..|members|] == members;
    return false;
  }

  /** A whole document: one value and nothing after it but blanks. */
  method ParseJson(text: bytes, limits: JsonLimits) returns (r: Result<Json>)
    ensures r == ParseDocument(text, limits)
  {
    hide ParseValue, DropBlanks;
    if |text| > limits.maxDocumentBytes {
      return Fault(LimitExceeded);
    }
    var parser := new Parser(text, limits);
    assert text[0..] == text;
    var index;
    r, index := parser.ParseValueAt(0, 0);
    if r.Fault? {
      return;
    }
    index := parser.SkipWhitespace(index);
    if index != |text| {
      return Fault(ParseError);
    }
  }
}
