/** What the reader makes of a written value: the same value when it fits the limits, and a
    refusal when it does not. */
module JsonProofs {
  import opened Wrappers
  import opened Bytes
  import opened Text
  import opened JsonSpec

  // ---- what comes back ----------------------------------------------------------------------

  /** Non-negative signed numbers come back unsigned; nothing else changes. */
  function Norm(t: Json): Json {
    match t
    case Int(i) => if i >= 0 then Uint(i) else t
    case Arr(items) => Arr(Norms(items))
    case Obj(members) => Obj(NormMembers(members))
    case _ => t
  }

  function Norms(items: seq<Json>): (r: seq<Json>)
    ensures |r| == |items|
  {
    if items == [] then [] else [Norm(items[0])] + Norms(items[1..])
  }

  function NormMembers(members: seq<Member>): (r: seq<Member>)
    ensures |r| == |members|
  {
    if members == [] then []
    else [Member(members[0].name, Norm(members[0].value))] + NormMembers(members[1..])
  }

  /** How many values a value is made of, itself included. */
  function Nodes(t: Json): (n: nat)
    ensures n > 0
  {
    match t
    case Arr(items) => 1 + NodesOfItems(items)
    case Obj(members) => 1 + NodesOfMembers(members)
    case _ => 1
  }

  function NodesOfItems(items: seq<Json>): nat {
    if items == [] then 0 else Nodes(items[0]) + NodesOfItems(items[1..])
  }

  function NodesOfMembers(members: seq<Member>): nat {
    if members == [] then 0 else Nodes(members[0].value) + NodesOfMembers(members[1..])
  }

  /** Made of exact values only: no number with a fraction or an exponent. */
  predicate Exact(t: Json) {
    match t
    case Real(_) => false
    case Arr(items) => forall i :: 0 <= i < |items| ==> Exact(items[i])
    case Obj(members) => forall i :: 0 <= i < |members| ==> Exact(members[i].value)
    case _ => true
  }

  /** Within the limits on depth, strings, members and elements, no name twice in an object. */
  predicate Fits(t: Json, depth: nat, lim: JsonLimits) {
    depth <= lim.maxDepth
    && match t
       case Str(s) => |s| <= lim.maxStringBytes
       case Arr(items) => |items| <= lim.maxElements && ItemsFit(items, depth + 1, lim)
       case Obj(members) =>
         |members| <= lim.maxMembers && MembersFit(members, depth + 1, lim) && NamesDiffer(members)
       case _ => true
  }

  predicate ItemsFit(items: seq<Json>, depth: nat, lim: JsonLimits) {
    items == [] || (Fits(items[0], depth, lim) && ItemsFit(items[1..], depth, lim))
  }

  predicate MembersFit(members: seq<Member>, depth: nat, lim: JsonLimits) {
    members == []
    || (|members[0].name| <= lim.maxStringBytes && Fits(members[0].value, depth, lim)
        && MembersFit(members[1..], depth, lim))
  }

  predicate NamesDiffer(members: seq<Member>) {
    forall i, j :: 0 <= i < j < |members| ==> members[i].name != members[j].name
  }

  /** Nothing that could lengthen a number in front of it. */
  predicate Stops(tail: bytes) {
    tail == []
    || !(IsDigit(tail[0]) || tail[0] == POINT || tail[0] == SMALL_E || tail[0] == LARGE_E)
  }

  predicate Accepts(r: ParsedValue, v: Json, tail: bytes, nodes: nat, ok: bool) {
    if ok then r == Read(v, tail, nodes) else r.Refused?
  }

  // ---- strings ----------------------------------------------------------------------------

  lemma UnescapedOctet(b: byte, tail: bytes)
    requires EscapedOctet(b)[0] == BACKSLASH
    ensures Unescaped((EscapedOctet(b) + tail)[1..]) == Got([b], tail)
  {
    var s := (EscapedOctet(b) + tail)[1..];
    if s[0] == SMALL_U {
      assert b < 0x20;
      assert s[1..][..4] == [ZERO, ZERO, HexDigit(b / 16), HexDigit(b % 16)];
      assert Nibble(HexDigit(b / 16)) == Some(b / 16);
      assert Nibble(HexDigit(b % 16)) == Some(b % 16);
      assert Nibble(ZERO) == Some(0);
      assert Hex4(s[1..]) == Some(b);
      assert s[5..] == tail;
    } else {
      assert s == [s[0]] + tail;
    }
  }

  lemma StringStep(s: bytes, sofar: bytes, lim: JsonLimits)
    ensures ParseString(s, sofar, lim) ==
            if s == [] then Broken(ParseError)
            else if s[0] == QUOTE then Got(sofar, s[1..])
            else if s[0] < 0x20 then Broken(ParseError)
            else
              var next := if s[0] != BACKSLASH then Got([s[0]], s[1..]) else Unescaped(s[1..]);
              if next.Broken? then next
              else if |sofar + next.value| > lim.maxStringBytes then Broken(LimitExceeded)
              else ParseString(next.rest, sofar + next.value, lim)
  {}

  /** Escaping is undone by reading, for any octets, up to the limit. */
  lemma {:induction false} StringReads(s: bytes, sofar: bytes, tail: bytes, lim: JsonLimits)
    requires |sofar| <= lim.maxStringBytes
    ensures ParseString(Escaped(s) + [QUOTE] + tail, sofar, lim) ==
            if |sofar + s| <= lim.maxStringBytes then Got(sofar + s, tail) else Broken(LimitExceeded)
    decreases |s|
  {
    hide ParseString;
    hide Unescaped;
    var text := Escaped(s) + [QUOTE] + tail;
    StringStep(text, sofar, lim);
    if s == [] {
      assert text == [QUOTE] + tail;
      assert sofar + s == sofar;
      assert text[1..] == tail;
    } else {
      var more := Escaped(s[1..]) + [QUOTE] + tail;
      assert text == EscapedOctet(s[0]) + more;
      if EscapedOctet(s[0])[0] == BACKSLASH {
        UnescapedOctet(s[0], more);
      } else {
        assert text == [s[0]] + more;
        assert text[1..] == more;
      }
      if |sofar| < lim.maxStringBytes {
        StringReads(s[1..], sofar + [s[0]], tail, lim);
        assert sofar + [s[0]] + s[1..] == sofar + s;
      }
    }
  }

  lemma QuotedReads(s: bytes, tail: bytes, lim: JsonLimits)
    ensures var t := Quoted(s) + tail;
            t[0] == QUOTE
            && ParseString(t[1..], [], lim)
               == if |s| <= lim.maxStringBytes then Got(s, tail) else Broken(LimitExceeded)
  {
    StringReads(s, [], tail, lim);
    assert (Quoted(s) + tail)[1..] == Escaped(s) + [QUOTE] + tail;
    assert [] + s == s;
  }

  // ---- numbers ----------------------------------------------------------------------------

  lemma {:induction false} DigitsRun(digits: bytes, tail: bytes)
    requires AllDigits(digits) && (tail == [] || !IsDigit(tail[0]))
    ensures DigitRun(digits + tail) == |digits|
    decreases |digits|
  {
    if digits == [] {
      assert digits + tail == tail;
    } else {
      assert (digits + tail)[1..] == digits[1..] + tail;
      DigitsRun(digits[1..], tail);
    }
  }

  lemma WholeOfDecimal(sign: bytes, digits: bytes, tail: bytes)
    requires Stops(tail) && (sign == [] || sign == [MINUS])
    requires digits != [] && AllDigits(digits) && (|digits| > 1 ==> digits[0] != ZERO)
    ensures WholeSpan(sign + digits + tail) == Some(|sign| + |digits|)
  {
    hide DigitRun;
    var s := sign + digits + tail;
    assert s[|sign|..] == digits + tail;
    DigitsRun(digits, tail);
    assert s[|sign|] == digits[0];
  }

  lemma SpanOfDecimal(sign: bytes, n: nat, tail: bytes)
    requires Stops(tail) && (sign == [] || sign == [MINUS])
    ensures NumberSpan(sign + Decimal(n) + tail) == Some((|sign| + |Decimal(n)|, true))
  {
    hide WholeSpan, Decimal, Value;
    var s := sign + Decimal(n) + tail;
    WholeOfDecimal(sign, Decimal(n), tail);
    var whole := |sign| + |Decimal(n)|;
    assert s[whole..] == tail && s[whole + 0..] == tail;
  }

  lemma NegativeReads(i: i64, tail: bytes)
    requires i < 0 && Stops(tail)
    ensures ParseNumber(SignedDecimal(i) + tail) == Got(Int(i), tail)
  {
    hide NumberSpan, Signed, Decimal, Value;
    var text := SignedDecimal(i);
    var s := text + tail;
    assert s[..|text|] == text && s[|text|..] == tail;
    SignedRoundTrip(i);
    SpanOfDecimal([MINUS], 0 - i, tail);
  }

  lemma PlainReads(n: u64, tail: bytes)
    requires Stops(tail)
    ensures ParseNumber(Decimal(n) + tail) == Got(Uint(n), tail)
  {
    hide NumberSpan, Decimal, Value;
    var text := Decimal(n);
    var s := text + tail;
    assert s[..|text|] == text && s[|text|..] == tail;
    SpanOfDecimal([], n, tail);
    assert [] + text + tail == s;
    assert s[0] == text[0];
  }

  /** A written number is read back exactly, whatever its 64 bits. */
  lemma NumberReads(v: Json, tail: bytes)
    requires (v.Int? || v.Uint?) && Stops(tail)
    ensures ParseNumber(Render(v, false, 0) + tail) == Got(Norm(v), tail)
  {
    if v.Int? && v.i < 0 {
      NegativeReads(v.i, tail);
    } else {
      PlainReads(if v.Int? then v.i else v.u, tail);
    }
  }

  // ---- values -----------------------------------------------------------------------------

  /** A written value starts with the octet that says of which kind it is. */
  lemma Starts(t: Json, pretty: bool, level: nat)
    requires Exact(t)
    ensures var s := Render(t, pretty, level);
            s != [] && !IsBlank(s[0]) && s[0] != CLOSE_BRACKET && s[0] != CLOSE_BRACE
            && (t.Obj? <==> s[0] == OPEN_BRACE) && (t.Arr? <==> s[0] == OPEN_BRACKET) && (t.Str? <==> s[0] == QUOTE)
            && ((t == Bool(true)) <==> s[0] == SMALL_T) && ((t == Bool(false)) <==> s[0] == SMALL_F)
            && (t.Null? <==> s[0] == SMALL_N) && ((t.Int? || t.Uint?) <==> (s[0] == MINUS || IsDigit(s[0])))
  {
    match t
    case Int(i) => { var n: nat := if i < 0 then 0 - i else i; assert IsDigit(Decimal(n)[0]); }
    case Uint(u) => assert IsDigit(Decimal(u)[0]);
    case Str(_) =>
    case _ =>
  }

  lemma {:induction false} ScalarReads(before: bytes, t: Json, pretty: bool, level: nat, tail: bytes, depth: nat, nodes: nat, lim: JsonLimits)
    requires Exact(t) && !t.Arr? && !t.Obj? && AllBlank(before) && Stops(tail)
    ensures Accepts(ParseValue(before + Render(t, pretty, level) + tail, depth, nodes, lim), Norm(t), tail, nodes + 1,
                    Fits(t, depth, lim) && nodes + 1 <= lim.maxNodes)
  {
    hide DropBlanks, ParseNumber, ParseString, Quoted, Decimal;
    var text := Render(t, pretty, level);
    Starts(t, pretty, level);
    assert before + text + tail == before + (text + tail);
    DropPrefix(before, text + tail);
    var s := text + tail;
    assert s[0] == text[0];
    assert text <= s && s[|text|..] == tail;
    match t
    case Str(x) => QuotedReads(x, tail, lim);
    case Int(_) => { NumberReads(t, tail); }
    case Uint(_) => { NumberReads(t, tail); }
    case _ =>
  }

  /** What closes a frame whose own level this is. */
  function Closing(pretty: bool, level: nat, close: byte): bytes {
    Break(pretty, level) + [close]
  }

  lemma ClosingDrops(pretty: bool, level: nat, close: byte, tail: bytes)
    requires close == CLOSE_BRACE || close == CLOSE_BRACKET
    ensures Stops(Closing(pretty, level, close) + tail)
    ensures DropBlanks(Closing(pretty, level, close) + tail) == [close] + tail
  {
    var blanks := Break(pretty, level);
    assert Closing(pretty, level, close) + tail == blanks + ([close] + tail);
    DropPrefix(blanks, [close] + tail);
  }

  lemma BreakIsBlank(pretty: bool, level: nat)
    ensures AllBlank(Break(pretty, level))
  {}

  /** The elements of an array and its closing bracket. */
  function ElementsText(items: seq<Json>, pretty: bool, level: nat): bytes
    requires items != []
  {
    Render(items[0], pretty, level + 1)
    + (if |items| == 1 then Closing(pretty, level, CLOSE_BRACKET)
       else [COMMA] + Break(pretty, level + 1) + ElementsText(items[1..], pretty, level))
  }

  lemma {:induction false} ElementsTextIs(items: seq<Json>, pretty: bool, level: nat, first: bool)
    requires items != []
    ensures ItemsText(items, pretty, level + 1, first) + Closing(pretty, level, CLOSE_BRACKET)
            == Separator(first) + Break(pretty, level + 1) + ElementsText(items, pretty, level)
    decreases |items|
  {
    hide Render, Break;
    if |items| == 1 {
      assert ItemsText(items[1..], pretty, level + 1, false) == [];
    } else {
      ElementsTextIs(items[1..], pretty, level, false);
    }
  }

  lemma LastElement(before: bytes, items: seq<Json>, pretty: bool, level: nat, tail: bytes)
    requires |items| == 1
    ensures before + ElementsText(items, pretty, level) + tail
            == before + Render(items[0], pretty, level + 1) + (Closing(pretty, level, CLOSE_BRACKET) + tail)
  {
    hide Render, Closing;
  }

  lemma OneOfElements(before: bytes, items: seq<Json>, pretty: bool, level: nat, tail: bytes)
    requires |items| > 1
    ensures before + ElementsText(items, pretty, level) + tail
            == before + Render(items[0], pretty, level + 1)
               + ([COMMA] + (Break(pretty, level + 1) + ElementsText(items[1..], pretty, level) + tail))
  {
    hide Render, Break;
  }

  lemma ArrayText(items: seq<Json>, pretty: bool, level: nat)
    requires items != []
    ensures Render(Arr(items), pretty, level)
            == [OPEN_BRACKET] + (Break(pretty, level + 1) + ElementsText(items, pretty, level))
  {
    hide Break, ElementsText, ItemsText;
    ElementsTextIs(items, pretty, level, true);
    var list := ItemsText(items, pretty, level + 1, true);
    assert Render(Arr(items), pretty, level) == [OPEN_BRACKET] + (list + Closing(pretty, level, CLOSE_BRACKET));
  }

  /** How an array goes on after an element. */
  function AfterElement(rest: bytes, items: seq<Json>, depth: nat, nodes: nat, lim: JsonLimits): ParsedValue {
    var t := DropBlanks(rest);
    if t == [] then Refused(ParseError)
    else if t[0] == COMMA then ParseElements(t[1..], items, depth, nodes, lim)
    else if t[0] == CLOSE_BRACKET then Read(Arr(items), t[1..], nodes)
    else Refused(ParseError)
  }

  lemma ElementsStep(s: bytes, items: seq<Json>, depth: nat, nodes: nat, lim: JsonLimits)
    ensures ParseElements(s, items, depth, nodes, lim) ==
            var v := ParseValue(s, depth + 1, nodes, lim);
            if v.Refused? then v
            else if |items| + 1 > lim.maxElements then Refused(LimitExceeded)
            else AfterElement(v.rest, items + [v.value], depth, v.nodes, lim)
  {}

  lemma {:induction false} ElementReads(before: bytes, v: Json, rest: bytes, sofar: seq<Json>, pretty: bool, level: nat, depth: nat, nodes: nat, lim: JsonLimits)
    requires Exact(v) && AllBlank(before) && Stops(rest)
    ensures var r := ParseElements(before + Render(v, pretty, level) + rest, sofar, depth, nodes, lim);
            if Fits(v, depth + 1, lim) && nodes + Nodes(v) <= lim.maxNodes && |sofar| + 1 <= lim.maxElements
            then r == AfterElement(rest, sofar + [Norm(v)], depth, nodes + Nodes(v), lim)
            else r.Refused?
    decreases v, 2
  {
    hide ParseElements, ParseValue, Render, DropBlanks, Fits, Nodes, Norm, IsBlank, AfterElement;
    var s := before + Render(v, pretty, level) + rest;
    ElementsStep(s, sofar, depth, nodes, lim);
    ValueReads(before, v, pretty, level, rest, depth + 1, nodes, lim);
  }

  lemma AfterLastElement(pretty: bool, level: nat, tail: bytes, items: seq<Json>, depth: nat, nodes: nat, lim: JsonLimits)
    ensures AfterElement(Closing(pretty, level, CLOSE_BRACKET) + tail, items, depth, nodes, lim) == Read(Arr(items), tail, nodes)
  {
    hide Closing, DropBlanks, ParseElements;
    ClosingDrops(pretty, level, CLOSE_BRACKET, tail);
    assert ([CLOSE_BRACKET] + tail)[1..] == tail;
  }

  lemma AfterElementComma(more: bytes, items: seq<Json>, depth: nat, nodes: nat, lim: JsonLimits)
    ensures AfterElement([COMMA] + more, items, depth, nodes, lim) == ParseElements(more, items, depth, nodes, lim)
  {
    hide DropBlanks, ParseElements;
    CommaStays(more);
  }

  lemma {:induction false} NormsSplit(sofar: seq<Json>, items: seq<Json>)
    requires items != []
    ensures sofar + Norms(items) == sofar + [Norm(items[0])] + Norms(items[1..])
    ensures |items| == 1 ==> sofar + Norms(items) == sofar + [Norm(items[0])]
  {
    hide Norm;
    var first, rest := [Norm(items[0])], Norms(items[1..]);
    assert Norms(items) == first + rest;
    assert |items| == 1 ==> rest == [];
    hide Norms;
  }

  lemma {:induction false} ElementsRead(before: bytes, items: seq<Json>, sofar: seq<Json>, pretty: bool, level: nat, tail: bytes, depth: nat, nodes: nat, lim: JsonLimits)
    requires items != [] && Exact(Arr(items)) && AllBlank(before)
    requires nodes <= lim.maxNodes && |sofar| <= lim.maxElements
    ensures Accepts(ParseElements(before + ElementsText(items, pretty, level) + tail, sofar, depth, nodes, lim),
                    Arr(sofar + Norms(items)), tail, nodes + NodesOfItems(items),
                    ItemsFit(items, depth + 1, lim) && |sofar| + |items| <= lim.maxElements
                    && nodes + NodesOfItems(items) <= lim.maxNodes)
    decreases items, 0
  {
    hide ParseElements, Render, Fits, Break, Nodes, Norm, Norms, Closing, IsBlank, ElementsText, AfterElement;
    var longer := sofar + [Norm(items[0])];
    NormsSplit(sofar, items);
    if |items| == 1 {
      var rest := Closing(pretty, level, CLOSE_BRACKET) + tail;
      ClosingDrops(pretty, level, CLOSE_BRACKET, tail);
      LastElement(before, items, pretty, level, tail);
      ElementReads(before, items[0], rest, sofar, pretty, level + 1, depth, nodes, lim);
      AfterLastElement(pretty, level, tail, longer, depth, nodes + Nodes(items[0]), lim);
    } else {
      var blanks := Break(pretty, level + 1);
      var more := blanks + ElementsText(items[1..], pretty, level) + tail;
      OneOfElements(before, items, pretty, level, tail);
      CommaStays(more);
      ElementReads(before, items[0], [COMMA] + more, sofar, pretty, level + 1, depth, nodes, lim);
      AfterElementComma(more, longer, depth, nodes + Nodes(items[0]), lim);
      if nodes + Nodes(items[0]) <= lim.maxNodes && |sofar| + 1 <= lim.maxElements {
        BreakIsBlank(pretty, level + 1);
        ElementsRead(blanks, items[1..], longer, pretty, level, tail, depth, nodes + Nodes(items[0]), lim);
      }
    }
  }

  lemma CommaStays(more: bytes)
    ensures DropBlanks([COMMA] + more) == [COMMA] + more && Stops([COMMA] + more) && ([COMMA] + more)[1..] == more
  {}

  lemma {:induction false} ValueReads(before: bytes, t: Json, pretty: bool, level: nat, tail: bytes, depth: nat, nodes: nat, lim: JsonLimits)
    requires Exact(t) && AllBlank(before) && Stops(tail)
    ensures Accepts(ParseValue(before + Render(t, pretty, level) + tail, depth, nodes, lim), Norm(t), tail, nodes + Nodes(t),
                    Fits(t, depth, lim) && nodes + Nodes(t) <= lim.maxNodes)
    decreases t, 1
  {
    match t
    case Arr(items) => ArrayReads(before, items, pretty, level, tail, depth, nodes, lim);
    case Obj(members) => ObjectReads(before, members, pretty, level, tail, depth, nodes, lim);
    case _ => {
      hide ParseValue, Render;
      ScalarReads(before, t, pretty, level, tail, depth, nodes, lim);
    }
  }

  /** After the opening bracket or brace. */
  lemma OpensValue(before: bytes, open: byte, inner: bytes, depth: nat, nodes: nat, lim: JsonLimits)
    requires open == OPEN_BRACKET || open == OPEN_BRACE
    requires AllBlank(before)
    ensures ParseValue(before + ([open] + inner), depth, nodes, lim) ==
            if depth > lim.maxDepth || nodes + 1 > lim.maxNodes then Refused(LimitExceeded)
            else if open == OPEN_BRACKET then ParseArray(inner, depth, nodes + 1, lim)
            else ParseObject(inner, depth, nodes + 1, lim)
  {
    hide DropBlanks, ParseArray, ParseObject;
    DropPrefix(before, [open] + inner);
    assert ([open] + inner)[1..] == inner;
  }

  lemma {:induction false} ArrayReads(before: bytes, items: seq<Json>, pretty: bool, level: nat, tail: bytes, depth: nat, nodes: nat, lim: JsonLimits)
    requires Exact(Arr(items)) && AllBlank(before)
    ensures Accepts(ParseValue(before + Render(Arr(items), pretty, level) + tail, depth, nodes, lim), Norm(Arr(items)), tail,
                    nodes + Nodes(Arr(items)), Fits(Arr(items), depth, lim) && nodes + Nodes(Arr(items)) <= lim.maxNodes)
    decreases items, 1
  {
    hide ParseValue, DropBlanks, ParseElements, Break, ElementsText, ItemsFit, ItemsText, IsBlank;
    var text := Render(Arr(items), pretty, level);
    if items == [] {
      var inner := [CLOSE_BRACKET] + tail;
      EmptyText(pretty, level);
      assert before + text + tail == before + ([OPEN_BRACKET] + inner);
      OpensValue(before, OPEN_BRACKET, inner, depth, nodes, lim);
      CloseStays(CLOSE_BRACKET, tail);
      NothingFits(depth, lim);
    } else {
      var body := ElementsText(items, pretty, level) + tail;
      var blanks := Break(pretty, level + 1);
      ArrayText(items, pretty, level);
      assert before + text + tail == before + ([OPEN_BRACKET] + (blanks + body));
      OpensValue(before, OPEN_BRACKET, blanks + body, depth, nodes, lim);
      BreakIsBlank(pretty, level + 1);
      ElementsStart(items, pretty, level);
      DropPrefix(blanks, body);
      if depth <= lim.maxDepth && nodes + 1 <= lim.maxNodes {
        ElementsRead([], items, [], pretty, level, tail, depth, nodes + 1, lim);
        assert [] + Norms(items) == Norms(items);
        assert [] + ElementsText(items, pretty, level) + tail == body;
      }
    }
  }

  lemma EmptyText(pretty: bool, level: nat)
    ensures Render(Arr([]), pretty, level) == [OPEN_BRACKET, CLOSE_BRACKET]
    ensures Render(Obj([]), pretty, level) == [OPEN_BRACE, CLOSE_BRACE]
  {}

  lemma NothingFits(depth: nat, lim: JsonLimits)
    ensures ItemsFit([], depth + 1, lim) && MembersFit([], depth + 1, lim)
  {}

  lemma CloseStays(close: byte, tail: bytes)
    requires close == CLOSE_BRACE || close == CLOSE_BRACKET
    ensures DropBlanks([close] + tail) == [close] + tail && ([close] + tail)[1..] == tail
  {}

  lemma ElementsStart(items: seq<Json>, pretty: bool, level: nat)
    requires items != [] && Exact(items[0])
    ensures var s := ElementsText(items, pretty, level); s != [] && !IsBlank(s[0]) && s[0] != CLOSE_BRACKET
  {
    Starts(items[0], pretty, level + 1);
  }

  // ---- objects ----------------------------------------------------------------------------

  function FieldText(m: Member, pretty: bool, level: nat): bytes {
    NameText(m.name, pretty) + Render(m.value, pretty, level)
  }

  /** The members of an object and its closing brace. */
  function FieldsText(members: seq<Member>, pretty: bool, level: nat): bytes
    requires members != []
  {
    FieldText(members[0], pretty, level + 1)
    + (if |members| == 1 then Closing(pretty, level, CLOSE_BRACE)
       else [COMMA] + Break(pretty, level + 1) + FieldsText(members[1..], pretty, level))
  }

  lemma {:induction false} FieldsTextIs(members: seq<Member>, pretty: bool, level: nat, first: bool)
    requires members != []
    ensures MembersText(members, pretty, level + 1, first) + Closing(pretty, level, CLOSE_BRACE)
            == Separator(first) + Break(pretty, level + 1) + FieldsText(members, pretty, level)
    decreases |members|
  {
    hide Render, Break, NameText;
    if |members| == 1 {
      assert MembersText(members[1..], pretty, level + 1, false) == [];
    } else {
      FieldsTextIs(members[1..], pretty, level, false);
    }
  }

  lemma LastField(before: bytes, members: seq<Member>, pretty: bool, level: nat, tail: bytes)
    requires |members| == 1
    ensures before + FieldsText(members, pretty, level) + tail
            == before + FieldText(members[0], pretty, level + 1) + (Closing(pretty, level, CLOSE_BRACE) + tail)
  {
    hide FieldText, Closing;
  }

  lemma OneOfFields(before: bytes, members: seq<Member>, pretty: bool, level: nat, tail: bytes)
    requires |members| > 1
    ensures before + FieldsText(members, pretty, level) + tail
            == before + FieldText(members[0], pretty, level + 1)
               + ([COMMA] + (Break(pretty, level + 1) + FieldsText(members[1..], pretty, level) + tail))
  {
    hide FieldText, Break;
  }

  lemma ObjectText(members: seq<Member>, pretty: bool, level: nat)
    requires members != []
    ensures Render(Obj(members), pretty, level)
            == [OPEN_BRACE] + (Break(pretty, level + 1) + FieldsText(members, pretty, level))
  {
    hide Break, FieldsText, MembersText;
    FieldsTextIs(members, pretty, level, true);
    var list := MembersText(members, pretty, level + 1, true);
    assert Render(Obj(members), pretty, level) == [OPEN_BRACE] + (list + Closing(pretty, level, CLOSE_BRACE));
  }

  lemma FieldsStart(members: seq<Member>, pretty: bool, level: nat)
    requires members != []
    ensures var s := FieldsText(members, pretty, level); s != [] && s[0] == QUOTE
  {}

  function Gap(pretty: bool): bytes {
    if pretty then [SPACE] else []
  }

  lemma NameReads(before: bytes, name: bytes, pretty: bool, rest: bytes, sofar: seq<Member>, lim: JsonLimits)
    requires AllBlank(before)
    ensures var r := ParseName(before + NameText(name, pretty) + rest, sofar, lim);
            if |name| <= lim.maxStringBytes && !Named(sofar, name) then r == Got(name, Gap(pretty) + rest) else r.Broken?
  {
    hide DropBlanks, ParseString, Quoted;
    var more := [COLON] + (Gap(pretty) + rest);
    QuotedReads(name, more, lim);
    assert before + NameText(name, pretty) + rest == before + (Quoted(name) + more);
    DropPrefix(before, Quoted(name) + more);
    DropStep(more);
    assert more[1..] == Gap(pretty) + rest;
  }

  /** No name among the members to come was met before, and none comes twice. */
  predicate Apart(sofar: seq<Member>, members: seq<Member>) {
    NamesDiffer(members) && forall i :: 0 <= i < |members| ==> !Named(sofar, members[i].name)
  }

  lemma ApartStep(sofar: seq<Member>, members: seq<Member>, v: Json)
    requires members != []
    ensures Apart(sofar, members)
            <==> !Named(sofar, members[0].name) && Apart(sofar + [Member(members[0].name, v)], members[1..])
  {
    var m := Member(members[0].name, v);
    var longer := sofar + [m];
    assert forall x :: x in longer <==> x in sofar || x == m;
    assert longer[|sofar|] == m;
    forall n: bytes
      ensures Named(longer, n) <==> Named(sofar, n) || n == m.name
    {
      assert n == m.name ==> m in longer && Named(longer, n);
    }
    if Apart(longer, members[1..]) && !Named(sofar, m.name) {
      forall i, j | 0 <= i < j < |members|
        ensures members[i].name != members[j].name
      {
        assert members[j] == members[1..][j - 1];
        assert i > 0 ==> members[i] == members[1..][i - 1];
      }
      forall i | 0 <= i < |members|
        ensures !Named(sofar, members[i].name)
      {
        assert i > 0 ==> members[i] == members[1..][i - 1];
      }
    }
    if Apart(sofar, members) {
      forall i | 0 <= i < |members[1..]|
        ensures !Named(longer, members[1..][i].name)
      {
        assert members[1..][i] == members[i + 1];
        assert members[0].name != members[i + 1].name;
      }
    }
  }

  /** How an object goes on after a member. */
  function AfterMember(rest: bytes, members: seq<Member>, depth: nat, nodes: nat, lim: JsonLimits): ParsedValue {
    var t := DropBlanks(rest);
    if t == [] then Refused(ParseError)
    else if t[0] == COMMA then ParseMembers(t[1..], members, depth, nodes, lim)
    else if t[0] == CLOSE_BRACE then Read(Obj(members), t[1..], nodes)
    else Refused(ParseError)
  }

  lemma MembersStep(s: bytes, members: seq<Member>, depth: nat, nodes: nat, lim: JsonLimits)
    ensures ParseMembers(s, members, depth, nodes, lim) ==
            var name := ParseName(s, members, lim);
            if name.Broken? then Refused(name.code)
            else
              var v := ParseValue(name.rest, depth + 1, nodes, lim);
              if v.Refused? then v
              else if |members| + 1 > lim.maxMembers then Refused(LimitExceeded)
              else AfterMember(v.rest, members + [Member(name.value, v.value)], depth, v.nodes, lim)
  {}

  lemma {:induction false} FieldReads(before: bytes, m: Member, rest: bytes, sofar: seq<Member>, pretty: bool, level: nat, depth: nat, nodes: nat, lim: JsonLimits)
    requires Exact(m.value) && AllBlank(before) && Stops(rest)
    ensures var r := ParseMembers(before + FieldText(m, pretty, level) + rest, sofar, depth, nodes, lim);
            if |m.name| <= lim.maxStringBytes && !Named(sofar, m.name) && Fits(m.value, depth + 1, lim)
               && nodes + Nodes(m.value) <= lim.maxNodes && |sofar| + 1 <= lim.maxMembers
            then r == AfterMember(rest, sofar + [Member(m.name, Norm(m.value))], depth, nodes + Nodes(m.value), lim)
            else r.Refused?
    decreases m.value, 2
  {
    hide ParseMembers, ParseValue, ParseName, Render, DropBlanks, Fits, Nodes, Norm, IsBlank, NameText, Named, Gap, AfterMember;
    var value := Render(m.value, pretty, level);
    var s := before + FieldText(m, pretty, level) + rest;
    assert s == before + NameText(m.name, pretty) + (value + rest);
    MembersStep(s, sofar, depth, nodes, lim);
    NameReads(before, m.name, pretty, value + rest, sofar, lim);
    assert Gap(pretty) + (value + rest) == Gap(pretty) + value + rest;
    GapIsBlank(pretty);
    ValueReads(Gap(pretty), m.value, pretty, level, rest, depth + 1, nodes, lim);
  }

  lemma AfterLastMember(pretty: bool, level: nat, tail: bytes, members: seq<Member>, depth: nat, nodes: nat, lim: JsonLimits)
    ensures AfterMember(Closing(pretty, level, CLOSE_BRACE) + tail, members, depth, nodes, lim) == Read(Obj(members), tail, nodes)
  {
    hide Closing, DropBlanks, ParseMembers;
    ClosingDrops(pretty, level, CLOSE_BRACE, tail);
    assert ([CLOSE_BRACE] + tail)[1..] == tail;
  }

  lemma AfterMemberComma(more: bytes, members: seq<Member>, depth: nat, nodes: nat, lim: JsonLimits)
    ensures AfterMember([COMMA] + more, members, depth, nodes, lim) == ParseMembers(more, members, depth, nodes, lim)
  {
    hide DropBlanks, ParseMembers;
    CommaStays(more);
  }

  lemma {:induction false} NormMembersSplit(sofar: seq<Member>, members: seq<Member>)
    requires members != []
    ensures sofar + NormMembers(members)
            == sofar + [Member(members[0].name, Norm(members[0].value))] + NormMembers(members[1..])
    ensures |members| == 1 ==> sofar + NormMembers(members) == sofar + [Member(members[0].name, Norm(members[0].value))]
  {
    hide Norm;
    var first, rest := [Member(members[0].name, Norm(members[0].value))], NormMembers(members[1..]);
    assert NormMembers(members) == first + rest;
    assert |members| == 1 ==> rest == [];
    hide NormMembers;
  }

  lemma {:induction false} FieldsRead(before: bytes, members: seq<Member>, sofar: seq<Member>, pretty: bool, level: nat, tail: bytes, depth: nat, nodes: nat, lim: JsonLimits)
    requires members != [] && Exact(Obj(members)) && AllBlank(before)
    requires nodes <= lim.maxNodes && |sofar| <= lim.maxMembers
    ensures Accepts(ParseMembers(before + FieldsText(members, pretty, level) + tail, sofar, depth, nodes, lim),
                    Obj(sofar + NormMembers(members)), tail, nodes + NodesOfMembers(members),
                    MembersFit(members, depth + 1, lim) && |sofar| + |members| <= lim.maxMembers
                    && nodes + NodesOfMembers(members) <= lim.maxNodes && Apart(sofar, members))
    decreases members, 0
  {
    hide ParseMembers, Fits, Break, Nodes, Norm, NormMembers, Closing, IsBlank, FieldText, Named, Apart, FieldsText, AfterMember;
    var m := members[0];
    var longer := sofar + [Member(m.name, Norm(m.value))];
    NormMembersSplit(sofar, members);
    ApartStep(sofar, members, Norm(m.value));
    if |members| == 1 {
      var rest := Closing(pretty, level, CLOSE_BRACE) + tail;
      ClosingDrops(pretty, level, CLOSE_BRACE, tail);
      LastField(before, members, pretty, level, tail);
      FieldReads(before, m, rest, sofar, pretty, level + 1, depth, nodes, lim);
      AfterLastMember(pretty, level, tail, longer, depth, nodes + Nodes(m.value), lim);
      NothingApart(longer, members[1..]);
    } else {
      var blanks := Break(pretty, level + 1);
      var more := blanks + FieldsText(members[1..], pretty, level) + tail;
      OneOfFields(before, members, pretty, level, tail);
      CommaStays(more);
      FieldReads(before, m, [COMMA] + more, sofar, pretty, level + 1, depth, nodes, lim);
      AfterMemberComma(more, longer, depth, nodes + Nodes(m.value), lim);
      if nodes + Nodes(m.value) <= lim.maxNodes && |sofar| + 1 <= lim.maxMembers {
        BreakIsBlank(pretty, level + 1);
        FieldsRead(blanks, members[1..], longer, pretty, level, tail, depth, nodes + Nodes(m.value), lim);
      }
    }
  }

  lemma GapIsBlank(pretty: bool)
    ensures AllBlank(Gap(pretty))
  {}

  lemma NothingApart(sofar: seq<Member>, members: seq<Member>)
    requires members == []
    ensures Apart(sofar, members)
  {}

  lemma {:induction false} ObjectReads(before: bytes, members: seq<Member>, pretty: bool, level: nat, tail: bytes, depth: nat, nodes: nat, lim: JsonLimits)
    requires Exact(Obj(members)) && AllBlank(before)
    ensures Accepts(ParseValue(before + Render(Obj(members), pretty, level) + tail, depth, nodes, lim), Norm(Obj(members)), tail,
                    nodes + Nodes(Obj(members)), Fits(Obj(members), depth, lim) && nodes + Nodes(Obj(members)) <= lim.maxNodes)
    decreases members, 1
  {
    hide ParseValue, DropBlanks, ParseMembers, Break, FieldsText, MembersFit, MembersText, IsBlank, Apart;
    var text := Render(Obj(members), pretty, level);
    if members == [] {
      var inner := [CLOSE_BRACE] + tail;
      EmptyText(pretty, level);
      assert before + text + tail == before + ([OPEN_BRACE] + inner);
      OpensValue(before, OPEN_BRACE, inner, depth, nodes, lim);
      CloseStays(CLOSE_BRACE, tail);
      NothingFits(depth, lim);
    } else {
      var body := FieldsText(members, pretty, level) + tail;
      var blanks := Break(pretty, level + 1);
      ObjectText(members, pretty, level);
      assert before + text + tail == before + ([OPEN_BRACE] + (blanks + body));
      OpensValue(before, OPEN_BRACE, blanks + body, depth, nodes, lim);
      BreakIsBlank(pretty, level + 1);
      FieldsStart(members, pretty, level);
      assert !IsBlank(QUOTE) by { QuoteIsNotBlank(); }
      DropPrefix(blanks, body);
      if depth <= lim.maxDepth && nodes + 1 <= lim.maxNodes {
        FieldsRead([], members, [], pretty, level, tail, depth, nodes + 1, lim);
        assert [] + NormMembers(members) == NormMembers(members);
        assert [] + FieldsText(members, pretty, level) + tail == body;
        ApartFromNothing(members);
      }
    }
  }

  lemma QuoteIsNotBlank()
    ensures !IsBlank(QUOTE)
  {}

  lemma ApartFromNothing(members: seq<Member>)
    ensures Apart([], members) <==> NamesDiffer(members)
  {}

  // ---- documents --------------------------------------------------------------------------

  /** The reader takes a written value, as a document of its own, exactly when it fits the
      limits, and then returns that value. */
  lemma DocumentReadsIff(t: Json, pretty: bool, lim: JsonLimits)
    requires Exact(t)
    ensures var text := Render(t, pretty, 0);
            var r := ParseDocument(text, lim);
            if |text| <= lim.maxDocumentBytes && Fits(t, 0, lim) && Nodes(t) <= lim.maxNodes then r == Success(Norm(t))
            else r.Fault?
  {
    hide ParseValue, Render, Fits, Nodes, Norm;
    var text := Render(t, pretty, 0);
    ValueReads([], t, pretty, 0, [], 0, 0, lim);
    assert [] + text + [] == text;
  }
}
