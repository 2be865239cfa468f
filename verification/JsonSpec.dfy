/** JSON texts (RFC 8259, sections 2 to 7): how values are written, and what a bounded
    reader makes of any octets. */
module JsonSpec {
  import opened Wrappers
  import opened Bytes
  import opened Text

  /** Members keep their order. A number with a fraction or an exponent is kept as text. */
  datatype Json =
    | Null
    | Bool(b: bool)
    | Int(i: i64)
    | Uint(u: u64)
    | Real(text: bytes)
    | Str(s: bytes)
    | Arr(items: seq<Json>)
    | Obj(members: seq<Member>)

  datatype Member = Member(name: bytes, value: Json)

  datatype JsonLimits = JsonLimits(
    maxDocumentBytes: nat, maxDepth: nat, maxNodes: nat, maxStringBytes: nat, maxMembers: nat, maxElements: nat)

  const QUOTE: byte := 0x22
  const BACKSLASH: byte := 0x5C
  const SLASH: byte := 0x2F
  const OPEN_BRACE: byte := 0x7B
  const CLOSE_BRACE: byte := 0x7D
  const OPEN_BRACKET: byte := 0x5B
  const CLOSE_BRACKET: byte := 0x5D
  const COMMA: byte := 0x2C
  const COLON: byte := 0x3A
  const NEWLINE: byte := 0x0A
  const SPACE: byte := 0x20
  const POINT: byte := 0x2E
  const SMALL_B: byte := 0x62
  const SMALL_E: byte := 0x65
  const LARGE_E: byte := 0x45
  const SMALL_F: byte := 0x66
  const SMALL_N: byte := 0x6E
  const SMALL_R: byte := 0x72
  const SMALL_T: byte := 0x74
  const SMALL_U: byte := 0x75
  const TRUE_TEXT: bytes := [0x74, 0x72, 0x75, 0x65]
  const FALSE_TEXT: bytes := [0x66, 0x61, 0x6C, 0x73, 0x65]
  const NULL_TEXT: bytes := [0x6E, 0x75, 0x6C, 0x6C]

  // ---- writing ----------------------------------------------------------------------------

  function HexDigit(n: nat): (b: byte)
    requires n < 16
  {
    if n < 10 then ZERO + n else 0x61 + (n - 10)
  }

  function EscapedOctet(b: byte): bytes {
    if b == QUOTE then [BACKSLASH, QUOTE]
    else if b == BACKSLASH then [BACKSLASH, BACKSLASH]
    else if b == 0x08 then [BACKSLASH, SMALL_B]
    else if b == 0x0C then [BACKSLASH, SMALL_F]
    else if b == NEWLINE then [BACKSLASH, SMALL_N]
    else if b == 0x0D then [BACKSLASH, SMALL_R]
    else if b == 0x09 then [BACKSLASH, SMALL_T]
    else if b < 0x20 then [BACKSLASH, SMALL_U, ZERO, ZERO, HexDigit(b / 16), HexDigit(b % 16)]
    else [b]
  }

  function Escaped(s: bytes): bytes {
    if s == [] then [] else EscapedOctet(s[0]) + Escaped(s[1..])
  }

  function Quoted(s: bytes): bytes {
    [QUOTE] + Escaped(s) + [QUOTE]
  }

  function Spaces(n: nat): bytes {
    seq(n, _ => SPACE)
  }

  /** A line break and two spaces a level, in pretty texts. */
  function Break(pretty: bool, level: nat): bytes {
    if pretty then [NEWLINE] + Spaces(2 * level) else []
  }

  function NameText(name: bytes, pretty: bool): bytes {
    Quoted(name) + [COLON] + (if pretty then [SPACE] else [])
  }

  /** The text of a value inside so many open frames. */
  function Render(t: Json, pretty: bool, level: nat): bytes {
    match t
    case Null => NULL_TEXT
    case Bool(b) => if b then TRUE_TEXT else FALSE_TEXT
    case Int(i) => SignedDecimal(i)
    case Uint(u) => Decimal(u)
    case Real(text) => text
    case Str(s) => Quoted(s)
    case Arr(items) =>
      [OPEN_BRACKET] + ItemsText(items, pretty, level + 1, true)
      + (if items == [] then [] else Break(pretty, level)) + [CLOSE_BRACKET]
    case Obj(members) =>
      [OPEN_BRACE] + MembersText(members, pretty, level + 1, true)
      + (if members == [] then [] else Break(pretty, level)) + [CLOSE_BRACE]
  }

  function Separator(first: bool): bytes {
    if first then [] else [COMMA]
  }

  function ItemsText(items: seq<Json>, pretty: bool, level: nat, first: bool): bytes {
    if items == [] then []
    else Separator(first) + Break(pretty, level) + Render(items[0], pretty, level) + ItemsText(items[1..], pretty, level, false)
  }

  function MembersText(members: seq<Member>, pretty: bool, level: nat, first: bool): bytes {
    if members == [] then []
    else
      Separator(first) + Break(pretty, level) + NameText(members[0].name, pretty)
      + Render(members[0].value, pretty, level) + MembersText(members[1..], pretty, level, false)
  }

  // ---- reading ----------------------------------------------------------------------------

  datatype Parsed<+T> = Broken(code: ErrorCode) | Got(value: T, rest: bytes)

  /** A value, what follows it, and how many values have been met so far. */
  datatype ParsedValue = Refused(code: ErrorCode) | Read(value: Json, rest: bytes, nodes: nat)

  function Nibble(b: byte): Option<nat> {
    if ZERO <= b <= ZERO + 9 then Some(b - ZERO)
    else if 0x61 <= b <= 0x66 then Some(b - 0x61 + 10)
    else if 0x41 <= b <= 0x46 then Some(b - 0x41 + 10)
    else None
  }

  /** The number of four hexadecimal digits. */
  function Hex4(s: bytes): (r: Option<nat>)
    ensures r.Some? ==> |s| >= 4 && r.value < 0x1_0000
  {
    if |s| < 4 then None
    else
      var a, b, c, d := Nibble(s[0]), Nibble(s[1]), Nibble(s[2]), Nibble(s[3]);
      if a.None? || b.None? || c.None? || d.None? then None
      else Some(((a.value * 16 + b.value) * 16 + c.value) * 16 + d.value)
  }

  function Utf8(c: nat): bytes
    requires c < 0x11_0000
  {
    if c < 0x80 then [c]
    else if c < 0x800 then [0xC0 + c / 0x40, 0x80 + c % 0x40]
    else if c < 0x1_0000 then [0xE0 + c / 0x1000, 0x80 + c / 0x40 % 0x40, 0x80 + c % 0x40]
    else [0xF0 + c / 0x4_0000, 0x80 + c / 0x1000 % 0x40, 0x80 + c / 0x40 % 0x40, 0x80 + c % 0x40]
  }

  /** What an escape sequence, after its backslash, stands for. */
  function Unescaped(s: bytes): (r: Parsed<bytes>)
    ensures r.Got? ==> |r.rest| < |s|
  {
    if s == [] then Broken(ParseError)
    else if s[0] == QUOTE || s[0] == BACKSLASH || s[0] == SLASH then Got([s[0]], s[1..])
    else if s[0] == SMALL_B then Got([0x08], s[1..])
    else if s[0] == SMALL_F then Got([0x0C], s[1..])
    else if s[0] == SMALL_N then Got([NEWLINE], s[1..])
    else if s[0] == SMALL_R then Got([0x0D], s[1..])
    else if s[0] == SMALL_T then Got([0x09], s[1..])
    else if s[0] == SMALL_U then
      var first := Hex4(s[1..]);
      if first.None? then Broken(ParseError)
      else if 0xD800 <= first.value <= 0xDBFF then
        var t := s[5..];
        if |t| < 2 || t[0] != BACKSLASH || t[1] != SMALL_U then Broken(ParseError)
        else
          var low := Hex4(t[2..]);
          if low.None? || low.value < 0xDC00 || low.value > 0xDFFF then Broken(ParseError)
          else Got(Utf8(0x1_0000 + (first.value - 0xD800) * 0x400 + (low.value - 0xDC00)), t[6..])
      else if 0xDC00 <= first.value <= 0xDFFF then Broken(ParseError)
      else Got(Utf8(first.value), s[5..])
    else Broken(ParseError)
  }

  /** The rest of a string after its opening quote. */
  function ParseString(s: bytes, sofar: bytes, lim: JsonLimits): (r: Parsed<bytes>)
    ensures r.Got? ==> |r.rest| < |s|
    decreases |s|
  {
    if s == [] then Broken(ParseError)
    else if s[0] == QUOTE then Got(sofar, s[1..])
    else if s[0] < 0x20 then Broken(ParseError)
    else
      var next := if s[0] != BACKSLASH then Got([s[0]], s[1..]) else Unescaped(s[1..]);
      if next.Broken? then next
      else if |sofar + next.value| > lim.maxStringBytes then Broken(LimitExceeded)
      else ParseString(next.rest, sofar + next.value, lim)
  }

  /** How many digits a text begins with. */
  function DigitRun(s: bytes): (n: nat)
    ensures n <= |s|
  {
    if s == [] || !IsDigit(s[0]) then 0 else 1 + DigitRun(s[1..])
  }

  /** A sign and digits, none of them a zero in front of others. */
  function WholeSpan(s: bytes): (r: Option<nat>)
    ensures r.Some? ==> 0 < r.value <= |s|
  {
    var sign := if s != [] && s[0] == MINUS then 1 else 0;
    var digits := DigitRun(s[sign..]);
    if digits == 0 || (s[sign] == ZERO && digits > 1) then None else Some(sign + digits)
  }

  /** A point and digits, or nothing. */
  function FractionSpan(s: bytes): (r: Option<nat>)
    ensures r.Some? ==> r.value <= |s|
  {
    if s == [] || s[0] != POINT then Some(0)
    else
      var digits := DigitRun(s[1..]);
      if digits == 0 then None else Some(1 + digits)
  }

  /** A letter e, perhaps a sign, and digits; or nothing. */
  function ExponentSpan(s: bytes): (r: Option<nat>)
    ensures r.Some? ==> r.value <= |s|
  {
    if s == [] || (s[0] != SMALL_E && s[0] != LARGE_E) then Some(0)
    else
      var signed := if |s| > 1 && (s[1] == PLUS || s[1] == MINUS) then 2 else 1;
      var digits := DigitRun(s[signed..]);
      if digits == 0 then None else Some(signed + digits)
  }

  /** How far the grammar of numbers reaches, and whether it is a plain integer. */
  function NumberSpan(s: bytes): (r: Option<(nat, bool)>)
    ensures r.Some? ==> 0 < r.value.0 <= |s|
  {
    var whole :- WholeSpan(s);
    var fraction :- FractionSpan(s[whole..]);
    var exponent :- ExponentSpan(s[whole + fraction..]);
    Some((whole + fraction + exponent, fraction == 0 && exponent == 0))
  }

  function ParseNumber(s: bytes): (r: Parsed<Json>)
    ensures r.Got? ==> |r.rest| < |s|
  {
    var span := NumberSpan(s);
    if span.None? then Broken(ParseError)
    else
      var text, rest := s[..span.value.0], s[span.value.0..];
      if !span.value.1 then Got(Real(text), rest)
      else if s[0] == MINUS then
        var v := Signed(text);
        if v.None? then Broken(OutOfRange) else Got(Int(v.value), rest)
      else if AllDigits(text) && Value(text) <= U64_MAX then Got(Uint(Value(text)), rest)
      else Broken(OutOfRange)
  }

  function ParseLiteral(s: bytes, literal: bytes, v: Json): (r: Parsed<Json>)
    requires literal != []
    ensures r.Got? ==> |r.rest| < |s|
  {
    if literal <= s then Got(v, s[|literal|..]) else Broken(ParseError)
  }

  function AsValue(p: Parsed<Json>, nodes: nat): ParsedValue {
    match p
    case Broken(code) => Refused(code)
    case Got(v, rest) => Read(v, rest, nodes)
  }

  function ParseValue(s: bytes, depth: nat, nodes: nat, lim: JsonLimits): (r: ParsedValue)
    ensures r.Read? ==> |r.rest| < |s|
    decreases |s|, 1
  {
    if depth > lim.maxDepth then Refused(LimitExceeded)
    else if nodes + 1 > lim.maxNodes then Refused(LimitExceeded)
    else
      var t := DropBlanks(s);
      if t == [] then Refused(ParseError)
      else if t[0] == OPEN_BRACE then ParseObject(t[1..], depth, nodes + 1, lim)
      else if t[0] == OPEN_BRACKET then ParseArray(t[1..], depth, nodes + 1, lim)
      else if t[0] == QUOTE then
        var p := ParseString(t[1..], [], lim);
        if p.Broken? then Refused(p.code) else Read(Str(p.value), p.rest, nodes + 1)
      else if t[0] == SMALL_T then AsValue(ParseLiteral(t, TRUE_TEXT, Bool(true)), nodes + 1)
      else if t[0] == SMALL_F then AsValue(ParseLiteral(t, FALSE_TEXT, Bool(false)), nodes + 1)
      else if t[0] == SMALL_N then AsValue(ParseLiteral(t, NULL_TEXT, Null), nodes + 1)
      else if t[0] == MINUS || IsDigit(t[0]) then AsValue(ParseNumber(t), nodes + 1)
      else Refused(ParseError)
  }

  function ParseArray(s: bytes, depth: nat, nodes: nat, lim: JsonLimits): (r: ParsedValue)
    ensures r.Read? ==> |r.rest| < |s|
    decreases |s|, 3
  {
    var t := DropBlanks(s);
    if t != [] && t[0] == CLOSE_BRACKET then Read(Arr([]), t[1..], nodes)
    else ParseElements(t, [], depth, nodes, lim)
  }

  function ParseElements(s: bytes, items: seq<Json>, depth: nat, nodes: nat, lim: JsonLimits): (r: ParsedValue)
    ensures r.Read? ==> |r.rest| < |s|
    decreases |s|, 2
  {
    var v := ParseValue(s, depth + 1, nodes, lim);
    if v.Refused? then v
    else if |items| + 1 > lim.maxElements then Refused(LimitExceeded)
    else
      var t := DropBlanks(v.rest);
      if t == [] then Refused(ParseError)
      else if t[0] == COMMA then ParseElements(t[1..], items + [v.value], depth, v.nodes, lim)
      else if t[0] == CLOSE_BRACKET then Read(Arr(items + [v.value]), t[1..], v.nodes)
      else Refused(ParseError)
  }

  predicate Named(members: seq<Member>, name: bytes) {
    exists m :: m in members && m.name == name
  }

  function ParseObject(s: bytes, depth: nat, nodes: nat, lim: JsonLimits): (r: ParsedValue)
    ensures r.Read? ==> |r.rest| < |s|
    decreases |s|, 3
  {
    var t := DropBlanks(s);
    if t != [] && t[0] == CLOSE_BRACE then Read(Obj([]), t[1..], nodes)
    else ParseMembers(t, [], depth, nodes, lim)
  }

  /** A member's name and the colon after it. */
  function ParseName(s: bytes, members: seq<Member>, lim: JsonLimits): (r: Parsed<bytes>)
    ensures r.Got? ==> |r.rest| < |s|
  {
    var t := DropBlanks(s);
    if t == [] || t[0] != QUOTE then Broken(ParseError)
    else
      var name := ParseString(t[1..], [], lim);
      if name.Broken? then name
      else if Named(members, name.value) then Broken(ParseError)
      else
        var u := DropBlanks(name.rest);
        if u == [] || u[0] != COLON then Broken(ParseError) else Got(name.value, u[1..])
  }

  function ParseMembers(s: bytes, members: seq<Member>, depth: nat, nodes: nat, lim: JsonLimits): (r: ParsedValue)
    ensures r.Read? ==> |r.rest| < |s|
    decreases |s|, 2
  {
    var name := ParseName(s, members, lim);
    if name.Broken? then Refused(name.code)
    else
      var v := ParseValue(name.rest, depth + 1, nodes, lim);
      if v.Refused? then v
      else if |members| + 1 > lim.maxMembers then Refused(LimitExceeded)
      else
        var t := DropBlanks(v.rest);
        var longer := members + [Member(name.value, v.value)];
        if t == [] then Refused(ParseError)
        else if t[0] == COMMA then ParseMembers(t[1..], longer, depth, v.nodes, lim)
        else if t[0] == CLOSE_BRACE then Read(Obj(longer), t[1..], v.nodes)
        else Refused(ParseError)
  }

  /** A whole document: one value, then nothing but blanks. */
  function ParseDocument(s: bytes, lim: JsonLimits): Result<Json> {
    if |s| > lim.maxDocumentBytes then Fault(LimitExceeded)
    else
      match ParseValue(s, 0, 0, lim)
      case Refused(code) => Fault(code)
      case Read(v, rest, _) => if DropBlanks(rest) == [] then Success(v) else Fault(ParseError)
  }
}
