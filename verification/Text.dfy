/** Text as octets: decimal numerals, surrounding blanks. */
module Text {
  import opened Wrappers
  import opened Bytes

  const ZERO: byte := 0x30

  predicate IsDigit(b: byte) { ZERO <= b <= ZERO + 9 }

  function Digit(d: nat): (b: byte)
    requires d < 10
    ensures IsDigit(b)
  {
    ZERO + d
  }

  predicate AllDigits(s: bytes) {
    forall i :: 0 <= i < |s| ==> IsDigit(s[i])
  }

  /** The number that a string of digits denotes. */
  function Value(s: bytes): nat
    requires AllDigits(s)
  {
    if s == [] then 0 else 10 * Value(s[..|s| - 1]) + (s[|s| - 1] - ZERO)
  }

  /** A number in decimal, as std::to_string gives it. */
  function Decimal(n: nat): (s: bytes)
    ensures s != [] && AllDigits(s) && Value(s) == n
    ensures |s| > 1 ==> s[0] != ZERO
    ensures n > 0 ==> s[0] != ZERO
  {
    if n < 10 then [Digit(n)]
    else
      var head := Decimal(n / 10);
      var s := head + [Digit(n % 10)];
      assert s[..|s| - 1] == head;
      s
  }

  /** The w low decimal digits of a number. */
  function Fixed(n: nat, w: nat): (s: bytes)
    ensures |s| == w && AllDigits(s)
    decreases w
  {
    if w == 0 then [] else Fixed(n / 10, w - 1) + [Digit(n % 10)]
  }

  function Pow10(w: nat): (p: nat)
    ensures p > 0
  {
    if w == 0 then 1 else 10 * Pow10(w - 1)
  }

  lemma {:induction false} FixedValue(n: nat, w: nat)
    requires n < Pow10(w)
    ensures Value(Fixed(n, w)) == n
    decreases w
  {
    if w > 0 {
      FixedValue(n / 10, w - 1);
      assert Fixed(n, w)[..w - 1] == Fixed(n / 10, w - 1);
    }
  }

  lemma {:induction false} DecimalIsFixed(n: nat, w: nat)
    requires |Decimal(n)| == w
    ensures Decimal(n) == Fixed(n, w)
    decreases w
  {
    if n >= 10 {
      DecimalIsFixed(n / 10, w - 1);
    } else {
      assert Fixed(n, 1) == [] + [Digit(n)];
    }
  }

  lemma {:induction false} DecimalLength(n: nat, w: nat)
    requires w > 0
    ensures n < Pow10(w) <==> |Decimal(n)| <= w
    decreases w
  {
    if n >= 10 && w > 1 {
      DecimalLength(n / 10, w - 1);
    } else if n >= 10 {
      assert Pow10(1) == 10;
    } else {
      AtLeastTen(w);
    }
  }

  lemma {:induction false} AtLeastTen(w: nat)
    requires w > 0
    ensures Pow10(w) >= 10
  {
    if w > 1 {
      AtLeastTen(w - 1);
    }
  }

  lemma {:induction false} LeadingZero(n: nat, w: nat)
    requires n < Pow10(w)
    ensures [ZERO] + Fixed(n, w) == Fixed(n, w + 1)
    decreases w
  {
    if w == 0 {
      assert Fixed(n, 1) == [] + [Digit(0)];
    } else {
      LeadingZero(n / 10, w - 1);
      assert [ZERO] + (Fixed(n / 10, w - 1) + [Digit(n % 10)]) == ([ZERO] + Fixed(n / 10, w - 1)) + [Digit(n % 10)];
    }
  }

  /** Zeros in front of the numeral until it has the wanted width. */
  method Padded(n: nat, w: nat) returns (out: bytes)
    requires n < Pow10(w) && w > 0
    ensures out == Fixed(n, w)
  {
    out := Decimal(n);
    DecimalIsFixed(n, |out|);
    DecimalLength(n, w);
    DecimalLength(n, |out|);
    while |out| < w
      invariant 0 < |out| <= w && out == Fixed(n, |out|) && n < Pow10(|out|)
    {
      LeadingZero(n, |out|);
      out := [ZERO] + out;
    }
  }

  // ---- reading numerals ------------------------------------------------------------------

  lemma {:induction false} PrefixIsLess(s: bytes, k: nat)
    requires AllDigits(s) && k <= |s|
    ensures Value(s[..k]) <= Value(s)
    decreases |s|
  {
    if k < |s| {
      assert s[..|s| - 1][..k] == s[..k];
      PrefixIsLess(s[..|s| - 1], k);
    } else {
      assert s[..k] == s;
    }
  }

  /** Accepts exactly the non-empty strings of digits whose number fits 64 bits. */
  method ParseU64(s: bytes) returns (r: Option<u64>)
    ensures r == if s != [] && AllDigits(s) && Value(s) <= U64_MAX then Some(Value(s)) else None
  {
    if s == [] {
      return None;
    }
    var accumulator: u64 := 0;
    for i := 0 to |s|
      invariant AllDigits(s[..i]) && accumulator == Value(s[..i])
    {
      if !IsDigit(s[i]) {
        return None;
      }
      var digit := s[i] - ZERO;
      assert s[..i + 1][..i] == s[..i];
      if accumulator > (U64_MAX - digit) / 10 {
        if AllDigits(s) {
          PrefixIsLess(s, i + 1);
        }
        return None;
      }
      accumulator := accumulator * 10 + digit;
    }
    assert s[..|s|] == s;
    return Some(accumulator);
  }

  const MINUS: byte := 0x2D
  const PLUS: byte := 0x2B

  /** A sign in front of digits; what ParseI64 accepts. */
  function Signed(s: bytes): Option<i64> {
    var digits := if s != [] && s[0] == MINUS then s[1..] else s;
    if digits == [] || !AllDigits(digits) then None
    else
      var v: int := if s[0] == MINUS then 0 - Value(digits) else Value(digits);
      if I64_MIN <= v <= I64_MAX then Some(v) else None
  }

  method ParseI64(s: bytes) returns (r: Option<i64>)
    ensures r == Signed(s)
  {
    if s == [] {
      return None;
    }
    var negative, digits := false, s;
    if s[0] == MINUS {
      negative, digits := true, s[1..];
    } else if s[0] == PLUS {
      return None;
    }
    if digits == [] {
      return None;
    }
    var magnitude :- ParseU64(digits);
    if negative {
      if magnitude > I64_MAX + 1 {
        return None;
      }
      return Some(-magnitude);
    }
    if magnitude > I64_MAX {
      return None;
    }
    return Some(magnitude);
  }

  /** A signed number in decimal, as std::to_string gives it. */
  function SignedDecimal(v: int): bytes {
    if v < 0 then [MINUS] + Decimal(-v) else Decimal(v)
  }

  lemma SignedRoundTrip(v: i64)
    ensures Signed(SignedDecimal(v)) == Some(v)
  {
    if v < 0 {
      var n: nat := 0 - v;
      assert ([MINUS] + Decimal(n))[1..] == Decimal(n);
    } else {
      assert IsDigit(Decimal(v)[0]);
    }
  }

  // ---- blanks ---------------------------------------------------------------------------------

  predicate IsBlank(b: byte) {
    b == 0x20 || b == 0x09 || b == 0x0D || b == 0x0A
  }

  predicate AllBlank(s: bytes) {
    forall i :: 0 <= i < |s| ==> IsBlank(s[i])
  }

  /** Nothing blank at either end. */
  predicate Tight(s: bytes) {
    s != [] ==> !IsBlank(s[0]) && !IsBlank(s[|s| - 1])
  }

  function DropBlanks(s: bytes): (r: bytes)
    ensures |r| <= |s|
  {
    if s == [] || !IsBlank(s[0]) then s else DropBlanks(s[1..])
  }

  function CutBlanks(s: bytes): bytes {
    if s == [] || !IsBlank(s[|s| - 1]) then s else CutBlanks(s[..|s| - 1])
  }

  function Trimmed(s: bytes): bytes {
    CutBlanks(DropBlanks(s))
  }

  method Trim(s: bytes) returns (r: bytes)
    ensures r == Trimmed(s)
  {
    hide DropBlanks, CutBlanks;
    var begin := 0;
    assert s[0..] == s;
    while begin < |s| && IsBlank(s[begin])
      invariant begin <= |s| && DropBlanks(s[begin..]) == DropBlanks(s)
    {
      DropStep(s[begin..]);
      assert s[begin..][1..] == s[begin + 1..];
      begin := begin + 1;
    }
    DropStep(s[begin..]);
    var end := |s|;
    assert s[begin..end] == s[begin..];
    while end > begin && IsBlank(s[end - 1])
      invariant begin <= end <= |s| && CutBlanks(s[begin..end]) == Trimmed(s)
    {
      CutStep(s[begin..end]);
      assert s[begin..end][..end - begin - 1] == s[begin..end - 1];
      end := end - 1;
    }
    CutStep(s[begin..end]);
    return s[begin..end];
  }

  lemma {:induction false} DropShape(s: bytes) returns (before: bytes)
    ensures s == before + DropBlanks(s) && AllBlank(before)
    ensures DropBlanks(s) != [] ==> !IsBlank(DropBlanks(s)[0])
    decreases |s|
  {
    if s == [] || !IsBlank(s[0]) {
      before := [];
    } else {
      var rest := DropShape(s[1..]);
      before := [s[0]] + rest;
      assert s == [s[0]] + s[1..];
      assert [s[0]] + (rest + DropBlanks(s)) == before + DropBlanks(s);
    }
  }

  lemma {:induction false} CutShape(s: bytes) returns (after: bytes)
    ensures s == CutBlanks(s) + after && AllBlank(after)
    ensures CutBlanks(s) != [] ==> !IsBlank(CutBlanks(s)[|CutBlanks(s)| - 1])
    decreases |s|
  {
    if s == [] || !IsBlank(s[|s| - 1]) {
      after := [];
    } else {
      var rest := CutShape(s[..|s| - 1]);
      after := rest + [s[|s| - 1]];
      assert s == s[..|s| - 1] + [s[|s| - 1]];
      assert (CutBlanks(s) + rest) + [s[|s| - 1]] == CutBlanks(s) + after;
    }
  }

  /** Trimming cuts blanks and only blanks, off both ends, as far as they go. */
  lemma TrimShape(s: bytes) returns (before: bytes, after: bytes)
    ensures s == before + Trimmed(s) + after && AllBlank(before) && AllBlank(after) && Tight(Trimmed(s))
  {
    before := DropShape(s);
    after := CutShape(DropBlanks(s));
    assert s == before + (Trimmed(s) + after);
    if Trimmed(s) != [] {
      assert Trimmed(s)[0] == (Trimmed(s) + after)[0];
    }
  }

  lemma DropStep(s: bytes)
    ensures DropBlanks(s) == if s == [] || !IsBlank(s[0]) then s else DropBlanks(s[1..])
  {}

  lemma CutStep(s: bytes)
    ensures CutBlanks(s) == if s == [] || !IsBlank(s[|s| - 1]) then s else CutBlanks(s[..|s| - 1])
  {}

  /** Trimming is the only way to cut blanks off both ends and stop at something else. */
  lemma TrimmedUnique(before: bytes, core: bytes, after: bytes)
    requires AllBlank(before) && AllBlank(after) && Tight(core)
    requires core == [] ==> after == []
    ensures Trimmed(before + core + after) == core
  {
    DropPrefix(before, core + after);
    assert before + core + after == before + (core + after);
    CutSuffix(core, after);
  }

  lemma {:induction false} DropPrefix(before: bytes, s: bytes)
    requires AllBlank(before) && (s != [] ==> !IsBlank(s[0]))
    ensures DropBlanks(before + s) == s
    decreases |before|
  {
    if before == [] {
      assert before + s == s;
    } else {
      assert (before + s)[1..] == before[1..] + s;
      DropPrefix(before[1..], s);
    }
  }

  lemma {:induction false} CutSuffix(s: bytes, after: bytes)
    requires AllBlank(after) && (s != [] ==> !IsBlank(s[|s| - 1]))
    ensures CutBlanks(s + after) == s
    decreases |after|
  {
    if after == [] {
      assert s + after == s;
    } else {
      var t := s + after;
      assert t[..|t| - 1] == s + after[..|after| - 1];
      CutSuffix(s, after[..|after| - 1]);
    }
  }
}
