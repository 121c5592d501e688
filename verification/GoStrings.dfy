/** The few functions of Go's `strings` and `strconv` packages that the tag code rests on. */
module GoStrings {

  datatype Option<+T> = None | Some(value: T)

  // strings.TrimPrefix: the text without one leading `prefix`, or the text itself.
  function TrimPrefix(s: string, prefix: string): string {
    if prefix <= s then s[|prefix|..] else s
  }

  // strings.Split for a one-character separator. It never returns an empty list.
  function Split(s: string, sep: char): (parts: seq<string>)
    ensures |parts| >= 1
  {
    if s == "" then [""]
    else if s[0] == sep then [""] + Split(s[1..], sep)
    else var rest := Split(s[1..], sep); [[s[0]] + rest[0]] + rest[1..]
  }

  function Join(parts: seq<string>, sep: char): string {
    if parts == [] then ""
    else if |parts| == 1 then parts[0]
    else parts[0] + [sep] + Join(parts[1..], sep)
  }

  lemma {:induction false} SplitFirst(head: string, tail: string, sep: char)
    requires sep !in head
    ensures Split(head + [sep] + tail, sep) == [head] + Split(tail, sep)
  {
    var s := head + [sep] + tail;
    if head == "" {
      assert s[1..] == tail;
    } else {
      assert s[1..] == head[1..] + [sep] + tail;
      SplitFirst(head[1..], tail, sep);
      assert [s[0]] + head[1..] == head;
    }
  }

  lemma {:induction false} SplitWhole(s: string, sep: char)
    requires sep !in s
    ensures Split(s, sep) == [s]
  {
    if s == "" {
    } else {
      SplitWhole(s[1..], sep);
      assert [s[0]] + s[1..] == s;
    }
  }

  // Split undoes Join on separator-free parts.
  lemma {:induction false} SplitJoin(parts: seq<string>, sep: char)
    requires parts != []
    requires forall i :: 0 <= i < |parts| ==> sep !in parts[i]
    ensures Split(Join(parts, sep), sep) == parts
  {
    if |parts| == 1 {
      SplitWhole(parts[0], sep);
    } else {
      SplitFirst(parts[0], Join(parts[1..], sep), sep);
      SplitJoin(parts[1..], sep);
    }
  }

  // Join undoes Split on every text.
  lemma {:induction false} JoinSplit(s: string, sep: char)
    ensures Join(Split(s, sep), sep) == s
    ensures forall i :: 0 <= i < |Split(s, sep)| ==> sep !in Split(s, sep)[i]
  {
    if s == "" {
    } else {
      JoinSplit(s[1..], sep);
      var rest := Split(s[1..], sep);
      if s[0] == sep {
        assert Split(s, sep)[1..] == rest;
      } else {
        assert Split(s, sep)[1..] == rest[1..];
      }
    }
  }

  predicate IsDigit(c: char) { '0' <= c <= '9' }

  function DigitValue(c: char): (d: nat)
    requires IsDigit(c)
    ensures d < 10
  {
    c as int - '0' as int
  }

  function Digit(d: nat): (c: char)
    requires d < 10
    ensures IsDigit(c) && DigitValue(c) == d
  {
    ('0' as int + d) as char
  }

  // The value of a text of decimal digits, read on top of `high`.
  function ParseDigits(s: string, high: nat): Option<nat> {
    if s == "" then Some(high)
    else if IsDigit(s[0]) then ParseDigits(s[1..], high * 10 + DigitValue(s[0]))
    else None
  }

  const MIN_INT64: int := -0x8000_0000_0000_0000
  const MAX_INT64: int := 0x7fff_ffff_ffff_ffff

  predicate FitsInt64(n: int) { MIN_INT64 <= n <= MAX_INT64 }

  // Two's-complement truncation of an integer to 64 bits.
  function WrapInt64(n: int): (r: int)
    ensures FitsInt64(r)
    ensures FitsInt64(n) ==> r == n
  {
    (n - MIN_INT64) % 0x1_0000_0000_0000_0000 + MIN_INT64
  }

  // Truncation changes a number by a multiple of 2^64.
  lemma WrapIsCongruent(n: int)
    ensures (WrapInt64(n) - n) % 0x1_0000_0000_0000_0000 == 0
  {
    var m := n - MIN_INT64;
    assert WrapInt64(n) - n == -(m / 0x1_0000_0000_0000_0000) * 0x1_0000_0000_0000_0000;
  }

  // strconv.Atoi: an optional sign, then decimal digits, within the range of int64.
  function Atoi(s: string): (r: Option<int>)
    ensures r.Some? ==> FitsInt64(r.value)
  {
    var negative := s != "" && s[0] == '-';
    var digits := if s != "" && (s[0] == '-' || s[0] == '+') then s[1..] else s;
    if digits == "" then None
    else
      match ParseDigits(digits, 0)
      case None => None
      case Some(n) =>
        var v: int := if negative then -(n as int) else n;
        if FitsInt64(v) then Some(v) else None
  }

  function FormatNat(n: nat): (s: string)
    ensures s != ""
  {
    if n < 10 then [Digit(n)] else FormatNat(n / 10) + [Digit(n % 10)]
  }

  // strconv.Itoa
  function Itoa(n: int): string {
    if n < 0 then "-" + FormatNat(-n) else FormatNat(n)
  }

  lemma {:induction false} ParseDigitAfter(s: string, high: nat, d: nat)
    requires d < 10
    ensures ParseDigits(s + [Digit(d)], high) ==
      match ParseDigits(s, high) case None => None case Some(n) => Some(n * 10 + d)
  {
    if s == "" {
      assert (s + [Digit(d)])[1..] == "";
    } else {
      assert (s + [Digit(d)])[1..] == s[1..] + [Digit(d)];
      if IsDigit(s[0]) {
        ParseDigitAfter(s[1..], high * 10 + DigitValue(s[0]), d);
      }
    }
  }

  lemma {:induction false} ParseFormatted(n: nat)
    ensures ParseDigits(FormatNat(n), 0) == Some(n)
    ensures forall c :: c in FormatNat(n) ==> IsDigit(c)
  {
    if n < 10 {
      assert FormatNat(n)[1..] == "";
    } else {
      ParseFormatted(n / 10);
      ParseDigitAfter(FormatNat(n / 10), 0, n % 10);
    }
  }

  // --- What Atoi accepts ---

  predicate AllDigits(s: string) { forall i :: 0 <= i < |s| ==> IsDigit(s[i]) }

  // The number that decimal digits denote, by their places.
  function DecimalValue(digits: string): nat
    requires AllDigits(digits)
  {
    if digits == "" then 0
    else DecimalValue(digits[..|digits| - 1]) * 10 + DigitValue(digits[|digits| - 1])
  }

  lemma {:induction false} ParseDigitsReads(s: string)
    requires AllDigits(s)
    ensures ParseDigits(s, 0) == Some(DecimalValue(s))
  {
    if s == "" {
    } else {
      var init, last := s[..|s| - 1], s[|s| - 1];
      ParseDigitsReads(init);
      ParseDigitAfter(init, 0, DigitValue(last));
      assert init + [Digit(DigitValue(last))] == s;
    }
  }

  lemma {:induction false} ParseDigitsRejects(s: string, high: nat)
    requires !AllDigits(s)
    ensures ParseDigits(s, high) == None
  {
    if IsDigit(s[0]) {
      ParseDigitsRejects(s[1..], high * 10 + DigitValue(s[0]));
    }
  }

  predicate IsSign(s: string) { s == "" || s == "+" || s == "-" }

  // Atoi reads an optional sign and digits as the number they denote, if it fits int64.
  lemma AtoiReads(sign: string, digits: string)
    requires IsSign(sign) && digits != "" && AllDigits(digits)
    ensures var v: int := if sign == "-" then -(DecimalValue(digits) as int) else DecimalValue(digits);
      Atoi(sign + digits) == if FitsInt64(v) then Some(v) else None
  {
    ParseDigitsReads(digits);
    hide ParseDigits, FitsInt64, DecimalValue;
    var s := sign + digits;
    if sign == "" {
      assert s == digits;
    } else {
      assert s[1..] == digits;
    }
  }

  // And it reads nothing else.
  lemma AtoiAcceptsOnly(s: string) returns (sign: string, digits: string)
    requires Atoi(s).Some?
    ensures IsSign(sign) && digits != "" && AllDigits(digits) && s == sign + digits
  {
    hide ParseDigits;
    sign := if s[0] == '-' || s[0] == '+' then s[..1] else "";
    digits := s[|sign|..];
    if !AllDigits(digits) {
      ParseDigitsRejects(digits, 0);
    }
  }

  lemma AtoiDigits(n: nat)
    requires FitsInt64(n)
    ensures Atoi(FormatNat(n)) == Some(n)
  {
    hide FormatNat, ParseDigits;
    ParseFormatted(n);
    assert FormatNat(n)[0] in FormatNat(n);
  }

  lemma AtoiMinus(n: int)
    requires 0 <= n && FitsInt64(-n)
    ensures Atoi("-" + FormatNat(n)) == Some(-n)
  {
    hide FormatNat, ParseDigits;
    ParseFormatted(n);
    assert ("-" + FormatNat(n))[1..] == FormatNat(n);
  }

  // Atoi reads back what Itoa wrote.
  lemma AtoiItoa(n: int)
    requires FitsInt64(n)
    ensures Atoi(Itoa(n)) == Some(n)
    ensures '.' !in Itoa(n)
  {
    hide FormatNat, ParseDigits, Atoi;
    if n < 0 {
      AtoiMinus(-n);
      ParseFormatted(-n);
    } else {
      AtoiDigits(n);
      ParseFormatted(n);
    }
  }
}
