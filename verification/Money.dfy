// Amounts of money as the payment plugin prints and reads them
// (backend/payment-plugins/alipay.go): fen in an int64, yuan with two decimals as text.
module Money {
  import opened Digits
  import opened Trimming
  import opened Wrappers

  const MAX_INT64: int := 0x7FFF_FFFF_FFFF_FFFF

  type Int64 = x: int | -MAX_INT64 - 1 <= x <= MAX_INT64

  // What int64 arithmetic leaves of an exact result.
  function Wrap(x: int): Int64
  {
    (x + MAX_INT64 + 1) % (2 * (MAX_INT64 + 1)) - MAX_INT64 - 1
  }

  // Go divides towards zero; the remainder has the sign of the dividend.
  function Quotient(a: int, b: int): int
    requires b > 0
  {
    if a >= 0 then a / b else -(-a / b)
  }

  function Remainder(a: int, b: int): int
    requires b > 0
  {
    a - b * Quotient(a, b)
  }

  // ---------------------------------------------------------------- the library calls

  // unicode.IsSpace, which strings.TrimSpace strips from both ends.
  predicate IsSpace(c: char)
  {
    '\t' <= c <= '\r' || c == ' ' || c == '\U{0085}' || c == '\U{00A0}' || c == '\U{1680}' ||
    '\U{2000}' <= c <= '\U{200a}' || c == '\U{2028}' || c == '\U{2029}' || c == '\U{202f}' ||
    c == '\U{205f}' || c == '\U{3000}'
  }

  function TrimSpace(text: string): string
  {
    Strip(text, IsSpace)
  }

  function Split(text: string, separator: char): (parts: seq<string>)
    ensures |parts| >= 1
  {
    if text == "" then [""]
    else
      var later := Split(text[1..], separator);
      if text[0] == separator then [""] + later
      else [[text[0]] + later[0]] + later[1..]
  }

  // strconv.ParseInt(text, 10, 64): an optional sign, at least one digit, in range.
  function ParseInt(text: string): Option<Int64>
  {
    var negative := text != "" && text[0] == '-';
    var digits := if negative || (text != "" && text[0] == '+') then text[1..] else text;
    if digits == "" || !AllDigits(digits) then None
    else
      var n: int := Value(digits);
      if negative then (if n > MAX_INT64 + 1 then None else Some(-n))
      else if n > MAX_INT64 then None else Some(n)
  }

  // ---------------------------------------------------------------- print and read

  // "%d.%02d" of the quotient and the remainder by 100.
  function FormatFen(value: Int64): string
  {
    Signed(Quotient(value, 100)) + "." + TwoWide(Remainder(value, 100))
  }

  function Signed(value: int): string
  {
    if value < 0 then "-" + Decimal(-value) else Decimal(value)
  }

  // "%02d": the sign counts towards the width.
  function TwoWide(value: int): string
  {
    if 0 <= value < 10 then "0" + Decimal(value) else Signed(value)
  }

  function ParseYuanToFen(text: string): Result<Int64, string>
  {
    var value := TrimSpace(text);
    if value == "" || value[0] == '-' then Err("invalid amount")
    else
      var parts := Split(value, '.');
      if |parts| > 2 then Err("invalid amount")
      else ParseParts(parts[0], if |parts| == 2 then parts[1] else "")
  }

  // What stands before the point and what stands after it.
  function ParseParts(whole: string, fraction: string): Result<Int64, string>
  {
    var yuan := ParseInt(whole);
    if yuan.None? || yuan.value > Quotient(MAX_INT64, 100) then Err("invalid amount")
    else if |fraction| > 2 then Err("invalid amount precision")
    else
      var fen := ParseInt(fraction + Zeros(2 - |fraction|));
      if fen.None? then Err("invalid amount") else Combine(yuan.value, fen.value)
  }

  function Combine(yuan: Int64, fen: Int64): Result<Int64, string>
  {
    if yuan > Quotient(Wrap(MAX_INT64 - fen), 100) then Err("invalid amount")
    else Ok(Wrap(Wrap(yuan * 100) + fen))
  }

  function Zeros(n: nat): string
  {
    if n == 0 then "" else "0" + Zeros(n - 1)
  }

  // ---------------------------------------------------------------- the amounts a text denotes

  // Accepted after the point: up to two digits, or a sign with at most one, where a minus may
  // only precede zero. A missing digit counts as zero.
  predicate IsFraction(f: string)
  {
    |f| <= 2 &&
    (AllDigits(f) || (f[0] == '+' && AllDigits(f[1..])) || f == "-" || f == "-0")
  }

  function Cents(f: string): nat
    requires IsFraction(f)
  {
    if f == "" || f == "+" || f[0] == '-' then 0
    else if f[0] == '+' then Value(f[1..])
    else if |f| == 1 then 10 * Value(f)
    else Value(f)
  }

  function Unsigned(whole: string): string
  {
    if whole != "" && whole[0] == '+' then whole[1..] else whole
  }

  // Accepted before the point: digits, possibly after a plus.
  predicate IsWhole(whole: string)
  {
    Unsigned(whole) != "" && AllDigits(Unsigned(whole))
  }

  predicate SpellsParts(whole: string, fraction: string, amount: int)
  {
    IsWhole(whole) && IsFraction(fraction) && amount == 100 * Value(Unsigned(whole)) + Cents(fraction)
  }

  predicate Spells(text: string, whole: string, fraction: Option<string>, amount: int)
  {
    text == whole + (if fraction.Some? then "." + fraction.value else "") &&
    SpellsParts(whole, if fraction.Some? then fraction.value else "", amount)
  }

  ghost predicate Denotes(text: string, amount: int)
  {
    exists whole: string, fraction: Option<string> :: Spells(text, whole, fraction, amount)
  }

  // ---------------------------------------------------------------- lemmas

  lemma {:induction false} SplitNone(text: string)
    requires '.' !in text
    ensures Split(text, '.') == [text]
    decreases |text|
  {
    if text != "" {
      SplitNone(text[1..]);
      assert [text[0]] + text[1..] == text;
    }
  }

  lemma {:induction false} SplitOne(front: string, back: string)
    requires '.' !in front && '.' !in back
    ensures Split(front + "." + back, '.') == [front, back]
    decreases |front|
  {
    var text := front + "." + back;
    if front == "" {
      assert text[1..] == back;
      SplitNone(back);
    } else {
      assert text[1..] == front[1..] + "." + back;
      SplitOne(front[1..], back);
      assert [front[0]] + front[1..] == front;
    }
  }

  // Splitting loses nothing.
  lemma {:induction false} SplitJoins(text: string)
    ensures var parts := Split(text, '.');
      (|parts| == 1 ==> text == parts[0]) && (|parts| == 2 ==> text == parts[0] + "." + parts[1])
    decreases |text|
  {
    if text != "" {
      SplitJoins(text[1..]);
      assert text == [text[0]] + text[1..];
      var later := Split(text[1..], '.');
      var parts := Split(text, '.');
      if text[0] == '.' {
        if |parts| == 2 {
          assert parts[0] + "." + parts[1] == "." + later[0];
        }
      } else if |parts| == 2 {
        assert parts[0] + "." + parts[1] == [text[0]] + (later[0] + "." + later[1]);
      }
    }
  }

  lemma {:induction false} ValueOfShort(text: string)
    requires AllDigits(text) && |text| <= 2
    ensures |text| == 1 ==> Value(text) == (text[0] - '0') as int
    ensures |text| == 2 ==> Value(text) == 10 * (text[0] - '0') as int + (text[1] - '0') as int
  {
    if |text| >= 1 {
      assert Value("") == 0;
      assert text[..1][..0] == "" && text[..0] == "";
      assert Value(text[..1]) == (text[0] - '0') as int;
      if |text| == 1 {
        assert text[..1] == text;
      }
    }
  }

  lemma {:induction false} ZerosAre()
    ensures Zeros(0) == "" && Zeros(1) == "0" && Zeros(2) == "00"
  {
    assert Zeros(1) == "0" + Zeros(0);
    assert Zeros(2) == "0" + Zeros(1);
  }

  lemma {:induction false} PairReads(a: char, b: char)
    ensures ParseInt([a, b]) ==
      if IsDigit(a) && IsDigit(b) then Some(10 * (a - '0') as int + (b - '0') as int)
      else if a == '+' && IsDigit(b) then Some((b - '0') as int)
      else if a == '-' && IsDigit(b) then Some(-((b - '0') as int))
      else None
  {
    hide Value;
    var text := [a, b];
    var rest := text[1..];
    assert rest == [b] && rest[0] == b && text[0] == a && text[1] == b;
    assert AllDigits(rest) <==> IsDigit(b);
    assert AllDigits(text) <==> IsDigit(a) && IsDigit(b);
    if AllDigits(rest) { ValueOfShort(rest); }
    if AllDigits(text) { ValueOfShort(text); }
  }

  lemma {:induction false} ShortFractions(f: string)
    requires |f| <= 2
    ensures f == "" ==> IsFraction(f) && Cents(f) == 0
    ensures |f| == 1 ==>
      (IsFraction(f) <==> IsDigit(f[0]) || f[0] == '+' || f[0] == '-') &&
      (IsFraction(f) ==> Cents(f) == if IsDigit(f[0]) then 10 * (f[0] - '0') as int else 0)
    ensures |f| == 2 ==>
      (IsFraction(f) <==> (((IsDigit(f[0]) || f[0] == '+') && IsDigit(f[1])) || (f[0] == '-' && f[1] == '0'))) &&
      (IsFraction(f) && f[0] == '-' ==> Cents(f) == 0) &&
      (IsFraction(f) && f[0] == '+' ==> Cents(f) == (f[1] - '0') as int) &&
      (IsFraction(f) && IsDigit(f[0]) ==> Cents(f) == 10 * (f[0] - '0') as int + (f[1] - '0') as int)
  {
    hide Value;
    if |f| == 1 {
      assert f == [f[0]] && f[1..] == "";
      assert AllDigits(f) <==> IsDigit(f[0]);
      if AllDigits(f) { ValueOfShort(f); }
    } else if |f| == 2 {
      assert f == [f[0], f[1]] && f[1..] == [f[1]];
      assert AllDigits(f) <==> IsDigit(f[0]) && IsDigit(f[1]);
      assert AllDigits(f[1..]) <==> IsDigit(f[1]);
      if AllDigits(f) { ValueOfShort(f); }
      if AllDigits(f[1..]) { ValueOfShort(f[1..]); }
    }
  }

  // Padding and reading the digits after the point.
  lemma {:induction false} FractionReads(f: string)
    requires |f| <= 2
    ensures var fen := ParseInt(f + Zeros(2 - |f|));
      (IsFraction(f) ==> fen == Some(Cents(f)) && Cents(f) < 100) &&
      (!IsFraction(f) ==> fen == None || -10 < fen.value < 0)
  {
    hide IsFraction, Cents, ParseInt;
    ZerosAre();
    ShortFractions(f);
    if f == "" {
      assert f + Zeros(2) == ['0', '0'];
      PairReads('0', '0');
    } else {
      var last := if |f| == 2 then f[1] else '0';
      assert f + Zeros(2 - |f|) == [f[0], last];
      PairReads(f[0], last);
    }
  }

  lemma {:induction false} NoDots(text: string)
    ensures AllDigits(text) ==> '.' !in text
    ensures IsWhole(text) ==> '.' !in text
    ensures IsFraction(text) ==> '.' !in text
  {
    if IsWhole(text) && text[0] == '+' {
      assert text == ['+'] + text[1..];
    }
    if IsFraction(text) && text != "" && text[0] == '+' {
      assert text == ['+'] + text[1..];
    }
  }

  // Before the point: nothing but what IsWhole says is read, unless the number is negative.
  lemma {:induction false} WholeReads(whole: string)
    requires whole != "" ==> whole[0] != '-'
    ensures ParseInt(whole) ==
      if IsWhole(whole) && Value(Unsigned(whole)) <= MAX_INT64 then Some(Value(Unsigned(whole))) else None
  {
  }

  // On an unsigned amount with at most two decimals the whole computation agrees with exact
  // arithmetic: none of its int64 operations wraps. A minus sign before a non-zero digit after
  // the point is always refused, and only because the headroom computation wraps.
  lemma {:induction false} CombinesExactly(yuan: Int64, fen: Int64)
    requires 0 <= yuan <= Quotient(MAX_INT64, 100) && -10 < fen < 100
    ensures fen >= 0 ==>
      Wrap(MAX_INT64 - fen) == MAX_INT64 - fen && Wrap(yuan * 100) == yuan * 100 &&
      (if yuan * 100 + fen <= MAX_INT64 then Combine(yuan, fen) == Ok(yuan * 100 + fen) else Combine(yuan, fen).Err?)
    ensures fen < 0 ==> Wrap(MAX_INT64 - fen) < 0 && Combine(yuan, fen).Err?
  {
    hide Wrap;
    if fen >= 0 {
      InRangeStays(MAX_INT64 - fen);
      InRangeStays(yuan * 100);
      if yuan * 100 + fen <= MAX_INT64 {
        InRangeStays(yuan * 100 + fen);
      }
    } else {
      JustOverWraps(-fen);
    }
  }

  lemma {:induction false} InRangeStays(x: int)
    requires -MAX_INT64 - 1 <= x <= MAX_INT64
    ensures Wrap(x) == x
  {
  }

  lemma {:induction false} JustOverWraps(over: int)
    requires 0 < over < 10
    ensures Wrap(MAX_INT64 + over) == -MAX_INT64 - 2 + over
  {
    assert (2 * (MAX_INT64 + 1) + over - 1) % (2 * (MAX_INT64 + 1)) == over - 1;
  }

  lemma {:induction false} PartsExactly(whole: string, fraction: string, amount: int)
    requires whole != "" ==> whole[0] != '-'
    ensures (ParseParts(whole, fraction).Ok? && ParseParts(whole, fraction).value == amount)
       <==> (SpellsParts(whole, fraction, amount) && amount <= MAX_INT64)
  {
    hide Value, ParseInt, IsWhole, IsFraction, Cents, Combine, Wrap, Zeros;
    WholeReads(whole);
    if |fraction| <= 2 {
      FractionReads(fraction);
      var yuan, fen := ParseInt(whole), ParseInt(fraction + Zeros(2 - |fraction|));
      if yuan.Some? && yuan.value <= Quotient(MAX_INT64, 100) && fen.Some? {
        CombinesExactly(yuan.value, fen.value);
      }
    } else {
      LongIsNoFraction(fraction);
    }
  }

  lemma {:induction false} LongIsNoFraction(fraction: string)
    requires |fraction| > 2
    ensures !IsFraction(fraction)
  {
  }

  lemma {:induction false} ReadsDenoted(value: string, whole: string, fraction: Option<string>, amount: int)
    requires TrimSpace(value) == value && Spells(value, whole, fraction, amount)
    ensures amount <= MAX_INT64 ==> ParseYuanToFen(value) == Ok(amount)
    ensures amount > MAX_INT64 ==> ParseYuanToFen(value).Err?
  {
    hide TrimSpace, ParseParts, IsFraction, Cents, Value;
    var f := if fraction.Some? then fraction.value else "";
    NoDots(whole);
    NoDots(f);
    assert value[0] == whole[0];
    if fraction.Some? {
      assert value == whole + "." + f;
      SplitOne(whole, f);
    } else {
      assert value == whole;
      SplitNone(whole);
    }
    PartsExactly(whole, f, amount);
    if ParseParts(whole, f).Ok? {
      PartsExactly(whole, f, ParseParts(whole, f).value);
    }
  }

  lemma {:induction false} DenotesRead(value: string)
    requires TrimSpace(value) == value && ParseYuanToFen(value).Ok?
    ensures Denotes(value, ParseYuanToFen(value).value)
    ensures ParseYuanToFen(value).value <= MAX_INT64
  {
    hide TrimSpace, ParseParts, SpellsParts, Split;
    var parts := Split(value, '.');
    SplitJoins(value);
    var f := if |parts| == 2 then parts[1] else "";
    var amount := ParseYuanToFen(value).value;
    assert ParseParts(parts[0], f) == Ok(amount);
    PartsExactly(parts[0], f, amount);
    assert Spells(value, parts[0], if |parts| == 2 then Some(f) else None, amount);
  }

  // Reading is exact: a text is accepted exactly when what stands between the white space at its
  // ends denotes an amount of fen that an int64 holds, and then that amount is the result.
  lemma {:induction false} ParsesExactly(text: string, amount: int)
    ensures (ParseYuanToFen(text).Ok? && ParseYuanToFen(text).value == amount)
       <==> (amount <= MAX_INT64 && exists core :: Stripped(text, core, IsSpace) && Denotes(core, amount))
  {
    hide Stripped, Strip, Denotes;
    forall core ensures Stripped(text, core, IsSpace) <==> core == TrimSpace(text) {
      StripExactly(text, core, IsSpace);
    }
    TrimmedExactly(text, amount);
  }

  lemma {:induction false} TrimmedExactly(text: string, amount: int)
    ensures (ParseYuanToFen(text).Ok? && ParseYuanToFen(text).value == amount)
       <==> (Denotes(TrimSpace(text), amount) && amount <= MAX_INT64)
  {
    hide ParseParts, Split, Strip;
    var value := TrimSpace(text);
    StripTwice(text, IsSpace);
    assert ParseYuanToFen(value) == ParseYuanToFen(text);
    hide ParseYuanToFen, Spells, TrimSpace;
    if ParseYuanToFen(text).Ok? {
      DenotesRead(value);
    }
    if Denotes(value, amount) && amount <= MAX_INT64 {
      var whole, fraction :| Spells(value, whole, fraction, amount);
      ReadsDenoted(value, whole, fraction, amount);
    }
  }

  lemma {:induction false} NoSpaceNoTrim(text: string)
    requires text != "" && !IsSpace(text[0]) && !IsSpace(text[|text| - 1])
    ensures TrimSpace(text) == text
  {
  }

  lemma {:induction false} CentsPrinted(r: nat)
    requires r < 100
    ensures TwoWide(r) != "" && IsFraction(TwoWide(r)) && Cents(TwoWide(r)) == r
    ensures !IsSpace(TwoWide(r)[|TwoWide(r)| - 1])
  {
    hide Value, IsFraction, Cents, IsSpace;
    DecimalReads(r);
    DecimalWidth(r);
    ValueOfShort(Decimal(r));
    ShortFractions(TwoWide(r));
    DigitNoSpace(TwoWide(r)[|TwoWide(r)| - 1]);
  }

  // White space as Unicode lists it.
  lemma {:induction false} SpacesExactly(c: char)
    ensures IsSpace(c) <==>
      c in "\U{0009}\U{000A}\U{000B}\U{000C}\U{000D}\U{0020}\U{0085}\U{00A0}\U{1680}"
           + "\U{2000}\U{2001}\U{2002}\U{2003}\U{2004}\U{2005}\U{2006}\U{2007}\U{2008}\U{2009}\U{200A}"
           + "\U{2028}\U{2029}\U{202F}\U{205F}\U{3000}"
  {
  }

  lemma {:induction false} DigitNoSpace(c: char)
    ensures IsDigit(c) || c == '-' || c == '+' ==> !IsSpace(c)
  {
  }

  lemma {:induction false} RoundTrip(n: Int64)
    requires n >= 0
    ensures ParseYuanToFen(FormatFen(n)) == Ok(n)
  {
    hide Value, IsFraction, Cents, IsSpace, TwoWide, ParseYuanToFen, TrimSpace, Decimal;
    var q, r := Quotient(n, 100), Remainder(n, 100);
    var text := FormatFen(n);
    DecimalReads(q);
    CentsPrinted(r);
    assert text == Decimal(q) + ("." + TwoWide(r));
    assert text[|text| - 1] == TwoWide(r)[|TwoWide(r)| - 1];
    DigitNoSpace(text[0]);
    NoSpaceNoTrim(text);
    assert Unsigned(Decimal(q)) == Decimal(q);
    ReadsDenoted(text, Decimal(q), Some(TwoWide(r)), n);
  }

  lemma {:induction false} NegativeFraction(r: int)
    requires -100 < r < 0
    ensures !IsFraction(TwoWide(r)) && '.' !in TwoWide(r) && TwoWide(r) != ""
    ensures !IsSpace(TwoWide(r)[|TwoWide(r)| - 1])
  {
    hide Value, IsFraction, Cents, IsSpace;
    DecimalReads(-r);
    DecimalWidth(-r);
    ValueOfShort(Decimal(-r));
    NoDots(Decimal(-r));
    DigitNoSpace(TwoWide(r)[|TwoWide(r)| - 1]);
    if |TwoWide(r)| == 2 {
      ShortFractions(TwoWide(r));
    } else {
      LongIsNoFraction(TwoWide(r));
    }
  }

  lemma {:induction false} NegativeRefused(n: Int64)
    requires n < 0
    ensures ParseYuanToFen(FormatFen(n)).Err?
  {
    hide Value, IsFraction, Cents, IsSpace, TwoWide, TrimSpace, Decimal, Split, ParseParts;
    var q, r := Quotient(n, 100), Remainder(n, 100);
    var text := FormatFen(n);
    TwoWideEnds(r);
    if q < 0 {
      assert text[0] == '-' && text[|text| - 1] == TwoWide(r)[|TwoWide(r)| - 1];
      DigitNoSpace('-');
      NoSpaceNoTrim(text);
    } else {
      var cents := TwoWide(r);
      NegativeFraction(r);
      ZeroPrinted();
      assert text == "0" + "." + cents && text[0] == '0' && text[|text| - 1] == cents[|cents| - 1];
      DigitNoSpace('0');
      NoSpaceNoTrim(text);
      SplitOne("0", cents);
      if ParseParts("0", cents).Ok? {
        PartsExactly("0", cents, ParseParts("0", cents).value);
      }
    }
  }

  lemma {:induction false} ZeroPrinted()
    ensures Signed(0) == "0"
  {
  }

  // Reading back a printed amount gives the amount for every n >= 0 and an error for every
  // negative one.
  lemma {:induction false} RoundTripExactly(n: Int64)
    ensures ParseYuanToFen(FormatFen(n)) == Ok(n) <==> n >= 0
    ensures ParseYuanToFen(FormatFen(n)).Err? <==> n < 0
  {
    if n >= 0 {
      RoundTrip(n);
    } else {
      NegativeRefused(n);
    }
  }

  lemma {:induction false} DecimalWidth(n: nat)
    requires n < 100
    ensures |Decimal(n)| == if n < 10 then 1 else 2
  {
  }

  lemma {:induction false} TwoWideEnds(r: int)
    requires -100 < r <= 0
    ensures TwoWide(r) != "" && !IsSpace(TwoWide(r)[|TwoWide(r)| - 1])
  {
    DecimalReads(-r);
    DecimalReads(0);
  }
}
