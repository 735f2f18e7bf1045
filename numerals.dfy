/** Chinese numeral conversion (`convert_chinese_numbers` and its helper
    `_parse_cn`): every run of numeral characters, optionally preceded by
    `第`, is replaced by its value in ASCII decimal when the run parses to a
    number, and left alone otherwise. */
module Numerals {
  import opened Text
  import opened Outcome

  /** `digit_map` */
  function DigitValue(c: char): Option<nat> {
    match c
    case '零' => Some(0)
    case '〇' => Some(0)
    case '一' => Some(1)
    case '二' => Some(2)
    case '三' => Some(3)
    case '四' => Some(4)
    case '五' => Some(5)
    case '六' => Some(6)
    case '七' => Some(7)
    case '八' => Some(8)
    case '九' => Some(9)
    case _ => None
  }

  /** `unit_map` */
  function UnitValue(c: char): Option<nat> {
    match c
    case '十' => Some(10)
    case '百' => Some(100)
    case '千' => Some(1000)
    case '万' => Some(10000)
    case '亿' => Some(100000000)
    case _ => None
  }

  /** The character class of the pattern `[零〇一二三四五六七八九十百千万亿]`. */
  predicate IsNumeral(c: char) {
    DigitValue(c).Some? || UnitValue(c).Some?
  }

  /** The three variables of the parsing loop. */
  datatype Acc = Acc(total: nat, temp: nat, lastUnit: nat)

  const Start: Acc := Acc(0, 0, 1)

  /** One iteration of the parsing loop: a digit replaces the pending digit;
      a unit larger than the last one scales everything read so far, any
      other unit adds the pending digit times the unit. */
  function Step(a: Acc, c: char): Acc {
    if DigitValue(c).Some? then a.(temp := DigitValue(c).value)
    else if UnitValue(c).Some? then
      var u := UnitValue(c).value;
      if u > a.lastUnit then Acc((a.total + a.temp) * u, 0, u)
      else Acc(a.total + a.temp * u, 0, u)
    else a
  }

  /** The loop run over `s` from `a`, one character at a time. */
  function Run(a: Acc, s: String): Acc
    decreases |s|
  {
    if s == [] then a else Step(Run(a, s[..|s| - 1]), s[|s| - 1])
  }

  /** A leading `十` is read as `一十`. */
  function Prepared(cn: String): String {
    if cn != [] && cn[0] == '十' then ['一'] + cn else cn
  }

  /** `_parse_cn`: `None` for the empty run and for every run whose value is
      zero, apart from a lone zero digit. */
  function ParseCn(cn: String): (r: Option<nat>)
    ensures r.Some? ==> r.value > 0 || (|cn| == 1 && DigitValue(cn[0]) == Some(0))
    ensures cn == [] ==> r.None?
  {
    if cn == [] then None
    else if |cn| == 1 && DigitValue(cn[0]).Some? then DigitValue(cn[0])
    else
      var a := Run(Start, Prepared(cn));
      if a.total + a.temp > 0 then Some(a.total + a.temp) else None
  }

  /** `_parse_cn`, with its loop in `ReadNumerals`. */
  method ParseChineseNumber(cn: String) returns (r: Option<nat>)
    ensures r == ParseCn(cn)
  {
    if cn == [] {
      return None;
    }
    if |cn| == 1 && DigitValue(cn[0]).Some? {
      return DigitValue(cn[0]);
    }
    var s := cn;
    if s[0] == '十' {
      s := ['一'] + s;
    }
    var total, temp, lastUnit := ReadNumerals(s);
    total := total + temp;
    if total > 0 {
      r := Some(total);
    } else {
      r := None;
    }
  }

  /** The loop of `_parse_cn` over the prepared run. */
  method ReadNumerals(s: String) returns (total: nat, temp: nat, lastUnit: nat)
    ensures Run(Start, s) == Acc(total, temp, lastUnit)
  {
    total, temp, lastUnit := 0, 0, 1;
    var i := 0;
    while i < |s|
      invariant 0 <= i <= |s|
      invariant Run(Start, s[..i]) == Acc(total, temp, lastUnit)
    {
      RunSnoc(Start, s, i);
      var c := s[i];
      if DigitValue(c).Some? {
        temp := DigitValue(c).value;
      } else if UnitValue(c).Some? {
        var u := UnitValue(c).value;
        if u > lastUnit {
          total := (total + temp) * u;
        } else {
          total := total + temp * u;
        }
        temp := 0;
        lastUnit := u;
      }
      i := i + 1;
    }
    assert s[..|s|] == s;
  }

  // ---------------------------------------------------------------------
  // Decimal output: `str(n)`

  function AsciiDigit(d: nat): char
    requires d <= 9
  {
    ('0' as int + d) as char
  }

  /** `str(n)` */
  function Decimal(n: nat): String
    decreases n
  {
    if n < 10 then [AsciiDigit(n)] else Decimal(n / 10) + [AsciiDigit(n % 10)]
  }

  /** The number an ASCII decimal string denotes. */
  function DecimalValue(s: String): nat
    decreases |s|
  {
    if s == [] then 0
    else
      var c := s[|s| - 1];
      DecimalValue(s[..|s| - 1]) * 10 + (if '0' <= c <= '9' then c as int - '0' as int else 0)
  }

  /** `str(n)` is made of ASCII digits, starts with `0` only for zero and
      denotes `n`. */
  lemma {:induction false} DecimalRoundTrip(n: nat)
    ensures var s := Decimal(n);
      && s != []
      && (forall i :: 0 <= i < |s| ==> '0' <= s[i] <= '9')
      && (s[0] == '0' <==> n == 0)
      && DecimalValue(s) == n
    decreases n
  {
    if n >= 10 {
      DecimalRoundTrip(n / 10);
      var s := Decimal(n);
      assert s[..|s| - 1] == Decimal(n / 10);
      assert s[0] == Decimal(n / 10)[0];
    }
  }

  // ---------------------------------------------------------------------
  // The substitution

  /** The longest prefix of `t` made of numeral characters. */
  function NumeralRun(t: String): (r: String)
    ensures |r| <= |t|
    decreases |t|
  {
    if t != [] && IsNumeral(t[0]) then [t[0]] + NumeralRun(t[1..]) else []
  }

  /** `parse_number` on one match: the parsed value (after the `第` kept in
      front of it) or the match itself. */
  function Rewrite(ordinal: bool, cn: String): String {
    match ParseCn(cn)
    case Some(v) => (if ordinal then "第" else "") + Decimal(v)
    case None => (if ordinal then "第" else "") + cn
  }

  /** `re.sub(r'第?[零〇一二三四五六七八九十百千万亿]+', parse_number, t)`. A `第`
      belongs to the match only when a numeral follows it. */
  function ConvertNumbers(t: String): String
    decreases |t|
  {
    if t == [] then []
    else if t[0] == '第' && |t| > 1 && IsNumeral(t[1]) then
      var run := NumeralRun(t[1..]);
      Rewrite(true, run) + ConvertNumbers(t[1 + |run|..])
    else if IsNumeral(t[0]) then
      var run := NumeralRun(t);
      Rewrite(false, run) + ConvertNumbers(t[|run|..])
    else [t[0]] + ConvertNumbers(t[1..])
  }

  lemma ConvertPlain(t: String)
    requires t != [] && !IsNumeral(t[0]) && t[0] != '第'
    ensures ConvertNumbers(t) == [t[0]] + ConvertNumbers(t[1..])
  {
  }

  lemma ConvertAtRun(t: String)
    requires t != [] && IsNumeral(t[0])
    ensures ConvertNumbers(t) == Rewrite(false, NumeralRun(t)) + ConvertNumbers(t[|NumeralRun(t)|..])
  {
    assert t[0] != '第';
  }

  lemma ConvertAtOrdinal(t: String)
    requires |t| > 1 && t[0] == '第' && IsNumeral(t[1])
    ensures ConvertNumbers(t) == Rewrite(true, NumeralRun(t[1..])) + ConvertNumbers(t[1 + |NumeralRun(t[1..])|..])
  {
  }

  /** A text without numeral characters is left unchanged. */
  lemma {:induction false} NoNumeralsUnchanged(t: String)
    requires forall i :: 0 <= i < |t| ==> !IsNumeral(t[i])
    ensures ConvertNumbers(t) == t
    decreases |t|
  {
    if t != [] {
      if t[0] == '第' {
        assert ConvertNumbers(t) == [t[0]] + ConvertNumbers(t[1..]);
      } else {
        ConvertPlain(t);
      }
      NoNumeralsUnchanged(t[1..]);
      assert t == [t[0]] + t[1..];
    }
  }

  /** Text without numerals in front of a run is copied. */
  lemma {:induction false} ConvertPlainPrefix(a: String, b: String)
    requires forall i :: 0 <= i < |a| ==> !IsNumeral(a[i]) && a[i] != '第'
    ensures ConvertNumbers(a + b) == a + ConvertNumbers(b)
    decreases |a|
  {
    if a == [] {
      assert a + b == b;
    } else {
      ConvertPlainStep(a, b);
      ConvertPlainPrefix(a[1..], b);
      ConsAppend(a, ConvertNumbers(b));
    }
  }

  lemma ConvertPlainStep(a: String, b: String)
    requires a != [] && !IsNumeral(a[0]) && a[0] != '第'
    ensures ConvertNumbers(a + b) == [a[0]] + ConvertNumbers(a[1..] + b)
  {
    var t := a + b;
    assert t[0] == a[0];
    ConvertPlain(t);
    assert t[1..] == a[1..] + b;
  }

  /** A run of numerals that parses is replaced by its value; a run that
      does not parse is kept. */
  lemma ConvertRun(run: String, b: String)
    requires run != [] && (forall i :: 0 <= i < |run| ==> IsNumeral(run[i]))
    requires b == [] || !IsNumeral(b[0])
    ensures ConvertNumbers(run + b) == Rewrite(false, run) + ConvertNumbers(b)
  {
    RunOfRun(run, b);
    var t := run + b;
    assert t[0] == run[0];
    ConvertAtRun(t);
    assert t[|run|..] == b;
  }

  lemma ConvertOrdinalRun(run: String, b: String)
    requires run != [] && (forall i :: 0 <= i < |run| ==> IsNumeral(run[i]))
    requires b == [] || !IsNumeral(b[0])
    ensures ConvertNumbers("第" + run + b) == Rewrite(true, run) + ConvertNumbers(b)
  {
    RunOfRun(run, b);
    var t := "第" + run + b;
    assert t[1..] == run + b;
    assert t[1] == run[0];
    ConvertAtOrdinal(t);
    assert t[1 + |run|..] == b;
  }

  lemma {:induction false} RunOfRun(run: String, b: String)
    requires forall i :: 0 <= i < |run| ==> IsNumeral(run[i])
    requires b == [] || !IsNumeral(b[0])
    ensures NumeralRun(run + b) == run
    decreases |run|
  {
    if run == [] {
      assert run + b == b;
    } else {
      assert (run + b)[0] == run[0];
      assert (run + b)[1..] == run[1..] + b;
      RunOfRun(run[1..], b);
      assert run == [run[0]] + run[1..];
    }
  }

  // ---------------------------------------------------------------------
  // What `_parse_cn` computes

  lemma {:induction false} RunAppend(a: Acc, s: String, t: String)
    ensures Run(a, s + t) == Run(Run(a, s), t)
    decreases |t|
  {
    if t == [] {
      assert s + t == s;
    } else {
      assert (s + t)[..|s + t| - 1] == s + t[..|t| - 1];
      RunAppend(a, s, t[..|t| - 1]);
    }
  }

  lemma RunSnoc(a: Acc, s: String, i: nat)
    requires i < |s|
    ensures Run(a, s[..i + 1]) == Step(Run(a, s[..i]), s[i])
  {
    assert s[..i + 1][..i] == s[..i];
  }

  lemma RunPair(a: Acc, c: char, d: char)
    ensures Run(a, [c, d]) == Step(Step(a, c), d)
  {
    assert [c, d][..1] == [c];
    RunOne(a, c);
  }

  lemma RunOne(a: Acc, c: char)
    ensures Run(a, [c]) == Step(a, c)
  {
    assert [c][..0] == [];
  }

  /** A run made only of digits keeps the last digit and loses the others. */
  lemma {:induction false} DigitsKeepLast(s: String)
    requires s != [] && forall i :: 0 <= i < |s| ==> DigitValue(s[i]).Some?
    ensures Run(Start, s) == Acc(0, DigitValue(s[|s| - 1]).value, 1)
    decreases |s|
  {
    if |s| > 1 {
      DigitsKeepLast(s[..|s| - 1]);
    } else {
      assert s[..0] == [];
    }
  }

  /** `_parse_cn` reads a run of two or more plain digits as its last digit
      alone (`一二三` is 3), and as nothing when that digit is zero. */
  lemma DigitRunValue(s: String)
    requires |s| >= 2 && forall i :: 0 <= i < |s| ==> DigitValue(s[i]).Some?
    ensures var d := DigitValue(s[|s| - 1]).value; ParseCn(s) == if d > 0 then Some(d) else None
  {
    assert DigitValue(s[0]).Some?;
    DigitsKeepLast(s);
  }

  /** The canonical reading of `n` in 1..9999 below a higher unit: digits
      with their units, one `零` for each gap, `一十` spelled out. */
  function Lead(n: nat): String
    requires 0 < n < 10000
    decreases n, 0
  {
    if n >= 1000 then [DigitChar(n / 1000), '千'] + Gap(n % 1000, 1000)
    else if n >= 100 then [DigitChar(n / 100), '百'] + Gap(n % 100, 100)
    else if n >= 10 then [DigitChar(n / 10), '十'] + Gap(n % 10, 10)
    else [DigitChar(n)]
  }

  /** What follows the unit `u`: nothing, or the rest of the number, with a
      `零` when the next digit position is skipped. */
  function Gap(r: nat, u: nat): String
    requires r < u && (u == 10 || u == 100 || u == 1000)
    decreases r, 1
  {
    if r == 0 then []
    else if r * 10 >= u then Lead(r)
    else ['零'] + Lead(r)
  }

  function DigitChar(d: nat): char
    requires d <= 9
  {
    match d
    case 0 => '零'
    case 1 => '一'
    case 2 => '二'
    case 3 => '三'
    case 4 => '四'
    case 5 => '五'
    case 6 => '六'
    case 7 => '七'
    case 8 => '八'
    case _ => '九'
  }

  lemma DigitCharValue(d: nat)
    requires d <= 9
    ensures DigitValue(DigitChar(d)) == Some(d) && UnitValue(DigitChar(d)).None?
  {
  }

  lemma StepDigit(a: Acc, c: char)
    requires DigitValue(c).Some?
    ensures Step(a, c) == a.(temp := DigitValue(c).value)
  {
  }

  lemma StepUnit(a: Acc, c: char, u: nat)
    requires UnitValue(c) == Some(u)
    ensures DigitValue(c).None?
    ensures u > a.lastUnit ==> Step(a, c) == Acc((a.total + a.temp) * u, 0, u)
    ensures u <= a.lastUnit ==> Step(a, c) == Acc(a.total + a.temp * u, 0, u)
  {
  }

  lemma RunPrefixPair(a: Acc, c: char, d: char, rest: String)
    ensures Run(a, [c, d] + rest) == Run(Step(Step(a, c), d), rest)
  {
    RunAppend(a, [c, d], rest);
    RunPair(a, c, d);
  }

  lemma StepHead(a: Acc, digit: char, d: nat, unit: char, u: nat)
    requires DigitValue(digit) == Some(d) && UnitValue(unit) == Some(u)
    requires a.temp == 0 && (a.total == 0 || u <= a.lastUnit)
    ensures Step(Step(a, digit), unit) == Acc(a.total + d * u, 0, u)
  {
    StepDigit(a, digit);
    var a1 := a.(temp := d);
    StepUnit(a1, unit, u);
    if u > a.lastUnit {
      assert a.total == 0;
      assert (a.total + d) * u == a.total + d * u;
    }
  }

  /** A digit then its unit, read when nothing is pending: the digit times
      the unit is added, as long as the unit does not exceed the last one
      (or nothing has been read yet). */
  lemma RunHead(a: Acc, digit: char, d: nat, unit: char, u: nat, rest: String)
    requires DigitValue(digit) == Some(d) && UnitValue(unit) == Some(u)
    requires a.temp == 0 && (a.total == 0 || u <= a.lastUnit)
    ensures Run(a, [digit, unit] + rest) == Run(Acc(a.total + d * u, 0, u), rest)
  {
    RunPrefixPair(a, digit, unit, rest);
    StepHead(a, digit, d, unit, u);
  }

  /** The parsing loop adds the value of a canonical reading to its total,
      provided the reading's units stay below the last unit seen (or nothing
      has been read yet). */
  lemma {:induction false} RunLead(a: Acc, n: nat)
    requires 0 < n < 10000 && a.temp == 0 && a.lastUnit >= 1
    requires a.total == 0 || n < a.lastUnit
    ensures var b := Run(a, Lead(n));
      b.total + b.temp == a.total + n && 1 <= b.lastUnit && (b.lastUnit == a.lastUnit || b.lastUnit <= n)
    decreases n, 1
  {
    if n >= 1000 {
      RunLeadStep(a, n, n / 1000, n % 1000, '千', 1000);
    } else if n >= 100 {
      RunLeadStep(a, n, n / 100, n % 100, '百', 100);
    } else if n >= 10 {
      RunLeadStep(a, n, n / 10, n % 10, '十', 10);
    } else {
      DigitCharValue(n);
      RunOne(a, DigitChar(n));
      StepDigit(a, DigitChar(n));
    }
  }

  lemma {:induction false} RunLeadStep(a: Acc, n: nat, d: nat, r: nat, unit: char, u: nat)
    requires 0 < n < 10000 && a.temp == 0 && a.lastUnit >= 1
    requires a.total == 0 || n < a.lastUnit
    requires u == 10 || u == 100 || u == 1000
    requires 1 <= d <= 9 && r < u <= n && n == d * u + r && UnitValue(unit) == Some(u)
    ensures var b := Run(a, [DigitChar(d), unit] + Gap(r, u));
      b.total + b.temp == a.total + n && 1 <= b.lastUnit && (b.lastUnit == a.lastUnit || b.lastUnit <= n)
    decreases n, 0
  {
    DigitCharValue(d);
    var t := a.total + d * u;
    RunHead(a, DigitChar(d), d, unit, u, Gap(r, u));
    RunGap(Acc(t, 0, u), r, u);
  }

  lemma {:induction false} RunGap(a: Acc, r: nat, u: nat)
    requires r < u && (u == 10 || u == 100 || u == 1000)
    requires a.temp == 0 && u <= a.lastUnit
    ensures var b := Run(a, Gap(r, u));
      b.total + b.temp == a.total + r && 1 <= b.lastUnit <= a.lastUnit
    decreases r, 2
  {
    if r == 0 {
    } else if r * 10 >= u {
      RunLead(a, r);
    } else {
      RunAppend(a, ['零'], Lead(r));
      RunOne(a, '零');
      assert Step(a, '零') == a;
      RunLead(a, r);
    }
  }

  /** The canonical reading of `n` in 1..9999, with the colloquial `十` for
      10..19. */
  function Reading4(n: nat): String
    requires 0 < n < 10000
  {
    if 10 <= n < 20 then ['十'] + Gap(n - 10, 10) else Lead(n)
  }

  /** The canonical reading of `n` in 1..99999999, grouping by `万`. */
  function Reading(n: nat): String
    requires 0 < n < 100000000
  {
    if n < 10000 then Reading4(n)
    else Reading4(n / 10000) + (['万'] + LowGroup(n % 10000))
  }

  function LowGroup(lo: nat): String
    requires lo < 10000
  {
    if lo == 0 then [] else if lo < 1000 then ['零'] + Lead(lo) else Lead(lo)
  }

  lemma RunLowGroup(a: Acc, lo: nat)
    requires lo < 10000 && a.temp == 0 && a.lastUnit == 10000
    ensures var b := Run(a, LowGroup(lo)); b.total + b.temp == a.total + lo
  {
    if lo >= 1000 {
      RunLead(a, lo);
    } else if lo > 0 {
      RunAppend(a, ['零'], Lead(lo));
      RunOne(a, '零');
      assert Step(a, '零') == a;
      RunLead(a, lo);
    }
  }

  lemma Reading4Prepared(n: nat)
    requires 0 < n < 10000
    ensures Prepared(Reading4(n)) == Lead(n)
    ensures Reading4(n) != [] && (|Reading4(n)| == 1 ==> n < 10 || n == 10)
  {
    if 10 <= n < 20 {
      assert Lead(n) == [DigitChar(1), '十'] + Gap(n % 10, 10);
    } else {
      DigitCharValue(if n >= 1000 then n / 1000 else if n >= 100 then n / 100 else if n >= 10 then n / 10 else n);
    }
  }

  lemma ParseSmallReading(n: nat)
    requires 0 < n < 10000
    ensures ParseCn(Reading4(n)) == Some(n)
  {
    Reading4Prepared(n);
    if n < 10 {
      DigitCharValue(n);
    } else {
      RunLead(Start, n);
      if n == 10 {
        assert Reading4(n) == ['十'];
      }
    }
  }

  /** The upper group followed by `万` leaves exactly its value times ten
      thousand in the total. */
  lemma RunHighGroup(hi: nat)
    requires 0 < hi < 10000
    ensures Run(Run(Start, Lead(hi)), ['万']) == Acc(hi * 10000, 0, 10000)
  {
    RunLead(Start, hi);
    var a1 := Run(Start, Lead(hi));
    RunOne(a1, '万');
    StepUnit(a1, '万', 10000);
  }

  lemma PreparedAppend(x: String, y: String)
    requires x != []
    ensures Prepared(x + y) == Prepared(x) + y
  {
    assert (x + y)[0] == x[0];
  }

  lemma RunGroups(hi: nat, lo: nat)
    requires 0 < hi < 10000 && lo < 10000
    ensures var b := Run(Start, Lead(hi) + (['万'] + LowGroup(lo))); b.total + b.temp == hi * 10000 + lo
  {
    RunAppend(Start, Lead(hi), ['万'] + LowGroup(lo));
    RunAppend(Run(Start, Lead(hi)), ['万'], LowGroup(lo));
    RunHighGroup(hi);
    RunLowGroup(Acc(hi * 10000, 0, 10000), lo);
  }

  lemma ParseGroups(hi: nat, lo: nat, n: nat)
    requires 0 < hi < 10000 && lo < 10000 && n == hi * 10000 + lo
    ensures ParseCn(Reading4(hi) + (['万'] + LowGroup(lo))) == Some(n)
  {
    var rest := ['万'] + LowGroup(lo);
    var cn := Reading4(hi) + rest;
    Reading4Prepared(hi);
    PreparedAppend(Reading4(hi), rest);
    assert Prepared(cn) == Lead(hi) + rest;
    RunGroups(hi, lo);
    assert |cn| > 1;
  }

  lemma ReadingGroups(n: nat)
    requires 10000 <= n < 100000000
    ensures 0 < n / 10000 < 10000 && n % 10000 < 10000 && n == n / 10000 * 10000 + n % 10000
    ensures Reading(n) == Reading4(n / 10000) + (['万'] + LowGroup(n % 10000))
  {
  }

  lemma ParseLargeReading(n: nat)
    requires 10000 <= n < 100000000
    ensures ParseCn(Reading(n)) == Some(n)
  {
    var hi, lo := n / 10000, n % 10000;
    ReadingGroups(n);
    ParseGroups(hi, lo, n);
  }

  /** Parsing a canonical reading gives back the number: `_parse_cn` is a
      left inverse of the reading for every number below one hundred
      million. */
  lemma ParseReading(n: nat)
    requires 0 < n < 100000000
    ensures ParseCn(Reading(n)) == Some(n)
  {
    if n < 10000 {
      ParseSmallReading(n);
    } else {
      ParseLargeReading(n);
    }
  }

  /** Each canonical reading is a run of numerals. */
  lemma {:induction false} LeadNumerals(n: nat)
    requires 0 < n < 10000
    ensures forall i :: 0 <= i < |Lead(n)| ==> IsNumeral(Lead(n)[i])
    decreases n, 0
  {
    if n >= 1000 {
      GapNumerals(n % 1000, 1000);
    } else if n >= 100 {
      GapNumerals(n % 100, 100);
    } else if n >= 10 {
      GapNumerals(n % 10, 10);
    }
  }

  lemma {:induction false} GapNumerals(r: nat, u: nat)
    requires r < u && (u == 10 || u == 100 || u == 1000)
    ensures forall i :: 0 <= i < |Gap(r, u)| ==> IsNumeral(Gap(r, u)[i])
    decreases r, 1
  {
    if r > 0 {
      LeadNumerals(r);
    }
  }

  lemma Reading4Numerals(n: nat)
    requires 0 < n < 10000
    ensures Reading4(n) != [] && forall i :: 0 <= i < |Reading4(n)| ==> IsNumeral(Reading4(n)[i])
  {
    Reading4Prepared(n);
    if 10 <= n < 20 {
      GapNumerals(n - 10, 10);
    } else {
      LeadNumerals(n);
    }
  }

  lemma ReadingNumerals(n: nat)
    requires 0 < n < 100000000
    ensures Reading(n) != [] && forall i :: 0 <= i < |Reading(n)| ==> IsNumeral(Reading(n)[i])
  {
    if n < 10000 {
      Reading4Numerals(n);
    } else {
      Reading4Numerals(n / 10000);
      var lo := n % 10000;
      if lo > 0 {
        LeadNumerals(lo);
      }
    }
  }

  /** A canonical reading at the head of the text is replaced by the number
      in ASCII decimal, with `第` kept in front of an ordinal; what precedes
      it is copied by `ConvertPlainPrefix`. */
  lemma ConvertReading(n: nat, b: String)
    requires 0 < n < 100000000
    requires b == [] || !IsNumeral(b[0])
    ensures ConvertNumbers(Reading(n) + b) == Decimal(n) + ConvertNumbers(b)
    ensures ConvertNumbers("第" + Reading(n) + b) == "第" + Decimal(n) + ConvertNumbers(b)
  {
    var run := Reading(n);
    ReadingNumerals(n);
    ParseReading(n);
    ConvertRun(run, b);
    ConvertOrdinalRun(run, b);
    assert Rewrite(false, run) == Decimal(n);
    assert Rewrite(true, run) == "第" + Decimal(n);
  }

  // Worked readings.

  lemma ExampleTen()
    ensures ParseCn("十") == Some(10)
  {
    assert Reading(10) == "十";
    ParseReading(10);
  }

  lemma ExampleTwelve()
    ensures ParseCn("十二") == Some(12)
  {
    assert Reading(12) == "十二";
    ParseReading(12);
  }

  lemma ExampleTwenty()
    ensures ParseCn("二十") == Some(20)
  {
    assert Reading(20) == "二十";
    ParseReading(20);
  }

  lemma ExampleNinetyNine()
    ensures ParseCn("九十九") == Some(99)
  {
    assert Reading(99) == "九十九";
    ParseReading(99);
  }

  lemma ExampleOneTwentyThree()
    ensures ParseCn("一百二十三") == Some(123)
  {
    assert Reading(123) == "一百二十三";
    ParseReading(123);
  }

  lemma ExampleTwelveThousand()
    ensures ParseCn("一万二千") == Some(12000)
  {
    assert Reading(12000) == "一万二千";
    ParseReading(12000);
  }

  lemma ExampleHundredThousand()
    ensures ParseCn("十万") == Some(100000)
  {
    assert Reading(100000) == "十万";
    ParseReading(100000);
  }

  /** A lone 零 parses to 0, and in text it becomes "0". */
  lemma ExampleZero()
    ensures ParseCn("零") == Some(0)
    ensures ConvertNumbers("零") == "0"
  {
    var run := ['零'];
    ConvertRun(run, []);
    assert run + [] == "零";
    assert Decimal(0) == "0";
  }

  /** A lone 一 in front of a character that is not a numeral becomes "1". */
  lemma OneBefore(c: char)
    requires !IsNumeral(c) && c != '第'
    ensures ConvertNumbers(['一', c]) == ['1', c]
  {
    assert Reading(1) == ['一'];
    ParseReading(1);
    assert Decimal(1) == ['1'];
    ConvertRun(['一'], [c]);
    assert ['一'] + [c] == ['一', c];
    ConvertPlain([c]);
    assert [c][1..] == [];
  }

  /** In running text: the ordinal marker is kept in front of the decimal
      number, and the following word is copied. */
  lemma ExampleOrdinal()
    ensures ConvertNumbers("第十二个") == "第12个"
  {
    var run, b := ['十', '二'], ['个'];
    assert forall i :: 0 <= i < |run| ==> IsNumeral(run[i]);
    ConvertOrdinalRun(run, b);
    TwelveRewrite();
    ConvertPlain(b);
    assert b[1..] == [];
    assert "第" + run + b == "第十二个";
  }

  lemma TwelveRewrite()
    ensures Rewrite(true, ['十', '二']) == ['第', '1', '2']
  {
    ExampleTwelve();
    assert Decimal(12) == ['1', '2'];
  }

  /** A whole text that is a run of numerals which does not parse is left as
      it was. */
  lemma UnparsedKept(run: String)
    requires run != [] && (forall i :: 0 <= i < |run| ==> IsNumeral(run[i]))
    requires ParseCn(run).None?
    ensures ConvertNumbers(run) == run
  {
    ConvertRun(run, []);
    assert run + [] == run;
  }

  /** Runs that do not parse: a lone unit reads as zero, and so does a run of
      zeros; in text they are left as they are. */
  lemma Unparsed()
    ensures ParseCn("百") == None && ConvertNumbers("百") == "百"
    ensures ParseCn("万") == None && ConvertNumbers("万") == "万"
    ensures ParseCn("零零") == None && ConvertNumbers("零零") == "零零"
  {
    RunOne(Start, '百');
    RunOne(Start, '万');
    DigitRunValue("零零");
    UnparsedKept("百");
    UnparsedKept("万");
    UnparsedKept("零零");
  }

}
