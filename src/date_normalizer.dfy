/** The date normaliser: `try_convert_date_time` and the `date_checker`
    pre-check that the three public performance queries apply to their two
    date bounds. An argument is a Timestamp (passed through), a string, or
    an integer; strings and integers are stringified, stripped of every
    non-digit character, and must then spell a YYYYMMDD date. */
module DateNormalizer {
  import opened Options
  import opened Calendar

  /** The argument kinds the public queries accept. */
  datatype DateArg = Stamp(stamp: Timestamp) | Text(text: string) | Integer(number: int)

  predicate IsDigit(c: char) {
    '0' <= c <= '9'
  }

  predicate AllDigits(s: string) {
    forall i :: 0 <= i < |s| ==> IsDigit(s[i])
  }

  function DigitChar(n: nat): (c: char)
    requires n < 10
    ensures IsDigit(c)
  {
    ('0' as int + n) as char
  }

  function DigitValue(c: char): (n: nat)
    requires IsDigit(c)
    ensures n < 10 && DigitChar(n) == c
  {
    c as int - '0' as int
  }

  function Pow10(k: nat): (p: nat)
    ensures p >= 1
  {
    if k == 0 then 1 else 10 * Pow10(k - 1)
  }

  /** Python's `str` of a non-negative integer: its shortest decimal form. */
  function Decimal(n: nat): (s: string)
    ensures |s| >= 1 && AllDigits(s)
    decreases n
  {
    if n < 10 then [DigitChar(n)] else Decimal(n / 10) + [DigitChar(n % 10)]
  }

  /** The decimal form spells the number back and has no leading zero,
      except for zero itself. */
  lemma {:induction false} DecimalValue(n: nat)
    ensures Value(Decimal(n)) == n
    ensures n != 0 ==> Decimal(n)[0] != '0'
    decreases n
  {
    if n >= 10 {
      var s := Decimal(n);
      DecimalValue(n / 10);
      assert s[..|s| - 1] == Decimal(n / 10);
    }
  }

  /** The last `w` decimal digits of `n`, with leading zeros. */
  function Pad(n: nat, w: nat): (s: string)
    ensures |s| == w && AllDigits(s)
  {
    if w == 0 then [] else Pad(n / 10, w - 1) + [DigitChar(n % 10)]
  }

  /** The number a string of decimal digits spells. */
  function Value(ds: string): (n: nat)
    requires AllDigits(ds)
    ensures n < Pow10(|ds|)
  {
    if ds == [] then 0 else 10 * Value(ds[..|ds| - 1]) + DigitValue(ds[|ds| - 1])
  }

  /** `str(arg)` for the two argument kinds that are stringified. */
  function Str(arg: DateArg): (r: string)
    requires !arg.Stamp?
    ensures arg.Text? ==> r == arg.text
    ensures arg.Integer? ==> |r| > 0 && (r[0] == '-' <==> arg.number < 0)
    ensures arg.Integer? ==> r[(if arg.number < 0 then 1 else 0)..] == Decimal(if arg.number < 0 then -arg.number else arg.number)
  {
    match arg
    case Text(s) => s
    case Integer(n) => if n < 0 then "-" + Decimal(-n) else Decimal(n)
  }

  /** The characters of `s` that are not in `drop`, in order. */
  function Without(s: string, drop: set<char>): (r: string)
    ensures forall i :: 0 <= i < |r| ==> r[i] in s && r[i] !in drop
  {
    if s == [] then [] else (if s[0] in drop then [] else [s[0]]) + Without(s[1..], drop)
  }

  /** `s.replace(symbol, '')`. */
  function RemoveAll(s: string, symbol: char): (r: string)
    ensures symbol !in r
    ensures forall c :: c in r <==> c in s && c != symbol
  {
    WithoutKeeps(s, {symbol});
    Without(s, {symbol})
  }

  /** Every character of `s` outside `drop` is kept. */
  lemma {:induction false} WithoutKeeps(s: string, drop: set<char>)
    ensures forall c :: c in s && c !in drop ==> c in Without(s, drop)
  {
    if s != [] {
      WithoutKeeps(s[1..], drop);
      assert forall c :: c in s ==> c == s[0] || c in s[1..];
    }
  }

  /** The decimal digits of `s`, in order: what is left once every
      non-digit character has been removed. */
  function Digits(s: string): (r: string)
    ensures AllDigits(r) && |r| <= |s|
  {
    if s == [] then [] else (if IsDigit(s[0]) then [s[0]] else []) + Digits(s[1..])
  }

  /** A character survives the stripping exactly when it is a digit of `s`. */
  lemma {:induction false} DigitsAre(s: string, c: char)
    ensures c in Digits(s) <==> c in s && IsDigit(c)
  {
    if s != [] {
      DigitsAre(s[1..], c);
      assert c in s <==> c == s[0] || c in s[1..];
    }
  }

  /** `pd.to_datetime(ds, format='%Y%m%d')` on a string of digits: exactly
      eight digits, read as a four-digit year, a two-digit month and a
      two-digit day, naming a representable calendar day. */
  function ParseYmd(ds: string): (r: Option<Timestamp>)
    ensures r.Some? ==> |ds| == 8 && AllDigits(ds)
  {
    if |ds| != 8 || !AllDigits(ds) then None
    else
      var d := Date(Value(ds[..4]), Value(ds[4..6]), Value(ds[6..]));
      if Representable(d) then Some(d) else None
  }

  /** Parsing is the inverse of formatting: a parsed string is the
      canonical form of the day it names, and every canonical form parses. */
  lemma ParseYmdIsFormat(ds: string, d: Timestamp)
    ensures ParseYmd(ds) == Some(d) <==> ds == Format(d)
  {
    if ParseYmd(ds) == Some(d) {
      PadOfValue(ds[..4]);
      PadOfValue(ds[4..6]);
      PadOfValue(ds[6..]);
      assert ds == ds[..4] + ds[4..6] + ds[6..];
    }
    if ds == Format(d) {
      FormatParses(d);
    }
  }

  /** What `try_convert_date_time` returns, with None for its `False`. */
  function ConvertDate(arg: DateArg): (r: Option<Timestamp>)
    ensures arg.Stamp? ==> r == Some(arg.stamp)
    ensures !arg.Stamp? && r.Some? ==> |Digits(Str(arg))| == 8
  {
    match arg
    case Stamp(t) => Some(t)
    case _ => ParseYmd(Digits(Str(arg)))
  }

  /** The canonical eight-digit YYYYMMDD form of a day. */
  function Format(d: Timestamp): (s: string)
    ensures |s| == 8 && AllDigits(s)
  {
    Pad(d.year, 4) + Pad(d.month, 2) + Pad(d.day, 2)
  }

  /** The day spelled YYYY, MM and DD with a separator between the fields,
      as in "2013-02-01" or "2013/02/01". */
  function FormatWith(d: Timestamp, sep: char): string {
    Pad(d.year, 4) + [sep] + Pad(d.month, 2) + [sep] + Pad(d.day, 2)
  }

  /** The integer whose decimal form is YYYYMMDD, as in 20130201. */
  function AsInteger(d: Timestamp): int {
    d.year * 10000 + d.month * 100 + d.day
  }

  // ---------------------------------------------------------------------
  // The conversion loop and the pre-check

  /** `try_convert_date_time`: a Timestamp is returned unchanged; otherwise
      each distinct non-digit symbol of `str(arg)` is removed in turn and the
      rest is parsed as YYYYMMDD. */
  method TryConvertDateTime(arg: DateArg) returns (r: Option<Timestamp>)
    ensures arg.Stamp? ==> r == Some(arg.stamp)
    ensures !arg.Stamp? ==> r == ParseYmd(Digits(Str(arg)))
  {
    if arg.Stamp? {
      return Some(arg.stamp);
    }
    var text := Str(arg);
    var symbols := set ch | ch in text && !IsDigit(ch);
    ghost var removed: set<char> := {};
    var stripped := text;
    WithoutNothing(text);
    while symbols != {}
      invariant forall ch :: ch in symbols ==> ch !in removed
      invariant forall ch :: ch in removed || ch in symbols <==> ch in text && !IsDigit(ch)
      invariant stripped == Without(text, removed)
      decreases |symbols|
    {
      var symbol :| symbol in symbols;
      RemoveAfterWithout(text, removed, symbol);
      stripped := RemoveAll(stripped, symbol);
      removed := removed + {symbol};
      symbols := symbols - {symbol};
    }
    WithoutNonDigits(text, removed);
    r := ParseYmd(stripped);
  }

  /** `date_checker`: every bound is converted, in order; the first one that
      fails makes the wrapped query raise TypeError (None here) before it
      runs, otherwise it runs on the converted bounds. */
  method DateChecker(args: seq<DateArg>) returns (dates: Option<seq<Timestamp>>)
    ensures dates.Some? <==> forall i :: 0 <= i < |args| ==> ConvertDate(args[i]).Some?
    ensures dates.Some? ==> |dates.value| == |args|
    ensures dates.Some? ==> forall i :: 0 <= i < |args| ==> ConvertDate(args[i]) == Some(dates.value[i])
  {
    var converted: seq<Timestamp> := [];
    for i := 0 to |args|
      invariant |converted| == i
      invariant forall k :: 0 <= k < i ==> ConvertDate(args[k]) == Some(converted[k])
    {
      var date := TryConvertDateTime(args[i]);
      if date.None? {
        return None;
      }
      converted := converted + [date.value];
    }
    dates := Some(converted);
  }

  /** `date_checker` around a query with a start and an end bound. */
  method CheckBounds(start: DateArg, end: DateArg) returns (bounds: Option<(Timestamp, Timestamp)>)
    ensures bounds.Some? <==> ConvertDate(start).Some? && ConvertDate(end).Some?
    ensures bounds.Some? ==> bounds.value == (ConvertDate(start).value, ConvertDate(end).value)
  {
    var args := [start, end];
    var dates := DateChecker(args);
    if dates.None? {
      assert ConvertDate(args[0]).None? || ConvertDate(args[1]).None?;
      return None;
    }
    assert ConvertDate(args[0]) == Some(dates.value[0]) && ConvertDate(args[1]) == Some(dates.value[1]);
    bounds := Some((dates.value[0], dates.value[1]));
  }

  // ---------------------------------------------------------------------
  // Lemmas about stripping

  lemma {:induction false} RemoveAfterWithout(s: string, drop: set<char>, symbol: char)
    ensures RemoveAll(Without(s, drop), symbol) == Without(s, drop + {symbol})
  {
    if s != [] {
      RemoveAfterWithout(s[1..], drop, symbol);
      var head := if s[0] in drop then [] else [s[0]];
      assert Without(s, drop) == head + Without(s[1..], drop);
      WithoutAppend(head, Without(s[1..], drop), {symbol});
    }
  }

  lemma {:induction false} WithoutNothing(s: string)
    ensures Without(s, {}) == s
  {
    if s != [] {
      WithoutNothing(s[1..]);
    }
  }

  lemma {:induction false} WithoutAppend(a: string, b: string, drop: set<char>)
    ensures Without(a + b, drop) == Without(a, drop) + Without(b, drop)
  {
    if a != [] {
      assert (a + b)[1..] == a[1..] + b;
      WithoutAppend(a[1..], b, drop);
    } else {
      assert a + b == b;
    }
  }

  /** Removing every non-digit symbol that occurs in `s` leaves its digits. */
  lemma {:induction false} WithoutNonDigits(s: string, drop: set<char>)
    requires forall c :: c in drop ==> !IsDigit(c)
    requires forall i :: 0 <= i < |s| && !IsDigit(s[i]) ==> s[i] in drop
    ensures Without(s, drop) == Digits(s)
  {
    if s != [] {
      WithoutNonDigits(s[1..], drop);
    }
  }

  lemma {:induction false} DigitsAppend(a: string, b: string)
    ensures Digits(a + b) == Digits(a) + Digits(b)
  {
    if a != [] {
      assert (a + b)[1..] == a[1..] + b;
      DigitsAppend(a[1..], b);
    } else {
      assert a + b == b;
    }
  }

  lemma {:induction false} DigitsOfDigits(s: string)
    requires AllDigits(s)
    ensures Digits(s) == s
  {
    if s != [] {
      DigitsOfDigits(s[1..]);
    }
  }

  // ---------------------------------------------------------------------
  // Lemmas about decimal digits

  lemma {:induction false} ValueOfPad(n: nat, w: nat)
    requires n < Pow10(w)
    ensures Value(Pad(n, w)) == n
  {
    if w > 0 {
      var p := Pad(n, w);
      assert p[..|p| - 1] == Pad(n / 10, w - 1);
      ValueOfPad(n / 10, w - 1);
    }
  }

  lemma {:induction false} PadOfValue(ds: string)
    requires AllDigits(ds)
    ensures Pad(Value(ds), |ds|) == ds
  {
    if ds != [] {
      var init := ds[..|ds| - 1];
      var n := Value(ds);
      assert n == 10 * Value(init) + DigitValue(ds[|ds| - 1]);
      assert n / 10 == Value(init);
      assert n % 10 == DigitValue(ds[|ds| - 1]);
      PadOfValue(init);
    }
  }

  /** A number with exactly `w` significant digits has the shortest decimal
      form of length `w`. */
  lemma {:induction false} DecimalIsPad(n: nat, w: nat)
    requires w >= 1 && Pow10(w - 1) <= n < Pow10(w)
    ensures Decimal(n) == Pad(n, w)
  {
    if w > 1 {
      assert Pow10(w - 2) <= n / 10 < Pow10(w - 1);
      DecimalIsPad(n / 10, w - 1);
    }
  }

  lemma {:induction false} PadSplit(a: nat, b: nat, w: nat, k: nat)
    requires b < Pow10(k)
    ensures Pad(a * Pow10(k) + b, w + k) == Pad(a, w) + Pad(b, k)
  {
    if k > 0 {
      var p := Pow10(k - 1);
      var n := a * Pow10(k) + b;
      ShiftDigit(a, p, b, n);
      PadUnfold(n, w + k);
      PadUnfold(b, k);
      PadSplit(a, b / 10, w, k - 1);
    }
  }

  lemma PadUnfold(n: nat, w: nat)
    requires w > 0
    ensures Pad(n, w) == Pad(n / 10, w - 1) + [DigitChar(n % 10)]
  {
  }

  /** Dropping the last decimal digit of `a * 10p + b` leaves `a * p + b / 10`. */
  lemma ShiftDigit(a: nat, p: nat, b: nat, n: nat)
    requires n == a * (10 * p) + b
    ensures n / 10 == a * p + b / 10 && n % 10 == b % 10
    ensures b < 10 * p ==> b / 10 < p
  {
    assert a * (10 * p) == 10 * (a * p);
    assert b == 10 * (b / 10) + b % 10;
    DivModTen(a * p + b / 10, b % 10);
  }

  lemma DivModTen(q: int, r: int)
    requires 0 <= r < 10
    ensures (10 * q + r) / 10 == q && (10 * q + r) % 10 == r
  {
  }

  /** Shortest decimal forms grow with the number: one of 10^k or more has
      more than k digits. */
  lemma {:induction false} DecimalLength(n: nat, k: nat)
    ensures n >= Pow10(k) ==> |Decimal(n)| > k
    ensures n < Pow10(k) ==> |Decimal(n)| <= k || (k == 0 && n == 0)
  {
    if n >= 10 && k > 0 {
      DecimalLength(n / 10, k - 1);
    }
  }

  // ---------------------------------------------------------------------
  // What the normaliser accepts

  /** A string argument is accepted as day `d` exactly when its digits, read
      in order, are the YYYYMMDD form of `d`: every other character is
      ignored wherever it stands. */
  lemma TextIsYmd(s: string, d: Timestamp)
    ensures ConvertDate(Text(s)) == Some(d) <==> Digits(s) == Format(d)
  {
    ParseYmdIsFormat(Digits(s), d);
  }

  lemma FormatParses(d: Timestamp)
    ensures ParseYmd(Format(d)) == Some(d)
  {
    var f := Format(d);
    assert f[..4] == Pad(d.year, 4);
    assert f[4..6] == Pad(d.month, 2);
    assert f[6..] == Pad(d.day, 2);
    ValueOfPad(d.year, 4);
    ValueOfPad(d.month, 2);
    ValueOfPad(d.day, 2);
  }

  /** Normalising an already normalised day, or its canonical text, gives
      the day back. */
  lemma ConvertRoundTrip(d: Timestamp)
    ensures ConvertDate(Stamp(d)) == Some(d)
    ensures ConvertDate(Text(Format(d))) == Some(d)
  {
    TextIsYmd(Format(d), d);
    DigitsOfDigits(Format(d));
  }

  /** Separators such as '/', '-', '~' or '\' between the fields are
      tolerated. */
  lemma SeparatedTextAccepted(d: Timestamp, sep: char)
    requires !IsDigit(sep)
    ensures ConvertDate(Text(FormatWith(d, sep))) == Some(d)
  {
    var y, m, dd := Pad(d.year, 4), Pad(d.month, 2), Pad(d.day, 2);
    DigitsAppend(y + [sep] + m + [sep], dd);
    DigitsAppend(y + [sep] + m, [sep]);
    DigitsAppend(y + [sep], m);
    DigitsAppend(y, [sep]);
    DigitsOfDigits(y);
    DigitsOfDigits(m);
    DigitsOfDigits(dd);
    assert Digits([sep]) == [];
    TextIsYmd(FormatWith(d, sep), d);
  }

  /** The eight-digit integer YYYYMMDD of a day is accepted as that day. */
  lemma IntegerAccepted(d: Timestamp)
    ensures ConvertDate(Integer(AsInteger(d))) == Some(d)
  {
    IntegerIsFormat(d);
    DigitsOfDigits(Format(d));
    FormatParses(d);
  }

  /** The decimal form of the integer YYYYMMDD is the canonical text. */
  lemma IntegerIsFormat(d: Timestamp)
    ensures Decimal(AsInteger(d)) == Format(d)
  {
    var md := d.month * 100 + d.day;
    PowersOfTen();
    assert md < Pow10(4) && d.day < Pow10(2);
    assert AsInteger(d) == d.year * Pow10(4) + md;
    assert md == d.month * Pow10(2) + d.day;
    PadSplit(d.year, md, 4, 4);
    PadSplit(d.month, d.day, 2, 2);
    assert Pow10(7) <= AsInteger(d) < Pow10(8);
    DecimalIsPad(AsInteger(d), 8);
  }

  lemma PowersOfTen()
    ensures Pow10(2) == 100 && Pow10(4) == 10000 && Pow10(7) == 10000000 && Pow10(8) == 100000000
  {
  }

  /** An integer is only ever accepted when its magnitude has exactly eight
      digits: 201901200 (nine digits) and 2013020 (seven) are rejected. */
  lemma IntegerNeedsEightDigits(n: int)
    ensures ConvertDate(Integer(n)).Some? ==> Pow10(7) <= (if n < 0 then -n else n) < Pow10(8)
  {
    var m: nat := if n < 0 then -n else n;
    DecimalLength(m, 8);
    DecimalLength(m, 7);
    assert Digits("-") == [];
    DigitsAppend("-", Decimal(m));
    DigitsOfDigits(Decimal(m));
  }

  /** A string whose digits are not exactly eight is rejected, whatever
      else it holds. */
  lemma WrongDigitCountRejected(s: string)
    requires |Digits(s)| != 8
    ensures ConvertDate(Text(s)) == None
  {
  }

  // ---------------------------------------------------------------------
  // The conversion as written, for an argument without any digit

  /** The three outcomes of `try_convert_date_time` as written: a day, NaT,
      or False. */
  datatype Conversion = Day(day: Timestamp) | NotATime | Failed

  /** `try_convert_date_time` as written: pandas parses the empty string to
      NaT instead of raising ValueError, so an argument whose stripped text
      is empty comes back as NaT. */
  function ConvertDateAsWritten(arg: DateArg): (r: Conversion)
    ensures r.NotATime? <==> !arg.Stamp? && Digits(Str(arg)) == []
    ensures r.Day? ==> ConvertDate(arg) == Some(r.day)
    ensures r.Failed? ==> ConvertDate(arg).None?
  {
    match arg
    case Stamp(t) => Day(t)
    case _ =>
      var ds := Digits(Str(arg));
      if ds == [] then NotATime
      else match ParseYmd(ds)
        case Some(d) => Day(d)
        case None => Failed
  }

  /** The `if not date` test of `date_checker` as written: only False is
      falsy, NaT is truthy, so NaT is let through. */
  predicate PassesCheckAsWritten(arg: DateArg)
    ensures PassesCheckAsWritten(arg) <==> ConvertDate(arg).Some? || (!arg.Stamp? && Digits(Str(arg)) == [])
  {
    !ConvertDateAsWritten(arg).Failed?
  }

  /** A bound with no digit at all, such as "" or "end", passes the check as
      written although it names no day; the corrected conversion rejects it. */
  lemma DigitlessBoundPassesAsWritten(s: string)
    requires Digits(s) == []
    ensures PassesCheckAsWritten(Text(s))
    ensures ConvertDateAsWritten(Text(s)) == NotATime
    ensures ConvertDate(Text(s)) == None
  {
  }

  /** Apart from digit-free text, the conversion as written and the
      corrected one agree. */
  lemma AsWrittenAgreesElsewhere(arg: DateArg)
    requires arg.Stamp? || Digits(Str(arg)) != []
    ensures ConvertDateAsWritten(arg).Day? <==> ConvertDate(arg).Some?
    ensures ConvertDate(arg).Some? ==> ConvertDateAsWritten(arg) == Day(ConvertDate(arg).value)
  {
  }
}
