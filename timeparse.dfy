/** time.Parse for the seven layouts Any2Date tries, written as a grammar.

    A Go layout is cut into literal text and "std" elements; each of the
    seven layouts becomes the element list below, and the parser follows
    Go's rules for each element: `skip` for literal text (a space in the
    layout matches a run of spaces), `getnum` for one- or two-digit
    numbers, `lookup` for month names (ASCII case ignored), four digits for
    "2006", and at the end the day is checked against the month. */
module TimeParse {
  import opened Results
  import opened Numbers
  import opened Calendar
  import Text

  /** One chunk of a layout. */
  datatype Elem =
    | Lit(text: string)   // literal text between std elements
    | LongYear            // "2006": exactly four digits
    | NumMonth            // "1": one or two digits
    | ZeroMonth           // "01": exactly two digits
    | NumDay              // "2": one or two digits
    | ZeroDay             // "02": exactly two digits
    | ShortMonth          // "Jan": a three-letter month name
    | LongMonth           // "January": a full month name

  /** "20060102", "1/2/2006", "01/02/2006", "Jan 2, 2006", "January 2, 2006",
      "Jan 2 2006" and "January 2 2006", in the order Any2Date tries them. */
  const Layouts: seq<seq<Elem>> := [Basic, Slash, ZeroSlash, ShortComma, LongComma, ShortSpace, LongSpace]

  const Basic: seq<Elem> := [LongYear, ZeroMonth, ZeroDay]
  const Slash: seq<Elem> := [NumMonth, Lit("/"), NumDay, Lit("/"), LongYear]
  const ZeroSlash: seq<Elem> := [ZeroMonth, Lit("/"), ZeroDay, Lit("/"), LongYear]
  const ShortComma: seq<Elem> := [ShortMonth, Lit(" "), NumDay, Lit(", "), LongYear]
  const LongComma: seq<Elem> := [LongMonth, Lit(" "), NumDay, Lit(", "), LongYear]
  const ShortSpace: seq<Elem> := [ShortMonth, Lit(" "), NumDay, Lit(" "), LongYear]
  const LongSpace: seq<Elem> := [LongMonth, Lit(" "), NumDay, Lit(" "), LongYear]

  const ShortNames: seq<string> :=
    ["Jan", "Feb", "Mar", "Apr", "May", "Jun", "Jul", "Aug", "Sep", "Oct", "Nov", "Dec"]

  const LongNames: seq<string> :=
    ["January", "February", "March", "April", "May", "June", "July",
     "August", "September", "October", "November", "December"]

  // ---------------------------------------------------------------- Go's helpers

  /** Go's skip: match literal `prefix` at the front of `value`. A space in
      the prefix needs a space in the value unless the value is used up,
      and then swallows every leading space of both. */
  function Skip(value: string, prefix: string): Option<string>
    decreases |prefix|
  {
    if |prefix| == 0 then Some(value)
    else if prefix[0] == ' ' then
      if |value| > 0 && value[0] != ' ' then None
      else
        var p := Text.TrimLeft(prefix);
        Text.TrimLeftShape(prefix);
        assert |p| < |prefix|;
        Skip(Text.TrimLeft(value), p)
    else if |value| == 0 || value[0] != prefix[0] then None
    else Skip(value[1..], prefix[1..])
  }

  /** Go's getnum: a one- or two-digit number at the front of `s`; when
      `fixed`, exactly two digits. */
  function GetNum(s: string, fixed: bool): (r: Option<(nat, string)>)
    ensures r.Some? ==> r.value.0 < 100
  {
    if |s| == 0 || !IsDigit(s[0]) then None
    else if |s| < 2 || !IsDigit(s[1]) then
      if fixed then None else Some((DigitValue(s[0]), s[1..]))
    else Some((DigitValue(s[0]) * 10 + DigitValue(s[1]), s[2..]))
  }

  predicate IsLetter(c: char) {
    'a' <= c <= 'z' || 'A' <= c <= 'Z'
  }

  /** Go's match: equal texts when the case of ASCII letters is ignored. */
  predicate FoldEqual(s1: string, s2: string)
    requires |s1| == |s2|
  {
    forall i :: 0 <= i < |s1| ==>
      s1[i] == s2[i] || (IsLetter(s1[i]) && IsLetter(s2[i]) && Text.LowerChar(s1[i]) == Text.LowerChar(s2[i]))
  }

  /** Go's lookup: the index of the first name of `tab`, from `from` on,
      that starts `value` (case ignored), and what follows it. */
  function Lookup(tab: seq<string>, value: string, from: nat): (r: Option<(nat, string)>)
    ensures r.Some? ==> from <= r.value.0 < |tab|
    decreases |tab| - from
  {
    if from >= |tab| then None
    else
      var name := tab[from];
      if |value| >= |name| && FoldEqual(value[..|name|], name) then Some((from, value[|name|..]))
      else Lookup(tab, value, from + 1)
  }

  /** The fields a parse has set so far; Go starts with year 0 and month
      and day unset (-1). */
  datatype Fields = Fields(year: int, month: int, day: int)

  /** One element of a layout applied to the front of `value`. */
  function Step(e: Elem, value: string, f: Fields): Option<(string, Fields)>
  {
    match e
    case Lit(text) =>
      (match Skip(value, text)
       case None => None
       case Some(rest) => Some((rest, f)))
    case LongYear =>
      if |value| < 4 || !IsDigit(value[0]) || !AllDigits(value[..4]) then None
      else Some((value[4..], f.(year := ValueOf(value[..4]))))
    case NumMonth =>
      MonthNumber(GetNum(value, false), f)
    case ZeroMonth =>
      MonthNumber(GetNum(value, true), f)
    case NumDay =>
      (match GetNum(value, false)
       case None => None
       case Some((d, rest)) => Some((rest, f.(day := d))))
    case ZeroDay =>
      (match GetNum(value, true)
       case None => None
       case Some((d, rest)) => Some((rest, f.(day := d))))
    case ShortMonth =>
      (match Lookup(ShortNames, value, 0)
       case None => None
       case Some((i, rest)) => Some((rest, f.(month := i + 1))))
    case LongMonth =>
      (match Lookup(LongNames, value, 0)
       case None => None
       case Some((i, rest)) => Some((rest, f.(month := i + 1))))
  }

  /** A numeric month outside 1..12 is Go's "month out of range". */
  function MonthNumber(n: Option<(nat, string)>, f: Fields): Option<(string, Fields)>
  {
    match n
    case None => None
    case Some((m, rest)) => if 1 <= m <= 12 then Some((rest, f.(month := m))) else None
  }

  /** Every element in turn; the value must be used up at the end. */
  function ParseElems(layout: seq<Elem>, value: string, f: Fields): Option<Fields>
  {
    if |layout| == 0 then (if |value| == 0 then Some(f) else None)
    else
      match Step(layout[0], value, f)
      case None => None
      case Some((rest, f')) => ParseElems(layout[1..], rest, f')
  }

  /** time.Parse(layout, value) for a layout without clock or zone
      elements: a UTC date at midnight, provided the day exists in the month. */
  function Parse(layout: seq<Elem>, value: string): (r: Option<Date>)
    ensures r.Some? ==> Midnight(r.value)
  {
    match ParseElems(layout, value, Fields(0, -1, -1))
    case None => None
    case Some(f) =>
      var month := if f.month < 0 then 1 else f.month;
      var day := if f.day < 0 then 1 else f.day;
      if 1 <= month <= 12 && 1 <= day <= DaysIn(month, f.year) then Some(Time(f.year, month, day, 0))
      else None
  }

  /** The result of the first layout, from `k` on, that parses `value`. */
  function ParseFirst(value: string, k: nat): (r: Option<Date>)
    ensures r.Some? ==> Midnight(r.value)
    decreases |Layouts| - k
  {
    if k >= |Layouts| then None
    else
      match Parse(Layouts[k], value)
      case Some(t) => Some(t)
      case None => ParseFirst(value, k + 1)
  }

  /** A date from ParseFirst is that of the first layout from `k` on that
      parses the value. */
  lemma {:induction false} ParseFirstFound(value: string, k: nat)
    requires ParseFirst(value, k).Some?
    ensures exists j :: k <= j < |Layouts| && Parse(Layouts[j], value) == ParseFirst(value, k) &&
                        forall i :: k <= i < j ==> Parse(Layouts[i], value).None?
    decreases |Layouts| - k
  {
    assert k < |Layouts|;
    var p := Parse(Layouts[k], value);
    if p.None? {
      assert ParseFirst(value, k) == ParseFirst(value, k + 1);
      ParseFirstFound(value, k + 1);
      var j :| k + 1 <= j < |Layouts| && Parse(Layouts[j], value) == ParseFirst(value, k + 1) &&
               forall i :: k + 1 <= i < j ==> Parse(Layouts[i], value).None?;
      assert forall i :: k <= i < j ==> Parse(Layouts[i], value).None?;
    } else {
      assert ParseFirst(value, k) == p;
    }
  }

  /** ParseFirst finds no date only when no layout from `k` on parses the
      value. */
  lemma {:induction false} ParseFirstMissing(value: string, k: nat)
    requires ParseFirst(value, k).None?
    ensures forall j :: k <= j < |Layouts| ==> Parse(Layouts[j], value).None?
    decreases |Layouts| - k
  {
    if k < |Layouts| {
      ParseFirstMissing(value, k + 1);
    }
  }

  /** Once the elements have read year, month and day, Parse checks that
      the day exists in the month. */
  lemma {:induction false} ParseOfFields(l: seq<Elem>, v: string, y: int, m: nat, d: nat)
    requires ParseElems(l, v, Fields(0, -1, -1)) == Some(Fields(y, m, d))
    ensures Parse(l, v) == if 1 <= m <= 12 && 1 <= d <= DaysIn(m, y) then Some(Time(y, m, d, 0)) else None
  {
  }

  // ---------------------------------------------------------------- round trips

  /** A layout element that matches moves the parse on to the rest. */
  lemma {:induction false} ElemsCons(l: seq<Elem>, value: string, f: Fields, rest: string, f': Fields)
    requires |l| > 0 && Step(l[0], value, f) == Some((rest, f'))
    ensures ParseElems(l, value, f) == ParseElems(l[1..], rest, f')
  {
  }

  lemma {:induction false} GetNumDecimal(n: nat, rest: string, fixed: bool)
    requires n < 100 && (|rest| == 0 || !IsDigit(rest[0]))
    ensures GetNum(Decimal(n) + rest, fixed) == if fixed && n < 10 then None else Some((n, rest))
  {
    var s := Decimal(n) + rest;
    if n < 10 {
      assert s == [DigitChar(n)] + rest;
      assert s[1..] == rest;
    } else {
      assert Digits(n) == [DigitChar(n / 10)] + [DigitChar(n % 10)];
      assert s == [DigitChar(n / 10), DigitChar(n % 10)] + rest;
      assert s[2..] == rest;
    }
  }

  lemma {:induction false} TwoDigitValue(p: string)
    requires |p| == 2 && AllDigits(p)
    ensures ValueOf(p) == DigitValue(p[0]) * 10 + DigitValue(p[1])
  {
    var q := p[..1];
    assert q == [p[0]] && p[..|p| - 1] == q;
    assert q[..|q| - 1] == [];
    assert ValueOf(q) == DigitValue(p[0]);
  }

  lemma {:induction false} GetNumPadded(n: nat, rest: string, fixed: bool)
    requires n < 100
    ensures GetNum(PadDigits(n, 2) + rest, fixed) == Some((n, rest))
  {
    PadDigitsWidth(n, 2);
    var p := PadDigits(n, 2);
    var s := p + rest;
    TwoDigitValue(p);
    assert s[0] == p[0] && s[1] == p[1] && s[2..] == rest;
  }

  lemma {:induction false} YearStep(y: int, rest: string, f: Fields)
    requires 0 <= y <= 9999
    ensures Step(LongYear, SignedPad(y, 4) + rest, f) == Some((rest, f.(year := y)))
  {
    PadDigitsWidth(y, 4);
    var p := PadDigits(y, 4);
    var s := p + rest;
    assert s[..4] == p && s[4..] == rest;
  }

  lemma {:induction false} SlashStep(rest: string)
    requires |rest| > 0 && rest[0] != ' '
    ensures Skip("/" + rest, "/") == Some(rest)
  {
    assert ("/" + rest)[1..] == rest;
  }

  /** month/day/year with the month and day unpadded and the year padded
      to four digits: the text "1/2/2006" describes. */
  function SlashText(m: nat, d: nat, y: int): string {
    Decimal(m) + ("/" + DayYearText(d, y))
  }

  /** The day and year of a slash text, after the first slash. */
  function DayYearText(d: nat, y: int): string {
    Decimal(d) + ("/" + SignedPad(y, 4))
  }

  /** What "1/2/2006" (or "01/02/2006" when `fixed`) asks for after the
      month and the first slash. */
  function DayYear(fixed: bool): seq<Elem> {
    [if fixed then ZeroDay else NumDay, Lit("/"), LongYear]
  }

  /** time.Format's "1/2/2006" text of a date is its slash text. */
  lemma {:induction false} SlashFormatText(t: Date)
    ensures SlashFormat(t) == SlashText(t.month, t.day, t.year)
  {
    Nest(Decimal(t.month), "/", Decimal(t.day), "/", SignedPad(t.year, 4));
  }

  lemma {:induction false} Nest(a: string, b: string, c: string, d: string, e: string)
    ensures a + b + c + d + e == a + (b + (c + (d + e)))
  {
  }

  /** "2006" fails on a text with a non-digit among its first four
      characters. */
  lemma {:induction false} LongYearStops(value: string, k: nat, f: Fields)
    requires k < 4 && k < |value| && !IsDigit(value[k])
    ensures Step(LongYear, value, f).None?
  {
    if |value| >= 4 {
      assert value[..4][k] == value[k];
    }
  }

  /** The basic layout cannot read a slash text: a slash falls within its
      first four characters. */
  lemma {:induction false} SlashRejectsBasic(m: nat, d: nat, y: int)
    requires m < 100
    ensures Parse(Basic, SlashText(m, d, y)).None?
  {
    var dm := Decimal(m);
    var value := SlashText(m, d, y);
    assert Pow10(2) == 100;
    DigitsBelow(m, 2);
    assert value[|dm|] == '/';
    LongYearStops(value, |dm|, Fields(0, -1, -1));
  }

  /** The day and year of a slash text, read with "2" (or "02" when `fixed`). */
  lemma {:induction false} DayYearElems(d: nat, y: int, f: Fields, fixed: bool)
    requires d < 100 && 0 <= y <= 9999
    ensures ParseElems(DayYear(fixed), DayYearText(d, y), f)
         == if fixed && d < 10 then None else Some(f.(day := d, year := y))
  {
    var dd, py := Decimal(d), SignedPad(y, 4);
    var l := DayYear(fixed);
    assert l[1..] == [Lit("/"), LongYear] && l[1..][1..] == [LongYear] && l[1..][1..][1..] == [];
    GetNumDecimal(d, "/" + py, fixed);
    if !(fixed && d < 10) {
      var f1 := f.(day := d);
      ElemsCons(l, dd + ("/" + py), f, "/" + py, f1);
      PadDigitsWidth(y, 4);
      SlashStep(py);
      ElemsCons(l[1..], "/" + py, f1, py, f1);
      YearStep(y, "", f1);
      assert py + "" == py;
      ElemsCons(l[1..][1..], py, f1, "", f1.(year := y));
    }
  }

  /** The month and first slash of a slash text. */
  lemma {:induction false} MonthElems(m: nat, rest: string, fixed: bool, tail: seq<Elem>, f: Fields)
    requires m < 100 && |rest| > 0 && IsDigit(rest[0])
    ensures ParseElems([if fixed then ZeroMonth else NumMonth, Lit("/")] + tail, Decimal(m) + ("/" + rest), f)
         == if !(1 <= m <= 12) || (fixed && m < 10) then None else ParseElems(tail, rest, f.(month := m))
  {
    var l := [if fixed then ZeroMonth else NumMonth, Lit("/")] + tail;
    assert l[1..] == [Lit("/")] + tail && l[1..][1..] == tail;
    GetNumDecimal(m, "/" + rest, fixed);
    if 1 <= m <= 12 && !(fixed && m < 10) {
      var f1 := f.(month := m);
      ElemsCons(l, Decimal(m) + ("/" + rest), f, "/" + rest, f1);
      SlashStep(rest);
      ElemsCons(l[1..], "/" + rest, f1, rest, f1);
    }
  }

  /** A slash layout on a slash text, applied element by element. */
  lemma {:induction false} SlashLayoutElems(m: nat, d: nat, y: int, fixed: bool)
    requires m < 100 && d < 100 && 0 <= y <= 9999
    ensures ParseElems([if fixed then ZeroMonth else NumMonth, Lit("/")] + DayYear(fixed), SlashText(m, d, y), Fields(0, -1, -1))
         == if !(1 <= m <= 12) || (fixed && (m < 10 || d < 10)) then None else Some(Fields(y, m, d))
  {
    var rest := DayYearText(d, y);
    assert rest[0] == Decimal(d)[0];
    MonthElems(m, rest, fixed, DayYear(fixed), Fields(0, -1, -1));
    if 1 <= m <= 12 && !(fixed && m < 10) {
      DayYearElems(d, y, Fields(0, m, -1), fixed);
    }
  }

  /** The "1/2/2006" and "01/02/2006" layouts on a slash text read its
      month, day and year, provided the month is in range and, for the
      second layout, month and day have two digits. */
  lemma {:induction false} SlashElems(m: nat, d: nat, y: int)
    requires m < 100 && d < 100 && 0 <= y <= 9999
    ensures ParseElems(Slash, SlashText(m, d, y), Fields(0, -1, -1))
         == if !(1 <= m <= 12) then None else Some(Fields(y, m, d))
    ensures ParseElems(ZeroSlash, SlashText(m, d, y), Fields(0, -1, -1))
         == if !(1 <= m <= 12) || m < 10 || d < 10 then None else Some(Fields(y, m, d))
  {
    assert Slash == [NumMonth, Lit("/")] + DayYear(false);
    assert ZeroSlash == [ZeroMonth, Lit("/")] + DayYear(true);
    SlashLayoutElems(m, d, y, false);
    SlashLayoutElems(m, d, y, true);
  }

  /** A slash text reads back as its own date exactly when that date
      exists: month 1..12 and a day within the month; otherwise every
      layout rejects it (February 30 in any year, say). */
  lemma {:induction false} SlashTextParses(m: nat, d: nat, y: int)
    requires m < 100 && d < 100 && 0 <= y <= 9999
    ensures ParseFirst(SlashText(m, d, y), 0) ==
      if 1 <= m <= 12 && 1 <= d <= DaysIn(m, y) then Some(Time(y, m, d, 0)) else None
  {
    var v := SlashText(m, d, y);
    SlashRejectsBasic(m, d, y);
    FirstLayout(v);
    SecondLayout(v);
    ThirdLayout(v);
    SlashElems(m, d, y);
    assert v[0] == Decimal(m)[0];
    NamedNone(v);
    if 1 <= m <= 12 {
      ParseOfFields(Slash, v, y, m, d);
      if ParseElems(ZeroSlash, v, Fields(0, -1, -1)).Some? {
        ParseOfFields(ZeroSlash, v, y, m, d);
      }
    }
  }

  /** Any2String writes dates as "1/2/2006"; for a midnight date with a
      four-digit year the first layout rejects that text and the second
      reads the same date back. */
  lemma {:induction false} SlashFormatParses(t: Date)
    requires Midnight(t) && 0 <= t.year <= 9999
    ensures ParseFirst(SlashFormat(t), 0) == Some(t)
  {
    SlashFormatText(t);
    SlashTextParses(t.month, t.day, t.year);
  }

  /** February 29 reads as a date exactly in leap years, February 30
      never. */
  lemma {:induction false} LeapDays(y: int)
    requires 0 <= y <= 9999
    ensures ParseFirst(SlashText(2, 29, y), 0).Some? <==> IsLeap(y)
    ensures ParseFirst(SlashText(2, 30, y), 0).None?
  {
    SlashTextParses(2, 29, y);
    SlashTextParses(2, 30, y);
  }

  /** month/day/year with month and day padded to two digits and the year
      to four: the text "01/02/2006" describes. */
  function ZeroSlashText(m: nat, d: nat, y: int): string {
    PadDigits(m, 2) + ("/" + PaddedDayYearText(d, y))
  }

  /** The day and year of a zero-padded slash text, after the first slash. */
  function PaddedDayYearText(d: nat, y: int): string {
    PadDigits(d, 2) + ("/" + SignedPad(y, 4))
  }

  /** A two-digit day reads the same under "2" and "02". */
  lemma {:induction false} PaddedDayYearElems(d: nat, y: int, f: Fields, fixed: bool)
    requires d < 100 && 0 <= y <= 9999
    ensures ParseElems(DayYear(fixed), PaddedDayYearText(d, y), f) == Some(f.(day := d, year := y))
  {
    var pd, py := PadDigits(d, 2), SignedPad(y, 4);
    var l := DayYear(fixed);
    assert l[1..] == [Lit("/"), LongYear] && l[1..][1..] == [LongYear] && l[1..][1..][1..] == [];
    GetNumPadded(d, "/" + py, fixed);
    var f1 := f.(day := d);
    ElemsCons(l, pd + ("/" + py), f, "/" + py, f1);
    PadDigitsWidth(y, 4);
    SlashStep(py);
    ElemsCons(l[1..], "/" + py, f1, py, f1);
    YearStep(y, "", f1);
    assert py + "" == py;
    ElemsCons(l[1..][1..], py, f1, "", f1.(year := y));
  }

  /** A two-digit month and the first slash, read under "1/" or "01/":
      Go's getnum takes both digits either way, so "03" is March. */
  lemma {:induction false} PaddedMonthElems(m: nat, rest: string, fixed: bool, tail: seq<Elem>, f: Fields)
    requires m < 100 && |rest| > 0 && IsDigit(rest[0])
    ensures ParseElems([if fixed then ZeroMonth else NumMonth, Lit("/")] + tail, PadDigits(m, 2) + ("/" + rest), f)
         == if 1 <= m <= 12 then ParseElems(tail, rest, f.(month := m)) else None
  {
    var l := [if fixed then ZeroMonth else NumMonth, Lit("/")] + tail;
    assert l[1..] == [Lit("/")] + tail && l[1..][1..] == tail;
    GetNumPadded(m, "/" + rest, fixed);
    if 1 <= m <= 12 {
      var f1 := f.(month := m);
      ElemsCons(l, PadDigits(m, 2) + ("/" + rest), f, "/" + rest, f1);
      SlashStep(rest);
      ElemsCons(l[1..], "/" + rest, f1, rest, f1);
    }
  }

  /** A slash layout on a zero-padded slash text, element by element. */
  lemma {:induction false} ZeroSlashLayoutElems(m: nat, d: nat, y: int, fixed: bool)
    requires m < 100 && d < 100 && 0 <= y <= 9999
    ensures ParseElems([if fixed then ZeroMonth else NumMonth, Lit("/")] + DayYear(fixed), ZeroSlashText(m, d, y), Fields(0, -1, -1))
         == if 1 <= m <= 12 then Some(Fields(y, m, d)) else None
  {
    var rest := PaddedDayYearText(d, y);
    PadDigitsWidth(d, 2);
    assert rest[0] == PadDigits(d, 2)[0];
    PaddedMonthElems(m, rest, fixed, DayYear(fixed), Fields(0, -1, -1));
    if 1 <= m <= 12 {
      PaddedDayYearElems(d, y, Fields(0, m, -1), fixed);
    }
  }

  /** Both slash layouts read a zero-padded slash text's month, day and
      year, provided the month is in range. */
  lemma {:induction false} ZeroSlashElems(m: nat, d: nat, y: int)
    requires m < 100 && d < 100 && 0 <= y <= 9999
    ensures ParseElems(Slash, ZeroSlashText(m, d, y), Fields(0, -1, -1))
         == if 1 <= m <= 12 then Some(Fields(y, m, d)) else None
    ensures ParseElems(ZeroSlash, ZeroSlashText(m, d, y), Fields(0, -1, -1))
         == if 1 <= m <= 12 then Some(Fields(y, m, d)) else None
  {
    assert Slash == [NumMonth, Lit("/")] + DayYear(false);
    assert ZeroSlash == [ZeroMonth, Lit("/")] + DayYear(true);
    ZeroSlashLayoutElems(m, d, y, false);
    ZeroSlashLayoutElems(m, d, y, true);
  }

  /** The basic layout cannot read a zero-padded slash text: its third
      character is a slash. */
  lemma {:induction false} ZeroSlashRejectsBasic(m: nat, d: nat, y: int)
    requires m < 100
    ensures Parse(Basic, ZeroSlashText(m, d, y)).None?
  {
    var value := ZeroSlashText(m, d, y);
    PadDigitsWidth(m, 2);
    assert value[2] == '/';
    LongYearStops(value, 2, Fields(0, -1, -1));
  }

  /** A zero-padded slash text reads back as its own date exactly when
      that date exists; the "1/2/2006" layout, tried first, already reads
      it. Otherwise every layout rejects it. */
  lemma {:induction false} ZeroSlashTextParses(m: nat, d: nat, y: int)
    requires m < 100 && d < 100 && 0 <= y <= 9999
    ensures ParseFirst(ZeroSlashText(m, d, y), 0) ==
      if 1 <= m <= 12 && 1 <= d <= DaysIn(m, y) then Some(Time(y, m, d, 0)) else None
  {
    var v := ZeroSlashText(m, d, y);
    ZeroSlashRejectsBasic(m, d, y);
    FirstLayout(v);
    SecondLayout(v);
    ThirdLayout(v);
    ZeroSlashElems(m, d, y);
    PadDigitsWidth(m, 2);
    assert v[0] == PadDigits(m, 2)[0];
    NamedNone(v);
    if 1 <= m <= 12 {
      ParseOfFields(Slash, v, y, m, d);
      ParseOfFields(ZeroSlash, v, y, m, d);
    }
  }

  /** year, month and day as eight digits: the text "20060102" describes. */
  function BasicText(y: int, m: nat, d: nat): string {
    SignedPad(y, 4) + PadDigits(m, 2) + PadDigits(d, 2)
  }

  /** After the year, the basic layout reads a padded month and day. */
  lemma {:induction false} BasicMonthDay(m: nat, d: nat, f: Fields)
    requires m < 100 && d < 100
    ensures ParseElems(Basic[1..], PadDigits(m, 2) + PadDigits(d, 2), f)
         == if 1 <= m <= 12 then Some(f.(month := m, day := d)) else None
  {
    var l := Basic[1..];
    var pm, pd := PadDigits(m, 2), PadDigits(d, 2);
    GetNumPadded(m, pd, true);
    assert l[0] == ZeroMonth;
    if 1 <= m <= 12 {
      var f2 := f.(month := m);
      ElemsCons(l, pm + pd, f, pd, f2);
      GetNumPadded(d, "", true);
      assert pd + "" == pd;
      ElemsCons(l[1..], pd, f2, "", f2.(day := d));
      assert l[1..][1..] == [];
    }
  }

  /** The basic layout reads the year, month and day of a basic text,
      provided the month is 1..12. */
  lemma {:induction false} BasicElems(y: int, m: nat, d: nat)
    requires 0 <= y <= 9999 && m < 100 && d < 100
    ensures ParseElems(Basic, BasicText(y, m, d), Fields(0, -1, -1))
         == if 1 <= m <= 12 then Some(Fields(y, m, d)) else None
  {
    var rest := PadDigits(m, 2) + PadDigits(d, 2);
    var f0 := Fields(0, -1, -1);
    var f1 := f0.(year := y);
    assert ParseElems(Basic, BasicText(y, m, d), f0) == ParseElems(Basic[1..], rest, f1) by {
      assert BasicText(y, m, d) == SignedPad(y, 4) + rest;
      YearStep(y, rest, f0);
      ElemsCons(Basic, SignedPad(y, 4) + rest, f0, rest, f1);
    }
    BasicMonthDay(m, d, f1);
  }

  /** getnum reads two digits, or one when it need not be fixed, and
      leaves the remainder of the text. */
  lemma {:induction false} GetNumRest(s: string, fixed: bool)
    ensures GetNum(s, fixed).Some? ==> var k := |s| - |GetNum(s, fixed).value.1|;
      (k == 2 || (!fixed && k == 1)) && GetNum(s, fixed).value.1 == s[k..]
  {
  }

  /** The basic layout consumes exactly eight characters. */
  lemma {:induction false} BasicNeedsEight(v: string)
    ensures Parse(Basic, v).Some? ==> |v| == 8
  {
    var f0 := Fields(0, -1, -1);
    match Step(LongYear, v, f0) {
      case None =>
      case Some((r1, f1)) =>
        ElemsCons(Basic, v, f0, r1, f1);
        GetNumRest(r1, true);
        match Step(ZeroMonth, r1, f1) {
          case None =>
            assert Basic[1..][0] == ZeroMonth;
          case Some((r2, f2)) =>
            ElemsCons(Basic[1..], r1, f1, r2, f2);
            GetNumRest(r2, true);
            match Step(ZeroDay, r2, f2) {
              case None =>
                assert Basic[1..][1..][0] == ZeroDay;
              case Some((r3, f3)) =>
                ElemsCons(Basic[1..][1..], r2, f2, r3, f3);
                assert Basic[1..][1..][1..] == [];
            }
        }
    }
  }

  /** A slash layout never matches digits alone: after the month comes a
      digit, not a slash. */
  lemma {:induction false} SlashAfterDigits(l: seq<Elem>, v: string)
    requires AllDigits(v) && |l| >= 2 && (l[0] == NumMonth || l[0] == ZeroMonth) && l[1] == Lit("/")
    ensures ParseElems(l, v, Fields(0, -1, -1)).None?
  {
    var f0 := Fields(0, -1, -1);
    GetNumRest(v, l[0] == ZeroMonth);
    match Step(l[0], v, f0) {
      case None =>
      case Some((rest, f1)) =>
        assert AllDigits(rest);
        ElemsCons(l, v, f0, rest, f1);
        assert l[1..][0] == Lit("/");
    }
  }

  /** ParseFirst tries the basic layout first. */
  lemma {:induction false} FirstLayout(v: string)
    ensures ParseFirst(v, 0) == if Parse(Basic, v).Some? then Parse(Basic, v) else ParseFirst(v, 1)
  {
  }

  /** Then the "1/2/2006" layout. */
  lemma {:induction false} SecondLayout(v: string)
    ensures ParseFirst(v, 1) == if Parse(Slash, v).Some? then Parse(Slash, v) else ParseFirst(v, 2)
  {
  }

  /** Then the "01/02/2006" layout. */
  lemma {:induction false} ThirdLayout(v: string)
    ensures ParseFirst(v, 2) == if Parse(ZeroSlash, v).Some? then Parse(ZeroSlash, v) else ParseFirst(v, 3)
  {
  }

  /** No layout after the basic one reads a text of digits alone. */
  lemma {:induction false} DigitsOnlyBasic(v: string)
    requires AllDigits(v)
    ensures ParseFirst(v, 1).None?
  {
    NamedNone(v);
    SlashAfterDigits(ZeroSlash, v);
    SlashAfterDigits(Slash, v);
    SecondLayout(v);
    ThirdLayout(v);
  }

  /** A text of digits alone is read by the basic layout or by none. */
  lemma {:induction false} DigitTexts(v: string)
    requires AllDigits(v)
    ensures ParseFirst(v, 0) == Parse(Basic, v)
  {
    DigitsOnlyBasic(v);
    FirstLayout(v);
  }

  /** Digits that are not eight in number are no date. */
  lemma {:induction false} DigitTextsNeedEight(v: string)
    requires AllDigits(v) && |v| != 8
    ensures ParseFirst(v, 0).None?
  {
    DigitTexts(v);
    BasicNeedsEight(v);
  }

  /** A basic text reads as its own date exactly when that date exists:
      month 00, month 13 or day 32 are rejected by every layout. */
  lemma {:induction false} BasicTextParses(y: int, m: nat, d: nat)
    requires 0 <= y <= 9999 && m < 100 && d < 100
    ensures ParseFirst(BasicText(y, m, d), 0) ==
      if 1 <= m <= 12 && 1 <= d <= DaysIn(m, y) then Some(Time(y, m, d, 0)) else None
  {
    var py, pm, pd := SignedPad(y, 4), PadDigits(m, 2), PadDigits(d, 2);
    AllDigitsAppend(py, pm);
    AllDigitsAppend(py + pm, pd);
    DigitTexts(BasicText(y, m, d));
    BasicElems(y, m, d);
  }

  /** An eight-digit number is written as a basic text: four digits of
      year, two of month and two of day. */
  lemma {:induction false} EightDigitText(n: int)
    requires 10000000 <= n <= 99999999
    ensures Decimal(n) == BasicText(n / 10000, n / 100 % 100, n % 100)
  {
    var k, d := n / 100, n % 100;
    var y, m := k / 100, k % 100;
    assert Pow10(2) == 100 && Pow10(3) == 1000 && Pow10(4) == 10000;
    assert 100000 <= k <= 999999;
    assert 1000 <= y <= 9999;
    assert y == n / 10000 && m == n / 100 % 100 by {
      assert n == (y * 100 + m) * 100 + d;
      assert n == y * 10000 + (m * 100 + d);
    }
    assert Digits(k) + PadDigits(d, 2) == Digits(n) by {
      DigitsJoinWidth(k, d, 2);
    }
    assert Digits(y) + PadDigits(m, 2) == Digits(k) by {
      DigitsJoinWidth(y, m, 2);
    }
    FullWidth(y, 4);
  }

  /** A text that starts with a minus sign is no date in any layout. */
  lemma {:induction false} SignedTexts(v: string)
    requires |v| > 0 && v[0] == '-'
    ensures ParseFirst(v, 0).None?
  {
    NamedNone(v);
    assert ParseFirst(v, 3).None?;
    NumericNone(v);
  }

  /** The decimal text of an integer is a date only when it has eight
      digits that the basic layout reads as year, month and day. */
  lemma {:induction false} IntegerTexts(n: int)
    ensures ParseFirst(Decimal(n), 0) ==
      if 10000000 <= n <= 99999999 && 1 <= n / 100 % 100 <= 12 &&
         1 <= n % 100 <= DaysIn(n / 100 % 100, n / 10000)
      then Some(Time(n / 10000, n / 100 % 100, n % 100, 0))
      else None
  {
    if n < 0 {
      SignedTexts(Decimal(n));
    } else if 10000000 <= n <= 99999999 {
      EightDigitText(n);
      BasicTextParses(n / 10000, n / 100 % 100, n % 100);
    } else {
      assert Pow10(7) == 10000000 && Pow10(8) == 100000000;
      if n > 99999999 {
        DigitsAbove(n, 8);
      } else {
        DigitsBelow(n, 7);
      }
      DigitTextsNeedEight(Decimal(n));
    }
  }

  /** ToClickHouse writes dates as "'20060102'"; once the quotes are
      stripped, the first layout reads the same date back. */
  lemma {:induction false} BasicFormatParses(t: Date)
    requires Midnight(t) && 0 <= t.year <= 9999
    ensures ParseFirst(BasicFormat(t), 0) == Some(t)
  {
    assert BasicFormat(t) == BasicText(t.year, t.month, t.day);
    BasicTextParses(t.year, t.month, t.day);
  }

  // ---------------------------------------------------------------- which layouts can match

  lemma {:induction false} NamesStartWithLetters()
    ensures forall i :: 0 <= i < |ShortNames| ==> |ShortNames[i]| > 0 && IsLetter(ShortNames[i][0])
    ensures forall i :: 0 <= i < |LongNames| ==> |LongNames[i]| > 0 && IsLetter(LongNames[i][0])
  {
  }

  /** No month name matches a text that does not start with a letter. */
  lemma {:induction false} LookupNeedsLetter(tab: seq<string>, value: string, from: nat)
    requires |value| == 0 || !IsLetter(value[0])
    requires forall i :: 0 <= i < |tab| ==> |tab[i]| > 0 && IsLetter(tab[i][0])
    ensures Lookup(tab, value, from).None?
    decreases |tab| - from
  {
    if from < |tab| {
      var name := tab[from];
      if |value| >= |name| {
        assert value[..|name|][0] == value[0];
      }
      LookupNeedsLetter(tab, value, from + 1);
    }
  }

  /** The four layouts that start with a month name need a text that
      starts with a letter. */
  lemma {:induction false} NamedLayoutsNeedLetter(value: string)
    requires |value| == 0 || !IsLetter(value[0])
    ensures forall j :: 3 <= j < |Layouts| ==> Parse(Layouts[j], value).None?
  {
    NamesStartWithLetters();
    LookupNeedsLetter(ShortNames, value, 0);
    LookupNeedsLetter(LongNames, value, 0);
    var f0 := Fields(0, -1, -1);
    assert Step(ShortMonth, value, f0).None? && Step(LongMonth, value, f0).None?;
    assert ShortComma[0] == ShortMonth && ShortSpace[0] == ShortMonth;
    assert LongComma[0] == LongMonth && LongSpace[0] == LongMonth;
  }

  /** Nor does ParseFirst find a date from the fourth layout on in such a
      text. */
  lemma {:induction false} NamedNone(value: string)
    requires |value| == 0 || !IsLetter(value[0])
    ensures ParseFirst(value, 3).None?
  {
    NamedLayoutsNeedLetter(value);
    assert ParseFirst(value, 6) == None;
    assert ParseFirst(value, 5) == None;
    assert ParseFirst(value, 4) == None;
  }

  /** ParseFirst skips the numeric layouts on a text that does not start
      with a digit. */
  lemma {:induction false} NumericNone(value: string)
    requires |value| == 0 || !IsDigit(value[0])
    ensures ParseFirst(value, 0) == ParseFirst(value, 3)
  {
    NumericLayoutsNeedDigit(value);
    FirstLayout(value);
    SecondLayout(value);
    ThirdLayout(value);
  }

  /** The three numeric layouts need a text that starts with a digit. */
  lemma {:induction false} NumericLayoutsNeedDigit(value: string)
    requires |value| == 0 || !IsDigit(value[0])
    ensures forall j :: 0 <= j < 3 ==> Parse(Layouts[j], value).None?
  {
    var f0 := Fields(0, -1, -1);
    assert Step(LongYear, value, f0).None?;
    assert Step(NumMonth, value, f0).None? && Step(ZeroMonth, value, f0).None?;
    assert Basic[0] == LongYear && Slash[0] == NumMonth && ZeroSlash[0] == ZeroMonth;
  }

  /** A name whose first letter differs from the text's, case ignored, does
      not match. */
  lemma {:induction false} LookupPast(tab: seq<string>, value: string, from: nat, to: nat)
    requires from <= to <= |tab| && |value| > 0
    requires forall i :: from <= i < to ==> |tab[i]| > 0 && Text.LowerChar(tab[i][0]) != Text.LowerChar(value[0])
    ensures Lookup(tab, value, from) == Lookup(tab, value, to)
    decreases |tab| - from
  {
    if from < to {
      var name := tab[from];
      if |value| >= |name| {
        assert value[..|name|][0] == value[0];
      }
      LookupPast(tab, value, from + 1, to);
    }
  }

  // ---------------------------------------------------------------- month names

  /** A month name, a space, the day, then ", " (or a space) and the year
      padded to four digits: the text "January 2, 2006", "Jan 2, 2006",
      "January 2 2006" or "Jan 2 2006" describes. */
  function NamedText(name: string, d: nat, comma: bool, y: int): string {
    name + (" " + NamedRest(d, comma, y))
  }

  /** What follows the month name and its space. */
  function NamedRest(d: nat, comma: bool, y: int): string {
    Decimal(d) + (Sep(comma) + SignedPad(y, 4))
  }

  /** The literal between day and year. */
  function Sep(comma: bool): string {
    if comma then ", " else " "
  }

  /** The four layouts that start with a month name: short or long name,
      with or without the comma. */
  function NamedLayout(long: bool, comma: bool): seq<Elem> {
    [if long then LongMonth else ShortMonth, Lit(" "), NumDay, Lit(Sep(comma)), LongYear]
  }

  /** The month name of the table `long` selects. */
  function MonthName(long: bool, m: nat): string
    requires 1 <= m <= 12
  {
    if long then LongNames[m - 1] else ShortNames[m - 1]
  }

  /** The first three letters of a text, case ignored, as one number: two
      texts whose names match case-insensitively have the same code. */
  function Code(s: string): int
    requires |s| >= 3
  {
    (Text.LowerChar(s[0]) as int * 65536 + Text.LowerChar(s[1]) as int) * 65536 + Text.LowerChar(s[2]) as int
  }

  /** The test Go's lookup makes of one name. */
  predicate Matches(name: string, value: string) {
    |value| >= |name| && FoldEqual(value[..|name|], name)
  }

  /** A name that matches a value shares its code. */
  lemma {:induction false} MatchCode(name: string, value: string)
    requires |name| >= 3 && Matches(name, value)
    ensures Code(name) == Code(value)
  {
    var p := value[..|name|];
    assert p[0] == value[0] && p[1] == value[1] && p[2] == value[2];
  }

  /** Go's lookup finds none of the names from `from` on when none matches. */
  lemma {:induction false} LookupNone(tab: seq<string>, value: string, from: nat)
    requires forall i :: from <= i < |tab| ==> !Matches(tab[i], value)
    ensures Lookup(tab, value, from).None?
    decreases |tab| - from
  {
    if from < |tab| {
      LookupNone(tab, value, from + 1);
    }
  }

  /** When only name `k` has the value's code, Go's lookup finds that name
      or nothing. */
  lemma {:induction false} LookupByCode(tab: seq<string>, value: string, from: nat, k: nat)
    requires from <= k < |tab| && |value| >= 3
    requires forall i :: 0 <= i < |tab| ==> |tab[i]| >= 3
    requires forall i :: from <= i < |tab| && i != k ==> Code(tab[i]) != Code(value)
    ensures Lookup(tab, value, from) ==
      if Matches(tab[k], value) then Some((k, value[|tab[k]|..])) else None
    decreases k - from
  {
    if from < k {
      if Matches(tab[from], value) {
        MatchCode(tab[from], value);
      }
      LookupByCode(tab, value, from + 1, k);
    } else {
      forall i | k < i < |tab|
        ensures !Matches(tab[i], value)
      {
        if Matches(tab[i], value) {
          MatchCode(tab[i], value);
        }
      }
      LookupNone(tab, value, k + 1);
    }
  }

  /** The codes of the twelve short names, January first. */
  const NameCodes: seq<int> :=
    [455272890478, 438093283426, 468157792370, 416619167858, 468157792377, 455274201198,
     455274201196, 416619495527, 493927858288, 476747858036, 472453677174, 429503348835]

  /** Twelve names in each table, a long name starts with its short name,
      and only May has a long name of three letters. */
  lemma {:induction false} NameTables()
    ensures |ShortNames| == 12 && |LongNames| == 12
    ensures forall i :: 0 <= i < 12 ==> |ShortNames[i]| == 3 && |LongNames[i]| >= 3
    ensures forall i :: 0 <= i < 12 ==> LongNames[i][..3] == ShortNames[i]
    ensures forall i :: 0 <= i < 12 && i != 4 ==> |LongNames[i]| > 3 && IsLetter(LongNames[i][3])
    ensures LongNames[4] == ShortNames[4]
  {
    forall i | 0 <= i < 12
      ensures LongNames[i][..3] == ShortNames[i]
    {
      assert LongNames[i][..3][0] == ShortNames[i][0];
    }
  }

  /** The short names have pairwise distinct codes. */
  lemma {:induction false} NameCodesDistinct()
    ensures |ShortNames| == 12
    ensures forall i, j :: 0 <= i < 12 && 0 <= j < 12 && i != j ==> Code(ShortNames[i]) != Code(ShortNames[j])
  {
    ShortNameCodes();
    assert forall i, j :: 0 <= i < 12 && 0 <= j < 12 && i != j ==> NameCodes[i] != NameCodes[j];
  }

  lemma {:induction false} ShortNameCodes()
    ensures |ShortNames| == 12
    ensures forall i :: 0 <= i < 12 ==> Code(ShortNames[i]) == NameCodes[i]
  {
    assert Code("Jan") == NameCodes[0] && Code("Feb") == NameCodes[1] && Code("Mar") == NameCodes[2];
    assert Code("Apr") == NameCodes[3] && Code("May") == NameCodes[4] && Code("Jun") == NameCodes[5];
    assert Code("Jul") == NameCodes[6] && Code("Aug") == NameCodes[7] && Code("Sep") == NameCodes[8];
    assert Code("Oct") == NameCodes[9] && Code("Nov") == NameCodes[10] && Code("Dec") == NameCodes[11];
  }

  /** A month name starts the way the table's name does, case ignored. */
  predicate NameOf(name: string, long: bool, m: nat)
    requires 1 <= m <= 12
  {
    |name| == |MonthName(long, m)| && FoldEqual(name, MonthName(long, m))
  }

  /** Texts that agree in their first three characters have one code. */
  lemma {:induction false} CodePrefix(s: string, t: string)
    requires |s| >= 3 && |t| >= 3 && s[..3] == t[..3]
    ensures Code(s) == Code(t)
  {
    assert s[0] == s[..3][0] && s[1] == s[..3][1] && s[2] == s[..3][2];
    assert t[0] == t[..3][0] && t[1] == t[..3][1] && t[2] == t[..3][2];
  }

  /** Of the names in either table, only those of month `m` share the
      code of a text that starts with a name of month `m`. */
  lemma {:induction false} CodesApart(name: string, long: bool, m: nat, rest: string, tabLong: bool)
    requires 1 <= m <= 12 && NameOf(name, long, m)
    ensures var tab := if tabLong then LongNames else ShortNames;
      |tab| == 12 && (forall i :: 0 <= i < 12 ==> |tab[i]| >= 3) &&
      forall i :: 0 <= i < 12 && i != m - 1 ==> Code(tab[i]) != Code(name + rest)
  {
    NameTables();
    NameCodesDistinct();
    var own := MonthName(long, m);
    assert name[..|own|] == name;
    MatchCode(own, name);
    CodePrefix(name, name + rest);
    CodePrefix(LongNames[m - 1], ShortNames[m - 1]);
    forall i | 0 <= i < 12
      ensures Code(LongNames[i]) == Code(ShortNames[i])
    {
      CodePrefix(LongNames[i], ShortNames[i]);
    }
  }

  /** Go's skip of a single space before a text that starts elsewhere. */
  lemma {:induction false} SpaceSkip(s: string)
    requires |s| > 0 && s[0] != ' '
    ensures Skip(" " + s, " ") == Some(s)
  {
    assert (" " + s)[1..] == s;
    assert " "[1..] == "";
    assert Text.TrimLeft(" ") == "";
    assert Text.TrimLeft(" " + s) == Text.TrimLeft(s) == s;
  }

  /** The literal between day and year matches only its own kind. */
  lemma {:induction false} SepSkip(comma: bool, layoutComma: bool, s: string)
    requires |s| > 0 && IsDigit(s[0])
    ensures Skip(Sep(comma) + s, Sep(layoutComma)) == if comma == layoutComma then Some(s) else None
  {
    SpaceSkip(s);
    if comma && layoutComma {
      assert (", " + s)[1..] == " " + s;
      assert ", "[1..] == " ";
    }
  }

  /** The day, the literal and the year after a month name and its space. */
  lemma {:induction false} NamedRestElems(d: nat, comma: bool, y: int, layoutComma: bool, f: Fields)
    requires d < 100 && 0 <= y <= 9999
    ensures ParseElems([NumDay, Lit(Sep(layoutComma)), LongYear], NamedRest(d, comma, y), f)
         == if comma == layoutComma then Some(f.(day := d, year := y)) else None
  {
    var py := SignedPad(y, 4);
    var l := [NumDay, Lit(Sep(layoutComma)), LongYear];
    PadDigitsWidth(y, 4);
    GetNumDecimal(d, Sep(comma) + py, false);
    var f1 := f.(day := d);
    ElemsCons(l, NamedRest(d, comma, y), f, Sep(comma) + py, f1);
    SepSkip(comma, layoutComma, py);
    assert l[1..][0] == Lit(Sep(layoutComma));
    if comma == layoutComma {
      ElemsCons(l[1..], Sep(comma) + py, f1, py, f1);
      YearStep(y, "", f1);
      assert py + "" == py;
      ElemsCons(l[1..][1..], py, f1, "", f1.(year := y));
      assert l[1..][1..][1..] == [];
    }
  }

  /** What a named layout reads after the month name. */
  lemma {:induction false} AfterName(layoutLong: bool, layoutComma: bool, r: string, d: nat, comma: bool, y: int, f: Fields)
    requires d < 100 && 0 <= y <= 9999
    requires r == " " + NamedRest(d, comma, y) || (|r| > 0 && IsLetter(r[0]))
    ensures ParseElems(NamedLayout(layoutLong, layoutComma)[1..], r, f) ==
      if r == " " + NamedRest(d, comma, y) && comma == layoutComma then Some(f.(day := d, year := y)) else None
  {
    var l := NamedLayout(layoutLong, layoutComma)[1..];
    assert l[0] == Lit(" ") && l[1..] == [NumDay, Lit(Sep(layoutComma)), LongYear];
    if r == " " + NamedRest(d, comma, y) {
      var rest := NamedRest(d, comma, y);
      assert rest[0] == Decimal(d)[0];
      SpaceSkip(rest);
      ElemsCons(l, r, f, rest, f);
      NamedRestElems(d, comma, y, layoutComma, f);
    }
  }

  /** The month name read by a named layout: the text's own month when the
      layout takes names of the text's kind (or the month is May, whose
      names coincide); otherwise nothing, or a name followed by a letter. */
  lemma {:induction false} NamedStep(name: string, long: bool, m: nat, rest: string, layoutLong: bool, f: Fields)
    requires 1 <= m <= 12 && NameOf(name, long, m) && |rest| > 0 && rest[0] == ' '
    ensures var s := Step(if layoutLong then LongMonth else ShortMonth, name + rest, f);
      if long == layoutLong || m == 5 then s == Some((rest, f.(month := m)))
      else s.None? || (|s.value.0| > 0 && IsLetter(s.value.0[0]))
  {
    if long == layoutLong || m == 5 {
      OwnNameStep(name, long, m, rest, layoutLong);
    } else if layoutLong {
      LongMissesShort(name, m, name + rest);
      NamedFind(name, long, m, name + rest, true);
    } else {
      ShortFindsLong(name, m, name + rest);
      NamedFind(name, long, m, name + rest, false);
    }
  }

  /** A name of month `m` is found in a table whose entry for `m` is a
      name of that form. */
  lemma {:induction false} OwnNameStep(name: string, long: bool, m: nat, rest: string, tabLong: bool)
    requires 1 <= m <= 12 && NameOf(name, long, m) && (long == tabLong || m == 5)
    ensures var tab := if tabLong then LongNames else ShortNames;
      |tab| == 12 && Lookup(tab, name + rest, 0) == Some((m - 1, rest))
  {
    var tab := if tabLong then LongNames else ShortNames;
    var v := name + rest;
    assert v[..|name|] == name && v[|name|..] == rest;
    NamedFind(name, long, m, v, tabLong);
    NameTables();
    assert tab[m - 1] == MonthName(long, m);
    assert Matches(tab[m - 1], v);
  }

  /** Go's lookup on a text that starts with a name of month `m` finds
      that month's entry of the table, or nothing. */
  lemma {:induction false} NamedFind(name: string, long: bool, m: nat, v: string, tabLong: bool)
    requires 1 <= m <= 12 && NameOf(name, long, m)
    requires |v| >= |name| && v[..|name|] == name
    ensures var tab := if tabLong then LongNames else ShortNames;
      |tab| == 12 && Lookup(tab, v, 0) ==
        if Matches(tab[m - 1], v) then Some((m - 1, v[|tab[m - 1]|..])) else None
  {
    var tab := if tabLong then LongNames else ShortNames;
    assert name + v[|name|..] == v;
    CodesApart(name, long, m, v[|name|..], tabLong);
    NameTables();
    LookupByCode(tab, v, 0, m - 1);
  }

  /** A long name other than May does not match a short name followed by
      a space. */
  lemma {:induction false} LongMissesShort(name: string, m: nat, v: string)
    requires 1 <= m <= 12 && m != 5 && NameOf(name, false, m)
    requires |v| > |name| && v[..|name|] == name && v[|name|] == ' '
    ensures !Matches(LongNames[m - 1], v)
  {
    NameTables();
    var own := LongNames[m - 1];
    assert |name| == 3 && |own| > 3 && IsLetter(own[3]);
    if |v| >= |own| {
      var p := v[..|own|];
      assert p[3] == v[3] == ' ';
      assert p[3] != own[3] && !IsLetter(p[3]);
    }
  }

  /** A short name matches the start of its long name, and a letter
      follows, except for May. */
  lemma {:induction false} ShortFindsLong(name: string, m: nat, v: string)
    requires 1 <= m <= 12 && m != 5 && NameOf(name, true, m)
    requires |v| >= |name| && v[..|name|] == name
    ensures Matches(ShortNames[m - 1], v) && |v[3..]| > 0 && IsLetter(v[3..][0])
  {
    NameTables();
    var own := ShortNames[m - 1];
    var long := LongNames[m - 1];
    forall i | 0 <= i < 3
      ensures v[..3][i] == own[i] || (IsLetter(v[..3][i]) && IsLetter(own[i]) && Text.LowerChar(v[..3][i]) == Text.LowerChar(own[i]))
    {
      assert v[..3][i] == name[i] && own[i] == long[..3][i] == long[i];
    }
    assert v[3..][0] == name[3];
    assert IsLetter(long[3]);
  }

  /** A named layout on a named text reads the text's year, month and day
      when it takes the text's kind of name and separator, and nothing
      otherwise. */
  lemma {:induction false} NamedElems(name: string, long: bool, m: nat, d: nat, comma: bool, y: int,
                                      layoutLong: bool, layoutComma: bool)
    requires 1 <= m <= 12 && NameOf(name, long, m) && d < 100 && 0 <= y <= 9999
    ensures ParseElems(NamedLayout(layoutLong, layoutComma), NamedText(name, d, comma, y), Fields(0, -1, -1)) ==
      if comma == layoutComma && (long == layoutLong || m == 5) then Some(Fields(y, m, d)) else None
  {
    if long == layoutLong || m == 5 {
      NamedElemsOwn(name, long, m, d, comma, y, layoutLong, layoutComma);
    } else {
      NamedElemsOther(name, long, m, d, comma, y, layoutLong, layoutComma);
    }
  }

  /** A named layout taking the text's kind of month name reads on past it. */
  lemma {:induction false} NamedElemsOwn(name: string, long: bool, m: nat, d: nat, comma: bool, y: int,
                                         layoutLong: bool, layoutComma: bool)
    requires 1 <= m <= 12 && NameOf(name, long, m) && d < 100 && 0 <= y <= 9999
    requires long == layoutLong || m == 5
    ensures ParseElems(NamedLayout(layoutLong, layoutComma), NamedText(name, d, comma, y), Fields(0, -1, -1)) ==
      if comma == layoutComma then Some(Fields(y, m, d)) else None
  {
    var rest := " " + NamedRest(d, comma, y);
    var v := NamedText(name, d, comma, y);
    var l := NamedLayout(layoutLong, layoutComma);
    var f0 := Fields(0, -1, -1);
    assert v == name + rest;
    NamedStep(name, long, m, rest, layoutLong, f0);
    ElemsCons(l, v, f0, rest, f0.(month := m));
    AfterName(layoutLong, layoutComma, rest, d, comma, y, f0.(month := m));
  }

  /** A named layout taking the other kind of month name reads nothing. */
  lemma {:induction false} NamedElemsOther(name: string, long: bool, m: nat, d: nat, comma: bool, y: int,
                                           layoutLong: bool, layoutComma: bool)
    requires 1 <= m <= 12 && NameOf(name, long, m) && d < 100 && 0 <= y <= 9999
    requires long != layoutLong && m != 5
    ensures ParseElems(NamedLayout(layoutLong, layoutComma), NamedText(name, d, comma, y), Fields(0, -1, -1)).None?
  {
    var rest := " " + NamedRest(d, comma, y);
    var v := NamedText(name, d, comma, y);
    var l := NamedLayout(layoutLong, layoutComma);
    var f0 := Fields(0, -1, -1);
    assert v == name + rest;
    NamedStep(name, long, m, rest, layoutLong, f0);
    var s := Step(l[0], v, f0);
    if s.None? {
      ElemsStop(l, v, f0);
    } else {
      var r, f1 := s.value.0, s.value.1;
      ElemsCons(l, v, f0, r, f1);
      AfterName(layoutLong, layoutComma, r, d, comma, y, f1);
    }
  }

  /** A named layout on a named text: the text's date when the layout
      takes the text's kind of name and separator and the day exists in
      the month; nothing otherwise. */
  lemma {:induction false} NamedParse(name: string, long: bool, m: nat, d: nat, comma: bool, y: int,
                                      layoutLong: bool, layoutComma: bool)
    requires 1 <= m <= 12 && NameOf(name, long, m) && d < 100 && 0 <= y <= 9999
    ensures Parse(NamedLayout(layoutLong, layoutComma), NamedText(name, d, comma, y)) ==
      if comma == layoutComma && (long == layoutLong || m == 5) && 1 <= d <= DaysIn(m, y)
      then Some(Time(y, m, d, 0)) else None
  {
    var v := NamedText(name, d, comma, y);
    var l := NamedLayout(layoutLong, layoutComma);
    NamedElems(name, long, m, d, comma, y, layoutLong, layoutComma);
    if comma == layoutComma && (long == layoutLong || m == 5) {
      ParseOfFields(l, v, y, m, d);
    } else {
      ParseNone(l, v);
    }
  }

  /** A layout whose first element fails reads nothing. */
  lemma {:induction false} ElemsStop(l: seq<Elem>, value: string, f: Fields)
    requires |l| > 0 && Step(l[0], value, f).None?
    ensures ParseElems(l, value, f).None?
  {
  }

  /** When the elements read nothing, neither does the parse. */
  lemma {:induction false} ParseNone(l: seq<Elem>, value: string)
    requires ParseElems(l, value, Fields(0, -1, -1)).None?
    ensures Parse(l, value).None?
  {
  }

  /** Layouts four to seven are the named ones. */
  lemma {:induction false} NamedLayouts()
    ensures Layouts[3] == NamedLayout(false, true) && Layouts[4] == NamedLayout(true, true)
    ensures Layouts[5] == NamedLayout(false, false) && Layouts[6] == NamedLayout(true, false)
  {
  }

  /** A named text, its month name in either table's form and any case,
      reads back as its own date exactly when the day exists in the month;
      otherwise (February 30, say) every layout rejects it. */
  lemma {:induction false} NamedTextParses(name: string, long: bool, m: nat, d: nat, comma: bool, y: int)
    requires 1 <= m <= 12 && NameOf(name, long, m) && d < 100 && 0 <= y <= 9999
    ensures ParseFirst(NamedText(name, d, comma, y), 0) ==
      if 1 <= d <= DaysIn(m, y) then Some(Time(y, m, d, 0)) else None
  {
    var v := NamedText(name, d, comma, y);
    var e := if 1 <= d <= DaysIn(m, y) then Some(Time(y, m, d, 0)) else None;
    NamedStartsWithLetter(name, long, m, d, comma, y);
    NumericNone(v);
    NamedParse(name, long, m, d, comma, y, false, true);
    NamedParse(name, long, m, d, comma, y, true, true);
    NamedParse(name, long, m, d, comma, y, false, false);
    NamedParse(name, long, m, d, comma, y, true, false);
    NamedSearch(v, e, long, comma);
  }

  /** A named text starts with a letter, not a digit. */
  lemma {:induction false} NamedStartsWithLetter(name: string, long: bool, m: nat, d: nat, comma: bool, y: int)
    requires 1 <= m <= 12 && NameOf(name, long, m)
    ensures var v := NamedText(name, d, comma, y); |v| > 0 && !IsDigit(v[0])
  {
    NamesStartWithLetters();
    var v := NamedText(name, d, comma, y);
    assert v[0] == name[0] && IsLetter(MonthName(long, m)[0]);
  }

  /** When each named layout rejects the value or gives `e`, and the one
      taking the given kind of name and separator gives `e`, the search
      from the fourth layout on gives `e`. */
  lemma {:induction false} NamedSearch(v: string, e: Option<Date>, long: bool, comma: bool)
    requires Parse(NamedLayout(false, true), v) == e || Parse(NamedLayout(false, true), v).None?
    requires Parse(NamedLayout(true, true), v) == e || Parse(NamedLayout(true, true), v).None?
    requires Parse(NamedLayout(false, false), v) == e || Parse(NamedLayout(false, false), v).None?
    requires Parse(NamedLayout(true, false), v) == e || Parse(NamedLayout(true, false), v).None?
    requires Parse(NamedLayout(long, comma), v) == e
    ensures ParseFirst(v, 3) == e
  {
    NamedLayouts();
    assert ParseFirst(v, 7) == None;
  }

  /** Every layout's text of a date reads back as that date: the basic, the
      slash, and the four named texts alike. */
  lemma {:induction false} EveryLayoutSameDate(t: Date)
    requires Midnight(t) && 0 <= t.year <= 9999
    ensures ParseFirst(BasicText(t.year, t.month, t.day), 0) == Some(t)
    ensures ParseFirst(SlashText(t.month, t.day, t.year), 0) == Some(t)
    ensures ParseFirst(ZeroSlashText(t.month, t.day, t.year), 0) == Some(t)
    ensures forall long: bool, comma: bool ::
      ParseFirst(NamedText(MonthName(long, t.month), t.day, comma, t.year), 0) == Some(t)
  {
    BasicTextParses(t.year, t.month, t.day);
    SlashTextParses(t.month, t.day, t.year);
    ZeroSlashTextParses(t.month, t.day, t.year);
    forall long: bool, comma: bool
      ensures ParseFirst(NamedText(MonthName(long, t.month), t.day, comma, t.year), 0) == Some(t)
    {
      NamedTextParses(MonthName(long, t.month), long, t.month, t.day, comma, t.year);
    }
  }

  // ---------------------------------------------------------------- worked examples

  lemma {:induction false} Year2001()
    ensures AllDigits("2001") && ValueOf("2001") == 2001
  {
    assert "2001"[..3] == "200" && "200"[..2] == "20" && "20"[..1] == "2" && "2"[..0] == "";
  }

  lemma {:induction false} Year2021()
    ensures AllDigits("2021") && ValueOf("2021") == 2021
  {
    assert "2021"[..3] == "202" && "202"[..2] == "20" && "20"[..1] == "2" && "2"[..0] == "";
  }

  /** "20010001": the basic layout reads a year and then month 00, which
      is out of range; the slash layouts read month 20; the named layouts
      need a letter. */
  lemma {:induction false} MonthZeroRejected()
    ensures ParseFirst("20010001", 0).None?
  {
    var v := "20010001";
    var f0 := Fields(0, -1, -1);
    var f1 := f0.(year := ValueOf(v[..4]));
    assert v[..4] == "2001" && v[4..] == "0001";
    assert Step(LongYear, v, f0) == Some(("0001", f1));
    assert GetNum("0001", true) == Some((0, "01"));
    assert Step(ZeroMonth, "0001", f1).None?;
    ElemsCons(Basic, v, f0, "0001", f1);
    assert Basic[1..][0] == ZeroMonth;
    assert Parse(Basic, v).None?;
    assert GetNum(v, false) == Some((20, v[2..])) && GetNum(v, true) == Some((20, v[2..]));
    assert Slash[0] == NumMonth && ZeroSlash[0] == ZeroMonth;
    assert Parse(Slash, v).None? && Parse(ZeroSlash, v).None?;
    FirstLayout(v);
    SecondLayout(v);
    ThirdLayout(v);
    NamedNone(v);
  }

  /** The years of the worked examples, padded to four digits. */
  lemma {:induction false} ExampleYears()
    ensures SignedPad(2000, 4) == "2000" && SignedPad(2001, 4) == "2001"
  {
    assert Pow10(3) == 1000 && Pow10(4) == 10000;
    FullWidth(2000, 4);
    FullWidth(2001, 4);
    assert Digits(20) == Digits(2) + "0";
    assert Digits(200) == Digits(20) + "0";
    assert Digits(2000) == Digits(200) + "0";
    assert Digits(2001) == Digits(200) + "1";
  }

  /** "October 3, 2001" is October 3, 2001, read by the "January 2, 2006"
      layout. */
  lemma {:induction false} OctoberThird()
    ensures ParseFirst("October 3, 2001", 0) == Some(Time(2001, 10, 3, 0))
  {
    ExampleYears();
    assert Decimal(3) == "3";
    assert NamedText("October", 3, true, 2001) == "October 3, 2001";
    assert NameOf("October", true, 10) by {
      assert MonthName(true, 10) == "October";
    }
    NamedTextParses("October", true, 10, 3, true, 2001);
  }

  /** "feb" is February's short name, case ignored. */
  lemma {:induction false} FebName()
    ensures NameOf("feb", false, 2)
  {
    assert MonthName(false, 2) == "Feb";
    forall i | 0 <= i < 3
      ensures "feb"[i] == "Feb"[i] || (IsLetter("feb"[i]) && IsLetter("Feb"[i]) && Text.LowerChar("feb"[i]) == Text.LowerChar("Feb"[i]))
    {
      assert Text.LowerChar('F') == 'f';
    }
  }

  /** "feb 30, 2000" is no date: the lower-case name is February's, and
      February 2000 has 29 days. */
  lemma {:induction false} FebruaryThirtieth()
    ensures ParseFirst("feb 30, 2000", 0).None?
  {
    ExampleYears();
    assert Decimal(30) == "30" by {
      assert Digits(30) == Digits(3) + "0";
    }
    assert NamedText("feb", 30, true, 2000) == "feb 30, 2000";
    FebName();
    NamedTextParses("feb", false, 2, 30, true, 2000);
  }

  /** "03/04/2001" is March 4, 2001: the "1/2/2006" layout reads the
      zero-padded month and day. */
  lemma {:induction false} MarchFourth()
    ensures ParseFirst("03/04/2001", 0) == Some(Time(2001, 3, 4, 0))
  {
    MarchFourthText();
    ZeroSlashTextParses(3, 4, 2001);
  }

  lemma {:induction false} MarchFourthText()
    ensures ZeroSlashText(3, 4, 2001) == "03/04/2001"
  {
    FourthOf2001();
    PadThree();
    SlashJoin(PadDigits(3, 2), PaddedDayYearText(4, 2001), "03", "04/2001");
    ExampleTexts();
  }

  lemma {:induction false} FourthOf2001()
    ensures PaddedDayYearText(4, 2001) == "04/2001"
  {
    ExampleYears();
    PadFour();
    SlashJoin(PadDigits(4, 2), SignedPad(2001, 4), "04", "2001");
    ExampleTexts();
  }

  lemma {:induction false} ExampleTexts()
    ensures "04" + "/" + "2001" == "04/2001"
    ensures "03" + "/" + "04/2001" == "03/04/2001"
  {
  }

  /** Two texts joined by a slash, once their contents are known. */
  lemma {:induction false} SlashJoin(a: string, b: string, a': string, b': string)
    requires a == a' && b == b'
    ensures a + ("/" + b) == a' + "/" + b'
  {
  }

  lemma {:induction false} PadThree()
    ensures PadDigits(3, 2) == "03"
  {
    OneDigitPad(3);
  }

  lemma {:induction false} PadFour()
    ensures PadDigits(4, 2) == "04"
  {
    OneDigitPad(4);
  }

  /** A one-digit number padded to two digits is a zero and its digit. */
  lemma {:induction false} OneDigitPad(n: nat)
    requires n < 10
    ensures PadDigits(n, 2) == ['0', DigitChar(n)]
  {
    assert Digits(n) == [DigitChar(n)];
    assert Zeros(1) == Zeros(0) + "0" == "0";
  }

  /** "2021-01-01" is no date under any of the seven layouts: the basic
      layout finds a dash after the year, and the slash layouts read 20 as
      the month. */
  lemma {:induction false} DashedDateRejected()
    ensures ParseFirst("2021-01-01", 0).None?
  {
    var v := "2021-01-01";
    var f0 := Fields(0, -1, -1);
    var f1 := f0.(year := 2021);
    Year2021();
    assert v[..4] == "2021" && v[4..] == "-01-01";
    assert Step(LongYear, v, f0) == Some(("-01-01", f1));
    assert Step(ZeroMonth, "-01-01", f1).None?;
    ElemsCons(Basic, v, f0, "-01-01", f1);
    assert Basic[1..][0] == ZeroMonth;
    assert Parse(Basic, v).None?;
    assert GetNum(v, false) == Some((20, v[2..])) && GetNum(v, true) == Some((20, v[2..]));
    assert Slash[0] == NumMonth && ZeroSlash[0] == ZeroMonth;
    assert Parse(Slash, v).None? && Parse(ZeroSlash, v).None?;
    FirstLayout(v);
    SecondLayout(v);
    ThirdLayout(v);
    NamedNone(v);
  }

  /** "20210101" is January 1, 2021 in the basic layout. */
  lemma {:induction false} NewYear2021()
    ensures ParseFirst("20210101", 0) == Some(Time(2021, 1, 1, 0))
  {
    var v := "20210101";
    var f0 := Fields(0, -1, -1);
    var f1 := f0.(year := 2021);
    var f2 := f1.(month := 1);
    var l := Basic;
    Year2021();
    assert v[..4] == "2021" && v[4..] == "0101";
    ElemsCons(l, v, f0, "0101", f1);
    assert GetNum("0101", true) == Some((1, "01"));
    ElemsCons(l[1..], "0101", f1, "01", f2);
    assert GetNum("01", true) == Some((1, ""));
    ElemsCons(l[1..][1..], "01", f2, "", f2.(day := 1));
    assert l[1..][1..][1..] == [];
  }
}
