/** Go's `any` as the conversion functions of utilities.go see it, and the
    conversions themselves: Any2Int, Any2Int32, Any2Int64, Any2Float32 and
    Any2Float64 (acceptance only), Any2String, ToClickHouse, PrettyString,
    String2Kind, Any2Kind and Any2Date.

    The platform `int` is 64 bits wide. Floating-point values are opaque:
    they carry the texts fmt prints for them, and a conversion whose outcome
    float arithmetic decides answers `FloatPath`. */
module Dynamic {
  import opened Results
  import opened Numbers
  import Calendar
  import TimeParse
  import Text

  /** What fmt prints for a float: "%0.2f", "%v" and PrettyString's choice
      of decimals. */
  datatype FloatText = FloatText(fixed2: string, plain: string, pretty: string)

  /** A value stored in an `any`, by its dynamic type. */
  datatype Dyn =
    | Int(n: int64)            // Go int on a 64-bit platform; untyped integer constants
    | I32(n32: int32)
    | I64(n64: int64)
    | F32(text: FloatText)
    | F64(text: FloatText)
    | Str(s: string)
    | Date(t: Calendar.Date)   // time.Time in UTC
    | Nil                      // the untyped nil
    | Other(shown: string)     // any other type, with its "%v" text

  predicate IsInteger(v: Dyn) {
    v.Int? || v.I32? || v.I64?
  }

  predicate IsFloat(v: Dyn) {
    v.F32? || v.F64?
  }

  function IntValue(v: Dyn): int64
    requires IsInteger(v)
  {
    match v
    case Int(n) => n
    case I32(n) => n
    case I64(n) => n
  }

  /** strconv.ParseInt(s, 10, bits) as a Result: any failure, overflow
      included, is "cannot convert". */
  function ParseOrFail(s: string, bits: nat): (r: Result<int64>)
    requires 1 <= bits <= 64
    ensures r.Ok? || r == Err(CannotConvert)
    ensures r.Ok? <==> ParseInt(s, bits).Some?
    ensures r.Ok? ==> r.value == ParseInt(s, bits).value && InBits(r.value, bits)
  {
    match ParseInt(s, bits)
    case None => Err(CannotConvert)
    case Some(x) =>
      InBitsWider(x, bits, 64);
      InBits64(x);
      Ok(x)
  }

  // ---------------------------------------------------------------- integers

  /** Any2Int64: every integer type widens; a string must parse as a
      64-bit decimal; floats leave the model. */
  function Any2Int64(v: Dyn): (r: Result<int64>)
    ensures IsInteger(v) ==> r == Ok(IntValue(v))
    ensures r.FloatPath? <==> IsFloat(v)
    ensures r.Err? ==> r.error == CannotConvert && !IsInteger(v)
    ensures v.Str? ==> (r.Ok? <==> ParseInt(v.s, 64).Some?)
  {
    match v
    case Int(n) => Ok(n)
    case I32(n) => Ok(n)
    case I64(n) => Ok(n)
    case F32(_) => FloatPath
    case F64(_) => FloatPath
    case Str(s) => ParseOrFail(s, 64)
    case _ => Err(CannotConvert)
  }

  /** Any2Int32: an `int` is truncated to its low 32 bits without a range
      check, an int64 outside the int32 range is "out of range", and a
      string too large for 32 bits "cannot convert". */
  function Any2Int32(v: Dyn): (r: Result<int32>)
    ensures v.Int? ==> r == Ok(Wrap32(v.n))
    ensures v.I32? ==> r == Ok(v.n32)
    ensures v.I64? ==> (r == Err(OutOfRange) <==> !(MinInt32 <= v.n64 <= MaxInt32))
    ensures v.I64? && MinInt32 <= v.n64 <= MaxInt32 ==> r == Ok(v.n64)
    ensures r == Err(OutOfRange) ==> v.I64?
    ensures r.FloatPath? <==> IsFloat(v)
    ensures v.Str? ==> (r.Ok? <==> ParseInt(v.s, 32).Some?) && (r.Err? ==> r.error == CannotConvert)
  {
    match v
    case Int(n) => Ok(Wrap32(n))
    case I32(n) => Ok(n)
    case I64(n) => if n > MaxInt32 || n < MinInt32 then Err(OutOfRange) else Ok(n)
    case F32(_) => FloatPath
    case F64(_) => FloatPath
    case Str(s) =>
      (match ParseOrFail(s, 32)
       case Ok(x) => InBits32(x); Ok(x)
       case _ => Err(CannotConvert))
    case _ => Err(CannotConvert)
  }

  /** Any2Int: integers pass (an int64 always fits a 64-bit int), but a
      string is parsed with bit size 32. */
  function Any2Int(v: Dyn): (r: Result<int64>)
    ensures IsInteger(v) ==> r == Ok(IntValue(v))
    ensures r.FloatPath? <==> IsFloat(v)
    ensures r.Err? ==> r.error == CannotConvert && !IsInteger(v)
    ensures v.Str? && r.Ok? ==> MinInt32 <= r.value <= MaxInt32
  {
    match v
    case Int(n) => Ok(n)
    case I32(n) => Ok(n)
    case I64(n) => Ok(n)
    case F32(_) => FloatPath
    case F64(_) => FloatPath
    case Str(s) => InBits32Result(s); ParseOrFail(s, 32)
    case _ => Err(CannotConvert)
  }

  lemma {:induction false} InBits32Result(s: string)
    ensures ParseOrFail(s, 32).Ok? ==> MinInt32 <= ParseOrFail(s, 32).value <= MaxInt32
  {
    if ParseOrFail(s, 32).Ok? {
      InBits32(ParseOrFail(s, 32).value);
    }
  }

  /** Any2Float32 and Any2Float64 accept exactly the numeric types and the
      strings; the value they produce, and whether strconv.ParseFloat
      accepts a given string, is float arithmetic. */
  function Any2Float(v: Dyn): (r: Result<()>)
    ensures !r.Ok?
    ensures r.FloatPath? <==> IsInteger(v) || IsFloat(v) || v.Str?
    ensures r.Err? ==> r.error == CannotConvert
  {
    match v
    case Date(_) => Err(CannotConvert)
    case Nil => Err(CannotConvert)
    case Other(_) => Err(CannotConvert)
    case _ => FloatPath
  }

  // ---------------------------------------------------------------- texts

  /** Any2String: strings as they are, dates as "1/2/2006", floats with two
      decimals and everything else as "%v" prints it. */
  function Any2String(v: Dyn): (r: string)
    ensures v.Str? ==> r == v.s
    ensures IsInteger(v) ==> r == Decimal(IntValue(v))
  {
    match v
    case Str(s) => s
    case Date(t) => Calendar.SlashFormat(t)
    case F32(x) => x.fixed2
    case F64(x) => x.fixed2
    case Int(n) => Decimal(n)
    case I32(n) => Decimal(n)
    case I64(n) => Decimal(n)
    case Nil => "<nil>"
    case Other(shown) => shown
  }

  /** ToClickHouse: a ClickHouse literal; numbers bare, strings and dates
      (as YYYYMMDD) in single quotes, anything else empty. */
  function ToClickHouse(v: Dyn): (r: string)
    ensures IsInteger(v) ==> r == Any2String(v)
    ensures v.Str? ==> r == "'" + v.s + "'"
    ensures v.Date? ==> r == "'" + Calendar.BasicFormat(v.t) + "'"
    ensures v.Nil? || v.Other? ==> r == ""
  {
    match v
    case Int(n) => Decimal(n)
    case I32(n) => Decimal(n)
    case I64(n) => Decimal(n)
    case F32(x) => x.plain
    case F64(x) => x.plain
    case Str(s) => "'" + s + "'"
    case Date(t) => "'" + Calendar.BasicFormat(t) + "'"
    case _ => ""
  }

  /** PrettyString: integers with thousands separators, dates as
      2006-01-02, nil and unknown types empty. */
  function PrettyString(v: Dyn): (r: string)
    ensures v.Nil? || v.Other? ==> r == ""
    ensures IsInteger(v) ==> r == Comma(IntValue(v))
    ensures v.Str? ==> r == v.s
    ensures v.Date? ==> r == Calendar.ExtendedFormat(v.t)
  {
    match v
    case Nil => ""
    case Int(n) => Comma(n)
    case I32(n) => Comma(n)
    case I64(n) => Comma(n)
    case F32(x) => x.pretty
    case F64(x) => x.pretty
    case Str(s) => s
    case Date(t) => Calendar.ExtendedFormat(t)
    case Other(_) => ""
  }

  /** Removing the separators from PrettyString of an integer gives its
      plain decimal text, the one Any2String and ToClickHouse print. */
  lemma {:induction false} PrettyStringIntegers(v: Dyn)
    requires IsInteger(v)
    ensures RemoveCommas(PrettyString(v)) == Any2String(v) == ToClickHouse(v)
  {
    CommaDecimal(IntValue(v));
  }

  // ---------------------------------------------------------------- dates

  /** Go's Any2Date on a string: quotes removed, then the first of the
      seven layouts that parses. */
  function DateOfText(s: string): (r: Result<Calendar.Date>)
    ensures r.Ok? || r == Err(CannotConvertDate)
    ensures r.Ok? ==> Calendar.Midnight(r.value)
  {
    match TimeParse.ParseFirst(Text.StripQuotes(s), 0)
    case Some(t) => Ok(t)
    case None => Err(CannotConvertDate)
  }

  /** What Any2Date computes: a date passes through, a string is parsed,
      an integer is parsed as its decimal text, anything else fails. */
  function AsDate(v: Dyn): (r: Result<Calendar.Date>)
    ensures v.Date? ==> r == Ok(v.t)
    ensures IsInteger(v) ==> r == AsDate(Str(Decimal(IntValue(v))))
    ensures r.Ok? || r == Err(CannotConvertDate)
    ensures r.Ok? && !v.Date? ==> Calendar.Midnight(r.value)
    ensures !(v.Str? || v.Date? || IsInteger(v)) ==> r.Err?
    decreases if v.Str? then 0 else 1
  {
    match v
    case Str(s) => DateOfText(s)
    case Date(t) => Ok(t)
    case Int(n) => DateOfText(Decimal(n))
    case I32(n) => DateOfText(Decimal(n))
    case I64(n) => DateOfText(Decimal(n))
    case _ => Err(CannotConvertDate)
  }

  /** Any2Date: tries the layouts in order and returns the first success. */
  method Any2Date(v: Dyn) returns (r: Result<Calendar.Date>)
    ensures r == AsDate(v)
    decreases if v.Str? then 0 else 1
  {
    match v {
      case Str(x) =>
        var k := 0;
        while k < |TimeParse.Layouts|
          invariant 0 <= k <= |TimeParse.Layouts|
          invariant TimeParse.ParseFirst(Text.StripQuotes(x), 0) == TimeParse.ParseFirst(Text.StripQuotes(x), k)
        {
          var dt := TimeParse.Parse(TimeParse.Layouts[k], Text.StripQuotes(x));
          if dt.Some? {
            return Ok(dt.value);
          }
          k := k + 1;
        }
        return Err(CannotConvertDate);
      case Date(t) =>
        return Ok(t);
      case Int(n) =>
        r := Any2Date(Str(Decimal(n)));
      case I32(n) =>
        r := Any2Date(Str(Decimal(n)));
      case I64(n) =>
        r := Any2Date(Str(Decimal(n)));
      case _ =>
        return Err(CannotConvertDate);
    }
  }

  lemma {:induction false} NoQuotesInDigits(d: string)
    requires AllDigits(d)
    ensures Text.StripQuotes(d) == d
  {
    assert forall i :: 0 <= i < |d| ==> d[i] != '\'';
    Text.StripQuotesNone(d);
  }

  /** A date Any2String has printed reads back as the same date, for a
      midnight date with a year of at most four digits. */
  lemma {:induction false} SlashRoundTrip(d: Calendar.Date)
    requires Calendar.Midnight(d) && 0 <= d.year <= 9999
    ensures AsDate(Str(Any2String(Date(d)))) == Ok(d)
  {
    TimeParse.SlashFormatText(d);
    SlashTextDates(d.month, d.day, d.year);
  }

  lemma {:induction false} QuotedDigits(b: string)
    requires AllDigits(b)
    ensures Text.StripQuotes("'" + b + "'") == b
  {
    NoQuotesInDigits(b);
    Text.StripQuotesAppend("'", b);
    Text.StripQuotesAppend("'" + b, "'");
    assert Text.StripQuotes("'") == "";
  }

  /** A date ToClickHouse has quoted reads back as the same date: the
      quotes are stripped and the basic layout matches. */
  lemma {:induction false} ClickHouseRoundTrip(d: Calendar.Date)
    requires Calendar.Midnight(d) && 0 <= d.year <= 9999
    ensures AsDate(Str(ToClickHouse(Date(d)))) == Ok(d)
  {
    var b := Calendar.BasicFormat(d);
    ClickHouseNoQuotes(d);
    assert AsDate(Str(ToClickHouse(Date(d)))) == DateOfText("'" + b + "'");
    TimeParse.BasicFormatParses(d);
  }

  /** ToClickHouse quotes the digits of the basic layout, and nothing else. */
  lemma {:induction false} ClickHouseNoQuotes(d: Calendar.Date)
    requires Calendar.Midnight(d) && 0 <= d.year <= 9999
    ensures Text.StripQuotes("'" + Calendar.BasicFormat(d) + "'") == Calendar.BasicFormat(d)
  {
    Calendar.FormatShapes(d);
    QuotedDigits(Calendar.BasicFormat(d));
  }

  /** A month/day/year text, the form Any2String prints, is a date exactly
      when the month is 1..12 and the day lies within it: February 30 is
      rejected in every year, February 29 outside leap years. */
  lemma {:induction false} SlashTextDates(m: nat, d: nat, y: int)
    requires m < 100 && d < 100 && 0 <= y <= 9999
    ensures AsDate(Str(TimeParse.SlashText(m, d, y))).Ok? <==>
      1 <= m <= 12 && 1 <= d <= Calendar.DaysIn(m, y)
    ensures AsDate(Str(TimeParse.SlashText(m, d, y))).Ok? ==>
      AsDate(Str(TimeParse.SlashText(m, d, y))).value == Calendar.Time(y, m, d, 0)
  {
    var v := TimeParse.SlashText(m, d, y);
    SlashTextNoQuotes(m, d, y);
    assert AsDate(Str(v)) == DateOfText(v);
    TimeParse.SlashTextParses(m, d, y);
  }

  /** A text such as "January 2, 2006", "Jan 2 2006" or "feb 30, 2000"
      (any case) is a date exactly when the day exists in the month, and
      then it is that day. */
  lemma {:induction false} NamedTextDates(name: string, long: bool, m: nat, d: nat, comma: bool, y: int)
    requires 1 <= m <= 12 && TimeParse.NameOf(name, long, m) && d < 100 && 0 <= y <= 9999
    ensures AsDate(Str(TimeParse.NamedText(name, d, comma, y))) ==
      if 1 <= d <= Calendar.DaysIn(m, y) then Ok(Calendar.Time(y, m, d, 0)) else Err(CannotConvertDate)
  {
    var v := TimeParse.NamedText(name, d, comma, y);
    NamedTextNoQuotes(name, long, m, d, comma, y);
    assert AsDate(Str(v)) == DateOfText(v);
    TimeParse.NamedTextParses(name, long, m, d, comma, y);
  }

  /** A named text has no quotes to strip: month names are letters. */
  lemma {:induction false} NamedTextNoQuotes(name: string, long: bool, m: nat, d: nat, comma: bool, y: int)
    requires 1 <= m <= 12 && TimeParse.NameOf(name, long, m)
    ensures Text.StripQuotes(TimeParse.NamedText(name, d, comma, y)) == TimeParse.NamedText(name, d, comma, y)
  {
    NameNoQuotes(name, long, m);
    NamedRestNoQuotes(d, comma, y);
    Text.StripQuotesNone(TimeParse.NamedText(name, d, comma, y));
  }

  lemma {:induction false} NameNoQuotes(name: string, long: bool, m: nat)
    requires 1 <= m <= 12 && TimeParse.NameOf(name, long, m)
    ensures '\'' !in name
  {
    var own := TimeParse.MonthName(long, m);
    assert forall i :: 0 <= i < |own| ==> own[i] != '\'';
    assert forall i :: 0 <= i < |name| ==> name[i] != '\'';
  }

  lemma {:induction false} NamedRestNoQuotes(d: nat, comma: bool, y: int)
    ensures '\'' !in TimeParse.NamedRest(d, comma, y)
  {
    NoQuotesInDecimal(d);
    assert '\'' !in Text.StripQuotes(Decimal(d));
    if y < 0 {
      NoQuotesInDigits(PadDigits(-y, 4));
      assert '\'' !in Text.StripQuotes(PadDigits(-y, 4));
    } else {
      NoQuotesInDigits(PadDigits(y, 4));
      assert '\'' !in Text.StripQuotes(PadDigits(y, 4));
    }
  }

  /** A month/day/year text has no quotes to strip. */
  lemma {:induction false} SlashTextNoQuotes(m: nat, d: nat, y: int)
    requires 0 <= y <= 9999
    ensures Text.StripQuotes(TimeParse.SlashText(m, d, y)) == TimeParse.SlashText(m, d, y)
  {
    NoQuotesInDigits(Decimal(m));
    NoQuotesInDigits(Decimal(d));
    NoQuotesInDigits(SignedPad(y, 4));
    SlashNoQuotes(Decimal(d), SignedPad(y, 4));
    SlashNoQuotes(Decimal(m), TimeParse.DayYearText(d, y));
  }

  /** Two texts without quotes, joined by a slash, have none either. */
  lemma {:induction false} SlashNoQuotes(a: string, b: string)
    requires Text.StripQuotes(a) == a && Text.StripQuotes(b) == b
    ensures Text.StripQuotes(a + ("/" + b)) == a + ("/" + b)
  {
    Text.StripQuotesNone("/");
    Text.StripQuotesAppend("/", b);
    Text.StripQuotesAppend(a, "/" + b);
  }

  /** The decimal text of an integer has no quotes to strip. */
  lemma {:induction false} NoQuotesInDecimal(n: int)
    ensures Text.StripQuotes(Decimal(n)) == Decimal(n)
  {
    if n < 0 {
      NoQuotesInDigits(Digits(-n));
      Text.StripQuotesNone("-");
      Text.StripQuotesAppend("-", Digits(-n));
    } else {
      NoQuotesInDigits(Digits(n));
    }
  }

  /** An integer is a date exactly when it has eight digits YYYYMMDD that
      name a day of the calendar: 20210101 is January 1, 2021, while
      20010001 (month 00), 20210230 (February 30), 2021010 (seven digits)
      and every negative number fail. */
  lemma {:induction false} IntegerDates(v: Dyn)
    requires IsInteger(v)
    ensures var n := IntValue(v);
      AsDate(v) ==
      if 10000000 <= n <= 99999999 && 1 <= n / 100 % 100 <= 12 &&
         1 <= n % 100 <= Calendar.DaysIn(n / 100 % 100, n / 10000)
      then Ok(Calendar.Time(n / 10000, n / 100 % 100, n % 100, 0))
      else Err(CannotConvertDate)
  {
    NoQuotesInDecimal(IntValue(v));
    TimeParse.IntegerTexts(IntValue(v));
  }

  /** The same digits in single quotes, as a string, read as the same date. */
  lemma {:induction false} QuotedIntegerDates(n: int64)
    requires n >= 0
    ensures AsDate(Str("'" + Decimal(n) + "'")) == AsDate(Int(n))
  {
    QuotedDigits(Decimal(n));
    NoQuotesInDecimal(n);
  }

  // ---------------------------------------------------------------- integer round trips

  /** Every int32, whichever integer type holds it, survives Any2String
      followed by Any2Int32. */
  lemma {:induction false} Int32TextRoundTrip(v: Dyn)
    requires IsInteger(v) && MinInt32 <= IntValue(v) <= MaxInt32
    ensures Any2Int32(Str(Any2String(v))) == Ok(IntValue(v))
    ensures Any2Int32(v) == Ok(IntValue(v))
  {
    InBits32(IntValue(v));
    DecimalRoundTrip(IntValue(v), 32);
  }

  /** Any2Int64 gives the same answer on an integer and on its text. */
  lemma {:induction false} Int64TextRoundTrip(v: Dyn)
    requires IsInteger(v)
    ensures Any2Int64(Str(Any2String(v))) == Any2Int64(v)
  {
    InBits64(IntValue(v));
    DecimalRoundTrip(IntValue(v), 64);
  }

  /** Any2Int accepts every int64, but its text only within the int32
      range: beyond it the string fails to parse. */
  lemma {:induction false} IntTextNarrow(x: int64)
    ensures Any2Int(Int(x)) == Ok(x)
    ensures Any2Int(Str(Any2String(Int(x)))) == (if MinInt32 <= x <= MaxInt32 then Ok(x) else Err(CannotConvert))
  {
    InBits32(x);
    if MinInt32 <= x <= MaxInt32 {
      DecimalRoundTrip(x, 32);
    } else {
      InBits64(x);
      DecimalRoundTrip(x, 64);
      ParseIntWidths(Decimal(x), 32, 64);
    }
  }

  // ---------------------------------------------------------------- kinds

  /** The reflect.Kind values the utilities name. */
  datatype Kind = Float64Kind | Float32Kind | StringKind | IntKind | Int32Kind | Int64Kind | StructKind | InterfaceKind

  /** String2Kind: the seven type names, and Interface for anything else. */
  function String2Kind(str: string): (k: Kind)
    ensures k != InterfaceKind <==> str in {"float64", "float32", "string", "int", "int32", "int64", "time.Time"}
    ensures k == StructKind <==> str == "time.Time"
  {
    if str == "float64" then Float64Kind
    else if str == "float32" then Float32Kind
    else if str == "string" then StringKind
    else if str == "int" then IntKind
    else if str == "int32" then Int32Kind
    else if str == "int64" then Int64Kind
    else if str == "time.Time" then StructKind
    else InterfaceKind
  }

  /** Distinct names give distinct kinds. */
  lemma {:induction false} String2KindInjective(a: string, b: string)
    requires String2Kind(a) != InterfaceKind && String2Kind(a) == String2Kind(b)
    ensures a == b
  {
  }

  /** The kind a value of each tag has. */
  predicate HasKind(v: Dyn, k: Kind) {
    match k
    case Float64Kind => v.F64?
    case Float32Kind => v.F32?
    case StringKind => v.Str?
    case IntKind => v.Int?
    case Int32Kind => v.I32?
    case Int64Kind => v.I64?
    case StructKind => v.Date?
    case InterfaceKind => false
  }

  /** Any2Kind: convert to the requested kind; any failure of the
      conversion is replaced by one "unsupported type or conversion error". */
  function Any2Kind(v: Dyn, kind: Kind): (r: Result<Dyn>)
    ensures r.Ok? ==> HasKind(r.value, kind)
    ensures r.Err? ==> r.error == (if v.Nil? then NilInput else KindConversion)
    ensures v.Nil? ==> r.Err?
    ensures kind == InterfaceKind ==> r.Err?
    ensures !v.Nil? && kind == StringKind ==> r == Ok(Str(Any2String(v)))
    ensures r.FloatPath? ==> kind in {Float64Kind, Float32Kind, Int64Kind, Int32Kind, IntKind}
  {
    if v.Nil? then Err(NilInput)
    else
      match kind
      case Float64Kind => if Any2Float(v).Err? then Err(KindConversion) else FloatPath
      case Float32Kind => if Any2Float(v).Err? then Err(KindConversion) else FloatPath
      case Int64Kind =>
        (match Any2Int64(v)
         case Ok(x) => Ok(I64(x))
         case Err(_) => Err(KindConversion)
         case FloatPath => FloatPath)
      case Int32Kind =>
        (match Any2Int32(v)
         case Ok(x) => Ok(I32(x))
         case Err(_) => Err(KindConversion)
         case FloatPath => FloatPath)
      case IntKind =>
        (match Any2Int(v)
         case Ok(x) => Ok(Int(x))
         case Err(_) => Err(KindConversion)
         case FloatPath => FloatPath)
      case StringKind => Ok(Str(Any2String(v)))
      case StructKind =>
        (match AsDate(v)
         case Ok(t) => Ok(Date(t))
         case _ => Err(KindConversion))
      case InterfaceKind => Err(KindConversion)
  }

  /** Converting a value to the kind it already has gives it back, for
      every kind the model decides. */
  lemma {:induction false} Any2KindOwnKind(v: Dyn, kind: Kind)
    requires HasKind(v, kind) && !IsFloat(v)
    ensures Any2Kind(v, kind) == Ok(v)
  {
  }

  /** A type name String2Kind does not know makes Any2Kind fail. */
  lemma {:induction false} UnknownNameFails(v: Dyn, name: string)
    requires name !in {"float64", "float32", "string", "int", "int32", "int64", "time.Time"}
    ensures Any2Kind(v, String2Kind(name)).Err?
  {
  }
}
