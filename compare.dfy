/** GTAny, LTAny and Comparer of utilities.go: how the package orders two
    values of type `any`. */
module Compare {
  import opened Results
  import opened Dynamic
  import opened Numbers
  import Calendar
  import Text

  /** GTAny(xa, xb): is xa > xb? A nil on either side counts as "greater";
      strings compare in byte order once their single quotes are removed;
      an int32 or int64 on the left converts the right operand with
      Any2Int32 or Any2Int64; dates compare as instants; floats leave the
      model. Go's untyped `int` on the left is not handled. */
  function GTAny(xa: Dyn, xb: Dyn): (r: Result<bool>)
    ensures xa.Nil? || xb.Nil? ==> r == Ok(true)
    ensures xa.Str? && xb.Str? ==> r == Ok(Text.Less(Text.StripQuotes(xb.s), Text.StripQuotes(xa.s)))
    ensures xa.Str? && !xb.Str? && !xb.Nil? ==> r == Err(CannotConvertString)
    ensures xa.Date? && xb.Date? ==> r == Ok(Calendar.Before(xb.t, xa.t))
    ensures xa.Date? && !xb.Date? && !xb.Nil? ==> r == Err(CannotConvertDate)
    ensures xa.I64? && IsInteger(xb) ==> r == Ok(xa.n64 > IntValue(xb))
    ensures xa.I32? && xb.I32? ==> r == Ok(xa.n32 > xb.n32)
    ensures xa.I32? && xb.I64? ==> r == if MinInt32 <= xb.n64 <= MaxInt32 then Ok(xa.n32 > xb.n64) else Err(OutOfRange)
    ensures xa.I32? && xb.Int? ==> r == Ok(xa.n32 > Wrap32(xb.n))
    ensures (xa.I32? || xa.I64?) && xb.Str? ==>
      var bits := if xa.I32? then 32 else 64;
      r == if ParseInt(xb.s, bits).Some? then Ok(IntValue(xa) > ParseInt(xb.s, bits).value) else Err(CannotConvert)
    ensures (xa.I32? || xa.I64?) && (xb.Date? || xb.Other?) ==> r == Err(CannotConvert)
    ensures IsFloat(xa) && (xb.Date? || xb.Other?) ==> r == Err(CannotConvert)
    ensures (xa.Int? || xa.Other?) && !xb.Nil? ==> r == Err(UnsupportedComparison)
    ensures r.FloatPath? <==>
      (!xa.Nil? && !xb.Nil? &&
       ((IsFloat(xa) && (IsInteger(xb) || IsFloat(xb) || xb.Str?)) || ((xa.I32? || xa.I64?) && IsFloat(xb))))
  {
    if xb.Nil? || xa.Nil? then Ok(true)
    else
      match xa
      case Str(x) =>
        if xb.Str? then Ok(Text.Less(Text.StripQuotes(xb.s), Text.StripQuotes(x)))
        else Err(CannotConvertString)
      case I32(x) =>
        var y :- Any2Int32(xb);
        Ok(x > y)
      case I64(x) =>
        var y :- Any2Int64(xb);
        Ok(x > y)
      case F32(_) => Any2Float(xb).PropagateFailure()
      case F64(_) => Any2Float(xb).PropagateFailure()
      case Date(x) =>
        if xb.Date? then Ok(Calendar.Before(xb.t, x)) else Err(CannotConvertDate)
      case _ => Err(UnsupportedComparison)
  }

  /** GTAny is never true both ways unless a nil is involved. */
  lemma {:induction false} GTAnyAsymmetric(a: Dyn, b: Dyn)
    requires GTAny(a, b) == Ok(true) && GTAny(b, a) == Ok(true)
    ensures a.Nil? || b.Nil?
  {
    if a.Str? && b.Str? {
      Text.LessAsymmetric(Text.StripQuotes(a.s), Text.StripQuotes(b.s));
    } else if a.Date? && b.Date? {
      Calendar.BeforeOrder(a.t, b.t, a.t);
    }
  }

  // ---------------------------------------------------------------- LTAny

  /** The types LTAny handles. */
  predicate LTHandles(x: Dyn) {
    x.F64? || x.F32? || x.I64? || x.I32? || x.Str? || x.Date?
  }

  predicate SameType(x: Dyn, y: Dyn) {
    (x.F64? && y.F64?) || (x.F32? && y.F32?) || (x.I64? && y.I64?) ||
    (x.I32? && y.I32?) || (x.Str? && y.Str?) || (x.Date? && y.Date?)
  }

  /** LTAny(x, y): x < y for operands of the same handled type; Go's type
      assertion on y panics when the types differ, hence the precondition.
      Strings compare as they are, quotes included. */
  function LTAny(x: Dyn, y: Dyn): (r: Result<bool>)
    requires LTHandles(x) ==> SameType(x, y)
    ensures r.Err? <==> !LTHandles(x)
    ensures r.Err? ==> r.error == CannotCompare
    ensures r.FloatPath? <==> IsFloat(x)
    ensures x.Str? ==> r == Ok(Text.Less(x.s, y.s))
    ensures r.Ok? && !x.Str? ==> (r.value <==> (IsInteger(x) && IntValue(x) < IntValue(y)) || (x.Date? && Calendar.Before(x.t, y.t)))
  {
    match x
    case F64(_) => FloatPath
    case F32(_) => FloatPath
    case I64(n) => Ok(n < y.n64)
    case I32(n) => Ok(n < y.n32)
    case Str(s) => Ok(Text.Less(s, y.s))
    case Date(t) => Ok(Calendar.Before(t, y.t))
    case _ => Err(CannotCompare)
  }

  /** On integers of one width, on dates, and on strings without quotes,
      LTAny(x, y) is GTAny(y, x). */
  lemma {:induction false} LTAnyMirrorsGTAny(x: Dyn, y: Dyn)
    requires (x.I64? && y.I64?) || (x.I32? && y.I32?) || (x.Date? && y.Date?) ||
             (x.Str? && y.Str? && '\'' !in x.s && '\'' !in y.s)
    ensures LTAny(x, y) == GTAny(y, x)
  {
    if x.Str? {
      Text.StripQuotesNone(x.s);
      Text.StripQuotesNone(y.s);
    }
  }

  /** ... but with a quote LTAny and GTAny can disagree: "'b" < "a" in byte
      order, while GTAny compares "b" with "a". */
  lemma {:induction false} LTAnyKeepsQuotes()
    ensures LTAny(Str("'b"), Str("a")) == Ok(true)
    ensures GTAny(Str("a"), Str("'b")) == Ok(false)
  {
    assert Text.StripQuotes("'b") == "b" by {
      assert "'b"[1..] == "b";
      assert Text.StripQuotes("b"[1..]) == "";
    }
    assert Text.StripQuotes("a") == "a" by {
      assert Text.StripQuotes("a"[1..]) == "";
    }
  }

  // ---------------------------------------------------------------- Comparer

  /** Where a value lies relative to another. */
  datatype Order = Below | Same | Above

  /** What each of Comparer's six operators means for two values in a given
      order; any other operator is an error. */
  function Meaning(comp: string, o: Order): Result<bool> {
    if comp == "==" then Ok(o == Same)
    else if comp == "!=" then Ok(o != Same)
    else if comp == "<" then Ok(o == Below)
    else if comp == "<=" then Ok(o == Below || o == Same)
    else if comp == ">" then Ok(o == Above)
    else if comp == ">=" then Ok(o == Above || o == Same)
    else Err(UnsupportedOperator)
  }

  function IntOrder(x: int, y: int): Order {
    if x < y then Below else if x == y then Same else Above
  }

  function StringOrder(a: string, b: string): Order {
    if Text.Less(a, b) then Below else if a == b then Same else Above
  }

  function DateOrder(t: Calendar.Date, u: Calendar.Date): Order {
    if Calendar.Before(t, u) then Below else if t == u then Same else Above
  }

  /** Comparer's first step: an operand Any2Date accepts becomes that date,
      any other stays as it is. */
  function AsOperand(x: Dyn): (r: Dyn)
    ensures AsDate(x).Ok? ==> r == Date(AsDate(x).value)
    ensures AsDate(x).Err? ==> r == x
  {
    match AsDate(x)
    case Ok(t) => Date(t)
    case _ => x
  }

  /** Comparer's six operators. */
  const Operators: set<string> := {"==", "!=", "<", "<=", ">", ">="}

  /** Comparer's last step: the operator combines GTAny's answers both
      ways, `gt` for a > b and `lt` for b > a; a failure of either wins
      over an unknown operator. */
  function Combine(gt: Result<bool>, lt: Result<bool>, comp: string): (r: Result<bool>)
    ensures !gt.Ok? ==> r == gt
    ensures gt.Ok? && !lt.Ok? ==> r == lt
    ensures r.Ok? <==> gt.Ok? && lt.Ok? && comp in Operators
    ensures gt.Ok? && lt.Ok? && comp !in Operators ==> r == Err(UnsupportedOperator)
  {
    var test1 :- gt;
    var test2 :- lt;
    if comp == ">" then Ok(test1)
    else if comp == ">=" then Ok(!test2)
    else if comp == "==" then Ok(!test1 && !test2)
    else if comp == "!=" then Ok(test1 || test2)
    else if comp == "<" then Ok(test2)
    else if comp == "<=" then Ok(!test1)
    else Err(UnsupportedOperator)
  }

  /** When the two answers agree with an order, each operator has its
      meaning for that order. */
  lemma {:induction false} CombineOrder(comp: string, o: Order)
    ensures Combine(Ok(o == Above), Ok(o == Below), comp) == Meaning(comp, o)
  {
  }

  /** Comparer(xa, xb, comp): both operands are first turned into dates
      where Any2Date allows, then GTAny is asked both ways. It answers
      exactly when both GTAny calls answer and the operator is one of the
      six; an unknown operator is reported only after both calls succeed.
      What each operator answers is stated by the lemmas that follow. */
  function Comparer(xa: Dyn, xb: Dyn, comp: string): (r: Result<bool>)
    ensures var a, b := AsOperand(xa), AsOperand(xb);
      r.Ok? <==> GTAny(a, b).Ok? && GTAny(b, a).Ok? && comp in Operators
    ensures var a, b := AsOperand(xa), AsOperand(xb);
      GTAny(a, b).Ok? && GTAny(b, a).Ok? && comp !in Operators ==> r == Err(UnsupportedOperator)
  {
    var a, b := AsOperand(xa), AsOperand(xb);
    Combine(GTAny(a, b), GTAny(b, a), comp)
  }

  /** When GTAny answers both ways in agreement with an order, Comparer
      gives each operator its meaning for that order. */
  lemma {:induction false} ComparerOrder(xa: Dyn, xb: Dyn, comp: string, o: Order)
    requires GTAny(AsOperand(xa), AsOperand(xb)) == Ok(o == Above)
    requires GTAny(AsOperand(xb), AsOperand(xa)) == Ok(o == Below)
    ensures Comparer(xa, xb, comp) == Meaning(comp, o)
  {
    CombineOrder(comp, o);
  }

  /** Two integers of the same width, neither of which reads as a date,
      compare as integers. */
  lemma {:induction false} ComparerIntegers(x: Dyn, y: Dyn, comp: string)
    requires (x.I64? && y.I64?) || (x.I32? && y.I32?)
    requires AsDate(x).Err? && AsDate(y).Err?
    ensures Comparer(x, y, comp) == Meaning(comp, IntOrder(IntValue(x), IntValue(y)))
  {
    ComparerOrder(x, y, comp, IntOrder(IntValue(x), IntValue(y)));
  }

  /** Two strings, neither of which reads as a date, compare in byte order
      once the quotes are removed. */
  lemma {:induction false} ComparerStrings(a: string, b: string, comp: string)
    requires AsDate(Str(a)).Err? && AsDate(Str(b)).Err?
    ensures Comparer(Str(a), Str(b), comp) == Meaning(comp, StringOrder(Text.StripQuotes(a), Text.StripQuotes(b)))
  {
    var sa, sb := Text.StripQuotes(a), Text.StripQuotes(b);
    Text.LessTotal(sa, sb);
    Text.LessAsymmetric(sa, sb);
    Text.LessIrreflexive(sa);
    ComparerOrder(Str(a), Str(b), comp, StringOrder(sa, sb));
  }

  /** Two dates compare as instants. */
  lemma {:induction false} ComparerDates(t: Calendar.Date, u: Calendar.Date, comp: string)
    ensures Comparer(Date(t), Date(u), comp) == Meaning(comp, DateOrder(t, u))
  {
    Calendar.BeforeOrder(t, u, t);
    ComparerOrder(Date(t), Date(u), comp, DateOrder(t, u));
  }

  /** Combine's operators that are each other's negation, and those that
      swap when the two answers are swapped. */
  lemma {:induction false} CombineDuality(gt: Result<bool>, lt: Result<bool>)
    requires Combine(gt, lt, "==").Ok?
    ensures Combine(gt, lt, "!=") == Ok(!Combine(gt, lt, "==").value)
    ensures Combine(gt, lt, ">=") == Ok(!Combine(gt, lt, "<").value)
    ensures Combine(gt, lt, "<=") == Ok(!Combine(gt, lt, ">").value)
    ensures Combine(lt, gt, ">") == Combine(gt, lt, "<")
    ensures Combine(lt, gt, "==") == Combine(gt, lt, "==")
  {
  }

  /** Operators that are each other's negation agree whenever Comparer
      succeeds. */
  lemma {:induction false} ComparerNegation(xa: Dyn, xb: Dyn)
    requires Comparer(xa, xb, "==").Ok?
    ensures Comparer(xa, xb, "!=") == Ok(!Comparer(xa, xb, "==").value)
    ensures Comparer(xa, xb, ">=") == Ok(!Comparer(xa, xb, "<").value)
    ensures Comparer(xa, xb, "<=") == Ok(!Comparer(xa, xb, ">").value)
  {
    var a, b := AsOperand(xa), AsOperand(xb);
    CombineDuality(GTAny(a, b), GTAny(b, a));
  }

  /** Swapping the operands turns > into <, and leaves == alone. */
  lemma {:induction false} ComparerConverse(xa: Dyn, xb: Dyn)
    requires Comparer(xa, xb, "==").Ok?
    ensures Comparer(xb, xa, ">") == Comparer(xa, xb, "<")
    ensures Comparer(xb, xa, "==") == Comparer(xa, xb, "==")
  {
    var a, b := AsOperand(xa), AsOperand(xb);
    CombineDuality(GTAny(a, b), GTAny(b, a));
  }

  /** An operator outside the six fails, unless the comparison failed
      first; a failed comparison fails the same way for every operator. */
  lemma {:induction false} ComparerOperators(xa: Dyn, xb: Dyn, comp: string)
    ensures Comparer(xa, xb, "==").Ok? && comp !in {"==", "!=", "<", "<=", ">", ">="} ==>
      Comparer(xa, xb, comp) == Err(UnsupportedOperator)
    ensures !Comparer(xa, xb, "==").Ok? ==> Comparer(xa, xb, comp) == Comparer(xa, xb, "==")
  {
  }

  /** Two answers that are not both true make exactly one of <, == and >
      hold. */
  lemma {:induction false} CombineTrichotomy(gt: bool, lt: bool)
    requires !(gt && lt)
    ensures Combine(Ok(gt), Ok(lt), "<").value || Combine(Ok(gt), Ok(lt), "==").value || Combine(Ok(gt), Ok(lt), ">").value
    ensures !(Combine(Ok(gt), Ok(lt), "<").value && Combine(Ok(gt), Ok(lt), ">").value)
    ensures Combine(Ok(gt), Ok(lt), "==").value ==> !Combine(Ok(gt), Ok(lt), "<").value && !Combine(Ok(gt), Ok(lt), ">").value
  {
  }

  /** Without nils, Comparer is a strict order: exactly one of <, == and >
      holds. */
  lemma {:induction false} ComparerTrichotomy(xa: Dyn, xb: Dyn)
    requires !xa.Nil? && !xb.Nil? && Comparer(xa, xb, "==").Ok?
    ensures Comparer(xa, xb, "<").value || Comparer(xa, xb, "==").value || Comparer(xa, xb, ">").value
    ensures !(Comparer(xa, xb, "<").value && Comparer(xa, xb, ">").value)
    ensures Comparer(xa, xb, "==").value ==> !Comparer(xa, xb, "<").value && !Comparer(xa, xb, ">").value
  {
    var a, b := AsOperand(xa), AsOperand(xb);
    var gt, lt := GTAny(a, b), GTAny(b, a);
    assert gt.Ok? && lt.Ok?;
    if gt.value && lt.value {
      GTAnyAsymmetric(a, b);
    }
    CombineTrichotomy(gt.value, lt.value);
  }

  /** Two true answers: the strict operators and != hold, ==, <= and >= do
      not. */
  lemma {:induction false} CombineBothTrue(comp: string)
    ensures Combine(Ok(true), Ok(true), comp) == Meaning(comp, Above) ||
            Combine(Ok(true), Ok(true), comp) == Meaning(comp, Below)
    ensures comp in {"<", ">", "!="} ==> Combine(Ok(true), Ok(true), comp) == Ok(true)
    ensures comp in {"==", "<=", ">="} ==> Combine(Ok(true), Ok(true), comp) == Ok(false)
  {
  }

  /** A nil is "greater" than anything and anything is "greater" than a
      nil: every strict operator and != hold, ==, <= and >= do not. */
  lemma {:induction false} ComparerNil(x: Dyn, comp: string)
    ensures Comparer(Nil, x, comp) == Meaning(comp, Above) || Comparer(Nil, x, comp) == Meaning(comp, Below)
    ensures comp in {"<", ">", "!="} ==> Comparer(Nil, x, comp) == Ok(true)
    ensures comp in {"==", "<=", ">="} ==> Comparer(Nil, x, comp) == Ok(false)
  {
    var b := AsOperand(x);
    assert AsOperand(Nil) == Nil;
    assert GTAny(Nil, b) == Ok(true) && GTAny(b, Nil) == Ok(true);
    CombineBothTrue(comp);
  }

  /** When one operand reads as a date and the other does not, the
      comparison fails: so an int64 holding 20210101 cannot be compared
      with an int64 holding 5. */
  lemma {:induction false} ComparerHalfDate(xa: Dyn, xb: Dyn, comp: string)
    requires AsDate(xa).Ok? && AsDate(xb).Err? && !xb.Nil?
    ensures Comparer(xa, xb, comp) == Err(CannotConvertDate)
  {
  }

  /** Go's untyped integers land in the `int` case, which GTAny does not
      handle: Comparer(5, 3, ">") fails instead of answering true. */
  lemma {:induction false} ComparerUntypedInts(x: int64, y: int64, comp: string)
    requires AsDate(Int(x)).Err?
    ensures Comparer(Int(x), Int(y), comp) == Err(UnsupportedComparison)
  {
  }

  lemma {:induction false} FiveAndThree()
    ensures Comparer(Int(5), Int(3), ">") == Err(UnsupportedComparison)
  {
    IntegerDates(Int(5));
    ComparerUntypedInts(5, 3, ">");
  }

  /** A date printed by Any2String or ToClickHouse compares equal to the
      date itself. */
  lemma {:induction false} ComparerPrintedDates(d: Calendar.Date)
    requires Calendar.Midnight(d) && 0 <= d.year <= 9999
    ensures Comparer(Str(Any2String(Date(d))), Date(d), "==") == Ok(true)
    ensures Comparer(Str(ToClickHouse(Date(d))), Date(d), "==") == Ok(true)
  {
    SlashRoundTrip(d);
    ClickHouseRoundTrip(d);
    Calendar.BeforeOrder(d, d, d);
  }
}
