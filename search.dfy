/** The search helpers of utilities.go: Position and Has over a list of
    strings that may come as one delimited string, DeDupeSlice, Matched,
    YesNo, MaxInt and MinInt. */
module Search {
  import opened Results
  import Text

  // ---------------------------------------------------------------- Position and Has

  /** The list Position searches: a haystack of one element that contains
      the (non-empty) delimiter is split at it first. */
  function HaySlice(delim: string, haystack: seq<string>): (r: seq<string>)
    ensures |haystack| != 1 || delim == "" ==> r == haystack
  {
    if |haystack| == 1 && delim != "" && Text.Contains(haystack[0], delim) then Text.Split(haystack[0], delim)
    else haystack
  }

  /** The first index of `needle` in `hay`, or -1. */
  function Find(hay: seq<string>, needle: string): (r: int)
    ensures -1 <= r < |hay|
    ensures r >= 0 ==> hay[r] == needle
    ensures forall i :: 0 <= i < |hay| && (r < 0 || i < r) ==> hay[i] != needle
    ensures r >= 0 <==> needle in hay
  {
    if |hay| == 0 then -1
    else if hay[|hay| - 1] == needle && Find(hay[..|hay| - 1], needle) < 0 then |hay| - 1
    else
      var r := Find(hay[..|hay| - 1], needle);
      assert hay == hay[..|hay| - 1] + [hay[|hay| - 1]];
      r
  }

  /** Position: the index of the first straw equal to `needle`, or -1. */
  method Position(needle: string, delim: string, haystack: seq<string>) returns (r: int)
    ensures r == Find(HaySlice(delim, haystack), needle)
  {
    var haySlice := HaySlice(delim, haystack);
    var ind := 0;
    while ind < |haySlice|
      invariant 0 <= ind <= |haySlice|
      invariant forall i :: 0 <= i < ind ==> haySlice[i] != needle
    {
      if haySlice[ind] == needle {
        return ind;
      }
      ind := ind + 1;
    }
    return -1;
  }

  /** Has: the needle is among the straws Position searches. */
  method Has(needle: string, delim: string, haystack: seq<string>) returns (b: bool)
    ensures b <==> needle in HaySlice(delim, haystack)
  {
    var p := Position(needle, delim, haystack);
    b := p >= 0;
  }

  /** Position's two readings of the haystack: a list, or one string
      holding the list with delimiters. */
  lemma {:induction false} PositionReadings(needle: string, delim: string, haystack: seq<string>)
    requires delim != ""
    ensures |haystack| == 1 && Text.Contains(haystack[0], delim) ==>
      Find(HaySlice(delim, haystack), needle) == Find(Text.Split(haystack[0], delim), needle)
    ensures |haystack| == 1 && !Text.Contains(haystack[0], delim) ==>
      Find(HaySlice(delim, haystack), needle) == (if haystack[0] == needle then 0 else -1)
    ensures |haystack| != 1 ==> Find(HaySlice(delim, haystack), needle) == Find(haystack, needle)
  {
  }

  // ---------------------------------------------------------------- DeDupeSlice

  /** The elements DeDupeSlice keeps from `s`, in order: each element is
      appended unless Has, with delimiter ",", finds it among those kept. */
  function Kept(s: seq<string>): seq<string>
  {
    if |s| == 0 then []
    else
      var k := Kept(s[..|s| - 1]);
      if s[|s| - 1] in HaySlice(",", k) then k else k + [s[|s| - 1]]
  }

  /** DeDupeSlice: the kept elements, sorted by sort.Strings when asked. */
  method DeDupeSlice(inSlc: seq<string>, sortReturn: bool) returns (outSlc: seq<string>)
    ensures outSlc == if sortReturn then Text.SortStrings(Kept(inSlc)) else Kept(inSlc)
  {
    outSlc := [];
    var i := 0;
    while i < |inSlc|
      invariant 0 <= i <= |inSlc|
      invariant outSlc == Kept(inSlc[..i])
    {
      var val := inSlc[i];
      assert inSlc[..i + 1][..i] == inSlc[..i];
      var has := Has(val, ",", outSlc);
      if !has {
        outSlc := outSlc + [val];
      }
      i := i + 1;
    }
    assert inSlc[..i] == inSlc;
    if sortReturn {
      outSlc := Text.SortStrings(outSlc);
    }
  }

  predicate NoDuplicates(s: seq<string>) {
    forall i, j :: 0 <= i < j < |s| ==> s[i] != s[j]
  }

  predicate CommaFree(s: seq<string>) {
    forall i :: 0 <= i < |s| ==> ',' !in s[i]
  }

  /** Among comma-free strings, Has is plain membership. */
  lemma {:induction false} HasCommaFree(x: string, k: seq<string>)
    requires CommaFree(k)
    ensures x in HaySlice(",", k) <==> x in k
  {
    if |k| == 1 {
      Text.ContainsChar(k[0], ',');
    }
  }

  /** Of comma-free strings DeDupeSlice keeps each one exactly once. */
  lemma {:induction false} KeptCommaFree(s: seq<string>)
    requires CommaFree(s)
    ensures NoDuplicates(Kept(s)) && CommaFree(Kept(s))
    ensures forall x :: x in Kept(s) <==> x in s
    decreases |s|
  {
    if |s| > 0 {
      var p, x := s[..|s| - 1], s[|s| - 1];
      assert CommaFree(p);
      KeptCommaFree(p);
      HasCommaFree(x, Kept(p));
      assert s == p + [x];
    }
  }

  /** Kept strings come from the input, and there are never more of them
      than in the input. */
  lemma {:induction false} KeptFromInput(s: seq<string>)
    ensures |Kept(s)| <= |s|
    ensures forall x :: x in Kept(s) ==> x in s
    decreases |s|
  {
    if |s| > 0 {
      KeptFromInput(s[..|s| - 1]);
      assert s == s[..|s| - 1] + [s[|s| - 1]];
    }
  }

  /** The comma quirk: a string with a comma is split by Has when it is the
      only one kept, so a second copy of it is not recognised. */
  lemma {:induction false} KeptCommaQuirk(x: string)
    requires ',' in x
    ensures Kept([x, x]) == [x, x]
  {
    Text.ContainsChar(x, ',');
    var parts := Text.Split(x, ",");
    Text.SplitParts(x, ",");
    assert [x, x][..1] == [x];
    assert [x][..0] == [];
    assert Kept([x]) == [x];
    assert HaySlice(",", [x]) == parts;
    assert x !in parts by {
      forall k | 0 <= k < |parts| ensures parts[k] != x {
        Text.ContainsChar(parts[k], ',');
      }
    }
  }

  // ---------------------------------------------------------------- Matched

  /** inStr[i:i+1] is startChar. */
  predicate IsStart(s: string, startChar: string, i: int)
    requires 0 <= i < |s|
  {
    [s[i]] == startChar
  }

  /** inStr[i:i+1] is endChar, and not startChar (which the switch compares first). */
  predicate IsEnd(s: string, startChar: string, endChar: string, i: int)
    requires 0 <= i < |s|
  {
    [s[i]] != startChar && [s[i]] == endChar
  }

  /** The nesting depth after the prefix `p`: starts minus ends. */
  function Depth(p: string, startChar: string, endChar: string): int {
    if |p| == 0 then 0
    else
      var i := |p| - 1;
      Depth(p[..i], startChar, endChar) +
        (if IsStart(p, startChar, i) then 1 else if IsEnd(p, startChar, endChar, i) then -1 else 0)
  }

  /** The end character at `e` brings the depth back to zero. */
  predicate ClosesAt(s: string, startChar: string, endChar: string, e: int) {
    0 <= e < |s| && IsEnd(s, startChar, endChar, e) && Depth(s[..e + 1], startChar, endChar) == 0
  }

  /** `st` is the first start character of `s`. */
  predicate FirstStart(s: string, startChar: string, st: int) {
    0 <= st < |s| && IsStart(s, startChar, st) && forall j :: 0 <= j < st ==> !IsStart(s, startChar, j)
  }

  /** Matched: the text strictly between the first start character and the
      end character that closes it. With no closing end character, "" when
      there is no start character at all and "unmatched startChar"
      otherwise. */
  method Matched(inStr: string, startChar: string, endChar: string) returns (r: Result<string>)
    ensures forall e :: ClosesAt(inStr, startChar, endChar, e) &&
                        (forall e' :: 0 <= e' < e ==> !ClosesAt(inStr, startChar, endChar, e')) ==>
      exists st :: FirstStart(inStr, startChar, st) && st < e && r == Ok(inStr[st + 1..e])
    ensures (forall e :: 0 <= e < |inStr| ==> !ClosesAt(inStr, startChar, endChar, e)) ==>
      r == if forall j :: 0 <= j < |inStr| ==> !IsStart(inStr, startChar, j) then Ok("") else Err(UnmatchedStart)
  {
    var start, ignore := -1, 0;
    var ind := 0;
    while ind < |inStr|
      invariant 0 <= ind <= |inStr|
      invariant ignore == Depth(inStr[..ind], startChar, endChar)
      invariant start == -1 ==> ignore <= 0 && forall j :: 0 <= j < ind ==> !IsStart(inStr, startChar, j)
      invariant start != -1 ==> start < ind && FirstStart(inStr, startChar, start)
      invariant forall e :: 0 <= e < ind ==> !ClosesAt(inStr, startChar, endChar, e)
    {
      assert inStr[..ind + 1][..ind] == inStr[..ind];
      assert IsStart(inStr[..ind + 1], startChar, ind) == IsStart(inStr, startChar, ind);
      if [inStr[ind]] == startChar {
        if start == -1 {
          start := ind;
        }
        ignore := ignore + 1;
      } else if [inStr[ind]] == endChar {
        ignore := ignore - 1;
        if ignore == 0 {
          assert ClosesAt(inStr, startChar, endChar, ind);
          return Ok(inStr[start + 1..ind]);
        }
      }
      ind := ind + 1;
    }
    if start == -1 {
      return Ok("");
    }
    return Err(UnmatchedStart);
  }

  // ---------------------------------------------------------------- YesNo

  /** YesNo: "yes" is true, "no" and "" are false, anything else fails. */
  function YesNo(inStr: string): (r: Result<bool>)
    ensures r == Ok(true) <==> inStr == "yes"
    ensures r == Ok(false) <==> inStr == "no" || inStr == ""
    ensures r.Err? <==> inStr !in {"yes", "no", ""}
    ensures r.Err? ==> r.error == NotYesNo
  {
    if inStr != "yes" && inStr != "no" && inStr != "" then Err(NotYesNo)
    else if inStr == "no" || inStr == "" then Ok(false)
    else Ok(true)
  }

  // ---------------------------------------------------------------- MaxInt and MinInt

  /** MaxInt: the largest of a non-empty list (Go indexes ints[0]). */
  method MaxInt(ints: seq<int>) returns (max: int)
    requires |ints| > 0
    ensures max in ints
    ensures forall i :: 0 <= i < |ints| ==> ints[i] <= max
  {
    max := ints[0];
    var k := 0;
    while k < |ints|
      invariant 0 <= k <= |ints|
      invariant max in ints
      invariant forall i :: 0 <= i < k ==> ints[i] <= max
    {
      if ints[k] > max {
        max := ints[k];
      }
      k := k + 1;
    }
  }

  /** MinInt: the smallest of a non-empty list. */
  method MinInt(ints: seq<int>) returns (min: int)
    requires |ints| > 0
    ensures min in ints
    ensures forall i :: 0 <= i < |ints| ==> min <= ints[i]
  {
    min := ints[0];
    var k := 0;
    while k < |ints|
      invariant 0 <= k <= |ints|
      invariant min in ints
      invariant forall i :: 0 <= i < k ==> min <= ints[i]
    {
      if ints[k] < min {
        min := ints[k];
      }
      k := k + 1;
    }
  }
}
