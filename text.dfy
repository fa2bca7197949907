/** Byte-string helpers the utilities package takes from Go's `strings` and
    `sort` packages: searching, splitting, replacing, trimming, lowering the
    case of ASCII letters, the byte-wise order of strings and sorting.

    A Go string is a sequence of bytes; here it is a `string` whose every
    character stands for one byte, so the texts handled are ASCII. */
module Text {

  // ---------------------------------------------------------------- search

  /** `sub` occurs in `s` starting at index `i`. */
  predicate OccursAt(s: string, sub: string, i: int) {
    0 <= i && i + |sub| <= |s| && s[i..i + |sub|] == sub
  }

  lemma {:induction false} OccursAtTail(s: string, sub: string, j: int)
    requires |s| > 0 && 0 <= j
    ensures OccursAt(s[1..], sub, j) <==> OccursAt(s, sub, j + 1)
  {
    if j + |sub| <= |s[1..]| {
      assert s[1..][j..j + |sub|] == s[j + 1..j + 1 + |sub|];
    }
  }

  /** strings.Index: the first index at which `sub` occurs in `s`, or -1. */
  function Index(s: string, sub: string): (r: int)
    ensures -1 <= r <= |s|
    ensures r >= 0 ==> OccursAt(s, sub, r)
    ensures forall j :: 0 <= j && (r < 0 || j < r) ==> !OccursAt(s, sub, j)
    decreases |s|
  {
    if |s| < |sub| then -1
    else if s[..|sub|] == sub then 0
    else
      var k := Index(s[1..], sub);
      assert forall j :: 0 <= j ==> (OccursAt(s[1..], sub, j) <==> OccursAt(s, sub, j + 1)) by {
        forall j | 0 <= j ensures OccursAt(s[1..], sub, j) <==> OccursAt(s, sub, j + 1) {
          OccursAtTail(s, sub, j);
        }
      }
      assert forall j :: 0 <= j && (k < 0 || j < k + 1) && j != 0 ==> !OccursAt(s, sub, j) by {
        forall j | 0 <= j && (k < 0 || j < k + 1) && j != 0 ensures !OccursAt(s, sub, j) {
          assert !OccursAt(s[1..], sub, j - 1);
        }
      }
      if k < 0 then -1 else k + 1
  }

  /** strings.Contains. */
  predicate Contains(s: string, sub: string) {
    Index(s, sub) >= 0
  }

  lemma {:induction false} ContainsChar(s: string, c: char)
    ensures Contains(s, [c]) <==> c in s
  {
    if c in s {
      var i :| 0 <= i < |s| && s[i] == c;
      assert OccursAt(s, [c], i);
    }
    if Contains(s, [c]) {
      var i := Index(s, [c]);
      assert s[i..i + 1] == [c];
      assert s[i] == c;
    }
  }

  /** A text occurring in `s` occurs in any text that has `s` inside it. */
  lemma {:induction false} ContainsInside(a: string, s: string, b: string, sub: string)
    requires Contains(s, sub)
    ensures Contains(a + s + b, sub)
  {
    var i := Index(s, sub);
    var t := a + s + b;
    assert t[|a| + i..|a| + i + |sub|] == s[i..i + |sub|];
    assert OccursAt(t, sub, |a| + i);
  }

  // ---------------------------------------------------------------- split and join

  /** strings.Join. */
  function Join(parts: seq<string>, sep: string): string
  {
    if |parts| == 0 then ""
    else if |parts| == 1 then parts[0]
    else parts[0] + sep + Join(parts[1..], sep)
  }

  lemma {:induction false} JoinCons(head: string, rest: seq<string>, sep: string)
    requires |rest| >= 1
    ensures Join([head] + rest, sep) == head + sep + Join(rest, sep)
  {
    assert ([head] + rest)[1..] == rest;
  }

  /** A text is what precedes an occurrence of `sub`, `sub`, and what
      follows it. */
  lemma {:induction false} AroundOccurrence(s: string, sub: string, i: int)
    requires OccursAt(s, sub, i)
    ensures s == s[..i] + sub + s[i + |sub|..]
  {
    assert s == s[..i] + s[i..i + |sub|] + s[i + |sub|..];
  }

  /** The text before the first occurrence of `sep` does not contain it. */
  lemma {:induction false} BeforeIndex(s: string, sep: string)
    requires |sep| > 0 && Index(s, sep) >= 0
    ensures !Contains(s[..Index(s, sep)], sep)
  {
    var i, head := Index(s, sep), s[..Index(s, sep)];
    forall j | 0 <= j && OccursAt(head, sep, j)
      ensures OccursAt(s, sep, j) && j < i
    {
      assert head[j..j + |sep|] == s[j..j + |sep|];
    }
  }

  /** strings.Split for a non-empty separator: the pieces of `s` between the
      non-overlapping occurrences of `sep`, found from the left. */
  function Split(s: string, sep: string): (r: seq<string>)
    requires |sep| > 0
    ensures |r| >= 1
    ensures !Contains(s, sep) ==> r == [s]
    decreases |s|
  {
    var i := Index(s, sep);
    if i < 0 then [s] else [s[..i]] + Split(s[i + |sep|..], sep)
  }

  /** Joining the pieces with `sep` gives `s` back, and no piece contains
      `sep`. */
  lemma {:induction false} SplitParts(s: string, sep: string)
    requires |sep| > 0
    ensures Join(Split(s, sep), sep) == s
    ensures forall k :: 0 <= k < |Split(s, sep)| ==> !Contains(Split(s, sep)[k], sep)
    decreases |s|
  {
    var i := Index(s, sep);
    if i >= 0 {
      var head, tail := s[..i], s[i + |sep|..];
      var r, rest := Split(s, sep), Split(tail, sep);
      SplitParts(tail, sep);
      AroundOccurrence(s, sep, i);
      BeforeIndex(s, sep);
      JoinCons(head, rest, sep);
      forall k | 0 <= k < |r|
        ensures !Contains(r[k], sep)
      {
        if k > 0 {
          assert r[k] == rest[k - 1];
        }
      }
    }
  }

  // ---------------------------------------------------------------- replace

  /** strings.ReplaceAll for a non-empty `pat`: every non-overlapping
      occurrence of `pat`, found from the left, becomes `repl`. */
  function ReplaceAll(s: string, pat: string, repl: string): (r: string)
    requires |pat| > 0
    decreases |s|
  {
    var i := Index(s, pat);
    if i < 0 then s else s[..i] + repl + ReplaceAll(s[i + |pat|..], pat, repl)
  }

  /** ReplaceAll is splitting at `pat` and joining with `repl`. */
  lemma {:induction false} ReplaceAllIsSplitJoin(s: string, pat: string, repl: string)
    requires |pat| > 0
    ensures ReplaceAll(s, pat, repl) == Join(Split(s, pat), repl)
    decreases |s|
  {
    var i := Index(s, pat);
    if i >= 0 {
      var head, tail := s[..i], s[i + |pat|..];
      ReplaceAllIsSplitJoin(tail, pat, repl);
      SplitAt(s, pat, i);
      ReplaceAllAt(s, pat, repl, i);
      JoinCons(head, Split(tail, pat), repl);
    }
  }

  /** Split and ReplaceAll both cut `s` at the first occurrence of `pat`. */
  lemma {:induction false} SplitAt(s: string, pat: string, i: int)
    requires |pat| > 0 && i == Index(s, pat) && i >= 0
    ensures Split(s, pat) == [s[..i]] + Split(s[i + |pat|..], pat)
  {
    assert Split(s, pat) == (var j := Index(s, pat); if j < 0 then [s] else [s[..j]] + Split(s[j + |pat|..], pat));
  }

  lemma {:induction false} ReplaceAllAt(s: string, pat: string, repl: string, i: int)
    requires |pat| > 0 && i == Index(s, pat) && i >= 0
    ensures ReplaceAll(s, pat, repl) == s[..i] + repl + ReplaceAll(s[i + |pat|..], pat, repl)
  {
  }

  /** Replacing a text by itself changes nothing, and a text that does not
      occur is not replaced. */
  lemma {:induction false} ReplaceAllIdentity(s: string, pat: string)
    requires |pat| > 0
    ensures ReplaceAll(s, pat, pat) == s
    ensures !Contains(s, pat) ==> forall repl :: ReplaceAll(s, pat, repl) == s
  {
    ReplaceAllIsSplitJoin(s, pat, pat);
    SplitParts(s, pat);
  }

  /** Joining pieces free of `c` with a separator free of `c` gives a text free of `c`. */
  lemma {:induction false} JoinAvoids(parts: seq<string>, sep: string, c: char)
    requires forall k :: 0 <= k < |parts| ==> c !in parts[k]
    requires c !in sep
    ensures c !in Join(parts, sep)
    decreases |parts|
  {
    if |parts| > 1 {
      JoinAvoids(parts[1..], sep, c);
    }
  }

  /** After replacing every one-character text `[c]` by a text without `c`, no `c` is left. */
  lemma {:induction false} ReplaceAllRemoves(s: string, c: char, repl: string)
    requires c !in repl
    ensures c !in ReplaceAll(s, [c], repl)
  {
    ReplaceAllIsSplitJoin(s, [c], repl);
    SplitParts(s, [c]);
    var parts := Split(s, [c]);
    forall k | 0 <= k < |parts| ensures c !in parts[k] {
      ContainsChar(parts[k], c);
    }
    JoinAvoids(parts, repl, c);
  }

  /** strings.ReplaceAll(s, "'", ""): every single quote removed. */
  function StripQuotes(s: string): (r: string)
    ensures '\'' !in r
    ensures |r| <= |s|
    ensures forall c :: c != '\'' ==> (c in r <==> c in s)
  {
    if |s| == 0 then ""
    else if s[0] == '\'' then StripQuotes(s[1..])
    else [s[0]] + StripQuotes(s[1..])
  }

  lemma {:induction false} StripQuotesNone(s: string)
    requires '\'' !in s
    ensures StripQuotes(s) == s
  {
    if |s| > 0 {
      StripQuotesNone(s[1..]);
    }
  }

  lemma {:induction false} StripQuotesAppend(a: string, b: string)
    ensures StripQuotes(a + b) == StripQuotes(a) + StripQuotes(b)
  {
    if |a| > 0 {
      assert (a + b)[1..] == a[1..] + b;
      StripQuotesAppend(a[1..], b);
    } else {
      assert a + b == b;
    }
  }

  // ---------------------------------------------------------------- case and padding

  /** The lower-case form of an ASCII letter; every other character unchanged. */
  function LowerChar(c: char): char {
    if 'A' <= c <= 'Z' then (c as int + 32) as char else c
  }

  /** strings.ToLower over ASCII text. */
  function ToLower(s: string): (r: string)
    ensures |r| == |s|
    ensures forall i :: 0 <= i < |s| ==> r[i] == LowerChar(s[i])
  {
    seq(|s|, i requires 0 <= i < |s| => LowerChar(s[i]))
  }

  lemma {:induction false} ToLowerAppend(a: string, b: string)
    ensures ToLower(a + b) == ToLower(a) + ToLower(b)
  {
    assert forall i :: 0 <= i < |a + b| ==> ToLower(a + b)[i] == (ToLower(a) + ToLower(b))[i];
  }

  /** strings.Repeat(" ", n). */
  function Spaces(n: nat): (r: string)
    ensures |r| == n
    ensures forall i :: 0 <= i < n ==> r[i] == ' '
  {
    seq(n, _ => ' ')
  }

  /** strings.TrimLeft(s, " "). */
  function TrimLeft(s: string): string
  {
    if |s| > 0 && s[0] == ' ' then TrimLeft(s[1..]) else s
  }

  /** TrimLeft removes a run of leading spaces, and all of them. */
  lemma {:induction false} TrimLeftShape(s: string)
    ensures var r := TrimLeft(s);
      |r| <= |s| && r == s[|s| - |r|..] && (r == [] || r[0] != ' ') &&
      forall i :: 0 <= i < |s| - |r| ==> s[i] == ' '
  {
    if |s| > 0 && s[0] == ' ' {
      TrimLeftShape(s[1..]);
    }
  }

  /** strings.TrimRight(s, " "). */
  function TrimRight(s: string): string
  {
    if |s| > 0 && s[|s| - 1] == ' ' then TrimRight(s[..|s| - 1]) else s
  }

  /** TrimRight removes a run of trailing spaces, and all of them. */
  lemma {:induction false} TrimRightShape(s: string)
    ensures var r := TrimRight(s);
      |r| <= |s| && r == s[..|r|] && (r == [] || r[|r| - 1] != ' ') &&
      forall i :: |r| <= i < |s| ==> s[i] == ' '
  {
    if |s| > 0 && s[|s| - 1] == ' ' {
      TrimRightShape(s[..|s| - 1]);
    }
  }

  /** strings.Trim(s, " "): drop a leading space, else a trailing one,
      until neither end is a space. */
  function Trim(s: string): string
  {
    if |s| > 0 && s[0] == ' ' then Trim(s[1..])
    else if |s| > 0 && s[|s| - 1] == ' ' then Trim(s[..|s| - 1])
    else s
  }

  /** Trim is TrimRight after TrimLeft. */
  lemma {:induction false} TrimBothEnds(s: string)
    ensures Trim(s) == TrimRight(TrimLeft(s))
  {
    if |s| > 0 && s[0] == ' ' {
      TrimBothEnds(s[1..]);
    } else if |s| > 0 && s[|s| - 1] == ' ' {
      var p := s[..|s| - 1];
      TrimBothEnds(p);
      assert |p| > 0 && p[0] == s[0];
    }
  }

  /** Trim keeps a run of `s` that neither starts nor ends with a space, and
      removes nothing but spaces. */
  lemma {:induction false} TrimShape(s: string)
    ensures |Trim(s)| <= |s|
    ensures Trim(s) == [] || (Trim(s)[0] != ' ' && Trim(s)[|Trim(s)| - 1] != ' ')
    ensures var i := |s| - |TrimLeft(s)|;
      0 <= i <= |s| - |Trim(s)| && s[i..i + |Trim(s)|] == Trim(s) &&
      (forall k :: 0 <= k < i ==> s[k] == ' ') &&
      (forall k :: i + |Trim(s)| <= k < |s| ==> s[k] == ' ')
  {
    TrimBothEnds(s);
    var l := TrimLeft(s);
    var t := TrimRight(l);
    TrimLeftShape(s);
    TrimRightShape(l);
    assert Trim(s) == t;
    var i := |s| - |l|;
    assert t == [] || (t[0] == l[0] && t[|t| - 1] != ' ');
    assert s[i..i + |t|] == l[..|t|];
    forall k | i + |t| <= k < |s|
      ensures s[k] == ' '
    {
      assert s[k] == l[k - i];
    }
  }

  /** Trimming a trimmed text changes nothing. */
  lemma {:induction false} TrimIdempotent(s: string)
    ensures Trim(Trim(s)) == Trim(s)
  {
    TrimShape(s);
  }

  // ---------------------------------------------------------------- byte order

  /** Go's `a < b` on strings: byte-wise lexicographic order. */
  predicate Less(a: string, b: string)
  {
    if |a| == 0 then |b| > 0
    else if |b| == 0 then false
    else if a[0] != b[0] then a[0] < b[0]
    else Less(a[1..], b[1..])
  }

  lemma {:induction false} LessIrreflexive(a: string)
    ensures !Less(a, a)
  {
    if |a| > 0 {
      LessIrreflexive(a[1..]);
    }
  }

  /** The byte order is never true in both directions. */
  lemma {:induction false} LessAsymmetric(a: string, b: string)
    ensures !(Less(a, b) && Less(b, a))
  {
    if |a| > 0 && |b| > 0 && a[0] == b[0] {
      LessAsymmetric(a[1..], b[1..]);
    }
  }

  /** Two different strings are ordered one way or the other. */
  lemma {:induction false} LessTotal(a: string, b: string)
    ensures a == b || Less(a, b) || Less(b, a)
  {
    if |a| > 0 && |b| > 0 && a[0] == b[0] {
      LessTotal(a[1..], b[1..]);
      if a[1..] == b[1..] {
        assert a == [a[0]] + a[1..] && b == [b[0]] + b[1..];
      }
    }
  }

  lemma {:induction false} LessTransitive(a: string, b: string, c: string)
    requires Less(a, b) && Less(b, c)
    ensures Less(a, c)
  {
    if |a| > 0 && a[0] == b[0] && b[0] == c[0] {
      LessTransitive(a[1..], b[1..], c[1..]);
    }
  }

  // ---------------------------------------------------------------- sort.Strings

  predicate Sorted(s: seq<string>) {
    forall i, j :: 0 <= i < j < |s| ==> !Less(s[j], s[i])
  }

  function Insert(x: string, s: seq<string>): (r: seq<string>)
    requires Sorted(s)
    ensures Sorted(r)
    ensures multiset(r) == multiset(s) + multiset{x}
  {
    if |s| == 0 then [x]
    else if !Less(s[0], x) then
      LessTotal(x, s[0]);
      assert forall j :: 0 <= j < |s| ==> !Less(s[j], x) by {
        forall j | 0 <= j < |s| ensures !Less(s[j], x) {
          if Less(s[j], x) {
            if j > 0 {
              if s[j] == s[0] { } else {
                LessTotal(s[j], s[0]);
                LessTransitive(s[0], s[j], x);
              }
            }
          }
        }
      }
      [x] + s
    else
      var t := Insert(x, s[1..]);
      assert s == [s[0]] + s[1..];
      assert forall k :: 0 <= k < |t| ==> !Less(t[k], s[0]) by {
        forall k | 0 <= k < |t| ensures !Less(t[k], s[0]) {
          assert t[k] in multiset(t);
          if t[k] == x {
            LessAsymmetric(s[0], x);
          } else {
            assert t[k] in multiset(s[1..]);
            var j :| 0 <= j < |s[1..]| && s[1..][j] == t[k];
            assert s[j + 1] == t[k];
          }
        }
      }
      [s[0]] + t
  }

  /** sort.Strings: the strings in increasing byte order. */
  function SortStrings(s: seq<string>): (r: seq<string>)
    ensures Sorted(r)
    ensures multiset(r) == multiset(s)
  {
    if |s| == 0 then []
    else
      assert s == [s[0]] + s[1..];
      Insert(s[0], SortStrings(s[1..]))
  }
}
