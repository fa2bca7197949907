/** The string helpers of utilities.go: BuildQuery, ReplaceSmart, Slash,
    TableOrQuery and Aligner. */
module Helpers {
  import opened Results
  import Text

  // ---------------------------------------------------------------- BuildQuery

  /** The query after each replacer in turn: every "?key" becomes the
      value. Go ranges over a map in an unspecified order; here the
      replacers are a list and the order is the list's. */
  function Substituted(qry: string, replacers: seq<(string, string)>): string
    decreases |replacers|
  {
    if |replacers| == 0 then qry
    else
      var (k, v) := replacers[0];
      Substituted(Text.ReplaceAll(qry, "?" + k, v), replacers[1..])
  }

  /** BuildQuery: replaces the placeholders "?key" of `srcQry` one key at a time. */
  method BuildQuery(srcQry: string, replacers: seq<(string, string)>) returns (qry: string)
    ensures qry == Substituted(srcQry, replacers)
  {
    qry := srcQry;
    var i := 0;
    while i < |replacers|
      invariant 0 <= i <= |replacers|
      invariant Substituted(qry, replacers[i..]) == Substituted(srcQry, replacers)
    {
      var (k, v) := replacers[i];
      assert replacers[i..][1..] == replacers[i + 1..];
      qry := Text.ReplaceAll(qry, "?" + k, v);
      i := i + 1;
    }
  }

  /** A query without any "?" has no placeholder to replace. */
  lemma {:induction false} NoPlaceholders(qry: string, replacers: seq<(string, string)>)
    requires '?' !in qry
    ensures Substituted(qry, replacers) == qry
    decreases |replacers|
  {
    if |replacers| > 0 {
      var (k, v) := replacers[0];
      QuestionMarkFree(qry, "?" + k);
      Text.ReplaceAllIdentity(qry, "?" + k);
      NoPlaceholders(qry, replacers[1..]);
    }
  }

  /** One replacer splits the query at its placeholder and joins the
      pieces with its value. */
  lemma {:induction false} OneReplacer(qry: string, k: string, v: string)
    ensures Substituted(qry, [(k, v)]) == Text.Join(Text.Split(qry, "?" + k), v)
  {
    Text.ReplaceAllIsSplitJoin(qry, "?" + k, v);
    assert [(k, v)][1..] == [];
  }

  /** A text without "?" contains no placeholder. */
  lemma {:induction false} QuestionMarkFree(s: string, p: string)
    requires |p| > 0 && p[0] == '?' && '?' !in s
    ensures !Text.Contains(s, p)
  {
  }

  /** A placeholder at the front of the query, not followed by another one,
      is replaced once. */
  lemma {:induction false} ReplaceFront(p: string, tail: string, x: string)
    requires |p| > 0 && !Text.Contains(tail, p)
    ensures Text.ReplaceAll(p + tail, p, x) == x + tail
  {
    var q := p + tail;
    assert q[..|p|] == p;
    assert Text.Index(q, p) == 0;
    assert q[|p|..] == tail && q[..0] == "";
    assert Text.ReplaceAll(tail, p, x) == tail;
  }

  /** Substituted takes the replacers in order, one after another. */
  lemma {:induction false} SubstitutedTwo(qry: string, k1: string, v1: string, k2: string, v2: string)
    ensures Substituted(qry, [(k1, v1), (k2, v2)]) ==
      Text.ReplaceAll(Text.ReplaceAll(qry, "?" + k1, v1), "?" + k2, v2)
  {
    var r := [(k1, v1), (k2, v2)];
    var q1 := Text.ReplaceAll(qry, "?" + k1, v1);
    var q2 := Text.ReplaceAll(q1, "?" + k2, v2);
    assert r[0] == (k1, v1) && r[1..] == [(k2, v2)];
    assert Substituted(qry, r) == Substituted(q1, [(k2, v2)]);
    assert [(k2, v2)][1..] == [];
    assert Substituted(q1, [(k2, v2)]) == Substituted(q2, []);
  }

  /** A placeholder that is a prefix of another makes the result depend on
      the order of the keys: "?ab" with a := "X" first loses the key ab. */
  lemma {:induction false} OverlappingKeys(k: string, tail: string, x: string, y: string)
    requires |tail| > 0 && '?' !in tail && '?' !in x && '?' !in y
    ensures Substituted("?" + k + tail, [(k, x), (k + tail, y)]) == x + tail
    ensures Substituted("?" + k + tail, [(k + tail, y), (k, x)]) == y
  {
    var p := "?" + k;
    var q := p + tail;
    assert "?" + (k + tail) == q;
    assert Text.ReplaceAll(q, p, x) == x + tail by {
      QuestionMarkFree(tail, p);
      ReplaceFront(p, tail, x);
    }
    assert Text.ReplaceAll(q, q, y) == y by {
      ReplaceFront(q, "", y);
      assert q + "" == q && y + "" == y;
    }
    assert Text.ReplaceAll(x + tail, q, y) == x + tail by {
      QuestionMarkFree(x + tail, q);
      Text.ReplaceAllIdentity(x + tail, q);
    }
    assert Text.ReplaceAll(y, p, x) == y by {
      QuestionMarkFree(y, p);
      Text.ReplaceAllIdentity(y, p);
    }
    SubstitutedTwo(q, k, x, k + tail, y);
    SubstitutedTwo(q, k + tail, y, k, x);
  }

  // ---------------------------------------------------------------- ReplaceSmart

  /** After the prefix `p`, ReplaceSmart is inside a delimited run: it has
      seen an odd number of delimiters. */
  function Inside(p: string, delim: string): bool {
    if |p| == 0 then false
    else if [p[|p| - 1]] == delim then !Inside(p[..|p| - 1], delim)
    else Inside(p[..|p| - 1], delim)
  }

  /** What ReplaceSmart emits for the prefix `p`: a delimiter as it is,
      oldChar outside a delimited run as newChar, anything else as it is. */
  function SmartOut(p: string, oldChar: string, newChar: string, delim: string): string {
    if |p| == 0 then ""
    else
      var q, ch := p[..|p| - 1], [p[|p| - 1]];
      SmartOut(q, oldChar, newChar, delim) +
        (if ch != delim && ch == oldChar && !Inside(q, delim) then newChar else ch)
  }

  /** ReplaceSmart: replaces oldChar by newChar except between delimiters;
      all three are at most one character (Go panics otherwise). */
  method ReplaceSmart(source: string, oldChar: string, newChar: string, delim: string) returns (replaced: string)
    requires |oldChar| <= 1 && |newChar| <= 1 && |delim| <= 1
    ensures replaced == SmartOut(source, oldChar, newChar, delim)
  {
    var inside := false;
    replaced := "";
    var ind := 0;
    while ind < |source|
      invariant 0 <= ind <= |source|
      invariant inside == Inside(source[..ind], delim)
      invariant replaced == SmartOut(source[..ind], oldChar, newChar, delim)
    {
      var ch := source[ind..ind + 1];
      assert source[..ind + 1][..ind] == source[..ind];
      assert [source[..ind + 1][ind]] == ch;
      if ch == delim {
        inside := !inside;
      } else if ch == oldChar {
        if !inside {
          ch := newChar;
        }
      }
      replaced := replaced + ch;
      ind := ind + 1;
    }
    assert source[..ind] == source;
  }

  /** With a one-character newChar every character stays in its place:
      oldChar outside delimited runs becomes newChar, every other
      character, and everything between delimiters, is kept. */
  lemma {:induction false} SmartInPlace(s: string, oldChar: string, newChar: string, delim: string)
    requires |newChar| == 1
    ensures |SmartOut(s, oldChar, newChar, delim)| == |s|
    ensures forall i :: 0 <= i < |s| ==>
      SmartOut(s, oldChar, newChar, delim)[i] ==
        if [s[i]] != delim && [s[i]] == oldChar && !Inside(s[..i], delim) then newChar[0] else s[i]
    decreases |s|
  {
    if |s| > 0 {
      var q := s[..|s| - 1];
      SmartInPlace(q, oldChar, newChar, delim);
      forall i | 0 <= i < |q| ensures q[..i] == s[..i] && q[i] == s[i] {
      }
    }
  }

  // ---------------------------------------------------------------- Slash and TableOrQuery

  /** Slash: the text with a trailing "/" unless it already has one; Go
      reads the last byte, so the text must not be empty. */
  function Slash(inStr: string): (r: string)
    requires |inStr| > 0
    ensures |r| > 0 && r[|r| - 1] == '/'
    ensures r == inStr || r == inStr + "/"
    ensures r == inStr <==> inStr[|inStr| - 1] == '/'
  {
    if inStr[|inStr| - 1] == '/' then inStr else inStr + "/"
  }

  lemma {:induction false} SlashIdempotent(s: string)
    requires |s| > 0
    ensures Slash(Slash(s)) == Slash(s)
  {
  }

  /** "select", in any case, occurs in the text. */
  predicate HasSelect(table: string) {
    Text.Contains(Text.ToLower(table), "select")
  }

  /** TableOrQuery: a text that contains "select" (in any case) is a query
      and is put in parentheses unless it starts with one; any other text
      is a table name and becomes "(SELECT * FROM table)". */
  function TableOrQuery(table: string): (r: string)
    ensures |r| > 0 && r[0] == '('
    ensures HasSelect(table) ==> |table| > 0 && r == if table[0] == '(' then table else "(" + table + ")"
    ensures !HasSelect(table) ==> r == "(SELECT * FROM " + table + ")"
  {
    if HasSelect(table) then
      assert |table| > 0;
      if table[0..1] != "(" then "(" + table + ")" else table
    else "(SELECT * FROM " + table + ")"
  }

  /** Text wrapped around a query keeps it a query. */
  lemma {:induction false} SelectInside(a: string, t: string, b: string)
    requires HasSelect(t)
    ensures HasSelect(a + t + b)
  {
    Text.ToLowerAppend(a, t);
    Text.ToLowerAppend(a + t, b);
    Text.ContainsInside(Text.ToLower(a), Text.ToLower(t), Text.ToLower(b), "select");
  }

  /** TableOrQuery's own results are queries in parentheses, so applying
      it twice changes nothing. */
  lemma {:induction false} TableOrQueryIdempotent(table: string)
    ensures HasSelect(TableOrQuery(table))
    ensures TableOrQuery(TableOrQuery(table)) == TableOrQuery(table)
  {
    var r := TableOrQuery(table);
    if HasSelect(table) {
      SelectInside("(", table, ")");
      assert ("(" + table + ")")[0..1] == "(";
      assert table[0..1] == [table[0]];
    } else {
      var pre := "(SELECT * FROM ";
      var lr := Text.ToLower(r);
      assert lr[1..7] == "select" by {
        forall i | 1 <= i < 7 ensures lr[i] == "select"[i - 1] {
          assert r[i] == pre[i];
        }
      }
      assert Text.OccursAt(lr, "select", 1);
      assert r[0..1] == "(";
    }
  }

  // ---------------------------------------------------------------- Aligner

  /** The longest of the texts, or 0. */
  function MaxLength(strs: seq<string>): (m: nat)
    ensures forall i :: 0 <= i < |strs| ==> |strs[i]| <= m
    ensures |strs| > 0 ==> exists i :: 0 <= i < |strs| && |strs[i]| == m
  {
    if |strs| == 0 then 0
    else
      var m := MaxLength(strs[..|strs| - 1]);
      if |strs[|strs| - 1]| > m then |strs[|strs| - 1]| else m
  }

  /** Aligner over texts already printed with "%v": each left text padded
      to the longest one plus `pad` spaces, then the right text. Lists of
      different lengths give no lines (Go returns nil). strings.Repeat
      panics on a negative count, which a negative pad causes. */
  method Aligner(left: seq<string>, right: seq<string>, pad: int) returns (outStr: seq<string>)
    requires |left| == |right| && |left| > 0 ==> pad >= 0
    ensures |left| != |right| ==> outStr == []
    ensures |left| == |right| ==> |outStr| == |left|
    ensures |left| == |right| ==> forall i :: 0 <= i < |left| ==>
      var w := MaxLength(left) + pad;
      |outStr[i]| == w + |right[i]| &&
      outStr[i][..w] == left[i] + Text.Spaces(w - |left[i]|) && outStr[i][w..] == right[i]
  {
    if |left| != |right| {
      return [];
    }
    var maxLen, leftStr := Longest(left);
    outStr := AlignLines(leftStr, right, maxLen + pad);
    forall i | 0 <= i < |left|
      ensures var w := maxLen + pad;
        |outStr[i]| == w + |right[i]| &&
        outStr[i][..w] == left[i] + Text.Spaces(w - |left[i]|) && outStr[i][w..] == right[i]
    {
      AlignedLineShape(left[i], right[i], maxLen + pad);
    }
  }

  /** Aligner's first loop: the left texts, and the length of the longest. */
  method Longest(left: seq<string>) returns (maxLen: nat, leftStr: seq<string>)
    ensures maxLen == MaxLength(left) && leftStr == left
  {
    maxLen := 0;
    leftStr := [];
    var ind := 0;
    while ind < |left|
      invariant 0 <= ind <= |left|
      invariant leftStr == left[..ind]
      invariant maxLen == MaxLength(left[..ind])
    {
      assert left[..ind + 1][..ind] == left[..ind];
      var str := left[ind];
      maxLen := if maxLen > |str| then maxLen else |str|;
      leftStr := leftStr + [str];
      ind := ind + 1;
    }
    assert left[..ind] == left;
  }

  /** Aligner's second loop: every left text padded to width `w`, then its
      right text. */
  method AlignLines(leftStr: seq<string>, right: seq<string>, w: int) returns (outStr: seq<string>)
    requires |leftStr| == |right|
    requires forall i :: 0 <= i < |leftStr| ==> |leftStr[i]| <= w
    ensures |outStr| == |leftStr|
    ensures forall i :: 0 <= i < |leftStr| ==> outStr[i] == AlignedLine(leftStr[i], right[i], w)
  {
    outStr := [];
    var ind := 0;
    while ind < |leftStr|
      invariant 0 <= ind <= |leftStr|
      invariant |outStr| == ind
      invariant forall i :: 0 <= i < ind ==> outStr[i] == AlignedLine(leftStr[i], right[i], w)
    {
      var padding := Text.Spaces(w - |leftStr[ind]|);
      outStr := outStr + [leftStr[ind] + padding + right[ind]];
      ind := ind + 1;
    }
  }

  /** One line of Aligner: `l` padded with spaces to width `w`, then `r`. */
  function AlignedLine(l: string, r: string, w: int): string
    requires |l| <= w
  {
    l + Text.Spaces(w - |l|) + r
  }

  lemma {:induction false} AlignedLineShape(l: string, r: string, w: int)
    requires |l| <= w
    ensures |AlignedLine(l, r, w)| == w + |r|
    ensures AlignedLine(l, r, w)[..w] == l + Text.Spaces(w - |l|)
    ensures AlignedLine(l, r, w)[w..] == r
  {
    var line := AlignedLine(l, r, w);
    assert line == (l + Text.Spaces(w - |l|)) + r;
  }
}
