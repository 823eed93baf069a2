/**
 * JavaScript string operations used by the story tools, over `string` (a
 * sequence of code points): `split` on one character, `split(/\s+/)`,
 * `trim`, `startsWith`, `endsWith` and `replace` with a string pattern.
 */
module Text {
  import opened Wrappers

  /** The characters JavaScript's `trim` and `\s` treat as white space. */
  predicate IsSpace(c: char)
  {
    c == ' ' || c == '\t' || c == '\n' || c == '\r' || c == '\U{000B}' || c == '\U{000C}'
    || c == '\U{00A0}' || c == '\U{1680}' || ('\U{2000}' <= c <= '\U{200A}')
    || c == '\U{2028}' || c == '\U{2029}' || c == '\U{202F}' || c == '\U{205F}'
    || c == '\U{3000}' || c == '\U{FEFF}'
  }

  predicate AllSpace(s: string)
  {
    forall i :: 0 <= i < |s| ==> IsSpace(s[i])
  }

  predicate NoSpace(s: string)
  {
    forall i :: 0 <= i < |s| ==> !IsSpace(s[i])
  }

  predicate StartsWith(s: string, prefix: string)
  {
    |prefix| <= |s| && s[..|prefix|] == prefix
  }

  predicate EndsWith(s: string, suffix: string)
  {
    |suffix| <= |s| && s[|s| - |suffix|..] == suffix
  }

  /** Does `pat` occur in `s` at position `i`? */
  predicate OccursAt(s: string, pat: string, i: nat)
  {
    i + |pat| <= |s| && s[i..i + |pat|] == pat
  }

  /** `s.indexOf(pat)`: the first position where `pat` occurs, if any. */
  function IndexOf(s: string, pat: string, from: nat := 0): (r: Option<nat>)
    requires from <= |s|
    ensures r.Some? ==> from <= r.value && OccursAt(s, pat, r.value)
    ensures r.Some? ==> forall j :: from <= j < r.value ==> !OccursAt(s, pat, j)
    ensures r.None? ==> forall j :: from <= j <= |s| ==> !OccursAt(s, pat, j)
    decreases |s| - from
  {
    if OccursAt(s, pat, from) then Some(from)
    else if from + |pat| >= |s| then None
    else IndexOf(s, pat, from + 1)
  }

  /** `s.replace(pat, rep)` with a string pattern: only the first occurrence is replaced. */
  function ReplaceFirst(s: string, pat: string, rep: string): string
  {
    match IndexOf(s, pat)
    case None => s
    case Some(i) => s[..i] + rep + s[i + |pat|..]
  }

  lemma {:induction false} ReplacePrefix(s: string, pat: string)
    requires StartsWith(s, pat)
    ensures ReplaceFirst(s, pat, "") == s[|pat|..]
  {
    assert OccursAt(s, pat, 0);
  }

  lemma ReplaceAbsent(s: string, pat: string, rep: string)
    requires forall j :: 0 <= j <= |s| ==> !OccursAt(s, pat, j)
    ensures ReplaceFirst(s, pat, rep) == s
  {
  }

  /** Removing the first ".md" from a name that had ".md" appended, and held
      no ".md" before, gives back the name. */
  lemma {:induction false} ReplaceAppendedSuffix(n: string, suffix: string)
    requires suffix == ".md"
    requires forall j :: 0 <= j <= |n| ==> !OccursAt(n, suffix, j)
    ensures ReplaceFirst(n + suffix, suffix, "") == n
  {
    var s := n + suffix;
    assert OccursAt(s, suffix, |n|) by { assert s[|n|..|n| + 3] == suffix; }
    forall j | 0 <= j < |n| ensures !OccursAt(s, suffix, j) {
      if j + 3 <= |n| {
        assert s[j..j + 3] == n[j..j + 3];
        assert !OccursAt(n, suffix, j);
      } else if j + 2 == |n| {
        assert s[j + 2] == '.';
      } else {
        assert s[j + 1] == '.';
      }
    }
    match IndexOf(s, suffix)
    case Some(i) =>
      assert i == |n|;
      assert s[..|n|] == n;
      assert s[|n| + 3..] == [];
    case None =>
  }

  // ---------------------------------------------------------------------
  // split on one character

  /** `s.split(sep)` for a one-character separator. */
  function Split(s: string, sep: char): (r: seq<string>)
    ensures |r| >= 1
  {
    if |s| == 0 then [""]
    else
      var rest := Split(s[1..], sep);
      if s[0] == sep then [""] + rest else [[s[0]] + rest[0]] + rest[1..]
  }

  /** `parts.join(sep)`. */
  function Join(parts: seq<string>, sep: char): string
    requires |parts| >= 1
  {
    if |parts| == 1 then parts[0] else parts[0] + [sep] + Join(parts[1..], sep)
  }

  function Count(s: string, c: char): nat
  {
    if |s| == 0 then 0 else (if s[0] == c then 1 else 0) + Count(s[1..], c)
  }

  predicate Excludes(s: string, c: char)
  {
    forall i :: 0 <= i < |s| ==> s[i] != c
  }

  /** Splitting and joining again gives back the original text. */
  lemma {:induction false} JoinSplit(s: string, sep: char)
    ensures Join(Split(s, sep), sep) == s
  {
    if |s| > 0 {
      JoinSplit(s[1..], sep);
      var rest := Split(s[1..], sep);
      if s[0] != sep && |rest| > 1 {
        assert Split(s, sep)[1..] == rest[1..];
      }
    }
  }

  /** No piece of a split contains the separator, and there is one piece more than separators. */
  lemma {:induction false} SplitPieces(s: string, sep: char)
    ensures |Split(s, sep)| == Count(s, sep) + 1
    ensures forall k :: 0 <= k < |Split(s, sep)| ==> Excludes(Split(s, sep)[k], sep)
  {
    if |s| > 0 {
      SplitPieces(s[1..], sep);
      var rest := Split(s[1..], sep);
      if s[0] != sep {
        var r := Split(s, sep);
        assert r[0] == [s[0]] + rest[0];
        forall k | 0 <= k < |r| ensures Excludes(r[k], sep) {
          if k > 0 { assert r[k] == rest[k]; }
        }
      }
    }
  }

  /** Splitting a join of separator-free pieces gives back the pieces. */
  lemma {:induction false} SplitJoin(parts: seq<string>, sep: char)
    requires |parts| >= 1
    requires forall k :: 0 <= k < |parts| ==> Excludes(parts[k], sep)
    ensures Split(Join(parts, sep), sep) == parts
  {
    if |parts| == 1 {
      SplitWord(parts[0], sep, []);
      assert parts[0] + [] == parts[0];
      assert parts[0] + "" == parts[0];
      assert Split("", sep) == [""];
    } else {
      var j := Join(parts[1..], sep);
      SplitJoin(parts[1..], sep);
      var t := [sep] + j;
      assert t[0] == sep && t[1..] == j;
      assert Split(t, sep) == [""] + parts[1..];
      SplitWord(parts[0], sep, t);
      assert parts[0] + [sep] + j == parts[0] + t;
      assert parts[0] + "" == parts[0];
      assert parts == [parts[0]] + parts[1..];
    }
  }

  /** A separator-free word in front of a text extends the text's first piece. */
  lemma {:induction false} SplitWord(w: string, sep: char, t: string)
    requires Excludes(w, sep)
    ensures Split(w + t, sep) == [w + Split(t, sep)[0]] + Split(t, sep)[1..]
  {
    if |w| > 0 {
      SplitWord(w[1..], sep, t);
      assert (w + t)[1..] == w[1..] + t;
      assert [w[0]] + (w[1..] + Split(t, sep)[0]) == w + Split(t, sep)[0];
    } else {
      assert w + t == t;
      assert w + Split(t, sep)[0] == Split(t, sep)[0];
      assert Split(t, sep) == [Split(t, sep)[0]] + Split(t, sep)[1..];
    }
  }

  // ---------------------------------------------------------------------
  // trim

  function TrimStart(s: string): (r: string)
    ensures |r| <= |s| && r == s[|s| - |r|..]
    ensures AllSpace(s[..|s| - |r|])
  {
    if |s| > 0 && IsSpace(s[0]) then
      var r := TrimStart(s[1..]);
      assert s[1..][..|s[1..]| - |r|] == s[1..|s| - |r|];
      r
    else s
  }

  function TrimEnd(s: string): (r: string)
    ensures |r| <= |s| && r == s[..|r|]
    ensures AllSpace(s[|r|..])
  {
    if |s| > 0 && IsSpace(s[|s| - 1]) then
      var r := TrimEnd(s[..|s| - 1]);
      assert s[..|s| - 1][|r|..] == s[|r|..|s| - 1];
      r
    else s
  }

  /** `s.trim()`. */
  function Trim(s: string): string
  {
    TrimEnd(TrimStart(s))
  }

  /** The trimmed text is a slice of the input with only white space cut
      off either end, and it neither starts nor ends with white space. */
  lemma {:induction false} TrimShape(s: string)
    ensures exists i, j :: 0 <= i <= j <= |s| && Trim(s) == s[i..j] && AllSpace(s[..i]) && AllSpace(s[j..])
    ensures |Trim(s)| > 0 ==> !IsSpace(Trim(s)[0]) && !IsSpace(Trim(s)[|Trim(s)| - 1])
  {
    var i := |s| - |TrimStart(s)|;
    var j := i + |Trim(s)|;
    assert 0 <= i <= j <= |s| && Trim(s) == s[i..j] && AllSpace(s[..i]) && AllSpace(s[j..]) by {
      TrimSlice(s);
    }
    TrimEdges(s);
  }

  /** The trimmed text neither starts nor ends with white space. */
  lemma TrimEdges(s: string)
    ensures |Trim(s)| > 0 ==> !IsSpace(Trim(s)[0]) && !IsSpace(Trim(s)[|Trim(s)| - 1])
  {
    var a := TrimStart(s);
    TrimStartHead(s);
    TrimEndLast(a);
    if |Trim(s)| > 0 {
      assert Trim(s)[0] == a[0];
    }
  }

  lemma TrimSlice(s: string)
    ensures var i := |s| - |TrimStart(s)|; var j := i + |Trim(s)|;
      i <= j <= |s| && Trim(s) == s[i..j] && AllSpace(s[..i]) && AllSpace(s[j..])
  {
    var a := TrimStart(s);
    var b := TrimEnd(a);
    var i := |s| - |a|;
    SliceOfSlice(s, i, |b|);
  }

  lemma SliceOfSlice(s: string, i: nat, n: nat)
    requires i + n <= |s|
    ensures s[i..][..n] == s[i..i + n] && s[i..][n..] == s[i + n..]
  {
  }

  lemma {:induction false} TrimStartHead(s: string)
    ensures |TrimStart(s)| > 0 ==> !IsSpace(TrimStart(s)[0])
  {
    if |s| > 0 && IsSpace(s[0]) {
      TrimStartHead(s[1..]);
    }
  }

  lemma {:induction false} TrimEndLast(s: string)
    ensures |TrimEnd(s)| > 0 ==> !IsSpace(TrimEnd(s)[|TrimEnd(s)| - 1])
  {
    if |s| > 0 && IsSpace(s[|s| - 1]) {
      TrimEndLast(s[..|s| - 1]);
    }
  }

  /** A text is trimmed to nothing exactly when it is all white space. */
  lemma {:induction false} TrimEmpty(s: string)
    ensures Trim(s) == "" <==> AllSpace(s)
  {
    TrimShape(s);
    var i, j :| 0 <= i <= j <= |s| && Trim(s) == s[i..j] && AllSpace(s[..i]) && AllSpace(s[j..]);
    if Trim(s) == "" {
      forall k | 0 <= k < |s| ensures IsSpace(s[k]) {
        if k < i { assert s[..i][k] == s[k]; } else { assert s[j..][k - j] == s[k]; }
      }
    } else {
      assert s[i] == Trim(s)[0];
    }
  }

  /** A text trims to white space only when it was white space throughout. */
  lemma TrimBlank(s: string)
    ensures AllSpace(Trim(s)) <==> AllSpace(s)
  {
    TrimShape(s);
    TrimEmpty(s);
  }

  // ---------------------------------------------------------------------
  // ordering

  /** `a.localeCompare(b) <= 0` for plain text: code-point lexicographic order. */
  predicate LexLe(a: string, b: string)
  {
    |a| == 0 || (|b| > 0 && (a[0] < b[0] || (a[0] == b[0] && LexLe(a[1..], b[1..]))))
  }

  lemma {:induction false} LexLeTotal(a: string, b: string)
    ensures LexLe(a, b) || LexLe(b, a)
  {
    if |a| > 0 && |b| > 0 && a[0] == b[0] {
      LexLeTotal(a[1..], b[1..]);
    }
  }

  lemma {:induction false} LexLeTransitive(a: string, b: string, c: string)
    requires LexLe(a, b) && LexLe(b, c)
    ensures LexLe(a, c)
  {
    if |a| > 0 && a[0] == b[0] && b[0] == c[0] {
      LexLeTransitive(a[1..], b[1..], c[1..]);
    }
  }

  /** Two texts that compare equal both ways are the same text. */
  lemma {:induction false} LexLeAntisymmetric(a: string, b: string)
    requires LexLe(a, b) && LexLe(b, a)
    ensures a == b
  {
    if |a| > 0 {
      LexLeAntisymmetric(a[1..], b[1..]);
      assert a == [a[0]] + a[1..] && b == [b[0]] + b[1..];
    }
  }

  // ---------------------------------------------------------------------
  // split(/\s+/)

  /** The leading run of non-space characters. */
  function TakeWord(s: string): (w: string)
    ensures |w| <= |s| && w == s[..|w|] && NoSpace(w)
    ensures |w| < |s| ==> IsSpace(s[|w|])
  {
    if |s| == 0 || IsSpace(s[0]) then ""
    else
      var w := TakeWord(s[1..]);
      assert [s[0]] + w == s[..|w| + 1];
      [s[0]] + w
  }

  /** The text after its leading run of white space. */
  function DropSpaces(s: string): (r: string)
    ensures |r| <= |s| && r == s[|s| - |r|..]
    ensures |r| > 0 ==> !IsSpace(r[0])
    ensures AllSpace(s[..|s| - |r|])
  {
    if |s| > 0 && IsSpace(s[0]) then
      var r := DropSpaces(s[1..]);
      assert s[1..][..|s[1..]| - |r|] == s[1..|s| - |r|];
      r
    else s
  }

  /** `s.split(/\s+/)`: every maximal run of white space separates two pieces. */
  function SplitSpaces(s: string): (r: seq<string>)
    ensures |r| >= 1
    decreases |s|, if |s| > 0 && IsSpace(s[0]) then 1 else 0
  {
    if |s| == 0 then [""]
    else if IsSpace(s[0]) then [""] + SplitSpaces(DropSpaces(s))
    else
      var w := TakeWord(s);
      if |w| == |s| then [w] else [w] + SplitSpaces(DropSpaces(s[|w|..]))
  }

  function NonEmpty(pieces: seq<string>): seq<string>
  {
    if |pieces| == 0 then []
    else (if pieces[0] == "" then [] else [pieces[0]]) + NonEmpty(pieces[1..])
  }

  function Concat(pieces: seq<string>): string
  {
    if |pieces| == 0 then "" else pieces[0] + Concat(pieces[1..])
  }

  function RemoveSpaces(s: string): (r: string)
    ensures NoSpace(r)
  {
    if |s| == 0 then "" else (if IsSpace(s[0]) then "" else [s[0]]) + RemoveSpaces(s[1..])
  }

  lemma {:induction false} RemoveSpacesAppend(a: string, b: string)
    ensures RemoveSpaces(a + b) == RemoveSpaces(a) + RemoveSpaces(b)
  {
    if |a| > 0 {
      assert (a + b)[1..] == a[1..] + b;
      RemoveSpacesAppend(a[1..], b);
    } else {
      assert a + b == b;
    }
  }

  lemma {:induction false} RemoveSpacesOf(s: string)
    ensures AllSpace(s) ==> RemoveSpaces(s) == ""
    ensures NoSpace(s) ==> RemoveSpaces(s) == s
  {
    if |s| > 0 {
      RemoveSpacesOf(s[1..]);
    }
  }

  /** The white-space split keeps every other character, in order, and no piece holds white space. */
  lemma {:induction false} SplitSpacesContent(s: string)
    ensures Concat(SplitSpaces(s)) == RemoveSpaces(s)
    ensures forall k :: 0 <= k < |SplitSpaces(s)| ==> NoSpace(SplitSpaces(s)[k])
    decreases |s|, if |s| > 0 && IsSpace(s[0]) then 1 else 0
  {
    if |s| == 0 {
    } else if IsSpace(s[0]) {
      var d := DropSpaces(s);
      SplitSpacesContent(d);
      DropSpacesContent(s);
      PrependPiece("", SplitSpaces(d));
    } else {
      var w := TakeWord(s);
      RemoveSpacesOf(w);
      if |w| == |s| {
        assert w == s;
      } else {
        var t := s[|w|..];
        var d := DropSpaces(t);
        SplitSpacesContent(d);
        assert s == w + t;
        RemoveSpacesAppend(w, t);
        DropSpacesContent(t);
        PrependPiece(w, SplitSpaces(d));
      }
    }
  }

  lemma DropSpacesContent(s: string)
    ensures RemoveSpaces(DropSpaces(s)) == RemoveSpaces(s)
  {
    var d := DropSpaces(s);
    assert s == s[..|s| - |d|] + d;
    RemoveSpacesAppend(s[..|s| - |d|], d);
    RemoveSpacesOf(s[..|s| - |d|]);
  }

  lemma PrependPiece(w: string, rest: seq<string>)
    requires NoSpace(w)
    requires forall k :: 0 <= k < |rest| ==> NoSpace(rest[k])
    ensures Concat([w] + rest) == w + Concat(rest)
    ensures forall k :: 0 <= k < |[w] + rest| ==> NoSpace(([w] + rest)[k])
  {
    assert ([w] + rest)[1..] == rest;
  }

  /** `s.split(/\s+/).filter(w => w.length > 0).length`. */
  function CountWords(s: string): nat
  {
    |NonEmpty(SplitSpaces(s))|
  }

  lemma {:induction false} NonEmptyOfBlanks(pieces: seq<string>)
    requires Concat(pieces) == ""
    ensures NonEmpty(pieces) == []
  {
    if |pieces| > 0 {
      NonEmptyOfBlanks(pieces[1..]);
    }
  }

  lemma {:induction false} NonEmptyConcat(pieces: seq<string>)
    ensures Concat(NonEmpty(pieces)) == Concat(pieces)
  {
    if |pieces| > 0 {
      NonEmptyConcat(pieces[1..]);
      var rest := NonEmpty(pieces[1..]);
      if pieces[0] == "" {
        assert NonEmpty(pieces) == rest;
        assert Concat(pieces) == "" + Concat(pieces[1..]) == Concat(pieces[1..]);
      } else {
        assert NonEmpty(pieces) == [pieces[0]] + rest;
        assert ([pieces[0]] + rest)[1..] == rest;
      }
    }
  }

  /** A text has no words exactly when it is all white space. */
  lemma {:induction false} NoWordsIffBlank(s: string)
    ensures CountWords(s) == 0 <==> AllSpace(s)
  {
    SplitSpacesContent(s);
    NonEmptyConcat(SplitSpaces(s));
    RemoveSpacesOf(s);
    if AllSpace(s) {
      NonEmptyOfBlanks(SplitSpaces(s));
    } else {
      var k :| 0 <= k < |s| && !IsSpace(s[k]);
      RemoveSpacesNonBlank(s, k);
    }
  }

  lemma {:induction false} RemoveSpacesNonBlank(s: string, k: nat)
    requires k < |s| && !IsSpace(s[k])
    ensures RemoveSpaces(s) != ""
  {
    if k > 0 {
      RemoveSpacesNonBlank(s[1..], k - 1);
    }
  }
}
