// Python string operations the core relies on, written out over
// `seq<char>`: whitespace splitting and stripping, prefix tests, substring
// replacement, one-character splitting, ASCII lowering, slicing with a
// possibly negative bound, and the decimal form of integers.
module Text {
  import opened Wrappers

  /** Python's str.isspace() for one character: the separators used by
      str.split() and str.strip() with no argument. */
  predicate IsSpace(c: char) {
    var n := c as int;
    n == 0x20 || (0x09 <= n <= 0x0d) || (0x1c <= n <= 0x1f) || n == 0x85 || n == 0xa0
    || n == 0x1680 || (0x2000 <= n <= 0x200a) || n == 0x2028 || n == 0x2029
    || n == 0x202f || n == 0x205f || n == 0x3000
  }

  predicate NoSpace(s: string) {
    forall i :: 0 <= i < |s| ==> !IsSpace(s[i])
  }

  /** A non-empty run of non-space characters: one element of s.split(). */
  predicate IsWord(w: string) {
    |w| > 0 && NoSpace(w)
  }

  /** Length of the run of non-space characters at the start of s. */
  function WordLen(s: string): (n: nat)
    ensures n <= |s|
    ensures forall i :: 0 <= i < n ==> !IsSpace(s[i])
    ensures n < |s| ==> IsSpace(s[n])
  {
    if s == [] || IsSpace(s[0]) then 0 else 1 + WordLen(s[1..])
  }

  /** Python's s.split() with no argument. */
  function Words(s: string): (ws: seq<string>)
    ensures forall i :: 0 <= i < |ws| ==> IsWord(ws[i])
    decreases |s|
  {
    if s == [] then []
    else if IsSpace(s[0]) then Words(s[1..])
    else
      var n := WordLen(s);
      [s[..n]] + Words(s[n..])
  }

  /** Python's sep.join(parts). */
  function Join(sep: string, parts: seq<string>): string {
    if parts == [] then ""
    else if |parts| == 1 then parts[0]
    else parts[0] + sep + Join(sep, parts[1..])
  }

  /** A join starts with its first part. */
  lemma JoinStartsWith(sep: string, parts: seq<string>)
    requires parts != []
    ensures StartsWith(Join(sep, parts), parts[0])
  {
    if |parts| > 1 {
      var j := Join(sep, parts);
      assert j == parts[0] + (sep + Join(sep, parts[1..]));
      assert j[..|parts[0]|] == parts[0];
    }
  }

  /** A join ends with its last part. */
  lemma {:induction false} JoinEndsWith(sep: string, parts: seq<string>)
    requires parts != []
    ensures EndsWith(Join(sep, parts), parts[|parts| - 1])
    decreases |parts|
  {
    if |parts| > 1 {
      JoinEndsWith(sep, parts[1..]);
      var rest := Join(sep, parts[1..]);
      var j := Join(sep, parts);
      assert j == (parts[0] + sep) + rest;
      assert j[|j| - |rest|..] == rest;
      var last := parts[|parts| - 1];
      assert rest[|rest| - |last|..] == last;
      assert j[|j| - |last|..] == rest[|rest| - |last|..];
    }
  }

  /** Joining parts that are all non-empty is empty only when there are no
      parts. */
  lemma JoinEmpty(sep: string, parts: seq<string>)
    requires forall i :: 0 <= i < |parts| ==> parts[i] != []
    ensures Join(sep, parts) == [] <==> parts == []
  {
    if parts != [] {
      JoinStartsWith(sep, parts);
    }
  }

  /** Every whitespace character is a single ' ' strictly between two
      non-space characters: no leading, trailing or repeated whitespace. */
  predicate IsCollapsed(s: string) {
    forall i :: 0 <= i < |s| && IsSpace(s[i]) ==>
      s[i] == ' ' && 0 < i && i + 1 < |s| && !IsSpace(s[i + 1])
  }

  /** " ".join(s.split()): every whitespace run becomes one space and the
      ends are trimmed; the words themselves are kept. */
  function CollapseWhitespace(s: string): (r: string)
    ensures IsCollapsed(r)
    ensures Words(r) == Words(s)
  {
    JoinedWordsCollapsed(Words(s));
    WordsOfJoin(Words(s));
    Join(" ", Words(s))
  }

  lemma {:induction false} WordLenOfWord(w: string, t: string)
    requires NoSpace(w)
    requires t == [] || IsSpace(t[0])
    ensures WordLen(w + t) == |w|
  {
    var s := w + t;
    assert forall i :: 0 <= i < |w| ==> s[i] == w[i];
    if |w| < |s| {
      assert s[|w|] == t[0];
    }
  }

  /** Joining words with single spaces gives a collapsed string that starts
      with the first word. */
  lemma {:induction false} JoinedWordsCollapsed(ws: seq<string>)
    requires forall i :: 0 <= i < |ws| ==> IsWord(ws[i])
    ensures IsCollapsed(Join(" ", ws))
    ensures ws != [] ==> IsWord(ws[0]) && |Join(" ", ws)| > 0 && Join(" ", ws)[0] == ws[0][0]
  {
    if |ws| > 1 {
      var w := ws[0];
      var rest := Join(" ", ws[1..]);
      JoinedWordsCollapsed(ws[1..]);
      var s := w + " " + rest;
      assert Join(" ", ws) == s;
      assert IsWord(ws[0]) && IsWord(ws[1]);
      assert forall i :: 0 <= i < |w| ==> s[i] == w[i];
      assert forall i :: |w| < i < |s| ==> s[i] == rest[i - |w| - 1];
      forall i | 0 <= i < |s| && IsSpace(s[i])
        ensures s[i] == ' ' && 0 < i && i + 1 < |s| && !IsSpace(s[i + 1])
      {
        if i == |w| {
          assert s[i + 1] == rest[0] == ws[1][0];
        } else if i + 1 < |s| {
          assert s[i + 1] == rest[i - |w|];
        }
      }
    }
  }

  /** Splitting words that were joined with single spaces gives them back. */
  lemma {:induction false} WordsOfJoin(ws: seq<string>)
    requires forall i :: 0 <= i < |ws| ==> IsWord(ws[i])
    ensures Words(Join(" ", ws)) == ws
  {
    if |ws| == 1 {
      var w := ws[0];
      WordLenOfWord(w, []);
      assert w + [] == w;
      assert w[|w|..] == [];
      assert w[..|w|] == w;
    } else if |ws| > 1 {
      WordsOfJoin(ws[1..]);
      WordsOfJoinStep(ws);
    }
  }

  /** One word, a space and the join of words whose split gives them back
      splits into the word and those words. */
  lemma WordsOfJoinStep(ws: seq<string>)
    requires |ws| > 1 && forall i :: 0 <= i < |ws| ==> IsWord(ws[i])
    requires Words(Join(" ", ws[1..])) == ws[1..]
    ensures Words(Join(" ", ws)) == ws
  {
    var w, rest := ws[0], Join(" ", ws[1..]);
    var s := w + " " + rest;
    ConcatParts(w, ' ', rest);
    WordLenOfWord(w, " " + rest);
    WordThenRest(s);
    calc {
      Words(Join(" ", ws));
      Words(s);
      [w] + Words(rest);
      [w] + ws[1..];
      ws;
    }
  }

  /** The parts of a + [x] + b. */
  lemma ConcatParts<T>(a: seq<T>, x: T, b: seq<T>)
    ensures var s := a + [x] + b;
      s == a + ([x] + b) && s[..|a|] == a && s[|a|] == x && s[|a| + 1..] == b
  {
  }

  /** A collapsed string is a fixed point of collapsing. */
  lemma {:induction false} CollapsedIsFixpoint(s: string)
    requires IsCollapsed(s)
    ensures CollapseWhitespace(s) == s
    decreases |s|
  {
    if s != [] {
      var n := WordLen(s);
      if n == |s| {
        OneWordFixpoint(s);
      } else {
        CollapsedAfterWord(s);
        CollapsedIsFixpoint(s[n + 1..]);
        FixpointStep(s);
      }
    }
  }

  /** A collapsed string without whitespace is one word. */
  lemma OneWordFixpoint(s: string)
    requires IsCollapsed(s) && s != [] && WordLen(s) == |s|
    ensures CollapseWhitespace(s) == s
  {
    assert !IsSpace(s[0]);
    assert s[|s|..] == [];
    assert s[..|s|] == s;
    assert Words(s) == [s];
  }

  /** A collapsed string whose rest after the first word and its space is
      a fixed point is one too. */
  lemma FixpointStep(s: string)
    requires IsCollapsed(s) && s != [] && WordLen(s) < |s|
    requires CollapseWhitespace(s[WordLen(s) + 1..]) == s[WordLen(s) + 1..]
    ensures CollapseWhitespace(s) == s
  {
    var n := WordLen(s);
    var w, t := s[..n], s[n + 1..];
    CollapsedAfterWord(s);
    assert !IsSpace(s[0]);
    WordThenRest(s);
    assert Words(t) != [] by {
      assert !IsSpace(t[0]);
    }
    SplitAround(s, n);
    calc {
      CollapseWhitespace(s);
      Join(" ", [w] + Words(t));
      == { JoinCons(" ", w, Words(t)); }
      w + " " + Join(" ", Words(t));
      w + " " + t;
      s;
    }
  }

  /** A sequence is its prefix, one element and its suffix. */
  lemma SplitAround<T>(s: seq<T>, n: nat)
    requires n < |s|
    ensures s == s[..n] + [s[n]] + s[n + 1..]
  {
  }

  /** Dropping one more element after a drop. */
  lemma DropOne<T>(s: seq<T>, n: nat)
    requires n < |s|
    ensures s[n..][1..] == s[n + 1..]
  {
  }

  /** In a collapsed string, the first word that does not reach the end is
      followed by one space and a collapsed rest that starts with a word. */
  lemma CollapsedAfterWord(s: string)
    requires IsCollapsed(s) && s != [] && WordLen(s) < |s|
    ensures var n := WordLen(s);
      s[n] == ' ' && n + 1 < |s| && !IsSpace(s[n + 1]) && IsCollapsed(s[n + 1..])
  {
    var n := WordLen(s);
    var t := s[n + 1..];
    forall i | 0 <= i < |t| && IsSpace(t[i])
      ensures t[i] == ' ' && 0 < i && i + 1 < |t| && !IsSpace(t[i + 1])
    {
      assert t[i] == s[n + 1 + i];
      if i + 1 < |t| {
        assert t[i + 1] == s[n + 2 + i];
      }
    }
  }

  /** A string that starts with a word followed by one whitespace
      character splits into that word and the words of the rest. */
  lemma WordThenRest(s: string)
    requires s != [] && !IsSpace(s[0]) && WordLen(s) < |s| && IsSpace(s[WordLen(s)])
    ensures Words(s) == [s[..WordLen(s)]] + Words(s[WordLen(s) + 1..])
  {
    DropOne(s, WordLen(s));
  }

  /** A string of whitespace only splits into no words. */
  lemma {:induction false} BlankHasNoWords(s: string)
    requires forall i :: 0 <= i < |s| ==> IsSpace(s[i])
    ensures Words(s) == []
    decreases |s|
  {
    if s != [] {
      assert IsSpace(s[0]);
      BlankHasNoWords(s[1..]);
    }
  }

  /** Python's s.lstrip() with no argument. */
  function LStrip(s: string): (r: string)
    ensures |r| <= |s| && r == s[|s| - |r|..]
    ensures r != [] ==> !IsSpace(r[0])
    ensures forall i :: 0 <= i < |s| - |r| ==> IsSpace(s[i])
  {
    if s != [] && IsSpace(s[0]) then
      var r := LStrip(s[1..]);
      assert s[1..][|s| - 1 - |r|..] == s[|s| - |r|..];
      r
    else s
  }

  /** Python's s.rstrip() with no argument. */
  function RStrip(s: string): (r: string)
    ensures |r| <= |s| && r == s[..|r|]
    ensures r != [] ==> !IsSpace(r[|r| - 1])
    ensures forall i :: |r| <= i < |s| ==> IsSpace(s[i])
  {
    if s != [] && IsSpace(s[|s| - 1]) then
      var r := RStrip(s[..|s| - 1]);
      assert s[..|s| - 1][..|r|] == s[..|r|];
      r
    else s
  }

  /** Python's s.strip() with no argument: the result is empty exactly when
      s is blank, and otherwise neither starts nor ends with whitespace. */
  function Strip(s: string): (r: string)
    ensures |r| <= |s|
    ensures r != [] ==> !IsSpace(r[0]) && !IsSpace(r[|r| - 1])
    ensures r == [] <==> forall i :: 0 <= i < |s| ==> IsSpace(s[i])
  {
    StripEnds(s);
    RStrip(LStrip(s))
  }

  lemma StripEnds(s: string)
    ensures var r := RStrip(LStrip(s));
      && |r| <= |s|
      && (r != [] ==> !IsSpace(r[0]) && !IsSpace(r[|r| - 1]))
      && (r == [] <==> forall i :: 0 <= i < |s| ==> IsSpace(s[i]))
  {
    var l := LStrip(s);
    var r := RStrip(l);
    if r == [] {
      assert l == [];
    } else {
      assert r[0] == l[0];
      assert s[|s| - |l|] == l[0];
    }
  }

  /** Stripping a string that has no whitespace at either end changes
      nothing. */
  lemma StripUntrimmed(s: string)
    requires s == [] || (!IsSpace(s[0]) && !IsSpace(s[|s| - 1]))
    ensures Strip(s) == s
  {
  }

  predicate StartsWith(s: string, p: string) {
    |p| <= |s| && s[..|p|] == p
  }

  predicate EndsWith(s: string, p: string) {
    |p| <= |s| && s[|s| - |p|..] == p
  }

  /** Python's `p in s` for strings. */
  predicate Contains(s: string, p: string)
    decreases |s|
  {
    StartsWith(s, p) || (s != [] && Contains(s[1..], p))
  }

  /** Python's s.replace(pat, rep): every leftmost, non-overlapping
      occurrence of pat, scanning from the left. */
  function ReplaceAll(s: string, pat: string, rep: string): string
    requires pat != []
    decreases |s|
  {
    if s == [] then []
    else if StartsWith(s, pat) then rep + ReplaceAll(s[|pat|..], pat, rep)
    else [s[0]] + ReplaceAll(s[1..], pat, rep)
  }

  /** Replacing a pattern that does not occur changes nothing. */
  lemma {:induction false} ReplaceAbsent(s: string, pat: string, rep: string)
    requires pat != [] && !Contains(s, pat)
    ensures ReplaceAll(s, pat, rep) == s
    decreases |s|
  {
    if s != [] {
      ReplaceAbsent(s[1..], pat, rep);
      assert s == [s[0]] + s[1..];
    }
  }

  /** Replacing a one-character pattern distributes over concatenation. */
  lemma {:induction false} ReplaceCharConcat(a: string, b: string, c: char, rep: string)
    ensures ReplaceAll(a + b, [c], rep) == ReplaceAll(a, [c], rep) + ReplaceAll(b, [c], rep)
    decreases |a|
  {
    if a == [] {
      assert a + b == b;
    } else {
      ReplaceCharConcat(a[1..], b, c, rep);
      var s := a + b;
      assert s[0] == a[0];
      assert s[1..] == a[1..] + b;
      assert s[..1] == [a[0]] && a[..1] == [a[0]];
      if a[0] == c {
        assert ReplaceAll(s, [c], rep) == rep + ReplaceAll(s[1..], [c], rep);
        assert ReplaceAll(a, [c], rep) == rep + ReplaceAll(a[1..], [c], rep);
      } else {
        assert ReplaceAll(s, [c], rep) == [a[0]] + ReplaceAll(s[1..], [c], rep);
        assert ReplaceAll(a, [c], rep) == [a[0]] + ReplaceAll(a[1..], [c], rep);
      }
    }
  }

  /** Replacing in a single character. */
  lemma ReplaceCharOne(x: char, c: char, rep: string)
    ensures ReplaceAll([x], [c], rep) == if x == c then rep else [x]
  {
    assert [x][1..] == [];
    assert [x][..1] == [x];
  }

  /** Replacing a character that does not occur changes nothing. */
  lemma ReplaceCharAbsent(s: string, c: char, rep: string)
    requires c !in s
    ensures ReplaceAll(s, [c], rep) == s
  {
    if Contains(s, [c]) {
      ContainsChar(s, c);
    }
    ReplaceAbsent(s, [c], rep);
  }

  lemma {:induction false} ContainsChar(s: string, c: char)
    requires Contains(s, [c])
    ensures c in s
    decreases |s|
  {
    if StartsWith(s, [c]) {
      assert s[..1][0] == c;
    } else {
      ContainsChar(s[1..], c);
      var k :| 0 <= k < |s[1..]| && s[1..][k] == c;
      assert s[k + 1] == c;
    }
  }

  /** Index of the first c in s, or |s| when c does not occur. */
  function IndexOf(s: string, c: char): (i: nat)
    ensures i <= |s|
    ensures i < |s| ==> s[i] == c
    ensures forall j :: 0 <= j < i ==> s[j] != c
  {
    if s == [] || s[0] == c then 0 else 1 + IndexOf(s[1..], c)
  }

  /** Python's s.split(c) for a one-character separator: the pieces between
      occurrences of c, in order; there is always at least one. */
  function Split(s: string, c: char): (parts: seq<string>)
    ensures |parts| >= 1
    ensures parts[0] == s[..IndexOf(s, c)]
    ensures forall k :: 0 <= k < |parts| ==> c !in parts[k]
    decreases |s|
  {
    var i := IndexOf(s, c);
    if i == |s| then [s] else [s[..i]] + Split(s[i + 1..], c)
  }

  /** Joining the pieces of a split with the separator restores the string. */
  lemma {:induction false} SplitJoin(s: string, c: char)
    ensures Join([c], Split(s, c)) == s
    decreases |s|
  {
    var i := IndexOf(s, c);
    if i == |s| {
      assert Split(s, c) == [s];
    } else {
      SplitAt(s, c);
      SplitJoin(s[i + 1..], c);
      JoinAround(s, c, i, Split(s[i + 1..], c));
    }
  }

  /** Putting the text before position i, the separator at i and the join
      of the rest's parts back together gives s. */
  lemma JoinAround(s: string, c: char, i: nat, rest: seq<string>)
    requires i < |s| && s[i] == c
    requires rest != [] && Join([c], rest) == s[i + 1..]
    ensures Join([c], [s[..i]] + rest) == s
  {
    JoinCons([c], s[..i], rest);
    assert s == s[..i] + [c] + s[i + 1..];
  }

  /** A string that holds the separator splits into the text before it and
      the split of the rest. */
  lemma SplitAt(s: string, c: char)
    requires IndexOf(s, c) < |s|
    ensures Split(s, c) == [s[..IndexOf(s, c)]] + Split(s[IndexOf(s, c) + 1..], c)
  {
  }

  lemma JoinCons(sep: string, head: string, rest: seq<string>)
    requires rest != []
    ensures Join(sep, [head] + rest) == head + sep + Join(sep, rest)
  {
    assert ([head] + rest)[1..] == rest;
  }

  /** Python's s.rfind(c): the last index of c, or -1. */
  function RFind(s: string, c: char): (i: int)
    ensures -1 <= i < |s|
    ensures i >= 0 ==> s[i] == c
    ensures forall j :: i < j < |s| ==> s[j] != c
  {
    if s == [] then -1
    else if s[|s| - 1] == c then |s| - 1
    else RFind(s[..|s| - 1], c)
  }

  function LowerChar(c: char): char {
    if 'A' <= c <= 'Z' then (c as int + 32) as char else c
  }

  /** Python's s.lower() restricted to ASCII letters. */
  function Lower(s: string): (r: string)
    ensures |r| == |s|
    ensures forall i :: 0 <= i < |s| ==> r[i] == LowerChar(s[i])
  {
    seq(|s|, i requires 0 <= i < |s| => LowerChar(s[i]))
  }

  /** Python's s[:n], where a negative n counts back from the end. */
  function PyPrefix<T>(s: seq<T>, n: int): (r: seq<T>)
    ensures |r| <= |s| && r == s[..|r|]
    ensures 0 <= n ==> |r| == (if n < |s| then n else |s|)
    ensures n < 0 ==> |r| == (if -n < |s| then |s| + n else 0)
  {
    if n >= 0 then (if n < |s| then s[..n] else s)
    else if -n < |s| then s[..|s| + n] else []
  }

  /** Python's a < b on strings: code-point lexicographic order, where a
      proper prefix comes first. */
  predicate LexLess(a: string, b: string) {
    |b| > 0 && (|a| == 0 || a[0] < b[0] || (a[0] == b[0] && LexLess(a[1..], b[1..])))
  }

  predicate LexLeq(a: string, b: string) {
    a == b || LexLess(a, b)
  }

  lemma {:induction false} LexLessIrreflexive(a: string, b: string)
    requires LexLess(a, b)
    ensures a != b && !LexLess(b, a)
  {
    if |a| > 0 && a[0] == b[0] {
      LexLessIrreflexive(a[1..], b[1..]);
      assert a == [a[0]] + a[1..] && b == [b[0]] + b[1..];
    }
  }

  lemma {:induction false} LexLeqTotal(a: string, b: string)
    ensures LexLeq(a, b) || LexLeq(b, a)
  {
    if |a| > 0 && |b| > 0 && a[0] == b[0] {
      LexLeqTotal(a[1..], b[1..]);
      assert a == [a[0]] + a[1..] && b == [b[0]] + b[1..];
    }
  }

  lemma {:induction false} LexLessTrans(a: string, b: string, c: string)
    requires LexLess(a, b) && LexLess(b, c)
    ensures LexLess(a, c)
  {
    if |a| > 0 && a[0] == b[0] && b[0] == c[0] {
      LexLessTrans(a[1..], b[1..], c[1..]);
    }
  }

  lemma LexLeqTrans(a: string, b: string, c: string)
    requires LexLeq(a, b) && LexLeq(b, c)
    ensures LexLeq(a, c)
  {
    if a != b && b != c {
      LexLessTrans(a, b, c);
    }
  }

  predicate IsDigit(c: char) {
    '0' <= c <= '9'
  }

  function DigitChar(d: nat): char
    requires d < 10
  {
    ('0' as int + d) as char
  }

  /** Python's str(n) for a natural number. */
  function NatToString(n: nat): (s: string)
    ensures |s| > 0 && IsDigit(s[0]) && IsDigit(s[|s| - 1])
    ensures forall i :: 0 <= i < |s| ==> IsDigit(s[i])
    decreases n
  {
    if n < 10 then [DigitChar(n)] else NatToString(n / 10) + [DigitChar(n % 10)]
  }

  /** Python's str(i) for an integer. */
  function IntToString(i: int): string {
    if i < 0 then "-" + NatToString(-i) else NatToString(i)
  }

  /** Digits with single underscores between them, as Python's int()
      accepts them. */
  predicate WellFormedDigits(s: string) {
    |s| > 0 && IsDigit(s[0]) && IsDigit(s[|s| - 1])
    && (forall i :: 0 <= i < |s| ==> IsDigit(s[i]) || s[i] == '_')
    && (forall i :: 0 <= i < |s| - 1 && s[i] == '_' ==> s[i + 1] != '_')
  }

  /** The value of a run of digits, ignoring underscores. */
  function DigitsValue(s: string): nat
    requires forall i :: 0 <= i < |s| ==> IsDigit(s[i]) || s[i] == '_'
  {
    if s == [] then 0
    else if s[|s| - 1] == '_' then DigitsValue(s[..|s| - 1])
    else
      var d := s[|s| - 1];
      assert IsDigit(d);
      DigitsValue(s[..|s| - 1]) * 10 + (d as int - '0' as int)
  }

  /** Python's int(s) for ASCII input: surrounding whitespace, an optional
      sign, then digits with optional single underscores between them;
      anything else is a ValueError (None). */
  function ParseInt(s: string): Option<int> {
    var t := Strip(s);
    if t == [] then None
    else
      var digits := if t[0] == '-' || t[0] == '+' then t[1..] else t;
      if !WellFormedDigits(digits) then None
      else if t[0] == '-' then Some(-(DigitsValue(digits) as int))
      else Some(DigitsValue(digits) as int)
  }

  lemma {:induction false} NatToStringValue(n: nat)
    ensures WellFormedDigits(NatToString(n))
    ensures DigitsValue(NatToString(n)) == n
    decreases n
  {
    var s := NatToString(n);
    if n >= 10 {
      NatToStringValue(n / 10);
      assert s[..|s| - 1] == NatToString(n / 10);
    }
  }

  lemma {:induction false} ParseUnsigned(n: nat)
    ensures ParseInt(IntToString(n)) == Some(n)
  {
    var d := NatToString(n);
    NatToStringValue(n);
    assert IntToString(n) == d;
    assert !IsSpace(d[0]) && !IsSpace(d[|d| - 1]);
    StripUntrimmed(d);
    assert Strip(d) == d;
    assert d[0] != '-' && d[0] != '+';
  }

  lemma {:induction false} ParseNegative(n: nat)
    requires n > 0
    ensures ParseInt(IntToString(-(n as int))) == Some(-(n as int))
  {
    var d := NatToString(n);
    NatToStringValue(n);
    ParseMinus(d, n);
  }

  /** A minus sign before well-formed digits parses to their negation. */
  lemma ParseMinus(d: string, v: nat)
    requires WellFormedDigits(d) && DigitsValue(d) == v
    ensures ParseInt("-" + d) == Some(-(v as int))
  {
    var s := "-" + d;
    assert !IsSpace(s[0]);
    assert s[|s| - 1] == d[|d| - 1];
    assert !IsSpace(s[|s| - 1]);
    StripUntrimmed(s);
    var t := Strip(s);
    assert t == s;
    assert t[0] == '-';
    assert t[1..] == d;
  }

  /** int(str(i)) == i. */
  lemma {:induction false} IntToStringRoundTrip(i: int)
    ensures ParseInt(IntToString(i)) == Some(i)
  {
    if i < 0 {
      ParseNegative(-i);
    } else {
      ParseUnsigned(i);
    }
  }
}
