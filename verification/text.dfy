/** The string primitives the source relies on: Python's `str.split()`,
    `str.strip()`, `readlines`, `str(int)` and `int(str)`, and C++'s
    `ostream << int`. Text is a sequence of characters after newline
    translation. */
module Text {
  import opened Results

  /** The ASCII characters Python's `str.split()` and `str.strip()` treat as
      whitespace: space, tab, newline, vertical tab, form feed, carriage return
      and the four separators 0x1c to 0x1f. */
  predicate IsSpace(c: char) {
    c == ' ' || (9 <= c as int <= 13) || (28 <= c as int <= 31)
  }

  predicate NoSpace(s: string) {
    forall k :: 0 <= k < |s| ==> !IsSpace(s[k])
  }

  predicate StartsWith(s: string, prefix: string) {
    |prefix| <= |s| && s[..|prefix|] == prefix
  }

  predicate IsDigit(c: char) {
    '0' <= c <= '9'
  }

  predicate AllDigits(s: string) {
    forall k :: 0 <= k < |s| ==> IsDigit(s[k])
  }

  // ---------------------------------------------------------------------------
  // Joining

  /** `sep.join(parts)` in Python. */
  function Join(sep: string, parts: seq<string>): string
    decreases |parts|
  {
    if parts == [] then ""
    else if |parts| == 1 then parts[0]
    else parts[0] + sep + Join(sep, parts[1..])
  }

  lemma {:induction false} JoinSnoc(sep: string, parts: seq<string>, last: string)
    requires parts != []
    ensures Join(sep, parts + [last]) == Join(sep, parts) + sep + last
    decreases |parts|
  {
    if |parts| == 1 {
      assert parts + [last] == [parts[0], last];
      assert ([parts[0], last])[1..] == [last];
    } else {
      assert (parts + [last])[1..] == parts[1..] + [last];
      JoinSnoc(sep, parts[1..], last);
    }
  }

  /** `t` occurs somewhere inside `s` (Python's `t in s`). */
  predicate Infix(t: string, s: string) {
    exists i :: 0 <= i <= |s| && OccursAt(t, s, i)
  }

  predicate OccursAt(t: string, s: string, i: int) {
    0 <= i <= |s| - |t| && s[i..i + |t|] == t
  }

  lemma InfixMiddle(t: string, pre: string, post: string)
    ensures Infix(t, pre + t + post)
  {
    var s := pre + t + post;
    assert OccursAt(t, s, |pre|);
  }

  lemma InfixTrans(t: string, u: string, s: string)
    requires Infix(t, u) && Infix(u, s)
    ensures Infix(t, s)
  {
    var i :| 0 <= i <= |u| && OccursAt(t, u, i);
    var k :| 0 <= k <= |s| && OccursAt(u, s, k);
    assert 0 <= i <= |u| - |t| && u[i..i + |t|] == t;
    assert 0 <= k <= |s| - |u| && s[k..k + |u|] == u;
    forall j | 0 <= j < |t|
      ensures s[k + i + j] == t[j]
    {
      assert s[k..k + |u|][i + j] == u[i + j];
      assert u[i..i + |t|][j] == t[j];
    }
    assert s[k + i..k + i + |t|] == t;
    assert OccursAt(t, s, k + i);
  }

  /** Every part occurs in the joined string. */
  lemma {:induction false} JoinHasPart(sep: string, parts: seq<string>, k: nat)
    requires k < |parts|
    ensures Infix(parts[k], Join(sep, parts))
    decreases |parts|
  {
    if |parts| == 1 {
      InfixMiddle(parts[0], "", "");
      assert "" + parts[0] + "" == parts[0];
    } else if k == 0 {
      InfixMiddle(parts[0], "", sep + Join(sep, parts[1..]));
      assert "" + parts[0] + (sep + Join(sep, parts[1..])) == Join(sep, parts);
    } else {
      JoinHasPart(sep, parts[1..], k - 1);
      InfixMiddle(Join(sep, parts[1..]), parts[0] + sep, "");
      assert parts[0] + sep + Join(sep, parts[1..]) + "" == Join(sep, parts);
      InfixTrans(parts[k], Join(sep, parts[1..]), Join(sep, parts));
    }
  }

  /** The separator occurs once there are two parts to separate. */
  lemma JoinHasSep(sep: string, parts: seq<string>)
    requires |parts| >= 2
    ensures Infix(sep, Join(sep, parts))
  {
    InfixMiddle(sep, parts[0], Join(sep, parts[1..]));
  }

  // ---------------------------------------------------------------------------
  // Whitespace splitting: Python's `str.split()` with no argument

  /** Length of the run of non-space characters that starts `s`. */
  function TokenLen(s: string): (n: nat)
    ensures n <= |s|
    ensures forall k :: 0 <= k < n ==> !IsSpace(s[k])
    ensures n < |s| ==> IsSpace(s[n])
  {
    if s == [] || IsSpace(s[0]) then 0 else 1 + TokenLen(s[1..])
  }

  /** The maximal runs of non-space characters of `s`, in order. */
  function Words(s: string): (ws: seq<string>)
    ensures forall k :: 0 <= k < |ws| ==> ws[k] != [] && NoSpace(ws[k])
    decreases |s|
  {
    if s == [] then []
    else if IsSpace(s[0]) then Words(s[1..])
    else
      var n := TokenLen(s);
      [s[..n]] + Words(s[n..])
  }

  lemma TokenLenOfWord(t: string, rest: string)
    requires NoSpace(t)
    requires rest == [] || IsSpace(rest[0])
    ensures TokenLen(t + rest) == |t|
    decreases |t|
  {
    if t != [] {
      assert (t + rest)[1..] == t[1..] + rest;
      TokenLenOfWord(t[1..], rest);
    } else {
      assert t + rest == rest;
    }
  }

  lemma WordsOfWord(t: string)
    requires t != [] && NoSpace(t)
    ensures Words(t) == [t]
  {
    TokenLenOfWord(t, []);
    assert t + [] == t;
    assert t[|t|..] == [];
  }

  lemma WordsOfWordSpace(t: string, rest: string)
    requires t != [] && NoSpace(t)
    ensures Words(t + " " + rest) == [t] + Words(rest)
  {
    var s := t + " " + rest;
    assert s == t + (" " + rest);
    TokenLenOfWord(t, " " + rest);
    assert s[..|t|] == t;
    assert s[|t|..] == " " + rest;
    assert (" " + rest)[1..] == rest;
  }

  /** Splitting words joined by single spaces gives the words back. */
  lemma {:induction false} WordsOfJoin(ts: seq<string>)
    requires forall k :: 0 <= k < |ts| ==> ts[k] != [] && NoSpace(ts[k])
    ensures Words(Join(" ", ts)) == ts
    decreases |ts|
  {
    if ts == [] {
    } else if |ts| == 1 {
      WordsOfWord(ts[0]);
    } else {
      WordsOfJoin(ts[1..]);
      WordsOfWordSpace(ts[0], Join(" ", ts[1..]));
      assert [ts[0]] + ts[1..] == ts;
    }
  }

  // ---------------------------------------------------------------------------
  // Stripping: Python's `str.strip()` with no argument

  function StripLeft(s: string): (r: string)
    ensures |r| <= |s|
    decreases |s|
  {
    if s != [] && IsSpace(s[0]) then StripLeft(s[1..]) else s
  }

  function StripRight(s: string): (r: string)
    ensures |r| <= |s|
    decreases |s|
  {
    if s != [] && IsSpace(s[|s| - 1]) then StripRight(s[..|s| - 1]) else s
  }

  function Strip(s: string): string {
    StripRight(StripLeft(s))
  }

  lemma StripLeftNoSpaceStart(s: string)
    requires s == [] || !IsSpace(s[0])
    ensures StripLeft(s) == s
  {
  }

  lemma StripRightNoSpaceEnd(s: string)
    requires s == [] || !IsSpace(s[|s| - 1])
    ensures StripRight(s) == s
  {
  }

  /** A line that neither starts nor ends with whitespace is its own strip. */
  lemma StripTrimmed(s: string)
    requires s == [] || (!IsSpace(s[0]) && !IsSpace(s[|s| - 1]))
    ensures Strip(s) == s
  {
  }

  // ---------------------------------------------------------------------------
  // Lines: Python's `readlines`, newline characters left off

  /** Position of the first newline of `s`, or `|s|` when there is none. */
  function LineLen(s: string): (n: nat)
    ensures n <= |s|
    ensures forall k :: 0 <= k < n ==> s[k] != '\n'
    ensures n < |s| ==> s[n] == '\n'
  {
    if s == [] || s[0] == '\n' then 0 else 1 + LineLen(s[1..])
  }

  /** The lines of `s`. A final newline does not open an extra line. */
  function Lines(s: string): (ls: seq<string>)
    ensures forall k :: 0 <= k < |ls| ==> '\n' !in ls[k]
    decreases |s|
  {
    if s == [] then []
    else
      var n := LineLen(s);
      [s[..n]] + (if n < |s| then Lines(s[n + 1..]) else [])
  }

  lemma LineLenOfLine(l: string, rest: string)
    requires '\n' !in l
    requires rest == [] || rest[0] == '\n'
    ensures LineLen(l + rest) == |l|
    decreases |l|
  {
    if l != [] {
      assert (l + rest)[1..] == l[1..] + rest;
      assert l[0] in l;
      assert forall c :: c in l[1..] ==> c in l;
      LineLenOfLine(l[1..], rest);
    } else {
      assert l + rest == rest;
    }
  }

  /** A line terminated by a newline is split off the front. */
  lemma LinesCons(l: string, rest: string)
    requires '\n' !in l
    ensures Lines(l + "\n" + rest) == [l] + Lines(rest)
  {
    var s := l + "\n" + rest;
    assert s == l + ("\n" + rest);
    LineLenOfLine(l, "\n" + rest);
    assert s[..|l|] == l;
    assert s[|l| + 1..] == rest;
  }

  /** The last line, without a terminating newline. */
  lemma LinesLast(l: string)
    requires l != [] && '\n' !in l
    ensures Lines(l) == [l]
  {
    LineLenOfLine(l, []);
    assert l + [] == l;
  }

  // ---------------------------------------------------------------------------
  // Integers as decimal text

  function DigitChar(d: nat): (c: char)
    requires d < 10
    ensures IsDigit(c)
  {
    "0123456789"[d]
  }

  function DigitValue(c: char): (d: nat)
    requires IsDigit(c)
    ensures d < 10
  {
    (c as int - '0' as int) as nat
  }

  /** Decimal digits of `n`, without leading zeros. */
  function NatToString(n: nat): (s: string)
    ensures s != [] && AllDigits(s)
    decreases n
  {
    if n < 10 then [DigitChar(n)] else NatToString(n / 10) + [DigitChar(n % 10)]
  }

  /** `str(i)` in Python and `ostream << i` in C++. */
  function IntToString(i: int): (s: string)
    ensures s != [] && NoSpace(s)
  {
    if i < 0 then "-" + NatToString(-i) else NatToString(i)
  }

  /** Value of a string of decimal digits. */
  function DigitsValue(s: string): nat
    requires AllDigits(s)
    decreases |s|
  {
    if s == [] then 0 else DigitsValue(s[..|s| - 1]) * 10 + DigitValue(s[|s| - 1])
  }

  /** `int(token)` on a token without surrounding whitespace, restricted to
      an optional sign followed by at least one ASCII decimal digit (Python
      also accepts `_` between digits and non-ASCII decimal digits; those
      tokens are rejected here). */
  function ParseInt(s: string): Option<int> {
    if |s| >= 2 && (s[0] == '-' || s[0] == '+') && AllDigits(s[1..]) then
      var v: int := DigitsValue(s[1..]);
      Some(if s[0] == '-' then -v else v)
    else if s != [] && AllDigits(s) then
      Some(DigitsValue(s))
    else
      None
  }

  /** The message of the ValueError `int(t)` raises. */
  function InvalidLiteral(t: string): string {
    "invalid literal for int() with base 10: '" + t + "'"
  }

  /** `[int(x) for x in ts]`: the first token that is not an integer raises. */
  function ParseInts(ts: seq<string>): (r: Result<seq<int>>)
    ensures r.Ok? ==> |r.value| == |ts|
    ensures r.Ok? ==> forall k :: 0 <= k < |ts| ==> ParseInt(ts[k]) == Some(r.value[k])
    ensures r.Err? <==> exists k :: 0 <= k < |ts| && ParseInt(ts[k]).None?
    decreases |ts|
  {
    if ts == [] then Ok([])
    else match ParseInt(ts[0])
      case None => Err(InvalidLiteral(ts[0]))
      case Some(v) =>
        var rest := ParseInts(ts[1..]);
        if rest.Err? then
          assert exists k :: 0 < k < |ts| && ParseInt(ts[k]).None? by {
            var j :| 0 <= j < |ts[1..]| && ParseInt(ts[1..][j]).None?;
            assert ts[1..][j] == ts[j + 1];
          }
          rest
        else
          Ok([v] + rest.value)
  }

  lemma {:induction false} DigitsValueOfNat(n: nat)
    ensures DigitsValue(NatToString(n)) == n
    decreases n
  {
    var s := NatToString(n);
    if n < 10 {
      assert s[..0] == [];
    } else {
      DigitsValueOfNat(n / 10);
      assert s[..|s| - 1] == NatToString(n / 10);
    }
  }

  /** Printing an integer and parsing it back gives the integer. */
  lemma IntToStringRoundTrip(i: int)
    ensures ParseInt(IntToString(i)) == Some(i)
  {
    if i < 0 {
      var d := NatToString(-i);
      assert IntToString(i) == "-" + d;
      ParseNegativeDigits(d);
      DigitsValueOfNat(-i);
    } else {
      var d := NatToString(i);
      assert IntToString(i) == d;
      ParseDigits(d);
      DigitsValueOfNat(i);
    }
  }

  lemma ParseDigits(d: string)
    requires d != [] && AllDigits(d)
    ensures ParseInt(d) == Some(DigitsValue(d))
  {
    assert IsDigit(d[0]);
  }

  lemma ParseNegativeDigits(d: string)
    requires d != [] && AllDigits(d)
    ensures ParseInt("-" + d) == Some(-(DigitsValue(d) as int))
  {
    var s := "-" + d;
    assert s[0] == '-' && s[1..] == d;
  }

  /** Only zero prints as the single character "0". */
  lemma IntToStringZero(i: int)
    ensures IntToString(i) == "0" <==> i == 0
  {
    if i >= 10 {
      assert |NatToString(i / 10)| >= 1;
    } else if i < 0 {
      assert IntToString(i)[0] == '-';
    }
  }

  /** `str(x)` for every integer of `xs`. */
  function IntTexts(xs: seq<int>): (ts: seq<string>)
    ensures |ts| == |xs|
    ensures forall k :: 0 <= k < |xs| ==> ts[k] == IntToString(xs[k])
  {
    seq(|xs|, k requires 0 <= k < |xs| => IntToString(xs[k]))
  }

  /** Parsing the printed integers gives the integers back. */
  lemma {:induction false} ParseIntTexts(xs: seq<int>)
    ensures ParseInts(IntTexts(xs)) == Ok(xs)
    decreases |xs|
  {
    if xs != [] {
      IntToStringRoundTrip(xs[0]);
      assert IntTexts(xs)[0] == IntToString(xs[0]);
      assert IntTexts(xs)[1..] == IntTexts(xs[1..]);
      ParseIntTexts(xs[1..]);
      assert [xs[0]] + xs[1..] == xs;
    }
  }

  lemma NoNewlineOfNoSpace(s: string)
    requires NoSpace(s)
    ensures '\n' !in s
  {
    assert forall k :: 0 <= k < |s| ==> s[k] != '\n';
  }

  lemma {:induction false} JoinNoNewline(ts: seq<string>)
    requires forall k :: 0 <= k < |ts| ==> NoSpace(ts[k])
    ensures '\n' !in Join(" ", ts)
    decreases |ts|
  {
    if |ts| == 1 {
      NoNewlineOfNoSpace(ts[0]);
    } else if |ts| > 1 {
      NoNewlineOfNoSpace(ts[0]);
      JoinNoNewline(ts[1..]);
    }
  }

  /** Words joined by single spaces neither start nor end with whitespace. */
  lemma {:induction false} JoinTrimmed(ts: seq<string>)
    requires ts != []
    requires forall k :: 0 <= k < |ts| ==> ts[k] != [] && NoSpace(ts[k])
    ensures var s := Join(" ", ts); s != [] && !IsSpace(s[0]) && !IsSpace(s[|s| - 1])
    decreases |ts|
  {
    if |ts| > 1 {
      JoinTrimmed(ts[1..]);
      var rest := Join(" ", ts[1..]);
      assert Join(" ", ts) == ts[0] + " " + rest;
      assert Join(" ", ts)[0] == ts[0][0];
      assert Join(" ", ts)[|Join(" ", ts)| - 1] == rest[|rest| - 1];
    }
  }
}
