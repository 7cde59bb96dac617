/**
 * The few ECMAScript string operations the modelled code leans on, over `string` (a sequence of
 * code points): `trim`, `split` with a one-character separator, `join`, `parseInt(s, 10)`,
 * `Number.prototype.toString` for integers and ASCII lower-casing.
 */
module Text {
  import opened Wrappers

  /** The code points ECMAScript counts as WhiteSpace or LineTerminator: what `trim`, `parseInt`
      and the regular-expression class `\s` skip. */
  predicate IsWhitespace(c: char) {
    || c == ' ' || '\t' <= c <= '\r' || c == '\U{00A0}' || c == '\U{1680}'
    || '\U{2000}' <= c <= '\U{200A}' || c == '\U{2028}' || c == '\U{2029}' || c == '\U{202F}'
    || c == '\U{205F}' || c == '\U{3000}' || c == '\U{FEFF}'
  }

  /** A string that is present and non-empty: what `!!s` tests for `string | null | undefined`. */
  predicate Truthy(s: Option<string>) {
    s.Some? && s.value != ""
  }

  predicate IsDigit(c: char) {
    '0' <= c <= '9'
  }

  predicate AllDigits(s: string) {
    forall i :: 0 <= i < |s| ==> IsDigit(s[i])
  }

  /** How many whitespace characters `s` starts with. */
  function LeadingWhitespace(s: string): (n: nat)
    ensures n <= |s| && (n < |s| ==> !IsWhitespace(s[n]))
  {
    if s != [] && IsWhitespace(s[0]) then
      var m := LeadingWhitespace(s[1..]);
      assert m < |s| - 1 ==> s[1..][m] == s[m + 1];
      m + 1
    else 0
  }

  /** The leading run `LeadingWhitespace` counts is all whitespace. */
  lemma {:induction false} LeadingRun(s: string)
    ensures forall i :: 0 <= i < LeadingWhitespace(s) ==> IsWhitespace(s[i])
  {
    if s != [] && IsWhitespace(s[0]) {
      LeadingRun(s[1..]);
      forall i | 1 <= i < LeadingWhitespace(s)
        ensures IsWhitespace(s[i])
      {
        assert s[i] == s[1..][i - 1];
      }
    }
  }

  /** The leading run of a concatenation stops inside the first part, unless that part is all
      whitespace, in which case it runs on into the second. */
  lemma {:induction false} LeadingConcat(u: string, v: string)
    ensures LeadingWhitespace(u + v) ==
      if LeadingWhitespace(u) < |u| then LeadingWhitespace(u) else |u| + LeadingWhitespace(v)
  {
    if u == [] {
      assert u + v == v;
    } else {
      assert (u + v)[0] == u[0];
      if IsWhitespace(u[0]) {
        assert (u + v)[1..] == u[1..] + v;
        LeadingConcat(u[1..], v);
      }
    }
  }

  /** Dropping the leading run of `a` before a text `rest` keeps `rest` whole. */
  lemma TrimStartConcat(a: string, rest: string)
    requires LeadingWhitespace(a) < |a|
    ensures TrimStart(a + rest) == TrimStart(a) + rest
  {
    LeadingConcat(a, rest);
    DropConcat(a, rest, LeadingWhitespace(a));
  }

  lemma DropConcat(a: string, b: string, k: nat)
    requires k <= |a|
    ensures (a + b)[k..] == a[k..] + b
  {
  }

  lemma DropPrefix(a: string, b: string)
    ensures (a + b)[|a|..] == b
  {
  }

  lemma ConcatAssoc(a: string, w: string, b: string)
    ensures a + w + b == a + (w + b)
  {
  }

  lemma Regroup(p: string, q: string, r: string, s: string)
    ensures p + (q + r + s) == p + q + r + s
  {
  }

  lemma HeadTail(a: string, b: string)
    requires a != []
    ensures (a + b)[0] == a[0] && (a + b)[1..] == a[1..] + b
  {
  }

  /** Trimming the leading run of a text that starts with whitespace and ends without it leaves a
      shorter, non-empty text with the same last character. */
  lemma TrimStartOfRun(a: string)
    requires a != [] && IsWhitespace(a[0]) && !IsWhitespace(a[|a| - 1])
    ensures LeadingWhitespace(a) < |a|
    ensures 0 < |TrimStart(a)| < |a| && TrimStart(a)[|TrimStart(a)| - 1] == a[|a| - 1]
  {
    LeadingRun(a);
  }

  /** A text of whitespace only is one leading run. */
  lemma {:induction false} LeadingOfWhitespace(w: string)
    requires forall i :: 0 <= i < |w| ==> IsWhitespace(w[i])
    ensures LeadingWhitespace(w) == |w|
  {
    if w != [] {
      assert forall i :: 0 <= i < |w| - 1 ==> w[1..][i] == w[i + 1];
      LeadingOfWhitespace(w[1..]);
    }
  }

  /** How many whitespace characters `s` ends with. */
  function TrailingWhitespace(s: string): (n: nat)
    ensures n <= |s| && (n < |s| ==> !IsWhitespace(s[|s| - 1 - n]))
  {
    if s != [] && IsWhitespace(s[|s| - 1]) then
      var m := TrailingWhitespace(s[..|s| - 1]);
      assert m < |s| - 1 ==> s[..|s| - 1][|s| - 2 - m] == s[|s| - 1 - (m + 1)];
      m + 1
    else 0
  }

  /** The trailing run `TrailingWhitespace` counts is all whitespace. */
  lemma {:induction false} TrailingRun(s: string)
    ensures forall i :: |s| - TrailingWhitespace(s) <= i < |s| ==> IsWhitespace(s[i])
  {
    if s != [] && IsWhitespace(s[|s| - 1]) {
      TrailingRun(s[..|s| - 1]);
      forall i | |s| - TrailingWhitespace(s) <= i < |s| - 1
        ensures IsWhitespace(s[i])
      {
        assert s[i] == s[..|s| - 1][i];
      }
    }
  }

  /** `s.trimStart()`: drops the leading whitespace and nothing else. */
  function TrimStart(s: string): string {
    s[LeadingWhitespace(s)..]
  }

  /** `s.trimEnd()`: drops the trailing whitespace and nothing else. */
  function TrimEnd(s: string): string {
    s[..|s| - TrailingWhitespace(s)]
  }

  /** Neither starts nor ends with whitespace. */
  predicate IsTrimmed(s: string) {
    s == [] || (!IsWhitespace(s[0]) && !IsWhitespace(s[|s| - 1]))
  }

  /** `s.trim()` */
  function Trim(s: string): (r: string)
    ensures |r| <= |s| && IsTrimmed(r)
  {
    var t := TrimStart(s);
    var r := TrimEnd(t);
    assert r != [] ==> r[0] == s[LeadingWhitespace(s)] && r[|r| - 1] == t[|t| - 1 - TrailingWhitespace(t)];
    r
  }

  /** `r` is the stretch of `s` starting at `i`, and everything around it is whitespace. */
  predicate DropsOnlyWhitespace(s: string, r: string, i: int) {
    && 0 <= i <= |s| - |r| && r == s[i..i + |r|]
    && (forall k :: 0 <= k < i ==> IsWhitespace(s[k]))
    && (forall k :: i + |r| <= k < |s| ==> IsWhitespace(s[k]))
  }

  /** `trim` keeps a stretch of `s` and drops only whitespace: everything before and after the
      stretch is whitespace, and the stretch neither starts nor ends with it. */
  lemma TrimDropsWhitespaceOnly(s: string)
    ensures exists i :: DropsOnlyWhitespace(s, Trim(s), i)
  {
    var i := LeadingWhitespace(s);
    var t := s[i..];
    var n := |t| - TrailingWhitespace(t);
    LeadingRun(s);
    TrailingRun(t);
    forall k | i + n <= k < |s|
      ensures IsWhitespace(s[k])
    {
      assert s[k] == t[k - i];
    }
    assert Trim(s) == s[i..i + n];
    assert DropsOnlyWhitespace(s, Trim(s), i);
  }

  /** A string that neither starts nor ends with whitespace is its own trim. */
  lemma TrimOfTrimmed(s: string)
    requires IsTrimmed(s)
    ensures Trim(s) == s
  {
    assert LeadingWhitespace(s) == 0 && TrimStart(s) == s;
    assert TrailingWhitespace(s) == 0;
  }

  /** `s.split(sep)` for a one-character separator: the pieces between separators, empty ones
      included, so that there is always at least one piece. */
  function Split(s: string, sep: char): (parts: seq<string>)
    ensures |parts| >= 1
    ensures forall i :: 0 <= i < |parts| ==> sep !in parts[i]
  {
    if s == [] then [[]]
    else
      var rest := Split(s[1..], sep);
      if s[0] == sep then [[]] + rest
      else [[s[0]] + rest[0]] + rest[1..]
  }

  /** `parts.join(sep)` for a one-character separator. */
  function Join(parts: seq<string>, sep: char): string
    requires |parts| >= 1
  {
    if |parts| == 1 then parts[0] else parts[0] + [sep] + Join(parts[1..], sep)
  }

  /** Joining the pieces of a split gives back the string. */
  lemma {:induction false} JoinSplit(s: string, sep: char)
    ensures Join(Split(s, sep), sep) == s
  {
    if s != [] {
      JoinSplit(s[1..], sep);
      var rest := Split(s[1..], sep);
      if s[0] != sep && |rest| > 1 {
        assert ([s[0]] + rest[0]) + [sep] + Join(rest[1..], sep) == [s[0]] + Join(rest, sep);
      }
    }
  }

  /** A string splits into a single piece exactly when it holds no separator. */
  lemma {:induction false} SplitSingle(s: string, sep: char)
    ensures |Split(s, sep)| == 1 <==> sep !in s
  {
    if s != [] {
      SplitSingle(s[1..], sep);
      assert s == [s[0]] + s[1..];
    }
  }

  /** Splitting text joined at a separator splits each side. */
  lemma {:induction false} SplitConcat(a: string, b: string, sep: char)
    ensures Split(a + [sep] + b, sep) == Split(a, sep) + Split(b, sep)
  {
    var s := a + [sep] + b;
    var right := Split(b, sep);
    if a == [] {
      assert s[0] == sep && s[1..] == b;
    } else {
      var left := Split(a[1..], sep);
      assert s[0] == a[0];
      assert Split(s[1..], sep) == left + right by {
        assert s[1..] == a[1..] + [sep] + b;
        SplitConcat(a[1..], b, sep);
      }
      if a[0] == sep {
        assert Split(s, sep) == [[]] + (left + right);
        assert [[]] + (left + right) == [[]] + left + right;
      } else {
        var head := [a[0]] + left[0];
        assert Split(s, sep) == [head] + (left[1..] + right) by {
          DropFirstConcat(left, right);
        }
        assert [head] + (left[1..] + right) == [head] + left[1..] + right;
      }
    }
  }

  lemma DropFirstConcat<T>(x: seq<T>, y: seq<T>)
    requires |x| >= 1
    ensures (x + y)[0] == x[0] && (x + y)[1..] == x[1..] + y
  {
  }

  /** Dropping the last piece: the join of all pieces is the join of the others, a separator,
      and the last piece. */
  lemma {:induction false} JoinAllButLast(parts: seq<string>, sep: char)
    requires |parts| >= 2
    ensures Join(parts, sep) == Join(parts[..|parts| - 1], sep) + [sep] + parts[|parts| - 1]
  {
    if |parts| > 2 {
      JoinAllButLast(parts[1..], sep);
      assert parts[1..][..|parts| - 2] == parts[..|parts| - 1][1..];
    }
  }

  /** The text before the first `sep` (all of `s` when there is none). */
  function TakeUntil(s: string, sep: char): (r: string)
    ensures r <= s && sep !in r
    ensures |r| == |s| || s[|r|] == sep
  {
    if s == [] || s[0] == sep then [] else [s[0]] + TakeUntil(s[1..], sep)
  }

  /** The first piece of a split is the text before the first separator. */
  lemma {:induction false} SplitFirst(s: string, sep: char)
    ensures Split(s, sep)[0] == TakeUntil(s, sep)
  {
    if s != [] && s[0] != sep {
      SplitFirst(s[1..], sep);
    }
  }

  /** `s.lastIndexOf(c)`, with None for -1. */
  function LastIndexOf(s: string, c: char): (r: Option<nat>)
    ensures r.None? <==> c !in s
    ensures r.Some? ==> r.value < |s| && s[r.value] == c && c !in s[r.value + 1..]
  {
    if s == [] then None
    else if s[|s| - 1] == c then Some(|s| - 1)
    else
      assert s == s[..|s| - 1] + [s[|s| - 1]];
      LastIndexOf(s[..|s| - 1], c)
  }

  /** In `a + [c] + b` with no `c` in `b`, the last `c` is the one between them. */
  lemma {:induction false} LastIndexOfJoin(a: string, b: string, c: char)
    requires c !in b
    ensures LastIndexOf(a + [c] + b, c) == Some(|a|)
    decreases |b|
  {
    var s := a + [c] + b;
    if b == [] {
      assert s[|s| - 1] == c;
    } else {
      var front := b[..|b| - 1];
      assert s[|s| - 1] == b[|b| - 1] && s[..|s| - 1] == a + [c] + front;
      assert forall x :: x in front ==> x in b;
      LastIndexOfJoin(a, front, c);
    }
  }

  /** With a separator present, the pieces before the last one join back to the text before the
      last separator, and the last piece is the text after it. */
  lemma SplitAtLast(s: string, sep: char)
    requires sep in s
    ensures var parts, k := Split(s, sep), LastIndexOf(s, sep).value;
      && |parts| >= 2
      && Join(parts[..|parts| - 1], sep) == s[..k]
      && parts[|parts| - 1] == s[k + 1..]
  {
    var parts := Split(s, sep);
    assert |parts| >= 2 by {
      SplitSingle(s, sep);
    }
    var front, last := Join(parts[..|parts| - 1], sep), parts[|parts| - 1];
    assert LastIndexOf(s, sep) == Some(|front|) && s[..|front|] == front && s[|front| + 1..] == last
    by {
      assert s == front + [sep] + last by {
        JoinSplit(s, sep);
        JoinAllButLast(parts, sep);
      }
      SlicesAroundLast(s, front, last, sep);
    }
  }

  lemma SlicesAroundLast(s: string, front: string, last: string, sep: char)
    requires s == front + [sep] + last && sep !in last
    ensures LastIndexOf(s, sep) == Some(|front|)
    ensures s[..|front|] == front && s[|front| + 1..] == last
  {
    LastIndexOfJoin(front, last, sep);
  }

  function DigitValue(c: char): nat
    requires IsDigit(c)
  {
    c as int - '0' as int
  }

  function DigitChar(d: nat): (c: char)
    requires d < 10
    ensures IsDigit(c) && DigitValue(c) == d
  {
    ('0' as int + d) as char
  }

  /** The value of a run of decimal digits, most significant first. */
  function DigitsValue(ds: string): nat
    requires AllDigits(ds)
  {
    if ds == [] then 0 else DigitsValue(ds[..|ds| - 1]) * 10 + DigitValue(ds[|ds| - 1])
  }

  /** The longest prefix of `s` made of decimal digits. */
  function DigitPrefix(s: string): (r: string)
    ensures r <= s && AllDigits(r)
    ensures |r| == |s| || !IsDigit(s[|r|])
  {
    if s != [] && IsDigit(s[0]) then [s[0]] + DigitPrefix(s[1..]) else []
  }

  /** `parseInt(s, 10)`, with None for NaN: leading whitespace is skipped, one sign is read, then
      the longest run of digits; trailing text is ignored. */
  function ParseInt(s: string): Option<int>
  {
    if s != [] && IsWhitespace(s[0]) then ParseInt(s[1..]) else ParseSigned(s)
  }

  /** `parseInt` once the leading whitespace is gone. */
  function ParseSigned(t: string): Option<int>
  {
    var negative := t != [] && t[0] == '-';
    var body := if t != [] && (t[0] == '-' || t[0] == '+') then t[1..] else t;
    var ds := DigitPrefix(body);
    if ds == [] then None
    else if negative then Some(-(DigitsValue(ds) as int))
    else Some(DigitsValue(ds))
  }

  /** The decimal digits of `n`, most significant first, with no leading zero. */
  function NatToString(n: nat): (s: string)
    ensures |s| >= 1 && AllDigits(s)
    ensures DigitsValue(s) == n
    ensures s[0] == '0' ==> n == 0
  {
    if n < 10 then [DigitChar(n)]
    else
      var s := NatToString(n / 10) + [DigitChar(n % 10)];
      assert s[..|s| - 1] == NatToString(n / 10);
      s
  }

  /** `String(i)` for an integer `i` (below 10^21, where JavaScript switches to exponent form). */
  function IntToString(i: int): (s: string)
    ensures forall k :: 0 <= k < |s| ==> s[k] == '-' || IsDigit(s[k])
  {
    if i < 0 then "-" + NatToString(-i) else NatToString(i)
  }

  /** `parseInt` reads back every integer that `String` wrote. */
  lemma ParseIntToString(i: int)
    ensures ParseInt(IntToString(i)) == Some(i)
  {
    var s := IntToString(i);
    assert !IsWhitespace(s[0]);
    var t := s;
    var body := if i < 0 then NatToString(-i) else NatToString(i);
    assert body == (if t[0] == '-' || t[0] == '+' then t[1..] else t);
    assert DigitPrefix(body) == body;
  }

  function ToLowerChar(c: char): char {
    if 'A' <= c <= 'Z' then (c as int + 32) as char else c
  }

  /** `s.toLowerCase()` restricted to ASCII letters. */
  function ToLower(s: string): string {
    seq(|s|, i requires 0 <= i < |s| => ToLowerChar(s[i]))
  }
}
