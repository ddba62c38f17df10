/**
 * The Python `str` operations the system relies on, stated over `string` (`seq<char>`):
 * `strip`, ASCII `lower`, `startswith`/`endswith`, `in`, `find`, `split`, `join`,
 * `replace`, slicing `s[:n]` and `str(n)` for integers.
 */
module Text {
  import opened Wrappers

  // ---------------------------------------------------------------- whitespace

  /** The characters for which Python's `str.isspace()` holds; `str.strip()` removes exactly these. */
  predicate IsSpace(c: char) {
    || ('\t' <= c <= '\r')
    || ('\U{1C}' <= c <= ' ')
    || c == '\U{85}' || c == '\U{A0}' || c == '\U{1680}'
    || ('\U{2000}' <= c <= '\U{200A}')
    || c == '\U{2028}' || c == '\U{2029}' || c == '\U{202F}' || c == '\U{205F}' || c == '\U{3000}'
  }

  /** True when `s.strip()` is empty, i.e. when `s` is falsy after stripping. */
  predicate IsBlank(s: string) {
    forall i :: 0 <= i < |s| ==> IsSpace(s[i])
  }

  /** `s.lstrip()`. */
  function TrimStart(s: string): string
    decreases |s|
  {
    if s != [] && IsSpace(s[0]) then TrimStart(s[1..]) else s
  }

  /** `s.rstrip()`. */
  function TrimEnd(s: string): string
    decreases |s|
  {
    if s != [] && IsSpace(s[|s| - 1]) then TrimEnd(s[..|s| - 1]) else s
  }

  /** `lstrip` removes a blank prefix and stops at the first non-space character. */
  lemma {:induction false} TrimStartFacts(s: string)
    ensures var r := TrimStart(s);
      && |r| <= |s| && r == s[|s| - |r|..]
      && IsBlank(s[..|s| - |r|])
      && (r != [] ==> !IsSpace(r[0]))
    decreases |s|
  {
    if s != [] && IsSpace(s[0]) {
      TrimStartFacts(s[1..]);
      var r := TrimStart(s[1..]);
      assert s[..|s| - |r|] == [s[0]] + s[1..][..|s| - 1 - |r|];
    }
  }

  /** `rstrip` removes a blank suffix and stops at the last non-space character. */
  lemma {:induction false} TrimEndFacts(s: string)
    ensures var r := TrimEnd(s);
      && |r| <= |s| && r == s[..|r|]
      && IsBlank(s[|r|..])
      && (r != [] ==> !IsSpace(r[|r| - 1]))
    decreases |s|
  {
    if s != [] && IsSpace(s[|s| - 1]) {
      TrimEndFacts(s[..|s| - 1]);
      var r := TrimEnd(s[..|s| - 1]);
      assert s[|r|..] == s[..|s| - 1][|r|..] + [s[|s| - 1]];
    }
  }

  /** `s.strip()`. */
  function Strip(s: string): (r: string)
    ensures |r| <= |s|
  {
    TrimStartFacts(s);
    TrimEndFacts(TrimStart(s));
    TrimEnd(TrimStart(s))
  }

  /** `strip()` is empty exactly for blank strings, and otherwise neither starts nor ends with whitespace. */
  lemma StripFacts(s: string)
    ensures Strip(s) == [] <==> IsBlank(s)
    ensures Strip(s) != [] ==> !IsSpace(Strip(s)[0]) && !IsSpace(Strip(s)[|Strip(s)| - 1])
  {
    var t := TrimStart(s);
    TrimStartFacts(s);
    TrimEndFacts(t);
    var r := TrimEnd(t);
    assert r == [] ==> s == s[..|s| - |t|] + t[|r|..];
    if r != [] {
      assert !IsSpace(r[|r| - 1]);
      assert t != [];
      assert r[0] == t[0];
    }
  }

  /** A string that neither starts nor ends with whitespace is its own `strip()`. */
  lemma StripUnpadded(s: string)
    requires s == [] || (!IsSpace(s[0]) && !IsSpace(s[|s| - 1]))
    ensures Strip(s) == s
  {
    assert TrimStart(s) == s;
    assert TrimEnd(s) == s;
  }

  /** `strip()` is idempotent. */
  lemma StripIdempotent(s: string)
    ensures Strip(Strip(s)) == Strip(s)
  {
    StripFacts(s);
    StripUnpadded(Strip(s));
  }

  lemma {:induction false} TrimStartSkip(a: string, t: string)
    requires IsBlank(a)
    ensures TrimStart(a + t) == TrimStart(t)
    decreases |a|
  {
    if a == [] {
      assert a + t == t;
    } else {
      assert (a + t)[0] == a[0];
      assert (a + t)[1..] == a[1..] + t;
      TrimStartSkip(a[1..], t);
    }
  }

  lemma {:induction false} TrimStartKeep(s: string, b: string)
    requires !IsBlank(s)
    ensures TrimStart(s + b) == TrimStart(s) + b
    decreases |s|
  {
    assert (s + b)[0] == s[0];
    if IsSpace(s[0]) {
      assert (s + b)[1..] == s[1..] + b;
      TrimStartKeep(s[1..], b);
    }
  }

  lemma {:induction false} TrimEndSkip(t: string, b: string)
    requires IsBlank(b)
    ensures TrimEnd(t + b) == TrimEnd(t)
    decreases |b|
  {
    if b == [] {
      assert t + b == t;
    } else {
      var tb := t + b;
      assert tb[|tb| - 1] == b[|b| - 1];
      assert tb[..|tb| - 1] == t + b[..|b| - 1];
      TrimEndSkip(t, b[..|b| - 1]);
    }
  }

  /** Surrounding whitespace does not change what `strip()` returns. */
  lemma StripPadded(a: string, s: string, b: string)
    requires IsBlank(a) && IsBlank(b)
    ensures Strip(a + s + b) == Strip(s)
  {
    assert a + s + b == a + (s + b);
    TrimStartSkip(a, s + b);
    if IsBlank(s) {
      assert IsBlank(s + b);
      StripFacts(s + b);
      StripFacts(s);
    } else {
      TrimStartKeep(s, b);
      TrimEndSkip(TrimStart(s), b);
    }
  }

  // ---------------------------------------------------------------- lower

  /** `str.lower()` on ASCII letters; other characters are left as they are. */
  function LowerChar(c: char): char {
    if 'A' <= c <= 'Z' then (c as int + 32) as char else c
  }

  function Lower(s: string): (r: string)
    ensures |r| == |s|
    ensures forall i :: 0 <= i < |r| ==> r[i] == LowerChar(s[i])
  {
    seq(|s|, i requires 0 <= i < |s| => LowerChar(s[i]))
  }

  lemma LowerAppend(a: string, b: string)
    ensures Lower(a + b) == Lower(a) + Lower(b)
  {
  }

  lemma LowerKeepsBlank(a: string)
    requires IsBlank(a)
    ensures Lower(a) == a
  {
  }

  lemma LowerIdempotent(s: string)
    ensures Lower(Lower(s)) == Lower(s)
  {
  }

  // ---------------------------------------------------------------- prefixes and occurrences

  predicate StartsWith(s: string, prefix: string) {
    |prefix| <= |s| && s[..|prefix|] == prefix
  }

  predicate EndsWith(s: string, suffix: string) {
    |suffix| <= |s| && s[|s| - |suffix|..] == suffix
  }

  lemma StartsWithAppend(a: string, b: string)
    ensures StartsWith(a + b, a)
  {
    assert (a + b)[..|a|] == a;
  }

  lemma StartsWithAppend3(a: string, b: string, c: string)
    ensures StartsWith(a + b + c, a)
  {
    assert (a + b + c)[..|a|] == a;
  }

  lemma EndsWithAppend(a: string, b: string)
    ensures EndsWith(a + b, b)
  {
    assert (a + b)[|a|..] == b;
  }

  /** `pat` occurs in `s` starting at index `i`. */
  predicate OccursAt(s: string, pat: string, i: nat) {
    i + |pat| <= |s| && s[i..i + |pat|] == pat
  }

  lemma OccursAtShift(s: string, pat: string)
    requires s != []
    ensures forall i: nat :: i > 0 ==> (OccursAt(s, pat, i) <==> OccursAt(s[1..], pat, i - 1))
  {
    forall i: nat | i > 0
      ensures OccursAt(s, pat, i) <==> OccursAt(s[1..], pat, i - 1)
    {
      if i + |pat| <= |s| {
        var t := s[1..];
        var a, b := t[i - 1..i - 1 + |pat|], s[i..i + |pat|];
        assert forall k :: 0 <= k < |pat| ==> a[k] == b[k];
        assert a == b;
      }
    }
  }

  /** `s.find(pat)`, with `None` for -1: the first index at which `pat` occurs. */
  function Find(s: string, pat: string): (r: Option<nat>)
    requires pat != []
    ensures r.Some? ==> OccursAt(s, pat, r.value)
    ensures forall j: nat :: (r.None? || j < r.value) ==> !OccursAt(s, pat, j)
    decreases |s|
  {
    if |s| < |pat| then None
    else if s[..|pat|] == pat then Some(0)
    else
      var rest := Find(s[1..], pat);
      OccursAtShift(s, pat);
      if rest.None? then None else Some(rest.value + 1)
  }

  /** `pat in s`. An empty `pat` occurs in every string. */
  predicate Contains(s: string, pat: string)
    ensures Contains(s, pat) <==> exists i: nat :: OccursAt(s, pat, i)
  {
    if pat == [] then assert OccursAt(s, pat, 0); true
    else Find(s, pat).Some?
  }

  /** A pattern whose first character is absent from `s` does not occur in `s`. */
  lemma NotContainsFirstAbsent(s: string, pat: string)
    requires pat != [] && pat[0] !in s
    ensures !Contains(s, pat)
  {
    forall j: nat
      ensures !OccursAt(s, pat, j)
    {
      if j + |pat| <= |s| {
        assert s[j..j + |pat|][0] == s[j];
      }
    }
  }

  // ---------------------------------------------------------------- join and split

  /** `sep.join(parts)`. */
  function Join(parts: seq<string>, sep: string): string
    decreases |parts|
  {
    if |parts| == 0 then ""
    else if |parts| == 1 then parts[0]
    else parts[0] + sep + Join(parts[1..], sep)
  }

  lemma JoinTwo(a: string, b: string, sep: string)
    ensures Join([a, b], sep) == a + sep + b
  {
    assert [a, b][1..] == [b];
  }

  lemma JoinStartsWithFirst(parts: seq<string>, sep: string)
    requires parts != []
    ensures StartsWith(Join(parts, sep), parts[0])
  {
    if |parts| > 1 {
      StartsWithAppend(parts[0], sep + Join(parts[1..], sep));
      assert parts[0] + sep + Join(parts[1..], sep) == parts[0] + (sep + Join(parts[1..], sep));
    } else {
      StartsWithAppend(parts[0], "");
      assert parts[0] + "" == parts[0];
    }
  }

  /** The summed length of `parts`. */
  function TotalLength(parts: seq<string>): nat
    decreases |parts|
  {
    if parts == [] then 0 else |parts[0]| + TotalLength(parts[1..])
  }

  lemma {:induction false} TotalLengthAppend(a: seq<string>, b: seq<string>)
    ensures TotalLength(a + b) == TotalLength(a) + TotalLength(b)
    decreases |a|
  {
    if a == [] {
      assert a + b == b;
    } else {
      assert (a + b)[1..] == a[1..] + b;
      TotalLengthAppend(a[1..], b);
    }
  }

  /** Joining n parts adds n - 1 separators to their summed length. */
  lemma {:induction false} JoinLength(parts: seq<string>, sep: string)
    requires parts != []
    ensures |Join(parts, sep)| == TotalLength(parts) + (|parts| - 1) * |sep|
    decreases |parts|
  {
    if |parts| > 1 {
      JoinLength(parts[1..], sep);
      assert (|parts| - 1) * |sep| == |sep| + (|parts| - 2) * |sep|;
    }
  }

  lemma {:induction false} JoinAppend(a: seq<string>, b: seq<string>, sep: string)
    requires a != [] && b != []
    ensures Join(a + b, sep) == Join(a, sep) + sep + Join(b, sep)
    decreases |a|
  {
    if |a| == 1 {
      assert (a + b)[1..] == b;
    } else {
      assert (a + b)[1..] == a[1..] + b;
      JoinAppend(a[1..], b, sep);
    }
  }

  /** `s.split(sep)`: the pieces between successive first occurrences of `sep`; joining them gives `s` back. */
  function Split(s: string, sep: string): (parts: seq<string>)
    requires sep != []
    ensures |parts| >= 1
    ensures Join(parts, sep) == s
    decreases |s|
  {
    match Find(s, sep)
    case None => [s]
    case Some(i) =>
      var tail := Split(s[i + |sep|..], sep);
      assert ([s[..i]] + tail)[1..] == tail;
      assert s == s[..i] + s[i..i + |sep|] + s[i + |sep|..];
      [s[..i]] + tail
  }

  /** `s.split(pat)[0]`: the text of `s` before the first `pat`, or all of `s` when there is none. */
  function Before(s: string, pat: string): string
    requires pat != []
  {
    match Find(s, pat)
    case None => s
    case Some(i) => s[..i]
  }

  /**
   * The text before the first `pat` is a prefix free of `pat`; it is followed by `pat`, and `pat`
   * occurs nowhere earlier, unless it is the whole of a string that holds no `pat`.
   */
  lemma BeforeFacts(s: string, pat: string)
    requires pat != []
    ensures var b := Before(s, pat);
      && b == s[..|b|] && !Contains(b, pat)
      && (b == s <==> !Contains(s, pat))
      && (b != s ==> OccursAt(s, pat, |b|) && forall j: nat :: j < |b| ==> !OccursAt(s, pat, j))
  {
    var b := Before(s, pat);
    forall j: nat
      ensures !OccursAt(b, pat, j)
    {
      if j + |pat| <= |b| {
        assert s[j..j + |pat|] == b[j..j + |pat|];
        assert !OccursAt(s, pat, j);
      }
    }
  }

  /** The first two pieces of a split: the text before the first `pat` and, after it, the text before the next. */
  lemma SplitPieces(s: string, pat: string)
    requires pat != []
    ensures Split(s, pat)[0] == Before(s, pat)
    ensures |Split(s, pat)| > 1 <==> Contains(s, pat)
    ensures Contains(s, pat) ==>
      Split(s, pat)[1] == Before(s[Find(s, pat).value + |pat|..], pat)
  {
    if Find(s, pat).Some? {
      var i := Find(s, pat).value;
      var tail := s[i + |pat|..];
      assert Split(s, pat) == [s[..i]] + Split(tail, pat);
      assert Split(tail, pat)[0] == Before(tail, pat);
    }
  }

  /** An occurrence with none before it is the one `find` reports. */
  lemma FindFirstAt(s: string, pat: string, i: nat)
    requires pat != [] && OccursAt(s, pat, i)
    requires forall j: nat :: j < i ==> !OccursAt(s, pat, j)
    ensures Find(s, pat) == Some(i)
  {
  }

  /** No proper prefix of `sep` is also a suffix of it, so two occurrences cannot overlap. */
  predicate BorderFree(sep: string) {
    forall k :: 0 < k < |sep| ==> sep[..k] != sep[|sep| - k..]
  }

  /**
   * The first `sep` in `p + sep + rest` is the one after `p`, when `p` holds no `sep` and `sep`
   * cannot overlap itself, or when `p` lacks the first character of `sep`.
   */
  lemma FindAtBoundary(p: string, sep: string, rest: string)
    requires sep != []
    requires (BorderFree(sep) && !Contains(p, sep)) || sep[0] !in p
    ensures Find(p + sep + rest, sep) == Some(|p|)
  {
    var s := p + sep + rest;
    assert s[|p|..|p| + |sep|] == sep;
    assert OccursAt(s, sep, |p|);
    forall j: nat | j < |p|
      ensures !OccursAt(s, sep, j)
    {
      NoOccurrenceBefore(p, sep, rest, j);
    }
  }

  /** An occurrence of `sep` starting inside `p` would lie within `p` or overlap the `sep` after it. */
  lemma NoOccurrenceBefore(p: string, sep: string, rest: string, j: nat)
    requires sep != [] && j < |p|
    requires (BorderFree(sep) && !Contains(p, sep)) || sep[0] !in p
    ensures !OccursAt(p + sep + rest, sep, j)
  {
    var s := p + sep + rest;
    var n := |sep|;
    if j + n > |s| {
    } else if sep[0] !in p {
      assert s[j..j + n][0] == p[j];
    } else if j + n <= |p| {
      assert s[j..j + n] == p[j..j + n];
      assert !OccursAt(p, sep, j);
    } else {
      NoOverlapBefore(p, sep, rest, j);
    }
  }

  lemma NoOverlapBefore(p: string, sep: string, rest: string, j: nat)
    requires sep != [] && j < |p| < j + |sep| && BorderFree(sep)
    ensures !OccursAt(p + sep + rest, sep, j)
  {
    var s := p + sep + rest;
    var n := |sep|;
    var m := |p| - j;
    if j + n <= |s| {
      assert s[j..j + n][m..] == sep[..n - m];
      assert sep[..n - m] != sep[n - (n - m)..];
    }
  }

  lemma SplitCons(p: string, sep: string, rest: string)
    requires sep != []
    requires (BorderFree(sep) && !Contains(p, sep)) || sep[0] !in p
    ensures Split(p + sep + rest, sep) == [p] + Split(rest, sep)
  {
    var s := p + sep + rest;
    FindAtBoundary(p, sep, rest);
    assert s[..|p|] == p;
    assert s[|p| + |sep|..] == rest;
  }

  lemma SplitWhole(s: string, sep: string)
    requires sep != [] && !Contains(s, sep)
    ensures Split(s, sep) == [s]
  {
  }

  /** A string with one separator whose first character appears nowhere else splits into the two sides. */
  lemma SplitAtOnly(p: string, sep: string, rest: string)
    requires sep != [] && sep[0] !in p && sep[0] !in rest
    ensures Split(p + sep + rest, sep) == [p, rest]
  {
    SplitCons(p, sep, rest);
    NotContainsFirstAbsent(rest, sep);
    SplitWhole(rest, sep);
  }

  /** Splitting undoes joining, for a separator that cannot overlap itself and parts that do not hold it. */
  lemma {:induction false} SplitJoin(parts: seq<string>, sep: string)
    requires sep != [] && BorderFree(sep) && parts != []
    requires forall k :: 0 <= k < |parts| ==> !Contains(parts[k], sep)
    ensures Split(Join(parts, sep), sep) == parts
    decreases |parts|
  {
    if |parts| == 1 {
      SplitWhole(parts[0], sep);
    } else {
      SplitCons(parts[0], sep, Join(parts[1..], sep));
      SplitJoin(parts[1..], sep);
      assert parts == [parts[0]] + parts[1..];
    }
  }

  // ---------------------------------------------------------------- replace and slicing

  lemma OccursAtChar(s: string, c: char, j: nat)
    requires j < |s|
    ensures OccursAt(s, [c], j) <==> s[j] == c
  {
    assert s[j..j + 1] == [s[j]];
  }

  /** Searching for one character finds nothing exactly when the character is absent. */
  lemma FindCharAbsent(s: string, c: char)
    ensures Find(s, [c]).None? <==> c !in s
  {
    if Find(s, [c]).None? {
      forall j | 0 <= j < |s|
        ensures s[j] != c
      {
        OccursAtChar(s, c, j);
      }
    } else {
      OccursAtChar(s, c, Find(s, [c]).value);
    }
  }

  /** A found character splits the string around its position. */
  lemma FindCharSplits(s: string, c: char)
    requires Find(s, [c]).Some?
    ensures var i := Find(s, [c]).value;
      i < |s| && s == s[..i] + [c] + s[i + 1..]
  {
    var i := Find(s, [c]).value;
    OccursAtChar(s, c, i);
    SplitAround(s, i);
  }

  lemma SplitAround(s: string, i: nat)
    requires i < |s|
    ensures s == s[..i] + [s[i]] + s[i + 1..]
  {
    assert s[i..] == [s[i]] + s[i + 1..];
    assert s == s[..i] + s[i..];
  }

  /** A found character does not occur before its position. */
  lemma FindCharFirst(s: string, c: char)
    requires Find(s, [c]).Some?
    ensures var i := Find(s, [c]).value;
      i <= |s| && c !in s[..i]
  {
    var i := Find(s, [c]).value;
    forall j | 0 <= j < i
      ensures s[..i][j] != c
    {
      OccursAtChar(s, c, j);
    }
  }

  /** `s.replace(pat, "", 1)`: the first occurrence of `pat` removed. */
  function RemoveFirst(s: string, pat: string): string
    requires pat != []
  {
    match Find(s, pat)
    case None => s
    case Some(i) => s[..i] + s[i + |pat|..]
  }

  /** `s.replace(pat, "")`: every occurrence found scanning left to right removed. */
  function RemoveAll(s: string, pat: string): (r: string)
    requires pat != []
    ensures |r| <= |s|
    decreases |s|
  {
    if |s| < |pat| then s
    else if s[..|pat|] == pat then RemoveAll(s[|pat|..], pat)
    else [s[0]] + RemoveAll(s[1..], pat)
  }

  lemma {:induction false} RemoveAllAbsent(s: string, pat: string)
    requires pat != [] && !Contains(s, pat)
    ensures RemoveAll(s, pat) == s
    decreases |s|
  {
    if |s| >= |pat| {
      assert !OccursAt(s, pat, 0);
      OccursAtShift(s, pat);
      forall j: nat ensures !OccursAt(s[1..], pat, j) {
        assert !OccursAt(s, pat, j + 1);
      }
      RemoveAllAbsent(s[1..], pat);
    }
  }

  /** `s[:n]` with Python's meaning of a negative `n` (counted from the end). */
  function Take(s: string, n: int): (r: string)
    ensures |r| <= |s| && r == s[..|r|]
    ensures n >= 0 ==> |r| <= n
    ensures 0 <= n <= |s| ==> |r| == n
  {
    if n >= 0 then (if n <= |s| then s[..n] else s)
    else if |s| + n > 0 then s[..|s| + n]
    else []
  }

  // ---------------------------------------------------------------- decimal numerals

  predicate IsDigits(s: string) {
    forall i :: 0 <= i < |s| ==> '0' <= s[i] <= '9'
  }

  function DigitChar(d: nat): char
    requires d < 10
  {
    ('0' as int + d) as char
  }

  /** `str(n)` for a natural number: decimal digits without leading zeros. */
  function NatToString(n: nat): (r: string)
    ensures |r| >= 1 && IsDigits(r)
    ensures (n < 10) == (|r| == 1)
    ensures r[0] == '0' ==> n == 0
    decreases n
  {
    if n < 10 then [DigitChar(n)] else NatToString(n / 10) + [DigitChar(n % 10)]
  }

  /** `str(i)` for an integer. */
  function IntToString(i: int): string {
    if i < 0 then "-" + NatToString(-i) else NatToString(i)
  }

  /** `int(s)` for a string of decimal digits. */
  function DigitsValue(s: string): nat
    requires IsDigits(s)
    decreases |s|
  {
    if s == [] then 0 else 10 * DigitsValue(s[..|s| - 1]) + (s[|s| - 1] as int - '0' as int)
  }

  /** Reading the numeral back gives the number. */
  lemma {:induction false} DigitsRoundTrip(n: nat)
    ensures DigitsValue(NatToString(n)) == n
    decreases n
  {
    if n >= 10 {
      var r := NatToString(n);
      assert r[..|r| - 1] == NatToString(n / 10);
      DigitsRoundTrip(n / 10);
    }
  }

  lemma NatToStringInjective(m: nat, n: nat)
    requires m != n
    ensures NatToString(m) != NatToString(n)
  {
    DigitsRoundTrip(m);
    DigitsRoundTrip(n);
  }
}
