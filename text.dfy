/** The handful of Python `str` operations the scraper's rules are written in:
    whitespace as `str.isspace()` and the regex class `\s` see it, `strip`,
    `strip(chars)`, `rstrip`, `lower`, `in` on strings, `startswith`,
    `replace(old, "")`, and `str()` of an integer. Strings are sequences of
    Unicode scalar values, as Python's `str` is a sequence of code points. */
module Text {

  datatype Option<+T> = None | Some(value: T)

  /** The outcome of a step that may raise: the value, or the text of the
      exception (`str(e)`, which is what the scraper puts into error records). */
  datatype Result<+T> = Ok(value: T) | Err(message: string)

  /** Python's `str.isspace()`; a `str` regex's `\s` matches the same characters. */
  predicate IsSpace(c: char)
  {
    c == ' ' || ('\t' <= c <= '\r') || ('\U{1C}' <= c <= '\U{1F}') || c == '\U{85}' || c == '\U{A0}'
    || c == '\U{1680}' || ('\U{2000}' <= c <= '\U{200A}') || c == '\U{2028}' || c == '\U{2029}'
    || c == '\U{202F}' || c == '\U{205F}' || c == '\U{3000}'
  }

  /** The ASCII digits, which is what the model takes `\d` to be. */
  predicate IsDigit(c: char)
  {
    '0' <= c <= '9'
  }

  predicate IsSpaceOrDash(c: char)
  {
    c == ' ' || c == '-'
  }

  predicate AllOf(s: string, p: char -> bool)
  {
    forall k :: 0 <= k < |s| ==> p(s[k])
  }

  // ---------------------------------------------------------------- trimming

  /** How many characters at the front of `s` satisfy `drop`, up to the first
      that does not. */
  function LeadCount(s: string, drop: char -> bool): (n: nat)
    ensures n <= |s|
    ensures forall k :: 0 <= k < n ==> drop(s[k])
    ensures n < |s| ==> !drop(s[n])
  {
    if s != [] && drop(s[0]) then 1 + LeadCount(s[1..], drop) else 0
  }

  /** How many characters at the back of `s` satisfy `drop`, up to the last
      that does not. */
  function TrailCount(s: string, drop: char -> bool): (n: nat)
    ensures n <= |s|
    ensures forall k :: |s| - n <= k < |s| ==> drop(s[k])
    ensures n < |s| ==> !drop(s[|s| - n - 1])
  {
    if s != [] && drop(s[|s| - 1]) then 1 + TrailCount(s[..|s| - 1], drop) else 0
  }

  /** Drops the longest prefix of characters satisfying `drop`. */
  function TrimLeft(s: string, drop: char -> bool): (r: string)
  {
    s[LeadCount(s, drop)..]
  }

  /** Drops the longest suffix of characters satisfying `drop`. */
  function TrimRight(s: string, drop: char -> bool): (r: string)
  {
    s[..|s| - TrailCount(s, drop)]
  }

  /** The leading run ends exactly at the first character `drop` rejects. */
  lemma {:induction false} LeadCountAt(s: string, drop: char -> bool, n: nat)
    requires n <= |s| && (forall k :: 0 <= k < n ==> drop(s[k])) && (n < |s| ==> !drop(s[n]))
    ensures LeadCount(s, drop) == n
    decreases n
  {
    if n > 0 {
      assert drop(s[0]);
      var t := s[1..];
      forall k | 0 <= k < n - 1 ensures drop(t[k]) {
        assert t[k] == s[k + 1];
      }
      if n - 1 < |t| {
        assert t[n - 1] == s[n];
      }
      LeadCountAt(t, drop, n - 1);
    }
  }

  /** The trailing run starts exactly after the last character `drop` rejects. */
  lemma {:induction false} TrailCountAt(s: string, drop: char -> bool, n: nat)
    requires n <= |s| && (forall k :: n <= k < |s| ==> drop(s[k])) && (n > 0 ==> !drop(s[n - 1]))
    ensures TrailCount(s, drop) == |s| - n
    decreases |s| - n
  {
    if n < |s| {
      assert drop(s[|s| - 1]);
      var t := s[..|s| - 1];
      forall k | n <= k < |t| ensures drop(t[k]) {
        assert t[k] == s[k];
      }
      if n > 0 {
        assert t[n - 1] == s[n - 1];
      }
      TrailCountAt(t, drop, n);
    }
  }

  /** The trimmed prefix is determined by where the first kept character is. */
  lemma TrimLeftAt(s: string, drop: char -> bool, n: nat)
    requires n <= |s| && (forall k :: 0 <= k < n ==> drop(s[k])) && (n < |s| ==> !drop(s[n]))
    ensures TrimLeft(s, drop) == s[n..]
  {
    LeadCountAt(s, drop, n);
  }

  /** The trimmed suffix is determined by where the last kept character is. */
  lemma TrimRightAt(s: string, drop: char -> bool, n: nat)
    requires n <= |s| && (forall k :: n <= k < |s| ==> drop(s[k])) && (n > 0 ==> !drop(s[n - 1]))
    ensures TrimRight(s, drop) == s[..n]
  {
    TrailCountAt(s, drop, n);
  }

  /** Trimming skips a leading stretch of dropped characters in one go. */
  lemma TrimLeftSkip(s: string, drop: char -> bool, k: nat)
    requires k <= |s| && forall t :: 0 <= t < k ==> drop(s[t])
    ensures TrimLeft(s, drop) == TrimLeft(s[k..], drop)
  {
    var u := s[k..];
    var m := LeadCount(u, drop);
    forall t | k <= t < k + m ensures drop(s[t]) {
      assert s[t] == u[t - k];
    }
    if k + m < |s| {
      assert s[k + m] == u[m];
    }
    LeadCountAt(s, drop, k + m);
    assert u[m..] == s[k + m..];
  }

  /** A string with neither end dropped is left as it is by trimming both ends. */
  lemma TrimBothUntouched(s: string, drop: char -> bool)
    requires s != [] ==> !drop(s[0]) && !drop(s[|s| - 1])
    ensures TrimRight(TrimLeft(s, drop), drop) == s
  {
    LeadCountAt(s, drop, 0);
    TrailCountAt(s, drop, |s|);
  }

  /** Python's `s.strip()`. */
  function Strip(s: string): (r: string)
  {
    TrimRight(TrimLeft(s, IsSpace), IsSpace)
  }

  /** Python's `s.rstrip()`. */
  function RStrip(s: string): (r: string)
  {
    TrimRight(s, IsSpace)
  }

  /** Python's `s.strip(" -")`: only spaces and dashes go, not other whitespace. */
  function StripSpaceDash(s: string): (r: string)
  {
    TrimRight(TrimLeft(s, IsSpaceOrDash), IsSpaceOrDash)
  }

  /** Where `Strip(s)` starts inside `s`. */
  function StripStart(s: string): nat
  {
    |s| - |TrimLeft(s, IsSpace)|
  }

  /** Trimming both ends keeps a contiguous middle part of `s`, drops only
      characters satisfying `drop` around it, and leaves none at either end. */
  lemma TrimBothSpec(s: string, drop: char -> bool)
    ensures var l := TrimLeft(s, drop); var r := TrimRight(l, drop); var i := |s| - |l|;
      i + |r| <= |s| && r == s[i..i + |r|]
    ensures var l := TrimLeft(s, drop); var i := |s| - |l|;
      forall k :: 0 <= k < i ==> drop(s[k])
    ensures var l := TrimLeft(s, drop); var r := TrimRight(l, drop); var i := |s| - |l|;
      forall k :: i + |r| <= k < |s| ==> drop(s[k])
    ensures var r := TrimRight(TrimLeft(s, drop), drop);
      r != [] ==> !drop(r[0]) && !drop(r[|r| - 1])
  {
    var l := TrimLeft(s, drop);
    var i := |s| - |l|;
    var r := TrimRight(l, drop);
    forall k | 0 <= k < |r| ensures r[k] == s[i + k] {
      assert r[k] == l[k] == s[i + k];
    }
    assert r == s[i..i + |r|];
    forall k | i + |r| <= k < |s| ensures drop(s[k]) {
      assert s[k] == l[k - i];
    }
    if r != [] {
      assert r[0] == l[0];
    }
  }

  /** `Strip` keeps a contiguous middle part of `s`, drops only whitespace
      around it, and leaves no whitespace at either end. */
  lemma StripSpec(s: string)
    ensures var r := Strip(s); var i := StripStart(s);
      && i + |r| <= |s| && r == s[i..i + |r|]
      && (forall k :: 0 <= k < i ==> IsSpace(s[k]))
      && (forall k :: i + |r| <= k < |s| ==> IsSpace(s[k]))
      && (r != [] ==> !IsSpace(r[0]) && !IsSpace(r[|r| - 1]))
  {
    TrimBothSpec(s, IsSpace);
  }

  /** `Strip(s)` is the piece of `s` that starts at `StripStart(s)`. */
  lemma StripIsSlice(s: string)
    ensures StripStart(s) + |Strip(s)| <= |s|
    ensures Strip(s) == s[StripStart(s)..StripStart(s) + |Strip(s)|]
  {
    var l := TrimLeft(s, IsSpace);
    var i := |s| - |l|;
    var r := TrimRight(l, IsSpace);
    assert r == l[..|r|];
    assert l == s[i..];
  }

  /** A stripped slice of s occurs in s. */
  lemma StrippedSliceInText(s: string, a: nat, b: nat)
    requires a <= b <= |s|
    ensures Contains(s, Strip(s[a..b]))
  {
    StripBounds(s[a..b]);
    SliceOfSliceInText(s, a, b, StripStart(s[a..b]), StripEnd(s[a..b]));
  }

  /** Where the stripped part of s ends. */
  function StripEnd(s: string): nat
  {
    StripStart(s) + |Strip(s)|
  }

  /** The stripped part of s is the slice between its two ends. */
  lemma StripBounds(s: string)
    ensures StripStart(s) <= StripEnd(s) <= |s| && Strip(s) == s[StripStart(s)..StripEnd(s)]
  {
    StripIsSlice(s);
  }

  /** A slice of a slice of s occurs in s. */
  lemma SliceOfSliceInText(s: string, a: nat, b: nat, i: nat, j: nat)
    requires a <= b <= |s| && i <= j <= b - a
    ensures Contains(s, s[a..b][i..j])
  {
    SliceOfSliceOccurs(s, a, b, i, j);
    ContainsIff(s, s[a..b][i..j]);
  }

  /** A slice of a slice of s occurs in s where the two starts add up. */
  lemma SliceOfSliceOccurs(s: string, a: nat, b: nat, i: nat, j: nat)
    requires a <= b <= |s| && i <= j <= b - a
    ensures OccursAt(s, s[a..b][i..j], a + i)
  {
    var sub := s[a..b][i..j];
    forall k | 0 <= k < j - i ensures sub[k] == s[a + i..a + j][k] {
    }
    assert sub == s[a + i..a + j];
  }

  /** What occurs in a piece of `s` occurs in `s`, shifted by where the piece starts. */
  lemma OccursInSlice(s: string, a: nat, b: nat, sub: string, i: nat)
    requires a <= b <= |s| && OccursAt(s[a..b], sub, i)
    ensures OccursAt(s, sub, a + i)
  {
    forall k | 0 <= k < |sub| ensures s[a + i + k] == sub[k] {
      assert sub[k] == s[a..b][i + k];
    }
  }

  /** A string that is blank after stripping holds whitespace only, and a
      string with a non-space character never strips to "". */
  lemma StripEmptyIffBlank(s: string)
    ensures Strip(s) == [] <==> AllOf(s, IsSpace)
  {
    StripSpec(s);
    var i := StripStart(s);
    if !AllOf(s, IsSpace) {
      var k :| 0 <= k < |s| && !IsSpace(s[k]);
      assert i <= k < i + |Strip(s)|;
    }
  }

  /** Stripping twice is stripping once. */
  lemma StripIdempotent(s: string)
    ensures Strip(Strip(s)) == Strip(s)
  {
    var r := Strip(s);
    StripSpec(s);
    StripSpec(r);
    if r != [] {
      assert TrimLeft(r, IsSpace) == r;
    }
  }

  // ---------------------------------------------------------------- lower

  /** Python's lower-casing on the letters scraped pages use: ASCII, Latin-1
      and the Vietnamese letters. Other characters are left as they are. */
  function LowerChar(c: char): char
  {
    if 'A' <= c <= 'Z' || ('\U{C0}' <= c <= '\U{DE}' && c != '\U{D7}') then (c as int + 32) as char
    else if '\U{1EA0}' <= c <= '\U{1EF9}' && (c as int) % 2 == 0 then (c as int + 1) as char
    else if c == '\U{102}' || c == '\U{110}' || c == '\U{128}' || c == '\U{168}' || c == '\U{1A0}' || c == '\U{1AF}'
    then (c as int + 1) as char
    else c
  }

  /** Python's `s.lower()`. */
  function Lower(s: string): (r: string)
    ensures |r| == |s|
  {
    seq(|s|, k requires 0 <= k < |s| => LowerChar(s[k]))
  }

  lemma LowerCharIdempotent(c: char)
    ensures LowerChar(LowerChar(c)) == LowerChar(c)
  {
  }

  lemma LowerIdempotent(s: string)
    ensures Lower(Lower(s)) == Lower(s)
  {
    forall k | 0 <= k < |s| ensures Lower(Lower(s))[k] == Lower(s)[k] {
      LowerCharIdempotent(s[k]);
    }
  }

  // ---------------------------------------------------------------- search

  /** Python's `s.startswith(p)`. */
  predicate StartsWith(s: string, p: string)
  {
    |p| <= |s| && s[..|p|] == p
  }

  /** Python's `sub in s`. */
  predicate Contains(s: string, sub: string)
    decreases |s|
  {
    StartsWith(s, sub) || (s != [] && Contains(s[1..], sub))
  }

  predicate OccursAt(s: string, sub: string, i: nat)
  {
    i + |sub| <= |s| && s[i..i + |sub|] == sub
  }

  /** `Contains` holds exactly when `sub` occurs at some position of `s`. */
  lemma {:induction false} ContainsIff(s: string, sub: string)
    ensures Contains(s, sub) <==> exists i: nat :: OccursAt(s, sub, i)
    decreases |s|
  {
    if StartsWith(s, sub) {
      assert OccursAt(s, sub, 0);
    } else if s == [] {
      assert sub != [];
    } else {
      ContainsIff(s[1..], sub);
      if exists i: nat :: OccursAt(s, sub, i) {
        var i: nat :| OccursAt(s, sub, i);
        assert i != 0;
        assert s[1..][i - 1..i - 1 + |sub|] == s[i..i + |sub|];
        assert OccursAt(s[1..], sub, i - 1);
      }
      if Contains(s[1..], sub) {
        var i: nat :| OccursAt(s[1..], sub, i);
        assert s[1..][i..i + |sub|] == s[i + 1..i + 1 + |sub|];
        assert OccursAt(s, sub, i + 1);
      }
    }
  }

  lemma ContainsAt(s: string, sub: string, i: nat)
    requires OccursAt(s, sub, i)
    ensures Contains(s, sub)
  {
    ContainsIff(s, sub);
  }

  /** No non-empty string occurs inside the empty string. */
  lemma NotContainedInEmpty(sub: string)
    requires sub != []
    ensures !Contains([], sub)
  {
  }

  /** Python's `s.replace(p, "")`: removes the non-overlapping occurrences of
      `p`, scanning from the left. */
  function RemoveAll(s: string, p: string): (r: string)
    requires p != []
    ensures |r| <= |s|
    decreases |s|
  {
    if s == [] then []
    else if StartsWith(s, p) then RemoveAll(s[|p|..], p)
    else [s[0]] + RemoveAll(s[1..], p)
  }

  /** Removing a pattern that does not occur leaves the string unchanged. */
  lemma {:induction false} RemoveAllAbsent(s: string, p: string)
    requires p != [] && !Contains(s, p)
    ensures RemoveAll(s, p) == s
    decreases |s|
  {
    if s != [] {
      RemoveAllAbsent(s[1..], p);
      assert [s[0]] + s[1..] == s;
    }
  }

  // ---------------------------------------------------------------- numbers

  function DigitChar(d: nat): (c: char)
    requires d < 10
    ensures IsDigit(c)
  {
    ('0' as int + d) as char
  }

  /** Python's `str(n)` for a natural number. */
  function NatToString(n: nat): (r: string)
    ensures r != [] && AllOf(r, IsDigit)
  {
    if n < 10 then [DigitChar(n)] else NatToString(n / 10) + [DigitChar(n % 10)]
  }

  /** Python's `str(i)` for an integer. */
  function IntToString(i: int): string
  {
    if i < 0 then "-" + NatToString(-i) else NatToString(i)
  }

  /** The value of a string of decimal digits. */
  function DigitsValue(s: string): nat
    requires AllOf(s, IsDigit)
  {
    if s == [] then 0 else DigitsValue(s[..|s| - 1]) * 10 + (s[|s| - 1] as int - '0' as int)
  }

  /** Reading back the decimal text of `n` gives `n`. */
  lemma {:induction false} NatToStringRoundTrip(n: nat)
    ensures DigitsValue(NatToString(n)) == n
  {
    if n >= 10 {
      NatToStringRoundTrip(n / 10);
      var r := NatToString(n);
      assert r[..|r| - 1] == NatToString(n / 10);
    }
  }
}
