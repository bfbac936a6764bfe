/** The fixed regular expressions of the site parsers, written out over
    strings. Each follows Python's `re.search`: the leftmost position where the
    pattern matches, and there the match that backtracking reaches first.
    Each search is paired with a declarative description of a match, and its
    contract says the search finds the leftmost such match, or that none exists. */
module Patterns {
  import opened Text

  /** `\w`, for the characters the scraped pages are written in: ASCII letters,
      digits and `_`, the superscript digits, Latin letters with diacritics and
      the Vietnamese letters. */
  predicate IsWordChar(c: char)
  {
    ('a' <= c <= 'z') || ('A' <= c <= 'Z') || IsDigit(c) || c == '_'
    || c == '\U{B2}' || c == '\U{B3}' || c == '\U{B9}' || c == '\U{AA}' || c == '\U{BA}' || c == '\U{B5}'
    || ('\U{C0}' <= c <= '\U{24F}' && c != '\U{D7}' && c != '\U{F7}')
    || ('\U{1E00}' <= c <= '\U{1EFF}')
  }

  /** `\b` at position i: a word character on exactly one side. */
  predicate WordBoundary(s: string, i: nat)
    requires i <= |s|
  {
    (i > 0 && IsWordChar(s[i - 1])) != (i < |s| && IsWordChar(s[i]))
  }

  /** The number of characters from i on that satisfy p, up to the first that does not. */
  function RunLength(s: string, i: nat, p: char -> bool): (n: nat)
    requires i <= |s|
    ensures i + n <= |s|
    ensures forall k :: i <= k < i + n ==> p(s[k])
    ensures i + n == |s| || !p(s[i + n])
    decreases |s| - i
  {
    if i < |s| && p(s[i]) then 1 + RunLength(s, i + 1, p) else 0
  }

  /** A run is as long as the stretch of characters satisfying p that ends
      where p first fails or the text ends. */
  lemma {:induction false} RunLengthAt(s: string, i: nat, p: char -> bool, n: nat)
    requires i + n <= |s| && (forall k :: i <= k < i + n ==> p(s[k]))
    requires i + n == |s| || !p(s[i + n])
    ensures RunLength(s, i, p) == n
    decreases n
  {
    if n > 0 {
      RunLengthAt(s, i + 1, p, n - 1);
    }
  }

  // ------------------------------------------------------------- N m2

  predicate IsNumberChar(c: char)
  {
    IsDigit(c) || c == '.' || c == ','
  }

  predicate IsSquareMark(c: char)
  {
    c == '2' || c == '\U{B2}'
  }

  /** `(\d[\d\.,]*)\s*m(?:2|²)\b`, case-insensitive, matched at i: the number
      occupies s[i..k], whitespace s[k..l], and the unit s[l..l+2]. */
  ghost predicate AreaShape(s: string, i: nat, k: nat, l: nat)
  {
    i < k <= l && l + 2 <= |s| && IsDigit(s[i])
    && (forall t :: i < t < k ==> IsNumberChar(s[t]))
    && (forall t :: k <= t < l ==> IsSpace(s[t]))
    && AreaUnitAt(s, l)
  }

  /** `m(?:2|²)\b`, case-insensitive, matched at l. */
  predicate AreaUnitAt(s: string, l: nat)
  {
    l + 2 <= |s| && (s[l] == 'm' || s[l] == 'M') && IsSquareMark(s[l + 1]) && WordBoundary(s, l + 2)
  }

  ghost predicate IsAreaMatch(s: string, i: nat, j: nat)
  {
    exists k: nat, l: nat :: AreaShape(s, i, k, l) && j == l + 2
  }

  /** An area match at i fixes where its number and its spaces end: each is
      the longest run, as the greedy `[\d\.,]*` and `\s*` take them. */
  lemma AreaShapeDetermined(s: string, i: nat, k: nat, l: nat)
    requires AreaShape(s, i, k, l)
    ensures k == i + 1 + RunLength(s, i + 1, IsNumberChar)
    ensures l == k + RunLength(s, k, IsSpace)
  {
    RunLengthAt(s, i + 1, IsNumberChar, k - i - 1);
    RunLengthAt(s, k, IsSpace, l - k);
  }

  /** The end of the area match that starts at i, if one does. */
  function AreaEndAt(s: string, i: nat): (r: Option<nat>)
    requires i <= |s|
    ensures r.Some? ==> IsAreaMatch(s, i, r.value)
  {
    if i < |s| && IsDigit(s[i]) then
      var k := i + 1 + RunLength(s, i + 1, IsNumberChar);
      var l := k + RunLength(s, k, IsSpace);
      if AreaUnitAt(s, l) then assert AreaShape(s, i, k, l); Some(l + 2)
      else None
    else None
  }

  /** Every area match at i is the one `AreaEndAt` finds. */
  lemma AreaEndAtComplete(s: string, i: nat, k: nat, l: nat)
    requires i <= |s| && AreaShape(s, i, k, l)
    ensures AreaEndAt(s, i) == Some(l + 2)
  {
    AreaShapeDetermined(s, i, k, l);
    assert AreaUnitAt(s, l);
  }

  /** When `AreaEndAt` finds nothing at i, no area match starts there. */
  lemma AreaNoneNoMatch(s: string, i: nat)
    requires i <= |s| && AreaEndAt(s, i).None?
    ensures forall j: nat :: !IsAreaMatch(s, i, j)
  {
    forall j: nat | IsAreaMatch(s, i, j) ensures false {
      var k: nat, l: nat :| AreaShape(s, i, k, l) && j == l + 2;
      AreaEndAtComplete(s, i, k, l);
    }
  }

  /** The leftmost area match at or after position i. */
  function AreaFrom(s: string, i: nat): (r: Option<(nat, nat)>)
    requires i <= |s|
    ensures r.Some? ==> i <= r.value.0 && IsAreaMatch(s, r.value.0, r.value.1)
    ensures r.Some? ==> forall i': nat, j': nat :: i <= i' < r.value.0 ==> !IsAreaMatch(s, i', j')
    ensures r.None? ==> forall i': nat, j': nat :: i <= i' ==> !IsAreaMatch(s, i', j')
    decreases |s| - i
  {
    match AreaEndAt(s, i)
    case Some(j) => Some((i, j))
    case None =>
      AreaNoneNoMatch(s, i);
      if i < |s| then AreaFrom(s, i + 1) else None
  }

  /** `m.group(0)` of the area pattern searched in s, if it matches. */
  function AreaSearch(s: string): (r: Option<string>)
    ensures r.None? <==> forall i: nat, j: nat :: !IsAreaMatch(s, i, j)
    ensures r.Some? ==> exists i: nat, j: nat :: IsAreaMatch(s, i, j) && r.value == s[i..j]
  {
    match AreaFrom(s, 0)
    case Some((i, j)) => Some(s[i..j])
    case None => None
  }

  /** What the area pattern finds ends in the unit "m2"/"m²" and starts with a digit. */
  lemma AreaSearchShape(s: string)
    requires AreaSearch(s).Some?
    ensures var m := AreaSearch(s).value;
      |m| >= 3 && IsDigit(m[0]) && (m[|m| - 2] == 'm' || m[|m| - 2] == 'M') && IsSquareMark(m[|m| - 1])
  {
    var r := AreaFrom(s, 0).value;
    assert AreaSearch(s).value == s[r.0..r.1];
    AreaMatchText(s, r.0, r.1);
  }

  lemma AreaMatchText(s: string, i: nat, j: nat)
    requires IsAreaMatch(s, i, j)
    ensures i <= j <= |s|
    ensures var m := s[i..j];
      |m| >= 3 && IsDigit(m[0]) && (m[|m| - 2] == 'm' || m[|m| - 2] == 'M') && IsSquareMark(m[|m| - 1])
  {
    var k: nat, l: nat :| AreaShape(s, i, k, l) && j == l + 2;
    var m := s[i..j];
    assert m[0] == s[i] && m[|m| - 2] == s[l] && m[|m| - 1] == s[l + 1];
  }

  // ------------------------------------------------------------- VN phone

  /** `(?:\+?84|0)\d{8,11}` matched at i: the prefix occupies s[i..p], the
      digits s[p..j], as many as the greedy `{8,11}` takes. */
  ghost predicate PhoneShape(s: string, i: nat, p: nat, j: nat)
  {
    i < p <= j <= |s|
    && ((p == i + 3 && s[i..p] == "+84") || (p == i + 2 && s[i..p] == "84") || (p == i + 1 && s[i] == '0'))
    && 8 <= j - p <= 11 && (forall t :: p <= t < j ==> IsDigit(s[t]))
    && (j - p == 11 || j == |s| || !IsDigit(s[j]))
  }

  ghost predicate IsPhoneMatch(s: string, i: nat, j: nat)
  {
    exists p: nat :: PhoneShape(s, i, p, j)
  }

  /** Where the digits begin after the prefix at i: `+84` is tried first, then
      `84`, then `0`; at most one of them fits a given first character. */
  function PhonePrefixEnd(s: string, i: nat): (r: Option<nat>)
    requires i <= |s|
  {
    if i + 3 <= |s| && s[i..i + 3] == "+84" then Some(i + 3)
    else if i + 2 <= |s| && s[i..i + 2] == "84" then Some(i + 2)
    else if i < |s| && s[i] == '0' then Some(i + 1)
    else None
  }

  function Min(a: int, b: int): int
  {
    if a <= b then a else b
  }

  /** A match at i fixes its prefix, and its digits are the greedy run. */
  lemma PhoneShapeDetermined(s: string, i: nat, p: nat, j: nat)
    requires PhoneShape(s, i, p, j)
    ensures PhonePrefixEnd(s, i) == Some(p)
    ensures j - p == Min(RunLength(s, p, IsDigit), 11)
  {
    if p == i + 3 {
      assert s[i..i + 3] == "+84";
    } else if p == i + 2 {
      assert s[i] == s[i..p][0] == '8';
      assert !(i + 3 <= |s| && s[i..i + 3] == "+84") by {
        if i + 3 <= |s| { assert s[i..i + 3][0] == s[i]; }
      }
    } else {
      assert !(i + 3 <= |s| && s[i..i + 3] == "+84") by {
        if i + 3 <= |s| { assert s[i..i + 3][0] == s[i]; }
      }
      assert !(i + 2 <= |s| && s[i..i + 2] == "84") by {
        if i + 2 <= |s| { assert s[i..i + 2][0] == s[i]; }
      }
    }
    var n := RunLength(s, p, IsDigit);
    if j - p < 11 {
      assert j == |s| || !IsDigit(s[j]);
      assert n == j - p;
    } else {
      assert n >= 11;
    }
  }

  function PhoneEndAt(s: string, i: nat): (r: Option<nat>)
    requires i <= |s|
    ensures r.Some? ==> IsPhoneMatch(s, i, r.value)
    ensures forall p: nat, j: nat :: PhoneShape(s, i, p, j) ==> r == Some(j)
  {
    match PhonePrefixEnd(s, i)
    case None =>
      assert forall p: nat, j: nat :: PhoneShape(s, i, p, j) ==> false by {
        forall p: nat, j: nat | PhoneShape(s, i, p, j) ensures false { PhoneShapeDetermined(s, i, p, j); }
      }
      None
    case Some(p) =>
      var n := RunLength(s, p, IsDigit);
      assert forall p': nat, j: nat :: PhoneShape(s, i, p', j) ==> p' == p && j == p + Min(n, 11) by {
        forall p': nat, j: nat | PhoneShape(s, i, p', j) ensures p' == p && j == p + Min(n, 11) {
          PhoneShapeDetermined(s, i, p', j);
        }
      }
      if n >= 8 then assert PhoneShape(s, i, p, p + Min(n, 11)); Some(p + Min(n, 11)) else None
  }

  function PhoneFrom(s: string, i: nat): (r: Option<(nat, nat)>)
    requires i <= |s|
    ensures r.Some? ==> i <= r.value.0 && IsPhoneMatch(s, r.value.0, r.value.1)
    ensures r.Some? ==> forall i': nat, j': nat :: i <= i' < r.value.0 ==> !IsPhoneMatch(s, i', j')
    ensures r.None? ==> forall i': nat, j': nat :: i <= i' ==> !IsPhoneMatch(s, i', j')
    decreases |s| - i
  {
    match PhoneEndAt(s, i)
    case Some(j) => Some((i, j))
    case None => if i < |s| then PhoneFrom(s, i + 1) else None
  }

  /** `m.group(0)` of the Vietnamese phone pattern searched in s, if it matches. */
  function PhoneSearch(s: string): (r: Option<string>)
    ensures r.None? <==> forall i: nat, j: nat :: !IsPhoneMatch(s, i, j)
    ensures r.Some? ==> exists i: nat, j: nat :: IsPhoneMatch(s, i, j) && r.value == s[i..j]
  {
    match PhoneFrom(s, 0)
    case Some((i, j)) => Some(s[i..j])
    case None => None
  }

  /** A phone the pattern finds is 9 to 14 characters long, `+` only in front,
      digits everywhere else. */
  lemma PhoneSearchShape(s: string)
    requires PhoneSearch(s).Some?
    ensures var m := PhoneSearch(s).value;
      9 <= |m| <= 14 && (m[0] == '+' || IsDigit(m[0])) && AllOf(m[1..], IsDigit)
  {
    var r := PhoneFrom(s, 0).value;
    PhoneMatchText(s, r.0, r.1);
  }

  lemma PhoneMatchText(s: string, i: nat, j: nat)
    requires IsPhoneMatch(s, i, j)
    ensures i <= j <= |s|
    ensures var m := s[i..j];
      9 <= |m| <= 14 && (m[0] == '+' || IsDigit(m[0])) && AllOf(m[1..], IsDigit)
  {
    var p: nat :| PhoneShape(s, i, p, j);
    var m := s[i..j];
    assert m[0] == s[i] == s[i..p][0];
    forall t | 1 <= t < |m| ensures IsDigit(m[t]) {
      assert m[t] == s[i + t];
      if i + t < p {
        assert s[i + t] == s[i..p][t];
      }
    }
    assert forall t :: 0 <= t < |m[1..]| ==> m[1..][t] == m[t + 1];
  }

  // ------------------------------------------------------------- labels

  /** How `re.IGNORECASE` compares a character: by its simple lower case, with
      the dotted and dotless capital/small i both equal to `i`. */
  function FoldChar(c: char): char
  {
    if c == '\U{130}' || c == '\U{131}' then 'i' else LowerChar(c)
  }

  /** The literal `lit` matches s at i, case-insensitively. */
  predicate MatchesFoldedAt(s: string, lit: string, i: nat)
  {
    i + |lit| <= |s| && forall k :: 0 <= k < |lit| ==> FoldChar(s[i + k]) == FoldChar(lit[k])
  }

  /** The alternation `(Giá|Price)` of the price patterns. */
  const PriceLabels: seq<string> := ["Giá", "Price"]

  /** `\b(l1|l2|...)\b` matches at i. */
  predicate LabelWordAt(s: string, labels: seq<string>, i: nat)
    requires i <= |s|
  {
    WordBoundary(s, i)
    && exists x :: 0 <= x < |labels| && MatchesFoldedAt(s, labels[x], i) && WordBoundary(s, i + |labels[x]|)
  }

  /** `re.search(r"\b(Giá|Price)\b", t, re.I)` and its kin. */
  predicate HasLabelWord(s: string, labels: seq<string>)
  {
    exists i :: 0 <= i <= |s| && LabelWordAt(s, labels, i)
  }

  /** `re.search(lit, t, re.I)` for a literal. */
  predicate ContainsFolded(s: string, lit: string)
  {
    exists i :: 0 <= i <= |s| && MatchesFoldedAt(s, lit, i)
  }

  /** `re.search(r"(Diện tích|Area)", t, re.I)`. */
  predicate HasAreaLabel(s: string)
  {
    ContainsFolded(s, "Diện tích") || ContainsFolded(s, "Area")
  }

  // ------------------------------------------------------------- label capture

  /** The stop after the lazily captured text: `$` (end of text, or before a
      final newline) when `endOk`, else only `\s{2,}`. */
  predicate StopsAt(s: string, e: nat, endOk: bool)
    requires e <= |s|
  {
    (endOk && (e == |s| || (e + 1 == |s| && s[e] == '\n')))
    || (e + 1 < |s| && IsSpace(s[e]) && IsSpace(s[e + 1]))
  }

  /** `[^\s].{0,n}` followed by the stop, captured as s[g..e]. */
  ghost predicate IsCapture(s: string, g: nat, e: nat, n: nat, endOk: bool)
  {
    g < e <= |s| && !IsSpace(s[g]) && e - g - 1 <= n
    && (forall t :: g < t < e ==> s[t] != '\n')
    && StopsAt(s, e, endOk)
  }

  /** The lazy `.{0,n}?`: the first end from e up to `limit` where the stop matches. */
  function LazyEnd(s: string, e: nat, limit: nat, endOk: bool): (r: Option<nat>)
    requires e <= |s|
    ensures r.Some? ==> e <= r.value <= |s| && r.value <= limit + (if e > limit then e - limit else 0)
    ensures r.Some? ==> StopsAt(s, r.value, endOk) && forall t :: e <= t < r.value ==> s[t] != '\n'
    ensures r.Some? ==> forall e' :: e <= e' < r.value ==> !StopsAt(s, e', endOk)
    ensures r.None? ==> forall e' :: e <= e' <= |s| && e' <= limit && (forall t :: e <= t < e' ==> s[t] != '\n')
                          ==> !StopsAt(s, e', endOk)
    decreases |s| - e
  {
    if StopsAt(s, e, endOk) then Some(e)
    else if e < limit && e < |s| && s[e] != '\n' then LazyEnd(s, e + 1, limit, endOk)
    else None
  }

  /** `[^\s].{0,n}?` then the stop, tried from g: the shortest capture. */
  function CaptureEnd(s: string, g: nat, n: nat, endOk: bool): (r: Option<nat>)
    requires g <= |s|
    ensures r.Some? ==> IsCapture(s, g, r.value, n, endOk)
    ensures r.Some? ==> forall e' :: g < e' < r.value ==> !IsCapture(s, g, e', n, endOk)
    ensures r.None? ==> forall e' :: !IsCapture(s, g, e', n, endOk)
  {
    if g < |s| && !IsSpace(s[g]) then LazyEnd(s, g + 1, g + 1 + n, endOk) else None
  }

  /** The optional character of `[:\-]?`. */
  predicate IsColonOrDash(c: char)
  {
    c == ':' || c == '-'
  }

  /** `\s*[:\-]?\s*` matches s[j..g]: whitespace with at most one colon or
      dash among it. */
  ghost predicate IsSeparator(s: string, j: nat, g: nat)
  {
    j <= g <= |s|
    && ((forall t :: j <= t < g ==> IsSpace(s[t]))
        || exists m :: j <= m < g && IsColonOrDash(s[m]) && forall t :: j <= t < g && t != m ==> IsSpace(s[t]))
  }

  /** Where `\s*` leaves off from j: behind the whitespace run. */
  function AfterSpaces(s: string, j: nat): (r: nat)
    requires j <= |s|
    ensures j <= r <= |s| && (forall t :: j <= t < r ==> IsSpace(s[t])) && (r == |s| || !IsSpace(s[r]))
  {
    j + RunLength(s, j, IsSpace)
  }

  /** Where `\s*[:\-]\s*` leaves off from j, when a colon or dash follows the
      whitespace run. */
  function AfterColon(s: string, j: nat): (r: Option<nat>)
    requires j <= |s|
    ensures r.Some? <==> AfterSpaces(s, j) < |s| && IsColonOrDash(s[AfterSpaces(s, j)])
    ensures r.Some? ==> r.value == AfterSpaces(s, AfterSpaces(s, j) + 1)
  {
    var j1 := AfterSpaces(s, j);
    if j1 < |s| && IsColonOrDash(s[j1]) then Some(AfterSpaces(s, j1 + 1)) else None
  }

  /** Both places are ends of a separator. */
  lemma SeparatorStarts(s: string, j: nat)
    requires j <= |s|
    ensures IsSeparator(s, j, AfterSpaces(s, j))
    ensures AfterColon(s, j).Some? ==> IsSeparator(s, j, AfterColon(s, j).value)
  {
    var j1 := AfterSpaces(s, j);
    if AfterColon(s, j).Some? {
      var j2 := AfterColon(s, j).value;
      assert forall t :: j <= t < j2 && t != j1 ==> IsSpace(s[t]);
    }
  }

  /** A separator that stops before a non-space character ends at one of
      those two places. */
  lemma SeparatorEnds(s: string, j: nat, g: nat)
    requires IsSeparator(s, j, g) && g < |s| && !IsSpace(s[g])
    ensures g == AfterSpaces(s, j) || AfterColon(s, j) == Some(g)
  {
    if forall t :: j <= t < g ==> IsSpace(s[t]) {
      RunLengthAt(s, j, IsSpace, g - j);
      assert AfterSpaces(s, j) == g;
    } else {
      var m :| j <= m < g && IsColonOrDash(s[m]) && forall t :: j <= t < g && t != m ==> IsSpace(s[t]);
      assert !IsSpace(s[m]);
      RunLengthAt(s, j, IsSpace, m - j);
      assert AfterSpaces(s, j) == m;
      RunLengthAt(s, m + 1, IsSpace, g - m - 1);
      assert AfterSpaces(s, m + 1) == g;
      AfterColonAt(s, j, m);
    }
  }

  /** A colon or dash right behind the leading spaces: the separator goes on
      to the spaces after it. */
  lemma AfterColonAt(s: string, j: nat, m: nat)
    requires j <= |s| && AfterSpaces(s, j) == m && m < |s| && IsColonOrDash(s[m])
    ensures AfterColon(s, j) == Some(AfterSpaces(s, m + 1))
  {
  }

  /** The capture tried from g, with its bounds. */
  function CaptureFrom(s: string, g: nat, n: nat, endOk: bool): (r: Option<(nat, nat)>)
    requires g <= |s|
    ensures r.Some? ==> r.value.0 == g && IsCapture(s, g, r.value.1, n, endOk)
    ensures r.Some? ==> forall e': nat :: g < e' < r.value.1 ==> !IsCapture(s, g, e', n, endOk)
    ensures r.None? ==> forall e: nat :: !IsCapture(s, g, e, n, endOk)
  {
    match CaptureEnd(s, g, n, endOk)
    case Some(e) => Some((g, e))
    case None => None
  }

  /** Any separator end that starts a capture is found: the capture after
      the label exists and starts there or later. */
  lemma CaptureAfterLabelFinds(s: string, j: nat, n: nat, endOk: bool, g: nat, e: nat)
    requires j <= |s| && IsSeparator(s, j, g) && IsCapture(s, g, e, n, endOk)
    ensures CaptureAfterLabel(s, j, n, endOk).Some? && g <= CaptureAfterLabel(s, j, n, endOk).value.0
  {
    SeparatorEnds(s, j, g);
  }

  /** A capture found after the label starts at a separator end. */
  lemma CaptureAfterLabelSound(s: string, j: nat, n: nat, endOk: bool)
    requires j <= |s| && CaptureAfterLabel(s, j, n, endOk).Some?
    ensures var c := CaptureAfterLabel(s, j, n, endOk).value;
            IsSeparator(s, j, c.0) && IsCapture(s, c.0, c.1, n, endOk)
  {
    SeparatorStarts(s, j);
  }

  /** The capture after a label ending at j: `\s*[:\-]?\s*` and then the
      capture. Backtracking tries the starts after the colon or dash and the
      spaces behind it first, then on whatever follows the leading spaces, so
      of the separator ends that start a capture the latest wins; the lazy
      `.{0,n}?` makes the capture the shortest from there. */
  function CaptureAfterLabel(s: string, j: nat, n: nat, endOk: bool): (r: Option<(nat, nat)>)
    requires j <= |s|
    ensures r.Some? ==> j <= r.value.0 && IsCapture(s, r.value.0, r.value.1, n, endOk)
  {
    var first := if AfterColon(s, j).Some? then CaptureFrom(s, AfterColon(s, j).value, n, endOk) else None;
    if first.Some? then first else CaptureFrom(s, AfterSpaces(s, j), n, endOk)
  }

  /** The capture after the label is a match of `\s*[:\-]?\s*` followed by
      the capture; there is one exactly when some separator end starts a
      capture; of those, the latest start wins, and the capture is the
      shortest from it. */
  lemma CaptureAfterLabelSpec(s: string, j: nat, n: nat, endOk: bool)
    requires j <= |s|
    ensures var r := CaptureAfterLabel(s, j, n, endOk);
            r.Some? ==> IsSeparator(s, j, r.value.0) && IsCapture(s, r.value.0, r.value.1, n, endOk)
    ensures var r := CaptureAfterLabel(s, j, n, endOk);
            r.Some? ==> forall e': nat :: r.value.0 < e' < r.value.1 ==> !IsCapture(s, r.value.0, e', n, endOk)
    ensures var r := CaptureAfterLabel(s, j, n, endOk);
            r.Some? ==> forall g: nat, e: nat :: r.value.0 < g && IsSeparator(s, j, g) ==> !IsCapture(s, g, e, n, endOk)
    ensures CaptureAfterLabel(s, j, n, endOk).None? <==>
            forall g: nat, e: nat :: IsSeparator(s, j, g) ==> !IsCapture(s, g, e, n, endOk)
  {
    var r := CaptureAfterLabel(s, j, n, endOk);
    if r.Some? {
      CaptureAfterLabelSound(s, j, n, endOk);
    }
    forall g: nat, e: nat | IsSeparator(s, j, g) && IsCapture(s, g, e, n, endOk)
      ensures r.Some? && g <= r.value.0
    {
      CaptureAfterLabelFinds(s, j, n, endOk, g, e);
    }
  }

  /** The label matches at i and is followed by a separator and a capture:
      one way the pattern can match with this label at i. */
  ghost predicate LabelMatch(s: string, word: string, n: nat, endOk: bool, i: nat)
  {
    MatchesFoldedAt(s, word, i) && exists g: nat, e: nat :: IsSeparator(s, LabelEnd(i, word), g) && IsCapture(s, g, e, n, endOk)
  }

  /** The position just after the label `word` read at i. */
  function LabelEnd(i: nat, word: string): nat
  {
    i + |word|
  }

  /** The pattern matches somewhere in s. */
  ghost predicate HasLabelCapture(s: string, labels: seq<string>, n: nat, endOk: bool)
  {
    exists i: nat, x :: i <= |s| && 0 <= x < |labels| && LabelMatch(s, labels[x], n, endOk, i)
  }

  /** The capture the pattern makes with label `word` at i: the label must
      match there, then a separator and a capture follow. */
  function Candidate(s: string, word: string, n: nat, endOk: bool, i: nat): (r: Option<(nat, nat)>)
    requires i <= |s|
    ensures r.Some? ==> MatchesFoldedAt(s, word, i) && LabelEnd(i, word) <= r.value.0
    ensures r.Some? ==> IsCapture(s, r.value.0, r.value.1, n, endOk)
  {
    if MatchesFoldedAt(s, word, i) then CaptureAfterLabel(s, LabelEnd(i, word), n, endOk) else None
  }

  /** A capture with label `word` at i exists exactly when the pattern
      matches with that label at i. */
  lemma LabelMatchIff(s: string, word: string, n: nat, endOk: bool, i: nat)
    requires i <= |s|
    ensures Candidate(s, word, n, endOk, i).Some? <==> LabelMatch(s, word, n, endOk, i)
  {
    if Candidate(s, word, n, endOk, i).Some? {
      CandidateSound(s, word, n, endOk, i);
    }
    if LabelMatch(s, word, n, endOk, i) {
      CandidateComplete(s, word, n, endOk, i);
    }
  }

  /** A candidate capture is a match of the pattern with that label. */
  lemma CandidateSound(s: string, word: string, n: nat, endOk: bool, i: nat)
    requires i <= |s| && Candidate(s, word, n, endOk, i).Some?
    ensures LabelMatch(s, word, n, endOk, i)
  {
    var c := CaptureAfterLabel(s, LabelEnd(i, word), n, endOk).value;
    CaptureAfterLabelSound(s, LabelEnd(i, word), n, endOk);
    assert IsSeparator(s, LabelEnd(i, word), c.0) && IsCapture(s, c.0, c.1, n, endOk);
  }

  /** A match of the pattern with a label gives a candidate capture. */
  lemma CandidateComplete(s: string, word: string, n: nat, endOk: bool, i: nat)
    requires i <= |s| && LabelMatch(s, word, n, endOk, i)
    ensures Candidate(s, word, n, endOk, i).Some?
  {
    var g: nat, e: nat :| IsSeparator(s, LabelEnd(i, word), g) && IsCapture(s, g, e, n, endOk);
    CaptureAfterLabelFinds(s, LabelEnd(i, word), n, endOk, g, e);
  }

  /** The first present option of c: how an alternation picks the first
      alternative that matches. */
  function FirstSome<T>(c: seq<Option<T>>): (r: Option<T>)
    ensures r.Some? ==> r in c
  {
    if c == [] then None else if c[0].Some? then c[0] else FirstSome(c[1..])
  }

  /** The first present option is the result. */
  lemma {:induction false} FirstSomeFirst<T>(c: seq<Option<T>>, x: nat)
    requires x < |c| && c[x].Some? && forall y :: 0 <= y < x ==> c[y].None?
    ensures FirstSome(c) == c[x]
    decreases x
  {
    if x > 0 {
      assert c[1..][x - 1] == c[x];
      FirstSomeFirst(c[1..], x - 1);
    }
  }

  /** With no present option there is no result. */
  lemma {:induction false} FirstSomeNone<T>(c: seq<Option<T>>)
    requires forall x :: 0 <= x < |c| ==> c[x].None?
    ensures FirstSome(c).None?
    decreases |c|
  {
    if c != [] {
      assert forall y :: 0 <= y < |c[1..]| ==> c[1..][y] == c[y + 1];
      FirstSomeNone(c[1..]);
    }
  }

  /** A present option makes the first present option exist. */
  lemma {:induction false} FirstSomePresent<T>(c: seq<Option<T>>, x: nat)
    requires x < |c| && c[x].Some?
    ensures FirstSome(c).Some?
    decreases x
  {
    if x > 0 && c[0].None? {
      assert c[1..][x - 1] == c[x];
      FirstSomePresent(c[1..], x - 1);
    }
  }

  /** The candidates of the alternatives at i, in the order they are written. */
  function Candidates(s: string, labels: seq<string>, n: nat, endOk: bool, i: nat): (r: seq<Option<(nat, nat)>>)
    requires i <= |s|
    ensures |r| == |labels|
  {
    seq(|labels|, x requires 0 <= x < |labels| => Candidate(s, labels[x], n, endOk, i))
  }

  /** The alternatives of the label group tried in order at i: the first
      one that matches decides. */
  function LabelCaptureAt(s: string, labels: seq<string>, n: nat, endOk: bool, i: nat): (r: Option<(nat, nat)>)
    requires i <= |s|
  {
    FirstSome(Candidates(s, labels, n, endOk, i))
  }

  /** A capture at i is the capture of one of the alternatives. */
  lemma LabelCaptureAtSound(s: string, labels: seq<string>, n: nat, endOk: bool, i: nat)
    requires i <= |s| && LabelCaptureAt(s, labels, n, endOk, i).Some?
    ensures exists x :: 0 <= x < |labels| && Candidate(s, labels[x], n, endOk, i) == LabelCaptureAt(s, labels, n, endOk, i)
  {
    var c := Candidates(s, labels, n, endOk, i);
    var x :| 0 <= x < |c| && c[x] == LabelCaptureAt(s, labels, n, endOk, i);
  }

  /** The first alternative that matches at i decides the capture there. */
  lemma LabelCaptureAtFirst(s: string, labels: seq<string>, n: nat, endOk: bool, i: nat, x: nat)
    requires i <= |s| && x < |labels| && Candidate(s, labels[x], n, endOk, i).Some?
    requires forall y :: 0 <= y < x ==> Candidate(s, labels[y], n, endOk, i).None?
    ensures LabelCaptureAt(s, labels, n, endOk, i) == Candidate(s, labels[x], n, endOk, i)
  {
    FirstSomeFirst(Candidates(s, labels, n, endOk, i), x);
  }

  /** With no alternative matching at i there is no capture there. */
  lemma LabelCaptureAtNone(s: string, labels: seq<string>, n: nat, endOk: bool, i: nat)
    requires i <= |s| && forall x :: 0 <= x < |labels| ==> Candidate(s, labels[x], n, endOk, i).None?
    ensures LabelCaptureAt(s, labels, n, endOk, i).None?
  {
    FirstSomeNone(Candidates(s, labels, n, endOk, i));
  }

  /** Some alternative matching at i gives a capture there. */
  lemma LabelCaptureAtSome(s: string, labels: seq<string>, n: nat, endOk: bool, i: nat, x: nat)
    requires i <= |s| && x < |labels| && Candidate(s, labels[x], n, endOk, i).Some?
    ensures LabelCaptureAt(s, labels, n, endOk, i).Some?
  {
    FirstSomePresent(Candidates(s, labels, n, endOk, i), x);
  }

  /** The captures at the positions 0, 1, ..., |s|, in order. */
  function Positions(s: string, labels: seq<string>, n: nat, endOk: bool): (r: seq<Option<(nat, nat)>>)
    ensures |r| == |s| + 1
  {
    seq(|s| + 1, t requires 0 <= t <= |s| => LabelCaptureAt(s, labels, n, endOk, t))
  }

  /** `re.search`: the capture at the leftmost position where a label and
      its capture match. */
  function LabelSearch(s: string, labels: seq<string>, n: nat, endOk: bool): (r: Option<(nat, nat)>)
  {
    FirstSome(Positions(s, labels, n, endOk))
  }

  /** The leftmost position with a capture decides: the result is the
      capture there. */
  lemma LabelSearchFirst(s: string, labels: seq<string>, n: nat, endOk: bool, k: nat)
    requires k <= |s| && LabelCaptureAt(s, labels, n, endOk, k).Some?
    requires forall t :: 0 <= t < k ==> LabelCaptureAt(s, labels, n, endOk, t).None?
    ensures LabelSearch(s, labels, n, endOk) == LabelCaptureAt(s, labels, n, endOk, k)
  {
    FirstSomeFirst(Positions(s, labels, n, endOk), k);
  }

  /** With no capture at any position there is none. */
  lemma LabelSearchNone(s: string, labels: seq<string>, n: nat, endOk: bool)
    requires forall t :: 0 <= t <= |s| ==> LabelCaptureAt(s, labels, n, endOk, t).None?
    ensures LabelSearch(s, labels, n, endOk).None?
  {
    FirstSomeNone(Positions(s, labels, n, endOk));
  }

  /** A capture at some position makes the search succeed. */
  lemma LabelSearchPresent(s: string, labels: seq<string>, n: nat, endOk: bool, k: nat)
    requires k <= |s| && LabelCaptureAt(s, labels, n, endOk, k).Some?
    ensures LabelSearch(s, labels, n, endOk).Some?
  {
    FirstSomePresent(Positions(s, labels, n, endOk), k);
  }

  /** What the search finds is the capture at some position. */
  lemma LabelSearchSome(s: string, labels: seq<string>, n: nat, endOk: bool)
    requires LabelSearch(s, labels, n, endOk).Some?
    ensures exists k :: 0 <= k <= |s| && LabelCaptureAt(s, labels, n, endOk, k) == LabelSearch(s, labels, n, endOk)
  {
    var c := Positions(s, labels, n, endOk);
    var k :| 0 <= k < |c| && c[k] == LabelSearch(s, labels, n, endOk);
  }

  /** What the search finds is a capture made after some alternative of
      the label group. */
  lemma LabelSearchSound(s: string, labels: seq<string>, n: nat, endOk: bool)
    requires LabelSearch(s, labels, n, endOk).Some?
    ensures var c := LabelSearch(s, labels, n, endOk).value;
            IsCapture(s, c.0, c.1, n, endOk)
            && exists k: nat, x :: k <= |s| && 0 <= x < |labels| && MatchesFoldedAt(s, labels[x], k) && LabelEnd(k, labels[x]) <= c.0
  {
    LabelSearchSome(s, labels, n, endOk);
    var k :| 0 <= k <= |s| && LabelCaptureAt(s, labels, n, endOk, k) == LabelSearch(s, labels, n, endOk);
    LabelCaptureAtSound(s, labels, n, endOk, k);
  }

  /** The search finds a capture exactly when the pattern matches somewhere. */
  lemma LabelSearchIff(s: string, labels: seq<string>, n: nat, endOk: bool)
    ensures LabelSearch(s, labels, n, endOk).Some? <==> HasLabelCapture(s, labels, n, endOk)
  {
    var r := LabelSearch(s, labels, n, endOk);
    if r.Some? {
      LabelSearchSome(s, labels, n, endOk);
      var k :| 0 <= k <= |s| && LabelCaptureAt(s, labels, n, endOk, k) == r;
      LabelCaptureAtSound(s, labels, n, endOk, k);
      var x :| 0 <= x < |labels| && Candidate(s, labels[x], n, endOk, k) == r;
      LabelMatchIff(s, labels[x], n, endOk, k);
    }
    if HasLabelCapture(s, labels, n, endOk) {
      var k: nat, x :| k <= |s| && 0 <= x < |labels| && LabelMatch(s, labels[x], n, endOk, k);
      LabelMatchIff(s, labels[x], n, endOk, k);
      LabelCaptureAtSome(s, labels, n, endOk, k, x);
      LabelSearchPresent(s, labels, n, endOk, k);
    }
  }

  /** A capture starts with a non-space character, so stripping it leaves
      something, and what is left is already stripped. */
  lemma StrippedCapture(x: string)
    requires x != [] && !IsSpace(x[0])
    ensures Strip(x) != [] && Strip(Strip(x)) == Strip(x)
  {
    StripEmptyIffBlank(x);
    StripIdempotent(x);
  }

  /** `m.group(k).strip()` of `(Giá|Price)\s*[:\-]?\s*([^\s].{0,n}?)($|\s{2,})`
      (and of its variants) searched in s. */
  function LabelCapture(s: string, labels: seq<string>, n: nat, endOk: bool): (r: Option<string>)
    ensures r.Some? ==> r.value != [] && r.value == Strip(r.value)
    ensures r.Some? <==> HasLabelCapture(s, labels, n, endOk)
    ensures r.Some? ==> exists g: nat, e: nat :: IsCapture(s, g, e, n, endOk) && r.value == Strip(s[g..e])
  {
    var c := LabelSearch(s, labels, n, endOk);
    LabelSearchIff(s, labels, n, endOk);
    if c.None? then None
    else
      LabelSearchSound(s, labels, n, endOk);
      var x := s[c.value.0..c.value.1];
      assert x[0] == s[c.value.0];
      StrippedCapture(x);
      Some(Strip(x))
  }

  /** What a label capture returns is a piece of the text. */
  lemma LabelCaptureInText(s: string, labels: seq<string>, n: nat, endOk: bool)
    requires LabelCapture(s, labels, n, endOk).Some?
    ensures Contains(s, LabelCapture(s, labels, n, endOk).value)
  {
    var g: nat, e: nat :| IsCapture(s, g, e, n, endOk) && LabelCapture(s, labels, n, endOk).value == Strip(s[g..e]);
    StrippedSliceInText(s, g, e);
  }
}
