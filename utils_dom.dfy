/** The DOM helpers shared by the site parsers: the CSS selector sanitiser,
    `sel`/`sel1`, which turn a failing selection into "nothing found", and
    `text_or_empty`. Selection itself belongs to the HTML library and is an
    abstract function here. */
module UtilsDom {
  import opened Text
  import opened Patterns

  /** An element as the parsers see it: its tag name, its text as
      `get_text(strip=True)` renders it, and its attributes. */
  datatype Node = Node(name: string, text: string, attrs: map<string, string>)

  /** `el.get(k)`: the attribute value, or `None`. */
  function Attr(n: Node, k: string): (r: Option<string>)
    ensures r.Some? <==> k in n.attrs
  {
    if k in n.attrs then Some(n.attrs[k]) else None
  }

  /** `el.get(k) or ""`. */
  function AttrOrEmpty(n: Node, k: string): (r: string)
    ensures k !in n.attrs ==> r == ""
  {
    if k in n.attrs then n.attrs[k] else ""
  }

  /** `el.get(k1) or el.get(k2) or ... or ""`: the first non-empty attribute value. */
  function FirstAttr(n: Node, ks: seq<string>): (r: string)
    ensures r == "" <==> forall i :: 0 <= i < |ks| ==> AttrOrEmpty(n, ks[i]) == ""
    ensures r != "" ==> exists i :: 0 <= i < |ks| && r == AttrOrEmpty(n, ks[i])
                                    && forall t :: 0 <= t < i ==> AttrOrEmpty(n, ks[t]) == ""
  {
    if ks == [] then ""
    else if AttrOrEmpty(n, ks[0]) != "" then AttrOrEmpty(n, ks[0])
    else FirstAttr(n, ks[1..])
  }

  // ---------------------------------------------------------------- sanitiser

  predicate IsCombinatorOrComma(c: char)
  {
    c == '>' || c == '+' || c == '~' || c == ','
  }

  predicate IsCombinator(c: char)
  {
    c == '>' || c == '+' || c == '~'
  }

  /** `^\s*([>+~,]+)\s*` replaced by "": on a stripped selector, the leading run
      of combinators and commas and the whitespace after it go, once. */
  function DropLeading(s: string): (r: string)
    ensures |r| <= |s|
  {
    if s != [] && IsCombinatorOrComma(s[0]) then TrimLeft(TrimLeft(s, IsCombinatorOrComma), IsSpace)
    else s
  }

  /** Where a match of `,\s*[>+~]\s*` at the start of s ends, if one does:
      after the comma, the spaces, one combinator and the spaces behind it. */
  function CommaGroupEnd(s: string): (r: Option<nat>)
    ensures r.Some? ==> 1 < r.value <= |s| && s[0] == ','
    ensures r.Some? ==> forall k :: 1 <= k < r.value ==> IsSpace(s[k]) || IsCombinator(s[k])
    ensures s != [] && s[0] == ',' && r.None? ==>
      var j := 1 + RunLength(s, 1, IsSpace); j == |s| || !IsCombinator(s[j])
  {
    if s != [] && s[0] == ',' then
      var j := 1 + RunLength(s, 1, IsSpace);
      if j < |s| && IsCombinator(s[j]) then Some(j + 1 + RunLength(s, j + 1, IsSpace)) else None
    else None
  }

  /** `re.sub(r",\s*[>+~]\s*", ", ", s)`, scanning from the left. */
  function SubCombinators(s: string): (r: string)
    ensures |r| <= |s|
    decreases |s|
  {
    if s == [] then []
    else
      match CommaGroupEnd(s)
      case Some(e) => ", " + SubCombinators(s[e..])
      case None => [s[0]] + SubCombinators(s[1..])
  }

  /** `_sanitize_selector`. */
  function Sanitize(sel: string): (r: string)
    ensures |r| <= |Strip(sel)|
  {
    SubCombinators(DropLeading(Strip(sel)))
  }

  /** The characters the substitution never removes: everything but
      whitespace and the three combinators, in order. */
  function Essential(s: string): (r: string)
    decreases |s|
  {
    if s == [] then []
    else if IsSpace(s[0]) || IsCombinator(s[0]) then Essential(s[1..])
    else [s[0]] + Essential(s[1..])
  }

  lemma {:induction false} EssentialAppend(a: string, b: string)
    ensures Essential(a + b) == Essential(a) + Essential(b)
    decreases |a|
  {
    if a == [] {
      assert a + b == b;
    } else {
      assert (a + b)[1..] == a[1..] + b;
      EssentialAppend(a[1..], b);
    }
  }

  lemma {:induction false} EssentialDropsRun(s: string, i: nat, j: nat)
    requires i <= j <= |s|
    requires forall k :: i <= k < j ==> IsSpace(s[k]) || IsCombinator(s[k])
    ensures Essential(s[i..]) == Essential(s[j..])
    decreases j - i
  {
    if i < j {
      assert s[i..][1..] == s[i + 1..];
      EssentialDropsRun(s, i + 1, j);
    }
  }

  /** The substitution removes only whitespace and combinators: the commas
      and every other character survive, in order. */
  lemma {:induction false} SubCombinatorsKeepsEssential(s: string)
    ensures Essential(SubCombinators(s)) == Essential(s)
    decreases |s|
  {
    if s == [] {
      return;
    }
    match CommaGroupEnd(s) {
      case Some(e) =>
        SubstitutedComma(s, e);
      case None =>
        SubCombinatorsKeepsEssential(s[1..]);
        assert SubCombinators(s) == [s[0]] + SubCombinators(s[1..]);
        EssentialAppend([s[0]], SubCombinators(s[1..]));
        assert s == [s[0]] + s[1..];
        EssentialAppend([s[0]], s[1..]);
    }
  }

  /** The step of the lemma above where a comma group is replaced. */
  lemma {:induction false} SubstitutedComma(s: string, e: nat)
    requires CommaGroupEnd(s) == Some(e)
    ensures SubCombinators(s) == ", " + SubCombinators(s[e..])
    ensures Essential(SubCombinators(s)) == Essential(s)
    decreases |s|, 0
  {
    SubCombinatorsKeepsEssential(s[e..]);
    assert SubCombinators(s) == ", " + SubCombinators(s[e..]);
    EssentialAppend(", ", SubCombinators(s[e..]));
    assert Essential(", ") == [','] by {
      assert ", "[1..] == " ";
      assert " "[1..] == "";
    }
    EssentialDropsRun(s, 1, e);
    assert Essential(s) == [','] + Essential(s[1..]);
  }

  /** Without a comma there is nothing to substitute. */
  lemma {:induction false} SubCombinatorsNoComma(s: string)
    requires forall k :: 0 <= k < |s| ==> s[k] != ','
    ensures SubCombinators(s) == s
    decreases |s|
  {
    if s != [] {
      SubCombinatorsNoComma(s[1..]);
      assert [s[0]] + s[1..] == s;
    }
  }

  /** Text before the first comma is copied unchanged; the substitution
      carries on behind it. */
  lemma {:induction false} SubCombinatorsPlainPrefix(a: string, b: string)
    requires forall k :: 0 <= k < |a| ==> a[k] != ','
    ensures SubCombinators(a + b) == a + SubCombinators(b)
    decreases |a|
  {
    if a == [] {
      assert a + b == b;
    } else {
      assert (a + b)[0] == a[0];
      assert (a + b)[1..] == a[1..] + b;
      SubCombinatorsPlainPrefix(a[1..], b);
      assert a == [a[0]] + a[1..];
    }
  }

  /** One whole match of `,\s*[>+~]\s*` (the comma, the spaces sp, the
      combinator c, the spaces sq) becomes ", ", and the text after it is
      substituted in turn. */
  lemma SubCombinatorsGroup(sp: string, c: char, sq: string, b: string)
    requires forall k :: 0 <= k < |sp| ==> IsSpace(sp[k])
    requires forall k :: 0 <= k < |sq| ==> IsSpace(sq[k])
    requires IsCombinator(c) && (b == [] || !IsSpace(b[0]))
    ensures SubCombinators([','] + sp + [c] + sq + b) == ", " + SubCombinators(b)
  {
    var s := [','] + sp + [c] + sq + b;
    var e := |s| - |b|;
    GroupEnd(sp, c, sq, b);
    assert s[e..] == b;
    SubstitutedComma(s, e);
  }

  /** Where the match in the lemma above ends: just before b. */
  lemma GroupEnd(sp: string, c: char, sq: string, b: string)
    requires forall k :: 0 <= k < |sp| ==> IsSpace(sp[k])
    requires forall k :: 0 <= k < |sq| ==> IsSpace(sq[k])
    requires IsCombinator(c) && (b == [] || !IsSpace(b[0]))
    ensures CommaGroupEnd([','] + sp + [c] + sq + b) == Some(|sp| + |sq| + 2)
  {
    var comma := [','] + sp;
    var t := comma + [c] + sq;
    var s := t + b;
    var j := |comma|;
    forall k | 1 <= k < j
      ensures IsSpace(s[k])
    {
      assert s[k] == comma[k] == sp[k - 1];
    }
    forall k | j < k < |t|
      ensures IsSpace(s[k])
    {
      assert s[k] == t[k] == sq[k - j - 1];
    }
    assert |t| == |s| || s[|t|] == b[0];
    CommaGroupEndAt(s, j, |t|);
  }

  /** A comma, spaces up to j, a combinator at j and spaces up to e make a
      match ending at e. */
  lemma CommaGroupEndAt(s: string, j: nat, e: nat)
    requires 0 < j < e <= |s| && s[0] == ',' && IsCombinator(s[j])
    requires forall k :: 1 <= k < j ==> IsSpace(s[k])
    requires forall k :: j < k < e ==> IsSpace(s[k])
    requires e == |s| || !IsSpace(s[e])
    ensures CommaGroupEnd(s) == Some(e)
  {
    RunLengthAt(s, 1, IsSpace, j - 1);
    RunLengthAt(s, j + 1, IsSpace, e - j - 1);
  }

  /** A selector with none of `>`, `+`, `~`, `,` only loses its surrounding whitespace. */
  lemma SanitizePlain(sel: string)
    requires forall k :: 0 <= k < |sel| ==> !IsCombinatorOrComma(sel[k])
    ensures Sanitize(sel) == Strip(sel)
  {
    StripSpec(sel);
    var t := Strip(sel);
    assert forall k :: 0 <= k < |t| ==> t[k] == sel[StripStart(sel) + k];
    SubCombinatorsNoComma(t);
  }

  /** On a selector starting with combinators, the leading run is removed
      once: the whole run of combinators and commas (s[..m]) and the whole run of
      whitespace after it (s[m..k]) go, and nothing else. */
  lemma DropLeadingSpec(s: string)
    requires s != [] && IsCombinatorOrComma(s[0])
    ensures var r := DropLeading(s); var k := |s| - |r|;
      var m := |s| - |TrimLeft(s, IsCombinatorOrComma)|;
      r == s[k..] && 0 < m <= k
    ensures var m := |s| - |TrimLeft(s, IsCombinatorOrComma)|;
      (forall t :: 0 <= t < m ==> IsCombinatorOrComma(s[t])) && (m < |s| ==> !IsCombinatorOrComma(s[m]))
    ensures var k := |s| - |DropLeading(s)|;
      var m := |s| - |TrimLeft(s, IsCombinatorOrComma)|;
      forall t :: m <= t < k ==> IsSpace(s[t])
    ensures var k := |s| - |DropLeading(s)|;
      k < |s| ==> !IsSpace(s[k])
  {
    var a := TrimLeft(s, IsCombinatorOrComma);
    var r := TrimLeft(a, IsSpace);
    var m := |s| - |a|;
    var k := |s| - |r|;
    assert 0 < m;
    forall t | m <= t < k ensures IsSpace(s[t]) {
      assert s[t] == a[t - m];
    }
    if m < |s| {
      assert s[m] == a[0];
    }
    if k < |s| {
      assert s[k] == r[0];
    }
    assert DropLeading(s) == r;
  }

  // ---------------------------------------------------------------- sel / sel1

  /** The library's selection: the matching elements in document order, or
      the message of the exception raised on a selector it cannot handle. */
  type Selector = string -> Result<seq<Node>>

  /** `sel(root, selector)`: failure becomes the empty list. */
  function Sel(select: Selector, selector: string): (r: seq<Node>)
    ensures select(Sanitize(selector)).Err? ==> r == []
    ensures select(Sanitize(selector)).Ok? ==> r == select(Sanitize(selector)).value
  {
    match select(Sanitize(selector))
    case Ok(nodes) => nodes
    case Err(_) => []
  }

  /** `sel1(root, selector)`: the first match; failure becomes `None`. */
  function Sel1(select: Selector, selector: string): (r: Option<Node>)
    ensures r.None? <==> Sel(select, selector) == []
    ensures r.Some? ==> r.value == Sel(select, selector)[0]
  {
    var nodes := Sel(select, selector);
    if nodes == [] then None else Some(nodes[0])
  }

  /** `text_or_empty(node)`: "" for a missing node (an element itself is
      always truthy). */
  function TextOrEmpty(node: Option<Node>): (r: string)
    ensures node.None? ==> r == ""
    ensures node.Some? ==> r == node.value.text
  {
    match node
    case None => ""
    case Some(n) => n.text
  }
}
