/** The nhatot.com detail-page parser: CSS selectors first, then the page's
    JSON-LD blocks, then the Next.js `__NEXT_DATA__` document, each field
    resolved on its own; the page-text area pattern comes last. */
module Nhatot {
  import opened Text
  import opened Json
  import opened Patterns
  import opened UtilsDom
  import opened Listing

  /** The fetch strategy this site prefers. */
  const DefaultStrategy: string := "playwright"

  // ---------------------------------------------------------------- _first_nonempty

  /** A value `_first_nonempty` passes over: falsy, or a blank string. */
  predicate Skipped(v: Json)
  {
    !Truthy(v) || (v.JStr? && Blank(v.s))
  }

  /** Where the first value that is not passed over sits; |vals| when none. */
  function FirstKeptIndex(vals: seq<Json>): (i: nat)
    ensures i <= |vals|
    ensures forall t :: 0 <= t < i ==> Skipped(vals[t])
    ensures i < |vals| ==> !Skipped(vals[i])
  {
    if vals == [] then 0
    else if !Skipped(vals[0]) then 0
    else
      var j := FirstKeptIndex(vals[1..]);
      assert forall t :: 1 <= t < |vals| ==> vals[t] == vals[1..][t - 1];
      1 + j
  }

  /** `_first_nonempty(*vals)` on JSON values: the first truthy value with
      non-blank content, stripped; "" when there is none. A truthy value that
      is not a string has no `strip`, and the call raises. */
  function FirstNonEmpty(vals: seq<Json>): (r: Result<string>)
    ensures r == Ok("") <==> forall i :: 0 <= i < |vals| ==> Skipped(vals[i])
    ensures r.Ok? && r.value != "" ==>
      exists i :: 0 <= i < |vals| && vals[i].JStr? && r.value == Strip(vals[i].s)
                  && forall t :: 0 <= t < i ==> Skipped(vals[t])
    ensures r.Err? ==>
      exists i :: 0 <= i < |vals| && !Skipped(vals[i]) && !vals[i].JStr?
                  && r.message == AttributeError(vals[i], "strip")
                  && forall t :: 0 <= t < i ==> Skipped(vals[t])
  {
    var i := FirstKeptIndex(vals);
    if i == |vals| then Ok("")
    else if vals[i].JStr? then
      StripEmptyIffBlank(vals[i].s);
      Ok(Strip(vals[i].s))
    else Err(AttributeError(vals[i], "strip"))
  }

  /** The JSON strings holding `ss`, in order. */
  function Strs(ss: seq<string>): (r: seq<Json>)
    ensures |r| == |ss| && forall k :: 0 <= k < |ss| ==> r[k] == JStr(ss[k])
  {
    if ss == [] then [] else [JStr(ss[0])] + Strs(ss[1..])
  }

  /** A string is passed over exactly when it is blank. */
  lemma SkippedString(x: string)
    ensures Skipped(JStr(x)) <==> Blank(x)
  {
  }

  /** On strings both choosers stop at the same place. */
  lemma {:induction false} KeptIndexStrings(ss: seq<string>)
    ensures FirstKeptIndex(Strs(ss)) == FirstNonBlankIndex(ss)
    decreases |ss|
  {
    if ss != [] {
      SkippedString(ss[0]);
      if Blank(ss[0]) {
        assert Strs(ss)[1..] == Strs(ss[1..]);
        KeptIndexStrings(ss[1..]);
      }
    }
  }

  /** On strings it is the chooser every parser shares. */
  lemma FirstNonEmptyStrings(ss: seq<string>)
    ensures FirstNonEmpty(Strs(ss)) == Ok(FirstNonBlank(ss))
  {
    KeptIndexStrings(ss);
  }

  /** A source consulted after a first choice gives the same as one chooser
      over all the sources in order, so "CSS, then JSON-LD, then
      `__NEXT_DATA__`" is one first-non-blank over the three. */
  lemma FirstNonBlankNested(a: string, b: string, c: string)
    ensures FirstNonBlank([FirstNonBlank([a, b]), c]) == FirstNonBlank([a, b, c])
  {
    var ab := [a, b];
    var abc := [a, b, c];
    var x := FirstNonBlank(ab);
    var outer := [x, c];
    if !Blank(a) {
      assert FirstNonBlankIndex(ab) == 0 && FirstNonBlankIndex(abc) == 0;
      assert x == Strip(a);
      StripNotBlank(a);
      assert FirstNonBlankIndex(outer) == 0;
      StripIdempotent(a);
    } else if !Blank(b) {
      assert FirstNonBlankIndex(ab[1..]) == 0;
      assert FirstNonBlankIndex(ab) == 1;
      assert abc[1..] == [b, c];
      assert FirstNonBlankIndex(abc[1..]) == 0;
      assert FirstNonBlankIndex(abc) == 1;
      assert x == Strip(b);
      StripNotBlank(b);
      assert FirstNonBlankIndex(outer) == 0;
      StripIdempotent(b);
    } else {
      assert FirstNonBlankIndex(ab) == 2;
      assert x == "";
      assert abc[1..] == [b, c] && abc[1..][1..] == [c] && outer[1..] == [c];
      assert FirstNonBlankIndex(abc) == 2 + FirstNonBlankIndex([c]);
      assert FirstNonBlankIndex(outer) == 1 + FirstNonBlankIndex([c]);
    }
  }

  /** A string with content keeps it when stripped. */
  lemma StripNotBlank(s: string)
    requires !Blank(s)
    ensures !Blank(Strip(s))
  {
    StripEmptyIffBlank(s);
    StripIdempotent(s);
    StripEmptyIffBlank(Strip(s));
  }

  // ---------------------------------------------------------------- _search_dict

  /** `_search_dict(obj, keys)`: depth first, in key and list order; at each
      dict the value of the first key whose lower-cased name is in `keys` is
      returned before any later key is looked at, even when that value is
      `null`. `JNull` stands for Python's `None`, the "not found" answer. */
  function Search(j: Json, keys: set<string>): (r: Json)
    ensures r != JNull ==> Holds(j, keys, r)
    ensures !HasKey(j, keys) ==> r == JNull
    decreases j, 1
  {
    match j
    case JObj(_) => SearchMembers(j, keys, 0)
    case JArr(_) => SearchItems(j, keys, 0)
    case _ => JNull
  }

  function SearchMembers(o: Json, keys: set<string>, i: nat): (r: Json)
    requires o.JObj?
    ensures r != JNull ==> exists k :: i <= k < |o.members| && HoldsAt(o, keys, r, k)
    ensures (forall k :: i <= k < |o.members| ==> !KeyAt(o, keys, k)) ==> r == JNull
    decreases o, 0, |o.members| - i
  {
    if i >= |o.members| then JNull
    else if Lower(o.members[i].key) in keys then
      var v := o.members[i].value;
      assert HoldsAt(o, keys, v, i) && KeyAt(o, keys, i);
      v
    else
      var f := Search(o.members[i].value, keys);
      assert f != JNull ==> HoldsAt(o, keys, f, i) && KeyAt(o, keys, i);
      if f != JNull then f else SearchMembers(o, keys, i + 1)
  }

  function SearchItems(a: Json, keys: set<string>, i: nat): (r: Json)
    requires a.JArr?
    ensures r != JNull ==> exists k :: i <= k < |a.items| && Holds(a.items[k], keys, r)
    ensures (forall k :: i <= k < |a.items| ==> !HasKey(a.items[k], keys)) ==> r == JNull
    decreases a, 0, |a.items| - i
  {
    if i >= |a.items| then JNull
    else
      var f := Search(a.items[i], keys);
      if f != JNull then f else SearchItems(a, keys, i + 1)
  }

  /** The search of dict o ends at member k: its key is in `keys`, or the
      search of its value finds something. */
  predicate StopsAt(o: Json, keys: set<string>, k: nat)
    requires o.JObj? && k < |o.members|
  {
    Lower(o.members[k].key) in keys || Search(o.members[k].value, keys) != JNull
  }

  /** What the search of dict o answers when it ends at member k: the value
      of a matching key, even `null`, else what was found below it. */
  function AnswerAt(o: Json, keys: set<string>, k: nat): Json
    requires o.JObj? && k < |o.members|
  {
    if Lower(o.members[k].key) in keys then o.members[k].value else Search(o.members[k].value, keys)
  }

  /** Depth first, first key wins: the search of a dict from member i
      answers for the first member k at which it ends, whatever the later
      members hold. */
  lemma {:induction false} SearchMembersFirstStop(o: Json, keys: set<string>, i: nat, k: nat)
    requires o.JObj? && i <= k < |o.members| && StopsAt(o, keys, k)
    requires forall t :: i <= t < k ==> !StopsAt(o, keys, t)
    ensures SearchMembers(o, keys, i) == AnswerAt(o, keys, k)
    decreases k - i
  {
    if i < k {
      assert !StopsAt(o, keys, i);
      SearchMembersFirstStop(o, keys, i + 1, k);
    }
  }

  /** A dict in which the search ends at no member from i on answers `None`. */
  lemma {:induction false} SearchMembersNoStop(o: Json, keys: set<string>, i: nat)
    requires o.JObj? && forall t :: i <= t < |o.members| ==> !StopsAt(o, keys, t)
    ensures SearchMembers(o, keys, i) == JNull
    decreases |o.members| - i
  {
    if i < |o.members| {
      assert !StopsAt(o, keys, i);
      SearchMembersNoStop(o, keys, i + 1);
    }
  }

  /** In a list the first item whose search finds something gives the answer. */
  lemma {:induction false} SearchItemsFirstFound(a: Json, keys: set<string>, i: nat, k: nat)
    requires a.JArr? && i <= k < |a.items| && Search(a.items[k], keys) != JNull
    requires forall t :: i <= t < k ==> Search(a.items[t], keys) == JNull
    ensures SearchItems(a, keys, i) == Search(a.items[k], keys)
    decreases k - i
  {
    if i < k {
      SearchItemsFirstFound(a, keys, i + 1, k);
    }
  }

  /** A list none of whose items from i on holds a match answers `None`. */
  lemma {:induction false} SearchItemsNoneFound(a: Json, keys: set<string>, i: nat)
    requires a.JArr? && forall t :: i <= t < |a.items| ==> Search(a.items[t], keys) == JNull
    ensures SearchItems(a, keys, i) == JNull
    decreases |a.items| - i
  {
    if i < |a.items| {
      SearchItemsNoneFound(a, keys, i + 1);
    }
  }

  /** Member k of dict o has a key in `keys` with value v, or holds one below it. */
  ghost predicate HoldsAt(o: Json, keys: set<string>, v: Json, k: nat)
    requires o.JObj? && k < |o.members|
    decreases o, 0
  {
    (Lower(o.members[k].key) in keys && o.members[k].value == v) || Holds(o.members[k].value, keys, v)
  }

  /** Somewhere in j a key in `keys` (lower-cased) maps to v. */
  ghost predicate Holds(j: Json, keys: set<string>, v: Json)
    decreases j, 1
  {
    match j
    case JObj(ms) => exists k :: 0 <= k < |ms| && HoldsAt(j, keys, v, k)
    case JArr(items) => exists k :: 0 <= k < |items| && Holds(items[k], keys, v)
    case _ => false
  }

  /** Member k of dict o has a key in `keys`, or one below it. */
  ghost predicate KeyAt(o: Json, keys: set<string>, k: nat)
    requires o.JObj? && k < |o.members|
    decreases o, 0
  {
    Lower(o.members[k].key) in keys || HasKey(o.members[k].value, keys)
  }

  /** Somewhere in j there is a key in `keys` (lower-cased). */
  ghost predicate HasKey(j: Json, keys: set<string>)
    decreases j, 1
  {
    match j
    case JObj(ms) => exists k :: 0 <= k < |ms| && KeyAt(j, keys, k)
    case JArr(items) => exists k :: 0 <= k < |items| && HasKey(items[k], keys)
    case _ => false
  }

  /** A matching key whose value is `null` ends the search of its dict: the
      later key "name" is never looked at, and the search reports nothing. */
  lemma NullMatchHidesLaterKey()
    ensures var o := JObj([Member("title", JNull), Member("name", JStr("z"))]);
      Search(o, {"title", "name"}) == JNull && Holds(o, {"title", "name"}, JStr("z"))
  {
    var o := JObj([Member("title", JNull), Member("name", JStr("z"))]);
    var keys := {"title", "name"};
    assert Lower("title") == "title";
    assert Lower("name") == "name";
    assert HoldsAt(o, keys, JStr("z"), 1);
  }

  /** The search goes down into a value before it looks at the later keys. */
  lemma DepthFirst()
    ensures Search(JObj([Member("a", JObj([Member("name", JStr("x"))])), Member("name", JStr("y"))]), {"name"}) == JStr("x")
  {
    assert Lower("a") == "a";
    assert Lower("name") == "name";
    var inner := JObj([Member("name", JStr("x"))]);
    assert Search(inner, {"name"}) == JStr("x");
  }

  // ---------------------------------------------------------------- JSON-LD

  /** What `_from_json_ld` has collected so far: a key is present once
      `setdefault` has stored it. */
  datatype LdData = LdData(title: Option<string>, description: Option<string>,
                           price: Option<string>, image: Option<Json>)

  const NoLdData := LdData(None, None, None, None)

  /** The `@type` values whose object is read, compared after lower-casing. */
  const AcceptedTypes: seq<string> :=
    ["product", "offer", "apartment", "house", "place", "realestateagent", "newsarticle", "article", "webpage"]

  /** `str(c.get("@type", "")).lower()`. */
  function LdType(c: Json): string
    requires c.JObj?
  {
    Lower(Str(GetOr(c, "@type", JStr(""))))
  }

  predicate Accepted(c: Json)
  {
    c.JObj? && LdType(c) in AcceptedTypes
  }

  /** `d.setdefault(k, v)`: the stored value stays, an absent key takes v. */
  function SetDefault<T>(cur: Option<T>, v: T): (r: Option<T>)
    ensures r.Some?
    ensures cur.Some? ==> r == cur
    ensures cur.None? ==> r == Some(v)
  {
    if cur.Some? then cur else Some(v)
  }

  /** `f"{price} {currency}".strip()`, as the code builds the price text. */
  function PriceTextAsWritten(price: Json, currency: Json): string
  {
    Strip(Str(price) + " " + Str(currency))
  }

  /** With no currency anywhere, `currency` is `None` and the text reads "5000 None". */
  lemma PriceTextAsWrittenShowsNone()
    ensures PriceTextAsWritten(JStr("5000"), JNull) == "5000 None"
  {
    var t := "5000 None";
    assert Str(JStr("5000")) + " " + Str(JNull) == t;
    assert !IsSpace(t[0]) && !IsSpace(t[|t| - 1]);
    assert TrimLeft(t, IsSpace) == t;
    assert TrimRight(t, IsSpace) == t;
  }

  /** The price text with a missing (falsy) currency left out. */
  function PriceText(price: Json, currency: Json): (r: string)
    ensures !Truthy(currency) ==> r == Strip(Str(price))
  {
    if Truthy(currency) then Strip(Str(price) + " " + Str(currency)) else Strip(Str(price))
  }

  /** The corrected text agrees with the code whenever a currency string is
      present, and a missing currency reads like an empty one. */
  lemma PriceTextMatchesWhenCurrencyIsString(price: Json, currency: string)
    ensures PriceText(price, JStr(currency)) == PriceTextAsWritten(price, JStr(currency))
    ensures PriceText(price, JNull) == PriceTextAsWritten(price, JStr(""))
  {
    var p := Str(price);
    assert p + " " + "" == p + " ";
    StripTrailingSpace(p);
  }

  /** A trailing space is stripped anyway. */
  lemma StripTrailingSpace(s: string)
    ensures Strip(s + " ") == Strip(s)
  {
    var l := TrimLeft(s, IsSpace);
    TrimLeftAppendSpace(s);
    assert TrimLeft(s + " ", IsSpace) == if l == [] then [] else l + " ";
    if l != [] {
      assert (l + " ")[..|l + " "| - 1] == l;
    }
  }

  lemma {:induction false} TrimLeftAppendSpace(s: string)
    ensures var l := TrimLeft(s, IsSpace);
      TrimLeft(s + " ", IsSpace) == if l == [] then [] else l + " "
    decreases |s|
  {
    if s == [] {
      assert s + " " == " ";
      assert " "[1..] == [];
    } else if IsSpace(s[0]) {
      assert (s + " ")[1..] == s[1..] + " ";
      TrimLeftAppendSpace(s[1..]);
    }
  }

  /** `c.get("offers") or {}`, and of a list its first element ({} for an
      empty one). */
  function Offers(c: Json): (r: Json)
    requires c.JObj?
    ensures !Truthy(GetOr(c, "offers", JNull)) ==> r == JObj([])
    ensures GetOr(c, "offers", JNull).JArr? && GetOr(c, "offers", JNull).items != [] ==> r == GetOr(c, "offers", JNull).items[0]
  {
    var offers0 := Or(GetOr(c, "offers", JNull), JObj([]));
    if offers0.JArr? then (if offers0.items != [] then offers0.items[0] else JObj([])) else offers0
  }

  /** `offers.get("price") or c.get("price")`; `None` where offers is not a dict. */
  function LdPrice(c: Json): (r: Json)
    requires c.JObj?
    ensures Offers(c).JObj? && Truthy(GetOr(Offers(c), "price", JNull)) ==> r == GetOr(Offers(c), "price", JNull)
    ensures Offers(c).JObj? && !Truthy(GetOr(Offers(c), "price", JNull)) ==> r == GetOr(c, "price", JNull)
  {
    var offers := Offers(c);
    if offers.JObj? then Or(GetOr(offers, "price", JNull), GetOr(c, "price", JNull)) else JNull
  }

  /** `offers.get("priceCurrency") or c.get("currency")`. */
  function LdCurrency(c: Json): (r: Json)
    requires c.JObj?
    ensures Offers(c).JObj? && Truthy(GetOr(Offers(c), "priceCurrency", JNull)) ==> r == GetOr(Offers(c), "priceCurrency", JNull)
    ensures Offers(c).JObj? && !Truthy(GetOr(Offers(c), "priceCurrency", JNull)) ==> r == GetOr(c, "currency", JNull)
  {
    var offers := Offers(c);
    if offers.JObj? then Or(GetOr(offers, "priceCurrency", JNull), GetOr(c, "currency", JNull)) else JNull
  }

  /** `c.get("image")`, and of a list its first element ("" for an empty one). */
  function CandidateImage(c: Json): (r: Json)
    requires c.JObj?
    ensures !GetOr(c, "image", JNull).JArr? ==> r == GetOr(c, "image", JNull)
    ensures GetOr(c, "image", JNull).JArr? && GetOr(c, "image", JNull).items != [] ==> r == GetOr(c, "image", JNull).items[0]
  {
    var img0 := GetOr(c, "image", JNull);
    if img0.JArr? then (if img0.items != [] then img0.items[0] else JStr("")) else img0
  }

  /** The title and description candidates of an object. */
  function TitleVals(c: Json): seq<Json>
    requires c.JObj?
  {
    [GetOr(c, "name", JStr("")), GetOr(c, "headline", JStr(""))]
  }

  function DescriptionVals(c: Json): seq<Json>
    requires c.JObj?
  {
    [GetOr(c, "description", JStr(""))]
  }

  /** One candidate object, the body of the inner loop of `_from_json_ld`:
      a value is stored only under a key still absent, the title and the
      description always (as "" when the object has none), the price only
      from a truthy price and the image only from a truthy image. */
  function LdCandidate(d: LdData, c: Json): (r: Result<LdData>)
    ensures !Accepted(c) ==> r == Ok(d)
    ensures r.Ok? ==> Keeps(d, r.value)
    ensures r.Ok? ==> (r.value.title.Some? <==> d.title.Some? || Accepted(c))
    ensures r.Ok? ==> (r.value.description.Some? <==> d.description.Some? || Accepted(c))
    ensures r.Ok? && ImageTruthy(d) ==> ImageTruthy(r.value)
    ensures Accepted(c) ==> (r.Err? <==> FirstNonEmpty(TitleVals(c)).Err? || FirstNonEmpty(DescriptionVals(c)).Err?
                                          || !Offers(c).JObj?)
    ensures r.Ok? && Accepted(c) && d.title.None? ==> r.value.title == Some(FirstNonEmpty(TitleVals(c)).value)
    ensures r.Ok? && Accepted(c) && d.description.None? ==>
      r.value.description == Some(FirstNonEmpty(DescriptionVals(c)).value)
    ensures r.Ok? && d.price.None? ==> (r.value.price.Some? <==> Accepted(c) && Truthy(LdPrice(c)))
    ensures r.Ok? && d.price.None? && r.value.price.Some? ==>
      r.value.price.value == PriceTextAsWritten(LdPrice(c), LdCurrency(c))
    ensures r.Ok? && d.image.None? ==> (r.value.image.Some? <==> Accepted(c) && Truthy(CandidateImage(c)))
    ensures r.Ok? && d.image.None? && r.value.image.Some? ==> r.value.image.value == CandidateImage(c)
  {
    if !Accepted(c) then Ok(d)
    else
      match FirstNonEmpty(TitleVals(c))
      case Err(m) => Err(m)
      case Ok(title) =>
        match FirstNonEmpty(DescriptionVals(c))
        case Err(m) => Err(m)
        case Ok(desc) =>
          if !Offers(c).JObj? then Err(AttributeError(Offers(c), "get"))
          else
            var price := LdPrice(c);
            var img := CandidateImage(c);
            Ok(LdData(SetDefault(d.title, title),
                      SetDefault(d.description, desc),
                      if Truthy(price) then SetDefault(d.price, PriceTextAsWritten(price, LdCurrency(c))) else d.price,
                      if Truthy(img) then SetDefault(d.image, img) else d.image))
  }

  /** Nothing already stored is changed: `setdefault` only adds. */
  predicate Keeps(d: LdData, e: LdData)
  {
    && (d.title.Some? ==> e.title == d.title)
    && (d.description.Some? ==> e.description == d.description)
    && (d.price.Some? ==> e.price == d.price)
    && (d.image.Some? ==> e.image == d.image)
  }

  /** An image is stored only from a truthy value. */
  predicate ImageTruthy(d: LdData)
  {
    d.image.Some? ==> Truthy(d.image.value)
  }

  /** The candidates of one parsed script: a list's items, or the value itself. */
  function Candidates(obj: Json): seq<Json>
  {
    if obj.JArr? then obj.items else [obj]
  }

  /** The candidates of one script, from the left. */
  function LdCandidates(d: LdData, cs: seq<Json>): (r: Result<LdData>)
    ensures r.Ok? ==> Keeps(d, r.value)
    ensures r.Ok? && ImageTruthy(d) ==> ImageTruthy(r.value)
    decreases |cs|
  {
    if cs == [] then Ok(d)
    else
      match LdCandidates(d, cs[..|cs| - 1])
      case Err(m) => Err(m)
      case Ok(e) => LdCandidate(e, cs[|cs| - 1])
  }

  /** One script: a falsy parse result (a failed parse is `None`) is skipped. */
  function LdScript(d: LdData, obj: Json): (r: Result<LdData>)
    ensures r.Ok? ==> Keeps(d, r.value)
    ensures r.Ok? && ImageTruthy(d) ==> ImageTruthy(r.value)
  {
    if !Truthy(obj) then Ok(d) else LdCandidates(d, Candidates(obj))
  }

  /** `_from_json_ld`: every `application/ld+json` script in document order;
      a script whose text does not parse is given as `JNull`. */
  function JsonLd(scripts: seq<Json>): (r: Result<LdData>)
    ensures r.Ok? ==> ImageTruthy(r.value)
    decreases |scripts|
  {
    if scripts == [] then Ok(NoLdData)
    else
      match JsonLd(scripts[..|scripts| - 1])
      case Err(m) => Err(m)
      case Ok(d) => LdScript(d, scripts[|scripts| - 1])
  }

  /** A value stored by an earlier script is never replaced by a later one. */
  lemma {:induction false} JsonLdFirstWins(pre: seq<Json>, post: seq<Json>)
    requires JsonLd(pre).Ok? && JsonLd(pre + post).Ok?
    ensures Keeps(JsonLd(pre).value, JsonLd(pre + post).value)
    decreases |post|
  {
    if post == [] {
      assert pre + post == pre;
    } else {
      var all := pre + post;
      assert all[..|all| - 1] == pre + post[..|post| - 1];
      JsonLdFirstWins(pre, post[..|post| - 1]);
    }
  }

  /** An accepted object fixes the title even when it has neither `name` nor
      `headline`: the title becomes "" and no later object can set it. */
  lemma TitleFixedEvenIfEmpty(d: LdData, c: Json)
    requires d.title.None? && Accepted(c)
    requires Get(c.members, "name").None? && Get(c.members, "headline").None?
    requires LdCandidate(d, c).Ok?
    ensures LdCandidate(d, c).value.title == Some("")
  {
    var vals := [JStr(""), JStr("")];
    assert FirstNonEmpty(vals) == Ok("") by {
      assert forall i :: 0 <= i < |vals| ==> Skipped(vals[i]);
    }
  }

  /** An exception raised by a candidate ends the script: later candidates
      do not run. */
  lemma {:induction false} CandidatesErrStays(d: LdData, cs: seq<Json>, k: nat)
    requires k <= |cs| && LdCandidates(d, cs[..k]).Err?
    ensures LdCandidates(d, cs) == LdCandidates(d, cs[..k])
    decreases |cs|
  {
    if k < |cs| {
      var init := cs[..|cs| - 1];
      assert init[..k] == cs[..k];
      CandidatesErrStays(d, init, k);
    } else {
      assert cs[..k] == cs;
    }
  }

  /** An exception raised in a script ends `_from_json_ld`. */
  lemma {:induction false} ScriptsErrStays(scripts: seq<Json>, k: nat)
    requires k <= |scripts| && JsonLd(scripts[..k]).Err?
    ensures JsonLd(scripts) == JsonLd(scripts[..k])
    decreases |scripts|
  {
    if k < |scripts| {
      var init := scripts[..|scripts| - 1];
      assert init[..k] == scripts[..k];
      ScriptsErrStays(init, k);
    } else {
      assert scripts[..k] == scripts;
    }
  }

  /** One more candidate extends the fold by one step. */
  lemma CandidatesStep(d: LdData, cs: seq<Json>, i: nat)
    requires i < |cs| && LdCandidates(d, cs[..i]).Ok?
    ensures LdCandidates(d, cs[..i + 1]) == LdCandidate(LdCandidates(d, cs[..i]).value, cs[i])
  {
    assert cs[..i + 1][..i] == cs[..i];
  }

  /** The inner loop of `_from_json_ld`: the candidates of one script applied
      to `start` in order; an exception ends the loop. */
  method FromScript(start: LdData, obj: Json) returns (r: Result<LdData>)
    ensures r == LdScript(start, obj)
  {
    if !Truthy(obj) {
      return Ok(start);
    }
    var cs := Candidates(obj);
    var data := start;
    var i := 0;
    while i < |cs|
      invariant 0 <= i <= |cs|
      invariant LdCandidates(start, cs[..i]) == Ok(data)
    {
      CandidatesStep(start, cs, i);
      var step := LdCandidate(data, cs[i]);
      if step.Err? {
        CandidatesErrStays(start, cs, i + 1);
        return step;
      }
      data := step.value;
      i := i + 1;
    }
    assert cs[..i] == cs;
    r := Ok(data);
  }

  /** `_from_json_ld` with nested loops, as the code runs it: each accepted
      candidate applies its `setdefault`s to `data`; an exception ends the run. */
  method FromJsonLd(scripts: seq<Json>) returns (r: Result<LdData>)
    ensures r == JsonLd(scripts)
  {
    var data := NoLdData;
    var s := 0;
    while s < |scripts|
      invariant 0 <= s <= |scripts|
      invariant JsonLd(scripts[..s]) == Ok(data)
    {
      assert scripts[..s + 1][..s] == scripts[..s];
      var step := FromScript(data, scripts[s]);
      if step.Err? {
        ScriptsErrStays(scripts, s + 1);
        return step;
      }
      data := step.value;
      s := s + 1;
    }
    assert scripts[..s] == scripts;
    r := Ok(data);
  }

  // ---------------------------------------------------------------- __NEXT_DATA__

  const TitleKeys: set<string> := {"subject", "title", "name", "headline"}
  const DescriptionKeys: set<string> := {"body", "description", "content"}
  const PriceKeys: set<string> := {"price_string", "price"}
  const AreaKeys: set<string> := {"area", "size", "square"}
  const ImageKeys: set<string> := {"images", "image"}
  const SellerKeys: set<string> := {"sellername", "seller_name", "accountname", "name"}
  const PhoneKeys: set<string> := {"phone", "phonenum", "phone_number"}

  /** `v = _search_dict(obj, keys); if v: data[k] = str(v)`: the text of the
      value found, when it is truthy. */
  function Field(obj: Json, keys: set<string>): (r: Option<string>)
    ensures r.Some? ==> r.value != "" && exists v :: Holds(obj, keys, v) && Truthy(v) && r.value == Str(v)
    ensures !HasKey(obj, keys) ==> r.None?
  {
    var v := Search(obj, keys);
    if Truthy(v) then StrShape(v); Some(Str(v)) else None
  }

  /** `d.get("full_path") or d.get("url") or ""` on a dict. */
  function PathOrUrl(d: Json): (r: Json)
    requires d.JObj?
    ensures Truthy(r) ==> Get(d.members, "full_path") == Some(r)
                          || (Get(d.members, "url") == Some(r) && !Truthy(GetOr(d, "full_path", JNull)))
  {
    Or(Or(GetOr(d, "full_path", JNull), GetOr(d, "url", JNull)), JStr(""))
  }

  /** The image picked from what the image search found: for a non-empty
      list, its first element's `full_path`/`url` when that element is a dict,
      or the element itself when it is a string; for a dict, its own
      `full_path`/`url`; anything else gives "". */
  function NextImage(images: Json): (r: Json)
    ensures Truthy(r) ==>
      (images.JArr? && images.items != [] &&
         ((images.items[0].JObj? && r == PathOrUrl(images.items[0]))
          || (images.items[0].JStr? && r == images.items[0])))
      || (images.JObj? && r == PathOrUrl(images))
    ensures images.JArr? && images.items != [] && images.items[0].JObj? ==> r == PathOrUrl(images.items[0])
    ensures images.JArr? && images.items != [] && images.items[0].JStr? ==> r == images.items[0]
    ensures images.JObj? ==> r == PathOrUrl(images)
    ensures (images.JArr? && images.items != [] && !images.items[0].JObj? && !images.items[0].JStr?) ==> r == JStr("")
    ensures !(images.JArr? && images.items != []) && !images.JObj? ==> r == JStr("")
  {
    if images.JArr? && images.items != [] then
      var first := images.items[0];
      if first.JObj? then PathOrUrl(first)
      else if first.JStr? then first
      else JStr("")
    else if images.JObj? then PathOrUrl(images)
    else JStr("")
  }

  /** What `_from_next_data` returns; an absent key is `None`. */
  datatype NextData = NextData(title: Option<string>, description: Option<string>,
                               price: Option<string>, area: Option<string>,
                               image: Option<string>, name: Option<string>, phone: Option<string>)

  const NoNextData := NextData(None, None, None, None, None, None, None)

  /** `_from_next_data`: `nd` is the `__NEXT_DATA__` script's parsed content
      (`None` when the script is missing; a text that does not parse is
      `JNull`). Every stored value is non-empty text. */
  function FromNextData(nd: Option<Json>): (r: NextData)
    ensures nd.None? || !Truthy(nd.value) ==> r == NoNextData
    ensures nd.Some? ==> r.title == Field(nd.value, TitleKeys) && r.description == Field(nd.value, DescriptionKeys)
    ensures nd.Some? && Truthy(nd.value) ==>
      r.price == Field(nd.value, PriceKeys) && r.area == Field(nd.value, AreaKeys) && r.name == Field(nd.value, SellerKeys)
    ensures nd.Some? && Truthy(nd.value) ==>
      r.image == (if Truthy(NextImage(Search(nd.value, ImageKeys))) then Some(Str(NextImage(Search(nd.value, ImageKeys)))) else None)
    ensures nd.Some? && Truthy(nd.value) ==>
      r.phone == (if Truthy(Search(nd.value, PhoneKeys)) then Some(CleanPhone(Str(Search(nd.value, PhoneKeys)))) else None)
    ensures r.image.Some? ==> r.image.value != ""
    ensures r.phone.Some? ==> AllOf(r.phone.value, IsPhoneChar)
  {
    if nd.None? || !Truthy(nd.value) then NoNextData
    else
      var obj := nd.value;
      var img := NextImage(Search(obj, ImageKeys));
      var phone := Search(obj, PhoneKeys);
      StrShape(img);
      NextData(Field(obj, TitleKeys), Field(obj, DescriptionKeys), Field(obj, PriceKeys),
               Field(obj, AreaKeys),
               if Truthy(img) then Some(Str(img)) else None,
               Field(obj, SellerKeys),
               if Truthy(phone) then Some(CleanPhone(Str(phone))) else None)
  }

  // ---------------------------------------------------------------- parse

  /** What the parser reads from a page: for each field, the element `sel1`
      finds for its combined long and short selector; the `og:image` meta
      tag; the first `tel:` anchor; the parsed `application/ld+json` scripts;
      the parsed `__NEXT_DATA__` script; and the page's whole text. */
  datatype Page = Page(
    title: Option<Node>, price: Option<Node>, area: Option<Node>, desc: Option<Node>,
    og: Option<Node>, img: Option<Node>, name: Option<Node>, phone: Option<Node>,
    tel: Option<Node>,
    ldScripts: seq<Json>,
    nextData: Option<Json>,
    text: string)

  /** `d.get(k, "")` on a string-valued dict. */
  function OrEmpty(v: Option<string>): (r: string)
    ensures v.None? ==> r == ""
    ensures v.Some? ==> r == v.value
  {
    if v.Some? then v.value else ""
  }

  /** The image the selectors give: the stripped `og:image` content, else the
      image element's `src` or `data-src`, stripped. */
  function CssImage(p: Page): (r: string)
    ensures OgContent(p.og) != "" ==> r == OgContent(p.og)
    ensures OgContent(p.og) == "" && p.img.Some? ==> r == Strip(FirstAttr(p.img.value, ["src", "data-src"]))
    ensures OgContent(p.og) == "" && p.img.None? ==> r == ""
    ensures Strip(r) == r
  {
    var og := OgContent(p.og);
    StripIdempotent(if p.og.Some? then AttrOrEmpty(p.og.value, "content") else "");
    StripIdempotent(if p.img.Some? then FirstAttr(p.img.value, ["src", "data-src"]) else "");
    if og != "" then og
    else match p.img
      case Some(img) => Strip(FirstAttr(img, ["src", "data-src"]))
      case None => ""
  }

  /** The phone the selectors give: the phone element's text cleaned to digits
      and `+`, else the first `tel:` anchor's. */
  function CssPhone(p: Page): (r: string)
    ensures AllOf(r, IsPhoneChar)
    ensures CleanPhone(TextOrEmpty(p.phone)) != "" ==> r == CleanPhone(TextOrEmpty(p.phone))
    ensures CleanPhone(TextOrEmpty(p.phone)) == "" ==> r == TelPhone(p.tel)
  {
    var phone := CleanPhone(TextOrEmpty(p.phone));
    if phone != "" then phone else TelPhone(p.tel)
  }

  /** A value that is already stripped and not empty is chosen first by
      either chooser. */
  lemma StrippedKept(x: string, a: Json, b: string)
    requires Strip(x) == x
    ensures x != "" ==> FirstNonEmpty([JStr(x), a]) == Ok(x)
    ensures x != "" ==> FirstNonBlank([x, b]) == x
  {
    if x == "" {
      return;
    }
    StripEmptyIffBlank(x);
    assert !Blank(x);
    assert FirstKeptIndex([JStr(x), a]) == 0;
    assert FirstNonBlankIndex([x, b]) == 0;
  }

  /** `parse(link, html)`. The JSON-LD step can raise (a truthy non-string
      `name`, `headline`, `description` or image, or `offers` that is not a
      dict), and then so does `parse`. */
  function Parse(link: string, p: Page): (r: Result<Record>)
    ensures JsonLd(p.ldScripts).Err? ==> r.Err?
    ensures r.Ok? ==> r.value.link == link && r.value.source.None?
  {
    match JsonLd(p.ldScripts)
    case Err(m) => Err(m)
    case Ok(jd) =>
      match FirstNonEmpty([JStr(CssImage(p)), LdImage(jd)])
      case Err(m) => Err(m)
      case Ok(image) =>
        var nd := FromNextData(p.nextData);
        var title := FirstNonBlank([TextOrEmpty(p.title), OrEmpty(jd.title)]);
        var price := FirstNonBlank([TextOrEmpty(p.price), OrEmpty(jd.price)]);
        var desc := FirstNonBlank([TextOrEmpty(p.desc), OrEmpty(jd.description)]);
        var area := FirstNonBlank([TextOrEmpty(p.area), OrEmpty(nd.area)]);
        var name := FirstNonBlank([TextOrEmpty(p.name), OrEmpty(nd.name)]);
        var phone := FirstNonBlank([CssPhone(p), OrEmpty(nd.phone)]);
        Ok(Record(link,
                  FirstNonBlank([title, OrEmpty(nd.title)]),
                  FirstNonBlank([price, OrEmpty(nd.price)]),
                  AreaOr(area, p.text),
                  FirstNonBlank([desc, OrEmpty(nd.description)]),
                  FirstNonBlank([image, OrEmpty(nd.image)]),
                  Contact(name, phone),
                  None))
  }

  /** `jd.get("image", "")`. */
  function LdImage(jd: LdData): (r: Json)
    ensures jd.image.None? ==> r == JStr("")
  {
    if jd.image.Some? then jd.image.value else JStr("")
  }

  /** Each field is resolved on its own, as the first non-blank of its CSS
      value, its JSON-LD value and its `__NEXT_DATA__` value, in that order;
      the area, which JSON-LD does not give, falls back to the page text last. */
  lemma ParseFieldOrder(link: string, p: Page)
    requires Parse(link, p).Ok?
    ensures var r := Parse(link, p).value;
      var jd := JsonLd(p.ldScripts).value;
      var nd := FromNextData(p.nextData);
      && r.title == FirstNonBlank([TextOrEmpty(p.title), OrEmpty(jd.title), OrEmpty(nd.title)])
      && r.price == FirstNonBlank([TextOrEmpty(p.price), OrEmpty(jd.price), OrEmpty(nd.price)])
      && r.description == FirstNonBlank([TextOrEmpty(p.desc), OrEmpty(jd.description), OrEmpty(nd.description)])
      && r.area == AreaOr(FirstNonBlank([TextOrEmpty(p.area), OrEmpty(nd.area)]), p.text)
      && r.contact == Contact(FirstNonBlank([TextOrEmpty(p.name), OrEmpty(nd.name)]),
                              FirstNonBlank([CssPhone(p), OrEmpty(nd.phone)]))
  {
    var jd := JsonLd(p.ldScripts).value;
    var nd := FromNextData(p.nextData);
    FirstNonBlankNested(TextOrEmpty(p.title), OrEmpty(jd.title), OrEmpty(nd.title));
    FirstNonBlankNested(TextOrEmpty(p.price), OrEmpty(jd.price), OrEmpty(nd.price));
    FirstNonBlankNested(TextOrEmpty(p.desc), OrEmpty(jd.description), OrEmpty(nd.description));
  }

  /** An image found by the selectors is kept: JSON-LD and `__NEXT_DATA__`
      are not consulted for it, and cannot make the parse fail. */
  lemma ParseCssImageFirst(link: string, p: Page)
    requires JsonLd(p.ldScripts).Ok? && CssImage(p) != ""
    ensures Parse(link, p).Ok? && Parse(link, p).value.image == CssImage(p)
  {
    var jd := JsonLd(p.ldScripts).value;
    StrippedKept(CssImage(p), LdImage(jd), OrEmpty(FromNextData(p.nextData).image));
  }

  /** With no image from the selectors and a JSON-LD image that is text (or
      none, read as ""), the image is that text stripped when it is not
      blank, else the `__NEXT_DATA__` image. */
  lemma ParseLdImageText(link: string, p: Page)
    requires JsonLd(p.ldScripts).Ok? && CssImage(p) == ""
    requires LdImage(JsonLd(p.ldScripts).value).JStr?
    ensures Parse(link, p).Ok?
    ensures Parse(link, p).value.image ==
      FirstNonBlank([Strip(LdImage(JsonLd(p.ldScripts).value).s), OrEmpty(FromNextData(p.nextData).image)])
  {
    var s := LdImage(JsonLd(p.ldScripts).value).s;
    var vals := [JStr(""), JStr(s)];
    assert Skipped(vals[0]);
    StripEmptyIffBlank(s);
    if Blank(s) {
      assert Skipped(vals[1]);
      assert FirstNonEmpty(vals) == Ok("");
    } else {
      assert !Skipped(vals[1]);
      assert FirstKeptIndex(vals[1..]) == 0;
      assert FirstKeptIndex(vals) == 1;
    }
  }

  /** With no image from the selectors, a JSON-LD image that is a list's
      first element or a dict rather than a string makes `parse` raise. */
  lemma ParseImageNotText(link: string, p: Page)
    requires JsonLd(p.ldScripts).Ok? && CssImage(p) == ""
    requires JsonLd(p.ldScripts).value.image.Some? && !JsonLd(p.ldScripts).value.image.value.JStr?
    ensures Parse(link, p) == Err(AttributeError(JsonLd(p.ldScripts).value.image.value, "strip"))
  {
    var v := JsonLd(p.ldScripts).value.image.value;
    var vals := [JStr(""), v];
    assert Skipped(vals[0]) && !Skipped(vals[1]);
    assert FirstKeptIndex(vals[1..]) == 0;
    assert FirstKeptIndex(vals) == 1;
  }
}
