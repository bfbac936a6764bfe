# Real-estate listing scraper — a Dafny model of its core

The system searches for Vietnamese property listings and downloads the detail
pages. From each page it extracts a seven-field listing record:

- link, title, price, area, description, image, and contact.

A record may carry an eighth field: the fetch strategy that produced it.

Under its network and HTML-library calls sits deterministic logic, which this
project models and proves properties of:

- **String helpers.** The CSS-selector sanitiser, phone cleaners, the masked
  phone rule, the "name - phone" contact, the first-non-blank chooser, the
  `N m2` area pattern, the Vietnamese phone pattern, the price-label pattern,
  and the detail-URL classifier.
- **JSON.** The recursive key search and the JSON-LD / `__NEXT_DATA__` field
  pickers of the nhatot parser.
- **Per-site extraction cascades.** Each field tries its sources in a fixed
  order, and the first non-empty one wins.
- **Dispatch and failure handling.**
  - Site registry lookup.
  - `extract_one`.
  - `extract_info_generic`: unsupported, then captcha, then web cache, then an
    error record.
  - Fetch-strategy choice and HTTP status rules.
  - The browser fetch, whose context and browser are closed on every path.
- **Link harvesting.** Sub-link collection with its filter, deduplication,
  order and cap, and the `[3, 3, 2, 1, 1]` distribution over the top results.
- **The front end.** The paging state (`query`, `results`, `batch`) with its
  submit, load-more and reset transitions, the display arithmetic, and the
  truncation of descriptions.

Everything the system reads from outside is a parameter of the model:

- HTTP replies.
- The outcome of each browser step.
- The elements a CSS selector finds.
- The text of a page.
- Environment settings.
- What the URL library's `urljoin` returns for a non-empty reference.

Modules:

| file | module | models |
|---|---|---|
| text.dfy | Text | Python's `strip`/`rstrip`/`strip(" -")`, `lower`, `in`, `replace`, `str(int)` |
| patterns.dfy | Patterns | the area, Vietnamese-phone and price-label regular expressions |
| json.dfy | Json | JSON values, truthiness, `dict.get`, `or`, `str`/`repr` |
| utils_dom.dfy | UtilsDom | `_sanitize_selector`, `sel`, `sel1`, `text_or_empty` |
| listing.dfy | Listing | the record, the contact rule, `_first`, `_clean_phone`, shared fallbacks |
| alonhadat.dfy, batdongsan.dfy, guland.dfy, muaban.dfy, nhatot.dfy, i_batdongsan.dfy | one per site | each site's `parse` cascade |
| sites_registry.dfy | Sites | `SITE_REGISTRY` and `pick_site` |
| search_aggregator.dfy | Aggregator | `DETAIL_PATTERNS` and `extract_one` |
| fetchers.dfy | Fetchers | `fetch_requests`, `fetch_cloudscraper`, `fetch_playwright`, `get_html` |
| crawler.dfy | Crawler | `extract_info_generic` and its helpers |
| search_google.dfy | SearchGoogle | `get_top_links`, `get_sub_links`, `search_google` |
| streamlit_app.dfy | StreamlitApp | the session state and the display arithmetic |

The model follows the code, also where the code behaves in a way one would
not expect. In particular:

- `get_html` falls back to nothing: each strategy's failure is the result.
- The sub-link cap is checked after the append, so a cap of 0 still yields one
  link.
- The front end calls `search_google` with a keyword it does not accept. The
  `TypeError` handler then repeats the call without it.
- The guland and i_batdongsan parsers and the nhatot JSON-LD pass compute
  their image and price text as the code does. The corrected definitions
  listed under "## Findings" stand beside them, each related to the code's
  version by a proved property.

## Model

| member | source | states |
|---|---|---|
| Text.LeadCount | sites/utils_dom.py:11 | left trimming drops a leading run: every dropped character satisfies the predicate, and the first kept one does not |
| Text.TrailCount | search_google.py:29 | right trimming drops a trailing run: every dropped character satisfies the predicate, and the last kept one does not |
| Text.LeadCountAt | sites/utils_dom.py:11 | those two facts fix how many characters are dropped on the left |
| Text.TrailCountAt | search_google.py:29 | those two facts fix how many characters are dropped on the right |
| Text.TrimLeftAt | sites/utils_dom.py:11 | left trimming leaves exactly the suffix after the leading run of dropped characters |
| Text.TrimRightAt | search_google.py:29 | right trimming leaves exactly the prefix before the trailing run of dropped characters |
| Text.TrimLeftSkip | sites/guland.py:84 | skipping part of a leading run first does not change what left trimming leaves |
| Text.TrimBothUntouched | sites/alonhadat.py:44 | trimming both ends of a text whose end characters are kept changes nothing |
| Text.TrimBothSpec | sites/utils_dom.py:11 | trimming both ends keeps a contiguous slice and drops only matching characters on either side |
| Text.StripIsSlice | sites/utils_dom.py:11 | the stripped text is the slice of the input that starts where stripping stops on the left |
| Text.StripSpec | sites/utils_dom.py:11 | `strip()` keeps a contiguous middle part, drops only whitespace on either side, and leaves no whitespace at either end |
| Text.StripEmptyIffBlank | sites/guland.py:11-15 | a string strips to "" exactly when it is all whitespace |
| Text.StripIdempotent | sites/nhatot.py:40-44 | stripping twice is stripping once |
| Text.Lower | sites/__init__.py:27 | lower-casing keeps the length |
| Text.LowerCharIdempotent | sites/__init__.py:27 | lower-casing a character twice is lower-casing it once |
| Text.LowerIdempotent | sites/__init__.py:27 | lower-casing a string twice is lower-casing it once |
| Text.ContainsIff | sites/__init__.py:29 | `sub in s` holds exactly when `sub` occurs at some position of `s` |
| Text.ContainsAt | sites/__init__.py:29 | an occurrence at a position makes `sub in s` true |
| Text.OccursInSlice | sites/__init__.py:29 | an occurrence inside a slice of s is an occurrence in s |
| Text.StripBounds | sites/utils_dom.py:11 | the stripped text is the slice between where stripping stops on either side |
| Text.StrippedSliceInText | sites/alonhadat.py:21 | a stripped piece of s occurs in s |
| Text.SliceOfSliceInText | sites/alonhadat.py:21 | a piece of a piece of s occurs in s |
| Text.SliceOfSliceOccurs | sites/alonhadat.py:21 | a piece of a piece of s occurs in s where the two starts add up |
| Text.NotContainedInEmpty | sites/__init__.py:27-31 | no non-empty domain is contained in the empty host |
| Text.RemoveAll | sites/alonhadat.py:38 | `replace(p, "")` never lengthens its input |
| Text.RemoveAllAbsent | sites/alonhadat.py:38 | removing a pattern that does not occur changes nothing |
| Text.DigitChar | crawler.py:109 | a digit value maps to a decimal digit character |
| Text.NatToString | crawler.py:109 | `str(n)` is a non-empty string of decimal digits |
| Text.NatToStringRoundTrip | crawler.py:109 | reading back the decimal text of `n` gives `n` |
| Patterns.RunLength | sites/guland.py:57 | the greedy run from i: every character in it satisfies the predicate, and the one after does not |
| Patterns.AreaEndAt | sites/guland.py:57 | an end found at i is the end of a match of `(\d[\d\.,]*)\s*m(?:2\|²)\b` starting at i |
| Patterns.AreaShapeDetermined | sites/guland.py:57 | in a match the greedy `[\d\.,]*` and `\s*` each take the longest run |
| Patterns.AreaEndAtComplete | sites/guland.py:57 | every match starting at i is the one found there |
| Patterns.AreaNoneNoMatch | sites/guland.py:57 | when nothing is found at i, no match starts at i |
| Patterns.RunLengthAt | sites/guland.py:57 | a run's length is fixed by where the characters stop satisfying the class |
| Patterns.AreaFrom | sites/guland.py:57 | the leftmost area match at or after i, and no match before it; None only when there is none |
| Patterns.AreaSearch | sites/guland.py:57 | `re.search(...).group(0)` of the area pattern: None iff nothing matches; otherwise a matching slice of the text |
| Patterns.AreaSearchShape | sites/guland.py:57-59 | what the area pattern finds starts with a digit and ends in `m2`/`m²` (either case of `m`) |
| Patterns.AreaMatchText | sites/guland.py:57 | every area match starts with a digit and ends with the unit |
| Patterns.PhoneShapeDetermined | sites/guland.py:80 | a phone match at i fixes the prefix (`+84`, `84` or `0`) and takes the greedy run of at most 11 digits |
| Patterns.PhoneEndAt | sites/guland.py:80 | the match of `(?:\+?84\|0)\d{8,11}` at i is found exactly when one exists |
| Patterns.PhoneFrom | sites/guland.py:80 | the leftmost phone match at or after i; None only when there is none |
| Patterns.PhoneSearch | sites/guland.py:80-82 | None iff nothing matches; otherwise a matching slice of the text |
| Patterns.PhoneSearchShape | sites/guland.py:80-82 | a phone found is 9 to 14 characters, `+` only first, digits elsewhere |
| Patterns.PhoneMatchText | sites/guland.py:80-82 | the text of any match of `(?:\+?84\|0)\d{8,11}` is 9 to 14 characters, `+` only first, digits elsewhere |
| Patterns.LazyEnd | sites/alonhadat.py:20 | the lazy `.{0,n}?`: the first end at which the stop matches, within the bound and without crossing a newline |
| Patterns.CaptureEnd | sites/alonhadat.py:20 | the shortest capture `[^\s].{0,n}?` followed by the stop, or none exists |
| Patterns.AfterSpaces | sites/alonhadat.py:20 | where `\s*` stops: the longest whitespace run from j |
| Patterns.AfterColon | sites/alonhadat.py:20 | `\s*[:\-]\s*` can go on past a colon or dash exactly when one follows the spaces, and then it stops behind the spaces after it |
| Patterns.SeparatorStarts | sites/alonhadat.py:20 | both places where `\s*[:\-]?\s*` can stop are separator ends |
| Patterns.SeparatorEnds | sites/alonhadat.py:20 | a separator that stops before a non-space stops at one of those two places |
| Patterns.AfterColonAt | sites/alonhadat.py:20 | a colon or dash right behind the spaces takes the separator on to the spaces after it |
| Patterns.CaptureFrom | sites/alonhadat.py:20 | the shortest capture `[^\s].{0,n}?` plus stop from g; None only when no capture starts at g |
| Patterns.CaptureAfterLabel | sites/alonhadat.py:20 | a capture found after a label starts at or after the label's end |
| Patterns.CaptureAfterLabelSpec | sites/alonhadat.py:20 | the capture after a label follows a separator and is the shortest from its start; no later separator end starts a capture, as the greedy `\s*[:\-]?\s*` backs off only as far as it must; None exactly when no separator end starts a capture |
| Patterns.CaptureAfterLabelFinds | sites/alonhadat.py:20 | any separator end that starts a capture makes the capture after the label exist, starting there or later |
| Patterns.CaptureAfterLabelSound | sites/alonhadat.py:20 | a capture found after a label starts at a separator end |
| Patterns.Candidate | sites/batdongsan.py:33 | a capture for label `word` at i needs the label read case-insensitively at i and lies behind it |
| Patterns.LabelMatchIff | sites/batdongsan.py:33 | label `word` at i gives a capture exactly when the label, a separator and a capture match there |
| Patterns.CandidateSound | sites/batdongsan.py:33 | a capture for a label at i is a match of the pattern with that label there |
| Patterns.CandidateComplete | sites/batdongsan.py:33 | a match of the pattern with a label at i gives a capture for that label there |
| Patterns.FirstSome | sites/batdongsan.py:33 | the alternative chosen is one of the alternatives |
| Patterns.FirstSomeFirst | sites/batdongsan.py:33 | the first alternative that matches is the one chosen |
| Patterns.FirstSomeNone | sites/batdongsan.py:33 | with no alternative matching nothing is chosen |
| Patterns.FirstSomePresent | sites/batdongsan.py:33 | with some alternative matching something is chosen |
| Patterns.Candidates | sites/batdongsan.py:33 | one candidate per alternative of `(Giá\|Price)`, in the order written |
| Patterns.LabelCaptureAtSound | sites/batdongsan.py:33 | a capture at i is the capture of one of the alternatives |
| Patterns.LabelCaptureAtFirst | sites/batdongsan.py:33 | at i, the first alternative (Giá before Price) that matches decides the capture |
| Patterns.LabelCaptureAtNone | sites/batdongsan.py:33 | with no alternative matching at i there is no capture at i |
| Patterns.LabelCaptureAtSome | sites/batdongsan.py:33 | any alternative matching at i gives a capture at i |
| Patterns.Positions | sites/batdongsan.py:33 | one entry per start position 0 to the text's length |
| Patterns.LabelSearchFirst | sites/batdongsan.py:33 | `re.search` takes the leftmost start position with a match: the result is the capture there |
| Patterns.LabelSearchNone | sites/batdongsan.py:33 | with no match at any position the search finds nothing |
| Patterns.LabelSearchPresent | sites/batdongsan.py:33 | a match at any position makes the search succeed |
| Patterns.LabelSearchSome | sites/batdongsan.py:33 | what the search finds is the capture at some start position |
| Patterns.LabelSearchSound | sites/batdongsan.py:33 | what the search finds is a capture behind some label read at some position |
| Patterns.LabelSearchIff | sites/batdongsan.py:33 | the search succeeds exactly when the pattern matches somewhere in the text |
| Patterns.StrippedCapture | sites/alonhadat.py:21 | a capture beginning with a non-space strips to a non-empty, already stripped string |
| Patterns.LabelCapture | sites/alonhadat.py:20-21 | `m.group(k).strip()`: present exactly when the pattern matches somewhere; then the stripped text of a capture, non-empty and already stripped |
| Patterns.LabelCaptureInText | sites/i_batdongsan.py:60-62 | the captured price text is a piece of the row's text |
| Json.Get | sites/nhatot.py:80 | a value found is stored under the key; None means no member has the key |
| Json.GetOr | sites/nhatot.py:80 | `d.get(k, default)` is the default or the value of a member with key k |
| Json.Or | sites/nhatot.py:85 | `a or b` is a when a is truthy, else b |
| Json.Repr | sites/nhatot.py:91 | `repr` of any value is non-empty (strings quoted with `'` and not escaped; see "Left out") |
| Json.StrShape | sites/nhatot.py:130-136 | `str` of a truthy value is non-empty; a list's starts with `[`, a dict's with `{` |
| UtilsDom.Attr | sites/utils_dom.py:29-32 | `el.get(k)` is present exactly when the attribute is |
| UtilsDom.AttrOrEmpty | sites/alonhadat.py:29 | a missing attribute reads as "" |
| UtilsDom.FirstAttr | sites/alonhadat.py:29 | `el.get(k1) or el.get(k2) or ...`: "" iff all are empty; otherwise the first non-empty one |
| UtilsDom.DropLeading | sites/utils_dom.py:7-12 | removing leading combinators never lengthens the selector |
| UtilsDom.CommaGroupEnd | sites/utils_dom.py:14 | a group `,\s*[>+~]\s*` found at the start spans a comma, then spaces and combinators only; none is found when the first non-space after the comma is no combinator |
| UtilsDom.SubCombinators | sites/utils_dom.py:14 | the comma substitution never lengthens the selector |
| UtilsDom.Sanitize | sites/utils_dom.py:9-15 | the sanitised selector is never longer than the stripped input |
| UtilsDom.EssentialAppend | sites/utils_dom.py:14 | the characters the substitution keeps distribute over concatenation |
| UtilsDom.EssentialDropsRun | sites/utils_dom.py:14 | a run of whitespace and combinators carries no kept characters |
| UtilsDom.SubCombinatorsKeepsEssential | sites/utils_dom.py:14 | the substitution removes only whitespace and `>+~`: the commas and every other character survive, in order |
| UtilsDom.SubstitutedComma | sites/utils_dom.py:14 | at a `,\s*[>+~]\s*` match the output is `", "` followed by the substitution of the text behind the match, and the kept characters are unchanged |
| UtilsDom.SubCombinatorsNoComma | sites/utils_dom.py:14 | without a comma there is nothing to replace |
| UtilsDom.SubCombinatorsPlainPrefix | sites/utils_dom.py:14 | text before the first comma is copied unchanged and the substitution continues behind it |
| UtilsDom.SubCombinatorsGroup | sites/utils_dom.py:14 | a comma, spaces, one of `>+~` and spaces become `", "`, and the rest is substituted in turn |
| UtilsDom.GroupEnd | sites/utils_dom.py:14 | the match of `,\s*[>+~]\s*` ends right after the spaces behind the combinator |
| UtilsDom.CommaGroupEndAt | sites/utils_dom.py:14 | a comma, whitespace, a combinator and whitespace up to a non-space make a match ending there |
| UtilsDom.SanitizePlain | sites/utils_dom.py:11-14 | a selector with none of `>+~,` comes back only stripped |
| UtilsDom.DropLeadingSpec | sites/utils_dom.py:7-12 | the leading run of `>+~,` and the whitespace after it are removed once, and nothing else |
| UtilsDom.Sel | sites/utils_dom.py:17-21 | a failing selection gives `[]`, otherwise its elements: `sel` never raises |
| UtilsDom.Sel1 | sites/utils_dom.py:23-27 | None exactly when nothing is selected (a failure included), otherwise the first element |
| UtilsDom.TextOrEmpty | sites/utils_dom.py:29-32 | a missing node gives "", a present one its text |
| Listing.Notice | search_aggregator.py:14-15 | the unsupported/error record: the given link and title, the other five fields empty, no source |
| Listing.FirstNonBlankIndex | sites/guland.py:11-15 | the first non-blank position, with every earlier value blank |
| Listing.FirstNonBlank | sites/nhatot.py:40-44 | "" iff all values are blank; otherwise the first non-blank value, stripped |
| Listing.FirstText | sites/guland.py:52 | the long selector's stripped text when not blank, else the short one's; "" iff both are blank |
| Listing.Either | sites/guland.py:69 | `a or b` on two optional elements |
| Listing.FirstNonBlankStripped | sites/nhatot.py:40-44 | the chosen value is already stripped |
| Listing.CleanPhone | sites/nhatot.py:36-38 | the cleaned phone holds only digits and `+` and is no longer than its input |
| Listing.CleanPhoneAppend | sites/nhatot.py:36-38 | cleaning distributes over concatenation |
| Listing.CleanPhoneKeepsPhoneText | sites/nhatot.py:36-38 | a string of digits and `+` is kept as it is |
| Listing.CleanPhoneIdempotent | sites/nhatot.py:36-38 | cleaning twice is cleaning once |
| Listing.CleanPhoneStripped | sites/guland.py:17-18 | the trailing `.strip()` of `_clean_phone` changes nothing |
| Listing.TelRaw | sites/alonhadat.py:38 | the `tel:` anchor's text when it has one |
| Listing.TelRawHref | sites/alonhadat.py:38 | an anchor without text whose href lacks `tel:` gives its href unchanged |
| Listing.AnchorPhone | sites/alonhadat.py:36-38 | the uncleaned phone of an optional `tel:` anchor: its text, else its href with every "tel:" removed, "" without an anchor |
| Listing.StripSpaceDashTidy | sites/alonhadat.py:44 | `strip(" -")` leaves a string with no space or dash at its ends unchanged |
| Listing.ContactWithoutPhone | sites/alonhadat.py:44 | without a phone the contact is the name trimmed of spaces and dashes |
| Listing.ContactJoined | sites/muaban.py:110 | a tidy name and phone give exactly "name - phone" |
| Listing.ContactPhoneOnly | sites/guland.py:84 | with no name, a tidy phone stands alone (the separator is trimmed) |
| Listing.ContactTidyEnds | sites/i_batdongsan.py:110 | the contact never starts or ends with a space or dash |
| Listing.Join | sites/alonhadat.py:30 | `urljoin(link, "")` is the link; other references go to the URL library |
| Listing.OgContent | sites/muaban.py:72-74 | the stripped `og:image` content, "" without the tag |
| Listing.MatchOrEmpty | sites/alonhadat.py:21 | an absent match reads as "" |
| Listing.AreaOr | sites/guland.py:56-59 | a non-empty area stays; an empty one becomes the text of the first area match of the page, "" only when there is none |
| Listing.PhoneOr | sites/guland.py:79-82 | a non-empty phone stays; an empty one becomes the text of the first Vietnamese number, "" only when there is none |
| Listing.TelPhone | sites/guland.py:76-78 | the cleaned `tel:` phone holds only digits and `+`; no anchor gives "" |
| Listing.PhoneOrChars | sites/guland.py:76-82 | the page-text fallback keeps a phone made of digits and `+` |
| Listing.FirstFound | sites/batdongsan.py:30-37 | a non-empty field is never overwritten; an empty one takes the first row's value that exists, "" only when no row yields one |
| Alonhadat.PriceArea | sites/alonhadat.py:12-24 | the first/second `span.value` win when non-empty; an empty field falls back to the Giá-label capture (price) or the area pattern (area) |
| Alonhadat.Image | sites/alonhadat.py:26-33 | the gallery image's `src`/`data-src` is preferred over `og:image`, and nothing empty is ever joined |
| Alonhadat.Parse | sites/alonhadat.py:8-45 | link kept, title from the `h1`, price/area/image/contact as above |
| Batdongsan.Title | sites/batdongsan.py:10-18 | the root `h1`, then `h1.re__pr-title` or any `h1`; "" iff neither of the first two and no `og:title` |
| Batdongsan.PriceFromRow | sites/batdongsan.py:32-34 | a row yields a price exactly when it has the word Giá/Price and the capture pattern matches somewhere in it; the price is then the stripped text of a capture, a piece of the row |
| Batdongsan.AreaFromRow | sites/batdongsan.py:35-37 | a row yields an area iff it has an area match, no label needed |
| Batdongsan.ScanRow | sites/batdongsan.py:31-37 | one loop step fills each field only while it is empty |
| Batdongsan.ScanRowsIndependent | sites/batdongsan.py:30-37 | each field of the scan depends only on its own rows, not on the other field |
| Batdongsan.ScanTable | sites/batdongsan.py:30-37 | the row loop computes the scan |
| Batdongsan.PriceArea | sites/batdongsan.py:20-37 | short-info values win; the scan runs only when one is empty and fills only the empty one |
| Batdongsan.Description | sites/batdongsan.py:39-43 | the root's description block, else the generic one |
| Batdongsan.Image | sites/batdongsan.py:45-50 | the stripped `og:image`, else the image's `src`/`data-src`, stripped |
| Batdongsan.Parse | sites/batdongsan.py:7-61 | link kept; title and price/area as above; the contact is tidy and is the name alone without a phone |
| Guland.ImageAsWritten | sites/guland.py:64-71 | as written: the joined `og:image` content wins; a blank content gives the page link; without content, the slider source joined even when empty, so a source-less slider gives the page link |
| Guland.SliderSource | sites/guland.py:68-71 | the slider image's `src`, else `data-src`, stripped; "" without a slider image |
| Guland.ImageAsWrittenIsPageLink | sites/guland.py:68-71 | a concrete page showing the link returned as image |
| Guland.Image | sites/guland.py:64-71 | corrected: a joined non-empty `og:image` wins; otherwise the joined non-empty slider source, else ""; it differs from the code only where the code gives the page link |
| Guland.Phone | sites/guland.py:75-82 | the cleaned `tel:` phone when it is not empty, else the first Vietnamese number of the page text |
| Guland.Parse | sites/guland.py:47-94 | link kept; title/area empty exactly when every source is; image as the code computes it; contact from the name and the phone |
| Muaban.KeepMaskChars | sites/muaban.py:17 | only digits, `+`, `*`, `x`, `X`, `•`, `●` and space are kept; a string without them becomes "" |
| Muaban.CollapseSpaces | sites/muaban.py:18 | no two whitespace characters remain together; a leading non-space character is kept and a leading run becomes one space |
| Muaban.CleanMask | sites/muaban.py:14-19 | the cleaned mask is never longer than its input |
| Muaban.CleanMaskShape | sites/muaban.py:14-19 | mask characters only, no space at either end, never two spaces together |
| Muaban.KeepMaskCharsAppend | sites/muaban.py:17 | the filter works piece by piece over a concatenation |
| Muaban.CollapseSpacesRun | sites/muaban.py:18 | a run of whitespace on its own becomes one space |
| Muaban.CollapseSpacesAt | sites/muaban.py:18 | a leading whitespace run becomes one space followed by the collapse of the rest |
| Muaban.NonSpace | sites/muaban.py:18 | the non-whitespace characters of a string, in order |
| Muaban.NonSpaceAppend | sites/muaban.py:18 | the non-whitespace characters of a concatenation are those of its parts |
| Muaban.NonSpaceDropsRun | sites/muaban.py:18 | a whitespace run carries no non-whitespace characters |
| Muaban.CollapseSpacesNonSpace | sites/muaban.py:18 | the collapse changes only whitespace: the other characters survive, in order |
| Muaban.NonSpaceSplit | sites/muaban.py:18 | the non-whitespace characters of a suffix split at any index into those before and after it |
| Muaban.NonSpaceSlice | sites/muaban.py:18 | cutting whitespace off both ends leaves the non-whitespace characters unchanged |
| Muaban.StripNonSpace | sites/muaban.py:18 | stripping changes only whitespace |
| Muaban.CleanMaskContent | sites/muaban.py:14-19 | apart from whitespace, the cleaned mask is exactly the mask characters of the input, in order |
| Muaban.BoxPhone | sites/muaban.py:85-96 | no box gives ""; nine or more cleaned digits win; otherwise an acceptable mask (a mark and a digit); otherwise "" |
| Muaban.KeepMaskCharsAll | sites/muaban.py:17 | a string of mask characters is kept whole |
| Muaban.NoDoubleSpaceKept | sites/muaban.py:18 | single spaces are left alone by the collapse |
| Muaban.CleanMaskFixed | sites/muaban.py:14-19 | a mask of mask characters with single spaces and no space at either end is left unchanged |
| Muaban.CleanMaskIdempotent | sites/muaban.py:14-19 | cleaning a cleaned mask changes nothing |
| Muaban.Phone | sites/muaban.py:83-108 | the phone box wins; else the `tel:` anchor; else the first Vietnamese number of the page text; "" only when all three are empty |
| Muaban.Image | sites/muaban.py:70-78 | `og:image`, else the image's `src`, `data-lazy` or `data-src`, stripped |
| Muaban.Parse | sites/muaban.py:52-120 | link kept; title, price and description are the first non-blank selector text; the area falls back to the page text and is empty exactly when all its sources are; image and contact from Muaban.Image and Muaban.Phone |
| IBatdongsan.PriceFromRow | sites/i_batdongsan.py:59-62 | a row yields a price exactly when it has the word Giá/Price and the capture pattern (up to 60 characters) matches somewhere in it; the price is then the stripped text of a capture, a piece of the row |
| IBatdongsan.AreaFromRow | sites/i_batdongsan.py:63-66 | a row yields an area exactly when it mentions Diện tích/Area and has an area match; the area is then an area match in it |
| IBatdongsan.ScanRow | sites/i_batdongsan.py:58-66 | one loop step fills each field only while it is empty |
| IBatdongsan.ScanRowsIndependent | sites/i_batdongsan.py:57-66 | each field is its old value, else the first row's value for it |
| IBatdongsan.ScanTable | sites/i_batdongsan.py:57-66 | the row loop computes the scan |
| IBatdongsan.ImageElement | sites/i_batdongsan.py:86-88 | an `img` element is read itself |
| IBatdongsan.HasSourceIff | sites/i_batdongsan.py:89-90 | a variant has a source exactly when its stripped attribute is non-empty |
| IBatdongsan.FirstFrom | sites/i_batdongsan.py:85-92 | the first position from i whose variant passes the test; none before it passes |
| IBatdongsan.FirstFromAt | sites/i_batdongsan.py:85-92 | that position is fixed by those facts |
| IBatdongsan.FirstSourceIndex | sites/i_batdongsan.py:85-92 | the first `#limage` variant with a source; all earlier ones have none |
| IBatdongsan.LimageImage | sites/i_batdongsan.py:85-92 | the first variant with a source, joined; "" when none has one |
| IBatdongsan.LimageImageAt | sites/i_batdongsan.py:85-92 | the image is the join of the source at the first index with a source |
| IBatdongsan.FirstSourceIndexUnique | sites/i_batdongsan.py:90-92 | only one variant is the first with a source |
| IBatdongsan.ScanLimage | sites/i_batdongsan.py:85-92 | the loop with its `break` computes that image |
| IBatdongsan.NoSourceStep | sites/i_batdongsan.py:85-92 | a variant whose element yields no source extends the prefix the loop has passed over without finding one |
| IBatdongsan.PriceArea | sites/i_batdongsan.py:50-72 | the fixed cells win; the table scan runs only when one is empty; with no table an empty price cell gives no price; an empty area cell takes the table scan, then the page text |
| IBatdongsan.ImageAsWritten | sites/i_batdongsan.py:78-97 | as written: the joined `og:image` content wins; a blank content gives the page link; without content, the `#limage` image, else the generic image joined even without a source |
| IBatdongsan.ImageAsWrittenIsPageLink | sites/i_batdongsan.py:80-81 | a concrete page showing the link returned as image |
| IBatdongsan.Image | sites/i_batdongsan.py:78-97 | corrected: a joined non-empty `og:image` wins; otherwise the `#limage` image, else the joined non-empty generic source, else ""; it differs from the code only where the code gives the page link |
| IBatdongsan.Phone | sites/i_batdongsan.py:101-108 | the cleaned phone of the phone element when it is not empty, else the first Vietnamese number of the page text |
| IBatdongsan.Parse | sites/i_batdongsan.py:42-120 | link kept; title and description are the first non-blank selector text, title empty exactly when both sources are; price/area as above; image as the code computes it; contact from the name and the phone |
| Nhatot.FirstKeptIndex | sites/nhatot.py:40-44 | the first value that is truthy and not blank |
| Nhatot.FirstNonEmpty | sites/nhatot.py:40-44 | `Ok("")` iff every value is skipped; otherwise the first kept one stripped, or the `strip` error on a non-string |
| Nhatot.Strs | sites/nhatot.py:40-44 | the JSON strings of a list of strings, one for one |
| Nhatot.SkippedString | sites/nhatot.py:40-44 | a string is passed over exactly when it is blank |
| Nhatot.KeptIndexStrings | sites/nhatot.py:40-44 | on strings the chooser stops at the first non-blank one |
| Nhatot.FirstNonEmptyStrings | sites/nhatot.py:40-44 | on any list of strings it agrees with the shared chooser |
| Nhatot.FirstNonBlankNested | sites/nhatot.py:168-181 | choosing in two stages is one first-non-blank over all sources |
| Nhatot.StripNotBlank | sites/nhatot.py:42-43 | a string with content keeps content when stripped |
| Nhatot.Search | sites/nhatot.py:52-67 | a non-null result is the value of a matching key somewhere; no matching key means null |
| Nhatot.SearchMembers | sites/nhatot.py:54-61 | a dict's result comes from a member at or after i |
| Nhatot.SearchItems | sites/nhatot.py:62-66 | a list's result comes from an item at or after i |
| Nhatot.SearchMembersFirstStop | sites/nhatot.py:54-61 | depth first, first key wins: the first member whose key matches or whose value holds a match gives the answer, even a `null` value |
| Nhatot.SearchMembersNoStop | sites/nhatot.py:54-61 | a dict in which no member matches or holds a match gives `None` |
| Nhatot.SearchItemsFirstFound | sites/nhatot.py:62-66 | the first item whose search finds something gives the answer |
| Nhatot.SearchItemsNoneFound | sites/nhatot.py:62-66 | a list none of whose items holds a match gives `None` |
| Nhatot.NullMatchHidesLaterKey | sites/nhatot.py:57-58 | a matching key with a null value ends the search: a later matching key is never reached |
| Nhatot.DepthFirst | sites/nhatot.py:59-61 | the search descends into a value before later keys |
| Nhatot.SetDefault | sites/nhatot.py:82-83 | `setdefault` keeps a stored value and fills an absent one |
| Nhatot.PriceTextAsWrittenShowsNone | sites/nhatot.py:88-91 | a price without currency reads "5000 None" |
| Nhatot.PriceText | sites/nhatot.py:88-91 | corrected: a missing currency is left out |
| Nhatot.PriceTextMatchesWhenCurrencyIsString | sites/nhatot.py:89-91 | the corrected text agrees with the code when a currency string is present |
| Nhatot.StripTrailingSpace | sites/nhatot.py:91 | a trailing space is stripped anyway |
| Nhatot.TrimLeftAppendSpace | sites/nhatot.py:91 | left-trimming commutes with appending a space |
| Nhatot.LdCandidate | sites/nhatot.py:77-97 | a non-accepted candidate changes nothing; an accepted one raises exactly when a title or description value is a non-string or `offers` is not a dict, and otherwise stores under each absent key: the first non-empty of name/headline, the description, the price text as the code writes it only from a truthy price, the image only when truthy |
| Nhatot.Offers | sites/nhatot.py:85-87 | a falsy `offers` reads as `{}`, a non-empty list as its first element |
| Nhatot.LdPrice | sites/nhatot.py:88 | the offer's price when truthy, else the object's price |
| Nhatot.LdCurrency | sites/nhatot.py:89 | the offer's currency when truthy, else the object's currency |
| Nhatot.CandidateImage | sites/nhatot.py:93-95 | the image value, or the first element of a non-empty list |
| Nhatot.LdCandidates | sites/nhatot.py:77-97 | the candidates of a script only add fields, and images stay truthy |
| Nhatot.LdScript | sites/nhatot.py:71-76 | one script only adds fields |
| Nhatot.JsonLd | sites/nhatot.py:69-98 | every stored image is truthy |
| Nhatot.JsonLdFirstWins | sites/nhatot.py:82-97 | a value stored by an earlier script is never replaced by a later one |
| Nhatot.TitleFixedEvenIfEmpty | sites/nhatot.py:82 | an accepted object without name/headline fixes the title to "" |
| Nhatot.CandidatesErrStays | sites/nhatot.py:77-97 | an exception in a candidate ends the script's loop |
| Nhatot.ScriptsErrStays | sites/nhatot.py:71-97 | an exception in a script ends `_from_json_ld` |
| Nhatot.CandidatesStep | sites/nhatot.py:77-97 | one more candidate extends the fold by one step |
| Nhatot.FromScript | sites/nhatot.py:71-97 | the inner loop over one script's candidates computes `LdScript` |
| Nhatot.FromJsonLd | sites/nhatot.py:69-98 | the nested loops compute `JsonLd` |
| Nhatot.Field | sites/nhatot.py:130-136 | a stored field is the non-empty `str` of a truthy value found under the keys; no key, no field |
| Nhatot.PathOrUrl | sites/nhatot.py:120-124 | a truthy result is the `full_path`, or else the `url` |
| Nhatot.NextImage | sites/nhatot.py:115-124 | a list whose first element is a dict gives its `full_path`/`url`, one whose first element is a string gives that string; a dict gives its own `full_path`/`url`; anything else gives "" |
| Nhatot.FromNextData | sites/nhatot.py:100-137 | no script or a falsy parse gives nothing; otherwise title, description, price, area and name are the truthy text of the search for their keys, the image the truthy text of NextImage, the phone the cleaned text of the phone search |
| Nhatot.OrEmpty | sites/nhatot.py:168 | `d.get(k, "")` |
| Nhatot.CssImage | sites/nhatot.py:149-156 | `og:image`, else the image's `src`/`data-src`, stripped |
| Nhatot.CssPhone | sites/nhatot.py:160-164 | digits and `+` only; the phone element wins when it gives something |
| Nhatot.StrippedKept | sites/nhatot.py:168-181 | a stripped non-empty value is kept by either chooser |
| Nhatot.Parse | sites/nhatot.py:139-198 | a raising JSON-LD pass makes `parse` raise; otherwise link kept |
| Nhatot.LdImage | sites/nhatot.py:171 | no JSON-LD image reads as "" |
| Nhatot.ParseFieldOrder | sites/nhatot.py:143-186 | each field is the first non-blank of CSS, JSON-LD, `__NEXT_DATA__`; area falls back to the page text |
| Nhatot.ParseCssImageFirst | sites/nhatot.py:149-171 | an image from the selectors is kept and the parse succeeds |
| Nhatot.ParseLdImageText | sites/nhatot.py:171-179 | with no selector image and a text JSON-LD image, the image is that text stripped, else the `__NEXT_DATA__` image |
| Nhatot.ParseImageNotText | sites/nhatot.py:171 | a non-string JSON-LD image makes `parse` raise when the selectors found none |
| Sites.FirstMatch | sites/__init__.py:28-30 | the first registry entry whose domain is in the host, with no earlier one matching |
| Sites.PickSite | sites/__init__.py:22-31 | the first entry in registry order whose domain is in the lower-cased host; None iff none is |
| Sites.RegistryContents | sites/__init__.py:11-20 | two entries, alonhadat then batdongsan, with strategies "requests" and "cloudscraper" |
| Sites.PickSiteEmptyHost | sites/__init__.py:27-31 | an empty host picks nothing |
| Sites.PickSiteIgnoresCase | sites/__init__.py:27 | the host's case does not matter |
| Sites.PickSiteSubstring | sites/__init__.py:29 | containment, not suffix: any host containing the alonhadat domain picks it |
| Sites.LowerAppend | sites/__init__.py:27 | lower-casing distributes over concatenation |
| Aggregator.IdPageAtIff | search_aggregator.py:9 | the id-page alternative matches iff a dash, six or more digits and `.htm`/`.html` end the text |
| Aggregator.DetailByPr | search_aggregator.py:9 | any text containing `-pr` plus a digit (any case) is a detail URL |
| Aggregator.DetailByTin | search_aggregator.py:9 | any text containing `/tin-` plus a digit is a detail URL |
| Aggregator.DetailById | search_aggregator.py:9 | a text ending in `-`, six or more digits and `.htm`/`.html` is a detail URL |
| Aggregator.ExtensionOfSuffix | search_aggregator.py:9 | `.htm` or `.html` in any case at the very end matches `\.(?:htm\|html)$` |
| Aggregator.QueryNotIdPage | search_aggregator.py:9 | with a query after `.htm` the id-page alternative fails |
| Aggregator.QueryDefeatsIdPage | search_aggregator.py:9 | the `$` anchor applies to the id-page alternative only: a query string after `.htm` defeats it |
| Aggregator.AlternativesStart | search_aggregator.py:9 | each alternative needs its first character at the position |
| Aggregator.FoldPunctuation | search_aggregator.py:9 | case folding leaves the pattern's punctuation alone |
| Aggregator.ParseWith | search_aggregator.py:21 | the registry's parser for the site is applied, and its link is the input |
| Aggregator.StrategyFor | search_aggregator.py:18 | a non-empty forced strategy wins, else the site default |
| Aggregator.ExtractOne | search_aggregator.py:11-26 | unsupported gives the notice; a fetch or parse error gives the error record; success gives the parsed record with its source |
| Aggregator.ExtractOneShape | search_aggregator.py:11-26 | the link is always kept, and a record without a source is a notice |
| Fetchers.FetchRequests | fetchers.py:13-18 | body iff answered with a status outside 400–599; 403/410/451 raise "Blocked: <status>" |
| Fetchers.FetchCloudscraper | fetchers.py:20-27 | body iff answered below 400; otherwise "HTTP <status>" |
| Fetchers.FetchersDisagreeAbove600 | fetchers.py:13-27 | the two fetchers disagree exactly on statuses of 600 and above |
| Fetchers.SelectFetcher | fetchers.py:49-55 | "playwright" and "cloudscraper" pick their fetcher; anything else the plain one |
| Fetchers.BrowserOutcome | fetchers.py:37-44 | a navigation failure is raised; otherwise the content |
| Fetchers.IdleWaitIgnored | fetchers.py:39-42 | the idle wait's outcome does not change the result |
| Fetchers.BrowserRuntime.constructor | fetchers.py:32 | nothing is open at start |
| Fetchers.BrowserRuntime.Launch | fetchers.py:33 | one more browser, in the given headless mode |
| Fetchers.BrowserRuntime.NewContext | fetchers.py:34-35 | one more context |
| Fetchers.BrowserRuntime.CloseContext | fetchers.py:46 | one context fewer |
| Fetchers.BrowserRuntime.CloseBrowser | fetchers.py:46 | one browser fewer |
| Fetchers.FetchPlaywright | fetchers.py:29-46 | the browser outcome, with as many browsers and contexts open afterwards as before |
| Fetchers.GetHtml | fetchers.py:49-55 | the selected fetcher's result; the browser runs headless exactly when the setting is "1", and the other fetchers leave it alone; every browser opened is closed |
| Crawler.Unsupported | crawler.py:188-197 | the notice with title "❓ Không hỗ trợ domain này" |
| Crawler.ValuePair | crawler.py:139-140 | price from the first `span.value`, area from the second, "" when absent |
| Crawler.Src | crawler.py:148 | the image's `src`, "" without it |
| Crawler.ParseBatdongsan | crawler.py:124-150 | link kept, no source, price/area from the value pair |
| Crawler.AlonhadatContactAgrees | crawler.py:172-174 | with a phone the contact is the shared "name - phone" rule; without one, just the stripped name |
| Crawler.ParseAlonhadat | crawler.py:153-184 | link kept, price/area from the value pair, contact as above |
| Crawler.FromCache | crawler.py:103-117 | a status other than 200 raises; otherwise the parser chosen by the link, batdongsan first |
| Crawler.ExtractInfo | crawler.py:21-62 | unsupported, then fetch error to cache, then captcha to cache, then batdongsan before alonhadat; a failing cache gives the error record |
| Crawler.DispatchOrderDiffers | crawler.py:41-44 | a host with both domains is parsed as batdongsan here, while the registry picks alonhadat |
| Crawler.FetchWithRequests | crawler.py:96-100 | body iff the status is outside 400–599 |
| Crawler.FallbackIsPlainFetch | crawler.py:96-100 | it equals `fetch_requests` except on blocked statuses, where both fail with different messages |
| Crawler.CrawlOutcome | crawler.py:82-90 | a timeout in either step goes to the plain fetch; a failure in either step raises its message; otherwise the content |
| Crawler.HeadlessReadingsDiffer | crawler.py:15 | the two headless readings differ exactly on settings other than "0" and "1" |
| Crawler.FetchWithPlaywright | crawler.py:65-93 | the outcome above; the saved session is used iff alonhadat with the file present; all closed on exit |
| Crawler.ExtractInfoGeneric | crawler.py:21-93 | the decision of `ExtractInfo` on the browser outcome, with nothing left open |
| SearchGoogle.TopLinks | search_google.py:11-21 | no `items` gives []; otherwise each item's `link`, in order, or an error from a bad item |
| SearchGoogle.ItemLinks | search_google.py:21 | the links of the items in order, or an error naming a bad item |
| SearchGoogle.BasePath | search_google.py:29 | the path with trailing slashes removed |
| SearchGoogle.HtmlCoveredByHtm | search_google.py:44-47 | the `.html` test is implied by the `.htm` test |
| SearchGoogle.KeptUrls | search_google.py:38-49 | the anchors kept by the filter, in order |
| SearchGoogle.Dedup | search_google.py:42 | deduplication keeps the members |
| SearchGoogle.FirstIndex | search_google.py:42 | the first position of a value |
| SearchGoogle.FirstIndexPrefix | search_google.py:42 | a first position inside a prefix stays the same |
| SearchGoogle.DedupMembers | search_google.py:42-49 | deduplication keeps exactly the input's values |
| SearchGoogle.DedupNoDuplicates | search_google.py:42-49 | deduplication holds no value twice |
| SearchGoogle.DedupOrder | search_google.py:42-49 | deduplication lists values in order of first appearance |
| SearchGoogle.DedupSpec | search_google.py:42-49 | same members, no duplicates, first-appearance order |
| SearchGoogle.DedupGrowth | search_google.py:42-49 | one more anchor adds at most one link |
| SearchGoogle.Stop | search_google.py:51-52 | where the loop stops: the first point the cap is reached |
| SearchGoogle.StopFrom | search_google.py:51-52 | the stop point searched from a position |
| SearchGoogle.StopUnique | search_google.py:51-52 | the stop point is unique |
| SearchGoogle.StopAfter | search_google.py:51-52 | before the stop the cap is not reached |
| SearchGoogle.UnderCapStep | search_google.py:51-52 | an anchor that leaves the list below the cap lets the loop go on |
| SearchGoogle.CollectedGrowth | search_google.py:38-49 | one more anchor adds at most one link |
| SearchGoogle.SubLinksStopAt | search_google.py:33-54 | where the loop stops with every anchor resolved, the result is the links collected so far |
| SearchGoogle.SubLinksFailAt | search_google.py:33-58 | a failing anchor before the stop makes the result [] |
| SearchGoogle.CollectedStep | search_google.py:33-52 | one loop step extends the collected links |
| SearchGoogle.SubLinksSpec | search_google.py:23-58 | no duplicates; each link is a kept anchor's, in document order |
| SearchGoogle.SubLinksBound | search_google.py:51-52 | at most the cap links, at most one for a cap below 1 |
| SearchGoogle.OneListingKept | search_google.py:38-49 | a same-site deeper path containing "pr" is kept |
| SearchGoogle.OneListingUrls | search_google.py:38-49 | that anchor is the page's only kept URL |
| SearchGoogle.DedupSingle | search_google.py:42-49 | a single link is already deduplicated |
| SearchGoogle.ZeroCapYieldsOne | search_google.py:51-52 | a cap of 0 still yields one link |
| SearchGoogle.GetSubLinks | search_google.py:23-58 | the loop computes `SubLinks`; any failure gives [] |
| SearchGoogle.Records | search_google.py:69-72 | one record per sub-link, in order |
| SearchGoogle.DistributionSums | search_google.py:61 | the caps of the first k top links add up as listed |
| SearchGoogle.GatheredBound | search_google.py:60-74 | at most 10 records |
| SearchGoogle.GatheredStep | search_google.py:65-72 | one more top result appends its records |
| SearchGoogle.HarvestOne | search_google.py:68 | the sub-links of one top result, with its share as cap |
| SearchGoogle.Search | search_google.py:60-74 | the first five top links with caps 3, 3, 2, 1, 1, at most 10 records |
| SearchGoogle.AppendRecords | search_google.py:69-72 | the inner loop appends one record per sub-link |
| StreamlitApp.ShowN | streamlit_app.py:175 | `min(batch * 10, total)` |
| StreamlitApp.LoadMoreShowsMore | streamlit_app.py:174-195 | when there is more, loading more shows more, by at most 10 |
| StreamlitApp.ShowNAtMostTarget | streamlit_app.py:175 | never more than 30 shown (10 per batch, at most 3 batches) |
| StreamlitApp.Rows | streamlit_app.py:178-179 | `ceil(n / cols)` rows; zero columns raises |
| StreamlitApp.Grid | streamlit_app.py:178-188 | card k goes in row `k / cols`, every card once, in order |
| StreamlitApp.DivInRow | streamlit_app.py:180-188 | a card's row is its index divided by the columns |
| StreamlitApp.MulBounds | streamlit_app.py:179 | the sign bounds used for the row count |
| StreamlitApp.Shorten | streamlit_app.py:120-122 | a description over 300 characters becomes its first 300 characters right-stripped, then "…"; a shorter one is kept |
| StreamlitApp.TestStrategy | streamlit_app.py:244 | "auto" uses the site default, any other choice as given |
| StreamlitApp.Session.constructor | streamlit_app.py:107-113 | empty query, no results, batch 0 |
| StreamlitApp.Session.Submit | streamlit_app.py:155-169 | corrected: a configured submit sets the stripped query, batch 1 and the results ([] on failure) |
| StreamlitApp.Session.SubmitAsWritten | streamlit_app.py:155-169 | as written: a failing repeated search escapes, leaving the old results |
| StreamlitApp.Session.LoadMore | streamlit_app.py:194-195 | the batch grows by one only when there is more to show |
| StreamlitApp.Session.Reset | streamlit_app.py:199-204 | everything back to empty when a query is shown |
| StreamlitApp.StaleResultsAfterFailedSearch | streamlit_app.py:162-169 | after a failing search the written code shows the old results, the corrected one none |

## Left out

- The network, the browser, BeautifulSoup and `urljoin` (for non-empty references) are inputs. HTML parsing and CSS selection are not modelled.
- `get_text(separator="\n").strip()` in crawler.py:147 and crawler.py:181 is approximated by the element's text.
- `\d` and `\b` are taken as ASCII digits and an approximated word set. `re.IGNORECASE` uses simple lower-casing with the two Turkish i forms.
- JSON objects keep the first of duplicate keys; `json.loads` keeps the last.
- JSON numbers are integers only. A fractional number such as `"size": 52.5` is not modelled, nor is Python's `str` of a float ("52.5"), because the shortest round-trip float formatting is out of scope.
- Patterns.CaptureAfterLabel: its own contract states only where the capture lies; Patterns.CaptureAfterLabelSpec states which capture it is and when there is none.
- Json.Repr: strings are always quoted with `'` and never escaped. Python switches to `"` when the string holds `'` and no `"`, and escapes backslashes, the quote and control characters. Only the non-emptiness of `repr` is stated. It is reached only through `str` of a list or a dict.
- The browser's launch and context creation are assumed not to fail.
- The web cache is deterministic: its two calls in `extract_info_generic` see the same reply.
- `search_google` takes the extractor as an abstract function standing for `extract_info_generic`.
- A non-list `items` in the search API's answer is an error rather than an iteration over its keys.
- `crawl_detail_links` (search_aggregator.py:28-31) has no body and is not modelled.
- `render_card`'s HTML escaping and the Streamlit widgets are not modelled; only the truncation is.
- The `sleep` calls and logging are not modelled.
- Crawler.ParseBatdongsan: states link, source, price and area only; title, description, image and contact follow the body.
- Crawler.ParseAlonhadat: states link, source, price, area and the phone case of the contact only.
- Alonhadat.Parse: the description is not restated, and the contact is stated only to be tidy; the image, title, price and area are stated in full.
- Batdongsan.Parse: the description and image are not restated (Batdongsan.Description and Batdongsan.Image state them), and the contact is stated only without a phone and as tidy.
- Guland.Parse: price and description are not restated, and title and area are stated only through their emptiness; the image is Guland.ImageAsWritten and the contact is built from Guland.Phone, which state those fields.
- Muaban.Parse: the contact is stated as the name and Muaban.Phone combined; the parts of the phone are stated by Muaban.Phone and Muaban.BoxPhone.
- IBatdongsan.Parse: the image is IBatdongsan.ImageAsWritten and the contact is built from IBatdongsan.Phone, which state those fields.
- Nhatot.Parse: its own contract states only the error case and the link. Nhatot.ParseFieldOrder states the title, price, description, area and contact. The image is stated in three cases: by Nhatot.ParseCssImageFirst (a selector image), Nhatot.ParseLdImageText (a text JSON-LD image, or none) and Nhatot.ParseImageNotText (any other JSON-LD image).
- Text.Lower: only ASCII, Latin-1 and the Vietnamese letters are lowered. Other upper-case letters are left as they are, and the length is always kept, although Python lengthens `İ` (U+0130).
- UtilsDom.SubCombinators: its own contract gives only the length. UtilsDom.SubstitutedComma, UtilsDom.SubCombinatorsPlainPrefix, UtilsDom.SubCombinatorsGroup and UtilsDom.SubCombinatorsKeepsEssential state the content.
- Muaban.CollapseSpaces: its own contract gives the shape and the first character. Muaban.CollapseSpacesNonSpace, Muaban.CollapseSpacesAt and Muaban.CollapseSpacesRun state the content. Where inside the string the single spaces fall is not stated.
- Muaban.CleanMask: its own contract gives only the length. Muaban.CleanMaskShape states the shape, and Muaban.CleanMaskContent and Muaban.KeepMaskCharsAppend state the content. Where the single spaces fall is not stated.

## Findings

| source | as written | input that shows it | evidently intended | confidence | as-written member | corrected member |
|---|---|---|---|---|---|---|
| sites/nhatot.py:88-91 | a JSON-LD price without any currency is written `f"{price} {currency}"` with `currency` None | `{"@type": "Product", "offers": {"price": "5000"}}` gives price "5000 None" | "5000" | not executed | Nhatot.PriceTextAsWrittenShowsNone | Nhatot.PriceText |
| sites/guland.py:64-71 | the slider image is joined even when it has no `src`/`data-src` | a page with no `og:image` and an `<img>` without a source gives the page link as image | no image | not executed | Guland.ImageAsWrittenIsPageLink | Guland.Image |
| sites/i_batdongsan.py:80-81 | a blank `og:image` content is truthy, stripped to "" and joined | `<meta property="og:image" content=" ">` gives the page link as image | fall through to the other images | not executed | IBatdongsan.ImageAsWrittenIsPageLink | IBatdongsan.Image |
| streamlit_app.py:162-169 | when the repeated call in the `TypeError` handler fails, the exception escapes before `results` is assigned | a search failing after a previous successful one leaves the previous results under the new query | no results, as in the generic handler | not executed | StreamlitApp.StaleResultsAfterFailedSearch | StreamlitApp.Session.Submit |
