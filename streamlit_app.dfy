/** The paging logic of the web front end: the session's query, results and
    batch counter with the submit, load-more and reset handlers, how many
    cards are shown and in how many rows, and the description shortening on
    a card. Widgets, secrets and styling are not modelled. */
module StreamlitApp {
  import opened Text
  import opened Listing

  const BatchSize: int := 10
  const MaxBatches: int := 3

  /** `show_n = min(batch * BATCH_SIZE, total)`. */
  function ShowN(batch: int, total: nat): (r: int)
    ensures r <= total && r <= batch * BatchSize
    ensures r == total || r == batch * BatchSize
  {
    if batch * BatchSize < total then batch * BatchSize else total
  }

  /** `has_more`. */
  predicate HasMore(batch: int, total: nat)
  {
    batch < MaxBatches && ShowN(batch, total) < total
  }

  /** Loading one more batch shows more cards whenever more exist, and never
      more than ten more. */
  lemma LoadMoreShowsMore(batch: int, total: nat)
    requires HasMore(batch, total)
    ensures ShowN(batch, total) < ShowN(batch + 1, total) <= ShowN(batch, total) + BatchSize
  {
  }

  /** Within the session's batch range at most thirty cards are ever shown. */
  lemma ShowNAtMostTarget(batch: int, total: nat)
    requires 0 <= batch <= MaxBatches
    ensures 0 <= ShowN(batch, total) <= BatchSize * MaxBatches
  {
  }

  /** `math.ceil(show_n / cols_per_row)`; a zero column count raises. */
  function Rows(n: nat, cols: int): (r: Result<int>)
    ensures cols == 0 <==> r.Err?
    ensures cols > 0 ==> r.Ok? && (r.value - 1) * cols < n <= r.value * cols
    ensures cols < 0 ==> r.Ok? && r.value <= 0
  {
    if cols == 0 then Err("division by zero")
    else if cols > 0 then Ok((n + cols - 1) / cols)
    else Ok(-(n / -cols))
  }

  /** The card grid: rows of `cols` columns, filled with the cards 0, 1, ...
      in order until `n` have been placed. Each card is given with its row. */
  method Grid(n: nat, cols: int) returns (r: Result<seq<(int, int)>>)
    ensures cols == 0 <==> r.Err?
    ensures cols > 0 ==> r.Ok? && |r.value| == n
                         && forall k :: 0 <= k < n ==> r.value[k] == (k / cols, k)
    ensures cols < 0 ==> r == Ok([])
  {
    var rows := Rows(n, cols);
    if rows.Err? {
      return Err(rows.message);
    }
    var cards: seq<(int, int)> := [];
    var idx := 0;
    var row := 0;
    while row < rows.value
      invariant cols > 0 ==> 0 <= row <= rows.value && idx == (if row * cols < n then row * cols else n)
      invariant cols < 0 ==> row == 0 && idx == 0
      invariant |cards| == idx && forall k :: 0 <= k < idx ==> cols > 0 && cards[k] == (k / cols, k)
    {
      var c := 0;
      while c < cols
        invariant 0 <= c <= cols
        invariant idx == (if row * cols + c < n then row * cols + c else n)
        invariant |cards| == idx && forall k :: 0 <= k < idx ==> cards[k] == (k / cols, k)
      {
        if idx >= n {
          break;
        }
        assert idx == row * cols + c;
        assert idx / cols == row by {
          DivInRow(idx, row, c, cols);
        }
        cards := cards + [(row, idx)];
        idx := idx + 1;
        c := c + 1;
      }
      row := row + 1;
    }
    return Ok(cards);
  }

  /** The card at column c of row `row` belongs to that row. */
  lemma DivInRow(k: int, row: int, c: int, cols: int)
    requires cols > 0 && 0 <= c < cols && 0 <= row && k == row * cols + c
    ensures k / cols == row
  {
    var q := k / cols;
    var m := k % cols;
    assert k == q * cols + m && 0 <= m < cols;
    assert (q - row) * cols == c - m by {
      assert q * cols - row * cols == (q - row) * cols;
    }
    MulBounds(q - row, cols);
  }

  /** A non-zero multiple of cols is at least cols away from zero. */
  lemma MulBounds(d: int, cols: int)
    requires cols > 0
    ensures d >= 1 ==> d * cols >= cols
    ensures d <= -1 ==> d * cols <= -cols
  {
  }

  /** `desc[:300].rstrip() + "…"` for a description longer than 300
      characters, else the description itself. */
  function Shorten(desc: string): (r: string)
    ensures |r| <= 301
    ensures |desc| <= 300 ==> r == desc
    ensures |desc| > 300 ==> |r| >= 1 && r[|r| - 1] == '\U{2026}' && StartsWith(desc, r[..|r| - 1])
    ensures |desc| > 300 ==> r[..|r| - 1] == RStrip(desc[..300])
  {
    if |desc| > 300 then
      var head := RStrip(desc[..300]);
      assert (head + "\U{2026}")[..|head|] == head;
      head + "\U{2026}"
    else desc
  }

  /** The strategy of the single-URL test: the site's default for "auto",
      the chosen one otherwise. */
  function TestStrategy(choice: string, default: string): (r: string)
    ensures choice == "auto" ==> r == default
    ensures choice != "auto" ==> r == choice
  {
    if choice == "auto" then default else choice
  }

  /** The session state and its three handlers. */
  class Session {
    var query: string
    var results: seq<Record>
    var batch: int

    /** After a submit the batch stays between 1 and 3 until a reset; before
        any submit, and after a reset, it is 0 and the query is empty. */
    predicate Valid()
      reads this
    {
      0 <= batch <= MaxBatches && (query != "" ==> 1 <= batch)
    }

    constructor()
      ensures query == "" && results == [] && batch == 0
      ensures Valid()
    {
      query := "";
      results := [];
      batch := 0;
    }

    /** The search form's submit, with the search's outcome as a parameter.
        Without API credentials nothing changes. A failed search leaves no
        results. */
    method Submit(q: string, configured: bool, search: Result<seq<Record>>)
      requires Valid()
      modifies this
      ensures Valid()
      ensures !configured ==> query == old(query) && results == old(results) && batch == old(batch)
      ensures configured ==> query == Strip(q) && batch == 1
      ensures configured ==> results == (if search.Ok? then search.value else [])
    {
      if configured {
        query := Strip(q);
        batch := 1;
        match search {
          case Ok(res) => results := res;
          case Err(_) => results := [];
        }
      }
    }

    /** The submit as written: the first call passes an argument the search
        does not take, so its `TypeError` handler calls the search again,
        and a failure of that second call escapes the sibling handler, so
        the results of the previous query stay. `raised` says it escaped. */
    method SubmitAsWritten(q: string, configured: bool, search: Result<seq<Record>>) returns (raised: bool)
      requires Valid()
      modifies this
      ensures Valid()
      ensures raised <==> configured && search.Err?
      ensures !configured ==> query == old(query) && results == old(results) && batch == old(batch)
      ensures configured ==> query == Strip(q) && batch == 1
      ensures configured && search.Ok? ==> results == search.value
      ensures configured && search.Err? ==> results == old(results)
    {
      raised := false;
      if configured {
        query := Strip(q);
        batch := 1;
        match search {
          case Ok(res) => results := res;
          case Err(_) => raised := true;
        }
      }
    }

    /** "Crawl thêm 10 tin": shown only for a non-empty query, and only while
        there is more to show. */
    method LoadMore()
      requires Valid()
      modifies this
      ensures Valid()
      ensures query == old(query) && results == old(results)
      ensures old(query) != "" && HasMore(old(batch), |old(results)|) ==> batch == old(batch) + 1
      ensures !(old(query) != "" && HasMore(old(batch), |old(results)|)) ==> batch == old(batch)
    {
      if query != "" && HasMore(batch, |results|) {
        batch := batch + 1;
      }
    }

    /** "Làm mới": shown only for a non-empty query; it clears the session. */
    method Reset()
      requires Valid()
      modifies this
      ensures Valid()
      ensures old(query) != "" ==> batch == 0 && results == [] && query == ""
      ensures old(query) == "" ==> batch == old(batch) && results == old(results) && query == old(query)
    {
      if query != "" {
        batch := 0;
        results := [];
        query := "";
      }
    }
  }

  /** A failed second search keeps the previous query's results on the page
      under the new query, where the corrected submit shows none. */
  method StaleResultsAfterFailedSearch(previous: seq<Record>) returns (asWritten: seq<Record>, corrected: seq<Record>)
    requires previous != []
    ensures asWritten == previous && corrected == []
  {
    var s := new Session();
    s.Submit("nhà quận 3", true, Ok(previous));
    var t := new Session();
    t.Submit("nhà quận 3", true, Ok(previous));
    var _ := s.SubmitAsWritten("đất quận 7", true, Err("network down"));
    t.Submit("đất quận 7", true, Err("network down"));
    return s.results, t.results;
  }
}
