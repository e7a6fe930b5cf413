/** The query object: one trends or search call, or, in file mode, a search
    followed by up to `numBatches - 1` further pages fetched by following the
    `next_results` cursor. The HTTP endpoints are parameters: a function from a
    request to the page it returns, `None` standing for a call that raises. */
module Query {
  import opened Tweets
  import opened Continuation

  /** The two kinds of search call the object makes. */
  datatype Request =
    | Initial(q: Option<string>, count: nat)   // search.tweets(q=..., count=...)
    | Next(kwargs: Kwargs)                     // search.tweets(**next_query_kwargs)

  type SearchApi = Request -> Option<Page>
  type TrendsApi = int -> Option<seq<Place>>

  /** What `query_result` holds: nothing yet, a trends response, or a search page. */
  datatype QueryResult = NoResult | TrendsResult(places: seq<Place>) | SearchResult(page: Page)

  datatype QueryType = Trends | Search | OtherType

  const DefaultWoeid: int := 23424977
  const DefaultCount: nat := 100
  const NumBatches: nat := 5

  /** The class's WOEID table. */
  const Woeids: map<string, int> := map["US" := 23424977, "WORLD" := 1]

  /** `get_scope`: the WOEID of a known region name, None otherwise. */
  function Scope(region: string): (r: Option<int>)
    ensures r.Some? <==> region == "US" || region == "WORLD"
    ensures r == Some(1) <==> region == "WORLD"
    ensures region == "US" ==> r == Some(DefaultWoeid)
  {
    if region in Woeids then Some(Woeids[region]) else None
  }

  /** The constructor's `WOEID.get(woeid, 23424977)`: every region other than
      `WORLD`, an absent one included, falls back to the United States. */
  function WoeidFor(region: Option<string>): (w: int)
    ensures w == 1 <==> region == Some("WORLD")
    ensures w != 1 ==> w == DefaultWoeid
    ensures region.Some? && Scope(region.value).None? ==> w == DefaultWoeid
  {
    if region.Some? && region.value in Woeids then Woeids[region.value] else DefaultWoeid
  }

  /** `query_result['search_metadata']['next_results']` parsed as in
      `get_next_results_kwargs`: None when the key is missing (KeyError), when
      the result is not a search page (TypeError), or when the parse raises. */
  function NextResultsKwargs(result: QueryResult): Option<Kwargs>
  {
    match result
    case SearchResult(Page(_, Some(next))) => ParseKwargs(next)
    case _ => None
  }

  /** The page that following `p`'s cursor fetches, if there is a cursor and the call succeeds. */
  function Fetch(search: SearchApi, p: Page): Option<Page>
  {
    match NextResultsKwargs(SearchResult(p))
    case None => None
    case Some(kw) => search(Next(kw))
  }

  /** The three fields that `get_next_batch` reads and writes. */
  datatype Cursor = Cursor(result: QueryResult, batch: nat, kwargs: Kwargs)

  datatype Step = Step(more: bool, cursor: Cursor)

  /** `get_next_batch`: True, one more batch and the fetched page exactly when a
      cursor parses and the call succeeds; otherwise False with the result and
      the batch counter untouched (the keyword map is still updated when the
      cursor parsed but the call raised). */
  function NextBatch(search: SearchApi, c: Cursor): (s: Step)
    ensures s.more <==> NextResultsKwargs(c.result).Some? && search(Next(NextResultsKwargs(c.result).value)).Some?
    ensures s.more ==> s.cursor.batch == c.batch + 1 && s.cursor.result.SearchResult?
                       && Some(s.cursor.result.page) == search(Next(s.cursor.kwargs))
    ensures !s.more ==> s.cursor.batch == c.batch && s.cursor.result == c.result
    ensures NextResultsKwargs(c.result).None? ==> s.cursor.kwargs == c.kwargs
    ensures NextResultsKwargs(c.result).Some? ==> s.cursor.kwargs == NextResultsKwargs(c.result).value
  {
    match NextResultsKwargs(c.result)
    case None => Step(false, c)
    case Some(kw) =>
      match search(Next(kw))
      case None => Step(false, c.(kwargs := kw))
      case Some(p) => Step(true, Cursor(SearchResult(p), c.batch + 1, kw))
  }

  /** The pages collected so far (`json_list`) and the cursor fields. */
  datatype Session = Session(cursor: Cursor, pages: seq<Page>)

  /** The file-mode loop of `send_query` (query.py:66-67), run from session `s`
      until it stops: fetch the next page, and append it while the batch
      counter is still under the limit. */
  function FileLoop(search: SearchApi, s: Session, limit: nat): (r: Session)
    ensures s.pages <= r.pages
    decreases limit - s.cursor.batch
  {
    var st := NextBatch(search, s.cursor);
    if st.more && st.cursor.batch < limit then
      FileLoop(search, Session(st.cursor, s.pages + [st.cursor.result.page]), limit)
    else
      Session(st.cursor, s.pages)
  }

  /** Each page after the first is what the previous page's cursor fetched. */
  predicate Chained(search: SearchApi, pages: seq<Page>) {
    forall i :: 0 <= i < |pages| - 1 ==> Fetch(search, pages[i]) == Some(pages[i + 1])
  }

  lemma ChainedAppend(search: SearchApi, pages: seq<Page>, p: Page)
    requires |pages| > 0 && Chained(search, pages)
    requires Fetch(search, pages[|pages| - 1]) == Some(p)
    ensures Chained(search, pages + [p])
  {
    var pages' := pages + [p];
    forall i | 0 <= i < |pages'| - 1 ensures Fetch(search, pages'[i]) == Some(pages'[i + 1]) {
      if i < |pages| - 1 { assert pages'[i] == pages[i] && pages'[i + 1] == pages[i + 1]; }
    }
  }

  /** The session invariant the file-mode loop starts from: `batch` pages
      fetched one from the other, and the cursor on the last of them. */
  predicate LoopStart(search: SearchApi, s: Session, limit: nat) {
    && |s.pages| == s.cursor.batch + 1 && s.cursor.batch < limit
    && s.cursor.result == SearchResult(s.pages[|s.pages| - 1])
    && Chained(search, s.pages)
  }

  /** Where the file-mode loop ends: at most `limit` pages, fetched one from the
      other, and either the last page has no further page (then
      `len(json_list) == current_batch + 1` and `query_result` is that last
      page) or the counter reached `limit` (then `current_batch == limit ==
      len(json_list)` and `query_result` holds a fetched page that was not
      appended). */
  predicate LoopSettled(search: SearchApi, r: Session, limit: nat) {
    && 0 < |r.pages| <= limit
    && Chained(search, r.pages)
    && var last := r.pages[|r.pages| - 1];
       && (Fetch(search, last).None? ==>
             |r.pages| == r.cursor.batch + 1 && r.cursor.result == SearchResult(last))
       && (Fetch(search, last).Some? ==>
             |r.pages| == r.cursor.batch == limit && r.cursor.result == SearchResult(Fetch(search, last).value))
  }

  /** The step on which the loop stops leaves it settled. */
  lemma FileLoopStops(search: SearchApi, s: Session, limit: nat)
    requires LoopStart(search, s, limit)
    requires var st := NextBatch(search, s.cursor); !st.more || st.cursor.batch >= limit
    ensures LoopSettled(search, Session(NextBatch(search, s.cursor).cursor, s.pages), limit)
  {
    var last := s.pages[|s.pages| - 1];
    var st := NextBatch(search, s.cursor);
    assert st.more <==> Fetch(search, last).Some?;
    if st.more {
      assert Some(st.cursor.result.page) == Fetch(search, last);
    }
  }

  /** The loop's accounting: started with one page and batch `|pages| - 1`, it
      keeps its pages as a prefix, appends them in fetch order and ends settled. */
  lemma {:induction false} FileLoopChain(search: SearchApi, s: Session, limit: nat)
    requires LoopStart(search, s, limit)
    ensures LoopSettled(search, FileLoop(search, s, limit), limit)
    decreases limit - s.cursor.batch
  {
    var st := NextBatch(search, s.cursor);
    if !st.more || st.cursor.batch >= limit {
      FileLoopStops(search, s, limit);
    } else {
      var last := s.pages[|s.pages| - 1];
      var pages' := s.pages + [st.cursor.result.page];
      assert Fetch(search, last) == Some(pages'[|s.pages|]);
      ChainedAppend(search, s.pages, st.cursor.result.page);
      FileLoopChain(search, Session(st.cursor, pages'), limit);
    }
  }

  /** The object. `statuses` is None until the constructor assigns it, after
      `send_query` has run: that is when the attribute starts to exist. */
  class TwitterQuery {
    const search: SearchApi
    const trendsPlace: TrendsApi
    const woeid: int
    const queryType: QueryType
    const q: Option<string>
    const count: nat
    const outFile: bool
    const numBatches: nat
    var currentBatch: nat
    var nextQueryKwargs: Kwargs
    var queryResult: QueryResult
    var jsonList: seq<Page>
    var statuses: Option<seq<seq<Status>>>

    /** The three cursor fields as one value. */
    function Position(): Cursor
      reads this`queryResult, this`currentBatch, this`nextQueryKwargs
    {
      Cursor(queryResult, currentBatch, nextQueryKwargs)
    }

    /** The field set-up of `__init__`, before `send_query` is called. */
    constructor (search: SearchApi, trendsPlace: TrendsApi, queryType: QueryType,
                 region: Option<string>, q: Option<string>, count: Option<nat>, outFile: bool)
      ensures this.search == search && this.trendsPlace == trendsPlace && this.queryType == queryType
      ensures woeid == WoeidFor(region) && this.q == q && this.outFile == outFile
      ensures this.count == (if count.Some? then count.value else DefaultCount)
      ensures numBatches == NumBatches && currentBatch == 0 && nextQueryKwargs == map[]
      ensures queryResult == NoResult && jsonList == [] && statuses == None
    {
      this.search := search;
      this.trendsPlace := trendsPlace;
      woeid := WoeidFor(region);
      this.queryType := queryType;
      currentBatch := 0;
      numBatches := NumBatches;
      nextQueryKwargs := map[];
      queryResult := NoResult;
      this.q := q;
      this.count := if count.Some? then count.value else DefaultCount;
      this.outFile := outFile;
      jsonList := [];
      statuses := None;
    }

    /** `get_next_results_kwargs`: stores the parsed cursor and answers True, or
        answers False and leaves `next_query_kwargs` alone. */
    method GetNextResultsKwargs() returns (found: bool)
      modifies this`nextQueryKwargs
      ensures found <==> NextResultsKwargs(queryResult).Some?
      ensures nextQueryKwargs == if found then NextResultsKwargs(queryResult).value else old(nextQueryKwargs)
    {
      var parsed := NextResultsKwargs(queryResult);
      if parsed.None? {
        return false;
      }
      nextQueryKwargs := parsed.value;
      ParseKwargsOutcome(queryResult.page.nextResults.value);
      // a parsed map is never empty, so the `len(...) > 0` test always passes
      found := |nextQueryKwargs| > 0;
    }

    /** `get_next_batch`. */
    method GetNextBatch() returns (more: bool)
      modifies this`queryResult, this`currentBatch, this`nextQueryKwargs
      ensures NextBatch(search, old(Position())) == Step(more, Position())
    {
      var found := GetNextResultsKwargs();
      if !found {
        return false;
      }
      var fetched := search(Next(nextQueryKwargs));
      if fetched.None? {
        return false;
      }
      queryResult := SearchResult(fetched.value);
      currentBatch := currentBatch + 1;
      return true;
    }

    /** `send_query`. Without `out_file`: one trends or search call whose failure
        is swallowed; the search branch's `statuses.append` succeeds only once the
        attribute exists. With `out_file`: the first search (whose failure is
        not caught, reported as `raised`), then the pagination loop. */
    method SendQuery() returns (raised: bool)
      modifies this`queryResult, this`currentBatch, this`nextQueryKwargs, this`jsonList, this`statuses
      ensures raised <==> outFile && search(Initial(q, count)).None?
      ensures !outFile || raised ==>
                currentBatch == old(currentBatch) && nextQueryKwargs == old(nextQueryKwargs) && jsonList == old(jsonList)
      ensures !outFile && queryType == Trends ==>
                queryResult == (match trendsPlace(woeid) case Some(ps) => TrendsResult(ps) case None => old(queryResult))
      ensures !outFile && queryType == Search ==>
                queryResult == (match search(Initial(q, count)) case Some(p) => SearchResult(p) case None => old(queryResult))
      ensures !outFile && queryType == Search && search(Initial(q, count)).Some? && old(statuses).Some? ==>
                statuses == Some(old(statuses).value + [search(Initial(q, count)).value.statuses])
      ensures outFile || queryType != Search || search(Initial(q, count)).None? || old(statuses).None? ==>
                statuses == old(statuses)
      ensures (!outFile && queryType == OtherType) || raised ==> queryResult == old(queryResult)
      ensures outFile && !raised ==>
                var first := search(Initial(q, count)).value;
                var r := FileLoop(search, Session(old(Position()).(result := SearchResult(first)), old(jsonList) + [first]), numBatches);
                jsonList == r.pages && Position() == r.cursor
    {
      if !outFile {
        match queryType {
          case Trends =>
            var places := trendsPlace(woeid);
            if places.Some? {
              queryResult := TrendsResult(places.value);
            }
          case Search =>
            var page := search(Initial(q, count));
            if page.Some? {
              queryResult := SearchResult(page.value);
              // the attribute does not exist yet while __init__ runs: the append raises and is swallowed
              if statuses.Some? {
                statuses := Some(statuses.value + [page.value.statuses]);
              }
            }
          case OtherType =>
        }
        return false;
      }
      var first := search(Initial(q, count));
      if first.None? {
        return true;
      }
      queryResult := SearchResult(first.value);
      jsonList := jsonList + [first.value];
      ghost var goal := FileLoop(search, Session(Position(), jsonList), numBatches);
      while true
        invariant FileLoop(search, Session(Position(), jsonList), numBatches) == goal
        invariant statuses == old(statuses)
        decreases numBatches - currentBatch
      {
        var more := GetNextBatch();
        if !(more && currentBatch < numBatches) {
          break;
        }
        jsonList := jsonList + [queryResult.page];
      }
      raised := false;
    }
  }

  /** The whole of `__init__`: field set-up, `send_query`, then `statuses = []`.
      None when the first search of file mode raises (the constructor raises). */
  method NewQuery(search: SearchApi, trendsPlace: TrendsApi, queryType: QueryType,
                  region: Option<string>, q: Option<string>, count: Option<nat>, outFile: bool)
    returns (r: Option<TwitterQuery>)
    ensures var n := if count.Some? then count.value else DefaultCount;
            r.None? <==> outFile && search(Initial(q, n)).None?
    ensures r.Some? ==> fresh(r.value) && r.value.statuses == Some([]) && r.value.woeid == WoeidFor(region)
                        && r.value.numBatches == NumBatches && r.value.search == search
                        && r.value.trendsPlace == trendsPlace && r.value.outFile == outFile
                        && r.value.queryType == queryType && r.value.q == q
                        && r.value.count == (if count.Some? then count.value else DefaultCount)
    ensures r.Some? && !outFile ==> r.value.jsonList == [] && r.value.currentBatch == 0
    ensures r.Some? && !outFile && queryType == Trends ==>
              r.value.queryResult == (match trendsPlace(WoeidFor(region)) case Some(ps) => TrendsResult(ps) case None => NoResult)
    ensures r.Some? && !outFile && queryType == Search ==>
              r.value.queryResult == (match search(Initial(q, if count.Some? then count.value else DefaultCount))
                                      case Some(p) => SearchResult(p) case None => NoResult)
    ensures r.Some? && !outFile && queryType == OtherType ==> r.value.queryResult == NoResult
    ensures r.Some? && outFile ==>
              var first := search(Initial(q, if count.Some? then count.value else DefaultCount)).value;
              var s := FileLoop(search, Session(Cursor(SearchResult(first), 0, map[]), [first]), NumBatches);
              r.value.jsonList == s.pages && r.value.Position() == s.cursor
  {
    var t := new TwitterQuery(search, trendsPlace, queryType, region, q, count, outFile);
    ghost var first := search(Initial(q, t.count));
    assert first.Some? ==> t.jsonList + [first.value] == [first.value];
    var raised := t.SendQuery();
    if raised {
      return None;
    }
    t.statuses := Some([]);
    return Some(t);
  }

  /** What a successful file-mode construction leaves behind: `json_list` starts
      with the first page, each later page is the one the previous page's cursor
      fetched, it never holds more than five pages, and the loop stopped either
      for lack of a further page or on the batch limit with the last fetched
      page not appended. */
  lemma FileModePages(search: SearchApi, first: Page)
    ensures var s := FileLoop(search, Session(Cursor(SearchResult(first), 0, map[]), [first]), NumBatches);
            var last := s.pages[|s.pages| - 1];
            && 1 <= |s.pages| <= NumBatches
            && s.pages[0] == first
            && Chained(search, s.pages)
            && (Fetch(search, last).None? ==> |s.pages| == s.cursor.batch + 1)
            && (Fetch(search, last).Some? ==>
                  |s.pages| == s.cursor.batch == NumBatches && s.cursor.result == SearchResult(Fetch(search, last).value))
  {
    var s0 := Session(Cursor(SearchResult(first), 0, map[]), [first]);
    FileLoopChain(search, s0, NumBatches);
    var s := FileLoop(search, s0, NumBatches);
    assert s.pages[..1] == [first];
  }

  /** A first page without a cursor ends pagination at once. */
  lemma NoCursorStopsAtOnce(search: SearchApi, first: Page)
    requires first.nextResults.None?
    ensures FileLoop(search, Session(Cursor(SearchResult(first), 0, map[]), [first]), NumBatches)
            == Session(Cursor(SearchResult(first), 0, map[]), [first])
  {
  }
}
