/** The program's entry point: rank the current trends by tweet volume, number
    them from 1, and for each accepted choice run a file-mode search on the
    chosen trend and print its statistics tables. The keyboard is a sequence of
    lines, each read as an integer or not. */
module TrendMenu {
  import opened Tweets
  import Ranking
  import opened Query
  import Statistics

  /* ---------------- top_trends ---------------- */

  /** The trends that report a tweet volume, as (name, volume) pairs in API
      order (main.py:28-29). */
  function Candidates(trends: seq<Trend>): (r: seq<(string, int)>)
    ensures |r| <= |trends|
  {
    if trends == [] then []
    else (match trends[0].volume case Some(n) => [(trends[0].name, n)] case None => [])
         + Candidates(trends[1..])
  }

  /** `top_trends`: the candidates sorted on volume, highest first. */
  function TopTrends(trends: seq<Trend>): seq<(string, int)>
  {
    Ranking.SortDesc(Candidates(trends))
  }

  /** The trends whose volume is `n`, in API order. */
  function VolumeIs(trends: seq<Trend>, n: int): seq<Trend>
  {
    if trends == [] then []
    else (if trends[0].volume == Some(n) then [trends[0]] else []) + VolumeIs(trends[1..], n)
  }

  /** A pair is a candidate exactly when a trend with that name has that
      (non-null) volume. */
  lemma {:induction false} CandidatesMember(trends: seq<Trend>, p: (string, int))
    ensures p in Candidates(trends) <==> Trend(p.0, Some(p.1)) in trends
  {
    if trends != [] {
      CandidatesMember(trends[1..], p);
      assert trends == [trends[0]] + trends[1..];
    }
  }

  /** The candidates carrying volume `n` are those of the trends with volume `n`,
      in the same order. */
  lemma {:induction false} CandidatesWithKey(trends: seq<Trend>, n: int)
    ensures Ranking.WithKey(Candidates(trends), n) == Candidates(VolumeIs(trends, n))
  {
    if trends != [] {
      CandidatesWithKey(trends[1..], n);
      var head: seq<(string, int)> := match trends[0].volume case Some(m) => [(trends[0].name, m)] case None => [];
      Ranking.WithKeyAppend(head, Candidates(trends[1..]), n);
      var mine: seq<Trend> := if trends[0].volume == Some(n) then [trends[0]] else [];
      assert VolumeIs(trends, n) == mine + VolumeIs(trends[1..], n);
      if mine == [] {
        assert mine + VolumeIs(trends[1..], n) == VolumeIs(trends[1..], n);
        if head != [] { assert Ranking.WithKey(head, n) == []; }
      } else {
        assert Candidates(VolumeIs(trends, n)) == [(trends[0].name, n)] + Candidates(VolumeIs(trends[1..], n));
      }
    }
  }

  /** `top_trends` is the candidates reordered by volume, highest first, and
      trends of equal volume stay in the order the API listed them; its length
      is `TREND_LENGTH`. */
  lemma TopTrendsRanked(trends: seq<Trend>, n: int)
    ensures multiset(TopTrends(trends)) == multiset(Candidates(trends))
    ensures |TopTrends(trends)| == |Candidates(trends)|
    ensures Ranking.NonIncreasing(TopTrends(trends))
    ensures Ranking.WithKey(TopTrends(trends), n) == Candidates(VolumeIs(trends, n))
  {
    Ranking.SortDescSorts(Candidates(trends));
    Ranking.SortDescStable(Candidates(trends), n);
    CandidatesWithKey(trends, n);
  }

  /** `q.query_result[0]['trends']`: None where indexing raises (the trends
      call failed and left `query_result` as None, or the list is empty). */
  function FirstTrends(result: QueryResult): (r: Option<seq<Trend>>)
    ensures r.Some? <==> result.TrendsResult? && result.places != []
  {
    if result.TrendsResult? && result.places != [] then Some(result.places[0].trends) else None
  }

  /* ---------------- prompt ---------------- */

  /** One printed line `\t{n}: {name} {volume}`. */
  datatype Line = Line(number: int, name: string, volume: int)

  function Labels(top: seq<(string, int)>): seq<Line>
  {
    seq(|top|, n requires 0 <= n < |top| => Line(n + 1, top[n].0, top[n].1))
  }

  /** `prompt`: one line per ranked trend. */
  method Prompt(top: seq<(string, int)>) returns (lines: seq<Line>)
    ensures lines == Labels(top)
  {
    lines := [];
    for n := 0 to |top|
      invariant lines == Labels(top)[..n]
    {
      lines := lines + [Line(n + 1, top[n].0, top[n].1)];
    }
  }

  /** The printed numbers are exactly `1..TREND_LENGTH`, and the line numbered
      `k` names `top_trends[k-1]`. */
  lemma LabelsNumbering(top: seq<(string, int)>, k: int)
    ensures (exists n :: 0 <= n < |Labels(top)| && Labels(top)[n].number == k) <==> Accepts(|top|, k)
    ensures Accepts(|top|, k) ==> Labels(top)[k - 1] == Line(k, top[k - 1].0, top[k - 1].1)
  {
    if Accepts(|top|, k) {
      assert Labels(top)[k - 1].number == k;
    }
  }

  /* ---------------- the selection loop ---------------- */

  /** The range check on the choice (main.py:40): `1..TREND_LENGTH`, both ends
      included. */
  predicate Accepts(len: nat, k: int) { 1 <= k <= len }

  /** The selection loop's guard (main.py:35): it goes on unless `hashtag` lies
      in `1..TREND_LENGTH - 1`. */
  predicate Continue(len: nat, hashtag: int) { !(1 <= hashtag < len) }

  /** What one pass of the loop body did. */
  datatype Turn =
    | NotANumber                     // `int(input(...))` raised
    | OutOfRange(k: int)             // the range assertion raised
    | Failed(k: int, term: string)   // the search for the chosen trend raised
    | Shown(k: int, term: string,     // the tables of `pages` were printed
            pages: seq<Page>)

  /** The pages a successful file-mode search for `term` collects. */
  function SearchPages(search: SearchApi, term: string): Option<seq<Page>>
  {
    match search(Initial(Some(term), DefaultCount))
    case None => None
    case Some(first) =>
      Some(FileLoop(search, Session(Cursor(SearchResult(first), 0, map[]), [first]), NumBatches).pages)
  }

  /** One pass of the loop body on one input line. */
  function TurnFor(top: seq<(string, int)>, input: Option<int>, search: SearchApi): Turn
  {
    match input
    case None => NotANumber
    case Some(k) =>
      if !Accepts(|top|, k) then OutOfRange(k)
      else SearchTurn(k, top[k - 1].0, search)
  }

  /** The pass's search for the name of the trend chosen as `k`: it fails, or
      it collects the pages whose tables are printed. */
  function SearchTurn(k: int, term: string, search: SearchApi): Turn
  {
    match SearchPages(search, term)
    case None => Failed(k, term)
    case Some(pages) => Shown(k, term, pages)
  }

  /** `hashtag` after a pass: the integer read is kept unless the tables were
      printed, which resets it to 0. */
  function After(hashtag: int, t: Turn): int
  {
    match t
    case NotANumber => hashtag
    case OutOfRange(k) => k
    case Failed(k, _) => k
    case Shown(_, _, _) => 0
  }

  /** The passes the loop makes over the lines typed, from `hashtag`. */
  function Run(top: seq<(string, int)>, hashtag: int, inputs: seq<Option<int>>, search: SearchApi): seq<Turn>
    decreases |inputs|
  {
    if inputs == [] || !Continue(|top|, hashtag) then []
    else
      var t := TurnFor(top, inputs[0], search);
      [t] + Run(top, After(hashtag, t), inputs[1..], search)
  }

  /** `hashtag` when the loop stops or the lines run out. */
  function Final(top: seq<(string, int)>, hashtag: int, inputs: seq<Option<int>>, search: SearchApi): int
    decreases |inputs|
  {
    if inputs == [] || !Continue(|top|, hashtag) then hashtag
    else Final(top, After(hashtag, TurnFor(top, inputs[0], search)), inputs[1..], search)
  }

  /** A pass searches exactly when the line is an integer in `1..TREND_LENGTH`,
      and then for the name of `top_trends[k-1]`; the tables are printed when
      that search succeeds, and then `hashtag` returns to 0 and prompting goes
      on; an out-of-range integer also goes on. */
  lemma TurnOutcome(top: seq<(string, int)>, hashtag: int, input: Option<int>, search: SearchApi)
    ensures var t := TurnFor(top, input, search);
            && (t.NotANumber? <==> input.None?)
            && ((t.Failed? || t.Shown?) <==> input.Some? && Accepts(|top|, input.value))
            && (t.Failed? || t.Shown? ==> t.k == input.value && t.term == top[t.k - 1].0)
            && (t.Shown? <==> input.Some? && Accepts(|top|, input.value)
                              && search(Initial(Some(top[input.value - 1].0), DefaultCount)).Some?)
            && (t.Shown? || t.OutOfRange? ==> Continue(|top|, After(hashtag, t)))
  {
  }

  /** From a hashtag that keeps the loop going, a pass stops it exactly when
      it is a failed search for a choice below `TREND_LENGTH`. */
  lemma TurnStops(top: seq<(string, int)>, hashtag: int, input: Option<int>, search: SearchApi)
    requires Continue(|top|, hashtag)
    ensures var t := TurnFor(top, input, search);
            !Continue(|top|, After(hashtag, t)) <==> t.Failed? && t.k < |top|
  {
    TurnOutcome(top, hashtag, input, search);
  }

  /** The loop ends before the lines run out only after a search for the
      choice `k` failed with `k < TREND_LENGTH`; a failed search for the last
      trend, `k == TREND_LENGTH`, prompts again. Every pass before the last one
      kept the loop going. */
  lemma {:induction false} RunExit(top: seq<(string, int)>, hashtag: int, inputs: seq<Option<int>>, search: SearchApi)
    requires Continue(|top|, hashtag)
    ensures var turns := Run(top, hashtag, inputs, search);
            && |turns| <= |inputs|
            && (!Continue(|top|, Final(top, hashtag, inputs, search)) <==>
                  turns != [] && turns[|turns| - 1].Failed? && turns[|turns| - 1].k < |top|)
            && (forall i :: 0 <= i < |turns| - 1 ==> !(turns[i].Failed? && turns[i].k < |top|))
            && (|turns| < |inputs| ==> !Continue(|top|, Final(top, hashtag, inputs, search)))
    decreases |inputs|
  {
    if inputs != [] {
      var t := TurnFor(top, inputs[0], search);
      var h := After(hashtag, t);
      TurnStops(top, hashtag, inputs[0], search);
      var turns := Run(top, hashtag, inputs, search);
      var rest := Run(top, h, inputs[1..], search);
      assert turns == [t] + rest;
      if Continue(|top|, h) {
        RunExit(top, h, inputs[1..], search);
        forall i | 0 < i < |turns| - 1 ensures !(turns[i].Failed? && turns[i].k < |top|) {
          assert turns[i] == rest[i - 1];
        }
      } else {
        assert rest == [];
      }
    }
  }

  /** One pass of the loop body: prompt, read, check the range, search, print. */
  method Pass(top: seq<(string, int)>, input: Option<int>, search: SearchApi, trendsPlace: TrendsApi, hashtag: int)
    returns (t: Turn, next: int)
    ensures t == TurnFor(top, input, search) && next == After(hashtag, t)
  {
    var lines := Prompt(top);
    next := hashtag;
    match input {
      case None =>
        t := NotANumber;
      case Some(k) =>
        next := k;
        if !Accepts(|top|, k) {
          t := OutOfRange(k);
        } else {
          var hashtagRows, nameRows, wordRows;
          t, hashtagRows, nameRows, wordRows := SearchTrend(k, top[k - 1].0, search, trendsPlace);
          if t.Shown? {
            next := 0;
          }
        }
    }
  }

  /** The body's search for the chosen trend and, when it succeeds, the rows
      of the three tables printed from the pages it collected. */
  method SearchTrend(k: int, term: string, search: SearchApi, trendsPlace: TrendsApi)
    returns (t: Turn, hashtagRows: seq<(string, int)>, nameRows: seq<(Option<string>, int)>,
             wordRows: seq<(string, int)>)
    ensures t == SearchTurn(k, term, search)
    ensures t.Shown? ==> && hashtagRows == Statistics.Reported(Statistics.Hashtags(t.pages))
                         && nameRows == Statistics.Reported(Statistics.ScreenNames(t.pages))
                         && wordRows == Statistics.Reported(Statistics.Words(t.pages))
  {
    hashtagRows, nameRows, wordRows := [], [], [];
    var tweets := NewQuery(search, trendsPlace, Search, None, Some(term), None, true);
    if tweets.None? {
      t := Failed(k, term);
    } else {
      var stats := new Statistics.Statistics(tweets.value.jsonList);
      hashtagRows, nameRows, wordRows := stats.PrintPrettyTable();
      t := Shown(k, term, tweets.value.jsonList);
    }
  }

  /** `main`: the trends query, `top_trends`, then the selection loop over the
      lines typed. `crashed` when `q.query_result[0]` raises. */
  method RunMenu(search: SearchApi, trendsPlace: TrendsApi, inputs: seq<Option<int>>)
    returns (crashed: bool, top: seq<(string, int)>, turns: seq<Turn>, hashtag: int)
    ensures var trends := FirstTrends(match trendsPlace(DefaultWoeid) case Some(ps) => TrendsResult(ps) case None => NoResult);
            && (crashed <==> trends.None?)
            && (!crashed ==> top == TopTrends(trends.value)
                             && turns == Run(top, 0, inputs, search)
                             && hashtag == Final(top, 0, inputs, search))
  {
    var q := NewQuery(search, trendsPlace, Trends, None, None, None, false);
    var trends := FirstTrends(q.value.queryResult);
    if trends.None? {
      return true, [], [], 0;
    }
    crashed := false;
    top := TopTrends(trends.value);
    hashtag := 0;
    turns := [];
    var i := 0;
    while i < |inputs| && Continue(|top|, hashtag)
      invariant 0 <= i <= |inputs|
      invariant Run(top, 0, inputs, search) == turns + Run(top, hashtag, inputs[i..], search)
      invariant Final(top, 0, inputs, search) == Final(top, hashtag, inputs[i..], search)
      decreases |inputs| - i
    {
      var t, next := Pass(top, inputs[i], search, trendsPlace, hashtag);
      assert inputs[i..][1..] == inputs[i + 1..];
      assert Run(top, hashtag, inputs[i..], search) == [t] + Run(top, next, inputs[i + 1..], search);
      turns := turns + [t];
      hashtag := next;
      i := i + 1;
    }
    assert Run(top, hashtag, inputs[i..], search) == [];
  }
}
