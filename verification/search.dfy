/** The search page: on submit of a non-blank query, fetch every recording,
    keep those whose lower-cased text contains the lower-cased query, copy
    their fields into results with a random score in [0.5, 1.0), sort by
    score (highest first) and pick one of five displays. Lower-casing is a
    per-character function passed in; the random draws are an input. */
module SearchPage {
  import opened Records

  datatype SearchResult = SearchResult(
    id: string,
    text: string,
    timestamp: Timestamp,
    latitude: Option<real>,
    longitude: Option<real>,
    city: Option<string>,
    similarity: real)

  const SearchErrorMessage: string := "搜索失败，请重试"

  /** The characters `String.prototype.trim` removes: the ECMAScript
      WhiteSpace and LineTerminator code points. */
  predicate IsTrimmed(c: char)
  {
    var n := c as int;
    n == 0x09 || n == 0x0A || n == 0x0B || n == 0x0C || n == 0x0D || n == 0x20
    || n == 0xA0 || n == 0x1680 || (0x2000 <= n <= 0x200A) || n == 0x2028
    || n == 0x2029 || n == 0x202F || n == 0x205F || n == 0x3000 || n == 0xFEFF
  }

  /** `!query.trim()`: the query trims to the empty string. */
  predicate Blank(q: string)
  {
    forall i :: 0 <= i < |q| ==> IsTrimmed(q[i])
  }

  /** `toLowerCase`, applied character by character. */
  function Lower(s: string, lower: char -> char): (r: string)
    ensures |r| == |s|
    ensures forall i :: 0 <= i < |s| ==> r[i] == lower(s[i])
  {
    seq(|s|, i requires 0 <= i < |s| => lower(s[i]))
  }

  /** `needle` occurs in `hay` starting at `i`. */
  ghost predicate OccursAt(hay: string, needle: string, i: int)
  {
    0 <= i && i + |needle| <= |hay| && hay[i..i + |needle|] == needle
  }

  lemma OccursShift(hay: string, needle: string, i: int)
    requires |hay| > 0 && i >= 0
    ensures OccursAt(hay[1..], needle, i) <==> OccursAt(hay, needle, i + 1)
  {
    if 0 <= i && i + |needle| <= |hay| - 1 {
      assert hay[1..][i..i + |needle|] == hay[i + 1..i + 1 + |needle|];
    }
  }

  /** `hay.includes(needle)`. */
  function Includes(hay: string, needle: string): (b: bool)
    ensures b <==> exists i :: OccursAt(hay, needle, i)
    decreases |hay|
  {
    if |needle| > |hay| then false
    else if hay[..|needle|] == needle then
      assert OccursAt(hay, needle, 0);
      true
    else
      var b := Includes(hay[1..], needle);
      assert b <==> exists i :: OccursAt(hay, needle, i) by {
        if b {
          var i :| OccursAt(hay[1..], needle, i);
          OccursShift(hay, needle, i);
        }
        if exists i :: OccursAt(hay, needle, i) {
          var i :| OccursAt(hay, needle, i);
          assert i != 0;
          OccursShift(hay, needle, i - 1);
        }
      }
      b
  }

  /** The filter predicate of `handleSearch`. */
  predicate Matches(rec: Recording, query: string, lower: char -> char)
  {
    Includes(Lower(rec.text, lower), Lower(query, lower))
  }

  /** `recordings.filter(...)`: the matching recordings in fetched order. */
  function Matching(recs: seq<Recording>, query: string, lower: char -> char): (r: seq<Recording>)
    ensures |r| <= |recs|
    ensures forall x :: x in r <==> x in recs && Matches(x, query, lower)
    ensures forall x {:trigger multiset(r)[x]} :: multiset(r)[x] == if Matches(x, query, lower) then multiset(recs)[x] else 0
    decreases |recs|
  {
    if recs == [] then []
    else
      var rest := Matching(recs[1..], query, lower);
      assert recs == [recs[0]] + recs[1..];
      if Matches(recs[0], query, lower) then [recs[0]] + rest else rest
  }

  /** `Math.random() * 0.5 + 0.5`, given the draw. */
  function Score(draw: real): (s: real)
    requires 0.0 <= draw < 1.0
    ensures 0.5 <= s < 1.0
  {
    draw * 0.5 + 0.5
  }

  /** The `map` step: every field copied, plus the score. */
  function ToResult(rec: Recording, score: real): (r: SearchResult)
  {
    SearchResult(rec.id, rec.text, rec.timestamp, rec.latitude, rec.longitude, rec.city, score)
  }

  /** Draws the random source may give: one per fetched recording is
      enough for any filter outcome, each in [0, 1). */
  predicate DrawsFit(draws: seq<real>, recs: seq<Recording>)
  {
    |draws| >= |recs| && forall i :: 0 <= i < |draws| ==> 0.0 <= draws[i] < 1.0
  }

  function Scored(matches: seq<Recording>, draws: seq<real>): (r: seq<SearchResult>)
    requires |draws| >= |matches|
    requires forall i :: 0 <= i < |draws| ==> 0.0 <= draws[i] < 1.0
    ensures |r| == |matches|
    ensures forall i :: 0 <= i < |r| ==> r[i] == ToResult(matches[i], Score(draws[i]))
  {
    seq(|matches|, i requires 0 <= i < |matches| => ToResult(matches[i], Score(draws[i])))
  }

  predicate NonIncreasing(rs: seq<SearchResult>)
  {
    forall i, j :: 0 <= i < j < |rs| ==> rs[i].similarity >= rs[j].similarity
  }

  /** Insert `x` ahead of the first result scoring no higher, so that
      earlier results stay ahead of equal-scoring later ones. */
  function InsertByScore(x: SearchResult, sorted: seq<SearchResult>): (r: seq<SearchResult>)
    ensures |r| == |sorted| + 1
    ensures multiset(r) == multiset(sorted) + multiset{x}
    ensures forall k :: 0 <= k < |r| ==> r[k] == x || r[k] in sorted
    decreases |sorted|
  {
    if sorted == [] || sorted[0].similarity <= x.similarity then [x] + sorted
    else
      assert sorted == [sorted[0]] + sorted[1..];
      [sorted[0]] + InsertByScore(x, sorted[1..])
  }

  /** Inserting into a list sorted by descending score keeps it sorted. */
  lemma {:induction false} InsertKeepsOrder(x: SearchResult, sorted: seq<SearchResult>)
    requires NonIncreasing(sorted)
    ensures NonIncreasing(InsertByScore(x, sorted))
    decreases |sorted|
  {
    if sorted != [] && sorted[0].similarity > x.similarity {
      var head, rest := sorted[0], sorted[1..];
      InsertKeepsOrder(x, rest);
      var tail := InsertByScore(x, rest);
      forall k | 0 <= k < |tail| ensures tail[k].similarity <= head.similarity {
        if tail[k] != x {
          var i :| 0 <= i < |rest| && rest[i] == tail[k];
          assert sorted[i + 1] == tail[k];
        }
      }
      assert InsertByScore(x, sorted) == [head] + tail;
    }
  }

  /** `.sort((a, b) => b.similarity - a.similarity)`. */
  function SortByScore(rs: seq<SearchResult>): (r: seq<SearchResult>)
    ensures |r| == |rs|
    ensures multiset(r) == multiset(rs)
    ensures NonIncreasing(r)
    decreases |rs|
  {
    if rs == [] then []
    else
      assert rs == [rs[0]] + rs[1..];
      var rest := SortByScore(rs[1..]);
      InsertKeepsOrder(rs[0], rest);
      InsertByScore(rs[0], rest)
  }

  /** The result list of one search: the matching recordings, scored, then
      ordered by descending score. */
  function Search(recs: seq<Recording>, query: string, draws: seq<real>, lower: char -> char)
    : (results: seq<SearchResult>)
    requires DrawsFit(draws, recs)
    ensures |results| == |Matching(recs, query, lower)|
    ensures multiset(results) == multiset(Scored(Matching(recs, query, lower), draws))
    ensures NonIncreasing(results)
  {
    SortByScore(Scored(Matching(recs, query, lower), draws))
  }

  /** Soundness: every result is a matching fetched recording with its fields
      unchanged, its text contains the query ignoring case, and its score
      lies in [0.5, 1.0). */
  lemma SearchSound(recs: seq<Recording>, query: string, draws: seq<real>, lower: char -> char)
    requires DrawsFit(draws, recs)
    ensures var results := Search(recs, query, draws, lower);
      forall k :: 0 <= k < |results| ==>
        && 0.5 <= results[k].similarity < 1.0
        && Includes(Lower(results[k].text, lower), Lower(query, lower))
        && exists rec :: rec in recs && results[k] == ToResult(rec, results[k].similarity)
  {
    var matches := Matching(recs, query, lower);
    var scored := Scored(matches, draws);
    var results := Search(recs, query, draws, lower);
    forall k | 0 <= k < |results|
      ensures 0.5 <= results[k].similarity < 1.0
      ensures Includes(Lower(results[k].text, lower), Lower(query, lower))
      ensures exists rec :: rec in recs && results[k] == ToResult(rec, results[k].similarity)
    {
      assert results[k] in multiset(scored);
      var i :| 0 <= i < |scored| && scored[i] == results[k];
      assert matches[i] in matches;
    }
  }

  /** Completeness: every fetched recording whose lower-cased text contains
      the lower-cased query appears among the results with its fields
      unchanged. */
  lemma SearchComplete(recs: seq<Recording>, query: string, draws: seq<real>, lower: char -> char)
    requires DrawsFit(draws, recs)
    ensures var results := Search(recs, query, draws, lower);
      forall rec :: rec in recs && Matches(rec, query, lower) ==>
        exists k :: 0 <= k < |results| && results[k] == ToResult(rec, results[k].similarity)
  {
    var matches := Matching(recs, query, lower);
    var scored := Scored(matches, draws);
    var results := Search(recs, query, draws, lower);
    forall rec | rec in recs && Matches(rec, query, lower)
      ensures exists k :: 0 <= k < |results| && results[k] == ToResult(rec, results[k].similarity)
    {
      var i :| 0 <= i < |matches| && matches[i] == rec;
      assert scored[i] in multiset(results);
      var k :| 0 <= k < |results| && results[k] == scored[i];
    }
  }

  datatype SearchState = SearchState(
    query: string,
    results: seq<SearchResult>,
    isSearching: bool,
    error: Option<string>,
    hasSearched: bool)

  const Initial: SearchState := SearchState("", [], false, None, false)

  /** The input's `onChange`. */
  function SetQuery(s: SearchState, q: string): (r: SearchState)
    ensures r.query == q
    ensures r.results == s.results && r.isSearching == s.isSearching
    ensures r.error == s.error && r.hasSearched == s.hasSearched
  {
    s.(query := q)
  }

  /** Submitting: a blank query returns at once; otherwise the page enters
      the searching state and remembers that a search was made. */
  function Submit(s: SearchState): (r: SearchState)
    ensures Blank(s.query) ==> r == s
    ensures !Blank(s.query) ==> r == s.(isSearching := true, hasSearched := true)
  {
    if Blank(s.query) then s else s.(isSearching := true, hasSearched := true)
  }

  /** The request settles: results replace the old ones and the error clears,
      or the fixed message is set and the old results stay; searching ends.
      The filter uses `submitted`, the query the handler captured when the
      form was submitted: the input stays editable while the request runs,
      so `s.query` may since have changed, and it is left as typed. */
  function Settle(s: SearchState, outcome: Fetch, submitted: string, draws: seq<real>, lower: char -> char)
    : (r: SearchState)
    requires outcome.Fetched? ==> DrawsFit(draws, outcome.data)
    ensures !r.isSearching && r.query == s.query && r.hasSearched == s.hasSearched
    ensures outcome.Fetched? ==>
      r.error == None && r.results == Search(outcome.data, submitted, draws, lower)
    ensures outcome.FetchFailed? ==>
      r.error == Some(SearchErrorMessage) && r.results == s.results
  {
    match outcome
    case Fetched(data) =>
      s.(results := Search(data, submitted, draws, lower), error := None, isSearching := false)
    case FetchFailed =>
      s.(error := Some(SearchErrorMessage), isSearching := false)
  }

  /** `handleSearch` from submit to settle. */
  function HandleSearch(s: SearchState, outcome: Fetch, draws: seq<real>, lower: char -> char)
    : (r: SearchState)
    requires outcome.Fetched? ==> DrawsFit(draws, outcome.data)
    ensures Blank(s.query) ==> r == s
    ensures !Blank(s.query) ==> !r.isSearching && r.hasSearched && r.query == s.query
    ensures !Blank(s.query) && outcome.Fetched? ==>
      r.error == None && r.results == Search(outcome.data, s.query, draws, lower)
    ensures !Blank(s.query) && outcome.FetchFailed? ==>
      r.error == Some(SearchErrorMessage) && r.results == s.results
  {
    if Blank(s.query) then s else Settle(Submit(s), outcome, s.query, draws, lower)
  }

  /** Editing the input while a search runs changes what the box shows but
      not what the search finds: the results and the error are those of
      the submitted query, and the box keeps the edited text. */
  lemma EditWhileSearching(
    s: SearchState, edited: string, outcome: Fetch, draws: seq<real>, lower: char -> char)
    requires !Blank(s.query)
    requires outcome.Fetched? ==> DrawsFit(draws, outcome.data)
    ensures var r := Settle(SetQuery(Submit(s), edited), outcome, s.query, draws, lower);
      && r.query == edited
      && r.results == HandleSearch(s, outcome, draws, lower).results
      && r.error == HandleSearch(s, outcome, draws, lower).error
  {
  }

  datatype SearchView = Spinner | ErrorBox(message: string) | NoMatches | ResultList(results: seq<SearchResult>) | NothingYet

  /** The render branch: searching, then a truthy error, then a search with
      no results, then the results, else nothing. */
  function SelectView(s: SearchState): (v: SearchView)
    ensures v == Spinner <==> s.isSearching
    ensures v.ErrorBox? <==> !s.isSearching && StringTruthy(s.error)
    ensures v.ErrorBox? ==> v.message == s.error.value
    ensures v == NoMatches <==>
      !s.isSearching && !StringTruthy(s.error) && s.hasSearched && s.results == []
    ensures v.ResultList? ==> v.results == s.results && v.results != [] && s.hasSearched
    ensures v == NothingYet <==> !s.isSearching && !StringTruthy(s.error) && !s.hasSearched
  {
    if s.isSearching then Spinner
    else if StringTruthy(s.error) then ErrorBox(s.error.value)
    else if s.hasSearched && |s.results| == 0 then NoMatches
    else if s.hasSearched then ResultList(s.results)
    else NothingYet
  }

  lemma {:induction false} MatchingEmpty(recs: seq<Recording>, query: string, lower: char -> char)
    ensures Matching(recs, query, lower) == [] <==>
      forall x :: x in recs ==> !Matches(x, query, lower)
  {
    var m := Matching(recs, query, lower);
    if m != [] {
      assert m[0] in m;
    }
  }

  /** What the user sees around one submitted search: nothing before any
      search, a spinner while it runs, then the fixed message on failure,
      "no matches" when no fetched text contains the query (in particular
      when the list is empty), and the sorted results otherwise. */
  lemma SearchLifecycle(s: SearchState, outcome: Fetch, draws: seq<real>, lower: char -> char)
    requires !Blank(s.query)
    requires outcome.Fetched? ==> DrawsFit(draws, outcome.data)
    ensures SelectView(Initial) == NothingYet
    ensures SelectView(Submit(s)) == Spinner
    ensures outcome.FetchFailed? ==>
      SelectView(HandleSearch(s, outcome, draws, lower)) == ErrorBox(SearchErrorMessage)
    ensures outcome == Fetched([]) ==> SelectView(HandleSearch(s, outcome, draws, lower)) == NoMatches
    ensures outcome.Fetched? ==>
      (SelectView(HandleSearch(s, outcome, draws, lower)) == NoMatches <==>
         forall x :: x in outcome.data ==> !Matches(x, s.query, lower))
    ensures outcome.Fetched? && (exists x :: x in outcome.data && Matches(x, s.query, lower)) ==>
      SelectView(HandleSearch(s, outcome, draws, lower))
        == ResultList(Search(outcome.data, s.query, draws, lower))
  {
    if outcome.Fetched? {
      MatchingEmpty(outcome.data, s.query, lower);
    }
  }

  /** A blank or whitespace-only query changes nothing, whatever the
      request would have returned. */
  lemma BlankQueryIsNoOp(s: SearchState, outcome: Fetch, draws: seq<real>, lower: char -> char)
    requires Blank(s.query)
    requires outcome.Fetched? ==> DrawsFit(draws, outcome.data)
    ensures HandleSearch(s, outcome, draws, lower) == s
    ensures SelectView(HandleSearch(s, outcome, draws, lower)) == SelectView(s)
  {
  }
}
