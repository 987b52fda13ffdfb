/** The search box of src/components/search.tsx: the list of suggestions it
    keeps, how each change of the input updates it, and what it renders.

    Every change of the input calls `handleSearch`; the body of the search route
    (or the failure to get one) is an input, and each completed call is one
    event, applied in the order the calls complete. The component neither
    debounces nor discards a reply that arrives after a newer one. */
module MovieSearch {
  import opened Wrappers
  import opened Text
  import opened QueryString

  /** The fields of a catalog movie the suggestions read. */
  datatype Movie = Movie(id: int, title: string, releaseDate: Option<string>, posterPath: Option<string>)

  /** The search route's JSON body as far as the component reads it (its
      `results`, when present), or a fetch or JSON parse that failed. */
  datatype Reply = Body(results: Option<seq<Movie>>) | FetchFailed

  /** The suggestions after a call, and the term it fetched for, if it fetched. */
  datatype SearchStep = SearchStep(results: seq<Movie>, fetched: Option<string>)

  /** `handleSearch(term)`, completed with `reply`. */
  function HandleSearch(results: seq<Movie>, term: string, reply: Reply): (r: SearchStep)
    ensures term == "" ==> r.results == [] && r.fetched.None?
    ensures term != "" ==> r.fetched == Some(term)
    ensures term != "" && reply.FetchFailed? ==> r.results == results
    ensures term != "" && reply.Body? && reply.results.Some? ==> r.results == reply.results.value
    ensures term != "" && reply.Body? && reply.results.None? ==> r.results == []
  {
    if term == "" then SearchStep([], None)
    else match reply
      case FetchFailed => SearchStep(results, Some(term))
      case Body(rs) => SearchStep(rs.GetOr([]), Some(term))
  }

  /** Choosing a suggestion empties the list. */
  function OnResultClick(results: seq<Movie>): (r: seq<Movie>)
    ensures Render(r) == NoResultsPanel
  {
    []
  }

  /** One completed call: the term typed and the reply its fetch got. */
  datatype Completion = Completion(term: string, reply: Reply)

  /** The suggestions after a sequence of completions, applied in order. */
  function Apply(results: seq<Movie>, cs: seq<Completion>): seq<Movie>
    decreases |cs|
  {
    if cs == [] then results
    else Apply(HandleSearch(results, cs[0].term, cs[0].reply).results, cs[1..])
  }

  /** A completion that sets the list: an empty term, or a fetch that got a body. */
  predicate Sets(c: Completion)
  {
    c.term == "" || c.reply.Body?
  }

  /** The list a setting completion leaves. */
  function SetTo(c: Completion): seq<Movie>
    requires Sets(c)
  {
    if c.term == "" then [] else c.reply.results.GetOr([])
  }

  /** Reference definition: the list shows what the last completion that sets
      it set, and the starting list when none does. */
  function LastWins(results: seq<Movie>, cs: seq<Completion>): seq<Movie>
    decreases |cs|
  {
    if cs == [] then results
    else if Sets(cs[|cs| - 1]) then SetTo(cs[|cs| - 1])
    else LastWins(results, cs[..|cs| - 1])
  }

  lemma {:induction false} ApplySnoc(results: seq<Movie>, cs: seq<Completion>, c: Completion)
    ensures Apply(results, cs + [c]) == HandleSearch(Apply(results, cs), c.term, c.reply).results
    decreases |cs|
  {
    if cs != [] {
      assert (cs + [c])[1..] == cs[1..] + [c];
      ApplySnoc(HandleSearch(results, cs[0].term, cs[0].reply).results, cs[1..], c);
    }
  }

  /** Applying the completions in order is the same as keeping the last one that
      sets the list: a reply that completes late overwrites a newer term's. */
  lemma {:induction false} ApplyIsLastWins(results: seq<Movie>, cs: seq<Completion>)
    ensures Apply(results, cs) == LastWins(results, cs)
    decreases |cs|
  {
    if cs != [] {
      var init := cs[..|cs| - 1];
      var c := cs[|cs| - 1];
      assert cs == init + [c];
      ApplySnoc(results, init, c);
      ApplyIsLastWins(results, init);
    }
  }

  /** No reply is discarded as stale: if the reply for `cat` completes after
      the one for `cats`, the list shows the `cat` results. */
  lemma StaleReplyOverwrites(results: seq<Movie>, forCats: seq<Movie>, forCat: seq<Movie>)
    ensures Apply(results, [Completion("cats", Body(Some(forCats))), Completion("cat", Body(Some(forCat)))]) == forCat
  {
    ApplyIsLastWins(results, [Completion("cats", Body(Some(forCats))), Completion("cat", Body(Some(forCat)))]);
  }

  const UnknownYear := "Unknown year"
  const PosterBase := "https://image.tmdb.org/t/p/w92"

  /** The year line: the release date up to its first `-`, or `Unknown year`
      when there is no date or that part is empty. */
  function YearLabel(releaseDate: Option<string>): (shown: string)
    ensures releaseDate.None? ==> shown == UnknownYear
    ensures '-' !in shown
    ensures shown != UnknownYear ==> releaseDate.Some? && shown <= releaseDate.value && shown != ""
    // the year is the whole part before the first `-`, or the whole date
    ensures shown != UnknownYear ==>
      |shown| == |releaseDate.value| || releaseDate.value[|shown|] == '-'
    // a date that does not start with `-` always shows its leading part
    ensures releaseDate.Some? && releaseDate.value != "" && releaseDate.value[0] != '-' ==>
      && shown != "" && shown <= releaseDate.value
      && (|shown| == |releaseDate.value| || releaseDate.value[|shown|] == '-')
    ensures releaseDate.Some? && (releaseDate.value == "" || releaseDate.value[0] == '-') ==>
      shown == UnknownYear
  {
    if releaseDate.None? then UnknownYear
    else
      var year := FirstSegment(releaseDate.value, '-');
      if year == "" then UnknownYear else year
  }

  /** For a date written `year-rest` the label is the year. */
  lemma YearOfDate(year: string, rest: string)
    requires year != "" && '-' !in year
    ensures YearLabel(Some(year + "-" + rest)) == year
  {
    var d := year + "-" + rest;
    assert d[..|year|] == year && d[|year|] == '-';
    FirstSegmentUnique(d, '-', year);
  }

  /** A date with no `-`, such as `2020`, is shown whole. */
  lemma YearOfUndashedDate(d: string)
    requires d != "" && '-' !in d
    ensures YearLabel(Some(d)) == d
  {
    FirstSegmentNoSeparator(d, '-');
  }

  /** A date that starts with `-` has no year. */
  lemma LeadingDashHasNoYear(rest: string)
    ensures YearLabel(Some("-" + rest)) == UnknownYear
  {
  }

  datatype Poster = Image(src: string, alt: string) | Placeholder

  /** The poster is shown when the path is truthy (present and non-empty), from
      the fixed image prefix; otherwise the `No img` placeholder. */
  function PosterFor(m: Movie): (p: Poster)
    ensures p.Image? <==> m.posterPath.Some? && m.posterPath.value != ""
    ensures p.Image? ==> PosterBase <= p.src && p.src[|PosterBase|..] == m.posterPath.value
    ensures p.Image? ==> p.alt == m.title
  {
    if m.posterPath.Some? && m.posterPath.value != "" then Image(PosterBase + m.posterPath.value, m.title)
    else Placeholder
  }

  /** Two movies with posters show the same image exactly when they have the
      same poster path and the same title: the prefix loses nothing. */
  lemma PosterIdentifiesMovie(m: Movie, m': Movie)
    requires PosterFor(m).Image? && PosterFor(m').Image?
    ensures PosterFor(m) == PosterFor(m') <==> m.posterPath == m'.posterPath && m.title == m'.title
  {
    if PosterFor(m) == PosterFor(m') {
      assert m.posterPath.value == PosterFor(m).src[|PosterBase|..];
    }
  }

  datatype Suggestion = Suggestion(id: int, title: string, poster: Poster, year: string)

  /** The suggestion panel when there are results, the "no results" panel
      otherwise (also before anything was typed). */
  datatype View = SuggestionList(items: seq<Suggestion>) | NoResultsPanel

  function Suggest(m: Movie): Suggestion
  {
    Suggestion(m.id, m.title, PosterFor(m), YearLabel(m.releaseDate))
  }

  function Render(results: seq<Movie>): (v: View)
    ensures v.SuggestionList? <==> |results| > 0
    ensures v.SuggestionList? ==>
      && |v.items| == |results|
      && forall i :: 0 <= i < |results| ==> v.items[i] == Suggest(results[i])
  {
    if |results| > 0 then SuggestionList(seq(|results|, i requires 0 <= i < |results| => Suggest(results[i])))
    else NoResultsPanel
  }

  /** The query the search route reads when the term is written into the
      request URL raw, as the component does. */
  function RouteQueryAsWritten(term: string): (q: string)
    ensures AllVerbatim(term) ==> q == term
  {
    ReceivedValueOfVerbatim(term);
    ReceivedValue(term)
  }

  /** The query the search route reads when the term is encoded first: the term
      itself. */
  function RouteQuery(term: string): (q: string)
    ensures q == term
  {
    EncodeComponentRoundTrip(term);
    ReceivedValue(EncodeComponent(term))
  }

  /** As written, a term with `&` in it is searched only up to the `&`. */
  lemma AsWrittenCutsAtAmpersand(before: string, after: string)
    requires AllVerbatim(before) && AllVerbatim(after)
    ensures RouteQueryAsWritten(before + "&" + after) == before
  {
    var t := before + "&" + after;
    JoinedWithAmpersand(before, after);
    assert TrimEndC0Space(t) == t;
    assert RemoveTabNewline(t) == t;
    assert '#' !in t;
    FirstSegmentNoSeparator(t, '#');
    assert t[..|before|] == before && t[|before|] == '&';
    FirstSegmentUnique(t, '&', before);
  }

  lemma JoinedWithAmpersand(before: string, after: string)
    requires AllVerbatim(before) && AllVerbatim(after)
    ensures var t := before + "&" + after;
      forall i :: 0 <= i < |t| ==> !IsC0OrSpace(t[i]) && !IsTabOrNewline(t[i]) && t[i] != '#'
  {
    var t := before + "&" + after;
    forall i | 0 <= i < |t|
      ensures !IsC0OrSpace(t[i]) && !IsTabOrNewline(t[i]) && t[i] != '#'
    {
      if i < |before| {
        assert t[i] == before[i];
      } else if i > |before| {
        assert t[i] == after[i - |before| - 1];
      }
    }
  }

  /** An instance: the term `a&b` is searched as `a`. */
  lemma AmpersandExample()
    ensures RouteQueryAsWritten("a&b") == "a"
  {
    assert "a" + "&" + "b" == "a&b";
    AsWrittenCutsAtAmpersand("a", "b");
  }
}
