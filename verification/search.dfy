/** The search page (dynamicRendering.js): a trimmed query, the AI's titles,
    one OMDb lookup for each of the first eight, and the found films shown
    as cards ranked by the same score as the watchlist. The AI reply and the
    lookups are the answers the page received, given as inputs. */
module Search {
  import opened Js
  import opened Ranking
  import opened Watchlist
  import opened Suggestions

  /** The OMDb fields the page reads. */
  datatype Movie = Movie(
    imdbID: string, title: string, year: string, poster: string, imdbRating: string,
    runtime: string, genre: string, plot: string, director: string, actors: string)

  /** What a result card shows, after the 'N/A' placeholders are replaced. */
  datatype Card = Card(
    movie: Movie, poster: string, rating: string, genre: string,
    runtime: string, plot: string, director: string, actors: string)

  const Placeholder: string := "N/A"
  const NoPoster: string := "assets/no-poster.png"
  const NoRating: string := "\U{2014}"

  /** A text field with OMDb's placeholder shown blank. */
  function Shown(field: string): (r: string)
    ensures field != Placeholder ==> r == field
    ensures field == Placeholder ==> r == []
  {
    if field == Placeholder then "" else field
  }

  /** The card of a film: a missing poster becomes the stock image, a missing
      rating a dash, and every other missing field blank; present fields are
      shown as they are. */
  function CardOf(m: Movie): (c: Card)
    ensures c.movie == m
    ensures c.poster == if m.poster == Placeholder then NoPoster else m.poster
    ensures c.rating == if m.imdbRating == Placeholder then NoRating else m.imdbRating
    ensures c.runtime == Shown(m.runtime) && c.genre == Shown(m.genre) && c.plot == Shown(m.plot)
    ensures c.director == Shown(m.director) && c.actors == Shown(m.actors)
  {
    Card(m,
      if m.poster != Placeholder then m.poster else NoPoster,
      if m.imdbRating != Placeholder then m.imdbRating else NoRating,
      Shown(m.genre), Shown(m.runtime), Shown(m.plot), Shown(m.director), Shown(m.actors))
  }

  /** One card per film, in order. */
  function Cards(ms: seq<Movie>): (cs: seq<Card>)
    ensures |cs| == |ms|
    ensures forall i :: 0 <= i < |ms| ==> cs[i] == CardOf(ms[i])
  {
    seq(|ms|, i requires 0 <= i < |ms| => CardOf(ms[i]))
  }

  /** The comparator's score of a film, from its raw OMDb fields. */
  function MovieRatio(m: Movie): real {
    ValueRatio(m.imdbRating, m.runtime)
  }

  /** The record "Add to Watchlist" stores: the card's poster, runtime and
      rating, the film's id, title and year. */
  function WatchlistEntry(m: Movie): (x: Item)
    ensures x.id == m.imdbID && x.title == m.title && x.year == m.year
    ensures var c := CardOf(m); x.poster == c.poster && x.runtime == c.runtime && x.rating == c.rating
  {
    var c := CardOf(m);
    Item(m.imdbID, m.title, c.poster, m.year, c.runtime, c.rating)
  }

  /** A rating of 'N/A' is NaN to parseFloat and reads as 0. */
  lemma {:induction false} MissingRatingReadsAsZero()
    ensures RatingValue(Placeholder) == 0.0
  {
    assert Placeholder == "N/A";
    NotANumber("N/A");
  }

  /** The dash shown for a missing rating is NaN to parseFloat too, so a
      film added from its card still reads as rating 0. */
  lemma {:induction false} DashReadsAsZero()
    ensures RatingValue(NoRating) == 0.0
  {
    assert NoRating == "\U{2014}";
    NotANumber("\U{2014}");
  }

  /** A runtime of 'N/A' is NaN to parseInt and reads as 120 minutes. */
  lemma {:induction false} MissingRuntimeReadsAsDefault()
    ensures RankingRuntime(Placeholder) == 120
  {
    assert Placeholder == "N/A";
    NotANumber("N/A");
  }

  /** The blank shown for a missing runtime reads as 120 minutes too. */
  lemma {:induction false} BlankRuntimeReadsAsDefault()
    ensures RankingRuntime("") == 120
  {
    NotANumber("");
  }

  /** Replacing the placeholders does not change a film's score, so a film
      added from the results ranks in the watchlist as it ranked here. */
  lemma {:induction false} WatchlistEntryKeepsScore(m: Movie)
    ensures ItemRatio(WatchlistEntry(m)) == MovieRatio(m)
  {
    MissingRatingReadsAsZero();
    DashReadsAsZero();
    MissingRuntimeReadsAsDefault();
    BlankRuntimeReadsAsDefault();
  }

  /** displayResults: the array is sorted in place by score, highest first
      (stably), and one card is made per film in the new order. */
  method DisplayResults(movies: array<Movie>) returns (cards: seq<Card>)
    modifies movies
    ensures movies[..] == SortDesc(old(movies[..]), MovieRatio)
    ensures cards == Cards(movies[..])
  {
    var sorted := SortDesc(movies[..], MovieRatio);
    assert |sorted| == movies.Length by {
      SortDescIsOrderedPermutation(movies[..], MovieRatio);
      assert |multiset(sorted)| == |multiset(movies[..])|;
    }
    forall i | 0 <= i < movies.Length {
      movies[i] := sorted[i];
    }
    assert movies[..] == sorted;
    cards := RenderCards(movies);
  }

  /** The forEach of displayResults: one card per film, in array order. */
  method RenderCards(movies: array<Movie>) returns (cards: seq<Card>)
    ensures cards == Cards(movies[..])
  {
    cards := [];
    for i := 0 to movies.Length
      invariant |cards| == i
      invariant forall k :: 0 <= k < i ==> cards[k] == CardOf(movies[k])
    {
      cards := cards + [CardOf(movies[i])];
    }
  }

  /** A fresh array holding the films, in order. */
  method NewArray(ms: seq<Movie>) returns (a: array<Movie>)
    ensures fresh(a) && a[..] == ms
  {
    a := new Movie[|ms|](i requires 0 <= i < |ms| => ms[i]);
  }

  /** The films found among the titles looked up, in title order: a lookup
      answers with the film when OMDb's Response is 'True', and with nothing
      when it is not or the request fails. */
  function Found(lookup: string -> Option<Movie>, titles: seq<string>): (r: seq<Movie>)
    ensures |r| <= |titles|
  {
    if titles == [] then []
    else
      var last := titles[|titles| - 1];
      Found(lookup, titles[..|titles| - 1]) + if lookup(last).Some? then [lookup(last).value] else []
  }

  /** The loop over the picked titles: each is looked up in turn and the
      film kept when one is found; a failed lookup is skipped. */
  method LookUpAll(lookup: string -> Option<Movie>, picked: seq<string>) returns (movieDetails: seq<Movie>)
    ensures movieDetails == Found(lookup, picked)
  {
    movieDetails := [];
    for i := 0 to |picked|
      invariant movieDetails == Found(lookup, picked[..i])
    {
      assert picked[..i + 1][..i] == picked[..i];
      var data := lookup(picked[i]);
      if data.Some? {
        movieDetails := movieDetails + [data.value];
      }
    }
    assert picked[..|picked|] == picked;
  }

  /** Looking up two runs of titles one after the other finds the films of
      the first run, then those of the second. */
  lemma {:induction false} FoundConcat(lookup: string -> Option<Movie>, a: seq<string>, b: seq<string>)
    ensures Found(lookup, a + b) == Found(lookup, a) + Found(lookup, b)
    decreases |b|
  {
    if b == [] {
      assert a + b == a;
    } else {
      var b' := b[..|b| - 1];
      assert (a + b)[..|a + b| - 1] == a + b' && (a + b)[|a + b| - 1] == b[|b| - 1];
      FoundConcat(lookup, a, b');
    }
  }

  /** A film is found exactly when some title's lookup answered with it. */
  lemma {:induction false} FoundMembers(lookup: string -> Option<Movie>, titles: seq<string>, m: Movie)
    ensures m in Found(lookup, titles) <==> exists i :: 0 <= i < |titles| && lookup(titles[i]) == Some(m)
  {
    if titles != [] {
      var init := titles[..|titles| - 1];
      FoundMembers(lookup, init, m);
      assert forall i :: 0 <= i < |init| ==> init[i] == titles[i];
      if exists i :: 0 <= i < |titles| && lookup(titles[i]) == Some(m) {
        var i :| 0 <= i < |titles| && lookup(titles[i]) == Some(m);
        if i < |init| {
          assert lookup(init[i]) == Some(m);
        }
      }
    }
  }

  /** Nothing is found exactly when no lookup answered. */
  lemma {:induction false} FoundNothing(lookup: string -> Option<Movie>, titles: seq<string>)
    ensures Found(lookup, titles) == [] <==> forall i :: 0 <= i < |titles| ==> lookup(titles[i]).None?
  {
    if Found(lookup, titles) != [] {
      var m := Found(lookup, titles)[0];
      FoundMembers(lookup, titles, m);
    } else {
      forall i | 0 <= i < |titles| ensures lookup(titles[i]).None? {
        if lookup(titles[i]).Some? {
          FoundMembers(lookup, titles, lookup(titles[i]).value);
        }
      }
    }
  }

  /** movieTitles.slice(0, 8). */
  function FirstEight(titles: seq<string>): (r: seq<string>)
    ensures |r| <= 8 && |r| <= |titles| && r == titles[..|r|]
    ensures |titles| >= 8 ==> |r| == 8
    ensures |titles| < 8 ==> r == titles
  {
    if |titles| <= 8 then titles else titles[..8]
  }

  /** The second half of searchMovies: look up the first eight titles and
      show the films found, ranked, or the "No movies found" message. */
  method ShowFound(movieTitles: seq<string>, lookup: string -> Option<Movie>) returns (screen: Screen)
    ensures screen == NoMovies <==> Found(lookup, FirstEight(movieTitles)) == []
    ensures screen != NoMovies ==> screen == Results(Cards(SortDesc(Found(lookup, FirstEight(movieTitles)), MovieRatio)))
  {
    var picked := FirstEight(movieTitles);
    var movieDetails := LookUpAll(lookup, picked);
    if |movieDetails| > 0 {
      var shown := NewArray(movieDetails);
      var cards := DisplayResults(shown);
      screen := Results(cards);
    } else {
      screen := NoMovies;
    }
  }

  /** What the results area ends up showing. */
  datatype Screen =
    | Prompt                  // the query was blank
    | Failed(message: string) // getMovieSuggestionsFromAI threw
    | NoMovies                // no lookup found a film
    | Results(cards: seq<Card>)

  /** The page's search state. */
  class SearchPage {
    /** searchHistory: every title the AI has suggested so far. */
    var history: seq<string>

    constructor ()
      ensures history == []
    {
      history := [];
    }

    /** searchMovies, given the AI's reply to the trimmed query and the
        OMDb answer for each title. */
    method SearchMovies(input: string, reply: Reply, lookup: string -> Option<Movie>) returns (screen: Screen)
      modifies this
      ensures Trim(input) == [] ==> screen == Prompt && history == old(history)
      ensures Trim(input) != [] && ParseSuggestions(reply).Err? ==>
        screen == Failed(ParseSuggestions(reply).error) && history == old(history)
      ensures Trim(input) != [] && ParseSuggestions(reply).Ok? ==>
        history == old(history) + ParseSuggestions(reply).value
      ensures Trim(input) != [] && ParseSuggestions(reply).Ok? ==>
        (screen == NoMovies <==> Found(lookup, FirstEight(ParseSuggestions(reply).value)) == [])
      ensures Trim(input) != [] && ParseSuggestions(reply).Ok? && screen != NoMovies ==>
        screen == Results(Cards(SortDesc(Found(lookup, FirstEight(ParseSuggestions(reply).value)), MovieRatio)))
    {
      var query := Trim(input);
      if query == [] {
        return Prompt;
      }
      var suggestions := ParseSuggestions(reply);
      if suggestions.Err? {
        return Failed(suggestions.error);
      }
      var movieTitles := suggestions.value;
      history := history + movieTitles;
      screen := ShowFound(movieTitles, lookup);
    }
  }
}
