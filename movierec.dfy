/** The in-memory movie recommender: a catalog of movies, a registry of users, and a
    recommendation that ranks catalog movies by a score built from rating maps. */
module MovieRec {
  import opened Wrappers
  import opened Sums
  import opened Scoring
  import opened Ranking

  /** At most this many movies are recommended. */
  const MaxRecommendations: nat := 5

  /** A catalog entry: a title, a genre list and the ratings recorded on the movie
      itself, keyed by rater. */
  class Movie {
    const title: string
    const genres: seq<string>
    var ratings: map<string, real>

    constructor (title: string, genres: seq<string>)
      ensures this.title == title && this.genres == genres
      ensures ratings == map[]
    {
      this.title := title;
      this.genres := genres;
      ratings := map[];
    }

    /** Records (or overwrites) `username`'s rating on this movie. */
    method AddRating(username: string, rating: real)
      modifies this
      ensures ratings == old(ratings)[username := rating]
    {
      ratings := ratings[username := rating];
    }

    /** The mean of the ratings recorded on this movie; `None` when there are none
        (where the source divides by zero). */
    method GetAverageRating() returns (average: Option<real>)
      ensures average == Mean(ratings)
      ensures average.Some? <==> |ratings| > 0
    {
      var sum := 0.0;
      var remaining := ratings.Keys;
      while remaining != {}
        invariant remaining <= ratings.Keys
        invariant sum + SumOver(ratings, remaining) == SumOver(ratings, ratings.Keys)
        decreases remaining
      {
        var rater :| rater in remaining;
        SumOverRemove(ratings, remaining, rater);
        sum := sum + ratings[rater];
        remaining := remaining - {rater};
      }
      if |ratings| == 0 {
        average := None;
      } else {
        average := Some(sum / |ratings| as real);
      }
    }
  }

  /** A registered user: a username, the user's own ratings keyed by title, and genre
      preferences that no operation reads. */
  class User {
    const username: string
    var preferences: map<string, real>
    var ratings: map<string, real>

    constructor (username: string)
      ensures this.username == username
      ensures preferences == map[] && ratings == map[]
    {
      this.username := username;
      preferences := map[];
      ratings := map[];
    }

    method UpdatePreference(genre: string, weight: real)
      modifies this
      ensures preferences == old(preferences)[genre := weight]
      ensures ratings == old(ratings)
    {
      preferences := preferences[genre := weight];
    }

    method RateMovie(title: string, rating: real)
      modifies this
      ensures ratings == old(ratings)[title := rating]
      ensures preferences == old(preferences)
    {
      ratings := ratings[title := rating];
    }
  }

  /** The movies of `ms` whose genre list contains `genre`, in catalog order. */
  function WithGenre(ms: seq<Movie>, genre: string): seq<Movie>
  {
    if ms == [] then []
    else
      var last := ms[|ms| - 1];
      WithGenre(ms[..|ms| - 1], genre) + (if genre in last.genres then [last] else [])
  }

  /** The movies of `ms` that have a score, with their scores, in catalog order. */
  ghost function ScoredList(ms: seq<Movie>, registry: map<string, map<string, real>>): seq<Scored<Movie>>
    reads ms
  {
    if ms == [] then []
    else
      var last := ms[|ms| - 1];
      var score := Score(last.title, last.ratings, registry);
      ScoredList(ms[..|ms| - 1], registry) + if score.Some? then [Scored(last, score.value)] else []
  }

  /** No movie of `ms` carries a rating. */
  ghost predicate Unrated(ms: seq<Movie>)
    reads ms
  {
    forall i :: 0 <= i < |ms| ==> ms[i].ratings == map[]
  }

  class RecommendationSystem {
    var movies: seq<Movie>
    var users: map<string, User>

    /** Every catalog entry is its own object, and the registry maps each username to
        that user's own, distinct, object. */
    ghost predicate Valid()
      reads this
    {
      && (forall i, j :: 0 <= i < j < |movies| ==> movies[i] != movies[j])
      && (forall u :: u in users ==> users[u].username == u)
      && (forall u, v :: u in users && v in users && u != v ==> users[u] != users[v])
    }

    /** The registry as values: each username's own title -> rating map. */
    ghost function Registry(): map<string, map<string, real>>
      reads this, users.Values
    {
      map u | u in users :: users[u].ratings
    }

    constructor ()
      ensures Valid()
      ensures movies == [] && users == map[]
    {
      movies := [];
      users := map[];
    }

    /** Appends a new movie with no ratings; an existing title is not checked for. */
    method AddMovie(title: string, genres: seq<string>)
      requires Valid()
      modifies this
      ensures Valid()
      ensures |movies| == |old(movies)| + 1 && movies[..|old(movies)|] == old(movies)
      ensures fresh(movies[|old(movies)|])
      ensures movies[|old(movies)|].title == title && movies[|old(movies)|].genres == genres
      ensures movies[|old(movies)|].ratings == map[]
      ensures forall i :: 0 <= i < |old(movies)| ==> movies[i].ratings == old(movies[i].ratings)
      ensures users == old(users) && Registry() == old(Registry())
      ensures old(Unrated(movies)) ==> Unrated(movies)
    {
      var movie := new Movie(title, genres);
      movies := movies + [movie];
    }

    /** Maps `username` to a new user with no ratings and no preferences, replacing any
        user registered under that name before. */
    method RegisterUser(username: string)
      requires Valid()
      modifies this
      ensures Valid()
      ensures movies == old(movies)
      ensures users.Keys == old(users).Keys + {username}
      ensures fresh(users[username]) && users[username].preferences == map[]
      ensures forall u :: u in old(users) && u != username ==> users[u] == old(users)[u]
      ensures Registry() == old(Registry())[username := map[]]
      ensures forall i :: 0 <= i < |movies| ==> movies[i].ratings == old(movies[i].ratings)
      ensures old(Unrated(movies)) ==> Unrated(movies)
    {
      var user := new User(username);
      users := users[username := user];
    }

    /** Records `username`'s rating of `title` in that user's own map; does nothing for
        an unknown username. The movie itself is not touched, and the title need not
        be in the catalog. */
    method RateMovie(username: string, title: string, rating: real)
      requires Valid()
      modifies users.Values
      ensures Valid()
      ensures movies == old(movies) && users == old(users)
      ensures Registry() == if username in old(Registry())
                            then old(Registry())[username := old(Registry())[username][title := rating]]
                            else old(Registry())
      ensures forall u :: u in users ==> users[u].preferences == old(users[u].preferences)
      ensures forall i :: 0 <= i < |movies| ==> movies[i].ratings == old(movies[i].ratings)
      ensures old(Unrated(movies)) ==> Unrated(movies)
    {
      if username in users {
        var user := users[username];
        user.RateMovie(title, rating);
      }
    }

    /** The catalog movies that have a score, with their scores, in catalog order.
        Each rater is looked up in the registry as it stands during the call. */
    method ScoreCatalog() returns (scored: seq<Scored<Movie>>)
      requires Valid()
      ensures scored == ScoredList(movies, Registry())
    {
      var registry := map u | u in users :: users[u].ratings;
      scored := [];
      for i := 0 to |movies|
        invariant scored == ScoredList(movies[..i], registry)
      {
        var movie := movies[i];
        var score := ComputeScore(movie.title, movie.ratings, registry);
        ScoredListStep(movies, i, registry);
        if score.Some? {
          scored := scored + [Scored(movie, score.value)];
        }
      }
      assert movies[..|movies|] == movies;
    }

    /** Up to five catalog movies, highest score first, for a registered user; nothing
        for an unknown one. Which of several equally scored movies come first is not
        fixed. */
    method GetRecommendedMovies(username: string) returns (recommended: seq<Movie>)
      requires Valid()
      ensures username !in users ==> recommended == []
      ensures username in users ==>
        exists top :: IsTopK(ScoredList(movies, Registry()), MaxRecommendations, top)
                      && recommended == Items(top)
      ensures Unrated(movies) ==> recommended == []
    {
      if username !in users {
        return [];
      }
      var scored := ScoreCatalog();
      var top := TopK(scored, MaxRecommendations);
      UnratedCatalogHasNoScores(movies, Registry());
      recommended := Items(top);
    }

    /** The movies of the catalog whose genre list contains `genre`, in catalog order. */
    method SearchMoviesByGenre(genre: string) returns (result: seq<Movie>)
      ensures result == WithGenre(movies, genre)
    {
      result := [];
      for i := 0 to |movies|
        invariant result == WithGenre(movies[..i], genre)
      {
        assert movies[..i + 1][..i] == movies[..i];
        if genre in movies[i].genres {
          result := result + [movies[i]];
        }
      }
      assert movies[..|movies|] == movies;
    }
  }

  /** Extending the catalog prefix by one movie extends the scored list by that movie
      exactly when it has a score. */
  lemma ScoredListStep(ms: seq<Movie>, i: nat, registry: map<string, map<string, real>>)
    requires i < |ms|
    ensures var score := Score(ms[i].title, ms[i].ratings, registry);
            ScoredList(ms[..i + 1], registry) ==
            ScoredList(ms[..i], registry) + if score.Some? then [Scored(ms[i], score.value)] else []
  {
    assert ms[..i + 1][..i] == ms[..i] && ms[..i + 1][i] == ms[i];
  }

  /** Without ratings on the movies, no movie has a score. */
  lemma {:induction false} UnratedCatalogHasNoScores(ms: seq<Movie>, registry: map<string, map<string, real>>)
    ensures Unrated(ms) ==> ScoredList(ms, registry) == []
  {
    if ms != [] && Unrated(ms) {
      var last := ms[|ms| - 1];
      assert Unrated(ms[..|ms| - 1]);
      UnratedCatalogHasNoScores(ms[..|ms| - 1], registry);
      UnratedMovieHasNoScore(last.title, registry);
    }
  }

  /** A movie is found by the genre search exactly when it is in the catalog and its
      genre list contains the queried genre (exact string match). */
  lemma {:induction false} WithGenreMembers(ms: seq<Movie>, genre: string, m: Movie)
    ensures m in WithGenre(ms, genre) <==> m in ms && genre in m.genres
  {
    if ms != [] {
      var init := ms[..|ms| - 1];
      WithGenreMembers(init, genre, m);
      assert ms == init + [ms[|ms| - 1]];
    }
  }

  /** The genre search keeps catalog order: its result is the catalog at strictly
      increasing positions, each holding the genre, and so is no longer than the catalog. */
  lemma {:induction false} WithGenreInOrder(ms: seq<Movie>, genre: string) returns (positions: seq<nat>)
    ensures |positions| == |WithGenre(ms, genre)| <= |ms|
    ensures forall j :: 0 <= j < |positions| ==>
              positions[j] < |ms| && WithGenre(ms, genre)[j] == ms[positions[j]]
              && genre in ms[positions[j]].genres
    ensures forall i, j :: 0 <= i < j < |positions| ==> positions[i] < positions[j]
  {
    if ms == [] {
      positions := [];
    } else {
      var n := |ms| - 1;
      positions := WithGenreInOrder(ms[..n], genre);
      if genre in ms[n].genres {
        positions := positions + [n];
      }
    }
  }

  /** A movie appears in the scored list, with a given score, exactly when it is in the
      catalog and that is its score. */
  lemma {:induction false} ScoredListMembers(ms: seq<Movie>, registry: map<string, map<string, real>>,
                                             m: Movie, v: real)
    ensures Scored(m, v) in ScoredList(ms, registry) <==>
            m in ms && Score(m.title, m.ratings, registry) == Some(v)
  {
    if ms != [] {
      var init := ms[..|ms| - 1];
      ScoredListMembers(init, registry, m, v);
      assert ms == init + [ms[|ms| - 1]];
    }
  }

  /** Whether movie `m` has a score under `registry`. */
  ghost predicate HasScore(m: Movie, registry: map<string, map<string, real>>)
    reads m
  {
    Score(m.title, m.ratings, registry).Some?
  }

  /** The catalog positions whose movie has a score. */
  ghost function ScoredPositions(ms: seq<Movie>, registry: map<string, map<string, real>>): set<int>
    reads ms
  {
    if ms == [] then {}
    else
      var n := |ms| - 1;
      ScoredPositions(ms[..n], registry) + if HasScore(ms[n], registry) then {n} else {}
  }

  /** A position is a scored position exactly when it is in the catalog and the movie
      there has a score. */
  lemma {:induction false} ScoredPositionsMembers(ms: seq<Movie>, registry: map<string, map<string, real>>, i: nat)
    ensures i in ScoredPositions(ms, registry) <==> i < |ms| && HasScore(ms[i], registry)
  {
    if ms != [] {
      var n := |ms| - 1;
      var init := ScoredPositions(ms[..n], registry);
      var all := ScoredPositions(ms, registry);
      assert all == init + if HasScore(ms[n], registry) then {n} else {};
      ScoredPositionsMembers(ms[..n], registry, i);
      if i < n {
        assert ms[..n][i] == ms[i];
        assert i in all <==> i in init;
      } else {
        assert i !in init;
        assert i in all <==> i == n && HasScore(ms[n], registry);
      }
    }
  }

  /** The scored list holds one entry per catalog position whose movie has a score. */
  lemma {:induction false} ScoredListLength(ms: seq<Movie>, registry: map<string, map<string, real>>)
    ensures |ScoredList(ms, registry)| == |ScoredPositions(ms, registry)|
  {
    if ms != [] {
      var n := |ms| - 1;
      ScoredListLength(ms[..n], registry);
      ScoredPositionsMembers(ms[..n], registry, n);
    }
  }

  /** Every recommended movie is a catalog movie that has at least one registered rater
      holding its title in their own map, recommended with its score. */
  lemma RecommendedAreRatedCatalogMovies(ms: seq<Movie>, registry: map<string, map<string, real>>,
                                         top: seq<Scored<Movie>>)
    requires IsTopK(ScoredList(ms, registry), MaxRecommendations, top)
    ensures |top| <= MaxRecommendations
    ensures forall j :: 0 <= j < |top| ==>
              top[j].item in ms && Score(top[j].item.title, top[j].item.ratings, registry) == Some(top[j].score)
    ensures forall j :: 0 <= j < |top| ==>
              exists rater :: rater in top[j].item.ratings && rater in registry
                              && top[j].item.title in registry[rater]
  {
    forall j | 0 <= j < |top|
      ensures top[j].item in ms && Score(top[j].item.title, top[j].item.ratings, registry) == Some(top[j].score)
    {
      assert top[j] in multiset(ScoredList(ms, registry));
      assert top[j] == Scored(top[j].item, top[j].score);
      ScoredListMembers(ms, registry, top[j].item, top[j].score);
    }
    forall j | 0 <= j < |top|
      ensures exists rater :: rater in top[j].item.ratings && rater in registry
                              && top[j].item.title in registry[rater]
    {
      ScoreDefinedIff(top[j].item.title, top[j].item.ratings, registry);
    }
  }
}
