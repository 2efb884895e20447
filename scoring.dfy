/** The per-movie score of the recommendation algorithm, on values.
    A registry maps each registered username to that user's own title -> rating map. */
module Scoring {
  import opened Wrappers
  import opened Sums

  /** One term per rater of the movie who is registered and whose own rating map holds
      the movie's title: the rating stored on the movie times the rater's own rating of
      that title. The querying user plays no part. */
  function Contributions(title: string, ratings: map<string, real>,
                         registry: map<string, map<string, real>>): map<string, real>
  {
    map rater | rater in ratings && rater in registry && title in registry[rater]
      :: ratings[rater] * registry[rater][title]
  }

  /** The score of a movie: the mean of its contributions, `None` when no rater contributes. */
  ghost function Score(title: string, ratings: map<string, real>,
                       registry: map<string, map<string, real>>): Option<real>
  {
    Mean(Contributions(title, ratings, registry))
  }

  /** The score as the recommender computes it: one pass over the movie's raters in an
      arbitrary order, summing the terms of registered raters who hold the title and
      counting them, then dividing. */
  method ComputeScore(title: string, ratings: map<string, real>,
                      registry: map<string, map<string, real>>) returns (score: Option<real>)
    ensures score == Score(title, ratings, registry)
  {
    ghost var contributions := Contributions(title, ratings, registry);
    var sum := 0.0;
    var count := 0;
    var remaining := ratings.Keys;
    ghost var pending := contributions.Keys;
    while remaining != {}
      invariant remaining <= ratings.Keys
      invariant pending <= remaining && pending <= contributions.Keys
      invariant forall r :: r in remaining && r in contributions ==> r in pending
      invariant sum + SumOver(contributions, pending) == SumOver(contributions, contributions.Keys)
      invariant count + |pending| == |contributions|
      decreases remaining
    {
      var rater :| rater in remaining;
      if rater in registry && title in registry[rater] {
        var term := ratings[rater] * registry[rater][title];
        assert rater in pending && contributions[rater] == term;
        SumOverRemove(contributions, pending, rater);
        sum := sum + term;
        count := count + 1;
        pending := pending - {rater};
      } else {
        assert rater !in contributions && rater !in pending;
      }
      remaining := remaining - {rater};
    }
    if count > 0 {
      score := Some(sum / count as real);
    } else {
      score := None;
    }
  }

  /** A movie has a score exactly when some registered rater of it also holds its title
      in their own rating map. */
  lemma ScoreDefinedIff(title: string, ratings: map<string, real>,
                        registry: map<string, map<string, real>>)
    ensures Score(title, ratings, registry).Some? <==>
            exists rater :: rater in ratings && rater in registry && title in registry[rater]
  {
    var c := Contributions(title, ratings, registry);
    if exists rater :: rater in ratings && rater in registry && title in registry[rater] {
      var rater :| rater in ratings && rater in registry && title in registry[rater];
      assert rater in c.Keys;
      assert |c.Keys| > 0;
    } else {
      assert c.Keys == {};
    }
  }

  /** A movie nobody rated through the movie itself has no score. */
  lemma UnratedMovieHasNoScore(title: string, registry: map<string, map<string, real>>)
    ensures Score(title, map[], registry) == None
  {
    assert Contributions(title, map[], registry) == map[];
  }

  /** When the movie's rating map and its raters' own maps agree, every term is a square,
      so the score is a mean of squares: never negative. */
  lemma ConsistentScoreNonNegative(title: string, ratings: map<string, real>,
                                   registry: map<string, map<string, real>>)
    requires forall rater :: rater in ratings && rater in registry && title in registry[rater]
               ==> registry[rater][title] == ratings[rater]
    ensures Score(title, ratings, registry).Some? ==> 0.0 <= Score(title, ratings, registry).value
  {
    var c := Contributions(title, ratings, registry);
    forall rater | rater in c ensures 0.0 <= c[rater] {
      var x := ratings[rater];
      assert c[rater] == x * x;
    }
    MeanNonNegative(c);
  }

  /** With agreeing maps and ratings in the nominal range 0.0 to 5.0, the score lies in 0.0 to 25.0. */
  lemma ConsistentScoreInRange(title: string, ratings: map<string, real>,
                               registry: map<string, map<string, real>>)
    requires forall rater :: rater in ratings && rater in registry && title in registry[rater]
               ==> registry[rater][title] == ratings[rater]
    requires forall rater :: rater in ratings ==> 0.0 <= ratings[rater] <= 5.0
    ensures Score(title, ratings, registry).Some? ==>
            0.0 <= Score(title, ratings, registry).value <= 25.0
  {
    var c := Contributions(title, ratings, registry);
    forall rater | rater in c ensures 0.0 <= c[rater] <= 25.0 {
      var x := ratings[rater];
      assert c[rater] == x * x;
      assert x * x <= 5.0 * x <= 25.0;
    }
    MeanWithin(c, 0.0, 25.0);
  }

  /** A rater's rating of another title does not change this movie's score. */
  lemma RatingOtherTitleKeepsScore(title: string, ratings: map<string, real>,
                                   registry: map<string, map<string, real>>,
                                   username: string, other: string, rating: real)
    requires username in registry && other != title
    ensures Score(title, ratings, registry[username := registry[username][other := rating]])
            == Score(title, ratings, registry)
  {
    var updated := registry[username := registry[username][other := rating]];
    var before, after := Contributions(title, ratings, registry), Contributions(title, ratings, updated);
    assert forall rater :: rater in updated ==> (title in updated[rater] <==> title in registry[rater]);
    assert after.Keys == before.Keys;
    forall rater | rater in after ensures after[rater] == before[rater] {
      assert updated[rater][title] == registry[rater][title];
    }
    assert after == before;
  }

  /** Registering a new username (with no ratings) does not change any score. */
  lemma NewUserKeepsScore(title: string, ratings: map<string, real>,
                          registry: map<string, map<string, real>>, username: string)
    requires username !in registry
    ensures Score(title, ratings, registry[username := map[]]) == Score(title, ratings, registry)
  {
    var before := Contributions(title, ratings, registry);
    var after := Contributions(title, ratings, registry[username := map[]]);
    assert after.Keys == before.Keys;
    forall rater | rater in after ensures after[rater] == before[rater] {
      assert rater != username;
    }
    assert after == before;
  }

  /** Movie "A" rated 5.0 by "V", who holds 5.0 for "A" in their own map, scores 25.0;
      the unrelated user "U" does not contribute. */
  lemma SingleRaterScore()
    ensures Score("A", map["V" := 5.0], map["U" := map[], "V" := map["A" := 5.0]]) == Some(25.0)
  {
    var registry := map["U" := map[], "V" := map["A" := 5.0]];
    assert Contributions("A", map["V" := 5.0], registry) == map["V" := 25.0];
    MeanOfOne("V", 25.0);
  }
}
