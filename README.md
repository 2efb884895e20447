# Movie recommender, modelled in Dafny

This project models `movierec.java`, an in-memory movie recommender with three classes:

- `Movie` is a title, a genre list and a rater -> rating map. It can record a rating and compute its average rating.
- `User` is a username, a map of genre preferences and a title -> rating map of the user's own ratings.
- `MovieRecommendationSystem` holds a catalog, which is a list of movies, and a registry, which maps usernames to users. It adds movies, registers users and records ratings. It searches the catalog by genre and recommends up to five movies.

A movie's recommendation score averages one term per rater recorded on the movie. A rater contributes only if they are registered and their own map holds the movie's title. The term is the rating stored on the movie times that rater's own rating of the same title. The user who asks plays no part beyond being registered. Scored movies are sorted by score, highest first, and the first five are returned.

The three classes are Dafny classes whose methods update their fields in place (`MovieRec.Movie`, `MovieRec.User`, `MovieRec.RecommendationSystem`). The arithmetic they rely on is defined on values in three modules:

- `Sums` gives the sum of a map's values, which does not depend on the order of the keys, and the mean, which is `None` for an empty map.
- `Scoring` gives the score of one movie, together with a method that computes it the way the recommender's inner loop does.
- `Ranking` gives a descending insertion sort, a top-k cut, and `IsTopK`, which says what every correct top-k answer has in common.

Proved facts about the system:

- **Ratings never reach the movies.** `rateMovie` only updates the user's own map. Nothing in the system calls `Movie.addRating`. So every movie's rating map stays empty from construction on: `AddMovie`, `RegisterUser` and `RateMovie` each preserve `Unrated`. In every reachable state, `GetRecommendedMovies` therefore returns the empty list.
- **Tie order is not fixed.** The code does not break ties in catalog order. Scores are collected in a hash map keyed by movie identity, and that map's entries feed the sort, so the order among equal scores depends on hashing. The model leaves it open.
- **Unknown usernames are not errors.** `rateMovie` ignores a rating for an unknown username, and `getRecommendedMovies` returns an empty list for one.

## Model

| member | source | states |
|---|---|---|
| MovieRec.Movie.constructor | movierec.java:8-12 | a new movie keeps the given title and genres and starts with no ratings |
| MovieRec.Movie.AddRating | movierec.java:14-16 | the rater's rating is set, overwriting any earlier one; no other rating changes |
| MovieRec.Movie.GetAverageRating | movierec.java:18-24 | the result is the arithmetic mean of the movie's ratings, whatever order the loop visits them in; it is defined exactly when there is at least one rating (`None` stands for the source's 0/0) |
| MovieRec.User.constructor | movierec.java:32-36 | a new user has the given name and empty preference and rating maps |
| MovieRec.User.UpdatePreference | movierec.java:38-40 | the genre's weight is set and the user's ratings are unchanged |
| MovieRec.User.RateMovie | movierec.java:42-44 | the user's rating of the title is set, overwriting any earlier one; preferences are unchanged |
| MovieRec.RecommendationSystem.constructor | movierec.java:51-54 | the catalog and the registry start empty, and the registry invariant holds |
| MovieRec.RecommendationSystem.AddMovie | movierec.java:56-58 | exactly one fresh movie with no ratings is appended at the end of the catalog; duplicate titles are allowed; earlier entries, their ratings and the registry are unchanged; an unrated catalog stays unrated |
| MovieRec.RecommendationSystem.RegisterUser | movierec.java:60-62 | the name maps to a fresh user with no ratings or preferences, replacing and so wiping any earlier registration; other users, the catalog and every movie's ratings are unchanged |
| MovieRec.RecommendationSystem.RateMovie | movierec.java:64-69 | a registered user's rating of the title is set in that user's own map; an unknown username changes nothing; the catalog, every movie's ratings, every user's preferences and every other user are unchanged |
| MovieRec.RecommendationSystem.ScoreCatalog | movierec.java:78-95 | in a valid state, the catalog movies that have a score, each paired with its score, in catalog order |
| MovieRec.RecommendationSystem.GetRecommendedMovies | movierec.java:71-104 | in a valid state (every catalog entry its own object, as the source's identity-keyed score map assumes), an unknown username gets the empty list and no state changes; a registered user gets the items of a correct top-5 answer over the scored catalog, whatever order ties take; an unrated catalog gives the empty list |
| MovieRec.RecommendationSystem.SearchMoviesByGenre | movierec.java:106-114 | the catalog movies whose genre list contains the genre, in catalog order |
| MovieRec.ScoredListStep | movierec.java:79-95 | one more catalog movie extends the scored list by that movie exactly when it has a score |
| MovieRec.UnratedCatalogHasNoScores | movierec.java:82-94 | if no movie carries a rating, no movie has a score |
| MovieRec.WithGenreMembers | movierec.java:108-112 | a movie is found exactly when it is in the catalog and its genre list contains the genre (exact match) |
| MovieRec.WithGenreInOrder | movierec.java:106-114 | the result sits at strictly increasing catalog positions, each of which has the genre, so it keeps catalog order and is no longer than the catalog |
| MovieRec.ScoredListMembers | movierec.java:79-95 | a movie appears with a score exactly when it is in the catalog and that is its score |
| MovieRec.ScoredPositionsMembers | movierec.java:92-94 | a position is scored exactly when it lies in the catalog and its movie has a score |
| MovieRec.ScoredListLength | movierec.java:79-95 | the scored list has one entry per scored catalog position, so the recommendation has exactly min(5, number of scored movies) entries |
| MovieRec.RecommendedAreRatedCatalogMovies | movierec.java:79-101 | at most five movies are recommended; each is a catalog movie, recommended with its own score, that has a registered rater holding its title |
| Scoring.ComputeScore | movierec.java:80-94 | the single pass over the raters, which sums the products and counts the contributing raters, yields exactly the mean of the contributions, in any visiting order; no contributor means no score |
| Scoring.ScoreDefinedIff | movierec.java:84-93 | a movie has a score exactly when some registered rater of it also holds its title in their own map |
| Scoring.UnratedMovieHasNoScore | movierec.java:82-92 | a movie with no ratings has no score |
| Scoring.ConsistentScoreNonNegative | movierec.java:85-93 | when the movie's map and its raters' maps agree, each term is a square, so a score is never negative |
| Scoring.ConsistentScoreInRange | movierec.java:85-93 | with agreeing maps and ratings from 0.0 to 5.0, a score lies between 0.0 and 25.0 |
| Scoring.RatingOtherTitleKeepsScore | movierec.java:85 | a user rating some other title leaves the movie's score unchanged |
| Scoring.NewUserKeepsScore | movierec.java:83 | registering a new name with no ratings changes no score |
| Scoring.SingleRaterScore | movierec.java:80-94 | one registered rater with 5.0 on both sides gives the score 25.0; a registered user who did not rate the movie does not count |
| Sums.SumOverRemove | movierec.java:20-22 | the sum is the same whichever key is taken first, so the hash map's iteration order does not matter |
| Sums.SumOverAtLeast | movierec.java:20-22 | a sum of values each at least lo is at least lo added once per key |
| Sums.SumOverAtMost | movierec.java:20-22 | a sum of values each at most hi is at most hi added once per key |
| Sums.MeanWithin | movierec.java:18-24 | the mean is defined exactly for non-empty maps and lies between the smallest and largest possible value |
| Sums.MeanNonNegative | movierec.java:18-24 | the mean of non-negative values is non-negative |
| Sums.MeanOfOne | movierec.java:18-24 | a single rating is its own mean |
| Sums.SumOfThree | movierec.java:20-22 | the sum over three distinct keys is the sum of their values |
| Sums.MeanOfThree | movierec.java:18-24 | three distinct raters average to their sum divided by three |
| Sums.MeanOfThreeRatings | movierec.java:18-24 | the ratings 3.0, 4.0 and 5.0 average 4.0 |
| Ranking.Insert | movierec.java:99 | inserting into a descending list keeps it descending and adds exactly that entry |
| Ranking.SortDesc | movierec.java:99 | the result is descending by score and holds exactly the input entries |
| Ranking.TopK | movierec.java:98-101 | sorting descending and keeping the first k gives a correct top-k answer |
| Ranking.TopOfSortedIsTopK | movierec.java:98-101 | whatever order the entries reach the sort in, the first k after sorting are a correct top-k answer, so arrival order only affects ties |
| Ranking.PrefixOfSortedIsTopK | movierec.java:99-100 | the first k entries of any descending arrangement of the entries are a correct top-k answer |
| Ranking.TopKKeepsEverythingWhenRoomy | movierec.java:100 | with room for all entries, a correct top-k answer keeps every entry |

`GetRecommendedMovies` states its result without reference to the asking user. So any two registered users get answers with the same scores, and with the same movies above the fifth-highest score. Which of the movies tied at the cut are kept, and in what order, is open.

## Left out

- `main` and its console I/O are not modelled: the menu loop, the hard-coded starting catalog and the parsing of typed input.
- Ratings, sums and scores are exact `real`s. IEEE-754 `double` rounding is not modelled, and neither is `Double.compare`'s treatment of NaN and -0.0.
- MovieRec.Movie.GetAverageRating: the NaN that the source returns for a movie without ratings is modelled as `None`.
- The order in which `HashMap`s are iterated is not modelled. Sums are proved independent of it. For ties in the ranking, the model states only what all orders share (`Ranking.IsTopK`).
- The Java stream pipeline is replaced by an explicit insertion sort and a prefix, without laziness.
- MovieRec.RecommendationSystem.ScoreCatalog: each rater is looked up in a snapshot of the registry taken at the start of the call. Nothing changes the registry during the call, so every lookup sees the same values.
- MovieRec.Movie.constructor: the genre list is held as an immutable sequence. A caller that later mutates the `List` it passed in, and so changes the movie's genres through aliasing, is not modelled.
- MovieRec.User.UpdatePreference: no operation reads preferences, so the model only states the update and that ratings are untouched.
