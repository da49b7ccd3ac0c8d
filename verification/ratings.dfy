/**
 * The rating and history state kept in the Streamlit session:
 * `recipe_ratings`, a dictionary from recipe id to its rating record, and
 * `recipe_history`, the list of rated recipes. Both live for one session
 * and are changed in place by the card and sidebar handlers.
 */
module Ratings {
  import opened Common

  /** When a recipe was rated, as an abstract ordered key. The source
      stores `datetime.now().isoformat()` strings and orders the history
      by comparing them; only that order matters here. */
  type Stamp = nat

  /** The number of star buttons under a card (`range(5)`). */
  const StarCount: nat := 5

  /** The history view shows this many entries. */
  const RecentCount: nat := 5

  /** `{'rating': ..., 'timestamp': ...}`. */
  datatype RatingRecord = RatingRecord(rating: int, timestamp: Stamp)

  /** A history entry: the recipe's own fields plus its rating, its id and
      when it was rated (`recipe_with_rating`). */
  datatype HistoryEntry = HistoryEntry(recipeId: string, recipe: map<string, Json>, rating: int, ratedAt: Stamp)

  /** A rating summary: how many recipes are rated, the sum of their
      ratings, and how many carry each star value 1..5. */
  datatype Statistics = Statistics(count: nat, total: nat, distribution: seq<nat>)

  ghost predicate UniqueIds(h: seq<HistoryEntry>)
  {
    forall i, j :: 0 <= i < j < |h| ==> h[i].recipeId != h[j].recipeId
  }

  /** The first entry of `h` with id `recipeId`, if any (the `next(...)`
      search over the history). */
  function FindEntry(h: seq<HistoryEntry>, recipeId: string): (r: Option<nat>)
    ensures r.Some? ==> r.value < |h| && h[r.value].recipeId == recipeId
    ensures r.Some? ==> forall j :: 0 <= j < r.value ==> h[j].recipeId != recipeId
    ensures r.None? ==> forall j :: 0 <= j < |h| ==> h[j].recipeId != recipeId
  {
    if h == [] then None
    else if h[0].recipeId == recipeId then Some(0)
    else match FindEntry(h[1..], recipeId)
      case None => None
      case Some(i) => Some(i + 1)
  }

  /** `existing_recipe.update(recipe_with_rating)`: the new fields overwrite
      the old ones, fields only the old entry has are kept. */
  function Merge(existing: HistoryEntry, update: HistoryEntry): (r: HistoryEntry)
    ensures r.recipeId == existing.recipeId
    ensures r.rating == update.rating && r.ratedAt == update.ratedAt
    ensures r.recipe.Keys == existing.recipe.Keys + update.recipe.Keys
    ensures forall k :: k in update.recipe ==> r.recipe[k] == update.recipe[k]
    ensures forall k :: k in existing.recipe && k !in update.recipe ==> r.recipe[k] == existing.recipe[k]
  {
    HistoryEntry(existing.recipeId, existing.recipe + update.recipe, update.rating, update.ratedAt)
  }

  /** The history after saving entry `e`: the entry with the same id is
      updated in place with `dict.update` (new fields overwrite, fields
      only the old entry has are kept), otherwise `e` itself is appended. */
  function Upsert(h: seq<HistoryEntry>, e: HistoryEntry): (r: seq<HistoryEntry>)
    ensures |r| == (if FindEntry(h, e.recipeId).None? then |h| + 1 else |h|)
    ensures forall i :: 0 <= i < |h| && h[i].recipeId != e.recipeId ==> r[i] == h[i]
    ensures FindEntry(r, e.recipeId).Some?
    ensures var i := FindEntry(r, e.recipeId).value;
            r[i].rating == e.rating && r[i].ratedAt == e.ratedAt
            && e.recipe.Keys <= r[i].recipe.Keys
            && forall k :: k in e.recipe ==> r[i].recipe[k] == e.recipe[k]
    ensures FindEntry(h, e.recipeId).Some? ==>
              var i := FindEntry(h, e.recipeId).value;
              r[i] == Merge(h[i], e)
              && forall k :: k in h[i].recipe && k !in e.recipe ==> r[i].recipe[k] == h[i].recipe[k]
    ensures FindEntry(h, e.recipeId).None? ==> r == h + [e]
    ensures UniqueIds(h) ==> UniqueIds(r)
  {
    match FindEntry(h, e.recipeId)
    case Some(i) =>
      var r := h[i := Merge(h[i], e)];
      assert r[i].recipeId == e.recipeId;
      r
    case None =>
      var r := h + [e];
      assert r[|h|].recipeId == e.recipeId;
      r
  }

  /** Rating the same recipe twice leaves one entry for it, holding the
      second rating, and no more entries than after the first. */
  lemma RerateKeepsOneEntry(h: seq<HistoryEntry>, e1: HistoryEntry, e2: HistoryEntry)
    requires UniqueIds(h) && e1.recipeId == e2.recipeId
    ensures var r := Upsert(Upsert(h, e1), e2);
            && |r| == |Upsert(h, e1)|
            && UniqueIds(r)
            && FindEntry(r, e2.recipeId).Some?
            && r[FindEntry(r, e2.recipeId).value].rating == e2.rating
            && (forall i :: 0 <= i < |r| && i != FindEntry(r, e2.recipeId).value ==> r[i].recipeId != e2.recipeId)
  {
  }

  /** The ids in `keys` whose rating is `star`. */
  ghost function RatedWith(m: map<string, RatingRecord>, keys: set<string>, star: int): set<string>
  {
    set id | id in keys && id in m && m[id].rating == star
  }

  function Sum5(d: seq<nat>): nat
    requires |d| == 5
  {
    d[0] + d[1] + d[2] + d[3] + d[4]
  }

  /** The sum of the ratings whose per-star counts are `d`. */
  function StarTotal(d: seq<nat>): nat
    requires |d| == 5
  {
    d[0] + 2 * d[1] + 3 * d[2] + 4 * d[3] + 5 * d[4]
  }

  /** Adding one key to the keys counted grows the bucket of its own rating
      by one and leaves the other buckets as they are. */
  lemma RatedWithAdd(m: map<string, RatingRecord>, keys: set<string>, k: string, star: int)
    requires k in m && k !in keys
    ensures |RatedWith(m, keys + {k}, star)| == |RatedWith(m, keys, star)| + (if m[k].rating == star then 1 else 0)
  {
    if m[k].rating == star {
      assert RatedWith(m, keys + {k}, star) == RatedWith(m, keys, star) + {k};
    } else {
      assert RatedWith(m, keys + {k}, star) == RatedWith(m, keys, star);
    }
  }

  /** Counting one more rated recipe adds one to the count of its own star
      value. */
  lemma CountOneMore(m: map<string, RatingRecord>, done: set<string>, k: string, dist: seq<nat>)
    requires k in m && k !in done && 1 <= m[k].rating <= StarCount
    requires |dist| == StarCount
    requires forall s :: 1 <= s <= StarCount ==> dist[s - 1] == |RatedWith(m, done, s)|
    ensures var d := dist[m[k].rating - 1 := dist[m[k].rating - 1] + 1];
            forall s :: 1 <= s <= StarCount ==> d[s - 1] == |RatedWith(m, done + {k}, s)|
  {
    forall s | 1 <= s <= StarCount
      ensures |RatedWith(m, done + {k}, s)| == |RatedWith(m, done, s)| + (if m[k].rating == s then 1 else 0)
    {
      RatedWithAdd(m, done, k, s);
    }
  }

  /** One more rating of `star` adds `star` to the total. */
  lemma StarTotalOneMore(d: seq<nat>, star: int)
    requires |d| == StarCount && 1 <= star <= StarCount
    ensures StarTotal(d[star - 1 := d[star - 1] + 1]) == StarTotal(d) + star
  {
  }

  /** When every rating is a star value 1..5, the five buckets together
      count each rated recipe exactly once. */
  lemma {:induction false} BucketsCoverRatings(m: map<string, RatingRecord>, keys: set<string>)
    requires keys <= m.Keys
    requires forall id :: id in m ==> 1 <= m[id].rating <= StarCount
    ensures |RatedWith(m, keys, 1)| + |RatedWith(m, keys, 2)| + |RatedWith(m, keys, 3)|
            + |RatedWith(m, keys, 4)| + |RatedWith(m, keys, 5)| == |keys|
    decreases keys
  {
    if keys != {} {
      var k :| k in keys;
      var rest := keys - {k};
      BucketsCoverRatings(m, rest);
      assert keys == rest + {k};
      RatedWithAdd(m, rest, k, 1);
      RatedWithAdd(m, rest, k, 2);
      RatedWithAdd(m, rest, k, 3);
      RatedWithAdd(m, rest, k, 4);
      RatedWithAdd(m, rest, k, 5);
    } else {
      assert RatedWith(m, keys, 1) == {} && RatedWith(m, keys, 2) == {} && RatedWith(m, keys, 3) == {};
      assert RatedWith(m, keys, 4) == {} && RatedWith(m, keys, 5) == {};
    }
  }

  /** Most recently rated first. */
  ghost predicate NewestFirst(h: seq<HistoryEntry>)
  {
    forall i, j :: 0 <= i < j < |h| ==> h[i].ratedAt >= h[j].ratedAt
  }

  /** Places `e` before the first entry that is not more recent, so that
      among equal times the earlier-listed entry stays first. */
  function InsertByRecency(e: HistoryEntry, sorted: seq<HistoryEntry>): (r: seq<HistoryEntry>)
    requires NewestFirst(sorted)
    ensures NewestFirst(r)
    ensures multiset(r) == multiset(sorted) + multiset{e}
    ensures |r| == |sorted| + 1
    ensures r[0] == e || (sorted != [] && r[0] == sorted[0])
  {
    if sorted == [] || e.ratedAt >= sorted[0].ratedAt then
      [e] + sorted
    else
      var rest := InsertByRecency(e, sorted[1..]);
      assert sorted[0].ratedAt >= rest[0].ratedAt;
      PrependNewest(sorted[0], rest);
      assert sorted == [sorted[0]] + sorted[1..];
      [sorted[0]] + rest
  }

  lemma PrependNewest(x: HistoryEntry, h: seq<HistoryEntry>)
    requires NewestFirst(h) && h != [] && x.ratedAt >= h[0].ratedAt
    ensures NewestFirst([x] + h)
  {
    var r := [x] + h;
    forall i, j | 0 <= i < j < |r|
      ensures r[i].ratedAt >= r[j].ratedAt
    {
      if i == 0 && j > 1 {
        assert r[j] == h[j - 1];
      }
    }
  }

  lemma PrefixNewestFirst(s: seq<HistoryEntry>, n: nat)
    requires NewestFirst(s) && n <= |s|
    ensures NewestFirst(s[..n])
  {
  }

  lemma TakeLeavesTail(s: seq<HistoryEntry>, n: nat)
    requires n <= |s|
    ensures multiset(s[..n]) <= multiset(s)
    ensures multiset(s) - multiset(s[..n]) == multiset(s[n..])
  {
    assert s == s[..n] + s[n..];
  }

  /** In a newest-first list, nothing after position `n` is more recent
      than anything before it. */
  lemma TailNotNewer(s: seq<HistoryEntry>, n: nat)
    requires NewestFirst(s) && n <= |s|
    ensures forall e, x :: e in multiset(s[n..]) && x in s[..n] ==> e.ratedAt <= x.ratedAt
  {
    forall e, x | e in multiset(s[n..]) && x in s[..n]
      ensures e.ratedAt <= x.ratedAt
    {
      assert e in s[n..];
      var i :| n <= i < |s| && s[i] == e;
      var j :| 0 <= j < n && s[j] == x;
    }
  }

  /** `sorted(history, key=rated_at, reverse=True)`. */
  function SortByRecency(h: seq<HistoryEntry>): (r: seq<HistoryEntry>)
    ensures NewestFirst(r)
    ensures multiset(r) == multiset(h)
  {
    if h == [] then []
    else
      assert h == [h[0]] + h[1..];
      InsertByRecency(h[0], SortByRecency(h[1..]))
  }

  /** The sidebar's history view: the (at most) five most recently rated
      entries, newest first; every entry left out is no more recent than
      any entry shown. */
  function RecentHistory(h: seq<HistoryEntry>): (r: seq<HistoryEntry>)
    ensures |r| == if |h| < RecentCount then |h| else RecentCount
    ensures NewestFirst(r)
    ensures multiset(r) <= multiset(h)
    ensures forall e, x :: e in multiset(h) - multiset(r) && x in r ==> e.ratedAt <= x.ratedAt
  {
    var s := SortByRecency(h);
    var n := if |s| < RecentCount then |s| else RecentCount;
    TakeLeavesTail(s, n);
    TailNotNewer(s, n);
    PrefixNewestFirst(s, n);
    s[..n]
  }

  /** The session's rating state. */
  class RatingSession {
    var ratings: map<string, RatingRecord>
    var history: seq<HistoryEntry>

    /** Every stored rating is a star value, the history holds one entry per
        recipe, and only rated recipes (rating above 0) enter the history. */
    ghost predicate Valid()
      reads this
    {
      && (forall id :: id in ratings ==> 1 <= ratings[id].rating <= StarCount)
      && UniqueIds(history)
      && (forall i :: 0 <= i < |history| ==> 1 <= history[i].rating <= StarCount)
    }

    /** `initialize_session_state`. */
    constructor ()
      ensures Valid()
      ensures ratings == map[] && history == []
    {
      ratings := map[];
      history := [];
    }

    /** `get_recipe_rating`: the stored rating, or 0 for a recipe that has none. */
    function GetRecipeRating(recipeId: string): (r: int)
      reads this
      requires Valid()
      ensures recipeId in ratings ==> r == ratings[recipeId].rating && 1 <= r <= StarCount
      ensures recipeId !in ratings ==> r == 0
    {
      if recipeId in ratings then ratings[recipeId].rating else 0
    }

    /** A click on star button `star` (0-based) under a card: the recipe's
        rating becomes `star + 1`, replacing any earlier one. */
    method RateRecipe(recipeId: string, star: nat, now: Stamp)
      requires Valid()
      requires star < StarCount
      modifies this
      ensures Valid()
      ensures ratings == old(ratings)[recipeId := RatingRecord(star + 1, now)]
      ensures history == old(history)
      ensures GetRecipeRating(recipeId) == star + 1
    {
      ratings := ratings[recipeId := RatingRecord(star + 1, now)];
    }

    /** The end of `display_recipe_card`: when the recipe has a rating, its
        entry in the history is updated in place, or appended if there is
        none yet. */
    method RecordInHistory(recipeId: string, recipe: map<string, Json>, now: Stamp)
      requires Valid()
      modifies this
      ensures Valid()
      ensures ratings == old(ratings)
      ensures history == if GetRecipeRating(recipeId) > 0
                         then Upsert(old(history), HistoryEntry(recipeId, recipe, GetRecipeRating(recipeId), now))
                         else old(history)
    {
      var rating := GetRecipeRating(recipeId);
      if rating > 0 {
        var entry := HistoryEntry(recipeId, recipe, rating, now);
        var i := 0;
        while i < |history| && history[i].recipeId != recipeId
          invariant 0 <= i <= |history|
          invariant forall j :: 0 <= j < i ==> history[j].recipeId != recipeId
        {
          i := i + 1;
        }
        if i < |history| {
          assert FindEntry(history, recipeId) == Some(i);
          history := history[i := Merge(history[i], entry)];
        } else {
          history := history + [entry];
        }
      }
    }

    /** The "Clear Ratings" button: both the ratings and the history are
        emptied, so every recipe reads as unrated. */
    method ClearRatings()
      modifies this
      ensures Valid()
      ensures ratings == map[] && history == []
      ensures forall recipeId :: GetRecipeRating(recipeId) == 0
    {
      ratings := map[];
      history := [];
    }

    /** `display_rating_statistics`: nothing when no recipe is rated;
        otherwise the number of rated recipes, the sum of their ratings and
        the count per star value, the counts adding up to the number of
        rated recipes. */
    method RatingStatistics() returns (stats: Option<Statistics>)
      requires Valid()
      ensures stats.None? <==> ratings == map[]
      ensures stats.Some? ==>
                && stats.value.count == |ratings|
                && |stats.value.distribution| == StarCount
                && (forall s :: 1 <= s <= StarCount ==>
                      stats.value.distribution[s - 1] == |RatedWith(ratings, ratings.Keys, s)|)
                && stats.value.total == StarTotal(stats.value.distribution)
                && Sum5(stats.value.distribution) == stats.value.count
    {
      if ratings == map[] {
        return None;
      }
      var remaining := ratings.Keys;
      ghost var done: set<string> := {};
      var count: nat, total: nat := 0, 0;
      var dist: seq<nat> := [0, 0, 0, 0, 0];
      while remaining != {}
        invariant done + remaining == ratings.Keys && done !! remaining
        invariant count == |done|
        invariant |dist| == StarCount
        invariant forall s :: 1 <= s <= StarCount ==> dist[s - 1] == |RatedWith(ratings, done, s)|
        invariant total == StarTotal(dist)
        decreases remaining
      {
        var id :| id in remaining;
        var star := ratings[id].rating;
        CountOneMore(ratings, done, id, dist);
        StarTotalOneMore(dist, star);
        dist := dist[star - 1 := dist[star - 1] + 1];
        count := count + 1;
        total := total + star;
        remaining := remaining - {id};
        done := done + {id};
      }
      BucketsCoverRatings(ratings, done);
      stats := Some(Statistics(count, total, dist));
    }
  }
}
