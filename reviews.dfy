/**
 * The review ordering of `fetch_reviews` in Prospecting.py. The HTTP request
 * itself is not modelled: its answer is a parameter (`None` when the request
 * raised), and what is modelled is what the function does with it.
 */
module Reviews {
  import opened Wrappers
  import opened Places

  /** Most recent first: timestamps never increase along `s`. */
  predicate NewestFirst(s: seq<Review>) {
    forall i, j :: 0 <= i < j < |s| ==> s[i].time >= s[j].time
  }

  /** The reviews of `s` with timestamp `t`, in their order in `s`. */
  function WithTime(s: seq<Review>, t: int): seq<Review> {
    if s == [] then [] else (if s[0].time == t then [s[0]] else []) + WithTime(s[1..], t)
  }

  /** Places `r` before the first review of `s` that is not newer than it. */
  function Insert(r: Review, s: seq<Review>): seq<Review> {
    if s == [] || r.time >= s[0].time then [r] + s else [s[0]] + Insert(r, s[1..])
  }

  /**
   * `sorted(s, key=lambda r: r["time"], reverse=True)`, as a stable insertion
   * sort: a permutation of `s`, most recent first.
   */
  function SortNewestFirst(s: seq<Review>): (r: seq<Review>)
    ensures multiset(r) == multiset(s)
    ensures NewestFirst(r)
  {
    if s == [] then []
    else
      var rest := SortNewestFirst(s[1..]);
      InsertPermutes(s[0], rest);
      InsertOrdered(s[0], rest);
      assert s == [s[0]] + s[1..];
      Insert(s[0], rest)
  }

  /** Selecting by timestamp distributes over concatenation. */
  lemma {:induction false} WithTimeConcat(a: seq<Review>, b: seq<Review>, t: int)
    ensures WithTime(a + b, t) == WithTime(a, t) + WithTime(b, t)
  {
    if a != [] {
      var head := if a[0].time == t then [a[0]] else [];
      assert (a + b)[0] == a[0];
      assert (a + b)[1..] == a[1..] + b;
      WithTimeConcat(a[1..], b, t);
      assert WithTime(a + b, t) == head + (WithTime(a[1..], t) + WithTime(b, t));
      assert WithTime(a, t) == head + WithTime(a[1..], t);
    } else {
      assert a + b == b;
    }
  }

  /** A review is selected by timestamp `t` exactly when it is in `s` and has that timestamp. */
  lemma {:induction false} WithTimeMembers(s: seq<Review>, t: int)
    ensures forall r :: r in WithTime(s, t) <==> r in s && r.time == t
  {
    if s != [] {
      WithTimeMembers(s[1..], t);
      assert forall r :: r in s <==> r == s[0] || r in s[1..];
    }
  }

  /** Inserting keeps every review and adds `r`. */
  lemma {:induction false} InsertPermutes(r: Review, s: seq<Review>)
    ensures multiset(Insert(r, s)) == multiset(s) + multiset{r}
  {
    if s != [] && r.time < s[0].time {
      InsertPermutes(r, s[1..]);
      assert s == [s[0]] + s[1..];
    }
  }

  /** Inserting into a newest-first list keeps it newest first. */
  lemma {:induction false} InsertOrdered(r: Review, s: seq<Review>)
    requires NewestFirst(s)
    ensures NewestFirst(Insert(r, s))
  {
    if s != [] && r.time < s[0].time {
      InsertOrdered(r, s[1..]);
      InsertPermutes(r, s[1..]);
      var rest := Insert(r, s[1..]);
      forall j | 0 <= j < |rest|
        ensures s[0].time >= rest[j].time
      {
        assert rest[j] in multiset(s[1..]) + multiset{r};
      }
    }
  }

  /**
   * Inserting `r` in front of every review not newer than it puts `r` ahead
   * of all reviews with its timestamp.
   */
  lemma {:induction false} InsertStable(r: Review, s: seq<Review>, t: int)
    ensures WithTime(Insert(r, s), t) == (if r.time == t then [r] else []) + WithTime(s, t)
  {
    if s == [] || r.time >= s[0].time {
      WithTimeConcat([r], s, t);
    } else {
      WithTimeConcat([s[0]], Insert(r, s[1..]), t);
      InsertStable(r, s[1..], t);
      WithTimeConcat([s[0]], s[1..], t);
      assert s == [s[0]] + s[1..];
    }
  }

  /** The sort is stable: reviews with equal timestamps keep their relative order. */
  lemma {:induction false} SortStable(s: seq<Review>, t: int)
    ensures WithTime(SortNewestFirst(s), t) == WithTime(s, t)
  {
    if s != [] {
      SortStable(s[1..], t);
      InsertStable(s[0], SortNewestFirst(s[1..]), t);
    }
  }

  /** The first review of a newest-first list carries the largest timestamp. */
  lemma HeadIsNewest(s: seq<Review>, r: Review)
    requires NewestFirst(s) && r in s
    ensures s[0].time >= r.time
  {
    var i :| 0 <= i < |s| && s[i] == r;
  }

  /** A non-empty list has a review with the timestamp of its first review. */
  lemma SelectsOwnTime(s: seq<Review>)
    requires s != []
    ensures WithTime(s, s[0].time) != []
  {
  }

  /**
   * Being newest first and keeping, for every timestamp, the input's reviews
   * with that timestamp in the input's order determines the list: two such
   * orderings of the same reviews are equal.
   */
  lemma {:induction false} StableOrderUnique(a: seq<Review>, b: seq<Review>)
    requires NewestFirst(a) && NewestFirst(b)
    requires forall t :: WithTime(a, t) == WithTime(b, t)
    ensures a == b
  {
    if a == [] && b == [] {
    } else if a == [] {
      SelectsOwnTime(b);
      assert false;
    } else if b == [] {
      SelectsOwnTime(a);
      assert false;
    } else {
      WithTimeMembers(a, b[0].time);
      WithTimeMembers(b, b[0].time);
      WithTimeMembers(a, a[0].time);
      WithTimeMembers(b, a[0].time);
      assert b[0] in WithTime(b, b[0].time);
      assert a[0] in WithTime(a, a[0].time);
      HeadIsNewest(a, b[0]);
      HeadIsNewest(b, a[0]);
      var t0 := a[0].time;
      assert WithTime(a, t0) == [a[0]] + WithTime(a[1..], t0);
      assert WithTime(b, t0) == [b[0]] + WithTime(b[1..], t0);
      assert a[0] == WithTime(a, t0)[0] == WithTime(b, t0)[0] == b[0];
      forall t
        ensures WithTime(a[1..], t) == WithTime(b[1..], t)
      {
        var head := if a[0].time == t then [a[0]] else [];
        assert WithTime(a, t) == head + WithTime(a[1..], t);
        assert WithTime(b, t) == head + WithTime(b[1..], t);
        assert WithTime(a, t) == WithTime(b, t);
        assert WithTime(a[1..], t) == WithTime(a, t)[|head|..];
        assert WithTime(b[1..], t) == WithTime(b, t)[|head|..];
      }
      StableOrderUnique(a[1..], b[1..]);
      assert a == [a[0]] + a[1..] && b == [b[0]] + b[1..];
    }
  }

  /**
   * The sort is the one ordering that `sorted(..., reverse=True)` promises:
   * any newest-first list that keeps the input's order among equal
   * timestamps is exactly `SortNewestFirst`.
   */
  lemma SortIsPythonSorted(s: seq<Review>, candidate: seq<Review>)
    requires NewestFirst(candidate)
    requires forall t :: WithTime(candidate, t) == WithTime(s, t)
    ensures candidate == SortNewestFirst(s)
  {
    forall t ensures WithTime(SortNewestFirst(s), t) == WithTime(candidate, t) {
      SortStable(s, t);
    }
    StableOrderUnique(candidate, SortNewestFirst(s));
  }

  /**
   * The list `fetch_reviews` stores under "reviews": the answer's reviews
   * (none when the key is missing), sorted most recent first, stably, when
   * `order` is "recent", and left as received for any other `order`.
   */
  function OrderReviews(reviews: Option<seq<Review>>, order: string): (r: seq<Review>)
    ensures reviews.None? ==> r == []
    ensures order != "recent" ==> r == reviews.GetOr([])
    ensures order == "recent" ==>
      && NewestFirst(r)
      && multiset(r) == multiset(reviews.GetOr([]))
      && forall t :: WithTime(r, t) == WithTime(reviews.GetOr([]), t)
  {
    var rs := reviews.GetOr([]);
    assert forall t :: WithTime(SortNewestFirst(rs), t) == WithTime(rs, t) by {
      forall t ensures WithTime(SortNewestFirst(rs), t) == WithTime(rs, t) {
        SortStable(rs, t);
      }
    }
    if order == "recent" then SortNewestFirst(rs) else rs
  }

  /**
   * The "reviews" entry of the dictionary `fetch_reviews` returns, given the
   * details answer (`None` when the request raised, in which case the
   * function returns an empty dictionary and the entry is missing).
   */
  function FetchReviews(answer: Option<PlaceDetails>, order: string): (r: Option<seq<Review>>)
    ensures r.None? <==> answer.None?
    ensures answer.Some? ==> r.value == OrderReviews(answer.value.reviews, order)
  {
    match answer
    case None => None
    case Some(details) => Some(OrderReviews(details.reviews, order))
  }
}
