/**
 * `getAllBusinesses` of Prospecting.py: walk the search results of every
 * coordinate of the mesh and keep the first business seen for each place id.
 * The search callback is abstracted as the sequence of result lists it
 * returns, one per coordinate, in mesh order.
 */
module Dedup {
  import opened Wrappers
  import opened Places

  /** All results, coordinate after coordinate, each list in its own order. */
  function Flatten(results: seq<seq<Business>>): (flat: seq<Business>)
    ensures forall b :: b in flat <==> exists i :: 0 <= i < |results| && b in results[i]
  {
    if results == [] then []
    else
      var n := |results| - 1;
      var flat := Flatten(results[..n]) + results[n];
      assert forall i :: 0 <= i < n ==> results[..n][i] == results[i];
      flat
  }

  /** The place ids that occur in `s` (`None` is one id like any other). */
  function Ids(s: seq<Business>): set<Option<string>> {
    set b | b in s :: b.placeId
  }

  /** No two businesses of `s` share a place id. */
  predicate DistinctIds(s: seq<Business>) {
    forall i, j :: 0 <= i < j < |s| ==> s[i].placeId != s[j].placeId
  }

  /** Position `i` holds the first business of `s` with its place id. */
  predicate IsFirstOccurrence(s: seq<Business>, i: int)
    requires 0 <= i < |s|
  {
    forall j :: 0 <= j < i ==> s[j].placeId != s[i].placeId
  }

  /**
   * The reference definition of the deduplicated list: the businesses of `s`
   * that sit at a first occurrence of their place id, in the order of `s`.
   */
  function FirstOccurrences(s: seq<Business>): seq<Business> {
    if s == [] then []
    else
      var n := |s| - 1;
      FirstOccurrences(s[..n]) + (if IsFirstOccurrence(s, n) then [s[n]] else [])
  }

  /** A business appended to `s` is a first occurrence exactly when its id is new to `s`. */
  lemma FirstOccurrenceOfLast(s: seq<Business>, b: Business)
    ensures IsFirstOccurrence(s + [b], |s|) <==> b.placeId !in Ids(s)
  {
    var t := s + [b];
    if b.placeId in Ids(s) {
      var c :| c in s && c.placeId == b.placeId;
      var j :| 0 <= j < |s| && s[j] == c;
      assert t[j].placeId == t[|s|].placeId;
    } else {
      forall j | 0 <= j < |s|
        ensures t[j].placeId != t[|s|].placeId
      {
        assert s[j] in s;
      }
    }
  }

  /** Appending one business extends the deduplicated list by it exactly when its id is new. */
  lemma FirstOccurrencesAppend(s: seq<Business>, b: Business)
    ensures FirstOccurrences(s + [b])
         == FirstOccurrences(s) + (if b.placeId in Ids(s) then [] else [b])
  {
    assert (s + [b])[..|s|] == s;
    FirstOccurrenceOfLast(s, b);
  }

  /** The ids of `s + [b]`. */
  lemma IdsAppend(s: seq<Business>, b: Business)
    ensures Ids(s + [b]) == Ids(s) + {b.placeId}
  {
    assert forall c :: c in s + [b] <==> c in s || c == b;
  }

  /** Deduplication neither loses nor invents a place id. */
  lemma {:induction false} FirstOccurrencesIds(s: seq<Business>)
    ensures Ids(FirstOccurrences(s)) == Ids(s)
  {
    if s != [] {
      var n := |s| - 1;
      assert s == s[..n] + [s[n]];
      FirstOccurrencesIds(s[..n]);
      FirstOccurrencesAppend(s[..n], s[n]);
      IdsAppend(s[..n], s[n]);
      IdsAppend(FirstOccurrences(s[..n]), s[n]);
    }
  }

  /** The deduplicated list never holds two businesses with the same place id. */
  lemma {:induction false} FirstOccurrencesDistinct(s: seq<Business>)
    ensures DistinctIds(FirstOccurrences(s))
  {
    if s != [] {
      var n := |s| - 1;
      assert s == s[..n] + [s[n]];
      var d := FirstOccurrences(s[..n]);
      FirstOccurrencesDistinct(s[..n]);
      FirstOccurrencesAppend(s[..n], s[n]);
      FirstOccurrencesIds(s[..n]);
      if s[n].placeId !in Ids(s[..n]) {
        forall i | 0 <= i < |d|
          ensures d[i].placeId != s[n].placeId
        {
          assert d[i] in d;
        }
      }
    }
  }

  /** The deduplicated list has one business per distinct place id, so never more than the input. */
  lemma {:induction false} FirstOccurrencesCount(s: seq<Business>)
    ensures |FirstOccurrences(s)| == |Ids(s)| <= |s|
  {
    if s != [] {
      var n := |s| - 1;
      assert s == s[..n] + [s[n]];
      FirstOccurrencesCount(s[..n]);
      FirstOccurrencesAppend(s[..n], s[n]);
      IdsAppend(s[..n], s[n]);
    }
  }

  /** A list whose place ids are already distinct is left as it is. */
  lemma {:induction false} DistinctIsFixed(s: seq<Business>)
    requires DistinctIds(s)
    ensures FirstOccurrences(s) == s
  {
    if s != [] {
      var n := |s| - 1;
      assert s == s[..n] + [s[n]];
      DistinctIsFixed(s[..n]);
      FirstOccurrencesAppend(s[..n], s[n]);
    }
  }

  /** Deduplicating twice is deduplicating once. */
  lemma FirstOccurrencesIdempotent(s: seq<Business>)
    ensures FirstOccurrences(FirstOccurrences(s)) == FirstOccurrences(s)
  {
    FirstOccurrencesDistinct(s);
    DistinctIsFixed(FirstOccurrences(s));
  }

  /**
   * Every business kept is the first of its place id in the input, and every
   * first occurrence in the input is kept.
   */
  lemma {:induction false} FirstOccurrencesAreFirst(s: seq<Business>)
    ensures forall b :: b in FirstOccurrences(s) ==>
      exists i :: 0 <= i < |s| && s[i] == b && IsFirstOccurrence(s, i)
    ensures forall i :: 0 <= i < |s| && IsFirstOccurrence(s, i) ==> s[i] in FirstOccurrences(s)
  {
    if s != [] {
      var n := |s| - 1;
      var p := s[..n];
      FirstOccurrencesAreFirst(p);
      assert forall i :: 0 <= i < n ==> (IsFirstOccurrence(p, i) <==> IsFirstOccurrence(s, i));
      forall b | b in FirstOccurrences(s)
        ensures exists i :: 0 <= i < |s| && s[i] == b && IsFirstOccurrence(s, i)
      {
        if b in FirstOccurrences(p) {
          var i :| 0 <= i < |p| && p[i] == b && IsFirstOccurrence(p, i);
          assert s[i] == b && IsFirstOccurrence(s, i);
        } else {
          assert s[n] == b && IsFirstOccurrence(s, n);
        }
      }
    }
  }

  /** The positions of `s` that hold a first occurrence, in increasing order. */
  function KeptPositions(s: seq<Business>): seq<nat> {
    if s == [] then []
    else
      var n := |s| - 1;
      KeptPositions(s[..n]) + (if IsFirstOccurrence(s, n) then [n] else [])
  }

  /**
   * The deduplicated list is a subsequence of the input: its `k`-th business
   * sits at the `k`-th kept position, and the kept positions increase.
   */
  lemma {:induction false} FirstOccurrencesSubsequence(s: seq<Business>)
    ensures var p := KeptPositions(s);
      && |p| == |FirstOccurrences(s)|
      && (forall k :: 0 <= k < |p| ==> p[k] < |s| && FirstOccurrences(s)[k] == s[p[k]])
      && (forall k, l :: 0 <= k < l < |p| ==> p[k] < p[l])
  {
    if s != [] {
      var n := |s| - 1;
      FirstOccurrencesSubsequence(s[..n]);
    }
  }

  /** The results of the first `i` coordinates followed by one more list. */
  lemma FlattenStep(results: seq<seq<Business>>, i: int)
    requires 0 <= i < |results|
    ensures Flatten(results[..i + 1]) == Flatten(results[..i]) + results[i]
  {
    assert results[..i + 1][..i] == results[..i];
  }

  /**
   * `getAllBusinesses`: `seen` holds the place ids kept so far and `unique`
   * the kept businesses, both grown in the nested loops of the source.
   */
  method GetAllBusinesses(results: seq<seq<Business>>) returns (unique: seq<Business>)
    ensures unique == FirstOccurrences(Flatten(results))
    ensures DistinctIds(unique)
    ensures Ids(unique) == Ids(Flatten(results))
    ensures forall i, b :: 0 <= i < |results| && b in results[i] ==> b.placeId in Ids(unique)
    ensures |unique| <= |Flatten(results)|
  {
    var seen: set<Option<string>> := {};
    unique := [];
    for i := 0 to |results|
      invariant unique == FirstOccurrences(Flatten(results[..i]))
      invariant seen == Ids(Flatten(results[..i])) == Ids(unique)
      invariant |unique| <= |Flatten(results[..i])|
    {
      var businesses := results[i];
      assert Flatten(results[..i]) + businesses[..0] == Flatten(results[..i]);
      for j := 0 to |businesses|
        invariant unique == FirstOccurrences(Flatten(results[..i]) + businesses[..j])
        invariant seen == Ids(Flatten(results[..i]) + businesses[..j]) == Ids(unique)
        invariant |unique| <= |Flatten(results[..i]) + businesses[..j]|
      {
        ghost var prefix := Flatten(results[..i]) + businesses[..j];
        assert prefix + [businesses[j]] == Flatten(results[..i]) + businesses[..j + 1];
        FirstOccurrencesAppend(prefix, businesses[j]);
        IdsAppend(prefix, businesses[j]);
        FirstOccurrencesIds(prefix + [businesses[j]]);
        FirstOccurrencesCount(prefix + [businesses[j]]);
        var placeId := businesses[j].placeId;
        if placeId !in seen {
          seen := seen + {placeId};
          unique := unique + [businesses[j]];
        }
      }
      assert businesses[..|businesses|] == businesses;
      FlattenStep(results, i);
    }
    assert results[..|results|] == results;
    FirstOccurrencesDistinct(Flatten(results));
  }
}
