/** The filter-and-rank step of `State::filter` (src/state.rs:46-56): keep
    the keys that the fuzzy matcher scores against the query, then sort them
    stably by the cached key `-score`, i.e. by descending score. The matcher
    itself is a parameter. */
module Ranking {
  import opened Wrappers
  import StableSort

  /** The fuzzy matcher, `fuzzy_match(candidate, query)`: a similarity score,
      or None when the candidate does not match the query. */
  type Scorer = (string, string) -> Option<int>

  /** The score of a candidate, as `unwrap` reads it; only ever used on
      candidates that match. */
  function ScoreOf(score: Scorer, k: string, q: string): int {
    match score(k, q)
    case Some(v) => v
    case None => 0
  }

  /** The cached sort key of the source: the negated score. */
  function SortKey(score: Scorer, q: string): string -> int {
    k => -ScoreOf(score, k, q)
  }

  /** The keys that match the query, in their order in `keys`. */
  function Matches(score: Scorer, keys: seq<string>, q: string): (r: seq<string>)
    ensures forall i :: 0 <= i < |r| ==> score(r[i], q).Some?
    ensures forall x {:trigger multiset(r)[x]} :: multiset(r)[x] == if score(x, q).Some? then multiset(keys)[x] else 0
  {
    if keys == [] then []
    else
      assert keys == [keys[0]] + keys[1..];
      (if score(keys[0], q).Some? then [keys[0]] else []) + Matches(score, keys[1..], q)
  }

  /** The subsequence of `s` whose elements score exactly `v` against `q`. */
  function WithScore(score: Scorer, s: seq<string>, q: string, v: int): seq<string> {
    if s == [] then []
    else (if score(s[0], q) == Some(v) then [s[0]] else []) + WithScore(score, s[1..], q, v)
  }

  /** Every element of `s` matches `q`. */
  predicate AllMatch(score: Scorer, s: seq<string>, q: string) {
    forall i :: 0 <= i < |s| ==> score(s[i], q).Some?
  }

  /** Scores never increase from left to right. */
  predicate ByDescendingScore(score: Scorer, s: seq<string>, q: string) {
    forall i, j :: 0 <= i < j < |s| ==> ScoreOf(score, s[i], q) >= ScoreOf(score, s[j], q)
  }

  /** The new `filtered_keys`: the matches, stably sorted by `-score`. */
  function Ranked(score: Scorer, keys: seq<string>, q: string): (r: seq<string>)
    ensures multiset(r) == multiset(Matches(score, keys, q))
    ensures StableSort.Sorted(r, SortKey(score, q))
  {
    StableSort.SortByKey(Matches(score, keys, q), SortKey(score, q))
  }

  /** On matching candidates, grouping by sort key is grouping by score. */
  lemma {:induction false} WithKeyIsWithScore(score: Scorer, s: seq<string>, q: string, w: int)
    requires AllMatch(score, s, q)
    ensures StableSort.WithKey(s, SortKey(score, q), w) == WithScore(score, s, q, -w)
  {
    if s != [] {
      WithKeyIsWithScore(score, s[1..], q, w);
    }
  }

  /** Filtering keeps every matching key with each score, in order. */
  lemma {:induction false} WithScoreOfMatches(score: Scorer, keys: seq<string>, q: string, v: int)
    ensures WithScore(score, Matches(score, keys, q), q, v) == WithScore(score, keys, q, v)
  {
    if keys != [] {
      WithScoreOfMatches(score, keys[1..], q, v);
      var head := if score(keys[0], q).Some? then [keys[0]] else [];
      var rest := Matches(score, keys[1..], q);
      if head == [] {
        assert Matches(score, keys, q) == rest;
      } else {
        assert Matches(score, keys, q) == [keys[0]] + rest;
        assert ([keys[0]] + rest)[1..] == rest;
      }
    }
  }

  lemma RankedAllMatch(score: Scorer, keys: seq<string>, q: string)
    ensures AllMatch(score, Ranked(score, keys, q), q)
  {
    var m := Matches(score, keys, q);
    var r := Ranked(score, keys, q);
    forall i | 0 <= i < |r| ensures score(r[i], q).Some? {
      assert r[i] in multiset(r);
      assert r[i] in multiset(m);
    }
  }

  /** Keys of equal score appear in the ranking in their order in `keys`. */
  lemma RankedStable(score: Scorer, keys: seq<string>, q: string, v: int)
    ensures WithScore(score, Ranked(score, keys, q), q, v) == WithScore(score, keys, q, v)
  {
    var m := Matches(score, keys, q);
    var r := Ranked(score, keys, q);
    RankedAllMatch(score, keys, q);
    WithKeyIsWithScore(score, r, q, -v);
    WithKeyIsWithScore(score, m, q, -v);
    WithScoreOfMatches(score, keys, q, v);
  }

  /** What `filter` promises about `filtered_keys`: it holds exactly the
      matching keys, each as often as in `keys`; scores never increase along
      it; and keys of equal score appear in their order in `keys`. */
  lemma RankedSpec(score: Scorer, keys: seq<string>, q: string)
    ensures AllMatch(score, Ranked(score, keys, q), q)
    ensures multiset(Ranked(score, keys, q)) == multiset(Matches(score, keys, q))
    ensures forall x :: multiset(Ranked(score, keys, q))[x] == if score(x, q).Some? then multiset(keys)[x] else 0
    ensures ByDescendingScore(score, Ranked(score, keys, q), q)
    ensures forall v :: WithScore(score, Ranked(score, keys, q), q, v) == WithScore(score, keys, q, v)
  {
    var r := Ranked(score, keys, q);
    var key := SortKey(score, q);
    RankedAllMatch(score, keys, q);
    forall i, j | 0 <= i < j < |r| ensures ScoreOf(score, r[i], q) >= ScoreOf(score, r[j], q) {
      assert key(r[i]) <= key(r[j]);
    }
    forall v ensures WithScore(score, r, q, v) == WithScore(score, keys, q, v) {
      RankedStable(score, keys, q, v);
    }
  }

  /** The ranking grouped by sort key `w` is the keys scoring `-w`, in order. */
  lemma RankedGroup(score: Scorer, keys: seq<string>, q: string, w: int)
    ensures StableSort.WithKey(Ranked(score, keys, q), SortKey(score, q), w) == WithScore(score, keys, q, -w)
  {
    RankedAllMatch(score, keys, q);
    WithKeyIsWithScore(score, Ranked(score, keys, q), q, w);
    RankedStable(score, keys, q, -w);
  }

  /** The three properties of RankedSpec determine the ranking: whatever
      stable sort the library uses, its result equals Ranked. */
  lemma RankedUnique(score: Scorer, keys: seq<string>, q: string, r: seq<string>)
    requires AllMatch(score, r, q) && ByDescendingScore(score, r, q)
    requires forall v :: WithScore(score, r, q, v) == WithScore(score, keys, q, v)
    ensures r == Ranked(score, keys, q)
  {
    var key := SortKey(score, q);
    var ranked := Ranked(score, keys, q);
    forall w ensures StableSort.WithKey(r, key, w) == StableSort.WithKey(ranked, key, w) {
      WithKeyIsWithScore(score, r, q, w);
      RankedGroup(score, keys, q, w);
    }
    assert StableSort.Sorted(r, key) by {
      forall i, j | 0 <= i < j < |r| ensures key(r[i]) <= key(r[j]) {
        assert ScoreOf(score, r[i], q) >= ScoreOf(score, r[j], q);
      }
    }
    StableSort.SortedStablyUnique(r, ranked, key);
  }

  /** When every key matches, filtering drops nothing. */
  lemma {:induction false} MatchesAllKeep(score: Scorer, keys: seq<string>, q: string)
    requires AllMatch(score, keys, q)
    ensures Matches(score, keys, q) == keys
  {
    if keys != [] {
      MatchesAllKeep(score, keys[1..], q);
      assert keys == [keys[0]] + keys[1..];
    }
  }

  /** When every key matches with one and the same score (as every key does
      for the empty query under a matcher that scores it uniformly), the
      ranking is `keys` itself, in its original order. */
  lemma RankedUniformScoreKeepsOrder(score: Scorer, keys: seq<string>, q: string, c: int)
    requires forall i :: 0 <= i < |keys| ==> score(keys[i], q) == Some(c)
    ensures Ranked(score, keys, q) == keys
  {
    MatchesAllKeep(score, keys, q);
    StableSort.SortSortedIsIdentity(keys, SortKey(score, q));
  }

  /** When every key matches, the ranking is a permutation of all keys. */
  lemma RankedAllMatchKeepsAll(score: Scorer, keys: seq<string>, q: string)
    requires AllMatch(score, keys, q)
    ensures multiset(Ranked(score, keys, q)) == multiset(keys)
  {
    MatchesAllKeep(score, keys, q);
  }
}
