/** The local leaderboard: a list of at most ten `HighScore` records kept in
    non-increasing score order, the save that inserts a record into it, and
    the lookup of the best record. */
module Leaderboard {
  import opened Wrappers

  /** One leaderboard entry. `date` is the formatted save time and `totalTime`
      the seconds the game took. */
  datatype HighScore = HighScore(name: string, score: int, date: string, totalTime: int)

  /** How many records a save keeps (`take(10)`). */
  const Capacity: nat := 10

  function Min(a: int, b: int): int
  {
    if a <= b then a else b
  }

  /** Kotlin's `Char.isWhitespace`: the Java whitespace controls (tab, line
      feed, vertical tab, form feed, carriage return, the four information
      separators) and every Unicode space, line and paragraph separator. */
  predicate IsWhitespace(c: char)
  {
    var n := c as int;
    || 0x09 <= n <= 0x0D
    || 0x1C <= n <= 0x20
    || n == 0xA0 || n == 0x1680
    || 0x2000 <= n <= 0x200A
    || n == 0x2028 || n == 0x2029 || n == 0x202F || n == 0x205F || n == 0x3000
  }

  /** `String.isBlank`: empty, or whitespace only. Its negation is
      `isNotBlank`: some character is not whitespace. */
  predicate IsBlank(s: string): (b: bool)
    ensures s == [] ==> b
    ensures !b <==> exists i :: 0 <= i < |s| && !IsWhitespace(s[i])
  {
    forall i :: 0 <= i < |s| ==> IsWhitespace(s[i])
  }

  /** The leaderboard order: scores never increase along the list. */
  predicate SortedDesc(s: seq<HighScore>)
  {
    forall i, j :: 0 <= i < j < |s| ==> s[i].score >= s[j].score
  }

  /** The entries of `s` whose score is `v`, in their order in `s`. A sort is
      stable exactly when it leaves each of these subsequences as it was. */
  function WithScore(s: seq<HighScore>, v: int): (t: seq<HighScore>)
    ensures |t| <= |s|
  {
    if s == [] then []
    else (if s[0].score == v then [s[0]] else []) + WithScore(s[1..], v)
  }

  lemma {:induction false} WithScoreConcatAt(a: seq<HighScore>, b: seq<HighScore>, v: int)
    ensures WithScore(a + b, v) == WithScore(a, v) + WithScore(b, v)
    decreases |a|
  {
    if a != [] {
      assert (a + b)[1..] == a[1..] + b;
      WithScoreConcatAt(a[1..], b, v);
    } else {
      assert a + b == b;
    }
  }

  /** Taking the entries of one score distributes over concatenation. */
  lemma WithScoreConcat(a: seq<HighScore>, b: seq<HighScore>)
    ensures forall v :: WithScore(a + b, v) == WithScore(a, v) + WithScore(b, v)
  {
    forall v ensures WithScore(a + b, v) == WithScore(a, v) + WithScore(b, v) {
      WithScoreConcatAt(a, b, v);
    }
  }

  /** Taking the entries of one score from a list with a given head. */
  lemma WithScoreCons(x: HighScore, t: seq<HighScore>, v: int)
    ensures WithScore([x] + t, v) == (if x.score == v then [x] else []) + WithScore(t, v)
  {
    assert ([x] + t)[1..] == t;
  }

  /** A sorted list has no entry scoring more than its head. */
  lemma {:induction false} WithScoreAboveHead(s: seq<HighScore>, v: int)
    requires SortedDesc(s) && s != [] && v > s[0].score
    ensures WithScore(s, v) == []
    decreases |s|
  {
    if |s| > 1 {
      WithScoreAboveHead(s[1..], v);
    }
  }

  /** The stable descending insertion of `r`: it goes after every leading entry
      whose score is at least its own. */
  function InsertDesc(s: seq<HighScore>, r: HighScore): (t: seq<HighScore>)
    ensures |t| == |s| + 1
  {
    if s == [] then [r]
    else if s[0].score >= r.score then [s[0]] + InsertDesc(s[1..], r)
    else [r] + s
  }

  /** How many leading entries of `s` score at least `r.score`: the position
      `r` takes when inserted. */
  function InsertionPoint(s: seq<HighScore>, r: HighScore): (k: nat)
    ensures k <= |s|
    ensures forall i :: 0 <= i < k ==> s[i].score >= r.score
    ensures k < |s| ==> s[k].score < r.score
  {
    if s == [] || s[0].score < r.score then 0 else 1 + InsertionPoint(s[1..], r)
  }

  /** The insertion splits the list at the insertion point. */
  lemma {:induction false} InsertDescSplits(s: seq<HighScore>, r: HighScore)
    ensures InsertDesc(s, r) == s[..InsertionPoint(s, r)] + [r] + s[InsertionPoint(s, r)..]
    decreases |s|
  {
    if s != [] && s[0].score >= r.score {
      InsertDescSplits(s[1..], r);
      var k := InsertionPoint(s[1..], r);
      assert InsertionPoint(s, r) == k + 1;
      assert InsertDesc(s, r) == [s[0]] + InsertDesc(s[1..], r);
      assert s[..k + 1] == [s[0]] + s[1..][..k];
      assert s[k + 1..] == s[1..][k..];
    }
  }

  /** Inserting adds exactly `r`: the result is a permutation of `s + [r]`. */
  lemma {:induction false} InsertDescPermutes(s: seq<HighScore>, r: HighScore)
    ensures multiset(InsertDesc(s, r)) == multiset(s) + multiset{r}
    decreases |s|
  {
    if s != [] && s[0].score >= r.score {
      InsertDescPermutes(s[1..], r);
      assert s == [s[0]] + s[1..];
      assert InsertDesc(s, r) == [s[0]] + InsertDesc(s[1..], r);
    }
  }

  /** A sorted list stays sorted when an entry scoring at least its head is put
      in front. */
  lemma SortedCons(x: HighScore, t: seq<HighScore>)
    requires SortedDesc(t) && (t != [] ==> x.score >= t[0].score)
    ensures SortedDesc([x] + t)
  {
    var u := [x] + t;
    forall i, j | 0 <= i < j < |u| ensures u[i].score >= u[j].score {
      if i > 0 {
        assert u[i] == t[i - 1] && u[j] == t[j - 1];
      } else {
        assert u[j] == t[j - 1];
        assert t[0].score >= t[j - 1].score;
      }
    }
  }

  /** The head of an insertion is the old head or the inserted entry. */
  lemma InsertDescHead(s: seq<HighScore>, r: HighScore)
    ensures InsertDesc(s, r)[0] == if s != [] && s[0].score >= r.score then s[0] else r
  {
  }

  /** Inserting into a sorted list keeps it sorted. */
  lemma {:induction false} InsertDescSorted(s: seq<HighScore>, r: HighScore)
    requires SortedDesc(s)
    ensures SortedDesc(InsertDesc(s, r))
    decreases |s|
  {
    if s == [] {
      assert InsertDesc(s, r) == [r];
    } else if s[0].score >= r.score {
      var rest := InsertDesc(s[1..], r);
      InsertDescSorted(s[1..], r);
      InsertDescHead(s[1..], r);
      assert |s| > 1 ==> s[0].score >= s[1].score;
      SortedCons(s[0], rest);
    } else {
      SortedCons(r, s);
    }
  }

  lemma ConcatAssoc(a: seq<HighScore>, b: seq<HighScore>, c: seq<HighScore>)
    ensures a + (b + c) == (a + b) + c
  {
  }

  /** An entry scoring more than the head of a sorted list goes in front, so
      it is the only entry of its score and the other scores are untouched. */
  lemma InsertBeforeHead(s: seq<HighScore>, r: HighScore, v: int)
    requires SortedDesc(s) && s != [] && s[0].score < r.score
    ensures WithScore(InsertDesc(s, r), v) == WithScore(s, v) + WithScore([r], v)
  {
    WithScoreCons(r, [], v);
    WithScoreCons(r, s, v);
    if v == r.score {
      WithScoreAboveHead(s, v);
    }
  }

  /** An entry scoring no more than the head goes into the tail, and the head
      keeps its place in front of its own score's subsequence. */
  lemma InsertAfterHead(s: seq<HighScore>, r: HighScore, v: int)
    requires s != [] && s[0].score >= r.score
    requires WithScore(InsertDesc(s[1..], r), v) == WithScore(s[1..], v) + WithScore([r], v)
    ensures WithScore(InsertDesc(s, r), v) == WithScore(s, v) + WithScore([r], v)
  {
    var rest := InsertDesc(s[1..], r);
    var h := if s[0].score == v then [s[0]] else [];
    var a, b := WithScore(s[1..], v), WithScore([r], v);
    assert InsertDesc(s, r) == [s[0]] + rest;
    WithScoreCons(s[0], rest, v);
    assert WithScore(InsertDesc(s, r), v) == h + (a + b);
    assert WithScore(s, v) == h + a;
    ConcatAssoc(h, a, b);
  }

  /** Inserting into a sorted list puts `r` after every entry of score `v` when
      `v` is its own score, and leaves the entries of any other score as they
      were. */
  lemma {:induction false} InsertDescStableAt(s: seq<HighScore>, r: HighScore, v: int)
    requires SortedDesc(s)
    ensures WithScore(InsertDesc(s, r), v) == WithScore(s, v) + WithScore([r], v)
    decreases |s|
  {
    if s == [] {
      WithScoreCons(r, [], v);
    } else if s[0].score >= r.score {
      InsertDescStableAt(s[1..], r, v);
      InsertAfterHead(s, r, v);
    } else {
      InsertBeforeHead(s, r, v);
    }
  }

  /** The same for every score at once: each score's subsequence gains `r` at
      its end when it is `r`'s score and is otherwise kept. */
  lemma InsertDescStable(s: seq<HighScore>, r: HighScore)
    requires SortedDesc(s)
    ensures forall v :: WithScore(InsertDesc(s, r), v) == WithScore(s, v) + WithScore([r], v)
  {
    forall v ensures WithScore(InsertDesc(s, r), v) == WithScore(s, v) + WithScore([r], v) {
      InsertDescStableAt(s, r, v);
    }
  }

  /** `sortByDescending { it.score }` on a list: a stable sort by score, largest
      first, written as an insertion sort that inserts each entry, in list
      order, after the entries of equal score already placed. */
  function SortByDescending(s: seq<HighScore>): (t: seq<HighScore>)
    ensures |t| == |s| && multiset(t) == multiset(s)
    ensures SortedDesc(t)
    ensures forall v :: WithScore(t, v) == WithScore(s, v)
    decreases |s|
  {
    if s == [] then []
    else
      var init, last := s[..|s| - 1], s[|s| - 1];
      assert s == init + [last];
      var sorted := SortByDescending(init);
      InsertDescPermutes(sorted, last);
      InsertDescSorted(sorted, last);
      InsertDescStable(sorted, last);
      assert multiset(s) == multiset(init) + multiset{last};
      WithScoreConcat(init, [last]);
      InsertDesc(sorted, last)
  }

  /** What every stable sort by descending score returns for `s`: a sorted list
      that keeps the subsequence of each score unchanged. */
  ghost predicate IsStableSortDesc(s: seq<HighScore>, t: seq<HighScore>)
  {
    SortedDesc(t) && forall v :: WithScore(t, v) == WithScore(s, v)
  }

  /** The head of a list is in the subsequence of its own score. */
  lemma WithScoreOfHead(t: seq<HighScore>)
    requires t != []
    ensures WithScore(t, t[0].score) != []
  {
  }

  /** Two non-empty sorted lists with the same subsequence for every score
      start with the same entry. */
  lemma SameHead(t1: seq<HighScore>, t2: seq<HighScore>)
    requires SortedDesc(t1) && SortedDesc(t2) && t1 != [] && t2 != []
    requires forall v :: WithScore(t1, v) == WithScore(t2, v)
    ensures t1[0] == t2[0]
  {
    var m1, m2 := t1[0].score, t2[0].score;
    WithScoreOfHead(t2);
    assert m2 <= m1 by {
      if m2 > m1 {
        WithScoreAboveHead(t1, m2);
      }
    }
    WithScoreOfHead(t1);
    assert m1 <= m2 by {
      if m1 > m2 {
        WithScoreAboveHead(t2, m1);
      }
    }
    assert t1[0] == WithScore(t1, m1)[0] == WithScore(t2, m1)[0] == t2[0];
  }

  /** Lists with the same head and the same subsequence for every score have
      tails with the same subsequence for every score. */
  lemma SameTails(t1: seq<HighScore>, t2: seq<HighScore>)
    requires t1 != [] && t2 != [] && t1[0] == t2[0]
    requires forall v :: WithScore(t1, v) == WithScore(t2, v)
    ensures forall v :: WithScore(t1[1..], v) == WithScore(t2[1..], v)
  {
    forall v ensures WithScore(t1[1..], v) == WithScore(t2[1..], v) {
      var h := if t1[0].score == v then [t1[0]] else [];
      assert WithScore(t1, v) == h + WithScore(t1[1..], v);
      assert WithScore(t2, v) == h + WithScore(t2[1..], v);
      assert WithScore(t1[1..], v) == (h + WithScore(t1[1..], v))[|h|..];
      assert WithScore(t2[1..], v) == (h + WithScore(t2[1..], v))[|h|..];
    }
  }

  /** Two sorted lists with the same subsequence for every score are equal. */
  lemma {:induction false} SortedByScoreUnique(t1: seq<HighScore>, t2: seq<HighScore>)
    requires SortedDesc(t1) && SortedDesc(t2)
    requires forall v :: WithScore(t1, v) == WithScore(t2, v)
    ensures t1 == t2
    decreases |t1|
  {
    if t1 == [] || t2 == [] {
      if t1 != [] {
        WithScoreOfHead(t1);
      } else if t2 != [] {
        WithScoreOfHead(t2);
      }
    } else {
      SameHead(t1, t2);
      SameTails(t1, t2);
      SortedByScoreUnique(t1[1..], t2[1..]);
      assert t1 == [t1[0]] + t1[1..];
      assert t2 == [t2[0]] + t2[1..];
    }
  }

  /** A stable descending sort is unique, so every implementation of
      `sortByDescending` returns `SortByDescending(s)`. */
  lemma StableSortIsUnique(s: seq<HighScore>, t: seq<HighScore>)
    requires IsStableSortDesc(s, t)
    ensures t == SortByDescending(s)
  {
    SortedByScoreUnique(t, SortByDescending(s));
  }

  /** Sorting a list that is already in leaderboard order changes nothing. */
  lemma SortedIsFixed(s: seq<HighScore>)
    requires SortedDesc(s)
    ensures SortByDescending(s) == s
  {
    StableSortIsUnique(s, s);
  }

  /** On a stored (sorted) list, appending `r` and sorting is the same as
      inserting `r` after every entry whose score is at least `r.score`. */
  lemma AppendThenSort(s: seq<HighScore>, r: HighScore)
    requires SortedDesc(s)
    ensures SortByDescending(s + [r]) == InsertDesc(s, r)
  {
    assert (s + [r])[..|s|] == s;
    SortedIsFixed(s);
  }

  /** Kotlin's `take(n)`: the first `n` elements, or all of them if fewer. */
  function Take(s: seq<HighScore>, n: nat): (t: seq<HighScore>)
    ensures |t| == Min(|s|, n)
    ensures forall i :: 0 <= i < |t| ==> t[i] == s[i]
  {
    s[..Min(|s|, n)]
  }

  /** The list a non-blank save stores: the record appended, the list sorted by
      descending score, and the first `Capacity` entries kept. */
  function Saved(s: seq<HighScore>, r: HighScore): (t: seq<HighScore>)
    ensures |t| == Min(|s| + 1, Capacity)
    ensures SortedDesc(t)
  {
    Take(SortByDescending(s + [r]), Capacity)
  }

  /** Where the entries of `s` and `r` sit after the insertion. */
  lemma InsertDescPositions(s: seq<HighScore>, r: HighScore)
    requires SortedDesc(s)
    ensures var u, k := InsertDesc(s, r), InsertionPoint(s, r);
      && u[k] == r
      && (forall i :: 0 <= i < k ==> u[i] == s[i])
      && (forall i :: k < i < |u| ==> u[i] == s[i - 1] && u[i].score < r.score)
  {
    var k := InsertionPoint(s, r);
    InsertDescSplits(s, r);
  }

  /** The first entries of a sorted list are sorted. */
  lemma TakeSorted(u: seq<HighScore>, n: nat)
    requires SortedDesc(u)
    ensures SortedDesc(Take(u, n))
  {
  }

  /** A save onto a stored list of length n keeps min(n + 1, 10) entries in
      leaderboard order; they are the leading part of the old list with `r`
      placed after every entry of at least its score, so `r` is kept unless
      ten or more old entries score at least as much. */
  lemma SaveIntoSorted(s: seq<HighScore>, r: HighScore)
    requires SortedDesc(s)
    ensures var t, k := Saved(s, r), InsertionPoint(s, r);
      && |t| == Min(|s| + 1, Capacity)
      && SortedDesc(t)
      && t == (s[..k] + [r] + s[k..])[..|t|]
      && (k < Capacity ==> t[k] == r)
      && (forall i :: 0 <= i < k && i < |t| ==> t[i] == s[i])
      && (forall i :: k < i < |t| ==> t[i] == s[i - 1] && t[i].score < r.score)
  {
    AppendThenSort(s, r);
    InsertDescSplits(s, r);
    InsertDescSorted(s, r);
    TakeSorted(InsertDesc(s, r), Capacity);
    InsertDescPositions(s, r);
  }

  /** In a sorted list every entry before position `n` scores at least as much
      as every entry from `n` on. */
  lemma SortedPrefixAboveSuffix(u: seq<HighScore>, n: nat)
    requires SortedDesc(u) && n <= |u|
    ensures forall x, y :: x in u[..n] && y in u[n..] ==> x.score >= y.score
  {
    forall x, y | x in u[..n] && y in u[n..] ensures x.score >= y.score {
      var i :| 0 <= i < n && u[i] == x;
      var j :| n <= j < |u| && u[j] == y;
    }
  }

  /** What a save drops is what follows the kept part of the sorted list. */
  lemma SaveDrops(s: seq<HighScore>, r: HighScore)
    ensures var full, t := SortByDescending(s + [r]), Saved(s, r);
      && |t| <= |full| && t == full[..|t|]
      && multiset(s + [r]) - multiset(t) == multiset(full[|t|..])
  {
    var full := SortByDescending(s + [r]);
    var t := Saved(s, r);
    assert full == t + full[|t|..];
  }

  /** The records a save drops score no higher than any record it keeps. */
  lemma SaveKeepsHighest(s: seq<HighScore>, r: HighScore)
    ensures var t := Saved(s, r);
      forall x, y :: x in t && y in multiset(s + [r]) - multiset(t) ==> x.score >= y.score
  {
    var full := SortByDescending(s + [r]);
    var t := Saved(s, r);
    SaveDrops(s, r);
    SortedPrefixAboveSuffix(full, |t|);
  }

  /** The index `maxByOrNull` settles on: it scans left to right and moves only
      to a strictly larger score, so it is the first entry of maximal score. */
  function FirstMaxIndex(s: seq<HighScore>): (k: nat)
    requires s != []
    ensures k < |s|
    ensures forall i :: 0 <= i < |s| ==> s[i].score <= s[k].score
    ensures forall i :: 0 <= i < k ==> s[i].score < s[k].score
  {
    if |s| == 1 then 0
    else
      var k := FirstMaxIndex(s[..|s| - 1]);
      if s[k].score < s[|s| - 1].score then |s| - 1 else k
  }

  /** `maxByOrNull { it.score }`: nothing for an empty list, otherwise the first
      entry of maximal score. */
  function MaxByOrNull(s: seq<HighScore>): (best: Option<HighScore>)
    ensures best.None? <==> s == []
    ensures best.Some? ==> best.value in s
    ensures best.Some? ==> forall i :: 0 <= i < |s| ==> s[i].score <= best.value.score
  {
    if s == [] then None else Some(s[FirstMaxIndex(s)])
  }

  /** On a list in leaderboard order the best record is its head. */
  lemma BestOfSortedIsHead(s: seq<HighScore>)
    requires SortedDesc(s) && s != []
    ensures MaxByOrNull(s) == Some(s[0])
  {
    var k := FirstMaxIndex(s);
    assert s[0].score >= s[k].score;
  }

  /** While the leaderboard has room, a save is exactly the stable insertion. */
  lemma SaveWithRoom(s: seq<HighScore>, r: HighScore)
    requires SortedDesc(s) && |s| < Capacity
    ensures Saved(s, r) == InsertDesc(s, r)
  {
    AppendThenSort(s, r);
  }

  /** The first save onto an empty leaderboard stores just that record. */
  lemma FirstSave(r: HighScore)
    ensures Saved([], r) == [r]
  {
    SaveWithRoom([], r);
    assert InsertDesc([], r) == [r];
  }

  /** A (50) then B (80) onto an empty leaderboard gives B, A. */
  lemma TwoSaves(a: HighScore, b: HighScore)
    requires a.score == 50 && b.score == 80
    ensures Saved(Saved([], a), b) == [b, a]
  {
    SaveWithRoom([], a);
    assert InsertDesc([], a) == [a];
    SaveWithRoom([a], b);
    assert InsertDesc([a], b) == [b, a];
  }

  /** C (80) inserted into B (80), A (50) goes between them. */
  lemma InsertBetween(a: HighScore, b: HighScore, c: HighScore)
    requires a.score == 50 && b.score == 80 && c.score == 80
    ensures SortedDesc([b, a])
    ensures InsertDesc([b, a], c) == [b, c, a]
  {
    assert InsertDesc([a], c) == [c, a];
    assert InsertDesc([b, a], c) == [b] + InsertDesc([a], c);
  }

  /** Three saves onto an empty leaderboard: A (50), then B (80), then C (80)
      gives B, C, A; the later C stays behind the earlier B of equal score. */
  lemma ThreeSaves(a: HighScore, b: HighScore, c: HighScore)
    requires a.score == 50 && b.score == 80 && c.score == 80
    ensures Saved(Saved(Saved([], a), b), c) == [b, c, a]
  {
    TwoSaves(a, b);
    InsertBetween(a, b, c);
    SaveWithRoom([b, a], c);
  }

  /** The record just saved need not be the best one: saving A (50) onto a
      leaderboard holding B (80) leaves B as the best record, while the game
      shows A as its last high score. */
  lemma LastSavedNotBest(a: HighScore, b: HighScore)
    requires a.score == 50 && b.score == 80
    ensures Saved([b], a) == [b, a]
    ensures MaxByOrNull(Saved([b], a)) == Some(b) != Some(a)
  {
    SaveWithRoom([b], a);
    assert InsertDesc([b], a) == [b] + InsertDesc([], a);
    BestOfSortedIsHead([b, a]);
  }
}
