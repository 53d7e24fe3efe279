/** The final standings (App.tsx, `players.sort((a, b) => b.score - a.score)`).
    Since ECMAScript 2019 `Array.prototype.sort` is stable, so the order is
    fully determined: highest score first, and players with equal scores in
    the order they had before. The sort below, an insertion sort, is the
    reference for that order. */
module Standings {
  import opened GameTypes

  /** Scores never go up from one player to the next. */
  predicate NonIncreasing(s: seq<Player>) {
    forall i :: 0 < i < |s| ==> s[i - 1].score >= s[i].score
  }

  /** Ordered standings put every player at or above everyone after them. */
  lemma {:induction false} NonIncreasingPairwise(s: seq<Player>)
    requires NonIncreasing(s)
    ensures forall i, j :: 0 <= i < j < |s| ==> s[i].score >= s[j].score
  {
    if s != [] {
      NonIncreasingPairwise(s[1..]);
      forall i, j | 0 <= i < j < |s| ensures s[i].score >= s[j].score {
        assert s[j] == s[1..][j - 1];
        if i == 0 {
          if j > 1 {
            assert s[1] == s[1..][0];
          }
        } else {
          assert s[i] == s[1..][i - 1];
        }
      }
    }
  }

  /** The players of `s` with score `v`, in their order in `s`. */
  function WithScore(s: seq<Player>, v: int): (r: seq<Player>)
    ensures forall p :: p in r <==> p in s && p.score == v
  {
    if s == [] then []
    else if s[0].score == v then [s[0]] + WithScore(s[1..], v)
    else WithScore(s[1..], v)
  }

  lemma {:induction false} WithScoreAppend(a: seq<Player>, b: seq<Player>, v: int)
    ensures WithScore(a + b, v) == WithScore(a, v) + WithScore(b, v)
  {
    if a == [] {
      assert a + b == b;
    } else {
      assert (a + b)[1..] == a[1..] + b;
      WithScoreAppend(a[1..], b, v);
    }
  }

  /** Puts `p` before the first player whose score is not above its own. */
  function Insert(p: Player, s: seq<Player>): (r: seq<Player>)
    ensures |r| == |s| + 1
    ensures multiset(r) == multiset(s) + multiset{p}
    ensures r[0] == p || (s != [] && r[0] == s[0])
  {
    if s == [] || s[0].score <= p.score then
      [p] + s
    else
      assert s == [s[0]] + s[1..];
      [s[0]] + Insert(p, s[1..])
  }

  /** Inserting into ordered standings keeps them ordered. */
  lemma {:induction false} InsertSorted(p: Player, s: seq<Player>)
    requires NonIncreasing(s)
    ensures NonIncreasing(Insert(p, s))
  {
    if s != [] && s[0].score > p.score {
      var t := Insert(p, s[1..]);
      assert NonIncreasing(s[1..]);
      InsertSorted(p, s[1..]);
      assert Insert(p, s) == [s[0]] + t;
    }
  }

  /** The players of `s`, highest score first, ties in their original
      order: a permutation of `s` whose scores never go up. */
  function SortByScore(s: seq<Player>): (r: seq<Player>)
    ensures |r| == |s|
    ensures multiset(r) == multiset(s)
    ensures NonIncreasing(r)
  {
    if s == [] then []
    else
      assert s == [s[0]] + s[1..];
      var rest := SortByScore(s[1..]);
      InsertSorted(s[0], rest);
      Insert(s[0], rest)
  }

  /** Inserting `p` only moves it past players with a higher score, so among
      the players with any one score `p` lands first. */
  lemma {:induction false} InsertKeepsTies(p: Player, s: seq<Player>, v: int)
    ensures WithScore(Insert(p, s), v) == (if p.score == v then [p] else []) + WithScore(s, v)
  {
    if s == [] || s[0].score <= p.score {
      assert Insert(p, s) == [p] + s;
      WithScoreAppend([p], s, v);
    } else {
      InsertKeepsTies(p, s[1..], v);
      assert Insert(p, s) == [s[0]] + Insert(p, s[1..]);
    }
  }

  /** The sort is stable: for every score, the players with that score
      appear in the same order before and after. */
  lemma {:induction false} SortIsStable(s: seq<Player>, v: int)
    ensures WithScore(SortByScore(s), v) == WithScore(s, v)
  {
    if s != [] {
      SortIsStable(s[1..], v);
      InsertKeepsTies(s[0], SortByScore(s[1..]), v);
    }
  }

  /** Standings that are already in order are left alone, so sorting again
      on a later render changes nothing. */
  lemma {:induction false} SortOfSorted(s: seq<Player>)
    requires NonIncreasing(s)
    ensures SortByScore(s) == s
  {
    if s != [] {
      assert NonIncreasing(s[1..]);
      SortOfSorted(s[1..]);
      assert s == [s[0]] + s[1..];
    }
  }

  lemma SortIdempotent(s: seq<Player>)
    ensures SortByScore(SortByScore(s)) == SortByScore(s)
  {
    SortOfSorted(SortByScore(s));
  }
}
