/**
 * Score records and the order the leaderboard uses: score descending, then
 * time taken ascending. Defines competition ("1224") ranking by its meaning,
 * 1 + the number of records strictly better than a record, and proves the
 * facts about it that the two ranking loops of the controller rely on.
 */
module Scores {
  import opened Wrappers

  type UserId = string

  /** The key under which the store files a score: (testCode, userId). */
  type ScoreKey = (string, UserId)

  /** A stored TestScore document; `rank` is unset until the first ranking pass. */
  datatype TestScore = TestScore(
    testCode: string,
    userId: UserId,
    score: int,
    totalQuestions: int,
    timeTaken: nat,
    rank: Option<nat>)

  function KeyOf(t: TestScore): ScoreKey
  {
    (t.testCode, t.userId)
  }

  /** (score1, time1) is strictly better than (score2, time2). */
  predicate Outranks(score1: int, time1: nat, score2: int, time2: nat)
  {
    score1 > score2 || (score1 == score2 && time1 < time2)
  }

  predicate Beats(a: TestScore, b: TestScore)
  {
    Outranks(a.score, a.timeTaken, b.score, b.timeTaken)
  }

  /** Two records tie when they agree on both score and time taken. */
  predicate Tied(a: TestScore, b: TestScore)
  {
    a.score == b.score && a.timeTaken == b.timeTaken
  }

  /** Sorted by score descending, then time ascending: no record beats an earlier one. */
  predicate SortedForBoard(s: seq<TestScore>)
  {
    forall i, j :: 0 <= i < j < |s| ==> !Beats(s[j], s[i])
  }

  /** The number of records in `s` that are strictly better than `x`. */
  function CountBeating(s: seq<TestScore>, x: TestScore): (n: nat)
    ensures n <= |s|
  {
    if s == [] then 0
    else CountBeating(s[..|s| - 1], x) + (if Beats(s[|s| - 1], x) then 1 else 0)
  }

  /** Competition rank of the record at index i: 1 + the number of records better than it. */
  function CompetitionRank(s: seq<TestScore>, i: nat): nat
    requires i < |s|
  {
    1 + CountBeating(s, s[i])
  }

  lemma {:induction false} CountBeatingAll(s: seq<TestScore>, x: TestScore)
    requires forall j :: 0 <= j < |s| ==> Beats(s[j], x)
    ensures CountBeating(s, x) == |s|
  {
    if s != [] {
      CountBeatingAll(s[..|s| - 1], x);
    }
  }

  /** Records after position k that do not beat x do not change the count. */
  lemma {:induction false} CountBeatingPrefix(s: seq<TestScore>, k: nat, x: TestScore)
    requires k <= |s|
    requires forall j :: k <= j < |s| ==> !Beats(s[j], x)
    ensures CountBeating(s, x) == CountBeating(s[..k], x)
  {
    if k < |s| {
      CountBeatingPrefix(s[..|s| - 1], k, x);
      assert s[..|s| - 1][..k] == s[..k];
    } else {
      assert s[..k] == s;
    }
  }

  /** The count depends on x only through its score and time. */
  lemma {:induction false} CountBeatingTied(s: seq<TestScore>, x: TestScore, y: TestScore)
    requires Tied(x, y)
    ensures CountBeating(s, x) == CountBeating(s, y)
  {
    if s != [] {
      CountBeatingTied(s[..|s| - 1], x, y);
    }
  }

  /** Whatever beats x also beats anything x is at least as good as. */
  lemma {:induction false} CountBeatingMonotone(s: seq<TestScore>, x: TestScore, y: TestScore)
    requires !Beats(y, x)
    ensures CountBeating(s, x) <= CountBeating(s, y)
  {
    if s != [] {
      CountBeatingMonotone(s[..|s| - 1], x, y);
    }
  }

  /** If x beats y and x itself is in the list, strictly more records beat y than beat x. */
  lemma {:induction false} CountBeatingStrict(s: seq<TestScore>, x: TestScore, y: TestScore, k: nat)
    requires Beats(x, y)
    requires k < |s| && s[k] == x
    ensures CountBeating(s, x) < CountBeating(s, y)
  {
    var n := |s| - 1;
    if k == n {
      CountBeatingMonotone(s[..n], x, y);
    } else {
      CountBeatingStrict(s[..n], x, y, k);
    }
  }

  /**
   * The step both ranking loops take, on a sorted list: the first record and
   * every record that does not tie with its predecessor get their 1-based
   * position; a record tied with its predecessor gets the predecessor's rank.
   */
  lemma RankOnSorted(s: seq<TestScore>, i: nat)
    requires SortedForBoard(s) && i < |s|
    ensures i == 0 ==> CompetitionRank(s, i) == 1
    ensures i > 0 && Tied(s[i], s[i - 1]) ==> CompetitionRank(s, i) == CompetitionRank(s, i - 1)
    ensures i > 0 && !Tied(s[i], s[i - 1]) ==> CompetitionRank(s, i) == i + 1
  {
    CountBeatingPrefix(s, i, s[i]);
    if i == 0 {
      assert s[..0] == [];
    } else if Tied(s[i], s[i - 1]) {
      var p := s[..i];
      assert p[..|p| - 1] == s[..i - 1];
      CountBeatingTied(s[..i - 1], s[i], s[i - 1]);
      CountBeatingPrefix(s, i - 1, s[i - 1]);
    } else {
      forall j | 0 <= j < i ensures Beats(s[..i][j], s[i]) {
        assert !Beats(s[i - 1], s[j]) || j == i - 1;
        assert !Beats(s[i], s[i - 1]);
      }
      CountBeatingAll(s[..i], s[i]);
    }
  }

  /** On a sorted list every rank lies between 1 and the record's 1-based position. */
  lemma RankBounds(s: seq<TestScore>, i: nat)
    requires SortedForBoard(s) && i < |s|
    ensures 1 <= CompetitionRank(s, i) <= i + 1
  {
    CountBeatingPrefix(s, i, s[i]);
  }

  /** On a sorted list ranks never decrease along the list. */
  lemma RankMonotone(s: seq<TestScore>, i: nat, j: nat)
    requires SortedForBoard(s) && i <= j < |s|
    ensures CompetitionRank(s, i) <= CompetitionRank(s, j)
  {
    if i < j {
      CountBeatingMonotone(s, s[i], s[j]);
    }
  }

  /**
   * On any list, not only a sorted one, ranks order records exactly as the
   * (score, time) order does: equal ranks if and only if tied, a smaller rank
   * if and only if strictly better.
   */
  lemma RankReflectsOrder(s: seq<TestScore>, i: nat, j: nat)
    requires i < |s| && j < |s|
    ensures CompetitionRank(s, i) == CompetitionRank(s, j) <==> Tied(s[i], s[j])
    ensures CompetitionRank(s, i) < CompetitionRank(s, j) <==> Beats(s[i], s[j])
  {
    if Tied(s[i], s[j]) {
      CountBeatingTied(s, s[i], s[j]);
    } else if Beats(s[i], s[j]) {
      CountBeatingStrict(s, s[i], s[j], i);
    } else {
      CountBeatingStrict(s, s[j], s[i], j);
    }
  }

  /**
   * On a sorted list the rank of a record is the 1-based position of the
   * first record of its tie group.
   */
  lemma {:induction false} RankIsFirstOfTieGroup(s: seq<TestScore>, i: nat)
    requires SortedForBoard(s) && i < |s|
    ensures CompetitionRank(s, i) - 1 <= i
    ensures Tied(s[CompetitionRank(s, i) - 1], s[i])
    ensures forall k :: 0 <= k < CompetitionRank(s, i) - 1 ==> !Tied(s[k], s[i])
  {
    RankOnSorted(s, i);
    if i > 0 && Tied(s[i], s[i - 1]) {
      RankIsFirstOfTieGroup(s, i - 1);
    } else {
      forall k | 0 <= k < i ensures !Tied(s[k], s[i]) {
        assert !Beats(s[i - 1], s[k]) || k == i - 1;
      }
    }
  }
}
