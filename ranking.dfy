/**
 * The two places the controller turns a sorted score list into competition
 * ranks: the in-place loop of saveTestScore, which remembers the score and
 * time of the first record of the current tie group, and the map of
 * getLeaderboard, which remembers the previous record and starts from -1.
 * Both are proved to compute CompetitionRank on a list sorted for the board.
 */
module Ranking {
  import opened Wrappers
  import opened Scores

  /**
   * saveTestScore's loop: writes each record's rank in place. The list is
   * never empty there, since the submission just stored has a record.
   */
  method AssignRanks(a: array<TestScore>)
    requires a.Length > 0
    requires SortedForBoard(a[..])
    modifies a
    ensures forall i :: 0 <= i < a.Length ==>
      a[i] == old(a[i]).(rank := Some(CompetitionRank(old(a[..]), i)))
  {
    ghost var s := a[..];
    var currentRank := 1;
    var prevScore := a[0].score;
    var prevTime := a[0].timeTaken;
    for i := 0 to a.Length
      invariant forall k :: 0 <= k < i ==> a[k] == s[k].(rank := Some(CompetitionRank(s, k)))
      invariant forall k :: i <= k < a.Length ==> a[k] == s[k]
      invariant prevScore == s[if i == 0 then 0 else i - 1].score
      invariant prevTime == s[if i == 0 then 0 else i - 1].timeTaken
      invariant currentRank == if i == 0 then 1 else CompetitionRank(s, i - 1)
    {
      RankOnSorted(s, i);
      assert i > 0 ==> !Beats(s[i], s[i - 1]);
      if i > 0 && (a[i].score < prevScore || (a[i].score == prevScore && a[i].timeTaken > prevTime)) {
        currentRank := i + 1;
        prevScore := a[i].score;
        prevTime := a[i].timeTaken;
      }
      a[i] := a[i].(rank := Some(currentRank));
    }
  }

  /** getLeaderboard's map: a fresh copy of each record carrying its rank. */
  method LeaderboardRanks(scores: seq<TestScore>) returns (board: seq<TestScore>)
    requires SortedForBoard(scores)
    ensures |board| == |scores|
    ensures forall i :: 0 <= i < |scores| ==>
      board[i] == scores[i].(rank := Some(CompetitionRank(scores, i)))
  {
    var currentRank := 1;
    var prevScore: int := -1;
    var prevTime: int := -1;
    board := [];
    for index := 0 to |scores|
      invariant |board| == index
      invariant forall k :: 0 <= k < index ==> board[k] == scores[k].(rank := Some(CompetitionRank(scores, k)))
      invariant index > 0 ==> prevScore == scores[index - 1].score && prevTime == scores[index - 1].timeTaken
      invariant index > 0 ==> currentRank == CompetitionRank(scores, index - 1)
    {
      RankOnSorted(scores, index);
      var score := scores[index];
      if index == 0 || score.score != prevScore || score.timeTaken != prevTime {
        currentRank := index + 1;
      }
      prevScore := score.score;
      prevTime := score.timeTaken;
      board := board + [score.(rank := Some(currentRank))];
    }
  }

  /** On the same sorted, non-empty list the two loops produce the same ranked records. */
  method RankingsAgree(scores: seq<TestScore>) returns (saved: seq<TestScore>, board: seq<TestScore>)
    requires |scores| > 0 && SortedForBoard(scores)
    ensures saved == board
  {
    var a := new TestScore[|scores|](i requires 0 <= i < |scores| => scores[i]);
    assert a[..] == scores;
    AssignRanks(a);
    saved := a[..];
    board := LeaderboardRanks(scores);
  }
}
