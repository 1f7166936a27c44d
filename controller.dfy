/**
 * The two score handlers of the quiz controller: saveTestScore (look up the
 * test code, upsert the caller's record, re-rank every record of the test
 * and report the caller's rank) and getLeaderboard (rank a fresh sorted
 * listing without trusting stored ranks).
 */
module ScoreHandlers {
  import opened Wrappers
  import opened Errors
  import opened Scores
  import opened Registry
  import opened Store
  import opened Ranking

  /** The body of a successful save: the caller's record, its rank and the number of participants. */
  datatype SaveReply = SaveReply(result: TestScore, rank: nat, totalParticipants: nat)

  datatype Leaderboard = Leaderboard(testInfo: TestInfo, leaderboard: seq<TestScore>)

  method SaveTestScore(registry: seq<TestCode>, store: TestScores,
                       testCode: string, userId: UserId, sub: Submission)
    returns (r: Result<SaveReply, Failure>)
    requires store.Valid()
    modifies store
    ensures store.Valid()
    ensures FindOne(registry, testCode, false).None? ==>
      r == Failure(NotFound) && store.records == old(store.records)
    ensures FindOne(registry, testCode, false).Some? ==>
      && store.records == Ranked(Upsert(old(store.records), testCode, userId, sub), testCode)
      && r.Success?
      && r.value.result == store.records[(testCode, userId)]
      && r.value.result.rank == Some(r.value.rank)
      && r.value.totalParticipants == |TestKeys(store.records, testCode)|
  {
    if FindOne(registry, testCode, false).None? {
      return Failure(NotFound);
    }
    store.Submit(testCode, userId, sub);
    ghost var upserted := store.records;
    var allScores := store.FindSorted(testCode);
    assert (testCode, userId) in KeysOf(allScores);
    var a := new TestScore[|allScores|](i requires 0 <= i < |allScores| => allScores[i]);
    assert a[..] == allScores;
    AssignRanks(a);
    RankedListingKeys(upserted, testCode, allScores, a[..]);
    ghost var ranked := a[..];
    store.SaveAll(a[..]);
    SavedListingIsRanked(upserted, testCode, allScores, ranked, store.records);
    ListingSize(allScores);
    var updated := store.records[(testCode, userId)];
    r := Success(SaveReply(updated, updated.rank.value, |allScores|));
  }

  method GetLeaderboard(registry: seq<TestCode>, store: TestScores, testCode: string)
    returns (r: Result<Leaderboard, Failure>)
    requires store.Valid()
    ensures FindOne(registry, testCode, false).None? ==> r == Failure(NotFound)
    ensures FindOne(registry, testCode, false).Some? ==>
      && r.Success?
      && r.value.testInfo == InfoOf(FindOne(registry, testCode, false).value)
      && SortedForBoard(r.value.leaderboard)
      && NoDupKeys(r.value.leaderboard)
      && KeysOf(r.value.leaderboard) == TestKeys(store.records, testCode)
      && |r.value.leaderboard| == |TestKeys(store.records, testCode)|
      && forall i :: 0 <= i < |r.value.leaderboard| ==>
           var entry := r.value.leaderboard[i];
           KeyOf(entry) in store.records
           && entry == store.records[KeyOf(entry)].(rank := Some(StoreRank(store.records, testCode, entry)))
    ensures r.Success? && store.records == Ranked(store.records, testCode) ==>
      forall i :: 0 <= i < |r.value.leaderboard| ==>
        r.value.leaderboard[i] == store.records[KeyOf(r.value.leaderboard[i])]
  {
    var entry := FindOne(registry, testCode, false);
    if entry.None? {
      return Failure(NotFound);
    }
    var scores := store.FindSorted(testCode);
    var board := LeaderboardRanks(scores);
    ghost var records := store.records;
    forall i | 0 <= i < |board|
      ensures KeyOf(board[i]) == KeyOf(scores[i]) && KeyOf(board[i]) in records
      ensures board[i] == records[KeyOf(board[i])].(rank := Some(StoreRank(records, testCode, board[i])))
    {
      ListingRankIsStoreRank(records, testCode, scores, i);
      StoreRankTied(records, testCode, board[i], scores[i]);
    }
    if records == Ranked(records, testCode) {
      forall i | 0 <= i < |board| ensures board[i] == records[KeyOf(board[i])] {
        var k := KeyOf(board[i]);
        assert k in TestKeys(records, testCode);
        assert Ranked(records, testCode)[k] == records[k].(rank := Some(StoreRank(records, testCode, records[k])));
        StoreRankTied(records, testCode, board[i], records[k]);
      }
    }
    assert KeysOf(board) == KeysOf(scores);
    ListingSize(scores);
    r := Success(Leaderboard(InfoOf(entry.value), board));
  }
}
