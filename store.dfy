/**
 * The score store: a map from (testCode, userId) to the one TestScore kept
 * for that pair, the best-score upsert rule, the sorted query the ranking
 * pass reads, and the write-back of ranks.
 */
module Store {
  import opened Wrappers
  import opened Scores

  /** The fields a client submits for a finished test. */
  datatype Submission = Submission(score: int, totalQuestions: int, timeTaken: nat)

  /** A submission replaces a stored record only when it is strictly better. */
  predicate Improves(sub: Submission, stored: TestScore)
  {
    Outranks(sub.score, sub.timeTaken, stored.score, stored.timeTaken)
  }

  /** Every record is filed under its own (testCode, userId). */
  ghost predicate WellKeyed(records: map<ScoreKey, TestScore>)
  {
    forall k :: k in records ==> KeyOf(records[k]) == k
  }

  /**
   * The upsert of saveTestScore: create the record when the pair has none;
   * otherwise overwrite score, totalQuestions and timeTaken when the
   * submission improves on the stored record, and keep it as it was if not.
   */
  function Upsert(records: map<ScoreKey, TestScore>, testCode: string, userId: UserId, sub: Submission)
    : (r: map<ScoreKey, TestScore>)
    ensures r.Keys == records.Keys + {(testCode, userId)}
    ensures forall k :: k in records && k != (testCode, userId) ==> r[k] == records[k]
    ensures WellKeyed(records) ==> WellKeyed(r)
    ensures (testCode, userId) !in records ==>
      r[(testCode, userId)] == TestScore(testCode, userId, sub.score, sub.totalQuestions, sub.timeTaken, None)
    ensures (testCode, userId) in records ==>
      (r == records <==> !Improves(sub, records[(testCode, userId)]))
    ensures (testCode, userId) in records && Improves(sub, records[(testCode, userId)]) ==>
      var stored := r[(testCode, userId)];
      stored.score == sub.score && stored.totalQuestions == sub.totalQuestions
      && stored.timeTaken == sub.timeTaken && stored.rank == records[(testCode, userId)].rank
      && KeyOf(stored) == KeyOf(records[(testCode, userId)])
  {
    var key := (testCode, userId);
    if key in records then
      var existing := records[key];
      if Improves(sub, existing) then
        records[key := existing.(score := sub.score, totalQuestions := sub.totalQuestions, timeTaken := sub.timeTaken)]
      else
        records
    else
      records[key := TestScore(testCode, userId, sub.score, sub.totalQuestions, sub.timeTaken, None)]
  }

  /** After an upsert the submission never beats what is stored, and the stored record never got worse. */
  lemma UpsertKeepsBest(records: map<ScoreKey, TestScore>, testCode: string, userId: UserId, sub: Submission)
    ensures !Improves(sub, Upsert(records, testCode, userId, sub)[(testCode, userId)])
    ensures (testCode, userId) in records ==>
      !Beats(records[(testCode, userId)], Upsert(records, testCode, userId, sub)[(testCode, userId)])
  {
  }

  /** Submitting the same result twice is the same as submitting it once. */
  lemma UpsertIdempotent(records: map<ScoreKey, TestScore>, testCode: string, userId: UserId, sub: Submission)
    ensures Upsert(Upsert(records, testCode, userId, sub), testCode, userId, sub)
         == Upsert(records, testCode, userId, sub)
  {
    UpsertKeepsBest(records, testCode, userId, sub);
  }

  /** The store after a series of submissions by one user for one test, in order. */
  function Replay(records: map<ScoreKey, TestScore>, testCode: string, userId: UserId, subs: seq<Submission>)
    : (r: map<ScoreKey, TestScore>)
    ensures subs != [] ==> (testCode, userId) in r
  {
    if subs == [] then records
    else Upsert(Replay(records, testCode, userId, subs[..|subs| - 1]), testCode, userId, subs[|subs| - 1])
  }

  /**
   * Best-score semantics: starting with no record for the pair, the record
   * kept after any non-empty series of submissions has the score and time of
   * one of them, and no submission of the series is better than it.
   */
  lemma {:induction false} ReplayKeepsBest(records: map<ScoreKey, TestScore>, testCode: string, userId: UserId, subs: seq<Submission>)
    requires (testCode, userId) !in records && subs != []
    ensures var stored := Replay(records, testCode, userId, subs)[(testCode, userId)];
      (exists i :: 0 <= i < |subs| && subs[i].score == stored.score && subs[i].timeTaken == stored.timeTaken)
      && forall i :: 0 <= i < |subs| ==> !Improves(subs[i], stored)
  {
    var key := (testCode, userId);
    var n := |subs| - 1;
    var before := Replay(records, testCode, userId, subs[..n]);
    var stored := Replay(records, testCode, userId, subs)[key];
    UpsertKeepsBest(before, testCode, userId, subs[n]);
    if n == 0 {
      assert subs[0].score == stored.score && subs[0].timeTaken == stored.timeTaken;
    } else {
      ReplayKeepsBest(records, testCode, userId, subs[..n]);
      var prev := before[key];
      forall i | 0 <= i < |subs| ensures !Improves(subs[i], stored) {
        if i < n {
          assert subs[..n][i] == subs[i];
          assert !Improves(subs[i], prev);
        }
      }
      if Improves(subs[n], prev) {
        assert subs[n].score == stored.score && subs[n].timeTaken == stored.timeTaken;
      } else {
        assert stored == prev;
        var i :| 0 <= i < n && subs[..n][i].score == prev.score && subs[..n][i].timeTaken == prev.timeTaken;
        assert subs[i] == subs[..n][i];
      }
    }
  }

  // ---- ranks as the store defines them ----

  /** The keys of the records for one test code (the documents find({testCode}) matches). */
  function TestKeys(records: map<ScoreKey, TestScore>, testCode: string): set<ScoreKey>
  {
    set k | k in records.Keys && k.0 == testCode
  }

  /** The records for a test code that are strictly better than x. */
  ghost function BeatingKeys(records: map<ScoreKey, TestScore>, testCode: string, x: TestScore): set<ScoreKey>
  {
    set k | k in records && k.0 == testCode && Beats(records[k], x)
  }

  /** Competition rank within a test code, independent of any listing order. */
  ghost function StoreRank(records: map<ScoreKey, TestScore>, testCode: string, x: TestScore): nat
  {
    1 + |BeatingKeys(records, testCode, x)|
  }

  /** The store with every record of the test code carrying its competition rank. */
  ghost function Ranked(records: map<ScoreKey, TestScore>, testCode: string): map<ScoreKey, TestScore>
  {
    map k | k in records ::
      if k.0 == testCode then records[k].(rank := Some(StoreRank(records, testCode, records[k])))
      else records[k]
  }

  /** The store rank of a record depends only on its score and time. */
  lemma StoreRankTied(records: map<ScoreKey, TestScore>, testCode: string, x: TestScore, y: TestScore)
    requires Tied(x, y)
    ensures StoreRank(records, testCode, x) == StoreRank(records, testCode, y)
  {
    assert BeatingKeys(records, testCode, x) == BeatingKeys(records, testCode, y);
  }

  /** Ranking changes no score or time, so it does not change who beats whom. */
  lemma RankedKeepsBeating(records: map<ScoreKey, TestScore>, testCode: string, x: TestScore)
    ensures BeatingKeys(Ranked(records, testCode), testCode, x) == BeatingKeys(records, testCode, x)
  {
  }

  /** A second ranking pass over an unchanged store changes nothing. */
  lemma RankedIdempotent(records: map<ScoreKey, TestScore>, testCode: string)
    ensures Ranked(Ranked(records, testCode), testCode) == Ranked(records, testCode)
  {
    var r1 := Ranked(records, testCode);
    forall k | k in r1 ensures Ranked(r1, testCode)[k] == r1[k] {
      if k.0 == testCode {
        RankedKeepsBeating(records, testCode, r1[k]);
        assert Beats(r1[k], records[k]) == Beats(records[k], records[k]);
        assert BeatingKeys(records, testCode, r1[k]) == BeatingKeys(records, testCode, records[k]);
      }
    }
  }

  /**
   * A resubmission that does not beat the stored record, made after a save
   * has ranked the store, leaves every record and every rank as it was.
   */
  lemma ResubmitIsNoOp(records: map<ScoreKey, TestScore>, testCode: string, userId: UserId,
                       first: Submission, again: Submission)
    requires !Improves(again, Ranked(Upsert(records, testCode, userId, first), testCode)[(testCode, userId)])
    ensures var saved := Ranked(Upsert(records, testCode, userId, first), testCode);
      Ranked(Upsert(saved, testCode, userId, again), testCode) == saved
  {
    var saved := Ranked(Upsert(records, testCode, userId, first), testCode);
    assert Upsert(saved, testCode, userId, again) == saved;
    RankedIdempotent(Upsert(records, testCode, userId, first), testCode);
  }

  // ---- listings: the sorted query result ----

  function KeysOf(s: seq<TestScore>): set<ScoreKey>
  {
    set i | 0 <= i < |s| :: KeyOf(s[i])
  }

  predicate NoDupKeys(s: seq<TestScore>)
  {
    forall i, j :: 0 <= i < j < |s| ==> KeyOf(s[i]) != KeyOf(s[j])
  }

  /** s lists each record of the test code exactly once, as stored. */
  ghost predicate IsListing(records: map<ScoreKey, TestScore>, testCode: string, s: seq<TestScore>)
  {
    && NoDupKeys(s)
    && KeysOf(s) == TestKeys(records, testCode)
    && forall i :: 0 <= i < |s| ==> KeyOf(s[i]) in records && records[KeyOf(s[i])] == s[i]
  }

  /** The keys of the records in s that beat x. */
  ghost function BeatingKeysIn(s: seq<TestScore>, x: TestScore): set<ScoreKey>
  {
    set i | 0 <= i < |s| && Beats(s[i], x) :: KeyOf(s[i])
  }

  lemma {:induction false} CountIsBeatingKeys(s: seq<TestScore>, x: TestScore)
    requires NoDupKeys(s)
    ensures CountBeating(s, x) == |BeatingKeysIn(s, x)|
  {
    if s != [] {
      var n := |s| - 1;
      var p := s[..n];
      assert NoDupKeys(p) by {
        forall i, j | 0 <= i < j < n ensures KeyOf(p[i]) != KeyOf(p[j]) {
          assert p[i] == s[i] && p[j] == s[j];
        }
      }
      CountIsBeatingKeys(p, x);
      BeatingKeysLast(s, x);
    }
  }

  /** The keys beating x in s: those in all but the last record, plus the last one's if it beats x. */
  lemma BeatingKeysLast(s: seq<TestScore>, x: TestScore)
    requires NoDupKeys(s) && s != []
    ensures var n := |s| - 1;
      && KeyOf(s[n]) !in BeatingKeysIn(s[..n], x)
      && BeatingKeysIn(s, x) == BeatingKeysIn(s[..n], x) + (if Beats(s[n], x) then {KeyOf(s[n])} else {})
  {
    var n := |s| - 1;
    var p := s[..n];
    forall k | k in BeatingKeysIn(p, x) ensures k in BeatingKeysIn(s, x) && k != KeyOf(s[n]) {
      var j :| 0 <= j < n && Beats(p[j], x) && KeyOf(p[j]) == k;
      assert p[j] == s[j];
    }
    forall k | k in BeatingKeysIn(s, x)
      ensures k in BeatingKeysIn(p, x) || (Beats(s[n], x) && k == KeyOf(s[n]))
    {
      var j :| 0 <= j < |s| && Beats(s[j], x) && KeyOf(s[j]) == k;
      if j < n {
        assert p[j] == s[j];
      }
    }
  }

  lemma {:induction false} ListingSize(s: seq<TestScore>)
    requires NoDupKeys(s)
    ensures |KeysOf(s)| == |s|
  {
    if s != [] {
      var n := |s| - 1;
      var p := s[..n];
      ListingSize(p);
      assert KeyOf(s[n]) !in KeysOf(p);
      assert KeysOf(s) == KeysOf(p) + {KeyOf(s[n])};
    }
  }

  /** Ranking a listing by position gives the store's order-independent rank. */
  lemma ListingRankIsStoreRank(records: map<ScoreKey, TestScore>, testCode: string, s: seq<TestScore>, i: nat)
    requires IsListing(records, testCode, s) && i < |s|
    ensures CompetitionRank(s, i) == StoreRank(records, testCode, s[i])
  {
    CountIsBeatingKeys(s, s[i]);
    assert BeatingKeysIn(s, s[i]) == BeatingKeys(records, testCode, s[i]) by {
      forall k | k in BeatingKeys(records, testCode, s[i]) ensures k in BeatingKeysIn(s, s[i]) {
        assert k in KeysOf(s);
        var j :| 0 <= j < |s| && KeyOf(s[j]) == k;
        assert records[k] == s[j];
      }
      forall k | k in BeatingKeysIn(s, s[i]) ensures k in BeatingKeys(records, testCode, s[i]) {
        var j :| 0 <= j < |s| && Beats(s[j], s[i]) && KeyOf(s[j]) == k;
        assert k in KeysOf(s);
      }
    }
  }

  /** A listing with each record's positional rank attached: the ranks the store defines. */
  ghost predicate IsRankedListing(records: map<ScoreKey, TestScore>, testCode: string,
                                  listing: seq<TestScore>, ranked: seq<TestScore>)
  {
    |ranked| == |listing|
    && forall i :: 0 <= i < |listing| ==>
         ranked[i] == listing[i].(rank := Some(StoreRank(records, testCode, listing[i])))
  }

  lemma RankedListingKeys(records: map<ScoreKey, TestScore>, testCode: string,
                          listing: seq<TestScore>, ranked: seq<TestScore>)
    requires IsListing(records, testCode, listing)
    requires |ranked| == |listing|
    requires forall i :: 0 <= i < |listing| ==>
      ranked[i] == listing[i].(rank := Some(CompetitionRank(listing, i)))
    ensures IsRankedListing(records, testCode, listing, ranked)
    ensures NoDupKeys(ranked) && KeysOf(ranked) == KeysOf(listing)
    ensures forall i :: 0 <= i < |ranked| ==> KeyOf(ranked[i]) in records
  {
    forall i | 0 <= i < |listing|
      ensures ranked[i] == listing[i].(rank := Some(StoreRank(records, testCode, listing[i])))
    {
      ListingRankIsStoreRank(records, testCode, listing, i);
    }
    assert forall i :: 0 <= i < |ranked| ==> KeyOf(ranked[i]) == KeyOf(listing[i]);
  }

  /** Saving every record of a ranked listing leaves the store ranked. */
  lemma SavedListingIsRanked(records: map<ScoreKey, TestScore>, testCode: string,
                             listing: seq<TestScore>, ranked: seq<TestScore>, saved: map<ScoreKey, TestScore>)
    requires IsListing(records, testCode, listing)
    requires IsRankedListing(records, testCode, listing, ranked)
    requires KeysOf(ranked) == KeysOf(listing)
    requires saved.Keys == records.Keys
    requires forall i :: 0 <= i < |ranked| ==> saved[KeyOf(ranked[i])] == ranked[i]
    requires forall k :: k in saved && k !in KeysOf(ranked) ==> saved[k] == records[k]
    ensures saved == Ranked(records, testCode)
  {
  }

  /** Where x goes in a sorted listing: before the first record it beats. */
  function InsertionPoint(s: seq<TestScore>, x: TestScore): (p: nat)
    ensures p <= |s|
    ensures forall j :: 0 <= j < p ==> !Beats(x, s[j])
    ensures p < |s| ==> Beats(x, s[p])
  {
    if s == [] then 0
    else if Beats(x, s[0]) then 0
    else 1 + InsertionPoint(s[1..], x)
  }

  function InsertSorted(s: seq<TestScore>, x: TestScore): seq<TestScore>
  {
    var p := InsertionPoint(s, x);
    s[..p] + [x] + s[p..]
  }

  lemma InsertSortedKeepsListing(s: seq<TestScore>, x: TestScore)
    requires SortedForBoard(s) && NoDupKeys(s) && KeyOf(x) !in KeysOf(s)
    ensures SortedForBoard(InsertSorted(s, x))
    ensures NoDupKeys(InsertSorted(s, x))
    ensures KeysOf(InsertSorted(s, x)) == KeysOf(s) + {KeyOf(x)}
    ensures forall i :: 0 <= i < |InsertSorted(s, x)| ==>
      InsertSorted(s, x)[i] == x || InsertSorted(s, x)[i] in s
  {
    var p := InsertionPoint(s, x);
    var r := InsertSorted(s, x);
    assert |r| == |s| + 1;
    assert forall i :: 0 <= i < p ==> r[i] == s[i];
    assert r[p] == x;
    assert forall i :: p < i < |r| ==> r[i] == s[i - 1];
    forall i, j | 0 <= i < j < |r| ensures !Beats(r[j], r[i]) {
      if j == p {
      } else if i == p {
        assert !Beats(s[j - 1], s[p]) || j - 1 == p;
      }
    }
    forall i, j | 0 <= i < j < |r| ensures KeyOf(r[i]) != KeyOf(r[j]) {
      if i == p {
        assert KeyOf(s[j - 1]) in KeysOf(s);
      } else if j == p {
        assert KeyOf(s[i]) in KeysOf(s);
      }
    }
    forall k | k in KeysOf(s) ensures k in KeysOf(r) {
      var i :| 0 <= i < |s| && KeyOf(s[i]) == k;
      if i < p { assert r[i] == s[i]; } else { assert r[i + 1] == s[i]; }
    }
    assert KeyOf(r[p]) in KeysOf(r);
  }

  /**
   * The store: one TestScore per (testCode, userId). Methods change the
   * records the way the controller's database calls do.
   */
  class TestScores {
    var records: map<ScoreKey, TestScore>

    ghost predicate Valid()
      reads this
    {
      WellKeyed(records)
    }

    constructor ()
      ensures Valid() && records == map[]
    {
      records := map[];
    }

    /** findOne({testCode, userId}), then update in place or create and save. */
    method Submit(testCode: string, userId: UserId, sub: Submission)
      requires Valid()
      modifies this
      ensures Valid()
      ensures records == Upsert(old(records), testCode, userId, sub)
    {
      var key := (testCode, userId);
      if key in records {
        var existing := records[key];
        if Improves(sub, existing) {
          records := records[key := existing.(score := sub.score, totalQuestions := sub.totalQuestions, timeTaken := sub.timeTaken)];
        }
      } else {
        records := records[key := TestScore(testCode, userId, sub.score, sub.totalQuestions, sub.timeTaken, None)];
      }
    }

    /**
     * find({testCode}).sort({score: -1, timeTaken: 1}): every record of the
     * test code once, best first. Records that tie come in no particular order.
     */
    method FindSorted(testCode: string) returns (listing: seq<TestScore>)
      requires Valid()
      ensures IsListing(records, testCode, listing)
      ensures SortedForBoard(listing)
    {
      var remaining := TestKeys(records, testCode);
      listing := [];
      while remaining != {}
        invariant remaining <= TestKeys(records, testCode)
        invariant KeysOf(listing) == TestKeys(records, testCode) - remaining
        invariant NoDupKeys(listing) && SortedForBoard(listing)
        invariant forall i :: 0 <= i < |listing| ==>
          KeyOf(listing[i]) in records && records[KeyOf(listing[i])] == listing[i]
        decreases remaining
      {
        var k :| k in remaining;
        InsertSortedKeepsListing(listing, records[k]);
        listing := InsertSorted(listing, records[k]);
        remaining := remaining - {k};
      }
    }

    /** The save() of every ranked record: each overwrites the stored record with its key. */
    method SaveAll(ranked: seq<TestScore>)
      requires Valid()
      requires NoDupKeys(ranked)
      requires forall i :: 0 <= i < |ranked| ==> KeyOf(ranked[i]) in records
      modifies this
      ensures Valid()
      ensures records.Keys == old(records).Keys
      ensures forall i :: 0 <= i < |ranked| ==> records[KeyOf(ranked[i])] == ranked[i]
      ensures forall k :: k in records && k !in KeysOf(ranked) ==> records[k] == old(records)[k]
    {
      for i := 0 to |ranked|
        invariant Valid() && records.Keys == old(records).Keys
        invariant forall j :: 0 <= j < i ==> records[KeyOf(ranked[j])] == ranked[j]
        invariant forall k :: k in records && k !in KeysOf(ranked) ==> records[k] == old(records)[k]
      {
        assert KeyOf(ranked[i]) in KeysOf(ranked);
        records := records[KeyOf(ranked[i]) := ranked[i]];
      }
    }
  }
}
