/** The test-code registry: read-only to the controller. */
module Registry {
  import opened Wrappers

  /** A TestCode document: the generation parameters a shared test code stands for. */
  datatype TestCode = TestCode(
    testCode: string,
    subject: string,
    topic: string,
    chapter: string,
    difficulty: string,
    isActive: bool)

  /** The part of a registry entry that responses carry as `testInfo`. */
  datatype TestInfo = TestInfo(
    testCode: string,
    subject: string,
    topic: string,
    chapter: string,
    difficulty: string)

  function InfoOf(e: TestCode): TestInfo
  {
    TestInfo(e.testCode, e.subject, e.topic, e.chapter, e.difficulty)
  }

  /** The query filter: this code, and active when `activeOnly`. */
  predicate Matches(e: TestCode, code: string, activeOnly: bool)
  {
    e.testCode == code && (activeOnly ==> e.isActive)
  }

  /** Entry i matches the filter and no earlier entry does. */
  predicate FirstMatchAt(registry: seq<TestCode>, i: nat, code: string, activeOnly: bool)
  {
    i < |registry| && Matches(registry[i], code, activeOnly)
    && forall j :: 0 <= j < i ==> !Matches(registry[j], code, activeOnly)
  }

  /** findOne on the registry: the first entry that matches the filter, if any. */
  function FindOne(registry: seq<TestCode>, code: string, activeOnly: bool): (r: Option<TestCode>)
    ensures r.None? <==> forall i :: 0 <= i < |registry| ==> !Matches(registry[i], code, activeOnly)
    ensures r.Some? ==> exists i: nat :: FirstMatchAt(registry, i, code, activeOnly) && registry[i] == r.value
  {
    if registry == [] then None
    else if Matches(registry[0], code, activeOnly) then
      assert FirstMatchAt(registry, 0, code, activeOnly);
      Some(registry[0])
    else
      var r := FindOne(registry[1..], code, activeOnly);
      if r.None? then r
      else
        var i: nat :| FirstMatchAt(registry[1..], i, code, activeOnly) && registry[1..][i] == r.value;
        assert FirstMatchAt(registry, i + 1, code, activeOnly) by {
          forall j | 0 <= j < i + 1 ensures !Matches(registry[j], code, activeOnly) {
            if j > 0 { assert registry[j] == registry[1..][j - 1]; }
          }
        }
        r
  }

  /**
   * Every entry the active-only lookup of quiz generation accepts is also
   * accepted by the unfiltered lookup of score saving and the leaderboard.
   */
  lemma ActiveImpliesRegistered(registry: seq<TestCode>, code: string)
    requires FindOne(registry, code, true).Some?
    ensures FindOne(registry, code, false).Some?
  {
    var i :| 0 <= i < |registry| && Matches(registry[i], code, true);
    assert Matches(registry[i], code, false);
  }
}
