/**
 * generateQuiz and getTopicsBySubject: resolving the quiz parameters from a
 * test code or from the request, checking them, and turning the model's
 * reply into a non-empty question array. The upstream call and JSON.parse
 * are parameters, so the model states what the controller does with their
 * outcomes without modelling either.
 */
module QuizGeneration {
  import opened Wrappers
  import opened Errors
  import opened Registry
  import opened Text

  /**
   * A request-body field: None when it is missing (or null). A field counts
   * as given when it is present and not the empty string, as a JavaScript
   * truthiness test on a string decides.
   */
  predicate Given(f: Option<string>)
  {
    f.Some? && f.value != ""
  }

  datatype QuizRequest = QuizRequest(
    testCode: Option<string>,
    subject: Option<string>,
    topic: Option<string>,
    chapter: Option<string>,
    difficulty: Option<string>,
    level: Option<string>,
    numQuestions: Option<int>)

  /** What the prompt is built from. */
  datatype QuizParams = QuizParams(
    subject: string,
    topic: string,
    chapter: string,
    difficulty: string,
    numQuestions: int)

  /** The resolved parameters, with the registry entry's public part when a test code was used. */
  datatype Resolved = Resolved(params: QuizParams, testInfo: Option<TestInfo>)

  /** Applied by the request destructuring when numQuestions is missing. */
  const DefaultNumQuestions: int := 10

  function QuestionCount(req: QuizRequest): int
  {
    if req.numQuestions.Some? then req.numQuestions.value else DefaultNumQuestions
  }

  /** The direct parameters are incomplete: a subject, topic or chapter, or both difficulty and level, missing. */
  predicate MissingDirectParams(req: QuizRequest)
  {
    !Given(req.subject) || !Given(req.topic) || !Given(req.chapter)
    || (!Given(req.difficulty) && !Given(req.level))
  }

  function ResolveParams(req: QuizRequest, registry: seq<TestCode>): (r: Result<Resolved, Failure>)
    // with a test code: it must name an active entry, whose fields are used
    ensures Given(req.testCode) ==>
      (r.Failure? <==> FindOne(registry, req.testCode.value, true).None?)
      && (r.Failure? ==> r.error == NotFound)
    ensures Given(req.testCode) && r.Success? ==>
      var e := FindOne(registry, req.testCode.value, true).value;
      e in registry && e.testCode == req.testCode.value && e.isActive
      && r.value.params == QuizParams(e.subject, e.topic, e.chapter, e.difficulty, QuestionCount(req))
      && r.value.testInfo == Some(InfoOf(e))
    // without one: the direct parameters must be complete; difficulty falls back to level
    ensures !Given(req.testCode) ==>
      (r.Failure? <==> MissingDirectParams(req))
      && (r.Failure? ==> r.error == ValidationError)
    ensures !Given(req.testCode) && r.Success? ==>
      && r.value.testInfo.None?
      && r.value.params.subject == req.subject.value && req.subject.value != ""
      && r.value.params.topic == req.topic.value && req.topic.value != ""
      && r.value.params.chapter == req.chapter.value && req.chapter.value != ""
      && r.value.params.difficulty != ""
      && r.value.params.difficulty == (if Given(req.difficulty) then req.difficulty.value else req.level.value)
      && r.value.params.numQuestions == QuestionCount(req)
  {
    var count := QuestionCount(req);
    if Given(req.testCode) then
      match FindOne(registry, req.testCode.value, true)
      case None => Failure(NotFound)
      case Some(e) => Success(Resolved(QuizParams(e.subject, e.topic, e.chapter, e.difficulty, count), Some(InfoOf(e))))
    else if MissingDirectParams(req) then
      Failure(ValidationError)
    else
      var difficulty := if Given(req.difficulty) then req.difficulty.value else req.level.value;
      Success(Resolved(QuizParams(req.subject.value, req.topic.value, req.chapter.value, difficulty, count), None))
  }

  /** With a test code, whatever direct parameters the request also carries are ignored. */
  lemma TestCodeOverridesDirectParams(req1: QuizRequest, req2: QuizRequest, registry: seq<TestCode>)
    requires Given(req1.testCode) && req1.testCode == req2.testCode
    requires req1.numQuestions == req2.numQuestions
    ensures ResolveParams(req1, registry) == ResolveParams(req2, registry)
  {
  }

  /** The outcome of the upstream generateContent call. */
  datatype Completion =
    | Completed(text: Option<string>)  // a reply; text is candidates[0].content.parts[0].text, if any
    | HttpError(status: int)           // the upstream answered with an error status
    | NoResponse                       // the request failed without a response

  /** A parsed JSON value: only whether it is an array, and of what, matters here. */
  datatype Json = JArray(elements: seq<Json>) | JOther

  /** The success body: the bare question array, or the array with the test's info. */
  datatype QuizData =
    | Questions(questions: seq<Json>)
    | TestQuiz(testInfo: TestInfo, questions: seq<Json>)

  /**
   * generateQuiz: resolve the parameters, call the model, clean and parse its
   * text, and accept only a non-empty array. `complete` stands for the
   * upstream call made with the prompt built from the parameters, `parse`
   * for JSON.parse (None when it throws).
   */
  function GenerateQuiz(req: QuizRequest, registry: seq<TestCode>,
                        complete: QuizParams -> Completion, parse: string -> Option<Json>)
    : (r: Result<QuizData, Failure>)
    ensures ResolveParams(req, registry).Failure? ==> r == Failure(ResolveParams(req, registry).error)
    ensures ResolveParams(req, registry).Success? ==>
      var c := complete(ResolveParams(req, registry).value.params);
      && (c == HttpError(403) ==> r == Failure(Unauthorized))
      && ((c.HttpError? && c.status != 403) || c.NoResponse? ==> r == Failure(UpstreamFailure))
      && (c.Completed? && !Given(c.text) ==> r == Failure(InvalidUpstreamResponse))
      && (c.Completed? && Given(c.text) && parse(CleanJsonText(c.text.value)).None? ==> r == Failure(InvalidJson))
      // a parsed value is accepted exactly when it is a non-empty array, whose elements are the questions
      && (c.Completed? && Given(c.text) && parse(CleanJsonText(c.text.value)).Some? ==>
            var v := parse(CleanJsonText(c.text.value)).value;
            if v.JArray? && v.elements != [] then r.Success? && r.value.questions == v.elements
            else r == Failure(EmptyQuiz))
    ensures r.Success? ==>
      var c := complete(ResolveParams(req, registry).value.params);
      && ResolveParams(req, registry).Success?
      && c.Completed? && Given(c.text)
      && r.value.questions != []
      && parse(CleanJsonText(c.text.value)) == Some(JArray(r.value.questions))
      && (r.value.TestQuiz? <==> Given(req.testCode))
      && (r.value.TestQuiz? ==> Some(r.value.testInfo) == ResolveParams(req, registry).value.testInfo)
  {
    match ResolveParams(req, registry)
    case Failure(e) => Failure(e)
    case Success(res) =>
      match complete(res.params)
      case HttpError(status) => if status == 403 then Failure(Unauthorized) else Failure(UpstreamFailure)
      case NoResponse => Failure(UpstreamFailure)
      case Completed(text) =>
        if !Given(text) then Failure(InvalidUpstreamResponse)
        else
          match parse(CleanJsonText(text.value))
          case None => Failure(InvalidJson)
          case Some(v) =>
            if !v.JArray? || v.elements == [] then Failure(EmptyQuiz)
            else if res.testInfo.Some? then Success(TestQuiz(res.testInfo.value, v.elements))
            else Success(Questions(v.elements))
  }

  /**
   * A request that fails validation or names no active test code is answered
   * without the upstream call: the outcome is the same whatever the model
   * and the parser would do.
   */
  lemma NoUpstreamCallOnBadRequest(req: QuizRequest, registry: seq<TestCode>,
                                   complete1: QuizParams -> Completion, parse1: string -> Option<Json>,
                                   complete2: QuizParams -> Completion, parse2: string -> Option<Json>)
    requires ResolveParams(req, registry).Failure?
    ensures GenerateQuiz(req, registry, complete1, parse1) == GenerateQuiz(req, registry, complete2, parse2)
  {
  }

  /** The static subject-to-topics table of getTopicsBySubject. */
  const TopicsTable: map<string, seq<string>> := map[
    "Mathematics" := ["Algebra", "Geometry", "Calculus", "Statistics", "Trigonometry", "Number Theory"],
    "Science" := ["Physics", "Chemistry", "Biology", "Astronomy", "Earth Science", "Environmental Science"],
    "Social Studies" := ["History", "Geography", "Civics", "Economics", "Political Science", "Sociology"],
    "General Knowledge" := ["Current Affairs", "Geography", "Arts & Literature", "Sports", "Technology", "Entertainment"],
    "Machine Learning" := ["Supervised Learning", "Unsupervised Learning", "Deep Learning", "Neural Networks", "Natural Language Processing", "Computer Vision"]
  ]

  /** The topics of a subject; an unknown subject has none, an empty one is refused. */
  function TopicsBySubject(subject: string): (r: Result<seq<string>, Failure>)
    ensures r.Failure? <==> subject == ""
    ensures r.Failure? ==> r.error == ValidationError
    ensures r.Success? ==> (r.value != [] <==> subject in TopicsTable)
    ensures r.Success? && subject in TopicsTable ==> r.value == TopicsTable[subject]
    ensures r.Success? && r.value != [] ==>
      |r.value| == 6 && forall i, j :: 0 <= i < j < |r.value| ==> r.value[i] != r.value[j]
  {
    if subject == "" then Failure(ValidationError)
    else if subject in TopicsTable then Success(TopicsTable[subject])
    else Success([])
  }
}
