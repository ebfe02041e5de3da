/** Request and response shapes of the candidate session API
    (backend/app/schemas/test_session.py). Each `Field(ge=…, le=…, min_length=…)`
    bound becomes part of a validity predicate; each `Validate…` function is what
    pydantic does with an incoming body: fill in the defaults of absent fields, then
    accept the value or reject it with the names of the fields that break a bound. */
module SessionSchemas {
  import opened Wrappers

  /** The field names a rejected body is reported with (`[]` when it is accepted). */
  function Check(field: string, ok: bool): seq<string> {
    if ok then [] else [field]
  }

  // ---- CreateTestLinkRequest ----

  datatype CreateTestLinkRequest = CreateTestLinkRequest(
    testName: string,
    totalQuestions: int,
    timePerQuestion: int,
    topics: seq<string>,
    expiresHours: int,
    maxUses: int)   // 0 means unlimited

  predicate ValidCreateTestLink(r: CreateTestLinkRequest) {
    && 1 <= r.totalQuestions <= 100
    && 5 <= r.timePerQuestion <= 60
    && 1 <= r.expiresHours <= 720
    && r.maxUses >= 0
  }

  function ValidateCreateTestLink(
    testName: Option<string>, totalQuestions: Option<int>, timePerQuestion: Option<int>,
    topics: Option<seq<string>>, expiresHours: Option<int>, maxUses: Option<int>)
    : (r: Result<CreateTestLinkRequest, seq<string>>)
    ensures r.Ok? <==>
      && 1 <= totalQuestions.GetOr(60) <= 100
      && 5 <= timePerQuestion.GetOr(10) <= 60
      && 1 <= expiresHours.GetOr(72) <= 720
      && maxUses.GetOr(0) >= 0
    ensures r.Ok? ==> ValidCreateTestLink(r.value)
    ensures r.Ok? ==> r.value == CreateTestLinkRequest(testName.GetOr("Assessment Test"),
      totalQuestions.GetOr(60), timePerQuestion.GetOr(10), topics.GetOr([]),
      expiresHours.GetOr(72), maxUses.GetOr(0))
    ensures r.Err? ==> r.error != []
  {
    var v := CreateTestLinkRequest(testName.GetOr("Assessment Test"),
      totalQuestions.GetOr(60), timePerQuestion.GetOr(10), topics.GetOr([]),
      expiresHours.GetOr(72), maxUses.GetOr(0));
    var bad := Check("total_questions", 1 <= v.totalQuestions <= 100)
      + Check("time_per_question", 5 <= v.timePerQuestion <= 60)
      + Check("expires_hours", 1 <= v.expiresHours <= 720)
      + Check("max_uses", v.maxUses >= 0);
    if bad == [] then Ok(v) else Err(bad)
  }

  /** An empty body is accepted and yields the documented defaults. */
  lemma CreateTestLinkDefaults()
    ensures ValidateCreateTestLink(None, None, None, None, None, None)
         == Ok(CreateTestLinkRequest("Assessment Test", 60, 10, [], 72, 0))
  {
  }

  // ---- StartTestRequest ----

  datatype StartTestRequest = StartTestRequest(name: string, email: string, phone: string)

  predicate ValidStartTest(r: StartTestRequest) {
    2 <= |r.name| <= 100 && 10 <= |r.phone| <= 15
  }

  function ValidateStartTest(name: string, email: string, phone: string)
    : (r: Result<StartTestRequest, seq<string>>)
    ensures r.Ok? <==> 2 <= |name| <= 100 && 10 <= |phone| <= 15
    ensures r.Ok? ==> ValidStartTest(r.value) && r.value == StartTestRequest(name, email, phone)
    ensures r.Err? ==> ("name" in r.error <==> !(2 <= |name| <= 100))
    ensures r.Err? ==> ("phone" in r.error <==> !(10 <= |phone| <= 15))
  {
    var bad := Check("name", 2 <= |name| <= 100) + Check("phone", 10 <= |phone| <= 15);
    if bad == [] then Ok(StartTestRequest(name, email, phone)) else Err(bad)
  }

  // ---- SubmitAnswerRequest ----

  datatype SubmitAnswerRequest = SubmitAnswerRequest(selectedIndex: Option<int>)

  predicate ValidSubmitAnswer(r: SubmitAnswerRequest) {
    r.selectedIndex.Some? ==> 0 <= r.selectedIndex.value <= 3
  }

  /** `selected_index` is optional (absent and null are both `None`); a present
      value must lie in 0..3. */
  function ValidateSubmitAnswer(selectedIndex: Option<int>)
    : (r: Result<SubmitAnswerRequest, seq<string>>)
    ensures r.Ok? <==> selectedIndex == None || 0 <= selectedIndex.value <= 3
    ensures r.Ok? ==> ValidSubmitAnswer(r.value) && r.value.selectedIndex == selectedIndex
    ensures r.Err? ==> r.error == ["selected_index"]
  {
    var bad := Check("selected_index", selectedIndex.Some? ==> 0 <= selectedIndex.value <= 3);
    if bad == [] then Ok(SubmitAnswerRequest(selectedIndex)) else Err(bad)
  }

  // ---- responses ----

  /** What the candidate sees of a question. There is deliberately no field for the
      correct option: the type cannot carry it to the client. */
  datatype QuestionResponse = QuestionResponse(
    variantId: string,
    questionText: string,
    options: seq<string>,
    questionNumber: int,
    totalQuestions: int,
    timeRemaining: int)

  datatype SubmitAnswerResponse = SubmitAnswerResponse(
    success: bool,
    nextQuestion: Option<QuestionResponse>,
    testCompleted: bool,
    message: string)

  datatype StartTestResponse = StartTestResponse(
    sessionId: nat,
    totalQuestions: int,
    timePerQuestion: int,
    message: string)

  /** `SubmitAnswerResponse(success=…)` with every other field left to its default. */
  function NewSubmitAnswerResponse(success: bool, nextQuestion: Option<QuestionResponse> := None,
                                   testCompleted: bool := false, message: string := "")
    : (r: SubmitAnswerResponse)
    ensures r.success == success && r.nextQuestion == nextQuestion
    ensures r.testCompleted == testCompleted && r.message == message
  {
    SubmitAnswerResponse(success, nextQuestion, testCompleted, message)
  }

  /** A response built from `success` alone reports no completion and no next question. */
  lemma SubmitAnswerResponseDefaults(success: bool)
    ensures !NewSubmitAnswerResponse(success).testCompleted
    ensures NewSubmitAnswerResponse(success).nextQuestion == None
  {
  }
}
