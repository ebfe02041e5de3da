/** Request shapes of the question bank (backend/app/schemas/question.py). */
module QuestionSchemas {
  import opened Wrappers
  import SessionSchemas

  datatype DifficultyLevel = Easy | Medium | Hard

  // ---- BaseQuestionCreate ----

  datatype BaseQuestionCreate = BaseQuestionCreate(
    topic: string, difficulty: DifficultyLevel, description: Option<string>)

  predicate ValidBaseQuestion(r: BaseQuestionCreate) {
    1 <= |r.topic| <= 100 && (r.description.Some? ==> |r.description.value| <= 500)
  }

  function ValidateBaseQuestion(topic: string, difficulty: DifficultyLevel, description: Option<string>)
    : (r: Result<BaseQuestionCreate, seq<string>>)
    ensures r.Ok? <==> 1 <= |topic| <= 100 && (description.Some? ==> |description.value| <= 500)
    ensures r.Ok? ==> ValidBaseQuestion(r.value) && r.value == BaseQuestionCreate(topic, difficulty, description)
  {
    var bad := SessionSchemas.Check("topic", 1 <= |topic| <= 100)
      + SessionSchemas.Check("description", description.Some? ==> |description.value| <= 500);
    if bad == [] then Ok(BaseQuestionCreate(topic, difficulty, description)) else Err(bad)
  }

  // ---- QuestionVariantCreate ----

  datatype QuestionVariantCreate = QuestionVariantCreate(
    questionId: string, questionText: string, options: seq<string>, correctIndex: int)

  /** Text of 10 to 2000 characters, exactly four options, a correct index among them. */
  predicate ValidVariantBody(questionText: string, options: seq<string>, correctIndex: int) {
    10 <= |questionText| <= 2000 && |options| == 4 && 0 <= correctIndex <= 3
  }

  predicate ValidVariant(r: QuestionVariantCreate) {
    ValidVariantBody(r.questionText, r.options, r.correctIndex)
  }

  function ValidateVariant(questionId: string, questionText: string, options: seq<string>, correctIndex: int)
    : (r: Result<QuestionVariantCreate, seq<string>>)
    ensures r.Ok? <==> 10 <= |questionText| <= 2000 && |options| == 4 && 0 <= correctIndex <= 3
    ensures r.Ok? ==> ValidVariant(r.value)
    ensures r.Ok? ==> r.value == QuestionVariantCreate(questionId, questionText, options, correctIndex)
  {
    var bad := SessionSchemas.Check("question_text", 10 <= |questionText| <= 2000)
      + SessionSchemas.Check("options", |options| == 4)
      + SessionSchemas.Check("correct_index", 0 <= correctIndex <= 3);
    if bad == [] then Ok(QuestionVariantCreate(questionId, questionText, options, correctIndex)) else Err(bad)
  }

  /** A stored variant's correct index always names one of its options. */
  lemma CorrectIndexNamesAnOption(r: QuestionVariantCreate)
    requires ValidVariant(r)
    ensures 0 <= r.correctIndex < |r.options|
  {
  }

  // ---- GenerateVariantsRequest ----

  datatype GenerateVariantsRequest = GenerateVariantsRequest(
    questionId: string, baseQuestionText: string, options: seq<string>, correctIndex: int, numVariants: int)

  function ValidateGenerateVariants(questionId: string, baseQuestionText: string, options: seq<string>,
                                    correctIndex: int, numVariants: Option<int>)
    : (r: Result<GenerateVariantsRequest, seq<string>>)
    ensures r.Ok? <==> ValidVariantBody(baseQuestionText, options, correctIndex) && 1 <= numVariants.GetOr(5) <= 10
    ensures r.Ok? ==>
      r.value == GenerateVariantsRequest(questionId, baseQuestionText, options, correctIndex, numVariants.GetOr(5))
  {
    var n := numVariants.GetOr(5);
    var bad := SessionSchemas.Check("base_question_text", 10 <= |baseQuestionText| <= 2000)
      + SessionSchemas.Check("options", |options| == 4)
      + SessionSchemas.Check("correct_index", 0 <= correctIndex <= 3)
      + SessionSchemas.Check("num_variants", 1 <= n <= 10);
    if bad == [] then Ok(GenerateVariantsRequest(questionId, baseQuestionText, options, correctIndex, n))
    else Err(bad)
  }

  // ---- GenerateQuestionsRequest ----

  datatype GenerateQuestionsRequest = GenerateQuestionsRequest(
    topic: string, difficulty: DifficultyLevel, numQuestions: int, description: Option<string>)

  function ValidateGenerateQuestions(topic: string, difficulty: Option<DifficultyLevel>,
                                     numQuestions: Option<int>, description: Option<string>)
    : (r: Result<GenerateQuestionsRequest, seq<string>>)
    ensures r.Ok? <==>
      && 1 <= |topic| <= 100
      && 1 <= numQuestions.GetOr(10) <= 20
      && (description.Some? ==> |description.value| <= 500)
    ensures r.Ok? ==>
      r.value == GenerateQuestionsRequest(topic, difficulty.GetOr(Medium), numQuestions.GetOr(10), description)
  {
    var n := numQuestions.GetOr(10);
    var bad := SessionSchemas.Check("topic", 1 <= |topic| <= 100)
      + SessionSchemas.Check("num_questions", 1 <= n <= 20)
      + SessionSchemas.Check("description", description.Some? ==> |description.value| <= 500);
    if bad == [] then Ok(GenerateQuestionsRequest(topic, difficulty.GetOr(Medium), n, description))
    else Err(bad)
  }

  // ---- ApproveVariantRequest ----

  datatype ApproveVariantRequest = ApproveVariantRequest(approved: bool)

  function ValidateApproveVariant(approved: Option<bool>): (r: ApproveVariantRequest)
    ensures approved == None ==> r.approved
    ensures approved.Some? ==> r.approved == approved.value
  {
    ApproveVariantRequest(approved.GetOr(true))
  }
}
