/**
 * `QuestionAnswerSerializer` (backend/clubs/serializers.py): who may edit a
 * question, its anonymity and its answer, and what an update records.
 */
module QuestionAnswers {
  import opened Wrappers
  import opened Roles

  /** A stored question; `answer` is None until a club officer responds. */
  datatype Question = Question(question: string, author: Option<nat>, isAnonymous: bool,
                               answer: Option<string>, responder: Option<nat>, approved: bool)

  datatype QAError = NotAuthorsQuestion | AlreadyAnswered | NotAuthorsAnonymity | Unanswer | NotAnOfficer

  /** `user == instance.author`: an anonymous user is never the author. */
  predicate IsAuthor(user: User, q: Question) {
    user.authenticated && q.author == Some(user.id)
  }

  /** `instance.answer` is truthy. */
  predicate Answered(q: Question) {
    q.answer.Some? && q.answer.value != ""
  }

  /** `validate_question(value)`: only the author may change the text, and only before an answer. */
  function ValidateQuestion(instance: Option<Question>, user: User, value: string): (r: Result<string, QAError>)
    ensures r.Ok? ==> r.value == value
    ensures r.Ok? <==> instance.None? || value == instance.value.question ||
                       (IsAuthor(user, instance.value) && !Answered(instance.value))
  {
    if instance.None? then Ok(value)
    else if value != instance.value.question then
      if !IsAuthor(user, instance.value) then Err(NotAuthorsQuestion)
      else if Answered(instance.value) then Err(AlreadyAnswered)
      else Ok(value)
    else Ok(value)
  }

  /** `validate_is_anonymous(value)`: only the author may change a post's anonymity. */
  function ValidateIsAnonymous(instance: Option<Question>, user: User, value: bool): (r: Result<bool, QAError>)
    ensures r.Ok? ==> r.value == value
    ensures r.Ok? <==> instance.None? || value == instance.value.isAnonymous || IsAuthor(user, instance.value)
  {
    if instance.None? then Ok(value)
    else if value != instance.value.isAnonymous && !IsAuthor(user, instance.value) then Err(NotAuthorsAnonymity)
    else Ok(value)
  }

  /**
   * `validate_answer(value)`: an answer is never withdrawn, and only a superuser or an
   * officer of the club (`membership` is the caller's row there) may give one.
   */
  function ValidateAnswer(instance: Option<Question>, user: User, membership: Option<Membership>,
                          value: Option<string>): (r: Result<Option<string>, QAError>)
    ensures r.Ok? ==> r.value == value
    ensures value.None? ==> (r.Ok? <==> instance.None? || instance.value.answer.None?)
    ensures value.Some? ==> (r.Ok? <==> user.superuser || (membership.Some? && IsAtLeast(membership.value.role, ROLE_OFFICER)))
  {
    if value.None? then
      if instance.Some? && instance.value.answer.Some? then Err(Unanswer) else Ok(value)
    else if user.superuser then Ok(value)
    else if membership.Some? && membership.value.role <= ROLE_OFFICER then Ok(value)
    else Err(NotAnOfficer)
  }

  /** The validated fields of an update; a field is None when it was not submitted. */
  datatype QuestionEdit = QuestionEdit(question: Option<string>, answer: Option<Option<string>>,
                                       isAnonymous: Option<bool>, approved: Option<bool>)

  /** `update(instance, validated_data)` followed by the model update it delegates to. */
  function Update(instance: Question, edit: QuestionEdit, user: User): (q: Question)
    ensures q.question == edit.question.GetOr(instance.question)
    ensures q.answer == edit.answer.GetOr(instance.answer)
    ensures q.isAnonymous == edit.isAnonymous.GetOr(instance.isAnonymous)
  {
    var questionChanged := edit.question.Some? && edit.question.value != instance.question;
    var answerChanged := edit.answer.Some? && edit.answer.value != instance.answer;
    Question(
      question := edit.question.GetOr(instance.question),
      author := if questionChanged then Some(user.id) else instance.author,
      isAnonymous := edit.isAnonymous.GetOr(instance.isAnonymous),
      answer := edit.answer.GetOr(instance.answer),
      responder := if answerChanged then Some(user.id) else instance.responder,
      approved := if answerChanged && edit.approved.None? then true else edit.approved.GetOr(instance.approved))
  }

  /**
   * A changed question takes the editor as author, a changed answer takes the
   * editor as responder and is approved unless the edit says otherwise; an edit
   * that changes neither keeps author and responder.
   */
  lemma UpdateRecordsEditors(instance: Question, edit: QuestionEdit, user: User)
    ensures var q := Update(instance, edit, user);
      (q.question != instance.question ==> q.author == Some(user.id)) &&
      (q.question == instance.question ==> q.author == instance.author) &&
      (q.answer != instance.answer ==> q.responder == Some(user.id) && q.approved == edit.approved.GetOr(true)) &&
      (q.answer == instance.answer ==> q.responder == instance.responder && q.approved == edit.approved.GetOr(instance.approved))
  {
  }

  /**
   * Once answered, a question's text is fixed and its answer cannot be withdrawn
   * by any update whose fields the validators accepted.
   */
  lemma AnsweredQuestionIsFrozen(instance: Question, edit: QuestionEdit, user: User, membership: Option<Membership>)
    requires Answered(instance)
    requires edit.question.Some? ==> ValidateQuestion(Some(instance), user, edit.question.value).Ok?
    requires edit.answer.Some? ==> ValidateAnswer(Some(instance), user, membership, edit.answer.value).Ok?
    ensures Update(instance, edit, user).question == instance.question
    ensures Update(instance, edit, user).answer.Some?
  {
  }
}
