/** The quiz result row the admin dashboard works with, after it has been
    joined with the registered user. */
module AdminTypes {
  import opened Wrappers
  import opened Records

  /** A stored answer map (question id to option id). */
  type AnswerMap = Entries<string, string>

  /** Nullable database columns are `Option`s. `userId` is declared as a
      string but copied from a column that may be null, so it is nullable
      here too. Scores and ages are the non-negative integers the quiz and
      the registration form produce. */
  datatype QuizResult = QuizResult(
    id: string,
    userId: Option<string>,
    name: string,
    age: nat,
    email: string,
    phone: string,
    careerType: Option<string>,
    logicalScore: nat,
    personalityAnswers: AnswerMap,
    logicalAnswers: AnswerMap,
    completedAt: Option<string>,
    createdAt: Option<string>)

  /** JavaScript truthiness of a nullable string: present and non-empty. */
  predicate Truthy(s: Option<string>)
  {
    s.Some? && s.value != ""
  }
}
