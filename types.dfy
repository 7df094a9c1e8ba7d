/** The record shapes the views and the service exchange. */
module Types {

  /** Who wrote a transcript entry. */
  datatype Role = User | Model

  datatype ChatMessage = ChatMessage(role: Role, text: string)

  datatype Flashcard = Flashcard(question: string, answer: string)

  datatype QuizQuestion = QuizQuestion(question: string, options: seq<string>, correctAnswer: string)

  /** A badge of the catalogue; its description and icon are presentation data and are not kept. */
  datatype Badge = Badge(name: string, threshold: int)
}
