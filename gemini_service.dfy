/**
 * The request gateway: how each exported request function shapes its request
 * and which replies it lets through. The remote generative call itself is not
 * modelled; its result arrives as an `Outcome` (a thrown transport or parse
 * error is a `Failure` with whatever message it had).
 */
module GeminiService {
  import opened Outcomes
  import opened Types

  /** The one message each operation rethrows, whatever went wrong inside it. */
  const FlashcardsError := "Failed to generate flashcards. Please check the topic and try again."
  const TutorError := "I'm sorry, I couldn't process that. Let's try something else."
  const QuizError := "Failed to generate a quiz. Please try again."
  const PronunciationError := "Could not generate audio for the provided text."
  const MathError := "Failed to solve the math problem. The problem might be too complex or malformed."

  /** Messages of the service's own contract checks, thrown inside the try block. */
  const OptionCountError := "Generated quiz does not have 4 options."
  const MissingAudioError := "No audio data received from API."

  /**
   * A try block whose catch rethrows a fresh Error with `message`: the value
   * passes through, and every failure, whatever its message, becomes `message`.
   */
  function Rethrow<T>(attempt: Outcome<T>, message: string): (r: Outcome<T>)
    ensures r.Success? <==> attempt.Success?
    ensures r.Success? ==> r == attempt
    ensures r.Failure? ==> r.msg == message
  {
    match attempt
    case Success(_) => attempt
    case Failure(_) => Failure(message)
  }

  // ---- Tutor chat ----

  datatype Part = Part(text: string)

  /** One entry of the chat request's contents. */
  datatype Content = Content(role: Role, parts: seq<Part>)

  /** A transcript entry as the request carries it: same role, its text as the single part. */
  function ContentOf(m: ChatMessage): (r: Content)
    ensures MessageOf(r) == Some(m)
  {
    Content(m.role, [Part(m.text)])
  }

  /** Reads a content entry back as a transcript entry; ContentOf's inverse. */
  function MessageOf(c: Content): (r: Option<ChatMessage>)
    ensures r.Some? <==> |c.parts| == 1
  {
    if |c.parts| == 1 then Some(ChatMessage(c.role, c.parts[0].text)) else None
  }

  /** An entry reads back as message m exactly when it is m's entry. */
  lemma MessageOfInvertsContentOf(c: Content)
    ensures forall m :: ContentOf(m) == c <==> MessageOf(c) == Some(m)
  {
  }

  /** Reads a whole request back as a transcript; defined only when every entry is a message. */
  function Transcript(contents: seq<Content>): Option<seq<ChatMessage>>
  {
    if contents == [] then Some([])
    else
      match (MessageOf(contents[0]), Transcript(contents[1..]))
      case (Some(m), Some(ms)) => Some([m] + ms)
      case _ => None
  }

  /** Contents built entry by entry from messages read back as those messages. */
  lemma {:induction false} TranscriptOfContents(contents: seq<Content>, messages: seq<ChatMessage>)
    requires |contents| == |messages|
    requires forall i | 0 <= i < |contents| :: contents[i] == ContentOf(messages[i])
    ensures Transcript(contents) == Some(messages)
  {
    if contents != [] {
      TranscriptOfContents(contents[1..], messages[1..]);
      assert MessageOf(contents[0]) == Some(messages[0]);
      assert messages == [messages[0]] + messages[1..];
    }
  }

  /**
   * The chat request: the history mapped entry by entry, then one user entry
   * carrying the new message. Read back, it is the history plus that message.
   */
  method BuildChatContents(history: seq<ChatMessage>, newMessage: string) returns (contents: seq<Content>)
    ensures |contents| == |history| + 1
    ensures forall i | 0 <= i < |history| :: contents[i] == ContentOf(history[i])
    ensures contents[|history|] == Content(User, [Part(newMessage)])
    ensures Transcript(contents) == Some(history + [ChatMessage(User, newMessage)])
  {
    contents := [];
    var i := 0;
    while i < |history|
      invariant 0 <= i <= |history|
      invariant |contents| == i
      invariant forall k | 0 <= k < i :: contents[k] == ContentOf(history[k])
    {
      contents := contents + [ContentOf(history[i])];
      i := i + 1;
    }
    contents := contents + [Content(User, [Part(newMessage)])];
    TranscriptOfContents(contents, history + [ChatMessage(User, newMessage)]);
  }

  /** The tutor's reply text, or the tutor's fixed message. */
  function GetTutorResponse(reply: Outcome<string>): (r: Outcome<string>)
    ensures r.Success? <==> reply.Success?
    ensures r.Success? ==> r.value == reply.value
    ensures r.Failure? ==> r.msg == TutorError
  {
    Rethrow(reply, TutorError)
  }

  // ---- Flashcards ----

  /** The parsed card list, or the flashcards' fixed message. */
  function GenerateFlashcards(reply: Outcome<seq<Flashcard>>): (r: Outcome<seq<Flashcard>>)
    ensures r.Success? <==> reply.Success?
    ensures r.Success? ==> r.value == reply.value
    ensures r.Failure? ==> r.msg == FlashcardsError
  {
    Rethrow(reply, FlashcardsError)
  }

  // ---- Quiz ----

  /** The option-count contract check made inside the quiz's try block. */
  function CheckOptionCount(quiz: QuizQuestion): (r: Outcome<QuizQuestion>)
    ensures r.Success? <==> |quiz.options| == 4
  {
    if |quiz.options| != 4 then Failure(OptionCountError) else Success(quiz)
  }

  /**
   * A parsed quiz is returned only when it has exactly four options; any
   * failure, including that check's own, surfaces as the quiz's fixed message.
   */
  function GenerateQuiz(reply: Outcome<QuizQuestion>): (r: Outcome<QuizQuestion>)
    ensures r.Success? <==> reply.Success? && |reply.value.options| == 4
    ensures r.Success? ==> r.value == reply.value && |r.value.options| == 4
    ensures r.Failure? ==> r.msg == QuizError
  {
    var checked := match reply
      case Success(quiz) => CheckOptionCount(quiz)
      case Failure(m) => Failure(m);
    Rethrow(checked, QuizError)
  }

  // ---- Pronunciation ----

  /** The payload check: a missing or empty audio payload is an error. */
  function CheckPayload(payload: Option<string>): (r: Outcome<string>)
    ensures r.Success? <==> payload.Some? && payload.value != ""
  {
    match payload
    case Some(data) => if data == "" then Failure(MissingAudioError) else Success(data)
    case None => Failure(MissingAudioError)
  }

  /**
   * The base64 audio payload, if the reply carries a non-empty one; otherwise,
   * and on any transport failure, the pronunciation's fixed message.
   */
  function GetPronunciation(reply: Outcome<Option<string>>): (r: Outcome<string>)
    ensures r.Success? <==> reply.Success? && reply.value.Some? && reply.value.value != ""
    ensures r.Success? ==> r.value == reply.value.value && r.value != ""
    ensures r.Failure? ==> r.msg == PronunciationError
  {
    var checked := match reply
      case Success(payload) => CheckPayload(payload)
      case Failure(m) => Failure(m);
    Rethrow(checked, PronunciationError)
  }

  // ---- Math ----

  /** The solution text, or the math solver's fixed message. */
  function SolveMathProblem(reply: Outcome<string>): (r: Outcome<string>)
    ensures r.Success? <==> reply.Success?
    ensures r.Success? ==> r.value == reply.value
    ensures r.Failure? ==> r.msg == MathError
  {
    Rethrow(reply, MathError)
  }

  /**
   * No internal message reaches a caller: the contract checks' messages and
   * the remote call's own messages are all replaced by the fixed ones, which
   * are never empty.
   */
  lemma InternalMessagesNeverEscape(
    flashcards: Outcome<seq<Flashcard>>, tutor: Outcome<string>, quiz: Outcome<QuizQuestion>,
    audio: Outcome<Option<string>>, math: Outcome<string>)
    ensures GenerateQuiz(quiz) != Failure(OptionCountError)
    ensures GetPronunciation(audio) != Failure(MissingAudioError)
    ensures GenerateFlashcards(flashcards).Failure? ==> GenerateFlashcards(flashcards).msg == FlashcardsError != ""
    ensures GetTutorResponse(tutor).Failure? ==> GetTutorResponse(tutor).msg == TutorError != ""
    ensures GenerateQuiz(quiz).Failure? ==> GenerateQuiz(quiz).msg == QuizError != ""
    ensures GetPronunciation(audio).Failure? ==> GetPronunciation(audio).msg == PronunciationError != ""
    ensures SolveMathProblem(math).Failure? ==> SolveMathProblem(math).msg == MathError != ""
  {
  }
}
