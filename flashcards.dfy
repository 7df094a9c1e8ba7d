/**
 * The flashcard generator view: one request at a time through
 * idle, loading, then success or error. The remote call's outcome reaches
 * the complete step, which passes it through the service's guard.
 */
module Flashcards {
  import opened Outcomes
  import opened Types
  import opened JsString
  import opened GeminiService

  /** Shown, without any call, when the topic is blank. */
  const TopicRequired := "Please enter a topic."

  class FlashcardsView {
    var topic: string
    var flashcards: seq<Flashcard>
    var isLoading: bool
    var error: Option<string>

    constructor ()
      ensures topic == "" && flashcards == [] && !isLoading && error.None?
    {
      topic := "";
      flashcards := [];
      isLoading := false;
      error := None;
    }

    /** Typing into the topic input. */
    method EditTopic(value: string)
      modifies this`topic
      ensures topic == value
    {
      topic := value;
    }

    /**
     * Generating, up to the request. A blank topic only sets the error to
     * `TopicRequired`: no request, and cards and loading flag stay. Otherwise
     * loading starts, the error is cleared, the previous cards are discarded,
     * and the topic is returned as the request.
     */
    method GenerateStart() returns (request: Option<string>)
      modifies this`isLoading, this`error, this`flashcards
      ensures request.Some? <==> !IsBlank(topic)
      ensures request.None? ==> error == Some(TopicRequired) && flashcards == old(flashcards) && isLoading == old(isLoading)
      ensures request.Some? ==> request.value == topic && isLoading && error.None? && flashcards == []
    {
      if |Trim(topic)| == 0 {
        error := Some(TopicRequired);
        return None;
      }
      isLoading := true;
      error := None;
      flashcards := [];
      request := Some(topic);
    }

    /**
     * The cards arrive: on success they replace the list (never extend it);
     * on failure the error is the rethrown message, or `UnknownError` were it
     * empty (the service's message never is, so it is the flashcards' fixed
     * message). Loading ends either way.
     */
    method GenerateComplete(reply: Outcome<seq<Flashcard>>)
      modifies this`isLoading, this`error, this`flashcards
      ensures !isLoading
      ensures reply.Success? ==> flashcards == reply.value && error == old(error)
      ensures reply.Failure? ==> flashcards == old(flashcards) && error == Some(ErrorText(GenerateFlashcards(reply).msg))
      ensures reply.Failure? ==> error == Some(FlashcardsError)
    {
      var cards := GenerateFlashcards(reply);
      match cards {
        case Success(list) =>
          flashcards := list;
        case Failure(message) =>
          error := Some(ErrorText(message));
      }
      isLoading := false;
    }

    /** Only the Enter key starts a generation from the input. */
    method HandleKeyDown(key: string) returns (request: Option<string>)
      modifies this`isLoading, this`error, this`flashcards
      ensures key != "Enter" ==> request.None? && unchanged(this)
      ensures key == "Enter" ==> (request.Some? <==> !IsBlank(topic))
      ensures key == "Enter" && request.None? ==>
        error == Some(TopicRequired) && flashcards == old(flashcards) && isLoading == old(isLoading)
      ensures key == "Enter" && request.Some? ==>
        request.value == topic && isLoading && error.None? && flashcards == []
    {
      if key == "Enter" {
        request := GenerateStart();
      } else {
        request := None;
      }
    }
  }
}
