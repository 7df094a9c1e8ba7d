/**
 * The language hub: a tutor chat, a pronunciation helper and a mini-quiz,
 * with points and badges. Each asynchronous handler is split into a start
 * step (everything before the awaited call) and a complete step (everything
 * after it), which receives the remote call's outcome. Steps are atomic and
 * run one after another; the badge effect runs right after every points
 * change.
 */
module LanguageHub {
  import opened Outcomes
  import opened Types
  import opened JsString
  import opened Badges
  import opened GeminiService
  import Audio

  const Greeting := ChatMessage(Model, "Hello! I'm your AI language tutor. How can I help you practice today?")

  /** Points per sent message, per pronunciation request and per correct quiz answer. */
  const SendAward := 5
  const PronounceAward := 10
  const CorrectAnswerAward := 25

  /** How many of the latest transcript entries the quiz is generated from. */
  const ContextWindow := 5

  // ---- Quiz context ----

  function Texts(messages: seq<ChatMessage>): (r: seq<string>)
    ensures |r| == |messages|
    ensures forall i | 0 <= i < |messages| :: r[i] == messages[i].text
  {
    seq(|messages|, i requires 0 <= i < |messages| => messages[i].text)
  }

  /** Joins strings with one space between neighbours (none before the first or after the last). */
  function JoinWithSpace(parts: seq<string>): (r: string)
    ensures parts == [] ==> r == ""
    ensures |parts| == 1 ==> r == parts[0]
    ensures parts != [] ==> parts[0] <= r
  {
    if |parts| == 0 then ""
    else if |parts| == 1 then parts[0]
    else parts[0] + " " + JoinWithSpace(parts[1..])
  }

  /** The join ends with the last part. */
  lemma {:induction false} JoinEndsWithLast(parts: seq<string>)
    requires parts != []
    ensures var r, last := JoinWithSpace(parts), parts[|parts| - 1]; |last| <= |r| && r[|r| - |last|..] == last
  {
    if |parts| > 1 {
      JoinEndsWithLast(parts[1..]);
      assert parts[1..][|parts[1..]| - 1] == parts[|parts| - 1];
    }
  }

  /** Appending a part appends one space and that part. */
  lemma {:induction false} JoinWithSpaceAppend(parts: seq<string>, last: string)
    requires parts != []
    ensures JoinWithSpace(parts + [last]) == JoinWithSpace(parts) + " " + last
  {
    var longer := parts + [last];
    assert longer[1..] == parts[1..] + [last];
    if |parts| > 1 {
      JoinWithSpaceAppend(parts[1..], last);
      calc {
        JoinWithSpace(longer);
        longer[0] + " " + JoinWithSpace(longer[1..]);
        parts[0] + " " + (JoinWithSpace(parts[1..]) + " " + last);
      }
    } else {
      assert longer[1..] == [last];
    }
  }

  /** The last `ContextWindow` entries (all of them when there are fewer), as slicing from -5 gives. */
  function Window(history: seq<ChatMessage>): (r: seq<ChatMessage>)
    ensures |r| == if |history| < ContextWindow then |history| else ContextWindow
    ensures r == history[|history| - |r|..]
  {
    history[if |history| > ContextWindow then |history| - ContextWindow else 0..]
  }

  /** The quiz context: the texts of the latest entries joined with single spaces. */
  function QuizContext(history: seq<ChatMessage>): (r: string)
    ensures history == [] ==> r == ""
    ensures |history| == 1 ==> r == history[0].text
    ensures history != [] ==> Window(history)[0].text <= r
  {
    var parts := Texts(Window(history));
    assert |history| == 1 ==> parts == [history[0].text];
    JoinWithSpace(parts)
  }

  /** The quiz context always ends with the text of the latest transcript entry. */
  lemma QuizContextEndsWithLatest(history: seq<ChatMessage>)
    requires history != []
    ensures var r, latest := QuizContext(history), history[|history| - 1].text;
      |latest| <= |r| && r[|r| - |latest|..] == latest
  {
    var w := Window(history);
    var parts := Texts(w);
    assert w[|w| - 1] == history[|history| - 1];
    assert parts[|parts| - 1] == history[|history| - 1].text;
    JoinEndsWithLast(parts);
    assert QuizContext(history) == JoinWithSpace(parts);
  }

  /** Only the latest `ContextWindow` entries matter: older ones never reach the context. */
  lemma QuizContextIgnoresOlder(older: seq<ChatMessage>, recent: seq<ChatMessage>)
    requires |recent| >= ContextWindow
    ensures QuizContext(older + recent) == QuizContext(recent)
  {
    assert Window(older + recent) == Window(recent);
  }

  /** While the transcript is shorter than the window, each new entry extends the context by a space and its text. */
  lemma QuizContextGrows(history: seq<ChatMessage>, m: ChatMessage)
    requires 0 < |history| < ContextWindow
    ensures QuizContext(history + [m]) == QuizContext(history) + " " + m.text
  {
    assert Window(history + [m]) == history + [m];
    assert Texts(history + [m]) == Texts(history) + [m.text];
    JoinWithSpaceAppend(Texts(history), m.text);
  }

  // ---- Option highlighting ----

  /** How a quiz option is drawn. */
  datatype OptionStyle = Neutral | SelectedCorrect | SelectedWrong | RevealedCorrect

  /**
   * The highlight rule: before an answer is selected every option is
   * neutral; afterwards the selected option shows whether it was right, an
   * unselected correct option is revealed, and every other option is neutral.
   */
  function StyleOf(option: string, correctAnswer: string, selected: Option<string>): (s: OptionStyle)
    ensures s == SelectedCorrect <==> selected == Some(option) && option == correctAnswer
    ensures s == SelectedWrong <==> selected == Some(option) && option != correctAnswer
    ensures s == RevealedCorrect <==> selected.Some? && selected != Some(option) && option == correctAnswer
    ensures s == Neutral <==> selected.None? || (selected != Some(option) && option != correctAnswer)
  {
    var isCorrect := option == correctAnswer;
    var isSelected := selected.Some? && option == selected.value;
    if isSelected then (if isCorrect then SelectedCorrect else SelectedWrong)
    else if selected.Some? && isCorrect then RevealedCorrect
    else Neutral
  }

  /** The style of every option of the quiz, in option order. */
  function QuizStyles(quiz: QuizQuestion, selected: Option<string>): (r: seq<OptionStyle>)
    ensures |r| == |quiz.options|
    ensures forall i | 0 <= i < |r| :: r[i] == StyleOf(quiz.options[i], quiz.correctAnswer, selected)
  {
    seq(|quiz.options|, i requires 0 <= i < |quiz.options| => StyleOf(quiz.options[i], quiz.correctAnswer, selected))
  }

  /**
   * Once an answer is selected, exactly the selected option and the options
   * equal to the correct answer stand out: each correct option is green,
   * solid when it was the one chosen and faded otherwise, and a chosen wrong
   * option is red.
   */
  lemma AnsweredQuizHighlights(quiz: QuizQuestion, answer: string)
    ensures var styles := QuizStyles(quiz, Some(answer));
      && (forall i | 0 <= i < |styles| ::
            styles[i] != Neutral <==> quiz.options[i] == answer || quiz.options[i] == quiz.correctAnswer)
      && (forall i | 0 <= i < |styles| && quiz.options[i] == quiz.correctAnswer ::
            styles[i] == (if answer == quiz.correctAnswer then SelectedCorrect else RevealedCorrect))
      && (forall i | 0 <= i < |styles| && quiz.options[i] == answer && answer != quiz.correctAnswer ::
            styles[i] == SelectedWrong)
  {
  }

  /** Before an answer is selected, every option is neutral. */
  lemma UnansweredQuizIsNeutral(quiz: QuizQuestion)
    ensures forall i | 0 <= i < |quiz.options| :: QuizStyles(quiz, None)[i] == Neutral
  {
  }

  // ---- The view's state ----

  class LanguageHubView {
    /** The badge catalogue the view unlocks from (`AllBadges`). */
    const catalogue: seq<Badge>
    var chatHistory: seq<ChatMessage>
    var userInput: string
    var isReplying: bool
    var error: Option<string>
    var quiz: Option<QuizQuestion>
    var selectedAnswer: Option<string>
    var isQuizLoading: bool
    var pronunciationText: string
    var isAudioLoading: bool
    var points: nat
    var earnedBadges: seq<Badge>
    /** How many correct-answer awards the current quiz has paid. */
    ghost var quizAwards: nat

    /**
     * The earned list is exactly what the points have unlocked, in threshold
     * order; the points are a sum of awards; the transcript is never empty; a shown
     * quiz has four options; and the current quiz has paid at most one award,
     * none before an answer is selected.
     */
    ghost predicate Valid()
      reads this
    {
      && WellFormed(catalogue)
      && earnedBadges == Unlocked(catalogue, points)
      && points % 5 == 0
      && |chatHistory| >= 1
      && (quiz.Some? ==> |quiz.value.options| == 4)
      && quizAwards <= 1
      && (selectedAnswer.None? ==> quizAwards == 0)
    }

    constructor ()
      ensures Valid()
      ensures chatHistory == [Greeting] && userInput == "" && !isReplying && error.None?
      ensures quiz.None? && selectedAnswer.None? && !isQuizLoading
      ensures pronunciationText == "" && !isAudioLoading
      ensures points == 0 && earnedBadges == [] && catalogue == AllBadges
    {
      catalogue := AllBadges;
      chatHistory := [Greeting];
      userInput := "";
      isReplying := false;
      error := None;
      quiz := None;
      selectedAnswer := None;
      isQuizLoading := false;
      pronunciationText := "";
      isAudioLoading := false;
      points := 0;
      earnedBadges := [];
      quizAwards := 0;
      AllBadgesWellFormed();
      AllBadgesUnlocked(0);
    }

    /** The badge effect: appends the newly reached badges, if any, and sorts by threshold. */
    method UnlockBadges()
      modifies this`earnedBadges
      ensures earnedBadges == BadgeEffect(catalogue, points, old(earnedBadges))
    {
      var newly := NewlyEarned(catalogue, points, earnedBadges);
      if |newly| > 0 {
        earnedBadges := SortByThreshold(earnedBadges + newly);
      }
    }

    /**
     * Adds an award to the points, then runs the badge effect: the badges
     * catch up with the new total, and the earned list only grows at its end.
     */
    method Award(amount: nat)
      requires Valid() && amount % 5 == 0
      modifies this`points, this`earnedBadges
      ensures Valid()
      ensures points == old(points) + amount
      ensures old(earnedBadges) <= earnedBadges
    {
      ghost var before := points;
      points := points + amount;
      UnlockBadges();
      EffectCatchesUp(catalogue, before, points);
    }

    /** Typing into the chat input. */
    method EditUserInput(value: string)
      requires Valid()
      modifies this`userInput
      ensures Valid()
      ensures userInput == value
    {
      userInput := value;
    }

    /** Typing into the pronunciation input. */
    method EditPronunciationText(value: string)
      requires Valid()
      modifies this`pronunciationText
      ensures Valid()
      ensures pronunciationText == value
    {
      pronunciationText := value;
    }

    /**
     * Sending a chat message, up to the request. Blank input changes nothing
     * and sends nothing. Otherwise: +5 points, the user's message is appended,
     * the input and the error are cleared, and the request returned carries
     * the transcript as it was followed by the message, so read back it is
     * exactly the new transcript (the message appears in it once).
     */
    method SendStart() returns (request: Option<seq<Content>>)
      requires Valid()
      modifies this`points, this`earnedBadges, this`chatHistory, this`userInput, this`isReplying, this`error
      ensures Valid()
      ensures request.Some? <==> !IsBlank(old(userInput))
      ensures request.None? ==> unchanged(this)
      ensures request.Some? ==>
        && points == old(points) + SendAward
        && old(earnedBadges) <= earnedBadges
        && chatHistory == old(chatHistory) + [ChatMessage(User, old(userInput))]
        && userInput == "" && isReplying && error.None?
        && Transcript(request.value) == Some(chatHistory)
    {
      if Trim(userInput) == "" {
        return None;
      }
      var contents := PostUserMessage();
      request := Some(contents);
    }

    /** The non-blank part of sending: award, append, clear, and build the request. */
    method PostUserMessage() returns (request: seq<Content>)
      requires Valid()
      modifies this`points, this`earnedBadges, this`chatHistory, this`userInput, this`isReplying, this`error
      ensures Valid()
      ensures points == old(points) + SendAward
      ensures old(earnedBadges) <= earnedBadges
      ensures chatHistory == old(chatHistory) + [ChatMessage(User, old(userInput))]
      ensures userInput == "" && isReplying && error.None?
      ensures Transcript(request) == Some(chatHistory)
    {
      Award(SendAward);
      var message := userInput;
      request := BuildChatContents(chatHistory, message);
      chatHistory := chatHistory + [ChatMessage(User, message)];
      userInput := "";
      isReplying := true;
      error := None;
    }

    /**
     * The tutor's reply arrives: on success exactly one model entry carrying
     * the reply is appended; on failure the user's message stays and the
     * error is the tutor's fixed message. Either way replying ends.
     */
    method SendComplete(reply: Outcome<string>)
      requires Valid()
      modifies this`chatHistory, this`error, this`isReplying
      ensures Valid()
      ensures !isReplying
      ensures reply.Success? ==> chatHistory == old(chatHistory) + [ChatMessage(Model, reply.value)] && error == old(error)
      ensures reply.Failure? ==> chatHistory == old(chatHistory) && error == Some(TutorError)
    {
      var response := GetTutorResponse(reply);
      match response {
        case Success(text) =>
          chatHistory := chatHistory + [ChatMessage(Model, text)];
        case Failure(message) =>
          error := Some(message);
      }
      isReplying := false;
    }

    /**
     * Generating a quiz, up to the request: the quiz and the selected answer
     * are cleared before the call, and the context returned is built from the
     * latest transcript entries.
     */
    method QuizStart() returns (context: string)
      requires Valid()
      modifies this`isQuizLoading, this`error, this`quiz, this`selectedAnswer, this`quizAwards
      ensures Valid()
      ensures isQuizLoading && error.None? && quiz.None? && selectedAnswer.None?
      ensures context == QuizContext(chatHistory)
    {
      isQuizLoading := true;
      error := None;
      quiz := None;
      selectedAnswer := None;
      quizAwards := 0;
      assert Valid();
      context := QuizContext(chatHistory);
    }

    /**
     * The quiz arrives: it is shown only when the call succeeded with exactly
     * four options; otherwise the error is the quiz's fixed message.
     */
    method QuizComplete(reply: Outcome<QuizQuestion>)
      requires Valid()
      modifies this`quiz, this`error, this`isQuizLoading
      ensures Valid()
      ensures !isQuizLoading
      ensures reply.Success? && |reply.value.options| == 4 ==> quiz == Some(reply.value) && error == old(error)
      ensures !(reply.Success? && |reply.value.options| == 4) ==> quiz == old(quiz) && error == Some(QuizError)
    {
      var generated := GenerateQuiz(reply);
      match generated {
        case Success(q) =>
          quiz := Some(q);
        case Failure(message) =>
          error := Some(message);
      }
      isQuizLoading := false;
    }

    /**
     * Requesting a pronunciation, up to the request. Blank text changes
     * nothing. Otherwise +10 points are awarded before the call (kept even if
     * it fails) and the text to pronounce is returned.
     */
    method PronounceStart() returns (text: Option<string>)
      requires Valid()
      modifies this`points, this`earnedBadges, this`isAudioLoading, this`error
      ensures Valid()
      ensures text.Some? <==> !IsBlank(pronunciationText)
      ensures text.None? ==> unchanged(this)
      ensures text.Some? ==>
        && text.value == pronunciationText
        && points == old(points) + PronounceAward
        && old(earnedBadges) <= earnedBadges
        && isAudioLoading && error.None?
    {
      if Trim(pronunciationText) == "" {
        return None;
      }
      Award(PronounceAward);
      isAudioLoading := true;
      error := None;
      text := Some(pronunciationText);
    }

    /**
     * The audio reply arrives. `decodeBase64` stands for the platform's base64
     * decoder (which may throw). A failed or empty reply sets the
     * pronunciation's fixed message; a decoding error or a failed playback
     * sets that error's message; a played payload leaves the error as it was.
     */
    method PronounceComplete(reply: Outcome<Option<string>>, decodeBase64: string -> Outcome<string>)
      requires Valid()
      modifies this`error, this`isAudioLoading
      ensures Valid()
      ensures !isAudioLoading
      ensures var fetched := GetPronunciation(reply);
        && (fetched.Failure? ==> error == Some(PronunciationError))
        && (fetched.Success? && decodeBase64(fetched.value).Failure? ==> error == Some(decodeBase64(fetched.value).msg))
        && (fetched.Success? && decodeBase64(fetched.value).Success? ==>
              var binary := decodeBase64(fetched.value).value;
              error == if |binary| % 2 != 0 then Some(Audio.OddLengthError)
                       else if |binary| == 0 then Some(Audio.EmptyBufferError)
                       else old(error))
    {
      var fetched := GetPronunciation(reply);
      if fetched.Failure? {
        error := Some(fetched.msg);
      } else {
        var decoded := decodeBase64(fetched.value);
        if decoded.Failure? {
          error := Some(decoded.msg);
        } else {
          var played := Audio.PlayAudio(decoded.value);
          if played.Failure? {
            error := Some(played.msg);
          }
        }
      }
      isAudioLoading := false;
    }

    /** Options can be clicked only while no answer is selected. */
    predicate OptionsEnabled(): (r: bool)
      reads this
      ensures r && quiz.Some? ==> forall i | 0 <= i < |quiz.value.options| :: QuizStyles(quiz.value, selectedAnswer)[i] == Neutral
    {
      selectedAnswer.None?
    }

    /**
     * Clicking an option: it becomes the selected answer, and +25 points are
     * awarded exactly when a quiz is shown and the option is its correct
     * answer. Options are disabled from then on, so a quiz pays at most once.
     */
    method AnswerQuestion(option: string)
      requires Valid() && OptionsEnabled()
      modifies this`selectedAnswer, this`points, this`earnedBadges, this`quizAwards
      ensures Valid() && !OptionsEnabled()
      ensures selectedAnswer == Some(option)
      ensures var correct := quiz.Some? && option == quiz.value.correctAnswer;
        && points == old(points) + (if correct then CorrectAnswerAward else 0)
        && quizAwards == old(quizAwards) + (if correct then 1 else 0)
      ensures old(earnedBadges) <= earnedBadges
    {
      selectedAnswer := Some(option);
      if quiz.Some? && option == quiz.value.correctAnswer {
        Award(CorrectAnswerAward);
        quizAwards := quizAwards + 1;
      }
    }
  }

  /** Sending a first message earns 5 points and with them the first badge. */
  method FirstMessageScenario()
  {
    var hub := new LanguageHubView();
    hub.EditUserInput("Hola");
    assert !IsTrimmable("Hola"[0]);
    var request := hub.SendStart();
    assert hub.points == 5;
    AllBadgesUnlocked(5);
    assert hub.earnedBadges == [Badge("First Steps", 5)];
  }

  /** One conversation turn appends the learner's message and then the tutor's reply. */
  method ConversationScenario()
  {
    var hub := new LanguageHubView();
    hub.EditUserInput("Hola");
    assert !IsTrimmable("Hola"[0]);
    var request := hub.SendStart();
    hub.SendComplete(Success("Bien"));
    assert hub.chatHistory[1..] == [ChatMessage(User, "Hola"), ChatMessage(Model, "Bien")];
  }

  /** A quiz answered wrongly pays nothing and locks the options. */
  method WrongAnswerScenario()
  {
    var hub := new LanguageHubView();
    var context := hub.QuizStart();
    hub.QuizComplete(Success(QuizQuestion("Capital of France?", ["Paris", "Rome", "Bern", "Oslo"], "Paris")));
    hub.AnswerQuestion("Bern");
    assert hub.points == 0 && !hub.OptionsEnabled();
  }

  /** A quiz answered rightly pays 25 points. */
  method RightAnswerScenario()
  {
    var hub := new LanguageHubView();
    var context := hub.QuizStart();
    hub.QuizComplete(Success(QuizQuestion("Capital of France?", ["Paris", "Rome", "Bern", "Oslo"], "Paris")));
    hub.AnswerQuestion("Paris");
    assert hub.points == 25 && !hub.OptionsEnabled();
  }
}
