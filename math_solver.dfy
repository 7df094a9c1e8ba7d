/**
 * The math solver view: one request at a time through idle, loading, then
 * success or error, with Ctrl+Enter or Meta+Enter as the keyboard trigger.
 */
module MathSolver {
  import opened Outcomes
  import opened JsString
  import opened GeminiService

  /** Shown, without any call, when the problem is blank. */
  const ProblemRequired := "Please enter a math problem or concept."

  class MathSolverView {
    var problem: string
    var solution: string
    var isLoading: bool
    var error: Option<string>

    constructor ()
      ensures problem == "" && solution == "" && !isLoading && error.None?
    {
      problem := "";
      solution := "";
      isLoading := false;
      error := None;
    }

    /** Typing into the problem text area. */
    method EditProblem(value: string)
      modifies this`problem
      ensures problem == value
    {
      problem := value;
    }

    /**
     * Solving, up to the request. A blank problem only sets the error to
     * `ProblemRequired`: no request, and solution and loading flag stay.
     * Otherwise loading starts, the error and the previous solution are
     * cleared, and the problem is returned as the request.
     */
    method SolveStart() returns (request: Option<string>)
      modifies this`isLoading, this`error, this`solution
      ensures request.Some? <==> !IsBlank(problem)
      ensures request.None? ==> error == Some(ProblemRequired) && solution == old(solution) && isLoading == old(isLoading)
      ensures request.Some? ==> request.value == problem && isLoading && error.None? && solution == ""
    {
      if |Trim(problem)| == 0 {
        error := Some(ProblemRequired);
        return None;
      }
      isLoading := true;
      error := None;
      solution := "";
      request := Some(problem);
    }

    /**
     * The solution arrives: on success it is the returned text; on failure
     * the error is the rethrown message, or `UnknownError` were it empty (the
     * service's message never is, so it is the math solver's fixed message).
     * Loading ends either way.
     */
    method SolveComplete(reply: Outcome<string>)
      modifies this`isLoading, this`error, this`solution
      ensures !isLoading
      ensures reply.Success? ==> solution == reply.value && error == old(error)
      ensures reply.Failure? ==> solution == old(solution) && error == Some(ErrorText(SolveMathProblem(reply).msg))
      ensures reply.Failure? ==> error == Some(MathError)
    {
      var result := SolveMathProblem(reply);
      match result {
        case Success(text) =>
          solution := text;
        case Failure(message) =>
          error := Some(ErrorText(message));
      }
      isLoading := false;
    }

    /** Enter starts solving only while Ctrl or Meta is held; plain Enter does nothing here. */
    method HandleKeyDown(key: string, ctrlKey: bool, metaKey: bool) returns (request: Option<string>)
      modifies this`isLoading, this`error, this`solution
      ensures !(key == "Enter" && (metaKey || ctrlKey)) ==> request.None? && unchanged(this)
      ensures key == "Enter" && (metaKey || ctrlKey) ==> (request.Some? <==> !IsBlank(problem))
      ensures key == "Enter" && (metaKey || ctrlKey) && request.None? ==>
        error == Some(ProblemRequired) && solution == old(solution) && isLoading == old(isLoading)
      ensures key == "Enter" && (metaKey || ctrlKey) && request.Some? ==>
        request.value == problem && isLoading && error.None? && solution == ""
    {
      if key == "Enter" && (metaKey || ctrlKey) {
        request := SolveStart();
      } else {
        request := None;
      }
    }
  }
}
