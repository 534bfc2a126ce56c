/**
 * The conversation loop of the terminal front end. Each pass reads one line,
 * strips it, and either quits, clears the history back to its system turn,
 * re-prompts on empty input, or runs one exchange with the chat service.
 * The service call is replaced by its outcome, given as a parameter.
 */
module Terminal {
  import opened Wrappers
  import opened Text
  import opened Settings
  import opened Chat

  /** What one pass of the loop reports to the user. */
  datatype Reply = Quit | Cleared | Rejected | Answered(text: Option<string>) | Failed(message: string)

  /** One line typed by the user, with what the service call would do if the line is sent. */
  datatype Step = Step(line: string, outcome: Outcome)

  predicate IsQuit(command: string) {
    Lower(command) == "quit"
  }

  predicate IsClear(command: string) {
    Lower(command) == "clear"
  }

  /** A stripped line that is neither command nor empty is sent to the service. */
  predicate IsQuestion(command: string) {
    !IsQuit(command) && !IsClear(command) && command != ""
  }

  /** The history between two passes: the system turn first, and never an unanswered user turn last. */
  predicate WellFormed(history: seq<Turn>) {
    |history| >= 1 && history[0].role == System && history[|history| - 1].role != User
  }

  /** The `except` clause: the last turn is dropped when it is a user turn. */
  function PopUnanswered(history: seq<Turn>): (r: seq<Turn>)
    ensures |history| - 1 <= |r| <= |history| && r == history[..|r|]
    ensures |r| < |history| <==> history != [] && history[|history| - 1].role == User
  {
    if history != [] && history[|history| - 1].role == User then history[..|history| - 1] else history
  }

  /** Dropping the turn just appended restores the history; on a well-formed history there is nothing more to drop. */
  lemma PopUnansweredRestores(history: seq<Turn>, question: string)
    ensures PopUnanswered(history + [Turn(User, question)]) == history
    ensures WellFormed(history) ==> PopUnanswered(history) == history
  {
    assert (history + [Turn(User, question)])[..|history|] == history;
  }

  /** The history after one pass of the loop. */
  function Next(history: seq<Turn>, line: string, outcome: Outcome): (r: seq<Turn>)
    requires |history| >= 1
    ensures |r| >= 1
  {
    var command := Strip(line);
    if IsQuit(command) then history
    else if IsClear(command) then [history[0]]
    else if command == "" then history
    else match outcome
      case Ok(content) => history + [Turn(User, command), Turn(Assistant, ContentOrEmpty(content))]
      case Fail(_) => PopUnanswered(history + [Turn(User, command)])
  }

  /** What one pass of the loop reports. */
  function ReplyOf(line: string, outcome: Outcome): (r: Reply)
    ensures r == Quit <==> IsQuit(Strip(line))
    ensures r == Cleared <==> IsClear(Strip(line)) && !IsQuit(Strip(line))
    ensures r == Rejected <==> Strip(line) == ""
    ensures r.Answered? || r.Failed? <==> IsQuestion(Strip(line))
    ensures r.Failed? ==> outcome.Fail?
    ensures IsQuestion(Strip(line)) && outcome.Ok? ==> r == Answered(outcome.content)
    ensures IsQuestion(Strip(line)) && outcome.Fail? ==> r == Failed(outcome.message)
  {
    var command := Strip(line);
    if IsQuit(command) then Quit
    else if IsClear(command) then Cleared
    else if command == "" then Rejected
    else match outcome
      case Ok(content) => Answered(content)
      case Fail(message) => Failed(message)
  }

  /** Every pass keeps the system turn in place and leaves no unanswered user turn. */
  lemma NextPreservesWellFormed(history: seq<Turn>, line: string, outcome: Outcome)
    requires WellFormed(history)
    ensures WellFormed(Next(history, line, outcome)) && Next(history, line, outcome)[0] == history[0]
  {
    PopUnansweredRestores(history, Strip(line));
  }

  /** `quit` and empty input leave the history untouched, whatever the service would have done. */
  lemma QuitOrEmptyKeepsHistory(history: seq<Turn>, line: string, outcome: Outcome)
    requires |history| >= 1 && (Strip(line) == "" || IsQuit(Strip(line)))
    ensures Next(history, line, outcome) == history
  {
  }

  /** A failed exchange leaves the history exactly as it was before the line was read. */
  lemma FailureRestoresHistory(history: seq<Turn>, line: string, message: string)
    requires |history| >= 1 && !IsClear(Strip(line))
    ensures Next(history, line, Fail(message)) == history
  {
    PopUnansweredRestores(history, Strip(line));
  }

  /** Retrying after a failure is the same as if the failed attempt had never happened. */
  lemma RetryAfterFailure(history: seq<Turn>, line: string, message: string, outcome: Outcome, retry: string)
    requires |history| >= 1 && !IsClear(Strip(line))
    ensures Next(Next(history, line, Fail(message)), retry, outcome) == Next(history, retry, outcome)
  {
    FailureRestoresHistory(history, line, message);
  }

  /** A successful exchange adds exactly the stripped question and the answer, in that order. */
  lemma SuccessAppendsTwoTurns(history: seq<Turn>, line: string, content: Option<string>)
    requires |history| >= 1 && IsQuestion(Strip(line))
    ensures var h := Next(history, line, Ok(content));
            && |h| == |history| + 2 && h[..|history|] == history
            && h[|history|] == Turn(User, Strip(line))
            && h[|history| + 1] == Turn(Assistant, if content.Some? then content.value else "")
  {
  }

  /** The history over a run of lines, up to the first `quit`. */
  function RunHistory(history: seq<Turn>, steps: seq<Step>): (r: seq<Turn>)
    requires |history| >= 1
    ensures |r| >= 1
    ensures (forall k :: 0 <= k < |steps| ==> !IsClear(Strip(steps[k].line)) && !IsQuestion(Strip(steps[k].line)))
            ==> r == history
    decreases |steps|
  {
    if steps == [] || IsQuit(Strip(steps[0].line)) then history
    else RunHistory(Next(history, steps[0].line, steps[0].outcome), steps[1..])
  }

  /** Over any run of lines the history keeps its system turn first and never ends on an unanswered question. */
  lemma {:induction false} RunPreservesWellFormed(history: seq<Turn>, steps: seq<Step>)
    requires WellFormed(history)
    ensures WellFormed(RunHistory(history, steps)) && RunHistory(history, steps)[0] == history[0]
    decreases |steps|
  {
    if steps != [] && !IsQuit(Strip(steps[0].line)) {
      NextPreservesWellFormed(history, steps[0].line, steps[0].outcome);
      RunPreservesWellFormed(Next(history, steps[0].line, steps[0].outcome), steps[1..]);
    }
  }

  /** A run in which every request fails and nobody clears leaves the history untouched. */
  lemma {:induction false} FailingRunKeepsHistory(history: seq<Turn>, steps: seq<Step>)
    requires |history| >= 1
    requires forall k :: 0 <= k < |steps| ==> steps[k].outcome.Fail? && !IsClear(Strip(steps[k].line))
    ensures RunHistory(history, steps) == history
    decreases |steps|
  {
    if steps != [] && !IsQuit(Strip(steps[0].line)) {
      FailureRestoresHistory(history, steps[0].line, steps[0].outcome.message);
      FailingRunKeepsHistory(history, steps[1..]);
    }
  }

  /** The `conversation` list of the terminal front end, and the configuration it sends with. */
  class Session {
    const config: Config
    ghost const systemTurn: Turn
    var conversation: seq<Turn>

    ghost predicate Valid()
      reads this
    {
      WellFormed(conversation) && conversation[0] == systemTurn
    }

    /** The history starts as the single system turn. */
    constructor (config: Config, systemPrompt: string)
      ensures Valid() && this.config == config
      ensures conversation == [Turn(System, systemPrompt)]
    {
      this.config := config;
      systemTurn := Turn(System, systemPrompt);
      conversation := [Turn(System, systemPrompt)];
    }

    /** `clear`: only the system turn is kept, however long the history was. */
    method Clear()
      requires Valid()
      modifies this
      ensures Valid() && conversation == [old(conversation)[0]]
    {
      conversation := [conversation[0]];
    }

    /** One exchange: append the question, send the whole history, then record the answer or roll back. */
    method Ask(question: string, outcome: Outcome) returns (reply: Reply, request: ChatRequest)
      requires Valid()
      modifies this
      ensures Valid()
      ensures request == BuildRequest(config, old(conversation) + [Turn(User, question)])
      ensures outcome.Ok? ==>
                && conversation == old(conversation) + [Turn(User, question), Turn(Assistant, ContentOrEmpty(outcome.content))]
                && reply == Answered(outcome.content)
      ensures outcome.Fail? ==> conversation == old(conversation) && reply == Failed(outcome.message)
    {
      conversation := conversation + [Turn(User, question)];
      request := BuildRequest(config, conversation);
      match outcome {
        case Ok(content) =>
          conversation := conversation + [Turn(Assistant, ContentOrEmpty(content))];
          reply := Answered(content);
        case Fail(message) =>
          if |conversation| > 0 && conversation[|conversation| - 1].role == User {
            conversation := conversation[..|conversation| - 1];
          }
          reply := Failed(message);
      }
    }

    /** One pass of the loop on the line typed; a request is sent only for a question. */
    method HandleLine(line: string, outcome: Outcome) returns (reply: Reply, request: Option<ChatRequest>)
      requires Valid()
      modifies this
      ensures Valid()
      ensures conversation == Next(old(conversation), line, outcome)
      ensures reply == ReplyOf(line, outcome)
      ensures request == if IsQuestion(Strip(line))
                         then Some(BuildRequest(config, old(conversation) + [Turn(User, Strip(line))]))
                         else None
    {
      var command := Strip(line);
      request := None;
      if Lower(command) == "quit" {
        return Quit, None;
      }
      if Lower(command) == "clear" {
        Clear();
        return Cleared, None;
      }
      if command == "" {
        return Rejected, None;
      }
      var sent;
      reply, sent := Ask(command, outcome);
      request := Some(sent);
      PopUnansweredRestores(old(conversation), command);
    }

    /** The `while True` loop over the lines typed, ending at the first `quit`. */
    method Run(steps: seq<Step>) returns (quitAt: Option<nat>)
      requires Valid()
      modifies this
      ensures Valid()
      ensures conversation == RunHistory(old(conversation), steps)
      ensures quitAt.Some? ==> quitAt.value < |steps| && IsQuit(Strip(steps[quitAt.value].line))
      ensures forall k :: 0 <= k < |steps| && (quitAt.None? || k < quitAt.value) ==> !IsQuit(Strip(steps[k].line))
    {
      var i := 0;
      quitAt := None;
      while i < |steps|
        invariant 0 <= i <= |steps|
        invariant Valid()
        invariant RunHistory(old(conversation), steps) == RunHistory(conversation, steps[i..])
        invariant forall k :: 0 <= k < i ==> !IsQuit(Strip(steps[k].line))
      {
        ghost var before := conversation;
        var reply, _ := HandleLine(steps[i].line, steps[i].outcome);
        if reply == Quit {
          assert IsQuit(Strip(steps[i].line));
          assert RunHistory(before, steps[i..]) == before;
          quitAt := Some(i);
          return;
        }
        assert steps[i..][0] == steps[i] && steps[i..][1..] == steps[i + 1..];
        assert RunHistory(before, steps[i..]) == RunHistory(conversation, steps[i + 1..]);
        i := i + 1;
      }
    }
  }
}
