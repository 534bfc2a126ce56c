/**
 * The message list of the web front end (`st.session_state.messages`). One
 * script run either clears the list (and reruns), or initialises it when the
 * key is absent, shows the non-system messages and handles the chat input.
 * Unlike the terminal loop it never rolls back, it treats an empty answer
 * like a failure, and its clear button drops the system turn too.
 */
module Web {
  import opened Wrappers
  import opened Settings
  import opened Chat

  /** What `get_zodiac_response` sent and returned. */
  datatype Exchange = Exchange(request: ChatRequest, response: Option<string>)

  /**
   * `get_zodiac_response(client, config, user_message, conversation_history)`:
   * the history is sent as it is (the user message is not used), and the
   * answer is the first choice's content or "", or `None` when anything raised.
   */
  function GetZodiacResponse(config: Config, userMessage: string, history: seq<Turn>, outcome: Outcome): (r: Exchange)
    ensures r.request.messages == history
    ensures r.request.model == ModelName(config) && r.request.extraBody == BuildRagParams(config)
    ensures r.request.temperature == 0.7 && r.request.maxTokens == 2000
    ensures r.response.None? <==> outcome.Fail?
    ensures outcome.Ok? && outcome.content.Some? ==> r.response == Some(outcome.content.value)
    ensures outcome.Ok? && outcome.content.None? ==> r.response == Some("")
  {
    var request := BuildRequest(config, history);
    match outcome
    case Ok(content) => Exchange(request, Some(ContentOrEmpty(content)))
    case Fail(_) => Exchange(request, None)
  }

  /** Python truthiness of an optional string. */
  predicate Truthy(s: Option<string>)
    ensures Truthy(s) <==> s.GetOr("") != ""
  {
    s.Some? && s.value != ""
  }

  /** The list after the chat input `prompt` has been handled. */
  function Submit(messages: seq<Turn>, prompt: Option<string>, outcome: Outcome): (r: seq<Turn>)
    ensures |messages| <= |r| <= |messages| + 2 && r[..|messages|] == messages
    ensures |r| > |messages| <==> Truthy(prompt)
    ensures forall k :: |messages| <= k < |r| ==> r[k].role != System
  {
    if !Truthy(prompt) then messages
    else
      var withPrompt := messages + [Turn(User, prompt.value)];
      match outcome
      case Ok(content) =>
        if ContentOrEmpty(content) != "" then withPrompt + [Turn(Assistant, content.value)] else withPrompt
      case Fail(_) => withPrompt
  }

  /** The prompt always stays in the list; an answer follows it only when one came back non-empty. */
  lemma SubmitKeepsPrompt(messages: seq<Turn>, prompt: string, outcome: Outcome)
    requires prompt != ""
    ensures var r := Submit(messages, Some(prompt), outcome);
            var answered := outcome.Ok? && outcome.content.Some? && outcome.content.value != "";
            && r[..|messages|] == messages
            && |r| == |messages| + (if answered then 2 else 1)
            && r[|messages|] == Turn(User, prompt)
            && (answered ==> r[|messages| + 1] == Turn(Assistant, outcome.content.value))
  {
  }

  /** The messages shown: those whose role is not `system`, in list order. */
  function Visible(messages: seq<Turn>): (r: seq<Turn>)
    ensures |r| <= |messages|
    ensures forall t :: t in r <==> t in messages && t.role != System
  {
    if messages == [] then []
    else (if messages[0].role != System then [messages[0]] else []) + Visible(messages[1..])
  }

  /** Showing a concatenation shows each part in turn. */
  lemma {:induction false} VisibleAppend(a: seq<Turn>, b: seq<Turn>)
    ensures Visible(a + b) == Visible(a) + Visible(b)
    decreases |a|
  {
    if a == [] {
      assert a + b == b;
    } else {
      assert (a + b)[1..] == a[1..] + b;
      VisibleAppend(a[1..], b);
    }
  }

  /** Showing one more message adds it at the end unless it is a system turn. */
  lemma VisibleSnoc(messages: seq<Turn>, i: nat)
    requires i < |messages|
    ensures Visible(messages[..i + 1]) ==
              Visible(messages[..i]) + (if messages[i].role != System then [messages[i]] else [])
  {
    assert messages[..i + 1] == messages[..i] + [messages[i]];
    VisibleAppend(messages[..i], [messages[i]]);
    assert Visible([messages[i]]) == (if messages[i].role != System then [messages[i]] else []) + Visible([]);
  }

  /** After a truthy prompt the page shows what it showed before, the prompt, and the answer if any. */
  lemma SubmitShown(messages: seq<Turn>, prompt: string, outcome: Outcome)
    requires prompt != ""
    ensures Visible(Submit(messages, Some(prompt), outcome)) ==
              Visible(messages) + Visible(Submit([], Some(prompt), outcome))
  {
    var tail := Submit([], Some(prompt), outcome);
    assert Submit(messages, Some(prompt), outcome) == messages + tail;
    VisibleAppend(messages, tail);
  }

  /** The `messages` entry of session state, `None` while the key is absent. */
  type State = Option<seq<Turn>>

  /** The initialisation block: the system turn is set only when the key is absent. */
  function Initialized(state: State, systemPrompt: string): (r: State)
    ensures r.Some?
    ensures state.Some? ==> r == state
    ensures state.None? ==> r == Some([Turn(System, systemPrompt)])
  {
    if state.None? then Some([Turn(System, systemPrompt)]) else state
  }

  /**
   * After the clear button the rerun finds the key present and leaves the list
   * empty, so the next exchange is sent without any system turn.
   */
  lemma ClearDropsSystemTurn(systemPrompt: string, prompt: string, outcome: Outcome)
    ensures Initialized(Some([]), systemPrompt) == Some([])
    ensures forall t :: t in Submit(Initialized(Some([]), systemPrompt).value, Some(prompt), outcome) ==> t.role != System
  {
  }

  /** No turn but the first is a system turn. */
  predicate SystemOnlyFirst(messages: seq<Turn>) {
    forall k :: 0 < k < |messages| ==> messages[k].role != System
  }

  /**
   * Handling a prompt never adds a system turn: a list with its system turn
   * only first keeps it so, and a cleared list stays free of system turns.
   */
  lemma SubmitAddsNoSystemTurn(messages: seq<Turn>, prompt: Option<string>, outcome: Outcome)
    ensures SystemOnlyFirst(messages) ==> SystemOnlyFirst(Submit(messages, prompt, outcome))
    ensures (forall k :: 0 <= k < |messages| ==> messages[k].role != System) ==>
              forall k :: 0 <= k < |Submit(messages, prompt, outcome)| ==> Submit(messages, prompt, outcome)[k].role != System
  {
    var r := Submit(messages, prompt, outcome);
    assert forall k :: 0 <= k < |messages| ==> r[k] == messages[k];
  }

  /** The session state of one browser session, and the configuration it sends with. */
  class Session {
    const config: Config
    var messages: State

    ghost predicate Valid()
      reads this
    {
      messages.Some? ==> SystemOnlyFirst(messages.value)
    }

    /** A new browser session: the `messages` key is absent. */
    constructor (config: Config)
      ensures Valid() && this.config == config && messages == None
    {
      this.config := config;
      messages := None;
    }

    /** The clear button: the list becomes empty, and the key stays present. */
    method ClearConversation()
      modifies this
      ensures Valid() && messages == Some([])
    {
      messages := Some([]);
    }

    /** `if "messages" not in st.session_state`: set the list to the system turn alone. */
    method EnsureMessages(systemPrompt: string)
      requires Valid()
      modifies this
      ensures Valid() && messages == Initialized(old(messages), systemPrompt)
    {
      if messages.None? {
        messages := Some([Turn(System, systemPrompt)]);
      }
    }

    /** The display loop: every message whose role is not `system`, in order. */
    method DisplayedMessages() returns (shown: seq<Turn>)
      requires messages.Some?
      ensures shown == Visible(messages.value)
    {
      var all := messages.value;
      shown := [];
      var i := 0;
      while i < |all|
        invariant 0 <= i <= |all|
        invariant shown == Visible(all[..i])
      {
        VisibleSnoc(all, i);
        if all[i].role != System {
          shown := shown + [all[i]];
        }
        i := i + 1;
      }
      assert all[..i] == all;
    }

    /** The chat input: append a truthy prompt, send the list with it, append a truthy answer. */
    method SubmitPrompt(prompt: Option<string>, outcome: Outcome) returns (response: Option<string>, request: Option<ChatRequest>)
      requires Valid() && messages.Some?
      modifies this
      ensures Valid() && messages.Some? && SystemOnlyFirst(messages.value)
      ensures messages == Some(Submit(old(messages).value, prompt, outcome))
      ensures Truthy(prompt) ==>
                && request == Some(BuildRequest(config, old(messages).value + [Turn(User, prompt.value)]))
                && response == GetZodiacResponse(config, prompt.value, old(messages).value + [Turn(User, prompt.value)], outcome).response
      ensures !Truthy(prompt) ==> request == None && response == None
    {
      response, request := None, None;
      if prompt.Some? && prompt.value != "" {
        messages := Some(messages.value + [Turn(User, prompt.value)]);
        var exchange := GetZodiacResponse(config, prompt.value, messages.value, outcome);
        response, request := exchange.response, Some(exchange.request);
        if response.Some? && response.value != "" {
          messages := Some(messages.value + [Turn(Assistant, response.value)]);
        }
      }
    }

    /**
     * One run of the script once the configuration is loaded: the clear button
     * empties the list and asks for a rerun; otherwise the list is initialised
     * if absent, shown, and the chat input handled.
     */
    method RunScript(clearClicked: bool, systemPrompt: string, prompt: Option<string>, outcome: Outcome)
      returns (rerun: bool, shown: seq<Turn>)
      requires Valid()
      modifies this
      ensures Valid() && rerun == clearClicked
      ensures messages.Some? && SystemOnlyFirst(messages.value)
      ensures old(messages) == Some([]) ==>
                forall k :: 0 <= k < |messages.value| ==> messages.value[k].role != System
      ensures clearClicked ==> messages == Some([]) && shown == []
      ensures !clearClicked ==>
                var start := Initialized(old(messages), systemPrompt).value;
                messages == Some(Submit(start, prompt, outcome)) && shown == Visible(start)
    {
      if clearClicked {
        ClearConversation();
        return true, [];
      }
      EnsureMessages(systemPrompt);
      shown := DisplayedMessages();
      SubmitAddsNoSystemTurn(messages.value, prompt, outcome);
      var _, _ := SubmitPrompt(prompt, outcome);
      rerun := false;
    }
  }
}
