# Zodiac guide conversational core, in Dafny

A model of the core of a retrieval-grounded chat assistant with two front ends:
a terminal loop (`python/rag-app.py`) and a web page (`python/streamlit_app.py`).
Around one call to a hosted chat-completion service, that core:

- checks that the seven required settings are present;
- builds the request, with the chat model (falling back to `gpt-4o`), fixed
  sampling settings (temperature 0.7, at most 2000 tokens) and a grounding
  descriptor that points the service at an Azure AI Search index;
- keeps the conversation history and updates it after each exchange;
- renders an answer with a numbered list of cited sources.

The service call is not modelled. Its result is given to each operation as an
`Outcome`: either `Ok(content)`, where the content may be null, or `Fail(message)`
for any exception.

Modules:

- `Wrappers`: `Option`.
- `Text`: the string operations the core relies on. These are `str.strip()`
  (with Python's whitespace set), `lower()` for matching the command words, and
  `str(i)` for entry numbers, proved to round-trip through `int()`.
- `Formatter`: `format_response_with_sources`. A citation is
  `Dict(title, content)` (either key may be absent) or `Other(repr)`. The
  method builds the reply with a loop, and is proved equal to the recursive
  `Format`.
- `Settings`: `load_environment` of both front ends. The environment is a
  `map<string, string>`, and the returned dictionary is a record with one field
  per lower-case key.
- `Chat`: turns, outcomes, the grounding descriptor, the model fallback and
  the request.
- `Terminal`: the `conversation` list of the terminal loop, as a class with
  `seq<Turn>` state. The pure function `Next` gives one pass of the loop and
  `RunHistory` a whole session.
- `Web`: `st.session_state.messages`, as a class whose `Option<seq<Turn>>`
  state is `None` while the key is absent. It also models `get_zodiac_response`
  and one run of the script.

The two front ends are modelled as written. They differ in these ways:

- The terminal strips its input. It matches `quit` and `clear` in any case.
- The terminal's `clear` keeps the system turn.
- When an exchange fails, the terminal removes the unanswered user turn. The
  history is then exactly what it was before the line was read.
- The web page does not strip the prompt. Any non-empty prompt, even one that is
  only whitespace, is appended and sent.
- The web page never rolls back. It treats an empty answer like a failure: the
  user turn stays and no assistant turn is added.
- The web page's clear button sets the list to `[]`. The key stays present, so
  the rerun does not put the system turn back, and later requests are sent
  without it.

Three details of the code are easy to misread; the model keeps them as written:

- The title falls back to `Unknown` only when the `title` key is absent. An
  empty title stays empty.
- The descriptor's type is `azure_search`.
- The web front end does not refuse whitespace-only input.

## Model

| member | source | states |
|---|---|---|
| `Text.SkipSpace` | python/rag-app.py:184 | the index where leading whitespace ends: everything before it is whitespace, and the character at it is not |
| `Text.SkipSpaceBack` | python/rag-app.py:184 | the index where trailing whitespace begins: everything from it on is whitespace, and the character before it is not |
| `Text.Strip` | python/rag-app.py:184 | the stripped line is no longer than the input and neither starts nor ends with whitespace |
| `Text.StripCharacterised` | python/rag-app.py:184 | `strip()` returns a contiguous piece of the input with only whitespace removed at both ends, and that piece neither starts nor ends with whitespace |
| `Text.StripEmptyIff` | python/rag-app.py:195 | the stripped input is empty exactly when every character of the line is whitespace |
| `Text.StripIdempotent` | python/rag-app.py:184 | stripping twice is the same as stripping once |
| `Text.Lower` | python/rag-app.py:186-190 | lower-casing keeps the length, leaves no upper-case ASCII letter, and changes only upper-case ASCII letters, each to its lower-case form (code point plus 32) |
| `Text.LowerMatchesIgnoringCase` | python/rag-app.py:186-190 | `s.lower() == w`, for a lower-case ASCII word `w`, holds exactly when `s` spells `w` with each letter in either case |
| `Text.DecimalString` | python/rag-app.py:68 | `str(i)` is non-empty, made only of decimal digits, and has no leading zero unless `i` is 0 |
| `Text.DecimalRoundTrip` | python/rag-app.py:63-68 | parsing the rendered entry number gives the number back |
| `Text.DecimalInjective` | python/rag-app.py:63-68 | distinct entry numbers render differently |
| `Formatter.Shown` | python/rag-app.py:67 | content of at most 200 characters is kept verbatim; longer content becomes its first 200 characters followed by "...", 203 characters in all |
| `Formatter.TitleOf` | python/rag-app.py:66 | the title is the `title` value whenever the key is present, even when it is empty, and "Unknown" only when the key is absent |
| `Formatter.Entry` | python/rag-app.py:63-70 | every entry starts with its number followed by a dot |
| `Formatter.Entries` | python/rag-app.py:63-70 | the rendered entries are empty exactly when there is no citation |
| `Formatter.Format` | python/rag-app.py:57-72 | the reply always starts with the response text unchanged |
| `Formatter.FormatResponseWithSources` | python/rag-app.py:57-72 | the loop that accumulates the reply computes `Format`: the text alone without citations, otherwise the text, the Sources header and the entries numbered from 1 |
| `Formatter.EntriesSnoc` | python/rag-app.py:63-70 | rendering one more citation appends exactly its entry, numbered after those before it |
| `Formatter.EntriesAppend` | python/rag-app.py:63 | rendering two runs of citations in sequence continues the numbering across them |
| `Formatter.EntryInPlace` | python/rag-app.py:63-70 | the k-th citation is rendered as entry number n+k, after the entries of the citations before it and before those after it |
| `Formatter.FormatUnchangedIff` | python/rag-app.py:59-72 | the reply equals the response text exactly when the citation list is `None` or empty |
| `Formatter.FormatListsEverySource` | python/rag-app.py:61-70 | with citations, the reply is the text, the header, then every citation in input order, the k-th as entry k+1 |
| `Formatter.EntryContent` | python/rag-app.py:67-70 | a dictionary entry is its number, title line and shown content: content longer than 200 characters shows exactly its first 200 characters followed by "...", shorter content shows verbatim; a missing content key renders like an empty one; any other citation is exactly its number, `. `, its `str()` in full with no truncation, and a newline |
| `Settings.IsUnset` | python/rag-app.py:23 | `not os.getenv(name)` holds exactly when the value, with "" for an absent variable, is empty |
| `Settings.Missing` | python/rag-app.py:21-24 | the missing list is no longer than the list of names, and every name in it is unset |
| `Settings.MissingMembers` | python/rag-app.py:21-24 | a name is in the missing list exactly when it is one of the required names and is absent or empty; the list is no longer than the required list |
| `Settings.MissingAppend` | python/rag-app.py:22-24 | the missing list of a concatenation is the concatenation of the missing lists, so declared order is kept |
| `Settings.MissingIsFilter` | python/rag-app.py:21-26 | the missing list is empty exactly when every name is set, and it has every name exactly when none is set |
| `Settings.MissingVars` | python/rag-app.py:21-24 | the loop collects exactly the missing required names, in declared order |
| `Settings.NothingMissingIff` | python/rag-app.py:26 | the missing list is empty exactly when all seven variables are set and non-empty |
| `Settings.ConfigOf` | python/rag-app.py:34-42 | the returned configuration carries each of the seven environment values under its key, and all are non-empty |
| `Settings.LoadEnvironment` | python/rag-app.py:7-42 | the terminal loader exits with status 1 and the missing list exactly when some required variable is absent or empty; otherwise it returns the configuration |
| `Settings.LoadEnvironmentWeb` | python/streamlit_app.py:18-61 | the web loader returns `None` exactly when some required variable is absent or empty; otherwise it returns the seven-key configuration |
| `Chat.ContentOrEmpty` | python/rag-app.py:239 | `content or ""` is empty exactly when the content is null or empty, and is the content itself otherwise |
| `Chat.BuildRagParams` | python/rag-app.py:203-222 | one data source of type `azure_search` carrying the search endpoint, the index name, `api_key` authentication with the search key, query type `vector`, and a `deployment_name` embedding dependency on the embedding model |
| `Chat.RagParamsUseSearchSettingsOnly` | python/rag-app.py:203-222 | the descriptor depends only on the four search settings: the chat key, the chat endpoint and the chat model never enter it |
| `Chat.ModelName` | python/rag-app.py:228 | the model is never empty: it is the configured chat model when one is set, and `gpt-4o` otherwise |
| `Chat.LoadedConfigKeepsModel` | python/rag-app.py:228 | for a configuration that passed the loader, the fallback never applies and the configured model is used |
| `Chat.BuildRequest` | python/rag-app.py:227-233 | the request carries the history as given, the chosen model, the grounding descriptor, temperature 0.7 and at most 2000 tokens |
| `Terminal.PopUnanswered` | python/rag-app.py:251-252 | the tail is dropped exactly when it is a user turn, and nothing else changes |
| `Terminal.PopUnansweredRestores` | python/rag-app.py:250-252 | dropping the user turn just appended restores the history; on a well-formed history a second drop does nothing |
| `Terminal.Next` | python/rag-app.py:181-252 | one pass of the loop never empties the history |
| `Terminal.ReplyOf` | python/rag-app.py:184-252 | the pass reports quit exactly for `quit`, cleared exactly for `clear`, a re-prompt exactly for empty input, an answer or error exactly for a question, and for a question an error exactly when the call failed, carrying its message; otherwise the raw content |
| `Terminal.QuitOrEmptyKeepsHistory` | python/rag-app.py:184-197 | `quit` and empty input leave the history untouched and do not depend on the service |
| `Terminal.NextPreservesWellFormed` | python/rag-app.py:181-252 | every pass keeps the system turn first and unchanged, and never leaves an unanswered user turn last |
| `Terminal.FailureRestoresHistory` | python/rag-app.py:247-252 | a failed exchange leaves the history exactly as it was before the line was read |
| `Terminal.RetryAfterFailure` | python/rag-app.py:247-252 | retrying after a failure has the same effect as if the failed attempt had never been made |
| `Terminal.SuccessAppendsTwoTurns` | python/rag-app.py:199-239 | a successful exchange keeps the old history and adds exactly the stripped question and then the answer (`""` for null content) |
| `Terminal.RunHistory` | python/rag-app.py:181-252 | a session never empties the history, and a session of only empty lines and `quit` leaves it unchanged |
| `Terminal.RunPreservesWellFormed` | python/rag-app.py:181-252 | over any sequence of lines up to `quit`, the history keeps its system turn first and never ends on an unanswered question |
| `Terminal.FailingRunKeepsHistory` | python/rag-app.py:181-252 | a session in which every request fails and nobody clears leaves the history unchanged |
| `Terminal.Session.constructor` | python/rag-app.py:97-173 | the history starts as the single system turn |
| `Terminal.Session.Clear` | python/rag-app.py:190-193 | `clear` leaves exactly the original first turn, whatever the length of the history |
| `Terminal.Session.Ask` | python/rag-app.py:199-252 | the request carries the history with the new user turn; on success the history gains exactly the question and the answer; on failure it is restored exactly |
| `Terminal.Session.HandleLine` | python/rag-app.py:184-252 | one pass of the loop updates the history as `Next` does and reports what happened; a request is sent only for a stripped line that is neither empty nor a command |
| `Terminal.Session.Run` | python/rag-app.py:181-252 | the loop updates the history as `RunHistory` does and stops at the first `quit`, which it reports |
| `Web.GetZodiacResponse` | python/streamlit_app.py:112-150 | sends the given history as the messages (the user message is unused), with the model fallback, the descriptor and the fixed sampling settings; returns `None` exactly on failure, and the content or `""` otherwise |
| `Web.Truthy` | python/streamlit_app.py:358 | a prompt is truthy exactly when it is present and not empty |
| `Web.Submit` | python/streamlit_app.py:358-375 | handling a prompt only appends, at most two turns, never a system turn, and appends something exactly when the prompt is truthy |
| `Web.SubmitAddsNoSystemTurn` | python/streamlit_app.py:358-375 | handling a prompt keeps the system turn only first, and keeps a cleared list free of system turns |
| `Web.SubmitKeepsPrompt` | python/streamlit_app.py:358-375 | a truthy prompt always stays in the list; an assistant turn follows it only when the answer is non-empty; nothing is rolled back |
| `Web.Visible` | python/streamlit_app.py:352-355 | a message is displayed exactly when it is in the list and its role is not `system` |
| `Web.VisibleAppend` | python/streamlit_app.py:352-355 | the display of a concatenation is the concatenation of the displays, so list order is kept |
| `Web.VisibleSnoc` | python/streamlit_app.py:352-355 | showing one more message adds it at the end exactly when it is not a system turn |
| `Web.SubmitShown` | python/streamlit_app.py:352-375 | after a prompt, the page shows what it showed before, then the prompt and any answer |
| `Web.Initialized` | python/streamlit_app.py:269-346 | the list is set to the system turn alone only when the key is absent; a present list, even an empty one, is kept |
| `Web.ClearDropsSystemTurn` | python/streamlit_app.py:237-270 | after the clear button the rerun keeps the list empty, so the next exchange holds no system turn |
| `Web.Session.constructor` | python/streamlit_app.py:269 | a new browser session starts with no `messages` key |
| `Web.Session.ClearConversation` | python/streamlit_app.py:237-239 | the clear button sets the list to `[]` |
| `Web.Session.EnsureMessages` | python/streamlit_app.py:269-346 | initialises the list only when the key is absent |
| `Web.Session.DisplayedMessages` | python/streamlit_app.py:352-355 | the display loop yields exactly the non-system messages, in order |
| `Web.Session.SubmitPrompt` | python/streamlit_app.py:358-375 | a truthy prompt is appended before the request, so the request includes it; an answer is appended only when it is non-empty; a falsy prompt changes nothing and sends nothing; the system turn stays only first |
| `Web.Session.RunScript` | python/streamlit_app.py:237-375 | one script run either clears the list and reruns, or initialises it, shows its non-system messages and handles the prompt; the list never holds a system turn after index 0, and a cleared list stays without one |

## Left out

- The calls to `client.chat.completions.create` and the construction of `AzureOpenAI` are foreign network calls. This includes the web front end's test call (python/streamlit_app.py:95-103). The model replaces them with an `Outcome` parameter. A web client that could not be built fails on every call, so it is modelled by `Fail`.
- `load_dotenv`, `os.getenv`, the removal of proxy variables, console clearing, `input` and `print` are process and terminal I/O. The environment is a map given as a parameter.
- End of input at the terminal prompt and `KeyboardInterrupt` are not modelled. Both are terminal I/O.
- Streamlit rendering is not modelled: page setup, CSS, sidebar output, spinner, example-question buttons, `st.stop` on missing configuration, and `st.rerun`. `RunScript` reports a rerun as a result.
- The system-prompt text is an opaque string parameter.
- The version check and virtual-environment bootstrapping in `python/setup.py` are not modelled. Neither are the live connectivity probes in `python/test_connection.py` and `python/test_minimal.py`.
- `Text.LowerChar` maps only ASCII letters. No other code point lowercases to a single letter of `quit` or `clear`, so the two command comparisons are exact.
- `Formatter.Source`: the `title`, `content` and `str()` values of a citation are strings. A dictionary whose title or content is some other kind of value is not modelled.
- Nothing in the terminal loop calls `format_response_with_sources`: the loop prints the raw answer. The formatter is modelled on its own.
