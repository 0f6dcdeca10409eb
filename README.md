# Command bar input state machine

A Dafny model of the command bar of mitmproxy's web interface
(`web/src/js/components/CommandBar.tsx`). The operator types command lines;
the bar offers the registry's command names that start with the first token,
cycles through them with Tab, shows the declared arguments of the command
being typed with the current argument marked, recalls earlier commands with
Up and Down, and on Enter sends the line to the backend. The backend's answer
replaces the history and appends an entry to the transcript.

The model has these modules:

- `Registry`: the command registry. It is the backend's `commands` object, kept as the ordered list of its entries, with lookup by name.
- `Completion`: the prefix filter `getAvailableCommands`, a method with a loop proved against the function `Filter`. It also holds Tab cycling (`Advance`, `Presses`) and Tab exactly as written (`TabAsWritten`).
- `History`: Up and Down recall (`RecallPrevious`, `RecallNext`) and their as-written forms.
- `Transcript`: transcript entries and the append done by the response handler.
- `CommandHelp`: the loop that marks the argument being typed.
- `CommandBar`: the component as a class. Its fields are the component's state variables. It has one method per event: `LoadCommands` (the registry response), `ParseCommand` (key release), `OnChange` (edit), `Enter` (the key press), `Respond` (the response to the command request), and `Up`, `Down` and `Tab`. Each method names the fields it changes in its `modifies` clause and states their new values. `Valid()` is kept by every method: registry names are distinct, neither candidate list repeats a name, and every transcript id equals its position.
- `Enter` returns a `Submission`: the input, transcript and cursor that the response handler's closure captures at the key press. `Respond` applies a response to a captured `Submission`, so responses can arrive in any order after any other events. When two commands are in flight, the second response rebuilds the transcript from the list captured before the first one was answered. The first entry is lost, and the cursor moves on once, not twice (`Scenarios.TwoSubmissionsInFlight`).
- `Js`: the JavaScript `undefined` and `NaN` values. Only the as-written models of the key handlers use it.
- `Scenarios`: event sequences applied to the class, with the verifier checking each assertion. They pin down completion, argument help and history recall, and show that the three out-of-range reads listed under Findings can be reached.

The tokenizer is not part of this model. `ParseCommand` takes two token lists as parameters: the tokens of the live input and the tokens of the anchor text `originalInput`.

## Model

| member | source | states |
|---|---|---|
| Registry.Lookup | web/src/js/components/CommandBar.tsx:74 | a spec is found exactly when the name is one of the registry's names |
| Registry.LookupFindsEntry | web/src/js/components/CommandBar.tsx:68-74 | in a registry with distinct names, every entry's spec is what its own name looks up |
| Completion.GetAvailableCommands | web/src/js/components/CommandBar.tsx:6-15 | absent exactly when there is no registry; otherwise the names pushed by the loop are exactly `Filter` of the registry names |
| Completion.FilterMembership | web/src/js/components/CommandBar.tsx:9-13 | a name is in the result if and only if it is a registry name that starts with the prefix |
| Completion.FilterIsSubsequence | web/src/js/components/CommandBar.tsx:9-13 | the result keeps registry iteration order: it is a subsequence of the names |
| Completion.SubsequenceDistinct | web/src/js/components/CommandBar.tsx:9-13 | a subsequence of duplicate-free names has no duplicates |
| Completion.FilterDistinct | web/src/js/components/CommandBar.tsx:9-13 | filtering duplicate-free names gives a list without duplicates |
| Completion.FilterEmptyPrefix | web/src/js/components/CommandBar.tsx:6-14 | with the default empty prefix every command name is returned, in order |
| Completion.Advance | web/src/js/components/CommandBar.tsx:133-135 | no candidate exactly when the list is empty; otherwise the shown name is in the list, the next index is in range, and from an in-range index the shown name is `completionCandidate[currentCompletion]` |
| Completion.PressesFrom | web/src/js/components/CommandBar.tsx:133-135 | from an in-range index, Tab presses show the rest of the list in order and then start again from the first candidate |
| Completion.PressesVisitEach | web/src/js/components/CommandBar.tsx:133-135 | from index 0, n presses on a list of n candidates show exactly that list, so each candidate appears once |
| Completion.PressesRepeat | web/src/js/components/CommandBar.tsx:133-135 | after one full round the presses repeat the same candidates |
| Js.SuccMod | web/src/js/components/CommandBar.tsx:135 | `(a + 1) % n` is NaN exactly when n is 0, and otherwise below n |
| Completion.TabAsWritten | web/src/js/components/CommandBar.tsx:134-135 | the source's Tab writes `undefined` exactly when the index is past the list, and NaN exactly when the list is empty |
| Completion.TabAgreesInRange | web/src/js/components/CommandBar.tsx:134-135 | with an in-range index the corrected Tab does exactly what the source does |
| Completion.TabOnEmptyList | web/src/js/components/CommandBar.tsx:134-135 | on an empty list the source writes `undefined` and NaN |
| Completion.TabWithStaleIndex | web/src/js/components/CommandBar.tsx:134-135 | with index 2 on `["help"]` the source writes `undefined`, and the corrected Tab shows "help" |
| History.RecallPrevious | web/src/js/components/CommandBar.tsx:119-125 | Up recalls an entry exactly when the cursor is positive and the history is not empty. The entry shown is the one at the new cursor, which lies within the history. Inside the history the cursor drops by one; from past the end it lands on the newest entry |
| History.RecallNext | web/src/js/components/CommandBar.tsx:126-132 | Down acts exactly when the history is not empty. It shows `history[pos]`, read before the bound check, or the newest entry when the cursor is at or past the end. It advances the cursor only while the cursor is before the newest entry |
| History.RecallKeepsCursorInRange | web/src/js/components/CommandBar.tsx:119-132 | a cursor in [0, length] stays there under Up and Down |
| History.DownAfterUpReshows | web/src/js/components/CommandBar.tsx:119-132 | Down right after Up shows the same entry again |
| History.DownAtNewestRepeats | web/src/js/components/CommandBar.tsx:126-132 | at the newest entry, Down shows it again and the cursor stays |
| History.UpWalksBack | web/src/js/components/CommandBar.tsx:119-125 | from any cursor, repeated Up shows the entries before it newest-first and stops at the oldest; a cursor past the end starts from the newest entry |
| History.UpShowsAllNewestFirst | web/src/js/components/CommandBar.tsx:119-125 | from the fresh position, one Up per entry shows the whole history reversed |
| History.DownWalksForward | web/src/js/components/CommandBar.tsx:126-132 | from any cursor over a non-empty history, the m-th Down shows `history[min(pos + m, length - 1)]`: it walks forward and then keeps showing the newest entry |
| History.DownMovesCursorAsWritten | web/src/js/components/CommandBar.tsx:126-132 | for every history and cursor, the corrected Down moves the cursor exactly as the source does; when it does nothing, the source reads `undefined` |
| History.UpAsWritten | web/src/js/components/CommandBar.tsx:119-125 | the source's Up acts whenever the cursor is positive, and reads `undefined` exactly when the cursor is past the history length |
| History.DownAsWritten | web/src/js/components/CommandBar.tsx:126-132 | the source's Down reads `undefined` exactly when the cursor is at or past the history length |
| History.UpAgreesInRange | web/src/js/components/CommandBar.tsx:119-125 | within the history the corrected Up does what the source does |
| History.DownAgreesInRange | web/src/js/components/CommandBar.tsx:126-132 | within the history the corrected Down does what the source does |
| History.DownAtFreshPositionReadsUndefined | web/src/js/components/CommandBar.tsx:126-132 | at cursor == length over a non-empty history, the source's Down reads `undefined` and keeps the cursor; the corrected Down shows the newest entry and keeps the cursor |
| History.UpPastShortHistoryReadsUndefined | web/src/js/components/CommandBar.tsx:120-123 | with history `["a"]` and cursor 3, the source's Up reads `undefined` twice before it recalls "a"; the corrected Up recalls "a" on the first press |
| History.RecallScenario | web/src/js/components/CommandBar.tsx:119-132 | history a, b, c with cursor 3: Up shows c at 2, Up shows b at 1, Down shows b and moves to 2 |
| Transcript.Append | web/src/js/components/CommandBar.tsx:104-108 | exactly one entry is appended after the kept earlier entries. Its id is the prior length, and it holds the command and result. Sequential ids stay sequential |
| Transcript.AppendAll | web/src/js/components/CommandBar.tsx:100-108 | responses applied in turn give ids that follow insertion order, with the commands in submission order |
| CommandHelp.ArgumentSuggestion | web/src/js/components/CommandBar.tsx:18-25 | one fragment per argument carrying its text, and only the fragment at `currentArg` is marked |
| CommandBar.SpecFor | web/src/js/components/CommandBar.tsx:68-74 | a spec is found exactly when there is a first token and it names a registered command |
| CommandBar.CommandBar.constructor | web/src/js/components/CommandBar.tsx:38-52 | the initial state values, which satisfy the invariant |
| CommandBar.CommandBar.LoadCommands | web/src/js/components/CommandBar.tsx:57-61 | stores the registry and sets both candidate lists to all command names; nothing else changes |
| CommandBar.CommandBar.ParseCommand | web/src/js/components/CommandBar.tsx:64-80 | help and description come from the first token's spec, and are absent for an unknown command. Candidates are filtered by the anchor's first token and displayed commands by the live one. A known command sets `nextArgs` to the name plus its declared args and `currentArg` to the token count minus one; an unknown one keeps both. Nothing else changes |
| CommandBar.CommandBar.OnChange | web/src/js/components/CommandBar.tsx:82-86 | input and anchor both become the new text and the completion index is reset to 0; nothing else changes |
| CommandBar.CommandBar.Enter | web/src/js/components/CommandBar.tsx:89-118 | the request and the response handler capture the input, the transcript and the cursor as they are at the key press. Input, anchor, help and description are cleared and the candidates become the displayed list. Nothing else changes, and the invariant holds |
| CommandBar.CommandBar.Respond | web/src/js/components/CommandBar.tsx:100-109 | history becomes the backend's list, the cursor is the captured one plus one, and the arguments are cleared. The transcript is the captured one with one entry appended, holding the captured command and the result, with id equal to the captured length. Nothing else changes, and ids stay sequential |
| CommandBar.CommandBar.Up | web/src/js/components/CommandBar.tsx:119-125 | applies `RecallPrevious` of the old cursor to input, anchor and cursor; without a recalled entry nothing changes, and no other field changes |
| CommandBar.CommandBar.Down | web/src/js/components/CommandBar.tsx:126-132 | applies `RecallNext` of the old cursor to input, anchor and cursor; with an empty history nothing changes, and no other field changes |
| CommandBar.CommandBar.Tab | web/src/js/components/CommandBar.tsx:133-137 | applies `Advance` to input and completion index and keeps the anchor; nothing changes without candidates |

## Left out

- The `fetchApi` GET and POST calls and their promise chains. The registry response is the parameter of `LoadCommands`. The command response is the history and result parameters of `Respond`, and the caller chooses when each response arrives.
- A failed request: the model has no rejection path, so a submission whose response never arrives leaves only `Enter`'s changes.
- React's batching of state updates: each event method applies all of its updates in one step, reading the state as it was before the event.
- Tokenisation (`Filt.parse`) is not part of this model. Token lists are parameters, and no relation between them and `input` is assumed.
- With no tokens, the source looks up the key "undefined". It also sees inherited object keys such as "toString". The model's lookup sees only the registry's own entries.
- `Object.entries` lists integer-like keys first. The model takes the registry in its iteration order as given.
- A registry response without `commands` makes `getAvailableCommands` return null. `GetAvailableCommands` models that case, but `LoadCommands` takes a registry that is present.
- A spec whose `args` field is missing (the `if (nextArgs)` test failing for a found spec): `CommandSpec` always carries its argument list.
- Rendering is left out. That covers the JSX and `classnames`, the rule that signature help shows only when it contains "->", the description line, and the JSON list of available commands. It also covers `preventDefault` and `stopPropagation`, the trailing space after unmarked arguments, and the transcript view.
- `JSON.stringify` of the result is an opaque string parameter.
- Keys other than Enter, Up, Down and Tab change no state, and there is no method for them.

## Findings

| source | as written | input that shows it | evidently intended | confidence | as-written member | corrected member |
|---|---|---|---|---|---|---|
| web/src/js/components/CommandBar.tsx:133-135 | Tab reads `completionCandidate[currentCompletion]` and takes `% completionCandidate.length` with no guard | Tab before the registry arrives, or with a prefix that matches nothing: the input becomes `undefined` and the index NaN, and it stays NaN until the next edit (`Scenarios.TabBeforeRegistry`) | with no candidates Tab does nothing | not executed | Completion.TabAsWritten, Completion.TabOnEmptyList | Completion.Advance |
| web/src/js/components/CommandBar.tsx:119-135 | Up, Down and Enter change the candidate list on the next key release but do not reset `currentCompletion` | Tab once on `["set", "show"]`, Up to "help", key release: the list is `["help"]` with index 1, so Tab writes `undefined` (`Scenarios.TabAfterRecall`) | Tab always selects a candidate; the model takes the index modulo the length, which agrees with the source whenever the index is in range (`Completion.TabAgreesInRange`) | not executed | Completion.TabAsWritten, Completion.TabWithStaleIndex | Completion.Advance |
| web/src/js/components/CommandBar.tsx:126-128 | Down reads `history[currentPos]` before any bound check | on a fresh bar (cursor 0, history `[]`, `Scenarios.DownOnFreshBar`), and after a submission made from the fresh position when the backend appends the command (`Scenarios.DownAfterSubmit`): the cursor equals the history length, so Down writes `undefined` into the input | uncertain. The model shows the newest entry and keeps the cursor, which matches how the source moves the cursor (`History.DownMovesCursorAsWritten`); leaving the input as typed is another plausible reading | not executed | History.DownAsWritten, History.DownAtFreshPositionReadsUndefined | History.RecallNext |
| web/src/js/components/CommandBar.tsx:120-122 | Up reads `history[currentPos - 1]` whenever `currentPos > 0` | a backend history shorter than the cursor, e.g. `["a"]` with cursor 3: the first two Ups write `undefined` and only the third recalls "a" | Up recalls existing entries only, starting from the newest when the cursor is past the end (`History.UpWalksBack` holds for every cursor) | not executed; needs a backend that returns a shorter history | History.UpAsWritten, History.UpPastShortHistoryReadsUndefined | History.RecallPrevious |
