/**
 * The `CommandBar` component as a state machine: its state fields and one
 * method per event (registry response, key release, edit, Enter with its
 * response, Up, Down, Tab). Tokenisation is not part of this model: the key
 * release takes the token lists of the live input and of the anchor text.
 */
module CommandBar {
  import opened Wrappers
  import opened Registry
  import opened Completion
  import opened History
  import opened Transcript

  /** What the response handler's closure captured when Enter was pressed */
  datatype Submission = Submission(command: string, results: seq<TranscriptEntry>, currentPos: nat)

  /** The prefix `getAvailableCommands` filters by: the first token, or the default "" when there is none */
  function FirstToken(parts: seq<string>): string {
    if parts == [] then "" else parts[0]
  }

  /** `allCommands[parts[0]]` */
  function SpecFor(reg: Registry, parts: seq<string>): (r: Option<CommandSpec>)
    ensures r.Some? <==> parts != [] && parts[0] in Names(reg)
    ensures r.Some? ==> r == Lookup(reg, parts[0])
  {
    if parts == [] then None else Lookup(reg, parts[0])
  }

  class CommandBar {
    var input: string
    var originalInput: string
    var currentCompletion: nat
    var completionCandidate: seq<string>
    var availableCommands: seq<string>
    var allCommands: Registry
    var nextArgs: seq<string>
    var currentArg: int
    var signatureHelp: Option<string>
    var description: Option<string>
    var results: seq<TranscriptEntry>
    var history: seq<string>
    var currentPos: nat

    /**
     * The registry has distinct names, neither candidate list repeats a
     * name, and every transcript id is its position.
     */
    ghost predicate Valid()
      reads this
    {
      && WellFormed(allCommands)
      && Distinct(completionCandidate)
      && Distinct(availableCommands)
      && SequentialIds(results)
    }

    /** The initial `useState` values */
    constructor ()
      ensures Valid()
      ensures input == "" && originalInput == "" && currentCompletion == 0
      ensures completionCandidate == [] && availableCommands == [] && allCommands == []
      ensures nextArgs == [] && currentArg == 0 && signatureHelp == Some("") && description == Some("")
      ensures results == [] && history == [] && currentPos == 0
    {
      input, originalInput := "", "";
      currentCompletion := 0;
      completionCandidate, availableCommands := [], [];
      allCommands := [];
      nextArgs, currentArg := [], 0;
      signatureHelp, description := Some(""), Some("");
      results, history, currentPos := [], [], 0;
    }

    /** The response to `GET /commands`: store the registry and list every command */
    method LoadCommands(commands: Registry)
      requires Valid() && WellFormed(commands)
      modifies this`allCommands, this`completionCandidate, this`availableCommands
      ensures Valid()
      ensures allCommands == commands
      ensures completionCandidate == Names(commands) && availableCommands == Names(commands)
    {
      var all := GetAvailableCommands(Some(commands), "");
      FilterEmptyPrefix(Names(commands));
      allCommands, completionCandidate, availableCommands := commands, all.value, all.value;
    }

    /**
     * Key release (`parseCommand(originalInput, input)`): help text from the
     * spec of the first token; candidates filtered by the anchor's first
     * token; displayed commands filtered by the live first token; and, for a
     * known command, the declared arguments with the index of the token
     * being typed. An unknown command clears the help text and keeps the
     * previous arguments.
     */
    method ParseCommand(parts: seq<string>, originalParts: seq<string>)
      requires Valid()
      modifies this`signatureHelp, this`description, this`completionCandidate, this`availableCommands
      modifies this`nextArgs, this`currentArg
      ensures Valid()
      ensures var spec := SpecFor(allCommands, parts);
              && signatureHelp == (if spec.Some? then spec.value.signatureHelp else None)
              && description == (if spec.Some? then spec.value.description else None)
              && nextArgs == (if spec.Some? then [parts[0]] + spec.value.args else old(nextArgs))
              && currentArg == (if spec.Some? then |parts| - 1 else old(currentArg))
      ensures completionCandidate == Filter(Names(allCommands), FirstToken(originalParts))
      ensures availableCommands == Filter(Names(allCommands), FirstToken(parts))
    {
      var reg := allCommands;
      var spec := SpecFor(reg, parts);
      var candidates := GetAvailableCommands(Some(reg), FirstToken(originalParts));
      var available := GetAvailableCommands(Some(reg), FirstToken(parts));
      FilterDistinct(Names(reg), FirstToken(originalParts));
      FilterDistinct(Names(reg), FirstToken(parts));

      completionCandidate, availableCommands := candidates.value, available.value;
      if spec.Some? {
        signatureHelp, description := spec.value.signatureHelp, spec.value.description;
        nextArgs, currentArg := [parts[0]] + spec.value.args, |parts| - 1;
      } else {
        signatureHelp, description := None, None;
      }
    }

    /** An edit: the live input and the anchor become the new text and cycling restarts */
    method OnChange(text: string)
      requires Valid()
      modifies this`input, this`originalInput, this`currentCompletion
      ensures Valid()
      ensures input == text && originalInput == text && currentCompletion == 0
    {
      input, originalInput, currentCompletion := text, text, 0;
    }

    /**
     * Enter: the request carries the input; the response handler captures
     * the input, the transcript and the cursor as they are now; the input,
     * the anchor and the help text are cleared and the candidates reset to
     * the displayed list.
     */
    method Enter() returns (pending: Submission)
      requires Valid()
      modifies this`signatureHelp, this`description, this`input, this`originalInput, this`completionCandidate
      ensures Valid()
      ensures pending == Submission(old(input), results, currentPos)
      ensures SequentialIds(pending.results)
      ensures signatureHelp == Some("") && description == Some("")
      ensures input == "" && originalInput == ""
      ensures completionCandidate == availableCommands
    {
      pending := Submission(input, results, currentPos);
      signatureHelp, description := Some(""), Some("");
      input, originalInput := "", "";
      completionCandidate := availableCommands;
    }

    /**
     * The response to `POST /commands`: the history becomes the backend's
     * list, the cursor is the captured one moved one on, the arguments are
     * cleared, and the transcript is the captured one with one entry appended.
     */
    method Respond(pending: Submission, responseHistory: seq<string>, responseResult: string)
      requires Valid() && SequentialIds(pending.results)
      modifies this`history, this`currentPos, this`nextArgs, this`results
      ensures Valid()
      ensures history == responseHistory && currentPos == pending.currentPos + 1 && nextArgs == []
      ensures results == Append(pending.results, pending.command, responseResult)
    {
      history, currentPos, nextArgs := responseHistory, pending.currentPos + 1, [];
      results := Append(pending.results, pending.command, responseResult);
    }

    /**
     * Up: recall the previous history entry into the input and the anchor,
     * counting a cursor past the end of the history as the fresh position
     */
    method Up()
      requires Valid()
      modifies this`input, this`originalInput, this`currentPos
      ensures Valid()
      ensures var r := RecallPrevious(history, old(currentPos));
              if r.None? then input == old(input) && originalInput == old(originalInput) && currentPos == old(currentPos)
              else input == r.value.0 && originalInput == r.value.0 && currentPos == r.value.1
    {
      var pos := Clamp(history, currentPos);
      if 0 < pos {
        input := history[pos - 1];
        originalInput := history[pos - 1];
        currentPos := pos - 1;
      }
    }

    /**
     * Down: show the entry at the cursor, or the newest entry when the cursor
     * is at or past the end, then advance the cursor if it is before the
     * newest entry
     */
    method Down()
      requires Valid()
      modifies this`input, this`originalInput, this`currentPos
      ensures Valid()
      ensures var r := RecallNext(history, old(currentPos));
              if r.None? then input == old(input) && originalInput == old(originalInput) && currentPos == old(currentPos)
              else input == r.value.0 && originalInput == r.value.0 && currentPos == r.value.1
    {
      if history != [] {
        var shown := if currentPos < |history| then history[currentPos] else history[|history| - 1];
        input := shown;
        originalInput := shown;
        if currentPos < |history| - 1 {
          currentPos := currentPos + 1;
        }
      }
    }

    /**
     * Tab: put the current candidate into the input (the anchor is kept, so
     * the next key release recomputes the same candidates) and move to the
     * next candidate, wrapping around; nothing happens without candidates.
     */
    method Tab()
      requires Valid()
      modifies this`input, this`currentCompletion
      ensures Valid()
      ensures var r := Advance(completionCandidate, old(currentCompletion));
              if r.None? then input == old(input) && currentCompletion == old(currentCompletion)
              else input == r.value.0 && currentCompletion == r.value.1
    {
      if |completionCandidate| > 0 {
        var n := |completionCandidate|;
        input := completionCandidate[Wrap(currentCompletion, n)];
        currentCompletion := Wrap(currentCompletion + 1, n);
      }
    }
  }
}
