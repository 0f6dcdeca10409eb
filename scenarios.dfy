/**
 * Event sequences applied to the CommandBar class, with the verifier
 * checking each assertion. Each pins down the behaviour of one interaction,
 * or a reachable state in which the source's handlers read past the end of
 * a list.
 */
module Scenarios {
  import opened Wrappers
  import opened Registry
  import opened Completion
  import opened History
  import opened Transcript
  import opened CommandBar
  import Js

  function SetSpec(): CommandSpec {
    CommandSpec(["option", "value"], Some("set option value"), Some("set an option"))
  }

  /** The first token "set" finds its spec in the one-command registry */
  lemma SetFound(reg: Registry, parts: seq<string>)
    requires reg == [("set", SetSpec())] && parts == ["set", "timeout", "5"]
    ensures SpecFor(reg, parts) == Some(SetSpec())
  {
    LookupFindsEntry(reg, 0);
  }

  /** With "set timeout 5" typed, the help shows the declared arguments and marks the third token */
  method HelpForSet() {
    var bar := new CommandBar();
    bar.LoadCommands([("set", SetSpec())]);
    bar.OnChange("set timeout 5");
    bar.ParseCommand(["set", "timeout", "5"], ["set", "timeout", "5"]);
    SetFound(bar.allCommands, ["set", "timeout", "5"]);
    assert bar.nextArgs == ["set", "option", "value"] && bar.currentArg == 2;
    assert bar.signatureHelp == Some("set option value") && bar.description == Some("set an option");
  }

  /** Three submissions, then Up, Up, Down over the returned history */
  method SubmitThenRecall() {
    var bar := new CommandBar();
    bar.OnChange("a");
    var pending := bar.Enter();
    assert pending.command == "a";
    bar.Respond(pending, ["a"], "1");
    bar.OnChange("b");
    pending := bar.Enter();
    bar.Respond(pending, ["a", "b"], "2");
    bar.OnChange("c");
    pending := bar.Enter();
    bar.Respond(pending, ["a", "b", "c"], "3");
    assert bar.currentPos == 3 && bar.input == "";
    assert [bar.results[0].id, bar.results[1].id, bar.results[2].id] == [0, 1, 2];
    assert [bar.results[0].command, bar.results[1].command, bar.results[2].command] == ["a", "b", "c"];

    bar.Up();
    assert bar.input == "c" && bar.currentPos == 2;
    bar.Up();
    assert bar.input == "b" && bar.currentPos == 1;
    bar.Down();
    assert bar.input == "b" && bar.currentPos == 2;
  }

  /**
   * Two submissions in flight: each response handler rebuilds the transcript
   * from the list it captured at Enter, so the second response drops the
   * first one's entry, and the cursor moves on only once.
   */
  method TwoSubmissionsInFlight() {
    var bar := new CommandBar();
    bar.OnChange("set x y");
    var first := bar.Enter();
    bar.OnChange("help");
    var second := bar.Enter();
    bar.Respond(first, ["set x y"], "1");
    assert bar.results == [TranscriptEntry(0, "set x y", "1")];
    bar.Respond(second, ["set x y", "help"], "2");
    assert bar.results == [TranscriptEntry(0, "help", "2")];
    assert bar.currentPos == 1;
  }

  /**
   * A submission from the fresh position that the backend appends to the
   * history leaves the cursor at the history length, where the source's Down
   * reads `undefined`; the corrected Down shows the newest entry
   */
  method DownAfterSubmit() {
    var bar := new CommandBar();
    bar.OnChange("a");
    var pending := bar.Enter();
    bar.Respond(pending, ["a"], "1");
    assert bar.currentPos == |bar.history|;
    assert DownAsWritten(bar.history, bar.currentPos).0 == Js.Undefined;
    bar.Down();
    assert bar.input == "a" && bar.currentPos == 1;
  }

  /** On a fresh bar (cursor 0, empty history) the source's Down reads `undefined`; the corrected Down does nothing */
  method DownOnFreshBar() {
    var bar := new CommandBar();
    assert DownAsWritten(bar.history, bar.currentPos).0 == Js.Undefined;
    bar.Down();
    assert bar.input == "" && bar.currentPos == 0;
  }

  /** Before the registry arrives the candidate list is empty, where the source's Tab yields `undefined` and NaN */
  method TabBeforeRegistry() {
    var bar := new CommandBar();
    assert TabAsWritten(bar.completionCandidate, bar.currentCompletion) == (Js.Undefined, Js.NaN);
    bar.Tab();
    assert bar.input == "" && bar.currentCompletion == 0;
  }

  function Plain(): CommandSpec {
    CommandSpec([], None, None)
  }

  function ThreeCommands(): Registry {
    [("help", Plain()), ("set", Plain()), ("show", Plain())]
  }

  /** The names of the three-command registry that start with "s", and with "help" */
  lemma FilterThree()
    ensures Names(ThreeCommands()) == ["help", "set", "show"]
    ensures Filter(["help", "set", "show"], "s") == ["set", "show"]
    ensures Filter(["help", "set", "show"], "help") == ["help"]
  {
    assert "help"[..1][0] == 'h';
    assert !StartsWith("help", "s") && StartsWith("set", "s") && StartsWith("show", "s");
    assert StartsWith("help", "help") && !StartsWith("set", "help") && !StartsWith("show", "help");
    assert ["help", "set", "show"][..2] == ["help", "set"];
    assert ["help", "set"][..1] == ["help"];
    assert Filter(["help"], "s") == Filter([], "s");
    assert Filter(["help"], "help") == Filter([], "help") + ["help"];
  }

  /** The candidates for the anchor "s" over the three-command registry */
  lemma CandidatesForS(reg: Registry, parts: seq<string>)
    requires reg == ThreeCommands() && parts == ["s"]
    ensures Filter(Names(reg), FirstToken(parts)) == ["set", "show"]
  {
    FilterThree();
  }

  /** The candidates for the anchor "help" over the three-command registry */
  lemma CandidatesForHelp(reg: Registry, parts: seq<string>)
    requires reg == ThreeCommands() && parts == ["help"]
    ensures Filter(Names(reg), FirstToken(parts)) == ["help"]
  {
    FilterThree();
  }

  /** Submitting "help" once the registry has arrived */
  method SubmitHelp() returns (bar: CommandBar)
    ensures fresh(bar) && bar.Valid()
    ensures bar.allCommands == ThreeCommands() && bar.history == ["help"] && bar.currentPos == 1
  {
    bar := new CommandBar();
    bar.LoadCommands(ThreeCommands());
    bar.OnChange("help");
    var pending := bar.Enter();
    bar.Respond(pending, ["help"], "ok");
  }

  /** Then typing "s" narrows the candidates to the two names that start with it */
  method TypeS() returns (bar: CommandBar)
    ensures fresh(bar) && bar.Valid()
    ensures bar.allCommands == ThreeCommands() && bar.history == ["help"] && bar.currentPos == 1
    ensures bar.completionCandidate == ["set", "show"] && bar.currentCompletion == 0 && bar.originalInput == "s"
  {
    bar := SubmitHelp();
    bar.OnChange("s");
    bar.ParseCommand(["s"], ["s"]);
    CandidatesForS(bar.allCommands, ["s"]);
  }

  /** Tab then completes the input to "set", keeps the anchor and leaves the index at 1 */
  method TabOnceAfterHelp() returns (bar: CommandBar)
    ensures fresh(bar) && bar.Valid()
    ensures bar.allCommands == ThreeCommands() && bar.history == ["help"] && bar.currentPos == 1
    ensures bar.completionCandidate == ["set", "show"] && bar.currentCompletion == 1
  {
    bar := TypeS();
    bar.Tab();
    assert bar.input == "set" && bar.originalInput == "s";
  }

  /**
   * Up then recalls "help", whose key release narrows the list to one name
   * without resetting the index.
   */
  method RecallHelp() returns (bar: CommandBar)
    ensures fresh(bar) && bar.Valid()
    ensures bar.input == "help" && bar.originalInput == "help"
    ensures bar.completionCandidate == ["help"] && bar.currentCompletion == 1
  {
    bar := TabOnceAfterHelp();
    bar.Up();
    bar.ParseCommand(["help"], ["help"]);
    CandidatesForHelp(bar.allCommands, ["help"]);
  }

  /** So the source's next Tab reads past the end of the one-name list; the model wraps to it */
  method TabAfterRecall() {
    var bar := RecallHelp();
    assert TabAsWritten(bar.completionCandidate, bar.currentCompletion) == (Js.Undefined, Js.Finite(0));
    bar.Tab();
    assert bar.input == "help" && bar.currentCompletion == 0;
  }
}
