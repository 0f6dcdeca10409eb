/** The argument suggestion of the help popover */
module CommandHelp {

  /** A rendered argument: the one being typed is marked, the others are plain */
  datatype Fragment = Marked(text: string) | Plain(text: string)

  /**
   * The `CommandHelp` loop: one fragment per declared argument (the command
   * name first), and only the fragment at index `currentArg` is marked.
   */
  method ArgumentSuggestion(nextArgs: seq<string>, currentArg: int) returns (results: seq<Fragment>)
    ensures |results| == |nextArgs|
    ensures forall i :: 0 <= i < |results| ==> results[i].text == nextArgs[i]
    ensures forall i :: 0 <= i < |results| ==> (results[i].Marked? <==> i == currentArg)
  {
    results := [];
    for i := 0 to |nextArgs|
      invariant |results| == i
      invariant forall j :: 0 <= j < i ==> results[j].text == nextArgs[j]
      invariant forall j :: 0 <= j < i ==> (results[j].Marked? <==> j == currentArg)
    {
      if i == currentArg {
        results := results + [Marked(nextArgs[i])];
        continue;
      }
      results := results + [Plain(nextArgs[i])];
    }
  }
}
