/** The transcript of executed commands shown above the input field */
module Transcript {

  /** One executed command: its id, the command line and the serialised result */
  datatype TranscriptEntry = TranscriptEntry(id: nat, command: string, result: string)

  /** Every entry's id is its position: ids are strictly increasing and follow insertion order */
  predicate SequentialIds(results: seq<TranscriptEntry>) {
    forall i :: 0 <= i < |results| ==> results[i].id == i
  }

  /**
   * The response handler's `[...results, {id: results.length, command, result}]`:
   * exactly one entry is appended and the earlier entries are kept.
   */
  function Append(results: seq<TranscriptEntry>, command: string, result: string): (r: seq<TranscriptEntry>)
    ensures |r| == |results| + 1 && r[..|results|] == results
    ensures r[|results|].id == |results|
    ensures r[|results|].command == command && r[|results|].result == result
    ensures SequentialIds(results) ==> SequentialIds(r)
  {
    results + [TranscriptEntry(|results|, command, result)]
  }

  /** Appending n commands in turn yields ids 0 .. n-1 in submission order */
  lemma {:induction false} AppendAll(results: seq<TranscriptEntry>, commands: seq<string>, outputs: seq<string>)
    requires SequentialIds(results) && |commands| == |outputs|
    ensures var r := AppendEach(results, commands, outputs);
            |r| == |results| + |commands| && SequentialIds(r) && r[..|results|] == results
            && forall j :: 0 <= j < |commands| ==> r[|results| + j].command == commands[j]
    decreases |commands|
  {
    if commands != [] {
      var next := Append(results, commands[0], outputs[0]);
      AppendAll(next, commands[1..], outputs[1..]);
      var r := AppendEach(results, commands, outputs);
      assert r == AppendEach(next, commands[1..], outputs[1..]);
      assert r[..|results|] == r[..|next|][..|results|];
      forall j | 0 <= j < |commands| ensures r[|results| + j].command == commands[j] {
        if j > 0 {
          assert r[|next| + (j - 1)].command == commands[1..][j - 1];
        } else {
          assert r[..|next|] == next;
        }
      }
    }
  }

  /** The transcript after a run of responses, applied one after another */
  function AppendEach(results: seq<TranscriptEntry>, commands: seq<string>, outputs: seq<string>): seq<TranscriptEntry>
    requires |commands| == |outputs|
    decreases |commands|
  {
    if commands == [] then results
    else AppendEach(Append(results, commands[0], outputs[0]), commands[1..], outputs[1..])
  }
}
