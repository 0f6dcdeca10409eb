/**
 * The command registry fetched from the backend (`GET /commands`): a JavaScript
 * object from command name to its spec, modelled as the ordered list of its
 * entries in `Object.entries` order.
 */
module Registry {
  import opened Wrappers

  /** One command's spec: declared argument names, signature help and description */
  datatype CommandSpec = CommandSpec(
    args: seq<string>,
    signatureHelp: Option<string>,
    description: Option<string>)

  /** Entries of the registry object, in iteration order */
  type Registry = seq<(string, CommandSpec)>

  predicate Distinct(s: seq<string>) {
    forall i, j :: 0 <= i < j < |s| ==> s[i] != s[j]
  }

  /** The command names, in iteration order */
  function Names(reg: Registry): (r: seq<string>)
    ensures |r| == |reg|
    ensures forall i :: 0 <= i < |reg| ==> r[i] == reg[i].0
  {
    seq(|reg|, i requires 0 <= i < |reg| => reg[i].0)
  }

  /** The keys of an object are distinct */
  predicate WellFormed(reg: Registry) {
    Distinct(Names(reg))
  }

  /** `allCommands[name]`: the spec stored under `name`, if any */
  function Lookup(reg: Registry, name: string): (r: Option<CommandSpec>)
    ensures r.Some? <==> name in Names(reg)
  {
    if reg == [] then None
    else if reg[0].0 == name then Some(reg[0].1)
    else
      assert Names(reg) == [reg[0].0] + Names(reg[1..]);
      Lookup(reg[1..], name)
  }

  /** In a well-formed registry every entry is found under its own name */
  lemma {:induction false} LookupFindsEntry(reg: Registry, i: nat)
    requires WellFormed(reg) && i < |reg|
    ensures Lookup(reg, reg[i].0) == Some(reg[i].1)
  {
    if i > 0 {
      assert Names(reg)[0] != Names(reg)[i];
      assert Names(reg[1..]) == Names(reg)[1..];
      LookupFindsEntry(reg[1..], i - 1);
    }
  }
}
