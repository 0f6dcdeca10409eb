/**
 * The completion engine of the command bar: the prefix filter
 * `getAvailableCommands` and the Tab key's cycling through the captured
 * candidate list.
 */
module Completion {
  import opened Wrappers
  import opened Registry
  import Js

  /** `s.startsWith(prefix)` */
  predicate StartsWith(s: string, prefix: string) {
    |prefix| <= |s| && s[..|prefix|] == prefix
  }

  /** The names that start with `prefix`, in their original order: the specification of the filter loop */
  function Filter(names: seq<string>, prefix: string): seq<string> {
    if names == [] then []
    else
      var last := names[|names| - 1];
      Filter(names[..|names| - 1], prefix) + (if StartsWith(last, prefix) then [last] else [])
  }

  /** `r` is `s` with some elements dropped, the rest kept in order */
  predicate IsSubsequence(r: seq<string>, s: seq<string>)
    decreases |s|
  {
    if s == [] then r == []
    else
      IsSubsequence(r, s[..|s| - 1])
      || (r != [] && r[|r| - 1] == s[|s| - 1] && IsSubsequence(r[..|r| - 1], s[..|s| - 1]))
  }

  /**
   * `getAvailableCommands(commands, input)`: absent when there is no registry,
   * otherwise the registry's names that start with `prefix`, pushed in iteration order.
   */
  method GetAvailableCommands(commands: Option<Registry>, prefix: string) returns (r: Option<seq<string>>)
    ensures r.None? <==> commands.None?
    ensures r.Some? ==> r.value == Filter(Names(commands.value), prefix)
  {
    if commands.None? {
      return None;
    }
    var reg := commands.value;
    var availableCommands: seq<string> := [];
    for i := 0 to |reg|
      invariant availableCommands == Filter(Names(reg)[..i], prefix)
    {
      assert Names(reg)[..i + 1][..i] == Names(reg)[..i];
      if StartsWith(reg[i].0, prefix) {
        availableCommands := availableCommands + [reg[i].0];
      }
    }
    assert Names(reg)[..|reg|] == Names(reg);
    return Some(availableCommands);
  }

  /** Every filtered name starts with the prefix, and every name with the prefix is kept */
  lemma {:induction false} FilterMembership(names: seq<string>, prefix: string, x: string)
    ensures x in Filter(names, prefix) <==> x in names && StartsWith(x, prefix)
  {
    if names != [] {
      var init := names[..|names| - 1];
      FilterMembership(init, prefix, x);
      assert names == init + [names[|names| - 1]];
    }
  }

  /** The filter keeps names in registry order */
  lemma {:induction false} FilterIsSubsequence(names: seq<string>, prefix: string)
    ensures IsSubsequence(Filter(names, prefix), names)
  {
    if names != [] {
      var init := names[..|names| - 1];
      var last := names[|names| - 1];
      FilterIsSubsequence(init, prefix);
      var r := Filter(names, prefix);
      if StartsWith(last, prefix) {
        assert r == Filter(init, prefix) + [last];
        assert r[..|r| - 1] == Filter(init, prefix);
        assert r[|r| - 1] == names[|names| - 1];
        assert names[..|names| - 1] == init;
      } else {
        assert r == Filter(init, prefix);
        assert names[..|names| - 1] == init;
      }
    }
  }

  /** The empty prefix (the default argument) keeps every name */
  lemma {:induction false} FilterEmptyPrefix(names: seq<string>)
    ensures Filter(names, "") == names
  {
    if names != [] {
      var init := names[..|names| - 1];
      FilterEmptyPrefix(init);
      assert StartsWith(names[|names| - 1], "");
      assert names == init + [names[|names| - 1]];
    }
  }

  /** Every element of a subsequence is an element of the list */
  lemma {:induction false} SubsequenceMembers(r: seq<string>, s: seq<string>)
    requires IsSubsequence(r, s)
    ensures forall x :: x in r ==> x in s
  {
    if s != [] {
      var init := s[..|s| - 1];
      assert s == init + [s[|s| - 1]];
      if IsSubsequence(r, init) {
        SubsequenceMembers(r, init);
      } else {
        SubsequenceMembers(r[..|r| - 1], init);
        assert r == r[..|r| - 1] + [r[|r| - 1]];
      }
    }
  }

  /** A subsequence of a list without duplicates has no duplicates */
  lemma {:induction false} SubsequenceDistinct(r: seq<string>, s: seq<string>)
    requires IsSubsequence(r, s) && Distinct(s)
    ensures Distinct(r)
  {
    if s != [] {
      var init := s[..|s| - 1];
      if IsSubsequence(r, init) {
        SubsequenceDistinct(r, init);
      } else {
        var front := r[..|r| - 1];
        SubsequenceDistinct(front, init);
        SubsequenceMembers(front, init);
        assert s[|s| - 1] !in init;
        forall i, j | 0 <= i < j < |r| ensures r[i] != r[j] {
          if j == |r| - 1 {
            assert r[i] == front[i] && front[i] in init;
          } else {
            assert r[i] == front[i] && r[j] == front[j];
          }
        }
      }
    }
  }

  /** The filter of a duplicate-free list of names has no duplicates */
  lemma FilterDistinct(names: seq<string>, prefix: string)
    requires Distinct(names)
    ensures Distinct(Filter(names, prefix))
  {
    FilterIsSubsequence(names, prefix);
    SubsequenceDistinct(Filter(names, prefix), names);
  }

  // ---- Tab cycling ----

  /**
   * One Tab press on the captured candidate list: the name to put in the
   * input and the next completion index; no candidate when the list is empty.
   * The index is taken modulo the length, so a stale index left over from a
   * longer list still selects a candidate.
   */
  function Advance(candidates: seq<string>, current: nat): (r: Option<(string, nat)>)
    ensures r.None? <==> candidates == []
    ensures r.Some? ==> r.value.0 in candidates && r.value.1 < |candidates|
    ensures r.Some? && current < |candidates| ==> r.value.0 == candidates[current]
  {
    if candidates == [] then None
    else Some((candidates[Wrap(current, |candidates|)], Wrap(current + 1, |candidates|)))
  }

  /** `a % n` for a positive length n: always a valid index, and `a` itself when `a` already is one */
  function Wrap(a: nat, n: nat): (r: nat)
    requires n > 0
    ensures r < n
    ensures a < n ==> r == a
    ensures a == n ==> r == 0
  {
    ModBelow(if a < n then a else 0, n);
    ModSelf(n);
    a % n
  }

  /** The names shown by `k` successive Tab presses starting at index `current` */
  function Presses(candidates: seq<string>, current: nat, k: nat): seq<string>
    decreases k
  {
    match Advance(candidates, current)
    case None => []
    case Some((name, next)) => if k == 0 then [] else [name] + Presses(candidates, next, k - 1)
  }

  /**
   * From a valid index, pressing until the end of the list shows the rest of
   * the list in order, and the presses after that start over from the first
   * candidate.
   */
  lemma {:induction false} PressesFrom(candidates: seq<string>, current: nat, k: nat)
    requires current < |candidates|
    ensures Presses(candidates, current, |candidates| - current + k)
         == candidates[current..] + Presses(candidates, 0, k)
    decreases |candidates| - current
  {
    var n := |candidates|;
    var steps := n - current + k;
    PressOnce(candidates, current, steps);
    if current + 1 < n {
      PressesFrom(candidates, current + 1, k);
      assert candidates[current..] == [candidates[current]] + candidates[current + 1..];
    } else {
      assert candidates[current..] == [candidates[current]];
    }
  }

  /** One press from a valid index shows the candidate there and moves to the next index */
  lemma PressOnce(candidates: seq<string>, current: nat, steps: nat)
    requires current < |candidates| && steps > 0
    ensures Presses(candidates, current, steps)
         == [candidates[current]] + Presses(candidates, Wrap(current + 1, |candidates|), steps - 1)
  {
  }

  lemma ModSelf(n: nat)
    requires n > 0
    ensures n % n == 0
  {
  }

  lemma ModBelow(a: nat, n: nat)
    requires a < n
    ensures a % n == a
  {
  }

  /** Starting from 0, as many presses as candidates show every candidate once, in list order */
  lemma {:induction false} PressesVisitEach(candidates: seq<string>)
    ensures Presses(candidates, 0, |candidates|) == candidates
  {
    if candidates != [] {
      PressesFrom(candidates, 0, 0);
      assert Presses(candidates, 0, 0) == [];
      assert candidates[0..] == candidates;
    }
  }

  /** After a full round the presses repeat the same candidates */
  lemma {:induction false} PressesRepeat(candidates: seq<string>, k: nat)
    ensures Presses(candidates, 0, |candidates| + k) == candidates + Presses(candidates, 0, k)
  {
    if candidates != [] {
      PressesFrom(candidates, 0, k);
      assert candidates[0..] == candidates;
    }
  }

  /**
   * Tab as the source writes it: `input = completionCandidate[currentCompletion]`
   * and `currentCompletion = (currentCompletion + 1) % completionCandidate.length`.
   */
  function TabAsWritten(candidates: seq<string>, current: nat): (r: (Js.Value<string>, Js.Number))
    ensures r.0.Undefined? <==> current >= |candidates|
    ensures r.1.NaN? <==> candidates == []
  {
    (Js.At(candidates, current), Js.SuccMod(current, |candidates|))
  }

  /** Where the source reads a candidate, the corrected Advance does exactly what it does */
  lemma TabAgreesInRange(candidates: seq<string>, current: nat)
    requires current < |candidates|
    ensures Advance(candidates, current).Some?
    ensures TabAsWritten(candidates, current)
         == (Js.Defined(Advance(candidates, current).value.0), Js.Finite(Advance(candidates, current).value.1))
  {
  }

  /** With no candidate the source writes `undefined` into the input and NaN into the index */
  lemma TabOnEmptyList()
    ensures TabAsWritten([], 0) == (Js.Undefined, Js.NaN)
  {
  }

  /** A stale index past a shorter list writes `undefined` into the input */
  lemma TabWithStaleIndex()
    ensures TabAsWritten(["help"], 2) == (Js.Undefined, Js.Finite(0))
    ensures Advance(["help"], 2) == Some(("help", 0))
  {
  }
}
