/**
 * History recall with the Up and Down keys: a cursor over the list of
 * previously submitted command lines that the backend returns.
 */
module History {
  import opened Wrappers
  import Js

  /** The cursor brought back within the history: a cursor past the end counts as the fresh position */
  function Clamp(history: seq<string>, pos: nat): nat {
    if pos <= |history| then pos else |history|
  }

  /**
   * Up: with the cursor past the oldest entry, show the entry before it and
   * move the cursor there; at the oldest entry, or with an empty history,
   * nothing changes. A cursor lying past the end of a shorter history, where
   * the source would read `undefined`, is first brought back to the history's
   * length, so Up recalls the newest entry.
   */
  function RecallPrevious(history: seq<string>, pos: nat): (r: Option<(string, nat)>)
    ensures r.Some? <==> 0 < pos && history != []
    ensures r.Some? ==> r.value.1 < |history| && r.value.0 == history[r.value.1]
    ensures r.Some? && pos <= |history| ==> r.value.1 + 1 == pos
    ensures r.Some? && pos > |history| ==> r.value.1 + 1 == |history|
  {
    var p := Clamp(history, pos);
    if 0 < p then Some((history[p - 1], p - 1)) else None
  }

  /**
   * Down: show the entry AT the cursor, read before the bound check, and move
   * the cursor forward only while it is before the newest entry. At or past
   * the end of the history, where the source reads `undefined`, the newest
   * entry is shown instead and the cursor stays; with an empty history
   * nothing changes.
   */
  function RecallNext(history: seq<string>, pos: nat): (r: Option<(string, nat)>)
    ensures r.Some? <==> history != []
    ensures r.Some? && pos < |history| ==> r.value.0 == history[pos]
    ensures r.Some? && pos >= |history| ==> r.value.0 == history[|history| - 1]
    ensures r.Some? ==> r.value.1 == (if pos + 1 < |history| then pos + 1 else pos)
  {
    if history == [] then None
    else
      var shown := if pos < |history| then history[pos] else history[|history| - 1];
      Some((shown, if pos < |history| - 1 then pos + 1 else pos))
  }

  /** A cursor within [0, |history|] stays there under Up and Down */
  lemma RecallKeepsCursorInRange(history: seq<string>, pos: nat)
    requires pos <= |history|
    ensures RecallPrevious(history, pos).Some? ==> RecallPrevious(history, pos).value.1 <= |history|
    ensures RecallNext(history, pos).Some? ==> RecallNext(history, pos).value.1 <= |history|
  {
  }

  /** Down right after Up shows the same entry again, because Down reads before it advances */
  lemma DownAfterUpReshows(history: seq<string>, pos: nat)
    requires RecallPrevious(history, pos).Some?
    ensures var (shown, back) := RecallPrevious(history, pos).value;
            RecallNext(history, back).Some? && RecallNext(history, back).value.0 == shown
  {
  }

  /** At the newest entry Down shows it again and the cursor stays */
  lemma DownAtNewestRepeats(history: seq<string>)
    requires history != []
    ensures RecallNext(history, |history| - 1) == Some((history[|history| - 1], |history| - 1))
  {
  }

  /** The entries shown by `k` successive Up presses from cursor `pos` */
  function UpPresses(history: seq<string>, pos: nat, k: nat): seq<string>
    decreases k
  {
    match RecallPrevious(history, pos)
    case None => []
    case Some((shown, back)) => if k == 0 then [] else [shown] + UpPresses(history, back, k - 1)
  }

  /** The entries shown by `k` successive Down presses from cursor `pos` */
  function DownPresses(history: seq<string>, pos: nat, k: nat): seq<string>
    decreases k
  {
    match RecallNext(history, pos)
    case None => []
    case Some((shown, next)) => if k == 0 then [] else [shown] + DownPresses(history, next, k - 1)
  }

  function Reversed(s: seq<string>): (r: seq<string>)
    ensures |r| == |s|
    ensures forall i :: 0 <= i < |s| ==> r[i] == s[|s| - 1 - i]
  {
    if s == [] then [] else [s[|s| - 1]] + Reversed(s[..|s| - 1])
  }

  /**
   * Up pressed from a cursor walks the history newest-first down to the
   * oldest entry, then stops; from a cursor past the end it starts at the
   * newest entry.
   */
  lemma {:induction false} UpWalksBack(history: seq<string>, pos: nat, k: nat)
    ensures var c := Clamp(history, pos);
            UpPresses(history, pos, k) == Reversed(history[..c])[..if k < c then k else c]
    decreases k
  {
    var c := Clamp(history, pos);
    if c > 0 && k > 0 {
      UpWalksBack(history, c - 1, k - 1);
      assert history[..c][..c - 1] == history[..c - 1];
    }
  }

  /** From the fresh position, |history| Up presses show the whole history newest-first */
  lemma UpShowsAllNewestFirst(history: seq<string>)
    ensures UpPresses(history, |history|, |history|) == Reversed(history)
  {
    UpWalksBack(history, |history|, |history|);
    assert history[..|history|] == history;
  }

  /** Down pressed from any cursor walks forward and then keeps showing the newest entry */
  lemma {:induction false} DownWalksForward(history: seq<string>, pos: nat, k: nat, m: nat)
    requires history != [] && m < k
    ensures |DownPresses(history, pos, k)| == k
    ensures DownPresses(history, pos, k)[m]
         == history[if pos + m < |history| then pos + m else |history| - 1]
    decreases k
  {
    var next := if pos + 1 < |history| then pos + 1 else pos;
    if m > 0 {
      DownWalksForward(history, next, k - 1, m - 1);
    } else if k > 1 {
      DownWalksForward(history, next, k - 1, 0);
    }
  }

  /** Up as the source writes it: `history[currentPos - 1]` whenever `currentPos > 0`; None when no state is set */
  function UpAsWritten(history: seq<string>, pos: nat): (r: Option<(Js.Value<string>, nat)>)
    ensures r.Some? <==> pos > 0
    ensures r.Some? ==> (r.value.0.Undefined? <==> pos > |history|)
  {
    if pos > 0 then Some((Js.At(history, pos - 1), pos - 1)) else None
  }

  /** Down as the source writes it: `history[currentPos]`, then the bound check */
  function DownAsWritten(history: seq<string>, pos: nat): (r: (Js.Value<string>, nat))
    ensures r.0.Undefined? <==> pos >= |history|
    ensures r.1 <= pos + 1
  {
    (Js.At(history, pos), if pos < |history| - 1 then pos + 1 else pos)
  }

  /** Within the history the corrected Up does exactly what the source does */
  lemma UpAgreesInRange(history: seq<string>, pos: nat)
    requires 0 < pos <= |history|
    ensures UpAsWritten(history, pos)
         == Some((Js.Defined(RecallPrevious(history, pos).value.0), RecallPrevious(history, pos).value.1))
  {
  }

  /** Within the history the corrected Down does exactly what the source does */
  lemma DownAgreesInRange(history: seq<string>, pos: nat)
    requires pos < |history|
    ensures DownAsWritten(history, pos)
         == (Js.Defined(RecallNext(history, pos).value.0), RecallNext(history, pos).value.1)
  {
  }

  /**
   * Whatever it shows, the corrected Down moves the cursor exactly as the
   * source does; with an empty history neither has an entry to show
   */
  lemma DownMovesCursorAsWritten(history: seq<string>, pos: nat)
    ensures RecallNext(history, pos).Some? ==> RecallNext(history, pos).value.1 == DownAsWritten(history, pos).1
    ensures RecallNext(history, pos).None? ==> DownAsWritten(history, pos).0 == Js.Undefined
  {
  }

  /**
   * At the fresh cursor (the history length) the source's Down reads
   * `undefined`; the corrected Down shows the newest entry and keeps the cursor
   */
  lemma DownAtFreshPositionReadsUndefined(history: seq<string>)
    requires history != []
    ensures DownAsWritten(history, |history|) == (Js.Undefined, |history|)
    ensures RecallNext(history, |history|) == Some((history[|history| - 1], |history|))
  {
  }

  /**
   * A backend history shorter than the cursor: from cursor 3 over `["a"]` the
   * source's Up reads `undefined` twice before it recalls "a", while the
   * corrected Up recalls "a" at once
   */
  lemma UpPastShortHistoryReadsUndefined()
    ensures UpAsWritten(["a"], 3) == Some((Js.Undefined, 2))
    ensures UpAsWritten(["a"], 2) == Some((Js.Undefined, 1))
    ensures UpAsWritten(["a"], 1) == Some((Js.Defined("a"), 0))
    ensures UpPresses(["a"], 3, 2) == ["a"]
  {
    UpWalksBack(["a"], 3, 2);
  }

  /** The recall scenario: history a, b, c from the fresh cursor 3: Up, Up, Down */
  lemma RecallScenario()
    ensures RecallPrevious(["a", "b", "c"], 3) == Some(("c", 2))
    ensures RecallPrevious(["a", "b", "c"], 2) == Some(("b", 1))
    ensures RecallNext(["a", "b", "c"], 1) == Some(("b", 2))
  {
  }
}
