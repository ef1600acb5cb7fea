/**
 The single-pass rewriter: a fold over the input lines whose only state is the
 `insertPending` flag. Every input line is written unchanged and in order; the
 first `G0` line with X and Y after a tool change is followed by the trimmed
 insert commands.

 The pass is stated for any line classifier `kindOf`; the program runs it with
 `Classify`. Everything proved here therefore holds of the program, and the
 proofs never need to look inside the string matching.
 */
module Rewriter {
  import opened Text
  import opened GCode

  /** The state of one pass: the pending flag and everything written so far. */
  datatype Machine = Machine(insertPending: bool, written: seq<string>)

  const Start: Machine := Machine(false, [])

  /** Each insert command trimmed, in order. */
  function TrimAll(codes: seq<string>): (r: seq<string>)
    ensures |r| == |codes|
    ensures forall i :: 0 <= i < |codes| ==> r[i] == Trim(codes[i])
  {
    if |codes| == 0 then [] else TrimAll(codes[..|codes| - 1]) + [Trim(codes[|codes| - 1])]
  }

  /** One iteration of the read loop, on a line of the given kind. */
  function Step(m: Machine, line: string, kind: LineKind, block: seq<string>): Machine
  {
    match kind
    case ToolChange => Machine(true, m.written + [line])
    case G0Xy =>
      if m.insertPending then Machine(false, m.written + [line] + block)
      else Machine(m.insertPending, m.written + [line])
    case Other => Machine(m.insertPending, m.written + [line])
  }

  /** Whether a line of the given kind, read with the given flag, is followed by the block. */
  predicate Fires(insertPending: bool, kind: LineKind) {
    insertPending && kind == G0Xy
  }

  /** What one iteration does: the line is written first and unchanged; a tool
      change sets the flag and writes nothing else; the block follows the line
      exactly when the flag was set and the line is a `G0` line with X and Y, and
      that clears the flag; any other line leaves the flag alone. */
  lemma StepSpec(m: Machine, line: string, kind: LineKind, block: seq<string>)
    ensures var r := Step(m, line, kind, block);
      && |r.written| > |m.written| && r.written[..|m.written| + 1] == m.written + [line]
      && (kind == ToolChange ==> r.insertPending && r.written == m.written + [line])
      && (Fires(m.insertPending, kind) ==> !r.insertPending && r.written[|m.written| + 1..] == block)
      && (!Fires(m.insertPending, kind) ==> r.written == m.written + [line])
      && (kind != ToolChange && !Fires(m.insertPending, kind) ==> r.insertPending == m.insertPending)
  {
    var r := Step(m, line, kind, block);
    if Fires(m.insertPending, kind) {
      assert r.written == m.written + [line] + block;
    }
  }

  /** The state after reading all of `lines` from the start state. */
  function Run(kindOf: string -> LineKind, lines: seq<string>, block: seq<string>): Machine
  {
    if |lines| == 0 then Start
    else
      var line := lines[|lines| - 1];
      Step(Run(kindOf, lines[..|lines| - 1], block), line, kindOf(line), block)
  }

  // ---------------------------------------------------------------------------
  // A declarative description of where insertions happen, independent of the fold.

  /** No line after position `j` is a `G0` line with X and Y. */
  ghost predicate NoSyncAfter(kindOf: string -> LineKind, lines: seq<string>, j: int) {
    forall k :: j < k < |lines| && 0 <= k ==> kindOf(lines[k]) != G0Xy
  }

  /** After `lines`, a tool change is still waiting for its closing line: some line
      is a tool change and no later line is a `G0` line with X and Y. */
  ghost predicate WindowOpen(kindOf: string -> LineKind, lines: seq<string>) {
    exists j :: 0 <= j < |lines| && kindOf(lines[j]) == ToolChange && NoSyncAfter(kindOf, lines, j)
  }

  /** Line `i` closes a window: one is open before it and it is a `G0` line with X and Y. */
  ghost predicate ClosesWindow(kindOf: string -> LineKind, lines: seq<string>, i: int)
    requires 0 <= i < |lines|
  {
    WindowOpen(kindOf, lines[..i]) && kindOf(lines[i]) == G0Xy
  }

  /** Number of windows closed while reading `lines`. */
  ghost function Insertions(kindOf: string -> LineKind, lines: seq<string>): nat
  {
    if |lines| == 0 then 0
    else Insertions(kindOf, lines[..|lines| - 1]) + (if ClosesWindow(kindOf, lines, |lines| - 1) then 1 else 0)
  }

  /** Number of tool-change lines in `lines`. */
  ghost function ToolChanges(kindOf: string -> LineKind, lines: seq<string>): nat
  {
    if |lines| == 0 then 0
    else ToolChanges(kindOf, lines[..|lines| - 1]) + (if kindOf(lines[|lines| - 1]) == ToolChange then 1 else 0)
  }

  /** How the open window evolves when one more line is read. */
  lemma WindowStep(kindOf: string -> LineKind, lines: seq<string>, line: string)
    ensures WindowOpen(kindOf, lines + [line]) <==>
      kindOf(line) == ToolChange || (WindowOpen(kindOf, lines) && kindOf(line) != G0Xy)
  {
    var all := lines + [line];
    assert all[|lines|] == line;
    if kindOf(line) == ToolChange {
      assert NoSyncAfter(kindOf, all, |lines|);
    } else if WindowOpen(kindOf, lines) && kindOf(line) != G0Xy {
      var j :| 0 <= j < |lines| && kindOf(lines[j]) == ToolChange && NoSyncAfter(kindOf, lines, j);
      assert all[j] == lines[j];
      assert NoSyncAfter(kindOf, all, j) by {
        forall k | j < k < |all| ensures kindOf(all[k]) != G0Xy {
          if k < |lines| { assert all[k] == lines[k]; }
        }
      }
    } else {
      WindowStaysClosed(kindOf, lines, line);
    }
  }

  lemma WindowStaysClosed(kindOf: string -> LineKind, lines: seq<string>, line: string)
    requires kindOf(line) != ToolChange
    requires !WindowOpen(kindOf, lines) || kindOf(line) == G0Xy
    ensures !WindowOpen(kindOf, lines + [line])
  {
    var all := lines + [line];
    assert all[|lines|] == line;
    forall j | 0 <= j < |all| && kindOf(all[j]) == ToolChange ensures !NoSyncAfter(kindOf, all, j) {
      assert j < |lines|;
      assert all[j] == lines[j];
      if kindOf(line) != G0Xy {
        assert !NoSyncAfter(kindOf, lines, j);
        var k :| j < k < |lines| && kindOf(lines[k]) == G0Xy;
        assert all[k] == lines[k];
      }
    }
  }

  // ---------------------------------------------------------------------------
  // The fold agrees with the declarative description.

  /** The `insertPending` flag is set exactly when a window is open. */
  lemma {:induction false} PendingIffWindowOpen(kindOf: string -> LineKind, lines: seq<string>, block: seq<string>)
    ensures Run(kindOf, lines, block).insertPending <==> WindowOpen(kindOf, lines)
    decreases |lines|
  {
    if |lines| > 0 {
      var init := lines[..|lines| - 1];
      PendingIffWindowOpen(kindOf, init, block);
      WindowStep(kindOf, init, lines[|lines| - 1]);
      assert init + [lines[|lines| - 1]] == lines;
    }
  }

  /** Reading line `i` writes the line and then, exactly when it closes a window, the block. */
  lemma RunAppend(kindOf: string -> LineKind, lines: seq<string>, block: seq<string>, i: nat)
    requires i < |lines|
    ensures Run(kindOf, lines[..i + 1], block).written ==
      Run(kindOf, lines[..i], block).written + [lines[i]] + (if ClosesWindow(kindOf, lines, i) then block else [])
  {
    var pre := lines[..i + 1];
    assert pre[..i] == lines[..i];
    PendingIffWindowOpen(kindOf, lines[..i], block);
  }

  /** The output is the input plus one block per window closed. */
  lemma {:induction false} RunLength(kindOf: string -> LineKind, lines: seq<string>, block: seq<string>)
    ensures |Run(kindOf, lines, block).written| == |lines| + Insertions(kindOf, lines) * |block|
    decreases |lines|
  {
    if |lines| > 0 {
      var n := |lines| - 1;
      RunLength(kindOf, lines[..n], block);
      RunAppend(kindOf, lines, block, n);
      assert lines[..n + 1] == lines;
    }
  }

  /** Each insertion uses up a distinct tool change, so there are never more
      insertions than tool-change lines; an open window holds one more. */
  lemma {:induction false} InsertionsBounded(kindOf: string -> LineKind, lines: seq<string>)
    ensures Insertions(kindOf, lines) + (if WindowOpen(kindOf, lines) then 1 else 0) <= ToolChanges(kindOf, lines)
    decreases |lines|
  {
    if |lines| > 0 {
      var init := lines[..|lines| - 1];
      var line := lines[|lines| - 1];
      InsertionsBounded(kindOf, init);
      WindowStep(kindOf, init, line);
      assert init + [line] == lines;
    }
  }

  /** Reading more lines never changes what has already been written. */
  lemma {:induction false} RunExtends(kindOf: string -> LineKind, lines: seq<string>, block: seq<string>, n: nat)
    requires n <= |lines|
    ensures var pre := Run(kindOf, lines[..n], block).written;
      var out := Run(kindOf, lines, block).written;
      |pre| <= |out| && out[..|pre|] == pre
    decreases |lines| - n
  {
    if n < |lines| {
      var init := lines[..|lines| - 1];
      RunExtends(kindOf, init, block, n);
      assert init[..n] == lines[..n];
    } else {
      assert lines[..n] == lines;
    }
  }

  /** Where input line `i` lands in the output: each earlier line takes one
      place, and each earlier line that closed a window is followed by the block. */
  ghost function Offset(kindOf: string -> LineKind, lines: seq<string>, block: seq<string>, i: nat): nat
    requires i <= |lines|
  {
    if i == 0 then 0
    else Offset(kindOf, lines, block, i - 1) + 1 + (if ClosesWindow(kindOf, lines, i - 1) then |block| else 0)
  }

  /** What has been written before line `i` ends exactly at line `i`'s offset. */
  lemma {:induction false} WrittenUpToOffset(kindOf: string -> LineKind, lines: seq<string>, block: seq<string>, i: nat)
    requires i <= |lines|
    ensures |Run(kindOf, lines[..i], block).written| == Offset(kindOf, lines, block, i)
  {
    if i > 0 {
      WrittenUpToOffset(kindOf, lines, block, i - 1);
      RunAppend(kindOf, lines, block, i - 1);
    }
  }

  /** Offsets strictly increase along the input. */
  lemma {:induction false} OffsetIncreasing(kindOf: string -> LineKind, lines: seq<string>, block: seq<string>, i: nat, j: nat)
    requires i < j <= |lines|
    ensures Offset(kindOf, lines, block, i) < Offset(kindOf, lines, block, j)
    decreases j - i
  {
    if i + 1 < j {
      OffsetIncreasing(kindOf, lines, block, i, j - 1);
    }
  }

  /** Line `i` is written unchanged at its offset; when it closes a window the
      block follows it immediately; and the next line's offset comes right after
      that, so nothing else is written in between. */
  lemma Placement(kindOf: string -> LineKind, lines: seq<string>, block: seq<string>, i: nat)
    requires i < |lines|
    ensures var out := Run(kindOf, lines, block).written;
      var p := Offset(kindOf, lines, block, i);
      && p < |out| && out[p] == lines[i]
      && (ClosesWindow(kindOf, lines, i) ==>
            p + 1 + |block| <= |out| && out[p + 1..p + 1 + |block|] == block)
      && Offset(kindOf, lines, block, i + 1) == p + 1 + (if ClosesWindow(kindOf, lines, i) then |block| else 0)
  {
    var out := Run(kindOf, lines, block).written;
    var w := Run(kindOf, lines[..i], block).written;
    var next := Run(kindOf, lines[..i + 1], block).written;
    var c := ClosesWindow(kindOf, lines, i);
    var tail := if c then block else [];
    assert next == w + [lines[i]] + tail by {
      RunAppend(kindOf, lines, block, i);
    }
    assert |next| <= |out| && out[..|next|] == next by {
      RunExtends(kindOf, lines, block, i + 1);
    }
    assert |w| == Offset(kindOf, lines, block, i) by {
      WrittenUpToOffset(kindOf, lines, block, i);
    }
    PrefixHolds(out, w, lines[i], tail);
  }

  /** Whatever extends `w + [x] + tail` holds `x` right after `w`, then `tail`. */
  lemma PrefixHolds(out: seq<string>, w: seq<string>, x: string, tail: seq<string>)
    requires |w| + 1 + |tail| <= |out| && out[..|w| + 1 + |tail|] == w + [x] + tail
    ensures out[|w|] == x && out[|w| + 1..|w| + 1 + |tail|] == tail
  {
    var pre := w + [x] + tail;
    assert out[|w|] == out[..|pre|][|w|] == pre[|w|];
    assert out[|w| + 1..|w| + 1 + |tail|] == out[..|pre|][|w| + 1..] == pre[|w| + 1..];
  }

  /** Nothing follows the last line's material: the output ends where a line after the last would start. */
  lemma OutputEndsAtLastOffset(kindOf: string -> LineKind, lines: seq<string>, block: seq<string>)
    ensures |Run(kindOf, lines, block).written| == Offset(kindOf, lines, block, |lines|)
  {
    WrittenUpToOffset(kindOf, lines, block, |lines|);
    assert lines[..|lines|] == lines;
  }

  /** `f` embeds `a` in `b` in order: strictly increasing positions with matching entries. */
  ghost predicate EmbedsAt(a: seq<string>, b: seq<string>, f: seq<nat>) {
    && |f| == |a|
    && (forall i :: 0 <= i < |f| ==> f[i] < |b| && b[f[i]] == a[i])
    && (forall i, j :: 0 <= i < j < |f| ==> f[i] < f[j])
  }

  ghost function Offsets(kindOf: string -> LineKind, lines: seq<string>, block: seq<string>): (f: seq<nat>)
    ensures |f| == |lines|
    ensures forall i :: 0 <= i < |lines| ==> f[i] == Offset(kindOf, lines, block, i)
  {
    seq(|lines|, i requires 0 <= i < |lines| => Offset(kindOf, lines, block, i))
  }

  /** The input is a subsequence of the output: every line is written, unchanged
      and in order, at its offset. */
  lemma InputIsSubsequence(kindOf: string -> LineKind, lines: seq<string>, block: seq<string>)
    ensures EmbedsAt(lines, Run(kindOf, lines, block).written, Offsets(kindOf, lines, block))
  {
    var out := Run(kindOf, lines, block).written;
    var f := Offsets(kindOf, lines, block);
    forall i | 0 <= i < |f| ensures f[i] < |out| && out[f[i]] == lines[i] {
      Placement(kindOf, lines, block, i);
    }
    forall i, j | 0 <= i < j < |f| ensures f[i] < f[j] {
      OffsetIncreasing(kindOf, lines, block, i, j);
    }
  }

  /** Without a tool-change line nothing is inserted: the output is the input. */
  lemma {:induction false} NoToolChangeNoChange(kindOf: string -> LineKind, lines: seq<string>, block: seq<string>)
    requires forall i :: 0 <= i < |lines| ==> kindOf(lines[i]) != ToolChange
    ensures Run(kindOf, lines, block) == Machine(false, lines)
    decreases |lines|
  {
    if |lines| > 0 {
      var init := lines[..|lines| - 1];
      NoToolChangeNoChange(kindOf, init, block);
      assert init + [lines[|lines| - 1]] == lines;
    }
  }

  /** A window is closed by the first `G0` line with X and Y after a tool change,
      whatever other lines, tool changes included, come in between. */
  lemma FirstSyncClosesWindow(kindOf: string -> LineKind, lines: seq<string>, j: nat, k: nat)
    requires j < k < |lines|
    requires kindOf(lines[j]) == ToolChange && kindOf(lines[k]) == G0Xy
    requires forall m :: j < m < k ==> kindOf(lines[m]) != G0Xy
    ensures ClosesWindow(kindOf, lines, k)
  {
    var pre := lines[..k];
    assert pre[j] == lines[j];
    assert NoSyncAfter(kindOf, pre, j) by {
      forall m | j < m < |pre| ensures kindOf(pre[m]) != G0Xy {
        assert pre[m] == lines[m];
      }
    }
  }

  /** Between two insertions there is always a fresh tool change: later `G0` lines
      with X and Y insert nothing, and repeated tool changes insert only once. */
  lemma ToolChangeBetweenInsertions(kindOf: string -> LineKind, lines: seq<string>, i: nat, k: nat)
    requires i < k < |lines|
    requires ClosesWindow(kindOf, lines, i) && ClosesWindow(kindOf, lines, k)
    ensures exists j :: i < j < k && kindOf(lines[j]) == ToolChange
  {
    var pre := lines[..k];
    var j :| 0 <= j < |pre| && kindOf(pre[j]) == ToolChange && NoSyncAfter(kindOf, pre, j);
    assert pre[j] == lines[j];
    assert pre[i] == lines[i];
    assert i < j;
  }

  /** A tool-change line is never followed by the block, and after it a window is
      open whatever came before. */
  lemma ToolChangeOpensWindow(kindOf: string -> LineKind, lines: seq<string>, block: seq<string>, i: nat)
    requires i < |lines| && kindOf(lines[i]) == ToolChange
    ensures !ClosesWindow(kindOf, lines, i)
    ensures WindowOpen(kindOf, lines[..i + 1])
    ensures Run(kindOf, lines[..i + 1], block) == Machine(true, Run(kindOf, lines[..i], block).written + [lines[i]])
  {
    RunAt(kindOf, lines, block, i);
    WindowStep(kindOf, lines[..i], lines[i]);
    assert lines[..i] + [lines[i]] == lines[..i + 1];
  }

  /** A line that closes a window clears the flag: the window is shut after it. */
  lemma ClosingShutsWindow(kindOf: string -> LineKind, lines: seq<string>, i: nat)
    requires i < |lines| && ClosesWindow(kindOf, lines, i)
    ensures !WindowOpen(kindOf, lines[..i + 1])
  {
    WindowStep(kindOf, lines[..i], lines[i]);
    assert lines[..i] + [lines[i]] == lines[..i + 1];
  }

  /** Reading line `n` is one `Step` on the state reached before it. */
  lemma RunAt(kindOf: string -> LineKind, lines: seq<string>, block: seq<string>, n: nat)
    requires n < |lines|
    ensures Run(kindOf, lines[..n + 1], block) ==
      Step(Run(kindOf, lines[..n], block), lines[n], kindOf(lines[n]), block)
  {
    assert lines[..n + 1][..n] == lines[..n];
  }

  /** Trimming one more command appends its trimmed form. */
  lemma TrimAllAt(codes: seq<string>, j: nat)
    requires j < |codes|
    ensures TrimAll(codes[..j + 1]) == TrimAll(codes[..j]) + [Trim(codes[j])]
  {
    assert codes[..j + 1][..j] == codes[..j];
  }

  /** A worked run: two tool changes, an unrelated line, then two syncs. The block
      follows the first sync only; the second sync finds the window closed. */
  lemma TwoToolChangesOneInsertion(kindOf: string -> LineKind, lines: seq<string>, block: seq<string>)
    requires |lines| == 5
    requires kindOf(lines[0]) == ToolChange && kindOf(lines[1]) == ToolChange
    requires kindOf(lines[2]) == Other
    requires kindOf(lines[3]) == G0Xy && kindOf(lines[4]) == G0Xy
    ensures Run(kindOf, lines, block) == Machine(false, lines[..4] + block + lines[4..])
  {
    assert lines[..0] == [];
    RunAt(kindOf, lines, block, 0);
    RunAt(kindOf, lines, block, 1);
    assert lines[..1] + [lines[1]] == lines[..2];
    RunAt(kindOf, lines, block, 2);
    assert lines[..2] + [lines[2]] == lines[..3];
    RunAt(kindOf, lines, block, 3);
    assert lines[..3] + [lines[3]] == lines[..4];
    RunAt(kindOf, lines, block, 4);
    assert lines[..5] == lines;
    assert lines[4..] == [lines[4]];
  }
}
