/**
 The program's entry point with its file handling taken away: the insert list
 chosen from the arguments, and the read loop run over lines already read.
 */
module Program {
  import opened Text
  import opened GCode
  import opened Rewriter

  /** The lines the program writes for the input `lines` and the insert commands `inserts`. */
  function Transform(lines: seq<string>, inserts: seq<string>): seq<string>
  {
    Run(Classify, lines, TrimAll(inserts)).written
  }

  /** The output file's lines for the given arguments and input lines. Without a
      second argument the block after each closing line is the default string
      itself, one element holding two commands; with one, it is the argument's
      comma-separated pieces, each trimmed. */
  function RewriteFile(args: seq<string>, lines: seq<string>): (out: seq<string>)
    ensures |args| < 2 ==> out == Run(Classify, lines, [DefaultInsert]).written
    ensures |args| >= 2 ==> out == Run(Classify, lines, TrimAll(Split(args[1], ','))).written
  {
    DefaultBlock();
    Transform(lines, InsertCodes(args))
  }

  /** Trimming leaves the default insert list as it is. */
  lemma DefaultBlock()
    ensures TrimAll([DefaultInsert]) == [DefaultInsert]
  {
    DefaultInsertIsTrimmed();
    assert [DefaultInsert][..0] == [];
  }

  /** The inner loop: each insert command is trimmed and written, in order. */
  method WriteInserts(written: seq<string>, inserts: seq<string>) returns (out: seq<string>)
    ensures out == written + TrimAll(inserts)
  {
    out := written;
    var j := 0;
    while j < |inserts|
      invariant 0 <= j <= |inserts|
      invariant out == written + TrimAll(inserts[..j])
    {
      TrimAllAt(inserts, j);
      out := out + [Trim(inserts[j])];
      j := j + 1;
    }
    assert inserts[..j] == inserts;
  }

  /** The read loop as the program writes it: a flag and a writer, one line at a time. */
  method RewriteLines(lines: seq<string>, inserts: seq<string>) returns (out: seq<string>)
    ensures out == Transform(lines, inserts)
  {
    ghost var block := TrimAll(inserts);
    var insertPending := false;
    out := [];
    var n := 0;
    while n < |lines|
      invariant 0 <= n <= |lines|
      invariant Run(Classify, lines[..n], block) == Machine(insertPending, out)
    {
      var line := lines[n];
      var trimmed := Trim(line);
      RunAt(Classify, lines, block, n);
      if IsToolChange(trimmed) {
        insertPending := true;
        out := out + [line];
      } else {
        out := out + [line];
        if insertPending && IsG0XyLine(trimmed) {
          out := WriteInserts(out, inserts);
          insertPending := false;
        }
      }
      n := n + 1;
    }
    assert lines[..n] == lines;
  }

  /** With no tool-change line in the input, the output is the input. */
  lemma NoToolChangeIsIdentity(lines: seq<string>, inserts: seq<string>)
    requires forall i :: 0 <= i < |lines| ==> !IsToolChange(Trim(lines[i]))
    ensures Transform(lines, inserts) == lines
  {
    NoToolChangeNoChange(Classify, lines, TrimAll(inserts));
  }

  /** The output is the input plus one copy of the insert list per window closed,
      and no more windows close than there are tool-change lines. */
  lemma TransformLength(lines: seq<string>, inserts: seq<string>)
    ensures |Transform(lines, inserts)| == |lines| + Insertions(Classify, lines) * |inserts|
    ensures Insertions(Classify, lines) <= ToolChanges(Classify, lines)
  {
    RunLength(Classify, lines, TrimAll(inserts));
    InsertionsBounded(Classify, lines);
  }
}
