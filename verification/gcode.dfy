/**
 How the rewriter classifies one G-code line, and which commands it inserts.
 Classification is by prefix and by letter presence, never by token: `M60`
 counts as a tool change and `G01 X1 Y1` as a rapid move with X and Y.
 */
module GCode {
  import opened Text

  /** The insert list used when no second command-line argument is given: one
      string holding two commands separated by a line feed. */
  const DefaultInsert: string := "M8\nG4 P1"

  /** A trimmed line that opens an insertion window: it starts with `M6` or `M98`,
      ignoring case. */
  function IsToolChange(trimmed: string): (r: bool)
    ensures r <==> |trimmed| >= 2 && Upper(trimmed[0]) == 'M'
                   && (trimmed[1] == '6' || (|trimmed| >= 3 && trimmed[1] == '9' && trimmed[2] == '8'))
  {
    StartsWithIgnoreCase(trimmed, "M6") || StartsWithIgnoreCase(trimmed, "M98")
  }

  /** A trimmed line that closes an open window: it starts with `G0` (the separate
      `G00` test adds nothing) and has an `X` and a `Y` anywhere, ignoring case. */
  function IsG0XyLine(line: string): (r: bool)
    ensures r <==> && |line| >= 2 && Upper(line[0]) == 'G' && line[1] == '0'
                   && (exists i :: 0 <= i < |line| && Upper(line[i]) == 'X')
                   && (exists i :: 0 <= i < |line| && Upper(line[i]) == 'Y')
  {
    if !StartsWithIgnoreCase(line, "G0") && !StartsWithIgnoreCase(line, "G00") then
      false
    else
      IndexOfIgnoreCase(line, 'X') >= 0 && IndexOfIgnoreCase(line, 'Y') >= 0
  }

  /** The `G00` alternative is subsumed by the `G0` test. */
  lemma G00Subsumed(line: string)
    requires StartsWithIgnoreCase(line, "G00")
    ensures StartsWithIgnoreCase(line, "G0")
  {
    assert "G00" == "G0" + "0";
    LongerPrefixImpliesShorter(line, "G0", "0");
  }

  /** No line is both a tool change and a line that closes a window. */
  lemma ToolChangeIsNeverG0Xy(trimmed: string)
    requires IsToolChange(trimmed)
    ensures !IsG0XyLine(trimmed)
  {
  }

  /** Tool changes are matched by prefix, not by token, and ignoring case:
      `M60` and `m6` open a window; `T2 M6` and the zero-padded `M06` do not. */
  lemma ToolChangeByPrefix()
    ensures IsToolChange("M60") && IsToolChange("m6 T2") && IsToolChange("M98 P100")
    ensures !IsToolChange("T2 M6") && !IsToolChange("M9") && !IsToolChange("M06 T2")
  {
    assert Upper('m') == 'M';
  }

  /** `G01` and `G02` pass the `G0` prefix test, and X and Y may appear in any order. */
  lemma SyncByPrefix()
    ensures IsG0XyLine("G01 X1 Y2") && IsG0XyLine("g0 y5 x3") && IsG0XyLine("G02 X1 Y2")
  {
    assert "G02 X1 Y2"[4] == 'X' && "G02 X1 Y2"[7] == 'Y';
    assert "G01 X1 Y2"[4] == 'X' && "G01 X1 Y2"[7] == 'Y';
    assert Upper('g') == 'G' && Upper('x') == 'X' && Upper('y') == 'Y';
    assert "g0 y5 x3"[6] == 'x' && "g0 y5 x3"[3] == 'y';
  }

  /** A rapid move missing Y, a linear move, and a numbered line do not close a window. */
  lemma NotSync()
    ensures !IsG0XyLine("G0 X1") && !IsG0XyLine("G1 X1 Y1") && !IsG0XyLine("N10 G0 X1 Y1")
  {
    assert forall i :: 0 <= i < |"G0 X1"| ==> Upper("G0 X1"[i]) != 'Y';
  }

  /** What the read loop does with a line depends only on this: whether its
      trimmed form is a tool change (asked first), else whether it is a `G0`
      line with X and Y, else neither. */
  datatype LineKind = ToolChange | G0Xy | Other

  function Classify(line: string): (k: LineKind)
    ensures k == ToolChange <==> IsToolChange(Trim(line))
    ensures k == G0Xy <==> IsG0XyLine(Trim(line))
  {
    var trimmed := Trim(line);
    if IsToolChange(trimmed) then
      ToolChange
    else if IsG0XyLine(trimmed) then
      G0Xy
    else
      Other
  }

  /** The commands to insert: with a second argument, its comma-separated pieces
      (empty pieces included); without one, the single default string. */
  function InsertCodes(args: seq<string>): (r: seq<string>)
    ensures |r| >= 1
    ensures |args| < 2 ==> r == [DefaultInsert]
    ensures |args| >= 2 ==> Join(r, ',') == args[1]
    ensures forall i :: 0 <= i < |r| ==> (|args| < 2 || ',' !in r[i])
  {
    if |args| >= 2 then SplitSpec(args[1], ','); Split(args[1], ',') else [DefaultInsert]
  }

  /** An override list's pieces are recovered exactly when none contains a comma. */
  lemma InsertCodesRoundTrip(path: string, codes: seq<string>)
    requires |codes| >= 1
    requires forall i :: 0 <= i < |codes| ==> ',' !in codes[i]
    ensures InsertCodes([path, Join(codes, ',')]) == codes
  {
    SplitJoin(codes, ',');
  }

  /** Trimming leaves the default insert unchanged, so it is written as given. */
  lemma DefaultInsertIsTrimmed()
    ensures Trim(DefaultInsert) == DefaultInsert
  {
    var s := DefaultInsert;
    assert s[0] == 'M' && s[|s| - 1] == '1';
    TrimWindow(s, 0, |s|);
  }
}
