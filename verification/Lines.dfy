/** Splitting text into lines that keep their terminators. */
module Lines {
  import opened Objects

  type Line = Bytes

  /** Each line with its newline; the last may lack one. */
  function LinesOf(data: Bytes): (ls: seq<Line>)
    decreases |data|
  {
    if data == "" then []
    else
      var line := FirstLine(data);
      [line] + LinesOf(data[|line|..])
  }

  function FirstLine(data: Bytes): (line: Line)
    requires data != ""
    ensures line != "" && line <= data
  {
    if data[0] == '\n' || |data| == 1 then data[..1] else [data[0]] + FirstLine(data[1..])
  }

  function Concat(ls: seq<Line>): Bytes {
    if ls == [] then "" else ls[0] + Concat(ls[1..])
  }

  predicate Terminated(line: Line) {
    line != "" && line[|line| - 1] == '\n' && '\n' !in line[..|line| - 1]
  }

  predicate Unterminated(line: Line) {
    line != "" && '\n' !in line
  }

  /** Lines as a split leaves them: terminated, except perhaps the last. */
  predicate WellSplit(ls: seq<Line>) {
    ls == [] || ((Terminated(ls[0]) || (Unterminated(ls[0]) && |ls| == 1)) && WellSplit(ls[1..]))
  }

  lemma {:induction false} FirstLineSplits(line: Line, rest: Bytes)
    requires Terminated(line) || (Unterminated(line) && rest == "")
    ensures FirstLine(line + rest) == line
  {
    var data := line + rest;
    if |line| > 1 {
      assert data[0] == line[0] && line[0] in line[..|line| - 1];
      assert line[0] != '\n';
      assert data[1..] == line[1..] + rest;
      assert line[1..][..|line| - 2] == line[..|line| - 1][1..];
      FirstLineSplits(line[1..], rest);
      assert line == [line[0]] + line[1..];
    } else {
      assert data[..1] == line;
    }
  }

  /** Lines as a split leaves them come back from their concatenation. */
  lemma {:induction false} SplitUndoesConcat(ls: seq<Line>)
    requires WellSplit(ls)
    ensures LinesOf(Concat(ls)) == ls
  {
    if ls != [] {
      var rest := Concat(ls[1..]);
      FirstLineSplits(ls[0], rest);
      SplitUndoesConcat(ls[1..]);
      assert (ls[0] + rest)[|ls[0]|..] == rest;
    }
  }

  lemma {:induction false} FirstLineIsLine(data: Bytes)
    requires data != ""
    ensures var line := FirstLine(data); Terminated(line) || (Unterminated(line) && line == data)
  {
    if data[0] != '\n' && |data| > 1 {
      FirstLineIsLine(data[1..]);
      var tail := FirstLine(data[1..]);
      var line := [data[0]] + tail;
      assert line[..|line| - 1] == [data[0]] + tail[..|tail| - 1];
    }
  }

  lemma {:induction false} ConcatUndoesSplit(data: Bytes)
    ensures Concat(LinesOf(data)) == data && WellSplit(LinesOf(data))
    decreases |data|
  {
    if data != "" {
      FirstLineIsLine(data);
      var line := FirstLine(data);
      ConcatUndoesSplit(data[|line|..]);
    }
  }

  lemma {:induction false} SliceIsWellSplit(ls: seq<Line>, i: nat, j: nat)
    requires WellSplit(ls) && i <= j <= |ls|
    ensures WellSplit(ls[i..j])
  {
    if i > 0 {
      SliceIsWellSplit(ls[1..], i - 1, j - 1);
      assert ls[1..][i - 1..j - 1] == ls[i..j];
    } else if j > 0 {
      SliceIsWellSplit(ls[1..], 0, j - 1);
      assert ls[..j][1..] == ls[1..][..j - 1];
    }
  }
}
