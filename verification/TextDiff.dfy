/**
 * The exact line diff of src/core/artifact-text-diff.js: a longest-common-subsequence table in a
 * flat array of 16-bit cells, and a greedy walk over it that emits EQUAL, REMOVE and ADD.
 */
module TextDiff {
  import opened Common

  type Line = Text

  const NEWLINE: CodeUnit := 10
  const MAX_LINES: nat := 1024
  const MAX_LINE_CODE_UNITS: nat := 16 * 1024

  datatype SplitError = TooManyLines | LineTooLong(lineNumber: nat)

  datatype Operation =
    | Equal(leftLine: nat, rightLine: nat, text: Line)
    | Remove(leftLine: nat, text: Line)
    | Add(rightLine: nat, text: Line)

  datatype Stats = Stats(addedLines: nat, removedLines: nat, unchangedLines: nat, changeBlocks: nat, changed: bool)

  datatype Diff = Diff(operations: seq<Operation>, stats: Stats)

  // ---------------------------------------------------------------- lines

  /** String.prototype.split with the separator "\n". */
  function SplitAtNewlines(text: Text): (lines: seq<Line>)
    ensures |lines| > 0
  {
    if text == [] then [[]]
    else
      var rest := SplitAtNewlines(text[1..]);
      if text[0] == NEWLINE then [[]] + rest else [[text[0]] + rest[0]] + rest[1..]
  }

  function Lines(text: Text): seq<Line> {
    if text == [] then [] else SplitAtNewlines(text)
  }

  function Join(lines: seq<Line>): Text {
    if |lines| == 0 then []
    else if |lines| == 1 then lines[0]
    else lines[0] + [NEWLINE] + Join(lines[1..])
  }

  lemma {:induction false} JoinUndoesSplit(text: Text)
    ensures Join(SplitAtNewlines(text)) == text
  {
    if text != [] {
      JoinUndoesSplit(text[1..]);
      var rest := SplitAtNewlines(text[1..]);
      var lines := SplitAtNewlines(text);
      if text[0] == NEWLINE {
        assert lines[1..] == rest;
      } else {
        assert lines[1..] == rest[1..];
        assert text == [text[0]] + text[1..];
      }
    }
  }

  /** Splitting loses nothing: the text comes back, so distinct texts have distinct line lists. */
  lemma LinesDetermineText(a: Text, b: Text)
    ensures Join(Lines(a)) == a
    ensures Lines(a) == Lines(b) <==> a == b
  {
    JoinUndoesSplit(a);
    JoinUndoesSplit(b);
  }

  method SplitExactLines(text: Text) returns (r: Result<seq<Line>, SplitError>)
    ensures r.Ok? <==> |Lines(text)| <= MAX_LINES && forall l <- Lines(text) :: |l| <= MAX_LINE_CODE_UNITS
    ensures r.Ok? ==> r.value == Lines(text)
    ensures r.Err? && r.error.TooManyLines? <==> |Lines(text)| > MAX_LINES
    ensures r.Err? && r.error.LineTooLong? ==>
              var n := r.error.lineNumber;
              && 1 <= n <= |Lines(text)| && |Lines(text)[n - 1]| > MAX_LINE_CODE_UNITS
              && forall k | 0 <= k < n - 1 :: |Lines(text)[k]| <= MAX_LINE_CODE_UNITS
  {
    var lines := Lines(text);
    if |lines| > MAX_LINES {
      return Err(TooManyLines);
    }
    for index := 0 to |lines|
      invariant forall k | 0 <= k < index :: |lines[k]| <= MAX_LINE_CODE_UNITS
    {
      if |lines[index]| > MAX_LINE_CODE_UNITS {
        return Err(LineTooLong(index + 1));
      }
    }
    return Ok(lines);
  }

  // ------------------------------------------------- common subsequences

  ghost predicate Increasing(p: seq<nat>) {
    forall i, j | 0 <= i < j < |p| :: p[i] < p[j]
  }

  /** `p` and `q` pick the same lines, in order, out of `left[i..]` and `right[j..]`. */
  ghost predicate CommonSubsequence(left: seq<Line>, right: seq<Line>, i: nat, j: nat, p: seq<nat>, q: seq<nat>) {
    && |p| == |q|
    && Increasing(p) && Increasing(q)
    && (forall k | 0 <= k < |p| :: i <= p[k] < |left|)
    && (forall k | 0 <= k < |q| :: j <= q[k] < |right|)
    && (forall k | 0 <= k < |p| :: left[p[k]] == right[q[k]])
  }

  /** The recurrence the table is filled by. */
  function Lcs(left: seq<Line>, right: seq<Line>, i: nat, j: nat): nat
    decreases |left| - i + |right| - j
  {
    if i >= |left| || j >= |right| then 0
    else if left[i] == right[j] then Lcs(left, right, i + 1, j + 1) + 1
    else Max(Lcs(left, right, i + 1, j), Lcs(left, right, i, j + 1))
  }

  lemma {:induction false} LcsBound(left: seq<Line>, right: seq<Line>, i: nat, j: nat)
    requires i <= |left| && j <= |right|
    ensures Lcs(left, right, i, j) <= |left| - i
    ensures Lcs(left, right, i, j) <= |right| - j
    decreases |left| - i + |right| - j
  {
    if i < |left| && j < |right| {
      LcsBound(left, right, i + 1, j + 1);
      LcsBound(left, right, i + 1, j);
      LcsBound(left, right, i, j + 1);
    }
  }

  /** Dropping one line on either side costs at most one match. */
  lemma {:induction false} LcsSteps(left: seq<Line>, right: seq<Line>, i: nat, j: nat)
    requires i < |left| && j < |right|
    ensures Lcs(left, right, i + 1, j) <= Lcs(left, right, i, j) <= Lcs(left, right, i + 1, j) + 1
    ensures Lcs(left, right, i, j + 1) <= Lcs(left, right, i, j) <= Lcs(left, right, i, j + 1) + 1
    decreases |left| - i + |right| - j
  {
    if i + 1 < |left| { LcsSteps(left, right, i + 1, j); }
    if j + 1 < |right| { LcsSteps(left, right, i, j + 1); }
  }

  /** No common subsequence of the two lists is longer than the table says. */
  lemma {:induction false} LcsIsMaximal(left: seq<Line>, right: seq<Line>, i: nat, j: nat, p: seq<nat>, q: seq<nat>)
    requires CommonSubsequence(left, right, i, j, p, q)
    ensures |p| <= Lcs(left, right, i, j)
    decreases |left| - i + |right| - j
  {
    if p != [] {
      assert i <= p[0] < |left| && j <= q[0] < |right|;
      if left[i] == right[j] {
        LcsIsMaximal(left, right, i + 1, j + 1, p[1..], q[1..]);
      } else if p[0] > i {
        LcsIsMaximal(left, right, i + 1, j, p, q);
      } else {
        LcsIsMaximal(left, right, i, j + 1, p, q);
      }
    }
  }

  // ------------------------------------------------------------ the table

  /** A Uint16Array element. */
  newtype Cell = x: int | 0 <= x < 0x1_0000

  /** What a Uint16Array keeps of an integer stored into it. */
  function ToCell(x: nat): Cell { (x % 0x1_0000) as Cell }

  function At(i: nat, j: nat, columns: nat): nat { i * columns + j }

  lemma AtInRange(i: nat, j: nat, rows: nat, columns: nat)
    requires i < rows && j < columns
    ensures At(i, j, columns) < rows * columns
  {
    assert i * columns + columns == (i + 1) * columns <= rows * columns;
  }

  lemma AtRowsOrdered(i: nat, j: nat, i': nat, j': nat, columns: nat)
    requires i < i' && j < columns
    ensures At(i, j, columns) < At(i', j', columns)
  {
    assert (i + 1) * columns <= i' * columns;
  }

  /** Cell (i, j) lies inside the table and holds the recurrence's value. */
  ghost predicate Right(m: seq<Cell>, left: seq<Line>, right: seq<Line>, i: nat, j: nat) {
    var at := At(i, j, |right| + 1);
    at < |m| && m[at] as int == Lcs(left, right, i, j)
  }

  ghost predicate RowsFilled(m: seq<Cell>, left: seq<Line>, right: seq<Line>, from: nat) {
    && (forall i, j | from <= i <= |left| && 0 <= j <= |right| :: Right(m, left, right, i, j))
    && (forall i | 0 <= i <= |left| :: Right(m, left, right, i, |right|))
  }

  ghost predicate RowFilled(m: seq<Cell>, left: seq<Line>, right: seq<Line>, i: nat, from: nat) {
    forall j | from <= j <= |right| :: Right(m, left, right, i, j)
  }

  lemma StoreKeeps(m: seq<Cell>, left: seq<Line>, right: seq<Line>, i: nat, j: nat, v: Cell)
    requires i < |left| && j < |right|
    requires |m| == (|left| + 1) * (|right| + 1)
    requires RowsFilled(m, left, right, i + 1) && RowFilled(m, left, right, i, j + 1)
    requires v as int == Lcs(left, right, i, j)
    ensures var at := At(i, j, |right| + 1);
            at < |m| && RowsFilled(m[at := v], left, right, i + 1) && RowFilled(m[at := v], left, right, i, j)
  {
    var columns := |right| + 1;
    AtInRange(i, j, |left| + 1, columns);
    var at := At(i, j, columns);
    var m' := m[at := v];
    forall i', j' | 0 <= i' <= |left| && 0 <= j' <= |right| && (i' != i || j' != j)
                    && Right(m, left, right, i', j')
      ensures Right(m', left, right, i', j')
    {
      if i < i' {
        AtRowsOrdered(i, j, i', j', columns);
      } else if i' < i {
        AtRowsOrdered(i', j', i, j, columns);
      }
    }
  }

  /**
   * The flat table. Its only demand is that the shorter list has fewer than 65536 lines: then no cell
   * wraps. The line bound checked before the call guarantees it with a wide margin.
   */
  method LcsMatrix(left: seq<Line>, right: seq<Line>) returns (matrix: array<Cell>, columns: nat)
    requires Min(|left|, |right|) < 0x1_0000
    ensures fresh(matrix) && columns == |right| + 1
    ensures RowsFilled(matrix[..], left, right, 0)
  {
    columns := |right| + 1;
    var rows := |left| + 1;
    matrix := new Cell[rows * columns](_ => 0);
    forall i, j | 0 <= i <= |left| && 0 <= j <= |right| && (i == |left| || j == |right|)
      ensures Right(matrix[..], left, right, i, j)
    {
      AtInRange(i, j, rows, columns);
    }
    for leftIndex := |left| downto 0
      invariant matrix.Length == rows * columns
      invariant RowsFilled(matrix[..], left, right, leftIndex)
    {
      for rightIndex := |right| downto 0
        invariant RowsFilled(matrix[..], left, right, leftIndex + 1)
        invariant RowFilled(matrix[..], left, right, leftIndex, rightIndex)
      {
        ghost var before := matrix[..];
        var at := leftIndex * columns + rightIndex;
        AtInRange(leftIndex, rightIndex, rows, columns);
        LcsBound(left, right, leftIndex, rightIndex);
        var v: Cell;
        if left[leftIndex] == right[rightIndex] {
          assert Right(before, left, right, leftIndex + 1, rightIndex + 1);
          v := ToCell(matrix[(leftIndex + 1) * columns + rightIndex + 1] as int + 1);
        } else {
          assert Right(before, left, right, leftIndex + 1, rightIndex);
          assert Right(before, left, right, leftIndex, rightIndex + 1);
          var removeScore := matrix[(leftIndex + 1) * columns + rightIndex];
          var addScore := matrix[leftIndex * columns + rightIndex + 1];
          v := if removeScore >= addScore then removeScore else addScore;
        }
        StoreKeeps(before, left, right, leftIndex, rightIndex, v);
        matrix[at] := v;
        assert matrix[..] == before[at := v];
      }
    }
  }

  // ------------------------------------------------------------- the walk

  datatype Kind = EQUAL | REMOVE | ADD

  function KindOf(op: Operation): Kind {
    match op
    case Equal(_, _, _) => EQUAL
    case Remove(_, _) => REMOVE
    case Add(_, _) => ADD
  }

  function Count(ops: seq<Operation>, kind: Kind): nat {
    if ops == [] then 0 else (if KindOf(ops[0]) == kind then 1 else 0) + Count(ops[1..], kind)
  }

  lemma {:induction false} CountSnoc(ops: seq<Operation>, op: Operation, kind: Kind)
    ensures Count(ops + [op], kind) == Count(ops, kind) + if KindOf(op) == kind then 1 else 0
  {
    if ops != [] {
      CountSnoc(ops[1..], op, kind);
      assert (ops + [op])[1..] == ops[1..] + [op];
    }
  }

  /** The numbered left lines a reader sees once the ADD operations are dropped. */
  function LeftSide(ops: seq<Operation>): seq<(nat, Line)> {
    if ops == [] then []
    else (match ops[0]
          case Equal(n, _, text) => [(n, text)]
          case Remove(n, text) => [(n, text)]
          case Add(_, _) => []) + LeftSide(ops[1..])
  }

  /** The numbered right lines a reader sees once the REMOVE operations are dropped. */
  function RightSide(ops: seq<Operation>): seq<(nat, Line)> {
    if ops == [] then []
    else (match ops[0]
          case Equal(_, n, text) => [(n, text)]
          case Remove(_, _) => []
          case Add(n, text) => [(n, text)]) + RightSide(ops[1..])
  }

  function Numbered(lines: seq<Line>): seq<(nat, Line)> {
    seq(|lines|, k requires 0 <= k < |lines| => (k + 1, lines[k]))
  }

  /** `ops` rewrites `left[i..]` into `right[j..]`, showing every line of both once, in order. */
  ghost predicate ScriptFrom(ops: seq<Operation>, left: seq<Line>, right: seq<Line>, i: nat, j: nat) {
    && i <= |left| && j <= |right|
    && LeftSide(ops) == Numbered(left)[i..]
    && RightSide(ops) == Numbered(right)[j..]
  }

  ghost predicate Script(ops: seq<Operation>, left: seq<Line>, right: seq<Line>) {
    ScriptFrom(ops, left, right, 0, 0)
  }

  /** The walk with the table replaced by the recurrence it holds. */
  function Walk(left: seq<Line>, right: seq<Line>, i: nat, j: nat): seq<Operation>
    requires i <= |left| && j <= |right|
    decreases |left| - i + |right| - j
  {
    if i == |left| && j == |right| then []
    else if i < |left| && j < |right| && left[i] == right[j] then
      [Equal(i + 1, j + 1, left[i])] + Walk(left, right, i + 1, j + 1)
    else if i < |left| && (j == |right| || Lcs(left, right, i + 1, j) >= Lcs(left, right, i, j + 1)) then
      [Remove(i + 1, left[i])] + Walk(left, right, i + 1, j)
    else
      [Add(j + 1, right[j])] + Walk(left, right, i, j + 1)
  }

  lemma CellHolds(m: seq<Cell>, left: seq<Line>, right: seq<Line>, columns: nat, i: nat, j: nat)
    requires i <= |left| && j <= |right| && columns == |right| + 1 && Right(m, left, right, i, j)
    ensures 0 <= i * columns + j < |m| && m[i * columns + j] as int == Lcs(left, right, i, j)
  {
  }

  /** What is written so far and what is still to come make up the whole walk. */
  ghost predicate Written(ops: seq<Operation>, left: seq<Line>, right: seq<Line>, i: nat, j: nat)
    requires i <= |left| && j <= |right|
  {
    ops + Walk(left, right, i, j) == Walk(left, right, 0, 0)
  }

  lemma WriteNext(ops: seq<Operation>, left: seq<Line>, right: seq<Line>, i: nat, j: nat, op: Operation, i': nat, j': nat)
    requires i <= |left| && j <= |right| && i' <= |left| && j' <= |right| && Written(ops, left, right, i, j)
    requires Walk(left, right, i, j) == [op] + Walk(left, right, i', j')
    ensures Written(ops + [op], left, right, i', j')
  {
    hide Walk;
    assert ops + ([op] + Walk(left, right, i', j')) == (ops + [op]) + Walk(left, right, i', j');
  }

  lemma WalkSteps(left: seq<Line>, right: seq<Line>, i: nat, j: nat)
    requires i <= |left| && j <= |right| && (i < |left| || j < |right|)
    ensures i < |left| && j < |right| && left[i] == right[j]
            ==> Walk(left, right, i, j) == [Equal(i + 1, j + 1, left[i])] + Walk(left, right, i + 1, j + 1)
    ensures i < |left| && j < |right| && left[i] != right[j] && Lcs(left, right, i + 1, j) >= Lcs(left, right, i, j + 1)
            ==> Walk(left, right, i, j) == [Remove(i + 1, left[i])] + Walk(left, right, i + 1, j)
    ensures i < |left| && j < |right| && left[i] != right[j] && Lcs(left, right, i + 1, j) < Lcs(left, right, i, j + 1)
            ==> Walk(left, right, i, j) == [Add(j + 1, right[j])] + Walk(left, right, i, j + 1)
    ensures j == |right| ==> Walk(left, right, i, j) == [Remove(i + 1, left[i])] + Walk(left, right, i + 1, j)
    ensures i == |left| ==> Walk(left, right, i, j) == [Add(j + 1, right[j])] + Walk(left, right, i, j + 1)
  {
    hide Lcs;
  }

  method BuildOperations(left: seq<Line>, right: seq<Line>) returns (operations: seq<Operation>)
    requires Min(|left|, |right|) < 0x1_0000
    ensures operations == Walk(left, right, 0, 0)
  {
    hide Lcs, Walk;
    var matrix, columns := LcsMatrix(left, right);
    ghost var m := matrix[..];
    operations := [];
    var leftIndex, rightIndex := 0, 0;
    assert operations + Walk(left, right, 0, 0) == Walk(left, right, 0, 0);
    while leftIndex < |left| || rightIndex < |right|
      invariant leftIndex <= |left| && rightIndex <= |right|
      invariant matrix[..] == m
      invariant Written(operations, left, right, leftIndex, rightIndex)
      decreases |left| - leftIndex + |right| - rightIndex
    {
      hide Written;
      WalkSteps(left, right, leftIndex, rightIndex);
      if leftIndex < |left| && rightIndex < |right| && left[leftIndex] == right[rightIndex] {
        ghost var op := Equal(leftIndex + 1, rightIndex + 1, left[leftIndex]);
        WriteNext(operations, left, right, leftIndex, rightIndex, op, leftIndex + 1, rightIndex + 1);
        operations := operations + [Equal(leftIndex + 1, rightIndex + 1, left[leftIndex])];
        leftIndex := leftIndex + 1;
        rightIndex := rightIndex + 1;
        continue;
      }
      var removeScore := -1;
      if leftIndex < |left| {
        CellHolds(m, left, right, columns, leftIndex + 1, rightIndex);
        removeScore := matrix[(leftIndex + 1) * columns + rightIndex] as int;
      }
      var addScore := -1;
      if rightIndex < |right| {
        CellHolds(m, left, right, columns, leftIndex, rightIndex + 1);
        addScore := matrix[leftIndex * columns + rightIndex + 1] as int;
      }
      if leftIndex < |left| && (rightIndex >= |right| || removeScore >= addScore) {
        ghost var op := Remove(leftIndex + 1, left[leftIndex]);
        WriteNext(operations, left, right, leftIndex, rightIndex, op, leftIndex + 1, rightIndex);
        operations := operations + [Remove(leftIndex + 1, left[leftIndex])];
        leftIndex := leftIndex + 1;
      } else {
        ghost var op := Add(rightIndex + 1, right[rightIndex]);
        WriteNext(operations, left, right, leftIndex, rightIndex, op, leftIndex, rightIndex + 1);
        operations := operations + [Add(rightIndex + 1, right[rightIndex])];
        rightIndex := rightIndex + 1;
      }
    }
    WalkEnds(left, right);
  }

  lemma WalkEnds(left: seq<Line>, right: seq<Line>)
    ensures Walk(left, right, |left|, |right|) == []
  {
  }

  // --------------------------------------------------- what the walk means

  /** Replay: the walk shows every line of both sides, in order and with its own number. */
  lemma {:induction false} WalkIsScript(left: seq<Line>, right: seq<Line>, i: nat, j: nat)
    requires i <= |left| && j <= |right|
    ensures ScriptFrom(Walk(left, right, i, j), left, right, i, j)
    decreases |left| - i + |right| - j
  {
    var ops := Walk(left, right, i, j);
    if i == |left| && j == |right| {
    } else if i < |left| && j < |right| && left[i] == right[j] {
      assert ops[1..] == Walk(left, right, i + 1, j + 1);
      WalkIsScript(left, right, i + 1, j + 1);
    } else if i < |left| && (j == |right| || Lcs(left, right, i + 1, j) >= Lcs(left, right, i, j + 1)) {
      assert ops[1..] == Walk(left, right, i + 1, j);
      WalkIsScript(left, right, i + 1, j);
    } else {
      assert ops[1..] == Walk(left, right, i, j + 1);
      WalkIsScript(left, right, i, j + 1);
    }
  }

  /** The walk keeps exactly as many lines as the table's first cell says. */
  lemma {:induction false} WalkKeepsLcs(left: seq<Line>, right: seq<Line>, i: nat, j: nat)
    requires i <= |left| && j <= |right|
    ensures Count(Walk(left, right, i, j), EQUAL) == Lcs(left, right, i, j)
    decreases |left| - i + |right| - j
  {
    var ops := Walk(left, right, i, j);
    if i == |left| && j == |right| {
    } else if i < |left| && j < |right| && left[i] == right[j] {
      assert ops[1..] == Walk(left, right, i + 1, j + 1);
      WalkKeepsLcs(left, right, i + 1, j + 1);
    } else if i < |left| && (j == |right| || Lcs(left, right, i + 1, j) >= Lcs(left, right, i, j + 1)) {
      assert ops[1..] == Walk(left, right, i + 1, j);
      WalkKeepsLcs(left, right, i + 1, j);
    } else {
      assert ops[1..] == Walk(left, right, i, j + 1);
      WalkKeepsLcs(left, right, i, j + 1);
    }
  }

  /** No script at all, however it pairs lines, keeps more than the recurrence allows. */
  lemma {:induction false} ScriptKeepsAtMostLcs(ops: seq<Operation>, left: seq<Line>, right: seq<Line>, i: nat, j: nat)
    requires ScriptFrom(ops, left, right, i, j)
    ensures Count(ops, EQUAL) <= Lcs(left, right, i, j)
    decreases |ops|
  {
    if ops != [] {
      var l, r := LeftSide(ops), RightSide(ops);
      match ops[0]
      case Equal(n, k, text) =>
        assert l[0] == Numbered(left)[i] && r[0] == Numbered(right)[j];
        assert LeftSide(ops[1..]) == l[1..] && RightSide(ops[1..]) == r[1..];
        ScriptKeepsAtMostLcs(ops[1..], left, right, i + 1, j + 1);
      case Remove(n, text) =>
        assert l[0] == Numbered(left)[i];
        assert LeftSide(ops[1..]) == l[1..];
        ScriptKeepsAtMostLcs(ops[1..], left, right, i + 1, j);
        if j < |right| { LcsSteps(left, right, i, j); }
      case Add(n, text) =>
        assert r[0] == Numbered(right)[j];
        assert RightSide(ops[1..]) == r[1..];
        ScriptKeepsAtMostLcs(ops[1..], left, right, i, j + 1);
        if i < |left| { LcsSteps(left, right, i, j); }
    }
  }

  lemma {:induction false} SidesCount(ops: seq<Operation>)
    ensures |LeftSide(ops)| == Count(ops, EQUAL) + Count(ops, REMOVE)
    ensures |RightSide(ops)| == Count(ops, EQUAL) + Count(ops, ADD)
    ensures |ops| == Count(ops, EQUAL) + Count(ops, REMOVE) + Count(ops, ADD)
  {
    if ops != [] { SidesCount(ops[1..]); }
  }

  /**
   * Optimality: among all scripts from left to right the walk has the fewest changed lines, it keeps a
   * longest common subsequence, and each side's lines are either kept or changed.
   */
  lemma WalkIsOptimal(left: seq<Line>, right: seq<Line>, rival: seq<Operation>, p: seq<nat>, q: seq<nat>)
    requires Script(rival, left, right)
    requires CommonSubsequence(left, right, 0, 0, p, q)
    ensures var ops := Walk(left, right, 0, 0);
            && Script(ops, left, right)
            && Count(ops, REMOVE) + Count(ops, ADD) <= Count(rival, REMOVE) + Count(rival, ADD)
            && |p| <= Count(ops, EQUAL)
            && Count(ops, REMOVE) + Count(ops, EQUAL) == |left|
            && Count(ops, ADD) + Count(ops, EQUAL) == |right|
  {
    WalkIsScript(left, right, 0, 0);
    WalkKeepsLcs(left, right, 0, 0);
    SidesCount(Walk(left, right, 0, 0));
    SidesCount(rival);
    ScriptKeepsAtMostLcs(rival, left, right, 0, 0);
    LcsIsMaximal(left, right, 0, 0, p, q);
  }

  /** Within a block of changes every removal is shown before the first addition. */
  lemma {:induction false} RemovalsPrecedeAdditions(left: seq<Line>, right: seq<Line>, i: nat, j: nat, k: nat)
    requires i <= |left| && j <= |right|
    requires k + 1 < |Walk(left, right, i, j)|
    ensures !(Walk(left, right, i, j)[k].Add? && Walk(left, right, i, j)[k + 1].Remove?)
    decreases |left| - i + |right| - j
  {
    var ops := Walk(left, right, i, j);
    if i < |left| && j < |right| && left[i] == right[j] {
      if k > 0 { RemovalsPrecedeAdditions(left, right, i + 1, j + 1, k - 1); }
    } else if i < |left| && (j == |right| || Lcs(left, right, i + 1, j) >= Lcs(left, right, i, j + 1)) {
      if k > 0 { RemovalsPrecedeAdditions(left, right, i + 1, j, k - 1); }
    } else {
      assert ops[1..] == Walk(left, right, i, j + 1);
      if k > 0 {
        RemovalsPrecedeAdditions(left, right, i, j + 1, k - 1);
      } else if i < |left| && j + 1 < |right| && left[i] != right[j + 1] {
        if i + 1 < |left| { LcsSteps(left, right, i + 1, j); }
      }
    }
  }

  // ------------------------------------------------------------- summary

  /** The positions where a maximal run of non-EQUAL operations starts. */
  ghost function BlockStarts(ops: seq<Operation>): set<nat> {
    set k: nat | k < |ops| && StartsBlock(ops, k)
  }

  ghost predicate StartsBlock(ops: seq<Operation>, k: nat)
    requires k < |ops|
  {
    !ops[k].Equal? && (k == 0 || ops[k - 1].Equal?)
  }

  ghost predicate Summarizes(stats: Stats, ops: seq<Operation>) {
    && stats.addedLines == Count(ops, ADD)
    && stats.removedLines == Count(ops, REMOVE)
    && stats.unchangedLines == Count(ops, EQUAL)
    && stats.changeBlocks == |BlockStarts(ops)|
    && (stats.changed <==> exists op <- ops :: !op.Equal?)
  }

  lemma {:induction false} CountPositive(ops: seq<Operation>)
    ensures Count(ops, ADD) + Count(ops, REMOVE) > 0 <==> exists op <- ops :: !op.Equal?
  {
    if ops != [] {
      CountPositive(ops[1..]);
      assert ops == [ops[0]] + ops[1..];
    }
  }

  lemma BlocksSoFar(ops: seq<Operation>, k: nat)
    requires k < |ops|
    ensures BlockStarts(ops[..k + 1]) == BlockStarts(ops[..k]) + if StartsBlock(ops, k) then {k} else {}
    ensures |BlockStarts(ops[..k + 1])| == |BlockStarts(ops[..k])| + if StartsBlock(ops, k) then 1 else 0
  {
    assert k !in BlockStarts(ops[..k]);
  }

  method SummarizeOperations(operations: seq<Operation>) returns (stats: Stats)
    ensures Summarizes(stats, operations)
  {
    var addedLines, removedLines, unchangedLines, changeBlocks := 0, 0, 0, 0;
    assert BlockStarts([]) == {};
    hide BlockStarts;
    var inChange := false;
    for k := 0 to |operations|
      invariant addedLines == Count(operations[..k], ADD)
      invariant removedLines == Count(operations[..k], REMOVE)
      invariant unchangedLines == Count(operations[..k], EQUAL)
      invariant changeBlocks == |BlockStarts(operations[..k])|
      invariant inChange <==> k > 0 && !operations[k - 1].Equal?
    {
      var operation := operations[k];
      assert operations[..k + 1] == operations[..k] + [operation];
      BlocksSoFar(operations, k);
      CountSnoc(operations[..k], operation, ADD);
      CountSnoc(operations[..k], operation, REMOVE);
      CountSnoc(operations[..k], operation, EQUAL);
      if operation.Equal? {
        unchangedLines := unchangedLines + 1;
        inChange := false;
      } else {
        if !inChange { changeBlocks := changeBlocks + 1; }
        inChange := true;
        if operation.Add? { addedLines := addedLines + 1; } else { removedLines := removedLines + 1; }
      }
    }
    assert operations[..|operations|] == operations;
    CountPositive(operations);
    stats := Stats(addedLines, removedLines, unchangedLines, changeBlocks, addedLines > 0 || removedLines > 0);
  }

  // ---------------------------------------------------------- whole diff

  function Texts(side: seq<(nat, Line)>): seq<Line> {
    seq(|side|, k requires 0 <= k < |side| => side[k].1)
  }

  /** A script without changes pairs equal lists; a script between equal lists that is optimal has no changes. */
  lemma {:induction false} UnchangedWalk(left: seq<Line>, right: seq<Line>)
    ensures (forall op <- Walk(left, right, 0, 0) :: op.Equal?) <==> left == right
  {
    var ops := Walk(left, right, 0, 0);
    WalkIsScript(left, right, 0, 0);
    WalkKeepsLcs(left, right, 0, 0);
    SidesCount(ops);
    CountPositive(ops);
    if left == right {
      var all := seq(|left|, (k: nat) => k);
      LcsIsMaximal(left, right, 0, 0, all, all);
    }
    if forall op <- ops :: op.Equal? {
      AllEqualSides(ops);
      assert Texts(Numbered(left)) == left && Texts(Numbered(right)) == right;
    }
  }

  lemma {:induction false} AllEqualSides(ops: seq<Operation>)
    requires forall op <- ops :: op.Equal?
    ensures Texts(LeftSide(ops)) == Texts(RightSide(ops))
  {
    if ops != [] {
      AllEqualSides(ops[1..]);
      var l, r := LeftSide(ops[1..]), RightSide(ops[1..]);
      assert Texts(LeftSide(ops)) == [ops[0].text] + Texts(l);
      assert Texts(RightSide(ops)) == [ops[0].text] + Texts(r);
    }
  }

  /** Everything a reader of the finished diff relies on, for any two texts. */
  ghost predicate FaithfulDiff(ops: seq<Operation>, fromText: Text, toText: Text) {
    && Join(Texts(LeftSide(ops))) == fromText
    && Join(Texts(RightSide(ops))) == toText
    && ((exists op <- ops :: !op.Equal?) <==> fromText != toText)
    && Count(ops, REMOVE) + Count(ops, EQUAL) == |Lines(fromText)|
    && Count(ops, ADD) + Count(ops, EQUAL) == |Lines(toText)|
  }

  lemma WalkIsFaithful(fromText: Text, toText: Text)
    ensures FaithfulDiff(Walk(Lines(fromText), Lines(toText), 0, 0), fromText, toText)
  {
    var fromLines, toLines := Lines(fromText), Lines(toText);
    var ops := Walk(fromLines, toLines, 0, 0);
    WalkIsScript(fromLines, toLines, 0, 0);
    SidesCount(ops);
    UnchangedWalk(fromLines, toLines);
    LinesDetermineText(fromText, toText);
    LinesDetermineText(toText, fromText);
    assert Texts(LeftSide(ops)) == fromLines && Texts(RightSide(ops)) == toLines;
  }

  ghost predicate WithinBounds(text: Text) {
    |Lines(text)| <= MAX_LINES && forall l <- Lines(text) :: |l| <= MAX_LINE_CODE_UNITS
  }

  method BuildTextDiff(fromText: Text, toText: Text) returns (r: Result<Diff, SplitError>)
    ensures r.Ok? <==> WithinBounds(fromText) && WithinBounds(toText)
    ensures r.Ok? ==>
              && r.value.operations == Walk(Lines(fromText), Lines(toText), 0, 0)
              && FaithfulDiff(r.value.operations, fromText, toText)
              && Summarizes(r.value.stats, r.value.operations)
  {
    var fromLines :- SplitExactLines(fromText);
    var toLines :- SplitExactLines(toText);
    var operations := BuildOperations(fromLines, toLines);
    var stats := SummarizeOperations(operations);
    WalkIsFaithful(fromText, toText);
    return Ok(Diff(operations, stats));
  }
}
