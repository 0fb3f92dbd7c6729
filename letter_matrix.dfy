/**
  The letter grid of the word finder: a two-dimensional array whose cells are
  either the empty string or a single ASCII letter, how a raw array is
  accepted or rejected, and the bounds, content and adjacency queries the
  path search is built on.
*/
module Grid {
  import opened Wrappers

  /** The grid proper: rows of cell strings. */
  type Cells = seq<seq<string>>

  /** A (row, column) coordinate; either part may be out of range or negative. */
  type Coord = (int, int)

  /**
    One row of a raw input array. Python accepts any sized value as a row;
    the two that matter are a list of cell strings and a plain string, which
    has a length but is not a list.
  */
  datatype Row = ListRow(cells: seq<string>) | StrRow(s: string)

  /** Why a raw array is refused (the InvalidLetterMatrixException cases). */
  datatype ValidationError =
    | RaggedRows            // "All rows must be the same length."
    | NotListOfLists        // "Matrix must be a list of lists."
    | InvalidCell(elm: string)  // "Only single letters are permitted, {elm} is invalid."

  /** Python's len(row). */
  function RowLen(row: Row): nat {
    match row
    case ListRow(cells) => |cells|
    case StrRow(s) => |s|
  }

  predicate IsAsciiLetter(ch: char) {
    'A' <= ch <= 'Z' || 'a' <= ch <= 'z'
  }

  /** The cell rule the class promises: the empty string or one letter A-Z / a-z. */
  predicate ValidCell(s: string) {
    |s| == 0 || (|s| == 1 && IsAsciiLetter(s[0]))
  }

  /**
    What re.match of LETTER_REGEX = ^[A-Za-z]?$ accepts: Python's `$` matches
    at the end of the string and also just before a final newline.
  */
  predicate LetterRegexMatch(s: string) {
    ValidCell(s) || (|s| > 0 && s[|s| - 1] == '\n' && ValidCell(s[..|s| - 1]))
  }

  /** set(map(len, matrix)) */
  function RowLengths(m: seq<Row>): set<nat> {
    set i | 0 <= i < |m| :: RowLen(m[i])
  }

  ghost predicate SameLength(m: seq<Row>) {
    forall i, j :: 0 <= i < |m| && 0 <= j < |m| ==> RowLen(m[i]) == RowLen(m[j])
  }

  ghost predicate AllListRows(m: seq<Row>) {
    forall i :: 0 <= i < |m| ==> m[i].ListRow?
  }

  ghost predicate AllCellsAccepted(m: seq<Row>, accept: string -> bool) {
    forall i, j :: 0 <= i < |m| && m[i].ListRow? && 0 <= j < |m[i].cells| ==> accept(m[i].cells[j])
  }

  /** What the class documents as acceptable: rectangular, all lists, every cell valid. */
  ghost predicate WellFormed(m: seq<Row>) {
    SameLength(m) && AllListRows(m) && AllCellsAccepted(m, ValidCell)
  }

  /** What validate as written accepts: rectangular, all lists, every cell matched by the regex. */
  ghost predicate WellFormedAsWritten(m: seq<Row>) {
    SameLength(m) && AllListRows(m) && AllCellsAccepted(m, LetterRegexMatch)
  }

  /** The cell ends in a newline, the one case where the regex and the documented rule differ. */
  predicate EndsInNewline(s: string) {
    |s| > 0 && s[|s| - 1] == '\n'
  }

  /** The first cell, in row order, that `accept` refuses. */
  function FirstInvalid(cells: seq<string>, accept: string -> bool): Option<string> {
    if cells == [] then None
    else if !accept(cells[0]) then Some(cells[0])
    else FirstInvalid(cells[1..], accept)
  }

  /** The content checks of validate, row by row, stopping at the first failure. */
  function CheckContents(rows: seq<Row>, accept: string -> bool): Result<bool, ValidationError> {
    if rows == [] then Success(true)
    else
      match rows[0]
      case StrRow(_) => Failure(NotListOfLists)
      case ListRow(cells) =>
        match FirstInvalid(cells, accept)
        case Some(e) => Failure(InvalidCell(e))
        case None => CheckContents(rows[1..], accept)
  }

  /** validate with a given cell test: the row-length check strictly first. */
  function ValidationWith(m: seq<Row>, accept: string -> bool): Result<bool, ValidationError> {
    if |RowLengths(m)| > 1 then Failure(RaggedRows) else CheckContents(m, accept)
  }

  /**
    validate exactly as written, with Python's regular-expression semantics:
    it succeeds (with True) exactly on arrays that are rectangular, made of
    lists and whose every cell the regex matches; a ragged array fails on the
    length check.
  */
  function ValidationAsWritten(m: seq<Row>): (r: Result<bool, ValidationError>)
    ensures r.Success? <==> WellFormedAsWritten(m)
    ensures r.Success? ==> r.value
    ensures !SameLength(m) ==> r == Failure(RaggedRows)
  {
    ValidationWithIff(m, LetterRegexMatch);
    ValidationWith(m, LetterRegexMatch)
  }

  /** validate with the cell rule the docstring states, as a reference beside the code as written. */
  function Validation(m: seq<Row>): Result<bool, ValidationError> {
    ValidationWith(m, ValidCell)
  }

  /** The cells of an array whose rows are all lists. */
  function CellsOf(m: seq<Row>): (g: Cells)
    requires AllListRows(m)
    ensures |g| == |m| && forall i :: 0 <= i < |m| ==> g[i] == m[i].cells
  {
    seq(|m|, i requires 0 <= i < |m| => m[i].cells)
  }

  /** Python's s[i]: negative indices count from the end; anything else out of range is an IndexError. */
  function PyGet<T>(s: seq<T>, i: int): Option<T> {
    if 0 <= i < |s| then Some(s[i])
    else if -|s| <= i < 0 then Some(s[|s| + i])
    else None
  }

  /** NEIGHBOR_TRANSFORMS: the eight offsets, in the order neighbors tries them. */
  const NeighborTransforms: seq<Coord> :=
    [(-1, -1), (-1, 0), (-1, 1), (0, -1), (0, 1), (1, -1), (1, 0), (1, 1)]

  /** The neighbour candidate that the k-th transform gives for (r, c). */
  function Candidate(r: int, c: int, k: nat): Coord
    requires k < |NeighborTransforms|
  {
    (r + NeighborTransforms[k].0, c + NeighborTransforms[k].1)
  }

  /** p touches q, including diagonally, and is not q itself. */
  predicate Adjacent(p: Coord, q: Coord) {
    p != q && -1 <= p.0 - q.0 <= 1 && -1 <= p.1 - q.1 <= 1
  }

  /** Row-major order on coordinates. */
  predicate LexLess(p: Coord, q: Coord) {
    p.0 < q.0 || (p.0 == q.0 && p.1 < q.1)
  }

  /** The transform list is in strictly increasing row-major order. */
  lemma TransformsSorted()
    ensures forall j, k :: 0 <= j < k < |NeighborTransforms| ==>
      LexLess(NeighborTransforms[j], NeighborTransforms[k])
  {
  }

  /** The candidates of (r, c) are exactly its eight adjacent coordinates. */
  lemma CandidatesAreAdjacent(r: int, c: int)
    ensures forall k :: 0 <= k < |NeighborTransforms| ==> Adjacent(Candidate(r, c, k), (r, c))
    ensures forall p: Coord :: Adjacent(p, (r, c)) ==>
      exists k :: 0 <= k < |NeighborTransforms| && p == Candidate(r, c, k)
  {
    forall p: Coord | Adjacent(p, (r, c))
      ensures exists k :: 0 <= k < |NeighborTransforms| && p == Candidate(r, c, k)
    {
      var k := 3 * (p.0 - r + 1) + (p.1 - c + 1);
      var k' := if k > 4 then k - 1 else k;
      assert p == Candidate(r, c, k');
    }
  }

  /** Candidates of one cell come in the same order as their transforms. */
  lemma CandidateOrder(r: int, c: int, j: nat, k: nat)
    requires j < k < |NeighborTransforms|
    ensures LexLess(Candidate(r, c, j), Candidate(r, c, k))
  {
    TransformsSorted();
  }

  /** A raw array is acceptable exactly when it is rectangular, its rows are lists and every cell passes. */
  lemma {:induction false} ValidationWithIff(m: seq<Row>, accept: string -> bool)
    ensures ValidationWith(m, accept).Success? <==> SameLength(m) && AllListRows(m) && AllCellsAccepted(m, accept)
    ensures ValidationWith(m, accept).Success? ==> ValidationWith(m, accept).value
    ensures !SameLength(m) ==> ValidationWith(m, accept) == Failure(RaggedRows)
  {
    RowLengthsIff(m);
    CheckContentsIff(m, accept);
  }

  lemma {:induction false} RowLengthsIff(m: seq<Row>)
    ensures |RowLengths(m)| > 1 <==> !SameLength(m)
  {
    var lens := RowLengths(m);
    if SameLength(m) {
      if |m| > 0 {
        assert lens == {RowLen(m[0])};
      } else {
        assert lens == {};
      }
    } else {
      var i, j :| 0 <= i < |m| && 0 <= j < |m| && RowLen(m[i]) != RowLen(m[j]);
      var a, b := RowLen(m[i]), RowLen(m[j]);
      assert a in lens && b in lens;
      assert b in lens - {a};
      assert |lens - {a}| == |lens| - 1;
    }
  }

  lemma {:induction false} FirstInvalidIff(cells: seq<string>, accept: string -> bool)
    ensures FirstInvalid(cells, accept).None? <==> forall j :: 0 <= j < |cells| ==> accept(cells[j])
    ensures FirstInvalid(cells, accept).Some? ==>
      exists j :: 0 <= j < |cells| && cells[j] == FirstInvalid(cells, accept).value && !accept(cells[j])
  {
    if cells != [] {
      FirstInvalidIff(cells[1..], accept);
      if FirstInvalid(cells[1..], accept).Some? {
        var j :| 0 <= j < |cells[1..]| && cells[1..][j] == FirstInvalid(cells[1..], accept).value;
        assert cells[j + 1] == cells[1..][j];
      }
      if accept(cells[0]) && forall j :: 0 <= j < |cells[1..]| ==> accept(cells[1..][j]) {
        forall j | 0 <= j < |cells| ensures accept(cells[j]) {
          if j > 0 { assert cells[j] == cells[1..][j - 1]; }
        }
      }
    }
  }

  lemma {:induction false} CheckContentsIff(m: seq<Row>, accept: string -> bool)
    ensures CheckContents(m, accept).Success? <==> AllListRows(m) && AllCellsAccepted(m, accept)
    ensures CheckContents(m, accept).Success? ==> CheckContents(m, accept).value
  {
    if m != [] {
      CheckContentsIff(m[1..], accept);
      if m[0].ListRow? {
        FirstInvalidIff(m[0].cells, accept);
      }
      if AllListRows(m) && AllCellsAccepted(m, accept) {
        assert AllListRows(m[1..]) by {
          forall i | 0 <= i < |m[1..]| ensures m[1..][i].ListRow? { assert m[1..][i] == m[i + 1]; }
        }
        assert AllCellsAccepted(m[1..], accept) by {
          forall i, j | 0 <= i < |m[1..]| && m[1..][i].ListRow? && 0 <= j < |m[1..][i].cells|
            ensures accept(m[1..][i].cells[j])
          {
            assert m[1..][i] == m[i + 1];
          }
        }
      }
      if CheckContents(m, accept).Success? {
        forall i | 0 <= i < |m| ensures m[i].ListRow? {
          if i > 0 { assert m[i] == m[1..][i - 1]; }
        }
        forall i, j | 0 <= i < |m| && m[i].ListRow? && 0 <= j < |m[i].cells| ensures accept(m[i].cells[j]) {
          if i > 0 { assert m[i] == m[1..][i - 1]; }
        }
      }
    }
  }

  /** validate succeeds (with True) exactly on well-formed arrays; ragged arrays fail on the length check. */
  lemma ValidationIff(m: seq<Row>)
    ensures Validation(m).Success? <==> WellFormed(m)
    ensures Validation(m).Success? ==> Validation(m).value
    ensures !SameLength(m) ==> Validation(m) == Failure(RaggedRows)
  {
    ValidationWithIff(m, ValidCell);
  }

  /** A row that is a string is refused even when every row has the same length. */
  lemma StringRowRejected(m: seq<Row>, i: int)
    requires 0 <= i < |m| && m[i].StrRow?
    ensures ValidationAsWritten(m).Failure?
    ensures SameLength(m) ==>
      ValidationAsWritten(m) == Failure(NotListOfLists) || ValidationAsWritten(m).error.InvalidCell?
  {
    if SameLength(m) {
      RowLengthsIff(m);
      CheckContentsErrorKinds(m, LetterRegexMatch);
    }
  }

  lemma {:induction false} CheckContentsErrorKinds(m: seq<Row>, accept: string -> bool)
    ensures CheckContents(m, accept).Failure? ==>
      CheckContents(m, accept).error == NotListOfLists || CheckContents(m, accept).error.InvalidCell?
  {
    if m != [] { CheckContentsErrorKinds(m[1..], accept); }
  }

  /** The arrays the row-length tests accept. */
  lemma ShapeExamplesAccepted()
    ensures ValidationAsWritten([]) == Success(true)
    ensures ValidationAsWritten([ListRow([])]) == Success(true)
    ensures ValidationAsWritten([ListRow([""])]) == Success(true)
    ensures ValidationAsWritten([ListRow(["", "", ""]), ListRow(["", "", ""]), ListRow(["", "", ""])]) == Success(true)
  {
  }

  /** The ragged arrays the row-length tests reject. */
  lemma ShapeExamplesRejected()
    ensures ValidationAsWritten([ListRow([""]), ListRow([])]) == Failure(RaggedRows)
    ensures ValidationAsWritten([ListRow([""]), ListRow([""]), ListRow(["", ""])]) == Failure(RaggedRows)
  {
  }

  /** The letter arrays the content tests accept. */
  lemma ContentExamplesAccepted()
    ensures ValidationAsWritten([ListRow(["A", "a"])]) == Success(true)
    ensures ValidationAsWritten([ListRow(["A", "a"]), ListRow(["", ""]), ListRow(["B", "Z"])]) == Success(true)
  {
  }

  /** The cells and the string row the content tests reject. */
  lemma ContentExamplesRejected()
    ensures ValidationAsWritten([ListRow([" "])]) == Failure(InvalidCell(" "))
    ensures ValidationAsWritten([ListRow(["9"])]) == Failure(InvalidCell("9"))
    ensures ValidationAsWritten([ListRow(["."])]) == Failure(InvalidCell("."))
    ensures ValidationAsWritten([ListRow(["ABC"])]) == Failure(InvalidCell("ABC"))
    ensures ValidationAsWritten([StrRow("ABC")]) == Failure(NotListOfLists)
  {
    SingleLength([ListRow([" "])]);
    SingleLength([ListRow(["9"])]);
    SingleLength([ListRow(["."])]);
    SingleLength([ListRow(["ABC"])]);
    SingleLength([StrRow("ABC")]);
  }

  lemma SingleLength(m: seq<Row>)
    requires SameLength(m)
    ensures |RowLengths(m)| <= 1
  {
    RowLengthsIff(m);
  }

  /** The cell "A\n" (a letter and a final newline) passes validate as written but breaks the cell rule. */
  lemma RegexAcceptsTrailingNewline()
    ensures LetterRegexMatch("A\n") && !ValidCell("A\n")
    ensures LetterRegexMatch("\n") && !ValidCell("\n")
    ensures ValidationAsWritten([ListRow(["A\n"])]) == Success(true)
    ensures Validation([ListRow(["A\n"])]) == Failure(InvalidCell("A\n"))
  {
  }

  /**
    validate as written accepts every array the documented rule accepts, and
    the two give the same result on arrays in which no cell ends in a newline.
  */
  lemma AsWrittenVersusIntended(m: seq<Row>)
    ensures Validation(m).Success? ==> ValidationAsWritten(m).Success?
    ensures (forall i, j :: 0 <= i < |m| && m[i].ListRow? && 0 <= j < |m[i].cells| ==> !EndsInNewline(m[i].cells[j]))
      ==> Validation(m) == ValidationAsWritten(m)
  {
    ValidationWithIff(m, ValidCell);
    ValidationWithIff(m, LetterRegexMatch);
    if forall i, j :: 0 <= i < |m| && m[i].ListRow? && 0 <= j < |m[i].cells| ==> !EndsInNewline(m[i].cells[j]) {
      CheckContentsAgree(m);
    }
  }

  lemma {:induction false} FirstInvalidAgree(cells: seq<string>)
    requires forall j :: 0 <= j < |cells| ==> !EndsInNewline(cells[j])
    ensures FirstInvalid(cells, ValidCell) == FirstInvalid(cells, LetterRegexMatch)
  {
    if cells != [] {
      assert !EndsInNewline(cells[0]);
      assert forall j :: 0 <= j < |cells[1..]| ==> cells[1..][j] == cells[j + 1];
      FirstInvalidAgree(cells[1..]);
    }
  }

  lemma {:induction false} CheckContentsAgree(m: seq<Row>)
    requires forall i, j :: 0 <= i < |m| && m[i].ListRow? && 0 <= j < |m[i].cells| ==> !EndsInNewline(m[i].cells[j])
    ensures CheckContents(m, ValidCell) == CheckContents(m, LetterRegexMatch)
  {
    if m != [] {
      if m[0].ListRow? {
        FirstInvalidAgree(m[0].cells);
      }
      assert forall i :: 0 <= i < |m[1..]| ==> m[1..][i] == m[i + 1];
      CheckContentsAgree(m[1..]);
    }
  }

  /** The two cell tests differ only by the one extra final newline that `$` tolerates. */
  lemma LetterRegexMatchIff(s: string)
    ensures LetterRegexMatch(s) <==> ValidCell(s) || (exists ch :: (s == [ch, '\n'] && IsAsciiLetter(ch))) || s == "\n"
  {
  }

  class LetterMatrix {
    /** self.matrix */
    var matrix: Cells

    /** An object holding the given cells, without validation (what copy.deepcopy produces). */
    constructor FromCells(m: Cells)
      ensures matrix == m
    {
      matrix := m;
    }

    /** __init__: validate, then keep the array. */
    static method New(raw: seq<Row>) returns (r: Result<LetterMatrix, ValidationError>)
      ensures r.Failure? <==> !WellFormedAsWritten(raw)
      ensures r.Failure? ==> ValidationAsWritten(raw) == Failure(r.error)
      ensures r.Success? ==> fresh(r.value) && AllListRows(raw) && r.value.matrix == CellsOf(raw)
    {
      var ok := Validate(raw);
      if ok.Failure? {
        return Failure(ok.error);
      }
      var lm := new LetterMatrix.FromCells(CellsOf(raw));
      return Success(lm);
    }

    /** validate: the row-length check, then each row and cell in order, stopping at the first offence. */
    static method Validate(matrix: seq<Row>) returns (r: Result<bool, ValidationError>)
      ensures r == ValidationAsWritten(matrix)
    {
      var rowLengths := RowLengths(matrix);
      if |rowLengths| > 1 {
        return Failure(RaggedRows);
      }
      for i := 0 to |matrix|
        invariant CheckContents(matrix, LetterRegexMatch) == CheckContents(matrix[i..], LetterRegexMatch)
      {
        var row := matrix[i];
        if !row.ListRow? {
          return Failure(NotListOfLists);
        }
        for j := 0 to |row.cells|
          invariant FirstInvalid(row.cells, LetterRegexMatch) == FirstInvalid(row.cells[j..], LetterRegexMatch)
        {
          var elm := row.cells[j];
          if !LetterRegexMatch(elm) {
            return Failure(InvalidCell(elm));
          }
          assert row.cells[j..][1..] == row.cells[j + 1..];
        }
        assert matrix[i..][1..] == matrix[i + 1..];
      }
      return Success(true);
    }

    /** element: self.matrix[r][c] with Python's indexing; None is an IndexError. */
    function Element(r: int, c: int): Option<string>
      reads this
    {
      match PyGet(matrix, r)
      case None => None
      case Some(row) => PyGet(row, c)
    }

    /** exists: the coordinates lie inside the array (the column bound is that of row r). */
    predicate Exists(r: int, c: int)
      reads this
    {
      r >= 0 && r < |matrix| && c >= 0 && c < |matrix[r]|
    }

    /** is_letter: the cell exists and is not the empty string. */
    predicate IsLetter(r: int, c: int)
      reads this
    {
      Exists(r, c) && Element(r, c) != Some("")
    }

    /** The neighbours that the first k transforms contribute, in transform order. */
    function NeighborsUpTo(r: int, c: int, k: nat): seq<Coord>
      requires k <= |NeighborTransforms|
      reads this
    {
      if k == 0 then []
      else
        var p := Candidate(r, c, k - 1);
        NeighborsUpTo(r, c, k - 1) + (if IsLetter(p.0, p.1) then [p] else [])
    }

    /** What neighbors returns. */
    function NeighborCells(r: int, c: int): seq<Coord>
      reads this
    {
      NeighborsUpTo(r, c, |NeighborTransforms|)
    }

    /** neighbors: try each transform in turn, keeping the letter cells. */
    method Neighbors(r: int, c: int) returns (ns: seq<Coord>)
      ensures ns == NeighborCells(r, c)
      ensures |ns| <= 8
      ensures forall p :: p in ns <==> Adjacent(p, (r, c)) && IsLetter(p.0, p.1)
      ensures forall a, b :: 0 <= a < b < |ns| ==> LexLess(ns[a], ns[b])
    {
      ns := [];
      for i := 0 to |NeighborTransforms|
        invariant ns == NeighborsUpTo(r, c, i)
      {
        var t := NeighborTransforms[i];
        var candidate := (r + t.0, c + t.1);
        if IsLetter(candidate.0, candidate.1) {
          ns := ns + [candidate];
        }
      }
      NeighborsBounded(r, c);
      NeighborsExactly(r, c);
      NeighborsOrdered(r, c);
    }

    /**
      remove_word on this object: the letter removal and column collapse are
      not part of this model, so the new cells are whatever `removeWord` makes
      of the old ones.
    */
    method RemoveWord(s: seq<Coord>, removeWord: (Cells, seq<Coord>) -> Cells)
      modifies this
      ensures matrix == removeWord(old(matrix), s)
    {
      matrix := removeWord(matrix, s);
    }

    /** Inside the array, element returns the stored cell; elsewhere with non-negative indices it raises. */
    lemma ExistsMeansElement(r: int, c: int)
      ensures Exists(r, c) ==> Element(r, c) == Some(matrix[r][c])
      ensures r >= 0 && c >= 0 ==> (Exists(r, c) <==> Element(r, c).Some?)
    {
    }

    /** element accepts exactly Python's index range, negative indices counting from the end. */
    lemma ElementDefined(r: int, c: int)
      ensures Element(r, c).Some? <==>
        -|matrix| <= r < |matrix| &&
        (var row := matrix[if r < 0 then r + |matrix| else r]; -|row| <= c < |row|)
      ensures Element(r, c).Some? ==>
        var row := matrix[if r < 0 then r + |matrix| else r];
        Element(r, c).value == row[if c < 0 then c + |row| else c]
    {
    }

    /** is_letter: exists and the stored cell is non-empty. */
    lemma IsLetterMeans(r: int, c: int)
      ensures IsLetter(r, c) <==> Exists(r, c) && matrix[r][c] != ""
    {
    }

    lemma {:induction false} NeighborsUpToSound(r: int, c: int, k: nat)
      requires k <= |NeighborTransforms|
      ensures |NeighborsUpTo(r, c, k)| <= k
      ensures forall p :: p in NeighborsUpTo(r, c, k) ==>
        IsLetter(p.0, p.1) && exists j :: 0 <= j < k && p == Candidate(r, c, j)
    {
      if k > 0 {
        NeighborsUpToSound(r, c, k - 1);
      }
    }

    lemma {:induction false} NeighborsUpToComplete(r: int, c: int, k: nat)
      requires k <= |NeighborTransforms|
      ensures forall j :: 0 <= j < k && IsLetter(Candidate(r, c, j).0, Candidate(r, c, j).1) ==>
        Candidate(r, c, j) in NeighborsUpTo(r, c, k)
    {
      if k > 0 {
        NeighborsUpToComplete(r, c, k - 1);
      }
    }

    lemma {:induction false} NeighborsUpToOrdered(r: int, c: int, k: nat)
      requires k <= |NeighborTransforms|
      ensures forall a, b :: 0 <= a < b < |NeighborsUpTo(r, c, k)| ==>
        LexLess(NeighborsUpTo(r, c, k)[a], NeighborsUpTo(r, c, k)[b])
    {
      if k > 0 {
        NeighborsUpToOrdered(r, c, k - 1);
        NeighborsUpToSound(r, c, k - 1);
        var prev := NeighborsUpTo(r, c, k - 1);
        var p := Candidate(r, c, k - 1);
        forall q | q in prev ensures LexLess(q, p) {
          var j :| 0 <= j < k - 1 && q == Candidate(r, c, j);
          CandidateOrder(r, c, j, k - 1);
        }
      }
    }

    /** In the grid [["A", "B"], ["", "C"]] the letter cells next to (0, 0) are (0, 1) and (1, 1). */
    lemma NeighborsExample()
      requires matrix == [["A", "B"], ["", "C"]]
      ensures NeighborCells(0, 0) == [(0, 1), (1, 1)]
      ensures NeighborCells(1, 0) == [(0, 0), (0, 1), (1, 1)]
    {
      assert NeighborsUpTo(0, 0, 1) == [];
      assert NeighborsUpTo(0, 0, 2) == [];
      assert NeighborsUpTo(0, 0, 3) == [];
      assert NeighborsUpTo(0, 0, 4) == [];
      assert NeighborsUpTo(0, 0, 5) == [(0, 1)];
      assert NeighborsUpTo(0, 0, 7) == [(0, 1)];
      assert NeighborsUpTo(1, 0, 1) == [];
      assert NeighborsUpTo(1, 0, 2) == [(0, 0)];
      assert NeighborsUpTo(1, 0, 3) == [(0, 0), (0, 1)];
      assert NeighborsUpTo(1, 0, 4) == [(0, 0), (0, 1)];
      assert NeighborsUpTo(1, 0, 5) == [(0, 0), (0, 1), (1, 1)];
      assert NeighborsUpTo(1, 0, 7) == [(0, 0), (0, 1), (1, 1)];
    }

    /** neighbors returns at most eight coordinates. */
    lemma NeighborsBounded(r: int, c: int)
      ensures |NeighborCells(r, c)| <= 8
    {
      NeighborsUpToSound(r, c, |NeighborTransforms|);
    }

    /** neighbors returns exactly the adjacent letter cells (so never (r, c) itself). */
    lemma NeighborsExactly(r: int, c: int)
      ensures forall p :: p in NeighborCells(r, c) <==> Adjacent(p, (r, c)) && IsLetter(p.0, p.1)
    {
      NeighborsUpToSound(r, c, |NeighborTransforms|);
      NeighborsUpToComplete(r, c, |NeighborTransforms|);
      CandidatesAreAdjacent(r, c);
    }

    /** Every neighbour is (r, c) moved by one of the eight transforms. */
    lemma NeighborsFromTransforms(r: int, c: int)
      ensures forall p :: p in NeighborCells(r, c) ==>
        exists t :: t in NeighborTransforms && p == (r + t.0, c + t.1)
    {
      NeighborsUpToSound(r, c, |NeighborTransforms|);
      forall p | p in NeighborCells(r, c) ensures exists t :: t in NeighborTransforms && p == (r + t.0, c + t.1) {
        var j :| 0 <= j < |NeighborTransforms| && p == Candidate(r, c, j);
        assert NeighborTransforms[j] in NeighborTransforms;
      }
    }

    /**
      neighbors lists its results in transform-list order, which is strict
      row-major order; in particular no coordinate appears twice.
    */
    lemma NeighborsOrdered(r: int, c: int)
      ensures forall a, b :: 0 <= a < b < |NeighborCells(r, c)| ==>
        LexLess(NeighborCells(r, c)[a], NeighborCells(r, c)[b])
      ensures forall a, b :: 0 <= a < b < |NeighborCells(r, c)| ==>
        NeighborCells(r, c)[a] != NeighborCells(r, c)[b]
    {
      NeighborsUpToOrdered(r, c, |NeighborTransforms|);
    }
  }
}
