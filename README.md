# word-finder: the letter grid and the multi-word solver, in Dafny

This project models two parts of the word finder and proves properties about them.

The first part is `LetterMatrix`. It decides whether a raw two-dimensional array is an acceptable letter grid. An acceptable grid has rows of equal length, every row is a list, and every cell is empty or one ASCII letter. (As written, the cell regex also lets through a letter or nothing followed by a final newline; see "## Findings".) The class also answers bounds and content queries (`element`, `exists`, `is_letter`). It lists a cell's 8-connected letter neighbours in the fixed order of `NEIGHBOR_TRANSFORMS`.

The second part is `solve_word_game`. It takes every candidate path for the first word length. For each one it removes that word from a private copy of the grid, solves for the remaining lengths on the copy, and puts the first word in front of each sub-solution.

Files:

- `wrappers.dfy`: module `Wrappers`, with `Option` and `Result`.
- `letter_matrix.dfy`: module `Grid`, with the validation specification and the class `LetterMatrix`.
  - `LetterMatrix` has a `matrix` field.
  - `Validate` and `Neighbors` are methods with loops, proved equal to specification functions.
  - `Element`, `Exists` and `IsLetter` are functions.
  - `New` models `__init__`.
  - `FromCells` is the unvalidated construction that `copy.deepcopy` performs.
  - `RemoveWord` changes the object in place.
- `solve.dfy`: module `Solve`.
  - `SolveWordGame` is the imperative solver: a loop over the candidates that accumulates solutions.
  - It is proved equal to the recursive specification `Solutions`.
  - `Solutions` is built from `Accumulated`, which covers the candidates processed so far, and `Branch`, which covers one candidate.

`find_word_coords`, `word_at` and `remove_word` are called by the solver but are not in `letter_matrix.py` as shown. They are passed to the solver as the three operations of a `Search<D>` value, and nothing is assumed about them. `D` is the dictionary type, passed through unchanged.

The raw input is a `seq<Row>`. A `Row` is either `ListRow(cells)` or `StrRow(s)`, so the `isinstance(row, list)` guard can be expressed. Exceptions are `Result.Failure` values:

- `ValidationError` gives the three reasons `InvalidLetterMatrixException` is raised, including the offending cell.
- `None` stands for Python's `IndexError` in `Element`.

## Model

| member | source | states |
|---|---|---|
| `Grid.LetterMatrix.Validate` | wordfinder/letter_matrix.py:25-49 | The result is validate's verdict as written: the row-length check comes first, then rows and cells in order, with each cell tested by the regex as Python matches it. The first offence decides the error. |
| `Grid.ValidationAsWritten` | wordfinder/letter_matrix.py:36-48 | Validation as written succeeds exactly when all rows have the same length, every row is a list, and the regex matches every cell. Success always carries `True`. Any ragged array fails with `RaggedRows`. |
| `Grid.ValidationIff` | wordfinder/letter_matrix.py:27-34 | The rule the docstring documents, as a reference: it succeeds exactly when all rows have the same length, every row is a list, and every cell is `""` or one letter A–Z/a–z. Success always carries `True`. Any ragged array fails with `RaggedRows`. |
| `Grid.ValidationWithIff` | wordfinder/letter_matrix.py:36-48 | The same if-and-only-if holds for any cell test, together with the rule that the length check comes first. |
| `Grid.RowLengthsIff` | wordfinder/letter_matrix.py:36-37 | The set of row lengths has more than one element exactly when two rows differ in length. |
| `Grid.StringRowRejected` | wordfinder/letter_matrix.py:40-43 | If any row is a string, validation as written fails. If the rows are also of equal length, it fails on a content check rather than the length check. |
| `Grid.ShapeExamplesAccepted` | tests/test_letter_matrix.py:6-15 | Validation as written accepts `[]`, `[[]]`, `[['']]` and the empty 3×3 array. |
| `Grid.ShapeExamplesRejected` | tests/test_letter_matrix.py:16-24 | `[[''],[]]` and `[[''],[''],['','']]` are rejected with the row-length error. |
| `Grid.ContentExamplesAccepted` | tests/test_letter_matrix.py:29-37 | `[['A','a']]` and `[['A','a'],['',''],['B','Z']]` are accepted. |
| `Grid.ContentExamplesRejected` | tests/test_letter_matrix.py:38-42 | The cells `' '`, `'9'`, `'.'` and `'ABC'` are rejected, each named in its error. The string row `['ABC']` is rejected as not a list of lists. |
| `Grid.RegexAcceptsTrailingNewline` | wordfinder/letter_matrix.py:8 | Python's match of `^[A-Za-z]?$` accepts `"A\n"` and `"\n"`, which the documented rule refuses. Validation as written therefore accepts `[['A\n']]`, and the documented rule rejects it. |
| `Grid.LetterRegexMatchIff` | wordfinder/letter_matrix.py:8 | The regular expression, as Python matches it, accepts exactly the valid cells, one letter followed by a newline, and `"\n"`. |
| `Grid.AsWrittenVersusIntended` | wordfinder/letter_matrix.py:44-48 | Validation as written accepts everything the documented rule accepts. When no cell ends in a newline, the two give the same result, error included. |
| `Grid.LetterMatrix.New` | wordfinder/letter_matrix.py:21-23 | Construction fails, with validate's error, exactly on arrays that validate as written refuses. Otherwise it returns a fresh object holding the array's cells. |
| `Grid.LetterMatrix.FromCells` | wordfinder/solve.py:16 | The copy made by `copy.deepcopy` is a new object holding exactly the same cells, without validation. |
| `Grid.LetterMatrix.RemoveWord` | wordfinder/solve.py:17 | `remove_word(s)` replaces this object's cells, in place, with the removal operation applied to the old cells and `s`. |
| `Grid.LetterMatrix.ExistsMeansElement` | wordfinder/letter_matrix.py:51-59 | Inside the array, `element` returns the stored cell. For non-negative coordinates, `exists` holds exactly when `element` does not raise. |
| `Grid.LetterMatrix.ElementDefined` | wordfinder/letter_matrix.py:51-53 | `element` is defined exactly on Python's index range. Where defined, it returns the cell at those indices, with negative indices counting from the end of the list. |
| `Grid.LetterMatrix.IsLetterMeans` | wordfinder/letter_matrix.py:61-63 | `is_letter` holds exactly when the coordinates exist and the stored cell is not `""`. |
| `Grid.LetterMatrix.Neighbors` | wordfinder/letter_matrix.py:65-77 | The loop returns the transform-order filter of the candidates. The result has at most 8 entries, holds exactly the adjacent letter cells, and is in strictly increasing row-major order. |
| `Grid.LetterMatrix.NeighborsBounded` | wordfinder/letter_matrix.py:65-77 | `neighbors` returns at most 8 coordinates. |
| `Grid.LetterMatrix.NeighborsExactly` | wordfinder/letter_matrix.py:65-77 | A coordinate is in the result exactly when it is adjacent (including diagonals) and is a letter cell. So `(r, c)` itself is never in the result. |
| `Grid.LetterMatrix.NeighborsFromTransforms` | wordfinder/letter_matrix.py:10-19 | Every result is `(r, c)` moved by one of the 8 offsets of `NEIGHBOR_TRANSFORMS`. |
| `Grid.LetterMatrix.NeighborsOrdered` | wordfinder/letter_matrix.py:72-77 | Results are in strictly increasing row-major order, which is transform-list order, so the result has no duplicates. |
| `Grid.LetterMatrix.NeighborsUpToSound` | wordfinder/letter_matrix.py:73-76 | After k transforms the list has at most k entries. Each entry is a letter cell produced by one of the first k transforms. |
| `Grid.LetterMatrix.NeighborsUpToComplete` | wordfinder/letter_matrix.py:73-76 | After k transforms, every letter cell produced by one of those transforms is in the list. |
| `Grid.LetterMatrix.NeighborsExample` | wordfinder/letter_matrix.py:65-77 | In `[['A','B'],['','C']]`, the neighbours of (0,0) are (0,1) and (1,1). The neighbours of (1,0) are (0,0), (0,1) and (1,1). |
| `Grid.TransformsSorted` | wordfinder/letter_matrix.py:10-19 | `NEIGHBOR_TRANSFORMS` is in strictly increasing row-major order. |
| `Grid.CandidatesAreAdjacent` | wordfinder/letter_matrix.py:10-19 | The 8 transforms of `(r, c)` are exactly its adjacent coordinates. |
| `Solve.SolveWordGame` | wordfinder/solve.py:3-25 | The loop over candidates computes `Solutions` on the input grid. Each branch works on a fresh copy changed by `remove_word`. The method has no `modifies` clause, so it cannot change the input object. |
| `Solve.SolutionArity` | wordfinder/solve.py:9-23 | Every solution has exactly `len(word_lengths)` words. |
| `Solve.SingleLengthSolutions` | wordfinder/solve.py:6-13 | With one length, the result is `[[word_at(s)] for s in find_word_coords(n)]`, in candidate order. |
| `Solve.SolutionsCharacterized` | wordfinder/solve.py:6-23 | With more than one length, a sequence is a solution exactly when two things hold: its first word is `word_at(s)` for a candidate `s` of the input grid, and its tail is a solution of the remaining lengths on `remove_word(s)` of that grid. |
| `Solve.FirstWordProvenance` | wordfinder/solve.py:6-8 | Every solution is non-empty, and its first word is spelled by a first-word candidate of the input grid. |
| `Solve.SolutionCount` | wordfinder/solve.py:4-25 | The number of solutions is the sum over candidates of each candidate's contribution: 1 for the last word, otherwise the size of its sub-solution list. No candidates gives `[]`. |
| `Solve.GroupedByCandidate` | wordfinder/solve.py:7-23 | The k-th candidate's solutions form one contiguous slice of the result, placed right after the slices of the candidates before it. |
| `Solve.PrependMembers` | wordfinder/solve.py:23 | `[[word] + r for r in rs]` holds exactly the sequences that start with `word` and continue with an element of `rs`. |

## Left out

- `find_word_coords`, `word_at` and `remove_word` (path search, spelling a path, removing letters and collapsing columns) are called by `solve.py` but not defined in `letter_matrix.py` as shown. They are opaque operations of `Solve.Search`, and no search or collapse property is stated about them.
- The concrete solver tests (`[[]]`, `[['A','B','C']]`, the 2×2 grid) depend on those operations' bodies. Only their shape is covered: no candidates gives `[]` (`Solve.SolutionCount`).
- The dictionary (`wordfinder/dictionary.py`) is not part of this model. It is a type parameter handed unchanged to `find_word_coords`.
- `wordfinder/__main__.py` (CSV reading, argument parsing, printing, exit status) and `setup.py` are not part of this model.
- Cells that are not strings make Python's regex call raise `TypeError`. The cell type `string` rules them out.
- Rows other than lists and strings (tuples, for example) are not modelled.
- Exception messages are not modelled. Only the kind of error and the offending cell are kept.
- `word_lengths == []` makes `word_lengths[0]` raise `IndexError`. `Solve.SolveWordGame` requires a non-empty list instead of modelling that crash.
- Python's `copy.deepcopy` is modelled as a fresh `LetterMatrix` holding the same cell sequence. Sequences are values, so the copy shares nothing that can be changed.

## Findings

| source | as written | input that shows it | evidently intended | confidence | as-written member | corrected member |
|---|---|---|---|---|---|---|
| wordfinder/letter_matrix.py:8 | `re.match('^[A-Za-z]?$', elm)`. Python's `$` also matches just before a final newline. | `[['A\n']]` and `[['\n']]` are accepted. | Each cell is a string of length 0 or 1, and a length-1 cell is a letter (docstring at wordfinder/letter_matrix.py:32-34). | not executed; follows from Python's documented `$` semantics | `Grid.RegexAcceptsTrailingNewline` | `Grid.ValidationIff` |

`Grid.ValidationAsWritten` uses the regular expression as Python evaluates it (`Grid.LetterRegexMatch`). `LetterMatrix.Validate` and `LetterMatrix.New` follow it, so they behave as the code does. `Grid.Validation` uses the documented rule (`Grid.ValidCell`). It is the corrected reference, and `Grid.AsWrittenVersusIntended` shows the two agree except on cells ending in a newline.
