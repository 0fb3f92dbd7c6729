/**
  The multi-word solver: find a first word, remove it from a private copy of
  the grid, solve for the remaining word lengths on that copy, and put the
  first word in front of every sub-solution.

  The path search, the spelling of a path and the removal of a word (with
  column collapse) are not part of this model; the solver receives them as
  the operations of a `Search` value and relies on nothing about them.
*/
module Solve {
  import opened Grid

  /** A candidate word's trace: a sequence of grid coordinates. */
  type Path = seq<Coord>

  /** One complete answer: one word per requested length. */
  type Solution = seq<string>

  /**
    The LetterMatrix operations that solve_word_game calls but that are not
    part of this model: find_word_coords(length, dictionary=...), word_at(path)
    and remove_word(path), each as a function of the grid's cells. `D` is the
    dictionary, passed through untouched.
  */
  datatype Search<!D> = Search(
    findWordCoords: (Cells, int, D) -> seq<Path>,
    wordAt: (Cells, Path) -> string,
    removeWord: (Cells, Path) -> Cells)

  /** [[word] + r for r in rs] */
  function Prepend(word: string, rs: seq<Solution>): (out: seq<Solution>)
    ensures |out| == |rs| && forall i :: 0 <= i < |rs| ==> out[i] == [word] + rs[i]
  {
    seq(|rs|, i requires 0 <= i < |rs| => [word] + rs[i])
  }

  /** The solutions on grid m for the given lengths, in candidate order. */
  function Solutions<D>(ops: Search<D>, m: Cells, lengths: seq<int>, dict: D): seq<Solution>
    requires |lengths| > 0
    decreases |lengths|, 1, 0
  {
    var cands := ops.findWordCoords(m, lengths[0], dict);
    Accumulated(ops, m, lengths, dict, cands, |cands|)
  }

  /** The solutions contributed by one first-word candidate s. */
  function Branch<D>(ops: Search<D>, m: Cells, lengths: seq<int>, dict: D, s: Path): seq<Solution>
    requires |lengths| > 0
    decreases |lengths|, 0, 0
  {
    var word := ops.wordAt(m, s);
    if |lengths| == 1 then [[word]]
    else Prepend(word, Solutions(ops, ops.removeWord(m, s), lengths[1..], dict))
  }

  /** The solutions list after the loop has processed the first k candidates. */
  function Accumulated<D>(ops: Search<D>, m: Cells, lengths: seq<int>, dict: D, cands: seq<Path>, k: nat): seq<Solution>
    requires |lengths| > 0 && k <= |cands|
    decreases |lengths|, 0, k
  {
    if k == 0 then []
    else Accumulated(ops, m, lengths, dict, cands, k - 1) + Branch(ops, m, lengths, dict, cands[k - 1])
  }

  /** How many solutions one candidate contributes: one, or as many as the reduced grid has. */
  function BranchCount<D>(ops: Search<D>, m: Cells, lengths: seq<int>, dict: D, s: Path): nat
    requires |lengths| > 0
  {
    if |lengths| == 1 then 1 else |Solutions(ops, ops.removeWord(m, s), lengths[1..], dict)|
  }

  /** The sum of BranchCount over the first k candidates. */
  function CountUpTo<D>(ops: Search<D>, m: Cells, lengths: seq<int>, dict: D, cands: seq<Path>, k: nat): nat
    requires |lengths| > 0 && k <= |cands|
  {
    if k == 0 then 0
    else CountUpTo(ops, m, lengths, dict, cands, k - 1) + BranchCount(ops, m, lengths, dict, cands[k - 1])
  }

  /**
    solve_word_game. The grid object is only read: each candidate gets a
    fresh copy (copy.deepcopy), remove_word changes only that copy, and the
    recursive call sees only it.
  */
  method SolveWordGame<D>(matrix: LetterMatrix, wordLengths: seq<int>, dictionary: D, ops: Search<D>)
    returns (solutions: seq<Solution>)
    requires |wordLengths| > 0
    ensures solutions == Solutions(ops, matrix.matrix, wordLengths, dictionary)
    decreases |wordLengths|
  {
    solutions := [];
    var subsolns := ops.findWordCoords(matrix.matrix, wordLengths[0], dictionary);
    for i := 0 to |subsolns|
      invariant solutions == Accumulated(ops, matrix.matrix, wordLengths, dictionary, subsolns, i)
    {
      var s := subsolns[i];
      var word := ops.wordAt(matrix.matrix, s);
      var remainingWordLengths := wordLengths[1..];
      if |remainingWordLengths| == 0 {
        solutions := solutions + [[word]];
      } else {
        var reducedMatrix := new LetterMatrix.FromCells(matrix.matrix);
        reducedMatrix.RemoveWord(s, ops.removeWord);
        var remainingSolutions := SolveWordGame(reducedMatrix, remainingWordLengths, dictionary, ops);
        solutions := solutions + Prepend(word, remainingSolutions);
      }
    }
  }

  lemma PrependMembers(word: string, rs: seq<Solution>)
    ensures forall sol :: sol in Prepend(word, rs) <==> |sol| > 0 && sol[0] == word && sol[1..] in rs
  {
    forall sol ensures sol in Prepend(word, rs) <==> |sol| > 0 && sol[0] == word && sol[1..] in rs {
      if |sol| > 0 && sol[0] == word && sol[1..] in rs {
        var j :| 0 <= j < |rs| && rs[j] == sol[1..];
        assert Prepend(word, rs)[j] == sol;
      }
      if sol in Prepend(word, rs) {
        var j :| 0 <= j < |rs| && Prepend(word, rs)[j] == sol;
        assert sol[1..] == rs[j];
      }
    }
  }

  lemma {:induction false} BranchArity<D>(ops: Search<D>, m: Cells, lengths: seq<int>, dict: D, s: Path)
    requires |lengths| > 0
    ensures forall sol :: sol in Branch(ops, m, lengths, dict, s) ==> |sol| == |lengths|
    decreases |lengths|, 0
  {
    if |lengths| > 1 {
      var rest := Solutions(ops, ops.removeWord(m, s), lengths[1..], dict);
      SolutionArity(ops, ops.removeWord(m, s), lengths[1..], dict);
      PrependMembers(ops.wordAt(m, s), rest);
    }
  }

  lemma {:induction false} AccumulatedArity<D>(ops: Search<D>, m: Cells, lengths: seq<int>, dict: D, cands: seq<Path>, k: nat)
    requires |lengths| > 0 && k <= |cands|
    ensures forall sol :: sol in Accumulated(ops, m, lengths, dict, cands, k) ==> |sol| == |lengths|
    decreases |lengths|, 1, k
  {
    if k > 0 {
      AccumulatedArity(ops, m, lengths, dict, cands, k - 1);
      BranchArity(ops, m, lengths, dict, cands[k - 1]);
    }
  }

  /** Every solution has exactly one word per requested length. */
  lemma {:induction false} SolutionArity<D>(ops: Search<D>, m: Cells, lengths: seq<int>, dict: D)
    requires |lengths| > 0
    ensures forall sol :: sol in Solutions(ops, m, lengths, dict) ==> |sol| == |lengths|
    decreases |lengths|, 2
  {
    var cands := ops.findWordCoords(m, lengths[0], dict);
    AccumulatedArity(ops, m, lengths, dict, cands, |cands|);
  }

  lemma {:induction false} AccumulatedSingle<D>(ops: Search<D>, m: Cells, lengths: seq<int>, dict: D, cands: seq<Path>, k: nat)
    requires |lengths| == 1 && k <= |cands|
    ensures Accumulated(ops, m, lengths, dict, cands, k) == seq(k, i requires 0 <= i < k => [ops.wordAt(m, cands[i])])
  {
    if k > 0 {
      AccumulatedSingle(ops, m, lengths, dict, cands, k - 1);
    }
  }

  /** With one length the result is one single-word solution per candidate, in candidate order. */
  lemma SingleLengthSolutions<D>(ops: Search<D>, m: Cells, n: int, dict: D)
    ensures var cands := ops.findWordCoords(m, n, dict);
      Solutions(ops, m, [n], dict) == seq(|cands|, i requires 0 <= i < |cands| => [ops.wordAt(m, cands[i])])
  {
    var cands := ops.findWordCoords(m, n, dict);
    AccumulatedSingle(ops, m, [n], dict, cands, |cands|);
  }

  /** sol starts with the word that path s spells and continues with a solution on s's reduced grid. */
  ghost predicate ExtendsCandidate<D>(ops: Search<D>, m: Cells, lengths: seq<int>, dict: D, s: Path, sol: Solution)
    requires |lengths| > 1
  {
    |sol| > 0 && sol[0] == ops.wordAt(m, s) && sol[1..] in Solutions(ops, ops.removeWord(m, s), lengths[1..], dict)
  }

  lemma {:induction false} AccumulatedMembers<D>(ops: Search<D>, m: Cells, lengths: seq<int>, dict: D, cands: seq<Path>, k: nat)
    requires |lengths| > 1 && k <= |cands|
    ensures forall sol :: sol in Accumulated(ops, m, lengths, dict, cands, k) <==>
      exists i :: 0 <= i < k && ExtendsCandidate(ops, m, lengths, dict, cands[i], sol)
  {
    if k > 0 {
      AccumulatedMembers(ops, m, lengths, dict, cands, k - 1);
      var s := cands[k - 1];
      var branch := Branch(ops, m, lengths, dict, s);
      PrependMembers(ops.wordAt(m, s), Solutions(ops, ops.removeWord(m, s), lengths[1..], dict));
      assert forall sol :: sol in branch <==> ExtendsCandidate(ops, m, lengths, dict, s, sol);
      forall sol
        ensures sol in Accumulated(ops, m, lengths, dict, cands, k) <==>
          exists i :: 0 <= i < k && ExtendsCandidate(ops, m, lengths, dict, cands[i], sol)
      {
        if exists i :: 0 <= i < k && ExtendsCandidate(ops, m, lengths, dict, cands[i], sol) {
          var i :| 0 <= i < k && ExtendsCandidate(ops, m, lengths, dict, cands[i], sol);
          if i < k - 1 {
            assert sol in Accumulated(ops, m, lengths, dict, cands, k - 1);
          } else {
            assert sol in branch;
          }
        }
      }
    }
  }

  /**
    With more than one length, a sequence is a solution exactly when its first
    word is spelled by some first-word candidate on the input grid and its tail
    is a solution of the remaining lengths on that candidate's reduced grid.
  */
  lemma SolutionsCharacterized<D>(ops: Search<D>, m: Cells, lengths: seq<int>, dict: D)
    requires |lengths| > 1
    ensures var cands := ops.findWordCoords(m, lengths[0], dict);
      forall sol :: sol in Solutions(ops, m, lengths, dict) <==>
        exists i :: 0 <= i < |cands| && |sol| > 0 && sol[0] == ops.wordAt(m, cands[i]) &&
          sol[1..] in Solutions(ops, ops.removeWord(m, cands[i]), lengths[1..], dict)
  {
    var cands := ops.findWordCoords(m, lengths[0], dict);
    AccumulatedMembers(ops, m, lengths, dict, cands, |cands|);
  }

  /** The first word of every solution is spelled by a first-word candidate of the input grid. */
  lemma FirstWordProvenance<D>(ops: Search<D>, m: Cells, lengths: seq<int>, dict: D)
    requires |lengths| > 0
    ensures var cands := ops.findWordCoords(m, lengths[0], dict);
      forall sol :: sol in Solutions(ops, m, lengths, dict) ==>
        |sol| > 0 && exists i :: 0 <= i < |cands| && sol[0] == ops.wordAt(m, cands[i])
  {
    var cands := ops.findWordCoords(m, lengths[0], dict);
    if |lengths| == 1 {
      SingleLengthSolutions(ops, m, lengths[0], dict);
      assert lengths == [lengths[0]];
    } else {
      SolutionsCharacterized(ops, m, lengths, dict);
    }
  }

  lemma {:induction false} AccumulatedCount<D>(ops: Search<D>, m: Cells, lengths: seq<int>, dict: D, cands: seq<Path>, k: nat)
    requires |lengths| > 0 && k <= |cands|
    ensures |Accumulated(ops, m, lengths, dict, cands, k)| == CountUpTo(ops, m, lengths, dict, cands, k)
  {
    if k > 0 {
      AccumulatedCount(ops, m, lengths, dict, cands, k - 1);
    }
  }

  /** The number of solutions is the sum, over the candidates, of what each contributes. */
  lemma SolutionCount<D>(ops: Search<D>, m: Cells, lengths: seq<int>, dict: D)
    requires |lengths| > 0
    ensures var cands := ops.findWordCoords(m, lengths[0], dict);
      |Solutions(ops, m, lengths, dict)| == CountUpTo(ops, m, lengths, dict, cands, |cands|)
    ensures ops.findWordCoords(m, lengths[0], dict) == [] ==> Solutions(ops, m, lengths, dict) == []
  {
    var cands := ops.findWordCoords(m, lengths[0], dict);
    AccumulatedCount(ops, m, lengths, dict, cands, |cands|);
  }

  lemma {:induction false} AccumulatedPrefix<D>(ops: Search<D>, m: Cells, lengths: seq<int>, dict: D, cands: seq<Path>, j: nat, k: nat)
    requires |lengths| > 0 && j <= k <= |cands|
    ensures Accumulated(ops, m, lengths, dict, cands, j) <= Accumulated(ops, m, lengths, dict, cands, k)
    decreases k
  {
    if j < k {
      AccumulatedPrefix(ops, m, lengths, dict, cands, j, k - 1);
    }
  }

  /**
    Solutions come grouped by first-word candidate, in candidate order: the
    k-th candidate's solutions occupy the slice that starts after those of
    the candidates before it.
  */
  lemma GroupedByCandidate<D>(ops: Search<D>, m: Cells, lengths: seq<int>, dict: D, k: nat)
    requires |lengths| > 0 && k < |ops.findWordCoords(m, lengths[0], dict)|
    ensures var cands := ops.findWordCoords(m, lengths[0], dict);
      var lo, hi := CountUpTo(ops, m, lengths, dict, cands, k), CountUpTo(ops, m, lengths, dict, cands, k + 1);
      lo <= hi <= |Solutions(ops, m, lengths, dict)| &&
      Solutions(ops, m, lengths, dict)[lo..hi] == Branch(ops, m, lengths, dict, cands[k])
  {
    var cands := ops.findWordCoords(m, lengths[0], dict);
    var all := Solutions(ops, m, lengths, dict);
    var before := Accumulated(ops, m, lengths, dict, cands, k);
    var upto := Accumulated(ops, m, lengths, dict, cands, k + 1);
    AccumulatedPrefix(ops, m, lengths, dict, cands, k + 1, |cands|);
    AccumulatedCount(ops, m, lengths, dict, cands, k);
    AccumulatedCount(ops, m, lengths, dict, cands, k + 1);
    assert upto == before + Branch(ops, m, lengths, dict, cands[k]);
    assert all[..|upto|] == upto;
    assert all[|before|..|upto|] == upto[|before|..];
  }
}
