/**
 * Sanitisation of the solution and the alphabet that the widget's constructor performs
 * before it builds the lock (h5p-combination-lock.js, constructor).
 */
module Sanitization {
  import opened Symbols

  /** The combination used when the configured solution has no symbol at all. */
  const DefaultSolution: seq<Symbol> := ["H", "5", "P"]

  /**
   * The `reduce` that keeps the first occurrence of every symbol: symbols are visited left to
   * right and appended only when not yet present.
   */
  function Dedup(s: seq<Symbol>): (r: seq<Symbol>)
    ensures NoDuplicates(r)
    ensures forall x :: x in r <==> x in s
    decreases |s|
  {
    if s == [] then []
    else
      var d := Dedup(s[..|s| - 1]);
      var x := s[|s| - 1];
      if x in d then d else d + [x]
  }

  /** Dedup keeps symbols in the order of their first occurrence in the input. */
  lemma {:induction false} DedupKeepsFirstOccurrenceOrder(s: seq<Symbol>)
    ensures forall i, j :: 0 <= i < j < |Dedup(s)| ==> IndexOf(s, Dedup(s)[i]) < IndexOf(s, Dedup(s)[j])
  {
    if s != [] {
      var p, x := s[..|s| - 1], s[|s| - 1];
      assert s == p + [x];
      DedupKeepsFirstOccurrenceOrder(p);
      var d := Dedup(p);
      forall y | y in d
        ensures IndexOf(s, y) == IndexOf(p, y) < |p|
      {
        IndexOfAppend(p, [x], y);
      }
      if x !in d {
        assert IndexOf(s, x) == |p|;
      }
    }
  }

  /** The alphabet after the doubling loop: itself from three symbols up, doubled from two, quadrupled from one. */
  function Padded(a: seq<Symbol>): seq<Symbol>
  {
    if |a| >= 3 then a else if |a| == 2 then a + a else a + a + a + a
  }

  /**
   * The `while` loop that doubles the alphabet until it has at least three symbols, so that the
   * wheel always has something to scroll through.
   */
  method PadAlphabet(a: seq<Symbol>) returns (r: seq<Symbol>)
    requires a != []
    ensures |r| >= 3
    ensures r == Padded(a)
    ensures forall x :: x in r <==> x in a
    ensures NoDuplicates(a) ==> (NoDuplicates(r) <==> |a| >= 3)
  {
    r := a;
    while |r| < 3
      invariant r == a || (|a| < 3 && r == a + a) || (|a| == 1 && r == a + a + a + a)
      decreases 3 - |r|
    {
      if |r| == 2 && |a| == 1 {
        assert (a + a) + (a + a) == a + a + a + a;
      }
      r := r + r;
    }
    if |a| < 3 {
      assert r[0] == r[|a|];
    }
  }

  /** The number of symbols the sanitised alphabet has: the de-duplicated text, doubled up to at least 3. */
  function SanitizedLength(alphabetText: seq<Symbol>, solutionText: seq<Symbol>): (n: nat)
    ensures n >= 3
    ensures n >= |Dedup(alphabetText + (if solutionText == [] then DefaultSolution else solutionText))|
  {
    var k := |Dedup(alphabetText + (if solutionText == [] then DefaultSolution else solutionText))|;
    if k >= 3 then k else 4
  }

  /**
   * The whole sanitisation: an empty solution becomes "H5P", the alphabet is the de-duplicated
   * concatenation of the configured alphabet and the solution, padded by self-doubling.
   */
  method Sanitize(alphabetText: seq<Symbol>, solutionText: seq<Symbol>)
    returns (alphabet: seq<Symbol>, solution: seq<Symbol>)
    ensures solution == if solutionText == [] then DefaultSolution else solutionText
    ensures |alphabet| == SanitizedLength(alphabetText, solutionText)
    ensures forall x :: x in alphabet <==> x in alphabetText || x in solution
    ensures forall k :: 0 <= k < |solution| ==> solution[k] in alphabet
    ensures NoDuplicates(alphabet) <==> |Dedup(alphabetText + solution)| >= 3
    ensures |Dedup(alphabetText + solution)| >= 3 ==> alphabet == Dedup(alphabetText + solution)
    ensures alphabet == Padded(Dedup(alphabetText + solution))
  {
    solution := if solutionText == [] then DefaultSolution else solutionText;
    var unique := Dedup(alphabetText + solution);
    assert solution[0] in unique;
    alphabet := PadAlphabet(unique);
  }
}
