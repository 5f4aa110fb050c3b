/**
 * The letter-by-letter verdict both engines compute for a guess against an answer,
 * stated in closed form. Position i is Exact when the guess and the answer agree there.
 * Otherwise it is Present exactly when fewer earlier non-exact positions of the guess hold
 * the same letter than there are answer positions holding that letter which the guess
 * does not match: the answer's spare copies go to the leftmost non-exact copies in the guess.
 */
module Feedback {
  import opened Letters

  datatype Mark = Exact | Present | Absent

  /** Positions j < n where both words hold c. */
  function ExactUpTo(g: string, a: string, c: char, n: nat): nat
    requires n <= |g| == |a|
  {
    if n == 0 then 0
    else ExactUpTo(g, a, c, n - 1) + (if g[n - 1] == c && a[n - 1] == c then 1 else 0)
  }

  /** Positions j < n where the guess holds c and the answer does not. */
  function GuessSpare(g: string, a: string, c: char, n: nat): nat
    requires n <= |g| == |a|
  {
    if n == 0 then 0
    else GuessSpare(g, a, c, n - 1) + (if g[n - 1] == c && a[n - 1] != c then 1 else 0)
  }

  /** Positions j < n where the answer holds c and the guess does not. */
  function AnswerSpareUpTo(g: string, a: string, c: char, n: nat): nat
    requires n <= |g| == |a|
  {
    if n == 0 then 0
    else AnswerSpareUpTo(g, a, c, n - 1) + (if a[n - 1] == c && g[n - 1] != c then 1 else 0)
  }

  /** Copies of c in the answer that no exact match uses. */
  function AnswerSpare(g: string, a: string, c: char): nat
    requires |g| == |a|
  {
    AnswerSpareUpTo(g, a, c, |a|)
  }

  function MarkAt(g: string, a: string, i: nat): Mark
    requires |g| == |a| && i < |g|
  {
    if g[i] == a[i] then Exact
    else if GuessSpare(g, a, g[i], i) < AnswerSpare(g, a, g[i]) then Present
    else Absent
  }

  function Marks(g: string, a: string): seq<Mark>
    requires |g| == |a|
  {
    seq(|g|, i requires 0 <= i < |g| => MarkAt(g, a, i))
  }

  /** Positions j < n holding c that are not Absent. */
  function MatchedUpTo(g: string, a: string, c: char, n: nat): nat
    requires n <= |g| == |a|
  {
    if n == 0 then 0
    else MatchedUpTo(g, a, c, n - 1) + (if g[n - 1] == c && MarkAt(g, a, n - 1) != Absent then 1 else 0)
  }

  lemma {:induction false} GuessSplit(g: string, a: string, c: char, n: nat)
    requires n <= |g| == |a|
    ensures Count(g[..n], c) == ExactUpTo(g, a, c, n) + GuessSpare(g, a, c, n)
  {
    if n > 0 {
      GuessSplit(g, a, c, n - 1);
      CountStep(g, c, n - 1);
    }
  }

  lemma {:induction false} AnswerSplit(g: string, a: string, c: char, n: nat)
    requires n <= |g| == |a|
    ensures Count(a[..n], c) == ExactUpTo(g, a, c, n) + AnswerSpareUpTo(g, a, c, n)
  {
    if n > 0 {
      AnswerSplit(g, a, c, n - 1);
      CountStep(a, c, n - 1);
    }
  }

  lemma {:induction false} MatchedPrefix(g: string, a: string, c: char, n: nat)
    requires n <= |g| == |a|
    ensures MatchedUpTo(g, a, c, n) == ExactUpTo(g, a, c, n) + Min(GuessSpare(g, a, c, n), AnswerSpare(g, a, c))
  {
    if n > 0 {
      MatchedPrefix(g, a, c, n - 1);
    }
  }

  /**
   * Every letter is matched (Exact or Present) exactly as many times as it occurs in
   * both words; the remaining copies in the guess are Absent.
   */
  lemma LetterBudget(g: string, a: string, c: char)
    requires |g| == |a|
    ensures MatchedUpTo(g, a, c, |g|) == Min(Count(g, c), Count(a, c))
  {
    MatchedPrefix(g, a, c, |g|);
    GuessSplit(g, a, c, |g|);
    AnswerSplit(g, a, c, |a|);
    assert g[..|g|] == g && a[..|a|] == a;
  }

  lemma {:induction false} GuessSpareMonotone(g: string, a: string, c: char, m: nat, n: nat)
    requires m <= n <= |g| == |a|
    ensures GuessSpare(g, a, c, m) <= GuessSpare(g, a, c, n)
  {
    if m < n {
      GuessSpareMonotone(g, a, c, m, n - 1);
    }
  }

  /** Exact matches of a letter only accumulate along the word. */
  lemma {:induction false} ExactMonotone(g: string, a: string, c: char, m: nat, n: nat)
    requires m <= n <= |g| == |a|
    ensures ExactUpTo(g, a, c, m) <= ExactUpTo(g, a, c, n)
  {
    if m < n {
      ExactMonotone(g, a, c, m, n - 1);
    }
  }

  /** An unmatched answer copy of c before n means c occurs in the answer before n. */
  lemma {:induction false} AnswerSpareWitness(g: string, a: string, c: char, n: nat)
    requires n <= |g| == |a| && AnswerSpareUpTo(g, a, c, n) > 0
    ensures c in a[..n]
  {
    if !(a[n - 1] == c && g[n - 1] != c) {
      AnswerSpareWitness(g, a, c, n - 1);
      assert a[..n - 1] <= a[..n];
    }
  }

  /** A letter marked Present occurs in the answer. */
  lemma PresentInAnswer(g: string, a: string, i: nat)
    requires |g| == |a| && i < |g| && MarkAt(g, a, i) == Present
    ensures g[i] in a
  {
    AnswerSpareWitness(g, a, g[i], |a|);
    assert a[..|a|] == a;
  }

  /**
   * Among the non-exact positions holding one letter, the Present ones come first:
   * a later copy is Present only if every earlier copy is.
   */
  lemma PresentIsLeftmost(g: string, a: string, i: nat, j: nat)
    requires |g| == |a| && i < j < |g|
    requires g[i] == g[j] && g[i] != a[i] && g[j] != a[j]
    ensures MarkAt(g, a, j) == Present ==> MarkAt(g, a, i) == Present
  {
    GuessSpareMonotone(g, a, g[i], i + 1, j);
  }

  /** All positions are Exact exactly when the guess is the answer. */
  lemma AllExactIffEqual(g: string, a: string)
    requires |g| == |a|
    ensures (forall i :: 0 <= i < |g| ==> Marks(g, a)[i] == Exact) <==> g == a
  {
    if forall i :: 0 <= i < |g| ==> Marks(g, a)[i] == Exact {
      forall i | 0 <= i < |g| ensures g[i] == a[i] {
        assert Marks(g, a)[i] == Exact;
      }
    }
  }

  /** Two L's in the answer, three in the guess: the exact L and the leftmost spare L match. */
  lemma LollyAgainstAlloy()
    ensures Marks("LOLLY", "ALLOY") == [Present, Present, Exact, Absent, Exact]
  {
    var g, a := "LOLLY", "ALLOY";
    assert AnswerSpareUpTo(g, a, 'L', 2) == 1 && AnswerSpareUpTo(g, a, 'O', 2) == 0;
    assert AnswerSpareUpTo(g, a, 'L', 4) == 1 && AnswerSpareUpTo(g, a, 'O', 4) == 1;
    assert AnswerSpare(g, a, 'L') == 1 && AnswerSpare(g, a, 'O') == 1;
    assert GuessSpare(g, a, 'L', 0) == 0 && GuessSpare(g, a, 'O', 1) == 0 && GuessSpare(g, a, 'L', 3) == 1;
    assert MarkAt(g, a, 0) == Present && MarkAt(g, a, 1) == Present && MarkAt(g, a, 3) == Absent;
  }
}
