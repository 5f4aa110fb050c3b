/**
 * The object-style engine (src/game.rs): a `Round` judges guesses against its answer,
 * lowers the keyboard, and keeps the hard-mode restrictions (positions hit and letters
 * found elsewhere); a `Game` owns the word lists, the current round, the answers used
 * and the player record.
 */
module GameEngine {
  import opened Wrappers
  import opened Letters
  import opened Feedback
  import opened Frequency
  import opened Common
  import opened Keyboards
  import opened Players

  const MAX_GUESS_NUM: nat := 6

  datatype GuessError = Invalid | OverTry

  /** `Game::is_word`: five upper-case ASCII letters. */
  predicate IsWord(s: string)
  {
    AllUpper(s) && |s| == WORD_LENGTH
  }

  /**
   * `is_word` compares the byte length `s.len()`, not the number of characters; on
   * upper-case letters the two agree, so `IsWord` is the source's test exactly.
   */
  lemma IsWordIsByteTest(s: string)
    ensures IsWord(s) <==> AllUpper(s) && ByteLen(s) == WORD_LENGTH
  {
    if AllUpper(s) {
      UpperIsAscii(s);
    }
  }

  function KeyOf(m: Mark): KeyStatus
  {
    match m
    case Exact => Hit
    case Present => Close
    case Absent => Missed
  }

  /** The status `take_guess` returns for a guess against an answer of the same length. */
  function Judge(g: string, a: string): WordStatus
    requires |g| == |a|
  {
    WordStatus(seq(|g|, i requires 0 <= i < |g| => KeyOf(MarkAt(g, a, i))))
  }

  /** Hit or Close positions holding c among the first n. */
  function Reported(g: string, r: seq<KeyStatus>, c: char, n: nat): nat
    requires n <= |g| && n <= |r|
  {
    if n == 0 then 0
    else Reported(g, r, c, n - 1) + (if g[n - 1] == c && r[n - 1] in {Hit, Close} then 1 else 0)
  }

  lemma {:induction false} ReportedIsMatched(g: string, a: string, c: char, n: nat)
    requires |g| == |a| && n <= |g|
    ensures Reported(g, Judge(g, a).data, c, n) == MatchedUpTo(g, a, c, n)
  {
    if n > 0 {
      ReportedIsMatched(g, a, c, n - 1);
    }
  }

  /**
   * The judgement: Hit exactly where the words agree, no Unknown left, and each letter
   * Hit or Close exactly min(count in guess, count in answer) times.
   */
  lemma JudgeIsWordle(g: string, a: string, c: char)
    requires |g| == |a|
    ensures forall i :: 0 <= i < |g| ==> (Judge(g, a).data[i] == Hit <==> g[i] == a[i])
    ensures forall i :: 0 <= i < |g| ==> Judge(g, a).data[i] != Unknown
    ensures Reported(g, Judge(g, a).data, c, |g|) == Min(Count(g, c), Count(a, c))
  {
    ReportedIsMatched(g, a, c, |g|);
    LetterBudget(g, a, c);
  }

  /** A five-letter guess is judged RIGHT_GUESS exactly when it is the answer. */
  lemma JudgeRightIffEqual(g: string, a: string)
    requires |g| == |a| == WORD_LENGTH
    ensures Judge(g, a) == RIGHT_GUESS <==> g == a
  {
    AllExactIffEqual(g, a);
    if Judge(g, a) == RIGHT_GUESS {
      forall i | 0 <= i < |g| ensures Marks(g, a)[i] == Exact {
        assert Judge(g, a).data[i] == Hit;
      }
    }
  }

  /** Every guess taken is a word, and if any was taken the answer has five letters. */
  ghost predicate Words(answer: string, taken: seq<string>)
  {
    forall j :: 0 <= j < |taken| ==> IsWord(taken[j]) && |answer| == WORD_LENGTH
  }

  /** Some guess taken this round was Hit at position i. */
  ghost predicate HitAt(statuses: seq<WordStatus>, i: nat)
  {
    exists j :: 0 <= j < |statuses| && i < |statuses[j].data| && statuses[j].data[i] == Hit
  }

  /** Some guess taken this round has c at a position marked Close. */
  ghost predicate CloseLetter(taken: seq<string>, statuses: seq<WordStatus>, c: char)
  {
    exists j, i :: 0 <= j < |taken| && j < |statuses| && 0 <= i < |taken[j]| && i < |statuses[j].data| &&
      statuses[j].data[i] == Close && taken[j][i] == c
  }

  /** Every guess taken is a word and carries its judgement against the answer. */
  ghost predicate Judged(answer: string, taken: seq<string>, statuses: seq<WordStatus>)
  {
    && |taken| == |statuses|
    && Words(answer, taken)
    && forall j :: 0 <= j < |taken| ==> statuses[j] == Judge(taken[j], answer)
  }

  /**
   * The hard-mode rule over a whole round: the guess keeps the answer's letter at every
   * position some earlier guess hit, and contains every letter some earlier guess had Close.
   */
  ghost predicate KeepsHistory(answer: string, taken: seq<string>, statuses: seq<WordStatus>, guess: string)
  {
    && (forall c :: CloseLetter(taken, statuses, c) ==> c in guess)
    && (forall i :: 0 <= i < |guess| && HitAt(statuses, i) ==> i < |answer| && guess[i] == answer[i])
  }

  /** Letters the judgement of one guess marks Close. */
  function CloseIn(g: string, ws: WordStatus): set<char>
    requires |ws.data| == |g|
  {
    set i | 0 <= i < |g| && ws.data[i] == Close :: g[i]
  }

  /** A position is hit after one more judgement iff it was hit before or that judgement hits it. */
  lemma HitAtExtend(statuses: seq<WordStatus>, ws: WordStatus, i: nat)
    ensures HitAt(statuses + [ws], i) <==> HitAt(statuses, i) || (i < |ws.data| && ws.data[i] == Hit)
  {
    var statuses' := statuses + [ws];
    if HitAt(statuses', i) {
      var j :| 0 <= j < |statuses'| && i < |statuses'[j].data| && statuses'[j].data[i] == Hit;
      if j < |statuses| {
        assert statuses[j] == statuses'[j];
      }
    }
    if HitAt(statuses, i) {
      var j :| 0 <= j < |statuses| && i < |statuses[j].data| && statuses[j].data[i] == Hit;
      assert statuses'[j] == statuses[j];
    }
    if i < |ws.data| && ws.data[i] == Hit {
      assert statuses'[|statuses|] == ws;
    }
  }

  /** A letter is Close after one more judgement iff it was before or that judgement marks it Close. */
  lemma CloseLetterExtend(taken: seq<string>, statuses: seq<WordStatus>, g: string, ws: WordStatus, c: char)
    requires |taken| == |statuses| && |ws.data| == |g|
    ensures CloseLetter(taken + [g], statuses + [ws], c) <==> CloseLetter(taken, statuses, c) || c in CloseIn(g, ws)
  {
    var taken', statuses', n := taken + [g], statuses + [ws], |taken|;
    if CloseLetter(taken', statuses', c) {
      var j, i :| 0 <= j < |taken'| && j < |statuses'| && 0 <= i < |taken'[j]| && i < |statuses'[j].data| &&
        statuses'[j].data[i] == Close && taken'[j][i] == c;
      if j < n {
        assert taken[j] == taken'[j] && statuses[j] == statuses'[j];
      }
    }
    if CloseLetter(taken, statuses, c) {
      var j, i :| 0 <= j < |taken| && j < |statuses| && 0 <= i < |taken[j]| && i < |statuses[j].data| &&
        statuses[j].data[i] == Close && taken[j][i] == c;
      assert taken'[j] == taken[j] && statuses'[j] == statuses[j];
    }
    if c in CloseIn(g, ws) {
      var i :| 0 <= i < |g| && ws.data[i] == Close && g[i] == c;
      assert taken'[n] == g && statuses'[n] == ws;
    }
  }

  /** Judging one more guess adds its hits and its Close letters to the round's restrictions. */
  lemma ExtendRestrictions(answer: string, taken: seq<string>, statuses: seq<WordStatus>, g: string)
    requires Judged(answer, taken, statuses) && IsWord(g) && |answer| == WORD_LENGTH
    ensures Judged(answer, taken + [g], statuses + [Judge(g, answer)])
    ensures forall i :: 0 <= i < WORD_LENGTH ==>
      (HitAt(statuses + [Judge(g, answer)], i) <==> HitAt(statuses, i) || g[i] == answer[i])
    ensures forall c :: CloseLetter(taken + [g], statuses + [Judge(g, answer)], c) <==>
      CloseLetter(taken, statuses, c) || c in CloseIn(g, Judge(g, answer))
  {
    var ws := Judge(g, answer);
    forall i | 0 <= i < WORD_LENGTH
      ensures HitAt(statuses + [ws], i) <==> HitAt(statuses, i) || g[i] == answer[i]
    {
      HitAtExtend(statuses, ws, i);
      assert ws.data[i] == Hit <==> g[i] == answer[i];
    }
    forall c ensures CloseLetter(taken + [g], statuses + [ws], c) <==> CloseLetter(taken, statuses, c) || c in CloseIn(g, ws) {
      CloseLetterExtend(taken, statuses, g, ws, c);
    }
  }

  /** The answer itself always keeps a round's restrictions. */
  lemma AnswerKeepsHistory(answer: string, taken: seq<string>, statuses: seq<WordStatus>)
    requires Judged(answer, taken, statuses) && |answer| == WORD_LENGTH
    ensures KeepsHistory(answer, taken, statuses, answer)
  {
    forall c | CloseLetter(taken, statuses, c) ensures c in answer {
      var j, i :| 0 <= j < |taken| && j < |statuses| && 0 <= i < |taken[j]| && i < |statuses[j].data| &&
        statuses[j].data[i] == Close && taken[j][i] == c;
      assert MarkAt(taken[j], answer, i) == Present;
      PresentInAnswer(taken[j], answer, i);
    }
  }

  /** The keyboard key of c after the guesses taken so far, each folded in as `take_guess` does. */
  ghost function KeyAfter(answer: string, taken: seq<string>, c: char): KeyStatus
    requires Words(answer, taken)
  {
    if |taken| == 0 then Unknown
    else
      var n := |taken| - 1;
      KeyFold(KeyAfter(answer, taken[..n], c), taken[n], Judge(taken[n], answer).data, c, WORD_LENGTH)
  }

  /**
   * A key shows the best status its letter has received in any guess of the round, and
   * stays Unknown exactly while no guess has used the letter.
   */
  lemma {:induction false} KeyAfterIsBest(answer: string, taken: seq<string>, c: char)
    requires Words(answer, taken)
    ensures forall j, i :: 0 <= j < |taken| && 0 <= i < WORD_LENGTH && taken[j][i] == c ==>
      LessEq(KeyAfter(answer, taken, c), KeyOf(MarkAt(taken[j], answer, i)))
    ensures KeyAfter(answer, taken, c) == Unknown ||
      exists j, i :: 0 <= j < |taken| && 0 <= i < WORD_LENGTH && taken[j][i] == c &&
        KeyAfter(answer, taken, c) == KeyOf(MarkAt(taken[j], answer, i))
    ensures KeyAfter(answer, taken, c) == Unknown <==> forall j :: 0 <= j < |taken| ==> c !in taken[j]
  {
    if |taken| > 0 {
      var n := |taken| - 1;
      var g, r := taken[n], Judge(taken[n], answer).data;
      var prev := KeyAfter(answer, taken[..n], c);
      KeyAfterIsBest(answer, taken[..n], c);
      KeyFoldIsMinimum(prev, g, r, c, WORD_LENGTH);
      var k := KeyAfter(answer, taken, c);
      forall j, i | 0 <= j < |taken| && 0 <= i < WORD_LENGTH && taken[j][i] == c
        ensures LessEq(k, KeyOf(MarkAt(taken[j], answer, i)))
      {
        if j < n {
          assert taken[..n][j] == taken[j];
        }
      }
      if k != prev {
        var i :| 0 <= i < WORD_LENGTH && g[i] == c && k == r[i];
        assert taken[n][i] == c;
      } else if k != Unknown {
        var j, i :| 0 <= j < n && 0 <= i < WORD_LENGTH && taken[..n][j][i] == c &&
          prev == KeyOf(MarkAt(taken[..n][j], answer, i));
        assert taken[j][i] == c;
      }
      if k == Unknown {
        forall j | 0 <= j < |taken| ensures c !in taken[j] {
        }
      } else {
        var j, i :| 0 <= j < |taken| && 0 <= i < WORD_LENGTH && taken[j][i] == c &&
          k == KeyOf(MarkAt(taken[j], answer, i));
        assert c in taken[j];
      }
    }
  }

  /** The status under construction after the first pass of `take_guess` over the first n positions. */
  function HitsUpTo(g: string, a: string, n: nat): seq<KeyStatus>
    requires |g| == |a|
  {
    seq(|g|, j requires 0 <= j < |g| => if j < n && g[j] == a[j] then Hit else Unknown)
  }

  /** The status under construction after the second pass over the first n positions. */
  function JudgedUpTo(g: string, a: string, n: nat): seq<KeyStatus>
    requires |g| == |a|
  {
    seq(|g|, j requires 0 <= j < |g| =>
      if j < n then KeyOf(MarkAt(g, a, j)) else if g[j] == a[j] then Hit else Unknown)
  }

  /** Letters of the first n positions the second pass marks Close. */
  function ClosesUpTo(g: string, a: string, n: nat): set<char>
    requires n <= |g| == |a|
  {
    set j | 0 <= j < n && MarkAt(g, a, j) == Present :: g[j]
  }

  lemma ClosesStep(g: string, a: string, n: nat)
    requires n < |g| == |a|
    ensures ClosesUpTo(g, a, n + 1) ==
      ClosesUpTo(g, a, n) + (if MarkAt(g, a, n) == Present then {g[n]} else {})
  {
  }

  /** First loop of `take_guess`: per letter of the guess, its count in the answer and in the guess. */
  method CountLetters(g: string, a: string) returns (ansCnt: array<nat>, guessCnt: array<nat>)
    requires AllUpper(g)
    ensures fresh(ansCnt) && fresh(guessCnt) && ansCnt != guessCnt
    ensures ansCnt.Length == KEYS_NUM && guessCnt.Length == KEYS_NUM
    ensures forall k :: 0 <= k < KEYS_NUM ==>
      ansCnt[k] == (if Letter(k) in g then Count(a, Letter(k)) else 0) &&
      guessCnt[k] == (if Letter(k) in g then Count(g, Letter(k)) else 0)
  {
    ansCnt := new nat[KEYS_NUM](_ => 0);
    guessCnt := new nat[KEYS_NUM](_ => 0);
    for i := 0 to |g|
      invariant forall k :: 0 <= k < KEYS_NUM ==>
        ansCnt[k] == (if Letter(k) in g[..i] then Count(a, Letter(k)) else 0) &&
        guessCnt[k] == (if Letter(k) in g[..i] then Count(g, Letter(k)) else 0)
    {
      var ch := g[i];
      ansCnt[Idx(ch)] := Count(a, ch);
      guessCnt[Idx(ch)] := Count(g, ch);
      assert g[..i + 1] == g[..i] + [ch];
      LetterOfIdx(ch);
    }
    assert g[..|g|] == g;
  }

  /** Every key is the fold of its starting status over the statuses `res` of the guess g. */
  ghost predicate KeysFold(k0: seq<KeyStatus>, g: string, res: seq<KeyStatus>, keys: seq<KeyStatus>)
  {
    && |k0| == KEYS_NUM && |keys| == KEYS_NUM && |g| == WORD_LENGTH && |res| == WORD_LENGTH
    && forall k :: 0 <= k < KEYS_NUM ==> keys[k] == KeyFold(k0[k], g, res, Letter(k), WORD_LENGTH)
  }

  /** Filling the Unknown position i with s and settling its key keeps the keys folded. */
  lemma KeysFoldStep(k0: seq<KeyStatus>, g: string, res: seq<KeyStatus>, keys: seq<KeyStatus>, i: nat, s: KeyStatus)
    requires KeysFold(k0, g, res, keys) && AllUpper(g) && i < WORD_LENGTH && res[i] == Unknown
    ensures KeysFold(k0, g, res[i := s], keys[Idx(g[i]) := Settle(keys[Idx(g[i])], s)])
  {
    LetterOfIdx(g[i]);
    forall k | 0 <= k < KEYS_NUM
      ensures KeyFold(k0[k], g, res[i := s], Letter(k), WORD_LENGTH) ==
        if g[i] == Letter(k) then Settle(keys[k], s) else keys[k]
    {
      KeyFoldUpdate(k0[k], g, res, Letter(k), WORD_LENGTH, i, s);
    }
  }

  /**
   * The letter counters during the second loop: for a letter of the guess, its count in each
   * word less the exact matches already seen among the first i positions.
   */
  ghost predicate HitCounts(g: string, a: string, ans: seq<nat>, gs: seq<nat>, i: nat)
    requires i <= |g| == |a| == WORD_LENGTH
  {
    && |ans| == KEYS_NUM && |gs| == KEYS_NUM
    && forall k :: 0 <= k < KEYS_NUM ==>
      ans[k] == (if Letter(k) in g then
        ExactUpTo(g, a, Letter(k), WORD_LENGTH) - ExactUpTo(g, a, Letter(k), i) + AnswerSpare(g, a, Letter(k)) else 0) &&
      gs[k] == (if Letter(k) in g then
        ExactUpTo(g, a, Letter(k), WORD_LENGTH) - ExactUpTo(g, a, Letter(k), i) + GuessSpare(g, a, Letter(k), WORD_LENGTH) else 0)
  }

  /** An exact match at i finds both counters of its letter positive and leaves them one lower. */
  lemma HitCountsStep(g: string, a: string, ans: seq<nat>, gs: seq<nat>, i: nat)
    requires i < |g| == |a| == WORD_LENGTH && AllUpper(g) && HitCounts(g, a, ans, gs, i)
    ensures g[i] == a[i] ==> (ans[Idx(g[i])] > 0 && gs[Idx(g[i])] > 0 &&
      HitCounts(g, a, ans[Idx(g[i]) := ans[Idx(g[i])] - 1], gs[Idx(g[i]) := gs[Idx(g[i])] - 1], i + 1))
    ensures g[i] != a[i] ==> HitCounts(g, a, ans, gs, i + 1)
  {
    LetterOfIdx(g[i]);
    ExactMonotone(g, a, g[i], i + 1, WORD_LENGTH);
  }

  /**
   * One position of the second loop of `take_guess`: if guess and answer agree there, the
   * position becomes Hit, its key is lowered to Hit, its hit restriction is set and one copy
   * of its letter is used up in both counters.
   */
  method MarkHit(g: string, a: string, kb: Keyboard, hitRestrict: array<bool>, ansCnt: array<nat>, guessCnt: array<nat>,
                 i: nat, ghost k0: seq<KeyStatus>, res: seq<KeyStatus>)
    returns (res': seq<KeyStatus>)
    requires IsWord(g) && |a| == WORD_LENGTH && kb.Valid() && hitRestrict.Length == WORD_LENGTH
    requires ansCnt.Length == KEYS_NUM && guessCnt.Length == KEYS_NUM && ansCnt != guessCnt
    requires i < WORD_LENGTH && res == HitsUpTo(g, a, i)
    requires HitCounts(g, a, ansCnt[..], guessCnt[..], i) && KeysFold(k0, g, res, kb.keys[..])
    modifies kb.keys, hitRestrict, ansCnt, guessCnt
    ensures res' == HitsUpTo(g, a, i + 1)
    ensures HitCounts(g, a, ansCnt[..], guessCnt[..], i + 1) && KeysFold(k0, g, res', kb.keys[..])
    ensures hitRestrict[..] == old(hitRestrict[..])[i := old(hitRestrict[i]) || g[i] == a[i]]
  {
    var ch := g[i];
    HitCountsStep(g, a, ansCnt[..], guessCnt[..], i);
    res' := res;
    if ch == a[i] {
      KeysFoldStep(k0, g, res, kb.keys[..], i, Hit);
      var changed := kb.UpdateStatus(ch, Hit);
      res' := res[i := Hit];
      hitRestrict[i] := true;
      ansCnt[Idx(ch)] := ansCnt[Idx(ch)] - 1;
      guessCnt[Idx(ch)] := guessCnt[Idx(ch)] - 1;
    }
  }

  /**
   * Second loop of `take_guess`: every position where guess and answer agree becomes Hit,
   * lowers its key to Hit, sets its hit restriction and uses up one copy of its letter.
   */
  method MarkHits(g: string, a: string, kb: Keyboard, hitRestrict: array<bool>, ansCnt: array<nat>, guessCnt: array<nat>)
    returns (res: seq<KeyStatus>)
    requires IsWord(g) && |a| == WORD_LENGTH && kb.Valid() && hitRestrict.Length == WORD_LENGTH
    requires ansCnt.Length == KEYS_NUM && guessCnt.Length == KEYS_NUM && ansCnt != guessCnt
    requires forall k :: 0 <= k < KEYS_NUM ==>
      ansCnt[k] == (if Letter(k) in g then Count(a, Letter(k)) else 0) &&
      guessCnt[k] == (if Letter(k) in g then Count(g, Letter(k)) else 0)
    modifies kb.keys, hitRestrict, ansCnt, guessCnt
    ensures res == HitsUpTo(g, a, WORD_LENGTH)
    ensures HitCounts(g, a, ansCnt[..], guessCnt[..], WORD_LENGTH)
    ensures KeysFold(old(kb.keys[..]), g, res, kb.keys[..])
    ensures forall i :: 0 <= i < WORD_LENGTH ==> hitRestrict[i] == (old(hitRestrict[i]) || g[i] == a[i])
  {
    ghost var k0 := kb.keys[..];
    ghost var h0 := hitRestrict[..];
    res := NewWordStatus().data;
    forall k | 0 <= k < KEYS_NUM
      ensures kb.keys[k] == KeyFold(k0[k], g, res, Letter(k), WORD_LENGTH)
      ensures Count(a, Letter(k)) == ExactUpTo(g, a, Letter(k), WORD_LENGTH) + AnswerSpare(g, a, Letter(k))
      ensures Count(g, Letter(k)) == ExactUpTo(g, a, Letter(k), WORD_LENGTH) + GuessSpare(g, a, Letter(k), WORD_LENGTH)
    {
      KeyFoldIsMinimum(k0[k], g, res, Letter(k), WORD_LENGTH);
      AnswerSplit(g, a, Letter(k), WORD_LENGTH);
      GuessSplit(g, a, Letter(k), WORD_LENGTH);
      assert a[..WORD_LENGTH] == a && g[..WORD_LENGTH] == g;
    }
    for i := 0 to WORD_LENGTH
      invariant res == HitsUpTo(g, a, i)
      invariant HitCounts(g, a, ansCnt[..], guessCnt[..], i)
      invariant KeysFold(k0, g, res, kb.keys[..])
      invariant forall j :: 0 <= j < WORD_LENGTH ==> hitRestrict[j] == (h0[j] || (j < i && g[j] == a[j]))
    {
      res := MarkHit(g, a, kb, hitRestrict, ansCnt, guessCnt, i, k0, res);
    }
  }

  /**
   * The letter counters during the third loop: for a letter of the guess, its spare copies
   * in each word less the Close marks already given among the first i positions.
   */
  ghost predicate CloseCounts(g: string, a: string, ans: seq<nat>, gs: seq<nat>, i: nat)
    requires i <= |g| == |a| == WORD_LENGTH
  {
    && |ans| == KEYS_NUM && |gs| == KEYS_NUM
    && forall k :: 0 <= k < KEYS_NUM ==>
      ans[k] == (if Letter(k) in g then
        AnswerSpare(g, a, Letter(k)) - Min(GuessSpare(g, a, Letter(k), i), AnswerSpare(g, a, Letter(k))) else 0) &&
      gs[k] == (if Letter(k) in g then
        GuessSpare(g, a, Letter(k), WORD_LENGTH) - Min(GuessSpare(g, a, Letter(k), i), AnswerSpare(g, a, Letter(k))) else 0)
  }

  /**
   * At a non-exact position the answer counter of its letter is zero exactly when the
   * position is Missed; a Close position finds both counters positive and leaves them one lower.
   */
  lemma CloseCountsStep(g: string, a: string, ans: seq<nat>, gs: seq<nat>, i: nat)
    requires i < |g| == |a| == WORD_LENGTH && AllUpper(g) && CloseCounts(g, a, ans, gs, i)
    ensures g[i] != a[i] ==> (ans[Idx(g[i])] == 0 <==> MarkAt(g, a, i) == Absent)
    ensures MarkAt(g, a, i) == Present ==> (ans[Idx(g[i])] > 0 && gs[Idx(g[i])] > 0 &&
      CloseCounts(g, a, ans[Idx(g[i]) := ans[Idx(g[i])] - 1], gs[Idx(g[i]) := gs[Idx(g[i])] - 1], i + 1))
    ensures MarkAt(g, a, i) != Present ==> CloseCounts(g, a, ans, gs, i + 1)
  {
    LetterOfIdx(g[i]);
    GuessSpareMonotone(g, a, g[i], i + 1, WORD_LENGTH);
  }

  /**
   * One position of the third loop of `take_guess`: a position that is not a hit becomes
   * Close while the answer has an unused copy of its letter (using it up and adding the
   * letter to the used-letter restriction), Missed otherwise, and lowers its key accordingly.
   */
  method MarkClose(g: string, a: string, kb: Keyboard, ansCnt: array<nat>, guessCnt: array<nat>,
                   i: nat, ghost k0: seq<KeyStatus>, use0: set<char>, res: seq<KeyStatus>, use: set<char>)
    returns (res': seq<KeyStatus>, use': set<char>)
    requires IsWord(g) && |a| == WORD_LENGTH && kb.Valid()
    requires ansCnt.Length == KEYS_NUM && guessCnt.Length == KEYS_NUM && ansCnt != guessCnt
    requires i < WORD_LENGTH && res == JudgedUpTo(g, a, i) && use == use0 + ClosesUpTo(g, a, i)
    requires KeysFold(k0, g, res, kb.keys[..]) && CloseCounts(g, a, ansCnt[..], guessCnt[..], i)
    modifies kb.keys, ansCnt, guessCnt
    ensures res' == JudgedUpTo(g, a, i + 1) && use' == use0 + ClosesUpTo(g, a, i + 1)
    ensures KeysFold(k0, g, res', kb.keys[..]) && CloseCounts(g, a, ansCnt[..], guessCnt[..], i + 1)
  {
    var ch := g[i];
    ClosesStep(g, a, i);
    CloseCountsStep(g, a, ansCnt[..], guessCnt[..], i);
    res', use' := res, use;
    if ch != a[i] {
      var s := if ansCnt[Idx(ch)] == 0 then Missed else Close;
      assert s == KeyOf(MarkAt(g, a, i));
      KeysFoldStep(k0, g, res, kb.keys[..], i, s);
      var changed := kb.UpdateStatus(ch, s);
      res' := res[i := s];
      if s == Close {
        ansCnt[Idx(ch)] := ansCnt[Idx(ch)] - 1;
        guessCnt[Idx(ch)] := guessCnt[Idx(ch)] - 1;
        use' := use + {ch};
      }
    }
  }

  /** Third loop of `take_guess`: `MarkClose` at every position, in order. */
  method MarkCloses(g: string, a: string, kb: Keyboard, ansCnt: array<nat>, guessCnt: array<nat>,
                    hits: seq<KeyStatus>, ghost k0: seq<KeyStatus>, use0: set<char>)
    returns (res: seq<KeyStatus>, use: set<char>)
    requires IsWord(g) && |a| == WORD_LENGTH && kb.Valid()
    requires ansCnt.Length == KEYS_NUM && guessCnt.Length == KEYS_NUM && ansCnt != guessCnt
    requires hits == HitsUpTo(g, a, WORD_LENGTH)
    requires HitCounts(g, a, ansCnt[..], guessCnt[..], WORD_LENGTH)
    requires KeysFold(k0, g, hits, kb.keys[..])
    modifies kb.keys, ansCnt, guessCnt
    ensures res == Judge(g, a).data
    ensures use == use0 + CloseIn(g, Judge(g, a))
    ensures KeysFold(k0, g, res, kb.keys[..])
  {
    res, use := hits, use0;
    assert res == JudgedUpTo(g, a, 0);
    assert CloseCounts(g, a, ansCnt[..], guessCnt[..], 0);
    for i := 0 to WORD_LENGTH
      invariant res == JudgedUpTo(g, a, i)
      invariant use == use0 + ClosesUpTo(g, a, i)
      invariant KeysFold(k0, g, res, kb.keys[..])
      invariant CloseCounts(g, a, ansCnt[..], guessCnt[..], i)
    {
      res, use := MarkClose(g, a, kb, ansCnt, guessCnt, i, k0, use0, res, use);
    }
    assert ClosesUpTo(g, a, WORD_LENGTH) == CloseIn(g, Judge(g, a));
  }

  /**
   * The three loops of `take_guess` together: the judgement of the guess, the keys lowered
   * by it, the positions it hits added to the hit restriction and its Close letters to the
   * used-letter restriction.
   */
  method JudgeGuess(g: string, a: string, kb: Keyboard, hitRestrict: array<bool>, use0: set<char>)
    returns (res: WordStatus, use: set<char>)
    requires IsWord(g) && |a| == WORD_LENGTH && kb.Valid() && hitRestrict.Length == WORD_LENGTH
    modifies kb.keys, hitRestrict
    ensures res == Judge(g, a) && use == use0 + CloseIn(g, res)
    ensures KeysFold(old(kb.keys[..]), g, res.data, kb.keys[..])
    ensures forall i :: 0 <= i < WORD_LENGTH ==> hitRestrict[i] == (old(hitRestrict[i]) || g[i] == a[i])
  {
    ghost var k0 := kb.keys[..];
    var ansCnt, guessCnt := CountLetters(g, a);
    var hits := MarkHits(g, a, kb, hitRestrict, ansCnt, guessCnt);
    var data;
    data, use := MarkCloses(g, a, kb, ansCnt, guessCnt, hits, k0, use0);
    res := WordStatus(data);
  }

  /**
   * What a round's state says about the guesses taken so far: the statuses are their
   * judgements, the pending input is a suffix of them, the hit and used-letter restrictions
   * and the keys summarise them, and the round is won exactly when the answer was guessed,
   * the success count then being positive.
   */
  ghost predicate Summarised(answer: string, taken: seq<string>, statuses: seq<WordStatus>, input: seq<string>,
                             keys: seq<KeyStatus>, hr: seq<bool>, use: set<char>, isSuccess: bool, successCnt: nat)
  {
    && |keys| == KEYS_NUM && |hr| == WORD_LENGTH
    && Judged(answer, taken, statuses)
    && |input| <= |taken| && input == taken[|taken| - |input|..]
    && (forall i :: 0 <= i < WORD_LENGTH ==> (hr[i] <==> HitAt(statuses, i)))
    && (forall c :: c in use <==> CloseLetter(taken, statuses, c))
    && (forall k :: 0 <= k < KEYS_NUM ==> keys[k] == KeyAfter(answer, taken, Letter(k)))
    && (isSuccess <==> successCnt > 0)
    && (isSuccess <==> answer in taken)
    && successCnt <= |taken|
  }

  /** Draining the pending guesses keeps the summary: the history still holds every taken guess. */
  lemma DrainKeepsSummary(answer: string, taken: seq<string>, statuses: seq<WordStatus>, input: seq<string>,
                          keys: seq<KeyStatus>, hr: seq<bool>, use: set<char>, isSuccess: bool, successCnt: nat)
    requires Summarised(answer, taken, statuses, input, keys, hr, use, isSuccess, successCnt)
    ensures Summarised(answer, taken, statuses, [], keys, hr, use, isSuccess, successCnt)
  {
  }

  /** The hit loop of `Round::is_valid_guess`: the guess has the answer's letter at every flagged position. */
  method KeepsHits(guess: string, answer: string, hits: array<bool>) returns (r: bool)
    requires |guess| <= hits.Length && |guess| <= |answer|
    ensures r <==> forall j :: 0 <= j < |guess| && hits[j] ==> guess[j] == answer[j]
  {
    for i := 0 to |guess|
      invariant forall j :: 0 <= j < i && hits[j] ==> guess[j] == answer[j]
    {
      if hits[i] && guess[i] != answer[i] {
        return false;
      }
    }
    return true;
  }

  /** Taking one judged guess, as `take_guess` does, keeps the summary of the round. */
  lemma SummaryStep(answer: string, taken: seq<string>, statuses: seq<WordStatus>, input: seq<string>,
                    keys: seq<KeyStatus>, hr: seq<bool>, use: set<char>, isSuccess: bool, successCnt: nat,
                    g: string, taken': seq<string>, statuses': seq<WordStatus>, input': seq<string>,
                    keys': seq<KeyStatus>, hr': seq<bool>, use': set<char>, isSuccess': bool, successCnt': nat)
    requires Summarised(answer, taken, statuses, input, keys, hr, use, isSuccess, successCnt)
    requires IsWord(g) && |answer| == WORD_LENGTH
    requires taken' == taken + [g] && statuses' == statuses + [Judge(g, answer)] && input' == input + [g]
    requires KeysFold(keys, g, Judge(g, answer).data, keys')
    requires |hr'| == WORD_LENGTH && forall i :: 0 <= i < WORD_LENGTH ==> hr'[i] == (hr[i] || g[i] == answer[i])
    requires use' == use + CloseIn(g, Judge(g, answer))
    requires isSuccess' == (isSuccess || g == answer)
    requires successCnt' == if g == answer && successCnt == 0 then |input'| else successCnt
    ensures Summarised(answer, taken', statuses', input', keys', hr', use', isSuccess', successCnt')
  {
    ExtendRestrictions(answer, taken, statuses, g);
    assert taken'[..|taken'| - 1] == taken;
    assert taken'[|taken'| - |input'|..] == taken[|taken| - |input|..] + [g];
  }

  /** A round: its answer, the guesses and their statuses, the keyboard and the hard-mode restrictions. */
  class Round {
    var answer: string
    var input: seq<string>
    var inputStatus: seq<WordStatus>
    var isSuccess: bool
    var successCnt: nat
    const keyboard: Keyboard
    const hitRestrict: array<bool>
    var useRestrict: set<char>
    /** Every guess taken this round, including those `end_cur_round` has drained from `input`. */
    ghost var taken: seq<string>

    /**
     * Statuses are the judgements of the guesses taken, `input` is what is left of them,
     * the restrictions and the keyboard summarise them, and success means the answer was guessed.
     */
    ghost predicate Valid()
      reads this, keyboard, keyboard.keys, hitRestrict
    {
      && keyboard.Valid() && hitRestrict.Length == WORD_LENGTH
      && Summarised(answer, taken, inputStatus, input, keyboard.keys[..], hitRestrict[..], useRestrict,
                    isSuccess, successCnt)
    }

    /** `Round::new`: no answer yet, nothing guessed, every key Unknown, no restriction. */
    constructor ()
      ensures Valid() && fresh(keyboard) && fresh(keyboard.keys) && fresh(hitRestrict)
      ensures answer == "" && input == [] && inputStatus == [] && taken == []
      ensures !isSuccess && successCnt == 0 && useRestrict == {}
      ensures forall i :: 0 <= i < WORD_LENGTH ==> !hitRestrict[i]
      ensures forall k :: 0 <= k < KEYS_NUM ==> keyboard.keys[k] == Unknown
    {
      answer := "";
      input := [];
      inputStatus := [];
      isSuccess := false;
      successCnt := 0;
      keyboard := new Keyboard();
      hitRestrict := new bool[WORD_LENGTH](_ => false);
      useRestrict := {};
      taken := [];
    }

    /** `set_ans`, on a round in which nothing has been guessed yet. */
    method SetAns(ans: string)
      requires Valid() && taken == []
      modifies this
      ensures Valid() && answer == ans
      ensures input == old(input) && inputStatus == old(inputStatus) && taken == old(taken)
      ensures isSuccess == old(isSuccess) && successCnt == old(successCnt) && useRestrict == old(useRestrict)
    {
      answer := ans;
    }

    /**
     * `Round::is_valid_guess`: the first guess of a round, and any guess in the default
     * level, is allowed; in hard mode a later guess must contain every letter found Close
     * and keep the answer's letter wherever a guess hit.
     */
    method IsValidGuess(guess: string, hard: bool) returns (r: bool)
      requires Valid()
      requires |input| > 0 && hard ==> |guess| <= WORD_LENGTH
      ensures r <==> (|input| == 0 || !hard || KeepsHistory(answer, taken, inputStatus, guess))
    {
      if |input| == 0 {
        return true;
      }
      if !hard {
        return true;
      }
      if !(forall c | c in useRestrict :: c in guess) {
        return false;
      }
      assert IsWord(taken[0]) && |answer| == WORD_LENGTH;
      r := KeepsHits(guess, answer, hitRestrict);
    }

    /**
     * `take_guess`: judges the guess against the answer in three passes, lowers the keys,
     * records hits and Close letters as restrictions, appends the guess and its status,
     * and on a right guess marks the round won, remembering the first winning count.
     */
    method TakeGuess(guess: string) returns (res: WordStatus)
      requires Valid() && IsWord(guess) && |answer| == WORD_LENGTH
      modifies this, keyboard.keys, hitRestrict
      ensures Valid()
      ensures answer == old(answer) && taken == old(taken) + [guess]
      ensures res == Judge(guess, answer)
      ensures input == old(input) + [guess] && inputStatus == old(inputStatus) + [res]
      ensures isSuccess == (old(isSuccess) || guess == answer)
      ensures successCnt == if guess == answer && old(successCnt) == 0 then |input| else old(successCnt)
      ensures useRestrict == old(useRestrict) + CloseIn(guess, res)
      ensures forall i :: 0 <= i < WORD_LENGTH ==> hitRestrict[i] == (old(hitRestrict[i]) || guess[i] == answer[i])
      ensures forall k :: 0 <= k < KEYS_NUM ==>
        keyboard.keys[k] == KeyFold(old(keyboard.keys[k]), guess, res.data, Letter(k), WORD_LENGTH)
    {
      ghost var k0, h0, u0 := keyboard.keys[..], hitRestrict[..], useRestrict;
      ghost var taken0, statuses0, input0, success0, cnt0 := taken, inputStatus, input, isSuccess, successCnt;
      var use;
      res, use := JudgeGuess(guess, answer, keyboard, hitRestrict, useRestrict);
      JudgeRightIffEqual(guess, answer);
      useRestrict := use;
      input := input + [guess];
      if res == RIGHT_GUESS {
        isSuccess := true;
        successCnt := if successCnt == 0 then |input| else successCnt;
      }
      inputStatus := inputStatus + [res];
      taken := taken0 + [guess];
      SummaryStep(answer, taken0, statuses0, input0, k0, h0, u0, success0, cnt0,
                  guess, taken, inputStatus, input, keyboard.keys[..], hitRestrict[..], useRestrict, isSuccess, successCnt);
    }
  }

  /** The game: the shuffled final words, the acceptable words, the level, the current round, the answers used and the player. */
  class Game {
    /** The final words after the seeded shuffle of `Game::new`. */
    const finalWords: seq<string>
    const acceptable: seq<string>
    const hard: bool
    var round: Round
    var usedAns: set<string>
    const player: Player

    /** Both word lists hold five-letter upper-case words, as the word set builds them. */
    predicate WordLists()
    {
      && (forall w :: w in finalWords ==> IsWord(w))
      && (forall w :: w in acceptable ==> IsWord(w))
    }

    /**
     * The round is consistent, holds at most `MAX_GUESS_NUM` pending guesses and a success
     * count within it, and every round the player recorded is well formed.
     */
    ghost predicate Valid()
      reads this, round, round.keyboard, round.keyboard.keys, round.hitRestrict, player
    {
      && round.Valid() && WordLists()
      && |round.input| <= MAX_GUESS_NUM && round.successCnt <= MAX_GUESS_NUM
      && WellFormedTrys(player.trys, MAX_GUESS_NUM)
    }

    /** `Game::new`, given the word lists with the final words already shuffled. */
    constructor (finalWords: seq<string>, acceptable: seq<string>, hard: bool)
      requires forall w :: w in finalWords ==> IsWord(w)
      requires forall w :: w in acceptable ==> IsWord(w)
      ensures Valid() && fresh(round) && fresh(player)
      ensures this.finalWords == finalWords && this.acceptable == acceptable && this.hard == hard
      ensures usedAns == {} && round.answer == "" && round.input == [] && round.taken == []
      ensures player.usedWords == [] && player.trys == []
    {
      this.finalWords := finalWords;
      this.acceptable := acceptable;
      this.hard := hard;
      round := new Round();
      usedAns := {};
      player := new Player();
    }

    /** A guess the game accepts: an acceptable word that passes the round's hard-mode check. */
    ghost predicate Admissible(w: string)
      reads this, round
    {
      w in acceptable && (|round.input| == 0 || !hard || KeepsHistory(round.answer, round.taken, round.inputStatus, w))
    }

    /** `Game::is_valid_guess`: the word is acceptable and the round allows it. */
    method IsValidGuess(w: string) returns (r: bool)
      requires Valid()
      ensures r <==> Admissible(w)
    {
      r := w in acceptable;
      if r {
        r := round.IsValidGuess(w, hard);
      }
    }

    /**
     * `is_round_end`: all `MAX_GUESS_NUM` guesses of the round are pending, so no chance is
     * left; they are the last six guesses taken.
     */
    predicate IsRoundEnd()
      reads this, round, round.keyboard, round.keyboard.keys, round.hitRestrict, player
      ensures Valid() ==> (IsRoundEnd() <==> MAX_GUESS_NUM <= |round.input|)
      ensures Valid() && IsRoundEnd() ==> MAX_GUESS_NUM <= |round.taken| && round.input == round.taken[|round.taken| - MAX_GUESS_NUM..]
    {
      |round.input| == MAX_GUESS_NUM
    }

    /**
     * `gen_answer_from`: the answer of day d (counted from 1) in the shuffled final words.
     * `None` stands for the panic of the source at d = 0 (the subtraction underflows) and
     * past the end of the list (`unwrap` of a missing entry).
     */
    function GenAnswerFrom(d: nat): (r: Option<string>)
      ensures r.Some? <==> 1 <= d <= |finalWords|
      ensures r.Some? ==> r.value == finalWords[d - 1] && (WordLists() ==> IsWord(r.value))
    {
      if d == 0 || d > |finalWords| then None else Some(finalWords[d - 1])
    }

    /** `start_new_round`: a fresh round with the given answer, which joins the used answers. */
    method StartNewRound(ans: string)
      requires Valid()
      modifies this
      ensures Valid() && round.answer == ans && usedAns == old(usedAns) + {ans}
      ensures fresh(round) && fresh(round.keyboard) && fresh(round.keyboard.keys) && fresh(round.hitRestrict)
      ensures round.input == [] && round.taken == [] && round.inputStatus == []
      ensures !round.isSuccess && round.successCnt == 0 && round.useRestrict == {}
      ensures forall i :: 0 <= i < WORD_LENGTH ==> !round.hitRestrict[i]
      ensures forall k :: 0 <= k < KEYS_NUM ==> round.keyboard.keys[k] == Unknown
    {
      round := new Round();
      round.SetAns(ans);
      usedAns := usedAns + {ans};
    }

    /**
     * `end_cur_round`: hands the pending guesses to the player, records the round's
     * (success count, success) pair and reports success, answer and count.
     */
    method EndCurRound() returns (success: bool, ans: string, cnt: nat)
      requires Valid()
      modifies round, player
      ensures Valid()
      ensures success == old(round.isSuccess) && ans == old(round.answer) && cnt == old(round.successCnt)
      ensures success ==> 1 <= cnt <= MAX_GUESS_NUM
      ensures !success ==> cnt == 0
      ensures player.usedWords == old(player.usedWords) + old(round.input)
      ensures player.trys == old(player.trys) + [(cnt, success)]
      ensures round.input == [] && round.taken == old(round.taken) && round.inputStatus == old(round.inputStatus)
      ensures round.answer == old(round.answer) && round.isSuccess == old(round.isSuccess)
      ensures round.successCnt == old(round.successCnt) && round.useRestrict == old(round.useRestrict)
    {
      var words := round.input;
      DrainKeepsSummary(round.answer, round.taken, round.inputStatus, words, round.keyboard.keys[..],
                        round.hitRestrict[..], round.useRestrict, round.isSuccess, round.successCnt);
      round.input := [];
      for i := 0 to |words|
        modifies player
        invariant player.usedWords == old(player.usedWords) + words[..i] && player.trys == old(player.trys)
      {
        player.RecodeInput(words[i]);
      }
      assert words[..|words|] == words;
      TrysExtend(player.trys, MAX_GUESS_NUM, round.successCnt, round.isSuccess);
      player.Evaluate(round.successCnt, round.isSuccess);
      success, ans, cnt := round.isSuccess, round.answer, round.successCnt;
    }

    /** `show_most_used_words`: the player's five most used words. */
    method ShowMostUsedWords() returns (r: seq<Tally>)
      ensures IsTopN(player.usedWords, TOP_WORDS, r)
    {
      r := player.ShowMostUsedWords();
    }

    /** `show_analyse`: wins, losses and an average between 1 and `MAX_GUESS_NUM` guesses per win. */
    function ShowAnalyse(): (r: Analysis)
      reads this, player
      requires WellFormedTrys(player.trys, MAX_GUESS_NUM)
      ensures r.wins + r.losses == |player.trys| && r.wins == Wins(player.trys) && r.rateDen > 0
      ensures r.wins > 0 ==> r.rateDen == r.wins && r.rateDen <= r.rateNum <= MAX_GUESS_NUM * r.rateDen
      ensures r.wins == 0 ==> r.rateNum == 0
    {
      AnalyseBounds(player, MAX_GUESS_NUM);
      player.Analyse()
    }

    /**
     * `guess`: refused with OverTry once `MAX_GUESS_NUM` guesses are pending, with Invalid
     * when the word is not admissible; otherwise the round takes it and the status and the
     * keyboard are returned.
     */
    method Guess(w: string) returns (r: Result<(WordStatus, Keyboard), GuessError>)
      requires Valid() && |round.answer| == WORD_LENGTH
      modifies round, round.keyboard.keys, round.hitRestrict
      ensures Valid()
      ensures r == Err(OverTry) <==> old(IsRoundEnd())
      ensures r == Err(Invalid) <==> !old(IsRoundEnd()) && !old(Admissible(w))
      ensures r.Ok? <==> !old(IsRoundEnd()) && old(Admissible(w))
      ensures r.Err? ==> unchanged(round) && unchanged(round.keyboard.keys) && unchanged(round.hitRestrict)
      ensures r.Ok? ==> round.answer == old(round.answer) && round.taken == old(round.taken) + [w] && IsWord(w)
      ensures r.Ok? ==> r.value == (Judge(w, round.answer), round.keyboard)
      ensures r.Ok? ==> round.input == old(round.input) + [w] && round.inputStatus == old(round.inputStatus) + [r.value.0]
      ensures r.Ok? ==> (round.isSuccess <==> old(round.isSuccess) || w == round.answer)
      ensures r.Ok? ==> round.successCnt == if w == old(round.answer) && old(round.successCnt) == 0 then |round.input| else old(round.successCnt)
      ensures r.Ok? ==> round.useRestrict == old(round.useRestrict) + CloseIn(w, r.value.0)
      ensures r.Ok? ==> forall i :: 0 <= i < WORD_LENGTH ==> round.hitRestrict[i] == (old(round.hitRestrict[i]) || w[i] == round.answer[i])
    {
      if |round.input| == MAX_GUESS_NUM {
        return Err(OverTry);
      }
      var valid := IsValidGuess(w);
      if valid {
        var status := round.TakeGuess(w);
        return Ok((status, round.keyboard));
      }
      return Err(Invalid);
    }
  }

  /** In hard mode the answer itself is never refused, whatever was guessed before. */
  lemma AnswerIsAdmissible(game: Game)
    requires game.Valid() && game.round.answer in game.acceptable
    ensures game.Admissible(game.round.answer)
  {
    AnswerKeepsHistory(game.round.answer, game.round.taken, game.round.inputStatus);
  }
}
