/**
 * The procedural engine of src/main.rs: the hard-mode check against the previous guess,
 * the two-pass classifier that also folds statuses into a 26-entry alphabet map,
 * the most-frequent-guesses report, the word-list subset check, and the round and
 * session loops with their chance and win counters. Standard input is a sequence of lines.
 */
module Procedural {
  import opened Wrappers
  import opened Letters
  import opened Feedback
  import opened StatusOrder
  import opened Frequency

  const TOTAL_CHANCES: int := 6
  const WORD_LENGTH: nat := 5
  const TOP_N: nat := 5

  // ---------------------------------------------------------------- hard mode

  /** YELLOW marks on letter c among the first n positions of the previous result. */
  function YellowCount(last: string, st: seq<Status>, c: char, n: nat): nat
    requires n <= |last| && n <= |st|
  {
    if n == 0 then 0
    else YellowCount(last, st, c, n - 1) + (if st[n - 1] == YELLOW && last[n - 1] == c then 1 else 0)
  }

  /**
   * The hard-mode rule, over the candidate's positions: GREEN positions of the previous
   * result keep their letter, and every letter occurs at least as often as it was YELLOW.
   */
  ghost predicate HardModeOk(word: string, last: string, st: seq<Status>)
    requires |word| <= |last| && |word| <= |st|
  {
    && (forall i :: 0 <= i < |word| && st[i] == GREEN ==> word[i] == last[i])
    && (forall c :: Count(word, c) >= YellowCount(last, st, c, |word|))
  }

  /**
   * What the caller of `is_valid` hands it in hard mode after the first chance: a previous
   * guess in upper case and that guess's five-entry word state.
   */
  predicate PreviousReady(lastGuess: Option<string>, lastState: Option<seq<Status>>)
  {
    && lastGuess.Some? && lastState.Some?
    && AllUpper(lastGuess.value) && |lastState.value| == WORD_LENGTH
  }

  /** What `is_valid` does with a candidate: accepts it, refuses it, or panics. */
  datatype Verdict = Pass | Fail | Panics

  /**
   * The first loop of `is_valid` in hard mode, from position i up to `len` (the candidate's
   * length in bytes), as a debug build runs it: a panic where the candidate or the previous
   * guess has no i-th character, where the letter's byte lies below 'A' (the `u8` subtraction)
   * or where i is past the five-entry word state; a refusal at a GREEN position whose letter
   * changed; a panic where the letter's byte lies past 'Z' (the 26-entry counter).
   */
  function GreenScan(word: string, last: string, st: seq<Status>, len: nat, i: nat): Verdict
    requires i <= len
    decreases len - i
  {
    if i == len then Pass
    else if i >= |word| || i >= |last| || AsByte(word[i]) < 'A' as int || i >= |st| then Panics
    else if st[i] == GREEN && word[i] != last[i] then Fail
    else if AsByte(word[i]) > 'Z' as int then Panics
    else GreenScan(word, last, st, len, i + 1)
  }

  /** A scan that passes has met a letter byte at every position and kept every GREEN letter. */
  lemma {:induction false} GreenScanPasses(word: string, last: string, st: seq<Status>, len: nat, i: nat)
    requires i <= len && i <= |word| && i <= |last| && i <= |st| && GreenScan(word, last, st, len, i) == Pass
    ensures len <= |word| && len <= |last| && len <= |st|
    ensures forall j :: i <= j < len ==> IsUpper(LowBytes(word)[j]) && (st[j] == GREEN ==> word[j] == last[j])
    decreases len - i
  {
    if i < len {
      GreenScanPasses(word, last, st, len, i + 1);
    }
  }

  /** An upper-case candidate no longer than the previous guess never panics in the scan, and passes if it keeps every GREEN letter. */
  lemma {:induction false} GreenScanOfWord(word: string, last: string, st: seq<Status>, i: nat)
    requires i <= |word| <= |last| && |word| <= |st| && AllUpper(word)
    ensures GreenScan(word, last, st, |word|, i) != Panics
    ensures (forall j :: i <= j < |word| && st[j] == GREEN ==> word[j] == last[j]) ==> GreenScan(word, last, st, |word|, i) == Pass
    decreases |word| - i
  {
    if i < |word| {
      GreenScanOfWord(word, last, st, i + 1);
    }
  }

  /**
   * `is_valid`, as written. Outside hard mode, or on the first chance, it is membership of
   * the lower-cased word in the builtin list. Otherwise the first loop scans the candidate
   * against the previous guess and word state, and a candidate it lets through is accepted
   * when every letter occurs at least as often as the previous result marked it YELLOW.
   * The word list is not consulted in that case.
   */
  ghost function Validity(round: int, word: string, difficult: bool, lastGuess: Option<string>,
                          lastState: Option<seq<Status>>, builtin: set<string>): Verdict
    requires difficult && round != 1 ==> PreviousReady(lastGuess, lastState)
  {
    if !difficult || round == 1 then
      if ToAsciiLower(word) in builtin then Pass else Fail
    else
      var last, st := lastGuess.value, lastState.value;
      var scan := GreenScan(word, last, st, ByteLen(word), 0);
      if scan != Pass then scan
      else if |word| <= |last| && |word| <= |st| && HardModeOk(word, last, st) then Pass
      else Fail
  }

  /**
   * In hard mode after the first chance `is_valid` accepts exactly the upper-case words no
   * longer than the previous guess (and five letters) that keep its constraints, and it
   * panics only on a candidate of another shape.
   */
  lemma HardValidity(round: int, word: string, lastGuess: Option<string>, lastState: Option<seq<Status>>,
                     builtin: set<string>)
    requires round != 1 && PreviousReady(lastGuess, lastState)
    ensures Validity(round, word, true, lastGuess, lastState, builtin) == Pass <==>
      AllUpper(word) && |word| <= |lastGuess.value| && |word| <= WORD_LENGTH &&
      HardModeOk(word, lastGuess.value, lastState.value)
    ensures Validity(round, word, true, lastGuess, lastState, builtin) == Panics ==>
      !(AllUpper(word) && |word| <= |lastGuess.value| && |word| <= WORD_LENGTH)
  {
    var last, st := lastGuess.value, lastState.value;
    var len := ByteLen(word);
    if GreenScan(word, last, st, len, 0) == Pass {
      GreenScanPasses(word, last, st, len, 0);
      LowBytesOfAscii(word);
    }
    if AllUpper(word) && |word| <= |last| && |word| <= WORD_LENGTH {
      UpperIsAscii(word);
      GreenScanOfWord(word, last, st, 0);
    }
  }

  lemma {:induction false} YellowWitness(last: string, st: seq<Status>, c: char, n: nat)
    requires n <= |last| && n <= |st| && YellowCount(last, st, c, n) > 0
    ensures exists j :: 0 <= j < n && st[j] == YELLOW && last[j] == c
  {
    if !(st[n - 1] == YELLOW && last[n - 1] == c) {
      YellowWitness(last, st, c, n - 1);
    }
  }

  /**
   * The counters of `is_valid` after its first loop has read i positions: each letter's
   * occurrences in the candidate, and its YELLOW marks in the previous result.
   */
  ghost predicate Tallied(word: string, last: string, st: seq<Status>, counted: seq<nat>, stdCount: seq<nat>, i: nat)
    requires i <= |word| && i <= |last| && i <= |st|
  {
    && |counted| == ALPHABET_SIZE && |stdCount| == ALPHABET_SIZE
    && forall k :: 0 <= k < ALPHABET_SIZE ==>
         counted[k] == Count(word[..i], Letter(k)) && stdCount[k] == YellowCount(last, st, Letter(k), i)
  }

  /** Reading one more position bumps the candidate's letter and, on YELLOW, the previous guess's letter. */
  lemma TalliedStep(word: string, last: string, st: seq<Status>, counted: seq<nat>, stdCount: seq<nat>, i: nat)
    requires i < |word| && i < |last| && i < |st| && IsUpper(word[i]) && IsUpper(last[i])
    requires Tallied(word, last, st, counted, stdCount, i)
    ensures Tallied(word, last, st, counted[Idx(word[i]) := counted[Idx(word[i])] + 1],
                    if st[i] == YELLOW then stdCount[Idx(last[i]) := stdCount[Idx(last[i])] + 1] else stdCount, i + 1)
  {
    LetterOfIdx(word[i]);
    LetterOfIdx(last[i]);
    forall k | 0 <= k < ALPHABET_SIZE
      ensures Count(word[..i + 1], Letter(k)) == Count(word[..i], Letter(k)) + (if word[i] == Letter(k) then 1 else 0)
    {
      CountStep(word, Letter(k), i);
    }
  }

  /** The counting part of one position of the first loop of `is_valid`. */
  method Tally(word: string, last: string, st: seq<Status>, counted: array<nat>, stdCount: array<nat>, i: nat)
    requires i < |word| && i < |last| && i < |st| && IsUpper(word[i]) && IsUpper(last[i]) && counted != stdCount
    requires Tallied(word, last, st, counted[..], stdCount[..], i)
    modifies counted, stdCount
    ensures Tallied(word, last, st, counted[..], stdCount[..], i + 1)
  {
    TalliedStep(word, last, st, counted[..], stdCount[..], i);
    if st[i] == YELLOW {
      var stdIndex := Idx(last[i]);
      stdCount[stdIndex] := stdCount[stdIndex] + 1;
    }
    var index := Idx(word[i]);
    counted[index] := counted[index] + 1;
  }

  /**
   * First loop of `is_valid` in hard mode: its verdict is the scan's; when the scan passes
   * the candidate is upper case and the counters hold its letter counts and the YELLOW
   * counts of the previous guess. Letters are counted by the byte `as u8` keeps.
   */
  method TallyGreens(word: string, last: string, st: seq<Status>)
    returns (scan: Verdict, counted: array<nat>, stdCount: array<nat>)
    requires AllUpper(last)
    ensures fresh(counted) && fresh(stdCount)
    ensures scan == GreenScan(word, last, st, ByteLen(word), 0)
    ensures scan == Pass ==> AllUpper(word) && |word| <= |last| && |word| <= |st|
    ensures scan == Pass ==> Tallied(word, last, st, counted[..], stdCount[..], |word|)
  {
    stdCount := new nat[ALPHABET_SIZE](_ => 0);
    counted := new nat[ALPHABET_SIZE](_ => 0);
    var len := ByteLen(word);
    var low := LowBytes(word);
    for i := 0 to len
      invariant i <= |word| && i <= |last| && i <= |st|
      invariant GreenScan(word, last, st, len, i) == GreenScan(word, last, st, len, 0)
      invariant forall j :: 0 <= j < i ==> IsUpper(low[j])
      invariant Tallied(low, last, st, counted[..], stdCount[..], i)
    {
      if i >= |word| || i >= |last| || AsByte(word[i]) < 'A' as int || i >= |st| {
        return Panics, counted, stdCount;
      }
      if st[i] == GREEN && word[i] != last[i] {
        return Fail, counted, stdCount;
      }
      if AsByte(word[i]) > 'Z' as int {
        return Panics, counted, stdCount;
      }
      Tally(low, last, st, counted, stdCount, i);
    }
    LowBytesOfAscii(word);
    scan := Pass;
  }

  /**
   * Second loop of `is_valid` in hard mode: fails at the first YELLOW position whose letter
   * the candidate holds fewer times than the previous result marked it YELLOW.
   */
  method CheckYellows(word: string, last: string, st: seq<Status>, counted: array<nat>, stdCount: array<nat>)
    returns (yellowsKept: bool)
    requires AllUpper(last) && |word| <= |last| && |word| <= |st|
    requires Tallied(word, last, st, counted[..], stdCount[..], |word|)
    ensures yellowsKept <==> forall c :: Count(word, c) >= YellowCount(last, st, c, |word|)
  {
    var len := |word|;
    assert word[..len] == word;
    for i := 0 to len
      invariant forall j :: 0 <= j < i && st[j] == YELLOW ==> Count(word, last[j]) >= YellowCount(last, st, last[j], len)
    {
      var stdIndex := Idx(last[i]);
      LetterOfIdx(last[i]);
      if st[i] == YELLOW {
        if counted[stdIndex] < stdCount[stdIndex] {
          assert Count(word, last[i]) < YellowCount(last, st, last[i], len);
          return false;
        }
      }
    }
    forall c ensures Count(word, c) >= YellowCount(last, st, c, len) {
      if YellowCount(last, st, c, len) > 0 {
        YellowWitness(last, st, c, len);
      }
    }
    return true;
  }

  /** `is_valid`: its verdict is `Validity`'s. */
  method IsValid(round: int, word: string, difficult: bool, lastGuess: Option<string>,
                 lastState: Option<seq<Status>>, builtin: set<string>, acceptableSet: seq<string>)
    returns (v: Verdict)
    requires difficult && round != 1 ==> PreviousReady(lastGuess, lastState)
    ensures v == Validity(round, word, difficult, lastGuess, lastState, builtin)
    ensures !difficult || round == 1 ==> (v == Pass <==> ToAsciiLower(word) in builtin) && v != Panics
  {
    if !difficult || round == 1 {
      return if ToAsciiLower(word) in builtin then Pass else Fail;
    }
    var last, st := lastGuess.value, lastState.value;
    var scan, counted, stdCount := TallyGreens(word, last, st);
    if scan != Pass {
      return scan;
    }
    GreenScanPasses(word, last, st, ByteLen(word), 0);
    assert ByteLen(word) == |word|;
    assert forall j :: 0 <= j < |word| && st[j] == GREEN ==> word[j] == last[j];
    var yellowsKept := CheckYellows(word, last, st, counted, stdCount);
    assert yellowsKept <==> forall c :: Count(word, c) >= YellowCount(last, st, c, |word|);
    assert yellowsKept <==> HardModeOk(word, last, st);
    v := if yellowsKept then Pass else Fail;
  }

  lemma {:induction false} YellowCountBound(last: string, st: seq<Status>, c: char, n: nat)
    requires n <= |last| && n <= |st|
    ensures YellowCount(last, st, c, n) <= Count(last[..n], c)
  {
    if n > 0 {
      YellowCountBound(last, st, c, n - 1);
      CountStep(last, c, n - 1);
    }
  }

  /** Resubmitting the previous guess always satisfies the hard-mode rule. */
  lemma ResubmitIsAccepted(last: string, st: seq<Status>)
    requires |last| <= |st|
    ensures HardModeOk(last, last, st)
  {
    assert last[..|last|] == last;
    forall c ensures Count(last, c) >= YellowCount(last, st, c, |last|) {
      YellowCountBound(last, st, c, |last|);
    }
  }

  // ---------------------------------------------------------------- classification

  function StatusOf(m: Mark): Status
  {
    match m
    case Exact => GREEN
    case Present => YELLOW
    case Absent => RED
  }

  /** The word state `update_state` leaves when it starts from all UNKNOWN. */
  function Classify(g: string, a: string): seq<Status>
    requires |g| == |a|
  {
    seq(|g|, i requires 0 <= i < |g| => StatusOf(MarkAt(g, a, i)))
  }

  /** GREEN or YELLOW positions holding c among the first n. */
  function Informed(g: string, r: seq<Status>, c: char, n: nat): nat
    requires n <= |g| && n <= |r|
  {
    if n == 0 then 0
    else Informed(g, r, c, n - 1) + (if g[n - 1] == c && r[n - 1] in {GREEN, YELLOW} then 1 else 0)
  }

  lemma {:induction false} InformedIsMatched(g: string, a: string, c: char, n: nat)
    requires |g| == |a| && n <= |g|
    ensures Informed(g, Classify(g, a), c, n) == MatchedUpTo(g, a, c, n)
  {
    if n > 0 {
      InformedIsMatched(g, a, c, n - 1);
    }
  }

  /**
   * The classification: GREEN exactly where the words agree, every other position
   * YELLOW or RED, and each letter GREEN or YELLOW exactly min(count in guess, count in
   * answer) times.
   */
  lemma ClassifyIsWordle(g: string, a: string, c: char)
    requires |g| == |a|
    ensures forall i :: 0 <= i < |g| ==> (Classify(g, a)[i] == GREEN <==> g[i] == a[i])
    ensures forall i :: 0 <= i < |g| ==> Classify(g, a)[i] != UNKNOWN
    ensures Informed(g, Classify(g, a), c, |g|) == Min(Count(g, c), Count(a, c))
  {
    InformedIsMatched(g, a, c, |g|);
    LetterBudget(g, a, c);
  }

  /** Among non-exact positions holding one letter, the YELLOW ones are the leftmost. */
  lemma ClassifyYellowIsLeftmost(g: string, a: string, i: nat, j: nat)
    requires |g| == |a| && i < j < |g|
    requires g[i] == g[j] && g[i] != a[i] && g[j] != a[j]
    ensures Classify(g, a)[j] == YELLOW ==> Classify(g, a)[i] == YELLOW
  {
    PresentIsLeftmost(g, a, i, j);
  }

  /**
   * The alphabet entry of letter c after folding `max` with the status of each position
   * of g holding c, left to right over the statuses `ws`.
   */
  function Absorb(st: Status, g: string, ws: seq<Status>, c: char): Status
    requires |ws| <= |g|
  {
    if |ws| == 0 then st
    else
      var prev := Absorb(st, g, ws[..|ws| - 1], c);
      if g[|ws| - 1] == c then Max(prev, ws[|ws| - 1]) else prev
  }

  /**
   * An alphabet entry becomes the maximum of its old value and the statuses of the
   * positions holding its letter: it never decreases, it changes only for letters of
   * the guess, and it ends at least as high as every position holding the letter.
   */
  lemma {:induction false} AbsorbIsMaximum(st: Status, g: string, ws: seq<Status>, c: char)
    requires |ws| <= |g|
    ensures AtLeast(Absorb(st, g, ws, c), st)
    ensures forall j :: 0 <= j < |ws| && g[j] == c ==> AtLeast(Absorb(st, g, ws, c), ws[j])
    ensures Absorb(st, g, ws, c) == st || exists j :: 0 <= j < |ws| && g[j] == c && Absorb(st, g, ws, c) == ws[j]
    ensures (forall j :: 0 <= j < |ws| ==> g[j] != c) ==> Absorb(st, g, ws, c) == st
  {
    if |ws| > 0 {
      var n := |ws| - 1;
      var prev := Absorb(st, g, ws[..n], c);
      AbsorbIsMaximum(st, g, ws[..n], c);
      var r := Absorb(st, g, ws, c);
      AtLeastIsTotalOrder(r, prev, st);
      forall j | 0 <= j < n && g[j] == c ensures AtLeast(r, ws[j]) {
        assert ws[..n][j] == ws[j];
        AtLeastIsTotalOrder(r, prev, ws[j]);
      }
      if r != st && r != ws[n] {
        assert r == prev;
        var j :| 0 <= j < n && g[j] == c && prev == ws[..n][j];
        assert r == ws[j];
      }
    }
  }

  /** The letter histogram of an upper-case word, one counter per letter. */
  method LetterHistogram(s: string) returns (h: array<nat>)
    requires AllUpper(s)
    ensures fresh(h) && h.Length == ALPHABET_SIZE
    ensures forall k :: 0 <= k < ALPHABET_SIZE ==> h[k] == Count(s, Letter(k))
  {
    h := new nat[ALPHABET_SIZE](_ => 0);
    for i := 0 to |s|
      invariant forall k :: 0 <= k < ALPHABET_SIZE ==> h[k] == Count(s[..i], Letter(k))
    {
      var index := Idx(s[i]);
      h[index] := h[index] + 1;
      forall c ensures Count(s[..i + 1], c) == Count(s[..i], c) + (if s[i] == c then 1 else 0) {
        CountStep(s, c, i);
      }
    }
    assert s[..|s|] == s;
  }

  /** First pass of `update_state`: exact positions become GREEN and are counted per letter. */
  method MarkGreens(guess: string, answer: string, wordState: array<Status>) returns (counted: array<nat>)
    requires |guess| == |answer| && AllUpper(guess)
    requires wordState.Length == WORD_LENGTH && |guess| <= WORD_LENGTH
    modifies wordState
    ensures fresh(counted) && counted.Length == ALPHABET_SIZE
    ensures forall k :: 0 <= k < ALPHABET_SIZE ==> counted[k] == ExactUpTo(guess, answer, Letter(k), |guess|)
    ensures forall j :: 0 <= j < WORD_LENGTH ==>
      wordState[j] == if j < |guess| && guess[j] == answer[j] then GREEN else old(wordState[j])
  {
    counted := new nat[ALPHABET_SIZE](_ => 0);
    for i := 0 to |guess|
      invariant forall k :: 0 <= k < ALPHABET_SIZE ==> counted[k] == ExactUpTo(guess, answer, Letter(k), i)
      invariant forall j :: 0 <= j < WORD_LENGTH ==>
        wordState[j] == if j < i && guess[j] == answer[j] then GREEN else old(wordState[j])
    {
      var guessLetter, stdLetter := guess[i], answer[i];
      var index := Idx(guessLetter);
      if guessLetter == stdLetter {
        counted[index] := counted[index] + 1;
        wordState[i] := GREEN;
      }
    }
  }

  /** A non-exact position is YELLOW exactly when its running count stays within the answer's. */
  lemma OtherMark(g: string, a: string, i: nat, counted: nat, std: nat)
    requires |g| == |a| && i < |g| && g[i] != a[i]
    requires counted == ExactUpTo(g, a, g[i], |g|) + GuessSpare(g, a, g[i], i) + 1
    requires std == Count(a, g[i])
    ensures StatusOf(MarkAt(g, a, i)) == if counted <= std then YELLOW else RED
  {
    AnswerSplit(g, a, g[i], |a|);
    assert a[..|a|] == a;
  }

  lemma AbsorbStep(st: Status, g: string, ws: seq<Status>, n: nat, c: char)
    requires n < |ws| <= |g|
    ensures Absorb(st, g, ws[..n + 1], c) ==
      if g[n] == c then Max(Absorb(st, g, ws[..n], c), ws[n]) else Absorb(st, g, ws[..n], c)
  {
    assert ws[..n + 1][..n] == ws[..n];
  }

  /** The status the second pass of `update_state` leaves at position i. */
  function Raised(g: string, a: string, i: nat, before: Status): Status
    requires |g| == |a| && i < |g|
  {
    if g[i] == a[i] then before else Max(before, StatusOf(MarkAt(g, a, i)))
  }

  /** One iteration of the second pass of `update_state`, at position i. */
  method MarkPosition(guess: string, answer: string, i: nat, wordState: array<Status>, alphabetState: array<Status>,
                      counted: array<nat>, stdCount: array<nat>)
    requires |guess| == |answer| && AllUpper(guess) && i < |guess|
    requires wordState.Length == WORD_LENGTH && |guess| <= WORD_LENGTH
    requires alphabetState.Length == ALPHABET_SIZE && counted.Length == ALPHABET_SIZE && stdCount.Length == ALPHABET_SIZE
    requires counted != stdCount
    requires forall k :: 0 <= k < ALPHABET_SIZE ==> stdCount[k] == Count(answer, Letter(k))
    requires forall k :: 0 <= k < ALPHABET_SIZE ==>
      counted[k] == ExactUpTo(guess, answer, Letter(k), |guess|) + GuessSpare(guess, answer, Letter(k), i)
    modifies wordState, alphabetState, counted
    ensures wordState[..] == old(wordState[..])[i := Raised(guess, answer, i, old(wordState[i]))]
    ensures alphabetState[..] == old(alphabetState[..])[Idx(guess[i]) := Max(old(alphabetState[Idx(guess[i])]), wordState[i])]
    ensures forall k :: 0 <= k < ALPHABET_SIZE ==>
      counted[k] == ExactUpTo(guess, answer, Letter(k), |guess|) + GuessSpare(guess, answer, Letter(k), i + 1)
  {
    var guessLetter, stdLetter := guess[i], answer[i];
    var index := Idx(guessLetter);
    LetterOfIdx(guessLetter);
    if guessLetter != stdLetter {
      counted[index] := counted[index] + 1;
      OtherMark(guess, answer, i, counted[index], stdCount[index]);
      if counted[index] <= stdCount[index] {
        wordState[i] := Max(wordState[i], YELLOW);
      } else {
        wordState[i] := Max(wordState[i], RED);
      }
    }
    alphabetState[index] := Max(alphabetState[index], wordState[i]);
  }

  /** Overwriting the first untouched position with its target extends the finished prefix by one. */
  lemma Splice<T>(target: seq<T>, rest: seq<T>, i: nat)
    requires i < |target| <= |rest|
    ensures (target[..i] + rest[i..])[i := target[i]] == target[..i + 1] + rest[i + 1..]
  {
    var before, after := (target[..i] + rest[i..])[i := target[i]], target[..i + 1] + rest[i + 1..];
    assert forall j :: 0 <= j < |rest| ==> before[j] == after[j];
  }

  /** Absorbing position i of the target statuses into every alphabet entry advances the fold by one position. */
  lemma AbsorbAll(a0: seq<Status>, before: seq<Status>, after: seq<Status>, guess: string, target: seq<Status>, i: nat)
    requires |a0| == |before| == ALPHABET_SIZE && i < |target| <= |guess| && AllUpper(guess)
    requires forall k :: 0 <= k < ALPHABET_SIZE ==> before[k] == Absorb(a0[k], guess, target[..i], Letter(k))
    requires after == before[Idx(guess[i]) := Max(before[Idx(guess[i])], target[i])]
    ensures forall k :: 0 <= k < ALPHABET_SIZE ==> after[k] == Absorb(a0[k], guess, target[..i + 1], Letter(k))
  {
    LetterOfIdx(guess[i]);
    forall k | 0 <= k < ALPHABET_SIZE
      ensures after[k] == Absorb(a0[k], guess, target[..i + 1], Letter(k))
    {
      AbsorbStep(a0[k], guess, target, i, Letter(k));
    }
  }

  /**
   * Second pass of `update_state`: every other position is counted left to right and
   * raised with `max` to YELLOW while its letter's count stays within the answer's, to
   * RED after; every position's status is folded into the alphabet map.
   */
  method MarkOthers(guess: string, answer: string, wordState: array<Status>, alphabetState: array<Status>,
                    counted: array<nat>, stdCount: array<nat>)
    requires |guess| == |answer| && AllUpper(guess)
    requires wordState.Length == WORD_LENGTH && |guess| <= WORD_LENGTH
    requires alphabetState.Length == ALPHABET_SIZE && counted.Length == ALPHABET_SIZE && stdCount.Length == ALPHABET_SIZE
    requires counted != stdCount
    requires forall k :: 0 <= k < ALPHABET_SIZE ==> stdCount[k] == Count(answer, Letter(k))
    requires forall k :: 0 <= k < ALPHABET_SIZE ==> counted[k] == ExactUpTo(guess, answer, Letter(k), |guess|)
    modifies wordState, alphabetState, counted
    ensures forall j :: 0 <= j < |guess| ==> wordState[j] == Raised(guess, answer, j, old(wordState[j]))
    ensures forall j :: |guess| <= j < WORD_LENGTH ==> wordState[j] == old(wordState[j])
    ensures forall k :: 0 <= k < ALPHABET_SIZE ==>
      alphabetState[k] == Absorb(old(alphabetState[k]), guess, wordState[..|guess|], Letter(k))
  {
    var len := |guess|;
    ghost var w0, a0 := wordState[..], alphabetState[..];
    ghost var target := seq(len, j requires 0 <= j < len => Raised(guess, answer, j, w0[j]));
    for i := 0 to len
      invariant forall k :: 0 <= k < ALPHABET_SIZE ==>
        counted[k] == ExactUpTo(guess, answer, Letter(k), len) + GuessSpare(guess, answer, Letter(k), i)
      invariant forall k :: 0 <= k < ALPHABET_SIZE ==> stdCount[k] == Count(answer, Letter(k))
      invariant |wordState[..]| == WORD_LENGTH
      invariant wordState[..] == target[..i] + w0[i..]
      invariant forall k :: 0 <= k < ALPHABET_SIZE ==> alphabetState[k] == Absorb(a0[k], guess, target[..i], Letter(k))
    {
      ghost var before := alphabetState[..];
      MarkPosition(guess, answer, i, wordState, alphabetState, counted, stdCount);
      Splice(target, w0, i);
      AbsorbAll(a0, before, alphabetState[..], guess, target, i);
    }
    assert wordState[..len] == target;
  }

  /**
   * `update_state`: exact positions become GREEN; every other position is raised with
   * `max` to its YELLOW or RED mark; every alphabet entry absorbs the statuses of the
   * positions holding its letter. From an all-UNKNOWN word state the result is the
   * classification.
   */
  method UpdateState(guess: string, wordState: array<Status>, alphabetState: array<Status>, answer: string)
    requires |guess| == |answer| && AllUpper(guess) && AllUpper(answer)
    requires wordState.Length == WORD_LENGTH && |guess| <= WORD_LENGTH
    requires alphabetState.Length == ALPHABET_SIZE
    modifies wordState, alphabetState
    ensures forall i :: 0 <= i < |guess| ==>
      wordState[i] == if guess[i] == answer[i] then GREEN else Max(old(wordState[i]), StatusOf(MarkAt(guess, answer, i)))
    ensures forall i :: |guess| <= i < WORD_LENGTH ==> wordState[i] == old(wordState[i])
    ensures forall k :: 0 <= k < ALPHABET_SIZE ==>
      alphabetState[k] == Absorb(old(alphabetState[k]), guess, wordState[..|guess|], Letter(k))
    ensures (forall i :: 0 <= i < WORD_LENGTH ==> old(wordState[i]) == UNKNOWN) ==>
      wordState[..|guess|] == Classify(guess, answer)
  {
    var stdCount := LetterHistogram(answer);
    var counted := MarkGreens(guess, answer, wordState);
    MarkOthers(guess, answer, wordState, alphabetState, counted, stdCount);
    if forall i :: 0 <= i < WORD_LENGTH ==> old(wordState[i]) == UNKNOWN {
      assert wordState[..|guess|] == Classify(guess, answer);
    }
  }

  // ---------------------------------------------------------------- the validator as intended

  /** Every builtin word is five lower-case letters. */
  predicate WordList(builtin: set<string>)
  {
    forall w :: w in builtin ==> |w| == WORD_LENGTH && IsLowerWord(w)
  }

  /**
   * Where `update_state` panics: the byte lengths differ (its `assert_eq!`), a character of
   * either word is not an upper-case letter (the `u8` subtraction or a 26-entry array), or
   * the guess is longer than the five-entry word state.
   */
  predicate UpdatePanics(guess: string, answer: string)
  {
    ByteLen(guess) != ByteLen(answer) || !AllUpper(guess) || !AllUpper(answer) || |guess| > WORD_LENGTH
  }

  /**
   * Outside hard mode, or on the first chance, `is_valid` consults the word list; on a later
   * chance in hard mode it checks only the previous guess's constraints, so the empty line
   * is refused on the first chance but accepted on a later one, and `update_state` then
   * panics on it against any non-empty answer.
   */
  lemma HardModeSkipsWordList(builtin: set<string>, round: int, last: string, st: seq<Status>, answer: string)
    requires WordList(builtin) && round != 1 && PreviousReady(Some(last), Some(st))
    ensures Validity(1, "", true, None, None, builtin) == Fail
    ensures Validity(round, "", true, Some(last), Some(st), builtin) == Pass
    ensures |answer| > 0 ==> UpdatePanics("", answer)
  {
    HardValidity(round, "", Some(last), Some(st), builtin);
    forall c ensures Count("", c) >= YellowCount(last, st, c, 0) { }
  }

  /**
   * The validator the round evidently intends: the guess must be in the word list, and in
   * hard mode after the first chance it must also keep the previous guess's constraints.
   */
  method IsValidChecked(round: int, word: string, difficult: bool, lastGuess: Option<string>,
                        lastState: Option<seq<Status>>, builtin: set<string>, acceptableSet: seq<string>)
    returns (valid: bool)
    requires WordList(builtin) && word == ToAsciiUpper(word)
    requires difficult && round != 1 ==> PreviousReady(lastGuess, lastState) && |lastGuess.value| == WORD_LENGTH
    ensures valid ==> |word| == WORD_LENGTH && AllUpper(word)
    ensures valid <==> (ToAsciiLower(word) in builtin &&
      (difficult && round != 1 ==> HardModeOk(word, lastGuess.value, lastState.value)))
  {
    if ToAsciiLower(word) !in builtin {
      return false;
    }
    UpperWordFromLower(word);
    var v := IsValid(round, word, difficult, lastGuess, lastState, builtin, acceptableSet);
    if difficult && round != 1 {
      HardValidity(round, word, lastGuess, lastState, builtin);
    }
    valid := v == Pass;
  }

  // ---------------------------------------------------------------- statistics

  /** Inserts a tally of a new word before the first entry it outranks. */
  method InsertRanked(r: seq<Tally>, x: Tally) returns (r': seq<Tally>)
    requires StrictlyRanked(r) && forall q :: 0 <= q < |r| ==> r[q].0 != x.0
    ensures multiset(r') == multiset(r) + multiset{x}
    ensures StrictlyRanked(r')
  {
    var p := 0;
    while p < |r| && !Outranks(x, r[p])
      invariant 0 <= p <= |r|
      invariant forall q :: 0 <= q < p ==> Outranks(r[q], x)
    {
      OutranksIsStrictOrder(x, r[p], r[p]);
      p := p + 1;
    }
    r' := r[..p] + [x] + r[p..];
    forall a, b | 0 <= a < b < |r'| ensures Outranks(r'[a], r'[b]) {
      if b < p || a > p {
      } else if a == p {
        OutranksIsStrictOrder(x, r[p], r[b - 1]);
      } else if b > p {
        OutranksIsStrictOrder(r[a], x, r[b - 1]);
      }
    }
    assert r == r[..p] + r[p..];
  }

  /** `sort_by` with the ranking comparator, as an insertion sort over distinct words. */
  method SortRanked(s: seq<Tally>) returns (r: seq<Tally>)
    requires DistinctKeys(s)
    ensures multiset(r) == multiset(s)
    ensures StrictlyRanked(r)
  {
    r := [];
    for i := 0 to |s|
      invariant multiset(r) == multiset(s[..i])
      invariant StrictlyRanked(r)
    {
      var x := s[i];
      forall q | 0 <= q < |r| ensures r[q].0 != x.0 {
        assert r[q] in multiset(s[..i]);
        var j :| 0 <= j < i && s[..i][j] == r[q];
      }
      r := InsertRanked(r, x);
      assert s[..i + 1] == s[..i] + [x];
    }
    assert s[..|s|] == s;
  }

  /** `find_most_frequent_strings`: the n most used strings with their counts, in ranking order. */
  method FindMostFrequentStrings(strings: seq<string>, n: nat) returns (top: seq<Tally>)
    ensures IsTopN(strings, n, top)
  {
    var frequency := CountOccurrences(strings);
    var tallies := CollectTallies(strings, frequency);
    var sorted := SortRanked(tallies);
    RankedPermutationIsFull(strings, tallies, sorted);
    PrefixIsTopN(strings, n, sorted);
    if |sorted| < n {
      assert sorted[..Min(n, |sorted|)] == sorted;
      top := sorted;
    } else {
      top := sorted[..n];
    }
  }

  /** `check_subset`: every word of the first list is in the second. */
  function CheckSubset(subset: seq<string>, superset: seq<string>): (r: bool)
    ensures r <==> forall w :: w in subset ==> w in superset
  {
    DistinctMembers(subset);
    DistinctMembers(superset);
    Distinct(subset) <= Distinct(superset)
  }

  // ---------------------------------------------------------------- rounds

  datatype Outcome = SUCCESS | FAILED

  /**
   * How a round ends: an outcome with the chances counter; the end of input while the loop
   * refuses the empty line `read_line` then leaves, again and again (the source never leaves
   * the loop); or a panic.
   */
  datatype RoundEnd = Finished(outcome: Outcome, chancesLeft: int) | Exhausted | Panicked

  ghost function Unknowns(): seq<Status>
  {
    seq(ALPHABET_SIZE, _ => UNKNOWN)
  }

  /** The alphabet map a round's i-th accepted guess starts from. */
  ghost function AlphabetBefore(alphabets: seq<seq<Status>>, i: nat): seq<Status>
    requires i <= |alphabets|
  {
    if i == 0 then Unknowns() else alphabets[i - 1]
  }

  /** Every alphabet entry is at least where it was. */
  ghost predicate Upgrades(before: seq<Status>, after: seq<Status>)
  {
    |before| == |after| && forall k :: 0 <= k < |before| ==> AtLeast(after[k], before[k])
  }

  /** A recorded guess: five upper-case letters, as many as the answer has. */
  ghost predicate AcceptedWord(answer: string, g: string)
  {
    AllUpper(g) && |g| == |answer| == WORD_LENGTH
  }

  /** Every recorded guess of a round is five upper-case letters, as many as the answer has. */
  ghost predicate Accepted(answer: string, guesses: seq<string>)
  {
    forall i {:trigger AcceptedWord(answer, guesses[i])} ::
      0 <= i < |guesses| ==> AcceptedWord(answer, guesses[i])
  }

  /** The lower case of a guess is a word of the list. */
  ghost predicate Listed(builtin: set<string>, g: string)
  {
    ToAsciiLower(g) in builtin
  }

  /** The guesses `is_valid` looked up in the word list are in it: the first, and every one outside hard mode. */
  ghost predicate ListedWhereChecked(difficult: bool, builtin: set<string>, guesses: seq<string>)
  {
    forall i {:trigger Listed(builtin, guesses[i])} ::
      0 <= i < |guesses| && (i == 0 || !difficult) ==> Listed(builtin, guesses[i])
  }

  /** A word state is the classification of its guess against the answer. */
  ghost predicate ClassifiedAs(answer: string, g: string, ws: seq<Status>)
  {
    |g| == |answer| && ws == Classify(g, answer)
  }

  /** Every word state of a round is the classification of its guess. */
  ghost predicate Classified(answer: string, guesses: seq<string>, states: seq<seq<Status>>)
  {
    && |guesses| == |states|
    && forall i {:trigger ClassifiedAs(answer, guesses[i], states[i])} ::
         0 <= i < |guesses| ==> ClassifiedAs(answer, guesses[i], states[i])
  }

  /** A hard-mode guess keeps the constraints of the guess before it and that guess's word state. */
  ghost predicate KeepsPrevious(g: string, last: string, st: seq<Status>)
  {
    |g| <= |last| && |g| <= |st| && HardModeOk(g, last, st)
  }

  /** In hard mode every guess after the first keeps the previous guess's constraints. */
  ghost predicate HardChain(difficult: bool, guesses: seq<string>, states: seq<seq<Status>>)
  {
    difficult ==> forall i {:trigger KeepsPrevious(guesses[i], guesses[i - 1], states[i - 1])} ::
      0 < i < |guesses| && i <= |states| ==> KeepsPrevious(guesses[i], guesses[i - 1], states[i - 1])
  }

  /** Each alphabet snapshot folds its guess's word state into the previous snapshot (all UNKNOWN before the first). */
  ghost predicate Folded(guesses: seq<string>, states: seq<seq<Status>>, alphabets: seq<seq<Status>>)
  {
    && |guesses| == |states| == |alphabets|
    && (forall i :: 0 <= i < |alphabets| ==> |alphabets[i]| == ALPHABET_SIZE && |states[i]| <= |guesses[i]|)
    && (forall i, k {:trigger Absorb(AlphabetBefore(alphabets, i)[k], guesses[i], states[i], Letter(k))} ::
          0 <= i < |alphabets| && 0 <= k < ALPHABET_SIZE ==>
          alphabets[i][k] == Absorb(AlphabetBefore(alphabets, i)[k], guesses[i], states[i], Letter(k)))
  }

  /** The snapshots of a round only ever upgrade: each is at least the one before it. */
  lemma SnapshotsUpgrade(guesses: seq<string>, states: seq<seq<Status>>, alphabets: seq<seq<Status>>, i: nat)
    requires Folded(guesses, states, alphabets) && 0 < i < |alphabets|
    ensures Upgrades(alphabets[i - 1], alphabets[i])
  {
    forall k | 0 <= k < ALPHABET_SIZE ensures AtLeast(alphabets[i][k], alphabets[i - 1][k]) {
      var before := AlphabetBefore(alphabets, i);
      assert alphabets[i][k] == Absorb(before[k], guesses[i], states[i], Letter(k));
      AbsorbIsMaximum(before[k], guesses[i], states[i], Letter(k));
    }
  }

  /**
   * What a round has recorded: guesses of five upper-case letters, looked up in the list
   * where `is_valid` consults it, each with its classification against the answer; in hard
   * mode each keeps the previous guess's constraints; each alphabet snapshot folds its guess
   * into the previous one, so the snapshots only ever upgrade.
   */
  ghost predicate History(answer: string, difficult: bool, builtin: set<string>,
                          guesses: seq<string>, states: seq<seq<Status>>, alphabets: seq<seq<Status>>)
  {
    && |guesses| == |states| == |alphabets| <= TOTAL_CHANCES
    && Accepted(answer, guesses)
    && ListedWhereChecked(difficult, builtin, guesses)
    && Classified(answer, guesses, states)
    && HardChain(difficult, guesses, states)
    && Folded(guesses, states, alphabets)
  }

  /** Folding one more guess into the last snapshot keeps the snapshots folded and upgrading. */
  lemma ExtendFolded(guesses: seq<string>, states: seq<seq<Status>>, alphabets: seq<seq<Status>>,
                     g: string, ws: seq<Status>, alpha: seq<Status>)
    requires Folded(guesses, states, alphabets) && |ws| <= |g| && |alpha| == ALPHABET_SIZE
    requires forall k :: 0 <= k < ALPHABET_SIZE ==> alpha[k] == Absorb(AlphabetBefore(alphabets, |alphabets|)[k], g, ws, Letter(k))
    ensures Folded(guesses + [g], states + [ws], alphabets + [alpha])
  {
    var guesses', states', alphabets' := guesses + [g], states + [ws], alphabets + [alpha];
    var n := |guesses|;
    assert AlphabetBefore(alphabets', n) == AlphabetBefore(alphabets, n);
    forall i, k | 0 <= i < n + 1 && 0 <= k < ALPHABET_SIZE
      ensures alphabets'[i][k] == Absorb(AlphabetBefore(alphabets', i)[k], guesses'[i], states'[i], Letter(k))
    {
      if i < n {
        assert AlphabetBefore(alphabets', i) == AlphabetBefore(alphabets, i);
        assert alphabets[i][k] == Absorb(AlphabetBefore(alphabets, i)[k], guesses[i], states[i], Letter(k));
      }
    }
  }

  /** Recording one more guess keeps the history well formed. */
  lemma ExtendHistory(answer: string, difficult: bool, builtin: set<string>,
                      guesses: seq<string>, states: seq<seq<Status>>, alphabets: seq<seq<Status>>,
                      g: string, ws: seq<Status>, alpha: seq<Status>)
    requires History(answer, difficult, builtin, guesses, states, alphabets) && |guesses| < TOTAL_CHANCES
    requires AcceptedWord(answer, g) && ((|guesses| == 0 || !difficult) ==> Listed(builtin, g))
    requires ws == Classify(g, answer)
    requires difficult && |guesses| > 0 ==> KeepsPrevious(g, guesses[|guesses| - 1], states[|states| - 1])
    requires |alpha| == ALPHABET_SIZE
    requires forall k :: 0 <= k < ALPHABET_SIZE ==> alpha[k] == Absorb(AlphabetBefore(alphabets, |alphabets|)[k], g, ws, Letter(k))
    ensures History(answer, difficult, builtin, guesses + [g], states + [ws], alphabets + [alpha])
  {
    ExtendFolded(guesses, states, alphabets, g, ws, alpha);
    var guesses', states' := guesses + [g], states + [ws];
    var n := |guesses|;
    forall i | 0 <= i < n + 1 ensures AcceptedWord(answer, guesses'[i]) && ClassifiedAs(answer, guesses'[i], states'[i]) {
      if i < n {
        assert AcceptedWord(answer, guesses[i]) && ClassifiedAs(answer, guesses[i], states[i]);
      }
    }
    forall i | 0 <= i < n + 1 && (i == 0 || !difficult) ensures Listed(builtin, guesses'[i]) {
      if i < n {
        assert Listed(builtin, guesses[i]);
      }
    }
    if difficult {
      forall i | 0 < i < n + 1 ensures KeepsPrevious(guesses'[i], guesses'[i - 1], states'[i - 1]) {
        if i < n {
          assert KeepsPrevious(guesses[i], guesses[i - 1], states[i - 1]);
        }
      }
    }
  }

  /** The last element, as `Vec::last` gives it. */
  function LastOf<T>(s: seq<T>): (r: Option<T>)
    ensures r.Some? <==> |s| > 0
    ensures |s| > 0 ==> r.value == s[|s| - 1]
  {
    if |s| == 0 then None else Some(s[|s| - 1])
  }

  /** The word state `is_valid` is handed: the classification of the round's last guess. */
  ghost function PreviousState(answer: string, guesses: seq<string>): (p: Option<seq<Status>>)
    requires Accepted(answer, guesses)
    ensures p.Some? <==> |guesses| > 0
    ensures |guesses| > 0 ==> PreviousReady(LastOf(guesses), p)
  {
    if |guesses| == 0 then None
    else
      assert AcceptedWord(answer, guesses[|guesses| - 1]);
      Some(Classify(guesses[|guesses| - 1], answer))
  }

  /**
   * A line `is_valid` accepts and `update_state` does not panic on is recorded as a guess of
   * five upper-case letters, in the list where the list was consulted.
   */
  lemma RecordedWord(answer: string, difficult: bool, builtin: set<string>, guesses: seq<string>, guess: string)
    requires WordList(builtin) && |guesses| < TOTAL_CHANCES
    requires Accepted(answer, guesses) && ListedWhereChecked(difficult, builtin, guesses)
    requires Validity(|guesses| + 1, guess, difficult, LastOf(guesses), PreviousState(answer, guesses), builtin) == Pass
    requires !UpdatePanics(guess, answer)
    ensures AcceptedWord(answer, guess) && ((|guesses| == 0 || !difficult) ==> Listed(builtin, guess))
    ensures Accepted(answer, guesses + [guess]) && ListedWhereChecked(difficult, builtin, guesses + [guess])
  {
    UpperIsAscii(guess);
    UpperIsAscii(answer);
    if difficult && |guesses| > 0 {
      assert AcceptedWord(answer, guesses[0]);
      HardValidity(|guesses| + 1, guess, LastOf(guesses), PreviousState(answer, guesses), builtin);
    }
    var guesses' := guesses + [guess];
    forall i | 0 <= i < |guesses'| ensures AcceptedWord(answer, guesses'[i]) {
      if i < |guesses| {
        assert AcceptedWord(answer, guesses[i]);
      }
    }
    forall i | 0 <= i < |guesses'| && (i == 0 || !difficult) ensures Listed(builtin, guesses'[i]) {
      if i < |guesses| {
        assert Listed(builtin, guesses[i]);
      }
    }
  }

  /** A recorded guess in hard mode also keeps the previous guess's constraints. */
  lemma RecordedShape(answer: string, difficult: bool, builtin: set<string>, guesses: seq<string>, guess: string)
    requires WordList(builtin) && |guesses| < TOTAL_CHANCES
    requires Accepted(answer, guesses) && ListedWhereChecked(difficult, builtin, guesses)
    requires Validity(|guesses| + 1, guess, difficult, LastOf(guesses), PreviousState(answer, guesses), builtin) == Pass
    requires !UpdatePanics(guess, answer)
    ensures AcceptedWord(answer, guess) && ((|guesses| == 0 || !difficult) ==> Listed(builtin, guess))
    ensures Accepted(answer, guesses + [guess]) && ListedWhereChecked(difficult, builtin, guesses + [guess])
    ensures difficult && |guesses| > 0 ==> KeepsPrevious(guess, guesses[|guesses| - 1], PreviousState(answer, guesses).value)
  {
    RecordedWord(answer, difficult, builtin, guesses, guess);
    if difficult && |guesses| > 0 {
      assert AcceptedWord(answer, guesses[0]);
      HardValidity(|guesses| + 1, guess, LastOf(guesses), PreviousState(answer, guesses), builtin);
    }
  }

  /**
   * At the end of input `read_line` leaves the line empty, every time. A hard-mode round with
   * a recorded guess accepts it and `update_state` panics on it; any other round refuses it.
   */
  lemma EmptyLineAtEnd(answer: string, difficult: bool, builtin: set<string>, guesses: seq<string>)
    requires WordList(builtin) && |guesses| < TOTAL_CHANCES && Accepted(answer, guesses)
    ensures Validity(|guesses| + 1, "", difficult, LastOf(guesses), PreviousState(answer, guesses), builtin) == Fail
      <==> !difficult || |guesses| == 0
    ensures Validity(|guesses| + 1, "", difficult, LastOf(guesses), PreviousState(answer, guesses), builtin) != Fail
      ==> UpdatePanics("", answer)
  {
    if difficult && |guesses| > 0 {
      assert AcceptedWord(answer, guesses[0]);
      HardModeSkipsWordList(builtin, |guesses| + 1, LastOf(guesses).value, PreviousState(answer, guesses).value, answer);
    }
  }

  /**
   * An accepted guess: classified from a fresh all-UNKNOWN word state, folded into the
   * round's alphabet map, and pushed with both states onto the round's history.
   */
  method RecordGuess(answer: string, difficult: bool, builtin: set<string>, guess: string,
                     alphabetState: array<Status>, guesses: seq<string>, states: seq<seq<Status>>,
                     alphabets: seq<seq<Status>>)
    returns (guesses': seq<string>, states': seq<seq<Status>>, alphabets': seq<seq<Status>>)
    requires History(answer, difficult, builtin, guesses, states, alphabets) && |guesses| < TOTAL_CHANCES
    requires AcceptedWord(answer, guess) && AllUpper(answer) && ((|guesses| == 0 || !difficult) ==> Listed(builtin, guess))
    requires difficult && |guesses| > 0 ==> KeepsPrevious(guess, guesses[|guesses| - 1], states[|states| - 1])
    requires alphabetState.Length == ALPHABET_SIZE && alphabetState[..] == AlphabetBefore(alphabets, |alphabets|)
    modifies alphabetState
    ensures guesses' == guesses + [guess] && states' == states + [Classify(guess, answer)]
    ensures |alphabets'| == |alphabets| + 1 && alphabets'[..|alphabets|] == alphabets
    ensures History(answer, difficult, builtin, guesses', states', alphabets')
    ensures alphabetState[..] == AlphabetBefore(alphabets', |alphabets'|)
  {
    var wordState := new Status[WORD_LENGTH](_ => UNKNOWN);
    UpdateState(guess, wordState, alphabetState, answer);
    assert wordState[..] == wordState[..|guess|];
    ExtendHistory(answer, difficult, builtin, guesses, states, alphabets, guess, wordState[..], alphabetState[..]);
    guesses', states', alphabets' := guesses + [guess], states + [wordState[..]], alphabets + [alphabetState[..]];
    assert alphabets'[..|alphabets|] == alphabets;
  }

  /** What one chance does with its line: refuses it, records it as a guess, or crashes the program. */
  datatype Chance = Rejected | Recorded | Crash

  /**
   * What one chance does with the line it reads, after `guesses`: `is_valid` refuses it, or
   * `is_valid` or `update_state` panics on it, or it is recorded, which keeps the guesses
   * five-letter upper-case words, listed where `is_valid` looked them up.
   */
  ghost function Step(answer: string, difficult: bool, builtin: set<string>, guesses: seq<string>, guess: string): (c: Chance)
    requires WordList(builtin) && |guesses| < TOTAL_CHANCES
    requires Accepted(answer, guesses) && ListedWhereChecked(difficult, builtin, guesses)
    ensures c == Recorded ==> AcceptedWord(answer, guess)
    ensures c == Recorded ==> Accepted(answer, guesses + [guess]) && ListedWhereChecked(difficult, builtin, guesses + [guess])
  {
    var v := Validity(|guesses| + 1, guess, difficult, LastOf(guesses), PreviousState(answer, guesses), builtin);
    if v == Fail then Rejected
    else if v == Panics || UpdatePanics(guess, answer) then Crash
    else
      RecordedWord(answer, difficult, builtin, guesses, guess);
      Recorded
  }

  /**
   * The judging half of one chance: the next line is read (empty at the end of input),
   * upper-cased and trimmed, and `is_valid` judges it against the previous guess and its
   * word state; a line it passes is then checked for a panic of `update_state`.
   */
  method Judge(answer: string, difficult: bool, builtin: set<string>, acceptable: seq<string>,
               lines: seq<string>, consumed: nat, guesses: seq<string>, states: seq<seq<Status>>)
    returns (c: Chance, guess: string)
    requires WordList(builtin) && consumed <= |lines| && |guesses| < TOTAL_CHANCES
    requires Accepted(answer, guesses) && ListedWhereChecked(difficult, builtin, guesses)
    requires Classified(answer, guesses, states)
    ensures guess == if consumed < |lines| then Trim(ToAsciiUpper(lines[consumed])) else ""
    ensures c == Step(answer, difficult, builtin, guesses, guess)
    ensures c == Recorded ==> consumed < |lines|
  {
    var line := if consumed < |lines| then lines[consumed] else "";
    guess := Trim(ToAsciiUpper(line));
    if consumed == |lines| {
      EmptyLineAtEnd(answer, difficult, builtin, guesses);
    }
    if |guesses| > 0 {
      var last := |guesses| - 1;
      assert AcceptedWord(answer, guesses[last]) && ClassifiedAs(answer, guesses[last], states[last]);
    }
    var v := IsValid(|guesses| + 1, guess, difficult, LastOf(guesses), LastOf(states), builtin, acceptable);
    c := if v == Fail then Rejected else if v == Panics || UpdatePanics(guess, answer) then Crash else Recorded;
  }

  /**
   * One chance of the guess loop: the line `Judge` reads is refused, crashes the program, or
   * is classified and recorded. What it does is the next step of `RoundFrom`.
   */
  method TryGuess(answer: string, difficult: bool, builtin: set<string>, acceptable: seq<string>,
                  lines: seq<string>, consumed: nat, alphabetState: array<Status>,
                  guesses: seq<string>, states: seq<seq<Status>>, alphabets: seq<seq<Status>>)
    returns (c: Chance, guess: string, guesses': seq<string>, states': seq<seq<Status>>, alphabets': seq<seq<Status>>)
    requires WordList(builtin) && consumed <= |lines|
    requires History(answer, difficult, builtin, guesses, states, alphabets) && |guesses| < TOTAL_CHANCES
    requires forall i :: 0 <= i < |guesses| ==> guesses[i] != answer
    requires alphabetState.Length == ALPHABET_SIZE && alphabetState[..] == AlphabetBefore(alphabets, |alphabets|)
    modifies alphabetState
    ensures guess == if consumed < |lines| then Trim(ToAsciiUpper(lines[consumed])) else ""
    ensures c == Step(answer, difficult, builtin, guesses, guess)
    ensures c != Recorded ==> guesses' == guesses && states' == states && alphabets' == alphabets
    ensures c != Recorded ==> alphabetState[..] == old(alphabetState[..])
    ensures c == Recorded ==> consumed < |lines|
    ensures c == Recorded ==> guesses' == guesses + [guess] && states' == states + [Classify(guess, answer)]
    ensures c == Recorded ==> History(answer, difficult, builtin, guesses', states', alphabets')
    ensures c == Recorded ==> alphabetState[..] == AlphabetBefore(alphabets', |alphabets'|)
  {
    guesses', states', alphabets' := guesses, states, alphabets;
    c, guess := Judge(answer, difficult, builtin, acceptable, lines, consumed, guesses, states);
    if c == Recorded {
      RecordedShape(answer, difficult, builtin, guesses, guess);
      if difficult && |guesses| > 0 {
        var last := |guesses| - 1;
        assert ClassifiedAs(answer, guesses[last], states[last]);
      }
      guesses', states', alphabets' := RecordGuess(answer, difficult, builtin, guess, alphabetState, guesses, states, alphabets);
    }
  }

  /** A round's run over input lines: how it ends, the guesses it records, the lines it reads. */
  datatype RoundRun = RoundRun(end: RoundEnd, guesses: seq<string>, consumed: nat)

  function Skipped(r: RoundRun): RoundRun
  {
    r.(consumed := r.consumed + 1)
  }

  /**
   * The guess loop of `main`, from the point where `guesses` (none of them the answer) are
   * recorded, over the lines still to be read, each upper-cased and trimmed as the loop
   * reads it: after six recorded guesses the round is FAILED; otherwise the next line is
   * judged by `is_valid`. A refused line costs no chance; a
   * panic of `is_valid` or `update_state` ends the program; an accepted line is recorded and
   * wins the round if it is the answer.
   */
  ghost function RoundFrom(answer: string, difficult: bool, builtin: set<string>, read: seq<string>,
                           guesses: seq<string>): (r: RoundRun)
    requires WordList(builtin) && |guesses| <= TOTAL_CHANCES
    requires Accepted(answer, guesses) && ListedWhereChecked(difficult, builtin, guesses)
    requires forall i :: 0 <= i < |guesses| ==> guesses[i] != answer
    ensures r.consumed <= |read|
    decreases |read|
  {
    if |guesses| == TOTAL_CHANCES then RoundRun(Finished(FAILED, -1), guesses, 0)
    else if |read| == 0 then
      if Step(answer, difficult, builtin, guesses, "") == Rejected then RoundRun(Exhausted, guesses, 0)
      else RoundRun(Panicked, guesses, 0)
    else
      var guess := Trim(ToAsciiUpper(read[0]));
      var c := Step(answer, difficult, builtin, guesses, guess);
      if c == Rejected then Skipped(RoundFrom(answer, difficult, builtin, read[1..], guesses))
      else if c == Crash then RoundRun(Panicked, guesses, 1)
      else
        if guess == answer then RoundRun(Finished(SUCCESS, TOTAL_CHANCES - |guesses| - 1), guesses + [guess], 1)
        else Skipped(RoundFrom(answer, difficult, builtin, read[1..], guesses + [guess]))
  }

  /** One step of a round: the next line (or the end of input) goes through `Step`. */
  lemma RoundStepEnd(answer: string, difficult: bool, builtin: set<string>, lines: seq<string>, consumed: nat,
                     guesses: seq<string>, c: Chance)
    requires WordList(builtin) && |guesses| < TOTAL_CHANCES && consumed == |lines|
    requires Accepted(answer, guesses) && ListedWhereChecked(difficult, builtin, guesses)
    requires forall i :: 0 <= i < |guesses| ==> guesses[i] != answer
    requires c == Step(answer, difficult, builtin, guesses, "")
    ensures c != Recorded
    ensures RoundFrom(answer, difficult, builtin, lines[consumed..], guesses) ==
      RoundRun(if c == Rejected then Exhausted else Panicked, guesses, 0)
  {
    EmptyLineAtEnd(answer, difficult, builtin, guesses);
  }

  /** One step of a round on a line that was read, with the guess it records, if any. */
  lemma RoundStepLine(answer: string, difficult: bool, builtin: set<string>, lines: seq<string>, consumed: nat,
                      guesses: seq<string>, guess: string, c: Chance, guesses': seq<string>)
    requires WordList(builtin) && |guesses| < TOTAL_CHANCES && consumed < |lines|
    requires Accepted(answer, guesses) && ListedWhereChecked(difficult, builtin, guesses)
    requires forall i :: 0 <= i < |guesses| ==> guesses[i] != answer
    requires guess == Trim(ToAsciiUpper(lines[consumed])) && c == Step(answer, difficult, builtin, guesses, guess)
    requires guesses' == if c == Recorded then guesses + [guess] else guesses
    ensures c == Crash ==>
      RoundFrom(answer, difficult, builtin, lines[consumed..], guesses) == RoundRun(Panicked, guesses', 1)
    ensures c == Recorded && guess == answer ==>
      RoundFrom(answer, difficult, builtin, lines[consumed..], guesses) ==
      RoundRun(Finished(SUCCESS, TOTAL_CHANCES - |guesses'|), guesses', 1)
    ensures c == Rejected || (c == Recorded && guess != answer) ==>
      RoundFrom(answer, difficult, builtin, lines[consumed..], guesses) ==
      Skipped(RoundFrom(answer, difficult, builtin, lines[consumed + 1..], guesses'))
  {
    assert lines[consumed..][1..] == lines[consumed + 1..];
  }

  /**
   * How one chance leaves the round, and how many lines it read: a panic ends it, a refused
   * line is skipped unless the input has ended, and a recorded guess ends it when it is the
   * answer, with the chances it leaves.
   */
  function ChanceOutcome(c: Chance, found: bool, atEnd: bool, chancesLeft: int): (bool, RoundEnd, nat)
  {
    match c
    case Crash => (true, Panicked, if atEnd then 0 else 1)
    case Rejected => if atEnd then (true, Exhausted, 0) else (false, Exhausted, 1)
    case Recorded => if found then (true, Finished(SUCCESS, chancesLeft), 1) else (false, Exhausted, 1)
  }

  /**
   * A round's guesses extend those it started from, are at most six, are all recorded
   * guesses, and none but the last is the answer.
   */
  lemma {:induction false} RoundShape(answer: string, difficult: bool, builtin: set<string>, read: seq<string>,
                                      guesses: seq<string>)
    requires WordList(builtin) && |guesses| <= TOTAL_CHANCES
    requires Accepted(answer, guesses) && ListedWhereChecked(difficult, builtin, guesses)
    requires forall i :: 0 <= i < |guesses| ==> guesses[i] != answer
    ensures var r := RoundFrom(answer, difficult, builtin, read, guesses);
      && |guesses| <= |r.guesses| <= TOTAL_CHANCES && r.guesses[..|guesses|] == guesses
      && Accepted(answer, r.guesses) && ListedWhereChecked(difficult, builtin, r.guesses)
      && forall i :: 0 <= i < |r.guesses| - 1 ==> r.guesses[i] != answer
    decreases |read|
  {
    if |guesses| < TOTAL_CHANCES && |read| > 0 {
      var guess := Trim(ToAsciiUpper(read[0]));
      var c := Step(answer, difficult, builtin, guesses, guess);
      if c == Rejected {
        RoundShape(answer, difficult, builtin, read[1..], guesses);
      } else if c == Recorded {
        if guess != answer {
          var longer := guesses + [guess];
          RoundShape(answer, difficult, builtin, read[1..], longer);
          var r := RoundFrom(answer, difficult, builtin, read[1..], longer);
          assert r.guesses[..|guesses|] == r.guesses[..|longer|][..|guesses|];
        }
      }
    }
  }

  /** A round is left waiting for input only once every line is read. */
  lemma {:induction false} RoundWaits(answer: string, difficult: bool, builtin: set<string>, read: seq<string>,
                                      guesses: seq<string>)
    requires WordList(builtin) && |guesses| <= TOTAL_CHANCES
    requires Accepted(answer, guesses) && ListedWhereChecked(difficult, builtin, guesses)
    requires forall i :: 0 <= i < |guesses| ==> guesses[i] != answer
    ensures RoundFrom(answer, difficult, builtin, read, guesses).end == Exhausted ==>
      RoundFrom(answer, difficult, builtin, read, guesses).consumed == |read|
    decreases |read|
  {
    if |guesses| < TOTAL_CHANCES && |read| > 0 {
      var guess := Trim(ToAsciiUpper(read[0]));
      var c := Step(answer, difficult, builtin, guesses, guess);
      if c == Rejected {
        RoundWaits(answer, difficult, builtin, read[1..], guesses);
      } else if c == Recorded && guess != answer {
        RoundWaits(answer, difficult, builtin, read[1..], guesses + [guess]);
      }
    }
  }

  /** A won round's last guess is the answer. */
  lemma {:induction false} RoundWon(answer: string, difficult: bool, builtin: set<string>, read: seq<string>,
                                    guesses: seq<string>)
    requires WordList(builtin) && |guesses| <= TOTAL_CHANCES
    requires Accepted(answer, guesses) && ListedWhereChecked(difficult, builtin, guesses)
    requires forall i :: 0 <= i < |guesses| ==> guesses[i] != answer
    ensures var r := RoundFrom(answer, difficult, builtin, read, guesses);
      r.end.Finished? && r.end.outcome == SUCCESS ==> 0 < |r.guesses| && r.guesses[|r.guesses| - 1] == answer
    decreases |read|
  {
    if |guesses| < TOTAL_CHANCES && |read| > 0 {
      var guess := Trim(ToAsciiUpper(read[0]));
      var c := Step(answer, difficult, builtin, guesses, guess);
      var r := RoundFrom(answer, difficult, builtin, read, guesses);
      if c == Rejected {
        RoundWon(answer, difficult, builtin, read[1..], guesses);
        var next := RoundFrom(answer, difficult, builtin, read[1..], guesses);
        assert r.end == next.end && r.guesses == next.guesses;
      } else if c == Recorded && guess != answer {
        RoundWon(answer, difficult, builtin, read[1..], guesses + [guess]);
        var next := RoundFrom(answer, difficult, builtin, read[1..], guesses + [guess]);
        assert r.end == next.end && r.guesses == next.guesses;
      } else if c == Recorded {
        assert r.guesses == guesses + [guess];
      }
    }
  }

  /** A round that ends otherwise than won ends with no guess that is the answer. */
  lemma {:induction false} RoundLost(answer: string, difficult: bool, builtin: set<string>, read: seq<string>,
                                     guesses: seq<string>)
    requires WordList(builtin) && |guesses| <= TOTAL_CHANCES
    requires Accepted(answer, guesses) && ListedWhereChecked(difficult, builtin, guesses)
    requires forall i :: 0 <= i < |guesses| ==> guesses[i] != answer
    ensures var r := RoundFrom(answer, difficult, builtin, read, guesses);
      !(r.end.Finished? && r.end.outcome == SUCCESS) ==> forall i :: 0 <= i < |r.guesses| ==> r.guesses[i] != answer
    decreases |read|
  {
    if |guesses| < TOTAL_CHANCES && |read| > 0 {
      var guess := Trim(ToAsciiUpper(read[0]));
      var c := Step(answer, difficult, builtin, guesses, guess);
      var r := RoundFrom(answer, difficult, builtin, read, guesses);
      if c == Rejected {
        RoundLost(answer, difficult, builtin, read[1..], guesses);
        assert r == Skipped(RoundFrom(answer, difficult, builtin, read[1..], guesses));
      } else if c == Recorded && guess != answer {
        RoundLost(answer, difficult, builtin, read[1..], guesses + [guess]);
        assert r == Skipped(RoundFrom(answer, difficult, builtin, read[1..], guesses + [guess]));
      }
    }
  }

  /** A round that ends with an outcome has a guess, and it is won exactly when its last guess is the answer. */
  lemma RoundOutcome(answer: string, difficult: bool, builtin: set<string>, read: seq<string>, guesses: seq<string>)
    requires WordList(builtin) && |guesses| <= TOTAL_CHANCES
    requires Accepted(answer, guesses) && ListedWhereChecked(difficult, builtin, guesses)
    requires forall i :: 0 <= i < |guesses| ==> guesses[i] != answer
    ensures var r := RoundFrom(answer, difficult, builtin, read, guesses);
      r.end.Finished? ==> 0 < |r.guesses| && (r.end.outcome == SUCCESS <==> r.guesses[|r.guesses| - 1] == answer)
  {
    RoundWon(answer, difficult, builtin, read, guesses);
    RoundLost(answer, difficult, builtin, read, guesses);
    RoundChances(answer, difficult, builtin, read, guesses);
  }

  /**
   * The chances counter at the end of a round: a won round spent one chance per guess; a
   * FAILED round spent all six and left the counter at -1, and a round whose sixth guess is
   * not the answer is FAILED.
   */
  lemma {:induction false} RoundChances(answer: string, difficult: bool, builtin: set<string>, read: seq<string>,
                                        guesses: seq<string>)
    requires WordList(builtin) && |guesses| <= TOTAL_CHANCES
    requires Accepted(answer, guesses) && ListedWhereChecked(difficult, builtin, guesses)
    requires forall i :: 0 <= i < |guesses| ==> guesses[i] != answer
    ensures var r := RoundFrom(answer, difficult, builtin, read, guesses);
      && (r.end.Finished? && r.end.outcome == SUCCESS ==> r.end.chancesLeft == TOTAL_CHANCES - |r.guesses|)
      && (r.end.Finished? && r.end.outcome == FAILED ==> |r.guesses| == TOTAL_CHANCES && r.end.chancesLeft == -1)
      && (|r.guesses| == TOTAL_CHANCES && r.guesses[TOTAL_CHANCES - 1] != answer ==> r.end == Finished(FAILED, -1))
    decreases |read|
  {
    if |guesses| < TOTAL_CHANCES && |read| > 0 {
      var guess := Trim(ToAsciiUpper(read[0]));
      var c := Step(answer, difficult, builtin, guesses, guess);
      if c == Rejected {
        RoundChances(answer, difficult, builtin, read[1..], guesses);
      } else if c == Recorded && guess != answer {
        RoundChances(answer, difficult, builtin, read[1..], guesses + [guess]);
      }
    }
  }

  /** Shifts a run's count of lines read by the lines read before it. */
  function Offset(r: RoundRun, n: nat): RoundRun
  {
    r.(consumed := r.consumed + n)
  }

  /**
   * One pass of the guess loop body after the chance is taken: tries the next line and says
   * whether the round is over, how, and how many lines it read.
   */
  method NextChance(answer: string, difficult: bool, builtin: set<string>, acceptable: seq<string>,
                    lines: seq<string>, consumed: nat, alphabetState: array<Status>,
                    guesses: seq<string>, states: seq<seq<Status>>, alphabets: seq<seq<Status>>)
    returns (done: bool, end: RoundEnd, guesses': seq<string>, states': seq<seq<Status>>, alphabets': seq<seq<Status>>,
             consumed': nat)
    requires WordList(builtin) && consumed <= |lines|
    requires History(answer, difficult, builtin, guesses, states, alphabets) && |guesses| < TOTAL_CHANCES
    requires forall i :: 0 <= i < |guesses| ==> guesses[i] != answer
    requires alphabetState.Length == ALPHABET_SIZE && alphabetState[..] == AlphabetBefore(alphabets, |alphabets|)
    modifies alphabetState
    ensures consumed <= consumed' <= |lines|
    ensures History(answer, difficult, builtin, guesses', states', alphabets')
    ensures alphabetState[..] == AlphabetBefore(alphabets', |alphabets'|)
    ensures !done ==> consumed' == consumed + 1 && forall i :: 0 <= i < |guesses'| ==> guesses'[i] != answer
    ensures !done ==> |guesses'| <= |guesses| + 1
    ensures done ==>
      RoundFrom(answer, difficult, builtin, lines[consumed..], guesses) ==
      RoundRun(end, guesses', consumed' - consumed)
    ensures !done ==>
      RoundFrom(answer, difficult, builtin, lines[consumed..], guesses) ==
      Skipped(RoundFrom(answer, difficult, builtin, lines[consumed'..], guesses'))
  {
    var chance, guess;
    chance, guess, guesses', states', alphabets' :=
      TryGuess(answer, difficult, builtin, acceptable, lines, consumed, alphabetState, guesses, states, alphabets);
    if consumed < |lines| {
      RoundStepLine(answer, difficult, builtin, lines, consumed, guesses, guess, chance, guesses');
    } else {
      RoundStepEnd(answer, difficult, builtin, lines, consumed, guesses, chance);
    }
    var (d, e, read) := ChanceOutcome(chance, guess == answer, consumed == |lines|, TOTAL_CHANCES - |guesses'|);
    done, end, consumed' := d, e, consumed + read;
  }

  /**
   * The guess loop of one round, over the remaining input lines: it does what `RoundFrom`
   * says, and keeps the history of word states and alphabet snapshots.
   */
  method PlayRound(answer: string, difficult: bool, builtin: set<string>, acceptable: seq<string>,
                   lines: seq<string>)
    returns (end: RoundEnd, guesses: seq<string>, states: seq<seq<Status>>, alphabets: seq<seq<Status>>,
             consumed: nat)
    requires WordList(builtin)
    ensures RoundRun(end, guesses, consumed) == RoundFrom(answer, difficult, builtin, lines, [])
    ensures History(answer, difficult, builtin, guesses, states, alphabets)
  {
    var chancesLeft := TOTAL_CHANCES;
    var alphabetState := new Status[ALPHABET_SIZE](_ => UNKNOWN);
    guesses, states, alphabets, consumed := [], [], [], 0;
    assert lines[0..] == lines;
    while true
      invariant consumed <= |lines|
      invariant chancesLeft == TOTAL_CHANCES - |guesses|
      invariant History(answer, difficult, builtin, guesses, states, alphabets)
      invariant forall i :: 0 <= i < |guesses| ==> guesses[i] != answer
      invariant alphabetState[..] == AlphabetBefore(alphabets, |alphabets|)
      invariant RoundFrom(answer, difficult, builtin, lines, []) ==
        Offset(RoundFrom(answer, difficult, builtin, lines[consumed..], guesses), consumed)
      decreases |lines| - consumed
    {
      chancesLeft := chancesLeft - 1;
      if chancesLeft < 0 {
        return Finished(FAILED, chancesLeft), guesses, states, alphabets, consumed;
      }
      var done, consumed';
      done, end, guesses, states, alphabets, consumed' :=
        NextChance(answer, difficult, builtin, acceptable, lines, consumed, alphabetState, guesses, states, alphabets);
      if done {
        return end, guesses, states, alphabets, consumed';
      }
      consumed := consumed';
      chancesLeft := TOTAL_CHANCES - |guesses|;
    }
  }

  /** At the end of input a hard-mode round with a recorded guess panics; any other round never ends. */
  lemma EndOfInput(answer: string, difficult: bool, builtin: set<string>, guesses: seq<string>)
    requires WordList(builtin) && |guesses| < TOTAL_CHANCES
    requires Accepted(answer, guesses) && ListedWhereChecked(difficult, builtin, guesses)
    requires forall i :: 0 <= i < |guesses| ==> guesses[i] != answer
    ensures RoundFrom(answer, difficult, builtin, [], guesses).end == if difficult && |guesses| > 0 then Panicked else Exhausted
  {
    EmptyLineAtEnd(answer, difficult, builtin, guesses);
  }

  /** The two hard-mode steps of `HardModeRecordsUnlisted`: both lines are recorded. */
  lemma HardModeFirstTwo(answer: string, builtin: set<string>, first: string, second: string)
    requires WordList(builtin) && AllUpper(answer) && |answer| == WORD_LENGTH
    requires AllUpper(first) && Listed(builtin, first) && first != answer
    requires AllUpper(second) && |second| == WORD_LENGTH && second != answer
    requires |first| == WORD_LENGTH && HardModeOk(second, first, Classify(first, answer))
    ensures Step(answer, true, builtin, [], first) == Recorded
    ensures Step(answer, true, builtin, [first], second) == Recorded
    ensures Accepted(answer, [first]) && ListedWhereChecked(true, builtin, [first])
    ensures Accepted(answer, [first, second]) && ListedWhereChecked(true, builtin, [first, second])
  {
    UpperIsAscii(first);
    UpperIsAscii(second);
    UpperIsAscii(answer);
    assert Validity(1, first, true, None, None, builtin) == Pass;
    assert !UpdatePanics(first, answer);
    assert AcceptedWord(answer, first);
    assert PreviousState(answer, [first]) == Some(Classify(first, answer));
    HardValidity(2, second, Some(first), Some(Classify(first, answer)), builtin);
    assert Validity(2, second, true, LastOf([first]), PreviousState(answer, [first]), builtin) == Pass;
    assert !UpdatePanics(second, answer);
    assert Accepted(answer, [first]) && ListedWhereChecked(true, builtin, [first]);
  }

  /**
   * In hard mode a second line that keeps the first guess's constraints is recorded whether
   * or not it is a word of the list: only the first guess is looked up.
   */
  lemma HardModeRecordsUnlisted(answer: string, builtin: set<string>, first: string, second: string, rest: seq<string>)
    requires WordList(builtin) && AllUpper(answer) && |answer| == WORD_LENGTH
    requires first == ToAsciiUpper(first) && Listed(builtin, first) && first != answer
    requires AllUpper(second) && |second| == WORD_LENGTH && second != answer
    requires |first| == WORD_LENGTH && HardModeOk(second, first, Classify(first, answer))
    ensures |RoundFrom(answer, true, builtin, [first, second] + rest, []).guesses| >= 2
    ensures RoundFrom(answer, true, builtin, [first, second] + rest, []).guesses[..2] == [first, second]
  {
    HardModeFirstTwo(answer, builtin, first, second);
    assert ToAsciiUpper(second) == second;
    UpperWordFromLower(first);
    TrimLetters(first);
    TrimLetters(second);
    assert [] + [first] == [first] && [first] + [second] == [first, second];
    RoundShape(answer, true, builtin, rest, [first, second]);
    RoundRecordsFirst(answer, true, builtin, second, rest, [first]);
    assert [first, second] + rest == [first] + ([second] + rest);
    RoundRecordsFirst(answer, true, builtin, first, [second] + rest, []);
  }

  /** A first line recorded as a guess other than the answer leaves the round to the rest of the lines. */
  lemma RoundRecordsFirst(answer: string, difficult: bool, builtin: set<string>, line: string, rest: seq<string>,
                          guesses: seq<string>)
    requires WordList(builtin) && |guesses| < TOTAL_CHANCES
    requires Accepted(answer, guesses) && ListedWhereChecked(difficult, builtin, guesses)
    requires forall i :: 0 <= i < |guesses| ==> guesses[i] != answer
    requires Step(answer, difficult, builtin, guesses, Trim(ToAsciiUpper(line))) == Recorded
    requires Trim(ToAsciiUpper(line)) != answer
    ensures RoundFrom(answer, difficult, builtin, [line] + rest, guesses) ==
      Skipped(RoundFrom(answer, difficult, builtin, rest, guesses + [Trim(ToAsciiUpper(line))]))
  {
    assert ([line] + rest)[0] == line && ([line] + rest)[1..] == rest;
  }

  // ---------------------------------------------------------------- sessions

  /** The options of a session that the game loop reads (day and bias are unsigned). */
  datatype Config = Config(random: bool, day: nat, word: string, difficult: bool, stats: bool)

  /**
   * How a session ends: "N" after a round, or one fixed-word round, or a round that refuses
   * the empty line at the end of input for ever, or a panic.
   */
  datatype SessionEnd = Quit | ConfigError | InputExhausted | Crashed

  /**
   * The statistics line printed after a round: wins, losses and the average number of
   * guesses of won rounds as a fraction (0 when nothing was won).
   */
  function StatsLine(winRounds: nat, totalRounds: nat, winGuesses: nat): (r: (nat, int, nat, nat))
    ensures r.0 == winRounds && r.0 + r.1 == totalRounds
    ensures winRounds <= totalRounds ==> r.1 >= 0
    ensures r.3 > 0
    ensures winRounds == 0 ==> r.2 == 0
    ensures winRounds > 0 ==> r.2 == winGuesses && r.3 == winRounds
    ensures 0 < winRounds <= winGuesses <= TOTAL_CHANCES * winRounds ==> r.3 <= r.2 <= TOTAL_CHANCES * r.3
  {
    if winRounds == 0 then (winRounds, totalRounds - winRounds, 0, 1)
    else (winRounds, totalRounds - winRounds, winGuesses, winRounds)
  }


  /** A round that ended with an outcome and was won. */
  predicate Won(r: RoundRun)
  {
    r.end.Finished? && r.end.outcome == SUCCESS
  }

  /** `total_rounds`: the rounds that ended with an outcome. */
  function TotalRounds(rounds: seq<RoundRun>): (n: nat)
    ensures n <= |rounds|
  {
    if |rounds| == 0 then 0
    else TotalRounds(rounds[..|rounds| - 1]) + if rounds[|rounds| - 1].end.Finished? then 1 else 0
  }

  /** `win_rounds`: the rounds won, never more than the rounds counted. */
  function WinRounds(rounds: seq<RoundRun>): (n: nat)
    ensures n <= TotalRounds(rounds)
  {
    if |rounds| == 0 then 0
    else WinRounds(rounds[..|rounds| - 1]) + if Won(rounds[|rounds| - 1]) then 1 else 0
  }

  /** `win_guesses`: the guesses recorded in won rounds. */
  function WinGuesses(rounds: seq<RoundRun>): nat
  {
    if |rounds| == 0 then 0
    else WinGuesses(rounds[..|rounds| - 1]) + if Won(rounds[|rounds| - 1]) then |rounds[|rounds| - 1].guesses| else 0
  }

  /** `all_guesses_strings`: every recorded guess of the session, in order. */
  function AllGuesses(rounds: seq<RoundRun>): seq<string>
  {
    if |rounds| == 0 then [] else AllGuesses(rounds[..|rounds| - 1]) + rounds[|rounds| - 1].guesses
  }

  /** Each counter grows by what one more round adds to it. */
  lemma RoundsAppend(rounds: seq<RoundRun>, r: RoundRun)
    ensures TotalRounds(rounds + [r]) == TotalRounds(rounds) + if r.end.Finished? then 1 else 0
    ensures WinRounds(rounds + [r]) == WinRounds(rounds) + if Won(r) then 1 else 0
    ensures WinGuesses(rounds + [r]) == WinGuesses(rounds) + if Won(r) then |r.guesses| else 0
    ensures AllGuesses(rounds + [r]) == AllGuesses(rounds) + r.guesses
  {
    assert (rounds + [r])[..|rounds|] == rounds;
  }

  /** A recorded guess: five upper-case letters, in the list outside hard mode. */
  ghost predicate PlayedWord(difficult: bool, builtin: set<string>, g: string)
  {
    AllUpper(g) && |g| == WORD_LENGTH && (!difficult ==> Listed(builtin, g))
  }

  /**
   * A round as the guess loop plays it from its start: at most six guesses of five
   * upper-case letters, all in the list outside hard mode; a won round has one guess or more
   * and used one chance per guess.
   */
  ghost predicate WellPlayed(difficult: bool, builtin: set<string>, r: RoundRun)
  {
    && |r.guesses| <= TOTAL_CHANCES
    && (forall g :: g in r.guesses ==> PlayedWord(difficult, builtin, g))
    && (Won(r) ==> 0 < |r.guesses| && r.end.chancesLeft == TOTAL_CHANCES - |r.guesses|)
  }

  ghost predicate AllWellPlayed(difficult: bool, builtin: set<string>, rounds: seq<RoundRun>)
  {
    forall k :: 0 <= k < |rounds| ==> WellPlayed(difficult, builtin, rounds[k])
  }

  /** Every round the guess loop plays from its start is well played. */
  lemma RoundIsWellPlayed(answer: string, difficult: bool, builtin: set<string>, read: seq<string>)
    requires WordList(builtin)
    ensures WellPlayed(difficult, builtin, RoundFrom(answer, difficult, builtin, read, []))
  {
    RoundShape(answer, difficult, builtin, read, []);
    RoundOutcome(answer, difficult, builtin, read, []);
    RoundChances(answer, difficult, builtin, read, []);
    var r := RoundFrom(answer, difficult, builtin, read, []);
    forall g | g in r.guesses ensures PlayedWord(difficult, builtin, g) {
      var i :| 0 <= i < |r.guesses| && r.guesses[i] == g;
      assert AcceptedWord(answer, r.guesses[i]);
      if !difficult {
        assert Listed(builtin, r.guesses[i]);
      }
    }
  }

  /**
   * Over well-played rounds, each win counts one to six guesses, each round adds at most six
   * guesses to the session's list, and every guess in it is a five-letter upper-case word,
   * in the list outside hard mode.
   */
  lemma {:induction false} SessionCounters(difficult: bool, builtin: set<string>, rounds: seq<RoundRun>)
    requires AllWellPlayed(difficult, builtin, rounds)
    ensures WinRounds(rounds) <= WinGuesses(rounds) <= TOTAL_CHANCES * WinRounds(rounds)
    ensures |AllGuesses(rounds)| <= TOTAL_CHANCES * |rounds|
    ensures forall w :: w in AllGuesses(rounds) ==> PlayedWord(difficult, builtin, w)
  {
    if |rounds| > 0 {
      var init, r := rounds[..|rounds| - 1], rounds[|rounds| - 1];
      assert AllWellPlayed(difficult, builtin, init) by {
        forall k | 0 <= k < |init| ensures WellPlayed(difficult, builtin, init[k]) {
          assert init[k] == rounds[k];
        }
      }
      SessionCounters(difficult, builtin, init);
      assert WellPlayed(difficult, builtin, r);
    }
  }

  /** The statistics lines a session prints: one after each round with an outcome, over the rounds so far. */
  ghost function Reports(rounds: seq<RoundRun>): seq<(nat, int, nat, nat)>
  {
    if |rounds| == 0 then []
    else if rounds[|rounds| - 1].end.Finished? then
      Reports(rounds[..|rounds| - 1]) + [StatsLine(WinRounds(rounds), TotalRounds(rounds), WinGuesses(rounds))]
    else Reports(rounds[..|rounds| - 1])
  }

  /** The top-five reports a session prints: after each round with an outcome, those of every guess so far. */
  ghost predicate TopsReported(rounds: seq<RoundRun>, tops: seq<seq<Tally>>)
  {
    if |rounds| == 0 then tops == []
    else if rounds[|rounds| - 1].end.Finished? then
      && |tops| > 0 && IsTopN(AllGuesses(rounds), TOP_N, tops[|tops| - 1])
      && TopsReported(rounds[..|rounds| - 1], tops[..|tops| - 1])
    else TopsReported(rounds[..|rounds| - 1], tops)
  }

  /**
   * Over well-played rounds there is one statistics line per round with an outcome, and each
   * counts no more wins than rounds and averages one to six guesses per win.
   */
  lemma {:induction false} ReportsBounds(difficult: bool, builtin: set<string>, rounds: seq<RoundRun>)
    requires AllWellPlayed(difficult, builtin, rounds)
    ensures |Reports(rounds)| == TotalRounds(rounds)
    ensures forall line :: line in Reports(rounds) ==>
      line.1 >= 0 && (line.0 > 0 ==> line.3 <= line.2 <= TOTAL_CHANCES * line.3)
  {
    if |rounds| > 0 {
      var init := rounds[..|rounds| - 1];
      forall k | 0 <= k < |init| ensures WellPlayed(difficult, builtin, init[k]) {
        assert init[k] == rounds[k];
      }
      ReportsBounds(difficult, builtin, init);
      SessionCounters(difficult, builtin, rounds);
    }
  }

  /** One more well-played round keeps every round well played. */
  lemma WellPlayedExtend(difficult: bool, builtin: set<string>, rounds: seq<RoundRun>, r: RoundRun)
    requires AllWellPlayed(difficult, builtin, rounds) && WellPlayed(difficult, builtin, r)
    ensures AllWellPlayed(difficult, builtin, rounds + [r])
  {
    var longer := rounds + [r];
    forall k | 0 <= k < |longer| ensures WellPlayed(difficult, builtin, longer[k]) {
      if k < |rounds| {
        assert longer[k] == rounds[k];
      }
    }
  }

  /** A round's answer is the word at 1-based position pos of the shuffled list, upper-cased and trimmed. */
  ghost predicate DrawnAt(answer: string, shuffled: seq<string>, pos: int)
  {
    0 < pos <= |shuffled| && answer == Trim(ToAsciiUpper(shuffled[pos - 1]))
  }

  /** Round r's answer is the word at day + r - 1 of the shuffled list. */
  ghost predicate DrawnInOrder(answers: seq<string>, shuffled: seq<string>, day: nat)
  {
    forall r :: 0 <= r < |answers| ==> DrawnAt(answers[r], shuffled, day + r)
  }

  /** Drawing the next word of the shuffled list keeps the answers in drawing order. */
  lemma DrawnExtend(answers: seq<string>, shuffled: seq<string>, day: nat, answer: string)
    requires DrawnInOrder(answers, shuffled, day) && DrawnAt(answer, shuffled, day + |answers|)
    ensures DrawnInOrder(answers + [answer], shuffled, day)
  {
    forall r | 0 <= r < |answers| + 1 ensures DrawnAt((answers + [answer])[r], shuffled, day + r) {
      if r < |answers| {
        assert (answers + [answer])[r] == answers[r];
      }
    }
  }

  /**
   * A round's answer and the input lines drawing it reads: the word at day + bias - 1 of the
   * shuffled final list (a panic when day + bias is 0 or past the list), the fixed word, or
   * the next input line (empty at the end of input); upper-cased and trimmed.
   */
  function Draw(config: Config, shuffled: seq<string>, lines: seq<string>, bias: nat): (d: Option<(string, nat)>)
    ensures d.None? <==> config.random && !(0 < config.day + bias <= |shuffled|)
    ensures d.Some? ==> d.value.1 <= |lines|
  {
    if config.random then
      if 0 < config.day + bias <= |shuffled| then Some((Trim(ToAsciiUpper(shuffled[config.day + bias - 1])), 0)) else None
    else if config.word != "" then Some((Trim(ToAsciiUpper(config.word)), 0))
    else if |lines| == 0 then Some(("", 0))
    else Some((Trim(ToAsciiUpper(lines[0])), 1))
  }

  /** What follows a round in the session loop: another round, or the end of the session. */
  datatype Next = PlayOn | EndWith(end: SessionEnd)

  /**
   * What `main` does after a round, given the input lines that follow it: the end of input or
   * a panic during the round ends the session; after a round with an outcome a fixed word
   * stops it, and otherwise the option line, trimmed, decides: "Y" plays on, "N" quits, and
   * anything else, the empty line at the end of input too, is refused with a panic.
   */
  function AfterRound(word: string, roundEnd: RoundEnd, after: seq<string>): (n: Next)
    ensures n == PlayOn <==> roundEnd.Finished? && word == "" && |after| > 0 && Trim(after[0]) == "Y"
    ensures n == EndWith(Quit) <==> roundEnd.Finished? && (word != "" || (|after| > 0 && Trim(after[0]) == "N"))
    ensures n == EndWith(InputExhausted) <==> roundEnd == Exhausted
    ensures n.EndWith? ==> n.end != ConfigError
  {
    match roundEnd
    case Exhausted => EndWith(InputExhausted)
    case Panicked => EndWith(Crashed)
    case Finished(_, _) =>
      if word != "" then EndWith(Quit)
      else if |after| > 0 && Trim(after[0]) == "Y" then PlayOn
      else if |after| > 0 && Trim(after[0]) == "N" then EndWith(Quit)
      else EndWith(Crashed)
  }

  /** A session's run: how it ends, the answers drawn, and the rounds played on them. */
  datatype SessionRun = SessionRun(end: SessionEnd, answers: seq<string>, rounds: seq<RoundRun>)

  /**
   * The session loop of `main` from the point where `answers` were drawn and `rounds` played
   * on them (the bias is their number): draw the answer, play its round on the lines that
   * follow, and after a round with an outcome stop for a fixed word, or read the option line,
   * trimmed: "Y" plays on, "N" quits, anything else (the empty line at the end of input too)
   * panics.
   */
  ghost function SessionFrom(config: Config, shuffled: seq<string>, builtin: set<string>, lines: seq<string>,
                             answers: seq<string>, rounds: seq<RoundRun>): SessionRun
    requires WordList(builtin)
    decreases |lines|
  {
    match Draw(config, shuffled, lines, |answers|)
    case None => SessionRun(Crashed, answers, rounds)
    case Some((answer, used)) =>
      var r := RoundFrom(answer, config.difficult, builtin, lines[used..], []);
      var after := lines[used + r.consumed..];
      match AfterRound(config.word, r.end, after)
      case PlayOn => SessionFrom(config, shuffled, builtin, after[1..], answers + [answer], rounds + [r])
      case EndWith(end) => SessionRun(end, answers + [answer], rounds + [r])
  }

  /** One step of the session loop, with the drawn answer and the round played on it named. */
  lemma SessionStep(config: Config, shuffled: seq<string>, builtin: set<string>, lines: seq<string>,
                    answers: seq<string>, rounds: seq<RoundRun>, answer: string, first: nat, used: nat, r: RoundRun)
    requires WordList(builtin) && Draw(config, shuffled, lines, |answers|) == Some((answer, first))
    requires r == RoundFrom(answer, config.difficult, builtin, lines[first..], []) && used == first + r.consumed
    ensures used <= |lines|
    ensures SessionFrom(config, shuffled, builtin, lines, answers, rounds) ==
      match AfterRound(config.word, r.end, lines[used..])
      case PlayOn => SessionFrom(config, shuffled, builtin, lines[used..][1..], answers + [answer], rounds + [r])
      case EndWith(end) => SessionRun(end, answers + [answer], rounds + [r])
  {
  }

  /** Playing on draws the answers of the shuffled list in order. */
  lemma {:induction false} SessionDraws(config: Config, shuffled: seq<string>, builtin: set<string>, lines: seq<string>,
                                        answers: seq<string>, rounds: seq<RoundRun>)
    requires WordList(builtin) && config.random && DrawnInOrder(answers, shuffled, config.day)
    ensures DrawnInOrder(SessionFrom(config, shuffled, builtin, lines, answers, rounds).answers, shuffled, config.day)
    decreases |lines|
  {
    match Draw(config, shuffled, lines, |answers|)
    case None =>
    case Some((answer, used)) =>
      DrawnExtend(answers, shuffled, config.day, answer);
      var r := RoundFrom(answer, config.difficult, builtin, lines[used..], []);
      var after := lines[used + r.consumed..];
      if AfterRound(config.word, r.end, after) == PlayOn {
        SessionDraws(config, shuffled, builtin, after[1..], answers + [answer], rounds + [r]);
      }
  }

  /** A session on a fixed word plays at most one round, and without a seed its answer is that word. */
  lemma SessionFixedWord(config: Config, shuffled: seq<string>, builtin: set<string>, lines: seq<string>,
                         answers: seq<string>, rounds: seq<RoundRun>)
    requires WordList(builtin) && config.word != ""
    ensures var s := SessionFrom(config, shuffled, builtin, lines, answers, rounds);
      |answers| <= |s.answers| <= |answers| + 1 && s.answers[..|answers|] == answers
    ensures !config.random ==>
      SessionFrom(config, shuffled, builtin, lines, answers, rounds).answers == answers + [Trim(ToAsciiUpper(config.word))]
  {
  }

  /** A whole session: the word lists are checked first, then rounds are played from the first line. */
  ghost function Session(config: Config, finalList: seq<string>, acceptableList: seq<string>, shuffled: seq<string>,
                         builtin: set<string>, lines: seq<string>): SessionRun
    requires WordList(builtin)
  {
    if !CheckSubset(finalList, acceptableList) then SessionRun(ConfigError, [], [])
    else SessionFrom(config, shuffled, builtin, lines, [], [])
  }

  /**
   * A session's answers: with a seed, the words of the shuffled list from position `day` on,
   * in order; with a fixed word, one round at most, whose answer without a seed is that word.
   */
  lemma SessionAnswers(config: Config, finalList: seq<string>, acceptableList: seq<string>, shuffled: seq<string>,
                       builtin: set<string>, lines: seq<string>)
    requires WordList(builtin)
    ensures var s := Session(config, finalList, acceptableList, shuffled, builtin, lines);
      && (config.random ==> DrawnInOrder(s.answers, shuffled, config.day))
      && (config.word != "" ==> |s.answers| <= 1)
      && (!config.random && config.word != "" && s.end != ConfigError ==> s.answers == [Trim(ToAsciiUpper(config.word))])
  {
    if CheckSubset(finalList, acceptableList) {
      if config.random {
        SessionDraws(config, shuffled, builtin, lines, [], []);
      }
      if config.word != "" {
        SessionFixedWord(config, shuffled, builtin, lines, [], []);
      }
    }
  }

  /**
   * The start of one round of the session loop: the answer is drawn and its round played on
   * the lines that follow, as `Draw` and `RoundFrom` say; `used` counts the lines read by both.
   */
  method NextRound(config: Config, shuffled: seq<string>, builtin: set<string>, acceptable: seq<string>,
                   lines: seq<string>, bias: nat)
    returns (drew: bool, answer: string, roundEnd: RoundEnd, guesses: seq<string>, used: nat)
    requires WordList(builtin)
    ensures drew <==> Draw(config, shuffled, lines, bias).Some?
    ensures drew ==>
      var (a, u) := Draw(config, shuffled, lines, bias).value;
      && answer == a && u <= used <= |lines|
      && RoundRun(roundEnd, guesses, used - u) == RoundFrom(answer, config.difficult, builtin, lines[u..], [])
  {
    var pos := 0;
    answer, roundEnd, guesses, used := "", Exhausted, [], 0;
    drew := true;
    if config.random {
      if 0 < config.day + bias <= |shuffled| {
        answer := Trim(ToAsciiUpper(shuffled[config.day + bias - 1]));
      } else {
        drew := false;
        return;
      }
    } else if config.word != "" {
      answer := Trim(ToAsciiUpper(config.word));
    } else if pos < |lines| {
      answer := Trim(ToAsciiUpper(lines[pos]));
      pos := pos + 1;
    }
    var states, alphabets, consumed;
    roundEnd, guesses, states, alphabets, consumed := PlayRound(answer, config.difficult, builtin, acceptable, lines[pos..]);
    used := pos + consumed;
  }

  /**
   * One pass of the session loop of `main` on the remaining lines: the answer is drawn, its
   * round played, and what follows decided as `AfterRound` says. `more` says that the session
   * plays on from `rest` with one more answer and round, as `SessionFrom` does; otherwise the
   * session ends here with `end`.
   */
  method SessionRound(config: Config, shuffled: seq<string>, builtin: set<string>, acceptable: seq<string>,
                      lines: seq<string>, bias: nat, ghost answers: seq<string>, ghost rounds: seq<RoundRun>)
    returns (drew: bool, roundEnd: RoundEnd, guesses: seq<string>, more: bool, end: SessionEnd, rest: seq<string>,
             ghost r: RoundRun, ghost answers': seq<string>, ghost rounds': seq<RoundRun>)
    requires WordList(builtin) && bias == |answers|
    ensures |rest| <= |lines| && end != ConfigError
    ensures !drew ==> !more && guesses == [] && answers' == answers && rounds' == rounds
    ensures drew ==>
      && r == RoundRun(roundEnd, guesses, r.consumed) && WellPlayed(config.difficult, builtin, r)
      && |answers'| == |answers| + 1 && rounds' == rounds + [r]
    ensures more ==> drew && roundEnd.Finished? && |rest| < |lines|
    ensures SessionFrom(config, shuffled, builtin, lines, answers, rounds) ==
      if more then SessionFrom(config, shuffled, builtin, rest, answers', rounds') else SessionRun(end, answers', rounds')
  {
    var answer, used;
    more, end, rest, answers', rounds' := false, Crashed, [], answers, rounds;
    drew, answer, roundEnd, guesses, used := NextRound(config, shuffled, builtin, acceptable, lines, bias);
    r := RoundRun(roundEnd, guesses, 0);
    if !drew {
      guesses := [];
      return;
    }
    ghost var first := Draw(config, shuffled, lines, bias).value.1;
    r := RoundRun(roundEnd, guesses, used - first);
    RoundIsWellPlayed(answer, config.difficult, builtin, lines[first..]);
    SessionStep(config, shuffled, builtin, lines, answers, rounds, answer, first, used, r);
    answers', rounds' := answers + [answer], rounds + [r];
    var after := lines[used..];
    var next := AfterRound(config.word, roundEnd, after);
    if next == PlayOn {
      more, rest := true, after[1..];
    } else {
      end := next.end;
    }
  }

  /**
   * The bookkeeping of `main` after a round: its guesses join the guess list; a round with an
   * outcome counts, a win with the guesses it took, and with statistics on the statistics line
   * and the five most frequent guesses so far are reported.
   */
  method Account(stats: bool, difficult: bool, builtin: set<string>, ghost rounds: seq<RoundRun>, ghost r: RoundRun,
                 roundEnd: RoundEnd, guesses: seq<string>, allGuesses: seq<string>,
                 winRounds: nat, totalRounds: nat, winGuesses: nat, reports: seq<(nat, int, nat, nat)>, tops: seq<seq<Tally>>)
    returns (allGuesses': seq<string>, winRounds': nat, totalRounds': nat, winGuesses': nat,
             reports': seq<(nat, int, nat, nat)>, tops': seq<seq<Tally>>)
    requires r.end == roundEnd && r.guesses == guesses
    requires AllWellPlayed(difficult, builtin, rounds) && WellPlayed(difficult, builtin, r)
    requires allGuesses == AllGuesses(rounds) && totalRounds == |rounds|
    requires winRounds == WinRounds(rounds) && totalRounds == TotalRounds(rounds) && winGuesses == WinGuesses(rounds)
    requires reports == if stats then Reports(rounds) else []
    requires if stats then TopsReported(rounds, tops) else tops == []
    ensures AllWellPlayed(difficult, builtin, rounds + [r]) && allGuesses' == AllGuesses(rounds + [r])
    ensures winRounds' == WinRounds(rounds + [r]) && totalRounds' == TotalRounds(rounds + [r])
    ensures winGuesses' == WinGuesses(rounds + [r])
    ensures totalRounds' == if roundEnd.Finished? then totalRounds + 1 else totalRounds
    ensures reports' == if stats then Reports(rounds + [r]) else []
    ensures if stats then TopsReported(rounds + [r], tops') else tops' == []
  {
    WellPlayedExtend(difficult, builtin, rounds, r);
    RoundsAppend(rounds, r);
    assert (rounds + [r])[..|rounds|] == rounds;
    allGuesses' := allGuesses + guesses;
    winRounds', totalRounds', winGuesses', reports', tops' := winRounds, totalRounds, winGuesses, reports, tops;
    if roundEnd.Finished? {
      if roundEnd.outcome == SUCCESS {
        winRounds' := winRounds + 1;
        winGuesses' := winGuesses + (TOTAL_CHANCES - roundEnd.chancesLeft);
      }
      totalRounds' := totalRounds + 1;
      if stats {
        var line := StatsLine(winRounds', totalRounds', winGuesses');
        var top := FindMostFrequentStrings(allGuesses', TOP_N);
        reports', tops' := reports + [line], tops + [top];
        assert tops'[..|tops|] == tops;
      }
    }
  }

  /**
   * The session loop of `main`: it runs as `Session` says, its counters and guess list are
   * those of the rounds played, and with statistics on, each round with an outcome reports
   * the statistics line and the five most frequent guesses so far. `shuffled` is the seeded
   * shuffle of the sorted final list, the same in every round.
   */
  method PlaySession(config: Config, finalList: seq<string>, acceptableList: seq<string>, shuffled: seq<string>,
                     builtin: set<string>, lines: seq<string>)
    returns (end: SessionEnd, winRounds: nat, totalRounds: nat, winGuesses: nat, allGuesses: seq<string>,
             reports: seq<(nat, int, nat, nat)>, tops: seq<seq<Tally>>, ghost answers: seq<string>,
             ghost rounds: seq<RoundRun>)
    requires WordList(builtin)
    ensures SessionRun(end, answers, rounds) == Session(config, finalList, acceptableList, shuffled, builtin, lines)
    ensures end == ConfigError <==> !CheckSubset(finalList, acceptableList)
    ensures winRounds == WinRounds(rounds) && totalRounds == TotalRounds(rounds)
    ensures winGuesses == WinGuesses(rounds) && allGuesses == AllGuesses(rounds)
    ensures winRounds <= totalRounds <= |rounds| <= totalRounds + 1 && |rounds| == |answers|
    ensures winRounds <= winGuesses <= TOTAL_CHANCES * winRounds
    ensures |allGuesses| <= TOTAL_CHANCES * |rounds|
    ensures forall w :: w in allGuesses ==> PlayedWord(config.difficult, builtin, w)
    ensures AllWellPlayed(config.difficult, builtin, rounds)
    ensures reports == if config.stats then Reports(rounds) else []
    ensures if config.stats then TopsReported(rounds, tops) else tops == []
  {
    end, winRounds, totalRounds, winGuesses, allGuesses, reports, tops := ConfigError, 0, 0, 0, [], [], [];
    answers, rounds := [], [];
    if !CheckSubset(finalList, acceptableList) {
      return;
    }
    end := Quit;
    var acceptable := acceptableList;
    var bias: nat := 0;
    var rest := lines;
    var running := true;
    ghost var session := SessionFrom(config, shuffled, builtin, lines, [], []);
    while running
      invariant |rounds| == |answers|
      invariant running ==> bias == |answers| && totalRounds == |rounds|
      invariant running ==> session == SessionFrom(config, shuffled, builtin, rest, answers, rounds)
      invariant !running ==> SessionRun(end, answers, rounds) == session
      invariant end != ConfigError
      invariant AllWellPlayed(config.difficult, builtin, rounds)
      invariant winRounds == WinRounds(rounds) && totalRounds == TotalRounds(rounds)
      invariant winGuesses == WinGuesses(rounds) && allGuesses == AllGuesses(rounds)
      invariant |rounds| <= totalRounds + 1
      invariant reports == if config.stats then Reports(rounds) else []
      invariant if config.stats then TopsReported(rounds, tops) else tops == []
      decreases |rest|, if running then 1 else 0
    {
      var drew, roundEnd, guesses, more, e, rest';
      ghost var r, answers', rounds';
      drew, roundEnd, guesses, more, e, rest', r, answers', rounds' :=
        SessionRound(config, shuffled, builtin, acceptable, rest, bias, answers, rounds);
      if drew {
        allGuesses, winRounds, totalRounds, winGuesses, reports, tops :=
          Account(config.stats, config.difficult, builtin, rounds, r, roundEnd, guesses, allGuesses,
                  winRounds, totalRounds, winGuesses, reports, tops);
      }
      answers, rounds, rest := answers', rounds', rest';
      if more {
        bias := bias + 1;
      } else {
        end, running := e, false;
      }
    }
    SessionCounters(config.difficult, builtin, rounds);
  }
}
