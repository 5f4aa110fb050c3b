/**
 * Shared vocabulary of the object-style engine (src/game/common.rs): the key status of a
 * letter, with the order its declaration gives it, and the five-entry status of a guess
 * with its one-letter-per-key rendering.
 */
module Common {
  const WORD_LENGTH: nat := 5
  const KEYS_NUM: nat := 26

  /** Green, yellow, red, unknown; the derived order is declaration order, so Hit is least. */
  datatype KeyStatus = Hit | Close | Missed | Unknown

  function Rank(s: KeyStatus): nat
  {
    match s
    case Hit => 0
    case Close => 1
    case Missed => 2
    case Unknown => 3
  }

  predicate Less(a: KeyStatus, b: KeyStatus) { Rank(a) < Rank(b) }

  predicate LessEq(a: KeyStatus, b: KeyStatus) { Rank(a) <= Rank(b) }

  /** The derived order is a strict total order with Hit least and Unknown greatest. */
  lemma KeyOrderIsTotal(a: KeyStatus, b: KeyStatus, c: KeyStatus)
    ensures !Less(a, a)
    ensures Less(a, b) && Less(b, c) ==> Less(a, c)
    ensures a != b ==> Less(a, b) != Less(b, a)
    ensures LessEq(Hit, a) && LessEq(a, Unknown)
  {
  }

  datatype WordStatus = WordStatus(data: seq<KeyStatus>)

  /** The status of a guess equal to the answer. */
  const RIGHT_GUESS: WordStatus := WordStatus(seq(WORD_LENGTH, _ => Hit))

  /** `WordStatus::new`: the status of a guess before any position is judged. */
  function NewWordStatus(): (w: WordStatus)
    ensures |w.data| == WORD_LENGTH && forall i :: 0 <= i < WORD_LENGTH ==> w.data[i] == Unknown
  {
    WordStatus(seq(WORD_LENGTH, _ => Unknown))
  }

  /** `Display` for a key status. */
  function ShowKey(s: KeyStatus): (ch: char)
    ensures ch in "GYRX"
  {
    match s
    case Hit => 'G'
    case Close => 'Y'
    case Missed => 'R'
    case Unknown => 'X'
  }

  /** `Display` for a word status: one letter per entry. */
  function ShowWord(w: WordStatus): string
  {
    seq(|w.data|, i requires 0 <= i < |w.data| => ShowKey(w.data[i]))
  }

  /** The rendering loses nothing: different statuses print differently. */
  lemma ShowWordInjective(a: WordStatus, b: WordStatus)
    requires ShowWord(a) == ShowWord(b)
    ensures a == b
  {
    assert |a.data| == |b.data|;
    forall i | 0 <= i < |a.data| ensures a.data[i] == b.data[i] {
      assert ShowKey(a.data[i]) == ShowWord(a)[i] == ShowWord(b)[i] == ShowKey(b.data[i]);
    }
  }

  /** A fresh status prints as five X's and a right guess as five G's; neither is the other. */
  lemma RightGuessShowsGreen()
    ensures ShowWord(RIGHT_GUESS) == "GGGGG" && ShowWord(NewWordStatus()) == "XXXXX"
    ensures NewWordStatus() != RIGHT_GUESS
  {
    assert NewWordStatus().data[0] != RIGHT_GUESS.data[0];
  }
}
