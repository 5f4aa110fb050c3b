/**
 * The on-screen keyboard of the object-style engine (src/game/keyboard.rs): one key status
 * per letter, only ever lowered in the derived order (towards Hit).
 */
module Keyboards {
  import opened Letters
  import opened Common

  /** The status a key takes when offered `s`: the lesser of the two. */
  function Settle(cur: KeyStatus, s: KeyStatus): (r: KeyStatus)
    ensures LessEq(r, cur) && LessEq(r, s)
    ensures r == cur || r == s
  {
    if Less(s, cur) then s else cur
  }

  /** Offering the same status twice changes nothing the second time. */
  lemma SettleIsIdempotent(cur: KeyStatus, s: KeyStatus)
    ensures Settle(Settle(cur, s), s) == Settle(cur, s)
    ensures !Less(s, Settle(cur, s))
  {
  }

  class Keyboard {
    const keys: array<KeyStatus>

    ghost predicate Valid()
      reads this
    {
      keys.Length == KEYS_NUM
    }

    /** `Keyboard::new`: every key Unknown. */
    constructor ()
      ensures Valid() && fresh(keys)
      ensures forall k :: 0 <= k < KEYS_NUM ==> keys[k] == Unknown
    {
      keys := new KeyStatus[KEYS_NUM](_ => Unknown);
    }

    /** `update_status`: lowers the key to `status` if that is less, and says whether it did. */
    method UpdateStatus(key: char, status: KeyStatus) returns (changed: bool)
      requires Valid() && IsUpper(key)
      modifies keys
      ensures changed <==> Less(status, old(keys[Idx(key)]))
      ensures keys[..] == old(keys[..])[Idx(key) := Settle(old(keys[Idx(key)]), status)]
    {
      var index := Idx(key);
      if Less(status, keys[index]) {
        keys[index] := status;
        changed := true;
      } else {
        changed := false;
      }
    }

    /** `Display` for the keyboard: one letter per key, A to Z. */
    function Show(): (s: string)
      reads this, keys
      requires Valid()
      ensures |s| == KEYS_NUM
      ensures forall k :: 0 <= k < KEYS_NUM ==> s[k] == ShowKey(keys[k])
    {
      ShowWord(WordStatus(keys[..]))
    }
  }

  /**
   * The key of letter c after offering it, position by position, the statuses `r` of the
   * first n positions of g that hold c.
   */
  function KeyFold(st: KeyStatus, g: string, r: seq<KeyStatus>, c: char, n: nat): KeyStatus
    requires n <= |g| && n <= |r|
  {
    if n == 0 then st
    else
      var prev := KeyFold(st, g, r, c, n - 1);
      if g[n - 1] == c then Settle(prev, r[n - 1]) else prev
  }

  /**
   * A key ends at the least of its old status and the statuses of the positions holding
   * its letter: never above either, always one of them, untouched for other letters.
   */
  lemma {:induction false} KeyFoldIsMinimum(st: KeyStatus, g: string, r: seq<KeyStatus>, c: char, n: nat)
    requires n <= |g| && n <= |r|
    ensures LessEq(KeyFold(st, g, r, c, n), st)
    ensures forall j :: 0 <= j < n && g[j] == c ==> LessEq(KeyFold(st, g, r, c, n), r[j])
    ensures KeyFold(st, g, r, c, n) == st || exists j :: 0 <= j < n && g[j] == c && KeyFold(st, g, r, c, n) == r[j]
    ensures (forall j :: 0 <= j < n ==> g[j] != c) ==> KeyFold(st, g, r, c, n) == st
  {
    if n > 0 {
      KeyFoldIsMinimum(st, g, r, c, n - 1);
    }
  }

  /** Filling an Unknown position with s lowers the fold of that position's letter by s. */
  lemma {:induction false} KeyFoldUpdate(st: KeyStatus, g: string, r: seq<KeyStatus>, c: char, n: nat, i: nat, s: KeyStatus)
    requires n <= |g| && n <= |r| && i < |r| && r[i] == Unknown
    ensures KeyFold(st, g, r[i := s], c, n) ==
      if i < n && g[i] == c then Settle(KeyFold(st, g, r, c, n), s) else KeyFold(st, g, r, c, n)
  {
    if n > 0 {
      KeyFoldUpdate(st, g, r, c, n - 1, i, s);
    }
  }
}
