/**
 * The player record of the object-style engine (src/game/player.rs): every word guessed,
 * one (success count, success) pair per finished round, the win/loss analysis, and the five
 * most used words, obtained by sorting by word, reversing, stably sorting by count and
 * reversing again.
 */
module Players {
  import opened Letters
  import opened Frequency

  /** Wins, losses and the average guesses per win as the fraction rateNum / rateDen. */
  datatype Analysis = Analysis(wins: nat, losses: nat, rateNum: nat, rateDen: nat)

  const TOP_WORDS: nat := 5

  function Wins(trys: seq<(nat, bool)>): nat
  {
    if |trys| == 0 then 0 else Wins(trys[..|trys| - 1]) + (if trys[|trys| - 1].1 then 1 else 0)
  }

  function TotalCount(trys: seq<(nat, bool)>): nat
  {
    if |trys| == 0 then 0 else TotalCount(trys[..|trys| - 1]) + trys[|trys| - 1].0
  }

  lemma {:induction false} WinsBound(trys: seq<(nat, bool)>)
    ensures Wins(trys) <= |trys|
  {
    if |trys| > 0 {
      WinsBound(trys[..|trys| - 1]);
    }
  }

  /** A won round took between 1 and `maxTries` guesses; a lost one records 0. */
  ghost predicate WellFormedTrys(trys: seq<(nat, bool)>, maxTries: nat)
  {
    forall i :: 0 <= i < |trys| ==> (if trys[i].1 then 1 <= trys[i].0 <= maxTries else trys[i].0 == 0)
  }

  /** Recording a round whose count fits its outcome keeps the history well formed. */
  lemma TrysExtend(trys: seq<(nat, bool)>, maxTries: nat, cnt: nat, success: bool)
    requires WellFormedTrys(trys, maxTries)
    requires if success then 1 <= cnt <= maxTries else cnt == 0
    ensures WellFormedTrys(trys + [(cnt, success)], maxTries)
  {
  }

  lemma {:induction false} TotalCountBounds(trys: seq<(nat, bool)>, maxTries: nat)
    requires WellFormedTrys(trys, maxTries)
    ensures Wins(trys) <= TotalCount(trys) <= maxTries * Wins(trys)
  {
    if |trys| > 0 {
      var init, last := trys[..|trys| - 1], trys[|trys| - 1];
      assert WellFormedTrys(init, maxTries) by {
        forall i | 0 <= i < |init| ensures init[i] == trys[i] { }
      }
      TotalCountBounds(init, maxTries);
      var w := if last.1 then 1 else 0;
      assert Wins(trys) == Wins(init) + w && TotalCount(trys) == TotalCount(init) + last.0;
      assert last.0 <= maxTries * w;
      assert maxTries * Wins(trys) == maxTries * Wins(init) + maxTries * w;
    }
  }

  /** `Vec::reverse`. */
  function Reverse<T>(s: seq<T>): (r: seq<T>)
    ensures |r| == |s| && multiset(r) == multiset(s)
    ensures forall i :: 0 <= i < |s| ==> r[i] == s[|s| - 1 - i]
  {
    if |s| == 0 then []
    else
      assert s == s[..|s| - 1] + [s[|s| - 1]];
      [s[|s| - 1]] + Reverse(s[..|s| - 1])
  }

  /** Inserts a tally into a list sorted by ascending word. */
  method InsertByWord(r: seq<Tally>, x: Tally) returns (r': seq<Tally>)
    requires forall a, b :: 0 <= a < b < |r| ==> StrLess(r[a].0, r[b].0)
    requires forall q :: 0 <= q < |r| ==> r[q].0 != x.0
    ensures multiset(r') == multiset(r) + multiset{x}
    ensures forall a, b :: 0 <= a < b < |r'| ==> StrLess(r'[a].0, r'[b].0)
  {
    var p := 0;
    while p < |r| && StrLess(r[p].0, x.0)
      invariant 0 <= p <= |r|
      invariant forall q :: 0 <= q < p ==> StrLess(r[q].0, x.0)
    {
      p := p + 1;
    }
    if p < |r| {
      StrLessTotal(r[p].0, x.0);
    }
    forall q | p < q < |r| ensures StrLess(x.0, r[q].0) {
      StrLessTransitive(x.0, r[p].0, r[q].0);
    }
    r' := r[..p] + [x] + r[p..];
    forall a, b | 0 <= a < b < |r'| ensures StrLess(r'[a].0, r'[b].0) {
      if a < p && b > p {
        StrLessTransitive(r[a].0, x.0, r[b - 1].0);
      }
    }
    assert r == r[..p] + r[p..];
  }

  /** `sort_by_cached_key` on the word: ascending words (they are distinct). */
  method SortByWord(s: seq<Tally>) returns (r: seq<Tally>)
    requires DistinctKeys(s)
    ensures multiset(r) == multiset(s)
    ensures forall a, b :: 0 <= a < b < |r| ==> StrLess(r[a].0, r[b].0)
  {
    r := [];
    for i := 0 to |s|
      invariant multiset(r) == multiset(s[..i])
      invariant forall a, b :: 0 <= a < b < |r| ==> StrLess(r[a].0, r[b].0)
    {
      forall q | 0 <= q < |r| ensures r[q].0 != s[i].0 {
        assert r[q] in multiset(s[..i]);
        var j :| 0 <= j < i && s[..i][j] == r[q];
      }
      r := InsertByWord(r, s[i]);
      assert s[..i + 1] == s[..i] + [s[i]];
    }
    assert s[..|s|] == s;
  }

  /**
   * Inserts a tally whose word precedes every word present after the last entry whose
   * count is not larger, as a stable sort by count does.
   */
  method InsertByCount(r: seq<Tally>, x: Tally) returns (r': seq<Tally>)
    requires forall a, b :: 0 <= a < b < |r| ==> Outranks(r[b], r[a])
    requires forall q :: 0 <= q < |r| ==> StrLess(x.0, r[q].0)
    ensures multiset(r') == multiset(r) + multiset{x}
    ensures forall a, b :: 0 <= a < b < |r'| ==> Outranks(r'[b], r'[a])
  {
    var p := 0;
    while p < |r| && r[p].1 <= x.1
      invariant 0 <= p <= |r|
      invariant forall q :: 0 <= q < p ==> r[q].1 <= x.1
    {
      p := p + 1;
    }
    r' := r[..p] + [x] + r[p..];
    forall a, b | 0 <= a < b < |r'| ensures Outranks(r'[b], r'[a]) {
      if a < p && b == p {
      } else if a == p && b > p {
      } else if a < p && b > p {
        OutranksIsStrictOrder(r[b - 1], x, r[a]);
      }
    }
    assert r == r[..p] + r[p..];
  }

  /**
   * `sort_by_cached_key` on the count, which is stable, applied to tallies in descending
   * word order: ascending count, and descending word among equal counts.
   */
  method SortByCount(s: seq<Tally>) returns (r: seq<Tally>)
    requires forall a, b :: 0 <= a < b < |s| ==> StrLess(s[b].0, s[a].0)
    ensures multiset(r) == multiset(s)
    ensures forall a, b :: 0 <= a < b < |r| ==> Outranks(r[b], r[a])
  {
    r := [];
    for i := 0 to |s|
      invariant multiset(r) == multiset(s[..i])
      invariant forall a, b :: 0 <= a < b < |r| ==> Outranks(r[b], r[a])
    {
      forall q | 0 <= q < |r| ensures StrLess(s[i].0, r[q].0) {
        assert r[q] in multiset(s[..i]);
        var j :| 0 <= j < i && s[..i][j] == r[q];
      }
      r := InsertByCount(r, s[i]);
      assert s[..i + 1] == s[..i] + [s[i]];
    }
    assert s[..|s|] == s;
  }

  class Player {
    var usedWords: seq<string>
    var trys: seq<(nat, bool)>

    /** `Player::new`: nothing recorded. */
    constructor ()
      ensures usedWords == [] && trys == []
    {
      usedWords := [];
      trys := [];
    }

    /** `recode_input`: records one guessed word. */
    method RecodeInput(w: string)
      modifies this
      ensures usedWords == old(usedWords) + [w] && trys == old(trys)
    {
      usedWords := usedWords + [w];
    }

    /** `evaluate`: records one finished round. */
    method Evaluate(cnt: nat, isSuccess: bool)
      modifies this
      ensures trys == old(trys) + [(cnt, isSuccess)] && usedWords == old(usedWords)
    {
      trys := trys + [(cnt, isSuccess)];
    }

    /**
     * `analyse`: wins, losses and the summed counts of all rounds over the number of wins
     * (0 when nothing was won).
     */
    function Analyse(): (r: Analysis)
      reads this
      ensures r.wins + r.losses == |trys| && r.rateDen > 0
      ensures r.wins == Wins(trys)
      ensures r.wins == 0 ==> r.rateNum == 0
      ensures r.wins > 0 ==> r.rateNum == TotalCount(trys) && r.rateDen == r.wins
    {
      var tmp := Wins(trys);
      WinsBound(trys);
      if tmp == 0 then Analysis(0, |trys|, 0, 1)
      else Analysis(tmp, |trys| - tmp, TotalCount(trys), tmp)
    }

    /** `show_most_used_words`: the five most used words, most used first, ties by word. */
    method ShowMostUsedWords() returns (r: seq<Tally>)
      ensures IsTopN(usedWords, TOP_WORDS, r)
    {
      var wordsCnt := CountOccurrences(usedWords);
      var tallies := CollectTallies(usedWords, wordsCnt);
      var sortedWords := SortByWord(tallies);
      sortedWords := Reverse(sortedWords);
      sortedWords := SortByCount(sortedWords);
      sortedWords := Reverse(sortedWords);
      RankedPermutationIsFull(usedWords, tallies, sortedWords);
      PrefixIsTopN(usedWords, TOP_WORDS, sortedWords);
      r := sortedWords[..Min(TOP_WORDS, |sortedWords|)];
    }
  }

  /** When every won round took 1 to `maxTries` guesses, the average lies between 1 and `maxTries`. */
  lemma AnalyseBounds(p: Player, maxTries: nat)
    requires WellFormedTrys(p.trys, maxTries)
    ensures p.Analyse().wins > 0 ==>
      p.Analyse().rateDen <= p.Analyse().rateNum <= maxTries * p.Analyse().rateDen
  {
    TotalCountBounds(p.trys, maxTries);
  }
}
