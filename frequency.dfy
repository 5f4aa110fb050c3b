/**
 * Word-frequency statistics shared by both engines' "most used words" reports:
 * an occurrence table, the ranking order (higher count first, ties by ascending word)
 * and what a top-n report is.
 */
module Frequency {
  import opened Letters

  /** A word with its number of occurrences. */
  type Tally = (string, nat)

  /** `Ord` on `String`: lexicographic by character (byte order of UTF-8 is code point order). */
  predicate StrLess(a: string, b: string)
    decreases |a|
  {
    if |a| == 0 then |b| > 0
    else if |b| == 0 then false
    else if a[0] != b[0] then a[0] < b[0]
    else StrLess(a[1..], b[1..])
  }

  lemma {:induction false} StrLessIrreflexive(a: string)
    ensures !StrLess(a, a)
  {
    if |a| > 0 {
      StrLessIrreflexive(a[1..]);
    }
  }

  lemma {:induction false} StrLessTransitive(a: string, b: string, c: string)
    requires StrLess(a, b) && StrLess(b, c)
    ensures StrLess(a, c)
  {
    if |a| > 0 && a[0] == b[0] && b[0] == c[0] {
      StrLessTransitive(a[1..], b[1..], c[1..]);
    }
  }

  lemma {:induction false} StrLessTotal(a: string, b: string)
    requires a != b
    ensures StrLess(a, b) || StrLess(b, a)
  {
    if |a| > 0 && |b| > 0 && a[0] == b[0] {
      assert a == [a[0]] + a[1..] && b == [b[0]] + b[1..];
      StrLessTotal(a[1..], b[1..]);
    }
  }

  /** `p` is reported before `q`: a higher count, or the same count and a smaller word. */
  predicate Outranks(p: Tally, q: Tally)
  {
    p.1 > q.1 || (p.1 == q.1 && StrLess(p.0, q.0))
  }

  /** Outranks is a strict order that is total on tallies of different words. */
  lemma OutranksIsStrictOrder(p: Tally, q: Tally, r: Tally)
    ensures !Outranks(p, p)
    ensures Outranks(p, q) ==> !Outranks(q, p)
    ensures Outranks(p, q) && Outranks(q, r) ==> Outranks(p, r)
    ensures p.0 != q.0 ==> Outranks(p, q) || Outranks(q, p)
  {
    StrLessIrreflexive(p.0);
    if Outranks(p, q) && Outranks(q, p) {
      StrLessTransitive(p.0, q.0, p.0);
    }
    if Outranks(p, q) && Outranks(q, r) && p.1 == q.1 == r.1 {
      StrLessTransitive(p.0, q.0, r.0);
    }
    if p.0 != q.0 {
      StrLessTotal(p.0, q.0);
    }
  }

  ghost predicate StrictlyRanked(r: seq<Tally>)
  {
    forall i, j :: 0 <= i < j < |r| ==> Outranks(r[i], r[j])
  }

  predicate HasKey(r: seq<Tally>, w: string)
  {
    exists i :: 0 <= i < |r| && r[i].0 == w
  }

  ghost predicate DistinctKeys(r: seq<Tally>)
  {
    forall i, j :: 0 <= i < j < |r| ==> r[i].0 != r[j].0
  }

  function Distinct(words: seq<string>): set<string>
  {
    set w | w in words
  }

  lemma DistinctMembers(words: seq<string>)
    ensures forall w :: w in Distinct(words) <==> w in words
  {
  }

  /** Every entry of `r` is a word of `words` with its exact count. */
  ghost predicate ExactCounts(words: seq<string>, r: seq<Tally>)
  {
    forall i :: 0 <= i < |r| ==> r[i].0 in words && r[i].1 == Count(words, r[i].0)
  }

  /**
   * `r` is the report of the n most used words: min(n, #distinct words) entries with exact
   * counts, in ranking order, and no word left out outranks a word reported.
   */
  ghost predicate IsTopN(words: seq<string>, n: nat, r: seq<Tally>)
  {
    && |r| == Min(n, |Distinct(words)|)
    && ExactCounts(words, r)
    && StrictlyRanked(r)
    && (forall i, w :: 0 <= i < |r| && w in words && !HasKey(r, w) ==> Outranks(r[i], (w, Count(words, w))))
  }

  /** One tally per distinct word of `words`, with exact counts, in any order. */
  ghost predicate IsFullTally(words: seq<string>, r: seq<Tally>)
  {
    && |r| == |Distinct(words)|
    && ExactCounts(words, r)
    && DistinctKeys(r)
    && (forall w :: w in words ==> HasKey(r, w))
  }

  /** A full tally in ranking order, cut after n entries, is the top-n report. */
  lemma PrefixIsTopN(words: seq<string>, n: nat, full: seq<Tally>)
    requires IsFullTally(words, full) && StrictlyRanked(full)
    ensures IsTopN(words, n, full[..Min(n, |full|)])
  {
    var r := full[..Min(n, |full|)];
    forall i, w | 0 <= i < |r| && w in words && !HasKey(r, w)
      ensures Outranks(r[i], (w, Count(words, w)))
    {
      var j :| 0 <= j < |full| && full[j].0 == w;
      assert j >= |r|;
      assert full[j] == (w, Count(words, w));
    }
  }

  /** The entry at k of one report outranks the entry at k of another that agrees before k. */
  lemma TopNEntryOutranks(words: seq<string>, n: nat, r1: seq<Tally>, r2: seq<Tally>, k: nat)
    requires IsTopN(words, n, r1) && IsTopN(words, n, r2)
    requires k < |r1| && forall i :: 0 <= i < k ==> r1[i] == r2[i]
    requires r1[k] != r2[k]
    ensures Outranks(r1[k], r2[k])
  {
    var y := r2[k];
    assert y == (y.0, Count(words, y.0));
    if HasKey(r1, y.0) {
      var j :| 0 <= j < |r1| && r1[j].0 == y.0;
      assert r1[j] == y;
      if j < k {
        assert r2[j] == y;
        OutranksIsStrictOrder(y, y, y);
        assert false;
      }
    }
  }

  lemma {:induction false} TopNAgreeBelow(words: seq<string>, n: nat, r1: seq<Tally>, r2: seq<Tally>, k: nat)
    requires IsTopN(words, n, r1) && IsTopN(words, n, r2) && k <= |r1|
    ensures forall i :: 0 <= i < k ==> r1[i] == r2[i]
  {
    if k > 0 {
      TopNAgreeBelow(words, n, r1, r2, k - 1);
      if r1[k - 1] != r2[k - 1] {
        TopNEntryOutranks(words, n, r1, r2, k - 1);
        TopNEntryOutranks(words, n, r2, r1, k - 1);
        OutranksIsStrictOrder(r1[k - 1], r2[k - 1], r1[k - 1]);
        assert false;
      }
    }
  }

  /** The report is determined by the words: computing it twice gives the same answer. */
  lemma TopNUnique(words: seq<string>, n: nat, r1: seq<Tally>, r2: seq<Tally>)
    requires IsTopN(words, n, r1) && IsTopN(words, n, r2)
    ensures r1 == r2
  {
    TopNAgreeBelow(words, n, r1, r2, |r1|);
  }

  /** Reordering a full tally into ranking order keeps it a full tally. */
  lemma RankedPermutationIsFull(words: seq<string>, s: seq<Tally>, t: seq<Tally>)
    requires IsFullTally(words, s) && multiset(s) == multiset(t) && StrictlyRanked(t)
    ensures IsFullTally(words, t)
  {
    assert |t| == |multiset(t)| == |multiset(s)| == |s|;
    forall i | 0 <= i < |t| ensures t[i].0 in words && t[i].1 == Count(words, t[i].0) {
      assert t[i] in multiset(s);
    }
    forall i, j | 0 <= i < j < |t| ensures t[i].0 != t[j].0 {
      OutranksIsStrictOrder(t[i], t[j], t[j]);
    }
    forall w | w in words ensures HasKey(t, w) {
      var i :| 0 <= i < |s| && s[i].0 == w;
      assert s[i] in multiset(t);
      var j :| 0 <= j < |t| && t[j] == s[i];
    }
  }

  /** Fills the occurrence table (`*map.entry(w).or_insert(0) += 1` for every word). */
  method CountOccurrences(words: seq<string>) returns (m: map<string, nat>)
    ensures m.Keys == Distinct(words)
    ensures forall w :: w in m ==> m[w] == Count(words, w)
  {
    m := map[];
    for i := 0 to |words|
      invariant m.Keys == Distinct(words[..i])
      invariant forall w :: w in m ==> m[w] == Count(words[..i], w)
    {
      var w := words[i];
      forall v ensures Count(words[..i + 1], v) == Count(words[..i], v) + (if w == v then 1 else 0) {
        CountStep(words, v, i);
      }
      if w in m {
        m := m[w := m[w] + 1];
      } else {
        CountAbsent(words[..i], w);
        m := m[w := 1];
      }
      assert words[..i + 1] == words[..i] + [w];
    }
    assert words[..|words|] == words;
  }

  /** Turns the table into a vector of tallies, in the table's (arbitrary) iteration order. */
  method CollectTallies(words: seq<string>, m: map<string, nat>) returns (r: seq<Tally>)
    requires m.Keys == Distinct(words)
    requires forall w :: w in m ==> m[w] == Count(words, w)
    ensures IsFullTally(words, r)
  {
    var rest := m.Keys;
    r := [];
    while rest != {}
      invariant rest <= m.Keys
      invariant |r| + |rest| == |m.Keys|
      invariant forall i :: 0 <= i < |r| ==> r[i].0 in m && r[i].0 !in rest && r[i].1 == m[r[i].0]
      invariant forall w :: w in m && w !in rest ==> HasKey(r, w)
      invariant DistinctKeys(r)
      decreases |rest|
    {
      var w :| w in rest;
      ghost var r0 := r;
      r := r + [(w, m[w])];
      rest := rest - {w};
      forall v | v in m && v !in rest ensures HasKey(r, v) {
        if v == w {
          assert r[|r| - 1].0 == w;
        } else {
          var i :| 0 <= i < |r0| && r0[i].0 == v;
          assert r[i].0 == v;
        }
      }
    }
  }
}
