/** What a BM25 score prefers: rarer terms, terms written more often, shorter documents. */
module Relevance {
  import opened Collections
  import opened KeywordIndex
  import opened KeywordSearch

  ghost predicate Increasing(ln: real -> real) {
    forall x, y :: 0.0 < x < y ==> ln(x) < ln(y)
  }

  // ---- quotients -----------------------------------------------------------------

  lemma LargerOver(a: real, b: real, c: real)
    requires a > b && c > 0.0
    ensures a / c > b / c
  {
    assert (a / c) * c == a && (b / c) * c == b;
  }

  lemma OverLarger(a: real, b: real, c: real)
    requires a > 0.0 && 0.0 < b < c
    ensures a / b > a / c
  {
    Quotient(a, c);
    Product(a / c, c - b);
    assert (a / c) * c == a;
    assert (a / c) * b < a;
    LargerOver(a, (a / c) * b, b);
    assert ((a / c) * b) / b == a / c;
  }

  /** The saturating part of a term's frequency. */
  lemma SaturationRises(s: real, t: real, k: real)
    requires 0.0 < s < t && k > 0.0
    ensures s / (s + k) < t / (t + k)
  {
    OverLarger(k, s + k, t + k);
    SaturationRest(s, k);
    SaturationRest(t, k);
  }

  lemma SaturationRest(t: real, k: real)
    requires t > 0.0 && k > 0.0
    ensures t / (t + k) == 1.0 - k / (t + k)
  {
    assert (t + k) / (t + k) == 1.0;
    assert t / (t + k) + k / (t + k) == (t + k) / (t + k);
  }

  lemma ProductRises(a: real, b: real, c: real)
    requires a < b && c > 0.0
    ensures a * c < b * c && c * a < c * b
  {
  }

  // ---- one term's gain --------------------------------------------------------------

  /** How rare a term is. */
  function Idf(ln: real -> real, n: nat, df: nat): real {
    ln((n as real - df as real + 0.5) / (df as real + 0.5) + 1.0)
  }

  /** What a document's length puts under its frequency. */
  function Norm(n: nat, dl: nat, total: nat): real
    requires n > 0 && total > 0
  {
    K1 * (1.0 - B + B * dl as real / (total as real / n as real))
  }

  lemma NormRises(n: nat, short: nat, long: nat, total: nat)
    requires n > 0 && total > 0 && short <= long
    ensures 0.0 < Norm(n, short, total) <= Norm(n, long, total)
    ensures short < long ==> Norm(n, short, total) < Norm(n, long, total)
  {
    var avgdl := total as real / n as real;
    Quotient(total as real, n as real);
    if short > 0 {
      Quotient(B * short as real, avgdl);
    }
    if short < long {
      LargerOver(B * long as real, B * short as real, avgdl);
    }
  }

  /** The gain is the idf by the frequency over itself and the norm. */
  lemma GainParts(ln: real -> real, n: nat, df: nat, tf: nat, dl: nat, total: nat)
    requires n > 0 && total > 0 && tf > 0
    ensures Bm25(ln, n, df, tf, dl, total) == Idf(ln, n, df) * ((K1 + 1.0) * (tf as real / (tf as real + Norm(n, dl, total))))
  {
    NormRises(n, dl, dl, total);
    var t, denom := tf as real, tf as real + Norm(n, dl, total);
    Regroup(Idf(ln, n, df), t, K1 + 1.0, denom);
  }

  lemma Regroup(idf: real, t: real, k: real, denom: real)
    requires denom > 0.0
    ensures idf * (t * k) / denom == idf * (k * (t / denom))
  {
    assert (idf * (k * (t / denom))) * denom == idf * (k * ((t / denom) * denom));
    assert (t / denom) * denom == t;
    assert idf * (k * t) == idf * (t * k);
  }

  lemma IdfFalls(ln: real -> real, n: nat, rare: nat, common: nat)
    requires Increasing(ln) && 0 < rare < common <= n
    ensures Idf(ln, n, rare) > Idf(ln, n, common)
  {
    var above, below := n as real - common as real + 0.5, n as real - rare as real + 0.5;
    Quotient(above, common as real + 0.5);
    LargerOver(below, above, common as real + 0.5);
    OverLarger(below, rare as real + 0.5, common as real + 0.5);
  }

  lemma IdfPositive(ln: real -> real, n: nat, df: nat)
    requires PositiveAboveOne(ln) && 0 < df <= n
    ensures Idf(ln, n, df) > 0.0
  {
    Quotient(n as real - df as real + 0.5, df as real + 0.5);
  }

  /** The rarer the term, the higher its gain. */
  lemma RarerGainsMore(ln: real -> real, n: nat, rare: nat, common: nat, tf: nat, dl: nat, total: nat)
    requires Increasing(ln) && 0 < rare < common <= n && tf > 0 && total > 0
    ensures Bm25(ln, n, rare, tf, dl, total) > Bm25(ln, n, common, tf, dl, total)
  {
    GainParts(ln, n, rare, tf, dl, total);
    GainParts(ln, n, common, tf, dl, total);
    IdfFalls(ln, n, rare, common);
    NormRises(n, dl, dl, total);
    Quotient(tf as real, tf as real + Norm(n, dl, total));
    var weight := (K1 + 1.0) * (tf as real / (tf as real + Norm(n, dl, total)));
    ProductRises(Idf(ln, n, common), Idf(ln, n, rare), weight);
  }

  /** The more often a document has the term, and the shorter it is, the higher its gain. */
  lemma MoreGainsMore(ln: real -> real, n: nat, df: nat, few: nat, many: nat, short: nat, long: nat, total: nat)
    requires PositiveAboveOne(ln) && 0 < df <= n && 0 < few <= many && short <= long && total > 0
    ensures Bm25(ln, n, df, many, short, total) >= Bm25(ln, n, df, few, long, total)
    ensures few < many || short < long ==> Bm25(ln, n, df, many, short, total) > Bm25(ln, n, df, few, long, total)
  {
    GainParts(ln, n, df, many, short, total);
    GainParts(ln, n, df, few, long, total);
    IdfPositive(ln, n, df);
    NormRises(n, short, long, total);
    var s, t, k, l := few as real, many as real, Norm(n, short, total), Norm(n, long, total);
    if few < many {
      SaturationRises(s, t, k);
    }
    if short < long {
      OverLarger(s, s + k, s + l);
    }
    var low, high := s / (s + l), t / (t + k);
    if few < many || short < long {
      ProductRises(low, high, K1 + 1.0);
      ProductRises((K1 + 1.0) * low, (K1 + 1.0) * high, Idf(ln, n, df));
    }
  }

  /** What is wanted of a gain: it is positive, rises with frequency and brevity, and falls with how common
      the term is. */
  ghost predicate Sensible(gain: Gain) {
    && (forall n: nat, df: nat, tf: nat, dl: nat, total: nat :: 0 < df <= n && tf > 0 && total > 0 ==> gain(n, df, tf, dl, total) > 0.0)
    && (forall n: nat, df: nat, few: nat, many: nat, short: nat, long: nat, total: nat ::
          0 < df <= n && 0 < few <= many && short <= long && total > 0 ==>
            && gain(n, df, many, short, total) >= gain(n, df, few, long, total)
            && (few < many || short < long ==> gain(n, df, many, short, total) > gain(n, df, few, long, total)))
  }

  ghost predicate PrefersRare(gain: Gain) {
    forall n: nat, rare: nat, common: nat, tf: nat, dl: nat, total: nat ::
      0 < rare < common <= n && tf > 0 && total > 0 ==> gain(n, rare, tf, dl, total) > gain(n, common, tf, dl, total)
  }

  lemma Bm25IsSensible(ln: real -> real)
    requires PositiveAboveOne(ln)
    ensures Sensible(Bm25Gain(ln))
    ensures Increasing(ln) ==> PrefersRare(Bm25Gain(ln))
  {
    var gain := Bm25Gain(ln);
    forall n: nat, df: nat, tf: nat, dl: nat, total: nat | 0 < df <= n && tf > 0 && total > 0
      ensures gain(n, df, tf, dl, total) > 0.0
    {
      GainIsPositive(ln, n, df, tf, dl, total);
    }
    forall n: nat, df: nat, few: nat, many: nat, short: nat, long: nat, total: nat |
      0 < df <= n && 0 < few <= many && short <= long && total > 0
      ensures gain(n, df, many, short, total) >= gain(n, df, few, long, total)
      ensures few < many || short < long ==> gain(n, df, many, short, total) > gain(n, df, few, long, total)
    {
      MoreGainsMore(ln, n, df, few, many, short, long, total);
    }
    if Increasing(ln) {
      forall n: nat, rare: nat, common: nat, tf: nat, dl: nat, total: nat | 0 < rare < common <= n && tf > 0 && total > 0
        ensures gain(n, rare, tf, dl, total) > gain(n, common, tf, dl, total)
      {
        RarerGainsMore(ln, n, rare, common, tf, dl, total);
      }
    }
  }

  /** In figures: three documents of one token, one of them with the term; and two documents, the one
      with the term twice the average length. */
  lemma Bm25InFigures(ln: real -> real)
    ensures Bm25(ln, 3, 1, 1, 1, 3) == ln(8.0 / 3.0)
    ensures Bm25(ln, 2, 1, 1, 4, 4) == ln(2.0) * 2.2 / 3.1
  {
    assert (3.0 - 1.0 + 0.5) / (1.0 + 0.5) + 1.0 == 8.0 / 3.0;
    assert (2.0 - 1.0 + 0.5) / (1.0 + 0.5) + 1.0 == 2.0;
  }

  // ---- scores are sums of gains --------------------------------------------------------

  /** The gain of one query term, nothing when the document has it not. */
  ghost function GainIn(texts: Texts, gain: Gain, t: Term, n: DocId): real
    requires n in texts
  {
    if t in texts[n] then GainOf(texts, gain, t, n) else 0.0
  }

  ghost function SumOf(texts: Texts, gain: Gain, qterms: seq<Term>, n: DocId): real
    requires n in texts
  {
    if qterms == [] then 0.0
    else SumOf(texts, gain, qterms[..|qterms| - 1], n) + GainIn(texts, gain, qterms[|qterms| - 1], n)
  }

  /** A document's score is the sum of its gains over the query terms. */
  lemma {:induction false} ScoreIsSum(texts: Texts, gain: Gain, qterms: seq<Term>, n: DocId)
    requires n in texts
    ensures Held(ScoresOf(texts, gain, ExactPlus(), qterms), n) == SumOf(texts, gain, qterms, n)
  {
    if qterms != [] {
      ScoreIsSum(texts, gain, qterms[..|qterms| - 1], n);
    }
  }

  /** `a` has every query term at least as often as `b`, and is no longer. */
  ghost predicate NoWorse(texts: Texts, qterms: seq<Term>, a: DocId, b: DocId)
    requires a in texts && b in texts
  {
    |texts[a]| <= |texts[b]| && forall t :: t in qterms ==> Count(t, texts[a]) >= Count(t, texts[b])
  }

  /** ... and has this one more often, or is shorter. */
  ghost predicate BetterAt(texts: Texts, t: Term, a: DocId, b: DocId)
    requires a in texts && b in texts
  {
    t in texts[a] && (Count(t, texts[a]) > Count(t, texts[b]) || |texts[a]| < |texts[b]|)
  }

  /** What the gain of a term a document has is made of. */
  lemma GainOfHolder(texts: Texts, gain: Gain, t: Term, n: DocId)
    requires Moderate(texts) && n in texts && t in texts[n]
    ensures GainOf(texts, gain, t, n) == gain(|texts|, |Having(texts, t)|, Count(t, texts[n]), |texts[n]|, TotalLen(texts))
    ensures 0 < |Having(texts, t)| <= |texts| && Count(t, texts[n]) > 0 && TotalLen(texts) > 0
  {
    CountWithin(t, texts[n]);
    TermCounts(texts, t, n);
  }

  lemma PaysMore(gain: Gain, n: nat, df: nat, few: nat, many: nat, short: nat, long: nat, total: nat)
    requires Sensible(gain) && 0 < df <= n && 0 < few <= many && short <= long && total > 0
    ensures gain(n, df, many, short, total) >= gain(n, df, few, long, total) && gain(n, df, few, long, total) > 0.0
    ensures few < many || short < long ==> gain(n, df, many, short, total) > gain(n, df, few, long, total)
  {
  }

  lemma GainNoWorse(texts: Texts, gain: Gain, t: Term, a: DocId, b: DocId)
    requires Moderate(texts) && Sensible(gain) && a in texts && b in texts
    requires |texts[a]| <= |texts[b]| && Count(t, texts[a]) >= Count(t, texts[b])
    ensures GainIn(texts, gain, t, a) >= GainIn(texts, gain, t, b)
    ensures BetterAt(texts, t, a, b) ==> GainIn(texts, gain, t, a) > GainIn(texts, gain, t, b)
  {
    CountWithin(t, texts[a]);
    CountWithin(t, texts[b]);
    if t in texts[a] {
      GainOfHolder(texts, gain, t, a);
      var n, df, total := |texts|, |Having(texts, t)|, TotalLen(texts);
      if t in texts[b] {
        GainOfHolder(texts, gain, t, b);
        PaysMore(gain, n, df, Count(t, texts[b]), Count(t, texts[a]), |texts[a]|, |texts[b]|, total);
      } else {
        PaysMore(gain, n, df, Count(t, texts[a]), Count(t, texts[a]), |texts[a]|, |texts[a]|, total);
      }
    }
  }

  lemma {:induction false} SumNoWorse(texts: Texts, gain: Gain, qterms: seq<Term>, a: DocId, b: DocId)
    requires Moderate(texts) && Sensible(gain) && a in texts && b in texts && NoWorse(texts, qterms, a, b)
    ensures SumOf(texts, gain, qterms, a) >= SumOf(texts, gain, qterms, b)
    ensures (exists t :: t in qterms && BetterAt(texts, t, a, b)) ==> SumOf(texts, gain, qterms, a) > SumOf(texts, gain, qterms, b)
  {
    if qterms != [] {
      var k := |qterms| - 1;
      assert qterms == qterms[..k] + [qterms[k]];
      SumNoWorse(texts, gain, qterms[..k], a, b);
      assert qterms[k] in qterms;
      GainNoWorse(texts, gain, qterms[k], a, b);
    }
  }

  /** A document with every query term at least as often, no longer, and better at one of them, scores higher. */
  lemma BetterScoresHigher(texts: Texts, ln: real -> real, qterms: seq<Term>, a: DocId, b: DocId, t: Term)
    requires Moderate(texts) && PositiveAboveOne(ln) && a in texts && b in texts && NoWorse(texts, qterms, a, b)
    requires t in qterms && BetterAt(texts, t, a, b)
    ensures var scores := ScoresOf(texts, Bm25Gain(ln), ExactPlus(), qterms);
            a in scores && scores[a] > Held(scores, b)
  {
    Bm25IsSensible(ln);
    SumNoWorse(texts, Bm25Gain(ln), qterms, a, b);
    ScoreIsSum(texts, Bm25Gain(ln), qterms, a);
    ScoreIsSum(texts, Bm25Gain(ln), qterms, b);
    ScoredDocuments(texts, Bm25Gain(ln), ExactPlus(), qterms, a);
  }

  lemma {:induction false} SumOfOne(texts: Texts, gain: Gain, qterms: seq<Term>, n: DocId, t: Term)
    requires n in texts && NoDup(qterms) && forall x :: x in qterms && x in texts[n] ==> x == t
    ensures SumOf(texts, gain, qterms, n) == if t in qterms then GainIn(texts, gain, t, n) else 0.0
  {
    if qterms != [] {
      var k := |qterms| - 1;
      assert qterms == qterms[..k] + [qterms[k]];
      SumOfOne(texts, gain, qterms[..k], n, t);
      assert qterms[k] in qterms;
    }
  }

  /** Of two documents that each have one of the query terms, as often and no longer, the one with the
      rarer term scores higher. */
  lemma RarerScoresHigher(texts: Texts, ln: real -> real, qterms: seq<Term>, a: DocId, b: DocId, x: Term, y: Term)
    requires Moderate(texts) && PositiveAboveOne(ln) && Increasing(ln) && NoDup(qterms) && x in qterms && y in qterms
    requires a in texts && x in texts[a] && forall t :: t in qterms && t in texts[a] ==> t == x
    requires b in texts && y in texts[b] && forall t :: t in qterms && t in texts[b] ==> t == y
    requires |texts[a]| <= |texts[b]| && Count(x, texts[a]) >= Count(y, texts[b])
    requires |Having(texts, x)| < |Having(texts, y)|
    ensures var scores := ScoresOf(texts, Bm25Gain(ln), ExactPlus(), qterms);
            a in scores && b in scores && scores[a] > scores[b]
  {
    SumOfOne(texts, Bm25Gain(ln), qterms, a, x);
    SumOfOne(texts, Bm25Gain(ln), qterms, b, y);
    ScoreIsSum(texts, Bm25Gain(ln), qterms, a);
    ScoreIsSum(texts, Bm25Gain(ln), qterms, b);
    ScoredDocuments(texts, Bm25Gain(ln), ExactPlus(), qterms, a);
    ScoredDocuments(texts, Bm25Gain(ln), ExactPlus(), qterms, b);
    Bm25IsSensible(ln);
    RarerGain(texts, Bm25Gain(ln), a, b, x, y);
  }

  lemma RarerGain(texts: Texts, gain: Gain, a: DocId, b: DocId, x: Term, y: Term)
    requires Moderate(texts) && Sensible(gain) && PrefersRare(gain)
    requires a in texts && x in texts[a] && b in texts && y in texts[b]
    requires |texts[a]| <= |texts[b]| && Count(x, texts[a]) >= Count(y, texts[b])
    requires |Having(texts, x)| < |Having(texts, y)|
    ensures GainOf(texts, gain, x, a) > GainOf(texts, gain, y, b)
  {
    GainOfHolder(texts, gain, x, a);
    GainOfHolder(texts, gain, y, b);
    var n, total, rare, common := |texts|, TotalLen(texts), |Having(texts, x)|, |Having(texts, y)|;
    RarePays(gain, n, rare, common, Count(x, texts[a]), |texts[a]|, total);
    PaysMore(gain, n, common, Count(y, texts[b]), Count(x, texts[a]), |texts[a]|, |texts[b]|, total);
  }

  lemma RarePays(gain: Gain, n: nat, rare: nat, common: nat, tf: nat, dl: nat, total: nat)
    requires PrefersRare(gain) && 0 < rare < common <= n && tf > 0 && total > 0
    ensures gain(n, rare, tf, dl, total) > gain(n, common, tf, dl, total)
  {
  }

  /** And the higher score stands first: when the lower one makes the cut, so does the higher, above it. */
  lemma HigherStandsFirst(scores: Scores, k: nat, hits: seq<Hit>, a: DocId, b: DocId, j: nat)
    requires IsTop(scores, k, hits) && a in scores && b in scores && scores[a] > scores[b]
    requires j < |hits| && hits[j].node == b
    ensures exists i :: 0 <= i < j && hits[i].node == a
  {
    var high := Hit(a, scores[a]);
    assert hits[j] in hits && IsHit(scores, high);
    if high in hits {
      var i :| 0 <= i < |hits| && hits[i] == high;
      assert i != j;
    }
  }
}
