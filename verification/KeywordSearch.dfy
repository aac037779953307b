/** Scoring and ranking: what a search answers, as a function of the texts alone. */
module KeywordSearch {
  import opened Collections
  import opened KeywordIndex

  /** What one term adds to one document's score: documents held, documents with the term, its
      frequency, the document's length, the total length. */
  type Gain = (nat, nat, nat, nat, nat) -> real

  /** Adding scores, which need not be associative. */
  type Plus = (real, real) -> real

  datatype Hit = Hit(node: DocId, score: real)

  type Scores = map<DocId, real>

  // ---- query terms: sorted, each once ----------------------------------------

  /** Lexicographic order of terms. */
  predicate Precedes(a: Term, b: Term) {
    if b == [] then false
    else if a == [] then true
    else a[0] < b[0] || (a[0] == b[0] && Precedes(a[1..], b[1..]))
  }

  lemma {:induction false} PrecedesTotal(a: Term, b: Term)
    ensures Precedes(a, b) || a == b || Precedes(b, a)
  {
    if a != [] && b != [] && a[0] == b[0] {
      PrecedesTotal(a[1..], b[1..]);
      assert a[1..] == b[1..] ==> a == [a[0]] + b[1..] == b;
    }
  }

  /** Insert into a sorted list, dropping a term already there. */
  function InsertTerm(t: Term, sorted: seq<Term>): (r: seq<Term>)
    ensures forall x :: x in r <==> x == t || x in sorted
  {
    if sorted == [] then [t]
    else if t == sorted[0] then sorted
    else if Precedes(t, sorted[0]) then [t] + sorted
    else
      assert sorted == [sorted[0]] + sorted[1..];
      [sorted[0]] + InsertTerm(t, sorted[1..])
  }

  function SortDedup(terms: seq<Term>): (r: seq<Term>)
    ensures forall x :: x in r <==> x in terms
  {
    if terms == [] then [] else InsertTerm(terms[0], SortDedup(terms[1..]))
  }

  lemma {:induction false} PrecedesTransitive(a: Term, b: Term, c: Term)
    requires Precedes(a, b) && Precedes(b, c)
    ensures Precedes(a, c)
  {
    if a != [] && a[0] == b[0] && b[0] == c[0] {
      PrecedesTransitive(a[1..], b[1..], c[1..]);
    }
  }

  lemma {:induction false} NotBeforeItself(a: Term)
    ensures !Precedes(a, a)
  {
    if a != [] {
      NotBeforeItself(a[1..]);
    }
  }

  /** In order, and each once. */
  ghost predicate Ascending(terms: seq<Term>) {
    forall i, j :: 0 <= i < j < |terms| ==> Precedes(terms[i], terms[j])
  }

  lemma AscendingCons(t: Term, rest: seq<Term>)
    requires Ascending(rest) && forall x :: x in rest ==> Precedes(t, x)
    ensures Ascending([t] + rest)
  {
  }

  lemma {:induction false} InsertAscends(t: Term, sorted: seq<Term>)
    requires Ascending(sorted)
    ensures Ascending(InsertTerm(t, sorted))
  {
    if sorted != [] && t != sorted[0] {
      PrecedesTotal(t, sorted[0]);
      if Precedes(t, sorted[0]) {
        forall x | x in sorted
          ensures Precedes(t, x)
        {
          if x != sorted[0] {
            PrecedesTransitive(t, sorted[0], x);
          }
        }
        AscendingCons(t, sorted);
      } else {
        InsertAscends(t, sorted[1..]);
        AscendingCons(sorted[0], InsertTerm(t, sorted[1..]));
      }
    }
  }

  /** Query terms come out in ascending order, each once. */
  lemma {:induction false} SortDedupAscends(terms: seq<Term>)
    ensures Ascending(SortDedup(terms))
  {
    if terms != [] {
      SortDedupAscends(terms[1..]);
      InsertAscends(terms[0], SortDedup(terms[1..]));
    }
  }

  lemma HasMember<T>(s: seq<T>)
    requires s != []
    ensures exists x :: x in s
  {
    assert s[0] in s;
  }

  /** One set of terms has one ascending list. */
  lemma {:induction false} AscendingUnique(a: seq<Term>, b: seq<Term>)
    requires Ascending(a) && Ascending(b) && forall t :: t in a <==> t in b
    ensures a == b
  {
    if a == [] {
      if b != [] {
        HasMember(b);
      }
    } else {
      assert a[0] in b;
      SameFirst(a, b);
      assert a == [a[0]] + a[1..] && b == [b[0]] + b[1..];
      NotBeforeItself(a[0]);
      forall t
        ensures t in a[1..] <==> t in b[1..]
      {
        assert t in a[1..] ==> t != a[0] && t in b;
        assert t in b[1..] ==> t != b[0] && t in a;
      }
      AscendingUnique(a[1..], b[1..]);
    }
  }

  lemma SameFirst(a: seq<Term>, b: seq<Term>)
    requires Ascending(a) && Ascending(b) && a != [] && b != [] && a[0] in b && b[0] in a
    ensures a[0] == b[0]
  {
    OneWay(a[0], b[0]);
  }

  lemma OneWay(x: Term, y: Term)
    ensures !(Precedes(x, y) && Precedes(y, x))
  {
    NotBeforeItself(x);
    if Precedes(x, y) && Precedes(y, x) {
      PrecedesTransitive(x, y, x);
    }
  }

  /** Only which terms a query has matters: not their order, not how often they are written. */
  lemma SameTermsSameQuery(a: seq<Term>, b: seq<Term>)
    requires forall t :: t in a <==> t in b
    ensures SortDedup(a) == SortDedup(b)
  {
    SortDedupAscends(a);
    SortDedupAscends(b);
    AscendingUnique(SortDedup(a), SortDedup(b));
  }

  // ---- scores ------------------------------------------------------------------

  function Len(texts: Texts, n: DocId): nat {
    if n in texts then U32(|texts[n]|) else 0
  }

  ghost function TotalLen(texts: Texts): nat {
    Sums.Sum(map n | n in texts :: Len(texts, n))
  }

  ghost function Having(texts: Texts, t: Term): set<DocId> {
    set n | n in texts && t in texts[n]
  }

  /** What a term adds to the score of a document that has it. */
  ghost function GainOf(texts: Texts, gain: Gain, t: Term, n: DocId): real
    requires n in texts
  {
    gain(|texts|, |Having(texts, t)|, U32(Count(t, texts[n])), Len(texts, n), TotalLen(texts))
  }

  /** One more query term: its gain is added to every document that has it. */
  ghost function WithTerm(texts: Texts, gain: Gain, plus: Plus, t: Term, before: Scores): Scores {
    map n | n in before.Keys + Having(texts, t) ::
      if n in Having(texts, t) then plus(Held(before, n), GainOf(texts, gain, t, n)) else before[n]
  }

  /** Scores after the given query terms, each document's gains added in the terms' order. */
  ghost function ScoresOf(texts: Texts, gain: Gain, plus: Plus, qterms: seq<Term>): Scores {
    if qterms == [] then map[]
    else WithTerm(texts, gain, plus, qterms[|qterms| - 1], ScoresOf(texts, gain, plus, qterms[..|qterms| - 1]))
  }

  /** Exactly the documents holding a query term are scored. */
  lemma {:induction false} ScoredDocuments(texts: Texts, gain: Gain, plus: Plus, qterms: seq<Term>, n: DocId)
    ensures n in ScoresOf(texts, gain, plus, qterms) <==> n in texts && exists t :: t in qterms && t in texts[n]
  {
    if qterms != [] {
      var k := |qterms| - 1;
      ScoredDocuments(texts, gain, plus, qterms[..k], n);
      assert qterms == qterms[..k] + [qterms[k]];
    }
  }

  function Held(s: Scores, n: DocId): real {
    if n in s then s[n] else 0.0
  }

  // ---- ranking -----------------------------------------------------------------

  /** Higher score first, ties by ascending id. */
  predicate Before(a: Hit, b: Hit) {
    a.score > b.score || (a.score == b.score && a.node < b.node)
  }

  predicate Ranked(hits: seq<Hit>) {
    forall i, j :: 0 <= i < j < |hits| ==> Before(hits[i], hits[j])
  }

  predicate IsHit(scores: Scores, h: Hit) {
    h.node in scores && scores[h.node] == h.score
  }

  /** Higher score first; of equal scores, the smaller id. */
  ghost predicate Beats(a: Hit, b: Hit) {
    a.score > b.score || (a.score == b.score && a.node < b.node)
  }

  /** The best `k` scored documents, or all when there are fewer, the best first. */
  ghost predicate IsTop(scores: Scores, k: nat, hits: seq<Hit>) {
    && (forall i, j :: 0 <= i < j < |hits| ==> Beats(hits[i], hits[j]))
    && |hits| == (if k < |scores| then k else |scores|)
    && (forall h :: h in hits ==> IsHit(scores, h))
    && (forall h :: IsHit(scores, h) && h !in hits ==> forall top :: top in hits ==> Beats(top, h))
  }

  /** There is only one such list. */
  lemma TopIsUnique(scores: Scores, k: nat, a: seq<Hit>, b: seq<Hit>)
    requires IsTop(scores, k, a) && IsTop(scores, k, b)
    ensures a == b
  {
    var i := 0;
    while i < |a|
      invariant 0 <= i <= |a| && a[..i] == b[..i]
    {
      NotBothTop(scores, a, b, i);
      assert a[..i + 1] == a[..i] + [a[i]];
      i := i + 1;
    }
  }

  /** Queries with the same terms, in any order and however often, are answered alike. */
  lemma SameTermsSameHits(texts: Texts, gain: Gain, plus: Plus, p: seq<Term>, q: seq<Term>, k: nat, a: seq<Hit>, b: seq<Hit>)
    requires forall t :: t in p <==> t in q
    requires IsTop(ScoresOf(texts, gain, plus, SortDedup(p)), k, a) && IsTop(ScoresOf(texts, gain, plus, SortDedup(q)), k, b)
    ensures a == b
  {
    SameTermsSameQuery(p, q);
    TopIsUnique(ScoresOf(texts, gain, plus, SortDedup(p)), k, a, b);
  }

  /** Lists that agree below `i` agree at `i`: the better of the two would be missing from the other. */
  lemma NotBothTop(scores: Scores, a: seq<Hit>, b: seq<Hit>, i: nat)
    requires Ranked(a) && Ranked(b) && i < |a| == |b| && a[..i] == b[..i]
    requires forall h :: h in a || h in b ==> IsHit(scores, h)
    requires forall h, top :: IsHit(scores, h) && h !in a && top in a ==> Before(top, h)
    requires forall h, top :: IsHit(scores, h) && h !in b && top in b ==> Before(top, h)
    ensures a[i] == b[i]
  {
    assert a[i] in a && b[i] in b;
    if Before(a[i], b[i]) {
      Missing(b, a, i);
    } else if Before(b[i], a[i]) {
      Missing(a, b, i);
    }
  }

  lemma Missing(a: seq<Hit>, b: seq<Hit>, i: nat)
    requires Ranked(a) && Ranked(b) && i < |a| == |b| && a[..i] == b[..i] && Before(b[i], a[i])
    ensures b[i] !in a
  {
    forall j | 0 <= j < |a|
      ensures a[j] != b[i]
    {
      if j < i {
        assert a[j] == a[..i][j] == b[j];
      }
    }
  }

  // ---- BM25 --------------------------------------------------------------------

  const K1: real := 1.2
  const B: real := 0.75

  /** Okapi BM25 for a given logarithm; zero where the source would divide by zero. */
  function Bm25(ln: real -> real, n: nat, df: nat, tf: nat, dl: nat, total: nat): real {
    if n == 0 || total == 0 then 0.0
    else
      var avgdl := total as real / n as real;
      var idf := ln((n as real - df as real + 0.5) / (df as real + 0.5) + 1.0);
      var denom := tf as real + K1 * (1.0 - B + B * dl as real / avgdl);
      if denom == 0.0 then 0.0 else idf * (tf as real * (K1 + 1.0)) / denom
  }

  function Bm25Gain(ln: real -> real): Gain {
    (n: nat, df: nat, tf: nat, dl: nat, total: nat) => Bm25(ln, n, df, tf, dl, total)
  }

  function ExactPlus(): Plus {
    (a: real, b: real) => a + b
  }

  ghost predicate PositiveAboveOne(ln: real -> real) {
    forall x :: x > 1.0 ==> ln(x) > 0.0
  }

  /** The denominators of a matching document's gain, none of which is zero, and the gain it gets. */
  lemma Bm25Positive(ln: real -> real, n: nat, df: nat, tf: nat, dl: nat, total: nat)
    requires PositiveAboveOne(ln)
    requires 0 < df <= n && tf > 0 && total > 0
    ensures total as real / n as real > 0.0
    ensures tf as real + K1 * (1.0 - B + B * dl as real / (total as real / n as real)) > 0.0
    ensures Bm25(ln, n, df, tf, dl, total) > 0.0
  {
    var avgdl := total as real / n as real;
    Quotient(total as real, n as real);
    Quotient(n as real - df as real + 0.5, df as real + 0.5);
    var idf := ln((n as real - df as real + 0.5) / (df as real + 0.5) + 1.0);
    if dl > 0 {
      Quotient(B * dl as real, avgdl);
    }
    var denom := tf as real + K1 * (1.0 - B + B * dl as real / avgdl);
    assert denom > 0.0;
    Product(idf, tf as real * (K1 + 1.0));
    Quotient(idf * (tf as real * (K1 + 1.0)), denom);
  }

  lemma Quotient(a: real, b: real)
    requires a > 0.0 && b > 0.0
    ensures a / b > 0.0
  {
  }

  lemma Product(a: real, b: real)
    requires a > 0.0 && b > 0.0
    ensures a * b > 0.0
  {
  }

  /** No document is so long its length or a frequency wraps. */
  ghost predicate Moderate(texts: Texts) {
    forall n :: n in texts ==> 0 < |texts[n]| < 0x1_0000_0000
  }

  lemma {:induction false} CountWithin(t: Term, tokens: seq<Term>)
    ensures Count(t, tokens) <= |tokens|
    ensures t in tokens <==> Count(t, tokens) > 0
  {
    if tokens != [] {
      var k := |tokens| - 1;
      CountWithin(t, tokens[..k]);
      assert tokens == tokens[..k] + [tokens[k]];
    }
  }

  /** Every gain is positive: nothing in it divides by zero, and the frequency and idf are positive. */
  lemma GainPositive(texts: Texts, ln: real -> real, t: Term, n: DocId)
    requires Moderate(texts) && n in texts && t in texts[n]
    requires PositiveAboveOne(ln)
    ensures GainOf(texts, Bm25Gain(ln), t, n) > 0.0
  {
    CountWithin(t, texts[n]);
    TermCounts(texts, t, n);
    GainIsPositive(ln, |texts|, |Having(texts, t)|, U32(Count(t, texts[n])), Len(texts, n), TotalLen(texts));
  }

  lemma TermCounts(texts: Texts, t: Term, n: DocId)
    requires n in texts && t in texts[n]
    ensures 0 < |Having(texts, t)| <= |texts| && Len(texts, n) <= TotalLen(texts)
  {
    Sums.SumWithout(map n | n in texts :: Len(texts, n), n);
    assert n in Having(texts, t) && Having(texts, t) <= texts.Keys;
    NoLarger({n}, Having(texts, t));
    NoLarger(Having(texts, t), texts.Keys);
  }

  lemma GainIsPositive(ln: real -> real, n: nat, df: nat, tf: nat, dl: nat, total: nat)
    requires PositiveAboveOne(ln) && 0 < df <= n && tf > 0 && total > 0
    ensures Bm25Gain(ln)(n, df, tf, dl, total) > 0.0
  {
    Bm25Positive(ln, n, df, tf, dl, total);
  }

  /** Every document holding a query term scores above zero. */
  lemma {:induction false} ScoresPositive(texts: Texts, ln: real -> real, qterms: seq<Term>, n: DocId)
    requires Moderate(texts) && PositiveAboveOne(ln)
    requires n in texts && exists t :: t in qterms && t in texts[n]
    ensures var scores := ScoresOf(texts, Bm25Gain(ln), ExactPlus(), qterms);
            n in scores && scores[n] > 0.0
  {
    var k := |qterms| - 1;
    var before := ScoresOf(texts, Bm25Gain(ln), ExactPlus(), qterms[..k]);
    assert qterms == qterms[..k] + [qterms[k]];
    if exists t :: t in qterms[..k] && t in texts[n] {
      ScoresPositive(texts, ln, qterms[..k], n);
    }
    ScoredDocuments(texts, Bm25Gain(ln), ExactPlus(), qterms[..k], n);
    if qterms[k] in texts[n] {
      GainPositive(texts, ln, qterms[k], n);
    }
  }
}
