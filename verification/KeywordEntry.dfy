/** One live keyword index, mutated document by document, and its search. */
module KeywordEntry {
  import opened Collections
  import opened KeywordIndex
  import opened KeywordSearch

  // ---- the parts of adding and removing a document ----------------------------

  function TermCounts(tokens: seq<Term>): map<Term, nat> {
    if tokens == [] then map[]
    else
      var before, t := TermCounts(tokens[..|tokens| - 1]), tokens[|tokens| - 1];
      before[t := U32((if t in before then before[t] else 0) + 1)]
  }

  lemma {:induction false} TermCountsAt(tokens: seq<Term>, t: Term)
    ensures t in TermCounts(tokens) <==> t in tokens
    ensures t in tokens ==> TermCounts(tokens)[t] == U32(Count(t, tokens))
  {
    if tokens != [] {
      var k := |tokens| - 1;
      TermCountsAt(tokens[..k], t);
      U32Next(Count(t, tokens[..k]));
      assert t !in tokens[..k] ==> Count(t, tokens[..k]) == 0 by {
        CountWithin(t, tokens[..k]);
      }
      assert tokens == tokens[..k] + [tokens[k]];
    }
  }

  lemma U32Next(n: nat)
    ensures U32(U32(n) + 1) == U32(n + 1) && U32(0) == 0
  {
  }

  lemma TermCountsCount(tokens: seq<Term>)
    ensures forall t :: t in TermCounts(tokens) <==> t in tokens
    ensures forall t :: t in tokens ==> TermCounts(tokens)[t] == U32(Count(t, tokens))
  {
    forall t
      ensures t in TermCounts(tokens) <==> t in tokens
      ensures t in tokens ==> TermCounts(tokens)[t] == U32(Count(t, tokens))
    {
      TermCountsAt(tokens, t);
    }
  }

  /** Occurrences of each token. */
  method CountTerms(tokens: seq<Term>) returns (tf: map<Term, nat>)
    ensures tf == TermCounts(tokens)
  {
    tf := map[];
    var i := 0;
    while i < |tokens|
      invariant 0 <= i <= |tokens| && tf == TermCounts(tokens[..i])
    {
      var t := tokens[i];
      assert tokens[..i + 1][..i] == tokens[..i];
      tf := tf[t := U32((if t in tf then tf[t] else 0) + 1)];
      i := i + 1;
    }
    assert tokens[..i] == tokens;
  }

  function ListOf(postings: map<Term, seq<Posting>>, t: Term): seq<Posting> {
    if t in postings then postings[t] else []
  }

  /** Push one posting for each term, in whatever order the terms come. */
  method PushPostings(was: map<Term, seq<Posting>>, tf: map<Term, nat>, node: DocId)
    returns (postings: map<Term, seq<Posting>>, terms: seq<Term>)
    ensures NoDup(terms) && forall t :: t in terms <==> t in tf
    ensures forall t :: IsPushed(was, postings, tf, node, t, t in tf)
  {
    postings, terms := was, [];
    var done: set<Term> := {};
    while tf.Keys - done != {}
      invariant done <= tf.Keys
      invariant NoDup(terms) && forall t :: t in terms <==> t in done
      invariant forall t :: IsPushed(was, postings, tf, node, t, t in done)
      decreases tf.Keys - done
    {
      var t :| t in tf.Keys - done;
      PushOne(was, postings, tf, node, t, done);
      postings := postings[t := ListOf(postings, t) + [Posting(node, tf[t])]];
      terms := terms + [t];
      done := done + {t};
    }
    NothingLeft(tf.Keys, done);
  }

  lemma NothingLeft<T>(all: set<T>, done: set<T>)
    requires done <= all && all - done == {}
    ensures done == all
  {
    assert all == done + (all - done);
  }

  lemma PushOne(was: map<Term, seq<Posting>>, before: map<Term, seq<Posting>>, tf: map<Term, nat>, node: DocId,
                t: Term, done: set<Term>)
    requires t in tf && t !in done
    requires forall x :: IsPushed(was, before, tf, node, x, x in done)
    ensures var after := before[t := ListOf(before, t) + [Posting(node, tf[t])]];
            forall x :: IsPushed(was, after, tf, node, x, x in done + {t})
  {
    var after := before[t := ListOf(before, t) + [Posting(node, tf[t])]];
    forall x
      ensures IsPushed(was, after, tf, node, x, x in done + {t})
    {
      assert IsPushed(was, before, tf, node, x, x in done);
    }
  }

  ghost predicate IsPushed(before: map<Term, seq<Posting>>, after: map<Term, seq<Posting>>, tf: map<Term, nat>,
                           node: DocId, t: Term, done: bool)
  {
    && (t in after <==> t in before || done)
    && (done ==> t in tf)
    && ListOf(after, t) == if done then ListOf(before, t) + [Posting(node, tf[t])] else ListOf(before, t)
  }

  /** Take a document's postings out of its terms' lists, and drop a list left empty. */
  method DropPostings(was: map<Term, seq<Posting>>, terms: seq<Term>, node: DocId)
    returns (postings: map<Term, seq<Posting>>)
    requires NoDup(terms)
    ensures forall t :: IsDropped(was, postings, node, t, t in terms)
  {
    postings := was;
    var i := 0;
    while i < |terms|
      invariant 0 <= i <= |terms|
      invariant forall t :: IsDropped(was, postings, node, t, t in terms[..i])
    {
      var term := terms[i];
      assert terms[..i + 1] == terms[..i] + [term] && term !in terms[..i];
      assert IsDropped(was, postings, node, term, false);
      ghost var before := postings;
      if term in postings {
        var list := Without(postings[term], node);
        postings := if list == [] then postings - {term} else postings[term := list];
      }
      i := i + 1;
      forall t
        ensures IsDropped(was, postings, node, t, t in terms[..i])
      {
        assert IsDropped(was, before, node, t, t in terms[..i - 1]);
      }
    }
    assert terms[..i] == terms;
  }

  ghost predicate IsDropped(before: map<Term, seq<Posting>>, after: map<Term, seq<Posting>>, node: DocId, t: Term, gone: bool) {
    && ListOf(after, t) == (if gone then Without(ListOf(before, t), node) else ListOf(before, t))
    && (t in after <==> t in before && (gone ==> ListOf(after, t) != []))
  }

  class Entry {
    const analyze: string -> seq<Term>
    var postings: map<Term, seq<Posting>>
    var docs: map<DocId, DocEntry>
    var totalLen: nat
    /** The documents indexed, by their tokens. */
    ghost var texts: Texts

    function Snapshot(): Index
      reads this
    {
      Index(postings, docs, totalLen)
    }

    ghost predicate Valid()
      reads this
    {
      Represents(Snapshot(), texts)
    }

    constructor (analyze: string -> seq<Term>)
      ensures Valid() && this.analyze == analyze && texts == map[]
    {
      this.analyze := analyze;
      postings, docs, totalLen, texts := map[], map[], 0, map[];
      new;
      EmptyRepresents();
    }

    /** Index one document's text; one without tokens is not stored. The index stays in step when the
        document was not in it. */
    method AddDoc(node: DocId, text: string)
      modifies this
      ensures analyze(text) == [] ==> Snapshot() == old(Snapshot()) && texts == old(texts)
      ensures analyze(text) != [] ==>
                IsAdded(old(Snapshot()), Snapshot(), node, analyze(text)) && texts == old(texts)[node := analyze(text)]
      ensures old(Valid()) && node !in old(texts) ==> Valid()
    {
      var tokens := analyze(text);
      if tokens == [] {
        return;
      }
      ghost var e := Snapshot();
      var len := U32(|tokens|);
      var tf := CountTerms(tokens);
      TermCountsCount(tokens);
      var terms;
      postings, terms := PushPostings(postings, tf, node);
      totalLen := totalLen + len;
      docs := docs[node := DocEntry(len, terms)];
      texts := texts[node := tokens];
      Pushed(e, Snapshot(), node, tokens, tf);
      if old(Valid()) && node !in old(texts) {
        AddKeepsStep(e, Snapshot(), old(texts), node, tokens);
      }
    }

    /** Take one document out, or do nothing when it is not indexed. */
    method RemoveDoc(node: DocId)
      requires Valid()
      modifies this
      ensures Valid() && IsRemoved(old(Snapshot()), Snapshot(), node) && texts == old(texts) - {node}
    {
      ghost var e := Snapshot();
      RemoveFrom(node);
      RemoveKeepsStep(e, Snapshot(), texts, node);
      texts := texts - {node};
    }

    method RemoveFrom(node: DocId)
      requires Valid()
      modifies this`postings, this`docs, this`totalLen
      ensures IsRemoved(old(Snapshot()), Snapshot(), node)
    {
      if node !in docs {
        return;
      }
      ghost var e := Snapshot();
      var doc := docs[node];
      LengthWithin(e, texts, node);
      docs := docs - {node};
      totalLen := totalLen - doc.len;
      assert IsDocEntry(e.docs[node], texts[node]);
      postings := DropPostings(postings, doc.terms, node);
      Dropped(e, Snapshot(), node);
    }

    /** The best `k` documents for a query. What comes back is decided by the indexed texts alone. */
    method Search(query: string, k: nat, gain: Gain, plus: Plus) returns (hits: seq<Hit>)
      requires Valid()
      ensures IsTop(ScoresOf(texts, gain, plus, SortDedup(analyze(query))), k, hits)
    {
      if |docs| == 0 || k == 0 {
        assert |docs| == 0 ==> texts == map[];
        NothingToRank(texts, gain, plus, SortDedup(analyze(query)), k);
        return [];
      }
      var qterms := SortDedup(analyze(query));
      var scores: Scores := map[];
      var i := 0;
      while i < |qterms|
        invariant 0 <= i <= |qterms|
        invariant scores == ScoresOf(texts, gain, plus, qterms[..i])
      {
        TermScores(Snapshot(), texts, gain, plus, qterms, i);
        scores := AddTerm(qterms[i], gain, plus, scores);
        i := i + 1;
      }
      assert qterms[..i] == qterms;
      hits := RankAll(scores);
      CutIsTop(scores, k, hits);
      hits := if k < |hits| then hits[..k] else hits;
    }

    /** Add one query term's gains to the scores. */
    method AddTerm(term: Term, gain: Gain, plus: Plus, before: Scores) returns (scores: Scores)
      ensures scores == Accumulate(before, Postings(Snapshot(), term), TermGain(Snapshot(), gain, term), plus)
    {
      scores := before;
      if term !in postings {
        return;
      }
      var list := postings[term];
      var df := |list|;
      var j := 0;
      while j < |list|
        invariant 0 <= j <= |list|
        invariant scores == Accumulate(before, list[..j], TermGain(Snapshot(), gain, term), plus)
      {
        var p := list[j];
        var dl := if p.node in docs then docs[p.node].len else 0;
        assert list[..j + 1][..j] == list[..j];
        scores := scores[p.node := plus(Held(scores, p.node), gain(|docs|, df, p.tf, dl, totalLen))];
        j := j + 1;
      }
      assert list[..j] == list;
    }
  }

  /** The pushed postings, entry and length together are the document added. */
  lemma Pushed(e: Index, e': Index, node: DocId, tokens: seq<Term>, tf: map<Term, nat>)
    requires forall t :: t in tf <==> t in tokens
    requires forall t :: t in tokens ==> tf[t] == U32(Count(t, tokens))
    requires forall t :: IsPushed(e.postings, e'.postings, tf, node, t, t in tf)
    requires node in e'.docs && IsDocEntry(e'.docs[node], tokens) && e'.docs == e.docs[node := e'.docs[node]]
    requires e'.totalLen == e.totalLen + U32(|tokens|)
    ensures IsAdded(e, e', node, tokens)
  {
    forall t
      ensures IsExtended(e, e', node, tokens, t)
    {
      assert IsPushed(e.postings, e'.postings, tf, node, t, t in tf);
    }
  }

  lemma Dropped(e: Index, e': Index, node: DocId)
    requires node in e.docs && e'.docs == e.docs - {node} && e'.totalLen + e.docs[node].len == e.totalLen
    requires forall t :: IsDropped(e.postings, e'.postings, node, t, t in e.docs[node].terms)
    ensures IsRemoved(e, e', node)
  {
    forall t
      ensures Trimmed(e, e', node, t)
    {
      assert IsDropped(e.postings, e'.postings, node, t, t in e.docs[node].terms);
    }
  }

  /** What a posting adds, read off the index. */
  function TermGain(e: Index, gain: Gain, term: Term): Posting -> real {
    (p: Posting) => gain(|e.docs|, |Postings(e, term)|, p.tf, if p.node in e.docs then e.docs[p.node].len else 0, e.totalLen)
  }

  function Accumulate(scores: Scores, list: seq<Posting>, gainOf: Posting -> real, plus: Plus): Scores {
    if list == [] then scores
    else
      var before, p := Accumulate(scores, list[..|list| - 1], gainOf, plus), list[|list| - 1];
      before[p.node := plus(Held(before, p.node), gainOf(p))]
  }

  /** Over distinct documents, each gets its one gain, whatever order they come in. */
  lemma {:induction false} AccumulateOnce(scores: Scores, list: seq<Posting>, gainOf: Posting -> real, plus: Plus)
    requires DistinctNodes(list)
    ensures Accumulate(scores, list, gainOf, plus).Keys == scores.Keys + Nodes(list)
    ensures forall n :: n in scores && n !in Nodes(list) ==> Accumulate(scores, list, gainOf, plus)[n] == scores[n]
    ensures forall p :: p in list ==> Accumulate(scores, list, gainOf, plus)[p.node] == plus(Held(scores, p.node), gainOf(p))
  {
    if list != [] {
      var k := |list| - 1;
      AccumulateOnce(scores, list[..k], gainOf, plus);
      NodesSnoc(list, k);
      assert list[..k + 1] == list;
      forall p | p in list
        ensures p == list[k] || (p in list[..k] && p.node != list[k].node)
      {
        if p != list[k] {
          assert p in list[..k] && p.node in Nodes(list[..k]);
        }
      }
    }
  }

  /** One more query term: the index's accumulation is the texts' own. */
  lemma TermScores(e: Index, texts: Texts, gain: Gain, plus: Plus, qterms: seq<Term>, i: nat)
    requires Represents(e, texts) && i < |qterms|
    ensures Accumulate(ScoresOf(texts, gain, plus, qterms[..i]), Postings(e, qterms[i]), TermGain(e, gain, qterms[i]), plus)
         == ScoresOf(texts, gain, plus, qterms[..i + 1])
  {
    AccumulateIsWithTerm(e, texts, gain, plus, qterms[i], ScoresOf(texts, gain, plus, qterms[..i]));
    assert qterms[..i + 1][..i] == qterms[..i];
  }

  lemma AccumulateIsWithTerm(e: Index, texts: Texts, gain: Gain, plus: Plus, t: Term, before: Scores)
    requires Represents(e, texts)
    ensures Accumulate(before, Postings(e, t), TermGain(e, gain, t), plus) == WithTerm(texts, gain, plus, t, before)
  {
    var after, with_ := Accumulate(before, Postings(e, t), TermGain(e, gain, t), plus), WithTerm(texts, gain, plus, t, before);
    forall n
      ensures SameAt(after, with_, n)
    {
      TermScoreAt(e, texts, gain, plus, before, t, n);
    }
    SameEverywhere(after, with_);
  }

  ghost predicate SameAt(a: Scores, b: Scores, n: DocId) {
    (n in a <==> n in b) && (n in a && n in b ==> a[n] == b[n])
  }

  lemma SameEverywhere(a: Scores, b: Scores)
    requires forall n :: SameAt(a, b, n)
    ensures a == b
  {
    assert forall n :: n in a ==> SameAt(a, b, n);
    assert forall n :: n in b ==> SameAt(a, b, n);
  }

  lemma TermScoreAt(e: Index, texts: Texts, gain: Gain, plus: Plus, before: Scores, t: Term, n: DocId)
    requires Represents(e, texts)
    ensures SameAt(Accumulate(before, Postings(e, t), TermGain(e, gain, t), plus), WithTerm(texts, gain, plus, t, before), n)
  {
    ListCounts(e, texts, t);
    assert ListFits(texts, e, t);
    AccumulateOnce(before, Postings(e, t), TermGain(e, gain, t), plus);
    if n in Having(texts, t) {
      var p := Posting(n, U32(Count(t, texts[n])));
      assert IsPosting(texts, t, p) && p in Postings(e, t);
      assert IsDocEntry(e.docs[n], texts[n]);
      assert TermGain(e, gain, t)(p) == GainOf(texts, gain, t, n);
    }
  }

  ghost function Nodes(list: seq<Posting>): set<DocId> {
    set p | p in list :: p.node
  }

  lemma NodesSnoc(list: seq<Posting>, j: nat)
    requires j < |list| && DistinctNodes(list)
    ensures Nodes(list[..j + 1]) == Nodes(list[..j]) + {list[j].node}
    ensures list[j].node !in Nodes(list[..j])
  {
    assert list[..j + 1] == list[..j] + [list[j]];
    assert forall p :: p in list[..j + 1] <==> p in list[..j] || p == list[j];
  }

  lemma {:induction false} DistinctCount(list: seq<Posting>)
    requires DistinctNodes(list)
    ensures |Nodes(list)| == |list|
  {
    if list != [] {
      var k := |list| - 1;
      DistinctCount(list[..k]);
      NodesSnoc(list, k);
      assert list[..k + 1] == list;
    }
  }

  /** The document frequency, document count and total length an index holds are those of its texts. */
  lemma ListCounts(e: Index, texts: Texts, t: Term)
    requires Represents(e, texts)
    ensures Nodes(Postings(e, t)) == Having(texts, t)
    ensures |Postings(e, t)| == |Having(texts, t)| && |e.docs| == |texts| && e.totalLen == TotalLen(texts)
  {
    assert ListFits(texts, e, t);
    forall n | n in Having(texts, t)
      ensures n in Nodes(Postings(e, t))
    {
      assert IsPosting(texts, t, Posting(n, U32(Count(t, texts[n]))));
    }
    DistinctCount(Postings(e, t));
    assert |e.docs| == |e.docs.Keys| && |texts| == |texts.Keys|;
    assert Lengths(e.docs) == map n | n in texts :: Len(texts, n);
  }

  /** No documents, or none asked for: nothing is the answer. */
  lemma NothingToRank(texts: Texts, gain: Gain, plus: Plus, qterms: seq<Term>, k: nat)
    requires texts == map[] || k == 0
    ensures IsTop(ScoresOf(texts, gain, plus, qterms), k, [])
  {
    var scores := ScoresOf(texts, gain, plus, qterms);
    forall n
      ensures texts == map[] ==> n !in scores
    {
      ScoredDocuments(texts, gain, plus, qterms, n);
    }
    assert texts == map[] ==> scores == map[];
  }

  /** All scored documents in rank order. */
  method RankAll(scores: Scores) returns (hits: seq<Hit>)
    ensures Ranked(hits) && |hits| == |scores| && forall h :: h in hits <==> IsHit(scores, h)
  {
    hits := [];
    var left := scores.Keys;
    while left != {}
      invariant left <= scores.Keys && Ranked(hits) && |hits| + |left| == |scores|
      invariant forall h :: h in hits <==> IsHit(scores, h) && h.node !in left
    {
      var n :| n in left;
      InsertKeepsRank(Hit(n, scores[n]), hits);
      hits := InsertHit(Hit(n, scores[n]), hits);
      left := left - {n};
    }
  }

  /** Cutting the ranked list at `k` leaves the best `k`. */
  lemma CutIsTop(scores: Scores, k: nat, hits: seq<Hit>)
    requires Ranked(hits) && |hits| == |scores| && forall h :: h in hits <==> IsHit(scores, h)
    ensures IsTop(scores, k, if k < |hits| then hits[..k] else hits)
  {
    if k < |hits| {
      assert forall x :: 0 <= x < k ==> hits[..k][x] == hits[x];
      forall h, top | IsHit(scores, h) && h !in hits[..k] && top in hits[..k]
        ensures Before(top, h)
      {
        var i :| 0 <= i < |hits| && hits[i] == h;
        var j :| 0 <= j < k && hits[..k][j] == top;
        assert i >= k;
      }
    }
  }

  /** Insert a document into a ranked list. */
  function InsertHit(h: Hit, ranked: seq<Hit>): (r: seq<Hit>)
    ensures |r| == |ranked| + 1
    ensures forall x :: x in r <==> x == h || x in ranked
  {
    if ranked == [] then [h]
    else if Before(h, ranked[0]) then [h] + ranked
    else
      assert ranked == [ranked[0]] + ranked[1..];
      [ranked[0]] + InsertHit(h, ranked[1..])
  }

  lemma {:induction false} InsertKeepsRank(h: Hit, ranked: seq<Hit>)
    requires Ranked(ranked) && forall x :: x in ranked ==> x.node != h.node
    ensures Ranked(InsertHit(h, ranked))
  {
    if ranked != [] && !Before(h, ranked[0]) {
      var rest := InsertHit(h, ranked[1..]);
      assert forall x :: x in ranked[1..] ==> x in ranked;
      InsertKeepsRank(h, ranked[1..]);
      forall i | 0 <= i < |rest|
        ensures Before(ranked[0], rest[i])
      {
        assert rest[i] in rest && ranked[0] in ranked;
      }
    }
  }
}
