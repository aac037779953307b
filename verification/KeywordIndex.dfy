/** The inverted index of one declared (plane, label, property): what its three structures
    say together, and what adding and removing a document do to them. */
module KeywordIndex {
  import opened Collections
  import opened Sums

  type Term = string
  type DocId = nat

  datatype Posting = Posting(node: DocId, tf: nat)

  datatype DocEntry = DocEntry(len: nat, terms: seq<Term>)

  /** term -> its postings; document -> its length and terms; the sum of all lengths. */
  datatype Index = Index(postings: map<Term, seq<Posting>>, docs: map<DocId, DocEntry>, totalLen: nat)

  /** The token sequence of every document indexed; a document with none is not indexed. */
  type Texts = map<DocId, seq<Term>>

  const EMPTY: Index := Index(map[], map[], 0)

  /** Lengths and frequencies are 32 bits wide. */
  function U32(n: nat): nat {
    n % 0x1_0000_0000
  }

  function Count(t: Term, tokens: seq<Term>): nat {
    if tokens == [] then 0
    else Count(t, tokens[..|tokens| - 1]) + if tokens[|tokens| - 1] == t then 1 else 0
  }

  lemma {:induction false} CountIsMultiplicity(t: Term, tokens: seq<Term>)
    ensures Count(t, tokens) == multiset(tokens)[t]
  {
    if tokens != [] {
      var k := |tokens| - 1;
      CountIsMultiplicity(t, tokens[..k]);
      assert tokens == tokens[..k] + [tokens[k]];
    }
  }

  function Postings(e: Index, t: Term): seq<Posting> {
    if t in e.postings then e.postings[t] else []
  }

  ghost predicate DistinctNodes(list: seq<Posting>) {
    forall i, j :: 0 <= i < j < |list| ==> list[i].node != list[j].node
  }

  /** The posting of `t` for a document, if the document has the term. */
  ghost predicate IsPosting(texts: Texts, t: Term, p: Posting) {
    p.node in texts && t in texts[p.node] && p.tf == U32(Count(t, texts[p.node]))
  }

  ghost predicate IsDocEntry(d: DocEntry, tokens: seq<Term>) {
    d.len == U32(|tokens|) && NoDup(d.terms) && forall t :: t in d.terms <==> t in tokens
  }

  ghost function Lengths(docs: map<DocId, DocEntry>): map<DocId, nat> {
    map n | n in docs :: docs[n].len
  }

  /** A term's list holds exactly its documents, each once with its frequency, and is there only if
      some document has the term. */
  ghost predicate ListFits(texts: Texts, e: Index, t: Term) {
    && (t in e.postings ==> e.postings[t] != [])
    && DistinctNodes(Postings(e, t))
    && forall p :: p in Postings(e, t) <==> IsPosting(texts, t, p)
  }

  /** The three structures describe exactly `texts`. */
  ghost predicate Represents(e: Index, texts: Texts) {
    && (forall n :: n in texts ==> texts[n] != [])
    && e.docs.Keys == texts.Keys
    && (forall n :: n in texts ==> IsDocEntry(e.docs[n], texts[n]))
    && (forall t :: ListFits(texts, e, t))
    && e.totalLen == Sum(Lengths(e.docs))
  }

  // ---- what the two operations do -------------------------------------------

  /** `e'` is `e` after pushing one posting for each distinct token. */
  ghost predicate IsAdded(e: Index, e': Index, node: DocId, tokens: seq<Term>) {
    && node in e'.docs && IsDocEntry(e'.docs[node], tokens)
    && e'.docs == e.docs[node := e'.docs[node]]
    && (forall t :: IsExtended(e, e', node, tokens, t))
    && e'.totalLen == e.totalLen + U32(|tokens|)
  }

  ghost predicate IsExtended(e: Index, e': Index, node: DocId, tokens: seq<Term>, t: Term) {
    && (t in e'.postings <==> t in e.postings || t in tokens)
    && Postings(e', t) ==
       if t in tokens then Postings(e, t) + [Posting(node, U32(Count(t, tokens)))] else Postings(e, t)
  }

  function Without(list: seq<Posting>, node: DocId): (r: seq<Posting>)
    ensures forall p :: p in r <==> p in list && p.node != node
  {
    if list == [] then []
    else
      assert list == list[..|list| - 1] + [list[|list| - 1]];
      var init := Without(list[..|list| - 1], node);
      if list[|list| - 1].node == node then init else init + [list[|list| - 1]]
  }

  /** `e'` is `e` after taking one document's postings out, with its entry and its length. */
  ghost predicate IsRemoved(e: Index, e': Index, node: DocId) {
    if node !in e.docs then e' == e
    else
      && e'.docs == e.docs - {node}
      && e'.totalLen + e.docs[node].len == e.totalLen
      && forall t :: Trimmed(e, e', node, t)
  }

  ghost predicate Trimmed(e: Index, e': Index, node: DocId, t: Term)
    requires node in e.docs
  {
    && Postings(e', t) == (if t in e.docs[node].terms then Without(Postings(e, t), node) else Postings(e, t))
    && (t in e'.postings <==> t in e.postings && (t in e.docs[node].terms ==> Postings(e', t) != []))
  }

  // ---- keeping in step --------------------------------------------------------

  lemma {:induction false} WithoutDistinct(list: seq<Posting>, node: DocId)
    requires DistinctNodes(list)
    ensures DistinctNodes(Without(list, node))
  {
    if list != [] {
      var init := list[..|list| - 1];
      WithoutDistinct(init, node);
      forall i | 0 <= i < |Without(init, node)|
        ensures Without(init, node)[i].node != list[|list| - 1].node
      {
        assert Without(init, node)[i] in init;
      }
    }
  }

  lemma AddedListFits(e: Index, e': Index, texts: Texts, node: DocId, tokens: seq<Term>, t: Term)
    requires IsAdded(e, e', node, tokens) && ListFits(texts, e, t) && node !in texts
    ensures ListFits(texts[node := tokens], e', t)
  {
    var list, list', added := Postings(e, t), Postings(e', t), Posting(node, U32(Count(t, tokens)));
    forall i | 0 <= i < |list|
      ensures list[i].node != node
    {
      assert list[i] in list && IsPosting(texts, t, list[i]);
    }
    assert IsExtended(e, e', node, tokens, t);
    forall p
      ensures p in list' <==> IsPosting(texts[node := tokens], t, p)
    {
      assert p in list' <==> p in list || (t in tokens && p == added);
      assert p in list <==> IsPosting(texts, t, p);
    }
  }

  /** Adding a document not yet indexed indexes exactly it as well. */
  lemma AddKeepsStep(e: Index, e': Index, texts: Texts, node: DocId, tokens: seq<Term>)
    requires Represents(e, texts) && IsAdded(e, e', node, tokens) && tokens != [] && node !in texts
    ensures Represents(e', texts[node := tokens])
  {
    var after := texts[node := tokens];
    forall t
      ensures ListFits(after, e', t)
    {
      AddedListFits(e, e', texts, node, tokens, t);
    }
    SumUpdate(Lengths(e.docs), node, e'.docs[node].len);
    assert Lengths(e'.docs) == Lengths(e.docs)[node := e'.docs[node].len];
    assert Lengths(e.docs) - {node} == Lengths(e.docs);
  }

  /** Re-indexing without removing first leaves the document's old postings behind: of a term it keeps,
      a second posting; of a term it loses, one too many. */
  lemma AddTwiceBreaksStep(e: Index, e': Index, texts: Texts, node: DocId, tokens: seq<Term>, any: Texts)
    requires Represents(e, texts) && IsAdded(e, e', node, tokens) && node in texts
    ensures !Represents(e', any)
  {
    var t := texts[node][0];
    var stale := Posting(node, U32(Count(t, texts[node])));
    assert ListFits(texts, e, t) && IsPosting(texts, t, stale);
    var i :| 0 <= i < |Postings(e, t)| && Postings(e, t)[i] == stale;
    assert IsExtended(e, e', node, tokens, t);
    if t in tokens {
      assert Postings(e', t)[i].node == Postings(e', t)[|Postings(e, t)|].node;
      assert !ListFits(any, e', t);
    } else {
      assert stale in Postings(e', t) && t !in e'.docs[node].terms;
      assert ListFits(any, e', t) ==> IsPosting(any, t, stale);
      assert IsPosting(any, t, stale) ==> !IsDocEntry(e'.docs[node], any[node]);
    }
  }

  /** Adding a document leaves an index of some texts exactly when it was not indexed before. */
  lemma AddedIsIndexIff(e: Index, e': Index, texts: Texts, node: DocId, tokens: seq<Term>)
    requires Represents(e, texts) && IsAdded(e, e', node, tokens) && tokens != []
    ensures (exists any :: Represents(e', any)) <==> node !in texts
  {
    if node in texts {
      forall any
        ensures !Represents(e', any)
      {
        AddTwiceBreaksStep(e, e', texts, node, tokens, any);
      }
    } else {
      AddKeepsStep(e, e', texts, node, tokens);
    }
  }

  lemma RemovedListFits(e: Index, e': Index, texts: Texts, node: DocId, t: Term)
    requires node in texts && e.docs.Keys == texts.Keys && IsDocEntry(e.docs[node], texts[node])
    requires IsRemoved(e, e', node) && ListFits(texts, e, t)
    ensures ListFits(texts - {node}, e', t)
  {
    assert Trimmed(e, e', node, t);
    WithoutDistinct(Postings(e, t), node);
    forall p
      ensures p in Postings(e', t) <==> IsPosting(texts - {node}, t, p)
    {
      assert p in Postings(e, t) <==> IsPosting(texts, t, p);
    }
  }

  /** Removing a document, indexed or not, leaves exactly the others indexed, and the length never
      goes below zero. */
  lemma RemoveKeepsStep(e: Index, e': Index, texts: Texts, node: DocId)
    requires Represents(e, texts) && IsRemoved(e, e', node)
    ensures Represents(e', texts - {node})
  {
    if node !in texts {
      assert texts - {node} == texts;
    } else {
      forall t
        ensures ListFits(texts - {node}, e', t)
      {
        RemovedListFits(e, e', texts, node, t);
      }
      SumWithout(Lengths(e.docs), node);
      assert Lengths(e'.docs) == Lengths(e.docs) - {node};
    }
  }

  lemma LengthWithin(e: Index, texts: Texts, node: DocId)
    requires Represents(e, texts) && node in e.docs
    ensures e.docs[node].len <= e.totalLen
  {
    SumWithout(Lengths(e.docs), node);
  }

  lemma EmptyRepresents()
    ensures Represents(EMPTY, map[])
  {
    assert Lengths(map[]) == map[];
  }

  // ---- two indexes over the same texts ---------------------------------------

  ghost predicate SameUpToOrder(a: Index, b: Index) {
    && a.postings.Keys == b.postings.Keys
    && (forall t :: t in a.postings ==> multiset(a.postings[t]) == multiset(b.postings[t]))
    && a.docs.Keys == b.docs.Keys
    && (forall n :: n in a.docs ==> a.docs[n].len == b.docs[n].len && multiset(a.docs[n].terms) == multiset(b.docs[n].terms))
    && a.totalLen == b.totalLen
  }

  lemma {:induction false} OnceEach<T(!new)>(s: seq<T>, x: T)
    requires NoDup(s)
    ensures multiset(s)[x] == if x in s then 1 else 0
  {
    if s != [] {
      var init := s[..|s| - 1];
      OnceEach(init, x);
      assert s == init + [s[|s| - 1]];
    }
  }

  lemma SameMultiset<T(!new)>(a: seq<T>, b: seq<T>)
    requires NoDup(a) && NoDup(b) && forall x :: x in a <==> x in b
    ensures multiset(a) == multiset(b)
  {
    forall x
      ensures multiset(a)[x] == multiset(b)[x]
    {
      OnceEach(a, x);
      OnceEach(b, x);
    }
  }

  /** However they were built, two indexes in step with the same texts are the same but for order. */
  lemma SameTextsSameIndex(a: Index, b: Index, texts: Texts)
    requires Represents(a, texts) && Represents(b, texts)
    ensures SameUpToOrder(a, b)
  {
    forall t
      ensures t in a.postings <==> t in b.postings
      ensures multiset(Postings(a, t)) == multiset(Postings(b, t))
    {
      SameList(a, b, texts, t);
    }
    forall n | n in texts
      ensures multiset(a.docs[n].terms) == multiset(b.docs[n].terms)
    {
      SameMultiset(a.docs[n].terms, b.docs[n].terms);
    }
    assert Lengths(a.docs) == Lengths(b.docs);
  }

  lemma SameList(a: Index, b: Index, texts: Texts, t: Term)
    requires ListFits(texts, a, t) && ListFits(texts, b, t)
    ensures t in a.postings <==> t in b.postings
    ensures multiset(Postings(a, t)) == multiset(Postings(b, t))
  {
    forall p
      ensures p in Postings(a, t) <==> p in Postings(b, t)
    {
      assert p in Postings(a, t) <==> IsPosting(texts, t, p);
    }
    SameMultiset(Postings(a, t), Postings(b, t));
    if t in a.postings {
      assert a.postings[t][0] in Postings(a, t);
    }
    if t in b.postings {
      assert b.postings[t][0] in Postings(b, t);
    }
  }
}
