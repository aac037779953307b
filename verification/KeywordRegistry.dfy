/** The registry of live keyword indexes, and its agreement with an index rebuilt from a snapshot. */
module KeywordRegistry {
  import opened KeywordIndex
  import opened KeywordSearch
  import opened KeywordEntry

  /** Plane, label, property. */
  datatype IndexKey = IndexKey(plane: nat, nodeLabel: string, property: string)

  /** The stored text of each node under one index's label and property. */
  type Stored = map<DocId, string>

  /** What indexing the stored texts holds: their tokens, where there are any. */
  function TextsOf(analyze: string -> seq<Term>, stored: Stored): Texts {
    map n | n in stored && analyze(stored[n]) != [] :: analyze(stored[n])
  }

  datatype Op =
    | Upsert(key: IndexKey, node: DocId, text: string)
    | RemoveOne(key: IndexKey, node: DocId)
    | RemoveNode(node: DocId)

  /** What a write does to the stored texts under `key`. */
  function Write(op: Op, key: IndexKey, stored: Stored): Stored {
    match op
    case Upsert(k, node, text) => if k == key then stored[node := text] else stored
    case RemoveOne(k, node) => if k == key then stored - {node} else stored
    case RemoveNode(node) => stored - {node}
  }

  function WriteAll(ops: seq<Op>, key: IndexKey, stored: Stored): Stored {
    if ops == [] then stored else Write(ops[|ops| - 1], key, WriteAll(ops[..|ops| - 1], key, stored))
  }

  /** Storing a text and indexing it again agree; so do removing it from both. */
  lemma IndexFollows(analyze: string -> seq<Term>, stored: Stored, node: DocId, text: string)
    ensures analyze(text) == [] ==> TextsOf(analyze, stored[node := text]) == TextsOf(analyze, stored) - {node}
    ensures analyze(text) != [] ==>
              TextsOf(analyze, stored[node := text]) == (TextsOf(analyze, stored) - {node})[node := analyze(text)]
    ensures TextsOf(analyze, stored - {node}) == TextsOf(analyze, stored) - {node}
  {
  }

  /** Build an index over every row of a snapshot that has a text: rows carry distinct ids. */
  method FromSnapshot(analyze: string -> seq<Term>, rows: seq<(DocId, string)>) returns (entry: Entry)
    requires forall i, j :: 0 <= i < j < |rows| ==> rows[i].0 != rows[j].0
    ensures fresh(entry) && entry.Valid() && entry.analyze == analyze
    ensures entry.texts == TextsOf(analyze, RowMap(rows))
  {
    entry := new Entry(analyze);
    var i := 0;
    assert TextsOf(analyze, map[]) == map[];
    while i < |rows|
      invariant 0 <= i <= |rows|
      invariant fresh(entry) && entry.Valid() && entry.analyze == analyze
      invariant entry.texts == TextsOf(analyze, RowMap(rows[..i]))
    {
      assert rows[..i + 1][..i] == rows[..i];
      NotYet(rows, i);
      IndexFollows(analyze, RowMap(rows[..i]), rows[i].0, rows[i].1);
      Absent(TextsOf(analyze, RowMap(rows[..i])), rows[i].0);
      entry.AddDoc(rows[i].0, rows[i].1);
      i := i + 1;
    }
    assert rows[..i] == rows;
  }

  lemma Absent(texts: Texts, n: DocId)
    requires n !in texts
    ensures texts - {n} == texts
  {
  }

  function RowMap(rows: seq<(DocId, string)>): Stored {
    if rows == [] then map[] else RowMap(rows[..|rows| - 1])[rows[|rows| - 1].0 := rows[|rows| - 1].1]
  }

  lemma {:induction false} RowKeys(rows: seq<(DocId, string)>, n: DocId)
    ensures n in RowMap(rows) <==> exists i :: 0 <= i < |rows| && rows[i].0 == n
  {
    if rows != [] {
      RowKeys(rows[..|rows| - 1], n);
      if i :| 0 <= i < |rows| && rows[i].0 == n && i < |rows| - 1 {
        assert rows[..|rows| - 1][i].0 == n;
      }
    }
  }

  lemma NotYet(rows: seq<(DocId, string)>, i: nat)
    requires i < |rows| && forall i, j :: 0 <= i < j < |rows| ==> rows[i].0 != rows[j].0
    ensures rows[i].0 !in RowMap(rows[..i])
  {
    RowKeys(rows[..i], rows[i].0);
  }

  /** Search a throwaway index of the snapshot. */
  method SearchSnapshot(analyze: string -> seq<Term>, rows: seq<(DocId, string)>, query: string, k: nat,
                        gain: Gain, plus: Plus) returns (hits: seq<Hit>)
    requires forall i, j :: 0 <= i < j < |rows| ==> rows[i].0 != rows[j].0
    ensures IsTop(ScoresOf(TextsOf(analyze, RowMap(rows)), gain, plus, SortDedup(analyze(query))), k, hits)
  {
    var entry := FromSnapshot(analyze, rows);
    hits := entry.Search(query, k, gain, plus);
  }

  /** Take a document out of an index. */
  method Forget(entry: Entry, node: DocId)
    requires entry.Valid()
    modifies entry
    ensures entry.Valid() && entry.texts == old(entry.texts) - {node}
  {
    entry.RemoveDoc(node);
  }

  /** Replace a document's text in an index. */
  method Reindex(entry: Entry, node: DocId, text: string)
    requires entry.Valid()
    modifies entry
    ensures entry.Valid()
    ensures entry.texts == var rest := old(entry.texts) - {node};
                           if entry.analyze(text) == [] then rest else rest[node := entry.analyze(text)]
  {
    entry.RemoveDoc(node);
    entry.AddDoc(node, text);
  }

  /** Take one document out of every entry. */
  method RemoveFromAll(all: set<Entry>, node: DocId)
    requires forall e :: e in all ==> e.Valid()
    modifies all
    ensures forall e :: e in all ==> e.Valid() && e.texts == old(e.texts) - {node}
  {
    var left := all;
    while left != {}
      invariant left <= all
      invariant forall e :: e in all ==> e.Valid() && e.texts == if e in left then old(e.texts) else old(e.texts) - {node}
      decreases left
    {
      var e :| e in left;
      Forget(e, node);
      left := left - {e};
    }
  }

  class Registry {
    var entries: map<IndexKey, Entry>

    ghost predicate Valid()
      reads this, entries.Values
    {
      && (forall k :: k in entries ==> entries[k].Valid())
      && (forall j, k :: j in entries && k in entries && j != k ==> entries[j] != entries[k])
    }

    /** The entry under a key, if there is one. */
    function At(key: IndexKey): set<Entry>
      reads this
    {
      if key in entries then {entries[key]} else {}
    }

    constructor ()
      ensures Valid() && entries == map[]
    {
      entries := map[];
    }

    /** Declare an index and build it from a snapshot. */
    method BuildEntry(key: IndexKey, analyze: string -> seq<Term>, rows: seq<(DocId, string)>)
      requires Valid() && forall i, j :: 0 <= i < j < |rows| ==> rows[i].0 != rows[j].0
      modifies this
      ensures Valid() && key in entries && fresh(entries[key]) && entries == old(entries)[key := entries[key]]
      ensures entries[key].analyze == analyze && entries[key].texts == TextsOf(analyze, RowMap(rows))
    {
      var entry := FromSnapshot(analyze, rows);
      entries := entries[key := entry];
    }

    method Upsert(key: IndexKey, node: DocId, text: string)
      requires Valid()
      modifies At(key)
      ensures Valid()
      ensures key in entries ==>
                entries[key].texts == var rest := old(entries[key].texts) - {node};
                                      var tokens := entries[key].analyze(text);
                                      if tokens == [] then rest else rest[node := tokens]
      ensures forall k :: k in entries && k != key ==> entries[k].texts == old(entries[k].texts)
    {
      if key in entries {
        Reindex(entries[key], node, text);
      }
    }

    method RemoveOne(key: IndexKey, node: DocId)
      requires Valid()
      modifies At(key)
      ensures Valid()
      ensures key in entries ==> entries[key].texts == old(entries[key].texts) - {node}
      ensures forall k :: k in entries && k != key ==> entries[k].texts == old(entries[k].texts)
    {
      if key in entries {
        Forget(entries[key], node);
      }
    }

    method RemoveNode(node: DocId)
      requires Valid()
      modifies entries.Values
      ensures Valid()
      ensures forall k :: k in entries ==> entries[k].texts == old(entries[k].texts) - {node}
    {
      RemoveFromAll(entries.Values, node);
    }

    /** Each index mirrors the texts stored under its key. */
    ghost predicate Mirrors(stored: map<IndexKey, Stored>)
      reads this, entries.Values
    {
      && stored.Keys == entries.Keys
      && forall k :: k in entries ==> entries[k].texts == TextsOf(entries[k].analyze, stored[k])
    }

    method Dispatch(op: Op)
      requires Valid()
      modifies entries.Values
      ensures Valid()
      ensures forall k :: k in entries ==>
                entries[k].texts == AfterOp(entries[k].analyze, op, k, old(entries[k].texts))
    {
      match op {
        case Upsert(key, node, text) => Upsert(key, node, text);
        case RemoveOne(key, node) => RemoveOne(key, node);
        case RemoveNode(node) => RemoveNode(node);
      }
    }

    /** One write keeps every live index mirroring what is stored. */
    method Apply(op: Op, ghost stored: map<IndexKey, Stored>)
      requires Valid() && Mirrors(stored)
      modifies entries.Values
      ensures Valid() && Mirrors(map k | k in stored :: Write(op, k, stored[k]))
    {
      Dispatch(op);
      forall k | k in entries
        ensures entries[k].texts == TextsOf(entries[k].analyze, Write(op, k, stored[k]))
      {
        OpFollows(entries[k].analyze, op, k, stored[k]);
      }
    }

    /** After any run of writes every live index still mirrors what is stored. */
    method Run(ops: seq<Op>, ghost stored: map<IndexKey, Stored>)
      requires Valid() && Mirrors(stored)
      modifies entries.Values
      ensures Valid() && Mirrors(StoredAfter(ops, stored))
    {
      var i := 0;
      assert StoredAfter(ops[..0], stored) == stored;
      while i < |ops|
        invariant 0 <= i <= |ops| && Valid() && entries == old(entries)
        invariant Mirrors(StoredAfter(ops[..i], stored))
      {
        StoredNext(ops, i, stored);
        Apply(ops[i], StoredAfter(ops[..i], stored));
        i := i + 1;
      }
      assert ops[..i] == ops;
    }

    /** After any run of writes, searching the live index and searching a throwaway one built from the
        rows now stored answer the same, hit for hit. */
    method RunThenSearchBoth(ops: seq<Op>, ghost stored: map<IndexKey, Stored>, key: IndexKey, rows: seq<(DocId, string)>,
                             query: string, k: nat, gain: Gain, plus: Plus) returns (live: seq<Hit>, rebuilt: seq<Hit>)
      requires Valid() && Mirrors(stored) && key in stored
      requires forall i, j :: 0 <= i < j < |rows| ==> rows[i].0 != rows[j].0
      requires RowMap(rows) == WriteAll(ops, key, stored[key])
      modifies entries.Values
      ensures Valid() && Mirrors(StoredAfter(ops, stored)) && live == rebuilt
      ensures IsTop(ScoresOf(entries[key].texts, gain, plus, SortDedup(entries[key].analyze(query))), k, live)
      ensures var texts := TextsOf(entries[key].analyze, RowMap(rows));
              IsTop(ScoresOf(texts, gain, plus, SortDedup(entries[key].analyze(query))), k, rebuilt)
    {
      Run(ops, stored);
      live := entries[key].Search(query, k, gain, plus);
      rebuilt := SearchSnapshot(entries[key].analyze, rows, query, k, gain, plus);
      TopIsUnique(ScoresOf(entries[key].texts, gain, plus, SortDedup(entries[key].analyze(query))), k, live, rebuilt);
    }

    /** After any run of writes the live index is, up to order, the one built from the rows now stored. */
    method RunThenRebuild(ops: seq<Op>, ghost stored: map<IndexKey, Stored>, key: IndexKey, rows: seq<(DocId, string)>)
      returns (rebuilt: Entry)
      requires Valid() && Mirrors(stored) && key in stored
      requires forall i, j :: 0 <= i < j < |rows| ==> rows[i].0 != rows[j].0
      requires RowMap(rows) == WriteAll(ops, key, stored[key])
      modifies entries.Values
      ensures Valid() && Mirrors(StoredAfter(ops, stored))
      ensures fresh(rebuilt) && rebuilt.Valid() && rebuilt.texts == TextsOf(entries[key].analyze, RowMap(rows))
      ensures SameUpToOrder(entries[key].Snapshot(), rebuilt.Snapshot())
    {
      Run(ops, stored);
      rebuilt := FromSnapshot(entries[key].analyze, rows);
      SameTextsSameIndex(entries[key].Snapshot(), rebuilt.Snapshot(), rebuilt.texts);
    }
  }

  /** What is stored under every key after a run of writes. */
  ghost function StoredAfter(ops: seq<Op>, stored: map<IndexKey, Stored>): map<IndexKey, Stored> {
    map k | k in stored :: WriteAll(ops, k, stored[k])
  }

  lemma StoredNext(ops: seq<Op>, i: nat, stored: map<IndexKey, Stored>)
    requires i < |ops|
    ensures StoredAfter(ops[..i + 1], stored)
         == map k | k in StoredAfter(ops[..i], stored) :: Write(ops[i], k, StoredAfter(ops[..i], stored)[k])
  {
    assert ops[..i + 1][..i] == ops[..i];
  }

  function AfterOp(analyze: string -> seq<Term>, op: Op, key: IndexKey, texts: Texts): Texts {
    match op
    case Upsert(k, node, text) =>
      if k != key then texts
      else if analyze(text) == [] then texts - {node}
      else (texts - {node})[node := analyze(text)]
    case RemoveOne(k, node) => if k == key then texts - {node} else texts
    case RemoveNode(node) => texts - {node}
  }

  lemma OpFollows(analyze: string -> seq<Term>, op: Op, key: IndexKey, stored: Stored)
    ensures AfterOp(analyze, op, key, TextsOf(analyze, stored)) == TextsOf(analyze, Write(op, key, stored))
  {
    match op
    case Upsert(k, node, text) => IndexFollows(analyze, stored, node, text);
    case RemoveOne(k, node) => IndexFollows(analyze, stored, node, "");
    case RemoveNode(node) => IndexFollows(analyze, stored, node, "");
  }

  /** An index kept up to date by any run of writes is, up to posting order, the one a rebuild over what
      is now stored makes, and whatever a search answers on either is the same ranked list: scores are
      added in the query's order, so it does not matter that adding them is not associative. */
  lemma LiveAgreesWithSnapshot(live: Index, rebuilt: Index, texts: Texts, gain: Gain, plus: Plus, qterms: seq<Term>,
                               k: nat, a: seq<Hit>, b: seq<Hit>)
    requires Represents(live, texts) && Represents(rebuilt, texts)
    requires IsTop(ScoresOf(texts, gain, plus, qterms), k, a) && IsTop(ScoresOf(texts, gain, plus, qterms), k, b)
    ensures SameUpToOrder(live, rebuilt) && a == b
  {
    SameTextsSameIndex(live, rebuilt, texts);
    TopIsUnique(ScoresOf(texts, gain, plus, qterms), k, a, b);
  }
}
