/** Nodes in the JSON dialect: the full form, the lean form that leaves vectors out, and what reads back. */
module NodeJson {
  import opened Collections
  import opened Decimals
  import opened PropJson
  import opened JsonRoundTrip

  datatype NodeRecord = NodeRecord(id: U64, plane: nat, externalKey: Option<string>,
                                   labels: seq<string>, properties: Properties)

  const MAX_USIZE: nat := 0xFFFF_FFFF_FFFF_FFFF

  const MARKER_HEAD := "$vector("
  const MARKER_TAIL := " dims, omitted)"

  function Marker(dims: nat): string {
    MARKER_HEAD + Print(dims) + MARKER_TAIL
  }

  /** Whether `s` is a marker: a head, a tail, and between them a number that fits. */
  predicate IsMarker(s: string) {
    && |MARKER_HEAD| <= |s| && s[..|MARKER_HEAD|] == MARKER_HEAD
    && var rest := s[|MARKER_HEAD|..];
       |MARKER_TAIL| <= |rest| && rest[|rest| - |MARKER_TAIL|..] == MARKER_TAIL
       && Parse(rest[..|rest| - |MARKER_TAIL|], MAX_USIZE).Some?
  }

  /** Every marker written is recognised. */
  lemma MarkersAreMarkers(dims: nat)
    requires dims <= MAX_USIZE
    ensures IsMarker(Marker(dims))
  {
    var s := Marker(dims);
    var rest := s[|MARKER_HEAD|..];
    assert rest == Print(dims) + MARKER_TAIL;
    assert rest[..|rest| - |MARKER_TAIL|] == Print(dims);
    ParsePrint(dims, MAX_USIZE);
  }

  function LeanDescToJson(c: Casts, p: PropDesc): Json {
    if p.value.Vector? then JStr(Marker(|p.value.floats|)) else DescToJson(c, p)
  }

  function LeanPropertiesToJson(c: Casts, m: Properties): Json {
    JObj(map k | k in m :: LeanDescToJson(c, m[k]))
  }

  function NodeObject(n: NodeRecord, properties: Json): Json {
    var labels := JArr(seq(|n.labels|, i requires 0 <= i < |n.labels| => JStr(n.labels[i])));
    var obj := map["id" := JNum(PosInt(n.id)), "labels" := labels, "properties" := properties];
    JObj(if n.externalKey.Some? then obj["external_key" := JStr(n.externalKey.value)] else obj)
  }

  function NodeToJson(c: Casts, n: NodeRecord): Json {
    NodeObject(n, PropertiesToJson(c, n.properties))
  }

  function NodeToJsonLean(c: Casts, n: NodeRecord): Json {
    NodeObject(n, LeanPropertiesToJson(c, n.properties))
  }

  function JsonToProperties(c: Casts, v: Json): Option<Properties> {
    if v.JObj? && forall k :: k in v.fields ==> JsonToDesc(c, v.fields[k]).Some?
    then Some(map k | k in v.fields :: JsonToDesc(c, v.fields[k]).value)
    else None
  }

  predicate OmittedVector(v: PropValue) {
    v.Str? && IsMarker(v.s)
  }

  /** Drop the properties a lean reply replaced with a marker. */
  function WithoutMarkers(m: Properties): Properties {
    map k | k in m && !OmittedVector(m[k].value) :: m[k]
  }

  function WithoutVectors(m: Properties): Properties {
    map k | k in m && !m[k].value.Vector? :: m[k]
  }

  function JsonToLabels(o: map<string, Json>): Option<seq<string>> {
    if "labels" !in o || o["labels"].JNull? then Some([])
    else if o["labels"].JArr? && forall i :: 0 <= i < |o["labels"].items| ==> o["labels"].items[i].JStr? then
      Some(seq(|o["labels"].items|, i requires 0 <= i < |o["labels"].items| => o["labels"].items[i].s))
    else None
  }

  function JsonToNode(c: Casts, v: Json, plane: nat): Option<NodeRecord> {
    if !v.JObj? || "id" !in v.fields || !v.fields["id"].JNum? || !v.fields["id"].num.PosInt? then None
    else
      var o := v.fields;
      var labels := JsonToLabels(o);
      var properties :=
        if "properties" !in o || o["properties"].JNull? then Some(map[]) else JsonToProperties(c, o["properties"]);
      if labels.None? || properties.None? then None
      else
        var key := if "external_key" in o then AsStr(o["external_key"]) else None;
        Some(NodeRecord(o["id"].num.n, plane, key, labels.value, WithoutMarkers(properties.value)))
  }

  ghost predicate FiniteProperties(m: Properties) {
    forall k :: k in m ==> AllFinite(m[k].value)
  }

  /** A node object reads back as the node, with whatever its properties read back as. */
  lemma NodeObjectReadsBack(c: Casts, n: NodeRecord, properties: Json, back: Properties)
    requires properties.JObj? && JsonToProperties(c, properties) == Some(back)
    ensures JsonToNode(c, NodeObject(n, properties), n.plane) == Some(n.(properties := WithoutMarkers(back)))
  {
    var o := NodeObject(n, properties).fields;
    assert JsonToLabels(o).value == n.labels;
  }

  lemma PropertiesReadBack(c: Casts, m: Properties)
    requires c.Lossless() && FiniteProperties(m)
    ensures JsonToProperties(c, PropertiesToJson(c, m)) == Some(m)
  {
    var obj := PropertiesToJson(c, m);
    forall k | k in m
      ensures JsonToDesc(c, obj.fields[k]) == Some(m[k])
    {
      DescReadsBack(c, m[k]);
    }
    assert JsonToProperties(c, obj).value == m;
  }

  /** The full form reads back as the node less the properties whose text is a marker; so as the
      whole node exactly when it has none. */
  lemma NodeReadsBack(c: Casts, n: NodeRecord)
    requires c.Lossless() && FiniteProperties(n.properties)
    ensures JsonToNode(c, NodeToJson(c, n), n.plane) == Some(n.(properties := WithoutMarkers(n.properties)))
    ensures JsonToNode(c, NodeToJson(c, n), n.plane) == Some(n)
       <==> forall k :: k in n.properties ==> !OmittedVector(n.properties[k].value)
  {
    PropertiesReadBack(c, n.properties);
    NodeObjectReadsBack(c, n, PropertiesToJson(c, n.properties), n.properties);
    if forall k :: k in n.properties ==> !OmittedVector(n.properties[k].value) {
      assert WithoutMarkers(n.properties) == n.properties;
    } else {
      var k :| k in n.properties && OmittedVector(n.properties[k].value);
      assert k !in WithoutMarkers(n.properties);
    }
  }

  /** What the lean properties read as: every vector is its marker's text, all else itself. */
  function Marked(m: Properties): Properties {
    map k | k in m :: if m[k].value.Vector? then PropDesc(None, Str(Marker(|m[k].value.floats|))) else m[k]
  }

  lemma LeanPropertiesReadBack(c: Casts, m: Properties)
    requires c.Lossless() && FiniteProperties(WithoutVectors(m))
    ensures JsonToProperties(c, LeanPropertiesToJson(c, m)) == Some(Marked(m))
  {
    var obj := LeanPropertiesToJson(c, m);
    forall k | k in m
      ensures JsonToDesc(c, obj.fields[k]) == Some(Marked(m)[k])
    {
      if !m[k].value.Vector? {
        assert k in WithoutVectors(m);
        DescReadsBack(c, m[k]);
      }
    }
    assert JsonToProperties(c, obj).value == Marked(m);
  }

  /** The lean form reads back as the node less exactly its vectors (and marker-like text), whatever
      the vectors held. */
  lemma LeanNodeReadsBack(c: Casts, n: NodeRecord)
    requires c.Lossless() && FiniteProperties(WithoutVectors(n.properties))
    requires forall k :: k in n.properties && n.properties[k].value.Vector? ==>
               |n.properties[k].value.floats| <= MAX_USIZE
    ensures JsonToNode(c, NodeToJsonLean(c, n), n.plane)
         == Some(n.(properties := WithoutMarkers(WithoutVectors(n.properties))))
    ensures JsonToNode(c, NodeToJsonLean(c, n), n.plane) == Some(n.(properties := WithoutVectors(n.properties)))
       <==> forall k :: k in n.properties ==> !OmittedVector(n.properties[k].value)
  {
    var m := n.properties;
    LeanPropertiesReadBack(c, m);
    NodeObjectReadsBack(c, n, LeanPropertiesToJson(c, m), Marked(m));
    MarkedVectorsDrop(m);
    LeanIsWhole(m);
  }

  lemma MarkedVectorsDrop(m: Properties)
    requires forall k :: k in m && m[k].value.Vector? ==> |m[k].value.floats| <= MAX_USIZE
    ensures WithoutMarkers(Marked(m)) == WithoutMarkers(WithoutVectors(m))
  {
    forall k | k in m && m[k].value.Vector?
      ensures OmittedVector(Marked(m)[k].value)
    {
      MarkersAreMarkers(|m[k].value.floats|);
    }
  }

  lemma LeanIsWhole(m: Properties)
    ensures WithoutMarkers(WithoutVectors(m)) == WithoutVectors(m) <==>
            forall k :: k in m ==> !OmittedVector(m[k].value)
  {
    if forall k :: k in m ==> !OmittedVector(m[k].value) {
      assert WithoutMarkers(WithoutVectors(m)) == WithoutVectors(m);
    } else {
      var k :| k in m && OmittedVector(m[k].value);
      assert k in WithoutVectors(m) && k !in WithoutMarkers(WithoutVectors(m));
    }
  }

  /** A marker is `$vector(`, a number that fits, ` dims, omitted)`, and nothing else is. */
  lemma MarkerIff(s: string)
    ensures IsMarker(s) <==>
            exists number :: s == "$vector(" + number + " dims, omitted)" && Parse(number, MAX_USIZE).Some?
  {
    if IsMarker(s) {
      var rest := s[|MARKER_HEAD|..];
      var number := rest[..|rest| - |MARKER_TAIL|];
      assert rest == number + MARKER_TAIL && s == MARKER_HEAD + rest;
      assert s == "$vector(" + number + " dims, omitted)";
    }
    if number :| s == "$vector(" + number + " dims, omitted)" && Parse(number, MAX_USIZE).Some? {
      var rest := s[|MARKER_HEAD|..];
      assert rest == number + MARKER_TAIL && rest[..|rest| - |MARKER_TAIL|] == number;
    }
  }

  /** A node needs an id and nothing else. */
  lemma NodeNeedsOnlyId(c: Casts, id: U64, plane: nat, fields: map<string, Json>)
    ensures JsonToNode(c, JObj(map["id" := JNum(PosInt(id))]), plane) == Some(NodeRecord(id, plane, None, [], map[]))
    ensures "id" !in fields ==> JsonToNode(c, JObj(fields), plane).None?
  {
    var none: Properties := map[];
    assert WithoutMarkers(none) == none;
  }
}
