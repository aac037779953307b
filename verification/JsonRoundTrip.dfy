/** What is written in the JSON dialect reads back as itself, at any depth and under any keys. */
module JsonRoundTrip {
  import opened Collections
  import opened PropJson

  /** Every float anywhere in the value is one JSON can hold. */
  ghost predicate AllFinite(v: PropValue)
    decreases v
  {
    match v
    case Float64(f) => f.Finite?
    case Vector(fs) => forall i :: 0 <= i < |fs| ==> fs[i].Finite?
    case List(items) => forall i :: 0 <= i < |items| ==> AllFinite(items[i])
    case Map(m) => forall k :: k in m ==> AllFinite(m[k].value)
    case _ => true
  }

  lemma {:induction false} VectorReadsBack(c: Casts, fs: seq<Float>)
    requires c.Lossless()
    ensures JsonToValue(c, ValueToJson(c, Vector(fs))) == Some(Vector(fs)) <==> AllFinite(Vector(fs))
  {
    var a := seq(|fs|, i requires 0 <= i < |fs| => FloatToJson(c.widen(fs[i])));
    assert ValueToJson(c, Vector(fs)) == JObj(map["$vector" := JArr(a)]);
    forall i | 0 <= i < |fs|
      ensures AsF64(c, a[i]).Some? <==> fs[i].Finite?
      ensures fs[i].Finite? ==> c.narrow(AsF64(c, a[i]).value) == fs[i]
    {
    }
    if AllFinite(Vector(fs)) {
      assert JsonToFloats(c, JArr(a)).value == fs;
    } else {
      var i :| 0 <= i < |fs| && !fs[i].Finite?;
      assert AsF64(c, JArr(a).items[i]).None?;
    }
  }

  lemma {:induction false} BytesReadBack(c: Casts, bytes: seq<U8>)
    ensures JsonToValue(c, ValueToJson(c, Bytes(bytes))) == Some(Bytes(bytes))
  {
    var a := seq(|bytes|, i requires 0 <= i < |bytes| => JNum(PosInt(bytes[i])));
    assert ValueToJson(c, Bytes(bytes)) == JObj(map["$bytes" := JArr(a)]);
    assert JsonToBytes(JArr(a)).value == bytes;
  }

  /** No encoded value can be taken for a described property. */
  lemma NeverDescribed(c: Casts, v: PropValue)
    ensures ValueToJson(c, v).JObj? ==> "$value" !in ValueToJson(c, v).fields
  {
    if v.Map? && !exists k :: k in v.entries && Escapes(k) {
      assert !("$value" in v.entries && Escapes("$value"));
    }
  }

  /** Every value reads back as itself exactly when its floats are all finite; the keys do not matter. */
  lemma {:induction false} ValueReadsBack(c: Casts, v: PropValue)
    requires c.Lossless()
    ensures JsonToValue(c, ValueToJson(c, v)) == Some(v) <==> AllFinite(v)
    decreases v, 1
  {
    match v
    case Vector(fs) => VectorReadsBack(c, fs);
    case Bytes(bytes) => BytesReadBack(c, bytes);
    case List(items) => ListReadsBack(c, v);
    case Map(m) => MapReadsBack(c, v);
    case _ =>
  }

  lemma {:induction false} ListReadsBack(c: Casts, v: PropValue)
    requires c.Lossless() && v.List?
    ensures JsonToValue(c, ValueToJson(c, v)) == Some(v) <==> AllFinite(v)
    decreases v, 0
  {
    var a := ValueToJson(c, v).items;
    forall i | 0 <= i < |v.items|
      ensures JsonToValue(c, a[i]) == Some(v.items[i]) <==> AllFinite(v.items[i])
    {
      ValueReadsBack(c, v.items[i]);
    }
    var back := JsonToValue(c, JArr(a));
    if AllFinite(v) {
      assert back.value.items == v.items;
    } else {
      var i :| 0 <= i < |v.items| && !AllFinite(v.items[i]);
      if back.Some? {
        assert JsonToValue(c, a[i]) == Some(back.value.items[i]);
      }
    }
  }

  /** An object whose fields are described properties reads back as their map. */
  lemma {:induction false} FieldsReadBack(c: Casts, m: Properties)
    requires forall k :: k in m ==> (JsonToDesc(c, DescToJson(c, m[k])) == Some(m[k]) <==> AllFinite(m[k].value))
    ensures ObjectToMap(c, PropertiesToJson(c, m)) == Some(Map(m)) <==> AllFinite(Map(m))
  {
    var obj := PropertiesToJson(c, m);
    var back := ObjectToMap(c, obj);
    assert forall k :: k in m ==> obj.fields[k] == DescToJson(c, m[k]);
    if AllFinite(Map(m)) {
      assert back.Some? && back.value.entries == m;
    } else {
      var k :| k in m && !AllFinite(m[k].value);
      if back.Some? {
        assert JsonToDesc(c, obj.fields[k]) == Some(back.value.entries[k]);
      }
    }
  }

  lemma {:induction false} MapReadsBack(c: Casts, v: PropValue)
    requires c.Lossless() && v.Map?
    ensures JsonToValue(c, ValueToJson(c, v)) == Some(v) <==> AllFinite(v)
    decreases v, 0
  {
    forall k | k in v.entries
      ensures JsonToDesc(c, DescToJson(c, v.entries[k])) == Some(v.entries[k]) <==> AllFinite(v.entries[k].value)
    {
      DescReadsBack(c, v.entries[k]);
    }
    FieldsReadBack(c, v.entries);
    EscapedMap(c, v.entries);
  }

  /** Whether or not the map travels in its own escape, it is read as the map it is. */
  lemma EscapedMap(c: Casts, m: Properties)
    ensures JsonToValue(c, ValueToJson(c, Map(m))) == ObjectToMap(c, PropertiesToJson(c, m))
  {
    var obj := PropertiesToJson(c, m);
    if exists k :: k in m && Escapes(k) {
      assert ValueToJson(c, Map(m)) == JObj(map["$map" := obj]);
    } else {
      assert ValueToJson(c, Map(m)) == obj;
      assert forall k :: k in obj.fields ==> k in m && !Escapes(k);
      assert Escapes("$vector") && Escapes("$bytes") && Escapes("$map");
    }
  }

  lemma {:induction false} DescReadsBack(c: Casts, p: PropDesc)
    requires c.Lossless()
    ensures JsonToDesc(c, DescToJson(c, p)) == Some(p) <==> AllFinite(p.value)
    decreases p
  {
    ValueReadsBack(c, p.value);
    NeverDescribed(c, p.value);
  }

  /** Two finite values written alike are the same value. */
  lemma EncodingIsInjective(c: Casts, a: PropValue, b: PropValue)
    requires c.Lossless() && AllFinite(a) && AllFinite(b) && ValueToJson(c, a) == ValueToJson(c, b)
    ensures a == b
  {
    ValueReadsBack(c, a);
    ValueReadsBack(c, b);
  }

  lemma DescEncodingIsInjective(c: Casts, a: PropDesc, b: PropDesc)
    requires c.Lossless() && AllFinite(a.value) && AllFinite(b.value) && DescToJson(c, a) == DescToJson(c, b)
    ensures a == b
  {
    DescReadsBack(c, a);
    DescReadsBack(c, b);
  }

  /** A float JSON cannot hold reads back as null: the round trip loses it. */
  lemma NonFiniteIsLost(c: Casts, bits: int)
    ensures JsonToValue(c, ValueToJson(c, Float64(NonFinite(bits)))) == Some(Null)
  {
  }

  // ---- what numbers decode to -------------------------------------------------------

  /** A whole number is read as it is written when it fits in 64 signed bits, and refused above that. */
  lemma IntegersDecode(c: Casts, n: U64, i: I64)
    ensures JsonToValue(c, JNum(PosInt(n))) == if n <= 0x7FFF_FFFF_FFFF_FFFF then Some(Int(n)) else None
    ensures JsonToValue(c, JNum(NegInt(i))) == Some(Int(i))
  {
  }

  /** Whole numbers in a vector are the floats nearest them, whichever way they are tagged. */
  lemma VectorOfIntegers(c: Casts, ns: seq<Number>)
    requires forall i :: 0 <= i < |ns| ==> ns[i].PosInt? || ns[i].NegInt?
    ensures var v := JsonToValue(c, JObj(map["$vector" := JArr(seq(|ns|, i requires 0 <= i < |ns| => JNum(ns[i])))]));
            && v.Some? && v.value.Vector? && |v.value.floats| == |ns|
            && forall i :: 0 <= i < |ns| ==>
                 v.value.floats[i] == c.narrow(c.ofInt(match ns[i] case PosInt(n) => n case NegInt(n) => n case Flt(_) => 0))
  {
    var a := JArr(seq(|ns|, i requires 0 <= i < |ns| => JNum(ns[i])));
    forall i | 0 <= i < |ns|
      ensures AsF64(c, a.items[i]) == Some(c.ofInt(match ns[i] case PosInt(n) => n case NegInt(n) => n case Flt(_) => 0))
    {
    }
  }

  /** Bytes are whole numbers of 0 to 255 and nothing else. */
  lemma BytesDecode(c: Casts, items: seq<Json>)
    ensures JsonToValue(c, JObj(map["$bytes" := JArr(items)])).Some? <==>
            forall i :: 0 <= i < |items| ==> items[i].JNum? && items[i].num.PosInt? && items[i].num.n <= 255
    ensures forall bytes: seq<U8> :: JsonToValue(c, JObj(map["$bytes" := JArr(items)])) == Some(Bytes(bytes)) ==>
              |bytes| == |items| && forall i :: 0 <= i < |items| ==>
                items[i].JNum? && items[i].num.PosInt? && items[i].num.n == bytes[i]
  {
    forall i | 0 <= i < |items|
      ensures AsByte(items[i]).Some? <==> items[i].JNum? && items[i].num.PosInt? && items[i].num.n <= 255
    {
    }
  }
}
