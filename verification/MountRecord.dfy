/** The mount list as it is written down on the host's startup plane. */
module MountRecord {
  import opened Collections
  import opened PropJson

  /** A mount as it is written down: enough to open it again. */
  datatype Remembered = Remembered(name: string, path: string, prefixed: bool)

  const MOUNTS := "mounts"

  const WHAT_IT_IS := "the databases this process also serves"

  function Plain(v: PropValue): PropDesc {
    PropDesc(None, v)
  }

  function ToProp(r: Remembered): PropValue {
    var m := map["name" := Plain(Str(r.name)), "path" := Plain(Str(r.path))];
    Map(if r.prefixed then m["prefixed" := Plain(Bool(true))] else m)
  }

  /** A non-empty text under `key`. */
  function Text(m: Properties, key: string): Option<string> {
    if key in m && m[key].value.Str? && m[key].value.s != "" then Some(m[key].value.s) else None
  }

  function FromProp(v: PropValue): Option<Remembered> {
    if !v.Map? || Text(v.entries, "name").None? || Text(v.entries, "path").None? then None
    else
      var prefixed := "prefixed" in v.entries && v.entries["prefixed"].value == Bool(true);
      Some(Remembered(Text(v.entries, "name").value, Text(v.entries, "path").value, prefixed))
  }

  function FromProps(items: seq<PropValue>): seq<Remembered> {
    if items == [] then []
    else
      var rest := FromProps(items[1..]);
      var one := FromProp(items[0]);
      if one.Some? then [one.value] + rest else rest
  }

  function ToProps(have: seq<Remembered>): (r: seq<PropValue>)
    ensures |r| == |have| && forall i :: 0 <= i < |have| ==> r[i] == ToProp(have[i])
  {
    seq(|have|, i requires 0 <= i < |have| => ToProp(have[i]))
  }

  function Read(props: Properties): seq<Remembered> {
    if MOUNTS in props && props[MOUNTS].value.List? then FromProps(props[MOUNTS].value.items) else []
  }

  function Write(props: Properties, have: seq<Remembered>): Properties {
    props[MOUNTS := PropDesc(Some(WHAT_IT_IS), List(ToProps(have)))]
  }

  /** Replace the record of the same name, or add one. */
  function Remember(have: seq<Remembered>, rec: Remembered): seq<Remembered> {
    if have == [] then [rec]
    else if have[0].name == rec.name then [rec] + have[1..]
    else [have[0]] + Remember(have[1..], rec)
  }

  function Forget(have: seq<Remembered>, name: string): seq<Remembered> {
    if have == [] then []
    else
      var rest := Forget(have[1..], name);
      if have[0].name == name then rest else [have[0]] + rest
  }

  /** A record names a mount and a path. */
  ghost predicate Writable(have: seq<Remembered>) {
    forall r :: r in have ==> r.name != "" && r.path != ""
  }

  lemma PropReadsBack(r: Remembered)
    requires r.name != "" && r.path != ""
    ensures FromProp(ToProp(r)) == Some(r)
  {
  }

  lemma {:induction false} PropsReadBack(have: seq<Remembered>)
    requires Writable(have)
    ensures FromProps(ToProps(have)) == have
  {
    if have != [] {
      assert ToProps(have)[1..] == ToProps(have[1..]);
      assert have[0] in have;
      PropReadsBack(have[0]);
      PropsReadBack(have[1..]);
    }
  }

  /** What is written is what is read, and nothing else on the plane changes. */
  lemma RecordReadsBack(props: Properties, have: seq<Remembered>)
    requires Writable(have)
    ensures Read(Write(props, have)) == have
    ensures forall k :: k != MOUNTS ==> (k in Write(props, have) <==> k in props)
    ensures forall k :: k != MOUNTS && k in props ==> Write(props, have)[k] == props[k]
  {
    PropsReadBack(have);
  }

  /** Remembering a name not yet recorded adds it at the end. */
  lemma {:induction false} RememberNew(have: seq<Remembered>, rec: Remembered)
    requires forall r :: r in have ==> r.name != rec.name
    ensures Remember(have, rec) == have + [rec]
  {
    if have != [] {
      assert have[0] in have;
      RememberNew(have[1..], rec);
      assert have == [have[0]] + have[1..];
    }
  }

  lemma {:induction false} ForgetConcat(a: seq<Remembered>, b: seq<Remembered>, name: string)
    ensures Forget(a + b, name) == Forget(a, name) + Forget(b, name)
  {
    if a == [] {
      assert a + b == b;
    } else {
      ForgetConcat(a[1..], b, name);
      assert (a + b)[1..] == a[1..] + b;
      var one := if a[0].name == name then [] else [a[0]];
      assert one + (Forget(a[1..], name) + Forget(b, name)) == (one + Forget(a[1..], name)) + Forget(b, name);
    }
  }

  lemma ForgetBetween(a: seq<Remembered>, m: seq<Remembered>, b: seq<Remembered>, name: string)
    requires Forget(a, name) == a && Forget(b, name) == b
    requires |m| <= 1 && forall i :: 0 <= i < |m| ==> m[i].name == name
    ensures Forget((a + m) + b, name) == a + b
  {
    ForgetConcat(a + m, b, name);
    ForgetConcat(a, m, name);
    assert Forget(m, name) == [];
    assert a + [] == a;
  }

  lemma {:induction false} ForgetAbsent(have: seq<Remembered>, name: string)
    requires forall r :: r in have ==> r.name != name
    ensures Forget(have, name) == have
  {
    if have != [] {
      assert have[0] in have;
      ForgetAbsent(have[1..], name);
    }
  }

  // ---- what forgetting and remembering leave, of any record --------------------------

  /** Everything read is a record that could have been written. */
  lemma {:induction false} ReadWritable(items: seq<PropValue>)
    ensures Writable(FromProps(items))
  {
    if items != [] {
      ReadWritable(items[1..]);
    }
  }

  /** `ix` is where the records of other names stand in `have`, and `left` is those records. */
  ghost predicate StandAt(have: seq<Remembered>, name: string, left: seq<Remembered>, ix: seq<nat>) {
    && |ix| == |left|
    && (forall j :: 0 <= j < |ix| ==> ix[j] < |have| && left[j] == have[ix[j]] && left[j].name != name)
    && (forall i, j :: 0 <= i < j < |ix| ==> ix[i] < ix[j])
    && (forall i :: 0 <= i < |have| && have[i].name != name ==> i in ix)
  }

  /** `left` is `have` without the records of one name, the others in the order they had. */
  ghost predicate AreOthers(have: seq<Remembered>, name: string, left: seq<Remembered>) {
    exists ix :: StandAt(have, name, left, ix)
  }

  lemma StandOn(have: seq<Remembered>, name: string, left: seq<Remembered>, ix: seq<nat>, r: Remembered)
    requires StandAt(have, name, left, ix)
    ensures r.name != name ==> StandAt(have + [r], name, left + [r], ix + [|have|])
    ensures r.name == name ==> StandAt(have + [r], name, left, ix)
  {
    var more := ix + [|have|];
    assert more[|ix|] == |have|;
    assert forall i :: i in ix ==> i in more;
  }

  lemma {:induction false} ForgetLeavesOthers(have: seq<Remembered>, name: string) returns (ix: seq<nat>)
    ensures StandAt(have, name, Forget(have, name), ix)
  {
    if have == [] {
      ix := [];
    } else {
      var init, r := have[..|have| - 1], have[|have| - 1];
      var before := ForgetLeavesOthers(init, name);
      assert have == init + [r];
      ForgetConcat(init, [r], name);
      StandOn(init, name, Forget(init, name), before, r);
      ix := if r.name != name then before + [|init|] else before;
      assert r.name == name ==> Forget(init, name) + [] == Forget(init, name);
    }
  }

  /** `now` is `have` with `rec` in place of the first record of its name, or after all when there is none. */
  ghost predicate IsRemembered(have: seq<Remembered>, rec: Remembered, now: seq<Remembered>) {
    || (exists i: nat :: FirstOfName(have, rec.name, i) && now == have[i := rec])
    || ((forall r :: r in have ==> r.name != rec.name) && now == have + [rec])
  }

  ghost predicate FirstOfName(have: seq<Remembered>, name: string, i: nat) {
    i < |have| && have[i].name == name && forall j :: 0 <= j < i ==> have[j].name != name
  }

  lemma {:induction false} RememberReplaces(have: seq<Remembered>, rec: Remembered)
    ensures IsRemembered(have, rec, Remember(have, rec))
  {
    if have != [] && have[0].name != rec.name {
      RememberReplaces(have[1..], rec);
      assert have == [have[0]] + have[1..];
      if i: nat :| FirstOfName(have[1..], rec.name, i) && Remember(have[1..], rec) == have[1..][i := rec] {
        assert forall j :: 0 < j < i + 1 ==> have[j] == have[1..][j - 1];
        assert FirstOfName(have, rec.name, i + 1) && Remember(have, rec) == have[i + 1 := rec];
      } else {
        assert Remember(have, rec) == have + [rec];
      }
    } else if have != [] {
      assert FirstOfName(have, rec.name, 0) && Remember(have, rec) == have[0 := rec];
    }
  }

  lemma {:induction false} RememberWritable(have: seq<Remembered>, rec: Remembered)
    requires Writable(have) && rec.name != "" && rec.path != ""
    ensures Writable(Remember(have, rec))
  {
    if have != [] {
      assert have[0] in have;
      RememberWritable(have[1..], rec);
    }
  }

  lemma {:induction false} ForgetWritable(have: seq<Remembered>, name: string)
    requires Writable(have)
    ensures Writable(Forget(have, name))
  {
    if have != [] {
      assert have[0] in have;
      ForgetWritable(have[1..], name);
    }
  }

  /** No property but the record changes. */
  ghost predicate OnlyRecord(before: Properties, after: Properties) {
    forall k :: k != MOUNTS ==> (k in after <==> k in before) && (k in before ==> after[k] == before[k])
  }

  /** Whatever was written, forgetting a name leaves every other record, in order, and nothing of that name. */
  lemma Forgotten(props: Properties, name: string)
    ensures var after := Write(props, Forget(Read(props), name));
            AreOthers(Read(props), name, Read(after)) && OnlyRecord(props, after)
  {
    if MOUNTS in props && props[MOUNTS].value.List? {
      ReadWritable(props[MOUNTS].value.items);
    }
    ForgetWritable(Read(props), name);
    RecordReadsBack(props, Forget(Read(props), name));
    var ix := ForgetLeavesOthers(Read(props), name);
  }

  /** Whatever was written, remembering puts the record in its name's place, and leaves every other. */
  lemma Written(props: Properties, rec: Remembered)
    requires rec.name != "" && rec.path != ""
    ensures var after := Write(props, Remember(Read(props), rec));
            IsRemembered(Read(props), rec, Read(after)) && OnlyRecord(props, after)
  {
    if MOUNTS in props && props[MOUNTS].value.List? {
      ReadWritable(props[MOUNTS].value.items);
    }
    RememberWritable(Read(props), rec);
    RecordReadsBack(props, Remember(Read(props), rec));
    RememberReplaces(Read(props), rec);
  }
}
