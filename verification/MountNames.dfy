/** What the mount table's names mean: which are listed, which resolve, and to what. */
module MountNames {
  import opened Collections
  import opened Mounts

  // ---- listing and resolving ---------------------------------------------------

  lemma AnswersItsOwn(w: World, m: Mount, x: string)
    requires w.Valid() && IsMountOf(w, m) && x != SKIPPED && m.store.Holds(x)
    ensures ServedName(m.name, m.prefixed, x) in m.planes
    ensures m.Answers(ServedName(m.name, m.prefixed, x)) <==> !(m.prefixed && x == "")
    ensures !(m.prefixed && x == "") ==> m.Serves(ServedName(m.name, m.prefixed, x)) == Some(x)
  {
    var i :| 0 <= i < |m.store.planes| && m.store.planes[i].name == x;
    ServedNamesIff(m.name, m.prefixed, m.store.planes, ServedName(m.name, m.prefixed, x));
    if m.prefixed {
      assert (m.name + PREFIX_SEP + x)[|m.name + PREFIX_SEP|..] == x;
    }
  }

  /** Every listed name is some plane's own name, prefixed when the mount is. */
  lemma ListedIsOwn(w: World, m: Mount, p: string) returns (x: string)
    requires w.Valid() && IsMountOf(w, m) && p in m.planes
    ensures x != SKIPPED && m.store.Holds(x) && p == ServedName(m.name, m.prefixed, x)
  {
    ServedNamesIff(m.name, m.prefixed, m.store.planes, p);
    var i :| 0 <= i < |m.store.planes| && m.store.planes[i].id != 0 && m.store.planes[i].name != SKIPPED
             && p == ServedName(m.name, m.prefixed, m.store.planes[i].name);
    x := m.store.planes[i].name;
  }

  /** A mount's plane resolves to that mount, under its own name there, exactly when a prefixed mount
      does not have it without a name; whatever else is mounted before or after. */
  lemma ListedResolves(w: World, host: Store, mounts: seq<Mount>, j: nat, x: string)
    requires w.Valid() && Table(w, host, mounts) && j < |mounts|
    requires x != SKIPPED && mounts[j].store.Holds(x)
    ensures var m := mounts[j];
            Resolve(host, mounts, ServedName(m.name, m.prefixed, x)) == Some(Serving(m.store, x, Some(m.name)))
            <==> !(m.prefixed && x == "")
  {
    var m := mounts[j];
    var p := ServedName(m.name, m.prefixed, x);
    assert Fits(w, host, mounts[..j], m);
    AnswersItsOwn(w, m, x);
    forall i | 0 <= i < j
      ensures !mounts[i].Answers(p)
    {
      assert mounts[..j][i] == mounts[i];
      assert Apart(mounts[i], m) && p in m.planes;
    }
    if m.Answers(p) {
      FirstAnswerIs(mounts, p, j);
    } else {
      NamesApart(w, host, mounts);
      AnswererNamed(mounts, p, j);
    }
  }

  lemma NamesApart(w: World, host: Store, mounts: seq<Mount>)
    requires Table(w, host, mounts)
    ensures forall i, j :: 0 <= i < j < |mounts| ==> mounts[i].name != mounts[j].name
  {
    forall i, j | 0 <= i < j < |mounts|
      ensures mounts[i].name != mounts[j].name
    {
      assert Fits(w, host, mounts[..j], mounts[j]);
      assert mounts[..j][i] == mounts[i];
      assert Apart(mounts[i], mounts[j]);
    }
  }

  /** A mount that does not answer is not the one resolved to. */
  lemma {:induction false} AnswererNamed(mounts: seq<Mount>, p: string, j: nat)
    requires j < |mounts| && !mounts[j].Answers(p)
    requires forall i, j :: 0 <= i < j < |mounts| ==> mounts[i].name != mounts[j].name
    ensures FirstAnswer(mounts, p).Some? ==> FirstAnswer(mounts, p).value.mount != Some(mounts[j].name)
  {
    if !mounts[0].Answers(p) {
      if j == 0 {
        NotAmong(mounts[1..], p, mounts[0].name);
      } else {
        AnswererNamed(mounts[1..], p, j - 1);
      }
    }
  }

  lemma {:induction false} NotAmong(mounts: seq<Mount>, p: string, name: string)
    requires forall i :: 0 <= i < |mounts| ==> mounts[i].name != name
    ensures FirstAnswer(mounts, p).Some? ==> FirstAnswer(mounts, p).value.mount != Some(name)
  {
    if mounts != [] {
      NotAmong(mounts[1..], p, name);
    }
  }

  function HostNames(planes: seq<Plane>): (r: seq<string>)
    ensures |r| == |planes| && forall i :: 0 <= i < |r| ==> r[i] == planes[i].name
  {
    seq(|planes|, i requires 0 <= i < |planes| => planes[i].name)
  }

  /** Every name the instance lists, the host's first. */
  function ListedNames(host: Store, mounts: seq<Mount>): seq<string> {
    if mounts == [] then HostNames(host.planes)
    else ListedNames(host, mounts[..|mounts| - 1]) + mounts[|mounts| - 1].planes
  }

  lemma {:induction false} ListedSomewhere(host: Store, mounts: seq<Mount>, p: string)
    ensures p in ListedNames(host, mounts) <==> host.Holds(p) || exists m :: m in mounts && p in m.planes
  {
    if mounts == [] {
      if host.Holds(p) {
        var i :| 0 <= i < |host.planes| && host.planes[i].name == p;
        assert HostNames(host.planes)[i] == p;
      }
    } else {
      var k := |mounts| - 1;
      ListedSomewhere(host, mounts[..k], p);
      assert mounts == mounts[..k] + [mounts[k]];
    }
  }

  /** What a mount lists for a plane without a name: its prefix and nothing after it. */
  ghost predicate ListsNameless(m: Mount, p: string) {
    m.prefixed && m.store.Holds("") && p == m.name + PREFIX_SEP
  }

  /** `m` lists nothing an earlier mount lists for a plane without a name. */
  ghost predicate AddsApart(earlier: seq<Mount>, m: Mount) {
    forall o, p :: o in earlier && ListsNameless(o, p) ==> p !in m.planes
  }

  /** No mount lists again what one before it lists for a plane without a name. */
  ghost predicate NamelessApart(mounts: seq<Mount>) {
    forall j :: 0 <= j < |mounts| ==> AddsApart(mounts[..j], mounts[j])
  }

  /** All listed names are pairwise distinct, exactly when no mount lists again what one before it lists
      for a plane without a name. */
  lemma {:induction false} ListedNamesDistinct(w: World, host: Store, mounts: seq<Mount>)
    requires w.Valid() && host.Valid() && Table(w, host, mounts)
    ensures NoDup(ListedNames(host, mounts)) <==> NamelessApart(mounts)
  {
    if mounts == [] {
      assert ListedNames(host, mounts) == HostNames(host.planes);
    } else {
      var k := |mounts| - 1;
      TableInit(w, host, mounts);
      ListedNamesDistinct(w, host, mounts[..k]);
      ListedApart(w, host, mounts);
      ApartInit(mounts);
      LastNamesDistinct(w, host, mounts);
      NoDupConcat(ListedNames(host, mounts[..k]), mounts[k].planes);
    }
  }

  lemma LastNamesDistinct(w: World, host: Store, mounts: seq<Mount>)
    requires w.Valid() && Table(w, host, mounts) && mounts != []
    ensures NoDup(mounts[|mounts| - 1].planes)
  {
    var k := |mounts| - 1;
    var m := mounts[k];
    assert Fits(w, host, mounts[..k], m);
    ServedNamesDistinct(m.name, m.prefixed, m.store.planes);
  }

  /** The last mount lists nothing listed before it exactly when it adds apart. */
  lemma ListedApart(w: World, host: Store, mounts: seq<Mount>)
    requires w.Valid() && Table(w, host, mounts) && mounts != []
    ensures Disjoint(ListedNames(host, mounts[..|mounts| - 1]), mounts[|mounts| - 1].planes)
       <==> AddsApart(mounts[..|mounts| - 1], mounts[|mounts| - 1])
  {
    var k := |mounts| - 1;
    var init, m := mounts[..k], mounts[k];
    assert Fits(w, host, init, m);
    forall p | p in m.planes
      ensures p in ListedNames(host, init) <==> exists o :: o in init && ListsNameless(o, p)
    {
      ListedSomewhere(host, init, p);
      forall o | o in init
        ensures p in o.planes <==> ListsNameless(o, p)
      {
        BothList(w, host, mounts, o, k, p);
      }
    }
  }

  lemma ApartInit(mounts: seq<Mount>)
    requires mounts != []
    ensures var k := |mounts| - 1; NamelessApart(mounts) <==> NamelessApart(mounts[..k]) && AddsApart(mounts[..k], mounts[k])
  {
    var init := mounts[..|mounts| - 1];
    assert forall j :: 0 <= j < |init| ==> init[..j] == mounts[..j] && init[j] == mounts[j];
  }

  lemma TableInit(w: World, host: Store, mounts: seq<Mount>)
    requires Table(w, host, mounts) && mounts != []
    ensures Table(w, host, mounts[..|mounts| - 1])
  {
    var init := mounts[..|mounts| - 1];
    forall j | 0 <= j < |init|
      ensures Fits(w, host, init[..j], init[j])
    {
      assert init[..j] == mounts[..j];
      assert Fits(w, host, mounts[..j], mounts[j]);
    }
  }

  /** A name a later mount lists is an earlier one's only as the name of its nameless plane. */
  lemma BothList(w: World, host: Store, mounts: seq<Mount>, o: Mount, k: nat, p: string)
    requires w.Valid() && Table(w, host, mounts) && k < |mounts| && o in mounts[..k] && p in mounts[k].planes
    ensures p in o.planes <==> ListsNameless(o, p)
  {
    assert Fits(w, host, mounts[..k], mounts[k]) && Apart(o, mounts[k]);
    var i :| 0 <= i < k && mounts[..k][i] == o;
    assert Fits(w, host, mounts[..i], o);
    if p in o.planes {
      var x := ListedIsOwn(w, o, p);
      AnswersItsOwn(w, o, x);
    }
    if ListsNameless(o, p) {
      AnswersItsOwn(w, o, "");
      assert ServedName(o.name, true, "") == p;
    }
  }

  /** A mount lists the name and has one for it there. */
  ghost predicate ListsNamed(m: Mount, p: string) {
    p in m.planes && !(m.prefixed && p == m.name + PREFIX_SEP)
  }

  /** A prefixed mount's startup plane, held and not listed. */
  ghost predicate IsHidden(m: Mount, p: string) {
    m.prefixed && p == ServedName(m.name, true, SKIPPED)
  }

  /** What resolves is what is listed, nameless planes aside, and one name more for each prefixed mount:
      its startup plane still answers under the prefix. */
  lemma ResolvesWhatIsListed(w: World, host: Store, mounts: seq<Mount>, p: string)
    requires w.Valid() && Table(w, host, mounts)
    ensures Resolve(host, mounts, p).Some? <==>
            host.Holds(p) || exists m :: m in mounts && (ListsNamed(m, p) || IsHidden(m, p))
    ensures (forall m :: m in mounts ==> !ListsNameless(m, p)) ==>
            (Resolve(host, mounts, p).Some? <==>
             p in ListedNames(host, mounts) || exists m :: m in mounts && IsHidden(m, p))
  {
    ResolvesIff(host, mounts, p);
    ListedSomewhere(host, mounts, p);
    forall m | m in mounts
      ensures m.Answers(p) <==> ListsNamed(m, p) || IsHidden(m, p)
      ensures p in m.planes <==> ListsNamed(m, p) || ListsNameless(m, p)
    {
      var i :| 0 <= i < |mounts| && mounts[i] == m;
      assert Fits(w, host, mounts[..i], m);
      AnswersIff(w, m, p);
      ListsIff(w, m, p);
    }
  }

  lemma ListsIff(w: World, m: Mount, p: string)
    requires w.Valid() && IsMountOf(w, m)
    ensures p in m.planes <==> ListsNamed(m, p) || ListsNameless(m, p)
  {
    if p in m.planes && m.prefixed && p == m.name + PREFIX_SEP {
      var x := ListedIsOwn(w, m, p);
      assert p[|m.name + PREFIX_SEP|..] == x;
    }
    if ListsNameless(m, p) {
      AnswersItsOwn(w, m, "");
      assert ServedName(m.name, true, "") == p;
    }
  }

  lemma AnswersIff(w: World, m: Mount, p: string)
    requires w.Valid() && IsMountOf(w, m)
    ensures m.Answers(p) <==> ListsNamed(m, p) || IsHidden(m, p)
  {
    if ListsNamed(m, p) {
      var x := ListedIsOwn(w, m, p);
      AnswersItsOwn(w, m, x);
    }
    if IsHidden(m, p) {
      assert p[|m.name + PREFIX_SEP|..] == SKIPPED;
      assert w.stores[m.path].Valid();
    }
    if m.Answers(p) {
      var x := m.Serves(p).value;
      assert p == ServedName(m.name, m.prefixed, x);
      if x != SKIPPED {
        AnswersItsOwn(w, m, x);
      }
    }
  }

  /** So of a prefixed mount whose startup name the host does not hold: it answers under the prefix, from
      that mount, and is not listed. */
  lemma StartupAnswersUnlisted(w: World, host: Store, m: Mount)
    requires w.Valid() && Table(w, host, [m]) && m.prefixed && !host.Holds(ServedName(m.name, true, SKIPPED))
    ensures var p := ServedName(m.name, true, SKIPPED);
            && Resolve(host, [m], p) == Some(Serving(m.store, SKIPPED, Some(m.name)))
            && p !in ListedNames(host, [m])
  {
    var p := ServedName(m.name, true, SKIPPED);
    assert Fits(w, host, [m][..0], [m][0]);
    assert p[|m.name + PREFIX_SEP|..] == SKIPPED;
    assert w.stores[m.path].Valid();
    ListedSomewhere(host, [m], p);
    if p in m.planes {
      var x := ListedIsOwn(w, m, p);
      ServedNameInjective(m.name, true, x, SKIPPED);
    }
  }

  /** Why plane names must not be empty: `far/` listed by a mount prefixed `far` and again by a mount
      whose plane is called `far/`, in a table every step of which was accepted. */
  lemma EmptyPlaneNameListedTwice(w: World, host: Store, locked: set<nat>)
    requires w.stores == map[
               "/a" := Store(1, [Plane(0, SKIPPED), Plane(1, "")]),
               "/b" := Store(2, [Plane(0, SKIPPED), Plane(1, "far/")])]
    requires host == Store(0, [Plane(0, SKIPPED)]) && locked == {} && w.parts("/b") == ["b"]
    ensures exists a, b ::
              && Decide(w, host, [], locked, Request("/a", Some("far"), None, false)) == Accepted(a)
              && Decide(w, host, [a], locked, Request("/b", None, None, false)) == Accepted(b)
              && !NoDup(ListedNames(host, [a, b]))
  {
    var a := Mount("far", "/a", ["far/"], true, w.stores["/a"]);
    var b := Mount("b", "/b", ["far/"], false, w.stores["/b"]);
    TwoPlanes("far", true, Plane(0, SKIPPED), Plane(1, ""));
    TwoPlanes("b", false, Plane(0, SKIPPED), Plane(1, "far/"));
    assert !a.Answers("far/");
    assert Resolve(host, [], "far/").None? && Resolve(host, [a], "far/").None? by {
      assert FirstAnswer([a], "far/") == FirstAnswer([], "far/");
    }
    assert Decide(w, host, [], locked, Request("/a", Some("far"), None, false)) == Accepted(a);
    assert StripSuffix("b", DRSG).None?;
    assert Decide(w, host, [a], locked, Request("/b", None, None, false)) == Accepted(b);
    assert [a, b][..1] == [a] && [a][..0] == [];
    assert ListedNames(host, [a, b]) == ListedNames(host, []) + ["far/"] + ["far/"];
    assert ListedNames(host, [a, b])[1] == ListedNames(host, [a, b])[2];
  }

  lemma TwoPlanes(name: string, prefixed: bool, startup: Plane, plane: Plane)
    requires startup.id == 0 && plane.id != 0 && plane.name != SKIPPED
    ensures ServedNames(name, prefixed, [startup, plane]) == [ServedName(name, prefixed, plane.name)]
  {
    assert [startup, plane][..1] == [startup] && [startup][..0] == [];
    assert ServedNames(name, prefixed, [startup]) == [];
  }
}
