/** The mount table: names, resolution, what a mount must satisfy, and the record kept of it. */
module Mounts {
  import opened Collections

  type Path = string

  /** The default plane every database carries, never served from a mount. */
  const SKIPPED := "startup"

  const PREFIX_SEP := "/"

  datatype Plane = Plane(id: nat, name: string)

  /** A database: the directory whose lock it takes, and its planes. */
  datatype Store = Store(dir: nat, planes: seq<Plane>) {
    predicate Holds(name: string) {
      exists i :: 0 <= i < |planes| && planes[i].name == name
    }

    /** Plane names are unique, and the startup plane is there under its own name and number. */
    ghost predicate Valid() {
      && (forall i, j :: 0 <= i < j < |planes| ==> planes[i].name != planes[j].name)
      && (forall i :: 0 <= i < |planes| ==> (planes[i].id == 0 <==> planes[i].name == SKIPPED))
      && Holds(SKIPPED)
    }
  }

  /** What the file system holds: the database at each path, the parts of a path, and which paths lie
      under a granted directory. */
  datatype World = World(stores: map<Path, Store>, parts: Path -> seq<string>, within: (Path, Path) -> bool) {
    ghost predicate Valid() {
      "" !in stores && forall p :: p in stores ==> stores[p].Valid()
    }
  }

  datatype Mount = Mount(name: string, path: Path, planes: seq<string>, prefixed: bool, store: Store) {
    /** The name this mount's own database knows `served` by, if it could answer for it at all. */
    function Serves(served: string): Option<string> {
      if prefixed then
        var inner := StripPrefix(name + PREFIX_SEP, served);
        if inner.Some? && inner.value != "" then inner else None
      else if served != SKIPPED then Some(served) else None
    }

    /** It answers for `served`: the name is its to answer for and its database has the plane. */
    predicate Answers(served: string) {
      Serves(served).Some? && store.Holds(Serves(served).value)
    }
  }

  function StripPrefix(prefix: string, s: string): (r: Option<string>)
    ensures r.Some? <==> prefix <= s
    ensures r.Some? ==> s == prefix + r.value
  {
    if prefix <= s then Some(s[|prefix|..]) else None
  }

  // ---- resolution --------------------------------------------------------------

  /** Which database answers: the plane's name there, and the mount it came through, if any. */
  datatype Serving = Serving(store: Store, plane: string, mount: Option<string>)

  /** The host first, then the mounts in order. */
  function Resolve(host: Store, mounts: seq<Mount>, served: string): Option<Serving> {
    if host.Holds(served) then Some(Serving(host, served, None)) else FirstAnswer(mounts, served)
  }

  function FirstAnswer(mounts: seq<Mount>, served: string): Option<Serving> {
    if mounts == [] then None
    else if mounts[0].Answers(served) then
      Some(Serving(mounts[0].store, mounts[0].Serves(served).value, Some(mounts[0].name)))
    else FirstAnswer(mounts[1..], served)
  }

  /** A name resolves exactly when the host or some mount answers for it. */
  lemma {:induction false} ResolvesIff(host: Store, mounts: seq<Mount>, served: string)
    ensures Resolve(host, mounts, served).Some? <==> host.Holds(served) || exists m :: m in mounts && m.Answers(served)
  {
    if mounts != [] {
      ResolvesIff(host, mounts[1..], served);
      assert mounts == [mounts[0]] + mounts[1..];
    }
  }

  /** The first mount that answers is the one resolved to. */
  lemma {:induction false} FirstAnswerIs(mounts: seq<Mount>, served: string, j: nat)
    requires j < |mounts| && mounts[j].Answers(served)
    requires forall i :: 0 <= i < j ==> !mounts[i].Answers(served)
    ensures FirstAnswer(mounts, served)
         == Some(Serving(mounts[j].store, mounts[j].Serves(served).value, Some(mounts[j].name)))
  {
    if j > 0 {
      assert !mounts[0].Answers(served);
      FirstAnswerIs(mounts[1..], served, j - 1);
    }
  }

  // ---- what a mount serves -----------------------------------------------------

  function ServedName(name: string, prefixed: bool, plane: string): string {
    if prefixed then name + PREFIX_SEP + plane else plane
  }

  /** The names a mount's planes answer to, the startup plane left out. */
  function ServedNames(name: string, prefixed: bool, planes: seq<Plane>): seq<string> {
    if planes == [] then []
    else
      var init, plane := ServedNames(name, prefixed, planes[..|planes| - 1]), planes[|planes| - 1];
      if plane.id == 0 || plane.name == SKIPPED then init else init + [ServedName(name, prefixed, plane.name)]
  }

  lemma {:induction false} ServedNamesIff(name: string, prefixed: bool, planes: seq<Plane>, s: string)
    ensures s in ServedNames(name, prefixed, planes) <==>
            exists i :: 0 <= i < |planes| && planes[i].id != 0 && planes[i].name != SKIPPED
                        && s == ServedName(name, prefixed, planes[i].name)
  {
    if planes != [] {
      var k := |planes| - 1;
      ServedNamesIff(name, prefixed, planes[..k], s);
      assert forall i :: 0 <= i < k ==> planes[..k][i] == planes[i];
      if planes[k].id != 0 && planes[k].name != SKIPPED && s == ServedName(name, prefixed, planes[k].name) {
        assert s in ServedNames(name, prefixed, planes);
      }
    }
  }

  lemma ServedNameInjective(name: string, prefixed: bool, a: string, b: string)
    requires ServedName(name, prefixed, a) == ServedName(name, prefixed, b)
    ensures a == b
  {
    if prefixed {
      assert a == ServedName(name, prefixed, a)[|name + PREFIX_SEP|..];
      assert b == ServedName(name, prefixed, b)[|name + PREFIX_SEP|..];
    }
  }

  lemma {:induction false} ServedNamesDistinct(name: string, prefixed: bool, planes: seq<Plane>)
    requires forall i, j :: 0 <= i < j < |planes| ==> planes[i].name != planes[j].name
    ensures NoDup(ServedNames(name, prefixed, planes))
  {
    if planes != [] {
      var k := |planes| - 1;
      var init := ServedNames(name, prefixed, planes[..k]);
      ServedNamesDistinct(name, prefixed, planes[..k]);
      forall x | 0 <= x < |init|
        ensures init[x] != ServedName(name, prefixed, planes[k].name)
      {
        assert init[x] in init;
        ServedNamesIff(name, prefixed, planes[..k], init[x]);
        var i :| 0 <= i < k && init[x] == ServedName(name, prefixed, planes[..k][i].name);
        if init[x] == ServedName(name, prefixed, planes[k].name) {
          ServedNameInjective(name, prefixed, planes[i].name, planes[k].name);
        }
      }
    }
  }

  // ---- mounting ----------------------------------------------------------------

  datatype Request = Request(path: Path, prefix: Option<string>, grant: Option<Path>, remember: bool)

  datatype MountError = NoDatabase | NotGranted | NotAName | AlreadyMounted | Locked | Clash

  datatype Decision = Accepted(mount: Mount) | Refused(error: MountError)

  const DRSG := ".drsg"

  function StripSuffix(s: string, suffix: string): Option<string> {
    if |suffix| <= |s| && s[|s| - |suffix|..] == suffix then Some(s[..|s| - |suffix|]) else None
  }

  /** The name a mount takes from its own path. */
  function MountName(parts: seq<string>): Option<string> {
    if parts == [] then None
    else
      var name := parts[|parts| - 1];
      var stem := StripSuffix(name, DRSG);
      if stem.None? then Some(name)
      else if stem.value == "graph" && |parts| > 1 && parts[|parts| - 2] != "" then Some(parts[|parts| - 2])
      else stem
  }

  predicate IsName(name: string) {
    name != "" && PREFIX_SEP[0] !in name
  }

  predicate IsMounted(mounts: seq<Mount>, name: string) {
    exists i :: 0 <= i < |mounts| && mounts[i].name == name
  }

  /** The directories this process holds the locks of. */
  predicate IsOpen(host: Store, mounts: seq<Mount>, dir: nat) {
    dir == host.dir || exists i :: 0 <= i < |mounts| && mounts[i].store.dir == dir
  }

  predicate Clashes(host: Store, mounts: seq<Mount>, planes: seq<string>) {
    exists i :: 0 <= i < |planes| && Resolve(host, mounts, planes[i]).Some?
  }

  /** What one mount request comes to; `locked` are directories other processes hold. */
  function Decide(w: World, host: Store, mounts: seq<Mount>, locked: set<nat>, req: Request): Decision {
    if req.path !in w.stores then Refused(NoDatabase)
    else if req.grant.Some? && !w.within(req.grant.value, req.path) then Refused(NotGranted)
    else
      var name := if req.prefix.Some? then req.prefix else MountName(w.parts(req.path));
      if name.None? || !IsName(name.value) then Refused(NotAName)
      else if IsMounted(mounts, name.value) then Refused(AlreadyMounted)
      else
        var store := w.stores[req.path];
        if IsOpen(host, mounts, store.dir) || store.dir in locked then Refused(Locked)
        else
          var planes := ServedNames(name.value, req.prefix.Some?, store.planes);
          if Clashes(host, mounts, planes) then Refused(Clash)
          else Accepted(Mount(name.value, req.path, planes, req.prefix.Some?, store))
  }

  // ---- the table's invariant ---------------------------------------------------

  /** The mount is what its path and name say, in this world. */
  ghost predicate IsMountOf(w: World, m: Mount) {
    && m.path in w.stores && m.store == w.stores[m.path]
    && IsName(m.name) && (m.prefixed || MountName(w.parts(m.path)) == Some(m.name))
    && m.planes == ServedNames(m.name, m.prefixed, m.store.planes)
  }

  /** `m` fits beside a host and other mounts: its own name, its own lock, and no plane any of them
      already answers for. */
  ghost predicate Fits(w: World, host: Store, others: seq<Mount>, m: Mount) {
    && IsMountOf(w, m)
    && m.store.dir != host.dir
    && (forall p :: p in m.planes ==> !host.Holds(p))
    && forall o :: o in others ==> Apart(o, m)
  }

  ghost predicate Apart(earlier: Mount, m: Mount) {
    && earlier.name != m.name && earlier.store.dir != m.store.dir
    && forall p :: p in m.planes ==> !earlier.Answers(p)
  }

  /** Every mount fits beside those mounted before it. */
  ghost predicate Table(w: World, host: Store, mounts: seq<Mount>) {
    forall j :: 0 <= j < |mounts| ==> Fits(w, host, mounts[..j], mounts[j])
  }

  /** A request is accepted exactly when the mount it describes fits, its directory is free and the
      grant admits it; what is accepted is that mount. */
  lemma DecideIff(w: World, host: Store, mounts: seq<Mount>, locked: set<nat>, req: Request, m: Mount)
    ensures Decide(w, host, mounts, locked, req) == Accepted(m) <==>
            && m.path == req.path && m.prefixed == req.prefix.Some? && (req.prefix.Some? ==> m.name == req.prefix.value)
            && (req.grant.Some? ==> w.within(req.grant.value, req.path))
            && m.store.dir !in locked
            && Fits(w, host, mounts, m)
  {
    if req.path in w.stores {
      var name := if req.prefix.Some? then req.prefix else MountName(w.parts(req.path));
      if name.Some? && m.name == name.value && m.path == req.path && m.store == w.stores[req.path]
         && m.planes == ServedNames(m.name, req.prefix.Some?, m.store.planes) {
        NoClash(host, mounts, m.planes);
        NoneMounted(mounts, m);
      }
    }
  }

  // ---- what a request is answered ------------------------------------------------

  /** The name a path gives: its last part, without `.drsg`; for `graph.drsg` inside something, that. */
  ghost predicate NamedFor(parts: seq<string>, name: string) {
    && parts != []
    && var last := parts[|parts| - 1];
       if last == "graph.drsg" && |parts| > 1 && parts[|parts| - 2] != "" then name == parts[|parts| - 2]
       else if exists stem :: last == stem + ".drsg" then last == name + ".drsg"
       else name == last
  }

  /** The name a request asks for. */
  ghost predicate AsksFor(w: World, req: Request, name: string) {
    if req.prefix.Some? then name == req.prefix.value else NamedFor(w.parts(req.path), name)
  }

  ghost predicate IsPlainName(name: string) {
    name != "" && '/' !in name
  }

  lemma MountNameIff(parts: seq<string>, name: string)
    ensures MountName(parts) == Some(name) <==> NamedFor(parts, name)
  {
    if parts != [] {
      var last := parts[|parts| - 1];
      SuffixIff(last, DRSG);
      if stem :| last == stem + ".drsg" {
        assert StripSuffix(last, DRSG) == Some(stem);
        assert forall other: string :: last == other + ".drsg" ==> StripSuffix(last, DRSG) == Some(other);
        assert "graph" + ".drsg" == "graph.drsg";
      }
    }
  }

  lemma SuffixIff(s: string, suffix: string)
    ensures forall stem :: s == stem + suffix <==> StripSuffix(s, suffix) == Some(stem)
  {
    forall stem
      ensures s == stem + suffix <==> StripSuffix(s, suffix) == Some(stem)
    {
      if s == stem + suffix {
        assert s[..|s| - |suffix|] == stem && s[|s| - |suffix|..] == suffix;
      }
      if StripSuffix(s, suffix) == Some(stem) {
        assert s == s[..|s| - |suffix|] + s[|s| - |suffix|..];
      }
    }
  }

  ghost predicate Granted(w: World, req: Request) {
    req.grant.Some? ==> w.within(req.grant.value, req.path)
  }

  /** The first three refusals, each for its own reason; and what is accepted is called what was asked for. */
  lemma AskedRightly(w: World, host: Store, mounts: seq<Mount>, locked: set<nat>, req: Request)
    ensures Decide(w, host, mounts, locked, req) == Refused(NoDatabase) <==> req.path !in w.stores
    ensures Decide(w, host, mounts, locked, req) == Refused(NotGranted) <==> req.path in w.stores && !Granted(w, req)
    ensures Decide(w, host, mounts, locked, req) == Refused(NotAName) <==>
            req.path in w.stores && Granted(w, req) && forall name :: AsksFor(w, req, name) ==> !IsPlainName(name)
    ensures Decide(w, host, mounts, locked, req).Accepted? ==>
            AsksFor(w, req, Decide(w, host, mounts, locked, req).mount.name)
  {
    forall name
      ensures MountName(w.parts(req.path)) == Some(name) <==> NamedFor(w.parts(req.path), name)
    {
      MountNameIff(w.parts(req.path), name);
    }
    var asked := if req.prefix.Some? then req.prefix else MountName(w.parts(req.path));
    assert asked.Some? ==> AsksFor(w, req, asked.value);
    assert forall name :: AsksFor(w, req, name) ==> asked == Some(name);
  }

  /** The lock of the database asked for is held, here or elsewhere. */
  ghost predicate IsHeld(w: World, host: Store, mounts: seq<Mount>, locked: set<nat>, req: Request)
    requires req.path in w.stores
  {
    var dir := w.stores[req.path].dir;
    dir == host.dir || dir in locked || exists m :: m in mounts && m.store.dir == dir
  }

  /** The other three, of a request for a name. */
  lemma RefusedRightly(w: World, host: Store, mounts: seq<Mount>, locked: set<nat>, req: Request, name: string)
    requires req.path in w.stores && Granted(w, req) && AsksFor(w, req, name) && IsPlainName(name)
    ensures var d := Decide(w, host, mounts, locked, req);
            var mounted := exists m :: m in mounts && m.name == name;
            && (d == Refused(AlreadyMounted) <==> mounted)
            && (d == Refused(Locked) <==> !mounted && IsHeld(w, host, mounts, locked, req))
            && (d == Refused(Clash) ==> exists p :: p in ServedNames(name, req.prefix.Some?, w.stores[req.path].planes) &&
                                          Resolve(host, mounts, p).Some?)
  {
    MountNameIff(w.parts(req.path), name);
    assert IsMounted(mounts, name) <==> exists m :: m in mounts && m.name == name;
    var dir := w.stores[req.path].dir;
    assert IsOpen(host, mounts, dir) <==> dir == host.dir || exists m :: m in mounts && m.store.dir == dir;
  }

  lemma NoClash(host: Store, mounts: seq<Mount>, planes: seq<string>)
    ensures !Clashes(host, mounts, planes) <==>
            forall p :: p in planes ==> !host.Holds(p) && forall o :: o in mounts ==> !o.Answers(p)
  {
    forall p
      ensures Resolve(host, mounts, p).Some? <==> host.Holds(p) || exists m :: m in mounts && m.Answers(p)
    {
      ResolvesIff(host, mounts, p);
    }
    if forall p :: p in planes ==> !host.Holds(p) && forall o :: o in mounts ==> !o.Answers(p) {
      forall i | 0 <= i < |planes|
        ensures Resolve(host, mounts, planes[i]).None?
      {
        assert planes[i] in planes;
      }
    }
  }

  lemma NoneMounted(mounts: seq<Mount>, m: Mount)
    ensures !IsMounted(mounts, m.name) <==> forall o :: o in mounts ==> o.name != m.name
    ensures (forall i :: 0 <= i < |mounts| ==> mounts[i].store.dir != m.store.dir) <==>
            forall o :: o in mounts ==> o.store.dir != m.store.dir
  {
    assert forall i :: 0 <= i < |mounts| ==> mounts[i] in mounts;
  }

  /** Fewer others, still fits: what was unresolved stays unresolved when mounts go. */
  lemma FitsAmongFewer(w: World, host: Store, others: seq<Mount>, fewer: seq<Mount>, m: Mount)
    requires Fits(w, host, others, m) && forall o :: o in fewer ==> o in others
    ensures Fits(w, host, fewer, m)
  {
  }

  lemma TableSnoc(w: World, host: Store, mounts: seq<Mount>, m: Mount)
    requires Table(w, host, mounts) && Fits(w, host, mounts, m)
    ensures Table(w, host, mounts + [m])
  {
    var all := mounts + [m];
    forall j | 0 <= j < |all|
      ensures Fits(w, host, all[..j], all[j])
    {
      if j < |mounts| {
        assert all[..j] == mounts[..j] && all[j] == mounts[j];
      } else {
        assert all[..j] == mounts;
      }
    }
  }

  /** The mounts some flags keep, in order. */
  function Kept(mounts: seq<Mount>, flags: seq<bool>): seq<Mount>
    requires |flags| == |mounts|
  {
    if mounts == [] then []
    else
      var k := |mounts| - 1;
      Kept(mounts[..k], flags[..k]) + if flags[k] then [mounts[k]] else []
  }

  lemma {:induction false} KeptAmong(mounts: seq<Mount>, flags: seq<bool>, m: Mount)
    requires |flags| == |mounts| && m in Kept(mounts, flags)
    ensures m in mounts
  {
    if mounts != [] {
      var k := |mounts| - 1;
      if m in Kept(mounts[..k], flags[..k]) {
        KeptAmong(mounts[..k], flags[..k], m);
      }
    }
  }

  /** A table with any mounts left out is still a table. */
  lemma {:induction false} KeptTable(w: World, host: Store, mounts: seq<Mount>, flags: seq<bool>)
    requires |flags| == |mounts| && Table(w, host, mounts)
    ensures Table(w, host, Kept(mounts, flags))
  {
    if mounts != [] {
      var k := |mounts| - 1;
      var init := mounts[..k];
      forall j | 0 <= j < k
        ensures Fits(w, host, init[..j], init[j])
      {
        assert init[..j] == mounts[..j];
      }
      KeptTable(w, host, init, flags[..k]);
      if flags[k] {
        forall o | o in Kept(init, flags[..k])
          ensures o in init
        {
          KeptAmong(init, flags[..k], o);
        }
        FitsAmongFewer(w, host, init, Kept(init, flags[..k]), mounts[k]);
        TableSnoc(w, host, Kept(init, flags[..k]), mounts[k]);
      } else {
        assert Kept(mounts, flags) == Kept(init, flags[..k]);
      }
    }
  }
}
