/** One process serving several databases: mounting, unmounting, resolving, and replaying its record. */
module Instances {
  import opened Collections
  import opened PropJson
  import opened Mounts
  import opened MountNames
  import opened MountRecord
  import opened MountRuns

  class Instance {
    const world: World
    const host: Store
    var mounts: seq<Mount>
    /** The host's startup plane's own properties, where mounts are recorded. */
    var props: Properties
    /** Which mounts were asked to be remembered. */
    ghost var flags: seq<bool>

    ghost predicate Valid()
      reads this
    {
      Now().Valid(world, host)
    }

    ghost function Now(): State
      reads this
    {
      State(mounts, flags, props)
    }

    /** The record is exactly the remembered mounts, in order. */
    ghost predicate InStep()
      reads this
    {
      Now().InStep()
    }

    constructor (world: World, host: Store, props: Properties)
      requires world.Valid() && host.Valid()
      ensures Valid() && mounts == [] && flags == []
      ensures this.world == world && this.host == host && this.props == props
    {
      this.world, this.host, this.props := world, host, props;
      mounts, flags := [], [];
    }

    /** The database serving a name: the host's own, or the first mount's that answers. */
    method ServingPlane(served: string) returns (r: Option<Serving>)
      ensures r == Resolve(host, mounts, served)
      ensures host.Holds(served) ==> r == Some(Serving(host, served, None))
    {
      if host.Holds(served) {
        return Some(Serving(host, served, None));
      }
      var i := 0;
      while i < |mounts|
        invariant 0 <= i <= |mounts|
        invariant FirstAnswer(mounts[i..], served) == FirstAnswer(mounts, served)
      {
        var inner := mounts[i].Serves(served);
        if inner.Some? && mounts[i].store.Holds(inner.value) {
          return Some(Serving(mounts[i].store, inner.value, Some(mounts[i].name)));
        }
        assert mounts[i..][1..] == mounts[i + 1..];
        i := i + 1;
      }
      return None;
    }

    /** Every name served, the host's first. */
    method Planes() returns (names: seq<string>)
      ensures names == ListedNames(host, mounts)
      ensures |names| >= |host.planes| && forall i :: 0 <= i < |host.planes| ==> names[i] == host.planes[i].name
    {
      names := HostNames(host.planes);
      var i := 0;
      while i < |mounts|
        invariant 0 <= i <= |mounts| && names == ListedNames(host, mounts[..i])
        invariant |names| >= |host.planes| && forall i :: 0 <= i < |host.planes| ==> names[i] == host.planes[i].name
      {
        assert mounts[..i + 1][..i] == mounts[..i];
        names := names + mounts[i].planes;
        i := i + 1;
      }
      assert mounts[..i] == mounts;
    }

    /** The checks a mount passes in turn, and the mount they make. */
    method Judge(locked: set<nat>, req: Request) returns (r: Decision)
      ensures r == Decide(world, host, mounts, locked, req)
    {
      if req.path !in world.stores {
        return Refused(NoDatabase);
      }
      if req.grant.Some? && !world.within(req.grant.value, req.path) {
        return Refused(NotGranted);
      }
      var name := if req.prefix.Some? then req.prefix else MountName(world.parts(req.path));
      if name.None? || !IsName(name.value) {
        return Refused(NotAName);
      }
      if IsMounted(mounts, name.value) {
        return Refused(AlreadyMounted);
      }
      var store := world.stores[req.path];
      if IsOpen(host, mounts, store.dir) || store.dir in locked {
        return Refused(Locked);
      }
      var planes := NamesToServe(name.value, req.prefix.Some?, store.planes);
      var clash := AnyServed(planes);
      if clash {
        return Refused(Clash);
      }
      r := Accepted(Mount(name.value, req.path, planes, req.prefix.Some?, store));
    }

    method NamesToServe(name: string, prefixed: bool, planes: seq<Plane>) returns (names: seq<string>)
      ensures names == ServedNames(name, prefixed, planes)
    {
      names := [];
      var i := 0;
      while i < |planes|
        invariant 0 <= i <= |planes| && names == ServedNames(name, prefixed, planes[..i])
      {
        assert planes[..i + 1][..i] == planes[..i];
        if planes[i].id != 0 && planes[i].name != SKIPPED {
          names := names + [if prefixed then name + PREFIX_SEP + planes[i].name else planes[i].name];
        }
        i := i + 1;
      }
      assert planes[..i] == planes;
    }

    /** Whether this instance already serves any of the names. */
    method AnyServed(planes: seq<string>) returns (clash: bool)
      ensures clash <==> Clashes(host, mounts, planes)
    {
      var i := 0;
      while i < |planes|
        invariant 0 <= i <= |planes|
        invariant forall k :: 0 <= k < i ==> Resolve(host, mounts, planes[k]).None?
      {
        var served := ServingPlane(planes[i]);
        if served.Some? {
          return true;
        }
        i := i + 1;
      }
      return false;
    }

    /** Open a database and serve its planes, or refuse it whole and change nothing. */
    method MountDatabase(locked: set<nat>, req: Request) returns (r: Decision)
      requires Valid()
      modifies this
      ensures Valid() && (old(InStep()) ==> InStep())
      ensures r == Decide(world, host, old(mounts), locked, req)
      ensures Now() == MountStep(world, host, old(Now()), locked, req)
      ensures r.Refused? ==> Now() == old(Now())
      ensures r.Accepted? ==> mounts == old(mounts) + [r.mount] && flags == old(flags) + [req.remember]
      ensures r.Accepted? && !req.remember ==> props == old(props)
      ensures r.Accepted? && req.remember ==>
                IsRemembered(Read(old(props)), RecordOf(r.mount), Read(props)) && OnlyRecord(old(props), props)
    {
      r := Judge(locked, req);
      if r.Accepted? {
        DecideIff(world, host, mounts, locked, req, r.mount);
        Written(props, RecordOf(r.mount));
      }
      MountStepKeeps(world, host, Now(), locked, req);
      if r.Accepted? {
        if req.remember {
          props := Write(props, Remember(Read(props), RecordOf(r.mount)));
        }
        mounts := mounts + [r.mount];
        flags := flags + [req.remember];
      }
    }

    /** Where the mount of that name is, or the end of the table. */
    method Position(name: string) returns (at: nat)
      ensures at == IndexOf(mounts, name)
    {
      at := 0;
      while at < |mounts| && mounts[at].name != name
        invariant 0 <= at <= |mounts|
        invariant IndexOf(mounts, name) == at + IndexOf(mounts[at..], name)
      {
        assert mounts[at..][1..] == mounts[at + 1..];
        at := at + 1;
      }
    }

    /** Stop serving a mount and forget it; a name not mounted is forgotten all the same. */
    method Unmount(name: string) returns (gone: Option<Mount>)
      requires Valid()
      modifies this
      ensures Valid() && (old(InStep()) ==> InStep())
      ensures Now() == UnmountStep(old(Now()), name)
      ensures gone.None? <==> !IsMounted(old(mounts), name)
      ensures gone.None? ==> mounts == old(mounts) && flags == old(flags)
      ensures gone.Some? ==> gone.value.name == name && IsRemoval(old(mounts), old(flags), mounts, flags, gone.value)
      ensures AreOthers(Read(old(props)), name, Read(props)) && OnlyRecord(old(props), props)
    {
      var at := Position(name);
      UnmountLeaves(Now(), name);
      UnmountStepKeeps(world, host, Now(), name);
      if at == |mounts| {
        gone := None;
      } else {
        gone := Some(mounts[at]);
        IsTheRemoval(mounts, flags, at);
        mounts := Removed(mounts, at);
        flags := Removed(flags, at);
      }
      props := Write(props, Forget(Read(props), name));
    }

    /** Serve one recorded mount again; it stays remembered. */
    method ReplayOne(rec: Remembered, locked: set<nat>, grant: Option<Path>) returns (r: Decision)
      requires Valid() && flags == AllTrue(|mounts|)
      modifies this
      ensures Valid() && flags == AllTrue(|mounts|) && props == old(props)
      ensures r == Decide(world, host, old(mounts), locked, ReplayRequest(rec, grant))
      ensures mounts == old(mounts) + if r.Accepted? then [r.mount] else []
    {
      r := MountDatabase(locked, ReplayRequest(rec, grant));
      flags := AllTrue(|mounts|);
    }

    /** Serve again what was recorded, each like any mount, and say what could not be; the record is not
        touched. */
    method Replay(locked: set<nat>, grant: Option<Path>) returns (failed: seq<(string, MountError)>)
      requires Valid() && mounts == [] && flags == []
      modifies this
      ensures Valid() && Now() == Boot(world, host, old(props), locked, grant) && props == old(props)
      ensures failed == ReplayAll(world, host, Read(old(props)), locked, grant).failed
    {
      failed := [];
      var recs := Read(props);
      var i := 0;
      while i < |recs|
        invariant 0 <= i <= |recs| && Valid() && props == old(props) && flags == AllTrue(|mounts|)
        invariant ReplayAll(world, host, recs[..i], locked, grant) == Replayed(mounts, failed)
      {
        assert recs[..i + 1][..i] == recs[..i];
        var r := ReplayOne(recs[i], locked, grant);
        if r.Refused? {
          failed := failed + [(recs[i].name, r.error)];
        }
        i := i + 1;
      }
      assert recs[..i] == recs;
    }

    method Apply(op: Op)
      requires Valid()
      modifies this
      ensures Valid() && (old(InStep()) ==> InStep())
      ensures Now() == Step(world, host, old(Now()), op)
    {
      match op {
        case MountOp(req, locked) => var _ := MountDatabase(locked, req);
        case UnmountOp(name) => var _ := Unmount(name);
      }
    }

    /** Mount and unmount, whatever is asked. */
    method Run(ops: seq<Op>)
      requires Valid()
      modifies this
      ensures Valid() && (old(InStep()) ==> InStep())
      ensures Now() == RunAll(world, host, old(Now()), ops)
    {
      var i := 0;
      while i < |ops|
        invariant 0 <= i <= |ops| && Valid() && (old(InStep()) ==> InStep())
        invariant Now() == RunAll(world, host, old(Now()), ops[..i])
      {
        assert ops[..i + 1][..i] == ops[..i];
        Apply(ops[i]);
        i := i + 1;
      }
      assert ops[..i] == ops;
    }
  }

  /** One process after another, each over what the one before left written. */
  method RunSessions(world: World, host: Store, props: Properties, sessions: seq<Session>) returns (last: Instance)
    requires world.Valid() && host.Valid()
    ensures last.Valid() && last.world == world && last.host == host
    ensures last.Now() == EndOf(world, host, props, sessions)
  {
    last := new Instance(world, host, props);
    var i := 0;
    while i < |sessions|
      invariant 0 <= i <= |sessions| && last.Valid() && last.world == world && last.host == host && fresh(last)
      invariant last.Now() == EndOf(world, host, props, sessions[..i])
    {
      assert sessions[..i + 1][..i] == sessions[..i];
      last := new Instance(world, host, last.props);
      var _ := last.Replay(sessions[i].locked, sessions[i].grant);
      last.Run(sessions[i].ops);
      i := i + 1;
    }
    assert sessions[..i] == sessions;
  }
}
