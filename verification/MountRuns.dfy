/** Runs of one host over time: what each mount, unmount and restart does to the table and the written
    record, and what a whole sequence of processes comes to. */
module MountRuns {
  import opened Collections
  import opened PropJson
  import opened Mounts
  import opened MountNames
  import opened MountRecord

  function RecordOf(m: Mount): Remembered {
    Remembered(m.name, m.path, m.prefixed)
  }

  function RecordsOf(mounts: seq<Mount>): (r: seq<Remembered>)
    ensures |r| == |mounts| && forall i :: 0 <= i < |mounts| ==> r[i] == RecordOf(mounts[i])
  {
    seq(|mounts|, i requires 0 <= i < |mounts| => RecordOf(mounts[i]))
  }

  /** Every mount of a table can be written down. */
  lemma RecordsWritable(w: World, host: Store, mounts: seq<Mount>)
    requires w.Valid() && Table(w, host, mounts)
    ensures Writable(RecordsOf(mounts))
  {
    forall r | r in RecordsOf(mounts)
      ensures r.name != "" && r.path != ""
    {
      var i :| 0 <= i < |mounts| && r == RecordOf(mounts[i]);
      assert Fits(w, host, mounts[..i], mounts[i]);
    }
  }

  function Removed<T>(s: seq<T>, at: nat): seq<T>
    requires at < |s|
  {
    s[..at] + s[at + 1..]
  }

  /** A table without one of its mounts is a table. */
  lemma RemovedTable(w: World, host: Store, mounts: seq<Mount>, at: nat)
    requires Table(w, host, mounts) && at < |mounts|
    ensures Table(w, host, Removed(mounts, at))
  {
    var less := Removed(mounts, at);
    forall j | 0 <= j < |less|
      ensures Fits(w, host, less[..j], less[j])
    {
      RemovedFits(w, host, mounts, at, j);
    }
  }

  lemma RemovedFits(w: World, host: Store, mounts: seq<Mount>, at: nat, j: nat)
    requires Table(w, host, mounts) && at < |mounts| && j < |mounts| - 1
    ensures Fits(w, host, Removed(mounts, at)[..j], Removed(mounts, at)[j])
  {
    var k := if j < at then j else j + 1;
    assert Fits(w, host, mounts[..k], mounts[k]);
    RemovedPrefix(mounts, at, j, k);
    FitsAmongFewer(w, host, mounts[..k], Removed(mounts, at)[..j], mounts[k]);
  }

  lemma RemovedPrefix<T>(s: seq<T>, at: nat, j: nat, k: nat)
    requires at < |s| && j < |s| - 1 && k == if j < at then j else j + 1
    ensures Removed(s, at)[j] == s[k]
    ensures forall o :: o in Removed(s, at)[..j] ==> o in s[..k]
  {
    var less := Removed(s, at)[..j];
    forall o | o in less
      ensures o in s[..k]
    {
      var i :| 0 <= i < |less| && less[i] == o;
      assert o == s[..k][if i < at then i else i + 1];
    }
  }

  lemma {:induction false} KeptConcat(a: seq<Mount>, fa: seq<bool>, b: seq<Mount>, fb: seq<bool>)
    requires |a| == |fa| && |b| == |fb|
    ensures Kept(a + b, fa + fb) == Kept(a, fa) + Kept(b, fb)
  {
    if b == [] {
      assert a + b == a && fa + fb == fa;
    } else {
      var k := |b| - 1;
      KeptConcat(a, fa, b[..k], fb[..k]);
      assert (a + b)[..|a| + k] == a + b[..k] && (fa + fb)[..|a| + k] == fa + fb[..k];
    }
  }

  lemma KeptOne(m: Mount, flag: bool)
    ensures Kept([m], [flag]) == if flag then [m] else []
  {
    assert [m][..0] == [] && [flag][..0] == [];
  }

  lemma RecordsConcat(a: seq<Mount>, b: seq<Mount>)
    ensures RecordsOf(a + b) == RecordsOf(a) + RecordsOf(b)
  {
  }

  /** A table's kept mounts fall into those before, at and after a position. */
  lemma KeptSplit(mounts: seq<Mount>, flags: seq<bool>, at: nat)
    requires |flags| == |mounts| && at < |mounts|
    ensures Kept(mounts, flags) == (Kept(mounts[..at], flags[..at]) + if flags[at] then [mounts[at]] else [])
                                   + Kept(mounts[at + 1..], flags[at + 1..])
    ensures Kept(Removed(mounts, at), Removed(flags, at))
         == Kept(mounts[..at], flags[..at]) + Kept(mounts[at + 1..], flags[at + 1..])
  {
    var a, fa, b, fb := mounts[..at], flags[..at], mounts[at + 1..], flags[at + 1..];
    assert mounts == (a + [mounts[at]]) + b && flags == (fa + [flags[at]]) + fb;
    KeptConcat(a + [mounts[at]], fa + [flags[at]], b, fb);
    KeptConcat(a, fa, [mounts[at]], [flags[at]]);
    KeptConcat(a, fa, b, fb);
    KeptOne(mounts[at], flags[at]);
  }

  lemma ForgetMiddle(a: seq<Mount>, m: seq<Mount>, b: seq<Mount>, name: string)
    requires Forget(RecordsOf(a), name) == RecordsOf(a) && Forget(RecordsOf(b), name) == RecordsOf(b)
    requires |m| <= 1 && forall i :: 0 <= i < |m| ==> m[i].name == name
    ensures Forget(RecordsOf((a + m) + b), name) == RecordsOf(a + b)
  {
    RecordsConcat(a + m, b);
    RecordsConcat(a, m);
    RecordsConcat(a, b);
    ForgetBetween(RecordsOf(a), RecordsOf(m), RecordsOf(b), name);
  }

  /** Forgetting an unmounted name leaves the record of exactly the mounts still kept. */
  lemma ForgetUnmounted(w: World, host: Store, mounts: seq<Mount>, flags: seq<bool>, at: nat)
    requires Table(w, host, mounts) && |flags| == |mounts| && at < |mounts|
    ensures Forget(RecordsOf(Kept(mounts, flags)), mounts[at].name)
         == RecordsOf(Kept(Removed(mounts, at), Removed(flags, at)))
  {
    NamesApart(w, host, mounts);
    NotRecorded(mounts[..at], flags[..at], mounts[at].name);
    NotRecorded(mounts[at + 1..], flags[at + 1..], mounts[at].name);
    KeptSplit(mounts, flags, at);
    ForgetMiddle(Kept(mounts[..at], flags[..at]), if flags[at] then [mounts[at]] else [],
                 Kept(mounts[at + 1..], flags[at + 1..]), mounts[at].name);
  }

  /** A name no mount has is in no record of them, and forgetting it changes nothing. */
  lemma NotRecorded(mounts: seq<Mount>, flags: seq<bool>, name: string)
    requires |flags| == |mounts| && forall i :: 0 <= i < |mounts| ==> mounts[i].name != name
    ensures forall r :: r in RecordsOf(Kept(mounts, flags)) ==> r.name != name
    ensures Forget(RecordsOf(Kept(mounts, flags)), name) == RecordsOf(Kept(mounts, flags))
  {
    var kept := Kept(mounts, flags);
    forall r | r in RecordsOf(kept)
      ensures r.name != name
    {
      var i :| 0 <= i < |kept| && r == RecordOf(kept[i]);
      KeptAmong(mounts, flags, kept[i]);
    }
    ForgetAbsent(RecordsOf(kept), name);
  }

  /** Remembering a mount just added leaves the record of exactly the mounts kept. */
  lemma RememberMounted(mounts: seq<Mount>, flags: seq<bool>, m: Mount)
    requires |flags| == |mounts| && forall i :: 0 <= i < |mounts| ==> mounts[i].name != m.name
    ensures Remember(RecordsOf(Kept(mounts, flags)), RecordOf(m)) == RecordsOf(Kept(mounts + [m], flags + [true]))
  {
    NotRecorded(mounts, flags, m.name);
    RememberNew(RecordsOf(Kept(mounts, flags)), RecordOf(m));
    KeptConcat(mounts, flags, [m], [true]);
    KeptOne(m, true);
    RecordsConcat(Kept(mounts, flags), [m]);
    assert RecordsOf([m]) == [RecordOf(m)];
  }

  lemma {:induction false} KeptAll(mounts: seq<Mount>, flags: seq<bool>)
    requires |flags| == |mounts| && forall j :: 0 <= j < |flags| ==> flags[j]
    ensures Kept(mounts, flags) == mounts
  {
    if mounts != [] {
      var k := |mounts| - 1;
      KeptAll(mounts[..k], flags[..k]);
      assert mounts == mounts[..k] + [mounts[k]];
    }
  }

  /** A record written as the kept mounts reads back as the kept mounts. */
  lemma WrittenInStep(w: World, host: Store, mounts: seq<Mount>, flags: seq<bool>, props: Properties, have: seq<Remembered>)
    requires w.Valid() && Table(w, host, mounts) && |flags| == |mounts|
    requires have == RecordsOf(Kept(mounts, flags))
    ensures Read(Write(props, have)) == RecordsOf(Kept(mounts, flags))
  {
    KeptTable(w, host, mounts, flags);
    RecordsWritable(w, host, Kept(mounts, flags));
    RecordReadsBack(props, have);
  }

  /** The request a recorded mount is replayed with. */
  function ReplayRequest(r: Remembered, grant: Option<Path>): Request {
    Request(r.path, if r.prefixed then Some(r.name) else None, grant, false)
  }

  /** Nothing stands in the way of replaying `mounts`: no other process holds a lock, the grant admits
      every path. */
  ghost predicate Replayable(w: World, mounts: seq<Mount>, locked: set<nat>, grant: Option<Path>) {
    forall m :: m in mounts ==> m.store.dir !in locked && (grant.Some? ==> w.within(grant.value, m.path))
  }

  /** Exactly one mount is gone, its flag with it; the others keep their order. */
  ghost predicate IsRemoval(was: seq<Mount>, kept: seq<bool>, mounts: seq<Mount>, flags: seq<bool>, gone: Mount) {
    |kept| == |was| && exists at :: 0 <= at < |was| && was[at] == gone && mounts == Removed(was, at) && flags == Removed(kept, at)
  }

  lemma IsTheRemoval(was: seq<Mount>, kept: seq<bool>, at: nat)
    requires |kept| == |was| && at < |was|
    ensures IsRemoval(was, kept, Removed(was, at), Removed(kept, at), was[at])
  {
  }

  /** The record stays writable and in step over an accepted mount. */
  lemma MountKeepsRecord(w: World, host: Store, mounts: seq<Mount>, flags: seq<bool>, m: Mount, remember: bool)
    requires w.Valid() && Table(w, host, mounts) && Fits(w, host, mounts, m) && |flags| == |mounts|
    ensures Table(w, host, mounts + [m])
    ensures RecordsOf(Kept(mounts + [m], flags + [false])) == RecordsOf(Kept(mounts, flags))
    ensures Remember(RecordsOf(Kept(mounts, flags)), RecordOf(m)) == RecordsOf(Kept(mounts + [m], flags + [true]))
    ensures Writable(RecordsOf(Kept(mounts + [m], flags + [true])))
  {
    TableSnoc(w, host, mounts, m);
    forall i | 0 <= i < |mounts|
      ensures mounts[i].name != m.name
    {
      assert mounts[i] in mounts && Apart(mounts[i], m);
    }
    RememberMounted(mounts, flags, m);
    KeptConcat(mounts, flags, [m], [false]);
    KeptOne(m, false);
    KeptTable(w, host, mounts + [m], flags + [true]);
    RecordsWritable(w, host, Kept(mounts + [m], flags + [true]));
  }

  /** Each recorded mount, replayed after those before it, is accepted as it was. */
  lemma ReplayAccepts(w: World, host: Store, was: seq<Mount>, i: nat, locked: set<nat>, grant: Option<Path>)
    requires Table(w, host, was) && i < |was| && Replayable(w, was, locked, grant)
    ensures Decide(w, host, was[..i], locked, ReplayRequest(RecordOf(was[i]), grant)) == Accepted(was[i])
    ensures was[..i + 1] == was[..i] + [was[i]]
  {
    assert was[i] in was && Fits(w, host, was[..i], was[i]);
    DecideIff(w, host, was[..i], locked, ReplayRequest(RecordOf(was[i]), grant), was[i]);
  }

  // ---- the steps -----------------------------------------------------------------

  /** The table, which of its mounts are to be remembered, and the host's startup properties. */
  datatype State = State(mounts: seq<Mount>, flags: seq<bool>, props: Properties) {
    ghost predicate Valid(w: World, host: Store) {
      w.Valid() && host.Valid() && Table(w, host, mounts) && |flags| == |mounts|
    }

    /** The mounts to be remembered, in order. */
    function ToKeep(): seq<Mount>
      requires |flags| == |mounts|
    {
      Kept(mounts, flags)
    }

    /** The record is exactly the remembered mounts, in order. */
    ghost predicate InStep() {
      |flags| == |mounts| && Read(props) == RecordsOf(ToKeep())
    }
  }

  function MountStep(w: World, host: Store, s: State, locked: set<nat>, req: Request): State {
    match Decide(w, host, s.mounts, locked, req)
    case Refused(_) => s
    case Accepted(m) =>
      State(s.mounts + [m], s.flags + [req.remember],
            if req.remember then Write(s.props, Remember(Read(s.props), RecordOf(m))) else s.props)
  }

  /** Where the mount of that name is, or the end of the table. */
  function IndexOf(mounts: seq<Mount>, name: string): (at: nat)
    ensures at <= |mounts| && (at < |mounts| ==> mounts[at].name == name)
    ensures forall i :: 0 <= i < at ==> mounts[i].name != name
  {
    if mounts == [] || mounts[0].name == name then 0 else 1 + IndexOf(mounts[1..], name)
  }

  function UnmountStep(s: State, name: string): State
    requires |s.flags| == |s.mounts|
  {
    var at := IndexOf(s.mounts, name);
    var props := Write(s.props, Forget(Read(s.props), name));
    if at == |s.mounts| then s.(props := props) else State(Removed(s.mounts, at), Removed(s.flags, at), props)
  }

  datatype Op = MountOp(req: Request, locked: set<nat>) | UnmountOp(name: string)

  function Step(w: World, host: Store, s: State, op: Op): (r: State)
    requires |s.flags| == |s.mounts|
    ensures |r.flags| == |r.mounts|
  {
    match op
    case MountOp(req, locked) => MountStep(w, host, s, locked, req)
    case UnmountOp(name) => UnmountStep(s, name)
  }

  function RunAll(w: World, host: Store, s: State, ops: seq<Op>): (r: State)
    requires |s.flags| == |s.mounts|
    ensures |r.flags| == |r.mounts|
  {
    if ops == [] then s else Step(w, host, RunAll(w, host, s, ops[..|ops| - 1]), ops[|ops| - 1])
  }

  /** What replaying has mounted so far, and what it could not, with why. */
  datatype Replayed = Replayed(mounts: seq<Mount>, failed: seq<(string, MountError)>)

  /** Each record in order is asked for like any mount; one refused is passed over. */
  function ReplayAll(w: World, host: Store, recs: seq<Remembered>, locked: set<nat>, grant: Option<Path>): Replayed {
    if recs == [] then Replayed([], [])
    else
      var r, rec := ReplayAll(w, host, recs[..|recs| - 1], locked, grant), recs[|recs| - 1];
      match Decide(w, host, r.mounts, locked, ReplayRequest(rec, grant))
      case Accepted(m) => r.(mounts := r.mounts + [m])
      case Refused(e) => r.(failed := r.failed + [(rec.name, e)])
  }

  function AllTrue(n: nat): (r: seq<bool>)
    ensures |r| == n && forall i :: 0 <= i < n ==> r[i]
  {
    seq(n, i => true)
  }

  /** A new process over a record: what replays is remembered, and the record is not touched. */
  function Boot(w: World, host: Store, props: Properties, locked: set<nat>, grant: Option<Path>): (r: State)
    ensures |r.flags| == |r.mounts|
  {
    var mounts := ReplayAll(w, host, Read(props), locked, grant).mounts;
    State(mounts, AllTrue(|mounts|), props)
  }

  /** One process: what stands in the way of its replay, and what it is asked to do. */
  datatype Session = Session(locked: set<nat>, grant: Option<Path>, ops: seq<Op>)

  /** Where a sequence of processes ends, each over what the one before left written. */
  function EndOf(w: World, host: Store, props: Properties, sessions: seq<Session>): (r: State)
    ensures |r.flags| == |r.mounts|
  {
    if sessions == [] then State([], [], props)
    else
      var before, s := EndOf(w, host, props, sessions[..|sessions| - 1]), sessions[|sessions| - 1];
      RunAll(w, host, Boot(w, host, before.props, s.locked, s.grant), s.ops)
  }

  // ---- what the steps keep ---------------------------------------------------------

  lemma MountStepKeeps(w: World, host: Store, s: State, locked: set<nat>, req: Request)
    requires s.Valid(w, host)
    ensures MountStep(w, host, s, locked, req).Valid(w, host)
    ensures s.InStep() ==> MountStep(w, host, s, locked, req).InStep()
  {
    var d := Decide(w, host, s.mounts, locked, req);
    if d.Accepted? {
      DecideIff(w, host, s.mounts, locked, req, d.mount);
      MountKeepsRecord(w, host, s.mounts, s.flags, d.mount, req.remember);
      if s.InStep() {
        RecordReadsBack(s.props, RecordsOf(Kept(s.mounts + [d.mount], s.flags + [true])));
      }
    }
  }

  lemma UnmountStepKeeps(w: World, host: Store, s: State, name: string)
    requires s.Valid(w, host)
    ensures UnmountStep(s, name).Valid(w, host)
    ensures s.InStep() ==> UnmountStep(s, name).InStep()
  {
    var at := IndexOf(s.mounts, name);
    var r := UnmountStep(s, name);
    if at == |s.mounts| {
      NotRecorded(s.mounts, s.flags, name);
    } else {
      RemovedTable(w, host, s.mounts, at);
      ForgetUnmounted(w, host, s.mounts, s.flags, at);
    }
    if s.InStep() {
      WrittenInStep(w, host, r.mounts, r.flags, s.props, Forget(Read(s.props), name));
    }
  }

  /** Mounted or not, in step or not, the name is forgotten and nothing else is. */
  lemma UnmountLeaves(s: State, name: string)
    requires |s.flags| == |s.mounts|
    ensures AreOthers(Read(s.props), name, Read(UnmountStep(s, name).props))
    ensures OnlyRecord(s.props, UnmountStep(s, name).props)
  {
    Forgotten(s.props, name);
  }

  /** Any run keeps the table's invariant and the record in step, whatever was refused. */
  lemma {:induction false} RunKeeps(w: World, host: Store, s: State, ops: seq<Op>)
    requires s.Valid(w, host)
    ensures RunAll(w, host, s, ops).Valid(w, host)
    ensures s.InStep() ==> RunAll(w, host, s, ops).InStep()
  {
    if ops != [] {
      var k := |ops| - 1;
      RunKeeps(w, host, s, ops[..k]);
      var before := RunAll(w, host, s, ops[..k]);
      match ops[k]
      case MountOp(req, locked) => MountStepKeeps(w, host, before, locked, req);
      case UnmountOp(name) => UnmountStepKeeps(w, host, before, name);
    }
  }

  // ---- restarts ----------------------------------------------------------------------

  /** Whatever the record and whatever is refused, replaying leaves a table, and every record is mounted
      or reported. */
  lemma {:induction false} ReplayIsTable(w: World, host: Store, recs: seq<Remembered>, locked: set<nat>, grant: Option<Path>)
    requires w.Valid()
    ensures var r := ReplayAll(w, host, recs, locked, grant);
            Table(w, host, r.mounts) && |r.mounts| + |r.failed| == |recs|
  {
    if recs != [] {
      var k := |recs| - 1;
      ReplayIsTable(w, host, recs[..k], locked, grant);
      var before := ReplayAll(w, host, recs[..k], locked, grant).mounts;
      var req := ReplayRequest(recs[k], grant);
      var d := Decide(w, host, before, locked, req);
      if d.Accepted? {
        DecideIff(w, host, before, locked, req, d.mount);
        TableSnoc(w, host, before, d.mount);
      }
    }
  }

  /** The record of a table nothing stands in the way of replays whole, in order. */
  lemma {:induction false} ReplayRebuilds(w: World, host: Store, was: seq<Mount>, n: nat, locked: set<nat>, grant: Option<Path>)
    requires Table(w, host, was) && Replayable(w, was, locked, grant) && n <= |was|
    ensures ReplayAll(w, host, RecordsOf(was)[..n], locked, grant) == Replayed(was[..n], [])
    decreases n
  {
    if n > 0 {
      ReplayRebuilds(w, host, was, n - 1, locked, grant);
      ReplayAccepts(w, host, was, n - 1, locked, grant);
      assert RecordsOf(was)[..n][..n - 1] == RecordsOf(was)[..n - 1];
    }
  }

  /** A restart over a record in step, with nothing in its way, brings back exactly the mounts remembered,
      reports nothing, and is in step. */
  lemma BootBringsBack(w: World, host: Store, s: State, locked: set<nat>, grant: Option<Path>)
    requires s.Valid(w, host) && s.InStep() && Replayable(w, s.ToKeep(), locked, grant)
    ensures ReplayAll(w, host, Read(s.props), locked, grant) == Replayed(s.ToKeep(), [])
    ensures Boot(w, host, s.props, locked, grant).InStep()
  {
    KeptTable(w, host, s.mounts, s.flags);
    ReplayWhole(w, host, s.ToKeep(), locked, grant);
    KeptAll(s.ToKeep(), AllTrue(|s.ToKeep()|));
  }

  lemma ReplayWhole(w: World, host: Store, was: seq<Mount>, locked: set<nat>, grant: Option<Path>)
    requires Table(w, host, was) && Replayable(w, was, locked, grant)
    ensures ReplayAll(w, host, RecordsOf(was), locked, grant) == Replayed(was, [])
  {
    ReplayRebuilds(w, host, was, |was|, locked, grant);
    assert RecordsOf(was)[..|was|] == RecordsOf(was) && was[..|was|] == was;
  }

  lemma {:induction false} EndIsTable(w: World, host: Store, props: Properties, sessions: seq<Session>)
    requires w.Valid() && host.Valid()
    ensures EndOf(w, host, props, sessions).Valid(w, host)
  {
    if sessions != [] {
      var s := sessions[|sessions| - 1];
      var before := EndOf(w, host, props, sessions[..|sessions| - 1]);
      ReplayIsTable(w, host, Read(before.props), s.locked, s.grant);
      RunKeeps(w, host, Boot(w, host, before.props, s.locked, s.grant), s.ops);
    }
  }

  /** What the process before the `k`th left. */
  function Left(w: World, host: Store, props: Properties, sessions: seq<Session>, k: nat): (r: State)
    requires k <= |sessions|
    ensures |r.flags| == |r.mounts|
  {
    EndOf(w, host, props, sessions[..k])
  }

  /** Nothing stands in the way of any restart. */
  ghost predicate Unobstructed(w: World, host: Store, props: Properties, sessions: seq<Session>) {
    forall k :: 0 <= k < |sessions| ==>
      Replayable(w, Left(w, host, props, sessions, k).ToKeep(), sessions[k].locked, sessions[k].grant)
  }

  lemma {:induction false} EndInStep(w: World, host: Store, props: Properties, sessions: seq<Session>)
    requires w.Valid() && host.Valid() && Read(props) == [] && Unobstructed(w, host, props, sessions)
    ensures EndOf(w, host, props, sessions).InStep()
  {
    if sessions == [] {
      assert RecordsOf(Kept([], [])) == [];
    } else {
      var k := |sessions| - 1;
      var before := Left(w, host, props, sessions, k);
      UnobstructedFirst(w, host, props, sessions, k);
      EndInStep(w, host, props, sessions[..k]);
      EndIsTable(w, host, props, sessions[..k]);
      BootBringsBack(w, host, before, sessions[k].locked, sessions[k].grant);
      ReplayIsTable(w, host, Read(before.props), sessions[k].locked, sessions[k].grant);
      RunKeeps(w, host, Boot(w, host, before.props, sessions[k].locked, sessions[k].grant), sessions[k].ops);
    }
  }

  lemma UnobstructedFirst(w: World, host: Store, props: Properties, sessions: seq<Session>, n: nat)
    requires Unobstructed(w, host, props, sessions) && n <= |sessions|
    ensures Unobstructed(w, host, props, sessions[..n])
  {
    forall k | 0 <= k < n
      ensures Replayable(w, Left(w, host, props, sessions[..n], k).ToKeep(), sessions[..n][k].locked, sessions[..n][k].grant)
    {
      assert sessions[..n][..k] == sessions[..k];
    }
  }

  /** From an empty record, over any sequence of processes, each replaying what the one before left written
      and then mounting and unmounting anything, refused or not: for as long as nothing stands in the way
      of a restart, the next process starts with exactly the mounts the one before was to remember, in
      order, nothing failing, and ends with the record in step with its table. */
  lemma RestartsBringBack(w: World, host: Store, props: Properties, sessions: seq<Session>, k: nat)
    requires w.Valid() && host.Valid() && Read(props) == []
    requires k < |sessions| && Unobstructed(w, host, props, sessions[..k + 1])
    ensures ReplayAll(w, host, Read(Left(w, host, props, sessions, k).props), sessions[k].locked, sessions[k].grant) ==
            Replayed(Left(w, host, props, sessions, k).ToKeep(), [])
    ensures Left(w, host, props, sessions, k + 1).Valid(w, host) && Left(w, host, props, sessions, k + 1).InStep()
  {
    var upTo := sessions[..k + 1];
    assert upTo[..k] == sessions[..k];
    assert Replayable(w, Left(w, host, props, upTo, k).ToKeep(), upTo[k].locked, upTo[k].grant);
    UnobstructedFirst(w, host, props, upTo, k);
    EndInStep(w, host, props, sessions[..k]);
    EndIsTable(w, host, props, sessions[..k]);
    BootBringsBack(w, host, Left(w, host, props, sessions, k), sessions[k].locked, sessions[k].grant);
    EndInStep(w, host, props, upTo);
    EndIsTable(w, host, props, upTo);
  }
}
