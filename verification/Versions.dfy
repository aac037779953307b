/** Version order: a padded numeric compare with a pre-release below its release. */
module Versions {
  import opened Decimals

  const MAX_U64: nat := 0xFFFF_FFFF_FFFF_FFFF

  datatype Ordering = Less | Equal | Greater {
    function Reverse(): Ordering {
      match this case Less => Greater case Equal => Equal case Greater => Less
    }
  }

  datatype Standing = Behind(latest: string) | Current | Ahead(latest: string)

  /** Numeric components, and whether a pre-release or build tag follows them. */
  datatype Key = Key(parts: seq<nat>, pre: bool)

  predicate IsTag(c: char) {
    c == '-' || c == '+'
  }

  /** The text before the first `-` or `+`. */
  function Core(v: string): string {
    if v == [] || IsTag(v[0]) then [] else [v[0]] + Core(v[1..])
  }

  function Split(s: string): (r: seq<string>)
    ensures r != []
  {
    if s == [] then [[]]
    else
      var rest := Split(s[1..]);
      if s[0] == '.' then [[]] + rest else [[s[0]] + rest[0]] + rest[1..]
  }

  /** A component that is not a number counts as zero. */
  function Component(p: string): nat {
    match Parse(Trim(p), MAX_U64) case Some(n) => n case None => 0
  }

  function Components(ps: seq<string>): (r: seq<nat>)
    ensures |r| == |ps|
  {
    seq(|ps|, i requires 0 <= i < |ps| => Component(ps[i]))
  }

  function KeyOf(v: string): Key {
    Key(Components(Split(Core(v))), Core(v) != v)
  }

  /** Missing components count as zero. */
  function At(parts: seq<nat>, i: nat): nat {
    if i < |parts| then parts[i] else 0
  }

  function CompareNat(x: nat, y: nat): Ordering {
    if x < y then Less else if x == y then Equal else Greater
  }

  function ComparePre(a: bool, b: bool): Ordering {
    if a == b then Equal else if a then Less else Greater
  }

  method Compare(a: string, b: string) returns (r: Ordering)
    ensures r == Cmp(a, b)
  {
    r := CompareKeys(KeyOf(a), KeyOf(b));
  }

  method CompareKeys(ka: Key, kb: Key) returns (r: Ordering)
    ensures r == CmpKeys(ka, kb)
  {
    var n := if |ka.parts| < |kb.parts| then |kb.parts| else |ka.parts|;
    var i := 0;
    while i < n
      invariant 0 <= i <= n
      invariant CmpFrom(ka, kb, i) == CmpKeys(ka, kb)
    {
      var x, y := At(ka.parts, i), At(kb.parts, i);
      if x != y {
        return CompareNat(x, y);
      }
      i := i + 1;
    }
    r := ComparePre(ka.pre, kb.pre);
  }

  function Longer(a: Key, b: Key): nat {
    if |a.parts| < |b.parts| then |b.parts| else |a.parts|
  }

  function CmpFrom(a: Key, b: Key, i: nat): Ordering
    decreases Longer(a, b) - i
  {
    if i >= Longer(a, b) then ComparePre(a.pre, b.pre)
    else if At(a.parts, i) != At(b.parts, i) then CompareNat(At(a.parts, i), At(b.parts, i))
    else CmpFrom(a, b, i + 1)
  }

  function CmpKeys(a: Key, b: Key): Ordering {
    CmpFrom(a, b, 0)
  }

  function Cmp(a: string, b: string): Ordering {
    CmpKeys(KeyOf(a), KeyOf(b))
  }

  // ---- what the order means ------------------------------------------------------

  ghost predicate AgreeBelow(a: Key, b: Key, i: nat) {
    forall j: nat :: j < i ==> At(a.parts, j) == At(b.parts, j)
  }

  /** `a` is below `b`: smaller at the first component they differ in, or differing in none and a
      pre-release of it. No bound on the components: past both ends they are all zero. */
  ghost predicate Below(a: Key, b: Key) {
    || (exists i: nat :: AgreeBelow(a, b, i) && At(a.parts, i) < At(b.parts, i))
    || ((forall i: nat :: At(a.parts, i) == At(b.parts, i)) && a.pre && !b.pre)
  }

  lemma {:induction false} CmpFromIsBelow(a: Key, b: Key, i: nat)
    requires AgreeBelow(a, b, i)
    ensures CmpFrom(a, b, i).Less? <==> Below(a, b)
    ensures CmpFrom(a, b, i).Greater? <==> Below(b, a)
    decreases Longer(a, b) - i
  {
    if i >= Longer(a, b) {
      assert forall j: nat :: At(a.parts, j) == At(b.parts, j);
    } else if At(a.parts, i) != At(b.parts, i) {
      assert AgreeBelow(b, a, i);
      forall j: nat | AgreeBelow(a, b, j) && At(a.parts, j) != At(b.parts, j)
        ensures j == i
      {
        assert j < i ==> At(a.parts, j) == At(b.parts, j);
      }
      assert forall j: nat :: AgreeBelow(b, a, j) ==> AgreeBelow(a, b, j);
    } else {
      CmpFromIsBelow(a, b, i + 1);
    }
  }

  /** The loop decides exactly the order, in both directions. */
  lemma CmpIsBelow(a: string, b: string)
    ensures Cmp(a, b).Less? <==> Below(KeyOf(a), KeyOf(b))
    ensures Cmp(a, b).Greater? <==> Below(KeyOf(b), KeyOf(a))
  {
    CmpFromIsBelow(KeyOf(a), KeyOf(b), 0);
  }

  lemma CmpReverses(a: string, b: string)
    ensures Cmp(b, a) == Cmp(a, b).Reverse()
    ensures Cmp(a, a) == Equal
  {
    CmpIsBelow(a, b);
    CmpIsBelow(b, a);
    CmpIsBelow(a, a);
  }

  ghost predicate Same(a: Key, b: Key) {
    (forall i: nat :: At(a.parts, i) == At(b.parts, i)) && a.pre == b.pre
  }

  /** Neither below the other is the same components and the same tag. */
  lemma NeitherBelow(a: Key, b: Key)
    ensures !Below(a, b) && !Below(b, a) <==> Same(a, b)
  {
    if !Below(a, b) && !Below(b, a) {
      forall i: nat
        ensures At(a.parts, i) == At(b.parts, i)
      {
        AgreeUpTo(a, b, i + 1);
      }
    }
  }

  lemma {:induction false} AgreeUpTo(a: Key, b: Key, n: nat)
    requires !Below(a, b) && !Below(b, a)
    ensures AgreeBelow(a, b, n)
  {
    if n > 0 {
      AgreeUpTo(a, b, n - 1);
      assert AgreeBelow(b, a, n - 1);
    }
  }

  lemma BelowTransitive(a: Key, b: Key, c: Key)
    requires Below(a, b) && Below(b, c)
    ensures Below(a, c)
  {
    if i: nat :| AgreeBelow(a, b, i) && At(a.parts, i) < At(b.parts, i) {
      if j: nat :| AgreeBelow(b, c, j) && At(b.parts, j) < At(c.parts, j) {
        var k := if i < j then i else j;
        assert AgreeBelow(a, c, k) && At(a.parts, k) < At(c.parts, k);
      } else {
        assert AgreeBelow(a, c, i) && At(a.parts, i) < At(c.parts, i);
      }
    } else {
      if j: nat :| AgreeBelow(b, c, j) && At(b.parts, j) < At(c.parts, j) {
        assert AgreeBelow(a, c, j) && At(a.parts, j) < At(c.parts, j);
      }
    }
  }

  lemma BelowSame(a: Key, b: Key, c: Key)
    requires Same(b, c)
    ensures Below(a, b) <==> Below(a, c)
    ensures Below(b, a) <==> Below(c, a)
  {
    assert forall i: nat :: AgreeBelow(a, b, i) <==> AgreeBelow(a, c, i);
    assert forall i: nat :: AgreeBelow(b, a, i) <==> AgreeBelow(c, a, i);
    assert (forall i: nat :: At(a.parts, i) == At(b.parts, i)) <==> (forall i: nat :: At(a.parts, i) == At(c.parts, i));
  }

  /** Not above is transitive, across padding and pre-release tags: versions are totally preordered. */
  lemma CmpTransitive(a: string, b: string, c: string)
    requires !Cmp(a, b).Greater? && !Cmp(b, c).Greater?
    ensures !Cmp(a, c).Greater?
    ensures Cmp(a, c).Equal? <==> Cmp(a, b).Equal? && Cmp(b, c).Equal?
  {
    var x, y, z := KeyOf(a), KeyOf(b), KeyOf(c);
    CmpIsBelow(a, b);
    CmpIsBelow(b, c);
    CmpIsBelow(a, c);
    NeitherBelow(x, y);
    NeitherBelow(y, z);
    NeitherBelow(x, z);
    if Same(x, y) {
      assert Same(y, x);
      BelowSame(z, x, y);
    } else if Same(y, z) {
      BelowSame(x, y, z);
    } else {
      BelowTransitive(x, y, z);
      Irreflexive(x, z);
    }
  }

  lemma Irreflexive(a: Key, b: Key)
    ensures !(Below(a, b) && Below(b, a))
  {
    if Below(a, b) && Below(b, a) {
      BelowTransitive(a, b, a);
    }
  }

  function StandingOf(current: string, latest: string): Standing {
    match Cmp(current, latest)
    case Less => Behind(latest)
    case Equal => Current
    case Greater => Ahead(latest)
  }

  /** Behind is below, ahead is above. */
  lemma StandingIsBelow(current: string, latest: string)
    ensures StandingOf(current, latest).Behind? <==> Below(KeyOf(current), KeyOf(latest))
    ensures StandingOf(current, latest).Ahead? <==> Below(KeyOf(latest), KeyOf(current))
    ensures StandingOf(current, latest).Current? <==> Same(KeyOf(current), KeyOf(latest))
  {
    CmpIsBelow(current, latest);
    NeitherBelow(KeyOf(current), KeyOf(latest));
  }

  /** One is behind the other exactly when the other is ahead of it; a version is current with itself. */
  lemma StandingMirrors(a: string, b: string)
    ensures StandingOf(a, b).Behind? <==> StandingOf(b, a).Ahead?
    ensures StandingOf(a, b).Current? <==> StandingOf(b, a).Current?
    ensures StandingOf(a, a) == Current
  {
    CmpReverses(a, b);
    CmpReverses(a, a);
  }

  // ---- what is read of a version as it is written --------------------------------

  /** Numbers, dots between them. */
  function Dotted(ns: seq<nat>): string
    requires ns != []
  {
    if |ns| == 1 then Print(ns[0]) else Print(ns[0]) + "." + Dotted(ns[1..])
  }

  lemma {:induction false} CoreUntilTag(s: string, rest: string)
    requires forall c :: c in s ==> !IsTag(c)
    ensures Core(s) == s && (rest != [] && IsTag(rest[0]) ==> Core(s + rest) == s)
  {
    if s == [] {
      assert s + rest == rest;
    } else {
      assert s[0] in s;
      assert (s + rest)[1..] == s[1..] + rest;
      CoreUntilTag(s[1..], rest);
    }
  }

  lemma {:induction false} SplitAtDot(a: string, rest: string)
    requires '.' !in a
    ensures Split(a) == [a] && Split(a + "." + rest) == [a] + Split(rest)
  {
    if a == [] {
      assert a + "." + rest == "." + rest;
      assert ("." + rest)[1..] == rest;
    } else {
      assert a[0] in a;
      assert (a + "." + rest)[1..] == a[1..] + "." + rest;
      SplitAtDot(a[1..], rest);
      assert [a[0]] + a[1..] == a;
      assert ([a[1..]] + Split(rest))[1..] == Split(rest) && [a[1..]][1..] == [];
    }
  }

  lemma PrintIsPlain(n: nat)
    ensures '.' !in Print(n) && Trim(Print(n)) == Print(n) && forall c :: c in Print(n) ==> !IsTag(c)
  {
    var s := Print(n);
    assert s[0] in s && s[|s| - 1] in s;
  }

  lemma {:induction false} DottedHasNoTag(ns: seq<nat>)
    requires ns != []
    ensures forall c :: c in Dotted(ns) ==> !IsTag(c)
  {
    PrintIsPlain(ns[0]);
    if |ns| > 1 {
      DottedHasNoTag(ns[1..]);
    }
  }

  lemma ComponentsCons(p: string, ps: seq<string>)
    ensures Components([p] + ps) == [Component(p)] + Components(ps)
  {
  }

  lemma {:induction false} DottedReadsBack(ns: seq<nat>)
    requires ns != [] && forall i :: 0 <= i < |ns| ==> ns[i] <= MAX_U64
    ensures Components(Split(Dotted(ns))) == ns
  {
    PrintIsPlain(ns[0]);
    ParsePrint(ns[0], MAX_U64);
    if |ns| == 1 {
      SplitAtDot(Print(ns[0]), []);
    } else {
      SplitAtDot(Print(ns[0]), Dotted(ns[1..]));
      DottedReadsBack(ns[1..]);
      ComponentsCons(Print(ns[0]), Split(Dotted(ns[1..])));
      assert ns == [ns[0]] + ns[1..];
    }
  }

  /** Dotted numbers are read as they are; with a tag after them, as a pre-release of them. */
  lemma KeyOfWritten(ns: seq<nat>, tag: string)
    requires ns != [] && forall i :: 0 <= i < |ns| ==> ns[i] <= MAX_U64
    requires tag != [] && (tag[0] == '-' || tag[0] == '+')
    ensures KeyOf(Dotted(ns)) == Key(ns, false) && KeyOf(Dotted(ns) + tag) == Key(ns, true)
  {
    DottedHasNoTag(ns);
    CoreUntilTag(Dotted(ns), tag);
    DottedReadsBack(ns);
    assert |Dotted(ns) + tag| > |Dotted(ns)|;
  }

  /** What is not a number counts as zero. */
  lemma NotANumberIsZero(p: string)
    requires exists c :: c in Trim(p) && !IsDigit(c) && c != '+'
    ensures Component(p) == 0
  {
    var s := Trim(p);
    var c :| c in s && !IsDigit(c) && c != '+';
    assert s[0] == '+' ==> c in s[1..];
  }
}
