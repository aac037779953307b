/** Evaluating a revision over a history: stepping to parents and walking back to a date. */
module History {
  import opened Collections
  import opened Revisions

  type Commit = nat

  /** A recorded parent: its place among the parents, and the commit when the history holds it. */
  datatype Link = Link(order: Option<int>, to: Option<Commit>)

  datatype Why = NoParent(at: Commit, order: nat, taken: nat) | NotThatOld(begins: Commit) | GaveUp | Unknown

  datatype Found = One(commit: Commit) | Many(commits: seq<Commit>) | Nothing(why: Why)

  /** Most commits a walk down first parents visits. */
  const WALK_CAP: nat := 100_000

  /** One history: every commit's parents and time, and what HEAD and names resolve to. */
  datatype History = History(links: Commit -> seq<Link>, committed: Commit -> Option<int>,
                             head: Found, named: string -> Found)
  {
    function FirstLink(list: seq<Link>, order: nat): Option<Commit> {
      if list == [] then None
      else if list[0].order == Some(order as int) then list[0].to
      else FirstLink(list[1..], order)
    }

    /** Parent number `order`, counting from one. */
    function ParentOf(c: Commit, order: nat): Option<Commit> {
      FirstLink(links(c), order)
    }

    function Up(c: Commit, order: nat, hops: nat, taken: nat): Found
      decreases hops
    {
      if hops == 0 then One(c)
      else match ParentOf(c, order)
        case Some(p) => Up(p, order, hops - 1, taken + 1)
        case None => Nothing(NoParent(c, order, taken))
    }

    function StepFrom(c: Commit, step: Step): Found {
      match step
      case Back(n) => Up(c, 1, n, 0)
      case Parent(n) => if n == 0 then One(c) else Up(c, n, 1, 0)
    }

    predicate IsOld(c: Commit, limit: int) {
      committed(c).Some? && committed(c).value <= limit
    }

    function BackTo(c: Commit, limit: int, visits: nat): Found
      decreases visits
    {
      if visits == 0 then Nothing(GaveUp)
      else if IsOld(c, limit) then One(c)
      else match ParentOf(c, 1)
        case Some(p) => BackTo(p, limit, visits - 1)
        case None => Nothing(NotThatOld(c))
    }

    /** Milliseconds floor to seconds. */
    function BeforeInstant(c: Commit, at: int): Found {
      BackTo(c, at / 1000, WALK_CAP)
    }

    function Eval(expr: RevExpr): Found {
      match expr
      case Head => head
      case Name(name) => named(name)
      case AtDate(from, at) =>
        var start := Eval(from);
        if start.One? then BeforeInstant(start.commit, at) else start
      case Ancestor(from, step) =>
        var start := Eval(from);
        if start.One? then StepFrom(start.commit, step) else start
    }

    /** `i` is the first recorded parent of that order. */
    ghost predicate IsFirstLink(c: Commit, order: nat, i: nat) {
      && i < |links(c)| && links(c)[i].order == Some(order as int)
      && forall j :: 0 <= j < i ==> links(c)[j].order != Some(order as int)
    }

    lemma {:induction false} FirstLinkIs(list: seq<Link>, order: nat, i: nat)
      requires i <= |list| && forall j :: 0 <= j < i ==> list[j].order != Some(order as int)
      requires i < |list| ==> list[i].order == Some(order as int)
      ensures FirstLink(list, order) == if i < |list| then list[i].to else None
    {
      if i > 0 {
        FirstLinkIs(list[1..], order, i - 1);
      }
    }

    /** A commit's parent of an order is the first recorded as such, and none when none is. */
    lemma ParentIsFirst(c: Commit, order: nat)
      ensures forall i: nat :: IsFirstLink(c, order, i) ==> ParentOf(c, order) == links(c)[i].to
      ensures (forall j :: 0 <= j < |links(c)| ==> links(c)[j].order != Some(order as int)) ==> ParentOf(c, order) == None
    {
      forall i: nat | IsFirstLink(c, order, i)
        ensures ParentOf(c, order) == links(c)[i].to
      {
        FirstLinkIs(links(c), order, i);
      }
      if forall j :: 0 <= j < |links(c)| ==> links(c)[j].order != Some(order as int) {
        FirstLinkIs(links(c), order, |links(c)|);
      }
    }

    // ---- as the source runs them -----------------------------------------------

    method FindParent(c: Commit, order: nat) returns (r: Option<Commit>)
      ensures r == ParentOf(c, order)
      ensures forall i: nat :: IsFirstLink(c, order, i) ==> r == links(c)[i].to
    {
      ParentIsFirst(c, order);
      var list := links(c);
      var i := 0;
      while i < |list|
        invariant 0 <= i <= |list|
        invariant FirstLink(list[i..], order) == ParentOf(c, order)
      {
        if list[i].order == Some(order as int) {
          return list[i].to;
        }
        assert list[i..][1..] == list[i + 1..];
        i := i + 1;
      }
      return None;
    }

    method TakeStep(start: Commit, step: Step) returns (r: Found)
      ensures r == StepFrom(start, step)
    {
      var hops, order;
      match step {
        case Back(n) => hops, order := n, 1;
        case Parent(n) =>
          if n == 0 {
            return One(start);
          }
          hops, order := 1, n;
      }
      var node, taken := start, 0;
      while taken < hops
        invariant 0 <= taken <= hops
        invariant Up(node, order, hops - taken, taken) == StepFrom(start, step)
      {
        var p := FindParent(node, order);
        if p.None? {
          return Nothing(NoParent(node, order, taken));
        }
        node, taken := p.value, taken + 1;
      }
      r := One(node);
    }

    method WalkBefore(start: Commit, at: int) returns (r: Found)
      ensures r == BeforeInstant(start, at)
    {
      var limit := at / 1000;
      var node, visits := start, 0;
      while visits < WALK_CAP
        invariant 0 <= visits <= WALK_CAP
        invariant BackTo(node, limit, WALK_CAP - visits) == BeforeInstant(start, at)
      {
        if IsOld(node, limit) {
          return One(node);
        }
        var p := FindParent(node, 1);
        if p.None? {
          return Nothing(NotThatOld(node));
        }
        node, visits := p.value, visits + 1;
      }
      r := Nothing(GaveUp);
    }

    // ---- steps -----------------------------------------------------------------

    lemma {:induction false} UpAdds(c: Commit, order: nat, m: nat, n: nat, taken: nat, again: nat, whole: nat)
      ensures var first := Up(c, order, m, taken);
              var both := if first.One? then Up(first.commit, order, n, again) else first;
              SameCommit(both, Up(c, order, m + n, whole))
      decreases m
    {
      if m == 0 {
        UpIgnoresTaken(c, order, n, again, whole);
      } else if ParentOf(c, order).Some? {
        UpAdds(ParentOf(c, order).value, order, m - 1, n, taken + 1, again, whole + 1);
      }
    }

    lemma {:induction false} UpIgnoresTaken(c: Commit, order: nat, hops: nat, a: nat, b: nat)
      ensures SameCommit(Up(c, order, hops, a), Up(c, order, hops, b))
      decreases hops
    {
      if hops > 0 && ParentOf(c, order).Some? {
        UpIgnoresTaken(ParentOf(c, order).value, order, hops - 1, a + 1, b + 1);
      }
    }

    /** `~m` then `~n` is `~(m+n)`, or neither is anything. */
    lemma BackAdds(e: RevExpr, m: nat, n: nat)
      ensures SameCommit(Eval(Ancestor(Ancestor(e, Back(m)), Back(n))), Eval(Ancestor(e, Back(m + n))))
    {
      var start := Eval(e);
      var first := Eval(Ancestor(e, Back(m)));
      if start.One? {
        assert first == Up(start.commit, 1, m, 0);
        UpAdds(start.commit, 1, m, n, 0, 0, 0);
      } else {
        assert first == start;
      }
    }

    /** `^1` is `~1`; `^0` and `~0` are the commit itself. */
    lemma StepIdentities(e: RevExpr)
      ensures Eval(Ancestor(e, Parent(1))) == Eval(Ancestor(e, Back(1)))
      ensures Eval(Ancestor(e, Parent(0))) == Eval(e) && Eval(Ancestor(e, Back(0))) == Eval(e)
    {
    }

    // ---- dates -----------------------------------------------------------------

    /** The commit `i` first parents back. */
    function Line(c: Commit, i: nat): Option<Commit>
      decreases i
    {
      if i == 0 then Some(c)
      else match ParentOf(c, 1) case Some(p) => Line(p, i - 1) case None => None
    }

    lemma {:induction false} UpTheLine(c: Commit, k: nat, taken: nat, x: Commit)
      requires Line(c, k) == Some(x)
      ensures Up(c, 1, k, taken) == One(x)
      decreases k
    {
      if k > 0 {
        UpTheLine(ParentOf(c, 1).value, k - 1, taken + 1, x);
      }
    }

    /** Steps from what a base resolves to: `~k` is `k` first parents back, `^n` the parent of order `n`. */
    lemma StepsResolve(e: RevExpr, c: Commit, k: nat, n: nat)
      requires Eval(e) == One(c) && n > 0
      ensures Line(c, k).Some? ==> Eval(Ancestor(e, Back(k))) == One(Line(c, k).value)
      ensures ParentOf(c, n).Some? ==> Eval(Ancestor(e, Parent(n))) == One(ParentOf(c, n).value)
      ensures ParentOf(c, n).None? ==> Eval(Ancestor(e, Parent(n))).Nothing?
    {
      if Line(c, k).Some? {
        UpTheLine(c, k, 0, Line(c, k).value);
      }
      if ParentOf(c, n).Some? {
        assert Up(ParentOf(c, n).value, n, 0, 1) == One(ParentOf(c, n).value);
      }
    }

    /** A named revision and its steps start from what the name resolves to, HEAD's from HEAD. */
    lemma NamedSteps(name: string, c: Commit, k: nat)
      requires Line(c, k).Some?
      ensures named(name) == One(c) ==> Eval(Ancestor(Name(name), Back(k))) == One(Line(c, k).value)
      ensures head == One(c) ==> Eval(Ancestor(Head, Back(k))) == One(Line(c, k).value)
    {
      if named(name) == One(c) {
        StepsResolve(Name(name), c, k, 1);
      }
      if head == One(c) {
        StepsResolve(Head, c, k, 1);
      }
    }

    /** `x` is the first commit on the line that is old enough, `i` first parents back. */
    ghost predicate IsFirstOld(c: Commit, limit: int, x: Commit, i: nat) {
      && Line(c, i) == Some(x) && IsOld(x, limit)
      && forall j: nat :: j < i ==> Line(c, j).Some? && !IsOld(Line(c, j).value, limit)
    }

    /** The walk finds a commit exactly when one of the first `visits` on the first-parent line is old
        enough, and it is the first such. */
    lemma {:induction false} BackToFirst(c: Commit, limit: int, visits: nat, x: Commit)
      ensures BackTo(c, limit, visits) == One(x) <==> exists i: nat :: i < visits && IsFirstOld(c, limit, x, i)
      decreases visits
    {
      if visits > 0 {
        if IsOld(c, limit) {
          assert Line(c, 0) == Some(c);
          if x == c {
            assert IsFirstOld(c, limit, x, 0);
          }
          forall i: nat | IsFirstOld(c, limit, x, i)
            ensures i == 0
          {
          }
        } else if ParentOf(c, 1).Some? {
          var p := ParentOf(c, 1).value;
          BackToFirst(p, limit, visits - 1, x);
          FirstOldShifts(c, p, limit, x, visits);
        } else {
          forall i: nat | i < visits && IsFirstOld(c, limit, x, i)
            ensures i == 0
          {
          }
        }
      }
    }

    lemma FirstOldShifts(c: Commit, p: Commit, limit: int, x: Commit, visits: nat)
      requires visits > 0 && ParentOf(c, 1) == Some(p) && !IsOld(c, limit)
      ensures (exists i: nat :: i < visits && IsFirstOld(c, limit, x, i))
         <==> exists i: nat :: i < visits - 1 && IsFirstOld(p, limit, x, i)
    {
      if i: nat :| i < visits && IsFirstOld(c, limit, x, i) {
        assert i > 0;
        forall j: nat | j < i - 1
          ensures Line(p, j).Some? && !IsOld(Line(p, j).value, limit)
        {
          assert Line(c, j + 1) == Line(p, j);
        }
        assert IsFirstOld(p, limit, x, i - 1);
      }
      if i: nat :| i < visits - 1 && IsFirstOld(p, limit, x, i) {
        forall j: nat | j < i + 1
          ensures Line(c, j).Some? && !IsOld(Line(c, j).value, limit)
        {
          assert j > 0 ==> Line(c, j) == Line(p, j - 1);
        }
        assert IsFirstOld(c, limit, x, i + 1);
      }
    }

    /** A dated revision is the first commit old enough on the line from what it dates, within the cap. */
    lemma DatedResolves(e: RevExpr, c: Commit, at: int, x: Commit)
      requires Eval(e) == One(c)
      ensures Eval(AtDate(e, at)) == One(x) <==> exists i: nat :: i < 100_000 && IsFirstOld(c, at / 1000, x, i)
    {
      BackToFirst(c, at / 1000, WALK_CAP, x);
    }

    /** Times never increase along the line. */
    ghost predicate Descending(c: Commit) {
      forall i: nat, j: nat :: i <= j && Line(c, j).Some? ==>
        && Line(c, i).Some? && committed(Line(c, i).value).Some? && committed(Line(c, j).value).Some?
        && committed(Line(c, j).value).value <= committed(Line(c, i).value).value
    }

    /** On such a line the commit found is the newest that is old enough. */
    lemma FoundIsNewest(c: Commit, at: int, x: Commit, j: nat)
      requires Descending(c) && BeforeInstant(c, at) == One(x)
      requires Line(c, j).Some? && IsOld(Line(c, j).value, at / 1000)
      ensures IsOld(x, at / 1000) && committed(Line(c, j).value).value <= committed(x).value
    {
      BackToFirst(c, at / 1000, WALK_CAP, x);
      var i: nat :| i < WALK_CAP && IsFirstOld(c, at / 1000, x, i);
      assert i <= j;
    }

    lemma {:induction false} MoreVisits(c: Commit, limit: int, few: nat, many: nat)
      requires few <= many
      ensures BackTo(c, limit, few).One? ==> BackTo(c, limit, many) == BackTo(c, limit, few)
      ensures BackTo(c, limit, many).One? ==>
                BackTo(c, limit, few) == BackTo(c, limit, many) || BackTo(c, limit, few) == Nothing(GaveUp)
      decreases few
    {
      if few > 0 && !IsOld(c, limit) && ParentOf(c, 1).Some? {
        MoreVisits(ParentOf(c, 1).value, limit, few - 1, many - 1);
      }
    }

    function Lower(a: int, b: int): int {
      if a <= b then a else b
    }

    /** What one walk to the lower limit finds, two walks in a row find. */
    lemma {:induction false} LowerThenBoth(c: Commit, a: int, b: int, visits: nat, cap: nat)
      requires visits <= cap && BackTo(c, Lower(a, b), visits).One?
      ensures BackTo(c, a, visits).One?
      ensures BackTo(BackTo(c, a, visits).commit, b, cap) == BackTo(c, Lower(a, b), visits)
      decreases visits
    {
      if IsOld(c, a) {
        MoreVisits(c, b, visits, cap);
      } else {
        LowerThenBoth(ParentOf(c, 1).value, a, b, visits - 1, cap);
      }
    }

    /** Walking on from a commit of the line stays on the line. */
    lemma {:induction false} LineComposes(c: Commit, y: Commit, i: nat, k: nat)
      requires Line(c, i) == Some(y)
      ensures Line(c, i + k) == Line(y, k)
      decreases i
    {
      if i > 0 {
        LineComposes(ParentOf(c, 1).value, y, i - 1, k);
      }
    }

    /** The first old enough for `b`, from the first old enough for `a`, is the first old enough for both. */
    lemma FirstOldComposes(c: Commit, a: int, b: int, y: Commit, x: Commit, i: nat, k: nat)
      requires IsFirstOld(c, a, y, i) && IsFirstOld(y, b, x, k)
      ensures IsFirstOld(c, Lower(a, b), x, i + k)
    {
      LineComposes(c, y, i, k);
      assert k > 0 ==> Line(y, 0) == Some(y) && !IsOld(y, b);
      forall j: nat | j < i + k
        ensures Line(c, j).Some? && !IsOld(Line(c, j).value, Lower(a, b))
      {
        if i <= j {
          LineComposes(c, y, i, j - i);
          assert Line(y, j - i).Some? && !IsOld(Line(y, j - i).value, b);
        }
      }
    }

    /** Walking back to `a` and then to `b` takes each walk fewer visits than the cap, and both together
        as many as the cap or more. */
    ghost predicate TogetherPastCap(c: Commit, a: int, b: int) {
      exists y, x, i: nat, k: nat ::
        i < WALK_CAP && k < WALK_CAP <= i + k && IsFirstOld(c, a, y, i) && IsFirstOld(y, b, x, k)
    }

    /** Two walks in a row, as one result. */
    function BackTwice(c: Commit, a: int, b: int): Found {
      var first := BackTo(c, a, WALK_CAP);
      if first.One? then BackTo(first.commit, b, WALK_CAP) else first
    }

    /** A walk of no more visits than lie before the first old enough finds nothing. */
    lemma {:induction false} TooFarToFind(c: Commit, limit: int, visits: nat, x: Commit, n: nat)
      requires IsFirstOld(c, limit, x, n) && visits <= n
      ensures !BackTo(c, limit, visits).One?
      decreases visits
    {
      if visits > 0 {
        assert Line(c, 0) == Some(c) && Line(c, n) == Some(x);
        var p := ParentOf(c, 1).value;
        forall j: nat | j < n - 1
          ensures Line(p, j).Some? && !IsOld(Line(p, j).value, limit)
        {
          assert Line(c, j + 1) == Line(p, j);
        }
        TooFarToFind(p, limit, visits - 1, x, n - 1);
      }
    }

    /** Past the cap together, two walks find what one does not. */
    lemma TwiceFindsMore(c: Commit, a: int, b: int)
      requires TogetherPastCap(c, a, b)
      ensures BackTwice(c, a, b).One? && !BackTo(c, Lower(a, b), WALK_CAP).One?
    {
      var y, x, i: nat, k: nat :|
        i < WALK_CAP && k < WALK_CAP <= i + k && IsFirstOld(c, a, y, i) && IsFirstOld(y, b, x, k);
      BackToFirst(c, a, WALK_CAP, y);
      BackToFirst(y, b, WALK_CAP, x);
      FirstOldComposes(c, a, b, y, x, i, k);
      TooFarToFind(c, Lower(a, b), WALK_CAP, x, i + k);
    }

    /** Otherwise what two walks find, one does. */
    lemma OnceFindsAll(c: Commit, a: int, b: int)
      requires !TogetherPastCap(c, a, b) && BackTwice(c, a, b).One?
      ensures BackTo(c, Lower(a, b), WALK_CAP) == BackTwice(c, a, b)
    {
      var y, x := BackTo(c, a, WALK_CAP).commit, BackTwice(c, a, b).commit;
      BackToFirst(c, a, WALK_CAP, y);
      BackToFirst(y, b, WALK_CAP, x);
      var i: nat :| i < WALK_CAP && IsFirstOld(c, a, y, i);
      var k: nat :| k < WALK_CAP && IsFirstOld(y, b, x, k);
      FirstOldComposes(c, a, b, y, x, i, k);
      assert i + k < WALK_CAP;
      BackToFirst(c, Lower(a, b), WALK_CAP, x);
    }

    /** Two walks agree with one to the lower limit, exactly when they are not past the cap together. */
    lemma WalksCompose(c: Commit, a: int, b: int)
      ensures SameCommit(BackTwice(c, a, b), BackTo(c, Lower(a, b), WALK_CAP)) <==> !TogetherPastCap(c, a, b)
    {
      if TogetherPastCap(c, a, b) {
        TwiceFindsMore(c, a, b);
      } else if BackTwice(c, a, b).One? {
        OnceFindsAll(c, a, b);
      } else {
        BackToOneOrNone(c, Lower(a, b), WALK_CAP);
        BackToOneOrNone(c, a, WALK_CAP);
        if BackTo(c, a, WALK_CAP).One? {
          BackToOneOrNone(BackTo(c, a, WALK_CAP).commit, b, WALK_CAP);
        }
        if BackTo(c, Lower(a, b), WALK_CAP).One? {
          LowerThenBoth(c, a, b, WALK_CAP, WALK_CAP);
        }
      }
    }

    lemma {:induction false} BackToOneOrNone(c: Commit, limit: int, visits: nat)
      ensures !BackTo(c, limit, visits).Many?
      decreases visits
    {
      if visits > 0 && !IsOld(c, limit) && ParentOf(c, 1).Some? {
        BackToOneOrNone(ParentOf(c, 1).value, limit, visits - 1);
      }
    }

    /** Dating a revision at `a` and then at `b` is dating it at the earlier of the two, exactly when the
        two walks are not past the cap together. */
    lemma DatesCompose(e: RevExpr, a: int, b: int)
      ensures SameCommit(Eval(AtDate(AtDate(e, a), b)), Eval(AtDate(e, Lower(a, b)))) <==>
              !(Eval(e).One? && TogetherPastCap(Eval(e).commit, a / 1000, b / 1000))
    {
      var start := Eval(e);
      assert Lower(a, b) / 1000 == Lower(a / 1000, b / 1000);
      if start.One? {
        var c := start.commit;
        assert Eval(AtDate(e, a)) == BackTo(c, a / 1000, WALK_CAP);
        assert Eval(AtDate(AtDate(e, a), b)) == BackTwice(c, a / 1000, b / 1000);
        WalksCompose(c, a / 1000, b / 1000);
      } else {
        assert Eval(AtDate(e, a)) == start;
      }
    }

    /** And where they differ, two walks find a commit and the one gives up at its cap. */
    lemma DatesDiffer(e: RevExpr, a: int, b: int)
      requires Eval(e).One? && TogetherPastCap(Eval(e).commit, a / 1000, b / 1000)
      ensures Eval(AtDate(AtDate(e, a), b)).One? && Eval(AtDate(e, Lower(a, b))) == Nothing(GaveUp)
    {
      var c := Eval(e).commit;
      assert Lower(a, b) / 1000 == Lower(a / 1000, b / 1000);
      assert Eval(AtDate(e, a)) == BackTo(c, a / 1000, WALK_CAP);
      assert Eval(AtDate(AtDate(e, a), b)) == BackTwice(c, a / 1000, b / 1000);
      OnceGivesUp(c, a / 1000, b / 1000);
    }

    lemma OnceGivesUp(c: Commit, a: int, b: int)
      requires TogetherPastCap(c, a, b)
      ensures BackTwice(c, a, b).One? && BackTo(c, Lower(a, b), WALK_CAP) == Nothing(GaveUp)
    {
      TwiceFindsMore(c, a, b);
      FoundWithMore(c, a, b, BackTwice(c, a, b).commit);
      MoreVisits(c, Lower(a, b), WALK_CAP, 2 * WALK_CAP);
    }

    /** What two walks find, one with the visits of both finds. */
    lemma FoundWithMore(c: Commit, a: int, b: int, x: Commit)
      requires BackTwice(c, a, b) == One(x)
      ensures BackTo(c, Lower(a, b), 2 * WALK_CAP) == One(x)
    {
      var y := BackTo(c, a, WALK_CAP).commit;
      BackToFirst(c, a, WALK_CAP, y);
      BackToFirst(y, b, WALK_CAP, x);
      var i: nat :| i < WALK_CAP && IsFirstOld(c, a, y, i);
      var k: nat :| k < WALK_CAP && IsFirstOld(y, b, x, k);
      FirstOldComposes(c, a, b, y, x, i, k);
      BackToFirst(c, Lower(a, b), 2 * WALK_CAP, x);
    }
  }

  // ---- a history long enough -----------------------------------------------------

  function ChainLinks(c: Commit): seq<Link> {
    if c == 0 then [] else var parent: Commit := c - 1; [Link(Some(1), Some(parent))]
  }

  /** One line of commits, commit `c` made at second `c`, HEAD at `top`. */
  function Chain(top: Commit): History {
    History((c: Commit) => ChainLinks(c), (c: Commit) => Some(c as int), One(top), _ => Nothing(Unknown))
  }

  lemma {:induction false} ChainLine(h: History, top: Commit, c: Commit, i: nat)
    requires h == Chain(top) && i <= c
    ensures h.Line(c, i) == Some(c - i)
    decreases i
  {
    if i > 0 {
      ChainLine(h, top, c - 1, i - 1);
    }
  }

  lemma ChainFirstOld(h: History, top: Commit, c: Commit, limit: nat)
    requires h == Chain(top) && limit <= c
    ensures h.IsFirstOld(c, limit, limit, c - limit)
  {
    forall j: nat | j <= c - limit
      ensures h.Line(c, j) == Some(c - j)
    {
      ChainLine(h, top, c, j);
    }
  }

  lemma ChainPastCap(h: History, top: Commit, mid: nat, low: nat)
    requires h == Chain(top) && low <= mid <= top
    requires top - mid < WALK_CAP && mid - low < WALK_CAP <= top - low
    ensures h.TogetherPastCap(top, mid, low)
    ensures h.BackTwice(top, mid, low) == One(low)
  {
    ChainFirstOld(h, top, top, mid);
    ChainFirstOld(h, top, mid, low);
    h.BackToFirst(top, mid, WALK_CAP, mid);
    h.BackToFirst(mid, low, WALK_CAP, low);
    assert (top - mid) + (mid - low) == top - low;
  }

  lemma ChainDiffers(h: History, top: Commit, mid: nat, low: nat, a: int, b: int)
    requires h == Chain(top) && low <= mid <= top && a / 1000 == mid && b / 1000 == low && b <= a
    requires top - mid < WALK_CAP && mid - low < WALK_CAP <= top - low
    ensures h.Eval(AtDate(AtDate(Head, a), b)) == One(low) && h.Eval(AtDate(Head, b)) == Nothing(GaveUp)
  {
    ChainPastCap(h, top, mid, low);
    h.DatesDiffer(Head, a, b);
    assert h.Eval(AtDate(Head, a)) == h.BackTo(top, mid, WALK_CAP);
  }

  /** 150,000 commits in a line: at second 60,000 and then at second 10,000 is the commit of that second,
      and at second 10,000 alone is nothing. */
  lemma DatesMayDiffer(h: History)
    requires h == Chain(150_000)
    ensures h.Eval(AtDate(AtDate(Head, 60_000_000), 10_000_000)) == One(10_000)
    ensures h.Eval(AtDate(Head, 10_000_000)) == Nothing(GaveUp)
  {
    ChainDiffers(h, 150_000, 60_000, 10_000, 60_000_000, 10_000_000);
  }

  /** The same commit, or neither is one (and then the same many, or nothing). */
  predicate SameCommit(a: Found, b: Found) {
    match (a, b)
    case (One(x), One(y)) => x == y
    case (Many(x), Many(y)) => x == y
    case (Nothing(_), Nothing(_)) => true
    case _ => false
  }
}
