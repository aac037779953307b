/** Revision expressions: the parser, its grammar in both directions, and what printing gives back. */
module Revisions {
  import opened Collections
  import opened Decimals

  const MAX_U32: nat := 0xFFFF_FFFF

  datatype Step = Back(n: nat) | Parent(n: nat)

  datatype RevExpr =
    | Head
    | Name(name: string)
    | AtDate(from: RevExpr, at: int)
    | Ancestor(from: RevExpr, step: Step)

  datatype ParseError = EmptyRevision | NotADate | TooLarge | NotAStep

  datatype Parsed = Good(expr: RevExpr) | Bad(error: ParseError)

  /** Epoch milliseconds of a date or instant, when the text is one. */
  type Clock = string -> Option<int>

  predicate IsOp(c: char) {
    c == '~' || c == '^'
  }

  /** The text before the first `~` or `^`. */
  function BaseOf(s: string): string {
    if s == [] || IsOp(s[0]) then [] else [s[0]] + BaseOf(s[1..])
  }

  function LeadingDigits(s: string): (r: string)
    ensures AllDigits(r) && r <= s
  {
    if s == [] || !IsDigit(s[0]) then [] else [s[0]] + LeadingDigits(s[1..])
  }

  /** Where `@{` first stands. */
  function FindAt(s: string): Option<nat> {
    if |s| < 2 then None
    else if s[0] == '@' && s[1] == '{' then Some(0)
    else match FindAt(s[1..]) case Some(i) => Some(i + 1) case None => None
  }

  lemma {:induction false} FindAtWithin(s: string)
    ensures FindAt(s).Some? ==> FindAt(s).value + 2 <= |s|
  {
    if |s| >= 2 {
      FindAtWithin(s[1..]);
    }
  }

  /** The part of a revision before its steps. */
  function ParseBase(clock: Clock, base: string): Parsed
    decreases |base|
  {
    if base == [] then Bad(EmptyRevision)
    else
      var inner := base[..|base| - 1];
      FindAtWithin(inner);
      if base[|base| - 1] == '}' && FindAt(inner).Some? then
        var i := FindAt(inner).value;
        var when := clock(inner[i + 2..]);
        if when.None? then Bad(NotADate)
        else
          var from := if i == 0 then Good(Head) else ParseBase(clock, inner[..i]);
          if from.Good? then Good(AtDate(from.expr, when.value)) else from
      else if base == "HEAD" || base == "@" then Good(Head)
      else if clock(base).Some? then Good(AtDate(Head, clock(base).value))
      else Good(Name(base))
  }

  function StepOf(op: char, n: nat): Step {
    if op == '~' then Back(n) else Parent(n)
  }

  /** One step's count: one when there are no digits, refused when too large. */
  function CountOf(digits: string): Option<nat>
    requires AllDigits(digits)
  {
    if digits == [] then Some(1) else Parse(digits, MAX_U32)
  }

  /** What the remaining steps make of an expression. */
  function ParseSteps(expr: RevExpr, rest: string): Parsed
    decreases |rest|
  {
    if rest == [] then Good(expr)
    else
      var digits := LeadingDigits(rest[1..]);
      var n := CountOf(digits);
      if n.None? then Bad(TooLarge)
      else
        var later := rest[1 + |digits|..];
        if later != [] && !IsOp(later[0]) then Bad(NotAStep)
        else ParseSteps(Ancestor(expr, StepOf(rest[0], n.value)), later)
  }

  /** Parse a revision, as the source's loop does. */
  method ParseRev(clock: Clock, s: string) returns (r: Parsed)
    ensures r == ParseSpec(clock, s)
    ensures forall e :: r == Good(e) <==> Reads(clock, Trim(s), e)
  {
    ParsesIff(clock, s);
    var trimmed := Trim(s);
    var base := BaseOf(trimmed);
    BasePrefix(trimmed);
    var rest := trimmed[|base|..];
    r := ParseBase(clock, base);
    if r.Bad? {
      return;
    }
    var expr := r.expr;
    while rest != []
      invariant ParseSteps(expr, rest) == ParseSpec(clock, s)
      decreases |rest|
    {
      var digits := LeadingDigits(rest[1..]);
      var n := CountOf(digits);
      if n.None? {
        return Bad(TooLarge);
      }
      expr := Ancestor(expr, if rest[0] == '~' then Back(n.value) else Parent(n.value));
      rest := rest[1 + |digits|..];
      if rest != [] && !IsOp(rest[0]) {
        return Bad(NotAStep);
      }
    }
    r := Good(expr);
  }

  function ParseSpec(clock: Clock, s: string): Parsed {
    var trimmed := Trim(s);
    var base := BaseOf(trimmed);
    BasePrefix(trimmed);
    var e := ParseBase(clock, base);
    if e.Bad? then e else ParseSteps(e.expr, trimmed[|base|..])
  }

  lemma {:induction false} BasePrefix(s: string)
    ensures BaseOf(s) <= s && (forall c :: c in BaseOf(s) ==> !IsOp(c))
    ensures s[|BaseOf(s)|..] != [] ==> IsOp(s[|BaseOf(s)|])
  {
    if s != [] && !IsOp(s[0]) {
      BasePrefix(s[1..]);
      assert s == [s[0]] + s[1..];
      assert s[|BaseOf(s)|..] == s[1..][|BaseOf(s[1..])|..];
    }
  }

  // ---- the grammar -------------------------------------------------------------

  /** The text of one step: an operator, then nothing or a number that fits in 32 bits. */
  ghost predicate IsStepText(t: string, step: Step) {
    && t != [] && IsOp(t[0]) && AllDigits(t[1..])
    && (t[1..] != [] ==> Value(t[1..]) <= MAX_U32)
    && step == StepOf(t[0], if t[1..] == [] then 1 else Value(t[1..]))
  }

  ghost predicate AreStepTexts(texts: seq<string>, steps: seq<Step>) {
    |texts| == |steps| && forall i :: 0 <= i < |texts| ==> IsStepText(texts[i], steps[i])
  }

  function Join(texts: seq<string>): string {
    if texts == [] then [] else texts[0] + Join(texts[1..])
  }

  /** Steps applied left to right. */
  function Nest(expr: RevExpr, steps: seq<Step>): RevExpr
    decreases |steps|
  {
    if steps == [] then expr else Nest(Ancestor(expr, steps[0]), steps[1..])
  }

  lemma {:induction false} DigitsThen(digits: string, later: string)
    requires AllDigits(digits) && (later == [] || IsOp(later[0]))
    ensures LeadingDigits(digits + later) == digits
  {
    if digits == [] {
      assert digits + later == later;
    } else {
      assert digits[0] in digits;
      assert (digits + later)[1..] == digits[1..] + later;
      DigitsThen(digits[1..], later);
    }
  }

  lemma StepCount(digits: string)
    requires AllDigits(digits)
    ensures CountOf(digits) == if digits == [] then Some(1) else if Value(digits) <= MAX_U32 then Some(Value(digits)) else None
  {
    if digits != [] {
      assert digits[0] in digits;
    }
  }

  lemma {:induction false} JoinStarts(texts: seq<string>, steps: seq<Step>)
    requires AreStepTexts(texts, steps)
    ensures Join(texts) == [] || IsOp(Join(texts)[0])
  {
    if texts != [] {
      assert IsStepText(texts[0], steps[0]);
    }
  }

  lemma StepParses(expr: RevExpr, t: string, step: Step, later: string)
    requires IsStepText(t, step) && (later == [] || IsOp(later[0]))
    ensures ParseSteps(expr, t + later) == ParseSteps(Ancestor(expr, step), later)
  {
    var rest := t + later;
    assert rest[1..] == t[1..] + later && rest[|t|..] == later;
    DigitsThen(t[1..], later);
    StepCount(t[1..]);
  }

  lemma TailTexts(texts: seq<string>, steps: seq<Step>)
    requires AreStepTexts(texts, steps) && texts != []
    ensures IsStepText(texts[0], steps[0]) && AreStepTexts(texts[1..], steps[1..])
  {
    assert forall i :: 0 <= i < |texts[1..]| ==> texts[1..][i] == texts[i + 1] && steps[1..][i] == steps[i + 1];
  }

  /** Step texts in a row parse to their steps, nested left to right. */
  lemma {:induction false} StepsParse(expr: RevExpr, texts: seq<string>, steps: seq<Step>)
    requires AreStepTexts(texts, steps)
    ensures ParseSteps(expr, Join(texts)) == Good(Nest(expr, steps))
    decreases |texts|
  {
    if texts != [] {
      TailTexts(texts, steps);
      JoinStarts(texts[1..], steps[1..]);
      StepParses(expr, texts[0], steps[0], Join(texts[1..]));
      StepsParse(Ancestor(expr, steps[0]), texts[1..], steps[1..]);
    }
  }

  /** What parses starts with a step text. */
  lemma ParsedStep(expr: RevExpr, rest: string) returns (t: string, step: Step, later: string)
    requires ParseSteps(expr, rest).Good? && rest != [] && IsOp(rest[0])
    ensures IsStepText(t, step) && rest == t + later && (later == [] || IsOp(later[0]))
    ensures ParseSteps(expr, rest) == ParseSteps(Ancestor(expr, step), later)
  {
    var digits := LeadingDigits(rest[1..]);
    StepCount(digits);
    t, later := [rest[0]] + digits, rest[1 + |digits|..];
    step := StepOf(rest[0], CountOf(digits).value);
    assert t[1..] == digits;
  }

  /** Whatever parses is step texts in a row; anything else after a step is refused. */
  lemma {:induction false} ParsedSteps(expr: RevExpr, rest: string) returns (texts: seq<string>, steps: seq<Step>)
    requires ParseSteps(expr, rest).Good? && (rest == [] || IsOp(rest[0]))
    ensures AreStepTexts(texts, steps) && rest == Join(texts)
    ensures ParseSteps(expr, rest).expr == Nest(expr, steps)
    decreases |rest|
  {
    if rest == [] {
      texts, steps := [], [];
    } else {
      var t, step, later := ParsedStep(expr, rest);
      var moreTexts, moreSteps := ParsedSteps(Ancestor(expr, step), later);
      texts, steps := [t] + moreTexts, [step] + moreSteps;
      assert texts[1..] == moreTexts && steps[1..] == moreSteps;
    }
  }

  // ---- what a base means ------------------------------------------------------

  ghost predicate OpensAt(s: string, i: nat) {
    i + 1 < |s| && s[i] == '@' && s[i + 1] == '{'
  }

  /** `base` is `name@{when}`, split where `@{` first stands. */
  ghost predicate IsDated(base: string, name: string, when: string) {
    base == name + "@{" + when + "}" && forall i: nat :: i < |name| ==> !OpensAt(name + "@{" + when, i)
  }

  /** A dated name is what the name means, or HEAD when there is none, at that date; `HEAD` and `@` are
      HEAD; a bare date is HEAD at that date; anything else is a name. */
  ghost predicate Means(clock: Clock, base: string, e: RevExpr)
    decreases |base|
  {
    if exists name, when :: IsDated(base, name, when) then
      exists name, when :: IsDated(base, name, when) && |name| < |base| && MeansDated(clock, base, name, when, e)
    else if base == "HEAD" || base == "@" then e == Head
    else if base != "" && clock(base).Some? then e == AtDate(Head, clock(base).value)
    else base != "" && e == Name(base)
  }

  ghost predicate MeansDated(clock: Clock, base: string, name: string, when: string, e: RevExpr)
    requires |name| < |base|
    decreases |base|, 0
  {
    && clock(when).Some? && e.AtDate? && e.at == clock(when).value
    && (if name == "" then e.from == Head else Means(clock, name, e.from))
  }

  lemma {:induction false} FindAtFirst(s: string, i: nat)
    ensures FindAt(s) == Some(i) <==> OpensAt(s, i) && forall j: nat :: j < i ==> !OpensAt(s, j)
  {
    if |s| >= 2 {
      if i == 0 {
        assert FindAt(s) == Some(0) <==> OpensAt(s, 0);
      } else {
        FindAtFirst(s[1..], i - 1);
        assert forall j: nat :: OpensAt(s, j + 1) <==> OpensAt(s[1..], j);
        assert OpensAt(s, i) <==> OpensAt(s[1..], i - 1);
        assert (forall j: nat :: j < i ==> !OpensAt(s, j)) <==>
               !OpensAt(s, 0) && forall j: nat :: j < i - 1 ==> !OpensAt(s[1..], j) by {
          assert forall j: nat :: 0 < j ==> (OpensAt(s, j) <==> OpensAt(s[1..], j - 1));
        }
      }
    }
  }

  lemma DatedIff(base: string, name: string, when: string)
    requires base != []
    ensures var inner := base[..|base| - 1];
            IsDated(base, name, when) <==>
            && base[|base| - 1] == '}' && FindAt(inner) == Some(|name|) && |name| + 2 <= |inner|
            && name == inner[..|name|] && when == inner[|name| + 2..]
  {
    var inner := base[..|base| - 1];
    FindAtFirst(inner, |name|);
    if base == name + "@{" + when + "}" {
      assert inner == name + "@{" + when;
      assert OpensAt(inner, |name|);
    }
    if base[|base| - 1] == '}' && FindAt(inner) == Some(|name|) && |name| + 2 <= |inner| && name == inner[..|name|] && when == inner[|name| + 2..] {
      assert inner == name + "@{" + when;
      assert base == inner + "}";
    }
  }

  /** A base parses to exactly what it means. */
  lemma {:induction false} BaseMeans(clock: Clock, base: string, e: RevExpr)
    ensures ParseBase(clock, base) == Good(e) <==> Means(clock, base, e)
    decreases |base|
  {
    if base == [] {
      assert forall name, when :: !IsDated(base, name, when);
    } else {
      var inner := base[..|base| - 1];
      FindAtWithin(inner);
      forall name, when
        ensures IsDated(base, name, when) <==> base[|base| - 1] == '}' && FindAt(inner) == Some(|name|) && name == inner[..|name|] && when == inner[|name| + 2..]
      {
        DatedIff(base, name, when);
      }
      if base[|base| - 1] == '}' && FindAt(inner).Some? {
        var i := FindAt(inner).value;
        var name, when := inner[..i], inner[i + 2..];
        assert IsDated(base, name, when);
        if e.AtDate? {
          BaseMeans(clock, name, e.from);
        }
        assert Means(clock, base, e) <==> MeansDated(clock, base, name, when, e);
      }
    }
  }

  /** What does not parse is refused as empty, or for a date that is none. */
  lemma {:induction false} BaseRefused(clock: Clock, base: string)
    ensures ParseBase(clock, base) == Bad(EmptyRevision) <==> base == ""
    ensures ParseBase(clock, base) == Bad(NotADate) <==> base != "" && forall e :: !Means(clock, base, e)
    ensures ParseBase(clock, base).Bad? ==> ParseBase(clock, base).error in {EmptyRevision, NotADate}
    decreases |base|
  {
    if base != [] {
      var inner := base[..|base| - 1];
      FindAtWithin(inner);
      if base[|base| - 1] == '}' && FindAt(inner).Some? && FindAt(inner).value != 0 {
        BaseRefused(clock, inner[..FindAt(inner).value]);
      }
      MeansNothing(clock, base);
    }
  }

  lemma MeansNothing(clock: Clock, base: string)
    ensures ParseBase(clock, base).Bad? <==> forall e :: !Means(clock, base, e)
  {
    forall e
      ensures ParseBase(clock, base) == Good(e) <==> Means(clock, base, e)
    {
      BaseMeans(clock, base, e);
    }
    if ParseBase(clock, base).Good? {
      assert Means(clock, base, ParseBase(clock, base).expr);
    }
  }

  /** A base and its steps, written out. */
  ghost predicate IsWritten(clock: Clock, s: string, base: string, texts: seq<string>, e: RevExpr, steps: seq<Step>) {
    && s == base + Join(texts) && AreStepTexts(texts, steps)
    && base != [] && (forall c :: c in base ==> !IsOp(c))
    && Means(clock, base, e)
  }

  lemma {:induction false} BaseThen(base: string, later: string)
    requires (forall c :: c in base ==> !IsOp(c)) && (later == [] || IsOp(later[0]))
    ensures BaseOf(base + later) == base
  {
    if base == [] {
      assert base + later == later;
    } else {
      assert base[0] in base;
      assert (base + later)[1..] == base[1..] + later;
      BaseThen(base[1..], later);
    }
  }

  /** A trimmed text parses to an expression exactly when it is a base that parses, followed by step
      texts, and then it is that base under those steps: one direction ... */
  lemma WrittenParses(clock: Clock, s: string, base: string, texts: seq<string>, e: RevExpr, steps: seq<Step>)
    requires IsWritten(clock, Trim(s), base, texts, e, steps)
    ensures ParseSpec(clock, s) == Good(Nest(e, steps))
  {
    JoinStarts(texts, steps);
    BaseThen(base, Join(texts));
    BaseMeans(clock, base, e);
    StepsParse(e, texts, steps);
    assert (base + Join(texts))[|base|..] == Join(texts);
  }

  /** ... and the other. */
  lemma ParsedIsWritten(clock: Clock, s: string) returns (base: string, texts: seq<string>, e: RevExpr, steps: seq<Step>)
    requires ParseSpec(clock, s).Good?
    ensures IsWritten(clock, Trim(s), base, texts, e, steps) && ParseSpec(clock, s).expr == Nest(e, steps)
  {
    base := BaseOf(Trim(s));
    BasePrefix(Trim(s));
    e := ParseBase(clock, base).expr;
    BaseMeans(clock, base, e);
    texts, steps := StepsWritten(clock, base, e, Trim(s)[|base|..]);
    assert Trim(s) == base + Trim(s)[|base|..];
  }

  /** The trimmed text is a base and steps, and the expression is what the base means under those steps. */
  ghost predicate Reads(clock: Clock, s: string, x: RevExpr) {
    exists base, texts, e, steps :: IsWritten(clock, s, base, texts, e, steps) && x == Nest(e, steps)
  }

  /** A text parses to exactly what the grammar reads in it. */
  lemma ParsesIff(clock: Clock, s: string)
    ensures forall x :: ParseSpec(clock, s) == Good(x) <==> Reads(clock, Trim(s), x)
  {
    forall x
      ensures ParseSpec(clock, s) == Good(x) <==> Reads(clock, Trim(s), x)
    {
      if ParseSpec(clock, s) == Good(x) {
        var base, texts, e, steps := ParsedIsWritten(clock, s);
      }
      if Reads(clock, Trim(s), x) {
        var base, texts, e, steps :| IsWritten(clock, Trim(s), base, texts, e, steps) && x == Nest(e, steps);
        WrittenParses(clock, s, base, texts, e, steps);
      }
    }
  }

  lemma StepsWritten(clock: Clock, base: string, e: RevExpr, rest: string) returns (texts: seq<string>, steps: seq<Step>)
    requires (forall c :: c in base ==> !IsOp(c)) && base != [] && Means(clock, base, e)
    requires ParseSteps(e, rest).Good? && (rest == [] || IsOp(rest[0]))
    ensures IsWritten(clock, base + rest, base, texts, e, steps) && ParseSteps(e, rest).expr == Nest(e, steps)
  {
    texts, steps := ParsedSteps(e, rest);
  }

  // ---- printing ----------------------------------------------------------------

  function PrintStep(step: Step): string {
    match step case Back(n) => "~" + Print(n) case Parent(n) => "^" + Print(n)
  }

  function PrintSteps(steps: seq<Step>): (r: seq<string>)
    ensures |r| == |steps| && forall i :: 0 <= i < |r| ==> r[i] == PrintStep(steps[i])
  {
    seq(|steps|, i requires 0 <= i < |steps| => PrintStep(steps[i]))
  }

  lemma EndsUntrimmed(s: string)
    requires s != [] && !IsSpace(s[0]) && !IsSpace(s[|s| - 1])
    ensures Trim(s) == s
  {
  }

  /** A base that stands trimmed, with any printed steps after it, parses to the steps over the base. */
  lemma PrintedParses(clock: Clock, base: string, e: RevExpr, steps: seq<Step>)
    requires base != [] && !IsSpace(base[0]) && !IsSpace(base[|base| - 1]) && forall c :: c in base ==> !IsOp(c)
    requires Means(clock, base, e) && forall i :: 0 <= i < |steps| ==> steps[i].n <= MAX_U32
    ensures ParseSpec(clock, base + Join(PrintSteps(steps))) == Good(Nest(e, steps))
  {
    var texts := PrintSteps(steps);
    forall i | 0 <= i < |steps|
      ensures IsStepText(texts[i], steps[i])
    {
      PrintReadsBack(steps[i].n);
      assert texts[i][1..] == Print(steps[i].n);
    }
    LastOfJoin(texts, steps);
    var s := base + Join(texts);
    EndsUntrimmed(s);
    WrittenParses(clock, s, base, texts, e, steps);
  }

  lemma {:induction false} LastOfJoin(texts: seq<string>, steps: seq<Step>)
    requires AreStepTexts(texts, steps)
    ensures texts == [] ==> Join(texts) == []
    ensures texts != [] ==> Join(texts) != [] && !IsSpace(Join(texts)[|Join(texts)| - 1])
  {
    if texts != [] {
      assert IsStepText(texts[0], steps[0]);
      assert forall i :: 0 <= i < |texts[1..]| ==> texts[1..][i] == texts[i + 1] && steps[1..][i] == steps[i + 1];
      LastOfJoin(texts[1..], steps[1..]);
      var t := texts[0];
      if |t| > 1 {
        assert t[1..][|t| - 2] in t[1..];
      }
      assert !IsSpace(t[|t| - 1]);
    }
  }
}
