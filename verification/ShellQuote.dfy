/** Single-quoting for the shell, undone by how the shell splits words
    (sections 2.2.1 and 2.2.2 of the POSIX.1-2017 Shell Command Language). */
module ShellQuote {
  import opened Collections

  const QUOTE := '\''

  /** Each quote inside becomes `'\''`: close, an escaped quote, open again. */
  function Escape(s: string): string {
    if s == [] then []
    else (if s[0] == QUOTE then [QUOTE, '\\', QUOTE, QUOTE] else [s[0]]) + Escape(s[1..])
  }

  function Quote(s: string): string {
    [QUOTE] + Escape(s) + [QUOTE]
  }

  // ---- how the shell reads words ---------------------------------------------------

  predicate IsBlank(c: char) {
    c == ' ' || c == '\t'
  }

  /** Characters that mean more than themselves when unquoted. */
  predicate IsSpecial(c: char) {
    || c == '|' || c == '&' || c == ';' || c == '<' || c == '>' || c == '(' || c == ')'
    || c == '$' || c == '`' || c == '"' || c == '\n' || c == '*' || c == '?' || c == '['
    || c == ']' || c == '#' || c == '~' || c == '!' || c == '{' || c == '}'
  }

  /** Position of the quote that closes a single-quoted stretch. */
  function CloseAt(s: string): Option<nat> {
    if s == [] then None
    else if s[0] == QUOTE then Some(0)
    else match CloseAt(s[1..]) case Some(i) => Some(i + 1) case None => None
  }

  lemma {:induction false} CloseWithin(s: string)
    ensures CloseAt(s).Some? ==> CloseAt(s).value < |s|
  {
    if s != [] {
      CloseWithin(s[1..]);
    }
  }

  function Grown(word: Option<string>, more: string): Option<string> {
    Some((if word.Some? then word.value else []) + more)
  }

  /** The words of `s`, `word` being the one begun; None when `s` is not plain words. */
  function Words(s: string, word: Option<string>): Option<seq<string>>
    decreases |s|
  {
    if s == [] then Some(if word.Some? then [word.value] else [])
    else if IsBlank(s[0]) then
      var rest := Words(s[1..], None);
      if rest.None? then None else Some((if word.Some? then [word.value] else []) + rest.value)
    else if s[0] == QUOTE then
      var close := CloseAt(s[1..]);
      CloseWithin(s[1..]);
      if close.None? then None
      else Words(s[close.value + 2..], Grown(word, s[1..close.value + 1]))
    else if s[0] == '\\' then
      if |s| == 1 then None
      else if s[1] == '\n' then Words(s[2..], word)
      else Words(s[2..], Grown(word, [s[1]]))
    else if IsSpecial(s[0]) then None
    else Words(s[1..], Grown(word, [s[0]]))
  }

  // ---- quoting is undone -------------------------------------------------------------

  /** The stretch of `s` before its first quote. */
  function BeforeQuote(s: string): (r: string)
    ensures r <= s && QUOTE !in r
    ensures |r| < |s| ==> s[|r|] == QUOTE
  {
    if s == [] || s[0] == QUOTE then [] else [s[0]] + BeforeQuote(s[1..])
  }

  lemma {:induction false} EscapePlain(plain: string, rest: string)
    requires QUOTE !in plain
    ensures Escape(plain + rest) == plain + Escape(rest)
  {
    if plain == [] {
      assert plain + rest == rest;
    } else {
      assert (plain + rest)[1..] == plain[1..] + rest;
      EscapePlain(plain[1..], rest);
    }
  }

  lemma {:induction false} CloseAfter(plain: string, rest: string)
    requires QUOTE !in plain
    ensures CloseAt(plain + [QUOTE] + rest) == Some(|plain|)
  {
    if plain == [] {
      assert plain + [QUOTE] + rest == [QUOTE] + rest;
    } else {
      assert (plain + [QUOTE] + rest)[1..] == plain[1..] + [QUOTE] + rest;
      CloseAfter(plain[1..], rest);
    }
  }

  /** A quoted stretch without quotes inside is read as itself. */
  lemma ReadsStretch(plain: string, rest: string, word: Option<string>)
    requires QUOTE !in plain
    ensures Words([QUOTE] + plain + [QUOTE] + rest, word) == Words(rest, Grown(word, plain))
  {
    var s := [QUOTE] + plain + [QUOTE] + rest;
    assert s[1..] == plain + [QUOTE] + rest;
    CloseAfter(plain, rest);
    assert s[1..|plain| + 1] == plain && s[|plain| + 2..] == rest;
  }

  lemma GrownTwice(word: Option<string>, a: string, b: string)
    ensures Grown(Grown(word, a), b) == Grown(word, a + b)
  {
    var w := if word.Some? then word.value else [];
    assert (w + a) + b == w + (a + b);
  }

  /** A quoted text is read back as that text, joined to the word begun before it. */
  lemma {:induction false} QuoteReadsBack(s: string, rest: string, word: Option<string>)
    ensures Words(Quote(s) + rest, word) == Words(rest, Grown(word, s))
    decreases |s|
  {
    var plain := BeforeQuote(s);
    if plain == s {
      EscapePlain(s, []);
      assert s + [] == s && Escape([]) == [];
      assert Quote(s) + rest == [QUOTE] + s + [QUOTE] + rest;
      ReadsStretch(s, rest, word);
    } else {
      var later := s[|plain| + 1..];
      assert s == plain + [QUOTE] + later;
      QuoteAtQuote(plain, later, rest);
      var escaped := Quote(later) + rest;
      ReadsStretch(plain, ['\\', QUOTE] + escaped, word);
      ReadsEscape(escaped, Grown(word, plain));
      QuoteReadsBack(later, rest, Grown(Grown(word, plain), [QUOTE]));
      GrownTwice(word, plain, [QUOTE]);
      GrownTwice(word, plain + [QUOTE], later);
    }
  }

  /** Up to its first quote a text is written as it is; then the quote, escaped, and the rest quoted. */
  lemma QuoteAtQuote(plain: string, later: string, rest: string)
    requires QUOTE !in plain
    ensures Quote(plain + [QUOTE] + later) + rest ==
            [QUOTE] + plain + [QUOTE] + (['\\', QUOTE] + (Quote(later) + rest))
  {
    assert plain + [QUOTE] + later == plain + ([QUOTE] + later);
    EscapePlain(plain, [QUOTE] + later);
    assert ([QUOTE] + later)[1..] == later;
  }

  lemma ReadsEscape(rest: string, word: Option<string>)
    ensures Words(['\\', QUOTE] + rest, word) == Words(rest, Grown(word, [QUOTE]))
  {
    assert (['\\', QUOTE] + rest)[2..] == rest;
  }

  /** Whatever a value contains, quoted it is one argument: the value itself. */
  lemma QuotedIsOneWord(s: string)
    ensures Words(Quote(s), None) == Some([s])
  {
    QuoteReadsBack(s, [], None);
    assert Quote(s) + [] == Quote(s) && [] + s == s;
  }

  // ---- the installer's arguments -------------------------------------------------------

  predicate IsPlain(s: string) {
    forall c :: c in s ==> !IsBlank(c) && !IsSpecial(c) && c != QUOTE && c != '\\'
  }

  lemma {:induction false} PlainReadsBack(s: string, rest: string, word: Option<string>)
    requires IsPlain(s) && s != []
    ensures Words(s + rest, word) == Words(rest, Grown(word, s))
  {
    assert s[0] in s;
    assert (s + rest)[1..] == s[1..] + rest;
    assert forall c :: c in s[1..] ==> c in s;
    if |s| == 1 {
      assert s[1..] + rest == rest && [s[0]] == s;
    } else {
      PlainReadsBack(s[1..], rest, Grown(word, [s[0]]));
      GrownTwice(word, [s[0]], s[1..]);
      assert [s[0]] + s[1..] == s;
    }
  }

  /** One argument of the command: written as it is, or quoted. */
  datatype Arg = Plain(text: string) | Quoted(text: string) {
    function Written(): string {
      if Plain? then text else Quote(text)
    }

    predicate Valid() {
      Plain? ==> text != [] && IsPlain(text)
    }
  }

  /** Arguments with one space before each. */
  function Tail(args: seq<Arg>): string {
    if args == [] then [] else (" " + args[0].Written()) + Tail(args[1..])
  }

  function Texts(args: seq<Arg>): seq<string> {
    if args == [] then [] else [args[0].text] + Texts(args[1..])
  }

  lemma BlankEndsWord(rest: string, word: string)
    ensures var later := Words(rest, None);
            Words(" " + rest, Some(word)) == if later.None? then None else Some([word] + later.value)
  {
    assert (" " + rest)[1..] == rest;
  }

  /** A blank ends the word begun, and an argument after it is read whole. */
  lemma ArgReadsBack(a: Arg, rest: string, word: string)
    requires a.Valid()
    ensures var later := Words(rest, Some(a.text));
            Words((" " + a.Written()) + rest, Some(word)) ==
            if later.None? then None else Some([word] + later.value)
  {
    BlankEndsWord(a.Written() + rest, word);
    assert (" " + a.Written()) + rest == " " + (a.Written() + rest);
    if a.Plain? {
      PlainReadsBack(a.text, rest, None);
    } else {
      QuoteReadsBack(a.text, rest, None);
    }
    assert [] + a.text == a.text;
  }

  /** A tail of arguments splits back into exactly them, after the word before it. */
  lemma {:induction false} TailSplits(args: seq<Arg>, word: string)
    requires forall a :: a in args ==> a.Valid()
    ensures Words(Tail(args), Some(word)) == Some([word] + Texts(args))
  {
    if args == [] {
      assert [word] + [] == [word];
    } else {
      assert args[0] in args && forall x :: x in args[1..] ==> x in args;
      ArgReadsBack(args[0], Tail(args[1..]), word);
      TailSplits(args[1..], args[0].text);
    }
  }

  const SKIP := "--insecure-skip-checksum"

  /** What the installer is run with. */
  function InstallerArgs(bin: string, tag: string, dir: string, skip: bool): seq<Arg> {
    [Plain("-s")] + ([Plain("--")] + ([Plain("--bin")] + ([Quoted(bin)] + LaterArgs(tag, dir, skip))))
  }

  function LaterArgs(tag: string, dir: string, skip: bool): seq<Arg> {
    [Plain("--version")] + ([Quoted(tag)] + ([Plain("--dir")] + ([Quoted(dir)] + SkipArgs(skip))))
  }

  function SkipArgs(skip: bool): seq<Arg> {
    if skip then [Plain(SKIP)] else []
  }

  function SkipTail(skip: bool): string {
    if skip then " " + SKIP else ""
  }

  /** The end of the shell line, as it is formatted. */
  function InstallerTail(bin: string, latest: string, dir: string, skip: bool): string {
    "sh" + (" -s" + (" --" + (" --bin" + ((" " + Quote(bin)) + LaterTail("v" + latest, dir, skip)))))
  }

  function LaterTail(tag: string, dir: string, skip: bool): string {
    " --version" + ((" " + Quote(tag)) + (" --dir" + ((" " + Quote(dir)) + SkipTail(skip))))
  }

  lemma TailCons(a: Arg, rest: seq<Arg>)
    ensures Tail([a] + rest) == (" " + a.Written()) + Tail(rest)
    ensures Texts([a] + rest) == [a.text] + Texts(rest)
  {
    assert ([a] + rest)[1..] == rest;
  }

  lemma SkipWritten(skip: bool)
    ensures Tail(SkipArgs(skip)) == SkipTail(skip)
    ensures Texts(SkipArgs(skip)) == if skip then [SKIP] else []
  {
    if skip {
      TailCons(Plain(SKIP), []);
      assert [Plain(SKIP)] + [] == [Plain(SKIP)];
    }
  }

  lemma LaterTailWritten(tag: string, dir: string, skip: bool)
    ensures Tail(LaterArgs(tag, dir, skip)) == LaterTail(tag, dir, skip)
    ensures Texts(LaterArgs(tag, dir, skip)) == ["--version", tag, "--dir", dir] + if skip then [SKIP] else []
  {
    var last := SkipArgs(skip);
    SkipWritten(skip);
    TailCons(Quoted(dir), last);
    TailCons(Plain("--dir"), [Quoted(dir)] + last);
    TailCons(Quoted(tag), [Plain("--dir")] + ([Quoted(dir)] + last));
    TailCons(Plain("--version"), [Quoted(tag)] + ([Plain("--dir")] + ([Quoted(dir)] + last)));
    assert " " + "--dir" == " --dir" && " " + "--version" == " --version";
  }

  lemma TailWritten(bin: string, latest: string, dir: string, skip: bool)
    ensures "sh" + Tail(InstallerArgs(bin, "v" + latest, dir, skip)) == InstallerTail(bin, latest, dir, skip)
  {
    var later := LaterArgs("v" + latest, dir, skip);
    LaterTailWritten("v" + latest, dir, skip);
    TailCons(Quoted(bin), later);
    TailCons(Plain("--bin"), [Quoted(bin)] + later);
    TailCons(Plain("--"), [Plain("--bin")] + ([Quoted(bin)] + later));
    TailCons(Plain("-s"), [Plain("--")] + ([Plain("--bin")] + ([Quoted(bin)] + later)));
    assert " " + "-s" == " -s" && " " + "--" == " --" && " " + "--bin" == " --bin";
  }

  lemma BinTexts(bin: string, later: seq<Arg>)
    ensures Texts([Plain("-s")] + ([Plain("--")] + ([Plain("--bin")] + ([Quoted(bin)] + later)))) ==
            ["-s", "--", "--bin", bin] + Texts(later)
  {
    TailCons(Quoted(bin), later);
    TailCons(Plain("--bin"), [Quoted(bin)] + later);
    TailCons(Plain("--"), [Plain("--bin")] + ([Quoted(bin)] + later));
    TailCons(Plain("-s"), [Plain("--")] + ([Plain("--bin")] + ([Quoted(bin)] + later)));
  }

  /** Option names are dashes and lower-case letters, which mean only themselves. */
  lemma OptionIsPlain(s: string)
    requires s != [] && forall i :: 0 <= i < |s| ==> s[i] == '-' || 'a' <= s[i] <= 'z'
    ensures Plain(s).Valid()
  {
  }

  lemma ArgsValid(bin: string, tag: string, dir: string, skip: bool)
    ensures forall a :: a in InstallerArgs(bin, tag, dir, skip) ==> a.Valid()
  {
    OptionIsPlain("-s");
    OptionIsPlain("--");
    OptionIsPlain("--bin");
    OptionIsPlain("--version");
    OptionIsPlain("--dir");
    OptionIsPlain(SKIP);
  }

  lemma IntendedTexts(bin: string, tag: string, dir: string, skip: bool)
    ensures ["sh"] + Texts(InstallerArgs(bin, tag, dir, skip)) ==
            ["sh", "-s", "--", "--bin", bin, "--version", tag, "--dir", dir] + if skip then [SKIP] else []
  {
    BinTexts(bin, LaterArgs(tag, dir, skip));
    LaterTailWritten(tag, dir, skip);
    var last := if skip then [SKIP] else [];
    assert ["sh"] + (["-s", "--", "--bin", bin] + (["--version", tag, "--dir", dir] + last)) ==
           ["sh", "-s", "--", "--bin", bin, "--version", tag, "--dir", dir] + last;
  }

  lemma ShellStarts(args: seq<Arg>)
    requires forall a :: a in args ==> a.Valid()
    ensures Words("sh" + Tail(args), None) == Some(["sh"] + Texts(args))
  {
    OptionIsPlain("sh");
    PlainReadsBack("sh", Tail(args), None);
    assert [] + "sh" == "sh";
    TailSplits(args, "sh");
  }

  /** The shell line splits into the shell and exactly the intended arguments, whatever they contain. */
  lemma InstallerTailSplits(bin: string, latest: string, dir: string, skip: bool)
    ensures Words(InstallerTail(bin, latest, dir, skip), None) ==
            Some(["sh", "-s", "--", "--bin", bin, "--version", "v" + latest, "--dir", dir] + if skip then [SKIP] else [])
  {
    var args := InstallerArgs(bin, "v" + latest, dir, skip);
    TailWritten(bin, latest, dir, skip);
    ArgsValid(bin, "v" + latest, dir, skip);
    ShellStarts(args);
    IntendedTexts(bin, "v" + latest, dir, skip);
  }
}
