/** The launcher's argument quoting against the documented rules by which Windows splits a command line. */
module CommandLine {

  function Slashes(n: nat): (s: string)
    ensures |s| == n
    ensures forall i :: 0 <= i < n ==> s[i] == '\\'
  {
    seq(n, _ => '\\')
  }

  predicate IsBlank(c: char) {
    c == ' ' || c == '\t'
  }

  predicate NeedsQuotes(arg: string) {
    exists i :: 0 <= i < |arg| && (IsBlank(arg[i]) || arg[i] == '"')
  }

  /** What remains to be written of a quoted argument after `pending` backslashes have been held back. */
  function Escaped(arg: string, pending: nat): string {
    if arg == "" then Slashes(2 * pending) + "\""
    else if arg[0] == '\\' then Escaped(arg[1..], pending + 1)
    else if arg[0] == '"' then Slashes(2 * pending + 1) + "\"" + Escaped(arg[1..], 0)
    else Slashes(pending) + [arg[0]] + Escaped(arg[1..], 0)
  }

  function Quoted(arg: string): string {
    if arg == "" then "\"\"" else if !NeedsQuotes(arg) then arg else "\"" + Escaped(arg, 0)
  }

  method QuoteArgument(arg: string) returns (quoted: string)
    ensures quoted == Quoted(arg)
  {
    if arg == "" {
      return "\"\"";
    }
    var needsQuotes := false;
    for i := 0 to |arg|
      invariant !needsQuotes
      invariant forall k :: 0 <= k < i ==> !IsBlank(arg[k]) && arg[k] != '"'
    {
      if arg[i] == ' ' || arg[i] == '\t' || arg[i] == '"' {
        needsQuotes := true;
        break;
      }
    }
    if !needsQuotes {
      return arg;
    }
    quoted := "\"";
    var backslashes := 0;
    for i := 0 to |arg|
      invariant backslashes >= 0
      invariant quoted + Escaped(arg[i..], backslashes) == "\"" + Escaped(arg, 0)
    {
      var ch := arg[i];
      assert arg[i..][1..] == arg[i + 1..];
      if ch == '\\' {
        backslashes := backslashes + 1;
      } else if ch == '"' {
        quoted := quoted + Slashes(backslashes * 2 + 1) + "\"";
        backslashes := 0;
      } else {
        quoted := quoted + Slashes(backslashes) + [ch];
        backslashes := 0;
      }
    }
    quoted := quoted + Slashes(backslashes * 2) + "\"";
  }

  /** Arguments quoted and joined by single spaces. */
  function Joined(args: seq<string>): string {
    if args == [] then ""
    else if |args| == 1 then Quoted(args[0])
    else Joined(args[..|args| - 1]) + " " + Quoted(args[|args| - 1])
  }

  /** The forwarded command line: this program's path, then the arguments it was started with. */
  method BuildForwardedCommandLine(programPath: string, argv: seq<string>) returns (line: string)
    ensures line == Joined([programPath] + (if argv == [] then [] else argv[1..]))
  {
    hide Quoted, Joined;
    ghost var args := if argv == [] then [] else argv[1..];
    line := QuoteArgument(programPath);
    JoinedOne(programPath);
    var index := 1;
    while index < |argv|
      invariant 1 <= index <= |args| + 1
      invariant line == Joined([programPath] + args[..index - 1])
    {
      var quoted := QuoteArgument(argv[index]);
      line := line + " ";
      line := line + quoted;
      JoinedStep([programPath] + args[..index - 1], argv[index]);
      assert [programPath] + args[..index] == [programPath] + args[..index - 1] + [argv[index]];
      index := index + 1;
    }
    assert args[..index - 1] == args;
  }

  lemma JoinedOne(arg: string)
    ensures Joined([arg] + []) == Quoted(arg)
  {
    assert [arg] + [] == [arg];
  }

  lemma JoinedStep(args: seq<string>, arg: string)
    requires args != []
    ensures Joined(args + [arg]) == Joined(args) + " " + Quoted(arg)
  {
    hide Quoted;
    assert (args + [arg])[..|args|] == args;
  }

  // ----- the splitting rules

  /** Arguments finished so far, the one being read, whether inside quotes, and backslashes not yet decided. */
  datatype Splitter = Splitter(done: seq<string>, started: bool, current: string, inQuotes: bool, slashes: nat)

  /** 2n backslashes and a quote are n backslashes and a change of quoting; 2n+1 and a quote are n backslashes and
      a quote character; other backslashes stand for themselves. Blanks outside quotes separate arguments. */
  function Next(s: Splitter, c: char): Splitter {
    if c == '\\' then s.(started := true, slashes := s.slashes + 1)
    else if c == '"' then
      var halved := s.current + Slashes(s.slashes / 2);
      if s.slashes % 2 == 1 then s.(started := true, current := halved + "\"", slashes := 0)
      else s.(started := true, current := halved, inQuotes := !s.inQuotes, slashes := 0)
    else if IsBlank(c) && !s.inQuotes then Splitter(Arguments(s), false, "", false, 0)
    else s.(started := true, current := s.current + Slashes(s.slashes) + [c], slashes := 0)
  }

  /** The arguments if the line ended here. */
  function Arguments(s: Splitter): seq<string> {
    s.done + (if s.started then [s.current + Slashes(s.slashes)] else [])
  }

  function Run(s: Splitter, line: string): Splitter
    decreases |line|
  {
    if line == "" then s else Run(Next(s, line[0]), line[1..])
  }

  function Split(line: string): seq<string> {
    Arguments(Run(Between([]), line))
  }

  function Between(done: seq<string>): Splitter {
    Splitter(done, false, "", false, 0)
  }

  // ----- splitting undoes quoting

  lemma {:induction false} RunJoins(s: Splitter, a: string, b: string)
    ensures Run(s, a + b) == Run(Run(s, a), b)
    decreases |a|
  {
    hide Next;
    if a == "" {
      assert a + b == b;
    } else {
      RunJoins(Next(s, a[0]), a[1..], b);
      assert (a + b)[1..] == a[1..] + b;
    }
  }

  lemma {:induction false} RunSlashes(s: Splitter, n: nat)
    ensures Run(s, Slashes(n)) == s.(started := s.started || n > 0, slashes := s.slashes + n)
    decreases n
  {
    if n > 0 {
      RunSlashes(Next(s, '\\'), n - 1);
      assert Slashes(n)[1..] == Slashes(n - 1);
    }
  }

  lemma SlashesAdd(m: nat, n: nat)
    ensures Slashes(m) + Slashes(n) == Slashes(m + n)
  {
  }

  /** Inside quotes, an escaped argument adds exactly its own characters and then closes the quotes. */
  lemma {:induction false} RunEscaped(s: Splitter, arg: string, pending: nat)
    requires s.inQuotes && s.started && s.slashes == 0
    ensures Run(s, Escaped(arg, pending)) == s.(current := s.current + Slashes(pending) + arg, inQuotes := false)
    decreases |arg|
  {
    hide Next;
    if arg == "" {
      RunSlashesThen(s, 2 * pending, '"', "");
      QuoteAfterSlashes(s, pending);
      assert Slashes(2 * pending) + "\"" + "" == Slashes(2 * pending) + "\"";
    } else if arg[0] == '\\' {
      RunEscaped(s, arg[1..], pending + 1);
      SlashesAdd(pending, 1);
      assert s.current + Slashes(pending) + arg == s.current + Slashes(pending + 1) + arg[1..];
    } else if arg[0] == '"' {
      RunSlashesThen(s, 2 * pending + 1, '"', Escaped(arg[1..], 0));
      QuoteAfterSlashes(s, pending);
      RunEscaped(s.(current := s.current + Slashes(pending) + "\""), arg[1..], 0);
      assert s.current + Slashes(pending) + "\"" + Slashes(0) + arg[1..] == s.current + Slashes(pending) + arg;
    } else {
      RunSlashesThen(s, pending, arg[0], Escaped(arg[1..], 0));
      PlainAfterSlashes(s, pending, arg[0]);
      RunEscaped(s.(current := s.current + Slashes(pending) + [arg[0]]), arg[1..], 0);
      assert s.current + Slashes(pending) + [arg[0]] + Slashes(0) + arg[1..] == s.current + Slashes(pending) + arg;
    }
  }

  lemma RunSlashesThen(s: Splitter, n: nat, c: char, rest: string)
    requires s.started && s.slashes == 0
    ensures Run(s, Slashes(n) + [c] + rest) == Run(Next(s.(slashes := n), c), rest)
  {
    hide Next;
    RunJoins(s, Slashes(n), [c] + rest);
    RunSlashes(s, n);
    assert Slashes(n) + [c] + rest == Slashes(n) + ([c] + rest);
    assert ([c] + rest)[1..] == rest;
  }

  lemma QuoteAfterSlashes(s: Splitter, n: nat)
    requires s.inQuotes && s.started && s.slashes == 0
    ensures Next(s.(slashes := 2 * n), '"') == s.(current := s.current + Slashes(n), inQuotes := false)
    ensures Next(s.(slashes := 2 * n + 1), '"') == s.(current := s.current + Slashes(n) + "\"")
  {
  }

  lemma PlainAfterSlashes(s: Splitter, n: nat, c: char)
    requires s.inQuotes && s.started && s.slashes == 0 && c != '\\' && c != '"'
    ensures Next(s.(slashes := n), c) == s.(current := s.current + Slashes(n) + [c])
  {
  }

  /** A word without blanks and quotes is taken as it is. */
  lemma {:induction false} RunPlain(s: Splitter, arg: string)
    requires !s.inQuotes && !NeedsQuotes(arg)
    ensures var r := Run(s, arg);
            && !r.inQuotes && r.done == s.done && (r.started <==> s.started || arg != "")
            && r.current + Slashes(r.slashes) == s.current + Slashes(s.slashes) + arg
    decreases |arg|
  {
    if arg != "" {
      var next := Next(s, arg[0]);
      assert !NeedsQuotes(arg[1..]) by {
        assert forall i :: 0 <= i < |arg[1..]| ==> arg[1..][i] == arg[i + 1];
      }
      assert !IsBlank(arg[0]) && arg[0] != '"';
      RunPlain(next, arg[1..]);
      SlashesAdd(s.slashes, 1);
      assert s.current + Slashes(s.slashes) + arg == next.current + Slashes(next.slashes) + arg[1..];
    }
  }

  lemma RunQuoted(done: seq<string>, arg: string)
    ensures var r := Run(Between(done), Quoted(arg));
            r.started && !r.inQuotes && Arguments(r) == done + [arg]
  {
    var s := Between(done);
    if arg == "" {
      var inside := Next(s, '"');
      assert "\"\""[1..] == "\"" && "\""[1..] == "";
      assert Run(s, "\"\"") == Run(inside, "\"") == Run(Next(inside, '"'), "");
    } else if !NeedsQuotes(arg) {
      RunPlain(s, arg);
      assert "" + Slashes(0) + arg == arg;
    } else {
      var inside := s.(started := true, inQuotes := true);
      assert ("\"" + Escaped(arg, 0))[1..] == Escaped(arg, 0);
      assert Next(s, '"') == inside;
      RunEscaped(inside, arg, 0);
      assert "" + Slashes(0) + arg + Slashes(0) == arg;
    }
  }

  lemma {:induction false} RunJoined(args: seq<string>)
    requires args != []
    ensures var r := Run(Between([]), Joined(args)); r.started && !r.inQuotes && Arguments(r) == args
  {
    hide Quoted, Next;
    var n := |args| - 1;
    if n == 0 {
      RunQuoted([], args[0]);
    } else {
      RunJoined(args[..n]);
      RunNextQuoted(Between([]), Joined(args[..n]), args[n]);
    }
  }

  lemma RunNextQuoted(s: Splitter, line: string, arg: string)
    requires var r := Run(s, line); r.started && !r.inQuotes
    ensures var r := Run(s, line + " " + Quoted(arg));
            r.started && !r.inQuotes && Arguments(r) == Arguments(Run(s, line)) + [arg]
  {
    hide Quoted;
    var r := Run(s, line);
    RunJoins(s, line, " " + Quoted(arg));
    assert line + " " + Quoted(arg) == line + (" " + Quoted(arg));
    assert (" " + Quoted(arg))[1..] == Quoted(arg);
    RunQuoted(Arguments(r), arg);
  }

  /** Splitting the joined line gives back exactly the arguments, for every list. */
  lemma SplittingUndoesJoining(args: seq<string>)
    ensures Split(Joined(args)) == args
  {
    if args != [] {
      RunJoined(args);
    }
  }

  // ----- the first word of a command line

  /** The program name follows a simpler rule: up to the next quote if it starts with one, else up to a blank. */
  function ProgramName(line: string): string {
    if line != "" && line[0] == '"' then Until(line[1..], true) else Until(line, false)
  }

  function Until(s: string, quote: bool): string {
    if s == "" || (if quote then s[0] == '"' else IsBlank(s[0])) then "" else [s[0]] + Until(s[1..], quote)
  }

  predicate HasQuote(arg: string) {
    exists i :: 0 <= i < |arg| && arg[i] == '"'
  }

  lemma {:induction false} UntilStops(a: string, c: char, rest: string, quote: bool)
    requires forall i :: 0 <= i < |a| ==> if quote then a[i] != '"' else !IsBlank(a[i])
    requires if quote then c == '"' else IsBlank(c)
    ensures Until(a + [c] + rest, quote) == a && Until(a, quote) == a
  {
    if a != "" {
      UntilStops(a[1..], c, rest, quote);
      assert (a + [c] + rest)[1..] == a[1..] + [c] + rest;
    }
  }

  lemma {:induction false} UntilHasNone(s: string)
    ensures !HasQuote(Until(s, true))
  {
    if s != "" && s[0] != '"' {
      UntilHasNone(s[1..]);
    }
  }

  /** Backslashes held back at the end of the argument. */
  function Trailing(arg: string, pending: nat): nat {
    if arg == "" then pending
    else if arg[0] == '\\' then Trailing(arg[1..], pending + 1)
    else Trailing(arg[1..], 0)
  }

  lemma {:induction false} TrailingIsZero(arg: string, pending: nat)
    ensures arg != "" ==> (Trailing(arg, pending) == 0 <==> arg[|arg| - 1] != '\\')
  {
    if |arg| > 1 {
      TrailingIsZero(arg[1..], if arg[0] == '\\' then pending + 1 else 0);
    }
  }

  lemma {:induction false} EscapedWithoutQuotes(arg: string, pending: nat)
    requires !HasQuote(arg)
    ensures Escaped(arg, pending) == Slashes(pending) + arg + Slashes(Trailing(arg, pending)) + "\""
  {
    if arg == "" {
      SlashesAdd(pending, pending);
    } else {
      assert !HasQuote(arg[1..]) by {
        assert forall i :: 0 <= i < |arg[1..]| ==> arg[1..][i] == arg[i + 1];
      }
      assert arg[0] != '"';
      if arg[0] == '\\' {
        EscapedWithoutQuotes(arg[1..], pending + 1);
        SlashesAdd(pending, 1);
      } else {
        EscapedWithoutQuotes(arg[1..], 0);
      }
    }
  }

  lemma {:induction false} JoinedStartsWithFirst(args: seq<string>)
    requires args != []
    ensures Joined(args) == Quoted(args[0]) || Quoted(args[0]) + " " <= Joined(args)
  {
    if |args| > 1 {
      hide Quoted;
      JoinedStartsWithFirst(args[..|args| - 1]);
    }
  }

  lemma FirstWord(word: string, line: string)
    requires line == word || word + " " <= line
    ensures exists rest :: line == word + rest && (rest == "" || rest[0] == ' ')
  {
    var rest := line[|word|..];
    assert line == word + rest;
    if line != word {
      assert line[|word|] == (word + " ")[|word|] == ' ';
    }
  }

  /** Under the simpler rule the program path comes back exactly when it needed no quotes, or needed them only for
      blanks and does not end in a backslash. */
  lemma ProgramNameSurvives(path: string, args: seq<string>)
    ensures ProgramName(Joined([path] + args)) == path
       <==> !NeedsQuotes(path) || (!HasQuote(path) && path[|path| - 1] != '\\')
  {
    hide Quoted, Joined, ProgramName, NeedsQuotes, HasQuote;
    var line := Joined([path] + args);
    JoinedStartsWithFirst([path] + args);
    FirstWord(Quoted(path), line);
    var rest :| line == Quoted(path) + rest && (rest == "" || rest[0] == ' ');
    if NeedsQuotes(path) {
      QuotedProgramName(path, rest);
    } else {
      PlainProgramName(path, rest);
    }
  }

  lemma PlainProgramName(path: string, rest: string)
    requires !NeedsQuotes(path) && (rest == "" || rest[0] == ' ')
    ensures ProgramName(Quoted(path) + rest) == path
  {
    if path == "" {
      assert ("\"\"" + rest)[1..] == "" + ['"'] + rest;
      UntilStops("", '"', rest, true);
    } else {
      assert Quoted(path) == path;
      assert forall i :: 0 <= i < |path| ==> !IsBlank(path[i]) && path[i] != '"';
      WordBeforeBlank(path, rest);
    }
  }

  lemma WordBeforeBlank(word: string, rest: string)
    requires word != "" && (rest == "" || rest[0] == ' ')
    requires forall i :: 0 <= i < |word| ==> !IsBlank(word[i]) && word[i] != '"'
    ensures ProgramName(word + rest) == word
  {
    hide Until;
    assert (word + rest)[0] == word[0];
    if rest == "" {
      UntilStops(word, ' ', "", false);
      assert word + rest == word;
    } else {
      UntilStops(word, ' ', rest[1..], false);
      assert word + rest == word + [' '] + rest[1..];
    }
  }

  lemma QuotedProgramName(path: string, rest: string)
    requires NeedsQuotes(path)
    ensures ProgramName(Quoted(path) + rest) == path <==> !HasQuote(path) && path[|path| - 1] != '\\'
  {
    assert path != "";
    AfterOpeningQuote(path, rest);
    hide Quoted, ProgramName, Escaped, Until, Trailing, NeedsQuotes, Slashes;
    if HasQuote(path) {
      UntilHasNone(Escaped(path, 0) + rest);
    } else {
      hide HasQuote;
      UntilFinalQuote(path, rest);
      TrailingIsZero(path, 0);
      var shown := path + Slashes(Trailing(path, 0));
      assert |shown| == |path| + Trailing(path, 0);
      assert Trailing(path, 0) == 0 ==> shown == path;
    }
  }

  lemma AfterOpeningQuote(path: string, rest: string)
    requires NeedsQuotes(path)
    ensures ProgramName(Quoted(path) + rest) == Until(Escaped(path, 0) + rest, true)
  {
    hide Escaped, Until;
    assert (Quoted(path) + rest)[1..] == Escaped(path, 0) + rest;
  }

  lemma UntilFinalQuote(path: string, rest: string)
    requires !HasQuote(path)
    ensures Until(Escaped(path, 0) + rest, true) == path + Slashes(Trailing(path, 0))
  {
    hide Escaped, Until, Trailing;
    var shown := path + Slashes(Trailing(path, 0));
    EscapedWithoutQuotes(path, 0);
    assert Escaped(path, 0) + rest == shown + ['"'] + rest;
    UntilStops(shown, '"', rest, true);
  }

  /** Only an empty argument, or one with a blank or a quotation mark in it, is changed at all. */
  lemma QuotedWhenNeeded(arg: string)
    ensures Quoted(arg) == arg <==> arg != "" && ' ' !in arg && '\t' !in arg && '"' !in arg
  {
    if NeedsQuotes(arg) {
      EscapedIsLonger(arg, 0);
    }
  }

  lemma {:induction false} EscapedIsLonger(arg: string, pending: nat)
    ensures |Escaped(arg, pending)| > |arg| + pending
  {
    if arg != "" {
      EscapedIsLonger(arg[1..], if arg[0] == '\\' then pending + 1 else 0);
    }
  }
}
