/**
 * The command tokenizer of the SSH wrapper.
 *
 * The reference reads a command in two stages: quoting is resolved into marks (a literal character or a
 * separator), then the marks are cut into words. ParseCommand does both in one pass with flags.
 */
module CommandParser {
  import opened Collections

  datatype Mark = Literal(c: char) | Separator

  datatype Parsed = Arguments(args: seq<string>) | UnbalancedQuotes

  predicate Blank(c: char) { c == ' ' || c == '\t' }

  function Prepend(m: Mark, rest: Option<seq<Mark>>): Option<seq<Mark>> {
    if rest.None? then None else Some([m] + rest.value)
  }

  /** Text outside quotes; None if a quote is never closed. A backslash has no meaning here. */
  function Plain(s: string): Option<seq<Mark>>
    decreases |s|
  {
    if s == "" then Some([])
    else if s[0] == '"' then DoubleQuoted(s[1..])
    else if s[0] == '\'' then SingleQuoted(s[1..])
    else Prepend(if Blank(s[0]) then Separator else Literal(s[0]), Plain(s[1..]))
  }

  /** Text inside double quotes: a backslash makes the next character literal. */
  function DoubleQuoted(s: string): Option<seq<Mark>>
    decreases |s|
  {
    if s == "" then None
    else if s[0] == '"' then Plain(s[1..])
    else if s[0] != '\\' then Prepend(Literal(s[0]), DoubleQuoted(s[1..]))
    else Escaped(s[1..])
  }

  function Escaped(s: string): Option<seq<Mark>>
    decreases |s|
  {
    if s == "" then None else Prepend(Literal(s[0]), DoubleQuoted(s[1..]))
  }

  /** Text inside single quotes: everything up to the next single quote is literal. */
  function SingleQuoted(s: string): Option<seq<Mark>>
    decreases |s|
  {
    if s == "" then None
    else if s[0] == '\'' then Plain(s[1..])
    else Prepend(Literal(s[0]), SingleQuoted(s[1..]))
  }

  function Word(w: string): seq<string> { if w == "" then [] else [w] }

  /** The words between separators, the first of them continuing `current`. */
  function Words(marks: seq<Mark>, current: string): seq<string> {
    if marks == [] then Word(current)
    else if marks[0].Separator? then Word(current) + Words(marks[1..], "")
    else Words(marks[1..], current + [marks[0].c])
  }

  function Tokens(cmd: string): Parsed {
    var marks := Plain(cmd);
    if marks.None? then UnbalancedQuotes else Arguments(Words(marks.value, ""))
  }

  /** What the flags of the one-pass parser say about the text still to read. */
  function Remaining(inQuote: bool, quoteChar: char, escaped: bool, rest: string): Option<seq<Mark>> {
    if escaped then Escaped(rest)
    else if !inQuote then Plain(rest)
    else if quoteChar == '"' then DoubleQuoted(rest)
    else SingleQuoted(rest)
  }

  function Finish(args: seq<string>, current: string, marks: Option<seq<Mark>>): Parsed {
    if marks.None? then UnbalancedQuotes else Arguments(args + Words(marks.value, current))
  }

  lemma LiteralJoinsTheWord(args: seq<string>, current: string, c: char, marks: Option<seq<Mark>>)
    ensures Finish(args, current, Prepend(Literal(c), marks)) == Finish(args, current + [c], marks)
  {
    if marks.Some? { assert ([Literal(c)] + marks.value)[1..] == marks.value; }
  }

  lemma SeparatorEndsTheWord(args: seq<string>, current: string, marks: Option<seq<Mark>>)
    ensures Finish(args, current, Prepend(Separator, marks)) == Finish(args + Word(current), "", marks)
  {
    if marks.Some? { assert ([Separator] + marks.value)[1..] == marks.value; }
  }

  method ParseCommand(cmd: string) returns (r: Parsed)
    ensures r == Tokens(cmd)
  {
    var args: seq<string> := [];
    var current := "";
    var inQuote := false;
    var quoteChar := '\0';
    var escaped := false;
    var i := 0;
    while i < |cmd|
      invariant 0 <= i <= |cmd|
      invariant escaped ==> inQuote && quoteChar == '"'
      invariant inQuote ==> quoteChar == '"' || quoteChar == '\''
      invariant Finish(args, current, Remaining(inQuote, quoteChar, escaped, cmd[i..])) == Tokens(cmd)
    {
      var c := cmd[i];
      assert cmd[i..][0] == c && cmd[i..][1..] == cmd[i + 1..];
      ghost var later := cmd[i + 1..];
      LiteralJoinsTheWord(args, current, c, Remaining(inQuote, quoteChar, false, later));
      SeparatorEndsTheWord(args, current, Plain(later));
      if escaped {
        current := current + [c];
        escaped := false;
      } else if c == '\\' && inQuote && quoteChar == '"' {
        escaped := true;
      } else if c == '"' || c == '\'' {
        if !inQuote {
          inQuote, quoteChar := true, c;
        } else if c == quoteChar {
          inQuote, quoteChar := false, '\0';
        } else {
          current := current + [c];
        }
      } else if c == ' ' || c == '\t' {
        if inQuote {
          current := current + [c];
        } else if |current| > 0 {
          args, current := args + [current], "";
        }
      } else {
        current := current + [c];
      }
      i := i + 1;
    }
    if |current| > 0 { args := args + [current]; }
    if inQuote { return UnbalancedQuotes; }
    return Arguments(args);
  }

  // ----- When parsing fails

  datatype Mode = Outside | InSingle | InDouble | AfterBackslash

  function Next(m: Mode, c: char): Mode {
    match m
    case Outside => if c == '"' then InDouble else if c == '\'' then InSingle else Outside
    case InSingle => if c == '\'' then Outside else InSingle
    case InDouble => if c == '"' then Outside else if c == '\\' then AfterBackslash else InDouble
    case AfterBackslash => InDouble
  }

  /** Where a reader that only follows quotes ends up. */
  function EndMode(m: Mode, s: string): Mode
    decreases |s|
  {
    if s == "" then m else EndMode(Next(m, s[0]), s[1..])
  }

  function MarksFrom(m: Mode, s: string): Option<seq<Mark>> {
    match m
    case Outside => Plain(s)
    case InSingle => SingleQuoted(s)
    case InDouble => DoubleQuoted(s)
    case AfterBackslash => Escaped(s)
  }

  lemma {:induction false} OpenFrom(m: Mode, s: string)
    ensures MarksFrom(m, s).None? <==> !EndMode(m, s).Outside?
    decreases |s|
  {
    if s != "" { OpenFrom(Next(m, s[0]), s[1..]); }
  }

  lemma FailsExactlyWhenAQuoteIsOpen(cmd: string)
    ensures Tokens(cmd).UnbalancedQuotes? <==> !EndMode(Outside, cmd).Outside?
  {
    OpenFrom(Outside, cmd);
  }

  // ----- What the words are

  function Flatten(words: seq<string>): string { if words == [] then "" else words[0] + Flatten(words[1..]) }

  function Literals(marks: seq<Mark>): string {
    if marks == [] then "" else (if marks[0].Literal? then [marks[0].c] else "") + Literals(marks[1..])
  }

  lemma FlattenWord(w: string, rest: seq<string>)
    ensures Flatten(Word(w) + rest) == w + Flatten(rest)
  {
    if w == "" { assert Word(w) + rest == rest; } else { assert ([w] + rest)[1..] == rest; }
  }

  lemma {:induction false} NoEmptyWord(marks: seq<Mark>, current: string)
    ensures "" !in Words(marks, current)
  {
    if marks != [] {
      NoEmptyWord(marks[1..], if marks[0].Separator? then "" else current + [marks[0].c]);
    }
  }

  /** The words together are the literal characters, in order. */
  lemma {:induction false} WordsAreTheLiterals(marks: seq<Mark>, current: string)
    ensures Flatten(Words(marks, current)) == current + Literals(marks)
  {
    if marks == [] {
      FlattenWord(current, []);
      assert Word(current) + [] == Word(current);
    } else if marks[0].Separator? {
      WordsAreTheLiterals(marks[1..], "");
      FlattenWord(current, Words(marks[1..], ""));
      assert Literals(marks) == Literals(marks[1..]);
    } else {
      WordsAreTheLiterals(marks[1..], current + [marks[0].c]);
      assert current + [marks[0].c] + Literals(marks[1..]) == current + Literals(marks);
    }
  }

  lemma NoTokenIsEmpty(cmd: string)
    ensures Tokens(cmd).Arguments? ==>
      "" !in Tokens(cmd).args && Flatten(Tokens(cmd).args) == Literals(Plain(cmd).value)
  {
    if Plain(cmd).Some? {
      NoEmptyWord(Plain(cmd).value, "");
      WordsAreTheLiterals(Plain(cmd).value, "");
    }
  }

  // ----- Quoting and parsing

  /** A backslash before every quote and backslash. */
  function Escape(arg: string): string {
    if arg == "" then ""
    else (if arg[0] == '"' || arg[0] == '\\' then ['\\', arg[0]] else [arg[0]]) + Escape(arg[1..])
  }

  function Quote(arg: string): string { "\"" + Escape(arg) + "\"" }

  function Join(args: seq<string>): string {
    if args == [] then "" else if |args| == 1 then Quote(args[0]) else Quote(args[0]) + " " + Join(args[1..])
  }

  function AsLiterals(arg: string): seq<Mark> { if arg == "" then [] else [Literal(arg[0])] + AsLiterals(arg[1..]) }

  function Then(marks: seq<Mark>, rest: Option<seq<Mark>>): Option<seq<Mark>> {
    if rest.None? then None else Some(marks + rest.value)
  }

  lemma {:induction false} EscapedTextReadsBack(arg: string, rest: string)
    ensures DoubleQuoted(Escape(arg) + "\"" + rest) == Then(AsLiterals(arg), Plain(rest))
  {
    var text := Escape(arg) + "\"" + rest;
    if arg == "" {
      assert text[0] == '"' && text[1..] == rest;
      assert Plain(rest).Some? ==> [] + Plain(rest).value == Plain(rest).value;
    } else {
      var later := Escape(arg[1..]) + "\"" + rest;
      EscapedTextReadsBack(arg[1..], rest);
      assert DoubleQuoted(later) == Then(AsLiterals(arg[1..]), Plain(rest));
      assert Prepend(Literal(arg[0]), DoubleQuoted(later)) == Then(AsLiterals(arg), Plain(rest)) by {
        if Plain(rest).Some? {
          assert [Literal(arg[0])] + (AsLiterals(arg[1..]) + Plain(rest).value) == AsLiterals(arg) + Plain(rest).value;
        }
      }
      if arg[0] == '"' || arg[0] == '\\' {
        assert text[0] == '\\' && text[1..][0] == arg[0] && text[1..][1..] == later;
      } else {
        assert text[0] == arg[0] && text[1..] == later;
      }
    }
  }

  lemma QuotedTextReadsBack(arg: string, rest: string)
    ensures Plain(Quote(arg) + rest) == Then(AsLiterals(arg), Plain(rest))
  {
    assert (Quote(arg) + rest)[0] == '"';
    assert (Quote(arg) + rest)[1..] == Escape(arg) + "\"" + rest;
    EscapedTextReadsBack(arg, rest);
  }

  lemma {:induction false} LiteralsJoinTheWord(arg: string, current: string, marks: seq<Mark>)
    ensures Words(AsLiterals(arg) + marks, current) == Words(marks, current + arg)
  {
    if arg == "" {
      assert AsLiterals(arg) + marks == marks && current + arg == current;
    } else {
      assert (AsLiterals(arg) + marks)[1..] == AsLiterals(arg[1..]) + marks;
      assert current + [arg[0]] + arg[1..] == current + arg;
      LiteralsJoinTheWord(arg[1..], current + [arg[0]], marks);
    }
  }

  function NonEmpty(args: seq<string>): seq<string> {
    if args == [] then [] else Word(args[0]) + NonEmpty(args[1..])
  }

  /** A quoted argument in front of another command adds its word in front of that command's words. */
  lemma QuotedWordComesFirst(arg: string, rest: string)
    requires Plain(rest).Some?
    ensures Tokens(Quote(arg) + " " + rest) == Arguments(Word(arg) + Words(Plain(rest).value, ""))
  {
    assert Quote(arg) + " " + rest == Quote(arg) + (" " + rest);
    QuotedTextReadsBack(arg, " " + rest);
    assert (" " + rest)[0] == ' ' && (" " + rest)[1..] == rest;
    QuotedWordEnds(arg, Plain(rest).value);
  }

  lemma QuotedWordEnds(arg: string, marks: seq<Mark>)
    ensures Words(AsLiterals(arg) + ([Separator] + marks), "") == Word(arg) + Words(marks, "")
  {
    LiteralsJoinTheWord(arg, "", [Separator] + marks);
    assert "" + arg == arg;
    assert ([Separator] + marks)[1..] == marks;
  }

  lemma QuotedWordAlone(arg: string)
    ensures Tokens(Quote(arg)) == Arguments(Word(arg))
  {
    assert Quote(arg) + "" == Quote(arg);
    QuotedTextReadsBack(arg, "");
    LiteralsJoinTheWord(arg, "", []);
    assert "" + arg == arg;
  }

  /** Parsing a quoted argument list gives it back without its empty arguments. */
  lemma {:induction false} ParsingUndoesQuoting(args: seq<string>)
    ensures Tokens(Join(args)) == Arguments(NonEmpty(args))
  {
    if |args| == 1 {
      QuotedWordAlone(args[0]);
      assert NonEmpty(args[1..]) == [];
    } else if args != [] {
      ParsingUndoesQuoting(args[1..]);
      QuotedWordComesFirst(args[0], Join(args[1..]));
    }
  }

  lemma {:induction false} NonEmptyKeepsAll(args: seq<string>)
    ensures NonEmpty(args) == args <==> "" !in args
    ensures |NonEmpty(args)| <= |args|
  {
    if args != [] {
      NonEmptyKeepsAll(args[1..]);
      assert args == [args[0]] + args[1..];
      if args[0] != "" { assert NonEmpty(args)[1..] == NonEmpty(args[1..]); }
    }
  }

  lemma RoundTripExactlyWithoutEmptyArguments(args: seq<string>)
    ensures Tokens(Join(args)) == Arguments(args) <==> "" !in args
  {
    ParsingUndoesQuoting(args);
    NonEmptyKeepsAll(args);
  }

  // ----- All ways to write an argument

  /** An argument can be written in double quotes, in single quotes, or bare. */
  datatype Style = Doubled | Singled | Bare

  datatype Written = Written(style: Style, arg: string)

  predicate Free(arg: string, c: char) { forall k :: 0 <= k < |arg| ==> arg[k] != c }

  /** Single quotes cannot hold a single quote; a bare argument cannot hold blanks or quotes. */
  predicate Fits(a: Written) {
    match a.style
    case Doubled => true
    case Singled => Free(a.arg, '\'')
    case Bare => Free(a.arg, ' ') && Free(a.arg, '\t') && Free(a.arg, '"') && Free(a.arg, '\'')
  }

  function Write(a: Written): string {
    match a.style
    case Doubled => Quote(a.arg)
    case Singled => "'" + a.arg + "'"
    case Bare => a.arg
  }

  lemma {:induction false} SingleQuotedReadsBack(arg: string, rest: string)
    requires Free(arg, '\'')
    ensures SingleQuoted(arg + "'" + rest) == Then(AsLiterals(arg), Plain(rest))
  {
    var text := arg + "'" + rest;
    if arg == "" {
      assert text[0] == '\'' && text[1..] == rest;
      assert Plain(rest).Some? ==> [] + Plain(rest).value == Plain(rest).value;
    } else {
      assert text[0] == arg[0] && text[1..] == arg[1..] + "'" + rest;
      SingleQuotedReadsBack(arg[1..], rest);
      PrependThen(arg[0], arg[1..], Plain(rest));
    }
  }

  lemma PrependThen(c: char, arg: string, rest: Option<seq<Mark>>)
    ensures Prepend(Literal(c), Then(AsLiterals(arg), rest)) == Then(AsLiterals([c] + arg), rest)
  {
    assert ([c] + arg)[1..] == arg;
    if rest.Some? { assert [Literal(c)] + (AsLiterals(arg) + rest.value) == AsLiterals([c] + arg) + rest.value; }
  }

  lemma {:induction false} BareReadsBack(arg: string, rest: string)
    requires Fits(Written(Bare, arg))
    ensures Plain(arg + rest) == Then(AsLiterals(arg), Plain(rest))
  {
    if arg == "" {
      assert arg + rest == rest;
      assert Plain(rest).Some? ==> [] + Plain(rest).value == Plain(rest).value;
    } else {
      assert (arg + rest)[0] == arg[0] && (arg + rest)[1..] == arg[1..] + rest;
      BareReadsBack(arg[1..], rest);
      PrependThen(arg[0], arg[1..], Plain(rest));
      assert [arg[0]] + arg[1..] == arg;
    }
  }

  lemma WrittenReadsBack(a: Written, rest: string)
    requires Fits(a)
    ensures Plain(Write(a) + rest) == Then(AsLiterals(a.arg), Plain(rest))
  {
    match a.style
    case Doubled => QuotedTextReadsBack(a.arg, rest);
    case Singled =>
      var text := Write(a) + rest;
      assert text[0] == '\'' && text[1..] == a.arg + "'" + rest;
      SingleQuotedReadsBack(a.arg, rest);
    case Bare => BareReadsBack(a.arg, rest);
  }

  /** The arguments one after another, each followed by a blank. */
  function WriteAll(list: seq<Written>): string {
    if list == [] then "" else Write(list[0]) + " " + WriteAll(list[1..])
  }

  function ArgsOf(list: seq<Written>): seq<string> { if list == [] then [] else [list[0].arg] + ArgsOf(list[1..]) }

  /** However the arguments are written, parsing gives back those that are not empty. */
  lemma {:induction false} ParsingReadsEveryStyle(list: seq<Written>)
    requires forall k :: 0 <= k < |list| ==> Fits(list[k])
    ensures Tokens(WriteAll(list)) == Arguments(NonEmpty(ArgsOf(list)))
  {
    if list != [] {
      var a, rest := list[0], WriteAll(list[1..]);
      ParsingReadsEveryStyle(list[1..]);
      WrittenReadsBack(a, " " + rest);
      assert WriteAll(list) == Write(a) + (" " + rest);
      assert (" " + rest)[0] == ' ' && (" " + rest)[1..] == rest;
      QuotedWordEnds(a.arg, Plain(rest).value);
      assert ([a.arg] + ArgsOf(list[1..]))[1..] == ArgsOf(list[1..]);
    }
  }
}
