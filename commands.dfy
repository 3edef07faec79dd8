/** The closed command type, the builtin table and `Commands::parse`
    (src/main.rs:7-14, 43-98). */
module Commands {
  import opened Wrappers
  import opened Decimal
  import opened Text
  import Tokenizer

  /** One parsed input line. */
  datatype Command =
    | Exit(code: Option<int32>)
    | Echo(args: seq<string>)
    | Type(name: string)
    | External(program: string, args: seq<string>)
    | Pwd
    | Cd(path: string)

  /** The fixed builtin table. */
  const Builtins: seq<string> := ["exit", "echo", "type", "pwd", "cd"]

  /** `is_builtin`: membership in the builtin table. */
  function IsBuiltin(name: string): (r: bool)
    ensures r <==> name == "exit" || name == "echo" || name == "type" || name == "pwd" || name == "cd"
  {
    name in Builtins
  }

  /** The parser's work on the token list of a line. */
  function ParseTokens(parts: seq<string>): (r: Result<Command, string>)
    // exactly two failures: no tokens (silent), and `type` without argument
    ensures r.Err? <==> parts == [] || parts == ["type"]
    ensures r == Err("") <==> parts == []
    ensures parts == ["type"] ==> r == Err("type: missing argument")
    // the first token picks a builtin exactly when it names one
    ensures r.Ok? ==> (r.value.External? <==> !IsBuiltin(parts[0]))
    // argument lists are kept verbatim and in order
    ensures r.Ok? && (r.value.Echo? || r.value.External?) ==> r.value.args == parts[1..]
    ensures r.Ok? && r.value.External? ==> r.value.program == parts[0]
  {
    if parts == [] then Err("")
    else
      var cmd := parts[0];
      var args := parts[1..];
      if cmd == "exit" then
        Ok(Exit(if |args| > 0 then ParseI32(args[0]) else None))
      else if cmd == "echo" then
        Ok(Echo(args))
      else if cmd == "type" then
        (if |args| > 0 then Ok(Type(args[0])) else Err("type: missing argument"))
      else if cmd == "cd" then
        Ok(Cd(if |args| > 0 then args[0] else "~"))
      else if cmd == "pwd" then
        Ok(Pwd)
      else
        Ok(External(cmd, args))
  }

  /** `Commands::parse`: tokenize, then dispatch on the first token. */
  function Parse(input: string): Result<Command, string> {
    ParseTokens(Tokenizer.Tokens(input))
  }

  /** A command the parser can produce: an external command never carries
      a builtin name. */
  predicate WellFormed(c: Command) {
    c.External? ==> !IsBuiltin(c.program)
  }

  /** A token list that parses to `c`: the canonical way to write `c`. */
  function Render(c: Command): seq<string> {
    match c
    case Exit(None) => ["exit"]
    case Exit(Some(n)) => ["exit", ShowInt(n as int)]
    case Echo(args) => ["echo"] + args
    case Type(name) => ["type", name]
    case External(program, args) => [program] + args
    case Pwd => ["pwd"]
    case Cd(path) => ["cd", path]
  }

  /** Parsing is a left inverse of rendering: every well-formed command is
      recovered from its canonical token list. */
  lemma ParseRender(c: Command)
    requires WellFormed(c)
    ensures ParseTokens(Render(c)) == Ok(c)
  {
    match c
    case Exit(Some(n)) => ParseShowI32(n);
    case Echo(args) => assert (["echo"] + args)[1..] == args;
    case External(program, args) => assert ([program] + args)[1..] == args;
    case _ =>
  }

  /** Every parse result is well formed and is a fixed point of rendering
      and parsing again: the parser's output is in normal form. */
  lemma ParseNormalForm(parts: seq<string>)
    requires ParseTokens(parts).Ok?
    ensures WellFormed(ParseTokens(parts).value)
    ensures ParseTokens(Render(ParseTokens(parts).value)) == ParseTokens(parts)
  {
    ParseRender(ParseTokens(parts).value);
  }

  /** A line parses to the silent error exactly when it has no tokens; its
      only other failure is `type` with no argument; every other line
      parses. */
  lemma ParseOutcomes(input: string)
    ensures Parse(input) == Err("") <==> Tokenizer.Tokens(input) == []
    ensures Parse(input).Err? && Parse(input) != Err("") <==>
              Tokenizer.Tokens(input) == ["type"]
    ensures Parse(input).Err? ==> Parse(input).error in {"", "type: missing argument"}
  {
  }

  /** The variant shapes the parser produces from a token list with at least
      one argument: `type` and `cd` take the first argument and ignore the
      rest, `pwd` ignores its arguments, `exit` keeps the first argument only
      when it is an `i32`. */
  lemma ParseWithArguments(cmd: string, args: seq<string>)
    requires args != []
    ensures cmd == "type" ==> ParseTokens([cmd] + args) == Ok(Type(args[0]))
    ensures cmd == "cd" ==> ParseTokens([cmd] + args) == Ok(Cd(args[0]))
    ensures cmd == "pwd" ==> ParseTokens([cmd] + args) == Ok(Pwd)
    ensures cmd == "exit" ==> ParseTokens([cmd] + args) == Ok(Exit(ParseI32(args[0])))
  {
    assert ([cmd] + args)[0] == cmd && ([cmd] + args)[1..] == args;
  }

  /** Without arguments, `cd` means `cd ~` and `exit` carries no code. */
  lemma ParseWithoutArguments()
    ensures ParseTokens(["cd"]) == Ok(Cd("~"))
    ensures ParseTokens(["exit"]) == Ok(Exit(None))
    ensures ParseTokens(["pwd"]) == Ok(Pwd)
    ensures ParseTokens(["echo"]) == Ok(Echo([]))
  {
  }

  /** Every string of a command's canonical form is a clean word. */
  predicate Clean(c: Command) {
    forall k :: 0 <= k < |Render(c)| ==> CleanWord(Render(c)[k])
  }

  /** End to end: writing a well-formed command as its clean words joined by
      spaces and parsing that line gives the command back. */
  lemma ParseLineOfRender(c: Command)
    requires WellFormed(c) && Clean(c)
    ensures Parse(Join(Render(c), " ")) == Ok(c)
  {
    Tokenizer.TokensOfJoin(Render(c));
    ParseRender(c);
  }

  /** The rendering of an `i32` is a clean word. */
  lemma ShowIntClean(n: int)
    ensures CleanWord(ShowInt(n))
  {
    var s := ShowInt(n);
    forall i | 0 <= i < |s| ensures !IsWhitespace(s[i]) && s[i] != '\'' && s[i] != '"' {
    }
  }

  /** A bare newline is not silent: it parses as an external command with
      an empty name. */
  lemma ParseBareNewline()
    ensures Parse("\n") == Ok(External("", []))
  {
    Tokenizer.ExampleBareNewline();
  }
}
