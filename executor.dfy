/** `Commands::execute` (src/main.rs:100-192) and the read-eval loop's error
    rule (src/main.rs:266-272), as pure decisions.

    Everything the interpreter asks of the operating system is a field of a
    `Host` value, and everything it does to the outside world is an `Effect`:
    a line on standard output or standard error, a change of working
    directory, an attempt to start a child process, or the end of the
    process. */
module Executor {
  import opened Wrappers
  import opened Decimal
  import opened Text
  import opened Commands
  import Tokenizer
  import Resolver

  /** What `std::process::Command::status` gives back: the child's exit code
      (`None` when a signal ended it) or the error that prevented the start. */
  datatype SpawnResult = Exited(code: Option<int32>) | SpawnError(message: string)

  /** What `env::set_current_dir` gives back. */
  datatype DirChange = Changed | NotFound | DirError(message: string)

  /** The operating system as seen by one `execute` call. */
  datatype Host = Host(
    pathVar: Option<string>,                  // env::var("PATH"); None when unset or unreadable
    home: Result<string, string>,             // env::var("HOME"); the error's text otherwise
    currentDir: Result<string, string>,       // env::current_dir()
    isExecutable: string -> bool,             // Path::exists && IsExecutable::is_executable
    setCurrentDir: string -> DirChange,       // env::set_current_dir
    spawn: (string, seq<string>, Option<string>) -> SpawnResult)
                                              // Command::new(program).args(args)[.env("PATH", p)].status()

  /** One observable action of the interpreter. */
  datatype Effect =
    | Stdout(line: string)                    // println!
    | Stderr(line: string)                    // eprintln!
    | ChangedDir(path: string)                // set_current_dir succeeded
    | Spawn(program: string, args: seq<string>, pathEnv: Option<string>)
                                              // an attempt to start a child; it may fail
    | Terminate(code: int32)                  // std::process::exit

  /** The line `type name` prints: builtin status first, then the search
      path. */
  function TypeMessage(name: string, host: Host): string {
    if IsBuiltin(name) then name + " is a shell builtin"
    else match Resolver.Lookup(host.pathVar, name, host.isExecutable)
      case Some(path) => name + " is " + path
      case None => name + ": not found"
  }

  /** The code the interpreter exits with once a child has finished, or
      `None` when the child succeeded and the loop goes on. */
  function ChildExit(code: Option<int32>): (r: Option<int32>)
    ensures r.None? <==> code == Some(0)
    ensures r.Some? ==> r.value != 0
    ensures code.Some? && code.value != 0 ==> r == code
    ensures code.None? ==> r == Some(1)
  {
    if code == Some(0) then None else Some(code.GetOr(1))
  }

  function AfterChild(code: Option<int32>): seq<Effect> {
    match ChildExit(code)
    case None => []
    case Some(c) => [Terminate(c)]
  }

  /** An external command: look it up, start it by its bare name with `PATH`
      passed on, and if that cannot start, once more by the resolved path. */
  function RunExternal(cmd: string, args: seq<string>, host: Host): seq<Effect> {
    match Resolver.Lookup(host.pathVar, cmd, host.isExecutable)
    case None => [Stdout(cmd + ": not found")]
    case Some(path) =>
      var env := Some(host.pathVar.GetOr(""));
      [Spawn(cmd, args, env)] +
      match host.spawn(cmd, args, env)
      case Exited(code) => AfterChild(code)
      case SpawnError(_) =>
        [Spawn(path, args, None)] +
        match host.spawn(path, args, None)
        case Exited(code) => AfterChild(code)
        case SpawnError(e) => [Stderr(cmd + ": " + e)]
  }

  predicate StartsWithTildeSlash(path: string) {
    |path| >= 2 && path[0] == '~' && path[1] == '/'
  }

  /** Rust's `str::replace` with a one-character pattern: every occurrence
      of `c` becomes `sub`. */
  function ReplaceAll(s: string, c: char, sub: string): (r: string)
    ensures c !in sub ==> c !in r
    ensures c !in s ==> r == s
    // the character itself becomes `sub`
    ensures s == [c] ==> r == sub
  {
    if s == [] then []
    else (if s[0] == c then sub else [s[0]]) + ReplaceAll(s[1..], c, sub)
  }

  /** Replacement works piece by piece. */
  lemma {:induction false} ReplaceAllAppend(a: string, b: string, c: char, sub: string)
    ensures ReplaceAll(a + b, c, sub) == ReplaceAll(a, c, sub) + ReplaceAll(b, c, sub)
  {
    if a == [] {
      assert a + b == b;
    } else {
      assert (a + b)[0] == a[0] && (a + b)[1..] == a[1..] + b;
      ReplaceAllAppend(a[1..], b, c, sub);
    }
  }

  /** The directory `cd path` changes to, or the error reading `HOME`. */
  function CdTarget(path: string, home: Result<string, string>): Result<string, string> {
    if StartsWithTildeSlash(path) then
      match home
      case Ok(h) => Ok(ReplaceAll(path, '~', h))
      case Err(e) => Err(e)
    else if path == "~" then home
    else Ok(path)
  }

  /** `cd`: expand the target, then try to change to it. */
  function ChangeDir(path: string, host: Host): seq<Effect> {
    match CdTarget(path, host.home)
    case Err(e) => [Stderr("cd: HOME: " + e)]
    case Ok(target) =>
      match host.setCurrentDir(target)
      case Changed => [ChangedDir(target)]
      case NotFound => [Stderr("cd: " + target + ": No such file or directory")]
      case DirError(m) => [Stderr("cd: " + target + ": " + m)]
  }

  /** Only the last effect may end the process. */
  predicate TerminateIsLast(effects: seq<Effect>) {
    forall k :: 0 <= k < |effects| && effects[k].Terminate? ==> k == |effects| - 1
  }

  predicate Terminates(effects: seq<Effect>) {
    exists k :: 0 <= k < |effects| && effects[k].Terminate?
  }

  /** `execute`: one command, one list of effects. */
  function Execute(cmd: Command, host: Host): (effects: seq<Effect>)
    // nothing happens after the process ends
    ensures TerminateIsLast(effects)
    // `exit` always ends the process, with its code or 0
    ensures cmd.Exit? ==> effects == [Terminate(cmd.code.GetOr(0))]
    // `echo`, `type` and `cd` never end the process
    ensures cmd.Echo? || cmd.Type? || cmd.Cd? ==> !Terminates(effects)
    // only `cd` changes directory, only an external command tries to start a child
    ensures forall k :: 0 <= k < |effects| && effects[k].ChangedDir? ==> cmd.Cd?
    ensures forall k :: 0 <= k < |effects| && effects[k].Spawn? ==> cmd.External?
  {
    match cmd
    case Exit(code) => [Terminate(code.GetOr(0))]
    case Echo(args) => [Stdout(Join(args, " "))]
    case Type(name) => [Stdout(TypeMessage(name, host))]
    case External(program, args) => RunExternal(program, args, host)
    case Pwd =>
      (match host.currentDir
       case Ok(p) => [Stdout(p)]
       case Err(e) => [Stderr("pwd: " + e), Terminate(1)])
    case Cd(path) => ChangeDir(path, host)
  }

  /** One turn of the read-eval loop on an input line: a parse error is
      printed unless it is the silent one. */
  function ReplStep(line: string, host: Host): seq<Effect> {
    match Parse(line)
    case Ok(c) => Execute(c, host)
    case Err(e) => if e == [] then [] else [Stderr(e)]
  }

  // ---- `type` ----

  /** A builtin name is always reported as a builtin, whatever the search
      path holds. */
  lemma TypeBuiltinWins(name: string, host: Host)
    requires IsBuiltin(name)
    ensures Execute(Type(name), host) == [Stdout(name + " is a shell builtin")]
  {
  }

  /** Any other name is reported with the first executable candidate on the
      search path, or as not found when there is none. */
  lemma TypeReportsFirstMatch(name: string, host: Host)
    requires !IsBuiltin(name)
    ensures var out := Execute(Type(name), host);
      (out == [Stdout(name + ": not found")] <==>
         host.pathVar.None? || forall i :: 0 <= i < |Split(host.pathVar.value, ':')| ==>
           !host.isExecutable(Resolver.PathJoin(Split(host.pathVar.value, ':')[i], name)))
      && (out != [Stdout(name + ": not found")] ==>
         exists i :: Resolver.FirstAt(Split(host.pathVar.value, ':'), name, host.isExecutable, i)
           && out == [Stdout(name + " is " + Resolver.PathJoin(Split(host.pathVar.value, ':')[i], name))])
  {
    Resolver.LookupIsFirstMatch(host.pathVar, name, host.isExecutable);
    match Resolver.Lookup(host.pathVar, name, host.isExecutable)
    case None =>
    case Some(path) =>
      assert name + " is " + path != name + ": not found" by {
        assert (name + " is " + path)[|name|] == ' ';
        assert (name + ": not found")[|name|] == ':';
      }
  }

  // ---- external commands ----

  /** A name that is neither a builtin nor on the search path: `type` and
      the external command both report it as not found, and no child is
      started. */
  lemma NotFoundEverywhere(name: string, args: seq<string>, host: Host)
    requires !IsBuiltin(name)
    requires Resolver.Lookup(host.pathVar, name, host.isExecutable).None?
    ensures Execute(Type(name), host) == [Stdout(name + ": not found")]
    ensures Execute(External(name, args), host) == [Stdout(name + ": not found")]
    ensures forall k :: 0 <= k < |Execute(External(name, args), host)| ==>
              !Execute(External(name, args), host)[k].Spawn?
  {
  }

  /** A child that ends with a non-zero code ends the interpreter with the
      same code; one killed by a signal ends it with 1; a successful one lets
      the loop go on. */
  lemma ChildStatusPropagates(name: string, args: seq<string>, host: Host)
    requires Resolver.Lookup(host.pathVar, name, host.isExecutable).Some?
    requires host.spawn(name, args, Some(host.pathVar.GetOr(""))).Exited?
    ensures var code := host.spawn(name, args, Some(host.pathVar.GetOr(""))).code;
      Execute(External(name, args), host) ==
        [Spawn(name, args, Some(host.pathVar.GetOr("")))]
        + (if code == Some(0) then [] else [Terminate(code.GetOr(1))])
  {
  }

  /** When the start by bare name fails, a second attempt is made by the
      resolved path without touching the environment; its child's status is
      handled as before, and its failure is printed as `name: error`. */
  lemma SpawnFallback(name: string, args: seq<string>, host: Host)
    requires Resolver.Lookup(host.pathVar, name, host.isExecutable).Some?
    requires host.spawn(name, args, Some(host.pathVar.GetOr(""))).SpawnError?
    ensures var path := Resolver.Lookup(host.pathVar, name, host.isExecutable).value;
      Execute(External(name, args), host) ==
        [Spawn(name, args, Some(host.pathVar.GetOr(""))), Spawn(path, args, None)]
        + (match host.spawn(path, args, None)
           case Exited(code) => if code == Some(0) then [] else [Terminate(code.GetOr(1))]
           case SpawnError(e) => [Stderr(name + ": " + e)])
  {
  }

  // ---- `cd` ----

  /** `cd ~` goes to `HOME`. */
  lemma CdHome(home: Result<string, string>)
    ensures CdTarget("~", home) == home
  {
  }

  /** `cd ~/rest` goes under `HOME`, and every later `~` in `rest` is
      replaced by `HOME` as well. */
  lemma CdUnderHome(rest: string, h: string)
    ensures CdTarget("~/" + rest, Ok(h)) == Ok(h + "/" + ReplaceAll(rest, '~', h))
  {
    var path := "~/" + rest;
    assert path[0] == '~' && path[1] == '/';
    assert StartsWithTildeSlash(path);
    assert path == ['~'] + (['/'] + rest);
    ReplaceAllAppend(['~'], ['/'] + rest, '~', h);
    ReplaceAllAppend(['/'], rest, '~', h);
    assert ReplaceAll(['~'], '~', h) == h + ReplaceAll([], '~', h);
    assert ReplaceAll(['/'], '~', h) == ['/'] + ReplaceAll([], '~', h);
    assert h + [] == h && ['/'] + [] == "/";
    assert ReplaceAll(path, '~', h) == h + ("/" + ReplaceAll(rest, '~', h));
    assert h + ("/" + ReplaceAll(rest, '~', h)) == h + "/" + ReplaceAll(rest, '~', h);
    assert CdTarget(path, Ok(h)) == Ok(ReplaceAll(path, '~', h));
  }

  /** Any other target, `~user` included, is taken literally and `HOME` is
      not consulted. */
  lemma CdLiteral(path: string, home: Result<string, string>)
    requires !StartsWithTildeSlash(path) && path != "~"
    ensures CdTarget(path, home) == Ok(path)
  {
  }

  /** Without `HOME`, a `~` target is reported and the directory is left
      alone. */
  lemma CdWithoutHome(path: string, e: string, host: Host)
    requires path == "~" || StartsWithTildeSlash(path)
    requires host.home == Err(e)
    ensures Execute(Cd(path), host) == [Stderr("cd: HOME: " + e)]
  {
  }

  /** A missing directory is reported with the exact message and the working
      directory is left alone. */
  lemma CdMissingDirectory(path: string, host: Host)
    requires CdTarget(path, host.home).Ok?
    requires host.setCurrentDir(CdTarget(path, host.home).value) == NotFound
    ensures Execute(Cd(path), host) ==
              [Stderr("cd: " + CdTarget(path, host.home).value + ": No such file or directory")]
  {
  }

  /** A successful `cd` enters the expanded target, and only that. */
  lemma CdChanges(path: string, host: Host)
    requires CdTarget(path, host.home).Ok?
    requires host.setCurrentDir(CdTarget(path, host.home).value) == Changed
    ensures Execute(Cd(path), host) == [ChangedDir(CdTarget(path, host.home).value)]
  {
  }

  /** Any other failure to change directory prints `cd: <target>: <message>`. */
  lemma CdOtherError(path: string, m: string, host: Host)
    requires CdTarget(path, host.home).Ok?
    requires host.setCurrentDir(CdTarget(path, host.home).value) == DirError(m)
    ensures Execute(Cd(path), host) == [Stderr("cd: " + CdTarget(path, host.home).value + ": " + m)]
  {
  }

  // ---- `exit`, `echo`, `pwd` and the loop ----

  /** `exit N` ends the process with `N` for every `i32` N, and a bare `exit`
      ends it with 0. */
  lemma ExitLine(n: int32, host: Host)
    ensures ReplStep("exit " + ShowInt(n as int), host) == [Terminate(n)]
    ensures ReplStep("exit", host) == [Terminate(0)]
  {
    ShowIntClean(n as int);
    assert Clean(Exit(Some(n)));
    ParseLineOfRender(Exit(Some(n)));
    assert Join(["exit", ShowInt(n as int)], " ") == "exit " + ShowInt(n as int);
    assert CleanWord("exit");
    assert Clean(Exit(None));
    ParseLineOfRender(Exit(None));
  }

  /** `exit` with an argument that is not an `i32` still ends the process,
      with code 0. */
  lemma ExitNonNumeric(arg: string, host: Host)
    requires CleanWord(arg) && ParseI32(arg).None?
    ensures ReplStep("exit " + arg, host) == [Terminate(0)]
  {
    assert CleanWord("exit");
    Tokenizer.TokensOfJoin(["exit", arg]);
    assert Join(["exit", arg], " ") == "exit " + arg;
    ParseWithArguments("exit", [arg]);
  }

  /** `exit abc` exits with 0. */
  lemma ExitWord(host: Host)
    ensures ReplStep("exit abc", host) == [Terminate(0)]
  {
    ParseRejectsWord();
    assert CleanWord("abc");
    ExitNonNumeric("abc", host);
    assert "exit " + "abc" == "exit abc";
  }

  /** The same lines as `read_line` delivers them, newline included. */
  lemma ExitLineRead(n: int32, host: Host)
    ensures ReplStep("exit " + ShowInt(n as int) + "\n", host) == [Terminate(n)]
    ensures ReplStep("exit\n", host) == [Terminate(0)]
  {
    ExitLineWithNewline(n);
    BareExitWithNewline();
    ParseRender(Exit(Some(n)));
    ParseRender(Exit(None));
    assert Render(Exit(Some(n))) == ["exit", ShowInt(n as int)];
    assert Render(Exit(None)) == ["exit"];
  }

  /** The line terminator `read_line` keeps is trimmed off the last token, so
      `exit N` followed by a newline tokenizes like `exit N`. */
  lemma ExitLineWithNewline(n: int32)
    ensures Tokenizer.Tokens("exit " + ShowInt(n as int) + "\n") == ["exit", ShowInt(n as int)]
  {
    var digits := ShowInt(n as int);
    ShowIntClean(n as int);
    assert CleanWord("exit");
    Tokenizer.TwoWordLine("exit", digits);
    assert "exit" + " " == "exit ";
  }

  /** So does a bare `exit` followed by a newline. */
  lemma BareExitWithNewline()
    ensures Tokenizer.Tokens("exit\n") == ["exit"]
  {
    assert CleanWord("exit");
    Tokenizer.WordLine("exit");
    assert "exit" + "\n" == "exit\n";
  }

  /** `echo` prints one line, its arguments joined by single spaces, for any
      arguments. */
  lemma EchoOutput(args: seq<string>, host: Host)
    ensures Execute(Echo(args), host) == [Stdout(Join(args, " "))]
  {
  }

  /** For clean words, tokenizing what `echo` prints gives the arguments
      back. */
  lemma EchoPrintsArguments(args: seq<string>, host: Host)
    requires forall k :: 0 <= k < |args| ==> CleanWord(args[k])
    ensures |Execute(Echo(args), host)| == 1 && Execute(Echo(args), host)[0].Stdout?
    ensures Execute(Echo(args), host)[0].line == Join(args, " ")
    ensures Tokenizer.Tokens(Execute(Echo(args), host)[0].line) == args
  {
    Tokenizer.TokensOfJoin(args);
  }

  /** `pwd` prints the working directory; failing to read it is the one
      builtin failure that ends the process (with 1). */
  lemma PwdOutcomes(host: Host)
    ensures host.currentDir.Ok? ==> Execute(Pwd, host) == [Stdout(host.currentDir.value)]
    ensures host.currentDir.Err? ==>
              Execute(Pwd, host) == [Stderr("pwd: " + host.currentDir.error), Terminate(1)]
  {
  }

  /** A line without tokens does nothing at all; `type` alone prints the
      missing-argument error and the loop goes on. */
  lemma ReplErrors(line: string, host: Host)
    ensures Tokenizer.Tokens(line) == [] ==> ReplStep(line, host) == []
    ensures Tokenizer.Tokens(line) == ["type"] ==>
              ReplStep(line, host) == [Stderr("type: missing argument")]
  {
  }
}
