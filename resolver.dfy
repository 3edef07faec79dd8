/** `Commands::find_cmd` (src/main.rs:194-214): the first directory of the
    `:`-separated `PATH` whose candidate file exists and is executable.

    The environment value is a parameter (`None` when `PATH` is unset or
    unreadable) and the file-system test "exists and is executable" is a
    predicate parameter. */
module Resolver {
  import opened Wrappers
  import opened Text

  predicate IsAbsolute(p: string) {
    p != [] && p[0] == '/'
  }

  /** Rust's `Path::join` on Unix: an absolute `cmd` replaces the directory,
      an empty directory gives `cmd`, otherwise a `/` is inserted unless the
      directory already ends with one. */
  function PathJoin(dir: string, cmd: string): string {
    if IsAbsolute(cmd) || dir == [] then cmd
    else if dir[|dir| - 1] == '/' then dir + cmd
    else dir + "/" + cmd
  }

  /** The candidate always ends with the command; a relative command lands
      under a non-empty directory with exactly one separator between them,
      and an absolute command ignores the directory. */
  lemma PathJoinShape(dir: string, cmd: string)
    ensures var r := PathJoin(dir, cmd);
      |cmd| <= |r| && r[|r| - |cmd|..] == cmd
      && (!IsAbsolute(cmd) ==> |dir| <= |r| && r[..|dir|] == dir)
      && (!IsAbsolute(cmd) && dir != [] ==> r[|r| - |cmd| - 1] == '/')
      && (IsAbsolute(cmd) || dir == [] ==> r == cmd)
    // a separator is added only when the directory does not end with one
    ensures !IsAbsolute(cmd) && dir != [] && dir[|dir| - 1] == '/' ==>
              |PathJoin(dir, cmd)| == |dir| + |cmd|
    ensures !IsAbsolute(cmd) && dir != [] && dir[|dir| - 1] != '/' ==>
              |PathJoin(dir, cmd)| == |dir| + 1 + |cmd|
  {
  }

  /** The first directory, in order, whose candidate passes the test. */
  function FirstMatch(dirs: seq<string>, cmd: string, isExecutable: string -> bool): (r: Option<string>)
    ensures r.Some? ==> isExecutable(r.value)
    ensures r.None? <==> forall i :: 0 <= i < |dirs| ==> !isExecutable(PathJoin(dirs[i], cmd))
  {
    if dirs == [] then None
    else if isExecutable(PathJoin(dirs[0], cmd)) then Some(PathJoin(dirs[0], cmd))
    else
      var r := FirstMatch(dirs[1..], cmd, isExecutable);
      assert forall i :: 1 <= i < |dirs| ==> dirs[i] == dirs[1..][i - 1];
      r
  }

  /** What `find_cmd` returns for a `PATH` value. */
  function Lookup(pathVar: Option<string>, cmd: string, isExecutable: string -> bool): Option<string> {
    match pathVar
    case None => None
    case Some(p) => FirstMatch(Split(p, ':'), cmd, isExecutable)
  }

  /** The candidate for directory `i` is the first that passes the test. */
  predicate FirstAt(dirs: seq<string>, cmd: string, isExecutable: string -> bool, i: int) {
    0 <= i < |dirs| && isExecutable(PathJoin(dirs[i], cmd))
    && forall j :: 0 <= j < i ==> !isExecutable(PathJoin(dirs[j], cmd))
  }

  /** The match is the first one: every earlier directory fails the test. */
  lemma {:induction false} FirstMatchIsFirst(dirs: seq<string>, cmd: string, isExecutable: string -> bool)
    requires FirstMatch(dirs, cmd, isExecutable).Some?
    ensures exists i :: FirstAt(dirs, cmd, isExecutable, i)
              && FirstMatch(dirs, cmd, isExecutable).value == PathJoin(dirs[i], cmd)
  {
    if !isExecutable(PathJoin(dirs[0], cmd)) {
      FirstMatchIsFirst(dirs[1..], cmd, isExecutable);
      var i :| FirstAt(dirs[1..], cmd, isExecutable, i)
               && FirstMatch(dirs[1..], cmd, isExecutable).value == PathJoin(dirs[1..][i], cmd);
      assert forall j :: 1 <= j < i + 1 ==> dirs[j] == dirs[1..][j - 1];
      assert dirs[i + 1] == dirs[1..][i];
      assert FirstAt(dirs, cmd, isExecutable, i + 1);
    } else {
      assert FirstAt(dirs, cmd, isExecutable, 0);
    }
  }

  /** `find_cmd` finds nothing exactly when `PATH` is unset or no directory
      passes; otherwise it returns the candidate of the first directory that
      passes, in `:`-split order. */
  lemma {:induction false} LookupIsFirstMatch(pathVar: Option<string>, cmd: string, isExecutable: string -> bool)
    ensures Lookup(pathVar, cmd, isExecutable).None? ==>
              pathVar.None? || forall i :: 0 <= i < |Split(pathVar.value, ':')| ==>
                                 !isExecutable(PathJoin(Split(pathVar.value, ':')[i], cmd))
    ensures (pathVar.None? || forall i :: 0 <= i < |Split(pathVar.value, ':')| ==>
                                 !isExecutable(PathJoin(Split(pathVar.value, ':')[i], cmd)))
            ==> Lookup(pathVar, cmd, isExecutable).None?
    ensures Lookup(pathVar, cmd, isExecutable).Some? ==>
              exists i :: FirstAt(Split(pathVar.value, ':'), cmd, isExecutable, i)
                && Lookup(pathVar, cmd, isExecutable).value == PathJoin(Split(pathVar.value, ':')[i], cmd)
  {
    if pathVar.Some? {
      var dirs := Split(pathVar.value, ':');
      assert Lookup(pathVar, cmd, isExecutable) == FirstMatch(dirs, cmd, isExecutable);
      if FirstMatch(dirs, cmd, isExecutable).Some? {
        FirstMatchIsFirst(dirs, cmd, isExecutable);
        var i :| FirstAt(dirs, cmd, isExecutable, i)
                 && FirstMatch(dirs, cmd, isExecutable).value == PathJoin(dirs[i], cmd);
        assert isExecutable(PathJoin(dirs[i], cmd));
      } else {
        assert forall k :: 0 <= k < |dirs| ==> !isExecutable(PathJoin(dirs[k], cmd));
      }
    }
  }

  /** `find_cmd`: split `PATH` on `:`, walk the directories in order and stop
      at the first candidate that exists and is executable. */
  method FindCmd(pathVar: Option<string>, cmd: string, isExecutable: string -> bool)
    returns (r: Option<string>)
    ensures r == Lookup(pathVar, cmd, isExecutable)
    ensures r.Some? ==> isExecutable(r.value)
  {
    var found := false;
    var foundPath: string := [];
    if pathVar.Some? {
      var paths := Split(pathVar.value, ':');
      var i := 0;
      while i < |paths|
        invariant 0 <= i <= |paths|
        invariant FirstMatch(paths[i..], cmd, isExecutable) == FirstMatch(paths, cmd, isExecutable)
      {
        var fullPath := PathJoin(paths[i], cmd);
        if isExecutable(fullPath) {
          found := true;
          foundPath := fullPath;
          break;
        }
        assert paths[i..][1..] == paths[i + 1..];
        i := i + 1;
      }
      assert found ==> Some(foundPath) == FirstMatch(paths, cmd, isExecutable);
      assert !found ==> paths[i..] == [];
    }
    if found {
      r := Some(foundPath);
    } else {
      r := None;
    }
  }
}
