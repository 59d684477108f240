/**
 * `cd_command` of cd.py: the new working directory, given the requested
 * path, the current one, the home directory that `expanduser("~")` gives,
 * the process working directory that `abspath` falls back on, and the
 * `isdir` test of the filesystem.
 */
module Cd {
  import opened Wrappers
  import opened Text
  import opened PosixPath

  /** An empty request means the home directory (cd.py:15-16). */
  function Requested(path: string, home: string): (p: string)
    ensures path != "" ==> p == path
    ensures p == "" <==> path == "" && home == ""
  {
    if path == "" then home else path
  }

  /**
   * `abspath(join(current_dir, path))` (cd.py:19): absolute as soon as one of
   * the request, the current directory or the process directory is, and the
   * normalised request itself when that is absolute.
   */
  function Candidate(path: string, currentDir: string, home: string, cwd: string): (r: string)
    ensures IsAbs(Requested(path, home)) || IsAbs(currentDir) || IsAbs(cwd) ==> IsAbs(r)
    ensures IsAbs(Requested(path, home)) ==> r == Normpath(Requested(path, home))
  {
    Abspath(Join(currentDir, Requested(path, home)), cwd)
  }

  /** The new directory, and the complaint printed when there is none. */
  datatype CdResult = CdResult(dir: string, message: Option<string>)

  /** `cd_command(path, current_dir)`: the candidate when it is a directory, else the old directory and a message. */
  function CdCommand(path: string, currentDir: string, home: string, cwd: string, isDir: string -> bool): (r: CdResult)
    ensures !isDir(Candidate(path, currentDir, home, cwd)) ==>
      r == CdResult(currentDir, Some("cd: no such directory: " + Requested(path, home)))
    ensures isDir(Candidate(path, currentDir, home, cwd)) ==>
      r == CdResult(Candidate(path, currentDir, home, cwd), None)
  {
    var p := if path == "" then home else path;
    var newPath := Abspath(Join(currentDir, p), cwd);
    if !isDir(newPath) then CdResult(currentDir, Some("cd: no such directory: " + p))
    else CdResult(newPath, None)
  }

  /** `cd` with nothing is `cd ~`. */
  lemma EmptyMeansHome(currentDir: string, home: string, cwd: string, isDir: string -> bool)
    ensures CdCommand("", currentDir, home, cwd, isDir) == CdCommand(home, currentDir, home, cwd, isDir)
  {
  }

  /** An absolute request does not depend on the current directory: it is the request, normalised. */
  lemma AbsoluteIgnoresCurrent(path: string, d1: string, d2: string, home: string, cwd: string)
    requires IsAbs(path)
    ensures Candidate(path, d1, home, cwd) == Candidate(path, d2, home, cwd) == Normpath(path)
  {
  }

  /** A relative request from an absolute current directory never consults the process directory. */
  lemma RelativeFromAbsolute(path: string, currentDir: string, home: string, cwd1: string, cwd2: string)
    requires IsAbs(currentDir)
    ensures Candidate(path, currentDir, home, cwd1) == Candidate(path, currentDir, home, cwd2)
  {
  }

  /** `cd ..` from /home/user goes to /home. */
  lemma ParentExample(home: string, cwd: string)
    ensures Candidate("..", "/home/user", home, cwd) == "/home"
  {
    var p := "/home/user/..";
    assert Join("/home/user", "..") == p;
    ParentNormpath(p);
  }

  lemma ParentNormpath(p: string)
    requires p == "/home/user/.."
    ensures Normpath(p) == "/home"
  {
    var parts := ["", "home", "user", ".."];
    ParentSplit(p, parts);
    ParentComps(parts);
    ParentSlashes(p);
    assert JoinSlash(["home"]) == "home";
    assert Repeat('/', 1) == "/";
    NormpathFrom(p, 1, parts, ["home"], "/home");
  }

  lemma ParentSplit(p: string, parts: seq<string>)
    requires p == "/home/user/.." && parts == ["", "home", "user", ".."]
    ensures Split(p) == parts
  {
    assert JoinSlash(parts) == p by {
      assert parts[1..] == ["home", "user", ".."];
      assert JoinSlash(["home", "user", ".."]) == "home/user/..";
    }
    SplitJoinSlash(parts);
  }

  lemma ParentComps(parts: seq<string>)
    requires parts == ["", "home", "user", ".."]
    ensures NormComps(parts, true) == ["home"]
  {
    assert parts[..3] == ["", "home", "user"];
    assert parts[..3][..2] == ["", "home"];
    assert parts[..3][..2][..1] == [""];
    assert NormComps([""], true) == [];
    assert NormComps(["", "home"], true) == ["home"];
    assert NormComps(["", "home", "user"], true) == ["home", "user"];
  }

  lemma ParentSlashes(p: string)
    requires p == "/home/user/.."
    ensures InitialSlashes(p) == 1
  {
    assert p[..2] == "/h";
    assert p[..1] == "/";
  }

  /**
   * Whenever the directory changes, the new one is absolute and in normal
   * form: normalising it again gives it back.
   */
  lemma NewDirIsNormalAbsolute(path: string, currentDir: string, home: string, cwd: string, isDir: string -> bool)
    requires IsAbs(cwd)
    requires CdCommand(path, currentDir, home, cwd, isDir).message.None?
    ensures var r := CdCommand(path, currentDir, home, cwd, isDir).dir;
      IsAbs(r) && NormalAbsolute(r) && Normpath(r) == r
  {
    var j := Join(currentDir, Requested(path, home));
    var p := if IsAbs(j) then j else Join(cwd, j);
    assert IsAbs(p);
    NormpathAbsolute(p);
    NormalIsFixed(Normpath(p));
  }

  /** A refused request leaves the working directory as it was and says so. */
  lemma RefusedKeepsDirectory(path: string, currentDir: string, home: string, cwd: string, isDir: string -> bool)
    requires CdCommand(path, currentDir, home, cwd, isDir).message.Some?
    ensures CdCommand(path, currentDir, home, cwd, isDir).dir == currentDir
    ensures !isDir(Candidate(path, currentDir, home, cwd))
  {
  }
}
