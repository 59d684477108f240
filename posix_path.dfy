/**
 * The behaviour of Python's posixpath functions that cd.py and ls.py call:
 * `isabs`, `join` of two paths, `normpath` and `abspath` (posixpath itself is
 * not part of this model; its documented string rules are).
 */
module PosixPath {
  import opened Text

  predicate IsAbs(p: string) {
    |p| > 0 && p[0] == '/'
  }

  /** `os.path.join(a, b)`: an absolute `b` replaces `a`; otherwise one '/' separates them. */
  function Join(a: string, b: string): (r: string)
    ensures IsAbs(b) ==> r == b
    ensures !IsAbs(b) ==> HasPrefix(r, a) && HasPrefix(r[|a|..], "/") == (a != [] && a[|a| - 1] != '/')
    ensures !IsAbs(b) ==>
      |r| == |a| + |b| + (if a != [] && a[|a| - 1] != '/' then 1 else 0) && r[|r| - |b|..] == b
    ensures IsAbs(a) ==> IsAbs(r)
    ensures r == [] <==> a == [] && b == []
  {
    if IsAbs(b) then b
    else if a == [] || a[|a| - 1] == '/' then a + b
    else a + "/" + b
  }

  /** `'/'.join(parts)`. */
  function JoinSlash(parts: seq<string>): string
    decreases |parts|
  {
    if parts == [] then "" else if |parts| == 1 then parts[0] else parts[0] + "/" + JoinSlash(parts[1..])
  }

  /** `s.split('/')`: the pieces between slashes, empty ones included; joining them back gives `s`. */
  function Split(s: string): (parts: seq<string>)
    ensures |parts| >= 1
    ensures forall i :: 0 <= i < |parts| ==> '/' !in parts[i]
    ensures JoinSlash(parts) == s
    decreases |s|
  {
    if s == [] then [""]
    else
      var rest := Split(s[1..]);
      if s[0] == '/' then
        assert ([""] + rest)[1..] == rest;
        [""] + rest
      else
        var parts := [[s[0]] + rest[0]] + rest[1..];
        assert parts[1..] == rest[1..];
        assert |rest| > 1 ==> JoinSlash(rest) == rest[0] + "/" + JoinSlash(rest[1..]);
        assert s == [s[0]] + s[1..];
        parts
  }

  lemma {:induction false} SplitNoSlash(p: string)
    requires '/' !in p
    ensures Split(p) == [p]
    decreases |p|
  {
    if p != [] {
      assert '/' !in p[1..];
      SplitNoSlash(p[1..]);
      assert p == [p[0]] + p[1..];
    }
  }

  lemma {:induction false} SplitAfterPiece(p: string, x: string)
    requires '/' !in p
    ensures Split(p + "/" + x) == [p] + Split(x)
    decreases |p|
  {
    if p == [] {
      assert p + "/" + x == "/" + x;
      assert ("/" + x)[1..] == x;
    } else {
      var s := p + "/" + x;
      assert s[1..] == p[1..] + "/" + x;
      assert '/' !in p[1..];
      SplitAfterPiece(p[1..], x);
      assert p == [p[0]] + p[1..];
    }
  }

  /** Splitting the joined pieces gives the pieces back, when none holds a slash. */
  lemma {:induction false} SplitJoinSlash(parts: seq<string>)
    requires |parts| >= 1
    requires forall i :: 0 <= i < |parts| ==> '/' !in parts[i]
    ensures Split(JoinSlash(parts)) == parts
    decreases |parts|
  {
    if |parts| == 1 {
      SplitNoSlash(parts[0]);
    } else {
      SplitJoinSlash(parts[1..]);
      SplitAfterPiece(parts[0], JoinSlash(parts[1..]));
      assert parts == [parts[0]] + parts[1..];
    }
  }

  /** One step of `normpath`'s component loop: drop "" and ".", let ".." pop a name. */
  function NormStep(acc: seq<string>, c: string, rooted: bool): seq<string> {
    if c == "" || c == "." then acc
    else if c != ".." || (!rooted && acc == []) || (acc != [] && acc[|acc| - 1] == "..") then acc + [c]
    else if acc != [] then acc[..|acc| - 1]
    else acc
  }

  /** The components that `normpath` keeps, processing `comps` left to right. */
  function NormComps(comps: seq<string>, rooted: bool): seq<string>
    decreases |comps|
  {
    if comps == [] then [] else NormStep(NormComps(comps[..|comps| - 1], rooted), comps[|comps| - 1], rooted)
  }

  /** A component of a normal path: a name, neither empty, "." nor "..", without a slash. */
  predicate Plain(c: string) {
    c != "" && c != "." && c != ".." && '/' !in c
  }

  predicate AllPlain(cs: seq<string>) {
    forall i :: 0 <= i < |cs| ==> Plain(cs[i])
  }

  /** Under a root, every kept component is a plain name. */
  lemma {:induction false} NormCompsRootedPlain(comps: seq<string>)
    requires forall i :: 0 <= i < |comps| ==> '/' !in comps[i]
    ensures AllPlain(NormComps(comps, true))
    decreases |comps|
  {
    if comps != [] {
      NormCompsRootedPlain(comps[..|comps| - 1]);
    }
  }

  /** Leading empty components vanish and plain names are kept as they are. */
  lemma {:induction false} NormCompsOfPlain(e: seq<string>, cs: seq<string>, rooted: bool)
    requires forall i :: 0 <= i < |e| ==> e[i] == ""
    requires AllPlain(cs)
    ensures NormComps(e + cs, rooted) == cs
    decreases |e| + |cs|
  {
    if cs == [] {
      assert e + cs == e;
      if e != [] {
        NormCompsOfPlain(e[..|e| - 1], [], rooted);
        assert e[..|e| - 1] + [] == e[..|e| - 1];
      }
    } else {
      var all := e + cs;
      assert all[..|all| - 1] == e + cs[..|cs| - 1];
      NormCompsOfPlain(e, cs[..|cs| - 1], rooted);
      assert cs == cs[..|cs| - 1] + [cs[|cs| - 1]];
    }
  }

  /** POSIX keeps two leading slashes, and folds one or three and more into one. */
  function InitialSlashes(p: string): nat {
    if HasPrefix(p, "//") && !HasPrefix(p, "///") then 2 else if HasPrefix(p, "/") then 1 else 0
  }

  /** `os.path.normpath(p)`: never empty, and absolute when `p` is. */
  function Normpath(p: string): (r: string)
    ensures r != ""
    ensures IsAbs(p) ==> IsAbs(r)
  {
    if p == "" then "."
    else
      var slashes := InitialSlashes(p);
      var r := Repeat('/', slashes) + JoinSlash(NormComps(Split(p), slashes > 0));
      if r == "" then "." else r
  }

  /** `normpath` from its three ingredients: the kept leading slashes, the split and the kept components. */
  lemma NormpathFrom(p: string, k: nat, parts: seq<string>, cs: seq<string>, r: string)
    requires p != "" && InitialSlashes(p) == k && Split(p) == parts && NormComps(parts, k > 0) == cs
    requires r == Repeat('/', k) + JoinSlash(cs) && r != ""
    ensures Normpath(p) == r
  {
  }

  /** `os.path.abspath(p)` for a process whose working directory is `cwd`. */
  function Abspath(p: string, cwd: string): (r: string)
    ensures IsAbs(p) || IsAbs(cwd) ==> IsAbs(r)
    ensures IsAbs(p) ==> r == Normpath(p)
  {
    Normpath(if IsAbs(p) then p else Join(cwd, p))
  }

  ghost predicate NormalAbsolute(r: string) {
    exists cs :: AllPlain(cs) && (r == "/" + JoinSlash(cs) || r == "//" + JoinSlash(cs))
  }

  /** The normal form of an absolute path: one or two slashes, then plain names joined by '/'. */
  lemma NormpathAbsolute(p: string)
    requires IsAbs(p)
    ensures IsAbs(Normpath(p))
    ensures NormalAbsolute(Normpath(p))
  {
    var cs := NormComps(Split(p), true);
    NormCompsRootedPlain(Split(p));
    var k := InitialSlashes(p);
    assert k == 1 || k == 2;
    assert Repeat('/', 1) == "/";
    assert Repeat('/', 2) == "//";
  }

  lemma JoinSlashStart(cs: seq<string>)
    requires cs != [] && AllPlain(cs)
    ensures |JoinSlash(cs)| > 0 && JoinSlash(cs)[0] == cs[0][0] && cs[0][0] != '/'
  {
    assert cs[0] != "" && '/' !in cs[0];
    assert cs[0][0] in cs[0];
  }

  /** The two roots are normal. */
  lemma NormpathRoots()
    ensures Normpath("/") == "/"
    ensures Normpath("//") == "//"
  {
    assert Split("/") == ["", ""];
    assert NormComps(["", ""], true) == [];
    assert InitialSlashes("/") == 1;
    assert Repeat('/', 1) == "/";
    assert Split("//") == ["", "", ""];
    assert NormComps(["", "", ""], true) == [];
    assert InitialSlashes("//") == 2;
    assert Repeat('/', 2) == "//";
  }

  /** The leading empty components that one or two slashes give. */
  function RootPieces(prefix: string): seq<string> {
    if prefix == "/" then [""] else ["", ""]
  }

  lemma SplitRooted(prefix: string, cs: seq<string>)
    requires prefix == "/" || prefix == "//"
    requires cs != [] && AllPlain(cs)
    ensures Split(prefix + JoinSlash(cs)) == RootPieces(prefix) + cs
  {
    var j := JoinSlash(cs);
    SplitJoinSlash(cs);
    assert Split("/" + j) == [""] + cs by {
      assert ("/" + j)[1..] == j;
    }
    if prefix == "//" {
      assert (prefix + j)[1..] == "/" + j;
    }
  }

  lemma InitialSlashesRooted(prefix: string, cs: seq<string>)
    requires prefix == "/" || prefix == "//"
    requires cs != [] && AllPlain(cs)
    ensures InitialSlashes(prefix + JoinSlash(cs)) == |prefix|
  {
    var j := JoinSlash(cs);
    var r := prefix + j;
    JoinSlashStart(cs);
    assert r[|prefix|] == j[0];
    if prefix == "/" {
      assert r[..2][1] != '/';
    } else {
      assert r[..2] == "//";
      assert r[..3][2] != '/';
    }
  }

  /** Normpath of `prefix + j`, for a prefix of one or two slashes and a normal `j`. */
  lemma NormpathOfNormal(prefix: string, cs: seq<string>)
    requires prefix == "/" || prefix == "//"
    requires cs != [] && AllPlain(cs)
    ensures Normpath(prefix + JoinSlash(cs)) == prefix + JoinSlash(cs)
  {
    var r := prefix + JoinSlash(cs);
    SplitRooted(prefix, cs);
    InitialSlashesRooted(prefix, cs);
    NormCompsOfPlain(RootPieces(prefix), cs, true);
    assert Repeat('/', |prefix|) == prefix;
  }

  /** A path already in normal form is its own normal form. */
  lemma NormalIsFixed(r: string)
    requires NormalAbsolute(r)
    ensures Normpath(r) == r
  {
    var cs :| AllPlain(cs) && (r == "/" + JoinSlash(cs) || r == "//" + JoinSlash(cs));
    if cs == [] {
      assert JoinSlash(cs) == "";
      assert r == "/" || r == "//" by {
        assert "/" + "" == "/" && "//" + "" == "//";
      }
      NormpathRoots();
    } else if r == "/" + JoinSlash(cs) {
      NormpathOfNormal("/", cs);
    } else {
      NormpathOfNormal("//", cs);
    }
  }

  /** Normalising an absolute path twice changes nothing more than normalising it once. */
  lemma NormpathIdempotent(p: string)
    requires IsAbs(p)
    ensures Normpath(Normpath(p)) == Normpath(p)
  {
    NormpathAbsolute(p);
    NormalIsFixed(Normpath(p));
  }
}
