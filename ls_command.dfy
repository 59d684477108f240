/**
 * The option scanner of `ls_command` (ls.py:168-204), over the token list
 * the shell-style splitter produced (None when the splitter rejected the
 * argument string).
 */
module LsCommand {
  import opened Wrappers
  import opened Text

  /** What the scanner decides: a parse error, the usage text to print, or a listing to run. */
  datatype Invocation = ParseFailure | Usage(lines: seq<string>) | Run(path: string, allFiles: bool, longFormat: bool)

  /** The usage text printed for `-h`. */
  const UsageLines: seq<string> := [
    "Usage: ls [OPTION]... [FILE]...",
    "Options:",
    "  -a     show hidden files",
    "  -l     long listing format",
    "  -h     help"
  ]

  /** A token starting with '-' is a flag; "-" on its own is one too. */
  predicate IsFlag(arg: string) {
    |arg| > 0 && arg[0] == '-'
  }

  /** A flag is a token that starts with '-', as `arg.startswith('-')` tests: "-" is one, "" is not. */
  lemma FlagIsDashPrefix(arg: string)
    ensures IsFlag(arg) <==> HasPrefix(arg, "-")
    ensures IsFlag("-") && !IsFlag("") && !IsFlag("a-")
  {
    assert "a-"[0] == 'a';
  }

  /** Some flag token among `args` contains the letter `c` (scanning from the last token back). */
  function FlagHas(args: seq<string>, c: char): (r: bool)
    ensures r ==> exists i :: 0 <= i < |args| && IsFlag(args[i]) && c in args[i]
    decreases |args|
  {
    if args == [] then false
    else FlagHas(args[..|args| - 1], c) || (IsFlag(args[|args| - 1]) && c in args[|args| - 1])
  }

  /** `FlagHas` holds exactly when one of the flag tokens contains the letter. */
  lemma {:induction false} FlagHasMeans(args: seq<string>, c: char)
    ensures FlagHas(args, c) <==> exists i :: 0 <= i < |args| && IsFlag(args[i]) && c in args[i]
    decreases |args|
  {
    if args != [] {
      var init := args[..|args| - 1];
      FlagHasMeans(init, c);
      assert forall i :: 0 <= i < |init| ==> init[i] == args[i];
    }
  }

  /** Every token of `args` after position `i` is a flag. */
  predicate FlagsAfter(args: seq<string>, i: int) {
    forall j :: 0 <= j < |args| && i < j ==> IsFlag(args[j])
  }

  /** The path the scan ends with: the last non-flag token, `baseDir` when there is none. */
  function LastOperand(args: seq<string>, baseDir: string): (r: string)
    ensures r == baseDir || (r in args && !IsFlag(r))
    decreases |args|
  {
    if args == [] then baseDir
    else if !IsFlag(args[|args| - 1]) then args[|args| - 1]
    else LastOperand(args[..|args| - 1], baseDir)
  }

  /** With only flags the path stays `baseDir`; otherwise it is the non-flag token that only flags follow. */
  lemma {:induction false} LastOperandMeans(args: seq<string>, baseDir: string)
    ensures FlagsAfter(args, -1) ==> LastOperand(args, baseDir) == baseDir
    ensures forall i :: 0 <= i < |args| && !IsFlag(args[i]) && FlagsAfter(args, i) ==>
      LastOperand(args, baseDir) == args[i]
    decreases |args|
  {
    if args == [] {
    } else if !IsFlag(args[|args| - 1]) {
    } else {
      var init := args[..|args| - 1];
      LastOperandMeans(init, baseDir);
      if FlagsAfter(args, -1) {
        FlagsAfterInit(args, -1);
      }
      forall i | 0 <= i < |args| && !IsFlag(args[i]) && FlagsAfter(args, i)
        ensures LastOperand(args, baseDir) == args[i]
      {
        assert i < |init|;
        FlagsAfterInit(args, i);
        assert init[i] == args[i];
      }
    }
  }

  lemma FlagsAfterInit(args: seq<string>, i: int)
    requires args != [] && FlagsAfter(args, i)
    ensures FlagsAfter(args[..|args| - 1], i)
  {
    var init := args[..|args| - 1];
    assert forall j :: 0 <= j < |init| ==> init[j] == args[j];
  }

  /** A flag token holding 'h' anywhere in `args` means `FlagHas(args, 'h')`. */
  lemma HelpSeen(args: seq<string>, n: nat)
    requires n < |args| && IsFlag(args[n]) && 'h' in args[n]
    ensures FlagHas(args, 'h')
  {
    FlagHasMeans(args, 'h');
  }

  /** One more token: it can only add its own letters, and it replaces the path unless it is a flag. */
  lemma ScanStep(args: seq<string>, n: nat, baseDir: string)
    requires n < |args|
    ensures forall c :: FlagHas(args[..n + 1], c) == (FlagHas(args[..n], c) || (IsFlag(args[n]) && c in args[n]))
    ensures LastOperand(args[..n + 1], baseDir) == if IsFlag(args[n]) then LastOperand(args[..n], baseDir) else args[n]
  {
    assert args[..n + 1][..n] == args[..n];
  }

  /**
   * The scan of ls.py:175-201: every flag token may set `all_files` ('a')
   * and `long_format` ('l'); one containing 'h' stops the scan with the
   * usage text; a non-flag token replaces the path.
   */
  method ScanOptions(split: Option<seq<string>>, baseDir: string) returns (inv: Invocation)
    ensures split.None? ==> inv == ParseFailure
    ensures split.Some? ==> (inv.Usage? <==> FlagHas(split.value, 'h'))
    ensures inv.Usage? ==> inv.lines == UsageLines
    ensures split.Some? && !FlagHas(split.value, 'h') ==>
      inv == Run(LastOperand(split.value, baseDir), FlagHas(split.value, 'a'), FlagHas(split.value, 'l'))
  {
    if split.None? {
      return ParseFailure;
    }
    var args := split.value;
    var path := baseDir;
    var allFiles := false;
    var longFormat := false;
    for n := 0 to |args|
      invariant path == LastOperand(args[..n], baseDir)
      invariant allFiles == FlagHas(args[..n], 'a')
      invariant longFormat == FlagHas(args[..n], 'l')
      invariant !FlagHas(args[..n], 'h')
    {
      var arg := args[n];
      ScanStep(args, n, baseDir);
      if |arg| > 0 && arg[0] == '-' {
        if 'a' in arg {
          allFiles := true;
        }
        if 'l' in arg {
          longFormat := true;
        }
        if 'h' in arg {
          HelpSeen(args, n);
          return Usage(UsageLines);
        }
      } else {
        path := arg;
      }
    }
    assert args[..|args|] == args;
    return Run(path, allFiles, longFormat);
  }

  /** The last operand wins: a later plain token overrides an earlier one, flags in between or not. */
  lemma {:induction false} LaterOperandWins(front: seq<string>, p: string, flags: seq<string>, baseDir: string)
    requires !IsFlag(p) && forall i :: 0 <= i < |flags| ==> IsFlag(flags[i])
    ensures LastOperand(front + [p] + flags, baseDir) == p
  {
    var args := front + [p] + flags;
    assert args[|front|] == p;
    assert forall j :: |front| < j < |args| ==> args[j] == flags[j - |front| - 1];
    assert FlagsAfter(args, |front|);
    LastOperandMeans(args, baseDir);
  }

  /** `ls -la docs src` lists `src` with hidden entries in long format; `-h` anywhere gives the usage. */
  lemma ScanExample()
    ensures LastOperand(["-la", "docs", "src"], ".") == "src"
    ensures FlagHas(["-la", "docs", "src"], 'a') && FlagHas(["-la", "docs", "src"], 'l')
    ensures !FlagHas(["-la", "docs", "src"], 'h')
    ensures FlagHas(["docs", "-ah"], 'h')
  {
    var args := ["-la", "docs", "src"];
    assert IsFlag(args[0]) && 'a' in args[0] && 'l' in args[0] && 'h' !in args[0];
    assert !IsFlag(args[1]) && !IsFlag(args[2]);
    FlagHasMeans(args, 'a');
    FlagHasMeans(args, 'l');
    FlagHasMeans(args, 'h');
    var h := ["docs", "-ah"];
    assert IsFlag(h[1]) && 'h' in h[1];
    HelpSeen(h, 1);
  }
}
