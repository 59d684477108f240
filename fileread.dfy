/**
 * fileread.py: its own copy of `sizeof_fmt`, `list_files` over an abstract
 * directory, and the numbered menu and choice check of `file_selector`.
 */
module FileRead {
  import opened Wrappers
  import opened Text
  import SizeFormat

  /**
   * The copy of `sizeof_fmt` at fileread.py:3-8. It walks the unit names
   * itself rather than an index, and gives the same text as the ls.py one.
   */
  method SizeOf(num: int, suffix: string) returns (text: string)
    ensures text == SizeFormat.SizeText(num, suffix)
  {
    var x := num as real;
    var units := SizeFormat.Units;
    ghost var k := 0;
    while units != []
      invariant 0 <= k <= |SizeFormat.Units| && units == SizeFormat.Units[k..]
      invariant x == num as real / SizeFormat.Pow1024(k) as real
      invariant SizeFormat.DivisionsFrom(num, k) == SizeFormat.Divisions(num)
      decreases |units|
    {
      if SizeFormat.AbsReal(x) < 1024.0 {
        SizeFormat.StopAt(num, k, suffix);
        text := SizeFormat.FixedOne(x) + units[0] + suffix;
        return;
      }
      SizeFormat.GoPast(num, k);
      x := x / 1024.0;
      units := units[1..];
      k := k + 1;
    }
    SizeFormat.PastAll(num, suffix);
    text := SizeFormat.FixedOne(x) + "Y" + suffix;
  }

  /** One directory entry as `list_files` sees it: its name, whether it is a regular file, its size. */
  datatype DirChild = DirChild(name: string, isFile: bool, size: nat)

  /** A menu entry: the file name and its size text. */
  type FileItem = (string, string)

  /** `list_files`: the regular files, in directory order, with `sizeof_fmt(size)`. */
  function RegularFiles(children: seq<DirChild>): (files: seq<FileItem>)
    ensures |files| <= |children|
    decreases |children|
  {
    if children == [] then []
    else
      var c := children[|children| - 1];
      RegularFiles(children[..|children| - 1]) +
        (if c.isFile then [(c.name, SizeFormat.SizeText(c.size, "B"))] else [])
  }

  /** One entry alone: kept, with its size text, exactly when it is a regular file. */
  lemma RegularFilesSingle(c: DirChild)
    ensures RegularFiles([c]) == if c.isFile then [(c.name, SizeFormat.SizeText(c.size, "B"))] else []
  {
    assert [c][..0] == [];
  }

  /**
   * Filtering a directory in two parts and concatenating gives the same list:
   * together with `RegularFilesSingle` this says that exactly the regular
   * files are kept and that their order is the directory's.
   */
  lemma {:induction false} RegularFilesAppend(a: seq<DirChild>, b: seq<DirChild>)
    ensures RegularFiles(a + b) == RegularFiles(a) + RegularFiles(b)
    decreases |b|
  {
    if b == [] {
      assert a + b == a;
    } else {
      var init := b[..|b| - 1];
      var c := b[|b| - 1];
      assert (a + b)[..|a + b| - 1] == a + init;
      RegularFilesAppend(a, init);
      var tail := if c.isFile then [(c.name, SizeFormat.SizeText(c.size, "B"))] else [];
      assert RegularFiles(a + b) == RegularFiles(a) + RegularFiles(init) + tail;
    }
  }

  /** Every listed file comes from a regular-file entry of the directory. */
  lemma {:induction false} RegularFilesFromFiles(children: seq<DirChild>, k: nat)
    requires k < |RegularFiles(children)|
    ensures exists i :: (0 <= i < |children| && children[i].isFile &&
                         RegularFiles(children)[k] == (children[i].name, SizeFormat.SizeText(children[i].size, "B")))
    decreases |children|
  {
    var init := children[..|children| - 1];
    var c := children[|children| - 1];
    if k < |RegularFiles(init)| {
      RegularFilesFromFiles(init, k);
      var i :| 0 <= i < |init| && init[i].isFile &&
        RegularFiles(init)[k] == (init[i].name, SizeFormat.SizeText(init[i].size, "B"));
      assert children[i] == init[i];
    } else {
      assert children[|children| - 1] == c;
    }
  }

  /** The loop of fileread.py:12-16: append each regular file with its size text. */
  method ListFiles(children: seq<DirChild>) returns (files: seq<FileItem>)
    ensures files == RegularFiles(children)
  {
    files := [];
    for n := 0 to |children|
      invariant files == RegularFiles(children[..n])
    {
      assert children[..n + 1][..n] == children[..n];
      var c := children[n];
      if c.isFile {
        var size := SizeOf(c.size, "B");
        files := files + [(c.name, size)];
      }
    }
    assert children[..|children|] == children;
  }

  /** The menu line for the file numbered `number` (fileread.py:28). */
  function MenuLine(number: nat, file: FileItem): (line: string)
    ensures HasPrefix(line, NatText(number) + ". " + file.0 + " (")
    ensures |line| == |NatText(number)| + |file.0| + |file.1| + 5
    ensures line[|line| - |file.1| - 1..] == file.1 + ")"
  {
    NatText(number) + ". " + file.0 + " (" + file.1 + ")"
  }

  /** The numbered menu of fileread.py:27-28: numbering starts at 1. */
  method MenuLines(files: seq<FileItem>) returns (lines: seq<string>)
    ensures |lines| == |files|
    ensures forall i :: 0 <= i < |files| ==> lines[i] == MenuLine(i + 1, files[i])
  {
    lines := [];
    for i := 0 to |files|
      invariant |lines| == i
      invariant forall k :: 0 <= k < i ==> lines[k] == MenuLine(k + 1, files[k])
    {
      lines := lines + [MenuLine(i + 1, files[i])];
    }
  }

  /**
   * The check of fileread.py:32 and the pick of fileread.py:36: a choice is
   * taken exactly when it is a non-empty string of digits whose value lies in
   * 1..len(files), and it names the file with that number.
   */
  function Choose(files: seq<FileItem>, choice: string): (r: Option<string>)
    ensures r.Some? <==> IsDigits(choice) && 1 <= DigitsValue(choice) <= |files|
    ensures r.Some? ==> r.value == files[DigitsValue(choice) - 1].0
  {
    if !IsDigits(choice) then None
    else
      var n := DigitsValue(choice);
      if 1 <= n <= |files| then Some(files[n - 1].0) else None
  }

  /** Typing the number a menu line shows selects exactly that line's file. */
  lemma {:induction false} ChooseMenuNumber(files: seq<FileItem>, i: nat)
    requires i < |files|
    ensures HasPrefix(MenuLine(i + 1, files[i]), NatText(i + 1) + ". ")
    ensures Choose(files, NatText(i + 1)) == Some(files[i].0)
  {
    DigitsValueOfNatText(i + 1);
  }

  /** A selected file is always one of the listed ones, and its number is the one it was shown with. */
  lemma ChosenIsListed(files: seq<FileItem>, choice: string)
    requires Choose(files, choice).Some?
    ensures exists i :: 0 <= i < |files| && files[i].0 == Choose(files, choice).value && DigitsValue(choice) == i + 1
  {
    var i := DigitsValue(choice) - 1;
    assert files[i].0 == Choose(files, choice).value;
  }

  /** Leading zeros are read as `int` reads them: "01" picks the first file; "0" and "" pick nothing. */
  lemma ChooseExamples(files: seq<FileItem>)
    requires |files| >= 1
    ensures Choose(files, "01") == Some(files[0].0)
    ensures Choose(files, "0") == None
    ensures Choose(files, "") == None
    ensures Choose(files, "1a") == None
  {
    assert DigitsValue("0") == 0;
    assert DigitsValue("01") == 1 by {
      assert "01"[..1] == "0";
    }
    assert !IsDigit("1a"[1]);
  }

  /** How `file_selector` ends, before the chosen file is read. */
  datatype Selection =
    | NoFiles
    | InvalidChoice(menu: seq<string>)
    | Selected(menu: seq<string>, file: string)

  /**
   * `file_selector` with the directory entries and the typed choice as
   * parameters: no menu when there are no files, otherwise the menu and
   * then either the rejection or the selected name.
   */
  method FileSelector(children: seq<DirChild>, choice: string) returns (result: Selection)
    ensures RegularFiles(children) == [] <==> result == NoFiles
    ensures result.InvalidChoice? <==> RegularFiles(children) != [] && Choose(RegularFiles(children), choice).None?
    ensures result.Selected? ==> Choose(RegularFiles(children), choice) == Some(result.file)
    ensures !result.NoFiles? ==> |result.menu| == |RegularFiles(children)|
    ensures !result.NoFiles? ==>
              forall i :: 0 <= i < |result.menu| ==> result.menu[i] == MenuLine(i + 1, RegularFiles(children)[i])
  {
    var files := ListFiles(children);
    if files == [] {
      return NoFiles;
    }
    var menu := MenuLines(files);
    var picked := Choose(files, choice);
    if picked.None? {
      return InvalidChoice(menu);
    }
    return Selected(menu, picked.value);
  }
}
