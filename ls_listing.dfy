/**
 * The collecting half of ls.py: the colour of an entry (`get_file_color`)
 * and `list_directory`, which filters hidden names, records metadata and
 * sorts directories first, then by case-folded name. The directory itself is
 * an already-read list of raw children; nothing touches a file system.
 */
module LsListing {
  import opened Wrappers
  import opened Text
  import PosixPath

  /** The ANSI colour codes of the listing. */
  const Blue: string := "\U{1B}[94m"
  const Green: string := "\U{1B}[92m"
  const Reset: string := "\U{1B}[0m"

  /** `get_file_color`: blue for a directory, green for an executable file, the reset code otherwise. */
  function FileColor(isDir: bool, isExecutable: bool): (code: string)
    ensures code == Blue <==> isDir
    ensures code == Green <==> !isDir && isExecutable
    ensures code == Reset <==> !isDir && !isExecutable
  {
    if isDir then Blue else if isExecutable then Green else Reset
  }

  /**
   * One child as the file system reports it: `isdir`, `access(X_OK)`, and
   * `getsize` / `getmtime`, each of which is None when the call raises OSError.
   */
  datatype RawEntry = RawEntry(name: string, isDir: bool, accessible: bool, size: Option<nat>, modTime: Option<int>)

  /** What `os.listdir(path)` gives: the children, or the error it raised. */
  datatype DirListing = Listed(children: seq<RawEntry>) | NotFound | PermissionDenied

  /** One record of the list `list_directory` returns. */
  datatype Entry = Entry(name: string, isDir: bool, size: nat, modTime: int, isExecutable: bool, fullPath: string)

  predicate IsHidden(name: string) {
    |name| > 0 && name[0] == '.'
  }

  /** A name is hidden exactly when it starts with '.', as `item.startswith('.')` tests. */
  lemma HiddenIsDotPrefix(name: string)
    ensures IsHidden(name) <==> HasPrefix(name, ".")
    ensures IsHidden(".") && !IsHidden("") && !IsHidden("a.b")
  {
    assert "a.b"[0] == 'a';
  }

  predicate Shown(c: RawEntry, showHidden: bool) {
    showHidden || !IsHidden(c.name)
  }

  /**
   * The record kept for a shown child. Metadata is fetched only in long
   * format: the size for a non-directory, then the time; a failing `getsize`
   * skips `getmtime` as well, since both sit in one `try`.
   */
  function MakeEntry(c: RawEntry, path: string, longFormat: bool): (e: Entry)
    ensures e.name == c.name && e.isDir == c.isDir && e.fullPath == PosixPath.Join(path, c.name)
    ensures e.isExecutable <==> c.accessible && !c.isDir
    ensures e.size != 0 ==> longFormat && !c.isDir && c.size == Some(e.size)
    ensures longFormat && !c.isDir && c.size.Some? ==> e.size == c.size.value
    ensures e.modTime != 0 ==> longFormat && (c.isDir || c.size.Some?) && c.modTime == Some(e.modTime)
    ensures longFormat && (c.isDir || c.size.Some?) && c.modTime.Some? ==> e.modTime == c.modTime.value
  {
    var size := if longFormat && !c.isDir && c.size.Some? then c.size.value else 0;
    var timeFetched := longFormat && (c.isDir || c.size.Some?);
    var modTime := if timeFetched && c.modTime.Some? then c.modTime.value else 0;
    Entry(c.name, c.isDir, size, modTime, c.accessible && !c.isDir, PosixPath.Join(path, c.name))
  }

  /** The records that the loop of `list_directory` appends, in enumeration order. */
  function Collected(children: seq<RawEntry>, path: string, showHidden: bool, longFormat: bool): (r: seq<Entry>)
    ensures |r| <= |children|
    ensures showHidden ==> |r| == |children|
    ensures forall i :: 0 <= i < |r| ==> showHidden || !IsHidden(r[i].name)
    ensures forall i :: 0 <= i < |r| ==> r[i].isDir ==> !r[i].isExecutable
    ensures forall i :: 0 <= i < |r| ==> (r[i].isDir || !longFormat) ==> r[i].size == 0
    ensures forall i :: 0 <= i < |r| ==> !longFormat ==> r[i].modTime == 0
    decreases |children|
  {
    if children == [] then []
    else
      var rest := Collected(children[..|children| - 1], path, showHidden, longFormat);
      var c := children[|children| - 1];
      if Shown(c, showHidden) then rest + [MakeEntry(c, path, longFormat)] else rest
  }

  /** Every shown child has its record in the result, and every record comes from a shown child. */
  lemma {:induction false} CollectedExactly(children: seq<RawEntry>, path: string, showHidden: bool, longFormat: bool)
    ensures forall c :: c in children && Shown(c, showHidden) ==>
      MakeEntry(c, path, longFormat) in Collected(children, path, showHidden, longFormat)
    ensures forall e :: e in Collected(children, path, showHidden, longFormat) ==>
      exists c :: c in children && Shown(c, showHidden) && e == MakeEntry(c, path, longFormat)
    decreases |children|
  {
    if children != [] {
      var init := children[..|children| - 1];
      CollectedExactly(init, path, showHidden, longFormat);
      assert children == init + [children[|children| - 1]];
      forall e | e in Collected(children, path, showHidden, longFormat)
        ensures exists c :: c in children && Shown(c, showHidden) && e == MakeEntry(c, path, longFormat)
      {
        if e in Collected(init, path, showHidden, longFormat) {
          var c :| c in init && Shown(c, showHidden) && e == MakeEntry(c, path, longFormat);
          assert c in children;
        }
      }
    }
  }

  // ----- The sort key `(not is_dir, name.lower())` and a stable sort by it -----

  function SortKey(e: Entry): (bool, string) {
    (!e.isDir, Lower(e.name))
  }

  /** Python's `<=` on the key tuples: False before True, then the names. */
  predicate KeyLe(k1: (bool, string), k2: (bool, string)) {
    (!k1.0 && k2.0) || (k1.0 == k2.0 && LexLe(k1.1, k2.1))
  }

  lemma KeyLeTotal(k1: (bool, string), k2: (bool, string))
    ensures KeyLe(k1, k2) || KeyLe(k2, k1)
  {
    LexLeTotal(k1.1, k2.1);
  }

  lemma KeyLeTransitive(k1: (bool, string), k2: (bool, string), k3: (bool, string))
    requires KeyLe(k1, k2) && KeyLe(k2, k3)
    ensures KeyLe(k1, k3)
  {
    if k1.0 == k2.0 && k2.0 == k3.0 {
      LexLeTransitive(k1.1, k2.1, k3.1);
    }
  }

  lemma KeyLeReflexive(k: (bool, string))
    ensures KeyLe(k, k)
  {
    LexLeReflexive(k.1);
  }

  /** Keys each `<=` the other are equal; with the laws above, `KeyLe` is a total order, as tuple `<=` is. */
  lemma KeyLeAntisymmetric(k1: (bool, string), k2: (bool, string))
    requires KeyLe(k1, k2) && KeyLe(k2, k1)
    ensures k1 == k2
  {
    LexLeAntisymmetric(k1.1, k2.1);
  }

  /** What the key orders by: any directory before any file, then the lowered names within each group. */
  lemma KeyOrder(a: Entry, b: Entry)
    ensures a.isDir && !b.isDir ==> KeyLe(SortKey(a), SortKey(b)) && !KeyLe(SortKey(b), SortKey(a))
    ensures a.isDir == b.isDir ==> (KeyLe(SortKey(a), SortKey(b)) <==> LexLe(Lower(a.name), Lower(b.name)))
    ensures SortKey(a) == SortKey(b) <==> a.isDir == b.isDir && Lower(a.name) == Lower(b.name)
  {
  }

  predicate Sorted(s: seq<Entry>) {
    forall i, j :: 0 <= i < j < |s| ==> KeyLe(SortKey(s[i]), SortKey(s[j]))
  }

  /** Put `e` before the first element whose key is not below its own. */
  function Insert(e: Entry, s: seq<Entry>): (r: seq<Entry>)
    requires Sorted(s)
    ensures Sorted(r)
    ensures multiset(r) == multiset(s) + multiset{e}
    decreases |s|
  {
    if s == [] then [e]
    else if KeyLe(SortKey(e), SortKey(s[0])) then
      InsertFrontSorted(e, s);
      [e] + s
    else
      assert s == [s[0]] + s[1..];
      var t := Insert(e, s[1..]);
      InsertBehindSorted(e, s, t);
      [s[0]] + t
  }

  lemma InsertFrontSorted(e: Entry, s: seq<Entry>)
    requires Sorted(s) && s != [] && KeyLe(SortKey(e), SortKey(s[0]))
    ensures Sorted([e] + s)
  {
    var r := [e] + s;
    forall i, j | 0 <= i < j < |r| ensures KeyLe(SortKey(r[i]), SortKey(r[j])) {
      if i == 0 && j > 1 {
        KeyLeTransitive(SortKey(e), SortKey(s[0]), SortKey(s[j - 1]));
      }
    }
  }

  lemma InsertBehindSorted(e: Entry, s: seq<Entry>, t: seq<Entry>)
    requires Sorted(s) && s != [] && !KeyLe(SortKey(e), SortKey(s[0]))
    requires Sorted(t) && multiset(t) == multiset(s[1..]) + multiset{e}
    ensures Sorted([s[0]] + t)
  {
    KeyLeTotal(SortKey(e), SortKey(s[0]));
    var r := [s[0]] + t;
    forall j | 0 <= j < |t| ensures KeyLe(SortKey(s[0]), SortKey(t[j])) {
      assert t[j] in multiset(t);
      if t[j] != e {
        assert t[j] in multiset(s[1..]);
        assert t[j] in s[1..];
        var k :| 0 <= k < |s[1..]| && s[1..][k] == t[j];
        assert s[k + 1] == t[j];
      }
    }
    forall i, j | 0 <= i < j < |r| ensures KeyLe(SortKey(r[i]), SortKey(r[j])) {
      if i == 0 {
        assert r[j] == t[j - 1];
      } else {
        assert r[i] == t[i - 1] && r[j] == t[j - 1];
      }
    }
  }

  /** `items.sort(key=...)`: a sorted permutation (stability is `SortStable`). */
  function SortEntries(s: seq<Entry>): (r: seq<Entry>)
    ensures Sorted(r)
    ensures multiset(r) == multiset(s)
    decreases |s|
  {
    if s == [] then [] else
      assert s == [s[0]] + s[1..];
      Insert(s[0], SortEntries(s[1..]))
  }

  /** The entries of `s` whose key is `k`, in their order in `s`. */
  function WithKey(s: seq<Entry>, k: (bool, string)): seq<Entry>
    decreases |s|
  {
    if s == [] then [] else (if SortKey(s[0]) == k then [s[0]] else []) + WithKey(s[1..], k)
  }

  lemma WithKeyCons(x: Entry, s: seq<Entry>, k: (bool, string))
    ensures WithKey([x] + s, k) == (if SortKey(x) == k then [x] else []) + WithKey(s, k)
  {
    assert ([x] + s)[1..] == s;
  }

  lemma {:induction false} InsertWithKey(e: Entry, s: seq<Entry>, k: (bool, string))
    requires Sorted(s)
    ensures WithKey(Insert(e, s), k) == (if SortKey(e) == k then [e] else []) + WithKey(s, k)
    decreases |s|
  {
    if s == [] || KeyLe(SortKey(e), SortKey(s[0])) {
      InsertInFront(e, s, k);
    } else {
      InsertWithKey(e, s[1..], k);
      InsertBehind(e, s, k);
    }
  }

  lemma InsertInFront(e: Entry, s: seq<Entry>, k: (bool, string))
    requires Sorted(s) && (s == [] || KeyLe(SortKey(e), SortKey(s[0])))
    ensures WithKey(Insert(e, s), k) == (if SortKey(e) == k then [e] else []) + WithKey(s, k)
  {
    WithKeyCons(e, s, k);
    assert Insert(e, s) == [e] + s;
  }

  lemma InsertBehind(e: Entry, s: seq<Entry>, k: (bool, string))
    requires Sorted(s) && s != [] && !KeyLe(SortKey(e), SortKey(s[0]))
    requires WithKey(Insert(e, s[1..]), k) == (if SortKey(e) == k then [e] else []) + WithKey(s[1..], k)
    ensures WithKey(Insert(e, s), k) == (if SortKey(e) == k then [e] else []) + WithKey(s, k)
  {
    KeyLeReflexive(SortKey(e));
    var t := Insert(e, s[1..]);
    assert Insert(e, s) == [s[0]] + t;
    WithKeyCons(s[0], s[1..], k);
    assert s == [s[0]] + s[1..];
    PassWithKey(e, s[0], t, WithKey(s[1..], k), k);
  }

  /** Passing an element of another key does not change the order `e` has among the entries of key `k`. */
  lemma PassWithKey(e: Entry, x: Entry, t: seq<Entry>, rest: seq<Entry>, k: (bool, string))
    requires SortKey(e) != SortKey(x)
    requires WithKey(t, k) == (if SortKey(e) == k then [e] else []) + rest
    ensures WithKey([x] + t, k) ==
      (if SortKey(e) == k then [e] else []) + ((if SortKey(x) == k then [x] else []) + rest)
  {
    WithKeyCons(x, t, k);
    if SortKey(e) == k {
      assert [e] + ([] + rest) == [] + ([e] + rest);
    } else {
      assert [] + ((if SortKey(x) == k then [x] else []) + rest) == (if SortKey(x) == k then [x] else []) + ([] + rest);
    }
  }

  /** The sort is stable: entries with equal keys keep the order in which they were listed. */
  lemma {:induction false} SortStable(s: seq<Entry>, k: (bool, string))
    ensures WithKey(SortEntries(s), k) == WithKey(s, k)
    decreases |s|
  {
    if s != [] {
      SortStable(s[1..], k);
      InsertWithKey(s[0], SortEntries(s[1..]), k);
    }
  }

  /** In a sorted list every directory precedes every file, and each group is in case-folded name order. */
  lemma SortedMeansDirectoriesFirst(s: seq<Entry>)
    requires Sorted(s)
    ensures forall i, j :: 0 <= i < j < |s| ==> !(s[i].isDir == false && s[j].isDir == true)
    ensures forall i, j :: 0 <= i < j < |s| && s[i].isDir == s[j].isDir ==> LexLe(Lower(s[i].name), Lower(s[j].name))
  {
    forall i, j | 0 <= i < j < |s| ensures !(s[i].isDir == false && s[j].isDir == true) {
      assert KeyLe(SortKey(s[i]), SortKey(s[j]));
    }
    forall i, j | 0 <= i < j < |s| && s[i].isDir == s[j].isDir ensures LexLe(Lower(s[i].name), Lower(s[j].name)) {
      assert KeyLe(SortKey(s[i]), SortKey(s[j]));
    }
  }

  function Names(s: seq<Entry>): seq<string>
    decreases |s|
  {
    if s == [] then [] else [s[0].name] + Names(s[1..])
  }

  /** A small directory: "b.txt" (100 bytes), directory "A", ".hidden" (10 bytes). */
  function ScenarioChildren(): seq<RawEntry> {
    [RawEntry("b.txt", false, false, Some(100), Some(7)),
     RawEntry("A", true, false, None, Some(8)),
     RawEntry(".hidden", false, false, Some(10), Some(9))]
  }

  lemma ScenarioCollected()
    ensures var c := ScenarioChildren();
      Collected(c, ".", false, true) == [MakeEntry(c[0], ".", true), MakeEntry(c[1], ".", true)] &&
      Collected(c, ".", true, true) == [MakeEntry(c[0], ".", true), MakeEntry(c[1], ".", true), MakeEntry(c[2], ".", true)]
  {
    var c := ScenarioChildren();
    assert c[..2] == [c[0], c[1]];
    assert c[..2][..1] == [c[0]];
    assert c[..1][..0] == [];
  }

  predicate ScenarioNames(b: Entry, a: Entry, h: Entry) {
    b.name == "b.txt" && !b.isDir && a.name == "A" && a.isDir && h.name == ".hidden" && !h.isDir
  }

  lemma ScenarioFileOrder(b: Entry, h: Entry)
    requires b.name == "b.txt" && !b.isDir && h.name == ".hidden" && !h.isDir
    ensures Insert(b, [h]) == [h, b]
  {
    assert Lower(".hidden") == ".hidden";
    assert Lower("b.txt") == "b.txt";
    assert !LexLe("b.txt", ".hidden");
  }

  lemma ScenarioSortedPair(b: Entry, a: Entry, h: Entry)
    requires ScenarioNames(b, a, h)
    ensures SortEntries([b, a]) == [a, b]
  {
    assert [b, a][1..] == [a];
    assert SortEntries([a]) == [a];
  }

  lemma ScenarioSortedTriple(b: Entry, a: Entry, h: Entry)
    requires ScenarioNames(b, a, h)
    ensures SortEntries([b, a, h]) == [a, h, b]
  {
    assert [b, a, h][1..] == [a, h];
    ScenarioDirFirst(a, h);
    ScenarioFileOrder(b, h);
    assert Insert(b, [a, h]) == [a] + Insert(b, [h]) by {
      assert [a, h][1..] == [h];
    }
  }

  lemma ScenarioDirFirst(a: Entry, h: Entry)
    requires a.isDir && !h.isDir
    ensures SortEntries([a, h]) == [a, h]
  {
    assert [a, h][1..] == [h];
    assert SortEntries([h]) == [h];
  }

  lemma NamesPair(x: Entry, y: Entry)
    ensures Names([x, y]) == [x.name, y.name]
  {
    assert [x, y][1..] == [y] && [y][1..] == [];
    assert Names([y]) == [y.name];
  }

  lemma NamesTriple(x: Entry, y: Entry, z: Entry)
    ensures Names([x, y, z]) == [x.name, y.name, z.name]
  {
    assert [x, y, z][1..] == [y, z];
    NamesPair(y, z);
  }

  /** Listing that directory: hidden off gives "A", "b.txt"; hidden on puts ".hidden" between them. */
  lemma HiddenNamesScenario(c: seq<RawEntry>)
    requires c == ScenarioChildren()
    ensures Names(SortEntries(Collected(c, ".", false, true))) == ["A", "b.txt"]
    ensures Names(SortEntries(Collected(c, ".", true, true))) == ["A", ".hidden", "b.txt"]
  {
    ScenarioCollected();
    var b, a, h := MakeEntry(c[0], ".", true), MakeEntry(c[1], ".", true), MakeEntry(c[2], ".", true);
    assert ScenarioNames(b, a, h);
    ScenarioSortedPair(b, a, h);
    ScenarioSortedTriple(b, a, h);
    NamesPair(a, b);
    NamesTriple(a, h, b);
  }

  /** The complaint for a missing directory, quoting its path. */
  function CannotAccessMessage(path: string): (m: string)
    ensures |m| == |path| + 47 && HasPrefix(m, "ls: cannot access '")
    ensures m[19..|m| - 28] == path && m[|m| - 28..] == "': No such file or directory"
  {
    "ls: cannot access '" + path + "': No such file or directory"
  }

  /** The complaint for an unreadable directory, quoting its path. */
  function CannotOpenMessage(path: string): (m: string)
    ensures |m| == |path| + 47 && HasPrefix(m, "ls: cannot open directory '")
    ensures m[27..|m| - 20] == path && m[|m| - 20..] == "': Permission denied"
  {
    "ls: cannot open directory '" + path + "': Permission denied"
  }

  /** The body of the loop at ls.py:46-70 for one shown child: the record it appends. */
  method FetchEntry(c: RawEntry, path: string, longFormat: bool) returns (e: Entry)
    ensures e == MakeEntry(c, path, longFormat)
  {
    var size := 0;
    var modTime := 0;
    if longFormat {
      if !c.isDir {
        match c.size
        case Some(s) =>
          size := s;
          modTime := c.modTime.GetOr(0);
        case None =>
      } else {
        modTime := c.modTime.GetOr(0);
      }
    }
    var isExecutable := c.accessible && !c.isDir;
    e := Entry(c.name, c.isDir, size, modTime, isExecutable, PosixPath.Join(path, c.name));
  }

  /** One more child: its record is appended exactly when it is shown. */
  lemma CollectedStep(children: seq<RawEntry>, n: nat, path: string, showHidden: bool, longFormat: bool)
    requires n < |children|
    ensures Collected(children[..n + 1], path, showHidden, longFormat) ==
      Collected(children[..n], path, showHidden, longFormat) +
      (if Shown(children[n], showHidden) then [MakeEntry(children[n], path, longFormat)] else [])
  {
    assert children[..n + 1][..n] == children[..n];
  }

  /** The facts every collected record satisfies survive the sort, which only permutes. */
  lemma SortedRecords(s: seq<Entry>, showHidden: bool, longFormat: bool)
    requires forall i :: 0 <= i < |s| ==> showHidden || !IsHidden(s[i].name)
    requires forall i :: 0 <= i < |s| ==> s[i].isDir ==> !s[i].isExecutable
    requires forall i :: 0 <= i < |s| ==> (s[i].isDir || !longFormat) ==> s[i].size == 0
    ensures var r := SortEntries(s);
      (forall i :: 0 <= i < |r| ==> showHidden || !IsHidden(r[i].name)) &&
      (forall i :: 0 <= i < |r| ==> r[i].isDir ==> !r[i].isExecutable) &&
      (forall i :: 0 <= i < |r| ==> (r[i].isDir || !longFormat) ==> r[i].size == 0)
  {
    var r := SortEntries(s);
    forall i | 0 <= i < |r|
      ensures showHidden || !IsHidden(r[i].name)
      ensures r[i].isDir ==> !r[i].isExecutable
      ensures (r[i].isDir || !longFormat) ==> r[i].size == 0
    {
      assert r[i] in multiset(s);
      var k :| 0 <= k < |s| && s[k] == r[i];
    }
  }

  /**
   * `list_directory(path, show_hidden, long_format)`: the records and, when
   * `listdir` failed, the message printed instead (the list is then empty).
   */
  method ListDirectory(dir: DirListing, path: string, showHidden: bool, longFormat: bool)
    returns (items: seq<Entry>, message: Option<string>)
    ensures dir.NotFound? ==> items == [] && message == Some(CannotAccessMessage(path))
    ensures dir.PermissionDenied? ==> items == [] && message == Some(CannotOpenMessage(path))
    ensures dir.Listed? ==>
      message == None && items == SortEntries(Collected(dir.children, path, showHidden, longFormat))
    ensures dir.Listed? ==>
      multiset(items) == multiset(Collected(dir.children, path, showHidden, longFormat))
    ensures Sorted(items)
    ensures forall i :: 0 <= i < |items| ==> showHidden || !IsHidden(items[i].name)
    ensures forall i :: 0 <= i < |items| ==> items[i].isDir ==> !items[i].isExecutable
    ensures forall i :: 0 <= i < |items| ==> (items[i].isDir || !longFormat) ==> items[i].size == 0
  {
    match dir
    case NotFound =>
      return [], Some(CannotAccessMessage(path));
    case PermissionDenied =>
      return [], Some(CannotOpenMessage(path));
    case Listed(children) =>
      items := CollectEntries(children, path, showHidden, longFormat);
      SortedRecords(items, showHidden, longFormat);
      items := SortEntries(items);
      message := None;
  }

  /** The loop of ls.py:41-70: skip hidden names unless asked, append a record for every other child. */
  method CollectEntries(children: seq<RawEntry>, path: string, showHidden: bool, longFormat: bool)
    returns (items: seq<Entry>)
    ensures items == Collected(children, path, showHidden, longFormat)
  {
    items := [];
    for n := 0 to |children|
      invariant items == Collected(children[..n], path, showHidden, longFormat)
    {
      CollectedStep(children, n, path, showHidden, longFormat);
      var c := children[n];
      if !showHidden && IsHidden(c.name) {
        continue;
      }
      var e := FetchEntry(c, path, longFormat);
      items := items + [e];
    }
    assert children[..|children|] == children;
  }
}
