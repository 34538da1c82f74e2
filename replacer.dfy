/**
 * The string replacer: below a root path, every occurrence of a search
 * string is replaced in the contents of the text files, in the file names
 * and in the directory names. The paths are collected bottom-up first
 * (`os.walk(topdown=False)`), then processed in that order, and the root
 * itself is considered last.
 */
module StringReplacer {
  import opened Wrappers
  import opened Text
  import opened Naming

  // ---------------------------------------------------------------- names and contents

  /** `get_new_name`: no new name when the search string does not occur, otherwise the name with every occurrence replaced. */
  function GetNewName(oldName: string, search: string, replace: string): (r: Option<string>)
    ensures r.None? <==> !Contains(oldName, search)
  {
    if Contains(oldName, search) then Some(ReplaceAll(oldName, search, replace)) else None
  }

  /** The guard `if new_name and new_name != path.name`: an empty or unchanged name is never applied. */
  predicate ShouldRename(oldName: string, newName: Option<string>) {
    newName.Some? && newName.value != [] && newName.value != oldName
  }

  /** Replacing a string by itself never renames anything. */
  lemma SameStringNeverRenames(name: string, search: string)
    ensures !ShouldRename(name, GetNewName(name, search, search))
  {
    ReplaceWithItself(name, search);
  }

  /** A longer replacement renames every entry whose name holds the search string. */
  lemma LongerReplacementRenames(name: string, search: string, replace: string)
    requires search != [] && |replace| > |search| && Contains(name, search)
    ensures ShouldRename(name, GetNewName(name, search, replace))
  {
    ReplaceGrows(name, search, replace);
  }

  /**
   * The write decision of `replace_in_file_content`. `text` is the file's
   * contents when it is a text file that decodes, `None` otherwise. The
   * result is the contents afterwards and whether the file was rewritten:
   * exactly when it is text holding `search`, and then with every
   * occurrence replaced.
   */
  function RewriteContent(text: Option<string>, search: string, replace: string): (r: (Option<string>, bool))
    ensures r.1 <==> text.Some? && Contains(text.value, search)
    ensures !r.1 ==> r.0 == text
    ensures r.1 ==> r.0.Some?
  {
    if text.Some? && Contains(text.value, search) then (Some(ReplaceAll(text.value, search, replace)), true)
    else (text, false)
  }

  /** Rewriting with the search string itself writes back what was there. */
  lemma RewriteWithItself(text: Option<string>, search: string)
    ensures RewriteContent(text, search, search).0 == text
  {
    if text.Some? {
      ReplaceWithItself(text.value, search);
    }
  }

  // ---------------------------------------------------------------- the directory tree

  /**
   * An entry of the filesystem: a file with its contents (`None` when it is
   * not a text file), or a directory with its entries in listing order.
   */
  datatype Node = File(name: string, text: Option<string>) | Dir(name: string, children: seq<Node>)

  ghost predicate DistinctNames(cs: seq<Node>) {
    forall a, b :: 0 <= a < b < |cs| ==> cs[a].name != cs[b].name
  }

  /** A tree a filesystem can hold: the entries of a directory have distinct names. */
  ghost predicate WellFormed(n: Node) {
    n.Dir? ==> DistinctNames(n.children) && forall k :: 0 <= k < |n.children| ==> WellFormed(n.children[k])
  }

  /** The position of the entry named `x`, or -1. */
  function IndexOf(cs: seq<Node>, x: string): (i: int)
    ensures -1 <= i < |cs|
    ensures i < 0 <==> forall k :: 0 <= k < |cs| ==> cs[k].name != x
    ensures i >= 0 ==> cs[i].name == x
  {
    if cs == [] then -1
    else if cs[|cs| - 1].name == x then |cs| - 1
    else IndexOf(cs[..|cs| - 1], x)
  }

  /** The entry named `x` among `cs`. */
  function Child(cs: seq<Node>, x: string): (r: Option<Node>)
    ensures r.None? <==> forall k :: 0 <= k < |cs| ==> cs[k].name != x
    ensures r.Some? ==> r.value.name == x && r.value in cs
  {
    var i := IndexOf(cs, x);
    if i < 0 then None else Some(cs[i])
  }

  /** With distinct names, the entry at position `k` is the one its name finds. */
  lemma ChildAt(cs: seq<Node>, k: int)
    requires DistinctNames(cs) && 0 <= k < |cs|
    ensures Child(cs, cs[k].name) == Some(cs[k])
  {
  }

  /** The node a path leads to from `n`, following one name per level. */
  function Lookup(n: Node, p: Path): Option<Node>
    decreases |p|
  {
    if p == [] then Some(n)
    else match n
      case File(_, _) => None
      case Dir(_, cs) =>
        match Child(cs, p[0])
        case None => None
        case Some(c) => Lookup(c, p[1..])
  }

  /** Every entry of a well-formed tree is a well-formed tree. */
  lemma {:induction false} LookupWellFormed(n: Node, p: Path)
    requires WellFormed(n) && Lookup(n, p).Some?
    ensures WellFormed(Lookup(n, p).value)
    decreases |p|
  {
    if p != [] {
      var c := Child(n.children, p[0]).value;
      LookupWellFormed(c, p[1..]);
    }
  }

  datatype Kind = Missing | FileKind | DirKind

  /** What `is_file()` / `is_dir()` answer for `p`. */
  function KindAt(n: Node, p: Path): Kind {
    match Lookup(n, p)
    case None => Missing
    case Some(File(_, _)) => FileKind
    case Some(Dir(_, _)) => DirKind
  }

  // ---------------------------------------------------------------- collecting the paths

  /**
   * What `os.walk(top, topdown=False)` lets the script collect for an entry
   * found at `at`: a file is its own path; a directory yields its
   * subdirectories' walks first, then its files, then itself.
   */
  function Entries(n: Node, at: Path): (r: seq<Path>)
    ensures forall e :: e in r ==> at <= e
  {
    match n
    case File(_, _) => [at]
    case Dir(_, cs) => SubWalks(cs, at) + FileEntries(cs, at) + [at]
  }

  /** The walks of the subdirectories of the directory at `at`, in listing order. */
  function SubWalks(cs: seq<Node>, at: Path): (r: seq<Path>)
    ensures forall e :: e in r ==> at < e && exists k :: 0 <= k < |cs| && cs[k].Dir? && e[|at|] == cs[k].name
  {
    if cs == [] then []
    else
      var init, last := cs[..|cs| - 1], cs[|cs| - 1];
      var r := SubWalks(init, at) + (if last.Dir? then Entries(last, at + [last.name]) else []);
      assert forall e :: e in SubWalks(init, at) ==> exists k :: 0 <= k < |cs| && cs[k].Dir? && e[|at|] == cs[k].name by {
        forall e | e in SubWalks(init, at)
          ensures exists k :: 0 <= k < |cs| && cs[k].Dir? && e[|at|] == cs[k].name
        {
          var k :| 0 <= k < |init| && init[k].Dir? && e[|at|] == init[k].name;
          assert cs[k] == init[k];
        }
      }
      assert forall e :: e in r && e !in SubWalks(init, at) ==> at + [last.name] <= e;
      r
  }

  /** The files of the directory at `at`, in listing order. */
  function FileEntries(cs: seq<Node>, at: Path): (r: seq<Path>)
    ensures forall e :: e in r ==> exists k :: 0 <= k < |cs| && cs[k].File? && e == at + [cs[k].name]
  {
    if cs == [] then []
    else
      var init, last := cs[..|cs| - 1], cs[|cs| - 1];
      var r := FileEntries(init, at) + (if last.File? then [at + [last.name]] else []);
      assert forall k :: 0 <= k < |init| ==> cs[k] == init[k];
      r
  }

  /**
   * The `all_paths` list of `process_directory` for a root that exists: the
   * root alone when it is a file, otherwise everything below it, bottom-up,
   * without the root.
   */
  function Collect(top: Node, root: Path): (r: seq<Path>)
    requires Lookup(top, root).Some?
  {
    match Lookup(top, root).value
    case File(_, _) => [root]
    case Dir(_, cs) => SubWalks(cs, root) + FileEntries(cs, root)
  }

  /** No path in the list equals or lies inside a path listed before it. */
  ghost predicate PostOrdered(w: seq<Path>) {
    forall i, j :: 0 <= i < j < |w| ==> !(w[i] <= w[j])
  }

  lemma PostOrderedAppend(a: seq<Path>, b: seq<Path>)
    requires PostOrdered(a) && PostOrdered(b)
    requires forall x, y :: x in a && y in b ==> !(x <= y)
    ensures PostOrdered(a + b)
  {
    forall i, j | 0 <= i < j < |a + b|
      ensures !((a + b)[i] <= (a + b)[j])
    {
      if j < |a| {
        assert (a + b)[i] == a[i] && (a + b)[j] == a[j];
      } else if i >= |a| {
        assert (a + b)[i] == b[i - |a|] && (a + b)[j] == b[j - |a|];
      } else {
        assert (a + b)[i] in a && (a + b)[j] in b;
      }
    }
  }

  lemma {:induction false} EntriesPostOrdered(n: Node, at: Path)
    requires WellFormed(n)
    ensures PostOrdered(Entries(n, at))
    decreases n
  {
    if n.Dir? {
      var cs := n.children;
      SubWalksPostOrdered(cs, at);
      FileEntriesPostOrdered(cs, at);
      forall x, y | x in SubWalks(cs, at) && y in FileEntries(cs, at)
        ensures !(x <= y)
      {
        var k :| 0 <= k < |cs| && cs[k].Dir? && x[|at|] == cs[k].name;
        var m :| 0 <= m < |cs| && cs[m].File? && y == at + [cs[m].name];
        assert x[|at|] != y[|at|];
      }
      PostOrderedAppend(SubWalks(cs, at), FileEntries(cs, at));
      PostOrderedAppend(SubWalks(cs, at) + FileEntries(cs, at), [at]);
    }
  }

  lemma {:induction false} SubWalksPostOrdered(cs: seq<Node>, at: Path)
    requires DistinctNames(cs) && forall k :: 0 <= k < |cs| ==> WellFormed(cs[k])
    ensures PostOrdered(SubWalks(cs, at))
    decreases cs
  {
    if cs != [] {
      var init, last := cs[..|cs| - 1], cs[|cs| - 1];
      SubWalksPostOrdered(init, at);
      if last.Dir? {
        EntriesPostOrdered(last, at + [last.name]);
        forall x, y | x in SubWalks(init, at) && y in Entries(last, at + [last.name])
          ensures !(x <= y)
        {
          var k :| 0 <= k < |init| && init[k].Dir? && x[|at|] == init[k].name;
          assert cs[k] == init[k];
          assert (at + [last.name])[|at|] == y[|at|];
          assert x[|at|] != y[|at|];
        }
        PostOrderedAppend(SubWalks(init, at), Entries(last, at + [last.name]));
      } else {
        assert SubWalks(cs, at) == SubWalks(init, at) + [];
      }
    }
  }

  lemma {:induction false} FileEntriesPostOrdered(cs: seq<Node>, at: Path)
    requires DistinctNames(cs)
    ensures PostOrdered(FileEntries(cs, at))
    decreases cs
  {
    if cs != [] {
      var init, last := cs[..|cs| - 1], cs[|cs| - 1];
      FileEntriesPostOrdered(init, at);
      if last.File? {
        forall x, y | x in FileEntries(init, at) && y in [at + [last.name]]
          ensures !(x <= y)
        {
          var k :| 0 <= k < |init| && init[k].File? && x == at + [init[k].name];
          assert cs[k] == init[k];
          assert x[|at|] != y[|at|];
        }
        PostOrderedAppend(FileEntries(init, at), [at + [last.name]]);
      } else {
        assert FileEntries(cs, at) == FileEntries(init, at) + [];
      }
    }
  }

  /**
   * The collected list is bottom-up: no path equals or lies inside one
   * collected before it, so a directory's files and subdirectories precede
   * it; and every path lies strictly below the root, which is left out.
   */
  lemma CollectPostOrdered(top: Node, root: Path)
    requires WellFormed(top) && Lookup(top, root).Some?
    ensures PostOrdered(Collect(top, root))
    ensures Lookup(top, root).value.Dir? ==> forall e :: e in Collect(top, root) ==> root < e
    ensures Lookup(top, root).value.File? ==> Collect(top, root) == [root]
  {
    var n := Lookup(top, root).value;
    LookupWellFormed(top, root);
    if n.Dir? {
      EntriesPostOrdered(n, root);
      var w := Collect(top, root);
      assert Entries(n, root) == w + [root];
      forall i, j | 0 <= i < j < |w|
        ensures !(w[i] <= w[j])
      {
        assert w[i] == Entries(n, root)[i] && w[j] == Entries(n, root)[j];
      }
    }
  }

  /** Following `a + b` is following `a`, then `b` from where `a` led. */
  lemma {:induction false} LookupConcat(n: Node, a: Path, b: Path)
    ensures Lookup(n, a + b) == (if Lookup(n, a).None? then None else Lookup(Lookup(n, a).value, b))
    decreases |a|
  {
    if a == [] {
      assert a + b == b;
    } else if n.Dir? {
      assert (a + b)[0] == a[0] && (a + b)[1..] == a[1..] + b;
      var c := Child(n.children, a[0]);
      if c.Some? {
        LookupConcat(c.value, a[1..], b);
      }
    }
  }

  /** Every path an entry yields leads to an existing node, relative to that entry. */
  lemma {:induction false} EntriesExist(n: Node, at: Path)
    requires WellFormed(n)
    ensures forall e :: e in Entries(n, at) ==> Lookup(n, e[|at|..]).Some?
    decreases n
  {
    if n.Dir? {
      var cs := n.children;
      SubWalksExist(n.name, cs, at);
      FileEntriesExist(n.name, cs, at);
      assert at[|at|..] == [];
    } else {
      assert at[|at|..] == [];
    }
  }

  lemma {:induction false} SubWalksExist(nm: string, cs: seq<Node>, at: Path)
    requires DistinctNames(cs) && forall k :: 0 <= k < |cs| ==> WellFormed(cs[k])
    ensures forall e :: e in SubWalks(cs, at) ==> Lookup(Dir(nm, cs), e[|at|..]).Some?
    decreases cs
  {
    if cs != [] {
      var init, last := cs[..|cs| - 1], cs[|cs| - 1];
      SubWalksExist(nm, init, at);
      forall e | e in SubWalks(init, at)
        ensures Lookup(Dir(nm, cs), e[|at|..]).Some?
      {
        var k :| 0 <= k < |init| && init[k].Dir? && e[|at|] == init[k].name;
        ChildAt(cs, k);
        ChildAt(init, k);
        var s := e[|at|..];
        assert s[0] == init[k].name;
        assert Lookup(Dir(nm, init), s) == Lookup(init[k], s[1..]);
      }
      if last.Dir? {
        var at2 := at + [last.name];
        EntriesExist(last, at2);
        ChildAt(cs, |cs| - 1);
        forall e | e in Entries(last, at2)
          ensures Lookup(Dir(nm, cs), e[|at|..]).Some?
        {
          var s := e[|at|..];
          assert at2 <= e;
          assert s[0] == last.name && s[1..] == e[|at2|..];
        }
      } else {
        assert SubWalks(cs, at) == SubWalks(init, at) + [];
      }
    }
  }

  lemma FileEntriesExist(nm: string, cs: seq<Node>, at: Path)
    requires DistinctNames(cs)
    ensures forall e :: e in FileEntries(cs, at) ==> Lookup(Dir(nm, cs), e[|at|..]).Some?
  {
    forall e | e in FileEntries(cs, at)
      ensures Lookup(Dir(nm, cs), e[|at|..]).Some?
    {
      var k :| 0 <= k < |cs| && cs[k].File? && e == at + [cs[k].name];
      ChildAt(cs, k);
      assert e[|at|..] == [cs[k].name];
    }
  }

  /** Every collected path exists in the tree the walk was taken from. */
  lemma CollectExist(top: Node, root: Path)
    requires WellFormed(top) && Lookup(top, root).Some?
    ensures forall e :: e in Collect(top, root) ==> KindAt(top, e) != Missing
  {
    var n := Lookup(top, root).value;
    LookupWellFormed(top, root);
    if n.Dir? {
      EntriesExist(n, root);
      assert Entries(n, root) == Collect(top, root) + [root];
      forall e | e in Collect(top, root)
        ensures KindAt(top, e) != Missing
      {
        assert e in Entries(n, root);
        LookupConcat(top, root, e[|root|..]);
        assert root + e[|root|..] == e;
      }
    }
  }

  // ---------------------------------------------------------------- renaming and rewriting in the tree

  /** The names `os.rename` accepts for an entry of the same directory. */
  predicate ValidName(y: string) {
    y != [] && y != "." && y != ".." && '/' !in y && '\0' !in y
  }

  /** Whether `os.rename` may put `a` in the place of the existing `b`: a file over a file, a directory over an empty directory. */
  predicate Replaces(a: Node, b: Node) {
    (a.File? && b.File?) || (a.Dir? && b.Dir? && b.children == [])
  }

  /** `os.rename` of the entry `x` of a directory, given by its entries `cs`, to the name `y` in the same directory. */
  function RenameChild(cs: seq<Node>, x: string, y: string): Option<seq<Node>> {
    var i := IndexOf(cs, x);
    if i < 0 || !ValidName(y) then None
    else if x == y then Some(cs)
    else
      var j := IndexOf(cs, y);
      var moved := cs[i := cs[i].(name := y)];
      if j < 0 then Some(moved)
      else if Replaces(cs[i], cs[j]) then Some(Without(moved, j))
      else None
  }

  /** Renaming the entry at `i` to a free name `y`. */
  lemma RenameToFree(cs: seq<Node>, i: int, y: string)
    requires DistinctNames(cs) && 0 <= i < |cs|
    requires forall k :: 0 <= k < |cs| ==> cs[k].name != y
    ensures var r := cs[i := cs[i].(name := y)];
      && DistinctNames(r)
      && Child(r, y) == Some(cs[i].(name := y))
      && Child(r, cs[i].name).None?
      && (forall z :: z != cs[i].name && z != y ==> Child(r, z) == Child(cs, z))
      && (forall m :: 0 <= m < |r| ==> r[m] in cs || r[m] == cs[i].(name := y))
  {
    var r := cs[i := cs[i].(name := y)];
    ChildAt(r, i);
    forall z | z != cs[i].name && z != y
      ensures Child(r, z) == Child(cs, z)
    {
      var k := IndexOf(cs, z);
      if k >= 0 {
        ChildAt(r, k);
      }
    }
  }

  /** The entries without the one at `j`, the others in order. */
  function Without(cs: seq<Node>, j: int): (r: seq<Node>)
    requires 0 <= j < |cs|
    ensures |r| == |cs| - 1
    ensures forall m :: 0 <= m < |r| ==> r[m] == cs[if m < j then m else m + 1]
  {
    cs[..j] + cs[j + 1..]
  }

  lemma RenameOverShape(cs: seq<Node>, i: int, j: int)
    requires DistinctNames(cs) && 0 <= i < |cs| && 0 <= j < |cs| && i != j
    ensures var r := Without(cs[i := cs[i].(name := cs[j].name)], j);
      && DistinctNames(r)
      && (forall m :: 0 <= m < |r| ==> r[m].name != cs[i].name)
      && (forall m :: 0 <= m < |r| ==> r[m] in cs || r[m] == cs[i].(name := cs[j].name))
  {
  }

  /** Renaming the entry at `i` over the entry at `j`, which disappears: the new name finds the moved entry, the old finds nothing. */
  lemma RenameOver(cs: seq<Node>, i: int, j: int)
    requires DistinctNames(cs) && 0 <= i < |cs| && 0 <= j < |cs| && i != j
    ensures var r := Without(cs[i := cs[i].(name := cs[j].name)], j);
      && Child(r, cs[j].name) == Some(cs[i].(name := cs[j].name))
      && Child(r, cs[i].name).None?
  {
    var c := cs[i].(name := cs[j].name);
    var r := Without(cs[i := c], j);
    RenameOverShape(cs, i, j);
    var i' := if i < j then i else i - 1;
    assert r[i'] == c;
    ChildAt(r, i');
  }

  /** Renaming the entry at `i` over the entry at `j` leaves what every other name finds. */
  lemma RenameOverOthers(cs: seq<Node>, i: int, j: int, z: string)
    requires DistinctNames(cs) && 0 <= i < |cs| && 0 <= j < |cs| && i != j
    requires z != cs[i].name && z != cs[j].name
    ensures Child(Without(cs[i := cs[i].(name := cs[j].name)], j), z) == Child(cs, z)
  {
    var r := Without(cs[i := cs[i].(name := cs[j].name)], j);
    RenameOverShape(cs, i, j);
    var k := IndexOf(cs, z);
    if k >= 0 {
      var k' := if k < j then k else k - 1;
      assert r[k'] == cs[k];
      ChildAt(r, k');
    }
  }

  /**
   * The rename succeeds exactly when `x` exists, `y` is a valid name and is
   * free or may be replaced; afterwards `y` holds what `x` held, `x` is gone,
   * every other name finds what it found before, and names stay distinct.
   */
  lemma RenameChildEffect(cs: seq<Node>, x: string, y: string)
    requires DistinctNames(cs)
    ensures var r := RenameChild(cs, x, y);
      && (r.Some? <==> Child(cs, x).Some? && ValidName(y)
                       && (x == y || Child(cs, y).None? || Replaces(Child(cs, x).value, Child(cs, y).value)))
      && (r.Some? ==> DistinctNames(r.value))
      && (r.Some? ==> Child(r.value, y) == Some(Child(cs, x).value.(name := y)))
      && (r.Some? && x != y ==> Child(r.value, x).None?)
      && (r.Some? ==> forall z :: z != x && z != y ==> Child(r.value, z) == Child(cs, z))
      && (r.Some? ==> forall m :: 0 <= m < |r.value| ==> r.value[m] in cs || r.value[m] == Child(cs, x).value.(name := y))
  {
    var i := IndexOf(cs, x);
    if i >= 0 && ValidName(y) {
      ChildAt(cs, i);
      if x != y {
        var j := IndexOf(cs, y);
        if j < 0 {
          RenameToFree(cs, i, y);
        } else {
          ChildAt(cs, j);
          RenameOverShape(cs, i, j);
          RenameOver(cs, i, j);
          forall z | z != x && z != y
            ensures Child(Without(cs[i := cs[i].(name := y)], j), z) == Child(cs, z)
          {
            RenameOverOthers(cs, i, j, z);
          }
        }
      }
    }
  }

  /** Replacing an entry by a node of the same name keeps the names distinct and changes what only that name finds. */
  lemma UpdateChild(cs: seq<Node>, k: int, c: Node)
    requires DistinctNames(cs) && 0 <= k < |cs| && c.name == cs[k].name
    ensures DistinctNames(cs[k := c])
    ensures Child(cs[k := c], c.name) == Some(c)
    ensures forall z :: z != c.name ==> Child(cs[k := c], z) == Child(cs, z)
  {
    var cs2 := cs[k := c];
    ChildAt(cs2, k);
    forall z | z != c.name
      ensures Child(cs2, z) == Child(cs, z)
    {
      var m := IndexOf(cs, z);
      if m >= 0 {
        ChildAt(cs2, m);
      }
    }
  }

  /** `os.rename` of `dir/x` to `dir/y`, with `dir` followed from `n`. */
  function RenameAt(n: Node, dir: Path, x: string, y: string): (r: Option<Node>)
    ensures r.Some? ==> r.value.Dir? && r.value.name == n.name
    decreases |dir|
  {
    match n
    case File(_, _) => None
    case Dir(name, cs) =>
      if dir == [] then
        match RenameChild(cs, x, y)
        case None => None
        case Some(cs2) => Some(Dir(name, cs2))
      else
        var k := IndexOf(cs, dir[0]);
        if k < 0 then None
        else
          match RenameAt(cs[k], dir[1..], x, y)
          case None => None
          case Some(c) => Some(Dir(name, cs[k := c]))
  }

  /** `path.rename(path.parent / y)`; the filesystem root cannot be renamed. */
  function Rename(top: Node, p: Path, y: string): Option<Node> {
    if p == [] then None else RenameAt(top, Parent(p), Name(p), y)
  }

  /** Renaming a child of the top itself. */
  lemma RenameHereEffect(n: Node, x: string, y: string)
    requires WellFormed(n) && n.Dir?
    ensures var r := RenameAt(n, [], x, y);
      && (r.Some? <==> RenameChild(n.children, x, y).Some?)
      && (r.Some? ==> WellFormed(r.value))
      && (r.Some? ==> Lookup(n, [x]).Some? && Lookup(r.value, [y]) == Some(Lookup(n, [x]).value.(name := y)))
      && (r.Some? && x != y ==> Lookup(r.value, [x]).None?)
  {
    var cs := n.children;
    RenameChildEffect(cs, x, y);
    var r := RenameChild(cs, x, y);
    if r.Some? {
      var c := Child(cs, x).value;
      assert WellFormed(c.(name := y)) == WellFormed(c);
    }
  }

  lemma {:induction false} RenameAtEffect(n: Node, dir: Path, x: string, y: string)
    requires WellFormed(n)
    ensures var r := RenameAt(n, dir, x, y);
      && (r.Some? <==> Lookup(n, dir).Some? && Lookup(n, dir).value.Dir?
                       && RenameChild(Lookup(n, dir).value.children, x, y).Some?)
      && (r.Some? ==> WellFormed(r.value))
      && (r.Some? ==> Lookup(n, dir + [x]).Some?
                      && Lookup(r.value, dir + [y]) == Some(Lookup(n, dir + [x]).value.(name := y)))
      && (r.Some? && x != y ==> Lookup(r.value, dir + [x]).None?)
    decreases |dir|
  {
    if n.Dir? {
      var cs := n.children;
      if dir == [] {
        RenameHereEffect(n, x, y);
        assert dir + [x] == [x] && dir + [y] == [y];
      } else {
        var k := IndexOf(cs, dir[0]);
        if k >= 0 {
          ChildAt(cs, k);
          RenameAtEffect(cs[k], dir[1..], x, y);
          assert (dir + [x])[1..] == dir[1..] + [x] && (dir + [y])[1..] == dir[1..] + [y];
          var r := RenameAt(cs[k], dir[1..], x, y);
          if r.Some? {
            UpdateChild(cs, k, r.value);
          }
        }
      }
    }
  }

  /** A path whose first name is neither the old nor the new one keeps its kind when a child of the top is renamed. */
  lemma RenameHereKeeps(n: Node, x: string, y: string, q: Path)
    requires WellFormed(n) && RenameAt(n, [], x, y).Some?
    requires q != [] && q[0] != x && q[0] != y
    ensures KindAt(RenameAt(n, [], x, y).value, q) == KindAt(n, q)
  {
    RenameChildEffect(n.children, x, y);
  }

  /** Prefixes of a path one level down. */
  lemma PrefixBelow(dir: Path, z: string, q: Path)
    requires dir != [] && q != [] && q[0] == dir[0]
    ensures (dir + [z] <= q) <==> (dir[1..] + [z] <= q[1..])
  {
    assert dir + [z] == [dir[0]] + (dir[1..] + [z]);
    assert q == [q[0]] + q[1..];
  }

  /** A path that neither starts with the renamed entry nor with its new name keeps its kind. */
  lemma {:induction false} RenameAtKeeps(n: Node, dir: Path, x: string, y: string, q: Path)
    requires WellFormed(n) && RenameAt(n, dir, x, y).Some?
    requires !(dir + [x] <= q) && !(dir + [y] <= q)
    ensures KindAt(RenameAt(n, dir, x, y).value, q) == KindAt(n, q)
    decreases |dir|
  {
    if q != [] {
      if dir == [] {
        RenameHereKeeps(n, x, y, q);
      } else {
        var cs := n.children;
        var k := IndexOf(cs, dir[0]);
        UpdateChild(cs, k, RenameAt(cs[k], dir[1..], x, y).value);
        if q[0] == dir[0] {
          ChildAt(cs, k);
          PrefixBelow(dir, x, q);
          PrefixBelow(dir, y, q);
          RenameAtKeeps(cs[k], dir[1..], x, y, q[1..]);
        }
      }
    }
  }

  /**
   * A rename changes only the last component of the path: the entry now sits
   * at `parent / y`, the old path is gone, every path that does not start
   * with the old or the new path keeps its kind, and the tree stays well formed.
   */
  lemma RenameEffect(top: Node, p: Path, y: string)
    requires WellFormed(top) && Rename(top, p, y).Some?
    ensures var t := Rename(top, p, y).value;
      && |p| > 0 && Lookup(top, p).Some? && WellFormed(t)
      && Lookup(t, Parent(p) + [y]) == Some(Lookup(top, p).value.(name := y))
      && (y != Name(p) ==> KindAt(t, p) == Missing)
      && forall q :: !(p <= q) && !(Parent(p) + [y] <= q) ==> KindAt(t, q) == KindAt(top, q)
  {
    assert Parent(p) + [Name(p)] == p;
    RenameAtEffect(top, Parent(p), Name(p), y);
    forall q | !(p <= q) && !(Parent(p) + [y] <= q)
      ensures KindAt(Rename(top, p, y).value, q) == KindAt(top, q)
    {
      RenameAtKeeps(top, Parent(p), Name(p), y, q);
    }
  }

  /** Writing `text` into the file at `p`; any other node is left as it is. */
  function SetText(n: Node, p: Path, text: string): (r: Node)
    ensures r.name == n.name && r.Dir? == n.Dir?
    decreases |p|
  {
    if p == [] then (if n.File? then File(n.name, Some(text)) else n)
    else match n
      case File(_, _) => n
      case Dir(name, cs) =>
        var k := IndexOf(cs, p[0]);
        if k < 0 then n else Dir(name, cs[k := SetText(cs[k], p[1..], text)])
  }

  lemma {:induction false} SetTextWellFormed(n: Node, p: Path, text: string)
    requires WellFormed(n)
    ensures WellFormed(SetText(n, p, text))
    decreases |p|
  {
    if n.Dir? && p != [] {
      var cs := n.children;
      var k := IndexOf(cs, p[0]);
      if k >= 0 {
        SetTextWellFormed(cs[k], p[1..], text);
        UpdateChild(cs, k, SetText(cs[k], p[1..], text));
      }
    }
  }

  /** Writing a file leaves every path with the kind it had. */
  lemma {:induction false} SetTextKind(n: Node, p: Path, text: string, q: Path)
    requires WellFormed(n)
    ensures KindAt(SetText(n, p, text), q) == KindAt(n, q)
    decreases |q|
  {
    if n.Dir? && p != [] && q != [] {
      var cs := n.children;
      var k := IndexOf(cs, p[0]);
      if k >= 0 {
        UpdateChild(cs, k, SetText(cs[k], p[1..], text));
        if q[0] == p[0] {
          ChildAt(cs, k);
          SetTextKind(cs[k], p[1..], text, q[1..]);
        }
      }
    }
  }

  /** Every path off the way to the written file finds what it found before. */
  lemma {:induction false} SetTextElsewhere(n: Node, p: Path, text: string, q: Path)
    requires WellFormed(n) && !(q <= p)
    ensures Lookup(SetText(n, p, text), q) == Lookup(n, q)
    decreases |q|
  {
    if n.Dir? && p != [] {
      var cs := n.children;
      var k := IndexOf(cs, p[0]);
      if k >= 0 {
        UpdateChild(cs, k, SetText(cs[k], p[1..], text));
        if q[0] == p[0] {
          ChildAt(cs, k);
          assert !(q[1..] <= p[1..]) by {
            assert q == [q[0]] + q[1..] && p == [p[0]] + p[1..];
          }
          SetTextElsewhere(cs[k], p[1..], text, q[1..]);
        }
      }
    }
  }

  /** The file written now holds `text` and keeps its name. */
  lemma {:induction false} SetTextHere(n: Node, p: Path, text: string)
    requires WellFormed(n) && KindAt(n, p) == FileKind
    ensures Lookup(SetText(n, p, text), p) == Some(File(Lookup(n, p).value.name, Some(text)))
    decreases |p|
  {
    if p != [] {
      var cs := n.children;
      var k := IndexOf(cs, p[0]);
      UpdateChild(cs, k, SetText(cs[k], p[1..], text));
      ChildAt(cs, k);
      SetTextHere(cs[k], p[1..], text);
    }
  }

  /** Writing back the text a file already holds leaves the tree as it is. */
  lemma {:induction false} SetTextSame(n: Node, p: Path, text: string)
    requires Lookup(n, p).Some? && Lookup(n, p).value.File? && Lookup(n, p).value.text == Some(text)
    ensures SetText(n, p, text) == n
    decreases |p|
  {
    if p != [] {
      var k := IndexOf(n.children, p[0]);
      SetTextSame(n.children[k], p[1..], text);
      assert n.children[k := n.children[k]] == n.children;
    }
  }

  // ---------------------------------------------------------------- processing the collected paths

  datatype Counts = Counts(contentModified: nat, filesRenamed: nat, dirsRenamed: nat)

  datatype State = State(top: Node, counts: Counts)

  /** `path.name`: the last component, empty for the filesystem root. */
  function NameOf(p: Path): string {
    if p == [] then [] else Name(p)
  }

  /**
   * The rename step for `p`: `Some` with the new tree exactly when the name
   * holds `search`, the new name passes the guard and the rename succeeds;
   * a failed rename is reported and changes nothing.
   */
  function TryRename(top: Node, p: Path, search: string, replace: string): (r: Option<Node>)
    ensures r.Some? ==> p != [] && ShouldRename(Name(p), GetNewName(Name(p), search, replace))
                        && r == Rename(top, p, GetNewName(Name(p), search, replace).value)
  {
    var newName := GetNewName(NameOf(p), search, replace);
    if ShouldRename(NameOf(p), newName) then Rename(top, p, newName.value) else None
  }

  /**
   * One turn of the loop over `all_paths`: a path that is a file has its
   * contents rewritten when they hold `search`, then is renamed; a path that
   * is a directory is renamed; a path that no longer exists is passed over.
   */
  function Step(st: State, p: Path, search: string, replace: string): (r: State)
    ensures r.counts.contentModified <= st.counts.contentModified + 1
    ensures r.counts.filesRenamed + r.counts.dirsRenamed <= st.counts.filesRenamed + st.counts.dirsRenamed + 1
    ensures KindAt(st.top, p) != FileKind ==>
      r.counts.contentModified == st.counts.contentModified && r.counts.filesRenamed == st.counts.filesRenamed
    ensures KindAt(st.top, p) != DirKind ==> r.counts.dirsRenamed == st.counts.dirsRenamed
    ensures r.counts.contentModified >= st.counts.contentModified && r.counts.filesRenamed >= st.counts.filesRenamed
            && r.counts.dirsRenamed >= st.counts.dirsRenamed
  {
    match Lookup(st.top, p)
    case None => st
    case Some(File(_, text)) =>
      var rewrite := RewriteContent(text, search, replace);
      var top1 := if rewrite.1 then SetText(st.top, p, rewrite.0.value) else st.top;
      var c1 := if rewrite.1 then st.counts.(contentModified := st.counts.contentModified + 1) else st.counts;
      (match TryRename(top1, p, search, replace)
       case None => State(top1, c1)
       case Some(t) => State(t, c1.(filesRenamed := c1.filesRenamed + 1)))
    case Some(Dir(_, _)) =>
      match TryRename(st.top, p, search, replace)
      case None => st
      case Some(t) => State(t, st.counts.(dirsRenamed := st.counts.dirsRenamed + 1))
  }

  /** The loop over `paths`, in order. */
  function ProcessPaths(st: State, paths: seq<Path>, search: string, replace: string): State {
    if paths == [] then st
    else Step(ProcessPaths(st, paths[..|paths| - 1], search, replace), paths[|paths| - 1], search, replace)
  }

  /**
   * `process_directory`: `None` when the root does not exist; otherwise the
   * tree and the counters after the loop over the collected paths and, when
   * the root is then a directory, the root's own rename.
   */
  function ReplaceTree(top: Node, root: Path, search: string, replace: string): (r: Option<State>)
    ensures r.None? <==> KindAt(top, root) == Missing
  {
    if Lookup(top, root).None? then None
    else Some(RootStep(ProcessPaths(State(top, Counts(0, 0, 0)), Collect(top, root), search, replace), root, search, replace))
  }

  /** After the loop: the root's own rename, when the root is then a directory. */
  function RootStep(st: State, root: Path, search: string, replace: string): State {
    if KindAt(st.top, root) != DirKind then st
    else
      match TryRename(st.top, root, search, replace)
      case None => st
      case Some(t) => State(t, st.counts.(dirsRenamed := st.counts.dirsRenamed + 1))
  }

  /** Each counter grows by at most one per processed path, and the renames together by at most one per path. */
  lemma {:induction false} ProcessPathsCounts(st: State, paths: seq<Path>, search: string, replace: string)
    ensures var r := ProcessPaths(st, paths, search, replace).counts;
      && st.counts.contentModified <= r.contentModified <= st.counts.contentModified + |paths|
      && r.filesRenamed + r.dirsRenamed <= st.counts.filesRenamed + st.counts.dirsRenamed + |paths|
      && r.filesRenamed >= st.counts.filesRenamed && r.dirsRenamed >= st.counts.dirsRenamed
  {
    if paths != [] {
      ProcessPathsCounts(st, paths[..|paths| - 1], search, replace);
    }
  }

  /**
   * The summary's counters: at most one rewritten file per collected path,
   * and at most one rename per collected path plus the root's.
   */
  lemma ReplaceTreeCounts(top: Node, root: Path, search: string, replace: string)
    requires Lookup(top, root).Some?
    ensures var r := ReplaceTree(top, root, search, replace).value.counts;
      && r.contentModified <= |Collect(top, root)|
      && r.filesRenamed + r.dirsRenamed <= |Collect(top, root)| + 1
  {
    ProcessPathsCounts(State(top, Counts(0, 0, 0)), Collect(top, root), search, replace);
  }

  /** Processing a path keeps the tree well formed. */
  lemma StepWellFormed(st: State, p: Path, search: string, replace: string)
    requires WellFormed(st.top)
    ensures WellFormed(Step(st, p, search, replace).top)
  {
    var top1 := st.top;
    if KindAt(st.top, p) == FileKind {
      var rewrite := RewriteContent(Lookup(st.top, p).value.text, search, replace);
      if rewrite.1 {
        top1 := SetText(st.top, p, rewrite.0.value);
        SetTextWellFormed(st.top, p, rewrite.0.value);
      }
    }
    var renamed := TryRename(top1, p, search, replace);
    if renamed.Some? {
      RenameEffect(top1, p, GetNewName(Name(p), search, replace).value);
    }
  }

  /**
   * Processing `p` never disturbs a path still to come: every path that
   * neither starts with `p` nor with `p`'s renamed path keeps its kind. In
   * the collected order no later path starts with an earlier one, so only
   * a later path the rename lands on can change.
   */
  lemma StepKeepsOtherPaths(st: State, p: Path, search: string, replace: string, q: Path)
    requires WellFormed(st.top) && !(p <= q)
    requires p != [] && GetNewName(Name(p), search, replace).Some? ==>
      !(Parent(p) + [GetNewName(Name(p), search, replace).value] <= q)
    ensures KindAt(Step(st, p, search, replace).top, q) == KindAt(st.top, q)
  {
    var top1 := st.top;
    if KindAt(st.top, p) == FileKind {
      var rewrite := RewriteContent(Lookup(st.top, p).value.text, search, replace);
      if rewrite.1 {
        top1 := SetText(st.top, p, rewrite.0.value);
        SetTextWellFormed(st.top, p, rewrite.0.value);
        SetTextKind(st.top, p, rewrite.0.value, q);
      }
    }
    var renamed := TryRename(top1, p, search, replace);
    if renamed.Some? {
      RenameEffect(top1, p, GetNewName(Name(p), search, replace).value);
    }
  }

  /** Replacing a string by itself renames nothing and leaves the tree as it was. */
  lemma {:induction false} ProcessPathsWithItself(st: State, paths: seq<Path>, search: string)
    ensures var r := ProcessPaths(st, paths, search, search);
      r.top == st.top && r.counts.filesRenamed == st.counts.filesRenamed && r.counts.dirsRenamed == st.counts.dirsRenamed
  {
    if paths != [] {
      var mid := ProcessPaths(st, paths[..|paths| - 1], search, search);
      ProcessPathsWithItself(st, paths[..|paths| - 1], search);
      var p := paths[|paths| - 1];
      SameStringNeverRenames(NameOf(p), search);
      if KindAt(mid.top, p) == FileKind {
        var text := Lookup(mid.top, p).value.text;
        RewriteWithItself(text, search);
        if text.Some? {
          SetTextSame(mid.top, p, text.value);
        }
      }
    }
  }

  lemma ReplaceTreeWithItself(top: Node, root: Path, search: string)
    requires Lookup(top, root).Some?
    ensures var r := ReplaceTree(top, root, search, search).value;
      r.top == top && r.counts.filesRenamed == 0 && r.counts.dirsRenamed == 0
  {
    ProcessPathsWithItself(State(top, Counts(0, 0, 0)), Collect(top, root), search);
    SameStringNeverRenames(NameOf(root), search);
  }

  /** Processing a file never leaves a directory at its path. */
  lemma StepOnFile(st: State, p: Path, search: string, replace: string)
    requires WellFormed(st.top) && KindAt(st.top, p) == FileKind
    ensures KindAt(Step(st, p, search, replace).top, p) != DirKind
  {
    var top1 := st.top;
    var rewrite := RewriteContent(Lookup(st.top, p).value.text, search, replace);
    if rewrite.1 {
      top1 := SetText(st.top, p, rewrite.0.value);
      SetTextWellFormed(st.top, p, rewrite.0.value);
      SetTextKind(st.top, p, rewrite.0.value, p);
    }
    var renamed := TryRename(top1, p, search, replace);
    if renamed.Some? {
      RenameEffect(top1, p, GetNewName(Name(p), search, replace).value);
    }
  }

  /** A root that is a file is the only path processed, and no directory is renamed. */
  lemma ReplaceTreeOnFile(top: Node, root: Path, search: string, replace: string)
    requires WellFormed(top) && KindAt(top, root) == FileKind
    ensures Collect(top, root) == [root]
    ensures var r := ReplaceTree(top, root, search, replace).value.counts;
      r.dirsRenamed == 0 && r.filesRenamed <= 1 && r.contentModified <= 1
  {
    var st0 := State(top, Counts(0, 0, 0));
    assert [root][..0] == [];
    assert ProcessPaths(st0, [root], search, replace) == Step(st0, root, search, replace);
    StepOnFile(st0, root, search, replace);
  }

  /**
   * In the collected order a turn never disturbs a later path: its kind is
   * what it was before the turn, unless the turn's rename lands on it.
   */
  lemma LaterPathsSurvive(top: Node, root: Path, st: State, i: int, j: int, search: string, replace: string)
    requires WellFormed(top) && Lookup(top, root).Some? && WellFormed(st.top)
    requires 0 <= i < j < |Collect(top, root)|
    requires var p := Collect(top, root)[i];
      p != [] && GetNewName(Name(p), search, replace).Some? ==>
      !(Parent(p) + [GetNewName(Name(p), search, replace).value] <= Collect(top, root)[j])
    ensures var w := Collect(top, root);
      KindAt(Step(st, w[i], search, replace).top, w[j]) == KindAt(st.top, w[j])
  {
    CollectPostOrdered(top, root);
    var w := Collect(top, root);
    StepKeepsOtherPaths(st, w[i], search, replace, w[j]);
  }

  /**
   * A rename never changes the kind of an existing path outside the renamed
   * entry, even where it lands: over an existing entry it succeeds only when
   * a file replaces a file or a directory an empty directory, so nothing
   * existing lies below its target and what sits at the target keeps its kind.
   */
  lemma RenameLanding(top: Node, p: Path, y: string, q: Path)
    requires WellFormed(top) && Rename(top, p, y).Some?
    requires !(p <= q) && KindAt(top, q) != Missing
    ensures KindAt(Rename(top, p, y).value, q) == KindAt(top, q)
  {
    RenameEffect(top, p, y);
    var target := Parent(p) + [y];
    if target <= q {
      var rest := q[|target|..];
      assert target + rest == q;
      LookupConcat(top, target, rest);
      var pn, yn := LandingTarget(top, p, y);
      if rest != [] {
        NonEmptyBelow(yn, rest);
      }
      assert q == target;
      assert Lookup(Rename(top, p, y).value, q) == Some(pn.(name := y));
      assert pn.File? == yn.File?;
    }
  }

  /** Where a rename lands on an existing entry, that entry is one the renamed entry may replace. */
  lemma LandingTarget(top: Node, p: Path, y: string) returns (pn: Node, yn: Node)
    requires WellFormed(top) && Rename(top, p, y).Some? && Lookup(top, Parent(p) + [y]).Some?
    requires !(p <= Parent(p) + [y])
    ensures Lookup(top, p) == Some(pn) && Lookup(top, Parent(p) + [y]) == Some(yn) && Replaces(pn, yn)
  {
    var d, x := Parent(p), Name(p);
    assert d + [x] == p;
    RenameAtSucceeds(top, d, x, y);
    var cs := Lookup(top, d).value.children;
    LookupWellFormed(top, d);
    LookupConcat(top, d, [y]);
    LookupConcat(top, d, [x]);
    assert Lookup(top, d + [y]) == Child(cs, y) && Lookup(top, p) == Child(cs, x);
    ReplacedSibling(cs, x, y);
    pn, yn := Child(cs, x).value, Child(cs, y).value;
  }

  /** A rename at any depth succeeds only in an existing directory, where the rename of its entry succeeds. */
  lemma RenameAtSucceeds(n: Node, dir: Path, x: string, y: string)
    requires WellFormed(n) && RenameAt(n, dir, x, y).Some?
    ensures Lookup(n, dir).Some? && Lookup(n, dir).value.Dir?
    ensures RenameChild(Lookup(n, dir).value.children, x, y).Some?
  {
    RenameAtEffect(n, dir, x, y);
  }

  /** A rename within one directory onto an existing other entry succeeds only where it may replace that entry. */
  lemma ReplacedSibling(cs: seq<Node>, x: string, y: string)
    requires DistinctNames(cs) && RenameChild(cs, x, y).Some? && x != y && Child(cs, y).Some?
    ensures Child(cs, x).Some? && Replaces(Child(cs, x).value, Child(cs, y).value)
  {
    RenameChildEffect(cs, x, y);
  }

  /** A node with something below it is a directory with entries. */
  lemma NonEmptyBelow(n: Node, rest: Path)
    requires rest != [] && Lookup(n, rest).Some?
    ensures n.Dir? && n.children != []
  {
  }

  /** A turn never changes the kind of an existing path outside the processed one. */
  lemma StepKeepsExisting(st: State, p: Path, search: string, replace: string, q: Path)
    requires WellFormed(st.top) && !(p <= q) && KindAt(st.top, q) != Missing
    ensures KindAt(Step(st, p, search, replace).top, q) == KindAt(st.top, q)
  {
    var top1 := st.top;
    if KindAt(st.top, p) == FileKind {
      var rewrite := RewriteContent(Lookup(st.top, p).value.text, search, replace);
      if rewrite.1 {
        top1 := SetText(st.top, p, rewrite.0.value);
        SetTextWellFormed(st.top, p, rewrite.0.value);
        SetTextKind(st.top, p, rewrite.0.value, q);
      }
    }
    var renamed := TryRename(top1, p, search, replace);
    if renamed.Some? {
      RenameLanding(top1, p, GetNewName(Name(p), search, replace).value, q);
    }
  }

  /** How many of the paths `w` are of kind `k` in `top`. */
  function CountKind(top: Node, w: seq<Path>, k: Kind): (c: nat)
    ensures c <= |w|
  {
    if w == [] then 0
    else CountKind(top, w[..|w| - 1], k) + (if KindAt(top, w[|w| - 1]) == k then 1 else 0)
  }

  /**
   * Over a bottom-up list of existing paths, every path still to come keeps
   * the kind it had at the start, so the file counters grow only for paths
   * that were files and the directory counter only for paths that were
   * directories.
   */
  lemma {:induction false} ProcessPathsByKind(st: State, w: seq<Path>, n: nat, search: string, replace: string)
    requires WellFormed(st.top) && PostOrdered(w) && n <= |w|
    requires forall e :: e in w ==> KindAt(st.top, e) != Missing
    ensures var r := ProcessPaths(st, w[..n], search, replace);
      && WellFormed(r.top)
      && (forall j :: n <= j < |w| ==> KindAt(r.top, w[j]) == KindAt(st.top, w[j]))
      && r.counts.contentModified <= st.counts.contentModified + CountKind(st.top, w[..n], FileKind)
      && r.counts.filesRenamed <= st.counts.filesRenamed + CountKind(st.top, w[..n], FileKind)
      && r.counts.dirsRenamed <= st.counts.dirsRenamed + CountKind(st.top, w[..n], DirKind)
    decreases n
  {
    if n > 0 {
      var p := w[n - 1];
      assert w[..n][..n - 1] == w[..n - 1] && w[..n][n - 1] == p;
      ProcessPathsByKind(st, w, n - 1, search, replace);
      var mid := ProcessPaths(st, w[..n - 1], search, replace);
      StepWellFormed(mid, p, search, replace);
      forall j | n <= j < |w|
        ensures KindAt(Step(mid, p, search, replace).top, w[j]) == KindAt(st.top, w[j])
      {
        assert w[j] in w;
        StepKeepsExisting(mid, p, search, replace, w[j]);
      }
    }
  }

  /**
   * The summary's counters by kind: rewritten and renamed files are at most
   * the collected paths that are files, renamed directories at most the
   * collected directories plus the root.
   */
  lemma ReplaceTreeCountsByKind(top: Node, root: Path, search: string, replace: string)
    requires WellFormed(top) && Lookup(top, root).Some?
    ensures var w := Collect(top, root);
      var r := ReplaceTree(top, root, search, replace).value.counts;
      && r.contentModified <= CountKind(top, w, FileKind)
      && r.filesRenamed <= CountKind(top, w, FileKind)
      && r.dirsRenamed <= CountKind(top, w, DirKind) + 1
  {
    var w := Collect(top, root);
    CollectPostOrdered(top, root);
    CollectExist(top, root);
    ProcessPathsByKind(State(top, Counts(0, 0, 0)), w, |w|, search, replace);
    assert w[..|w|] == w;
  }

  // ---------------------------------------------------------------- the loop in place

  /** The filesystem the replacer works on; writes and renames change it in place. */
  class Volume {
    var top: Node

    constructor (t: Node)
      ensures top == t
    {
      top := t;
    }

    /** Writes `text` into the file at `p`. */
    method WriteText(p: Path, text: string)
      modifies this
      ensures top == SetText(old(top), p, text)
    {
      top := SetText(top, p, text);
    }

    /** `p.rename(p.parent / newName)`; `ok` is false when the rename raises. */
    method RenameEntry(p: Path, newName: string) returns (ok: bool)
      modifies this
      ensures ok <==> Rename(old(top), p, newName).Some?
      ensures top == if ok then Rename(old(top), p, newName).value else old(top)
    {
      var r := Rename(top, p, newName);
      ok := r.Some?;
      if ok {
        top := r.value;
      }
    }
  }

  /** `replace_in_file_content` for the file at `p`: true exactly when the file was rewritten. */
  method ReplaceInFileContent(vol: Volume, p: Path, search: string, replace: string) returns (modified: bool)
    requires KindAt(vol.top, p) == FileKind
    modifies vol
    ensures var text := Lookup(old(vol.top), p).value.text;
      modified <==> text.Some? && Contains(text.value, search)
    ensures var rewrite := RewriteContent(Lookup(old(vol.top), p).value.text, search, replace);
      vol.top == if modified then SetText(old(vol.top), p, rewrite.0.value) else old(vol.top)
  {
    var text := Lookup(vol.top, p).value.text;
    modified := false;
    if text.Some? && Contains(text.value, search) {
      var newContent := ReplaceAll(text.value, search, replace);
      vol.WriteText(p, newContent);
      modified := true;
    }
  }

  /** The rename of `p` when its name holds `search`; `renamed` when it was renamed. */
  method RenameIfNeeded(vol: Volume, p: Path, search: string, replace: string) returns (renamed: bool)
    modifies vol
    ensures renamed <==> TryRename(old(vol.top), p, search, replace).Some?
    ensures vol.top == if renamed then TryRename(old(vol.top), p, search, replace).value else old(vol.top)
  {
    var newName := GetNewName(NameOf(p), search, replace);
    renamed := false;
    if newName.Some? && newName.value != [] && newName.value != NameOf(p) {
      renamed := vol.RenameEntry(p, newName.value);
    }
  }

  /** One turn of the loop over `all_paths`, on the volume. */
  method ProcessPath(vol: Volume, path: Path, search: string, replace: string, counts0: Counts)
    returns (counts: Counts)
    modifies vol
    ensures State(vol.top, counts) == Step(State(old(vol.top), counts0), path, search, replace)
  {
    counts := counts0;
    var kind := KindAt(vol.top, path);
    if kind == FileKind {
      var modified := ReplaceInFileContent(vol, path, search, replace);
      if modified {
        counts := counts.(contentModified := counts.contentModified + 1);
      }
      var renamed := RenameIfNeeded(vol, path, search, replace);
      if renamed {
        counts := counts.(filesRenamed := counts.filesRenamed + 1);
      }
    } else if kind == DirKind {
      var renamed := RenameIfNeeded(vol, path, search, replace);
      if renamed {
        counts := counts.(dirsRenamed := counts.dirsRenamed + 1);
      }
    }
  }

  /** The loop over `all_paths`, on the volume, from zero counters. */
  method ProcessAllPaths(vol: Volume, allPaths: seq<Path>, search: string, replace: string)
    returns (counts: Counts)
    modifies vol
    ensures State(vol.top, counts) == ProcessPaths(State(old(vol.top), Counts(0, 0, 0)), allPaths, search, replace)
  {
    counts := Counts(0, 0, 0);
    ghost var start := State(vol.top, counts);
    var i := 0;
    while i < |allPaths|
      invariant 0 <= i <= |allPaths|
      invariant State(vol.top, counts) == ProcessPaths(start, allPaths[..i], search, replace)
    {
      counts := ProcessPath(vol, allPaths[i], search, replace, counts);
      assert allPaths[..i + 1][..i] == allPaths[..i];
      i := i + 1;
    }
    assert allPaths[..i] == allPaths;
  }

  /** The root's own rename after the loop, on the volume. */
  method RenameRoot(vol: Volume, root: Path, search: string, replace: string, counts0: Counts)
    returns (counts: Counts)
    modifies vol
    ensures State(vol.top, counts) == RootStep(State(old(vol.top), counts0), root, search, replace)
  {
    counts := counts0;
    if KindAt(vol.top, root) == DirKind {
      var renamed := RenameIfNeeded(vol, root, search, replace);
      if renamed {
        counts := counts.(dirsRenamed := counts.dirsRenamed + 1);
      }
    }
  }

  /**
   * `process_directory` on the volume: `found` is false when the root does
   * not exist; otherwise the volume and the three counters are those
   * `ReplaceTree` describes.
   */
  method ProcessDirectory(vol: Volume, root: Path, search: string, replace: string)
    returns (found: bool, counts: Counts)
    modifies vol
    ensures found <==> KindAt(old(vol.top), root) != Missing
    ensures !found ==> vol.top == old(vol.top) && counts == Counts(0, 0, 0)
    ensures found ==> State(vol.top, counts) == ReplaceTree(old(vol.top), root, search, replace).value
  {
    if KindAt(vol.top, root) == Missing {
      return false, Counts(0, 0, 0);
    }
    var allPaths := Collect(vol.top, root);
    counts := ProcessAllPaths(vol, allPaths, search, replace);
    counts := RenameRoot(vol, root, search, replace, counts);
    found := true;
  }
}
