/**
 * A model filesystem: a finite map from file paths to their contents and a
 * finite set of directory paths, with the three effects the scripts have on
 * it through `pathlib` and `shutil` — `mkdir(parents=True, exist_ok=True)`,
 * `shutil.move` and `shutil.copy2` — first as pure steps on a snapshot, then
 * as the methods of a `Disk` object that applies them in place.
 */
module ModelFs {
  import opened Wrappers
  import opened Naming

  /** Files with their contents, and directories; `[]` is the filesystem root. */
  datatype Snapshot = Snapshot(files: map<Path, string>, dirs: set<Path>)

  /** Everything `Path.exists()` answers true for. */
  function Existing(s: Snapshot): set<Path> {
    s.files.Keys + s.dirs
  }

  /**
   * A snapshot a real filesystem can be in: the root is a directory, no path
   * is both a file and a directory, and every other entry sits in a directory.
   */
  ghost predicate Wf(s: Snapshot) {
    && [] in s.dirs
    && (forall p :: p in s.files ==> p !in s.dirs && |p| > 0 && Parent(p) in s.dirs)
    && (forall d {:trigger Parent(d)} :: d in s.dirs && |d| > 0 ==> Parent(d) in s.dirs)
  }

  /** In a well-formed snapshot every ancestor of an entry is a directory. */
  lemma {:induction false} AncestorsAreDirs(s: Snapshot, p: Path, i: nat)
    requires Wf(s) && p in Existing(s) && i < |p|
    ensures p[..i] in s.dirs
    decreases |p| - i
  {
    if i == |p| - 1 {
      assert p[..i] == Parent(p);
    } else {
      AncestorsAreDirs(s, p, i + 1);
      assert p[..i] == Parent(p[..i + 1]);
    }
  }

  // ---------------------------------------------------------------- the three effects

  /** `p` and all its ancestors, the root included. */
  function Prefixes(p: Path): set<Path> {
    set i | 0 <= i <= |p| :: p[..i]
  }

  /**
   * `p.mkdir(parents=True, exist_ok=True)`: fails when `p` or one of its
   * ancestors is a file; otherwise `p` and every missing ancestor become
   * directories and nothing else changes.
   */
  function MakeDirsStep(s: Snapshot, p: Path): (r: Option<Snapshot>)
    ensures r.None? <==> exists i :: 0 <= i <= |p| && p[..i] in s.files
    ensures r.Some? ==> r.value.files == s.files && s.dirs <= r.value.dirs
    ensures r.Some? ==> forall i :: 0 <= i <= |p| ==> p[..i] in r.value.dirs
    ensures r.Some? && Wf(s) ==> Wf(r.value)
  {
    if exists i :: 0 <= i <= |p| && p[..i] in s.files then None
    else
      var t := Snapshot(s.files, s.dirs + Prefixes(p));
      assert forall i :: 0 <= i <= |p| ==> p[..i] in Prefixes(p);
      assert forall d :: d in Prefixes(p) && |d| > 0 ==> Parent(d) in Prefixes(p) by {
        forall d | d in Prefixes(p) && |d| > 0
          ensures Parent(d) in Prefixes(p)
        {
          var i :| 0 <= i <= |p| && d == p[..i];
          assert Parent(d) == p[..i - 1];
        }
      }
      Some(t)
  }

  /** Creating the same directories twice changes nothing the second time. */
  lemma MakeDirsIdempotent(s: Snapshot, p: Path)
    requires MakeDirsStep(s, p).Some?
    ensures MakeDirsStep(MakeDirsStep(s, p).value, p) == MakeDirsStep(s, p)
  {
    var t := MakeDirsStep(s, p).value;
    assert t.dirs + Prefixes(p) == t.dirs;
  }

  /** The directories `MakeDirsStep` adds are exactly the missing ancestors of `p`, `p` included. */
  lemma MakeDirsAddsOnlyPrefixes(s: Snapshot, p: Path, d: Path)
    requires MakeDirsStep(s, p).Some?
    ensures d in MakeDirsStep(s, p).value.dirs <==> d in s.dirs || exists i :: 0 <= i <= |p| && d == p[..i]
  {
  }

  /** `mkdir()` without parents, with `exist_ok=True`: the parent must already be a directory. */
  function MkdirStep(s: Snapshot, p: Path): (r: Option<Snapshot>)
    ensures r.None? <==> p !in s.dirs && (p in s.files || |p| == 0 || Parent(p) !in s.dirs)
    ensures r.Some? ==> r.value == Snapshot(s.files, s.dirs + {p})
    ensures r.Some? && Wf(s) ==> Wf(r.value)
  {
    if p in s.dirs then Some(s)
    else if p in s.files || |p| == 0 || Parent(p) !in s.dirs then None
    else Some(Snapshot(s.files, s.dirs + {p}))
  }

  /**
   * Why `shutil.move` / `shutil.copy2` from `src` to `dst` fails: `src` is
   * not a file, `dst` is not inside a directory, or `dst` is a directory.
   */
  predicate TransferFails(s: Snapshot, src: Path, dst: Path) {
    src !in s.files || |dst| == 0 || Parent(dst) !in s.dirs || dst in s.dirs
  }

  /** `shutil.move(src, dst)` within one filesystem: a rename that replaces a file at `dst`. */
  function MoveStep(s: Snapshot, src: Path, dst: Path): (r: Option<Snapshot>)
    ensures r.None? <==> TransferFails(s, src, dst)
    ensures r.Some? ==> dst in r.value.files && r.value.files[dst] == s.files[src]
    ensures r.Some? && src != dst ==> src !in r.value.files
    ensures r.Some? ==> r.value.dirs == s.dirs
    ensures r.Some? && Wf(s) ==> Wf(r.value)
  {
    if TransferFails(s, src, dst) then None
    else Some(Snapshot((s.files - {src})[dst := s.files[src]], s.dirs))
  }

  /** A move touches only its source and its destination: every other file stays, with its contents. */
  lemma MoveKeepsOthers(s: Snapshot, src: Path, dst: Path, p: Path)
    requires MoveStep(s, src, dst).Some? && p != src && p != dst
    ensures p in MoveStep(s, src, dst).value.files <==> p in s.files
    ensures p in s.files ==> MoveStep(s, src, dst).value.files[p] == s.files[p]
  {
  }

  /** `shutil.copy2(src, dst)`: `dst` gets the contents of `src`; copying a file onto itself fails. */
  function CopyStep(s: Snapshot, src: Path, dst: Path): (r: Option<Snapshot>)
    ensures r.None? <==> TransferFails(s, src, dst) || src == dst
    ensures r.Some? ==> r.value.files == s.files[dst := s.files[src]] && r.value.dirs == s.dirs
    ensures r.Some? && Wf(s) ==> Wf(r.value)
  {
    if TransferFails(s, src, dst) || src == dst then None
    else Some(Snapshot(s.files[dst := s.files[src]], s.dirs))
  }

  /** Moving a file to a free path keeps the number of files. */
  lemma MoveKeepsCount(s: Snapshot, src: Path, dst: Path)
    requires MoveStep(s, src, dst).Some? && dst !in s.files
    ensures |MoveStep(s, src, dst).value.files| == |s.files|
  {
    var removed := s.files - {src};
    assert removed.Keys == s.files.Keys - {src};
    assert |removed.Keys| == |s.files.Keys| - 1;
    assert removed[dst := s.files[src]].Keys == removed.Keys + {dst};
  }

  /** Copying a file to a free path adds exactly one file and keeps every other file as it was. */
  lemma CopyAddsOne(s: Snapshot, src: Path, dst: Path)
    requires CopyStep(s, src, dst).Some? && dst !in s.files
    ensures |CopyStep(s, src, dst).value.files| == |s.files| + 1
    ensures forall p :: p in s.files ==>
      p in CopyStep(s, src, dst).value.files && CopyStep(s, src, dst).value.files[p] == s.files[p]
  {
    assert s.files[dst := s.files[src]].Keys == s.files.Keys + {dst};
  }

  // ---------------------------------------------------------------- the disk in place

  /** The filesystem the scripts act on; every method changes it by one step. */
  class Disk {
    var files: map<Path, string>
    var dirs: set<Path>

    function Snap(): Snapshot
      reads this
    {
      Snapshot(files, dirs)
    }

    constructor (s: Snapshot)
      ensures Snap() == s
    {
      files := s.files;
      dirs := s.dirs;
    }

    method MakeDirs(p: Path) returns (ok: bool)
      modifies this
      ensures ok <==> MakeDirsStep(old(Snap()), p).Some?
      ensures Snap() == if ok then MakeDirsStep(old(Snap()), p).value else old(Snap())
    {
      var r := MakeDirsStep(Snap(), p);
      ok := r.Some?;
      if ok {
        dirs := r.value.dirs;
      }
    }

    method Mkdir(p: Path) returns (ok: bool)
      modifies this
      ensures ok <==> MkdirStep(old(Snap()), p).Some?
      ensures Snap() == if ok then MkdirStep(old(Snap()), p).value else old(Snap())
    {
      var r := MkdirStep(Snap(), p);
      ok := r.Some?;
      if ok {
        dirs := r.value.dirs;
      }
    }

    method Move(src: Path, dst: Path) returns (ok: bool)
      modifies this
      ensures ok <==> MoveStep(old(Snap()), src, dst).Some?
      ensures Snap() == if ok then MoveStep(old(Snap()), src, dst).value else old(Snap())
    {
      var r := MoveStep(Snap(), src, dst);
      ok := r.Some?;
      if ok {
        files := r.value.files;
      }
    }

    method Copy(src: Path, dst: Path) returns (ok: bool)
      modifies this
      ensures ok <==> CopyStep(old(Snap()), src, dst).Some?
      ensures Snap() == if ok then CopyStep(old(Snap()), src, dst).value else old(Snap())
    {
      var r := CopyStep(Snap(), src, dst);
      ok := r.Some?;
      if ok {
        files := r.value.files;
      }
    }
  }
}
