/**
 * Paths, pathlib's stem / suffix split, and the collision-free destination
 * both the file organizer (`move_file_safely`) and the photo sorter use:
 * when `dir/name` is taken, probe `stem_1.ext`, `stem_2.ext`, ... in `dir`
 * until a name is free.
 */
module Naming {
  import opened Text

  /** A path as its components: `base / "2024" / "03"` is `base + ["2024", "03"]`. */
  type Path = seq<string>

  function Parent(p: Path): Path
    requires |p| > 0
  {
    p[..|p| - 1]
  }

  function Name(p: Path): string
    requires |p| > 0
  {
    p[|p| - 1]
  }

  // ---------------------------------------------------------------- stem and suffix

  /** Index of the dot that starts pathlib's suffix, or -1 when there is none. */
  function SuffixStart(name: string): (i: int)
    ensures -1 <= i < |name|
  {
    var i := RFind(name, '.');
    if 0 < i < |name| - 1 then i else -1
  }

  /**
   * `PurePath(name).suffix`: from the last dot to the end, when that dot is
   * neither the first nor the last character; otherwise empty.
   */
  function Suffix(name: string): (ext: string)
    ensures EndsWith(name, ext)
    ensures ext == [] || (2 <= |ext| < |name| && ext[0] == '.' && forall k :: 1 <= k < |ext| ==> ext[k] != '.')
  {
    var i := SuffixStart(name);
    if i < 0 then [] else name[i..]
  }

  /** `PurePath(name).stem`: the name without its suffix. */
  function Stem(name: string): (stem: string)
    ensures stem + Suffix(name) == name
    ensures Suffix(name) != [] ==> |stem| >= 1
  {
    var i := SuffixStart(name);
    if i < 0 then name
    else
      assert name == name[..i] + name[i..];
      name[..i]
  }

  /** The suffix is empty exactly when the name has no dot, or only a leading or trailing last dot. */
  lemma SuffixEmpty(name: string)
    ensures Suffix(name) == [] <==>
      ('.' !in name || (name[0] == '.' && '.' !in name[1..]) || name[|name| - 1] == '.')
  {
    var i := RFind(name, '.');
    if i == 0 {
      assert name[1..] == name[i + 1..];
    } else if i > 0 && i < |name| - 1 {
      assert name[i] == '.' && name[0] != '.' ==> name[1..][i - 1] == '.';
      assert name[|name| - 1] in name[i + 1..];
    }
  }

  /** A name made of a non-empty stem and a dot-suffix without further dots splits back into the two. */
  lemma SplitName(stem: string, ext: string)
    requires |stem| >= 1 && |ext| >= 2 && ext[0] == '.' && '.' !in ext[1..]
    ensures Suffix(stem + ext) == ext && Stem(stem + ext) == stem
  {
    var name := stem + ext;
    var r := RFind(name, '.');
    assert name[|stem|] == '.';
    assert name[|stem| + 1..] == ext[1..];
    assert r == |stem|;
    assert name[r..] == ext;
  }

  // ---------------------------------------------------------------- probe names

  /** `f"{stem}_{k}{ext}"`. */
  function Candidate(stem: string, ext: string, k: nat): string {
    stem + "_" + Decimal(k) + ext
  }

  /** Each counter value gives a different probe name. */
  lemma CandidateInjective(stem: string, ext: string, i: nat, j: nat)
    requires Candidate(stem, ext, i) == Candidate(stem, ext, j)
    ensures i == j
  {
    var a := Candidate(stem, ext, i);
    assert |Decimal(i)| == |Decimal(j)|;
    assert a[|stem| + 1..|a| - |ext|] == Decimal(i);
    assert Candidate(stem, ext, j)[|stem| + 1..|a| - |ext|] == Decimal(j);
    DecimalInjective(i, j);
  }

  /** A probe name never equals the name it was derived from. */
  lemma CandidateIsNew(name: string, k: nat)
    ensures Candidate(Stem(name), Suffix(name), k) != name
  {
    DecimalRoundTrip(k);
  }

  /** The probe paths for counters `1 .. k-1`. */
  ghost function Probed(dir: Path, stem: string, ext: string, k: nat): set<Path> {
    set j: nat | 1 <= j < k :: dir + [Candidate(stem, ext, j)]
  }

  lemma ProbedStep(dir: Path, stem: string, ext: string, k: nat)
    requires k >= 1
    ensures Probed(dir, stem, ext, k + 1) == Probed(dir, stem, ext, k) + {dir + [Candidate(stem, ext, k)]}
    ensures dir + [Candidate(stem, ext, k)] !in Probed(dir, stem, ext, k)
  {
    var p := dir + [Candidate(stem, ext, k)];
    if p in Probed(dir, stem, ext, k) {
      var j: nat :| 1 <= j < k && p == dir + [Candidate(stem, ext, j)];
      assert p[|dir|] == Candidate(stem, ext, j);
      CandidateInjective(stem, ext, j, k);
    }
  }

  /** `k` is the least counter from 1 whose probe name in `dir` is free. */
  ghost predicate LeastFree(taken: set<Path>, dir: Path, stem: string, ext: string, k: nat) {
    && k >= 1
    && dir + [Candidate(stem, ext, k)] !in taken
    && forall j :: 1 <= j < k ==> dir + [Candidate(stem, ext, j)] in taken
  }

  /** The first free counter at or after `k`, given that every counter below `k` is taken. */
  function FirstFree(taken: set<Path>, dir: Path, stem: string, ext: string, k: nat): (n: nat)
    requires k >= 1
    requires Probed(dir, stem, ext, k) <= taken
    ensures n >= k
    ensures LeastFree(taken, dir, stem, ext, n)
    decreases taken - Probed(dir, stem, ext, k)
  {
    assert forall j :: 1 <= j < k ==> dir + [Candidate(stem, ext, j)] in Probed(dir, stem, ext, k);
    if dir + [Candidate(stem, ext, k)] !in taken then k
    else
      ProbedStep(dir, stem, ext, k);
      FirstFree(taken, dir, stem, ext, k + 1)
  }

  /**
   * Where a file named `Name(dest)` lands in `Parent(dest)`: `dest` itself when
   * it is free, otherwise `stem_k + suffix` for the least free `k >= 1`. The
   * stem and suffix are those of the original name, so suffixes never stack.
   */
  function Resolve(taken: set<Path>, dest: Path): (r: Path)
    requires |dest| > 0
    ensures r !in taken
    ensures |r| == |dest| && Parent(r) == Parent(dest)
    ensures dest !in taken ==> r == dest
  {
    if dest !in taken then dest
    else
      var dir, stem, ext := Parent(dest), Stem(Name(dest)), Suffix(Name(dest));
      var k := FirstFree(taken, dir, stem, ext, 1);
      var r := dir + [Candidate(stem, ext, k)];
      assert Parent(r) == dir;
      r
  }

  /** A taken destination resolves to the probe name of the least free counter. */
  lemma ResolveIsLeastFree(taken: set<Path>, dest: Path)
    requires |dest| > 0 && dest in taken
    ensures exists k :: LeastFree(taken, Parent(dest), Stem(Name(dest)), Suffix(Name(dest)), k)
                     && Resolve(taken, dest) == Parent(dest) + [Candidate(Stem(Name(dest)), Suffix(Name(dest)), k)]
  {
    var k := FirstFree(taken, Parent(dest), Stem(Name(dest)), Suffix(Name(dest)), 1);
    assert LeastFree(taken, Parent(dest), Stem(Name(dest)), Suffix(Name(dest)), k);
  }

  lemma LeastFreeUnique(taken: set<Path>, dir: Path, stem: string, ext: string, a: nat, b: nat)
    requires LeastFree(taken, dir, stem, ext, a) && LeastFree(taken, dir, stem, ext, b)
    ensures a == b
  {
  }

  /**
   * The probing loop of `move_file_safely` (and of the photo sorter): the
   * counter only grows, each probe is a name not probed before, and only
   * finitely many paths are taken, so the loop ends on the first free name.
   */
  method ProbeFreeName(taken: set<Path>, destination: Path) returns (dest: Path)
    requires |destination| > 0
    ensures dest == Resolve(taken, destination)
  {
    dest := destination;
    if dest in taken {
      var counter := 1;
      var nameWithoutExt := Stem(Name(destination));
      var extension := Suffix(Name(destination));
      ghost var dir := Parent(destination);
      ghost var seen: set<Path> := {};
      while dest in taken
        invariant counter >= 1 && |dest| > 0 && Parent(dest) == dir
        invariant counter == 1 ==> dest == destination && seen == {}
        invariant counter > 1 ==>
          && dest == dir + [Candidate(nameWithoutExt, extension, counter - 1)]
          && seen == {destination} + Probed(dir, nameWithoutExt, extension, counter - 1)
        invariant seen <= taken
        invariant dest !in seen
        decreases taken - seen
      {
        seen := seen + {dest};
        if counter > 1 {
          ProbedStep(dir, nameWithoutExt, extension, counter - 1);
        }
        var newName := nameWithoutExt + "_" + Decimal(counter) + extension;
        dest := Parent(dest) + [newName];
        counter := counter + 1;
        ProbedStep(dir, nameWithoutExt, extension, counter - 1);
        CandidateIsNew(Name(destination), counter - 1);
        assert Parent(dest) == dir;
      }
      assert counter > 1;
      var k := FirstFree(taken, dir, nameWithoutExt, extension, 1);
      assert forall j :: 1 <= j < counter - 1 ==>
        dir + [Candidate(nameWithoutExt, extension, j)] in Probed(dir, nameWithoutExt, extension, counter - 1);
      LeastFreeUnique(taken, dir, nameWithoutExt, extension, k, counter - 1);
    }
  }

  /** Two copies already there: the third file is named `photo_2.jpg`. */
  lemma ProbeExample(dir: Path)
    ensures Resolve({dir + ["photo.jpg"], dir + ["photo_1.jpg"]}, dir + ["photo.jpg"]) == dir + ["photo_2.jpg"]
  {
    var taken := {dir + ["photo.jpg"], dir + ["photo_1.jpg"]};
    var dest := dir + ["photo.jpg"];
    assert "photo" + ".jpg" == "photo.jpg";
    SplitName("photo", ".jpg");
    assert Parent(dest) == dir && Name(dest) == "photo.jpg";
    assert Decimal(1) == "1" && Decimal(2) == "2";
    assert Candidate("photo", ".jpg", 1) == "photo_1.jpg";
    assert Candidate("photo", ".jpg", 2) == "photo_2.jpg";
    assert dir + ["photo_2.jpg"] !in taken by {
      assert (dir + ["photo_2.jpg"])[|dir|] == "photo_2.jpg";
      assert (dir + ["photo.jpg"])[|dir|] == "photo.jpg";
      assert (dir + ["photo_1.jpg"])[|dir|] == "photo_1.jpg";
    }
    assert Probed(dir, "photo", ".jpg", 1) == {};
    assert Probed(dir, "photo", ".jpg", 2) == {dir + ["photo_1.jpg"]};
    assert FirstFree(taken, dir, "photo", ".jpg", 2) == 2;
    assert FirstFree(taken, dir, "photo", ".jpg", 1) == 2;
  }
}
