/**
 * The file organizer: every regular file directly inside a folder is
 * classified by its extension, grouped by category, and moved into a
 * sub-folder named after the category, with `stem_k.ext` names on collision.
 */
module OrganizeFiles {
  import opened Wrappers
  import opened Text
  import opened Naming
  import opened ModelFs

  // ---------------------------------------------------------------- the extension table

  datatype Category =
    Images | Documents | Spreadsheets | Presentations | Videos | Audio | Archives | Games | Code | Fonts

  /** The sub-folder a category's files go to. */
  function FolderName(c: Category): string {
    match c
    case Images => "Images"
    case Documents => "Documents"
    case Spreadsheets => "Spreadsheets"
    case Presentations => "Presentations"
    case Videos => "Videos"
    case Audio => "Audio"
    case Archives => "Archives"
    case Games => "Games"
    case Code => "Code"
    case Fonts => "Fonts"
  }

  /** The categories in the order the table lists them, which is the order lookup tries them. */
  const Table: seq<Category> :=
    [Images, Documents, Spreadsheets, Presentations, Videos, Audio, Archives, Games, Code, Fonts]

  function Extensions(c: Category): set<string> {
    match c
    case Images =>
      {".jpg", ".jpeg", ".png", ".gif", ".bmp", ".tiff", ".tif", ".webp", ".svg", ".ico", ".heic", ".heif",
       ".raw", ".cr2", ".nef", ".orf", ".sr2", ".dng"}
    case Documents =>
      {".pdf", ".doc", ".docx", ".txt", ".rtf", ".odt", ".pages", ".tex", ".md", ".html", ".htm", ".xml",
       ".epub", ".mobi"}
    case Spreadsheets => {".xls", ".xlsx", ".csv", ".ods", ".numbers", ".tsv"}
    case Presentations => {".ppt", ".pptx", ".odp", ".key"}
    case Videos =>
      {".mp4", ".avi", ".mkv", ".mov", ".wmv", ".flv", ".webm", ".m4v", ".3gp", ".ogv", ".mpg", ".mpeg", ".m2v"}
    case Audio =>
      {".mp3", ".wav", ".flac", ".aac", ".ogg", ".wma", ".m4a", ".opus", ".mid", ".midi", ".xm", ".mod",
       ".s3m", ".it", ".vitalbank", ".ableton", ".logic"}
    case Archives =>
      {".zip", ".rar", ".7z", ".tar", ".gz", ".bz2", ".xz", ".tar.gz", ".tar.bz2", ".tar.xz", ".dmg", ".iso",
       ".img", ".sit", ".sitx", ".exe", ".msi", ".deb", ".rpm", ".appimage", ".pkg", ".torrent", ".xpi"}
    case Games =>
      {".gba", ".gb", ".gbc", ".nes", ".snes", ".sfc", ".n64", ".z64", ".md", ".smd", ".gg", ".sms", ".pce",
       ".ngp", ".ws", ".wsc", ".rom", ".iso", ".cue", ".bin", ".img", ".nds", ".3ds", ".cia", ".srm", ".sav",
       ".ips", ".ups", ".bps", ".psu", ".mcr", ".vmc"}
    case Code =>
      {".py", ".js", ".html", ".css", ".json", ".xml", ".yaml", ".yml", ".sh", ".bat", ".ps1", ".php", ".rb",
       ".go", ".rust", ".c", ".cpp", ".h", ".hpp", ".java", ".kt", ".swift", ".r", ".sql", ".cfg", ".conf",
       ".ini", ".toml", ".env", ".dockerfile", ".makefile", ".cmake", ".gitignore", ".gitattributes",
       ".editorconfig", ".eslintrc", ".prettierrc", ".babelrc", ".vscode", ".idea", ".lic", ".license",
       ".rdp", ".ovpn", ".pem", ".key", ".crt", ".p12", ".pfx", ".jks", ".tfstate", ".tf", ".hcl", ".ics"}
    case Fonts => {".ttf", ".otf", ".woff", ".woff2", ".eot"}
  }

  /** The first category of `order` whose extension set holds `ext`. */
  function FirstMatch(order: seq<Category>, ext: string): (r: Option<Category>)
    ensures r.None? <==> forall i :: 0 <= i < |order| ==> ext !in Extensions(order[i])
    ensures r.Some? ==> exists i :: 0 <= i < |order| && order[i] == r.value && ext in Extensions(order[i])
                                   && forall j :: 0 <= j < i ==> ext !in Extensions(order[j])
  {
    if order == [] then None
    else if ext in Extensions(order[0]) then Some(order[0])
    else
      var r := FirstMatch(order[1..], ext);
      assert forall i :: 0 < i < |order| ==> order[i] == order[1..][i - 1];
      r
  }

  /** Compound archive suffixes recognised before the table is consulted. */
  predicate IsTarball(name: string) {
    var lowered := Lower(name);
    EndsWith(lowered, ".tar.gz") || EndsWith(lowered, ".tar.bz2") || EndsWith(lowered, ".tar.xz")
  }

  /** `get_file_category`: the category of a file name, or `None` for an unknown type. */
  function FileCategory(name: string): (r: Option<Category>)
    ensures IsTarball(name) ==> r == Some(Archives)
    ensures !IsTarball(name) ==> r == FirstMatch(Table, Lower(Suffix(name)))
  {
    if IsTarball(name) then Some(Archives)
    else FirstMatch(Table, Lower(Suffix(name)))
  }

  lemma TableListsEvery(c: Category)
    ensures exists i :: 0 <= i < |Table| && Table[i] == c
  {
    match c
    case Images => assert Table[0] == c;
    case Documents => assert Table[1] == c;
    case Spreadsheets => assert Table[2] == c;
    case Presentations => assert Table[3] == c;
    case Videos => assert Table[4] == c;
    case Audio => assert Table[5] == c;
    case Archives => assert Table[6] == c;
    case Games => assert Table[7] == c;
    case Code => assert Table[8] == c;
    case Fonts => assert Table[9] == c;
  }

  /** A name is unknown exactly when it is no tarball and its lowered suffix is in no category. */
  lemma UnknownType(name: string)
    ensures FileCategory(name).None? <==> !IsTarball(name) && forall c: Category :: Lower(Suffix(name)) !in Extensions(c)
  {
    if !IsTarball(name) && FileCategory(name).None? {
      forall c: Category ensures Lower(Suffix(name)) !in Extensions(c) {
        TableListsEvery(c);
      }
    }
  }

  /**
   * The table lists `.md`, `.iso`, `.img`, `.html`, `.xml` and `.key` under
   * two categories; the earlier category wins.
   */
  lemma MdIsDocument()
    ensures ".md" in Extensions(Games) && FirstMatch(Table, ".md") == Some(Documents)
  {
    assert ".md" !in Extensions(Images);
  }

  lemma IsoIsArchive()
    ensures ".iso" in Extensions(Games) && FirstMatch(Table, ".iso") == Some(Archives)
  {
    assert ".iso" !in Extensions(Images);
    assert ".iso" !in Extensions(Documents);
    assert ".iso" !in Extensions(Spreadsheets);
    assert ".iso" !in Extensions(Presentations);
    assert ".iso" !in Extensions(Videos);
    assert ".iso" !in Extensions(Audio);
  }

  lemma ImgIsArchive()
    ensures ".img" in Extensions(Games) && FirstMatch(Table, ".img") == Some(Archives)
  {
    assert ".img" !in Extensions(Images);
    assert ".img" !in Extensions(Documents);
    assert ".img" !in Extensions(Spreadsheets);
    assert ".img" !in Extensions(Presentations);
    assert ".img" !in Extensions(Videos);
    assert ".img" !in Extensions(Audio);
  }

  lemma HtmlIsDocument()
    ensures ".html" in Extensions(Code) && FirstMatch(Table, ".html") == Some(Documents)
  {
    assert ".html" !in Extensions(Images);
  }

  lemma XmlIsDocument()
    ensures ".xml" in Extensions(Code) && FirstMatch(Table, ".xml") == Some(Documents)
  {
    assert ".xml" !in Extensions(Images);
  }

  lemma KeyIsPresentation()
    ensures ".key" in Extensions(Code) && FirstMatch(Table, ".key") == Some(Presentations)
  {
    assert ".key" !in Extensions(Images);
    assert ".key" !in Extensions(Documents);
    assert ".key" !in Extensions(Spreadsheets);
  }

  // ---------------------------------------------------------------- what is skipped

  const SkipFiles: set<string> :=
    {".ds_store", ".localized", "desktop.ini", "thumbs.db", ".directory", "$recycle.bin",
     "system volume information", ".spotlight-v100", ".trashes", ".fseventsd", ".temporaryitems"}

  /** `should_skip_file`: a known system file, a hidden name other than ".", or a directory. */
  function ShouldSkip(name: string, isDir: bool): (r: bool)
    ensures r <==> Lower(name) in SkipFiles || (|name| > 1 && name[0] == '.') || isDir
  {
    var fileName := Lower(name);
    assert |fileName| == |name|;
    assert |name| > 0 ==> (fileName[0] == '.' <==> name[0] == '.');
    fileName in SkipFiles || (StartsWith(fileName, ".") && |fileName| > 1) || isDir
  }

  // ---------------------------------------------------------------- collecting

  /** A file queued for moving, with its category. */
  datatype Item = Item(name: string, category: Category)

  /** The `iterdir` entry `name` of `folder` is a regular file that is not skipped. */
  predicate Eligible(s: Snapshot, folder: Path, name: string) {
    var p := folder + [name];
    p in s.files && !ShouldSkip(name, p in s.dirs)
  }

  /** The files the collecting loop queues, in listing order, with their categories. */
  function Queue(s: Snapshot, folder: Path, listing: seq<string>): seq<Item>
  {
    if listing == [] then []
    else
      var rest := Queue(s, folder, listing[..|listing| - 1]);
      var name := listing[|listing| - 1];
      if Eligible(s, folder, name) && FileCategory(name).Some? then rest + [Item(name, FileCategory(name).value)]
      else rest
  }

  /** The names the collecting loop reports as skipped system or hidden files. */
  function Skipped(s: Snapshot, folder: Path, listing: seq<string>): seq<string>
  {
    if listing == [] then []
    else
      var rest := Skipped(s, folder, listing[..|listing| - 1]);
      var name := listing[|listing| - 1];
      var p := folder + [name];
      if p in s.files && ShouldSkip(name, p in s.dirs) then rest + [name] else rest
  }

  /** The categories of `q` in order of first appearance: the key order of the grouping dictionary. */
  function CategoryOrder(q: seq<Item>): seq<Category>
  {
    if q == [] then []
    else
      var order := CategoryOrder(q[..|q| - 1]);
      var c := q[|q| - 1].category;
      if c in order then order else order + [c]
  }

  /** The grouping dictionary: each category of `q` with its file names in order. */
  function GroupMap(q: seq<Item>): (groups: map<Category, seq<string>>)
    ensures groups.Keys == set c | c in CategoryOrder(q)
  {
    if q == [] then map[]
    else
      var groups := GroupMap(q[..|q| - 1]);
      var it := q[|q| - 1];
      if it.category in groups then groups[it.category := groups[it.category] + [it.name]]
      else groups[it.category := [it.name]]
  }

  predicate Distinct<T(==)>(s: seq<T>) {
    forall i, j :: 0 <= i < j < |s| ==> s[i] != s[j]
  }

  /** A queued item is exactly an eligible listed file with a known category. */
  lemma {:induction false} QueueMembers(s: Snapshot, folder: Path, listing: seq<string>, n: string, c: Category)
    ensures Item(n, c) in Queue(s, folder, listing) <==>
      n in listing && Eligible(s, folder, n) && FileCategory(n) == Some(c)
  {
    if listing != [] {
      var init := listing[..|listing| - 1];
      QueueMembers(s, folder, init, n, c);
      assert listing == init + [listing[|listing| - 1]];
    }
  }

  /** Each category appears once in the key order, and exactly the categories of queued files appear. */
  lemma {:induction false} CategoryOrderFacts(q: seq<Item>)
    ensures CategoryOrder(q) == [] <==> q == []
    ensures Distinct(CategoryOrder(q))
    ensures forall c :: c in CategoryOrder(q) <==> exists i :: 0 <= i < |q| && q[i].category == c
  {
    if q != [] {
      var init := q[..|q| - 1];
      CategoryOrderFacts(init);
      forall c ensures c in CategoryOrder(q) <==> exists i :: 0 <= i < |q| && q[i].category == c {
        if c in CategoryOrder(init) {
          var i :| 0 <= i < |init| && init[i].category == c;
          assert q[i].category == c;
        } else if exists i :: 0 <= i < |q| && q[i].category == c {
          var i :| 0 <= i < |q| && q[i].category == c;
          if i < |init| {
            assert init[i].category == c;
          }
        }
      }
    }
  }

  /** One more item changes only its own category's group, by its name at the end. */
  lemma GroupStep(init: seq<Item>, it: Item, c: Category)
    ensures c in GroupMap(init + [it]) <==> c in GroupMap(init) || c == it.category
    ensures c in GroupMap(init + [it]) ==>
      GroupMap(init + [it])[c] == (if c != it.category then GroupMap(init)[c]
                                   else if c in GroupMap(init) then GroupMap(init)[c] + [it.name]
                                   else [it.name])
  {
    assert (init + [it])[..|init|] == init;
  }

  /** A file name is in its category's group exactly when it was queued with that category. */
  lemma {:induction false} GroupMembers(q: seq<Item>, n: string, c: Category)
    ensures c in GroupMap(q) ==> (n in GroupMap(q)[c] <==> Item(n, c) in q)
    ensures c !in GroupMap(q) ==> Item(n, c) !in q
  {
    if q != [] {
      var init := q[..|q| - 1];
      var it := q[|q| - 1];
      assert q == init + [it];
      GroupMembers(init, n, c);
      GroupStep(init, it, c);
      assert Item(n, c) in q <==> Item(n, c) in init || it == Item(n, c);
    }
  }

  /**
   * Each eligible file with a known category lands in its own category's
   * group and in no other; unknown and skipped files are in no group.
   */
  lemma FileLandsInItsGroup(s: Snapshot, folder: Path, listing: seq<string>, n: string, c: Category)
    ensures var groups := GroupMap(Queue(s, folder, listing));
      (c in groups && n in groups[c]) <==> n in listing && Eligible(s, folder, n) && FileCategory(n) == Some(c)
  {
    var q := Queue(s, folder, listing);
    QueueMembers(s, folder, listing, n, c);
    GroupMembers(q, n, c);
  }

  // ---------------------------------------------------------------- the moving order

  /** The names in the order the moving loops visit them: group after group, in key order. */
  function Flatten(order: seq<Category>, groups: map<Category, seq<string>>): seq<string>
    requires forall c :: c in order ==> c in groups
  {
    if order == [] then []
    else Flatten(order[..|order| - 1], groups) + groups[order[|order| - 1]]
  }

  function Names(q: seq<Item>): seq<string> {
    if q == [] then [] else Names(q[..|q| - 1]) + [q[|q| - 1].name]
  }

  lemma {:induction false} FlattenIgnoresOthers(order: seq<Category>, groups: map<Category, seq<string>>, c: Category, v: seq<string>)
    requires forall d :: d in order ==> d in groups
    requires c !in order
    ensures Flatten(order, groups[c := v]) == Flatten(order, groups)
  {
    if order != [] {
      FlattenIgnoresOthers(order[..|order| - 1], groups, c, v);
    }
  }

  lemma {:induction false} FlattenAppend(order: seq<Category>, groups: map<Category, seq<string>>, c: Category, n: string)
    requires forall d :: d in order ==> d in groups
    requires Distinct(order) && c in order
    ensures multiset(Flatten(order, groups[c := groups[c] + [n]])) == multiset(Flatten(order, groups)) + multiset{n}
  {
    var init := order[..|order| - 1];
    var last := order[|order| - 1];
    var g := groups[c := groups[c] + [n]];
    if last == c {
      assert forall i :: 0 <= i < |init| ==> init[i] != c by {
        forall i | 0 <= i < |init|
          ensures init[i] != c
        {
          assert init[i] == order[i];
        }
      }
      FlattenIgnoresOthers(init, groups, c, groups[c] + [n]);
    } else {
      assert c in init;
      FlattenAppend(init, groups, c, n);
    }
  }

  lemma LastSplit(q: seq<Item>)
    requires q != []
    ensures q == q[..|q| - 1] + [q[|q| - 1]]
  {
  }

  /** The moving loops visit every queued file exactly once. */
  lemma {:induction false} MovingOrderIsQueue(q: seq<Item>)
    ensures forall c :: c in CategoryOrder(q) ==> c in GroupMap(q)
    ensures multiset(Flatten(CategoryOrder(q), GroupMap(q))) == multiset(Names(q))
  {
    if q != [] {
      var init := q[..|q| - 1];
      LastSplit(q);
      MovingOrderIsQueue(init);
      CategoryOrderFacts(init);
      MovingOrderStep(init, q[|q| - 1]);
    }
  }

  /** Hence the moving loops make exactly as many attempts as there are queued files. */
  lemma MovingOrderLength(q: seq<Item>)
    ensures forall c :: c in CategoryOrder(q) ==> c in GroupMap(q)
    ensures |Flatten(CategoryOrder(q), GroupMap(q))| == |q|
  {
    MovingOrderIsQueue(q);
    NamesLength(q);
    var f := Flatten(CategoryOrder(q), GroupMap(q));
    assert |multiset(f)| == |f|;
    assert |multiset(Names(q))| == |Names(q)|;
  }

  lemma MovingOrderStep(init: seq<Item>, it: Item)
    requires forall c :: c in CategoryOrder(init) ==> c in GroupMap(init)
    requires Distinct(CategoryOrder(init))
    requires multiset(Flatten(CategoryOrder(init), GroupMap(init))) == multiset(Names(init))
    ensures forall c :: c in CategoryOrder(init + [it]) ==> c in GroupMap(init + [it])
    ensures multiset(Flatten(CategoryOrder(init + [it]), GroupMap(init + [it]))) == multiset(Names(init + [it]))
  {
    var q := init + [it];
    assert q[..|q| - 1] == init;
    var order, groups := CategoryOrder(init), GroupMap(init);
    assert Names(q) == Names(init) + [it.name];
    if it.category in order {
      assert CategoryOrder(q) == order;
      assert GroupMap(q) == groups[it.category := groups[it.category] + [it.name]];
      FlattenAppend(order, groups, it.category, it.name);
    } else {
      var order' := order + [it.category];
      var groups' := groups[it.category := [it.name]];
      assert CategoryOrder(q) == order' && GroupMap(q) == groups';
      assert order'[..|order'| - 1] == order;
      assert Flatten(order', groups') == Flatten(order, groups') + [it.name];
      FlattenIgnoresOthers(order, groups, it.category, [it.name]);
    }
  }

  lemma {:induction false} NamesLength(q: seq<Item>)
    ensures |Names(q)| == |q|
  {
    if q != [] {
      NamesLength(q[..|q| - 1]);
    }
  }

  // ---------------------------------------------------------------- moving

  /** Where the moving loops stand: the filesystem and the two counters. */
  datatype Outcome = Outcome(snap: Snapshot, moved: nat, failed: nat)

  /** The path a file named `name` of category `c` is first offered in `folder`. */
  function Target(folder: Path, c: Category, name: string): Path {
    folder + [FolderName(c), name]
  }

  /**
   * One turn of the inner moving loop: `move_file_safely` to a free name in
   * the category folder, counting the move as done or failed. A move fails
   * exactly when the file is gone or the category path is not a directory.
   */
  function MoveOne(o: Outcome, folder: Path, c: Category, name: string): (r: Outcome)
    ensures r.moved + r.failed == o.moved + o.failed + 1
    ensures r.moved == o.moved + 1 <==> folder + [name] in o.snap.files && folder + [FolderName(c)] in o.snap.dirs
    ensures r.moved == o.moved + 1 ==>
      && folder + [name] !in r.snap.files
      && exists dst :: |dst| > 0 && Parent(dst) == folder + [FolderName(c)] && dst !in Existing(o.snap)
                    && dst in r.snap.files && r.snap.files[dst] == o.snap.files[folder + [name]]
    ensures r.snap.dirs == o.snap.dirs
    ensures Wf(o.snap) ==> Wf(r.snap) && |r.snap.files| == |o.snap.files|
  {
    var src := folder + [name];
    var target := Target(folder, c, name);
    assert Parent(target) == folder + [FolderName(c)];
    var dst := Resolve(Existing(o.snap), target);
    match MoveStep(o.snap, src, dst)
    case Some(t) =>
      MoveKeepsCount(o.snap, src, dst);
      Outcome(t, o.moved + 1, o.failed)
    case None => Outcome(o.snap, o.moved, o.failed + 1)
  }

  /** The inner loop over one group. */
  function MoveNames(o: Outcome, folder: Path, c: Category, names: seq<string>): (r: Outcome)
    ensures r.moved + r.failed == o.moved + o.failed + |names|
    ensures r.snap.dirs == o.snap.dirs
    ensures Wf(o.snap) ==> Wf(r.snap) && |r.snap.files| == |o.snap.files|
  {
    if names == [] then o
    else MoveOne(MoveNames(o, folder, c, names[..|names| - 1]), folder, c, names[|names| - 1])
  }

  /** Both moving loops: group after group in key order. */
  function MoveGroups(o: Outcome, folder: Path, order: seq<Category>, groups: map<Category, seq<string>>): (r: Outcome)
    requires forall c :: c in order ==> c in groups
    ensures r.moved + r.failed == o.moved + o.failed + |Flatten(order, groups)|
    ensures r.snap.dirs == o.snap.dirs
    ensures Wf(o.snap) ==> Wf(r.snap) && |r.snap.files| == |o.snap.files|
  {
    if order == [] then o
    else
      var c := order[|order| - 1];
      MoveNames(MoveGroups(o, folder, order[..|order| - 1], groups), folder, c, groups[c])
  }

  /** The category folders `create_category_folders` makes: those of `categories` that do not exist yet. */
  function NewFolders(s: Snapshot, folder: Path, categories: set<Category>): set<Path> {
    set c | c in categories && folder + [FolderName(c)] !in Existing(s) :: folder + [FolderName(c)]
  }

  /** The filesystem after `create_category_folders`: every category path then exists. */
  function WithCategoryFolders(s: Snapshot, folder: Path, categories: set<Category>): (r: Snapshot)
    ensures r.files == s.files
    ensures forall c :: c in categories ==> folder + [FolderName(c)] in Existing(r)
    ensures Wf(s) && folder in s.dirs ==> Wf(r)
  {
    var r := Snapshot(s.files, s.dirs + NewFolders(s, folder, categories));
    assert forall c :: c in categories && folder + [FolderName(c)] !in Existing(s) ==>
      folder + [FolderName(c)] in NewFolders(s, folder, categories);
    assert forall d :: d in NewFolders(s, folder, categories) ==> |d| > 0 && Parent(d) == folder;
    r
  }

  // ---------------------------------------------------------------- the loops in place

  /** `move_file_safely`: probe a free name next to `destination`, then move. */
  method MoveFileSafely(disk: Disk, source: Path, destination: Path) returns (ok: bool, finalDestination: Option<Path>)
    requires |destination| > 0
    modifies disk
    ensures var dst := Resolve(Existing(old(disk.Snap())), destination);
      && (ok <==> MoveStep(old(disk.Snap()), source, dst).Some?)
      && disk.Snap() == (if ok then MoveStep(old(disk.Snap()), source, dst).value else old(disk.Snap()))
      && finalDestination == (if ok then Some(dst) else None)
  {
    var dest := ProbeFreeName(Existing(disk.Snap()), destination);
    ok := disk.Move(source, dest);
    finalDestination := if ok then Some(dest) else None;
  }

  /** The collecting loop of `organize_folder` over the `iterdir` listing of `folder`. */
  method CollectFiles(disk: Disk, folder: Path, listing: seq<string>)
    returns (order: seq<Category>, groups: map<Category, seq<string>>, skipped: seq<string>)
    ensures order == CategoryOrder(Queue(disk.Snap(), folder, listing))
    ensures groups == GroupMap(Queue(disk.Snap(), folder, listing))
    ensures skipped == Skipped(disk.Snap(), folder, listing)
  {
    order, groups, skipped := [], map[], [];
    var i := 0;
    while i < |listing|
      invariant 0 <= i <= |listing|
      invariant order == CategoryOrder(Queue(disk.Snap(), folder, listing[..i]))
      invariant groups == GroupMap(Queue(disk.Snap(), folder, listing[..i]))
      invariant skipped == Skipped(disk.Snap(), folder, listing[..i])
    {
      order, groups, skipped := CollectEntry(disk, folder, listing[..i], listing[i], order, groups, skipped);
      assert listing[..i + 1] == listing[..i] + [listing[i]];
      i := i + 1;
    }
    assert listing[..i] == listing;
  }

  /** One turn of the collecting loop: the entry `name`, listed after the entries `done`. */
  method CollectEntry(disk: Disk, folder: Path, ghost done: seq<string>, name: string,
                      order0: seq<Category>, groups0: map<Category, seq<string>>, skipped0: seq<string>)
    returns (order: seq<Category>, groups: map<Category, seq<string>>, skipped: seq<string>)
    requires order0 == CategoryOrder(Queue(disk.Snap(), folder, done))
    requires groups0 == GroupMap(Queue(disk.Snap(), folder, done))
    requires skipped0 == Skipped(disk.Snap(), folder, done)
    ensures order == CategoryOrder(Queue(disk.Snap(), folder, done + [name]))
    ensures groups == GroupMap(Queue(disk.Snap(), folder, done + [name]))
    ensures skipped == Skipped(disk.Snap(), folder, done + [name])
  {
    assert (done + [name])[..|done|] == done;
    order, groups, skipped := order0, groups0, skipped0;
    var item := folder + [name];
    if item in disk.files {
      if ShouldSkip(name, item in disk.dirs) {
        skipped := skipped + [name];
      } else {
        var category := FileCategory(name);
        if category.Some? {
          var c := category.value;
          if c in groups {
            groups := groups[c := groups[c] + [name]];
          } else {
            groups := groups[c := [name]];
            order := order + [c];
          }
        }
      }
    }
  }

  /** `create_category_folders`: makes each missing category folder, in any order. */
  method CreateCategoryFolders(disk: Disk, folder: Path, categories: set<Category>)
    requires folder in disk.dirs
    modifies disk
    ensures disk.Snap() == WithCategoryFolders(old(disk.Snap()), folder, categories)
  {
    ghost var s0 := disk.Snap();
    var remaining := categories;
    while remaining != {}
      invariant remaining <= categories
      invariant folder in disk.dirs
      invariant disk.Snap() == WithCategoryFolders(s0, folder, categories - remaining)
      decreases remaining
    {
      var c :| c in remaining;
      var folderPath := folder + [FolderName(c)];
      ghost var before := disk.Snap();
      if folderPath !in disk.files && folderPath !in disk.dirs {
        assert Parent(folderPath) == folder;
        var _ := disk.Mkdir(folderPath);
      }
      var done := categories - (remaining - {c});
      assert done == (categories - remaining) + {c};
      assert NewFolders(s0, folder, done) == NewFolders(s0, folder, categories - remaining) +
        (if folderPath !in Existing(s0) then {folderPath} else {});
      remaining := remaining - {c};
    }
    assert categories - remaining == categories;
  }

  /** One turn of the inner moving loop, on the disk. */
  method MoveOneFile(disk: Disk, folder: Path, c: Category, name: string, moved0: nat, failed0: nat)
    returns (moved: nat, failed: nat)
    modifies disk
    ensures Outcome(disk.Snap(), moved, failed) == MoveOne(Outcome(old(disk.Snap()), moved0, failed0), folder, c, name)
  {
    var success, _ := MoveFileSafely(disk, folder + [name], Target(folder, c, name));
    moved, failed := moved0, failed0;
    if success {
      moved := moved + 1;
    } else {
      failed := failed + 1;
    }
  }

  /** The inner moving loop of `organize_folder`: the files of one category, in order. */
  method MoveGroup(disk: Disk, folder: Path, c: Category, files: seq<string>, moved0: nat, failed0: nat)
    returns (moved: nat, failed: nat)
    modifies disk
    ensures Outcome(disk.Snap(), moved, failed) == MoveNames(Outcome(old(disk.Snap()), moved0, failed0), folder, c, files)
  {
    moved, failed := moved0, failed0;
    ghost var start := Outcome(disk.Snap(), moved, failed);
    var j := 0;
    while j < |files|
      invariant 0 <= j <= |files|
      invariant Outcome(disk.Snap(), moved, failed) == MoveNames(start, folder, c, files[..j])
    {
      moved, failed := MoveOneFile(disk, folder, c, files[j], moved, failed);
      assert files[..j + 1][..j] == files[..j];
      j := j + 1;
    }
    assert files[..j] == files;
  }

  /** The outer moving loop of `organize_folder`: group after group, in key order. */
  method MoveAll(disk: Disk, folder: Path, order: seq<Category>, groups: map<Category, seq<string>>)
    returns (moved: nat, failed: nat)
    requires forall c :: c in order ==> c in groups
    modifies disk
    ensures Outcome(disk.Snap(), moved, failed) == MoveGroups(Outcome(old(disk.Snap()), 0, 0), folder, order, groups)
  {
    moved, failed := 0, 0;
    ghost var start := Outcome(disk.Snap(), 0, 0);
    var i := 0;
    while i < |order|
      invariant 0 <= i <= |order|
      invariant Outcome(disk.Snap(), moved, failed) == MoveGroups(start, folder, order[..i], groups)
    {
      moved, failed := MoveGroup(disk, folder, order[i], groups[order[i]], moved, failed);
      assert order[..i + 1][..i] == order[..i];
      i := i + 1;
    }
    assert order[..i] == order;
  }

  /**
   * `organize_folder` on `folder`, whose `iterdir` listing is `listing` and
   * whose confirmation prompt is answered by `confirmed`. It fails when the
   * folder is not a directory or the user declines, succeeds without change
   * when nothing is to be organized, and otherwise creates the category
   * folders and moves every queued file once, counting each as moved or failed.
   */
  method OrganizeFolder(disk: Disk, folder: Path, listing: seq<string>, confirmed: bool)
    returns (ok: bool, moved: nat, failed: nat)
    requires Wf(disk.Snap())
    modifies disk
    ensures Wf(disk.Snap()) && |disk.files| == |old(disk.files)|
    ensures var q := Queue(old(disk.Snap()), folder, listing);
      if folder !in old(disk.dirs) || q == [] || !confirmed then
        && ok == (folder in old(disk.dirs) && q == [])
        && disk.Snap() == old(disk.Snap()) && moved == failed == 0
      else
        var order := CategoryOrder(q);
        var start := WithCategoryFolders(old(disk.Snap()), folder, set c | c in order);
        && ok && moved + failed == |q|
        && Outcome(disk.Snap(), moved, failed) == MoveGroups(Outcome(start, 0, 0), folder, order, GroupMap(q))
  {
    if folder !in disk.dirs {
      return false, 0, 0;
    }
    ghost var q := Queue(disk.Snap(), folder, listing);
    var order, groups, skipped := CollectFiles(disk, folder, listing);
    MovingOrderLength(q);
    CategoryOrderFacts(q);
    if groups == map[] {
      assert order == [];
      return true, 0, 0;
    }
    if !confirmed {
      return false, 0, 0;
    }
    CreateCategoryFolders(disk, folder, set c | c in order);
    moved, failed := MoveAll(disk, folder, order, groups);
    return true, moved, failed;
  }
}
