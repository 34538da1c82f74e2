/**
 * The photo sorter: every supported photo below a source directory goes to
 * `destination/YYYY/MM/DD/`, dated by its EXIF tags when they carry a
 * readable date and by its modification time otherwise; it is moved, copied,
 * or (in a dry run) only routed, and the run keeps six counters.
 */
module PhotoSorter {
  import opened Wrappers
  import opened Text
  import opened Dates
  import opened Naming
  import opened ModelFs

  // ---------------------------------------------------------------- dating a photo

  /** An EXIF entry as PIL decodes it: its tag name and its value. */
  datatype Tag = Tag(name: string, value: string)

  /**
   * What the sorter reads from a photo: PIL's EXIF entries in iteration order
   * (`None` when PIL cannot open the image or it has no EXIF block), the tags
   * exifread finds (`None` when it cannot read the file), and the
   * modification time.
   */
  datatype PhotoMeta = PhotoMeta(pilTags: Option<seq<Tag>>, exifreadTags: Option<map<string, string>>, mtime: ValidDateTime)

  datatype DateSource = Exif | FileModified

  predicate IsDateTag(name: string) {
    name == "DateTimeOriginal" || name == "DateTime"
  }

  /** The value of the first entry PIL lists under either date tag. */
  function FirstDateTag(tags: seq<Tag>): (r: Option<string>)
    ensures r.None? <==> forall i :: 0 <= i < |tags| ==> !IsDateTag(tags[i].name)
    ensures r.Some? ==> exists i :: 0 <= i < |tags| && IsDateTag(tags[i].name) && r.value == tags[i].value
                                   && forall j :: 0 <= j < i ==> !IsDateTag(tags[j].name)
  {
    if tags == [] then None
    else if IsDateTag(tags[0].name) then Some(tags[0].value)
    else
      var r := FirstDateTag(tags[1..]);
      assert forall i :: 0 < i < |tags| ==> tags[i] == tags[1..][i - 1];
      r
  }

  /**
   * The PIL attempt of `get_exif_date`: the first date entry, read with the
   * EXIF layout. `None` means the attempt gave up and exifread is tried.
   */
  function PilDate(tags: Option<seq<Tag>>): Option<DateTime>
  {
    if tags.None? then None
    else
      match FirstDateTag(tags.value)
      case None => None
      case Some(v) => Strptime(ExifLayout, v)
  }

  /**
   * The exifread attempt: `EXIF DateTimeOriginal` when present — and then
   * only it, readable or not — else `Image DateTime`, else nothing.
   */
  function ExifreadDate(tags: Option<map<string, string>>): (r: Option<DateTime>)
    ensures r.Some? ==> tags.Some? && ("EXIF DateTimeOriginal" in tags.value || "Image DateTime" in tags.value)
    ensures tags.Some? && "EXIF DateTimeOriginal" in tags.value ==>
      r == Strptime(ExifLayout, tags.value["EXIF DateTimeOriginal"])
  {
    if tags.None? then None
    else if "EXIF DateTimeOriginal" in tags.value then Strptime(ExifLayout, tags.value["EXIF DateTimeOriginal"])
    else if "Image DateTime" in tags.value then Strptime(ExifLayout, tags.value["Image DateTime"])
    else None
  }

  /** `get_exif_date`: PIL first; when PIL gives up, exifread. */
  function ExifDate(meta: PhotoMeta): (r: Option<DateTime>)
    ensures r.Some? ==> Valid(r.value)
  {
    match PilDate(meta.pilTags)
    case Some(dt) => Some(dt)
    case None => ExifreadDate(meta.exifreadTags)
  }

  /** `get_photo_date`: the EXIF date when there is one, otherwise the modification time. */
  function PhotoDate(meta: PhotoMeta): (r: (ValidDateTime, DateSource))
    ensures r.1 == Exif <==> ExifDate(meta).Some?
    ensures r.1 == Exif ==> r.0 == ExifDate(meta).value
    ensures r.1 == FileModified ==> r.0 == meta.mtime
  {
    match ExifDate(meta)
    case Some(dt) => (dt, Exif)
    case None => (meta.mtime, FileModified)
  }

  /** `get_photo_date` for every listed path. */
  function Dating(meta: Path -> PhotoMeta): Path -> (ValidDateTime, DateSource) {
    p => PhotoDate(meta(p))
  }

  /** A date PIL lists first is read back exactly, whatever exifread holds. */
  lemma PilDateWins(meta: PhotoMeta, dt: DateTime)
    requires Valid(dt)
    requires meta.pilTags.Some? && FirstDateTag(meta.pilTags.value) == Some(Strftime(ExifLayout, dt))
    ensures PhotoDate(meta) == (dt, Exif)
  {
    ExifLayoutComplete(dt);
    ExifLayoutDistinct();
    StrptimeStrftime(ExifLayout, dt);
  }

  /** An unreadable PIL date falls through to exifread. */
  lemma PilFailureFallsThrough(meta: PhotoMeta)
    requires meta.pilTags.Some? && FirstDateTag(meta.pilTags.value).Some?
    requires Strptime(ExifLayout, FirstDateTag(meta.pilTags.value).value).None?
    ensures ExifDate(meta) == ExifreadDate(meta.exifreadTags)
  {
  }

  /**
   * In exifread's tags `EXIF DateTimeOriginal` wins over `Image DateTime`, and
   * an unreadable `EXIF DateTimeOriginal` gives no date even when
   * `Image DateTime` is readable.
   */
  lemma ExifreadNoFallback(tags: map<string, string>, dt: DateTime)
    requires "EXIF DateTimeOriginal" in tags && "Image DateTime" in tags
    requires Valid(dt) && tags["Image DateTime"] == Strftime(ExifLayout, dt)
    requires Strptime(ExifLayout, tags["EXIF DateTimeOriginal"]).None?
    ensures ExifreadDate(Some(tags)) == None
    ensures ExifreadDate(Some(tags - {"EXIF DateTimeOriginal"})) == Some(dt)
  {
    var rest := tags - {"EXIF DateTimeOriginal"};
    assert "EXIF DateTimeOriginal" !in rest && rest["Image DateTime"] == Strftime(ExifLayout, dt);
    ExifLayoutComplete(dt);
    ExifLayoutDistinct();
    StrptimeStrftime(ExifLayout, dt);
  }

  // ---------------------------------------------------------------- routing

  /** `create_date_path`'s folder: `base/YYYY/MM/DD`, zero-padded. */
  function DatePath(base: Path, dt: ValidDateTime): (p: Path)
    ensures |p| == |base| + 3 && p[..|base|] == base
    ensures |p[|base|]| == 4 && |p[|base| + 1]| == 2 && |p[|base| + 2]| == 2
    ensures AllDigits(p[|base|]) && AllDigits(p[|base| + 1]) && AllDigits(p[|base| + 2])
  {
    base + [Pad(dt.year, 4), Pad(dt.month, 2), Pad(dt.day, 2)]
  }

  /** The folder names read back as the year, month and day: two dates share a folder exactly when they share a day. */
  lemma DatePathReadsBack(base: Path, dt: ValidDateTime)
    ensures var p := DatePath(base, dt);
      DigitsValue(p[|base|]) == dt.year && DigitsValue(p[|base| + 1]) == dt.month
      && DigitsValue(p[|base| + 2]) == dt.day
  {
    assert Pow10(2) == 100 && Pow10(4) == 10000;
    PadValue(dt.year, 4);
    PadValue(dt.month, 2);
    PadValue(dt.day, 2);
  }

  lemma DatePathInjective(base: Path, a: ValidDateTime, b: ValidDateTime)
    ensures DatePath(base, a) == DatePath(base, b) <==> a.year == b.year && a.month == b.month && a.day == b.day
  {
    DatePathReadsBack(base, a);
    DatePathReadsBack(base, b);
    if DatePath(base, a) == DatePath(base, b) {
      assert DatePath(base, a)[|base|] == DatePath(base, b)[|base|];
      assert DatePath(base, a)[|base| + 1] == DatePath(base, b)[|base| + 1];
      assert DatePath(base, a)[|base| + 2] == DatePath(base, b)[|base| + 2];
    }
  }

  /** 7 March 2024 goes to `base/2024/03/07`, whatever the time of day. */
  lemma DatePathExample(base: Path, hour: int)
    requires 0 <= hour <= 23
    ensures DatePath(base, DateTime(2024, 3, 7, hour, 0, 0)) == base + ["2024", "03", "07"]
  {
    assert Pad(2024, 4) == "2024";
    assert Pad(3, 2) == "03";
    assert Pad(7, 2) == "07";
  }

  const SupportedExtensions: set<string> := {".jpg", ".jpeg", ".raf", ".JPG", ".JPEG", ".RAF"}

  /** `is_supported_format`: the suffix, compared case-sensitively. */
  predicate IsSupportedFormat(name: string) {
    Suffix(name) in SupportedExtensions
  }

  /** Each listed suffix is a dot followed by letters only. */
  lemma SupportedShape(ext: string)
    requires ext in SupportedExtensions
    ensures |ext| >= 2 && ext[0] == '.' && '.' !in ext[1..]
  {
    if ext == ".jpg" {
    } else if ext == ".jpeg" {
    } else if ext == ".raf" {
    } else if ext == ".JPG" {
    } else if ext == ".JPEG" {
    } else {
      assert ext == ".RAF";
    }
  }

  /** A name is supported exactly when it is a non-empty stem followed by one of the six listed suffixes. */
  lemma SupportedFormatExactly(name: string)
    ensures IsSupportedFormat(name) <==>
      exists stem, ext :: ext in SupportedExtensions && |stem| >= 1 && name == stem + ext
  {
    if IsSupportedFormat(name) {
      var stem, ext := Stem(name), Suffix(name);
      assert ext != [];
      assert name == stem + ext;
    }
    if exists stem, ext :: ext in SupportedExtensions && |stem| >= 1 && name == stem + ext {
      var stem, ext :| ext in SupportedExtensions && |stem| >= 1 && name == stem + ext;
      SupportedShape(ext);
      SplitName(stem, ext);
    }
  }

  /** An upper-case `.JPG` is one of the listed suffixes. */
  lemma UpperCaseAccepted()
    ensures IsSupportedFormat("a.JPG")
  {
    SplitName("a", ".JPG");
    assert "a" + ".JPG" == "a.JPG";
  }

  /** Matching is case-sensitive: `.Jpg` is refused although it lowers to `.jpg`. */
  lemma MixedCaseRefused()
    ensures !IsSupportedFormat("a.Jpg")
  {
    SplitName("a", ".Jpg");
    assert "a" + ".Jpg" == "a.Jpg";
    assert ".Jpg" !in SupportedExtensions;
  }

  /** A name that is only `.jpg` has no suffix at all, so it is refused. */
  lemma HiddenNameRefused()
    ensures !IsSupportedFormat(".jpg")
  {
    SuffixEmpty(".jpg");
  }

  // ---------------------------------------------------------------- one photo, one run

  datatype Stats = Stats(totalFiles: nat, processed: nat, skipped: nat, exifUsed: nat, fileDateUsed: nat, errors: nat)

  const NoStats := Stats(0, 0, 0, 0, 0, 0)

  /**
   * What the counters always satisfy: every supported file counted either as
   * processed or as an error, after exactly one date-source count; at most
   * one count per file found; and `skipped` never incremented.
   */
  ghost predicate Consistent(st: Stats) {
    && st.processed + st.errors == st.exifUsed + st.fileDateUsed
    && st.processed + st.errors <= st.totalFiles
    && st.skipped == 0
  }

  /** The mode of a run: `copy_files` and `dry_run`. */
  datatype Mode = Mode(copyFiles: bool, dryRun: bool)

  datatype Run = Run(snap: Snapshot, stats: Stats)

  /** Where a photo named `name` dated `dt` goes: its own name in the date folder, or the first free `stem_k` name. */
  function Destination(s: Snapshot, dest: Path, dt: ValidDateTime, name: string): (target: Path)
    ensures target !in Existing(s)
    ensures |target| > 0 && Parent(target) == DatePath(dest, dt)
  {
    Resolve(Existing(s), DatePath(dest, dt) + [name])
  }

  /**
   * After a supported file `p` is dated `date`: `create_date_path`, then the
   * copy or move to the free destination, or nothing in a dry run. `None`
   * when the date folder cannot be created; the copy or move itself cannot
   * fail, since `p` exists and the destination is free in an existing folder.
   */
  function Place(s: Snapshot, dest: Path, date: ValidDateTime, p: Path, mode: Mode): (r: Option<Snapshot>)
    requires Wf(s) && p in s.files
    ensures r.None? <==> MakeDirsStep(s, DatePath(dest, date)).None?
    ensures r.Some? ==> Wf(r.value) && s.dirs <= r.value.dirs
    ensures r.Some? ==> DatePath(dest, date) in r.value.dirs
  {
    var folder := DatePath(dest, date);
    match MakeDirsStep(s, folder)
    case None => None
    case Some(s1) =>
      assert folder[..|folder|] == folder;
      var target := Destination(s1, dest, date, Name(p));
      if mode.dryRun then Some(s1)
      else if mode.copyFiles then CopyStep(s1, p, target)
      else MoveStep(s1, p, target)
  }

  /**
   * A dry run leaves every file as it was, but still creates the date
   * folder: `create_date_path` runs before the `dry_run` test.
   */
  lemma PlaceDryRun(s: Snapshot, dest: Path, date: ValidDateTime, p: Path, mode: Mode)
    requires Wf(s) && p in s.files && mode.dryRun && Place(s, dest, date, p, mode).Some?
    ensures var t := Place(s, dest, date, p, mode).value;
      && t.files == s.files
      && t == MakeDirsStep(s, DatePath(dest, date)).value
      && DatePath(dest, date) in t.dirs
  {
  }

  /** A copy keeps every file and adds one; the copy holds the photo's contents and sits in its date folder. */
  lemma PlaceCopy(s: Snapshot, dest: Path, date: ValidDateTime, p: Path, mode: Mode)
    requires Wf(s) && p in s.files && !mode.dryRun && mode.copyFiles && Place(s, dest, date, p, mode).Some?
    ensures var t := Place(s, dest, date, p, mode).value;
      && |t.files| == |s.files| + 1
      && (forall q :: q in s.files ==> q in t.files && t.files[q] == s.files[q])
      && exists q :: q in t.files && q !in s.files && Parent(q) == DatePath(dest, date) && t.files[q] == s.files[p]
  {
    var s1 := MakeDirsStep(s, DatePath(dest, date)).value;
    var target := Destination(s1, dest, date, Name(p));
    CopyAddsOne(s1, p, target);
  }

  /** A move keeps the number of files: the photo leaves its place for a free name in its date folder. */
  lemma PlaceMove(s: Snapshot, dest: Path, date: ValidDateTime, p: Path, mode: Mode)
    requires Wf(s) && p in s.files && !mode.dryRun && !mode.copyFiles && Place(s, dest, date, p, mode).Some?
    ensures var t := Place(s, dest, date, p, mode).value;
      && |t.files| == |s.files|
      && p !in t.files
      && exists q :: q in t.files && q !in s.files && Parent(q) == DatePath(dest, date) && t.files[q] == s.files[p]
  {
    var s1 := MakeDirsStep(s, DatePath(dest, date)).value;
    var target := Destination(s1, dest, date, Name(p));
    MoveKeepsCount(s1, p, target);
  }

  /** The counters after one more file was found. */
  function CountFile(st: Stats): Stats {
    st.(totalFiles := st.totalFiles + 1)
  }

  /** The counters after one supported file was dated from `source`. */
  function CountSource(st: Stats, source: DateSource): Stats {
    if source == Exif then st.(exifUsed := st.exifUsed + 1) else st.(fileDateUsed := st.fileDateUsed + 1)
  }

  /**
   * One turn of the `organize_photos` loop for the listed path `p`. Paths
   * that are not files are passed over; unsupported files are only counted;
   * a supported file is dated, counted by date source, and placed; a date
   * folder that cannot be created makes it an error.
   */
  function ProcessPhoto(run: Run, dest: Path, dating: Path -> (ValidDateTime, DateSource), mode: Mode, p: Path): (r: Run)
    requires Wf(run.snap)
    ensures Wf(r.snap) && run.snap.dirs <= r.snap.dirs
  {
    if p !in run.snap.files then run
    else SortFile(Run(run.snap, CountFile(run.stats)), dest, dating, mode, p)
  }

  /** A listed file, once counted: an unsupported one stays as it is; a supported one is dated, placed and tallied. */
  function SortFile(run: Run, dest: Path, dating: Path -> (ValidDateTime, DateSource), mode: Mode, p: Path): (r: Run)
    requires Wf(run.snap) && p in run.snap.files
    ensures Wf(r.snap) && run.snap.dirs <= r.snap.dirs
  {
    if !IsSupportedFormat(Name(p)) then run
    else Tally(run, dating(p).1, Place(run.snap, dest, dating(p).0, p, mode))
  }

  /**
   * The counts for a supported file dated from `source` whose placing gave
   * `placed`: one date-source count, then processed when it was placed and
   * an error, with the files as they were, when it was not.
   */
  function Tally(run: Run, source: DateSource, placed: Option<Snapshot>): (r: Run)
    requires Wf(run.snap) && (placed.Some? ==> Wf(placed.value) && run.snap.dirs <= placed.value.dirs)
    ensures Wf(r.snap) && run.snap.dirs <= r.snap.dirs
  {
    var st := CountSource(run.stats, source);
    match placed
    case None => Run(run.snap, st.(errors := st.errors + 1))
    case Some(t) => Run(t, st.(processed := st.processed + 1))
  }

  /**
   * The counters of one turn: `total_files` counts every file, each
   * supported file adds one to exactly one of `processed` and `errors` and
   * to exactly one date source, and the rest stay.
   */
  lemma ProcessPhotoCounts(run: Run, dest: Path, dating: Path -> (ValidDateTime, DateSource), mode: Mode, p: Path)
    requires Wf(run.snap)
    ensures var r := ProcessPhoto(run, dest, dating, mode, p);
      var supported := p in run.snap.files && IsSupportedFormat(Name(p));
      && r.stats.totalFiles == run.stats.totalFiles + (if p in run.snap.files then 1 else 0)
      && r.stats.processed + r.stats.errors == run.stats.processed + run.stats.errors + (if supported then 1 else 0)
      && r.stats.exifUsed + r.stats.fileDateUsed == run.stats.exifUsed + run.stats.fileDateUsed + (if supported then 1 else 0)
      && r.stats.processed >= run.stats.processed && r.stats.errors >= run.stats.errors
      && r.stats.exifUsed >= run.stats.exifUsed && r.stats.fileDateUsed >= run.stats.fileDateUsed
      && r.stats.skipped == run.stats.skipped
  {
  }

  /** A supported file is an error exactly when some level of its date folder is an existing file. */
  lemma ErrorOnlyWhenFolderBlocked(run: Run, dest: Path, dating: Path -> (ValidDateTime, DateSource), mode: Mode, p: Path)
    requires Wf(run.snap) && p in run.snap.files && IsSupportedFormat(Name(p))
    ensures var folder := DatePath(dest, dating(p).0);
      ProcessPhoto(run, dest, dating, mode, p).stats.errors == run.stats.errors + 1 <==>
      exists i :: 0 <= i <= |folder| && folder[..i] in run.snap.files
  {
  }

  /** The file effects of one turn, by mode. */
  lemma ProcessPhotoFiles(run: Run, dest: Path, dating: Path -> (ValidDateTime, DateSource), mode: Mode, p: Path)
    requires Wf(run.snap)
    ensures var r := ProcessPhoto(run, dest, dating, mode, p);
      && (mode.dryRun ==> r.snap.files == run.snap.files)
      && (!mode.dryRun && mode.copyFiles ==>
           && |r.snap.files| == |run.snap.files| + (r.stats.processed - run.stats.processed)
           && forall q :: q in run.snap.files ==> q in r.snap.files && r.snap.files[q] == run.snap.files[q])
      && (!mode.dryRun && !mode.copyFiles ==> |r.snap.files| == |run.snap.files|)
      && (p in run.snap.files && IsSupportedFormat(Name(p)) && r.stats.errors == run.stats.errors ==>
           DatePath(dest, dating(p).0) in r.snap.dirs)
  {
    var r := ProcessPhoto(run, dest, dating, mode, p);
    ProcessPhotoCounts(run, dest, dating, mode, p);
    if p in run.snap.files && IsSupportedFormat(Name(p)) {
      var date := dating(p).0;
      if Place(run.snap, dest, date, p, mode).Some? {
        if mode.dryRun {
          PlaceDryRun(run.snap, dest, date, p, mode);
        } else if mode.copyFiles {
          PlaceCopy(run.snap, dest, date, p, mode);
        } else {
          PlaceMove(run.snap, dest, date, p, mode);
        }
      }
    }
  }

  /** The whole loop over the listing, in order. */
  function ProcessAll(run: Run, dest: Path, dating: Path -> (ValidDateTime, DateSource), mode: Mode, listing: seq<Path>): (r: Run)
    requires Wf(run.snap)
    ensures Wf(r.snap) && run.snap.dirs <= r.snap.dirs
  {
    if listing == [] then run
    else
      var mid := ProcessAll(run, dest, dating, mode, listing[..|listing| - 1]);
      ProcessPhoto(mid, dest, dating, mode, listing[|listing| - 1])
  }

  /** The counters stay consistent over a whole run, and at most one file is counted per listed path. */
  lemma {:induction false} ProcessAllCounts(run: Run, dest: Path, dating: Path -> (ValidDateTime, DateSource), mode: Mode, listing: seq<Path>)
    requires Wf(run.snap) && Consistent(run.stats)
    ensures var r := ProcessAll(run, dest, dating, mode, listing);
      Consistent(r.stats) && r.stats.totalFiles <= run.stats.totalFiles + |listing|
      && r.stats.processed >= run.stats.processed
  {
    if listing != [] {
      var init := listing[..|listing| - 1];
      ProcessAllCounts(run, dest, dating, mode, init);
      ProcessPhotoCounts(ProcessAll(run, dest, dating, mode, init), dest, dating, mode, listing[|listing| - 1]);
    }
  }

  /**
   * The file effects of a whole run: a dry run changes no file; a copying
   * run keeps every file and adds one per processed photo; a moving run keeps
   * the number of files.
   */
  lemma {:induction false} ProcessAllFiles(run: Run, dest: Path, dating: Path -> (ValidDateTime, DateSource), mode: Mode, listing: seq<Path>)
    requires Wf(run.snap)
    ensures var r := ProcessAll(run, dest, dating, mode, listing);
      && (mode.dryRun ==> r.snap.files == run.snap.files)
      && (!mode.dryRun && mode.copyFiles ==>
           && r.stats.processed >= run.stats.processed
           && |r.snap.files| == |run.snap.files| + (r.stats.processed - run.stats.processed)
           && forall q :: q in run.snap.files ==> q in r.snap.files && r.snap.files[q] == run.snap.files[q])
      && (!mode.dryRun && !mode.copyFiles ==> |r.snap.files| == |run.snap.files|)
  {
    if listing != [] {
      var init := listing[..|listing| - 1];
      var mid := ProcessAll(run, dest, dating, mode, init);
      ProcessAllFiles(run, dest, dating, mode, init);
      ProcessPhotoFiles(mid, dest, dating, mode, listing[|listing| - 1]);
      ProcessPhotoCounts(mid, dest, dating, mode, listing[|listing| - 1]);
      ProcessAllCountersGrow(run, dest, dating, mode, init);
    }
  }

  /** No counter ever goes down over a run. */
  lemma {:induction false} ProcessAllCountersGrow(run: Run, dest: Path, dating: Path -> (ValidDateTime, DateSource), mode: Mode, listing: seq<Path>)
    requires Wf(run.snap)
    ensures var r := ProcessAll(run, dest, dating, mode, listing);
      && r.stats.totalFiles >= run.stats.totalFiles
      && r.stats.processed >= run.stats.processed && r.stats.errors >= run.stats.errors
      && r.stats.exifUsed >= run.stats.exifUsed && r.stats.fileDateUsed >= run.stats.fileDateUsed
  {
    if listing != [] {
      var init := listing[..|listing| - 1];
      ProcessAllCountersGrow(run, dest, dating, mode, init);
      ProcessPhotoCounts(ProcessAll(run, dest, dating, mode, init), dest, dating, mode, listing[|listing| - 1]);
    }
  }

  /** One dry-run turn: no file changes, no directory or error is lost, and a photo placed without error has its date folder. */
  lemma DryRunTurn(run: Run, dest: Path, dating: Path -> (ValidDateTime, DateSource), mode: Mode, p: Path)
    requires Wf(run.snap) && mode.dryRun
    ensures var r := ProcessPhoto(run, dest, dating, mode, p);
      && r.snap.files == run.snap.files && run.snap.dirs <= r.snap.dirs && r.stats.errors >= run.stats.errors
      && (p in run.snap.files && IsSupportedFormat(Name(p)) && r.stats.errors == run.stats.errors ==>
           DatePath(dest, dating(p).0) in r.snap.dirs)
  {
    ProcessPhotoCounts(run, dest, dating, mode, p);
    ProcessPhotoFiles(run, dest, dating, mode, p);
  }

  /**
   * A dry run moves no file but leaves the date folders behind: after a run
   * without errors, every listed supported photo has its `YYYY/MM/DD`
   * folder under the destination.
   */
  lemma {:induction false} DryRunLeavesDateFolders(run: Run, dest: Path, dating: Path -> (ValidDateTime, DateSource), mode: Mode, listing: seq<Path>)
    requires Wf(run.snap) && mode.dryRun
    ensures var r := ProcessAll(run, dest, dating, mode, listing);
      && r.snap.files == run.snap.files && r.stats.errors >= run.stats.errors
      && (r.stats.errors == run.stats.errors ==>
          forall k :: 0 <= k < |listing| && listing[k] in run.snap.files && IsSupportedFormat(Name(listing[k])) ==>
            DatePath(dest, dating(listing[k]).0) in r.snap.dirs)
  {
    if listing != [] {
      var init, p := listing[..|listing| - 1], listing[|listing| - 1];
      var mid := ProcessAll(run, dest, dating, mode, init);
      var r := ProcessAll(run, dest, dating, mode, listing);
      DryRunLeavesDateFolders(run, dest, dating, mode, init);
      DryRunTurn(mid, dest, dating, mode, p);
      assert r == ProcessPhoto(mid, dest, dating, mode, p);
      if r.stats.errors == run.stats.errors {
        forall k | 0 <= k < |listing| && listing[k] in run.snap.files && IsSupportedFormat(Name(listing[k]))
          ensures DatePath(dest, dating(listing[k]).0) in r.snap.dirs
        {
          if k < |init| {
            assert listing[k] == init[k];
          } else {
            assert k == |listing| - 1;
          }
        }
      }
    }
  }

  // ---------------------------------------------------------------- the loop in place

  /** `create_date_path`, the collision loop, then the copy or move, on the disk. */
  method PlaceOnDisk(disk: Disk, dest: Path, date: ValidDateTime, p: Path, mode: Mode) returns (ok: bool)
    requires Wf(disk.Snap()) && p in disk.files
    modifies disk
    ensures var r := Place(old(disk.Snap()), dest, date, p, mode);
      ok == r.Some? && disk.Snap() == (if ok then r.value else old(disk.Snap()))
  {
    var dateFolder := DatePath(dest, date);
    ok := disk.MakeDirs(dateFolder);
    if !ok {
      return;
    }
    var destFilePath := ProbeFreeName(Existing(disk.Snap()), dateFolder + [Name(p)]);
    if !mode.dryRun {
      if mode.copyFiles {
        ok := disk.Copy(p, destFilePath);
      } else {
        ok := disk.Move(p, destFilePath);
      }
    }
  }

  /** The placing of a supported file dated `dated`, and its counts, on the disk. */
  method TallyOnDisk(disk: Disk, dest: Path, dated: (ValidDateTime, DateSource), p: Path, mode: Mode, stats0: Stats)
    returns (stats: Stats)
    requires Wf(disk.Snap()) && p in disk.files
    modifies disk
    ensures disk.Snap() == Tally(Run(old(disk.Snap()), stats0), dated.1, Place(old(disk.Snap()), dest, dated.0, p, mode)).snap
    ensures stats == Tally(Run(old(disk.Snap()), stats0), dated.1, Place(old(disk.Snap()), dest, dated.0, p, mode)).stats
  {
    var ok := PlaceOnDisk(disk, dest, dated.0, p, mode);
    stats := CountSource(stats0, dated.1);
    if ok {
      stats := stats.(processed := stats.processed + 1);
    } else {
      stats := stats.(errors := stats.errors + 1);
    }
  }

  /** A counted listed file, sorted on the disk. */
  method SortFileOnDisk(disk: Disk, dest: Path, dating: Path -> (ValidDateTime, DateSource), mode: Mode, p: Path, stats0: Stats)
    returns (stats: Stats)
    requires Wf(disk.Snap()) && p in disk.files
    modifies disk
    ensures disk.Snap() == SortFile(Run(old(disk.Snap()), stats0), dest, dating, mode, p).snap
    ensures stats == SortFile(Run(old(disk.Snap()), stats0), dest, dating, mode, p).stats
  {
    stats := stats0;
    if IsSupportedFormat(Name(p)) {
      stats := TallyOnDisk(disk, dest, dating(p), p, mode, stats);
    }
  }

  /** One turn of the loop, on the disk. */
  method ProcessPhotoOnDisk(disk: Disk, dest: Path, dating: Path -> (ValidDateTime, DateSource), mode: Mode, p: Path, stats0: Stats)
    returns (stats: Stats)
    requires Wf(disk.Snap())
    modifies disk
    ensures disk.Snap() == ProcessPhoto(Run(old(disk.Snap()), stats0), dest, dating, mode, p).snap
    ensures stats == ProcessPhoto(Run(old(disk.Snap()), stats0), dest, dating, mode, p).stats
  {
    stats := stats0;
    if p in disk.files {
      stats := SortFileOnDisk(disk, dest, dating, mode, p, CountFile(stats0));
    }
  }

  /**
   * `organize_photos` from `source` into `dest`, over the paths `listing`
   * that `rglob('*')` yields below `source`. `None` when the source does not
   * exist (the run stops) or `dest` cannot be created (the run fails);
   * otherwise the counters after the loop, with the filesystem as the loop
   * leaves it.
   */
  method OrganizePhotos(disk: Disk, source: Path, dest: Path, listing: seq<Path>, meta: Path -> PhotoMeta, mode: Mode)
    returns (stats: Option<Stats>)
    requires Wf(disk.Snap())
    modifies disk
    ensures Wf(disk.Snap())
    ensures source !in Existing(old(disk.Snap())) || MakeDirsStep(old(disk.Snap()), dest).None? ==>
      stats.None? && disk.Snap() == old(disk.Snap())
    ensures source in Existing(old(disk.Snap())) && MakeDirsStep(old(disk.Snap()), dest).Some? ==>
      && stats.Some? && Consistent(stats.value)
      && Run(disk.Snap(), stats.value) ==
         ProcessAll(Run(MakeDirsStep(old(disk.Snap()), dest).value, NoStats), dest, Dating(meta), mode, listing)
  {
    if source !in disk.files && source !in disk.dirs {
      return None;
    }
    var created := disk.MakeDirs(dest);
    if !created {
      return None;
    }
    ghost var start := Run(disk.Snap(), NoStats);
    var st := NoStats;
    var i := 0;
    while i < |listing|
      invariant 0 <= i <= |listing|
      invariant Wf(disk.Snap())
      invariant Run(disk.Snap(), st) == ProcessAll(start, dest, Dating(meta), mode, listing[..i])
    {
      st := ProcessPhotoOnDisk(disk, dest, Dating(meta), mode, listing[i], st);
      assert listing[..i + 1][..i] == listing[..i];
      i := i + 1;
    }
    assert listing[..i] == listing;
    ProcessAllCounts(start, dest, Dating(meta), mode, listing);
    return Some(st);
  }
}
