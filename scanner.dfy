/** The repository scanner of scan_files.py: which paths it skips, which files it counts as
    relevant, the walk over a directory tree that collects folders and files, and the
    report it writes. The directory tree and the file contents are given as values. */
module Scanner {
  import opened Strings
  import opened Paths
  import Sorting

  /** Directory names that are always skipped. */
  const SkipFolders: set<string> := {"node_modules", ".git", "dist", "build", "__pycache__", "coverage", "test"}
  const RelevantExtensions: set<string> :=
    {".py", ".js", ".jsx", ".ts", ".tsx", ".json", ".env", ".md", ".txt", ".html", ".css", ".sh"}
  /** File-name endings that are never relevant, compared case-sensitively. */
  const ExcludedPatterns: set<string> :=
    {"min.js", "bundle.js", "compiled.js", ".lock", "package.json", "package-lock.json", "yarn.lock"}
  /** A path is kept only if one of its components is one of these. */
  const AllowedDirectories: set<string> := {"backend", "frontend"}

  /** `should_skip_path`: a path is skipped when one of its components is a skipped
      folder, or when none is an allowed directory. */
  predicate ShouldSkipPath(relPath: string) {
    var parts := Parts(relPath);
    if exists part :: part in parts && part in SkipFolders then true
    else !exists part :: part in parts && part in AllowedDirectories
  }

  /** A path is kept exactly when one of its components is an allowed directory and none
      is a skipped folder. */
  lemma KeptPaths(relPath: string)
    ensures !ShouldSkipPath(relPath) <==>
      (exists part :: part in Parts(relPath) && part in AllowedDirectories) &&
      (forall part :: part in Parts(relPath) ==> part !in SkipFolders)
  {
  }

  /** `is_relevant_file`: the file is relevant when the lower-cased extension of its name
      is a relevant one and its name ends with none of the excluded patterns. */
  predicate IsRelevantFile(filepath: string) {
    var filename := Basename(filepath);
    var ext := Extension(filename);
    if Lower(ext) !in RelevantExtensions then false
    else !exists pat :: pat in ExcludedPatterns && EndsWith(filename, pat)
  }

  /** Relevance is decided by the lower-cased extension of the name and the excluded
      endings of the name. */
  lemma RelevantFiles(filepath: string)
    ensures IsRelevantFile(filepath) <==>
      Lower(Extension(Basename(filepath))) in RelevantExtensions &&
      forall pat :: pat in ExcludedPatterns ==> !EndsWith(Basename(filepath), pat)
  {
  }

  // ----- path components under join -----

  /** A skipped folder among the components of a directory is inherited by every path
      joined onto it. */
  lemma SkipInherited(a: string, name: string)
    requires a != [] && name != [] && name[0] != Sep
    requires exists part :: part in Parts(a) && part in SkipFolders
    ensures ShouldSkipPath(Join(a, name))
  {
    if a[|a| - 1] == Sep {
      var part :| part in Parts(a) && part in SkipFolders;
      PartsOfJoinAfterSep(a, name);
      assert part != [];
      assert part in Parts(Join(a, name));
    } else {
      PartsOfJoin(a, name);
    }
  }

  /** A name joined onto a kept directory is kept unless the name itself is a skipped folder. */
  lemma KeptInherited(a: string, name: string)
    requires a != [] && a[|a| - 1] != Sep && name != [] && Sep !in name
    requires !ShouldSkipPath(a) && name !in SkipFolders
    ensures !ShouldSkipPath(Join(a, name))
  {
    PartsOfJoin(a, name);
    PartsOfName(name);
  }

  /** Whether a file is relevant depends only on its name, not on the directory. */
  lemma RelevanceByName(dir: string, name: string)
    requires name != [] && Sep !in name
    ensures IsRelevantFile(Join(dir, name)) == IsRelevantFile(name)
  {
    BasenameOfJoin(dir, name);
    BasenameOfJoin([], name);
  }

  // ----- consequences of the filters on particular names -----

  /** A file named `.env` has no extension, since a leading dot does not start one, so it is
      not relevant although `.env` is among the relevant extensions. */
  lemma DotEnvIsNotRelevant()
    ensures Extension(".env") == []
    ensures !IsRelevantFile(".env")
  {
    var name := ".env";
    assert name[0] == ExtSep && name[1] != ExtSep && name[2] != ExtSep && name[3] != ExtSep;
    assert LastIndexOf(name, Sep) == -1;
    assert LastIndexOf(name, ExtSep) == 0;
    assert Basename(".env") == ".env";
    NoExtensionIsIrrelevant(".env");
  }

  /** The extension is compared lower-cased, the excluded patterns are not. */
  lemma UpperCaseExtensionIsRelevant()
    ensures IsRelevantFile("App.JS")
  {
    UpperCaseName();
    LowerJs();
    JsIsRelevantExtension();
    PatternsEndInLowerCase();
    forall pat | pat in ExcludedPatterns ensures !EndsWith("App.JS", pat) {
      DifferentLastChar("App.JS", pat);
    }
  }

  lemma LowerJs()
    ensures Lower(".JS") == ".js"
  {
  }

  lemma JsIsRelevantExtension()
    ensures ".js" in RelevantExtensions
  {
  }

  lemma UpperCaseName()
    ensures Basename("App.JS") == "App.JS" && Extension("App.JS") == ".JS"
  {
    var name := "App.JS";
    assert name[0] == 'A' && name[1] == 'p' && name[2] == 'p' && name[3] == ExtSep && name[4] == 'J' && name[5] == 'S';
    assert LastIndexOf(name, Sep) == -1;
    assert LastIndexOf(name, ExtSep) == 3;
  }

  lemma PatternsEndInLowerCase()
    ensures forall pat :: pat in ExcludedPatterns ==> pat != [] && 'a' <= pat[|pat| - 1] <= 'z'
  {
  }

  lemma DifferentLastChar(s: string, suffix: string)
    requires s != [] && suffix != [] && s[|s| - 1] != suffix[|suffix| - 1]
    ensures !EndsWith(s, suffix)
  {
  }

  /** `admin.js` ends with `min.js`, so it is excluded like a minified file. */
  lemma AdminScriptIsExcluded()
    ensures Lower(Extension("admin.js")) in RelevantExtensions
    ensures !IsRelevantFile("admin.js")
  {
    var name := "admin.js";
    assert name[0] == 'a' && name[1] == 'd' && name[2] == 'm' && name[3] == 'i' && name[4] == 'n';
    assert name[5] == ExtSep && name[6] == 'j' && name[7] == 's';
    assert LastIndexOf(name, Sep) == -1;
    assert LastIndexOf(name, ExtSep) == 5;
    assert Basename(name) == name;
    assert Extension(name) == ".js";
    assert Lower(".js") == ".js";
    assert EndsWith(name, "min.js");
  }

  // ----- the walk -----

  /** A directory as listed from the file system: its name, its subdirectories in listing
      order, and the names of its files. */
  datatype Dir = Dir(name: string, subdirs: seq<Dir>, files: seq<string>)

  /** A directory `os.walk` will visit: the path it yields for it (the root as given, then
      joined component by component), the same path relative to the root, and the listing. */
  datatype Entry = Entry(dirpath: string, rel: string, dir: Dir)

  const RootRel: string := "."

  /** A component as a directory listing returns it: non-empty, without a separator. */
  predicate ValidName(name: string) {
    name != [] && Sep !in name
  }

  /** `os.path.relpath` of a subdirectory's path: its name under the root, joined on below. */
  function ChildRel(rel: string, name: string): (r: string)
    ensures rel == RootRel ==> r == name
    ensures rel != RootRel ==> r == Join(rel, name)
  {
    if rel == RootRel then name else Join(rel, name)
  }

  /** The root entry of a walk over `rootDir`. */
  function RootEntry(rootDir: string, tree: Dir): (e: Entry)
    ensures e.rel == RootRel && e.dirpath == rootDir && e.dir == tree
  {
    Entry(rootDir, RootRel, tree)
  }

  /** What is left of `dirnames` after the pruning: the subdirectories whose joined path is
      not skipped, in listing order, as the entries the walk descends into. The test is
      made on `os.path.join(dirpath, d)`, the path from the root as given, not the relative one. */
  function Kept(dirpath: string, rel: string, ds: seq<Dir>): (r: seq<Entry>)
    ensures |r| <= |ds|
    ensures forall i :: 0 <= i < |r| ==> r[i] == Child(dirpath, rel, r[i].dir) && r[i].dir in ds
    ensures forall i :: 0 <= i < |r| ==> !ShouldSkipPath(r[i].dirpath)
  {
    if ds == [] then []
    else
      var rest := Kept(dirpath, rel, ds[1..]);
      if ShouldSkipPath(Join(dirpath, ds[0].name)) then rest
      else [Child(dirpath, rel, ds[0])] + rest
  }

  /** The entry for subdirectory `d` of the directory at `dirpath`. */
  function Child(dirpath: string, rel: string, d: Dir): (e: Entry)
    ensures e.dir == d && e.dirpath == Join(dirpath, d.name) && e.rel == ChildRel(rel, d.name)
  {
    Entry(Join(dirpath, d.name), ChildRel(rel, d.name), d)
  }

  function KeptChildren(e: Entry): seq<Entry> {
    Kept(e.dirpath, e.rel, e.dir.subdirs)
  }

  /** The number of directories in a tree. */
  function Size(d: Dir): nat
    decreases d
  {
    1 + SizeAll(d.subdirs)
  }

  function SizeAll(ds: seq<Dir>): nat
    decreases ds
  {
    if ds == [] then 0 else Size(ds[0]) + SizeAll(ds[1..])
  }

  function EntriesSize(es: seq<Entry>): nat {
    if es == [] then 0 else Size(es[0].dir) + EntriesSize(es[1..])
  }

  lemma {:induction false} EntriesSizeConcat(a: seq<Entry>, b: seq<Entry>)
    ensures EntriesSize(a + b) == EntriesSize(a) + EntriesSize(b)
  {
    if a != [] {
      assert (a + b)[0] == a[0] && (a + b)[1..] == a[1..] + b;
      EntriesSizeConcat(a[1..], b);
    } else {
      assert a + b == b;
    }
  }

  /** Pruning never adds directories: the kept children are no larger than the listing. */
  lemma {:induction false} KeptSize(dirpath: string, rel: string, ds: seq<Dir>)
    ensures EntriesSize(Kept(dirpath, rel, ds)) <= SizeAll(ds)
  {
    if ds != [] {
      KeptSize(dirpath, rel, ds[1..]);
      var rest := Kept(dirpath, rel, ds[1..]);
      if !ShouldSkipPath(Join(dirpath, ds[0].name)) {
        assert ([Child(dirpath, rel, ds[0])] + rest)[1..] == rest;
      }
    }
  }

  /** The directories `os.walk` visits, in order, when `stack` is still to be visited
      (first element next): each entry is followed by its kept subdirectories, in listing
      order, before the rest of the stack. */
  function WalkFrom(stack: seq<Entry>): (visited: seq<Entry>)
    ensures stack != [] ==> visited != [] && visited[0] == stack[0]
    decreases EntriesSize(stack)
  {
    if stack == [] then []
    else
      var e := stack[0];
      KeptSize(e.dirpath, e.rel, e.dir.subdirs);
      EntriesSizeConcat(KeptChildren(e), stack[1..]);
      [e] + WalkFrom(KeptChildren(e) + stack[1..])
  }

  /** The walk of `os.walk(rootDir)` over the tree `tree`. */
  function Walk(rootDir: string, tree: Dir): (visited: seq<Entry>)
    ensures visited != [] && visited[0] == RootEntry(rootDir, tree)
  {
    WalkFrom([RootEntry(rootDir, tree)])
  }

  lemma WalkUnfold(stack: seq<Entry>)
    requires stack != []
    ensures WalkFrom(stack) == [stack[0]] + WalkFrom(KeptChildren(stack[0]) + stack[1..])
    ensures EntriesSize(KeptChildren(stack[0]) + stack[1..]) < EntriesSize(stack)
  {
    KeptSize(stack[0].dirpath, stack[0].rel, stack[0].dir.subdirs);
    EntriesSizeConcat(KeptChildren(stack[0]), stack[1..]);
  }

  /** The folder a visited directory contributes: its relative path, when it is the root or
      is not skipped. */
  function Recorded(e: Entry): (r: set<string>)
    ensures r <= {e.rel}
    ensures e.rel in r <==> e.rel == RootRel || !ShouldSkipPath(e.rel)
  {
    if e.rel == RootRel || !ShouldSkipPath(e.rel) then {e.rel} else {}
  }

  /** The folder set collected over the visited directories. */
  function RecordedFolders(visited: seq<Entry>): (r: set<string>)
    ensures forall f :: f in r ==> f == RootRel || !ShouldSkipPath(f)
    ensures forall f :: f in r ==> exists k :: 0 <= k < |visited| && visited[k].rel == f
  {
    if visited == [] then {}
    else
      var rest := RecordedFolders(visited[1..]);
      assert forall f :: f in rest ==> exists k :: 0 <= k < |visited| && visited[k].rel == f by {
        forall f | f in rest ensures exists k :: 0 <= k < |visited| && visited[k].rel == f {
          var j :| 0 <= j < |visited[1..]| && visited[1..][j].rel == f;
          assert visited[j + 1].rel == f;
        }
      }
      Recorded(visited[0]) + rest
  }

  /** The files a visited directory contributes, in listing order: each name joined onto
      the relative directory, kept when that path is not skipped and is relevant. */
  function ListedFiles(rel: string, names: seq<string>): (r: seq<string>)
    ensures |r| <= |names|
    ensures forall f :: f in r ==> !ShouldSkipPath(f) && IsRelevantFile(f)
    ensures forall f :: f in r ==> exists k :: 0 <= k < |names| && f == Join(rel, names[k])
  {
    if names == [] then []
    else
      var init := ListedFiles(rel, names[..|names| - 1]);
      var path := Join(rel, names[|names| - 1]);
      FromListingAppend(rel, names, names[..|names| - 1], init, path);
      if !ShouldSkipPath(path) && IsRelevantFile(path) then
        WantedAppend(init, path);
        init + [path]
      else init
  }

  lemma FromListingAppend(rel: string, names: seq<string>, prefix: seq<string>, init: seq<string>, path: string)
    requires names != [] && prefix == names[..|names| - 1] && path == Join(rel, names[|names| - 1])
    requires forall f :: f in init ==> exists k :: 0 <= k < |prefix| && f == Join(rel, prefix[k])
    ensures forall f :: f in init ==> exists k :: 0 <= k < |names| && f == Join(rel, names[k])
    ensures forall f :: f in init + [path] ==> exists k :: 0 <= k < |names| && f == Join(rel, names[k])
  {
    forall f | f in init + [path]
      ensures exists k :: 0 <= k < |names| && f == Join(rel, names[k])
    {
      if f in init {
        var k :| 0 <= k < |prefix| && f == Join(rel, prefix[k]);
        assert prefix[k] == names[k];
      } else {
        assert f == Join(rel, names[|names| - 1]);
      }
    }
  }

  lemma WantedAppend(files: seq<string>, path: string)
    requires forall f :: f in files ==> !ShouldSkipPath(f) && IsRelevantFile(f)
    requires !ShouldSkipPath(path) && IsRelevantFile(path)
    ensures forall f :: f in files + [path] ==> !ShouldSkipPath(f) && IsRelevantFile(f)
  {
    assert forall f :: f in files + [path] ==> f in files || f == path;
  }

  /** The file list collected over the visited directories, in walk order. */
  function FilesOf(visited: seq<Entry>): (r: seq<string>)
    ensures forall f :: f in r ==> !ShouldSkipPath(f) && IsRelevantFile(f)
  {
    if visited == [] then [] else ListedFiles(visited[0].rel, visited[0].dir.files) + FilesOf(visited[1..])
  }

  /** Every subdirectory whose joined path is not skipped is descended into. */
  lemma KeptComplete(dirpath: string, rel: string, ds: seq<Dir>, k: nat)
    requires k < |ds| && !ShouldSkipPath(Join(dirpath, ds[k].name))
    ensures Child(dirpath, rel, ds[k]) in Kept(dirpath, rel, ds)
  {
    SplitAround(ds, k);
    KeptConcat(dirpath, rel, ds[..k] + [ds[k]], ds[k + 1..]);
    KeptConcat(dirpath, rel, ds[..k], [ds[k]]);
    assert [ds[k]][1..] == [];
    assert Kept(dirpath, rel, [ds[k]]) == [Child(dirpath, rel, ds[k])];
  }

  /** Pruning keeps the listing order: the children kept from two runs of a listing are
      those kept from the first run, then those kept from the second. */
  lemma {:induction false} KeptConcat(dirpath: string, rel: string, a: seq<Dir>, b: seq<Dir>)
    ensures Kept(dirpath, rel, a + b) == Kept(dirpath, rel, a) + Kept(dirpath, rel, b)
  {
    if a == [] {
      assert a + b == b;
    } else {
      assert (a + b)[0] == a[0] && (a + b)[1..] == a[1..] + b;
      KeptConcat(dirpath, rel, a[1..], b);
    }
  }

  /** Every file whose joined path is not skipped and is relevant is listed. */
  lemma ListedComplete(rel: string, names: seq<string>, k: nat)
    requires k < |names|
    requires !ShouldSkipPath(Join(rel, names[k])) && IsRelevantFile(Join(rel, names[k]))
    ensures Join(rel, names[k]) in ListedFiles(rel, names)
  {
    SplitAround(names, k);
    ListedFilesConcat(rel, names[..k] + [names[k]], names[k + 1..]);
    ListedFilesConcat(rel, names[..k], [names[k]]);
    ListedSingle(rel, names[k]);
    InMiddle(ListedFiles(rel, names[..k]), Join(rel, names[k]), ListedFiles(rel, names[k + 1..]));
  }

  lemma ListedSingle(rel: string, name: string)
    requires !ShouldSkipPath(Join(rel, name)) && IsRelevantFile(Join(rel, name))
    ensures ListedFiles(rel, [name]) == [Join(rel, name)]
  {
    assert [name][..0] == [];
  }

  lemma InMiddle<T>(a: seq<T>, x: T, b: seq<T>)
    ensures x in a + [x] + b
  {
    assert (a + [x] + b)[|a|] == x;
  }

  /** The files are listed in listing order: those of two runs of a listing are those of
      the first run, then those of the second. */
  lemma {:induction false} ListedFilesConcat(rel: string, a: seq<string>, b: seq<string>)
    ensures ListedFiles(rel, a + b) == ListedFiles(rel, a) + ListedFiles(rel, b)
  {
    if b == [] {
      assert a + b == a;
    } else {
      var init := b[..|b| - 1];
      assert (a + b)[..|a + b| - 1] == a + init && (a + b)[|a + b| - 1] == b[|b| - 1];
      ListedFilesConcat(rel, a, init);
      ConcatAssoc(ListedFiles(rel, a), ListedFiles(rel, init), [Join(rel, b[|b| - 1])]);
    }
  }

  lemma SplitAround<T>(s: seq<T>, k: nat)
    requires k < |s|
    ensures s == s[..k] + [s[k]] + s[k + 1..]
  {
  }

  /** Every visited directory's folder is collected. */
  lemma {:induction false} RecordedIncluded(visited: seq<Entry>, k: nat)
    requires k < |visited|
    ensures Recorded(visited[k]) <= RecordedFolders(visited)
  {
    if k > 0 {
      assert visited[1..][k - 1] == visited[k];
      RecordedIncluded(visited[1..], k - 1);
    }
  }

  /** The file list follows the walk order: that of two runs of visited directories is that
      of the first run, then that of the second. */
  lemma {:induction false} FilesOfConcat(a: seq<Entry>, b: seq<Entry>)
    ensures FilesOf(a + b) == FilesOf(a) + FilesOf(b)
  {
    if a == [] {
      assert a + b == b;
    } else {
      assert (a + b)[0] == a[0] && (a + b)[1..] == a[1..] + b;
      FilesOfConcat(a[1..], b);
      ConcatAssoc(ListedFiles(a[0].rel, a[0].dir.files), FilesOf(a[1..]), FilesOf(b));
    }
  }

  /** The files a visited directory lists sit in the file list between those of the
      directories visited before it and those of the directories visited after it. */
  lemma FilesOfIncluded(visited: seq<Entry>, k: nat)
    requires k < |visited|
    ensures FilesOf(visited)
      == FilesOf(visited[..k]) + ListedFiles(visited[k].rel, visited[k].dir.files) + FilesOf(visited[k + 1..])
  {
    SplitAround(visited, k);
    FilesOfConcat(visited[..k] + [visited[k]], visited[k + 1..]);
    FilesOfConcat(visited[..k], [visited[k]]);
    FilesOfSingle(visited[k]);
    ConcatAssoc(FilesOf(visited[..k]), ListedFiles(visited[k].rel, visited[k].dir.files), FilesOf(visited[k + 1..]));
  }

  lemma FilesOfSingle(e: Entry)
    ensures FilesOf([e]) == ListedFiles(e.rel, e.dir.files)
  {
    assert [e][1..] == [];
  }

  /** Every file collected is a name of a visited directory's listing, joined onto that
      directory's relative path. */
  lemma FilesOfFromListing(visited: seq<Entry>)
    ensures forall f :: f in FilesOf(visited) ==>
      exists k, j :: 0 <= k < |visited| && 0 <= j < |visited[k].dir.files| && f == Join(visited[k].rel, visited[k].dir.files[j])
  {
    forall f | f in FilesOf(visited)
      ensures exists k, j :: 0 <= k < |visited| && 0 <= j < |visited[k].dir.files| && f == Join(visited[k].rel, visited[k].dir.files[j])
    {
      FileFromListing(visited, f);
    }
  }

  lemma {:induction false} FileFromListing(visited: seq<Entry>, f: string)
    requires f in FilesOf(visited)
    ensures exists k, j :: 0 <= k < |visited| && 0 <= j < |visited[k].dir.files| && f == Join(visited[k].rel, visited[k].dir.files[j])
  {
    if f in ListedFiles(visited[0].rel, visited[0].dir.files) {
      FileFromFirst(visited, f);
    } else {
      FileFromListing(visited[1..], f);
      FileFromLater(visited, f);
    }
  }

  lemma FileFromFirst(visited: seq<Entry>, f: string)
    requires visited != [] && f in ListedFiles(visited[0].rel, visited[0].dir.files)
    ensures exists k, j :: 0 <= k < |visited| && 0 <= j < |visited[k].dir.files| && f == Join(visited[k].rel, visited[k].dir.files[j])
  {
    var j :| 0 <= j < |visited[0].dir.files| && f == Join(visited[0].rel, visited[0].dir.files[j]);
  }

  lemma FileFromLater(visited: seq<Entry>, f: string)
    requires visited != []
    requires exists k, j :: 0 <= k < |visited[1..]| && 0 <= j < |visited[1..][k].dir.files| && f == Join(visited[1..][k].rel, visited[1..][k].dir.files[j])
    ensures exists k, j :: 0 <= k < |visited| && 0 <= j < |visited[k].dir.files| && f == Join(visited[k].rel, visited[k].dir.files[j])
  {
    var rest := visited[1..];
    var k, j :| 0 <= k < |rest| && 0 <= j < |rest[k].dir.files| && f == Join(rest[k].rel, rest[k].dir.files[j]);
    assert rest[k] == visited[k + 1];
  }

  lemma CollectStep(stack: seq<Entry>)
    requires stack != []
    ensures RecordedFolders(WalkFrom(stack))
      == Recorded(stack[0]) + RecordedFolders(WalkFrom(KeptChildren(stack[0]) + stack[1..]))
    ensures FilesOf(WalkFrom(stack))
      == ListedFiles(stack[0].rel, stack[0].dir.files) + FilesOf(WalkFrom(KeptChildren(stack[0]) + stack[1..]))
  {
    WalkUnfold(stack);
    var rest := WalkFrom(KeptChildren(stack[0]) + stack[1..]);
    assert ([stack[0]] + rest)[1..] == rest;
  }

  // ----- the report -----

  lemma UnionAssoc<T>(a: set<T>, b: set<T>, c: set<T>)
    ensures a + b + c == a + (b + c)
  {
  }

  /** What reading a file gives: its text, or the message of the exception raised. */
  datatype ReadOutcome = Content(text: string) | ReadError(message: string)

  /** The output file, opened for writing: what has been written to it so far. */
  class OutputFile {
    var written: string

    /** `open(output_file, 'w')` starts from an empty file. */
    constructor ()
      ensures written == []
    {
      written := [];
    }

    method Write(text: string)
      modifies this
      ensures written == old(written) + text
    {
      written := written + text;
    }
  }

  /** The block for one file: a header, the content and a line break (or the error line),
      a footer and an empty line. */
  function FileBlock(rootDir: string, file: string, read: string -> ReadOutcome): string {
    FileHeader(file) + ContentLines(read(Join(rootDir, file))) + FileFooter(file)
  }

  function FileHeader(file: string): string {
    "=== File: " + file + " ===\n"
  }

  function ContentLines(outcome: ReadOutcome): string {
    match outcome
    case Content(text) => text + "\n"
    case ReadError(message) => "[Error reading file: " + message + "]\n"
  }

  function FileFooter(file: string): string {
    "=== End of file: " + file + " ===\n\n"
  }

  function FileBlocks(rootDir: string, files: seq<string>, read: string -> ReadOutcome): string {
    if files == [] then [] else FileBlocks(rootDir, files[..|files| - 1], read) + FileBlock(rootDir, files[|files| - 1], read)
  }

  /** The whole report for the sorted folders and files. */
  function Report(rootDir: string, folders: seq<string>, files: seq<string>, read: string -> ReadOutcome): string {
    "Folders:\n" + Lines(folders) + "\nFiles:\n" + FileBlocks(rootDir, files, read)
  }

  /** Read back line by line, the report is `Folders:`, one line per folder, an empty line
      and `Files:`, followed by the lines of the file blocks, when no folder holds a line
      break. */
  lemma ReportLines(rootDir: string, folders: seq<string>, files: seq<string>, read: string -> ReadOutcome)
    requires forall k :: 0 <= k < |folders| ==> '\n' !in folders[k]
    ensures Split(Report(rootDir, folders, files, read), '\n')
      == ["Folders:"] + folders + [[], "Files:"] + Split(FileBlocks(rootDir, files, read), '\n')
  {
    var lines := Lines(folders);
    var blocks := FileBlocks(rootDir, files, read);
    var tail := "Files:" + ['\n'] + blocks;
    ReportHeadings();
    SectionLayout("Folders:", '\n', lines, "Files:", blocks);
    SplitAfterPiece("Folders:", lines + ['\n'] + tail, '\n');
    SplitConcat(lines, tail, '\n');
    LinesSplit(folders);
    SplitAfterPiece("Files:", blocks, '\n');
    SectionPieces("Folders:", folders, [], "Files:", Split(blocks, '\n'));
  }

  lemma ReportHeadings()
    ensures "Folders:\n" == "Folders:" + ['\n']
    ensures "\nFiles:\n" == ['\n'] + "Files:" + ['\n']
  {
  }

  lemma SectionLayout<T>(x: seq<T>, sep: T, l: seq<T>, y: seq<T>, b: seq<T>)
    ensures (x + [sep]) + l + ([sep] + y + [sep]) + b == x + [sep] + (l + [sep] + (y + [sep] + b))
  {
  }

  lemma SectionPieces<T>(h: T, fs: seq<T>, e: T, f: T, rest: seq<T>)
    ensures [h] + (fs + [e] + ([f] + rest)) == [h] + fs + [e, f] + rest
  {
  }

  /** Read back line by line, the block of a file whose name holds no line break is its
      header line, the lines of its content (or the error line), its footer line and an
      empty line before the next block. */
  lemma FileBlockLines(rootDir: string, file: string, read: string -> ReadOutcome)
    requires '\n' !in file
    ensures Split(FileBlock(rootDir, file, read), '\n')
      == ["=== File: " + file + " ==="] + Split(ContentBody(read(Join(rootDir, file))), '\n')
        + ["=== End of file: " + file + " ===", [], []]
  {
    var outcome := read(Join(rootDir, file));
    var body := ContentBody(outcome);
    var header := "=== File: " + file + " ===";
    var footer := "=== End of file: " + file + " ===";
    var after := footer + ['\n'] + ([] + ['\n'] + []);
    BlockEdges(file, outcome);
    BlockLayout(header, '\n', body, after);
    SplitAfterPiece(header, body + ['\n'] + after, '\n');
    SplitConcat(body, after, '\n');
    SplitAfterPiece(footer, [] + ['\n'] + [], '\n');
    SplitAfterPiece([], [], '\n');
    SplitNoSep([], '\n');
    BlockPieces(header, Split(body, '\n'), footer, []);
  }

  /** A file's content as written, or the error line, without the line break after it. */
  function ContentBody(outcome: ReadOutcome): (body: string)
    ensures ContentLines(outcome) == body + "\n"
  {
    match outcome
    case Content(text) => text
    case ReadError(message) => "[Error reading file: " + message + "]"
  }

  lemma BlockEdges(file: string, outcome: ReadOutcome)
    requires '\n' !in file
    ensures FileHeader(file) == ("=== File: " + file + " ===") + ['\n']
    ensures FileFooter(file) == ("=== End of file: " + file + " ===") + ['\n'] + ([] + ['\n'] + [])
    ensures '\n' !in "=== File: " + file + " ===" && '\n' !in "=== End of file: " + file + " ==="
  {
  }

  lemma BlockLayout<T>(h: seq<T>, sep: T, b: seq<T>, after: seq<T>)
    ensures (h + [sep]) + (b + [sep]) + after == h + [sep] + (b + [sep] + after)
  {
  }

  lemma BlockPieces<T>(h: T, body: seq<T>, f: T, e: T)
    ensures [h] + (body + ([f] + ([e] + [e]))) == [h] + body + [f, e, e]
  {
  }

  /** The writes of the report, in order. */
  method WriteReport(f: OutputFile, rootDir: string, folders: seq<string>, files: seq<string>, read: string -> ReadOutcome)
    modifies f
    ensures f.written == old(f.written) + Report(rootDir, folders, files, read)
  {
    ghost var start := f.written;
    f.Write("Folders:\n");
    WriteFolderLines(f, folders);
    f.Write("\nFiles:\n");
    WriteFileBlocks(f, rootDir, files, read);
    ghost var lines := Lines(folders);
    ghost var blocks := FileBlocks(rootDir, files, read);
    ConcatAssoc(start, "Folders:\n", lines);
    ConcatAssoc(start, "Folders:\n" + lines, "\nFiles:\n");
    ConcatAssoc(start, "Folders:\n" + lines + "\nFiles:\n", blocks);
  }

  /** `for folder in sorted_folders: f_out.write(folder + "\n")`. */
  method WriteFolderLines(f: OutputFile, folders: seq<string>)
    modifies f
    ensures f.written == old(f.written) + Lines(folders)
  {
    ghost var start := f.written;
    for i := 0 to |folders|
      invariant f.written == start + Lines(folders[..i])
    {
      f.Write(folders[i] + "\n");
      assert folders[..i + 1][..i] == folders[..i];
      ConcatAssoc(start, Lines(folders[..i]), folders[i] + "\n");
      ConcatAssoc(Lines(folders[..i]), folders[i], "\n");
    }
    assert folders[..|folders|] == folders;
  }

  /** The loop over the sorted files. */
  method WriteFileBlocks(f: OutputFile, rootDir: string, files: seq<string>, read: string -> ReadOutcome)
    modifies f
    ensures f.written == old(f.written) + FileBlocks(rootDir, files, read)
  {
    ghost var start := f.written;
    for i := 0 to |files|
      invariant f.written == start + FileBlocks(rootDir, files[..i], read)
    {
      WriteFileBlock(f, rootDir, files[i], read);
      assert files[..i + 1][..i] == files[..i];
      ConcatAssoc(start, FileBlocks(rootDir, files[..i], read), FileBlock(rootDir, files[i], read));
    }
    assert files[..|files|] == files;
  }

  /** The writes for one file: the header, the content read from the file's path under the
      root or the error line, and the footer. */
  method WriteFileBlock(f: OutputFile, rootDir: string, file: string, read: string -> ReadOutcome)
    modifies f
    ensures f.written == old(f.written) + FileBlock(rootDir, file, read)
  {
    ghost var start := f.written;
    f.Write(FileHeader(file));
    var filePath := Join(rootDir, file);
    match read(filePath) {
      case Content(text) =>
        f.Write(text + "\n");
      case ReadError(message) =>
        f.Write("[Error reading file: " + message + "]\n");
    }
    ConcatAssoc(start, FileHeader(file), ContentLines(read(filePath)));
    f.Write(FileFooter(file));
    ConcatAssoc(start, FileHeader(file) + ContentLines(read(filePath)), FileFooter(file));
  }

  // ----- scan_files -----

  /** `scan_files(root_dir, output_file)` over the tree `tree` found at `rootDir`, with
      `read` giving what reading each path yields. The folders and files collected during
      the walk are returned sorted, with the text written to the output file. */
  method ScanFiles(rootDir: string, tree: Dir, read: string -> ReadOutcome)
    returns (sortedFolders: seq<string>, sortedFiles: seq<string>, report: string)
    ensures Sorting.Sorted(sortedFolders)
    ensures multiset(sortedFolders) == multiset(RecordedFolders(Walk(rootDir, tree)))
    ensures forall i, j :: 0 <= i < j < |sortedFolders| ==> sortedFolders[i] != sortedFolders[j]
    ensures Sorting.Sorted(sortedFiles)
    ensures multiset(sortedFiles) == multiset(FilesOf(Walk(rootDir, tree)))
    ensures report == Report(rootDir, sortedFolders, sortedFiles, read)
  {
    var folders: set<string> := {};
    var files: seq<string> := [];
    var stack := [RootEntry(rootDir, tree)];
    while stack != []
      invariant folders + RecordedFolders(WalkFrom(stack)) == RecordedFolders(Walk(rootDir, tree))
      invariant files + FilesOf(WalkFrom(stack)) == FilesOf(Walk(rootDir, tree))
      decreases EntriesSize(stack)
    {
      var e := stack[0];
      CollectStep(stack);
      WalkUnfold(stack);
      var dirnames := KeptChildren(e);
      ghost var later := WalkFrom(dirnames + stack[1..]);
      var relativeDir := e.rel;
      UnionAssoc(folders, Recorded(e), RecordedFolders(later));
      if relativeDir == RootRel || !ShouldSkipPath(relativeDir) {
        folders := folders + {relativeDir};
      }
      ConcatAssoc(files, ListedFiles(relativeDir, e.dir.files), FilesOf(later));
      files := ListFiles(files, relativeDir, e.dir.files);
      stack := dirnames + stack[1..];
    }
    sortedFolders := Sorting.SortSet(folders);
    sortedFiles := Sorting.Sort(files);
    var fOut := new OutputFile();
    WriteReport(fOut, rootDir, sortedFolders, sortedFiles, read);
    report := fOut.written;
  }

  /** The inner loop over one directory's file names: each relevant, unskipped path is
      appended to `files`. */
  method ListFiles(files: seq<string>, relativeDir: string, filenames: seq<string>) returns (files': seq<string>)
    ensures files' == files + ListedFiles(relativeDir, filenames)
  {
    files' := files;
    for j := 0 to |filenames|
      invariant files' == files + ListedFiles(relativeDir, filenames[..j])
    {
      var relativeFile := Join(relativeDir, filenames[j]);
      ListedFilesStep(relativeDir, filenames, j);
      if !ShouldSkipPath(relativeFile) && IsRelevantFile(relativeFile) {
        ConcatAssoc(files, ListedFiles(relativeDir, filenames[..j]), [relativeFile]);
        files' := files' + [relativeFile];
      } else {
        assert ListedFiles(relativeDir, filenames[..j + 1]) == ListedFiles(relativeDir, filenames[..j]);
      }
    }
    assert filenames[..|filenames|] == filenames;
  }

  lemma ListedFilesStep(rel: string, names: seq<string>, j: nat)
    requires j < |names|
    ensures ListedFiles(rel, names[..j + 1]) ==
      ListedFiles(rel, names[..j]) +
      (if !ShouldSkipPath(Join(rel, names[j])) && IsRelevantFile(Join(rel, names[j])) then [Join(rel, names[j])] else [])
  {
    assert names[..j + 1][..j] == names[..j];
  }

  // ----- what the walk and the report guarantee -----

  /** The root is always among the folders, as `.`. */
  lemma RootAlwaysRecorded(rootDir: string, tree: Dir)
    ensures RootRel in RecordedFolders(Walk(rootDir, tree))
  {
    CollectStep([RootEntry(rootDir, tree)]);
  }

  /** Every directory the walk visits below the root passed the pruning test on its path. */
  lemma VisitedDirectoriesKept(rootDir: string, tree: Dir)
    ensures forall k :: 1 <= k < |Walk(rootDir, tree)| ==> !ShouldSkipPath(Walk(rootDir, tree)[k].dirpath)
  {
    var root := RootEntry(rootDir, tree);
    WalkUnfold([root]);
    assert [root][1..] == [];
    assert KeptChildren(root) + [] == KeptChildren(root);
    WalkFromKept(KeptChildren(root));
  }

  lemma {:induction false} WalkFromKept(stack: seq<Entry>)
    requires forall i :: 0 <= i < |stack| ==> !ShouldSkipPath(stack[i].dirpath)
    ensures forall k :: 0 <= k < |WalkFrom(stack)| ==> !ShouldSkipPath(WalkFrom(stack)[k].dirpath)
    decreases EntriesSize(stack)
  {
    if stack != [] {
      WalkUnfold(stack);
      var next := KeptChildren(stack[0]) + stack[1..];
      WalkFromKept(next);
    }
  }

  /** A tree as `os.listdir` lists it: every subdirectory name, at every depth, is a valid
      component and not `.`. */
  predicate ListedTree(d: Dir)
    decreases d
  {
    forall i :: 0 <= i < |d.subdirs| ==>
      ValidName(d.subdirs[i].name) && d.subdirs[i].name != RootRel && ListedTree(d.subdirs[i])
  }

  /** The relative path of an entry is `os.path.relpath(dirpath, rootDir)`: `.` for the root,
      and otherwise the relative path that, joined onto the root, gives the entry's path. */
  predicate IsRelpath(rootDir: string, e: Entry) {
    if e.rel == RootRel then e.dirpath == rootDir
    else e.rel != [] && e.rel[0] != Sep && Join(rootDir, e.rel) == e.dirpath
  }

  /** Every directory the walk visits has as relative path the relpath of its path from the
      root: the root itself is `.`, and any other directory's relative path, joined onto the
      root as given, is the path the walk yields for it. */
  lemma WalkRelpaths(rootDir: string, tree: Dir)
    requires ListedTree(tree)
    ensures forall k :: 0 <= k < |Walk(rootDir, tree)| ==> IsRelpath(rootDir, Walk(rootDir, tree)[k])
    ensures forall k :: 0 <= k < |Walk(rootDir, tree)| && Walk(rootDir, tree)[k].rel != RootRel ==>
      Join(rootDir, Walk(rootDir, tree)[k].rel) == Walk(rootDir, tree)[k].dirpath
  {
    WalkFromRelpaths(rootDir, [RootEntry(rootDir, tree)]);
  }

  lemma {:induction false} WalkFromRelpaths(rootDir: string, stack: seq<Entry>)
    requires forall i :: 0 <= i < |stack| ==> IsRelpath(rootDir, stack[i]) && ListedTree(stack[i].dir)
    ensures forall k :: 0 <= k < |WalkFrom(stack)| ==> IsRelpath(rootDir, WalkFrom(stack)[k])
    decreases EntriesSize(stack)
  {
    if stack != [] {
      WalkUnfold(stack);
      var kept := KeptChildren(stack[0]);
      KeptRelpaths(rootDir, stack[0]);
      RelpathsConcat(rootDir, kept, stack[1..]);
      WalkFromRelpaths(rootDir, kept + stack[1..]);
    }
  }

  lemma RelpathsConcat(rootDir: string, a: seq<Entry>, b: seq<Entry>)
    requires forall i :: 0 <= i < |a| ==> IsRelpath(rootDir, a[i]) && ListedTree(a[i].dir)
    requires forall i :: 0 <= i < |b| ==> IsRelpath(rootDir, b[i]) && ListedTree(b[i].dir)
    ensures forall i :: 0 <= i < |a + b| ==> IsRelpath(rootDir, (a + b)[i]) && ListedTree((a + b)[i].dir)
  {
    forall i | 0 <= i < |a + b| ensures IsRelpath(rootDir, (a + b)[i]) && ListedTree((a + b)[i].dir) {
      if i < |a| { assert (a + b)[i] == a[i]; } else { assert (a + b)[i] == b[i - |a|]; }
    }
  }

  /** The kept subdirectories of a directory whose relative path is its relpath have theirs. */
  lemma KeptRelpaths(rootDir: string, e: Entry)
    requires IsRelpath(rootDir, e) && ListedTree(e.dir)
    ensures forall i :: 0 <= i < |KeptChildren(e)| ==> IsRelpath(rootDir, KeptChildren(e)[i]) && ListedTree(KeptChildren(e)[i].dir)
  {
    var kept := KeptChildren(e);
    forall i | 0 <= i < |kept| ensures IsRelpath(rootDir, kept[i]) && ListedTree(kept[i].dir) {
      var d := kept[i].dir;
      var j :| 0 <= j < |e.dir.subdirs| && e.dir.subdirs[j] == d;
      ChildRelIsRelpath(rootDir, e, d);
    }
  }

  /** The step of the walk keeps the relpath: a subdirectory's relative path is the parent's
      joined with its name, and its path is the parent's path joined with its name. */
  lemma ChildRelIsRelpath(rootDir: string, parent: Entry, d: Dir)
    requires IsRelpath(rootDir, parent) && ValidName(d.name) && d.name != RootRel
    ensures IsRelpath(rootDir, Child(parent.dirpath, parent.rel, d))
  {
    var c := Child(parent.dirpath, parent.rel, d);
    if parent.rel != RootRel {
      assert |c.rel| >= |parent.rel| + |d.name|;
      assert c.rel[0] == parent.rel[0];
      JoinAssociates(rootDir, parent.rel, d.name);
    }
  }

  /** A pruned subdirectory of the root has no effect: whatever it holds, the folders and
      files found are the same. */
  lemma PrunedSubtreeIgnored(rootDir: string, tree: Dir, i: nat, other: Dir)
    requires i < |tree.subdirs| && other.name == tree.subdirs[i].name
    requires ShouldSkipPath(Join(rootDir, other.name))
    ensures
      var tree' := tree.(subdirs := tree.subdirs[i := other]);
      RecordedFolders(Walk(rootDir, tree')) == RecordedFolders(Walk(rootDir, tree)) &&
      FilesOf(Walk(rootDir, tree')) == FilesOf(Walk(rootDir, tree))
  {
    var tree' := tree.(subdirs := tree.subdirs[i := other]);
    KeptReplacePruned(rootDir, RootRel, tree.subdirs, i, other);
    CollectStep([RootEntry(rootDir, tree)]);
    CollectStep([RootEntry(rootDir, tree')]);
  }

  lemma {:induction false} KeptReplacePruned(dirpath: string, rel: string, ds: seq<Dir>, i: nat, other: Dir)
    requires i < |ds| && other.name == ds[i].name && ShouldSkipPath(Join(dirpath, other.name))
    ensures Kept(dirpath, rel, ds[i := other]) == Kept(dirpath, rel, ds)
  {
    if i > 0 {
      assert ds[i := other][1..] == ds[1..][i - 1 := other];
      KeptReplacePruned(dirpath, rel, ds[1..], i - 1, other);
    } else {
      assert ds[i := other][1..] == ds[1..];
    }
  }

  /** No file directly in the root is ever listed: its relative path is `./name`, whose
      only components are `.` and the name, and a file named like an allowed directory has
      no extension. */
  lemma {:induction false} RootFilesNeverListed(names: seq<string>)
    requires forall k :: 0 <= k < |names| ==> ValidName(names[k])
    ensures ListedFiles(RootRel, names) == []
  {
    if names != [] {
      RootFilesNeverListed(names[..|names| - 1]);
      RootFileNotListed(names[|names| - 1]);
    }
  }

  lemma RootFileNotListed(name: string)
    requires ValidName(name)
    ensures ShouldSkipPath(Join(RootRel, name)) || !IsRelevantFile(Join(RootRel, name))
  {
    var path := Join(RootRel, name);
    if !ShouldSkipPath(path) {
      KeptRootFileIsAllowedName(name);
      BasenameOfJoin(RootRel, name);
      AllowedNameIsIrrelevant(path, name);
    }
  }

  lemma KeptRootFileIsAllowedName(name: string)
    requires ValidName(name) && !ShouldSkipPath(Join(RootRel, name))
    ensures name in AllowedDirectories
  {
    var path := Join(RootRel, name);
    PartsOfJoin(RootRel, name);
    PartsOfName(RootRel);
    PartsOfName(name);
    assert Parts(path) == {RootRel, name};
    KeptPaths(path);
    var part :| part in Parts(path) && part in AllowedDirectories;
    assert RootRel !in AllowedDirectories;
    assert part == name;
  }

  lemma AllowedNameIsIrrelevant(path: string, name: string)
    requires Basename(path) == name && name in AllowedDirectories
    ensures !IsRelevantFile(path)
  {
    AllowedNamesHaveNoExtension();
    NoExtensionIsIrrelevant(path);
  }

  /** A file name without an extension is never relevant. */
  lemma NoExtensionIsIrrelevant(path: string)
    requires Extension(Basename(path)) == []
    ensures !IsRelevantFile(path)
  {
    assert Lower([]) == [];
    EmptyIsNotRelevantExtension();
  }

  lemma EmptyIsNotRelevantExtension()
    ensures [] !in RelevantExtensions
  {
  }

  lemma AllowedNamesHaveNoExtension()
    ensures forall name :: name in AllowedDirectories ==> Extension(name) == []
  {
    NoDotNoExtension("backend");
    NoDotNoExtension("frontend");
  }

  lemma NoDotNoExtension(name: string)
    requires ExtSep !in name
    ensures Extension(name) == []
  {
    ExtensionHasDot(name);
  }

  lemma ExtensionHasDot(p: string)
    ensures Extension(p) != [] ==> ExtSep in p
  {
    var ext := Extension(p);
    if ext != [] {
      assert p[|p| - |ext|] == ext[0];
    }
  }

  /** Run from a directory whose path has a skipped folder as a component, the scan prunes
      every subdirectory (the pruning test sees the path from the root as given) and lists
      only the root folder and no file. */
  lemma SkippedRootListsNothing(rootDir: string, tree: Dir)
    requires rootDir != []
    requires exists part :: part in Parts(rootDir) && part in SkipFolders
    requires forall k :: 0 <= k < |tree.subdirs| ==> ValidName(tree.subdirs[k].name)
    requires forall k :: 0 <= k < |tree.files| ==> ValidName(tree.files[k])
    ensures Walk(rootDir, tree) == [RootEntry(rootDir, tree)]
    ensures RecordedFolders(Walk(rootDir, tree)) == {RootRel}
    ensures FilesOf(Walk(rootDir, tree)) == []
  {
    var root := RootEntry(rootDir, tree);
    forall k | 0 <= k < |tree.subdirs| ensures ShouldSkipPath(Join(rootDir, tree.subdirs[k].name)) {
      SkipInherited(rootDir, tree.subdirs[k].name);
    }
    NothingKept(rootDir, RootRel, tree.subdirs);
    WalkUnfold([root]);
    assert [root][1..] == [];
    assert WalkFrom([]) == [];
    assert Walk(rootDir, tree) == [root];
    RootFilesNeverListed(tree.files);
    assert [root][1..] == [];
  }

  lemma {:induction false} NothingKept(dirpath: string, rel: string, ds: seq<Dir>)
    requires forall k :: 0 <= k < |ds| ==> ShouldSkipPath(Join(dirpath, ds[k].name))
    ensures Kept(dirpath, rel, ds) == []
  {
    if ds != [] {
      NothingKept(dirpath, rel, ds[1..]);
    }
  }
}
