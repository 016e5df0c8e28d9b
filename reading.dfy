/**
 * internal/files/reading.go: the walk filter of GetAllFilePaths and the
 * classification rule of GetContentMapOfFiles.
 *
 * The directory walk is given as the sequence of callback invocations
 * filepath.WalkDir makes (an entry, or an error reported for an entry); the
 * filesystem the loader reads is given as a map from path to node.
 */
module Reading {
  import opened Results
  import opened Strings
  import opened FilePath
  import opened Sequences

  // ---------------------------------------------------------------------
  // GetAllFilePaths
  // ---------------------------------------------------------------------

  /** One invocation of the WalkDir callback: an entry, or the error passed for one. */
  datatype WalkEvent = Visit(path: string, isDir: bool) | Failed(message: string)

  /** A prefix rule hits `path`: the full path, or one of its elements, starts with `prefix`. */
  predicate MatchesPrefix(path: string, prefix: string) {
    HasPrefix(path, prefix) || exists c :: c in Split(path, Separator) && HasPrefix(c, prefix)
  }

  /** Some prefix rule hits `path`. */
  predicate PrefixExcluded(path: string, prefixes: seq<string>) {
    exists p :: p in prefixes && MatchesPrefix(path, p)
  }

  /** The "extensions to keep" rule: no list, a directory, or an extension on the list. */
  predicate ExtensionKept(path: string, isDir: bool, extensionsToKeep: seq<string>) {
    |extensionsToKeep| == 0 || isDir || Ext(path) in extensionsToKeep
  }

  /** The event is an entry other than the root that passes both rules. */
  predicate Selected(root: string, e: WalkEvent, prefixes: seq<string>, extensionsToKeep: seq<string>) {
    && e.Visit?
    && e.path != root
    && !PrefixExcluded(e.path, prefixes)
    && ExtensionKept(e.path, e.isDir, extensionsToKeep)
  }

  /** The paths of the entries, in walk order. */
  function VisitedPaths(walk: seq<WalkEvent>): seq<string> {
    if walk == [] then []
    else
      var last := walk[|walk| - 1];
      VisitedPaths(walk[..|walk| - 1]) + (if last.Visit? then [last.path] else [])
  }

  /** The paths of the selected entries, in walk order. */
  function Selection(root: string, walk: seq<WalkEvent>, prefixes: seq<string>, extensionsToKeep: seq<string>): seq<string> {
    if walk == [] then []
    else
      var last := walk[|walk| - 1];
      Selection(root, walk[..|walk| - 1], prefixes, extensionsToKeep)
        + (if Selected(root, last, prefixes, extensionsToKeep) then [last.path] else [])
  }

  /** The prefix loop of the callback: returns at the first rule that hits. */
  method IsExcludedByPrefix(path: string, prefixesToFilter: seq<string>) returns (excluded: bool)
    ensures excluded == PrefixExcluded(path, prefixesToFilter)
  {
    for i := 0 to |prefixesToFilter|
      invariant forall j :: 0 <= j < i ==> !MatchesPrefix(path, prefixesToFilter[j])
    {
      var prefixToFilter := prefixesToFilter[i];
      assert prefixToFilter in prefixesToFilter;
      if HasPrefix(path, prefixToFilter) {
        return true;
      }
      var components := Split(path, Separator);
      for k := 0 to |components|
        invariant forall j :: 0 <= j < k ==> !HasPrefix(components[j], prefixToFilter)
      {
        if HasPrefix(components[k], prefixToFilter) {
          assert MatchesPrefix(path, prefixToFilter);
          return true;
        }
      }
    }
    return false;
  }

  /** The extension loop of the callback: stops at the first listed extension that equals the path's. */
  method HasExtensionToKeep(path: string, extensionsToKeep: seq<string>) returns (found: bool)
    ensures found == (Ext(path) in extensionsToKeep)
  {
    found := false;
    for i := 0 to |extensionsToKeep|
      invariant !found ==> Ext(path) !in extensionsToKeep[..i]
      invariant found ==> Ext(path) in extensionsToKeep
    {
      if Ext(path) == extensionsToKeep[i] {
        found := true;
        break;
      }
    }
  }

  /**
   * GetAllFilePaths: the callback skips the root, drops entries hit by a
   * prefix rule, and appends the rest subject to the extension rule; the
   * first error ends the walk, and then only the error is returned.
   */
  method GetAllFilePaths(root: string, walk: seq<WalkEvent>, prefixesToFilter: seq<string>, extensionsToKeep: seq<string>)
    returns (result: Result<seq<string>, string>)
    ensures result.Err? <==> exists k :: 0 <= k < |walk| && walk[k].Failed?
    ensures result.Err? ==> exists k :: 0 <= k < |walk| && walk[k] == Failed(result.error) &&
                                        forall j :: 0 <= j < k ==> walk[j].Visit?
    ensures result.Ok? ==> result.value == Selection(root, walk, prefixesToFilter, extensionsToKeep)
  {
    var filePaths: seq<string> := [];
    for i := 0 to |walk|
      invariant forall j :: 0 <= j < i ==> walk[j].Visit?
      invariant filePaths == Selection(root, walk[..i], prefixesToFilter, extensionsToKeep)
    {
      assert walk[..i + 1][..i] == walk[..i];
      match walk[i]
      case Failed(message) =>
        return Err(message);
      case Visit(path, isDir) =>
        if path != root {
          var excluded := IsExcludedByPrefix(path, prefixesToFilter);
          if !excluded {
            if |extensionsToKeep| == 0 {
              filePaths := filePaths + [path];
            } else if isDir {
              filePaths := filePaths + [path];
            } else {
              var keep := HasExtensionToKeep(path, extensionsToKeep);
              if keep {
                filePaths := filePaths + [path];
              }
            }
          }
        }
    }
    assert walk[..|walk|] == walk;
    return Ok(filePaths);
  }

  /** An entry is listed exactly when some event visits it and passes every rule. */
  lemma {:induction false} SelectionMembers(root: string, walk: seq<WalkEvent>, prefixes: seq<string>, extensionsToKeep: seq<string>)
    ensures forall p :: p in Selection(root, walk, prefixes, extensionsToKeep) <==>
      exists k :: 0 <= k < |walk| && walk[k].Visit? && walk[k].path == p && Selected(root, walk[k], prefixes, extensionsToKeep)
  {
    if walk != [] {
      var init := walk[..|walk| - 1];
      SelectionMembers(root, init, prefixes, extensionsToKeep);
      forall p | exists k :: 0 <= k < |walk| && walk[k].Visit? && walk[k].path == p && Selected(root, walk[k], prefixes, extensionsToKeep)
        ensures p in Selection(root, walk, prefixes, extensionsToKeep)
      {
        var k :| 0 <= k < |walk| && walk[k].Visit? && walk[k].path == p && Selected(root, walk[k], prefixes, extensionsToKeep);
        if k < |walk| - 1 {
          assert init[k] == walk[k];
        }
      }
      forall p | p in Selection(root, walk, prefixes, extensionsToKeep)
        ensures exists k :: 0 <= k < |walk| && walk[k].Visit? && walk[k].path == p && Selected(root, walk[k], prefixes, extensionsToKeep)
      {
        if p in Selection(root, init, prefixes, extensionsToKeep) {
          var k :| 0 <= k < |init| && init[k].Visit? && init[k].path == p && Selected(root, init[k], prefixes, extensionsToKeep);
          assert walk[k] == init[k];
        } else {
          assert walk[|walk| - 1].path == p;
        }
      }
    }
  }

  /** The walk root itself is never listed. */
  lemma RootNeverListed(root: string, walk: seq<WalkEvent>, prefixes: seq<string>, extensionsToKeep: seq<string>)
    ensures root !in Selection(root, walk, prefixes, extensionsToKeep)
  {
    SelectionMembers(root, walk, prefixes, extensionsToKeep);
  }

  /** A path hit by a prefix rule is never listed. */
  lemma ExcludedNeverListed(root: string, walk: seq<WalkEvent>, prefixes: seq<string>, extensionsToKeep: seq<string>, p: string)
    requires PrefixExcluded(p, prefixes)
    ensures p !in Selection(root, walk, prefixes, extensionsToKeep)
  {
    SelectionMembers(root, walk, prefixes, extensionsToKeep);
  }

  /** Without extensions to keep, every visited non-root entry that no prefix rule hits is listed. */
  lemma NoExtensionRuleKeepsAll(root: string, walk: seq<WalkEvent>, prefixes: seq<string>, k: nat)
    requires k < |walk| && walk[k].Visit? && walk[k].path != root
    requires !PrefixExcluded(walk[k].path, prefixes)
    ensures walk[k].path in Selection(root, walk, prefixes, [])
  {
    SelectionMembers(root, walk, prefixes, []);
  }

  /** Directories are never removed by the extension rule. */
  lemma DirectoriesSurvive(root: string, walk: seq<WalkEvent>, prefixes: seq<string>, extensionsToKeep: seq<string>, k: nat)
    requires k < |walk| && walk[k].Visit? && walk[k].isDir && walk[k].path != root
    requires !PrefixExcluded(walk[k].path, prefixes)
    ensures walk[k].path in Selection(root, walk, prefixes, extensionsToKeep)
  {
    SelectionMembers(root, walk, prefixes, extensionsToKeep);
  }

  /**
   * Under a non-empty extension list, a file (visited only as a file) that no
   * prefix rule hits is listed exactly when its extension is on the list.
   */
  lemma FileKeptIffExtensionListed(root: string, walk: seq<WalkEvent>, prefixes: seq<string>, extensionsToKeep: seq<string>, k: nat)
    requires |extensionsToKeep| > 0
    requires k < |walk| && walk[k].Visit? && !walk[k].isDir && walk[k].path != root
    requires !PrefixExcluded(walk[k].path, prefixes)
    requires forall j :: 0 <= j < |walk| && walk[j].Visit? && walk[j].path == walk[k].path ==> !walk[j].isDir
    ensures walk[k].path in Selection(root, walk, prefixes, extensionsToKeep) <==> Ext(walk[k].path) in extensionsToKeep
  {
    SelectionMembers(root, walk, prefixes, extensionsToKeep);
  }

  /** The listing keeps walk order: it is a subsequence of the visited paths. */
  lemma {:induction false} SelectionIsSubsequence(root: string, walk: seq<WalkEvent>, prefixes: seq<string>, extensionsToKeep: seq<string>)
    ensures IsSubsequence(Selection(root, walk, prefixes, extensionsToKeep), VisitedPaths(walk))
  {
    if walk == [] {
      EmptyIsSubsequence(VisitedPaths(walk));
    } else {
      var init, last := walk[..|walk| - 1], walk[|walk| - 1];
      var a, b := Selection(root, init, prefixes, extensionsToKeep), VisitedPaths(init);
      SelectionIsSubsequence(root, init, prefixes, extensionsToKeep);
      if Selected(root, last, prefixes, extensionsToKeep) {
        SubsequenceSnocKeep(a, b, last.path);
      } else if last.Visit? {
        assert a + [] == a;
        SubsequenceSnocSkip(a, b, last.path);
      } else {
        assert a + [] == a && b + [] == b;
      }
    }
  }

  /** Each visit adds a path at most once: no path is listed more often than it is visited. */
  lemma {:induction false} SelectionAtMostOncePerVisit(root: string, walk: seq<WalkEvent>, prefixes: seq<string>, extensionsToKeep: seq<string>)
    ensures multiset(Selection(root, walk, prefixes, extensionsToKeep)) <= multiset(VisitedPaths(walk))
  {
    if walk != [] {
      SelectionAtMostOncePerVisit(root, walk[..|walk| - 1], prefixes, extensionsToKeep);
    }
  }

  /** A path inside an excluded directory is excluded too (the walk still descends into it). */
  lemma SubtreeExcluded(dir: string, rest: string, prefixes: seq<string>)
    requires PrefixExcluded(dir, prefixes)
    ensures PrefixExcluded(dir + [Separator] + rest, prefixes)
  {
    var p :| p in prefixes && MatchesPrefix(dir, p);
    var path := dir + [Separator] + rest;
    SplitConcat(dir, rest, Separator);
    if HasPrefix(dir, p) {
      assert path[..|p|] == dir[..|p|];
    } else {
      var c :| c in Split(dir, Separator) && HasPrefix(c, p);
      assert c in Split(path, Separator);
    }
    assert MatchesPrefix(path, p);
  }

  /** A rule is a plain prefix: "internal" also hits "internal2/x.go". */
  lemma RuleIsPlainPrefix()
    ensures PrefixExcluded("internal2/x.go", ["internal"])
  {
    assert HasPrefix("internal2/x.go", "internal");
    assert MatchesPrefix("internal2/x.go", "internal");
  }

  /**
   * An element rule hits at any depth: a path with an element starting with a
   * rule's prefix is excluded, whether that element is in the middle, last or
   * first.
   */
  lemma ElementRuleHitsAtAnyDepth(parent: string, element: string, rest: string, prefixes: seq<string>, p: string)
    requires p in prefixes && HasPrefix(element, p) && Separator !in element
    ensures PrefixExcluded(parent + [Separator] + element + [Separator] + rest, prefixes)
    ensures PrefixExcluded(parent + [Separator] + element, prefixes)
    ensures PrefixExcluded(element + [Separator] + rest, prefixes)
  {
    SplitNoSeparator(element, Separator);
    assert PrefixExcluded(parent + [Separator] + element + [Separator] + rest, prefixes) by {
      var tail := element + [Separator] + rest;
      var path := parent + [Separator] + element + [Separator] + rest;
      assert path == parent + [Separator] + tail;
      SplitConcat(element, rest, Separator);
      SplitConcat(parent, tail, Separator);
      assert element in Split(tail, Separator);
      assert element in Split(path, Separator);
      assert MatchesPrefix(path, p);
    }
    assert PrefixExcluded(parent + [Separator] + element, prefixes) by {
      var path := parent + [Separator] + element;
      SplitConcat(parent, element, Separator);
      assert element in Split(path, Separator);
      assert MatchesPrefix(path, p);
    }
    assert PrefixExcluded(element + [Separator] + rest, prefixes) by {
      var path := element + [Separator] + rest;
      SplitConcat(element, rest, Separator);
      assert element in Split(path, Separator);
      assert MatchesPrefix(path, p);
    }
  }

  /** ".git" hits "src/.git/config" through the element rule, not as a prefix of the full path. */
  lemma NestedElementExcluded()
    ensures PrefixExcluded("src/.git/config", [".git"])
    ensures !HasPrefix("src/.git/config", ".git")
  {
    ElementRuleHitsAtAnyDepth("src", ".git", "config", [".git"], ".git");
    assert "src" + [Separator] + ".git" + [Separator] + "config" == "src/.git/config";
    assert "src/.git/config"[0] != ".git"[0];
  }

  /** The walk of the reading test: a root with one file and one sub-directory holding one file. */
  lemma WalkTestAllEntries()
    ensures Selection("tmp", [Visit("tmp", true), Visit("tmp/file1.txt", false), Visit("tmp/subdir", true), Visit("tmp/subdir/file2.txt", false)], [], [])
      == ["tmp/file1.txt", "tmp/subdir", "tmp/subdir/file2.txt"]
  {
    var walk := [Visit("tmp", true), Visit("tmp/file1.txt", false), Visit("tmp/subdir", true), Visit("tmp/subdir/file2.txt", false)];
    assert walk[..1] == [Visit("tmp", true)];
    assert walk[..2] == walk[..1] + [walk[1]];
    assert walk[..3] == walk[..2] + [walk[2]];
    assert walk[..4] == walk;
    assert Selection("tmp", walk[..1], [], []) == [] by {
      assert walk[..1][..0] == [];
    }
  }

  // ---------------------------------------------------------------------
  // GetContentMapOfFiles
  // ---------------------------------------------------------------------

  /** What the filesystem holds at a path. */
  datatype Node =
    | File(content: string)  // a file os.ReadFile can read
    | UnreadableFile         // a file os.Stat sees but os.ReadFile fails on
    | Dir(entryCount: nat)   // a directory os.ReadDir can list
    | UnlistableDir          // a directory os.Stat sees but os.ReadDir fails on

  /** The filesystem as the loader sees it; a path that is not a key fails os.Stat. */
  type FileSystem = map<string, Node>

  /** The error returned by the failing call, with the path it was made on. */
  datatype FsError = StatError(path: string) | ReadError(path: string) | ReadDirError(path: string)

  /** The text stored for a directory without entries. */
  const EmptyDirectoryMarker: string := "empty directory"

  /** os.Stat: whether the path is a directory. */
  function Stat(fs: FileSystem, p: string): Result<bool, FsError> {
    if p !in fs then Err(StatError(p)) else Ok(fs[p].Dir? || fs[p].UnlistableDir?)
  }

  /** getFileContent: the file's text. */
  function GetFileContent(fs: FileSystem, p: string): Result<string, FsError> {
    if p in fs && fs[p].File? then Ok(fs[p].content) else Err(ReadError(p))
  }

  /** os.ReadDir: the number of entries of the directory. */
  function ReadDir(fs: FileSystem, p: string): Result<nat, FsError> {
    if p in fs && fs[p].Dir? then Ok(fs[p].entryCount) else Err(ReadDirError(p))
  }

  /** What loading one path does: store a text for it, store nothing, or report an error. */
  datatype Outcome = Store(text: string) | Skip | Fail(error: FsError)

  /** The loading rule, stated on the node at the path. */
  function Classify(fs: FileSystem, p: string): Outcome {
    if p !in fs then Fail(StatError(p))
    else match fs[p]
      case File(content) => Store(content)
      case UnreadableFile => Fail(ReadError(p))
      case Dir(n) => if n == 0 then Store(EmptyDirectoryMarker) else Skip
      case UnlistableDir => Fail(ReadDirError(p))
  }

  /** The map the loader returns when no path fails. */
  function ContentMap(fs: FileSystem, paths: seq<string>): (m: map<string, string>)
    ensures forall p :: p in m <==> p in paths && p in fs && (fs[p].File? || fs[p] == Dir(0))
    ensures forall p :: p in m && fs[p].File? ==> m[p] == fs[p].content
    ensures forall p :: p in m && fs[p].Dir? ==> m[p] == EmptyDirectoryMarker
  {
    map p | p in paths && Classify(fs, p).Store? :: Classify(fs, p).text
  }

  /** The body of one loader goroutine: stat, then read the file or list the directory. */
  method LoadPath(fs: FileSystem, p: string) returns (outcome: Outcome)
    ensures outcome == Classify(fs, p)
  {
    var info := Stat(fs, p);
    if info.Err? {
      return Fail(info.error);
    }
    if !info.value {
      var fileContent := GetFileContent(fs, p);
      if fileContent.Err? {
        return Fail(fileContent.error);
      }
      return Store(fileContent.value);
    } else {
      var dirEntries := ReadDir(fs, p);
      if dirEntries.Err? {
        return Fail(dirEntries.error);
      }
      if dirEntries.value == 0 {
        return Store(EmptyDirectoryMarker);
      }
      return Skip;
    }
  }

  /** Loading one more path adds at most its own entry. */
  lemma ContentMapSnoc(fs: FileSystem, paths: seq<string>, p: string)
    ensures ContentMap(fs, paths + [p]) ==
      (if Classify(fs, p).Store? then ContentMap(fs, paths)[p := Classify(fs, p).text] else ContentMap(fs, paths))
  {
    var m, m' := ContentMap(fs, paths), ContentMap(fs, paths + [p]);
    if Classify(fs, p).Store? {
      assert m'.Keys == m.Keys + {p};
    } else {
      assert m'.Keys == m.Keys;
    }
  }

  /**
   * GetContentMapOfFiles, with the goroutines run one after another: an error
   * if any path fails (one of the failing paths' errors), else the content map.
   */
  method GetContentMapOfFiles(fs: FileSystem, filePaths: seq<string>, maxConcurrency: int)
    returns (result: Result<map<string, string>, FsError>)
    requires maxConcurrency > 0
    ensures result.Err? <==> exists i :: 0 <= i < |filePaths| && Classify(fs, filePaths[i]).Fail?
    ensures result.Err? ==> exists i :: 0 <= i < |filePaths| && Classify(fs, filePaths[i]) == Fail(result.error)
    ensures result.Ok? ==> result.value == ContentMap(fs, filePaths)
  {
    var fileContentMap: map<string, string> := map[];
    var errors: seq<FsError> := [];
    for i := 0 to |filePaths|
      invariant forall k :: 0 <= k < |errors| ==> exists j :: 0 <= j < i && Classify(fs, filePaths[j]) == Fail(errors[k])
      invariant |errors| == 0 <==> forall j :: 0 <= j < i ==> !Classify(fs, filePaths[j]).Fail?
      invariant fileContentMap == ContentMap(fs, filePaths[..i])
    {
      var path := filePaths[i];
      assert filePaths[..i + 1] == filePaths[..i] + [path];
      ContentMapSnoc(fs, filePaths[..i], path);
      var outcome := LoadPath(fs, path);
      match outcome
      case Fail(e) =>
        errors := errors + [e];
      case Store(text) =>
        fileContentMap := fileContentMap[path := text];
      case Skip =>
    }
    assert filePaths[..|filePaths|] == filePaths;
    if |errors| > 0 {
      return Err(errors[0]);
    }
    return Ok(fileContentMap);
  }

  /** The loaded map depends only on which paths are given, not on their order or repetition. */
  lemma ContentMapIgnoresOrder(fs: FileSystem, a: seq<string>, b: seq<string>)
    requires forall p :: p in a <==> p in b
    ensures ContentMap(fs, a) == ContentMap(fs, b)
  {
  }

  /** The filesystem of the loader test: two files, a directory with one entry, an empty directory. */
  function LoaderTestFileSystem(): FileSystem {
    map["tmp/file1.txt" := File("content1"), "tmp/subdir_1" := Dir(1),
        "tmp/subdir_1/file2.txt" := File("content2"), "tmp/subdir_2" := Dir(0)]
  }

  /** In the loader test nothing fails; files map to their text, the empty directory to the marker. */
  lemma LoaderTestContents()
    ensures forall p :: p in ["tmp/file1.txt", "tmp/subdir_1", "tmp/subdir_1/file2.txt", "tmp/subdir_2"] ==>
      !Classify(LoaderTestFileSystem(), p).Fail?
    ensures var m := ContentMap(LoaderTestFileSystem(), ["tmp/file1.txt", "tmp/subdir_1", "tmp/subdir_1/file2.txt", "tmp/subdir_2"]);
      && m.Keys == {"tmp/file1.txt", "tmp/subdir_1/file2.txt", "tmp/subdir_2"}
      && m["tmp/file1.txt"] == "content1"
      && m["tmp/subdir_1/file2.txt"] == "content2"
      && m["tmp/subdir_2"] == EmptyDirectoryMarker
  {
    var fs := LoaderTestFileSystem();
    var paths := ["tmp/file1.txt", "tmp/subdir_1", "tmp/subdir_1/file2.txt", "tmp/subdir_2"];
    var m := ContentMap(fs, paths);
    assert fs["tmp/subdir_1"] == Dir(1);
    assert m.Keys == {"tmp/file1.txt", "tmp/subdir_1/file2.txt", "tmp/subdir_2"};
  }
}
