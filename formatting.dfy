/**
 * internal/formatting/format.go: the box-drawing tree of the selected paths
 * and the bundle text that carries the tree and every loaded file.
 */
module Formatting {
  import opened Strings
  import opened FilePath
  import opened Sorting

  // ---------------------------------------------------------------------
  // Tree rendering
  // ---------------------------------------------------------------------

  /** calculatePathLevel: the depth of a path, one less than its number of elements. */
  function CalculatePathLevel(path: string): (level: nat)
    ensures level == Count(path, Separator)
  {
    |Split(path, Separator)| - 1
  }

  /**
   * checkIfLastPathAtLevel: the path at `i` is drawn as the last entry of its
   * level when it is the final path or the next path is strictly shallower.
   */
  function CheckIfLastPathAtLevel(paths: seq<string>, i: nat, level: nat): (isLast: bool)
    requires i < |paths|
    ensures isLast <==> i == |paths| - 1 || CalculatePathLevel(paths[i + 1]) < level
  {
    i == |paths| - 1 || |Split(paths[i + 1], Separator)| <= level
  }

  /** The branch drawn before an entry that has a later sibling. */
  const Tee: string := "├── "
  /** The branch drawn before the last entry of a level. */
  const Elbow: string := "└── "
  /** The continuation drawn under an entry that has a later sibling. */
  const Pipe: string := "│   "
  /** The continuation drawn under the last entry of a level. */
  const Blank: string := "    "

  function Glyph(isLast: bool): string {
    if isLast then Elbow else Tee
  }

  function Continuation(isLast: bool): string {
    if isLast then Blank else Pipe
  }

  /** The level-prefix map GeneratePathTree shares with buildTreeBranch. */
  class LevelPrefixes {
    var entries: map<nat, string>

    constructor()
      ensures entries == map[]
    {
      entries := map[];
    }
  }

  /** A map lookup where a missing level reads as the empty string. */
  function PrefixAt(entries: map<nat, string>, l: nat): string {
    if l in entries then entries[l] else ""
  }

  /** The continuations of levels 0 .. level-1, in order. */
  function AccumulatedPrefix(entries: map<nat, string>, level: nat): string {
    if level == 0 then "" else AccumulatedPrefix(entries, level - 1) + PrefixAt(entries, level - 1)
  }

  /**
   * buildTreeBranch: the continuations of the enclosing levels followed by the
   * entry's own branch; records the continuation for `level` and changes no
   * other level.
   */
  method BuildTreeBranch(levelPrefix: LevelPrefixes, level: nat, isLast: bool) returns (branch: string)
    modifies levelPrefix
    ensures branch == AccumulatedPrefix(old(levelPrefix.entries), level) + Glyph(isLast)
    ensures levelPrefix.entries == old(levelPrefix.entries)[level := Continuation(isLast)]
  {
    var branchPrefix := "";
    for l := 0 to level
      invariant branchPrefix == AccumulatedPrefix(levelPrefix.entries, l)
    {
      branchPrefix := branchPrefix + PrefixAt(levelPrefix.entries, l);
    }
    branch := Tee;
    if isLast {
      branch := Elbow;
      levelPrefix.entries := levelPrefix.entries[level := Blank];
    } else {
      levelPrefix.entries := levelPrefix.entries[level := Pipe];
    }
    branch := branchPrefix + branch;
  }

  /** What the loop of GeneratePathTree works out for one path before drawing it. */
  datatype Row = Row(level: nat, isLast: bool, name: string)

  /** The row of `paths[i]`: its depth, whether it closes its level, its base name. */
  function RowAt(paths: seq<string>, i: nat): Row
    requires i < |paths|
  {
    var level := CalculatePathLevel(paths[i]);
    Row(level, CheckIfLastPathAtLevel(paths, i, level), Base(paths[i]))
  }

  /** The rows of all paths, in order. */
  function Rows(paths: seq<string>): seq<Row> {
    seq(|paths|, i requires 0 <= i < |paths| => RowAt(paths, i))
  }

  /** The line drawn for a row: the enclosing continuations, the branch, the base name. */
  function Line(row: Row, entries: map<nat, string>): string {
    AccumulatedPrefix(entries, row.level) + Glyph(row.isLast) + row.name
  }

  /** The level prefixes after a row is drawn. */
  function NextEntries(row: Row, entries: map<nat, string>): map<nat, string> {
    entries[row.level := Continuation(row.isLast)]
  }

  /** The lines drawn for `rows`, given the level prefixes left by the earlier lines. */
  function TreeLines(rows: seq<Row>, entries: map<nat, string>): seq<string> {
    if rows == [] then [] else [Line(rows[0], entries)] + TreeLines(rows[1..], NextEntries(rows[0], entries))
  }

  /** Each line followed by a newline. */
  function Terminated(lines: seq<string>): string {
    if lines == [] then "" else lines[0] + "\n" + Terminated(lines[1..])
  }

  /** The tree drawn for an already sorted list of paths. */
  function RenderTree(sorted: seq<string>): string {
    Terminated(TreeLines(Rows(sorted), map[]))
  }

  /**
   * GeneratePathTree: sorts the caller's array in place, then draws one line
   * per path.
   */
  method GeneratePathTree(paths: array<string>) returns (tree: string)
    modifies paths
    ensures Sorted(paths[..]) && multiset(paths[..]) == old(multiset(paths[..]))
    ensures tree == RenderTree(paths[..])
  {
    SortStrings(paths);
    tree := DrawTree(paths);
  }

  /** The drawing loop of GeneratePathTree, over the already sorted array. */
  method DrawTree(paths: array<string>) returns (tree: string)
    ensures tree == RenderTree(paths[..])
  {
    ghost var rows := Rows(paths[..]);
    ghost var whole := RenderTree(paths[..]);
    tree := "";
    var levelPrefix := new LevelPrefixes();
    for i := 0 to paths.Length
      invariant tree + Terminated(TreeLines(rows[i..], levelPrefix.entries)) == whole
    {
      var path := paths[i];
      var level := CalculatePathLevel(path);
      var isLast := CheckIfLastPathAtLevel(paths[..], i, level);
      ghost var entries := levelPrefix.entries;
      var branch := BuildTreeBranch(levelPrefix, level, isLast);
      RowOfPath(paths[..], i);
      DrawStep(rows, i, entries, tree, whole);
      tree := tree + (branch + Base(path) + "\n");
    }
    assert rows[paths.Length..] == [];
  }

  /** The row of path i is made of its level, checkIfLastPathAtLevel's answer and its base name. */
  lemma RowOfPath(paths: seq<string>, i: nat)
    requires i < |paths|
    ensures Rows(paths)[i] == Row(CalculatePathLevel(paths[i]),
                                  CheckIfLastPathAtLevel(paths, i, CalculatePathLevel(paths[i])),
                                  Base(paths[i]))
  {
  }

  /** Drawing row i prints its line, then the rest with the prefixes it leaves. */
  lemma DrawStep(rows: seq<Row>, i: nat, entries: map<nat, string>, tree: string, whole: string)
    requires i < |rows|
    requires tree + Terminated(TreeLines(rows[i..], entries)) == whole
    ensures (tree + (Line(rows[i], entries) + "\n")) + Terminated(TreeLines(rows[i + 1..], NextEntries(rows[i], entries))) == whole
  {
    assert rows[i..][1..] == rows[i + 1..];
  }

  /** One line per row. */
  lemma {:induction false} TreeLinesLength(rows: seq<Row>, entries: map<nat, string>)
    ensures |TreeLines(rows, entries)| == |rows|
  {
    if rows != [] {
      TreeLinesLength(rows[1..], NextEntries(rows[0], entries));
    }
  }

  /** The level prefixes in force when the line for `rows[j]` is drawn. */
  function EntriesBefore(rows: seq<Row>, entries: map<nat, string>, j: nat): map<nat, string>
    requires j <= |rows|
  {
    if j == 0 then entries else EntriesBefore(rows[1..], NextEntries(rows[0], entries), j - 1)
  }

  /** Line j is the line drawn for `rows[j]`. */
  lemma {:induction false} TreeLinesAt(rows: seq<Row>, entries: map<nat, string>, j: nat)
    requires j < |rows|
    ensures |TreeLines(rows, entries)| == |rows|
    ensures TreeLines(rows, entries)[j] == Line(rows[j], EntriesBefore(rows, entries, j))
  {
    TreeLinesLength(rows, entries);
    if j > 0 {
      var next := NextEntries(rows[0], entries);
      TreeLinesAt(rows[1..], next, j - 1);
      assert TreeLines(rows, entries)[j] == TreeLines(rows[1..], next)[j - 1];
    }
  }

  lemma SuffixOfConcat(a: string, b: string, c: string)
    ensures HasSuffix(a + b + c, b + c)
  {
    var s := a + b + c;
    assert s[|a|..] == b + c by {
      forall k | 0 <= k < |b + c| ensures s[|a|..][k] == (b + c)[k] {
        if k < |b| {
          assert s[|a| + k] == b[k];
        } else {
          assert s[|a| + k] == c[k - |b|];
        }
      }
    }
  }

  /**
   * One line per path; line j ends with the branch checkIfLastPathAtLevel
   * chooses for path j and with the base name of path j.
   */
  lemma TreeLinesShape(sorted: seq<string>)
    ensures |TreeLines(Rows(sorted), map[])| == |sorted|
    ensures forall j :: 0 <= j < |sorted| ==>
      HasSuffix(TreeLines(Rows(sorted), map[])[j],
                Glyph(CheckIfLastPathAtLevel(sorted, j, CalculatePathLevel(sorted[j]))) + Base(sorted[j]))
  {
    var rows := Rows(sorted);
    TreeLinesLength(rows, map[]);
    forall j | 0 <= j < |sorted|
      ensures HasSuffix(TreeLines(rows, map[])[j],
                        Glyph(CheckIfLastPathAtLevel(sorted, j, CalculatePathLevel(sorted[j]))) + Base(sorted[j]))
    {
      TreeLinesAt(rows, map[], j);
      SuffixOfConcat(AccumulatedPrefix(EntriesBefore(rows, map[], j), rows[j].level), Glyph(rows[j].isLast), rows[j].name);
    }
  }

  /** The continuations stored so far are the two four-column markers. */
  predicate ValidPrefixes(entries: map<nat, string>) {
    forall l :: l in entries ==> entries[l] == Blank || entries[l] == Pipe
  }

  lemma {:induction false} AccumulatedPrefixNoNewline(entries: map<nat, string>, level: nat)
    requires ValidPrefixes(entries)
    ensures '\n' !in AccumulatedPrefix(entries, level)
  {
    if level > 0 {
      AccumulatedPrefixNoNewline(entries, level - 1);
    }
  }

  /** No drawn line contains a newline when no base name does. */
  lemma {:induction false} TreeLinesNoNewline(rows: seq<Row>, entries: map<nat, string>)
    requires ValidPrefixes(entries)
    requires forall k :: 0 <= k < |rows| ==> '\n' !in rows[k].name
    ensures forall k :: 0 <= k < |TreeLines(rows, entries)| ==> '\n' !in TreeLines(rows, entries)[k]
  {
    if rows != [] {
      var line := Line(rows[0], entries);
      var next := NextEntries(rows[0], entries);
      AccumulatedPrefixNoNewline(entries, rows[0].level);
      assert '\n' !in line;
      TreeLinesNoNewline(rows[1..], next);
      assert TreeLines(rows, entries) == [line] + TreeLines(rows[1..], next);
    }
  }

  /** Newline-terminating every line is joining them with a final empty piece. */
  lemma {:induction false} TerminatedIsJoin(lines: seq<string>)
    ensures Terminated(lines) == Join(lines + [""], '\n')
  {
    if lines != [] {
      TerminatedIsJoin(lines[1..]);
      assert (lines + [""])[1..] == lines[1..] + [""];
    }
  }

  /** Terminated lines without newlines split back into the lines and a final empty piece. */
  lemma TerminatedSplits(lines: seq<string>)
    requires forall k :: 0 <= k < |lines| ==> '\n' !in lines[k]
    ensures Split(Terminated(lines), '\n') == lines + [""]
  {
    TerminatedIsJoin(lines);
    SplitJoin(lines + [""], '\n');
  }

  /** Only no lines give the empty text. */
  lemma TerminatedEmpty(lines: seq<string>)
    ensures Terminated(lines) == "" <==> lines == []
  {
    if lines != [] {
      assert |Terminated(lines)| >= 1;
    }
  }

  /** A path without a newline has a base name without one. */
  lemma RowNameNoNewline(sorted: seq<string>, k: nat)
    requires k < |sorted| && '\n' !in sorted[k]
    ensures '\n' !in Rows(sorted)[k].name
  {
    BaseAvoids(sorted[k], '\n');
  }

  /**
   * The tree has exactly one newline-terminated line per path (so no paths
   * give the empty string), when no path contains a newline.
   */
  lemma TreeLineCount(sorted: seq<string>)
    requires forall k :: 0 <= k < |sorted| ==> '\n' !in sorted[k]
    ensures Split(RenderTree(sorted), '\n') == TreeLines(Rows(sorted), map[]) + [""]
    ensures |Split(RenderTree(sorted), '\n')| == |sorted| + 1
    ensures RenderTree(sorted) == "" <==> |sorted| == 0
  {
    var rows := Rows(sorted);
    var lines := TreeLines(rows, map[]);
    TreeLinesLength(rows, map[]);
    forall k | 0 <= k < |rows| ensures '\n' !in rows[k].name {
      RowNameNoNewline(sorted, k);
    }
    TreeLinesNoNewline(rows, map[]);
    TerminatedSplits(lines);
    TerminatedEmpty(lines);
  }

  /** The tree depends only on the multiset of paths: any two sorted arrangements draw the same. */
  lemma RenderTreeDependsOnlyOnMultiset(a: seq<string>, b: seq<string>)
    requires Sorted(a) && Sorted(b) && multiset(a) == multiset(b)
    ensures RenderTree(a) == RenderTree(b)
  {
    SortedUnique(a, b);
  }

  /** A single element is at level 0. */
  lemma LevelOfElement(name: string)
    requires Separator !in name
    ensures CalculatePathLevel(name) == 0
  {
    SplitNoSeparator(name, Separator);
  }

  /** `dir/name` is at level 1. */
  lemma LevelOfChild(dir: string, name: string)
    requires Separator !in dir && Separator !in name
    ensures CalculatePathLevel(dir + [Separator] + name) == 1
  {
    SplitConcat(dir, name, Separator);
    SplitNoSeparator(dir, Separator);
    SplitNoSeparator(name, Separator);
  }

  /** The rows of two top-level directories with one file each. */
  lemma TwoDirectoriesRows(d1: string, f1: string, d2: string, f2: string)
    requires d1 != "" && f1 != "" && d2 != "" && f2 != ""
    requires Separator !in d1 && Separator !in f1 && Separator !in d2 && Separator !in f2
    ensures Rows([d1, d1 + [Separator] + f1, d2, d2 + [Separator] + f2])
      == [Row(0, false, d1), Row(1, true, f1), Row(0, false, d2), Row(1, true, f2)]
  {
    TwoDirectoriesRow0(d1, f1, d2, f2);
    TwoDirectoriesRow1(d1, f1, d2, f2);
    TwoDirectoriesRow2(d1, f1, d2, f2);
    TwoDirectoriesRow3(d1, f1, d2, f2);
    SeqOfFour(Rows([d1, d1 + [Separator] + f1, d2, d2 + [Separator] + f2]), Row(0, false, d1), Row(1, true, f1), Row(0, false, d2), Row(1, true, f2));
  }

  lemma TwoDirectoriesRow0(d1: string, f1: string, d2: string, f2: string)
    requires d1 != "" && f1 != "" && d2 != "" && f2 != ""
    requires Separator !in d1 && Separator !in f1 && Separator !in d2 && Separator !in f2
    ensures Rows([d1, d1 + [Separator] + f1, d2, d2 + [Separator] + f2])[0] == Row(0, false, d1)
  {
    LevelOfElement(d1);
    LevelOfChild(d1, f1);
    BaseOfElement(d1);
    RowOfPath([d1, d1 + [Separator] + f1, d2, d2 + [Separator] + f2], 0);
  }

  lemma TwoDirectoriesRow1(d1: string, f1: string, d2: string, f2: string)
    requires d1 != "" && f1 != "" && d2 != "" && f2 != ""
    requires Separator !in d1 && Separator !in f1 && Separator !in d2 && Separator !in f2
    ensures Rows([d1, d1 + [Separator] + f1, d2, d2 + [Separator] + f2])[1] == Row(1, true, f1)
  {
    LevelOfChild(d1, f1);
    LevelOfElement(d2);
    BaseOfChild(d1, f1);
    RowOfPath([d1, d1 + [Separator] + f1, d2, d2 + [Separator] + f2], 1);
  }

  lemma TwoDirectoriesRow2(d1: string, f1: string, d2: string, f2: string)
    requires d1 != "" && f1 != "" && d2 != "" && f2 != ""
    requires Separator !in d1 && Separator !in f1 && Separator !in d2 && Separator !in f2
    ensures Rows([d1, d1 + [Separator] + f1, d2, d2 + [Separator] + f2])[2] == Row(0, false, d2)
  {
    LevelOfElement(d2);
    LevelOfChild(d2, f2);
    BaseOfElement(d2);
    RowOfPath([d1, d1 + [Separator] + f1, d2, d2 + [Separator] + f2], 2);
  }

  lemma TwoDirectoriesRow3(d1: string, f1: string, d2: string, f2: string)
    requires d1 != "" && f1 != "" && d2 != "" && f2 != ""
    requires Separator !in d1 && Separator !in f1 && Separator !in d2 && Separator !in f2
    ensures Rows([d1, d1 + [Separator] + f1, d2, d2 + [Separator] + f2])[3] == Row(1, true, f2)
  {
    LevelOfChild(d2, f2);
    BaseOfChild(d2, f2);
    RowOfPath([d1, d1 + [Separator] + f1, d2, d2 + [Separator] + f2], 3);
  }

  /**
   * Four indexed elements make a four-element display. Stated over an
   * abstract `s` so that `Rows` of a concrete list stays folded.
   */
  lemma SeqOfFour<T>(s: seq<T>, a: T, b: T, c: T, d: T)
    requires |s| == 4 && s[0] == a && s[1] == b && s[2] == c && s[3] == d
    ensures s == [a, b, c, d]
  {
  }

  /** The lines drawn for those rows. */
  lemma TwoDirectoriesLines(d1: string, f1: string, d2: string, f2: string)
    ensures TreeLines([Row(0, false, d1), Row(1, true, f1), Row(0, false, d2), Row(1, true, f2)], map[])
      == [Tee + d1, Pipe + Elbow + f1, Tee + d2, Pipe + Elbow + f2]
  {
    var r0, r1, r2, r3 := Row(0, false, d1), Row(1, true, f1), Row(0, false, d2), Row(1, true, f2);
    var e1: map<nat, string> := map[0 := Pipe];
    var e2: map<nat, string> := map[0 := Pipe, 1 := Blank];
    assert TreeLines([r3], e2) == [Pipe + Elbow + f2] by {
      assert AccumulatedPrefix(e2, 1) == Pipe;
      assert Line(r3, e2) == Pipe + Elbow + f2;
      assert [r3][1..] == [];
    }
    assert TreeLines([r2, r3], e2) == [Tee + d2, Pipe + Elbow + f2] by {
      assert [r2, r3][1..] == [r3];
      assert Line(r2, e2) == Tee + d2;
      assert NextEntries(r2, e2) == e2;
    }
    assert TreeLines([r1, r2, r3], e1) == [Pipe + Elbow + f1, Tee + d2, Pipe + Elbow + f2] by {
      assert AccumulatedPrefix(e1, 1) == Pipe;
      assert [r1, r2, r3][1..] == [r2, r3];
      assert Line(r1, e1) == Pipe + Elbow + f1;
      assert NextEntries(r1, e1) == e2;
    }
    assert [r0, r1, r2, r3][1..] == [r1, r2, r3];
    assert Line(r0, map[]) == Tee + d1;
    assert NextEntries(r0, map[]) == e1;
  }

  /** Four lines, each followed by a newline. */
  lemma TerminatedFour(l0: string, l1: string, l2: string, l3: string)
    ensures Terminated([l0, l1, l2, l3]) == l0 + "\n" + (l1 + "\n" + (l2 + "\n" + (l3 + "\n")))
  {
    assert [l0, l1, l2, l3][1..] == [l1, l2, l3];
    assert [l1, l2, l3][1..] == [l2, l3];
    assert [l2, l3][1..] == [l3];
    assert [l3][1..] == [];
    assert Terminated([l3]) == l3 + "\n" + "";
    assert l3 + "\n" + "" == l3 + "\n";
    assert Terminated([l2, l3]) == l2 + "\n" + (l3 + "\n");
    assert Terminated([l1, l2, l3]) == l1 + "\n" + (l2 + "\n" + (l3 + "\n"));
  }

  /**
   * Two top-level directories with one file each: the second directory is
   * drawn with a tee although it is the last top-level entry, because only
   * the next path's depth is consulted.
   */
  lemma TwoDirectoriesTree(d1: string, f1: string, d2: string, f2: string)
    requires d1 != "" && f1 != "" && d2 != "" && f2 != ""
    requires Separator !in d1 && Separator !in f1 && Separator !in d2 && Separator !in f2
    ensures RenderTree([d1, d1 + [Separator] + f1, d2, d2 + [Separator] + f2])
      == Tee + d1 + "\n" + (Pipe + Elbow + f1 + "\n" + (Tee + d2 + "\n" + (Pipe + Elbow + f2 + "\n")))
  {
    TwoDirectoriesRows(d1, f1, d2, f2);
    TwoDirectoriesLines(d1, f1, d2, f2);
    TerminatedFour(Tee + d1, Pipe + Elbow + f1, Tee + d2, Pipe + Elbow + f2);
  }

  // ---------------------------------------------------------------------
  // Bundle text
  // ---------------------------------------------------------------------

  /** The first line of the bundle. */
  const Header: string := "Project Directory Structure:\n"

  /** The block written for one loaded path. */
  function FileBlock(name: string, content: string): string {
    "File: \n" + name + "\n" + "Content: \n" + content + "\n\n"
  }

  /** The blocks of the given keys, in the given order. */
  function Blocks(keys: seq<string>, m: map<string, string>): string
    requires forall k :: k in keys ==> k in m
  {
    if keys == [] then "" else Blocks(keys[..|keys| - 1], m) + FileBlock(keys[|keys| - 1], m[keys[|keys| - 1]])
  }

  /** The bundle: header, tree, blank line, then one block per key in ascending key order. */
  ghost function ProjectString(projectTree: string, fileContentMap: map<string, string>): string {
    SortedKeysSorted(fileContentMap.Keys);
    var keys := SortedKeys(fileContentMap.Keys);
    assert forall k :: k in keys ==> k in multiset(fileContentMap.Keys);
    Header + projectTree + "\n\n" + Blocks(keys, fileContentMap)
  }

  /**
   * CreateProjectString: header and tree, then the map's keys collected in
   * iteration order, sorted, and written out one block each.
   */
  method CreateProjectString(projectTree: string, fileContentMap: map<string, string>) returns (projectString: string)
    ensures projectString == ProjectString(projectTree, fileContentMap)
  {
    projectString := Header;
    projectString := projectString + (projectTree + "\n\n");
    var filePaths := CollectKeys(fileContentMap);
    SortStrings(filePaths);
    ProjectStringLayout(projectTree, fileContentMap, filePaths[..]);
    projectString := WriteBlocks(projectString, filePaths, fileContentMap);
  }

  /** The key-collecting loop of CreateProjectString; the visiting order is arbitrary. */
  method CollectKeys(fileContentMap: map<string, string>) returns (filePaths: array<string>)
    ensures fresh(filePaths)
    ensures multiset(filePaths[..]) == multiset(fileContentMap.Keys)
  {
    var collected: seq<string> := [];
    var remaining := fileContentMap.Keys;
    while remaining != {}
      invariant multiset(collected) + multiset(remaining) == multiset(fileContentMap.Keys)
      decreases remaining
    {
      var filePath :| filePath in remaining;
      collected := collected + [filePath];
      remaining := remaining - {filePath};
    }
    filePaths := new string[|collected|](i requires 0 <= i < |collected| => collected[i]);
    assert filePaths[..] == collected;
  }

  /** The block-writing loop of CreateProjectString: one block per path, in array order. */
  method WriteBlocks(prefix: string, filePaths: array<string>, fileContentMap: map<string, string>) returns (projectString: string)
    requires forall k :: 0 <= k < filePaths.Length ==> filePaths[k] in fileContentMap
    ensures projectString == prefix + Blocks(filePaths[..], fileContentMap)
  {
    projectString := prefix;
    for i := 0 to filePaths.Length
      invariant projectString == prefix + Blocks(filePaths[..i], fileContentMap)
    {
      var fileName := filePaths[i];
      var fileContent := fileContentMap[fileName];
      ghost var before := projectString;
      projectString := projectString + ("File: " + "\n");
      projectString := projectString + (fileName + "\n");
      projectString := projectString + ("Content: " + "\n");
      projectString := projectString + (fileContent + "\n\n");
      AppendBlock(prefix, before, filePaths[..i], fileName, fileContentMap);
      assert filePaths[..i + 1] == filePaths[..i] + [fileName];
    }
    assert filePaths[..filePaths.Length] == filePaths[..];
  }

  /** Writing the four parts of one block extends the written blocks by that block. */
  lemma AppendBlock(prefix: string, before: string, keys: seq<string>, name: string, m: map<string, string>)
    requires forall k :: k in keys ==> k in m
    requires name in m
    requires before == prefix + Blocks(keys, m)
    ensures before + ("File: " + "\n") + (name + "\n") + ("Content: " + "\n") + (m[name] + "\n\n")
      == prefix + Blocks(keys + [name], m)
  {
    var ks := keys + [name];
    assert ks[..|ks| - 1] == keys;
  }

  /** The bundle is the header and tree followed by the blocks of any ascending listing of the keys. */
  lemma ProjectStringLayout(projectTree: string, fileContentMap: map<string, string>, keys: seq<string>)
    requires Sorted(keys) && multiset(keys) == multiset(fileContentMap.Keys)
    ensures forall k :: k in keys ==> k in fileContentMap
    ensures ProjectString(projectTree, fileContentMap) == Header + projectTree + "\n\n" + Blocks(keys, fileContentMap)
  {
    assert forall k :: k in keys ==> k in multiset(fileContentMap.Keys);
    SortedKeysSorted(fileContentMap.Keys);
    SortedUnique(keys, SortedKeys(fileContentMap.Keys));
  }

  /** The blocks of two distinct keys, in the given order. */
  lemma TwoBlocks(a: string, x: string, b: string, y: string)
    requires a != b
    ensures Blocks([a, b], map[a := x, b := y]) == FileBlock(a, x) + FileBlock(b, y)
  {
    var m := map[a := x, b := y];
    assert [a, b][..1] == [a];
    assert [a][..0] == [];
    assert Blocks([a], m) == "" + FileBlock(a, x);
    assert "" + FileBlock(a, x) == FileBlock(a, x);
  }

  /** Two files: the bundle lists the block of the smaller key first. */
  lemma TwoFilesProjectString(projectTree: string, a: string, x: string, b: string, y: string)
    requires LessEq(a, b) && a != b
    ensures ProjectString(projectTree, map[a := x, b := y]) == Header + projectTree + "\n\n" + FileBlock(a, x) + FileBlock(b, y)
  {
    var m := map[a := x, b := y];
    assert multiset([a, b]) == multiset(m.Keys) by {
      assert m.Keys == {a, b};
    }
    ProjectStringLayout(projectTree, m, [a, b]);
    TwoBlocks(a, x, b, y);
    assert (Header + projectTree + "\n\n") + (FileBlock(a, x) + FileBlock(b, y))
        == (Header + projectTree + "\n\n") + FileBlock(a, x) + FileBlock(b, y);
  }
}
