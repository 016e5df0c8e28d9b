# crev: path selection, content loading and bundle rendering in Dafny

crev flattens a software project into one text file (the "bundle") that can
be handed to a language model. This project models the core of that
pipeline and proves properties of it:

- **Path filtering** (`internal/files/filtering.go`, module `Filtering`):
  `FilterFilePaths` keeps, in order, the paths that start with none of the
  given prefixes.
- **Walk selection** (`internal/files/reading.go`, module `Reading`): the
  per-entry callback of `GetAllFilePaths`. It skips the walk root. It drops
  an entry when a prefix rule hits the full path or any `/`-separated
  element of it. It then applies the optional "extensions to keep" rule,
  under which directories always survive. An error reported by the walk
  aborts it, and only the error is returned.
- **Content loading** (`reading.go`, module `Reading`): `GetContentMapOfFiles`.
  A file maps to its text and an empty directory to `"empty directory"`. A
  non-empty directory gets no entry. Any stat, read or list failure makes
  the loader return an error instead of a map.
- **Tree rendering and bundle text** (`internal/formatting/format.go`, module
  `Formatting`):
  - `calculatePathLevel`, `checkIfLastPathAtLevel` and `buildTreeBranch`,
    with its per-level prefix map (class `LevelPrefixes`).
  - `GeneratePathTree`, which sorts the caller's slice in place (an
    `array`) and draws one box-drawing line per path.
  - `CreateProjectString`, which writes a header, the tree, and one
    `File:`/`Content:` block per map key in ascending key order.

The supporting modules are:

- `Strings`: `strings.HasPrefix`, and `strings.Split` on one separator
  character with its inverse `Join`.
- `FilePath`: `filepath.Base` and `filepath.Ext` for the separator `/`.
- `Sorting`: Go's string order, `sort.Strings` as an in-place insertion sort,
  and the sorted listing of a set of keys.
- `Sequences`: subsequences.
- `Results`: `Result`, for Go's `(value, error)` pairs.

How things are modelled:

- A directory walk is the sequence of callback invocations `filepath.WalkDir`
  makes. Each is a `Visit(path, isDir)`, or a `Failed(message)` for an error
  passed to the callback.
- The filesystem the loader reads is a `map<string, Node>`. A path missing
  from the map fails `os.Stat`.
- Go strings compare byte-wise. For valid UTF-8, byte order equals
  code-point order, so the model compares `char` sequences lexicographically
  (strings that are not valid UTF-8 are under "Left out").

## Model

| member | source | states |
|---|---|---|
| Filtering.FilterFilePaths | internal/files/filtering.go:9-24 | the nested loop with its early `break` returns exactly `Retained`: the input paths that start with none of the prefixes, in input order |
| Filtering.RetainedMembers | internal/files/filtering.go:11-22 | soundness and completeness: a path is retained iff it is an input path that starts with no prefix. So every dropped input path starts with some prefix |
| Filtering.RetainedIsSubsequence | internal/files/filtering.go:10-23 | the result is a subsequence of the input, so relative order is preserved |
| Filtering.RetainedIdempotent | internal/files/filtering.go:11-22 | filtering an already filtered list with the same prefixes returns it unchanged |
| Filtering.RetainedAppend | internal/files/filtering.go:11-22 | each path is judged on its own: filtering distributes over concatenation |
| Filtering.AllMatchedLeavesNothing | internal/files/filtering.go:13-21 | when every path starts with some prefix, the result is empty |
| Filtering.EmptyPrefixRemovesAll | internal/files/filtering.go:14 | the empty prefix matches every path, so it removes everything |
| Filtering.FilterTestNoMatch | tests/files/filtering_test.go:17-22 | prefix "test" keeps all three sample paths |
| Filtering.FilterTestSingleMatch | tests/files/filtering_test.go:23-28 | prefix "internal" leaves only "main.go". Matching is on the full path |
| Filtering.FilterTestMultipleMatches | tests/files/filtering_test.go:29-35 | prefixes "internal", "cmd" and "." leave only "main.go". "." removes ".gitignore" |
| Filtering.FilterTestNothingLeft | tests/files/filtering_test.go:36-41 | when every path matches, the result is empty |
| Reading.IsExcludedByPrefix | internal/files/reading.go:25-37 | the prefix loop returns true exactly when some prefix starts the full path or one of its `/`-separated elements |
| Reading.HasExtensionToKeep | internal/files/reading.go:48-53 | the extension loop finds a match exactly when `filepath.Ext(path)` equals a listed extension |
| Reading.GetAllFilePaths | internal/files/reading.go:14-63 | the result is an error iff the walk reports one. The error is the message of a reported failure with no failure before it. Otherwise the result is exactly `Selection`: the paths of the entries that pass the root, prefix and extension rules, in walk order |
| Reading.SelectionMembers | internal/files/reading.go:20-55 | a path is listed iff some visited entry with that path is not the root, is hit by no prefix rule, and passes the extension rule |
| Reading.RootNeverListed | internal/files/reading.go:21-23 | the walk root is never listed |
| Reading.ExcludedNeverListed | internal/files/reading.go:25-37 | a path hit by a prefix rule, on the full path or on one element, is never listed |
| Reading.NoExtensionRuleKeepsAll | internal/files/reading.go:40-41 | with no extensions to keep, every visited non-root entry that no prefix rule hits is listed |
| Reading.DirectoriesSurvive | internal/files/reading.go:43-45 | under any extension list, a visited directory that no prefix rule hits is listed |
| Reading.FileKeptIffExtensionListed | internal/files/reading.go:46-53 | under a non-empty extension list, a file that no prefix rule hits is listed iff its extension equals a listed one exactly |
| Reading.SelectionIsSubsequence | internal/files/reading.go:16-57 | the listing is a subsequence of the visited paths, in walk order |
| Reading.SelectionAtMostOncePerVisit | internal/files/reading.go:43-53 | no path is listed more often than it is visited: each entry is appended at most once |
| Reading.SubtreeExcluded | internal/files/reading.go:27-35 | if a directory is hit by a prefix rule, every path beneath it is hit too |
| Reading.RuleIsPlainPrefix | internal/files/reading.go:27-29 | rules are plain string prefixes: "internal" also drops "internal2/x.go" |
| Reading.ElementRuleHitsAtAnyDepth | internal/files/reading.go:30-36 | an element starting with a rule's prefix excludes the path wherever it stands: as a middle element (`parent/element/rest`), as the last element (`parent/element`) or as the first element (`element/rest`) |
| Reading.NestedElementExcluded | internal/files/reading.go:30-36 | ".git" drops "src/.git/config" through the element check, although the full path does not start with it |
| Reading.WalkTestAllEntries | tests/files/reading_test.go:12-47 | the test's walk (root, file1.txt, subdir, subdir/file2.txt) with no rules lists the three entries below the root |
| Reading.ContentMap | internal/files/reading.go:92-107 | keys are exactly the given paths that are readable files or directories without entries. A file maps to its content and an empty directory to "empty directory" |
| Reading.LoadPath | internal/files/reading.go:87-108 | one goroutine body: stat, then read the file or list the directory. It agrees with the rule `Classify`, including which call's error is reported |
| Reading.GetContentMapOfFiles | internal/files/reading.go:75-124 | the result is an error iff some path fails to stat, read or list. The error is the error of one failing path. Otherwise the result is exactly `ContentMap` |
| Reading.ContentMapIgnoresOrder | internal/files/reading.go:81-110 | the map depends only on which paths are given, not on their order or repetitions |
| Reading.LoaderTestContents | tests/files/reading_test.go:51-90 | in the loader test no path fails. The two files map to their contents, the empty directory to "empty directory", and the non-empty directory is absent |
| Strings.Split | internal/formatting/format.go:13 | `strings.Split` on one character yields one more piece than there are separators, and no piece contains the separator |
| Strings.JoinSplit | internal/files/reading.go:31 | joining the pieces of a split gives back the original string |
| Strings.SplitConcat | internal/files/reading.go:31 | the elements of `a/b` are the elements of `a` followed by those of `b` |
| FilePath.Base | internal/formatting/format.go:50 | `filepath.Base` is never empty. Unless the path is only separators, it is a separator-free suffix of the path with trailing separators removed |
| FilePath.BaseIsLastElement | internal/formatting/format.go:50 | for a path without a trailing separator, `Base` is the last `/`-separated element |
| FilePath.BaseOfChild | internal/formatting/format.go:50 | the base name of `dir/name` is `name` |
| FilePath.Ext | internal/files/reading.go:49 | `filepath.Ext` is either the suffix starting at the final element's last ".", or "" when every "." is followed by a later separator |
| Sorting.SortStrings | internal/formatting/format.go:43 | `sort.Strings` leaves the array sorted ascending and a permutation of its old contents |
| Sorting.SortedUnique | internal/formatting/format.go:67 | two sorted sequences with the same multiset are equal, so sorting makes the output independent of input order |
| Sorting.SortedKeysSorted | internal/formatting/format.go:63-67 | the sorted listing of a key set is ascending and lists each key exactly once |
| Formatting.CalculatePathLevel | internal/formatting/format.go:12-14 | the level of a path is the number of `/` characters in it |
| Formatting.CheckIfLastPathAtLevel | internal/formatting/format.go:17-19 | the path at `i` is last iff it is the final path, or the next path has fewer separators than `level` (it is strictly shallower) |
| Formatting.LevelPrefixes.constructor | internal/formatting/format.go:45 | the level-prefix map starts empty |
| Formatting.BuildTreeBranch | internal/formatting/format.go:22-37 | the branch is the continuations of levels 0 to level-1 (a missing level reads as "") followed by "└── " if last, else "├── ". The map gains "    " if last, else "│   " at `level`, and no other level changes |
| Formatting.GeneratePathTree | internal/formatting/format.go:41-54 | the caller's array is left sorted and a permutation of its old contents. The tree is `RenderTree` of the sorted paths |
| Formatting.DrawTree | internal/formatting/format.go:44-53 | the drawing loop, with its shared level-prefix object, writes exactly `RenderTree` of the array: one line per path, each followed by "\n" |
| Formatting.TreeLinesShape | internal/formatting/format.go:47-51 | there is one line per path. Line j ends with the branch `checkIfLastPathAtLevel` chooses for path j, followed by the base name of path j |
| Formatting.TreeLineCount | internal/formatting/format.go:44-53 | for paths without newlines, splitting the tree on "\n" gives the lines plus one final empty piece (so exactly one terminated line per path). The tree is "" iff there are no paths |
| Formatting.RenderTreeDependsOnlyOnMultiset | internal/formatting/format.go:42-43 | any two sorted arrangements of the same multiset of paths draw the same tree, so the output depends only on the multiset of input paths |
| Formatting.TwoDirectoriesTree | internal/formatting/format.go:17-19 | `a, a/x, b, b/y` draws "├── a", "│   └── x", "├── b", "│   └── y". The second top-level directory gets a tee because only the next path's depth is consulted |
| Formatting.CreateProjectString | internal/formatting/format.go:57-77 | the result is `ProjectString`: "Project Directory Structure:\n", the tree, "\n\n", then one "File: \n" + key + "\n" + "Content: \n" + value + "\n\n" block per key in ascending key order. `ProjectString` is a function of the map value alone, so the result does not depend on the order in which `CollectKeys` visits the keys |
| Formatting.CollectKeys | internal/formatting/format.go:63-66 | the collected array holds each key of the map exactly once, in whatever order the map is visited |
| Formatting.WriteBlocks | internal/formatting/format.go:69-75 | the writing loop appends exactly the blocks of the array's keys, in array order |
| Formatting.ProjectStringLayout | internal/formatting/format.go:62-76 | for any ascending listing of the keys, the bundle is the header and tree followed by those keys' blocks in that order, so iteration order cannot matter |
| Formatting.TwoFilesProjectString | tests/formatting/formatting_test.go:38-59 | with two distinct keys, the bundle is the header and tree, then the smaller key's block, then the other key's block |

## Left out

- Concurrency in `GetContentMapOfFiles`: the goroutines, `sync.WaitGroup`, the
  semaphore channel, `sync.Map` and `errChan` are not modelled. The paths are
  loaded one after another. `maxConcurrency` is kept as a parameter that must
  be positive. A negative value makes `make` panic. With `0`, a non-empty path
  list blocks every goroutine on the semaphore forever; an empty list would
  still return an empty map, a case the model does not cover. `cmd/bundle.go`
  passes 100. `cmd/generate.go` (flag `--max-concurrency`) and
  `cmd/ai-code-review/main.go` (flag `-concurrency`) pass a user flag that
  defaults to 1000 but accepts any integer and is never checked. The model
  therefore excludes runs in which the user chooses 0 or a negative value.
- Reading.GetContentMapOfFiles: the error is stated as some failing path's
  error, not a particular one. Which error the channel yields first depends on
  goroutine scheduling.
- The real filesystem: the traversal order of `filepath.WalkDir` is not
  modelled; the walk is the given sequence of callback invocations. The calls
  `os.Stat`, `getFileContent` (`os.ReadFile`) and `os.ReadDir` are modelled only
  as lookups in the given filesystem map (`Reading.Stat`,
  `Reading.GetFileContent`, `Reading.ReadDir`); permissions, I/O errors other
  than a missing or unreadable node, and changes during the run are not.
- Reading.Node.File, the path strings and Sorting.LessEq: Go strings are byte
  strings. `string(dat)` keeps any bytes a file holds, including binary files
  (nothing here excludes them by extension), and Linux file names need not be
  UTF-8. Dafny's `string` holds Unicode scalar values only, so file contents
  and paths that are not valid UTF-8 cannot be represented. `Sorting.LessEq`
  compares characters, which matches Go's byte order only for valid UTF-8.
- `filepath.Clean` and OS-specific separators: paths are assumed clean and
  separated by `/`. The element check therefore splits the path as given.
- The walk callback returns `nil`, not `filepath.SkipDir`, for an excluded
  directory, so the walk still descends into it. The model follows the code
  and proves instead (`Reading.SubtreeExcluded`) that everything beneath an
  excluded directory is excluded as well.
- `checkIfLastPathAtLevel` marks a path as last only when the next path is
  strictly shallower. A next path at the same depth does not make it last,
  although a "next depth ≤ d" rule would. The model follows the code, and `Formatting.TwoDirectoriesTree` shows what it
  draws.
- `cmd/bundle.go` calls `GetAllFilePaths` with four arguments, including an
  extension-exclude list. The `internal/files/reading.go` in this model takes
  three. The model follows `reading.go`, so no extension-exclude rule exists.
- Filtering.FilterFilePaths: Go returns a `nil` slice when nothing is retained.
  The model returns the empty sequence, which has the same length and
  elements.
- Formatting.TreeLineCount: it assumes no path contains a newline. Otherwise a
  base name would add lines of its own.
- Formatting.CreateProjectString: the specification `ProjectString` is a ghost
  function, because the sorted listing of a set is chosen by `:|`. The method
  itself is compiled code.
- The expected-output files `tests/test_data/expected_tree_1.txt` and
  `expected_project_string_1.txt` are not part of this model. The formatting
  tests are covered instead by small concrete trees and bundles
  (`Formatting.TwoDirectoriesTree`, `Formatting.TwoFilesProjectString`).
- `internal/files/writing.go` is not modelled: it only writes a string to a
  file.
- `internal/review/review.go` is not modelled: it is an HTTP request with JSON
  coding.
- The CLI in `cmd/` is not modelled: cobra and viper flags, configuration,
  timing and token-estimate logging, and the default prefix and extension
  lists.
- `internal/logging/usage.go` is not modelled: it only prints usage text.
