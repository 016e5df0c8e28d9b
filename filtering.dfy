/**
 * internal/files/filtering.go: dropping paths by full-path prefix.
 */
module Filtering {
  import opened Strings
  import opened Sequences

  /** Whether `path` starts with at least one of `prefixes`. */
  predicate StartsWithAny(path: string, prefixes: seq<string>) {
    exists p :: p in prefixes && HasPrefix(path, p)
  }

  /** The paths that start with none of the prefixes, in their original order. */
  function Retained(paths: seq<string>, prefixes: seq<string>): seq<string> {
    if paths == [] then []
    else
      var last := paths[|paths| - 1];
      var init := paths[..|paths| - 1];
      assert paths == init + [last];
      Retained(init, prefixes) + (if StartsWithAny(last, prefixes) then [] else [last])
  }

  /**
   * FilterFilePaths: keeps each path that starts with none of the prefixes;
   * the inner loop stops at the first prefix found.
   */
  method FilterFilePaths(filePaths: seq<string>, prefixesToFilter: seq<string>) returns (retainedFilePaths: seq<string>)
    ensures retainedFilePaths == Retained(filePaths, prefixesToFilter)
  {
    retainedFilePaths := [];
    for i := 0 to |filePaths|
      invariant retainedFilePaths == Retained(filePaths[..i], prefixesToFilter)
    {
      var filePath := filePaths[i];
      var isPrefixFound := false;
      for j := 0 to |prefixesToFilter|
        invariant isPrefixFound == exists k :: 0 <= k < j && HasPrefix(filePath, prefixesToFilter[k])
      {
        if HasPrefix(filePath, prefixesToFilter[j]) {
          isPrefixFound := true;
          break;
        }
      }
      assert isPrefixFound == StartsWithAny(filePath, prefixesToFilter);
      if !isPrefixFound {
        retainedFilePaths := retainedFilePaths + [filePath];
      }
      assert filePaths[..i + 1] == filePaths[..i] + [filePath];
    }
    assert filePaths[..|filePaths|] == filePaths;
  }

  /**
   * Soundness and completeness: a path is retained exactly when it is an
   * input path that starts with none of the prefixes; so every input path
   * missing from the result starts with some prefix.
   */
  lemma {:induction false} RetainedMembers(paths: seq<string>, prefixes: seq<string>)
    ensures forall p :: p in Retained(paths, prefixes) <==> p in paths && !StartsWithAny(p, prefixes)
  {
    if paths != [] {
      var last := paths[|paths| - 1];
      var init := paths[..|paths| - 1];
      assert paths == init + [last];
      RetainedMembers(init, prefixes);
      assert Retained(paths, prefixes) == Retained(init, prefixes) + (if StartsWithAny(last, prefixes) then [] else [last]);
    }
  }

  /** The result keeps the input's relative order: it is a subsequence. */
  lemma {:induction false} RetainedIsSubsequence(paths: seq<string>, prefixes: seq<string>)
    ensures IsSubsequence(Retained(paths, prefixes), paths)
  {
    if paths == [] {
      EmptyIsSubsequence(paths);
    } else {
      var last := paths[|paths| - 1];
      var init := paths[..|paths| - 1];
      assert paths == init + [last];
      RetainedIsSubsequence(init, prefixes);
      assert Retained(paths, prefixes) == Retained(init, prefixes) + (if StartsWithAny(last, prefixes) then [] else [last]);
      if StartsWithAny(last, prefixes) {
        assert Retained(paths, prefixes) == Retained(init, prefixes);
        SubsequenceSnocSkip(Retained(init, prefixes), init, last);
      } else {
        SubsequenceSnocKeep(Retained(init, prefixes), init, last);
      }
    }
  }

  /** Filtering twice with the same prefixes changes nothing more. */
  lemma {:induction false} RetainedIdempotent(paths: seq<string>, prefixes: seq<string>)
    ensures Retained(Retained(paths, prefixes), prefixes) == Retained(paths, prefixes)
  {
    if paths != [] {
      var last := paths[|paths| - 1];
      var init := paths[..|paths| - 1];
      assert paths == init + [last];
      var r := Retained(init, prefixes);
      assert Retained(paths, prefixes) == r + (if StartsWithAny(last, prefixes) then [] else [last]);
      RetainedIdempotent(init, prefixes);
      if StartsWithAny(last, prefixes) {
        assert Retained(paths, prefixes) == r;
      } else {
        assert Retained(paths, prefixes) == r + [last];
        RetainedSnocKept(r, last, prefixes);
      }
    }
  }

  lemma RetainedSnocKept(r: seq<string>, last: string, prefixes: seq<string>)
    requires !StartsWithAny(last, prefixes)
    ensures Retained(r + [last], prefixes) == Retained(r, prefixes) + [last]
  {
    var r' := r + [last];
    assert r'[..|r'| - 1] == r;
  }

  /** When every path starts with some prefix, nothing is retained. */
  lemma AllMatchedLeavesNothing(paths: seq<string>, prefixes: seq<string>)
    requires forall p :: p in paths ==> StartsWithAny(p, prefixes)
    ensures Retained(paths, prefixes) == []
  {
    RetainedMembers(paths, prefixes);
  }

  /** The empty prefix matches every path, so it removes everything. */
  lemma EmptyPrefixRemovesAll(paths: seq<string>, prefixes: seq<string>)
    requires "" in prefixes
    ensures Retained(paths, prefixes) == []
  {
    forall p | p in paths ensures StartsWithAny(p, prefixes) {
      assert HasPrefix(p, "");
    }
    AllMatchedLeavesNothing(paths, prefixes);
  }

  /** Filtering distributes over concatenation. */
  lemma {:induction false} RetainedAppend(a: seq<string>, b: seq<string>, prefixes: seq<string>)
    ensures Retained(a + b, prefixes) == Retained(a, prefixes) + Retained(b, prefixes)
    decreases |b|
  {
    if b == [] {
      assert a + b == a;
    } else {
      var init := b[..|b| - 1];
      var last := b[|b| - 1];
      assert b == init + [last];
      assert a + b == (a + init) + [last];
      RetainedAppend(a, init, prefixes);
      assert (a + b)[..|a + b| - 1] == a + init;
    }
  }

  lemma RetainedSingle(p: string, prefixes: seq<string>)
    ensures Retained([p], prefixes) == if StartsWithAny(p, prefixes) then [] else [p]
  {
    assert [p][..0] == [];
  }

  /** A path whose first character begins none of the prefixes starts with none of them. */
  lemma FirstCharacterMismatch(path: string, prefixes: seq<string>)
    requires path != []
    requires forall p :: p in prefixes ==> p != [] && p[0] != path[0]
    ensures !StartsWithAny(path, prefixes)
  {
  }

  /** tests/files/filtering_test.go, "No filter match". */
  lemma FilterTestNoMatch()
    ensures Retained(["main.go", "internal/files/reading.go", "internal/formatting/format.go"], ["test"])
            == ["main.go", "internal/files/reading.go", "internal/formatting/format.go"]
  {
    var main, reading, format := "main.go", "internal/files/reading.go", "internal/formatting/format.go";
    var ps := ["test"];
    FirstCharacterMismatch(main, ps);
    FirstCharacterMismatch(reading, ps);
    FirstCharacterMismatch(format, ps);
    RetainedSingle(main, ps);
    RetainedSingle(reading, ps);
    RetainedSingle(format, ps);
    RetainedAppend([main], [reading], ps);
    assert [main] + [reading] == [main, reading];
    RetainedAppend([main, reading], [format], ps);
    assert [main, reading] + [format] == [main, reading, format];
  }

  /** tests/files/filtering_test.go, "Single filter match". */
  lemma FilterTestSingleMatch()
    ensures Retained(["main.go", "internal/files/reading.go", "internal/formatting/format.go"], ["internal"])
            == ["main.go"]
  {
    var main, reading, format := "main.go", "internal/files/reading.go", "internal/formatting/format.go";
    var ps := ["internal"];
    assert Retained([main], ps) == [main] by {
      FirstCharacterMismatch(main, ps);
      RetainedSingle(main, ps);
    }
    assert Retained([reading], ps) == [] by {
      assert HasPrefix(reading, "internal");
      RetainedSingle(reading, ps);
    }
    assert Retained([format], ps) == [] by {
      assert HasPrefix(format, "internal");
      RetainedSingle(format, ps);
    }
    RetainedAppend([main], [reading], ps);
    assert [main] + [reading] == [main, reading];
    assert Retained([main, reading], ps) == [main];
    RetainedAppend([main, reading], [format], ps);
    assert [main, reading] + [format] == [main, reading, format];
    assert Retained([main, reading, format], ps) == [main];
  }

  /** tests/files/filtering_test.go, "Multiple filter matches": "." removes ".gitignore". */
  lemma FilterTestMultipleMatches()
    ensures Retained(["main.go", "internal/files/reading.go", "cmd/ai-code-review/main.go", ".gitignore"],
                     ["internal", "cmd", "."])
            == ["main.go"]
  {
    var ps := ["internal", "cmd", "."];
    var front, back := ["main.go", "internal/files/reading.go"], ["cmd/ai-code-review/main.go", ".gitignore"];
    MultipleMatchesFront();
    MultipleMatchesBack();
    RetainedAppend(front, back, ps);
    assert front + back == ["main.go", "internal/files/reading.go", "cmd/ai-code-review/main.go", ".gitignore"];
  }

  lemma MultipleMatchesFront()
    ensures Retained(["main.go", "internal/files/reading.go"], ["internal", "cmd", "."]) == ["main.go"]
  {
    var main, reading := "main.go", "internal/files/reading.go";
    var ps := ["internal", "cmd", "."];
    assert Retained([main], ps) == [main] by {
      FirstCharacterMismatch(main, ps);
      RetainedSingle(main, ps);
    }
    assert Retained([reading], ps) == [] by {
      assert HasPrefix(reading, ps[0]);
      RetainedSingle(reading, ps);
    }
    RetainedAppend([main], [reading], ps);
    assert [main] + [reading] == [main, reading];
    assert Retained([main, reading], ps) == [main];
  }

  lemma MultipleMatchesBack()
    ensures Retained(["cmd/ai-code-review/main.go", ".gitignore"], ["internal", "cmd", "."]) == []
  {
    var cmdMain, gitignore := "cmd/ai-code-review/main.go", ".gitignore";
    var ps := ["internal", "cmd", "."];
    assert HasPrefix(cmdMain, ps[1]) && HasPrefix(gitignore, ps[2]);
    AllMatchedLeavesNothing([cmdMain, gitignore], ps);
  }

  /** tests/files/filtering_test.go, "No files left after filtering". */
  lemma FilterTestNothingLeft()
    ensures Retained(["internal/files/reading.go", "cmd/ai-code-review/main.go"], ["internal", "cmd"]) == []
  {
    var reading, cmdMain := "internal/files/reading.go", "cmd/ai-code-review/main.go";
    assert HasPrefix(reading, "internal") && HasPrefix(cmdMain, "cmd");
    AllMatchedLeavesNothing([reading, cmdMain], ["internal", "cmd"]);
  }
}
