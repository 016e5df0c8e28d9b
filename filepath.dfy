/**
 * The parts of Go's `path/filepath` package the core relies on, for the
 * separator `/`: `Base` (the final element) and `Ext` (the extension).
 */
module FilePath {
  import opened Strings

  const Separator: char := '/'

  /** Index of the last `c` in `s`, or -1 when `s` has none. */
  function LastIndex(s: string, c: char): (i: int)
    ensures -1 <= i < |s|
    ensures i >= 0 ==> s[i] == c
    ensures forall j :: i < j < |s| ==> s[j] != c
  {
    if |s| == 0 then -1
    else if s[|s| - 1] == c then |s| - 1
    else LastIndex(s[..|s| - 1], c)
  }

  /** `s` without its trailing run of `c`. */
  function TrimTrailing(s: string, c: char): (r: string)
    ensures r <= s
    ensures r == [] || r[|r| - 1] != c
    ensures forall k :: |r| <= k < |s| ==> s[k] == c
  {
    if |s| > 0 && s[|s| - 1] == c then TrimTrailing(s[..|s| - 1], c) else s
  }

  /**
   * filepath.Base: the last element of the path after trailing separators are
   * removed; "." for the empty path and "/" for a path of separators only.
   */
  function Base(path: string): (b: string)
    ensures b != ""
    ensures TrimTrailing(path, Separator) != "" ==> Separator !in b && HasSuffix(TrimTrailing(path, Separator), b)
  {
    if path == "" then "."
    else
      var t := TrimTrailing(path, Separator);
      var r := t[LastIndex(t, Separator) + 1..];
      if r == "" then [Separator] else r
  }

  /**
   * filepath.Ext: the suffix of the final element that starts at its last
   * ".", or "" when the final element has no ".".
   */
  function Ext(path: string): (e: string)
    ensures e != "" ==> e[0] == '.' && HasSuffix(path, e) && Separator !in e && '.' !in e[1..]
    ensures e == "" ==> forall k :: 0 <= k < |path| && path[k] == '.' ==>
                          exists j :: k < j < |path| && path[j] == Separator
  {
    var dot := LastIndex(path, '.');
    var slash := LastIndex(path, Separator);
    if dot > slash then path[dot..] else ""
  }

  /** For a path without a trailing separator, Base is the last piece of the split. */
  lemma BaseIsLastElement(path: string)
    requires path != "" && path[|path| - 1] != Separator
    ensures var parts := Split(path, Separator); Base(path) == parts[|parts| - 1]
  {
    assert TrimTrailing(path, Separator) == path;
    var i := LastIndex(path, Separator);
    if i >= 0 {
      LastPieceAfterSeparator(path, i);
    } else {
      SplitNoSeparator(path, Separator);
    }
  }

  /** The piece after the last separator is the last piece of the split. */
  lemma LastPieceAfterSeparator(path: string, i: nat)
    requires i < |path| && path[i] == Separator
    requires forall j :: i < j < |path| ==> path[j] != Separator
    ensures var parts := Split(path, Separator); parts[|parts| - 1] == path[i + 1..]
  {
    var b := path[i + 1..];
    assert Separator !in b by {
      forall k | 0 <= k < |b|
        ensures b[k] != Separator
      {
        assert b[k] == path[i + 1 + k];
      }
    }
    SplitNoSeparator(b, Separator);
    SplitAtSeparator(path, i);
    assert Split(path, Separator) == Split(path[..i], Separator) + [b];
  }

  /** Splitting at the separator at index `i` splits the two sides independently. */
  lemma SplitAtSeparator(path: string, i: nat)
    requires i < |path| && path[i] == Separator
    ensures Split(path, Separator) == Split(path[..i], Separator) + Split(path[i + 1..], Separator)
  {
    var before, after := path[..i], path[i + 1..];
    assert path == before + [Separator] + after by {
      assert path == path[..i] + path[i..] && path[i..] == [Separator] + after;
    }
    SplitConcat(before, after, Separator);
  }

  /** Every character of a base name comes from the path, except the "." and "/" stand-ins. */
  lemma BaseAvoids(path: string, c: char)
    requires c !in path && c != '.' && c != Separator
    ensures c !in Base(path)
  {
    if path != "" {
      var t := TrimTrailing(path, Separator);
      var start := LastIndex(t, Separator) + 1;
      var r := t[start..];
      assert c !in r by {
        forall k | 0 <= k < |r|
          ensures r[k] != c
        {
          assert r[k] == t[start + k] == path[start + k];
        }
      }
      assert Base(path) == if r == "" then [Separator] else r;
    }
  }

  /** The base name of a single element is the element itself. */
  lemma BaseOfElement(name: string)
    requires name != "" && Separator !in name
    ensures Base(name) == name
  {
    assert TrimTrailing(name, Separator) == name;
    assert LastIndex(name, Separator) == -1;
  }

  /** The base name of `dir/name` is `name`. */
  lemma BaseOfChild(dir: string, name: string)
    requires name != "" && Separator !in name
    ensures Base(dir + [Separator] + name) == name
  {
    var path := dir + [Separator] + name;
    assert path[|path| - 1] == name[|name| - 1];
    assert TrimTrailing(path, Separator) == path;
    assert path[|dir|] == Separator;
    forall j | |dir| < j < |path|
      ensures path[j] != Separator
    {
      assert path[j] == name[j - |dir| - 1];
    }
    var i := LastIndex(path, Separator);
    assert i == |dir|;
    assert path[i + 1..] == name;
  }
}
