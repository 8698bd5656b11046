/**
  The path and name predicates of the archive helpers: which system files
  are never archived, how an archive's type is read from its name, and the
  filtered listing of the files under a path.
 */
module Utils {
  import opened Strings
  import opened Paths

  /** The operating-system clutter files that are never archived. */
  const ExcludedFiles: set<string> := {".DS_Store", "Thumbs.db", "desktop.ini"}

  /** `CompressionUtils.should_exclude_file`: whether the final component
      of the path is one of the excluded names (compared case-sensitively). */
  function ShouldExcludeFile(filename: string): (r: bool)
    ensures r <==> EndsWithComponent(filename, ".DS_Store") || EndsWithComponent(filename, "Thumbs.db")
                   || EndsWithComponent(filename, "desktop.ini")
  {
    BasenameIsComponent(filename, ".DS_Store");
    BasenameIsComponent(filename, "Thumbs.db");
    BasenameIsComponent(filename, "desktop.ini");
    Basename(filename) in ExcludedFiles
  }

  /** Only the final path component decides exclusion. */
  lemma ShouldExcludeUnderDirectory(d: string, p: string)
    ensures ShouldExcludeFile(d + "/" + p) == ShouldExcludeFile(p)
  {
    BasenameUnderDirectory(d, p);
  }

  /** An excluded name is excluded alone and in any directory; a name is
      excluded exactly when it is one of the three. */
  lemma ExcludedNames(d: string, n: string)
    requires Excludes(n, '/')
    ensures ShouldExcludeFile(n) <==> n == ".DS_Store" || n == "Thumbs.db" || n == "desktop.ini"
    ensures ShouldExcludeFile(d + "/" + n) == ShouldExcludeFile(n)
  {
    BasenameOfPlainName(n);
    ShouldExcludeUnderDirectory(d, n);
  }

  /** The match is case-sensitive: other spellings are archived. */
  lemma ExclusionIsCaseSensitive()
    ensures !ShouldExcludeFile("thumbs.db")
    ensures !ShouldExcludeFile(".ds_store")
    ensures !ShouldExcludeFile("Desktop.ini")
  {
    BasenameOfPlainName("thumbs.db");
    BasenameOfPlainName(".ds_store");
    BasenameOfPlainName("Desktop.ini");
  }

  /** `get_archive_type`: the lower-cased suffix of the final component
      selects `zip`, `7z` or `unknown`. */
  function GetArchiveType(filePath: string): (r: string)
    ensures r == "zip" || r == "7z" || r == "unknown"
  {
    var ext := Lower(Suffix(PathName(filePath)));
    if ext == ".zip" then "zip"
    else if ext == ".7z" then "7z"
    else "unknown"
  }

  function LowerEach(parts: seq<string>): (r: seq<string>)
    ensures |r| == |parts|
    ensures forall i :: 0 <= i < |parts| ==> r[i] == Lower(parts[i])
  {
    seq(|parts|, i requires 0 <= i < |parts| => Lower(parts[i]))
  }

  lemma LowerCons(c: char, x: string)
    ensures Lower([c] + x) == [LowerChar(c)] + Lower(x)
  {
    assert Lower([c] + x) == [LowerChar(c)] + Lower(x);
  }

  lemma {:induction false} SplitLower(s: string)
    ensures Split(Lower(s), "/") == LowerEach(Split(s, "/"))
    decreases |s|
  {
    if |s| > 0 {
      var t := Lower(s);
      assert s == [s[0]] + s[1..];
      LowerCons(s[0], s[1..]);
      assert t[1..] == Lower(s[1..]);
      SplitLower(s[1..]);
      var rest := Split(s[1..], "/");
      var lrest := Split(t[1..], "/");
      assert lrest == LowerEach(rest);
      if s[0] == '/' {
        assert s[..1] == "/" && t[..1] == "/";
        assert LowerEach([""] + rest) == [""] + lrest;
      } else {
        assert s[..1] != "/" && t[..1] != "/";
        LowerCons(s[0], rest[0]);
        assert LowerEach([[s[0]] + rest[0]] + rest[1..]) == [[t[0]] + lrest[0]] + lrest[1..];
      }
    }
  }

  lemma {:induction false} KeptLower(parts: seq<string>)
    ensures KeptComponents(LowerEach(parts)) == LowerEach(KeptComponents(parts))
    decreases |parts|
  {
    if |parts| > 0 {
      var n := |parts|;
      var last := parts[n - 1];
      assert LowerEach(parts)[..n - 1] == LowerEach(parts[..n - 1]);
      KeptLower(parts[..n - 1]);
      assert Lower(last) == "" <==> last == "";
      assert Lower(last) == "." <==> last == "." by {
        if |last| == 1 { assert Lower(last)[0] == LowerChar(last[0]); }
      }
      var rest := KeptComponents(parts[..n - 1]);
      assert LowerEach(rest + [last]) == LowerEach(rest) + [Lower(last)];
    }
  }

  lemma PathNameLower(p: string)
    ensures PathName(Lower(p)) == Lower(PathName(p))
  {
    SplitLower(p);
    KeptLower(Split(p, "/"));
  }

  lemma {:induction false} LastDotLower(s: string)
    ensures LastIndexOf(Lower(s), '.') == LastIndexOf(s, '.')
    decreases |s|
  {
    if |s| > 0 {
      var n := |s|;
      assert Lower(s)[..n - 1] == Lower(s[..n - 1]);
      assert Lower(s)[n - 1] == '.' <==> s[n - 1] == '.';
      LastDotLower(s[..n - 1]);
    }
  }

  lemma SuffixLower(name: string)
    ensures Suffix(Lower(name)) == Lower(Suffix(name))
  {
    LastDotLower(name);
    var i := LastIndexOf(name, '.');
    if 0 < i < |name| - 1 {
      assert Lower(name)[i..] == Lower(name[i..]);
    }
  }

  /** The archive type ignores letter case anywhere in the path. */
  lemma ArchiveTypeIgnoresCase(p: string)
    ensures GetArchiveType(Lower(p)) == GetArchiveType(p)
  {
    PathNameLower(p);
    SuffixLower(PathName(p));
    LowerIdempotent(Suffix(PathName(p)));
  }

  lemma PathNameOfComponent(d: string, n: string)
    requires Excludes(n, '/') && n != "" && n != "."
    ensures PathName(n) == n
    ensures PathName(d + "/" + n) == n
  {
    SplitNoSeparator(n, "/");
    SplitAppend(d, n, "/");
    var parts := Split(d, "/") + [n];
    assert parts[..|parts| - 1] == Split(d, "/");
  }

  /** A component `stem + ext`, where `ext` is a dot followed by no dot
      and the stem is not empty, has suffix `ext`. */
  lemma SuffixOfStem(stem: string, ext: string)
    requires stem != "" && |ext| >= 2 && ext[0] == '.' && Excludes(ext[1..], '.')
    ensures Suffix(stem + ext) == ext
  {
    var n := stem + ext;
    LastIndexOfAt(n, '.', |stem|);
    assert n[|stem|..] == ext;
  }

  lemma ArchiveTypeOfSuffix(p: string)
    ensures Suffix(PathName(p)) == ".zip" ==> GetArchiveType(p) == "zip"
    ensures Suffix(PathName(p)) == ".7z" ==> GetArchiveType(p) == "7z"
  {
    assert Lower(".zip") == ".zip";
    assert Lower(".7z") == ".7z";
  }

  /** The suffix of `stem + ext`, alone or under a directory. */
  lemma SuffixOfComponent(d: string, stem: string, ext: string)
    requires Excludes(stem, '/') && stem != ""
    requires |ext| >= 2 && ext[0] == '.' && Excludes(ext[1..], '.') && Excludes(ext[1..], '/')
    ensures Suffix(PathName(stem + ext)) == ext
    ensures Suffix(PathName(d + "/" + stem + ext)) == ext
  {
    var n := stem + ext;
    assert d + "/" + stem + ext == d + "/" + n;
    PathNameOfComponent(d, n);
    SuffixOfStem(stem, ext);
  }

  /** `stem.zip` is a zip archive, alone or in any directory. */
  lemma ZipOfLastSuffix(d: string, stem: string)
    requires Excludes(stem, '/') && stem != ""
    ensures GetArchiveType(stem + ".zip") == "zip"
    ensures GetArchiveType(d + "/" + stem + ".zip") == "zip"
  {
    SuffixOfComponent(d, stem, ".zip");
    ArchiveTypeOfSuffix(stem + ".zip");
    ArchiveTypeOfSuffix(d + "/" + stem + ".zip");
  }

  /** `stem.7z` is a 7z archive, alone or in any directory. */
  lemma SevenZipOfLastSuffix(d: string, stem: string)
    requires Excludes(stem, '/') && stem != ""
    ensures GetArchiveType(stem + ".7z") == "7z"
    ensures GetArchiveType(d + "/" + stem + ".7z") == "7z"
  {
    SuffixOfComponent(d, stem, ".7z");
    ArchiveTypeOfSuffix(stem + ".7z");
    ArchiveTypeOfSuffix(d + "/" + stem + ".7z");
  }

  /** Only the last suffix counts: `stem.zip` is a zip archive whatever
      dots the stem holds, in any directory, and likewise `stem.7z`. */
  lemma ArchiveTypeOfLastSuffix(d: string, stem: string)
    requires Excludes(stem, '/') && stem != ""
    ensures GetArchiveType(stem + ".zip") == "zip"
    ensures GetArchiveType(d + "/" + stem + ".zip") == "zip"
    ensures GetArchiveType(stem + ".7z") == "7z"
    ensures GetArchiveType(d + "/" + stem + ".7z") == "7z"
  {
    ZipOfLastSuffix(d, stem);
    SevenZipOfLastSuffix(d, stem);
  }

  /** Any other last suffix, such as `.rar` or the `.bak` of `a.zip.bak`,
      selects `unknown`, alone or in any directory. */
  lemma ArchiveTypeOfOtherSuffix(d: string, stem: string, ext: string)
    requires Excludes(stem, '/') && stem != ""
    requires |ext| >= 2 && ext[0] == '.' && Excludes(ext[1..], '.') && Excludes(ext[1..], '/')
    requires Lower(ext) != ".zip" && Lower(ext) != ".7z"
    ensures GetArchiveType(stem + ext) == "unknown"
    ensures GetArchiveType(d + "/" + stem + ext) == "unknown"
  {
    SuffixOfComponent(d, stem, ext);
  }

  /** An upper-case suffix selects the same type as its lower-case form. */
  lemma ArchiveTypeOfUpperCaseSuffix(stem: string)
    requires Excludes(stem, '/') && stem != ""
    ensures GetArchiveType(stem + ".ZIP") == "zip"
    ensures GetArchiveType(stem + ".7Z") == "7z"
  {
    var low := Lower(stem);
    assert Lower(stem + ".ZIP") == low + ".zip";
    assert Lower(stem + ".7Z") == low + ".7z";
    ArchiveTypeIgnoresCase(stem + ".ZIP");
    ArchiveTypeIgnoresCase(stem + ".7Z");
    ArchiveTypeOfLastSuffix("", low);
  }

  /** A file whose only dot is its first character has no suffix. */
  lemma ArchiveTypeOfHiddenName()
    ensures GetArchiveType(".zip") == "unknown"
  {
    PathNameOfComponent("", ".zip");
    LastIndexOfAt(".zip", '.', 0);
    assert Suffix(".zip") == "";
  }

  /** What `get_all_files` is given: a single file, or the walk of a
      directory (empty when the path does not exist). */
  datatype Listing = IsFile(path: string) | Tree(entries: seq<WalkEntry>)

  function FullPaths(entries: seq<WalkEntry>): (r: seq<string>)
    ensures |r| == |entries|
    ensures forall i :: 0 <= i < |entries| ==> r[i] == FullPath(entries[i])
  {
    seq(|entries|, i requires 0 <= i < |entries| => FullPath(entries[i]))
  }

  function ListedPaths(l: Listing): seq<string> {
    match l
    case IsFile(p) => [p]
    case Tree(entries) => FullPaths(entries)
  }

  /** The paths that survive `should_exclude_file`, in their order. */
  function Kept(paths: seq<string>): seq<string>
    decreases |paths|
  {
    if |paths| == 0 then []
    else
      var p := paths[|paths| - 1];
      Kept(paths[..|paths| - 1]) + (if ShouldExcludeFile(p) then [] else [p])
  }

  /** `get_all_files`. */
  method GetAllFiles(l: Listing) returns (allFiles: seq<string>)
    ensures allFiles == Kept(ListedPaths(l))
  {
    allFiles := [];
    match l
    case IsFile(p) =>
      if !ShouldExcludeFile(p) {
        allFiles := allFiles + [p];
      }
    case Tree(entries) =>
      for i := 0 to |entries|
        invariant allFiles == Kept(FullPaths(entries[..i]))
      {
        var filePath := FullPath(entries[i]);
        assert FullPaths(entries[..i + 1])[..i] == FullPaths(entries[..i]);
        if !ShouldExcludeFile(filePath) {
          allFiles := allFiles + [filePath];
        }
      }
      assert entries[..|entries|] == entries;
  }

  lemma {:induction false} KeptAppend(a: seq<string>, b: seq<string>)
    ensures Kept(a + b) == Kept(a) + Kept(b)
    decreases |b|
  {
    if |b| == 0 {
      assert a + b == a;
    } else {
      var n := |b|;
      assert (a + b)[..|a + b| - 1] == a + b[..n - 1];
      KeptAppend(a, b[..n - 1]);
    }
  }

  /** The kept paths are exactly the input's non-excluded paths, each as
      often as in the input. */
  lemma {:induction false} KeptCounts(paths: seq<string>, x: string)
    ensures multiset(Kept(paths))[x] == if ShouldExcludeFile(x) then 0 else multiset(paths)[x]
    ensures x in Kept(paths) <==> x in paths && !ShouldExcludeFile(x)
    decreases |paths|
  {
    if |paths| > 0 {
      var n := |paths|;
      KeptCounts(paths[..n - 1], x);
      assert paths == paths[..n - 1] + [paths[n - 1]];
    }
  }

  /** A single excluded file yields nothing; any other single file yields
      itself. */
  lemma SingleFileListing(p: string)
    ensures Kept(ListedPaths(IsFile(p))) == if ShouldExcludeFile(p) then [] else [p]
  {
    assert [p][..0] == [];
  }
}
