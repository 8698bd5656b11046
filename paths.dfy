/**
  The POSIX path operations used by both core files: `os.path.join`,
  `os.path.basename`, `os.path.splitext` and pathlib's `PurePath.name` and
  `PurePath.suffix`, together with the (directory, file name) pairs that
  `os.walk` yields.
 */
module Paths {
  import opened Strings

  /** One file reported by `os.walk`: the directory it was found in and
      its bare name. */
  datatype WalkEntry = WalkEntry(root: string, name: string)

  /** The index of the last occurrence of `c` in `s`, or -1 (`str.rfind`). */
  function LastIndexOf(s: string, c: char): (r: int)
    ensures -1 <= r < |s|
    ensures r >= 0 ==> s[r] == c
    ensures forall k :: r < k < |s| ==> s[k] != c
    decreases |s|
  {
    if |s| == 0 then -1
    else if s[|s| - 1] == c then |s| - 1
    else LastIndexOf(s[..|s| - 1], c)
  }

  /** The last occurrence of `c` is at `i` when no later character is `c`. */
  lemma LastIndexOfAt(s: string, c: char, i: nat)
    requires i < |s| && s[i] == c
    requires forall k :: i < k < |s| ==> s[k] != c
    ensures LastIndexOf(s, c) == i
  {
  }

  /** `os.path.join(a, b)`. */
  function JoinPath(a: string, b: string): string {
    if |b| > 0 && b[0] == '/' then b
    else if |a| == 0 || a[|a| - 1] == '/' then a + b
    else a + ['/'] + b
  }

  /** An absolute second part replaces the first; otherwise the result is
      the first part, a `/` when the first part is not empty, and the
      second part at the end. */
  lemma JoinPathParts(a: string, b: string)
    ensures var r := JoinPath(a, b);
      && (|b| > 0 && b[0] == '/' ==> r == b)
      && |b| <= |r| && r[|r| - |b|..] == b
      && (!(|b| > 0 && b[0] == '/') ==> a <= r && |r| <= |a| + 1 + |b|)
      && (!(|b| > 0 && b[0] == '/') && |a| > 0 ==> |b| < |r| && r[|r| - |b| - 1] == '/')
  {
  }

  /** The path `os.path.join(root, file)` of a walked file. */
  function FullPath(e: WalkEntry): string {
    JoinPath(e.root, e.name)
  }

  /** `os.path.basename(p)`: everything after the last `/`. */
  function Basename(p: string): (r: string)
    ensures Excludes(r, '/')
    decreases |p|
  {
    if |p| == 0 then ""
    else if p[|p| - 1] == '/' then ""
    else Basename(p[..|p| - 1]) + [p[|p| - 1]]
  }

  lemma {:induction false} BasenameOfPlainName(p: string)
    requires Excludes(p, '/')
    ensures Basename(p) == p
    decreases |p|
  {
    if |p| > 0 {
      BasenameOfPlainName(p[..|p| - 1]);
      assert p[..|p| - 1] + [p[|p| - 1]] == p;
    }
  }

  /** Putting a directory in front of a path leaves its basename alone. */
  lemma {:induction false} BasenameUnderDirectory(d: string, p: string)
    ensures Basename(d + "/" + p) == Basename(p)
    decreases |p|
  {
    var s := d + "/" + p;
    if |p| == 0 {
      assert s == d + "/";
    } else {
      assert s[..|s| - 1] == d + "/" + p[..|p| - 1];
      assert s[|s| - 1] == p[|p| - 1];
      BasenameUnderDirectory(d, p[..|p| - 1]);
    }
  }

  /** Whether `n` is the final component of `p`: `p` ends with `n`, and
      that ending is the whole path or follows a `/`. */
  predicate EndsWithComponent(p: string, n: string) {
    |n| <= |p| && p[|p| - |n|..] == n && (|p| == |n| || p[|p| - |n| - 1] == '/')
  }

  /** The basename is the final component, read from the path's end. */
  lemma {:induction false} BasenameIsComponent(p: string, n: string)
    requires Excludes(n, '/')
    ensures Basename(p) == n <==> EndsWithComponent(p, n)
    decreases |p|
  {
    if |p| > 0 && p[|p| - 1] != '/' && |n| > 0 {
      var p', n' := p[..|p| - 1], n[..|n| - 1];
      BasenameIsComponent(p', n');
      assert Basename(p) == n <==> Basename(p') == n' && p[|p| - 1] == n[|n| - 1] by {
        if Basename(p) == n { assert n == n' + [n[|n| - 1]]; }
        if Basename(p') == n' && p[|p| - 1] == n[|n| - 1] { assert n' + [n[|n| - 1]] == n; }
      }
      assert EndsWithComponent(p, n) <==> EndsWithComponent(p', n') && p[|p| - 1] == n[|n| - 1] by {
        if EndsWithComponent(p, n) {
          assert p'[|p'| - |n'|..] == n' by { assert p'[|p'| - |n'|..] == p[|p| - |n|..][..|n| - 1]; }
        }
        if EndsWithComponent(p', n') && p[|p| - 1] == n[|n| - 1] {
          assert p[|p| - |n|..] == p'[|p'| - |n'|..] + [p[|p| - 1]];
        }
      }
    } else if 0 < |n| <= |p| {
      assert p[|p| - |n|..][|n| - 1] == p[|p| - 1];
    }
  }

  /** The basename of a walked file's path is the walked name. */
  lemma BasenameOfFullPath(e: WalkEntry)
    requires Excludes(e.name, '/')
    ensures Basename(FullPath(e)) == e.name
  {
    BasenameOfPlainName(e.name);
    if e.root == "" {
      assert FullPath(e) == e.name;
    } else if e.root[|e.root| - 1] == '/' {
      var d := e.root[..|e.root| - 1];
      assert FullPath(e) == d + "/" + e.name;
      BasenameUnderDirectory(d, e.name);
    } else {
      BasenameUnderDirectory(e.root, e.name);
    }
  }

  /** Whether `p[lo..hi]` holds a character other than `.`. */
  predicate HasNonDot(p: string, lo: int, hi: int)
    requires 0 <= lo && hi <= |p|
  {
    exists k :: lo <= k < hi && p[k] != '.'
  }

  /** The extension part of `os.path.splitext(p)`: from the last dot of the
      final component to the end, unless every character before that dot in
      the component is a dot (leading dots do not start an extension). */
  function SplitExtension(p: string): (ext: string)
    ensures |ext| <= |p|
    ensures ext == [] || (ext[0] == '.' && ext == p[|p| - |ext|..])
    ensures ext != [] ==> Excludes(ext[1..], '.') && Excludes(ext, '/')
  {
    var sep := LastIndexOf(p, '/');
    var dot := LastIndexOf(p, '.');
    if dot > sep && HasNonDot(p, sep + 1, dot) then p[dot..] else ""
  }

  /** A name `stem + ext`, where the stem holds no `/` and some character
      other than a dot, and `ext` is a dot followed by no dot or `/`, has
      extension `ext`, alone or under a directory. */
  lemma SplitExtensionOfStem(d: string, stem: string, ext: string)
    requires Excludes(stem, '/') && exists k :: 0 <= k < |stem| && stem[k] != '.'
    requires |ext| >= 1 && ext[0] == '.' && Excludes(ext[1..], '.') && Excludes(ext[1..], '/')
    ensures SplitExtension(stem + ext) == ext
    ensures SplitExtension(d + "/" + stem + ext) == ext
  {
    SplitExtensionAfter("", stem, ext);
    assert "" + stem + ext == stem + ext;
    SplitExtensionAfter(d + "/", stem, ext);
  }

  lemma SplitExtensionAfter(pre: string, stem: string, ext: string)
    requires Excludes(stem, '/') && exists k :: 0 <= k < |stem| && stem[k] != '.'
    requires |ext| >= 1 && ext[0] == '.' && Excludes(ext[1..], '.') && Excludes(ext[1..], '/')
    requires pre == "" || pre[|pre| - 1] == '/'
    ensures SplitExtension(pre + stem + ext) == ext
  {
    var p := pre + stem + ext;
    var dot := |pre| + |stem|;
    LastIndexOfAt(p, '.', dot);
    var sep := LastIndexOf(p, '/');
    assert sep == |pre| - 1 by {
      if pre != "" { LastIndexOfAt(p, '/', |pre| - 1); }
    }
    var k :| 0 <= k < |stem| && stem[k] != '.';
    assert p[|pre| + k] != '.';
    assert p[dot..] == ext;
  }

  /** A leading dot does not start an extension: `.png` has none. */
  lemma SplitExtensionOfDotName()
    ensures SplitExtension(".png") == ""
  {
    LastIndexOfAt(".png", '.', 0);
  }

  /** The components pathlib keeps: empty ones and `.` are dropped. */
  function KeptComponents(parts: seq<string>): (r: seq<string>)
    ensures forall i :: 0 <= i < |r| ==> r[i] != "" && r[i] != "."
    ensures forall i :: 0 <= i < |r| ==> r[i] in parts
    decreases |parts|
  {
    if |parts| == 0 then []
    else
      var rest := KeptComponents(parts[..|parts| - 1]);
      var last := parts[|parts| - 1];
      if last == "" || last == "." then rest else rest + [last]
  }

  /** `PurePosixPath(p).name`: the last kept component, or empty. */
  function PathName(p: string): (r: string)
    ensures r != "."
    ensures r != "" ==> r in Split(p, "/") && Excludes(r, '/')
  {
    SplitPiecesExclude(p, "/");
    var parts := KeptComponents(Split(p, "/"));
    if |parts| == 0 then "" else parts[|parts| - 1]
  }

  /** `PurePath.suffix` of a final component: from its last dot, when that
      dot is neither the first nor the last character. */
  function Suffix(name: string): (r: string)
    ensures r == [] || (r[0] == '.' && 2 <= |r| < |name| && r == name[|name| - |r|..])
  {
    var i := LastIndexOf(name, '.');
    if 0 < i < |name| - 1 then name[i..] else ""
  }
}
