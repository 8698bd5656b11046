/**
  The first phase of `ImageProcessor.run`: walking the source folder,
  keeping the supported images that have a group id, grouping them by id in
  discovery order and counting them per extension.  The walk is a list of
  (directory, file name) pairs; `ScanWalk` is the state the scan loop has
  built after a prefix of it.
 */
module Scan {
  import opened Options
  import opened Strings
  import opened Paths
  import opened Collections

  /** `ImageProcessor.supported_formats`. */
  const SupportedFormats: set<string> := {".png", ".jpg", ".jpeg", ".bmp", ".gif", ".tiff"}

  /** `ImageProcessor.extract_file_id`: the first 13 characters when they are
      all digits, otherwise the first 12 characters of a long enough name,
      otherwise no id. */
  function ExtractFileId(filename: string): (r: Option<string>)
    ensures r.None? <==> |filename| < 12
    ensures r.Some? ==> r.value <= filename && (|r.value| == 12 || |r.value| == 13)
    ensures r.Some? ==> (|r.value| == 13 <==> |filename| >= 13 && IsDigitString(filename[..13]))
  {
    if |filename| >= 13 && IsDigitString(filename[..13]) then Some(filename[..13])
    else if |filename| >= 12 then Some(filename[..12])
    else None
  }

  /** A thirteen-digit name and a name that shares only its first twelve
      characters with it land in different groups, while two names that share
      twelve characters and do not start with thirteen digits share a group. */
  lemma FileIdQuirk(a: string, b: string)
    requires |a| >= 13 && IsDigitString(a[..13])
    requires |b| >= 12 && b[..12] == a[..12] && !(|b| >= 13 && IsDigitString(b[..13]))
    ensures ExtractFileId(a) != ExtractFileId(b)
    ensures forall c :: |c| >= 12 && c[..12] == b[..12] && !(|c| >= 13 && IsDigitString(c[..13]))
              ==> ExtractFileId(c) == ExtractFileId(b)
  {
  }

  /** The extension the scan tests: `os.path.splitext(file)[1].lower()`. */
  function Extension(file: string): string {
    Lower(SplitExtension(file))
  }

  /** Whether the scan groups a file of this name. */
  predicate Qualifies(file: string) {
    Extension(file) in SupportedFormats && ExtractFileId(file).Some?
  }

  function FileId(file: string): string
    requires Qualifies(file)
  {
    ExtractFileId(file).value
  }

  /** What the scan loop has built: `image_groups` (a map and its keys in
      insertion order), `image_files`, and `stats['extensions']` (likewise). */
  datatype ScanResult = ScanResult(
    groups: map<string, seq<WalkEntry>>,
    groupOrder: seq<string>,
    imageFiles: seq<WalkEntry>,
    extensions: map<string, nat>,
    extensionOrder: seq<string>)

  const EmptyScan := ScanResult(map[], [], [], map[], [])

  /** `image_groups.get(id, [])`. */
  function GroupOf(s: ScanResult, id: string): seq<WalkEntry> {
    Get(s.groups, id, [])
  }

  /** `stats['extensions'].get(ext, 0)`. */
  function ExtCount(s: ScanResult, ext: string): nat {
    Get(s.extensions, ext, 0)
  }

  /** One iteration of the inner scan loop, for one walked file. */
  function ScanStep(s: ScanResult, e: WalkEntry): ScanResult {
    var ext := Extension(e.name);
    if ext !in SupportedFormats then s
    else
      match ExtractFileId(e.name)
      case None => s
      case Some(id) => Record(s, e, ext, id)
  }

  /** Recording a kept file with extension `ext` and id `id`. */
  function Record(s: ScanResult, e: WalkEntry, ext: string, id: string): ScanResult {
    ScanResult(
      s.groups[id := Get(s.groups, id, []) + [e]],
      Inserted(s.groupOrder, s.groups, id),
      s.imageFiles + [e],
      s.extensions[ext := Get(s.extensions, ext, 0) + 1],
      Inserted(s.extensionOrder, s.extensions, ext))
  }

  /** A scan state with the fields a recording step leaves is that step's
      result. */
  lemma RecordIs(s: ScanResult, e: WalkEntry, ext: string, id: string, count: nat, r: ScanResult)
    requires count == Get(s.extensions, ext, 0)
    requires r.groups == s.groups[id := Get(s.groups, id, []) + [e]]
    requires r.groupOrder == Inserted(s.groupOrder, s.groups, id)
    requires r.imageFiles == s.imageFiles + [e]
    requires r.extensions == s.extensions[ext := count + 1]
    requires r.extensionOrder == Inserted(s.extensionOrder, s.extensions, ext)
    ensures r == Record(s, e, ext, id)
  {
  }

  /** The scan state after the walked files `walk`, in walk order. */
  function ScanWalk(walk: seq<WalkEntry>): ScanResult
    decreases |walk|
  {
    if |walk| == 0 then EmptyScan else ScanStep(ScanWalk(walk[..|walk| - 1]), walk[|walk| - 1])
  }

  // Independent descriptions of what the scan collects.

  /** The walked files the scan keeps, in walk order. */
  function QualifiedFiles(walk: seq<WalkEntry>): seq<WalkEntry>
    decreases |walk|
  {
    if |walk| == 0 then []
    else
      var e := walk[|walk| - 1];
      QualifiedFiles(walk[..|walk| - 1]) + if Qualifies(e.name) then [e] else []
  }

  /** The walked files the scan keeps whose id is `id`, in walk order. */
  function FilesWithId(walk: seq<WalkEntry>, id: string): seq<WalkEntry>
    decreases |walk|
  {
    if |walk| == 0 then []
    else
      var e := walk[|walk| - 1];
      FilesWithId(walk[..|walk| - 1], id)
        + if Qualifies(e.name) && FileId(e.name) == id then [e] else []
  }

  /** How many of the kept files have extension `ext`. */
  function CountWithExtension(walk: seq<WalkEntry>, ext: string): nat
    decreases |walk|
  {
    if |walk| == 0 then 0
    else
      var e := walk[|walk| - 1];
      CountWithExtension(walk[..|walk| - 1], ext)
        + if Qualifies(e.name) && Extension(e.name) == ext then 1 else 0
  }

  /** The scan keeps exactly the supported files that have an id, in walk
      order. */
  lemma {:induction false} ScanKeepsQualified(walk: seq<WalkEntry>)
    ensures ScanWalk(walk).imageFiles == QualifiedFiles(walk)
    decreases |walk|
  {
    if |walk| > 0 {
      ScanKeepsQualified(walk[..|walk| - 1]);
    }
  }

  /** The group of an id holds exactly the kept files with that id, in walk
      order; an id has a group exactly when some kept file has it. */
  lemma {:induction false} GroupIsIdClass(walk: seq<WalkEntry>, id: string)
    ensures GroupOf(ScanWalk(walk), id) == FilesWithId(walk, id)
    ensures id in ScanWalk(walk).groups <==> FilesWithId(walk, id) != []
    decreases |walk|
  {
    if |walk| > 0 {
      GroupIsIdClass(walk[..|walk| - 1], id);
    }
  }

  /** The per-extension counter counts the kept files with that extension;
      files without an id are not counted. */
  lemma {:induction false} ExtensionCountIsCount(walk: seq<WalkEntry>, ext: string)
    ensures ExtCount(ScanWalk(walk), ext) == CountWithExtension(walk, ext)
    decreases |walk|
  {
    if |walk| > 0 {
      ExtensionCountIsCount(walk[..|walk| - 1], ext);
    }
  }

  /** The extensions of the kept files, in walk order. */
  function KeptExtensions(walk: seq<WalkEntry>): seq<string> {
    MapSeq((e: WalkEntry) => Extension(e.name), QualifiedFiles(walk))
  }

  /** The extension counters are keyed in the order in which the kept
      files first show each extension. */
  lemma {:induction false} ExtensionOrderFirstSeen(walk: seq<WalkEntry>)
    ensures ScanWalk(walk).extensionOrder == FirstSeen(KeptExtensions(walk))
    decreases |walk|
  {
    if |walk| > 0 {
      var prefix, e := walk[..|walk| - 1], walk[|walk| - 1];
      ExtensionOrderFirstSeen(prefix);
      ScanIsValid(prefix);
      KeptExtensionsStep(walk);
      StepExtensionOrder(ScanWalk(prefix), e, KeptExtensions(prefix));
    }
  }

  lemma KeptExtensionsStep(walk: seq<WalkEntry>)
    requires |walk| > 0
    ensures var e := walk[|walk| - 1];
      KeptExtensions(walk)
        == KeptExtensions(walk[..|walk| - 1]) + if Qualifies(e.name) then [Extension(e.name)] else []
  {
    var e := walk[|walk| - 1];
    MapSeqAppend((e: WalkEntry) => Extension(e.name),
                 QualifiedFiles(walk[..|walk| - 1]), if Qualifies(e.name) then [e] else []);
  }

  lemma StepExtensionOrder(s: ScanResult, e: WalkEntry, xs: seq<string>)
    requires ValidScan(s) && s.extensionOrder == FirstSeen(xs)
    ensures ScanStep(s, e).extensionOrder
         == FirstSeen(xs + if Qualifies(e.name) then [Extension(e.name)] else [])
  {
    if Qualifies(e.name) {
      RecordExtensionOrder(s, e, Extension(e.name), FileId(e.name), xs);
    } else {
      assert xs + [] == xs;
    }
  }

  lemma RecordExtensionOrder(s: ScanResult, e: WalkEntry, ext: string, id: string, xs: seq<string>)
    requires KeyedBy(s.extensionOrder, s.extensions) && s.extensionOrder == FirstSeen(xs)
    ensures Record(s, e, ext, id).extensionOrder == FirstSeen(xs + [ext])
  {
    FirstSeenSnoc(xs, ext);
  }

  /** The invariant of the scan state: both key lists list their maps'
      keys once each, only supported extensions are counted, and the group
      sizes and the extension counts both add up to the number of kept
      files, which the groups hold between them. */
  ghost predicate ValidScan(s: ScanResult) {
    GroupsValid(s.groups, s.groupOrder, s.imageFiles)
    && CountsValid(s.extensions, s.extensionOrder, |s.imageFiles|, SupportedFormats)
  }

  /** The groups: keyed in insertion order, none empty, their sizes adding
      up to the kept files, which they hold between them. */
  ghost predicate GroupsValid(groups: map<string, seq<WalkEntry>>, order: seq<string>, files: seq<WalkEntry>) {
    && KeyedBy(order, groups)
    && (forall k :: k in groups ==> groups[k] != [])
    && multiset(Flatten(Lookup(order, groups))) == multiset(files)
  }

  /** The extension counters: keyed in insertion order, supported
      extensions only, adding up to the number of kept files. */
  ghost predicate CountsValid(counts: map<string, nat>, order: seq<string>, n: nat, allowed: set<string>) {
    && KeyedBy(order, counts)
    && (forall x :: x in counts ==> x in allowed)
    && SumOf(order, counts) == n
  }

  lemma GroupsStepValid(groups: map<string, seq<WalkEntry>>, order: seq<string>, files: seq<WalkEntry>,
                        id: string, e: WalkEntry,
                        groups': map<string, seq<WalkEntry>>, order': seq<string>, files': seq<WalkEntry>)
    requires GroupsValid(groups, order, files)
    requires groups' == groups[id := Get(groups, id, []) + [e]]
    requires order' == Inserted(order, groups, id) && files' == files + [e]
    ensures GroupsValid(groups', order', files')
  {
    FlattenInsertAppend(order, groups, id, e);
    var g := Get(groups, id, []) + [e];
    NonEmptyInsert(groups, id, g, groups[id := g]);
  }

  lemma NonEmptyInsert(groups: map<string, seq<WalkEntry>>, id: string, g: seq<WalkEntry>,
                       updated: map<string, seq<WalkEntry>>)
    requires (forall k :: k in groups ==> groups[k] != []) && g != []
    requires updated == groups[id := g]
    ensures forall k :: k in updated ==> updated[k] != []
  {
  }

  lemma CountsStepValid(counts: map<string, nat>, order: seq<string>, n: nat, ext: string, allowed: set<string>,
                        counts': map<string, nat>, order': seq<string>, n': nat)
    requires CountsValid(counts, order, n, allowed) && ext in allowed
    requires counts' == counts[ext := Get(counts, ext, 0) + 1]
    requires order' == Inserted(order, counts, ext) && n' == n + 1
    ensures CountsValid(counts', order', n', allowed)
  {
    var v := Get(counts, ext, 0) + 1;
    KeyedInsert(order, counts, ext, v);
    SumStep(order, counts, ext, n);
    AllowedInsert(counts, ext, v, allowed);
  }

  lemma SumStep(order: seq<string>, counts: map<string, nat>, ext: string, n: nat)
    requires KeyedBy(order, counts) && SumOf(order, counts) == n
    ensures KeyedBy(Inserted(order, counts, ext), counts[ext := Get(counts, ext, 0) + 1])
    ensures SumOf(Inserted(order, counts, ext), counts[ext := Get(counts, ext, 0) + 1]) == n + 1
  {
    SumInsert(order, counts, ext, Get(counts, ext, 0) + 1);
  }

  lemma AllowedInsert(counts: map<string, nat>, ext: string, v: nat, allowed: set<string>)
    requires (forall x :: x in counts ==> x in allowed) && ext in allowed
    ensures forall x :: x in counts[ext := v] ==> x in allowed
  {
  }

  lemma RecordKeepsValid(s: ScanResult, e: WalkEntry, ext: string, id: string)
    requires ValidScan(s) && ext in SupportedFormats
    ensures ValidScan(Record(s, e, ext, id))
  {
    var r := Record(s, e, ext, id);
    GroupsStepValid(s.groups, s.groupOrder, s.imageFiles, id, e, r.groups, r.groupOrder, r.imageFiles);
    RecordCountsValid(s, e, ext, id, SupportedFormats, r);
  }

  lemma RecordCountsValid(s: ScanResult, e: WalkEntry, ext: string, id: string, allowed: set<string>,
                          r: ScanResult)
    requires CountsValid(s.extensions, s.extensionOrder, |s.imageFiles|, allowed) && ext in allowed
    requires r == Record(s, e, ext, id)
    ensures CountsValid(r.extensions, r.extensionOrder, |r.imageFiles|, allowed)
  {
    CountsStepValid(s.extensions, s.extensionOrder, |s.imageFiles|, ext, allowed,
                    r.extensions, r.extensionOrder, |r.imageFiles|);
  }

  lemma StepKeepsValid(s: ScanResult, e: WalkEntry)
    requires ValidScan(s)
    ensures ValidScan(ScanStep(s, e))
  {
    var ext := Extension(e.name);
    if ext in SupportedFormats && ExtractFileId(e.name).Some? {
      RecordKeepsValid(s, e, ext, ExtractFileId(e.name).value);
    }
  }

  /** Every scan state satisfies ValidScan: the groups hold exactly the
      kept files between them, so their sizes add up to `total_images`, and
      so do the extension counts. */
  lemma {:induction false} ScanIsValid(walk: seq<WalkEntry>)
    ensures ValidScan(ScanWalk(walk))
    decreases |walk|
  {
    if |walk| > 0 {
      ScanIsValid(walk[..|walk| - 1]);
      StepKeepsValid(ScanWalk(walk[..|walk| - 1]), walk[|walk| - 1]);
    }
  }
}
