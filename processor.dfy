/**
  `ImageProcessor.run`, as one sequential method over the abstract inputs:
  the folder walk, the outcome of moving each file together with its
  decoded image, and the clock.  The steps are those of the source: create
  the designer folders, scan and group, sort and distribute the groups,
  move and classify each file, write the report, signal completion.
 */
module Processor {
  import opened Options
  import opened Strings
  import opened Paths
  import opened Collections
  import opened Scan
  import opened Sorting
  import opened Distribution
  import opened Classifier
  import opened Report

  /** What happens to one file in the move step: `os.rename` raises, or it
      succeeds and the moved file opens as an image (`Some`) or fails to
      open (`None`). */
  datatype Fate = MoveFailed | Moved(image: Option<Image>)

  /** `f'Designer_{k + 1}'`. */
  function DesignerKey(k: nat): string {
    "Designer_" + NatToString(k + 1)
  }

  lemma DesignerKeyInjective(a: nat, b: nat)
    ensures DesignerKey(a) == DesignerKey(b) ==> a == b
  {
    if DesignerKey(a) == DesignerKey(b) {
      assert DesignerKey(a)[9..] == NatToString(a + 1);
      assert DesignerKey(b)[9..] == NatToString(b + 1);
      NatToStringInjective(a + 1, b + 1);
    }
  }

  /** The keys of `designer_files`, in the order they are added. */
  function DesignerKeys(n: nat): (r: seq<string>)
    ensures |r| == n && forall k :: 0 <= k < n ==> r[k] == DesignerKey(k)
  {
    seq(n, k requires 0 <= k < n => DesignerKey(k))
  }

  /** Every designer's list is empty. */
  predicate AllEmpty(lists: map<string, seq<string>>) {
    forall k :: k in lists ==> lists[k] == []
  }

  /** The next designer's key is not among the earlier ones. */
  lemma NextKeyIsNew(n: nat)
    ensures DesignerKey(n) !in DesignerKeys(n)
  {
    forall k | 0 <= k < n ensures DesignerKeys(n)[k] != DesignerKey(n) {
      DesignerKeyInjective(k, n);
    }
  }

  /** Adding designer `n + 1` to the first `n`, each with an empty list. */
  lemma AddDesignerStep(order: seq<string>, files: map<string, seq<string>>, n: nat)
    requires order == DesignerKeys(n) && KeyedBy(order, files)
    requires AllEmpty(files)
    ensures var key := DesignerKey(n);
      var order', files' := Inserted(order, files, key), files[key := []];
      && order' == DesignerKeys(n + 1) && KeyedBy(order', files')
      && AllEmpty(files')
  {
    var key := DesignerKey(n);
    NextKeyIsNew(n);
    KeyedInsert(order, files, key, []);
    assert Inserted(order, files, key) == DesignerKeys(n + 1);
  }

  lemma FolderStep(source: string, folders: seq<string>, n: nat)
    requires folders == FolderPaths(source, n)
    ensures folders + [JoinPath(source, DesignerKey(n))] == FolderPaths(source, n + 1)
  {
  }

  /** The folders `os.makedirs` is asked for. */
  function FolderPaths(source: string, n: nat): (r: seq<string>)
    ensures |r| == n && forall k :: 0 <= k < n ==> r[k] == JoinPath(source, DesignerKey(k))
  {
    seq(n, k requires 0 <= k < n => JoinPath(source, DesignerKey(k)))
  }

  /** How many designers `range(num_designers)` creates. */
  function Clamp(n: int): nat {
    if n > 0 then n else 0
  }

  /** The name a walked file is recorded under: `os.path.basename` of its
      full path. */
  function NameOf(e: WalkEntry): string {
    Basename(FullPath(e))
  }

  /** The names recorded for a list of walked files. */
  function Names(files: seq<WalkEntry>): (r: seq<string>)
    ensures |r| == |files|
  {
    MapSeq(NameOf, files)
  }

  function NameGroups(gs: seq<seq<WalkEntry>>): (r: seq<seq<string>>)
    ensures |r| == |gs| && forall i :: 0 <= i < |gs| ==> r[i] == Names(gs[i])
  {
    seq(|gs|, i requires 0 <= i < |gs| => Names(gs[i]))
  }

  lemma NamesAppend(a: seq<WalkEntry>, b: seq<WalkEntry>)
    ensures Names(a + b) == Names(a) + Names(b)
  {
    MapSeqAppend(NameOf, a, b);
  }

  /** One more file of a group listed. */
  lemma ListedStep(base: seq<string>, files: seq<WalkEntry>, j: nat)
    requires j < |files|
    ensures base + Names(files[..j]) + Names([files[j]]) == base + Names(files[..j + 1])
  {
    assert files[..j + 1] == files[..j] + [files[j]];
    NamesAppend(files[..j], [files[j]]);
  }

  /** One more file of a group processed. */
  lemma PrefixStep<T>(done: seq<T>, files: seq<T>, j: nat)
    requires j < |files|
    ensures done + files[..j] + [files[j]] == done + files[..j + 1]
  {
    assert files[..j + 1] == files[..j] + [files[j]];
  }

  lemma {:induction false} FlattenNames(gs: seq<seq<WalkEntry>>)
    ensures Flatten(NameGroups(gs)) == Names(Flatten(gs))
    decreases |gs|
  {
    if |gs| > 0 {
      var n := |gs|;
      assert NameGroups(gs)[..n - 1] == NameGroups(gs[..n - 1]);
      FlattenNames(gs[..n - 1]);
      NamesAppend(Flatten(gs[..n - 1]), gs[n - 1]);
    }
  }

  /** The grouping half of ValidScan. */
  ghost predicate ValidGroups(s: ScanResult) {
    GroupsValid(s.groups, s.groupOrder, s.imageFiles)
  }

  lemma WalkGroupsValid(walk: seq<WalkEntry>)
    ensures ValidGroups(ScanWalk(walk))
  {
    ScanIsValid(walk);
  }

  lemma WalkCountsKeyed(walk: seq<WalkEntry>)
    ensures KeyedBy(ScanWalk(walk).extensionOrder, ScanWalk(walk).extensions)
  {
    ScanIsValid(walk);
  }

  lemma SortedKeysInGroups(s: ScanResult)
    requires ValidGroups(s)
    ensures forall i :: 0 <= i < |Sort(s.groupOrder)| ==> Sort(s.groupOrder)[i] in s.groups
  {
    KeysOfPermutation(s.groupOrder, Sort(s.groupOrder), s.groups);
  }

  /** The file lists of `sorted(image_groups.items())`, in id order. */
  function SortedGroups(s: ScanResult): seq<seq<WalkEntry>>
    requires ValidGroups(s)
  {
    SortedKeysInGroups(s);
    Lookup(Sort(s.groupOrder), s.groups)
  }

  /** The order in which the move loop visits the files. */
  function ProcessingOrder(s: ScanResult): seq<WalkEntry>
    requires ValidGroups(s)
  {
    Flatten(SortedGroups(s))
  }

  /** The groups go out in increasing id order, each group whole, and the
      move loop visits every grouped file exactly once. */
  lemma SortedGroupsProperties(s: ScanResult)
    requires ValidGroups(s)
    ensures Increasing(Sort(s.groupOrder)) && multiset(Sort(s.groupOrder)) == multiset(s.groupOrder)
    ensures |SortedGroups(s)| == |s.groupOrder|
    ensures forall i :: 0 <= i < |Sort(s.groupOrder)| ==> Sort(s.groupOrder)[i] in s.groups
    ensures forall i :: 0 <= i < |SortedGroups(s)| ==> SortedGroups(s)[i] == s.groups[Sort(s.groupOrder)[i]]
    ensures multiset(ProcessingOrder(s)) == multiset(s.imageFiles)
    ensures |ProcessingOrder(s)| == |s.imageFiles|
  {
    SortedKeysInGroups(s);
    SortOfDistinct(s.groupOrder);
    assert |Sort(s.groupOrder)| == |s.groupOrder| by {
      assert |multiset(Sort(s.groupOrder))| == |multiset(s.groupOrder)|;
    }
    FlattenLookupPermutation(s.groupOrder, Sort(s.groupOrder), s.groups);
    assert |multiset(ProcessingOrder(s))| == |multiset(s.imageFiles)|;
  }

  /** What the designers' lists hold once every group is handed out. */
  function DesignerLists(s: ScanResult, n: nat): (r: seq<seq<string>>)
    requires ValidGroups(s) && n > 0
    ensures |r| == n
  {
    var gs := NameGroups(SortedGroups(s));
    Placed(gs, |gs|, n)
  }

  /** The processing order of the scan of a walk. */
  function WalkOrder(walk: seq<WalkEntry>): seq<WalkEntry> {
    WalkGroupsValid(walk);
    ProcessingOrder(ScanWalk(walk))
  }

  /** The designers' lists after a run over a walk. */
  function WalkLists(walk: seq<WalkEntry>, n: nat): (r: seq<seq<string>>)
    requires n > 0
    ensures |r| == n
  {
    WalkGroupsValid(walk);
    DesignerLists(ScanWalk(walk), n)
  }

  /** Each designer's list is the names of the groups of its block, whole
      and in id order. */
  lemma DesignerListIsBlock(s: ScanResult, n: nat, d: nat)
    requires ValidGroups(s) && n > 0 && d < n
    ensures var total := |SortedGroups(s)|;
      BlockStart(d, total, n) <= BlockStart(d + 1, total, n) <= total
      && DesignerLists(s, n)[d]
         == Flatten(NameGroups(SortedGroups(s))[BlockStart(d, total, n)..BlockStart(d + 1, total, n)])
  {
    var gs := NameGroups(SortedGroups(s));
    PlacedBlocks(gs, |gs|, n, d);
  }

  /** The lists, read in designer order, name every grouped file once, in
      processing order, whether or not its move later fails. */
  lemma DesignerListsCover(s: ScanResult, n: nat)
    requires ValidGroups(s) && n > 0
    ensures Flatten(DesignerLists(s, n)) == Names(ProcessingOrder(s))
    ensures multiset(Flatten(DesignerLists(s, n))) == multiset(Names(s.imageFiles))
  {
    var gs := NameGroups(SortedGroups(s));
    PlacedFlatten(gs, |gs|, n);
    FlattenNames(SortedGroups(s));
    SortedGroupsProperties(s);
    NamesPermutation(ProcessingOrder(s), s.imageFiles);
  }

  lemma NamesPermutation(a: seq<WalkEntry>, b: seq<WalkEntry>)
    requires multiset(a) == multiset(b)
    ensures multiset(Names(a)) == multiset(Names(b))
  {
    MapSeqPermutation(NameOf, a, b);
  }

  /** Handing group `i` to its designer keeps the designers' lists equal
      to the placement of the groups so far. */
  lemma ListsAfterGroup(ng: seq<seq<string>>, i: nat, total: nat, n: nat, d0: nat, key: string, added: seq<string>,
                        order: seq<string>, prev: map<string, seq<string>>, lists: map<string, seq<string>>)
    requires n > 0 && i < |ng| <= total && |order| == n && Distinct(order)
    requires forall d :: 0 <= d < n ==> order[d] in prev && prev[order[d]] == Placed(ng[..i], total, n)[d]
    requires d0 == DesignerIndex(i, total, n) && key == order[d0] && added == ng[i]
    requires lists == prev[key := prev[key] + added]
    ensures forall d :: 0 <= d < n ==> order[d] in lists && lists[order[d]] == Placed(ng[..i + 1], total, n)[d]
  {
    PlacedSnoc(ng, i, total, n);
  }

  /** Files whose move succeeded. */
  function MovedCount(files: seq<WalkEntry>, fate: WalkEntry -> Fate): nat
    decreases |files|
  {
    if |files| == 0 then 0
    else MovedCount(files[..|files| - 1], fate) + if fate(files[|files| - 1]).Moved? then 1 else 0
  }

  /** Moved files found to have a white background. */
  function WhiteCount(files: seq<WalkEntry>, fate: WalkEntry -> Fate): nat
    decreases |files|
  {
    if |files| == 0 then 0
    else
      var f := fate(files[|files| - 1]);
      WhiteCount(files[..|files| - 1], fate) + if f.Moved? && ImageIsWhite(f.image) then 1 else 0
  }

  /** Moved files found not to have one. */
  function NonWhiteCount(files: seq<WalkEntry>, fate: WalkEntry -> Fate): nat
    decreases |files|
  {
    if |files| == 0 then 0
    else
      var f := fate(files[|files| - 1]);
      NonWhiteCount(files[..|files| - 1], fate) + if f.Moved? && !ImageIsWhite(f.image) then 1 else 0
  }

  /** Every moved file lands in exactly one of the two counters, and no
      more files are moved than visited. */
  lemma {:induction false} CountsAddUp(files: seq<WalkEntry>, fate: WalkEntry -> Fate)
    ensures WhiteCount(files, fate) + NonWhiteCount(files, fate) == MovedCount(files, fate)
    ensures MovedCount(files, fate) <= |files|
    decreases |files|
  {
    if |files| > 0 {
      CountsAddUp(files[..|files| - 1], fate);
    }
  }

  /** A file whose move fails leaves every counter alone; a moved file
      adds one to the moved count and to exactly one of the two others. */
  lemma CountStep(files: seq<WalkEntry>, e: WalkEntry, fate: WalkEntry -> Fate)
    ensures var after := files + [e];
      && (fate(e).MoveFailed? ==>
            MovedCount(after, fate) == MovedCount(files, fate)
            && WhiteCount(after, fate) == WhiteCount(files, fate)
            && NonWhiteCount(after, fate) == NonWhiteCount(files, fate))
      && (fate(e).Moved? ==>
            MovedCount(after, fate) == MovedCount(files, fate) + 1
            && WhiteCount(after, fate) + NonWhiteCount(after, fate)
               == WhiteCount(files, fate) + NonWhiteCount(files, fate) + 1
            && (WhiteCount(after, fate) == WhiteCount(files, fate) + 1
               <==> ImageIsWhite(fate(e).image)))
  {
    assert (files + [e])[..|files|] == files;
  }

  lemma {:induction false} CountsAppend(a: seq<WalkEntry>, b: seq<WalkEntry>, fate: WalkEntry -> Fate)
    ensures MovedCount(a + b, fate) == MovedCount(a, fate) + MovedCount(b, fate)
    ensures WhiteCount(a + b, fate) == WhiteCount(a, fate) + WhiteCount(b, fate)
    ensures NonWhiteCount(a + b, fate) == NonWhiteCount(a, fate) + NonWhiteCount(b, fate)
    decreases |b|
  {
    if |b| == 0 {
      assert a + b == a;
    } else {
      var n := |b|;
      assert (a + b)[..|a + b| - 1] == a + b[..n - 1];
      CountsAppend(a, b[..n - 1], fate);
    }
  }

  /** The values the scan callback is called with: 1, 2, ..., n. */
  function CountUpTo(n: nat): (r: seq<nat>)
    ensures |r| == n && forall i :: 0 <= i < n ==> r[i] == i + 1
  {
    seq(n, i requires 0 <= i < n => i + 1)
  }

  lemma CountUpToSnoc(n: nat)
    ensures CountUpTo(n + 1) == CountUpTo(n) + [n + 1]
  {
  }

  /** The progress callback's calls after `p` moved files: the running
      count and the elapsed time at that call. */
  function ProgressLog(p: nat, elapsedAt: nat -> nat): (r: seq<(nat, string)>)
    ensures |r| == p && forall i :: 0 <= i < p ==> r[i] == ProgressEntry(i + 1, elapsedAt)
  {
    seq(p, i requires 0 <= i < p => ProgressEntry(i + 1, elapsedAt))
  }

  /** The `p`-th progress callback: `(processed, format_time(elapsed))`. */
  function ProgressEntry(p: nat, elapsedAt: nat -> nat): (nat, string) {
    (p, FormatTime(elapsedAt(p)))
  }

  lemma ProgressSnoc(p: nat, elapsedAt: nat -> nat)
    ensures ProgressLog(p + 1, elapsedAt) == ProgressLog(p, elapsedAt) + [ProgressEntry(p + 1, elapsedAt)]
  {
  }

  /** The progress counts start at 1 and go up by one per moved file. */
  lemma ProgressIncreasing(p: nat, elapsedAt: nat -> nat)
    ensures forall i, j :: 0 <= i < j < p ==> ProgressLog(p, elapsedAt)[i].0 < ProgressLog(p, elapsedAt)[j].0
    ensures p > 0 ==> ProgressLog(p, elapsedAt)[0].0 == 1 && ProgressLog(p, elapsedAt)[p - 1].0 == p
  {
  }

  class ImageProcessor {
    const sourceFolder: string
    const numDesigners: int

    // `self.stats`
    var totalImages: nat
    var whiteBackground: nat
    var nonWhiteBackground: nat
    var extensions: map<string, nat>
    var extensionOrder: seq<string>
    var designerFiles: map<string, seq<string>>
    var designerOrder: seq<string>

    // What the run does outside the object: the folders it creates, the
    // callbacks it makes and the report it writes.
    var folders: seq<string>
    var scanCalls: seq<nat>
    var progressCalls: seq<(nat, string)>
    var report: Option<Workbook>
    var completeCalls: nat

    /** `ImageProcessor.__init__`. */
    constructor (sourceFolder: string, numDesigners: int)
      ensures this.sourceFolder == sourceFolder && this.numDesigners == numDesigners
      ensures Initial()
    {
      this.sourceFolder := sourceFolder;
      this.numDesigners := numDesigners;
      totalImages, whiteBackground, nonWhiteBackground := 0, 0, 0;
      extensions, extensionOrder := map[], [];
      designerFiles, designerOrder := map[], [];
      folders, scanCalls, progressCalls := [], [], [];
      report, completeCalls := None, 0;
    }

    /** The state the constructor leaves. */
    ghost predicate Initial()
      reads this
    {
      && totalImages == 0 && whiteBackground == 0 && nonWhiteBackground == 0
      && extensions == map[] && extensionOrder == []
      && designerFiles == map[] && designerOrder == []
      && folders == [] && scanCalls == [] && progressCalls == []
      && report == None && completeCalls == 0
    }

    ghost function ScanPart(): (nat, map<string, nat>, seq<string>, seq<nat>)
      reads this
    {
      (totalImages, extensions, extensionOrder, scanCalls)
    }

    ghost function DesignerPart(): (map<string, seq<string>>, seq<string>, seq<string>)
      reads this
    {
      (designerFiles, designerOrder, folders)
    }

    ghost function MovePart(): (nat, nat, seq<(nat, string)>)
      reads this
    {
      (whiteBackground, nonWhiteBackground, progressCalls)
    }

    ghost function OutcomePart(): (Option<Workbook>, nat)
      reads this
    {
      (report, completeCalls)
    }

    /** One empty list per designer, `Designer_1` to `Designer_n`. */
    ghost predicate FreshDesigners(n: nat)
      reads this
    {
      && designerOrder == DesignerKeys(n)
      && KeyedBy(designerOrder, designerFiles)
      && AllEmpty(designerFiles)
    }

    /** The folder-creation loop. */
    method CreateDesignerFolders()
      modifies this
      requires designerFiles == map[] && designerOrder == [] && folders == []
      ensures FreshDesigners(Clamp(numDesigners))
      ensures folders == FolderPaths(sourceFolder, Clamp(numDesigners))
      ensures ScanPart() == old(ScanPart()) && MovePart() == old(MovePart())
      ensures OutcomePart() == old(OutcomePart())
    {
      for i := 0 to Clamp(numDesigners)
        invariant FreshDesigners(i)
        invariant folders == FolderPaths(sourceFolder, i)
        invariant ScanPart() == old(ScanPart()) && MovePart() == old(MovePart())
        invariant OutcomePart() == old(OutcomePart())
      {
        var key := DesignerKey(i);
        FolderStep(sourceFolder, folders, i);
        folders := folders + [JoinPath(sourceFolder, key)];
        AddDesignerStep(designerOrder, designerFiles, i);
        designerOrder := Inserted(designerOrder, designerFiles, key);
        designerFiles := designerFiles[key := []];
      }
    }

    /** The scan loop: `image_groups`, `image_files` and the extension
      counters, with one scan callback per grouped file. */
    method ScanFolder(walk: seq<WalkEntry>)
      returns (imageGroups: map<string, seq<WalkEntry>>, groupOrder: seq<string>, imageFiles: seq<WalkEntry>)
      modifies this
      requires extensions == map[] && extensionOrder == [] && scanCalls == []
      ensures ScanResult(imageGroups, groupOrder, imageFiles, extensions, extensionOrder) == ScanWalk(walk)
      ensures scanCalls == CountUpTo(|imageFiles|)
      ensures totalImages == old(totalImages)
      ensures DesignerPart() == old(DesignerPart()) && MovePart() == old(MovePart())
      ensures OutcomePart() == old(OutcomePart())
    {
      imageGroups, groupOrder, imageFiles := map[], [], [];
      for i := 0 to |walk|
        invariant ScanResult(imageGroups, groupOrder, imageFiles, extensions, extensionOrder) == ScanWalk(walk[..i])
        invariant scanCalls == CountUpTo(|imageFiles|)
        invariant totalImages == old(totalImages)
        invariant DesignerPart() == old(DesignerPart()) && MovePart() == old(MovePart())
        invariant OutcomePart() == old(OutcomePart())
      {
        var file := walk[i];
        var ext := Extension(file.name);
        if ext in SupportedFormats {
          var fileId := ExtractFileId(file.name);
          if fileId.Some? {
            CountUpToSnoc(|imageFiles|);
            imageGroups, groupOrder, imageFiles := RecordFile(file, ext, fileId.value, imageGroups, groupOrder, imageFiles);
          }
        }
        assert walk[..i + 1][..i] == walk[..i];
      }
      assert walk[..|walk|] == walk;
    }

    /** The body of the scan loop for a file that is kept: it joins the
        group of its id, is counted under its extension and is reported to
        the scan callback. */
    method RecordFile(file: WalkEntry, ext: string, id: string, groups0: map<string, seq<WalkEntry>>,
                      order0: seq<string>, files0: seq<WalkEntry>)
      returns (imageGroups: map<string, seq<WalkEntry>>, groupOrder: seq<string>, imageFiles: seq<WalkEntry>)
      modifies this
      ensures ScanResult(imageGroups, groupOrder, imageFiles, extensions, extensionOrder)
           == Record(ScanResult(groups0, order0, files0, old(extensions), old(extensionOrder)), file, ext, id)
      ensures scanCalls == old(scanCalls) + [|imageFiles|]
      ensures totalImages == old(totalImages)
      ensures DesignerPart() == old(DesignerPart()) && MovePart() == old(MovePart())
      ensures OutcomePart() == old(OutcomePart())
    {
      ghost var before := ScanResult(groups0, order0, files0, extensions, extensionOrder);
      imageGroups, groupOrder, imageFiles := groups0, order0, files0;
      if id !in imageGroups {
        groupOrder := groupOrder + [id];
        imageGroups := imageGroups[id := []];
      }
      imageGroups := imageGroups[id := imageGroups[id] + [file]];
      imageFiles := imageFiles + [file];
      extensionOrder := Inserted(extensionOrder, extensions, ext);
      var count := Get(extensions, ext, 0);
      extensions := extensions[ext := count + 1];
      scanCalls := scanCalls + [|imageFiles|];
      RecordIs(before, file, ext, id, count, ScanResult(imageGroups, groupOrder, imageFiles, extensions, extensionOrder));
    }

    /** The distribution and move loops over the sorted groups. */
    method MoveGroups(ids: seq<string>, imageGroups: map<string, seq<WalkEntry>>,
                      fate: WalkEntry -> Fate, elapsedAt: nat -> nat)
      modifies this
      requires numDesigners > 0
      requires forall i :: 0 <= i < |ids| ==> ids[i] in imageGroups
      requires FreshDesigners(numDesigners)
      requires whiteBackground == 0 && nonWhiteBackground == 0 && progressCalls == []
      ensures designerOrder == old(designerOrder) && KeyedBy(designerOrder, designerFiles)
      ensures var gs := Lookup(ids, imageGroups);
        forall d :: 0 <= d < numDesigners ==>
          designerFiles[designerOrder[d]] == Placed(NameGroups(gs), |gs|, numDesigners)[d]
      ensures var files := Flatten(Lookup(ids, imageGroups));
        && whiteBackground == WhiteCount(files, fate)
        && nonWhiteBackground == NonWhiteCount(files, fate)
        && progressCalls == ProgressLog(MovedCount(files, fate), elapsedAt)
      ensures folders == old(folders) && ScanPart() == old(ScanPart())
      ensures OutcomePart() == old(OutcomePart())
    {
      ghost var gs := Lookup(ids, imageGroups);
      ghost var ng := NameGroups(gs);
      var totalGroups := |ids|;
      var processed := 0;
      for i := 0 to totalGroups
        invariant designerOrder == old(designerOrder) && KeyedBy(designerOrder, designerFiles)
        invariant forall d :: 0 <= d < numDesigners ==>
          designerOrder[d] in designerFiles && designerFiles[designerOrder[d]] == Placed(ng[..i], totalGroups, numDesigners)[d]
        invariant Tallied(Flatten(gs[..i]), fate, elapsedAt, processed)
        invariant folders == old(folders) && ScanPart() == old(ScanPart())
        invariant OutcomePart() == old(OutcomePart())
      {
        processed := HandOut(i, ids, imageGroups, gs, ng, fate, elapsedAt, processed);
      }
      assert gs[..totalGroups] == gs && ng[..totalGroups] == ng;
    }

    /** One turn of the outer loop: group `i` goes to its designer. */
    method HandOut(i: nat, ids: seq<string>, imageGroups: map<string, seq<WalkEntry>>,
                   ghost gs: seq<seq<WalkEntry>>, ghost ng: seq<seq<string>>,
                   fate: WalkEntry -> Fate, elapsedAt: nat -> nat, processed0: nat) returns (processed: nat)
      modifies this
      requires numDesigners > 0 && i < |ids|
      requires forall k :: 0 <= k < |ids| ==> ids[k] in imageGroups
      requires gs == Lookup(ids, imageGroups) && ng == NameGroups(gs)
      requires designerOrder == DesignerKeys(numDesigners) && KeyedBy(designerOrder, designerFiles)
      requires forall d :: 0 <= d < numDesigners ==>
        designerOrder[d] in designerFiles && designerFiles[designerOrder[d]] == Placed(ng[..i], |ids|, numDesigners)[d]
      requires Tallied(Flatten(gs[..i]), fate, elapsedAt, processed0)
      ensures designerOrder == old(designerOrder) && KeyedBy(designerOrder, designerFiles)
      ensures forall d :: 0 <= d < numDesigners ==>
        designerOrder[d] in designerFiles && designerFiles[designerOrder[d]] == Placed(ng[..i + 1], |ids|, numDesigners)[d]
      ensures Tallied(Flatten(gs[..i + 1]), fate, elapsedAt, processed)
      ensures folders == old(folders) && ScanPart() == old(ScanPart())
      ensures OutcomePart() == old(OutcomePart())
    {
      var currentDesigner := DesignerIndex(i, |ids|, numDesigners);
      var key := DesignerKey(currentDesigner);
      assert key == designerOrder[currentDesigner];
      var groupFiles := imageGroups[ids[i]];
      processed := MoveGroup(key, groupFiles, fate, elapsedAt, processed0, Flatten(gs[..i]));
      assert gs[i] == groupFiles && ng[i] == Names(groupFiles);
      ListsAfterGroup(ng, i, |ids|, numDesigners, currentDesigner, key, Names(groupFiles),
                      designerOrder, old(designerFiles), designerFiles);
      FlattenPrefixStep(gs, i);
    }

    /** The counters and the progress log after the files `done` were
        visited, `processed` of them moved. */
    ghost predicate Tallied(done: seq<WalkEntry>, fate: WalkEntry -> Fate, elapsedAt: nat -> nat, processed: nat)
      reads this
    {
      && processed == MovedCount(done, fate)
      && whiteBackground == WhiteCount(done, fate)
      && nonWhiteBackground == NonWhiteCount(done, fate)
      && progressCalls == ProgressLog(processed, elapsedAt)
    }

    /** The inner loop of the move step: every file of one group is listed
        under its designer, then moved and, when it moved, classified and
        reported to the progress callback. */
    method MoveGroup(key: string, groupFiles: seq<WalkEntry>, fate: WalkEntry -> Fate,
                     elapsedAt: nat -> nat, processed0: nat, ghost done: seq<WalkEntry>) returns (processed: nat)
      modifies this
      requires key in designerFiles
      requires Tallied(done, fate, elapsedAt, processed0)
      ensures designerFiles == old(designerFiles)[key := old(designerFiles[key]) + Names(groupFiles)]
      ensures Tallied(done + groupFiles, fate, elapsedAt, processed)
      ensures designerOrder == old(designerOrder) && folders == old(folders)
      ensures ScanPart() == old(ScanPart()) && OutcomePart() == old(OutcomePart())
    {
      processed := processed0;
      assert Names(groupFiles[..0]) == [] && done + groupFiles[..0] == done;
      assert designerFiles[key] + [] == designerFiles[key];
      UpdateSame(designerFiles, key);
      for j := 0 to |groupFiles|
        invariant designerFiles == old(designerFiles)[key := old(designerFiles[key]) + Names(groupFiles[..j])]
        invariant Tallied(done + groupFiles[..j], fate, elapsedAt, processed)
        invariant designerOrder == old(designerOrder) && folders == old(folders)
        invariant ScanPart() == old(ScanPart()) && OutcomePart() == old(OutcomePart())
      {
        var file := groupFiles[j];
        ghost var listed := old(designerFiles[key]) + Names(groupFiles[..j]);
        ListFile(key, file);
        ListedStep(old(designerFiles[key]), groupFiles, j);
        UpdateTwice(old(designerFiles), key, listed, listed + Names([file]));
        processed := MoveFile(file, fate, elapsedAt, processed, done + groupFiles[..j]);
        PrefixStep(done, groupFiles, j);
      }
      assert groupFiles[..|groupFiles|] == groupFiles;
    }

    /** Recording a file under its designer, by its base name. */
    method ListFile(key: string, file: WalkEntry)
      modifies this
      requires key in designerFiles
      ensures designerFiles == old(designerFiles)[key := old(designerFiles[key]) + Names([file])]
      ensures designerOrder == old(designerOrder) && folders == old(folders)
      ensures ScanPart() == old(ScanPart()) && MovePart() == old(MovePart())
      ensures OutcomePart() == old(OutcomePart())
    {
      var imageFile := NameOf(file);
      designerFiles := designerFiles[key := designerFiles[key] + [imageFile]];
      assert Names([file]) == [imageFile];
    }

    /** Moving one file (`os.rename`, whose outcome is `fate`) and, when the
        move succeeds, testing and counting it. */
    method MoveFile(file: WalkEntry, fate: WalkEntry -> Fate, elapsedAt: nat -> nat, processed0: nat,
                    ghost done: seq<WalkEntry>) returns (processed: nat)
      modifies this
      requires Tallied(done, fate, elapsedAt, processed0)
      ensures Tallied(done + [file], fate, elapsedAt, processed)
      ensures ScanPart() == old(ScanPart()) && DesignerPart() == old(DesignerPart())
      ensures OutcomePart() == old(OutcomePart())
    {
      CountStep(done, file, fate);
      match fate(file)
      case MoveFailed =>
        processed := processed0;
      case Moved(img) =>
        processed := CountMoved(img, processed0, elapsedAt);
    }

    /** What follows a successful move: the background test, its counter
        and the progress callback. */
    method CountMoved(img: Option<Image>, processed0: nat, elapsedAt: nat -> nat) returns (processed: nat)
      modifies this
      requires progressCalls == ProgressLog(processed0, elapsedAt)
      ensures processed == processed0 + 1
      ensures ImageIsWhite(img) ==> whiteBackground == old(whiteBackground) + 1 && nonWhiteBackground == old(nonWhiteBackground)
      ensures !ImageIsWhite(img) ==> whiteBackground == old(whiteBackground) && nonWhiteBackground == old(nonWhiteBackground) + 1
      ensures progressCalls == ProgressLog(processed, elapsedAt)
      ensures ScanPart() == old(ScanPart()) && DesignerPart() == old(DesignerPart())
      ensures OutcomePart() == old(OutcomePart())
    {
      var white := IsWhiteBackground(img);
      if white {
        whiteBackground := whiteBackground + 1;
      } else {
        nonWhiteBackground := nonWhiteBackground + 1;
      }
      processed := processed0 + 1;
      ProgressSnoc(processed0, elapsedAt);
      progressCalls := progressCalls + [ProgressEntry(processed, elapsedAt)];
    }

    /** `create_excel_report`, given the elapsed whole seconds. */
    method CreateExcelReport(elapsed: nat)
      modifies this
      requires KeyedBy(designerOrder, designerFiles) && KeyedBy(extensionOrder, extensions)
      ensures ScanPart() == old(ScanPart()) && DesignerPart() == old(DesignerPart())
      ensures KeyedBy(designerOrder, designerFiles) && KeyedBy(extensionOrder, extensions)
      ensures report == Some(BuildWorkbook(designerOrder, designerFiles, totalImages, whiteBackground,
                                           nonWhiteBackground, extensionOrder, extensions, elapsed))
      ensures completeCalls == old(completeCalls)
      ensures MovePart() == old(MovePart())
    {
      report := Some(BuildWorkbook(designerOrder, designerFiles, totalImages, whiteBackground,
                                   nonWhiteBackground, extensionOrder, extensions, elapsed));
    }

    /** Whether the run stops on an exception after the scan: a division
        by zero for no designers, or a missing designer list when there
        are groups but a negative number of designers. */
    static predicate Aborts(numDesigners: int, s: ScanResult) {
      numDesigners == 0 || (numDesigners < 0 && s.groupOrder != [])
    }

    /** `ImageProcessor.run`. `elapsedAt(p)` is the elapsed time, in whole
        seconds, at the `p`-th progress callback and `totalTime` the one
        the report reads. */
    method Run(walk: seq<WalkEntry>, fate: WalkEntry -> Fate, elapsedAt: nat -> nat, totalTime: nat)
      modifies this
      requires Initial()
      ensures var s := ScanWalk(walk);
        && totalImages == |s.imageFiles|
        && extensions == s.extensions && extensionOrder == s.extensionOrder
        && scanCalls == CountUpTo(|s.imageFiles|)
      ensures designerOrder == DesignerKeys(Clamp(numDesigners))
      ensures KeyedBy(designerOrder, designerFiles) && KeyedBy(extensionOrder, extensions)
      ensures folders == FolderPaths(sourceFolder, Clamp(numDesigners))
      ensures numDesigners > 0 ==>
        var order := WalkOrder(walk);
        && (forall d :: 0 <= d < numDesigners ==> designerFiles[DesignerKey(d)] == WalkLists(walk, numDesigners)[d])
        && whiteBackground == WhiteCount(order, fate)
        && nonWhiteBackground == NonWhiteCount(order, fate)
        && progressCalls == ProgressLog(MovedCount(order, fate), elapsedAt)
      ensures numDesigners <= 0 ==>
        && AllEmpty(designerFiles)
        && whiteBackground == 0 && nonWhiteBackground == 0 && progressCalls == []
      ensures Aborts(numDesigners, ScanWalk(walk)) ==> report == None && completeCalls == 0
      ensures !Aborts(numDesigners, ScanWalk(walk)) ==>
        && report == Some(BuildWorkbook(designerOrder, designerFiles, totalImages, whiteBackground,
                                        nonWhiteBackground, extensionOrder, extensions, totalTime))
        && completeCalls == 1
    {
      var imageGroups, groupOrder, imageFiles := Prepare(walk);
      WalkCountsKeyed(walk);
      Distribute(walk, imageGroups, groupOrder, fate, elapsedAt, totalTime);
    }

    /** The folders, then the scan. */
    method Prepare(walk: seq<WalkEntry>)
      returns (imageGroups: map<string, seq<WalkEntry>>, groupOrder: seq<string>, imageFiles: seq<WalkEntry>)
      modifies this
      requires Initial()
      ensures ScanResult(imageGroups, groupOrder, imageFiles, extensions, extensionOrder) == ScanWalk(walk)
      ensures totalImages == |imageFiles| && scanCalls == CountUpTo(|imageFiles|)
      ensures FreshDesigners(Clamp(numDesigners)) && folders == FolderPaths(sourceFolder, Clamp(numDesigners))
      ensures whiteBackground == 0 && nonWhiteBackground == 0 && progressCalls == []
      ensures report == None && completeCalls == 0
    {
      CreateDesignerFolders();
      imageGroups, groupOrder, imageFiles := ScanFolder(walk);
      totalImages := |imageFiles|;
    }

    /** Everything after the scan: the distribution and the moves, then the
        report and the completion callback, unless an exception ends the
        run first. */
    method Distribute(ghost walk: seq<WalkEntry>, imageGroups: map<string, seq<WalkEntry>>, groupOrder: seq<string>,
                      fate: WalkEntry -> Fate, elapsedAt: nat -> nat, totalTime: nat)
      modifies this
      requires ScanWalk(walk).groups == imageGroups && ScanWalk(walk).groupOrder == groupOrder
      requires FreshDesigners(Clamp(numDesigners)) && KeyedBy(extensionOrder, extensions)
      requires whiteBackground == 0 && nonWhiteBackground == 0 && progressCalls == []
      requires report == None && completeCalls == 0
      ensures ScanPart() == old(ScanPart())
      ensures designerOrder == old(designerOrder) && folders == old(folders)
      ensures KeyedBy(designerOrder, designerFiles)
      ensures numDesigners > 0 ==>
        var order := WalkOrder(walk);
        && (forall d :: 0 <= d < numDesigners ==> designerFiles[DesignerKey(d)] == WalkLists(walk, numDesigners)[d])
        && whiteBackground == WhiteCount(order, fate)
        && nonWhiteBackground == NonWhiteCount(order, fate)
        && progressCalls == ProgressLog(MovedCount(order, fate), elapsedAt)
      ensures numDesigners <= 0 ==>
        && AllEmpty(designerFiles)
        && whiteBackground == 0 && nonWhiteBackground == 0 && progressCalls == []
      ensures Aborts(numDesigners, ScanWalk(walk)) ==> report == None && completeCalls == 0
      ensures !Aborts(numDesigners, ScanWalk(walk)) ==>
        && report == Some(BuildWorkbook(designerOrder, designerFiles, totalImages, whiteBackground,
                                        nonWhiteBackground, extensionOrder, extensions, totalTime))
        && completeCalls == 1
    {
      if numDesigners == 0 {
        // `total_groups // self.num_designers` raises ZeroDivisionError,
        // which the outer handler swallows.
        return;
      }
      if numDesigners < 0 {
        if |groupOrder| > 0 {
          // No designer list exists, so the first append raises KeyError.
          return;
        }
      } else {
        MoveSorted(walk, imageGroups, groupOrder, fate, elapsedAt);
      }
      Finish(totalTime);
    }

    /** The report, then the completion callback. */
    method Finish(totalTime: nat)
      modifies this
      requires KeyedBy(designerOrder, designerFiles) && KeyedBy(extensionOrder, extensions)
      ensures ScanPart() == old(ScanPart()) && DesignerPart() == old(DesignerPart())
      ensures MovePart() == old(MovePart())
      ensures report == Some(BuildWorkbook(designerOrder, designerFiles, totalImages, whiteBackground,
                                           nonWhiteBackground, extensionOrder, extensions, totalTime))
      ensures completeCalls == old(completeCalls) + 1
    {
      CreateExcelReport(totalTime);
      completeCalls := completeCalls + 1;
    }

    /** The groups in sorted order, handed to the designers and moved. */
    method MoveSorted(ghost walk: seq<WalkEntry>, imageGroups: map<string, seq<WalkEntry>>, groupOrder: seq<string>,
                      fate: WalkEntry -> Fate, elapsedAt: nat -> nat)
      modifies this
      requires numDesigners > 0
      requires ScanWalk(walk).groups == imageGroups && ScanWalk(walk).groupOrder == groupOrder
      requires FreshDesigners(numDesigners)
      requires whiteBackground == 0 && nonWhiteBackground == 0 && progressCalls == []
      ensures ScanPart() == old(ScanPart()) && OutcomePart() == old(OutcomePart())
      ensures designerOrder == old(designerOrder) && folders == old(folders)
      ensures KeyedBy(designerOrder, designerFiles)
      ensures var order := WalkOrder(walk);
        && (forall d :: 0 <= d < numDesigners ==> designerFiles[DesignerKey(d)] == WalkLists(walk, numDesigners)[d])
        && whiteBackground == WhiteCount(order, fate)
        && nonWhiteBackground == NonWhiteCount(order, fate)
        && progressCalls == ProgressLog(MovedCount(order, fate), elapsedAt)
    {
      ghost var s := ScanWalk(walk);
      WalkGroupsValid(walk);
      var sortedIds := Sort(groupOrder);
      SortedKeysInGroups(s);
      MoveGroups(sortedIds, imageGroups, fate, elapsedAt);
      forall d | 0 <= d < numDesigners
        ensures designerFiles[DesignerKey(d)] == WalkLists(walk, numDesigners)[d]
      {
        assert designerOrder[d] == DesignerKey(d);
      }
    }
  }

  lemma RunCountersAddUp(walk: seq<WalkEntry>, fate: WalkEntry -> Fate)
    ensures var s := ScanWalk(walk);
      var order := WalkOrder(walk);
      && WhiteCount(order, fate) + NonWhiteCount(order, fate) == MovedCount(order, fate)
      && MovedCount(order, fate) <= |s.imageFiles|
  {
    var s := ScanWalk(walk);
    WalkGroupsValid(walk);
    CountsAddUp(ProcessingOrder(s), fate);
    SortedGroupsProperties(s);
  }
}
