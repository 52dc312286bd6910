// The `MetaInfo` object: the documentation tree of the repository together
// with the settings that steer reference parsing (white list, fake-file
// reflection, skipped files) and what the last merge with an older version
// found deleted. Its methods update the items of the tree in place.
module DocMeta {
  import opened Wrappers
  import opened PyStrings
  import opened SeqUtil
  import opened DocTree
  import opened DocSubtree
  import opened DocWalks
  import opened DocReferences
  import opened DocTasks
  import opened MultiTaskDispatch
  import opened DocMerge
  import MetaInfoUtils

  class MetaInfo {
    /** The shape of the tree, fixed once it is built; only the items change. */
    const links: map<Id, Link>
    const next: nat
    var items: map<Id, DocItem>
    var repoPath: string
    var documentVersion: string
    var whiteList: Option<seq<WhiteEntry>>
    var fakeFileReflection: map<string, string>
    var jumpFiles: seq<string>
    var deletedItemsFromOlderMeta: seq<(string, string)>
    var inGenerationProcess: bool

    ghost predicate Valid()
      reads this
    {
      Arena(links, items, next)
    }

    /** A `MetaInfo` around a built tree, with the dataclass defaults for everything else. */
    constructor (links0: map<Id, Link>, items0: map<Id, DocItem>, next0: nat)
      requires Arena(links0, items0, next0)
      ensures Valid() && links == links0 && items == items0 && next == next0
      ensures repoPath == "" && documentVersion == "" && whiteList == None
      ensures fakeFileReflection == map[] && jumpFiles == [] && deletedItemsFromOlderMeta == []
      ensures !inGenerationProcess
    {
      links, items, next := links0, items0, next0;
      repoPath, documentVersion, whiteList := "", "", None;
      fakeFileReflection, jumpFiles, deletedItemsFromOlderMeta := map[], [], [];
      inGenerationProcess := false;
    }

    // -------------------------------------------------------------------
    // check_depth
    // -------------------------------------------------------------------

    /** `DocItem.check_depth`: returns the height of `x` and leaves the items `DepthsBelow` describes. */
    method CheckDepth(x: Id) returns (depth: nat)
      requires Walkable(links, next) && x in links && items.Keys == links.Keys
      modifies this`items
      ensures depth == Height(links, next, x)
      ensures items == DepthsBelow(links, next, x, old(items))
      decreases next - x
    {
      var cs := links[x].children;
      if |cs| == 0 {
        items := items[x := items[x].(depth := 0)];
        return 0;
      }
      var maxChildDepth := 0;
      for k := 0 to |cs|
        invariant maxChildDepth == MaxChildHeight(links, next, x, k)
        invariant items == DepthsFrom(links, next, x, k, old(items))
      {
        var childDepth := CheckDepth(cs[k].1);
        maxChildDepth := if childDepth > maxChildDepth then childDepth else maxChildDepth;
      }
      depth := maxChildDepth + 1;
      items := items[x := items[x].(depth := depth)];
    }

    // -------------------------------------------------------------------
    // parse_tree_path
    // -------------------------------------------------------------------

    /** `DocItem.parse_tree_path(nowPath)`: leaves the items `TreePathsBelow` describes. */
    method ParseTreePath(x: Id, nowPath: seq<Id>)
      requires Walkable(links, next) && x in links && items.Keys == links.Keys
      modifies this`items
      ensures items == TreePathsBelow(links, next, x, nowPath, old(items))
      decreases next - x
    {
      items := items[x := items[x].(treePath := nowPath + [x])];
      ghost var m1 := items;
      var cs := links[x].children;
      for k := 0 to |cs|
        invariant items == TreePathsFrom(links, next, x, k, nowPath + [x], m1)
      {
        var c := cs[k].1;
        TreePathsFromAbove(links, next, x, k, nowPath + [x], m1, x);
        ParseTreePath(c, items[x].treePath);
      }
    }

    // -------------------------------------------------------------------
    // check_has_task
    // -------------------------------------------------------------------

    /** The first step of `check_has_task`: set the flag of `x` if it needs generation. */
    method MarkIfNeeded(x: Id, ignore: seq<string>)
      requires Upward(links) && x in links && items.Keys == links.Keys
      modifies this`items
      ensures items == Marked(links, x, ignore, old(items))
    {
      var need := NeedToGenerateScan(links, items, x, ignore);
      if need {
        items := items[x := items[x].(hasTask := true)];
      }
    }

    /** `DocItem.check_has_task(x, ignore)`: leaves the items `HasTasksBelow` describes. */
    method CheckHasTask(x: Id, ignore: seq<string>)
      requires Upward(links) && Walkable(links, next) && x in links && items.Keys == links.Keys
      modifies this`items
      ensures items == HasTasksBelow(links, next, x, ignore, old(items))
      decreases next - x, 1
    {
      MarkIfNeeded(x, ignore);
      HasTaskFromChildren(x, ignore);
    }

    /** The loop of `check_has_task` over the children of `x`, whose own flag is already set. */
    method HasTaskFromChildren(x: Id, ignore: seq<string>)
      requires Upward(links) && Walkable(links, next) && x in links && items.Keys == links.Keys
      modifies this`items
      ensures items == HasTasksFrom(links, next, x, ignore, |links[x].children|, old(items))
      decreases next - x, 0, 1
    {
      ghost var m1 := items;
      ghost var s: Shape := Skeleton(links, next);
      for k := 0 to |links[x].children|
        invariant items == ChildrenChecked(s, x, ignore, k, m1)
      {
        HasTaskFromChild(x, ignore, k, m1);
      }
    }

    /** One pass of the loop of `check_has_task`: walks child `k` of `x`, then folds its flag into `x`'s. */
    method HasTaskFromChild(x: Id, ignore: seq<string>, k: nat, ghost m1: map<Id, DocItem>)
      requires Upward(links) && Walkable(links, next) && x in links && items.Keys == links.Keys
      requires m1.Keys == links.Keys && k < |links[x].children|
      requires items == HasTasksFrom(links, next, x, ignore, k, m1)
      modifies this`items
      ensures items == HasTasksFrom(links, next, x, ignore, k + 1, m1)
      decreases next - x, 0, 0
    {
      var c := links[x].children[k].1;
      HasTasksFromNext(links, next, x, ignore, k, m1);
      CheckHasTask(c, ignore);
      items := items[x := items[x].(hasTask := items[c].hasTask || items[x].hasTask)];
    }

    // -------------------------------------------------------------------
    // get_all_files
    // -------------------------------------------------------------------

    /** The nested `walk_tree` of `get_all_files`: appends the files below `x` in travel order. */
    method WalkTree(x: Id, files0: seq<Id>) returns (files: seq<Id>)
      requires Walkable(links, next) && links.Keys == items.Keys && x in links
      ensures files == files0 + FilesIn(items, TravelList(links, next, x))
      decreases next - x
    {
      files := files0;
      if items[x].itemType == File {
        files := files + [x];
      }
      WalkStart(links, items, next, x, files0, files);
      var cs := links[x].children;
      ghost var total := files0 + FilesIn(items, TravelList(links, next, x));
      for k := 0 to |cs|
        invariant files + FilesIn(items, TravelFrom(links, next, x, k)) == total
      {
        WalkStep(links, items, next, x, k, files, total);
        files := WalkTree(cs[k].1, files);
      }
      assert TravelFrom(links, next, x, |cs|) == [];
    }

    /** `get_all_files`: the file items in travel order from the root. */
    method GetAllFiles() returns (files: seq<Id>)
      requires Valid()
      ensures files == AllFiles(links, items, next)
    {
      files := WalkTree(0, []);
    }

    // -------------------------------------------------------------------
    // parse_reference
    // -------------------------------------------------------------------

    /**
     * `parse_reference`: walks the selected files and records the edges the
     * finder's hits yield. The items become the old ones with some allowed,
     * new, distinct edges recorded, and every edge a hit of a walked object
     * yields is present.
     */
    method ParseReference(finder: Query -> seq<Hit>)
      requires Valid()
      requires forall f :: f in links && items[f].itemType == File ==>
                 !EndsWith(FullName(links, items, f), MetaInfoUtils.LatestVersionSubstring) && FullName(links, items, f) !in jumpFiles
      modifies this`items
      ensures Valid()
      ensures old(RefsInside(items)) ==> RefsInside(items)
      ensures ReferencesParsed(links, next, old(items), items, finder, old(repoPath), old(whiteList),
                               old(fakeFileReflection.Values), old(jumpFiles))
    {
      var files := GetAllFiles();
      forall k | 0 <= k < |files| ensures files[k] in links && items[files[k]].itemType == File {
        AllFilesMembers(links, items, next, files[k]);
      }
      ghost var es;
      items, es := RecordFiles(links, next, items, files, finder, repoPath, whiteList, fakeFileReflection.Values, jumpFiles);
      if old(RefsInside(items)) {
        RecordedInside(old(items), items, es);
      }
    }

    // -------------------------------------------------------------------
    // get_task_manager, get_topology
    // -------------------------------------------------------------------

    /**
     * `get_task_manager`: the candidates below `now` are dealt with one by
     * one; each gets a task in a new table and its task id. `order` is the
     * dealing order (the source's `deal_items`).
     */
    method GetTaskManager(now: Id, avail: Id -> bool) returns (tm: TaskManager<Id>, ghost order: seq<Id>, r: Result<nat>)
      requires Valid() && RefsInside(items) && now in links
      modifies this`items
      ensures Valid() && RefsInside(items) && fresh(tm)
      ensures Scheduled(links, old(items), next, now, whiteList, avail, items, tm, order, r)
    {
      var cur, dealt;
      cur, tm, dealt, r := TaskManagerFor(links, items, next, now, whiteList, avail);
      items := cur;
      order := dealt;
    }

    /** `get_topology`: parse the references, then schedule the whole tree. */
    method GetTopology(finder: Query -> seq<Hit>, avail: Id -> bool)
      returns (tm: TaskManager<Id>, ghost order: seq<Id>, ghost parsed: map<Id, DocItem>, r: Result<nat>)
      requires Valid() && RefsInside(items)
      requires forall f :: f in links && items[f].itemType == File ==>
                 !EndsWith(FullName(links, items, f), MetaInfoUtils.LatestVersionSubstring) && FullName(links, items, f) !in jumpFiles
      modifies this`items
      ensures Valid() && RefsInside(items) && fresh(tm) && Tasks(tm, order) && Numbering(tm.taskDict, order)
      ensures Arena(links, parsed, next) && RefsInside(parsed)
      ensures ReferencesParsed(links, next, old(items), parsed, finder, old(repoPath), old(whiteList),
                               old(fakeFileReflection.Values), old(jumpFiles))
      ensures Scheduled(links, parsed, next, 0, whiteList, avail, items, tm, order, r)
    {
      ParseReference(finder);
      parsed := items;
      tm, order, r := GetTaskManager(0, avail);
    }

    // -------------------------------------------------------------------
    // load_doc_from_older_meta
    // -------------------------------------------------------------------

    /**
     * `load_doc_from_older_meta`: carry the documentation over from the
     * older tree (`oldLinks`, `oldItems`), parse references anew, refresh
     * the statuses of the counterparts whose referencers changed, and
     * record the deleted items.
     */
    method LoadDocFromOlderMeta(oldLinks: map<Id, Link>, oldNext: nat, oldItems: map<Id, DocItem>,
                                finder: Query -> seq<Hit>)
      returns (err: Option<string>, ghost carried: map<Id, DocItem>, ghost referenced: map<Id, DocItem>)
      requires MergeReady(links, next, items, oldLinks, oldNext, oldItems, jumpFiles)
      modifies this`items, this`deletedItemsFromOlderMeta
      ensures MergedFrom(links, next, old(items), oldLinks, oldNext, oldItems, finder, old(repoPath),
                         old(whiteList), old(fakeFileReflection.Values), old(jumpFiles), old(deletedItemsFromOlderMeta),
                         carried, referenced, items, deletedItemsFromOlderMeta, err)
    {
      var m0, d0 := items, deletedItemsFromOlderMeta;
      var final, deleted;
      final, deleted, err, carried, referenced :=
        MergeOlder(links, next, m0, oldLinks, oldNext, oldItems, finder,
                   repoPath, whiteList, fakeFileReflection.Values, jumpFiles, d0);
      items, deletedItemsFromOlderMeta := final, deleted;
    }
  }

  /** `load_doc_from_older_meta` on the values of the fields it reads and writes. */
  method MergeOlder(links: map<Id, Link>, next: nat, m: map<Id, DocItem>,
                    oldLinks: map<Id, Link>, oldNext: nat, oldItems: map<Id, DocItem>,
                    finder: Query -> seq<Hit>, repoPath: string, whiteList: Option<seq<WhiteEntry>>,
                    fakeFiles: set<string>, jumpFiles: seq<string>, deleted0: seq<(string, string)>)
    returns (final: map<Id, DocItem>, deleted: seq<(string, string)>, err: Option<string>,
             ghost carried: map<Id, DocItem>, ghost referenced: map<Id, DocItem>)
    requires MergeReady(links, next, m, oldLinks, oldNext, oldItems, jumpFiles)
    ensures MergedFrom(links, next, m, oldLinks, oldNext, oldItems, finder, repoPath, whiteList, fakeFiles, jumpFiles,
                       deleted0, carried, referenced, final, deleted, err)
  {
    var cur;
    cur, deleted, err := CarryOver(links, next, m, oldLinks, oldNext, oldItems);
    CarriedSameButDocs(links, next, m, oldLinks, oldNext, oldItems, cur, deleted, err);
    SameButDocsKeeps(links, next, m, cur);
    carried, referenced, final := cur, cur, cur;
    if err.Some? {
      MergeStopped(links, next, m, oldLinks, oldNext, oldItems, cur, deleted0, deleted, err);
      deleted := deleted0;
      return;
    }
    var files := AllFiles(links, cur, next);
    var parsed;
    final, parsed := ReferencesAgain(links, next, cur, oldLinks, oldNext, oldItems, files, finder,
                                     repoPath, whiteList, fakeFiles, jumpFiles);
    referenced := parsed;
    MergeDone(links, next, m, oldLinks, oldNext, oldItems, carried, referenced, final, deleted0, deleted);
  }

  /**
   * The rest of `load_doc_from_older_meta` once everything is carried
   * over: `parse_reference` over the files of the tree, then `travel2`.
   */
  method ReferencesAgain(links: map<Id, Link>, next: nat, carried: map<Id, DocItem>,
                         oldLinks: map<Id, Link>, oldNext: nat, oldItems: map<Id, DocItem>, files: seq<Id>,
                         finder: Query -> seq<Hit>, repoPath: string, whiteList: Option<seq<WhiteEntry>>,
                         fakeFiles: set<string>, jumpFiles: seq<string>)
    returns (final: map<Id, DocItem>, referenced: map<Id, DocItem>)
    requires Arena(links, carried, next) && Arena(oldLinks, oldItems, oldNext) && RefsInside(carried)
    requires files == AllFiles(links, carried, next)
    requires forall f :: f in links && carried[f].itemType == File ==>
               !EndsWith(FullName(links, carried, f), MetaInfoUtils.LatestVersionSubstring) && FullName(links, carried, f) !in jumpFiles
    ensures Arena(links, final, next) && links.Keys == referenced.Keys && RefsInside(referenced)
    ensures ReferencesParsed(links, next, carried, referenced, finder, repoPath, whiteList, fakeFiles, jumpFiles)
    ensures final == Refreshed(links, next, referenced, oldItems, BackMap(links, next, oldLinks, oldNext))
  {
    forall k | 0 <= k < |files| ensures files[k] in links && carried[files[k]].itemType == File {
      AllFilesMembers(links, carried, next, files[k]);
    }
    ghost var es;
    referenced, es := RecordFiles(links, next, carried, files, finder, repoPath, whiteList, fakeFiles, jumpFiles);
    RecordedInside(carried, referenced, es);
    final := RefreshStatuses(links, next, referenced, oldLinks, oldNext, oldItems);
    RefreshedSameButStatus(links, next, referenced, oldItems, BackMap(links, next, oldLinks, oldNext));
    SameButStatusKeeps(links, next, referenced, final);
  }
}
