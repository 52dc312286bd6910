// What the recursive walks over the documentation tree share: which items
// the walk started at a child reaches, that sibling subtrees do not overlap,
// that `need_to_generate` looks only at names, kinds and statuses, and the
// values `parse_tree_path` and `check_has_task` leave behind.
module DocSubtree {
  import opened Wrappers
  import opened DocTree
  import opened SeqUtil

  // ---------------------------------------------------------------------
  // Subtrees of children
  // ---------------------------------------------------------------------

  /** `y` lies in the subtree of one of the first `k` children of `x`. */
  ghost predicate InFirst(links: map<Id, Link>, x: Id, k: nat, y: Id)
    requires Upward(links) && x in links && y in links
  {
    exists j :: 0 <= j < k && j < |links[x].children| && links[x].children[j].1 in PathTo(links, y)
  }

  /** Adding the `k`-th child's subtree to the first `k`. */
  lemma InFirstStep(links: map<Id, Link>, next: nat, x: Id, k: nat, y: Id)
    requires Tree(links, next) && x in links && y in links && k < |links[x].children|
    ensures InFirst(links, x, k + 1, y) <==> InFirst(links, x, k, y) || links[x].children[k].1 in PathTo(links, y)
  {
    if links[x].children[k].1 in PathTo(links, y) {
      assert 0 <= k < k + 1 && k < |links[x].children|;
    }
  }

  /** A child's position in the path of anything below it: right after its father. */
  lemma ChildLevel(links: map<Id, Link>, next: nat, x: Id, c: Id, y: Id)
    requires Tree(links, next) && x in links && c in links && y in links
    requires links[c].father == Some(x) && c in PathTo(links, y)
    ensures PathTo(links, c) == PathTo(links, x) + [c]
    ensures |PathTo(links, x)| < |PathTo(links, y)| && PathTo(links, y)[|PathTo(links, x)|] == c
    ensures PathTo(links, y)[|PathTo(links, x)| - 1] == x
  {
    var p := PathTo(links, y);
    var pos :| 0 <= pos < |p| && p[pos] == c;
    PathAtLevel(links, c, y, pos);
    var px := PathTo(links, x);
    assert PathTo(links, c) == px + [c];
    assert p[..pos + 1] == px + [c];
    assert p[pos - 1] == p[..pos + 1][pos - 1];
  }

  /** Anything below a child of `x` is strictly below `x`. */
  lemma ChildBelowParent(links: map<Id, Link>, next: nat, x: Id, c: Id, y: Id)
    requires Tree(links, next) && x in links && c in links && y in links
    requires links[c].father == Some(x) && c in PathTo(links, y)
    ensures x in PathTo(links, y) && x != y
  {
    ChildLevel(links, next, x, c, y);
    var p, px := PathTo(links, y), PathTo(links, x);
    assert p[|px| - 1] == x;
  }

  lemma InFirstBelow(links: map<Id, Link>, next: nat, x: Id, k: nat, y: Id)
    requires Tree(links, next) && x in links && y in links && InFirst(links, x, k, y)
    ensures x in PathTo(links, y) && x != y
  {
    var j :| 0 <= j < k && j < |links[x].children| && links[x].children[j].1 in PathTo(links, y);
    var c := links[x].children[j].1;
    ChildBelowParent(links, next, x, c, y);
  }

  /** Everything strictly below `x` lies below one of its children. */
  lemma InFirstAll(links: map<Id, Link>, next: nat, x: Id, y: Id)
    requires Tree(links, next) && y in links && x in PathTo(links, y) && x != y
    ensures x in links && InFirst(links, x, |links[x].children|, y)
  {
    var c, k := ChildOnPath(links, next, x, y);
    var pc := PathTo(links, c);
    assert PathTo(links, y)[|pc| - 1] == pc[|pc| - 1] == c;
  }

  /** No item lies below two different children of the same father. */
  lemma SiblingsApart(links: map<Id, Link>, next: nat, x: Id, j: nat, k: nat, y: Id)
    requires Tree(links, next) && x in links && y in links
    requires j < |links[x].children| && k < |links[x].children| && j != k
    requires links[x].children[j].1 in PathTo(links, y)
    ensures links[x].children[k].1 !in PathTo(links, y)
  {
    var cs := links[x].children;
    assert IdsDistinct(cs);
    ChildLevel(links, next, x, cs[j].1, y);
    if cs[k].1 in PathTo(links, y) {
      ChildLevel(links, next, x, cs[k].1, y);
    }
  }

  /** The subtree of the `k`-th child is disjoint from those of the children before it. */
  lemma NotInFirst(links: map<Id, Link>, next: nat, x: Id, k: nat, y: Id)
    requires Tree(links, next) && x in links && y in links && k < |links[x].children|
    requires links[x].children[k].1 in PathTo(links, y)
    ensures !InFirst(links, x, k, y)
  {
    if InFirst(links, x, k, y) {
      var j :| 0 <= j < k && j < |links[x].children| && links[x].children[j].1 in PathTo(links, y);
      SiblingsApart(links, next, x, j, k, y);
    }
  }

  // ---------------------------------------------------------------------
  // need_to_generate reads only names, kinds and statuses
  // ---------------------------------------------------------------------

  /** Two versions of the items that agree on every name, kind and status. */
  ghost predicate SameNames(a: map<Id, DocItem>, b: map<Id, DocItem>)
  {
    a.Keys == b.Keys
    && forall y :: y in a ==>
         a[y].itemType == b[y].itemType && a[y].itemStatus == b[y].itemStatus && a[y].objName == b[y].objName
  }

  lemma {:induction false} NamesAlongFrame(a: map<Id, DocItem>, b: map<Id, DocItem>, p: seq<Id>)
    requires SameNames(a, b) && forall k :: 0 <= k < |p| ==> p[k] in a
    ensures NamesAlong(a, p) == NamesAlong(b, p)
  {
    if |p| > 0 {
      NamesAlongFrame(a, b, p[1..]);
    }
  }

  lemma {:induction false} ScanFathersFrame(links: map<Id, Link>, a: map<Id, DocItem>, b: map<Id, DocItem>,
                                            cur: Option<Id>, name: string, ignore: seq<string>)
    requires Upward(links) && links.Keys <= a.Keys && SameNames(a, b) && (cur.Some? ==> cur.value in links)
    ensures ScanFathers(links, a, cur, name, ignore) == ScanFathers(links, b, cur, name, ignore)
    decreases if cur.Some? then cur.value + 1 else 0
  {
    if cur.Some? && a[cur.value].itemType != File {
      ScanFathersFrame(links, a, b, links[cur.value].father, name, ignore);
    }
  }

  /** `need_to_generate` gives the same verdict on two versions that agree on names, kinds and statuses. */
  lemma NeedToGenerateFrame(links: map<Id, Link>, a: map<Id, DocItem>, b: map<Id, DocItem>, x: Id, ignore: seq<string>)
    requires Upward(links) && x in links && links.Keys <= a.Keys && SameNames(a, b)
    ensures NeedToGenerate(links, a, x, ignore) == NeedToGenerate(links, b, x, ignore)
  {
    if links[x].father.Some? {
      NamesAlongFrame(a, b, PathTo(links, x)[1..]);
      assert FullName(links, a, x) == FullName(links, b, x);
      ScanFathersFrame(links, a, b, links[x].father, FullName(links, a, x), ignore);
    }
  }

  // ---------------------------------------------------------------------
  // check_has_task
  // ---------------------------------------------------------------------

  /** The `has_task` flag `check_has_task` leaves on `x`. */
  function HasTaskAfter(links: map<Id, Link>, items: map<Id, DocItem>, next: nat, x: Id, ignore: seq<string>): bool
    requires Upward(links) && Walkable(links, next) && x in links && links.Keys <= items.Keys
    decreases next - x, 1
  {
    items[x].hasTask || NeedToGenerate(links, items, x, ignore)
    || AnyChildHasTask(links, items, next, x, ignore, |links[x].children|)
  }

  /** Some of the first `k` children is left with `has_task` set. */
  function AnyChildHasTask(links: map<Id, Link>, items: map<Id, DocItem>, next: nat, x: Id, ignore: seq<string>, k: nat): bool
    requires Upward(links) && Walkable(links, next) && x in links && links.Keys <= items.Keys && k <= |links[x].children|
    decreases next - x, 0, k
  {
    if k == 0 then false
    else
      var c := links[x].children[k - 1].1;
      AnyChildHasTask(links, items, next, x, ignore, k - 1) || HasTaskAfter(links, items, next, c, ignore)
  }

  /** One more child: the flag of child `j` joins those of the first `j`. */
  lemma AnyChildNext(links: map<Id, Link>, items: map<Id, DocItem>, next: nat, x: Id, ignore: seq<string>, j: nat)
    requires Upward(links) && Walkable(links, next) && x in links && links.Keys <= items.Keys && j < |links[x].children|
    ensures links[x].children[j].1 in links && links[x].children[j].1 > x
    ensures AnyChildHasTask(links, items, next, x, ignore, j + 1)
            == (AnyChildHasTask(links, items, next, x, ignore, j) || HasTaskAfter(links, items, next, links[x].children[j].1, ignore))
  {
    assert j + 1 - 1 == j;
  }

  lemma {:induction false} AnyChildWitness(links: map<Id, Link>, items: map<Id, DocItem>, next: nat, x: Id, ignore: seq<string>, k: nat)
    returns (j: nat)
    requires Tree(links, next) && x in links && links.Keys <= items.Keys && k <= |links[x].children|
    requires AnyChildHasTask(links, items, next, x, ignore, k)
    ensures j < k && links[x].children[j].1 in links && links[links[x].children[j].1].father == Some(x)
    ensures HasTaskAfter(links, items, next, links[x].children[j].1, ignore)
    decreases k
  {
    var c := links[x].children[k - 1].1;
    if HasTaskAfter(links, items, next, c, ignore) {
      j := k - 1;
    } else {
      j := AnyChildWitness(links, items, next, x, ignore, k - 1);
    }
  }

  lemma {:induction false} AnyChildFrom(links: map<Id, Link>, items: map<Id, DocItem>, next: nat, x: Id, ignore: seq<string>, k: nat, j: nat)
    requires Tree(links, next) && x in links && links.Keys <= items.Keys && j < k <= |links[x].children|
    requires links[x].children[j].1 in links && HasTaskAfter(links, items, next, links[x].children[j].1, ignore)
    ensures AnyChildHasTask(links, items, next, x, ignore, k)
    decreases k
  {
    if j < k - 1 {
      AnyChildFrom(links, items, next, x, ignore, k - 1, j);
    }
  }

  /** A set flag has a reason: some item of the subtree had the flag already or needs generation. */
  lemma {:induction false} HasTaskWitness(links: map<Id, Link>, items: map<Id, DocItem>, next: nat, x: Id, ignore: seq<string>)
    returns (y: Id)
    requires Tree(links, next) && x in links && links.Keys <= items.Keys
    requires HasTaskAfter(links, items, next, x, ignore)
    ensures y in links && x in PathTo(links, y)
    ensures items[y].hasTask || NeedToGenerate(links, items, y, ignore)
    decreases next - x
  {
    if items[x].hasTask || NeedToGenerate(links, items, x, ignore) {
      y := x;
    } else {
      var j := AnyChildWitness(links, items, next, x, ignore, |links[x].children|);
      var c := links[x].children[j].1;
      y := HasTaskWitness(links, items, next, c, ignore);
      ChildBelowParent(links, next, x, c, y);
    }
  }

  /** Any reason in the subtree sets the flag. */
  lemma {:induction false} HasTaskFromBelow(links: map<Id, Link>, items: map<Id, DocItem>, next: nat, x: Id, ignore: seq<string>, y: Id)
    requires Tree(links, next) && y in links && x in PathTo(links, y) && links.Keys <= items.Keys
    requires items[y].hasTask || NeedToGenerate(links, items, y, ignore)
    ensures x in links && HasTaskAfter(links, items, next, x, ignore)
    decreases next - x
  {
    if x != y {
      InFirstAll(links, next, x, y);
      var j :| 0 <= j < |links[x].children| && links[x].children[j].1 in PathTo(links, y);
      var c := links[x].children[j].1;
      assert links[c].father == Some(x);
      HasTaskFromBelow(links, items, next, c, ignore, y);
      AnyChildFrom(links, items, next, x, ignore, |links[x].children|, j);
    }
  }

  /**
   * After `check_has_task`, an item is flagged exactly when something in its
   * subtree was flagged before or needs documentation.
   */
  lemma HasTaskMeaning(links: map<Id, Link>, items: map<Id, DocItem>, next: nat, x: Id, ignore: seq<string>)
    requires Tree(links, next) && x in links && links.Keys <= items.Keys
    ensures HasTaskAfter(links, items, next, x, ignore)
            <==> exists y :: y in links && x in PathTo(links, y) && (items[y].hasTask || NeedToGenerate(links, items, y, ignore))
  {
    if HasTaskAfter(links, items, next, x, ignore) {
      var y := HasTaskWitness(links, items, next, x, ignore);
    }
    if exists y :: y in links && x in PathTo(links, y) && (items[y].hasTask || NeedToGenerate(links, items, y, ignore)) {
      var y :| y in links && x in PathTo(links, y) && (items[y].hasTask || NeedToGenerate(links, items, y, ignore));
      HasTaskFromBelow(links, items, next, x, ignore, y);
    }
  }

  // ---------------------------------------------------------------------
  // parse_tree_path
  // ---------------------------------------------------------------------

  /** The `tree_path` `parse_tree_path(nowPath)` started at `x` leaves on `y` below it. */
  function TreePathFrom(links: map<Id, Link>, x: Id, nowPath: seq<Id>, y: Id): (r: seq<Id>)
    requires Upward(links) && y in links && x in PathTo(links, y)
    ensures |r| == |nowPath| + |PathTo(links, y)| - |PathTo(links, x)| + 1
  {
    PathPrefix(links, x, y);
    nowPath + PathTo(links, y)[|PathTo(links, x)| - 1..]
  }

  /** Started at a child with the father's path, the walk leaves what the father's walk would. */
  lemma TreePathFromChild(links: map<Id, Link>, next: nat, x: Id, c: Id, nowPath: seq<Id>, y: Id)
    requires Tree(links, next) && x in links && c in links && y in links
    requires links[c].father == Some(x) && c in PathTo(links, y)
    ensures x in PathTo(links, y)
    ensures TreePathFrom(links, c, nowPath + [x], y) == TreePathFrom(links, x, nowPath, y)
  {
    ChildLevel(links, next, x, c, y);
    ChildBelowParent(links, next, x, c, y);
    var p, n := PathTo(links, y), |PathTo(links, x)|;
    assert |PathTo(links, c)| - 1 == n;
    assert TreePathFrom(links, c, nowPath + [x], y) == (nowPath + [x]) + p[n..];
    assert TreePathFrom(links, x, nowPath, y) == nowPath + p[n - 1..];
    SplitAt(nowPath, x, p, n);
  }

  lemma SplitAt(nowPath: seq<Id>, x: Id, p: seq<Id>, n: nat)
    requires 1 <= n <= |p| && p[n - 1] == x
    ensures (nowPath + [x]) + p[n..] == nowPath + p[n - 1..]
  {
    assert p[n - 1..] == [x] + p[n..];
  }

  /** Started at the root with an empty path, every item is left with its path from the root. */
  lemma TreePathFromRoot(links: map<Id, Link>, y: Id)
    requires Upward(links) && y in links
    ensures 0 in PathTo(links, y) && TreePathFrom(links, 0, [], y) == PathTo(links, y)
  {
    assert PathTo(links, 0) == [0];
  }

  // ---------------------------------------------------------------------
  // get_all_files
  // ---------------------------------------------------------------------

  lemma FilesInAppend(items: map<Id, DocItem>, a: seq<Id>, b: seq<Id>)
    requires forall k :: 0 <= k < |a| ==> a[k] in items
    requires forall k :: 0 <= k < |b| ==> b[k] in items
    ensures FilesIn(items, a + b) == FilesIn(items, a) + FilesIn(items, b)
  {
    if |a| > 0 {
      assert (a + b)[1..] == a[1..] + b;
      FilesInAppend(items, a[1..], b);
    } else {
      assert a + b == b;
    }
  }

  /** The walk of `get_all_files` starts with `x` itself, then its children in order. */
  lemma WalkStart(links: map<Id, Link>, items: map<Id, DocItem>, next: nat, x: Id, files0: seq<Id>, files: seq<Id>)
    requires Walkable(links, next) && links.Keys == items.Keys && x in links
    requires files == files0 + FilesIn(items, [x])
    ensures files + FilesIn(items, TravelFrom(links, next, x, 0)) == files0 + FilesIn(items, TravelList(links, next, x))
  {
    var t := TravelFrom(links, next, x, 0);
    assert TravelList(links, next, x) == [x] + t;
    FilesInAppend(items, [x], t);
    Regroup(files0, FilesIn(items, [x]), FilesIn(items, t), files0 + FilesIn(items, [x] + t));
  }

  /** One child's walk of `get_all_files`: its files come next, then the later children's. */
  lemma WalkStep(links: map<Id, Link>, items: map<Id, DocItem>, next: nat, x: Id, k: nat, files: seq<Id>, total: seq<Id>)
    requires Walkable(links, next) && links.Keys == items.Keys && x in links && k < |links[x].children|
    requires files + FilesIn(items, TravelFrom(links, next, x, k)) == total
    ensures links[x].children[k].1 in links && links[x].children[k].1 > x
    ensures (files + FilesIn(items, TravelList(links, next, links[x].children[k].1)))
            + FilesIn(items, TravelFrom(links, next, x, k + 1)) == total
  {
    var c := links[x].children[k].1;
    FilesInAppend(items, TravelList(links, next, c), TravelFrom(links, next, x, k + 1));
    Regroup(files, FilesIn(items, TravelList(links, next, c)), FilesIn(items, TravelFrom(links, next, x, k + 1)), total);
  }
}
