// The recursive walks of `DocItem` (`check_depth`, `parse_tree_path`,
// `check_has_task`) as ghost functions that follow the source's recursion
// over a snapshot of the items: `x` itself, then its children in order. The
// `…Meaning` lemmas say what each walk does to every item, one field at a
// time: the items below the start get the field's new value, all others keep
// theirs, and the items with that field cleared stay the same.
module DocWalks {
  import opened Wrappers
  import opened DocTree
  import opened DocSubtree

  // ---------------------------------------------------------------------
  // One field changed
  // ---------------------------------------------------------------------

  /** The items with their `depth` fields cleared. */
  ghost function WithoutDepths(m: map<Id, DocItem>): (r: map<Id, DocItem>)
    ensures r.Keys == m.Keys
  {
    map y | y in m :: m[y].(depth := 0)
  }

  /** The items with their `tree_path` fields cleared. */
  ghost function WithoutTreePaths(m: map<Id, DocItem>): (r: map<Id, DocItem>)
    ensures r.Keys == m.Keys
  {
    map y | y in m :: m[y].(treePath := [])
  }

  /** The items with their `has_task` flags cleared. */
  ghost function WithoutHasTasks(m: map<Id, DocItem>): (r: map<Id, DocItem>)
    ensures r.Keys == m.Keys
  {
    map y | y in m :: m[y].(hasTask := false)
  }

  /** Setting one `depth` leaves the rest of the items as they were. */
  lemma WithoutDepthsSet(m: map<Id, DocItem>, x: Id, v: int)
    requires x in m
    ensures WithoutDepths(m[x := m[x].(depth := v)]) == WithoutDepths(m)
  {
    var a, b := WithoutDepths(m[x := m[x].(depth := v)]), WithoutDepths(m);
    assert forall y :: y in a ==> a[y] == b[y];
  }

  /** Setting one `tree_path` leaves the rest of the items as they were. */
  lemma WithoutTreePathsSet(m: map<Id, DocItem>, x: Id, v: seq<Id>)
    requires x in m
    ensures WithoutTreePaths(m[x := m[x].(treePath := v)]) == WithoutTreePaths(m)
  {
    var a, b := WithoutTreePaths(m[x := m[x].(treePath := v)]), WithoutTreePaths(m);
    assert forall y :: y in a ==> a[y] == b[y];
  }

  /** Setting one `has_task` flag leaves the rest of the items as they were. */
  lemma WithoutHasTasksSet(m: map<Id, DocItem>, x: Id, v: bool)
    requires x in m
    ensures WithoutHasTasks(m[x := m[x].(hasTask := v)]) == WithoutHasTasks(m)
  {
    var a, b := WithoutHasTasks(m[x := m[x].(hasTask := v)]), WithoutHasTasks(m);
    assert forall y :: y in a ==> a[y] == b[y];
  }

  /** Changing only flags keeps names, kinds and statuses. */
  lemma WithoutHasTasksNames(a: map<Id, DocItem>, b: map<Id, DocItem>, c: map<Id, DocItem>)
    requires WithoutHasTasks(a) == WithoutHasTasks(b) && SameNames(b, c)
    ensures SameNames(a, c)
  {
    forall y | y in a
      ensures a[y].itemType == c[y].itemType && a[y].itemStatus == c[y].itemStatus && a[y].objName == c[y].objName
    {
      assert WithoutHasTasks(a)[y] == WithoutHasTasks(b)[y];
    }
  }

  // ---------------------------------------------------------------------
  // check_depth
  // ---------------------------------------------------------------------

  /** The items after `check_depth` on `x`. */
  ghost function DepthsBelow(links: map<Id, Link>, next: nat, x: Id, m: map<Id, DocItem>): (r: map<Id, DocItem>)
    requires Walkable(links, next) && x in links && m.Keys == links.Keys
    ensures r.Keys == links.Keys
    decreases next - x, 1
  {
    var m' := DepthsFrom(links, next, x, |links[x].children|, m);
    m'[x := m'[x].(depth := Height(links, next, x))]
  }

  /** The items after `check_depth` on the first `k` children of `x`. */
  ghost function DepthsFrom(links: map<Id, Link>, next: nat, x: Id, k: nat, m: map<Id, DocItem>): (r: map<Id, DocItem>)
    requires Walkable(links, next) && x in links && m.Keys == links.Keys && k <= |links[x].children|
    ensures r.Keys == links.Keys
    decreases next - x, 0, k
  {
    if k == 0 then m
    else
      var c := links[x].children[k - 1].1;
      DepthsBelow(links, next, c, DepthsFrom(links, next, x, k - 1, m))
  }

  lemma DepthsFromUnfold(links: map<Id, Link>, next: nat, x: Id, j: nat, k: nat, m: map<Id, DocItem>)
    requires Walkable(links, next) && x in links && m.Keys == links.Keys && k == j + 1 && k <= |links[x].children|
    ensures links[x].children[j].1 in links && links[x].children[j].1 > x
    ensures DepthsFrom(links, next, x, k, m)
            == DepthsBelow(links, next, links[x].children[j].1, DepthsFrom(links, next, x, j, m))
  {
    var c := links[x].children[j].1;
    assert links[x].children[k - 1].1 == c;
    assert DepthsFrom(links, next, x, k - 1, m) == DepthsFrom(links, next, x, j, m);
    assert DepthsFrom(links, next, x, k, m) == DepthsBelow(links, next, c, DepthsFrom(links, next, x, k - 1, m));
  }

  /** After the walk of child `j` of `x`: the heights are set in the first `k = j + 1` subtrees. */
  lemma DepthStep(links: map<Id, Link>, next: nat, x: Id, j: nat, k: nat, o: map<Id, DocItem>, mid: map<Id, DocItem>, now: map<Id, DocItem>)
    requires Tree(links, next) && x in links && k == j + 1 && k <= |links[x].children|
    requires o.Keys == links.Keys && mid.Keys == links.Keys && now.Keys == links.Keys
    requires forall y {:trigger mid[y]} :: y in mid ==>
               mid[y].depth == if InFirst(links, x, j, y) then Height(links, next, y) else o[y].depth
    requires forall y {:trigger now[y]} :: y in now ==>
               now[y].depth == if links[x].children[j].1 in PathTo(links, y) then Height(links, next, y) else mid[y].depth
    ensures forall y {:trigger now[y]} :: y in now ==>
              now[y].depth == if InFirst(links, x, k, y) then Height(links, next, y) else o[y].depth
  {
    forall y | y in now
      ensures now[y].depth == if InFirst(links, x, k, y) then Height(links, next, y) else o[y].depth
    {
      InFirstStep(links, next, x, j, y);
      assert InFirst(links, x, k, y) == InFirst(links, x, j + 1, y);
      if links[x].children[j].1 in PathTo(links, y) {
        NotInFirst(links, next, x, j, y);
      }
    }
  }

  /** Once every child is walked and `x` gets its own height, every item below `x` has its height. */
  lemma DepthFinish(links: map<Id, Link>, next: nat, x: Id, o: map<Id, DocItem>, mid: map<Id, DocItem>, r: map<Id, DocItem>)
    requires Tree(links, next) && x in links
    requires o.Keys == links.Keys && mid.Keys == links.Keys
    requires forall y {:trigger mid[y]} :: y in mid ==>
               mid[y].depth == if InFirst(links, x, |links[x].children|, y) then Height(links, next, y) else o[y].depth
    requires r == mid[x := mid[x].(depth := Height(links, next, x))]
    ensures forall y {:trigger r[y]} :: y in r ==>
              r[y].depth == if x in PathTo(links, y) then Height(links, next, y) else o[y].depth
  {
    forall y | y in r
      ensures r[y].depth == if x in PathTo(links, y) then Height(links, next, y) else o[y].depth
    {
      DepthFinishAt(links, next, x, y, o[y].depth, mid[y].depth, r[y].depth);
    }
  }

  /** `DepthFinish` for one item `y`, on its three depths. */
  lemma DepthFinishAt(links: map<Id, Link>, next: nat, x: Id, y: Id, before: int, walked: int, after: int)
    requires Tree(links, next) && x in links && y in links
    requires InFirst(links, x, |links[x].children|, y) ==> walked == Height(links, next, y)
    requires !InFirst(links, x, |links[x].children|, y) ==> walked == before
    requires after == if y == x then Height(links, next, x) else walked
    ensures after == if x in PathTo(links, y) then Height(links, next, y) else before
  {
    if InFirst(links, x, |links[x].children|, y) {
      InFirstBelow(links, next, x, |links[x].children|, y);
    }
    if x in PathTo(links, y) && y != x {
      InFirstAll(links, next, x, y);
    }
  }

  /** `check_depth` on `x` sets the height of every item below `x`, `x` included, and changes nothing else. */
  lemma {:induction false} DepthsBelowMeaning(links: map<Id, Link>, next: nat, x: Id, m: map<Id, DocItem>)
    requires Tree(links, next) && x in links && m.Keys == links.Keys
    ensures WithoutDepths(DepthsBelow(links, next, x, m)) == WithoutDepths(m)
    ensures forall y {:trigger DepthsBelow(links, next, x, m)[y]} :: y in m ==>
              DepthsBelow(links, next, x, m)[y].depth == if x in PathTo(links, y) then Height(links, next, y) else m[y].depth
    decreases next - x, 1
  {
    var mid := DepthsFrom(links, next, x, |links[x].children|, m);
    DepthsFromMeaning(links, next, x, |links[x].children|, m);
    WithoutDepthsSet(mid, x, Height(links, next, x));
    DepthFinish(links, next, x, m, mid, DepthsBelow(links, next, x, m));
  }

  /** `check_depth` on the first `k` children of `x` sets the heights in their subtrees and changes nothing else. */
  lemma {:induction false} DepthsFromMeaning(links: map<Id, Link>, next: nat, x: Id, k: nat, m: map<Id, DocItem>)
    requires Tree(links, next) && x in links && m.Keys == links.Keys && k <= |links[x].children|
    ensures WithoutDepths(DepthsFrom(links, next, x, k, m)) == WithoutDepths(m)
    ensures forall y {:trigger DepthsFrom(links, next, x, k, m)[y]} :: y in m ==>
              DepthsFrom(links, next, x, k, m)[y].depth == if InFirst(links, x, k, y) then Height(links, next, y) else m[y].depth
    decreases next - x, 0, k
  {
    if k > 0 {
      var j := k - 1;
      DepthsFromMeaning(links, next, x, j, m);
      DepthsFromNext(links, next, x, j, k, m);
    }
  }

  /** From the first `j` children of `x` to the first `k = j + 1`: the walk of child `j` adds its subtree. */
  lemma {:induction false} DepthsFromNext(links: map<Id, Link>, next: nat, x: Id, j: nat, k: nat, m: map<Id, DocItem>)
    requires Tree(links, next) && x in links && m.Keys == links.Keys && k == j + 1 && k <= |links[x].children|
    requires WithoutDepths(DepthsFrom(links, next, x, j, m)) == WithoutDepths(m)
    requires forall y {:trigger DepthsFrom(links, next, x, j, m)[y]} :: y in m ==>
               DepthsFrom(links, next, x, j, m)[y].depth == if InFirst(links, x, j, y) then Height(links, next, y) else m[y].depth
    ensures WithoutDepths(DepthsFrom(links, next, x, k, m)) == WithoutDepths(m)
    ensures forall y {:trigger DepthsFrom(links, next, x, k, m)[y]} :: y in m ==>
              DepthsFrom(links, next, x, k, m)[y].depth == if InFirst(links, x, k, y) then Height(links, next, y) else m[y].depth
    decreases next - x, 0, j
  {
    var c := links[x].children[j].1;
    assert links[c].father == Some(x);
    var mid := DepthsFrom(links, next, x, j, m);
    DepthsBelowMeaning(links, next, c, mid);
    DepthsFromUnfold(links, next, x, j, k, m);
    DepthStep(links, next, x, j, k, m, mid, DepthsBelow(links, next, c, mid));
  }

  // ---------------------------------------------------------------------
  // parse_tree_path
  // ---------------------------------------------------------------------

  /** The father `x` of `c` is not below `c`, so `c`'s walk leaves it alone. */
  lemma FatherNotBelow(links: map<Id, Link>, c: Id)
    requires Upward(links) && c in links && links[c].father.Some?
    ensures c !in PathTo(links, links[c].father.value)
  {
    var x := links[c].father.value;
    assert forall i :: 0 <= i < |PathTo(links, x)| ==> PathTo(links, x)[i] <= x;
  }

  /** The items after `parse_tree_path(nowPath)` on `x`. */
  ghost function TreePathsBelow(links: map<Id, Link>, next: nat, x: Id, nowPath: seq<Id>, m: map<Id, DocItem>): (r: map<Id, DocItem>)
    requires Walkable(links, next) && x in links && m.Keys == links.Keys
    ensures r.Keys == links.Keys
    decreases next - x, 1
  {
    TreePathsFrom(links, next, x, |links[x].children|, nowPath + [x], m[x := m[x].(treePath := nowPath + [x])])
  }

  /** The items after the first `k` children of `x` are given the path `p` of `x`. */
  ghost function TreePathsFrom(links: map<Id, Link>, next: nat, x: Id, k: nat, p: seq<Id>, m: map<Id, DocItem>): (r: map<Id, DocItem>)
    requires Walkable(links, next) && x in links && m.Keys == links.Keys && k <= |links[x].children|
    ensures r.Keys == links.Keys
    decreases next - x, 0, k
  {
    if k == 0 then m
    else
      var c := links[x].children[k - 1].1;
      TreePathsBelow(links, next, c, p, TreePathsFrom(links, next, x, k - 1, p, m))
  }

  lemma TreePathsFromUnfold(links: map<Id, Link>, next: nat, x: Id, j: nat, k: nat, p: seq<Id>, m: map<Id, DocItem>)
    requires Tree(links, next) && x in links && m.Keys == links.Keys && k == j + 1 && k <= |links[x].children|
    ensures links[x].children[j].1 in links && links[x].children[j].1 > x
    ensures TreePathsFrom(links, next, x, k, p, m)
            == TreePathsBelow(links, next, links[x].children[j].1, p, TreePathsFrom(links, next, x, j, p, m))
  {
    var c := links[x].children[j].1;
    assert links[c].father == Some(x);
    assert links[x].children[k - 1].1 == c;
    assert TreePathsFrom(links, next, x, k - 1, p, m) == TreePathsFrom(links, next, x, j, p, m);
  }

  /** After the walk of child `j` of `x`: the paths are set in the first `k = j + 1` subtrees, and `x` is left alone. */
  lemma TreePathStep(links: map<Id, Link>, next: nat, x: Id, nowPath: seq<Id>, j: nat, k: nat,
                     o: map<Id, DocItem>, mid: map<Id, DocItem>, now: map<Id, DocItem>)
    requires Tree(links, next) && x in links && k == j + 1 && k <= |links[x].children|
    requires o.Keys == links.Keys && mid.Keys == links.Keys && now.Keys == links.Keys
    requires forall y {:trigger mid[y]} :: y in mid && y != x ==>
               mid[y].treePath == if x in PathTo(links, y) && InFirst(links, x, j, y)
                                  then TreePathFrom(links, x, nowPath, y) else o[y].treePath
    requires forall y {:trigger now[y]} :: y in now ==>
               now[y].treePath == if links[x].children[j].1 in PathTo(links, y)
                                  then TreePathFrom(links, links[x].children[j].1, nowPath + [x], y) else mid[y].treePath
    ensures now[x].treePath == mid[x].treePath
    ensures forall y {:trigger now[y]} :: y in now && y != x ==>
              now[y].treePath == if x in PathTo(links, y) && InFirst(links, x, k, y)
                                 then TreePathFrom(links, x, nowPath, y) else o[y].treePath
  {
    var c := links[x].children[j].1;
    assert links[c].father == Some(x);
    FatherNotBelow(links, c);
    forall y | y in now && y != x
      ensures now[y].treePath == if x in PathTo(links, y) && InFirst(links, x, k, y)
                                 then TreePathFrom(links, x, nowPath, y) else o[y].treePath
    {
      InFirstStep(links, next, x, j, y);
      if c in PathTo(links, y) {
        NotInFirst(links, next, x, j, y);
        TreePathFromChild(links, next, x, c, nowPath, y);
      }
    }
  }

  /** Once every child is walked, every item below `x`, `x` included, has its path. */
  lemma TreePathFinish(links: map<Id, Link>, next: nat, x: Id, nowPath: seq<Id>, o: map<Id, DocItem>, mid: map<Id, DocItem>)
    requires Tree(links, next) && x in links
    requires o.Keys == links.Keys && mid.Keys == links.Keys
    requires mid[x].treePath == nowPath + [x]
    requires forall y {:trigger mid[y]} :: y in mid && y != x ==>
               mid[y].treePath == if x in PathTo(links, y) && InFirst(links, x, |links[x].children|, y)
                                  then TreePathFrom(links, x, nowPath, y) else o[y].treePath
    ensures forall y {:trigger mid[y]} :: y in mid ==>
              mid[y].treePath == if x in PathTo(links, y) then TreePathFrom(links, x, nowPath, y) else o[y].treePath
  {
    forall y | y in mid
      ensures mid[y].treePath == if x in PathTo(links, y) then TreePathFrom(links, x, nowPath, y) else o[y].treePath
    {
      if x in PathTo(links, y) && y != x {
        InFirstAll(links, next, x, y);
      }
      if y == x {
        var p := PathTo(links, x);
        assert p[|p| - 1..] == [x];
      }
    }
  }

  /** The walk started at `c` touches only items with larger ids. */
  lemma {:induction false} TreePathsBelowAbove(links: map<Id, Link>, next: nat, c: Id, p: seq<Id>, m: map<Id, DocItem>, y: Id)
    requires Walkable(links, next) && c in links && m.Keys == links.Keys && y in links && y < c
    ensures TreePathsBelow(links, next, c, p, m)[y] == m[y]
    decreases next - c, 1
  {
    TreePathsFromAbove(links, next, c, |links[c].children|, p + [c], m[c := m[c].(treePath := p + [c])], y);
  }

  /** The walks of the first `k` children of `x` leave `x` and everything before it as they were. */
  lemma {:induction false} TreePathsFromAbove(links: map<Id, Link>, next: nat, x: Id, k: nat, p: seq<Id>, m: map<Id, DocItem>, y: Id)
    requires Walkable(links, next) && x in links && m.Keys == links.Keys && k <= |links[x].children| && y in links && y <= x
    ensures TreePathsFrom(links, next, x, k, p, m)[y] == m[y]
    decreases next - x, 0, k
  {
    if k > 0 {
      var c := links[x].children[k - 1].1;
      TreePathsFromAbove(links, next, x, k - 1, p, m, y);
      TreePathsBelowAbove(links, next, c, p, TreePathsFrom(links, next, x, k - 1, p, m), y);
    }
  }

  /** The walk of `x` changes nothing but paths. */
  lemma {:induction false} TreePathsBelowKeeps(links: map<Id, Link>, next: nat, x: Id, nowPath: seq<Id>, m: map<Id, DocItem>)
    requires Tree(links, next) && x in links && m.Keys == links.Keys
    ensures WithoutTreePaths(TreePathsBelow(links, next, x, nowPath, m)) == WithoutTreePaths(m)
    decreases next - x, 1
  {
    WithoutTreePathsSet(m, x, nowPath + [x]);
    TreePathsFromKeeps(links, next, x, |links[x].children|, nowPath + [x], m[x := m[x].(treePath := nowPath + [x])]);
  }

  /** The walks of the first `k` children of `x` change nothing but paths. */
  lemma {:induction false} TreePathsFromKeeps(links: map<Id, Link>, next: nat, x: Id, k: nat, p: seq<Id>, m: map<Id, DocItem>)
    requires Tree(links, next) && x in links && m.Keys == links.Keys && k <= |links[x].children|
    ensures WithoutTreePaths(TreePathsFrom(links, next, x, k, p, m)) == WithoutTreePaths(m)
    decreases next - x, 0, k
  {
    if k > 0 {
      var j := k - 1;
      TreePathsFromKeeps(links, next, x, j, p, m);
      TreePathsFromUnfold(links, next, x, j, k, p, m);
      TreePathsBelowKeeps(links, next, links[x].children[j].1, p, TreePathsFrom(links, next, x, j, p, m));
    }
  }

  /**
   * `parse_tree_path(nowPath)` on `x` gives every item below `x`, `x`
   * included, the path `nowPath` followed by its path from `x`, and changes
   * nothing else.
   */
  lemma {:induction false} TreePathsBelowMeaning(links: map<Id, Link>, next: nat, x: Id, nowPath: seq<Id>, m: map<Id, DocItem>)
    requires Tree(links, next) && x in links && m.Keys == links.Keys
    ensures WithoutTreePaths(TreePathsBelow(links, next, x, nowPath, m)) == WithoutTreePaths(m)
    ensures forall y {:trigger TreePathsBelow(links, next, x, nowPath, m)[y]} :: y in m ==>
              TreePathsBelow(links, next, x, nowPath, m)[y].treePath
              == if x in PathTo(links, y) then TreePathFrom(links, x, nowPath, y) else m[y].treePath
    decreases next - x, 1
  {
    var m1 := m[x := m[x].(treePath := nowPath + [x])];
    WithoutTreePathsSet(m, x, nowPath + [x]);
    var mid := TreePathsFrom(links, next, x, |links[x].children|, nowPath + [x], m1);
    TreePathsFromMeaning(links, next, x, nowPath, |links[x].children|, m1);
    TreePathFinish(links, next, x, nowPath, m, mid);
  }

  /** The walks of the first `k` children of `x` leave `x` alone and set the paths in their subtrees. */
  lemma {:induction false} TreePathsFromMeaning(links: map<Id, Link>, next: nat, x: Id, nowPath: seq<Id>, k: nat, m: map<Id, DocItem>)
    requires Tree(links, next) && x in links && m.Keys == links.Keys && k <= |links[x].children|
    ensures WithoutTreePaths(TreePathsFrom(links, next, x, k, nowPath + [x], m)) == WithoutTreePaths(m)
    ensures TreePathsFrom(links, next, x, k, nowPath + [x], m)[x].treePath == m[x].treePath
    ensures forall y {:trigger TreePathsFrom(links, next, x, k, nowPath + [x], m)[y]} :: y in m && y != x ==>
              TreePathsFrom(links, next, x, k, nowPath + [x], m)[y].treePath
              == if x in PathTo(links, y) && InFirst(links, x, k, y) then TreePathFrom(links, x, nowPath, y) else m[y].treePath
    decreases next - x, 0, k
  {
    if k > 0 {
      var j := k - 1;
      var c := links[x].children[j].1;
      var mid := TreePathsFrom(links, next, x, j, nowPath + [x], m);
      TreePathsFromUnfold(links, next, x, j, k, nowPath + [x], m);
      TreePathsFromKeeps(links, next, x, k, nowPath + [x], m);
      TreePathsFromMeaning(links, next, x, nowPath, j, m);
      TreePathsBelowAbove(links, next, c, nowPath + [x], mid, x);
      TreePathsBelowMeaning(links, next, c, nowPath + [x], mid);
      TreePathStep(links, next, x, nowPath, j, k, m, mid, TreePathsFrom(links, next, x, k, nowPath + [x], m));
    }
  }

  // ---------------------------------------------------------------------
  // check_has_task
  // ---------------------------------------------------------------------

  /** The items once `check_has_task` has set the flag of `x` if `x` needs generation. */
  ghost function Marked(links: map<Id, Link>, x: Id, ignore: seq<string>, m: map<Id, DocItem>): (r: map<Id, DocItem>)
    requires Upward(links) && x in links && m.Keys == links.Keys
    ensures r.Keys == links.Keys
  {
    if NeedToGenerate(links, m, x, ignore) then m[x := m[x].(hasTask := true)] else m
  }

  /** The items after `check_has_task(x, ignore)`. */
  ghost function HasTasksBelow(links: map<Id, Link>, next: nat, x: Id, ignore: seq<string>, m: map<Id, DocItem>): (r: map<Id, DocItem>)
    requires Upward(links) && Walkable(links, next) && x in links && m.Keys == links.Keys
    ensures r.Keys == links.Keys
    decreases next - x, 1
  {
    HasTasksFrom(links, next, x, ignore, |links[x].children|, Marked(links, x, ignore, m))
  }

  /** The items after the loop of `check_has_task` on `x` has seen its first `k` children. */
  ghost function HasTasksFrom(links: map<Id, Link>, next: nat, x: Id, ignore: seq<string>, k: nat, m: map<Id, DocItem>): (r: map<Id, DocItem>)
    requires Upward(links) && Walkable(links, next) && x in links && m.Keys == links.Keys && k <= |links[x].children|
    ensures r.Keys == links.Keys
    decreases next - x, 0, k
  {
    if k == 0 then m
    else
      var c := links[x].children[k - 1].1;
      var mk := HasTasksBelow(links, next, c, ignore, HasTasksFrom(links, next, x, ignore, k - 1, m));
      mk[x := mk[x].(hasTask := mk[c].hasTask || mk[x].hasTask)]
  }

  /**
   * `HasTasksFrom` on a shape known to be well formed: the invariant of the
   * loop of `check_has_task`, stated without the shape's preconditions.
   */
  ghost function ChildrenChecked(s: Shape, x: Id, ignore: seq<string>, k: nat, m: map<Id, DocItem>): map<Id, DocItem>
    requires x in s.links && m.Keys == s.links.Keys && k <= |s.links[x].children|
  {
    HasTasksFrom(s.links, s.next, x, ignore, k, m)
  }

  /** One more step of the loop of `check_has_task` on `x`: walk child `j`, then or its flag into that of `x`. */
  lemma HasTasksFromNext(links: map<Id, Link>, next: nat, x: Id, ignore: seq<string>, j: nat, m: map<Id, DocItem>)
    requires Upward(links) && Walkable(links, next) && x in links && m.Keys == links.Keys && j < |links[x].children|
    ensures links[x].children[j].1 in links && links[x].children[j].1 > x
    ensures var mk := HasTasksBelow(links, next, links[x].children[j].1, ignore, HasTasksFrom(links, next, x, ignore, j, m));
            HasTasksFrom(links, next, x, ignore, j + 1, m)
            == mk[x := mk[x].(hasTask := mk[links[x].children[j].1].hasTask || mk[x].hasTask)]
  {
    assert j + 1 - 1 == j;
  }

  /** `check_has_task` changes no field of any item but `has_task`. */
  lemma {:induction false} HasTasksBelowFrame(links: map<Id, Link>, next: nat, x: Id, ignore: seq<string>, m: map<Id, DocItem>)
    requires Upward(links) && Walkable(links, next) && x in links && m.Keys == links.Keys
    ensures WithoutHasTasks(HasTasksBelow(links, next, x, ignore, m)) == WithoutHasTasks(m)
    decreases next - x, 1, 0, 0
  {
    if NeedToGenerate(links, m, x, ignore) {
      WithoutHasTasksSet(m, x, true);
    }
    HasTasksFromFrame(links, next, x, ignore, |links[x].children|, Marked(links, x, ignore, m));
  }

  /** The loop of `check_has_task` on `x` changes no field of any item but `has_task`. */
  lemma {:induction false} HasTasksFromFrame(links: map<Id, Link>, next: nat, x: Id, ignore: seq<string>, k: nat, m: map<Id, DocItem>)
    requires Upward(links) && Walkable(links, next) && x in links && m.Keys == links.Keys && k <= |links[x].children|
    ensures WithoutHasTasks(HasTasksFrom(links, next, x, ignore, k, m)) == WithoutHasTasks(m)
    decreases next - x, 0, k, 1
  {
    if k > 0 {
      var j := k - 1;
      HasTasksFromFrame(links, next, x, ignore, j, m);
      HasTasksFrameStep(links, next, x, ignore, j, m);
    }
  }

  /** One more child seen by the loop of `check_has_task` keeps the frame. */
  lemma {:induction false} HasTasksFrameStep(links: map<Id, Link>, next: nat, x: Id, ignore: seq<string>, j: nat, m: map<Id, DocItem>)
    requires Upward(links) && Walkable(links, next) && x in links && m.Keys == links.Keys && j < |links[x].children|
    requires WithoutHasTasks(HasTasksFrom(links, next, x, ignore, j, m)) == WithoutHasTasks(m)
    ensures WithoutHasTasks(HasTasksFrom(links, next, x, ignore, j + 1, m)) == WithoutHasTasks(m)
    decreases next - x, 0, j + 1, 0
  {
    var c := links[x].children[j].1;
    var mid := HasTasksFrom(links, next, x, ignore, j, m);
    HasTasksBelowFrame(links, next, c, ignore, mid);
    var now := HasTasksBelow(links, next, c, ignore, mid);
    WithoutHasTasksSet(now, x, now[c].hasTask || now[x].hasTask);
  }

  /** Before the walk of child `k`: its subtree still carries the flags of `orig`. */
  lemma HasTaskBefore(links: map<Id, Link>, next: nat, x: Id, ignore: seq<string>, k: nat,
                      o: map<Id, DocItem>, orig: map<Id, DocItem>, mid: map<Id, DocItem>)
    requires Tree(links, next) && x in links && k < |links[x].children|
    requires o.Keys == links.Keys && mid.Keys == links.Keys && orig.Keys == links.Keys
    requires forall y {:trigger o[y]} :: y in links && x in PathTo(links, y) && y != x ==> o[y].hasTask == orig[y].hasTask
    requires forall y {:trigger mid[y]} :: y in mid && y != x ==>
               mid[y].hasTask == if InFirst(links, x, k, y) then HasTaskAfter(links, orig, next, y, ignore) else o[y].hasTask
    ensures forall y {:trigger mid[y]} :: y in links && links[x].children[k].1 in PathTo(links, y) ==>
              mid[y].hasTask == orig[y].hasTask
  {
    var c := links[x].children[k].1;
    assert links[c].father == Some(x);
    forall y | y in links && c in PathTo(links, y) ensures mid[y].hasTask == orig[y].hasTask {
      NotInFirst(links, next, x, k, y);
      ChildBelowParent(links, next, x, c, y);
    }
  }

  /**
   * After the walk of child `k` of `x` and the update of `x`'s flag from it:
   * the flags are set in the first `k + 1` subtrees, and `x` has seen them.
   */
  lemma HasTaskStep(links: map<Id, Link>, next: nat, x: Id, ignore: seq<string>, k: nat,
                    o: map<Id, DocItem>, orig: map<Id, DocItem>, mid: map<Id, DocItem>, now: map<Id, DocItem>,
                    r: map<Id, DocItem>)
    requires Tree(links, next) && x in links && k < |links[x].children|
    requires o.Keys == links.Keys && mid.Keys == links.Keys && now.Keys == links.Keys && orig.Keys == links.Keys
    requires mid[x].hasTask == (o[x].hasTask || AnyChildHasTask(links, orig, next, x, ignore, k))
    requires forall y {:trigger mid[y]} :: y in mid && y != x ==>
               mid[y].hasTask == if InFirst(links, x, k, y) then HasTaskAfter(links, orig, next, y, ignore) else o[y].hasTask
    requires forall y {:trigger now[y]} :: y in now ==>
               now[y].hasTask == if links[x].children[k].1 in PathTo(links, y)
                                 then HasTaskAfter(links, orig, next, y, ignore) else mid[y].hasTask
    requires r == now[x := now[x].(hasTask := now[links[x].children[k].1].hasTask || now[x].hasTask)]
    ensures r[x].hasTask == (o[x].hasTask || AnyChildHasTask(links, orig, next, x, ignore, k + 1))
    ensures forall y {:trigger r[y]} :: y in r && y != x ==>
              r[y].hasTask == if InFirst(links, x, k + 1, y) then HasTaskAfter(links, orig, next, y, ignore) else o[y].hasTask
  {
    assert links[links[x].children[k].1].father == Some(x);
    HasTaskStepSelf(links, next, x, ignore, k, o, orig, mid, now);
    HasTaskStepOthers(links, next, x, ignore, k, o, orig, mid, now);
  }

  /** The flag of `x` after the walk of child `k` of `x` and the update from it. */
  lemma HasTaskStepSelf(links: map<Id, Link>, next: nat, x: Id, ignore: seq<string>, k: nat,
                        o: map<Id, DocItem>, orig: map<Id, DocItem>, mid: map<Id, DocItem>, now: map<Id, DocItem>)
    requires Upward(links) && Walkable(links, next) && x in links && k < |links[x].children|
    requires links[links[x].children[k].1].father == Some(x)
    requires o.Keys == links.Keys && mid.Keys == links.Keys && now.Keys == links.Keys && orig.Keys == links.Keys
    requires mid[x].hasTask == (o[x].hasTask || AnyChildHasTask(links, orig, next, x, ignore, k))
    requires forall y {:trigger now[y]} :: y in now ==>
               now[y].hasTask == if links[x].children[k].1 in PathTo(links, y)
                                 then HasTaskAfter(links, orig, next, y, ignore) else mid[y].hasTask
    ensures (now[links[x].children[k].1].hasTask || now[x].hasTask)
            == (o[x].hasTask || AnyChildHasTask(links, orig, next, x, ignore, k + 1))
  {
    var c := links[x].children[k].1;
    assert c in PathTo(links, c);
    FatherNotBelow(links, c);
    AnyChildNext(links, orig, next, x, ignore, k);
  }

  /** The items other than `x` after the walk of child `k` of `x`. */
  lemma HasTaskStepOthers(links: map<Id, Link>, next: nat, x: Id, ignore: seq<string>, k: nat,
                          o: map<Id, DocItem>, orig: map<Id, DocItem>, mid: map<Id, DocItem>, now: map<Id, DocItem>)
    requires Tree(links, next) && x in links && k < |links[x].children|
    requires o.Keys == links.Keys && mid.Keys == links.Keys && now.Keys == links.Keys && orig.Keys == links.Keys
    requires forall y {:trigger mid[y]} :: y in mid && y != x ==>
               mid[y].hasTask == if InFirst(links, x, k, y) then HasTaskAfter(links, orig, next, y, ignore) else o[y].hasTask
    requires forall y {:trigger now[y]} :: y in now ==>
               now[y].hasTask == if links[x].children[k].1 in PathTo(links, y)
                                 then HasTaskAfter(links, orig, next, y, ignore) else mid[y].hasTask
    ensures forall y {:trigger now[y]} :: y in now && y != x ==>
              now[y].hasTask == if InFirst(links, x, k + 1, y) then HasTaskAfter(links, orig, next, y, ignore) else o[y].hasTask
  {
    var c := links[x].children[k].1;
    forall y | y in now && y != x
      ensures now[y].hasTask == if InFirst(links, x, k + 1, y) then HasTaskAfter(links, orig, next, y, ignore) else o[y].hasTask
    {
      InFirstStep(links, next, x, k, y);
      if c in PathTo(links, y) {
        NotInFirst(links, next, x, k, y);
      }
    }
  }

  /** Once every child is walked, every item below `x`, `x` included, has the flag `HasTaskAfter` gives on `orig`. */
  lemma HasTaskFinish(links: map<Id, Link>, next: nat, x: Id, ignore: seq<string>,
                      o: map<Id, DocItem>, orig: map<Id, DocItem>, mid: map<Id, DocItem>)
    requires Tree(links, next) && x in links
    requires o.Keys == links.Keys && mid.Keys == links.Keys && orig.Keys == links.Keys
    requires mid[x].hasTask == HasTaskAfter(links, orig, next, x, ignore)
    requires forall y {:trigger mid[y]} :: y in mid && y != x ==>
               mid[y].hasTask == if InFirst(links, x, |links[x].children|, y)
                                 then HasTaskAfter(links, orig, next, y, ignore) else o[y].hasTask
    ensures forall y {:trigger mid[y]} :: y in mid ==>
              mid[y].hasTask == if x in PathTo(links, y) then HasTaskAfter(links, orig, next, y, ignore) else o[y].hasTask
  {
    forall y | y in mid
      ensures mid[y].hasTask == if x in PathTo(links, y) then HasTaskAfter(links, orig, next, y, ignore) else o[y].hasTask
    {
      if InFirst(links, x, |links[x].children|, y) {
        InFirstBelow(links, next, x, |links[x].children|, y);
      }
      if x in PathTo(links, y) && y != x {
        InFirstAll(links, next, x, y);
      }
    }
  }

  /** Marking `x` sets its flag exactly when it needs generation and touches no other item. */
  lemma MarkedFlags(links: map<Id, Link>, x: Id, ignore: seq<string>, m: map<Id, DocItem>)
    requires Upward(links) && x in links && m.Keys == links.Keys
    ensures Marked(links, x, ignore, m)[x].hasTask == (m[x].hasTask || NeedToGenerate(links, m, x, ignore))
    ensures forall y {:trigger Marked(links, x, ignore, m)[y]} :: y in m && y != x ==> Marked(links, x, ignore, m)[y] == m[y]
  {
  }

  /** Marking `x` keeps names, kinds and statuses, and whether `x` needs generation. */
  lemma HasTaskMark(links: map<Id, Link>, x: Id, ignore: seq<string>, m: map<Id, DocItem>, orig: map<Id, DocItem>)
    requires Upward(links) && x in links && m.Keys == links.Keys && SameNames(m, orig)
    ensures NeedToGenerate(links, m, x, ignore) == NeedToGenerate(links, orig, x, ignore)
    ensures SameNames(Marked(links, x, ignore, m), orig)
  {
    NeedToGenerateFrame(links, m, orig, x, ignore);
    if NeedToGenerate(links, m, x, ignore) {
      WithoutHasTasksSet(m, x, true);
      WithoutHasTasksNames(m[x := m[x].(hasTask := true)], m, orig);
    }
  }

  /**
   * The loop of `check_has_task` on `x`, started from `m1` (`m` with the flag
   * of `x` set if it needs generation), leaves on every item below `x` the
   * flag `HasTaskAfter` gives on `orig`, and the others as in `m`.
   */
  lemma {:induction false} HasTaskAtStart(links: map<Id, Link>, next: nat, x: Id, ignore: seq<string>,
                                          m: map<Id, DocItem>, m1: map<Id, DocItem>, orig: map<Id, DocItem>)
    requires Tree(links, next) && x in links && m.Keys == links.Keys && m1.Keys == links.Keys && SameNames(m1, orig)
    requires forall y {:trigger m[y]} :: y in links && x in PathTo(links, y) ==> m[y].hasTask == orig[y].hasTask
    requires NeedToGenerate(links, m, x, ignore) == NeedToGenerate(links, orig, x, ignore)
    requires m1[x].hasTask == (m[x].hasTask || NeedToGenerate(links, m, x, ignore))
    requires forall y {:trigger m1[y]} :: y in m1 && y != x ==> m1[y].hasTask == m[y].hasTask
    ensures forall y {:trigger HasTasksFrom(links, next, x, ignore, |links[x].children|, m1)[y]} :: y in m ==>
              HasTasksFrom(links, next, x, ignore, |links[x].children|, m1)[y].hasTask
              == if x in PathTo(links, y) then HasTaskAfter(links, orig, next, y, ignore) else m[y].hasTask
    decreases next - x, 1, 0
  {
    HasTasksFromMeaning(links, next, x, ignore, |links[x].children|, m1, orig);
    var mid := HasTasksFrom(links, next, x, ignore, |links[x].children|, m1);
    assert mid[x].hasTask == HasTaskAfter(links, orig, next, x, ignore);
    HasTaskFinish(links, next, x, ignore, m, orig, mid);
  }

  /**
   * `check_has_task(x, ignore)` sets on every item below `x`, `x` included,
   * the flag `HasTaskAfter` computes on `orig` (a version with the same names,
   * kinds and statuses and the same flags below `x`), and leaves the flags outside that subtree alone.
   */
  lemma {:induction false} HasTasksBelowMeaning(links: map<Id, Link>, next: nat, x: Id, ignore: seq<string>,
                                                m: map<Id, DocItem>, orig: map<Id, DocItem>)
    requires Tree(links, next) && x in links && m.Keys == links.Keys && SameNames(m, orig)
    requires forall y {:trigger m[y]} :: y in links && x in PathTo(links, y) ==> m[y].hasTask == orig[y].hasTask
    ensures forall y {:trigger HasTasksBelow(links, next, x, ignore, m)[y]} :: y in m ==>
              HasTasksBelow(links, next, x, ignore, m)[y].hasTask
              == if x in PathTo(links, y) then HasTaskAfter(links, orig, next, y, ignore) else m[y].hasTask
    decreases next - x, 2, 0
  {
    assert x in PathTo(links, x);
    HasTaskMark(links, x, ignore, m, orig);
    MarkedFlags(links, x, ignore, m);
    var m1 := Marked(links, x, ignore, m);
    HasTaskAtStart(links, next, x, ignore, m, m1, orig);
    HasTasksBelowUnfold(links, next, x, ignore, m);
  }

  /** `check_has_task` on `x`: mark `x`, then run the loop over all its children. */
  lemma HasTasksBelowUnfold(links: map<Id, Link>, next: nat, x: Id, ignore: seq<string>, m: map<Id, DocItem>)
    requires Upward(links) && Walkable(links, next) && x in links && m.Keys == links.Keys
    ensures HasTasksBelow(links, next, x, ignore, m)
            == HasTasksFrom(links, next, x, ignore, |links[x].children|, Marked(links, x, ignore, m))
  {
  }

  /** The loop of `check_has_task` on `x`, after its first `k` children. */
  lemma {:induction false} HasTasksFromMeaning(links: map<Id, Link>, next: nat, x: Id, ignore: seq<string>, k: nat,
                                               m: map<Id, DocItem>, orig: map<Id, DocItem>)
    requires Tree(links, next) && x in links && m.Keys == links.Keys && k <= |links[x].children| && SameNames(m, orig)
    requires forall y {:trigger m[y]} :: y in links && x in PathTo(links, y) && y != x ==> m[y].hasTask == orig[y].hasTask
    ensures HasTasksFrom(links, next, x, ignore, k, m)[x].hasTask
            == (m[x].hasTask || AnyChildHasTask(links, orig, next, x, ignore, k))
    ensures forall y {:trigger HasTasksFrom(links, next, x, ignore, k, m)[y]} :: y in m && y != x ==>
              HasTasksFrom(links, next, x, ignore, k, m)[y].hasTask
              == if InFirst(links, x, k, y) then HasTaskAfter(links, orig, next, y, ignore) else m[y].hasTask
    decreases next - x, 0, k
  {
    if k > 0 {
      var j := k - 1;
      assert j + 1 == k;
      var c := links[x].children[j].1;
      assert links[c].father == Some(x);
      var mid := HasTasksFrom(links, next, x, ignore, j, m);
      HasTasksFromMeaning(links, next, x, ignore, j, m, orig);
      HasTasksFromFrame(links, next, x, ignore, j, m);
      WithoutHasTasksNames(mid, m, orig);
      HasTaskBefore(links, next, x, ignore, j, m, orig, mid);
      HasTasksBelowMeaning(links, next, c, ignore, mid, orig);
      var now := HasTasksBelow(links, next, c, ignore, mid);
      HasTasksFromNext(links, next, x, ignore, j, m);
      HasTaskStep(links, next, x, ignore, j, m, orig, mid, now, HasTasksFrom(links, next, x, ignore, k, m));
    }
  }
}
