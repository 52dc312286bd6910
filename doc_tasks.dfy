// `MetaInfo.get_task_manager`: the items below a node that are to be
// documented become tasks one at a time. Each round takes the first item
// whose available children and referenced items are all dealt with, or else
// the first with the fewest pending plain (not special) references; its task
// waits for the tasks of its children and of the items it references.
module DocTasks {
  import opened Wrappers
  import opened PyStrings
  import opened SeqUtil
  import opened DocTree
  import opened DocSubtree
  import opened MultiTaskDispatch
  import opened DocReferences

  // ---------------------------------------------------------------------
  // The travel list has no repeats
  // ---------------------------------------------------------------------

  /** Everything the walk from child `k` on reaches lies below one of those children. */
  lemma {:induction false} TravelFromUnder(links: map<Id, Link>, next: nat, x: Id, k: nat, y: Id) returns (j: nat)
    requires Tree(links, next) && x in links && k <= |links[x].children| && y in TravelFrom(links, next, x, k)
    ensures k <= j < |links[x].children| && y in links && links[x].children[j].1 in PathTo(links, y)
    decreases |links[x].children| - k
  {
    var c := links[x].children[k].1;
    if y in TravelList(links, next, c) {
      TravelListBelow(links, next, c, y);
      j := k;
    } else {
      j := TravelFromUnder(links, next, x, k + 1, y);
    }
  }

  /** `get_travel_list` lists each item once. */
  lemma {:induction false} TravelListNoDup(links: map<Id, Link>, next: nat, x: Id)
    requires Tree(links, next) && x in links
    ensures NoDup(TravelList(links, next, x))
    decreases next - x, 1
  {
    TravelFromNoDup(links, next, x, 0);
    var t := TravelFrom(links, next, x, 0);
    forall i | 0 <= i < |t| ensures t[i] != x {
      var j := TravelFromUnder(links, next, x, 0, t[i]);
      assert links[x].children[j].1 > x;
    }
    NoDupConcat([x], t);
  }

  lemma {:induction false} TravelFromNoDup(links: map<Id, Link>, next: nat, x: Id, k: nat)
    requires Tree(links, next) && x in links && k <= |links[x].children|
    ensures NoDup(TravelFrom(links, next, x, k))
    decreases next - x, 0, |links[x].children| - k
  {
    var cs := links[x].children;
    if k < |cs| {
      var c := cs[k].1;
      TravelListNoDup(links, next, c);
      TravelFromNoDup(links, next, x, k + 1);
      var a, b := TravelList(links, next, c), TravelFrom(links, next, x, k + 1);
      forall i | 0 <= i < |b| ensures b[i] !in a {
        var j := TravelFromUnder(links, next, x, k + 1, b[i]);
        SiblingsApart(links, next, x, j, k, b[i]);
        if b[i] in a {
          TravelListBelow(links, next, c, b[i]);
        }
      }
      NoDupConcat(a, b);
    }
  }

  // ---------------------------------------------------------------------
  // The candidates
  // ---------------------------------------------------------------------

  /** `in_white_list`: some entry names the item's file and its object name. */
  predicate InWhiteList(links: map<Id, Link>, items: map<Id, DocItem>, x: Id, w: seq<WhiteEntry>)
    requires Upward(links) && links.Keys <= items.Keys && x in links
  {
    exists k :: 0 <= k < |w| && FileName(FullName(links, items, x)) == w[k].filePath && items[x].objName == w[k].idText
  }

  /** `filter(in_white_list, doc_items)`. */
  function WhiteFiltered(links: map<Id, Link>, items: map<Id, DocItem>, xs: seq<Id>, w: seq<WhiteEntry>): (r: seq<Id>)
    requires Upward(links) && links.Keys <= items.Keys && forall k :: 0 <= k < |xs| ==> xs[k] in links
    ensures forall y :: y in r <==> y in xs && InWhiteList(links, items, y, w)
    ensures NoDup(xs) ==> NoDup(r)
    decreases |xs|
  {
    if |xs| == 0 then []
    else
      var x := xs[|xs| - 1];
      var init := WhiteFiltered(links, items, xs[..|xs| - 1], w);
      assert xs == xs[..|xs| - 1] + [x];
      NoDupFilterSnoc(xs, init, InWhiteList(links, items, x, w));
      init + (if InWhiteList(links, items, x, w) then [x] else [])
  }

  /** `filter(task_available_func, doc_items)`. */
  function AvailableFiltered(xs: seq<Id>, avail: Id -> bool): (r: seq<Id>)
    ensures forall y :: y in r <==> y in xs && avail(y)
    ensures NoDup(xs) ==> NoDup(r)
    decreases |xs|
  {
    if |xs| == 0 then []
    else
      var x := xs[|xs| - 1];
      var init := AvailableFiltered(xs[..|xs| - 1], avail);
      assert xs == xs[..|xs| - 1] + [x];
      NoDupFilterSnoc(xs, init, avail(x));
      init + (if avail(x) then [x] else [])
  }

  ghost predicate SortedByDepth(items: map<Id, DocItem>, s: seq<Id>)
    requires forall k :: 0 <= k < |s| ==> s[k] in items
  {
    forall i, j :: 0 <= i < j < |s| ==> items[s[i]].depth <= items[s[j]].depth
  }

  /** Insertion of `x` after every item of the sorted `s` that is not deeper: what a stable sort does. */
  function InsertByDepth(items: map<Id, DocItem>, x: Id, s: seq<Id>): (r: seq<Id>)
    requires x in items && forall k :: 0 <= k < |s| ==> s[k] in items
    ensures multiset(r) == multiset(s) + multiset{x}
    ensures forall y :: y in r <==> y in s || y == x
    ensures forall k :: 0 <= k < |r| ==> r[k] in items
    decreases |s|
  {
    if |s| == 0 || items[s[|s| - 1]].depth <= items[x].depth then s + [x]
    else
      var init := s[..|s| - 1];
      assert s == init + [s[|s| - 1]];
      InsertByDepth(items, x, init) + [s[|s| - 1]]
  }

  lemma {:induction false} InsertByDepthSorted(items: map<Id, DocItem>, x: Id, s: seq<Id>)
    requires x in items && forall k :: 0 <= k < |s| ==> s[k] in items
    requires SortedByDepth(items, s)
    ensures SortedByDepth(items, InsertByDepth(items, x, s))
    decreases |s|
  {
    if |s| > 0 && items[s[|s| - 1]].depth > items[x].depth {
      var init := s[..|s| - 1];
      var last := s[|s| - 1];
      InsertByDepthSorted(items, x, init);
      var r0 := InsertByDepth(items, x, init);
      forall i | 0 <= i < |r0| ensures items[r0[i]].depth <= items[last].depth {
        assert r0[i] in init || r0[i] == x;
      }
    }
  }

  /** `sorted(doc_items, key=lambda x: x.depth)`. */
  function SortByDepth(items: map<Id, DocItem>, xs: seq<Id>): (r: seq<Id>)
    requires forall k :: 0 <= k < |xs| ==> xs[k] in items
    ensures multiset(r) == multiset(xs)
    ensures forall y :: y in r <==> y in xs
    ensures forall k :: 0 <= k < |r| ==> r[k] in items
    decreases |xs|
  {
    if |xs| == 0 then []
    else
      var init := xs[..|xs| - 1];
      assert xs == init + [xs[|xs| - 1]];
      InsertByDepth(items, xs[|xs| - 1], SortByDepth(items, init))
  }

  /** The sort orders by depth. */
  lemma {:induction false} SortByDepthSorted(items: map<Id, DocItem>, xs: seq<Id>)
    requires forall k :: 0 <= k < |xs| ==> xs[k] in items
    ensures SortedByDepth(items, SortByDepth(items, xs))
    decreases |xs|
  {
    if |xs| > 0 {
      var init := xs[..|xs| - 1];
      SortByDepthSorted(items, init);
      InsertByDepthSorted(items, xs[|xs| - 1], SortByDepth(items, init));
    }
  }

  /** A permutation of a list without repeats has none either. */
  lemma {:induction false} NoDupPermutation(a: seq<Id>, b: seq<Id>)
    requires multiset(a) == multiset(b) && NoDup(a)
    ensures NoDup(b)
  {
    forall i, j | 0 <= i < j < |b| ensures b[i] != b[j] {
      if b[i] == b[j] {
        assert b == b[..j] + [b[j]] + b[j + 1..];
        assert b[i] in b[..j];
        assert multiset(b)[b[j]] >= 2;
        CountAtMostOne(a, b[j]);
      }
    }
  }

  lemma {:induction false} CountAtMostOne(a: seq<Id>, x: Id)
    requires NoDup(a)
    ensures multiset(a)[x] <= 1
    decreases |a|
  {
    if |a| > 0 {
      var init := a[..|a| - 1];
      assert a == init + [a[|a| - 1]];
      assert NoDup(init);
      CountAtMostOne(init, x);
      if a[|a| - 1] == x {
        assert x !in init;
      }
    }
  }

  /** The list `get_task_manager` starts from (lines 561-575). */
  function Candidates(links: map<Id, Link>, items: map<Id, DocItem>, next: nat, now: Id,
                      whiteList: Option<seq<WhiteEntry>>, avail: Id -> bool): (r: seq<Id>)
    requires Arena(links, items, next) && now in links
    ensures forall k :: 0 <= k < |r| ==> r[k] in links
  {
    var t := TravelList(links, next, now);
    var w := if whiteList.Some? then WhiteFiltered(links, items, t, whiteList.value) else t;
    var a := AvailableFiltered(w, avail);
    assert forall k :: 0 <= k < |a| ==> a[k] in w && a[k] in t;
    SortByDepth(items, a)
  }

  /**
   * The candidates are the available items below `now` (on the white list,
   * when there is one), each once, sorted by depth.
   */
  lemma CandidatesMeaning(links: map<Id, Link>, items: map<Id, DocItem>, next: nat, now: Id,
                          whiteList: Option<seq<WhiteEntry>>, avail: Id -> bool)
    requires Arena(links, items, next) && now in links
    ensures var r := Candidates(links, items, next, now, whiteList, avail);
            NoDup(r) && SortedByDepth(items, r)
            && forall y :: y in r <==> y in links && now in PathTo(links, y) && avail(y)
                                       && (whiteList.Some? ==> InWhiteList(links, items, y, whiteList.value))
  {
    var t := TravelList(links, next, now);
    TravelListNoDup(links, next, now);
    var w := if whiteList.Some? then WhiteFiltered(links, items, t, whiteList.value) else t;
    var a := AvailableFiltered(w, avail);
    assert forall k :: 0 <= k < |a| ==> a[k] in w && a[k] in t;
    SortByDepthSorted(items, a);
    NoDupPermutation(a, SortByDepth(items, a));
    forall y ensures y in t <==> y in links && now in PathTo(links, y) {
      if y in t {
        TravelListBelow(links, next, now, y);
      }
      if y in links && now in PathTo(links, y) {
        TravelListComplete(links, next, now, y);
      }
    }
  }

  // ---------------------------------------------------------------------
  // Break levels (lines 586-606)
  // ---------------------------------------------------------------------

  /** Children in `cs` that are available and not yet dealt with. */
  function PendingChildren(cs: seq<(string, Id)>, avail: Id -> bool, dealt: seq<Id>): (r: nat)
    ensures r <= |cs|
    ensures r == 0 <==> forall k :: 0 <= k < |cs| ==> !avail(cs[k].1) || cs[k].1 in dealt
    decreases |cs|
  {
    if |cs| == 0 then 0
    else
      var c := cs[|cs| - 1].1;
      PendingChildren(cs[..|cs| - 1], avail, dealt) + (if avail(c) && c !in dealt then 1 else 0)
  }

  /**
   * Of the first `n` pairs of `zip(refs, flags)`, those whose item is
   * available and not yet dealt with; with `plainOnly`, only those not
   * marked special.
   */
  function PendingRefs(refs: seq<Id>, flags: seq<bool>, n: nat, avail: Id -> bool, dealt: seq<Id>, plainOnly: bool): (r: nat)
    requires n <= |refs| && n <= |flags|
    ensures r <= n
    ensures r == 0 <==> forall k :: 0 <= k < n ==> !avail(refs[k]) || (plainOnly && flags[k]) || refs[k] in dealt
  {
    if n == 0 then 0
    else
      var pending := avail(refs[n - 1]) && !(plainOnly && flags[n - 1]) && refs[n - 1] !in dealt;
      PendingRefs(refs, flags, n - 1, avail, dealt, plainOnly) + (if pending then 1 else 0)
  }

  /** The length of `zip(x.reference_who, x.special_reference_type)`. */
  function ZipLength(d: DocItem): (n: nat)
    ensures n <= |d.referenceWho| && n <= |d.specialReferenceType|
    ensures n == |d.referenceWho| || n == |d.specialReferenceType|
  {
    if |d.referenceWho| <= |d.specialReferenceType| then |d.referenceWho| else |d.specialReferenceType|
  }

  /**
   * `best_break_level`: pending children plus pending referenced items.
   * It is zero exactly when every available child and referenced item is
   * already dealt with.
   */
  function Best(links: map<Id, Link>, items: map<Id, DocItem>, x: Id, avail: Id -> bool, dealt: seq<Id>): (r: nat)
    requires x in links && x in items
    ensures var cs, d := links[x].children, items[x];
            r == 0 <==> (forall k :: 0 <= k < |cs| ==> !avail(cs[k].1) || cs[k].1 in dealt)
                        && forall k :: 0 <= k < ZipLength(d) ==> !avail(d.referenceWho[k]) || d.referenceWho[k] in dealt
  {
    var d := items[x];
    PendingChildren(links[x].children, avail, dealt) + PendingRefs(d.referenceWho, d.specialReferenceType, ZipLength(d), avail, dealt, false)
  }

  /**
   * `second_best_break_level`: pending referenced items that are not
   * special; children do not count. It is zero exactly when every available
   * plain referenced item is dealt with.
   */
  function Second(items: map<Id, DocItem>, x: Id, avail: Id -> bool, dealt: seq<Id>): (r: nat)
    requires x in items
    ensures var d := items[x];
            r == 0 <==> forall k :: 0 <= k < ZipLength(d) ==> !avail(d.referenceWho[k]) || d.specialReferenceType[k] || d.referenceWho[k] in dealt
  {
    var d := items[x];
    PendingRefs(d.referenceWho, d.specialReferenceType, ZipLength(d), avail, dealt, true)
  }

  lemma {:induction false} PlainRefsAtMostAll(refs: seq<Id>, flags: seq<bool>, n: nat, avail: Id -> bool, dealt: seq<Id>)
    requires n <= |refs| && n <= |flags|
    ensures PendingRefs(refs, flags, n, avail, dealt, true) <= PendingRefs(refs, flags, n, avail, dealt, false)
  {
    if n > 0 {
      PlainRefsAtMostAll(refs, flags, n - 1, avail, dealt);
    }
  }

  /** The fallback count never exceeds the full one. */
  lemma SecondAtMostBest(links: map<Id, Link>, items: map<Id, DocItem>, x: Id, avail: Id -> bool, dealt: seq<Id>)
    requires x in links && x in items
    ensures Second(items, x, avail, dealt) <= Best(links, items, x, avail, dealt)
  {
    var d := items[x];
    PlainRefsAtMostAll(d.referenceWho, d.specialReferenceType, ZipLength(d), avail, dealt);
  }

  /** The two counting loops for one item. */
  method BreakLevels(links: map<Id, Link>, items: map<Id, DocItem>, x: Id, avail: Id -> bool, dealt: seq<Id>)
    returns (best: nat, second: nat)
    requires x in links && x in items
    ensures best == Best(links, items, x, avail, dealt)
    ensures second == Second(items, x, avail, dealt)
  {
    var cs := links[x].children;
    best, second := 0, 0;
    var k := 0;
    while k < |cs|
      invariant 0 <= k <= |cs|
      invariant best == PendingChildren(cs[..k], avail, dealt)
    {
      assert cs[..k + 1][..k] == cs[..k];
      if avail(cs[k].1) && cs[k].1 !in dealt {
        best := best + 1;
      }
      k := k + 1;
    }
    assert cs[..k] == cs;
    var d := items[x];
    var n := ZipLength(d);
    var base := best;
    k := 0;
    while k < n
      invariant 0 <= k <= n
      invariant best == base + PendingRefs(d.referenceWho, d.specialReferenceType, k, avail, dealt, false)
      invariant second == PendingRefs(d.referenceWho, d.specialReferenceType, k, avail, dealt, true)
    {
      var referenced, special := d.referenceWho[k], d.specialReferenceType[k];
      if avail(referenced) && referenced !in dealt {
        best := best + 1;
      }
      if avail(referenced) && !special && referenced !in dealt {
        second := second + 1;
      }
      k := k + 1;
    }
  }

  /** `min_break_level = 1e7`: a plain count must fall below it for a fallback pick. */
  const Sentinel: int := 10000000

  /** The best and the second-best levels of every item of `docItems`, in order. */
  function Levels(links: map<Id, Link>, items: map<Id, DocItem>, docItems: seq<Id>, avail: Id -> bool, dealt: seq<Id>)
    : (r: (seq<nat>, seq<nat>))
    requires forall k :: 0 <= k < |docItems| ==> docItems[k] in links && docItems[k] in items
    ensures |r.0| == |docItems| && |r.1| == |docItems|
  {
    (seq(|docItems|, i requires 0 <= i < |docItems| => Best(links, items, docItems[i], avail, dealt)),
     seq(|docItems|, i requires 0 <= i < |docItems| => Second(items, docItems[i], avail, dealt)))
  }

  /**
   * The selection rule over the levels `bs` and `ss`: the first index whose
   * best level is zero; failing that, the first index with the least
   * second-best level, provided that level is below `Sentinel`; otherwise
   * None.
   */
  ghost predicate PickRule(bs: seq<nat>, ss: seq<nat>, r: Option<nat>)
    requires |bs| == |ss|
  {
    (r.Some? ==> r.value < |bs|)
    && ((exists i :: 0 <= i < |bs| && bs[i] == 0) ==>
          r.Some? && bs[r.value] == 0 && forall j :: 0 <= j < r.value ==> bs[j] > 0)
    && ((forall i :: 0 <= i < |bs| ==> bs[i] > 0) ==>
          (r.Some? <==> exists i :: 0 <= i < |ss| && ss[i] < Sentinel)
          && (r.Some? ==> (forall j :: 0 <= j < |ss| ==> ss[r.value] <= ss[j])
                          && forall j :: 0 <= j < r.value ==> ss[r.value] < ss[j]))
  }

  /** What the selection loop knows after scanning the first `i` levels. */
  ghost predicate PickSoFar(bs: seq<nat>, ss: seq<nat>, i: nat, r: Option<nat>, minLevel: int)
    requires |bs| == |ss| && i <= |bs|
  {
    (forall j :: 0 <= j < i ==> bs[j] > 0)
    && (r.None? ==> minLevel == Sentinel && forall j :: 0 <= j < i ==> ss[j] >= Sentinel)
    && (r.Some? ==> r.value < i && minLevel == ss[r.value] < Sentinel
                    && (forall j :: 0 <= j < i ==> minLevel <= ss[j])
                    && forall j :: 0 <= j < r.value ==> minLevel < ss[j])
  }

  /** Scanning one more level with a positive best level. */
  lemma PickStep(bs: seq<nat>, ss: seq<nat>, i: nat, r: Option<nat>, minLevel: int)
    requires |bs| == |ss| && i < |bs| && bs[i] > 0
    requires PickSoFar(bs, ss, i, r, minLevel)
    ensures ss[i] < minLevel ==> PickSoFar(bs, ss, i + 1, Some(i), ss[i])
    ensures ss[i] >= minLevel ==> PickSoFar(bs, ss, i + 1, r, minLevel)
  {
  }

  /** A zero best level ends the scan with that index. */
  lemma PickZero(bs: seq<nat>, ss: seq<nat>, i: nat, r: Option<nat>, minLevel: int)
    requires |bs| == |ss| && i < |bs| && bs[i] == 0
    requires PickSoFar(bs, ss, i, r, minLevel)
    ensures PickRule(bs, ss, Some(i))
  {
  }

  /** A full scan without a zero best level ends with the least second-best level. */
  lemma PickDone(bs: seq<nat>, ss: seq<nat>, r: Option<nat>, minLevel: int)
    requires |bs| == |ss| && PickSoFar(bs, ss, |bs|, r, minLevel)
    ensures PickRule(bs, ss, r)
  {
  }

  /** One pass of the selection loop: the index of the item it settles on. */
  method PickTarget(links: map<Id, Link>, items: map<Id, DocItem>, docItems: seq<Id>, avail: Id -> bool, dealt: seq<Id>)
    returns (r: Option<nat>)
    requires forall k :: 0 <= k < |docItems| ==> docItems[k] in links && docItems[k] in items
    ensures var (bs, ss) := Levels(links, items, docItems, avail, dealt); PickRule(bs, ss, r)
  {
    ghost var lv := Levels(links, items, docItems, avail, dealt);
    ghost var bs, ss := lv.0, lv.1;
    var minLevel: int := Sentinel;
    r := None;
    var i := 0;
    while i < |docItems|
      invariant 0 <= i <= |docItems|
      invariant PickSoFar(bs, ss, i, r, minLevel)
    {
      var best, second := BreakLevels(links, items, docItems[i], avail, dealt);
      assert best == bs[i] && second == ss[i];
      if best == 0 {
        PickZero(bs, ss, i, r, minLevel);
        return Some(i);
      }
      PickStep(bs, ss, i, r, minLevel);
      if second < minLevel {
        r := Some(i);
        minLevel := second;
      }
      i := i + 1;
    }
    PickDone(bs, ss, r, minLevel);
  }

  // ---------------------------------------------------------------------
  // Dependencies (lines 618-627)
  // ---------------------------------------------------------------------

  /** Task `d` is the task of a child of `x`. */
  predicate ChildTask(links: map<Id, Link>, items: map<Id, DocItem>, x: Id, d: int)
    requires x in links && forall k :: 0 <= k < |links[x].children| ==> links[x].children[k].1 in items
  {
    d != -1 && exists k :: 0 <= k < |links[x].children| && items[links[x].children[k].1].multithreadTaskId == d
  }

  /** Task `d` is in the table and is the task of an item `x` references. */
  predicate RefTask(items: map<Id, DocItem>, x: Id, taskIds: set<int>, d: int)
    requires x in items && forall k :: 0 <= k < |items[x].referenceWho| ==> items[x].referenceWho[k] in items
  {
    d in taskIds && exists k :: 0 <= k < |items[x].referenceWho| && items[items[x].referenceWho[k]].multithreadTaskId == d
  }

  /** A child carries a task id the table does not hold. */
  predicate StaleChild(links: map<Id, Link>, items: map<Id, DocItem>, x: Id, taskIds: set<int>)
    requires x in links && forall k :: 0 <= k < |links[x].children| ==> links[x].children[k].1 in items
  {
    exists k :: 0 <= k < |links[x].children| &&
      items[links[x].children[k].1].multithreadTaskId != -1 && items[links[x].children[k].1].multithreadTaskId !in taskIds
  }

  /**
   * `item_denp_task_ids`: the task ids of the children, then those of the
   * referenced items that are in the table, without repeats. A child task
   * id missing from the table fails the assertion.
   */
  method CollectDependencies(links: map<Id, Link>, items: map<Id, DocItem>, x: Id, taskIds: set<int>)
    returns (r: Result<seq<int>>)
    requires x in links && x in items
    requires forall k :: 0 <= k < |links[x].children| ==> links[x].children[k].1 in items
    requires forall k :: 0 <= k < |items[x].referenceWho| ==> items[x].referenceWho[k] in items
    ensures r.Err? <==> StaleChild(links, items, x, taskIds)
    ensures r.Err? ==> r.error == "AssertionError"
    ensures r.Ok? ==> NoDup(r.value)
                      && forall d :: d in r.value <==> ChildTask(links, items, x, d) || RefTask(items, x, taskIds, d)
  {
    var cs := links[x].children;
    var ids: seq<int> := [];
    var k := 0;
    while k < |cs|
      invariant 0 <= k <= |cs|
      invariant forall j :: 0 <= j < k ==> items[cs[j].1].multithreadTaskId == -1 || items[cs[j].1].multithreadTaskId in taskIds
      invariant forall d :: d in ids <==> d != -1 && exists j :: 0 <= j < k && items[cs[j].1].multithreadTaskId == d
    {
      var id := items[cs[k].1].multithreadTaskId;
      if id != -1 {
        if id !in taskIds {
          return Err("AssertionError");
        }
        ids := ids + [id];
      }
      k := k + 1;
    }
    var refs := items[x].referenceWho;
    ghost var fromChildren := ids;
    k := 0;
    while k < |refs|
      invariant 0 <= k <= |refs|
      invariant forall d :: d in ids <==>
                  (d in fromChildren || (d in taskIds && exists j :: 0 <= j < k && items[refs[j]].multithreadTaskId == d))
    {
      var id := items[refs[k]].multithreadTaskId;
      if id in taskIds {
        ids := ids + [id];
      }
      k := k + 1;
    }
    r := Ok(Dedup(ids));
  }

  // ---------------------------------------------------------------------
  // The selection loop (lines 584-636)
  // ---------------------------------------------------------------------

  /** Every child of every node is an item. */
  ghost predicate ChildrenInside(links: map<Id, Link>, items: map<Id, DocItem>)
  {
    forall x, k :: x in links && 0 <= k < |links[x].children| ==> links[x].children[k].1 in items
  }

  /** No item carries a task id yet. */
  ghost predicate Fresh(items: map<Id, DocItem>)
  {
    forall y :: y in items ==> items[y].multithreadTaskId == -1
  }

  predicate IsChild(links: map<Id, Link>, x: Id, y: Id)
    requires x in links
  {
    exists k :: 0 <= k < |links[x].children| && links[x].children[k].1 == y
  }

  /** The position of the first `y` in `s`. */
  function IndexOf(s: seq<Id>, y: Id): (k: nat)
    requires y in s
    ensures k < |s| && s[k] == y && forall j :: 0 <= j < k ==> s[j] != y
  {
    if s[0] == y then 0 else 1 + IndexOf(s[1..], y)
  }

  lemma IndexOfNoDup(s: seq<Id>, j: nat)
    requires NoDup(s) && j < |s|
    ensures IndexOf(s, s[j]) == j
  {
  }

  /** `cur` is `items` after each dealt item took its position as task id. */
  ghost predicate Numbered(items: map<Id, DocItem>, cur: map<Id, DocItem>, dealt: seq<Id>)
  {
    cur.Keys == items.Keys
    && forall y :: y in items ==>
         cur[y] == items[y].(multithreadTaskId := if y in dealt then IndexOf(dealt, y) else items[y].multithreadTaskId)
  }

  /** Task `i` of `dict` is the one of `dealt[i]`, for exactly the positions of `dealt`. */
  ghost predicate Numbering(dict: map<int, Task<Id>>, dealt: seq<Id>)
  {
    (forall i :: i in dict <==> 0 <= i < |dealt|)
    && forall i :: 0 <= i < |dealt| ==> dict[i].extraInfo == dealt[i]
  }

  /** Numbering the items changes no key and no reference. */
  lemma NumberedInside(items: map<Id, DocItem>, cur: map<Id, DocItem>, dealt: seq<Id>)
    requires Numbered(items, cur, dealt) && RefsInside(items)
    ensures cur.Keys == items.Keys && RefsInside(cur)
  {
    forall y, x | y in cur && (x in cur[y].referenceWho || x in cur[y].whoReferenceMe) ensures x in cur {
      assert cur[y].referenceWho == items[y].referenceWho && cur[y].whoReferenceMe == items[y].whoReferenceMe;
    }
  }

  /** The table holds one pending task per dealt item, numbered in dealing order. */
  ghost predicate Tasks(tm: TaskManager<Id>, dealt: seq<Id>)
    reads tm
  {
    tm.Valid() && tm.DepsPresent() && tm.DepsDistinct() && tm.AllPending() && tm.nowId == |dealt|
  }

  lemma NumberingSnoc(dict: map<int, Task<Id>>, dealt: seq<Id>, target: Id, deps: seq<int>)
    requires Numbering(dict, dealt)
    ensures Numbering(dict[|dealt| := Task(|dealt|, deps, target, 0)], dealt + [target])
  {
  }

  /** Every task of `dict` waits for what `WaitsFor` says. */
  ghost predicate AllWait(links: map<Id, Link>, items: map<Id, DocItem>, dealt: seq<Id>, dict: map<int, Task<Id>>)
    requires forall k :: 0 <= k < |dealt| ==> dealt[k] in links && dealt[k] in items
    requires forall i :: 0 <= i < |dealt| ==> i in dict
  {
    forall i :: 0 <= i < |dealt| ==> WaitsFor(links, items, dealt, i, dict[i].dependencies)
  }

  lemma AllWaitSnoc(links: map<Id, Link>, items: map<Id, DocItem>, dealt: seq<Id>, dict: map<int, Task<Id>>,
                    target: Id, deps: seq<int>)
    requires forall k :: 0 <= k < |dealt| ==> dealt[k] in links && dealt[k] in items
    requires target in links && target in items
    requires forall i :: 0 <= i < |dealt| ==> i in dict
    requires AllWait(links, items, dealt, dict)
    requires WaitsFor(links, items, dealt + [target], |dealt|, deps)
    ensures var dict' := dict[|dealt| := Task(|dealt|, deps, target, 0)];
            AllWait(links, items, dealt + [target], dict')
  {
    var dict' := dict[|dealt| := Task(|dealt|, deps, target, 0)];
    forall i | 0 <= i < |dealt| ensures WaitsFor(links, items, dealt + [target], i, dict'[i].dependencies) {
      WaitsForSnoc(links, items, dealt, target, i, dict[i].dependencies);
    }
  }

  /** Task `i` waits exactly for the earlier tasks of the children and of the referenced items of `dealt[i]`. */
  ghost predicate WaitsFor(links: map<Id, Link>, items: map<Id, DocItem>, dealt: seq<Id>, i: nat, deps: seq<int>)
    requires i < |dealt| && dealt[i] in links && dealt[i] in items
  {
    forall d :: d in deps <==> 0 <= d < i && (IsChild(links, dealt[i], dealt[d]) || dealt[d] in items[dealt[i]].referenceWho)
  }

  /** With no task ids to begin with, no child of `x` has a stale one. */
  lemma FreshNotStale(items: map<Id, DocItem>, cur: map<Id, DocItem>, dealt: seq<Id>, links: map<Id, Link>, x: Id, keys: set<int>)
    requires Numbered(items, cur, dealt) && (forall i :: i in keys <==> 0 <= i < |dealt|)
    requires x in links && forall k :: 0 <= k < |links[x].children| ==> links[x].children[k].1 in cur
    ensures Fresh(items) ==> !StaleChild(links, cur, x, keys)
  {
    if Fresh(items) {
      forall k | 0 <= k < |links[x].children|
        ensures cur[links[x].children[k].1].multithreadTaskId == -1 || cur[links[x].children[k].1].multithreadTaskId in keys
      {
        var c := links[x].children[k].1;
        if c in dealt {
          assert IndexOf(dealt, c) in keys;
        }
      }
    }
  }

  /** Collected dependencies are tasks already in the table. */
  lemma DepsInTable(links: map<Id, Link>, cur: map<Id, DocItem>, target: Id, keys: set<int>, deps: seq<int>)
    requires target in links && target in cur
    requires forall k :: 0 <= k < |links[target].children| ==> links[target].children[k].1 in cur
    requires forall k :: 0 <= k < |cur[target].referenceWho| ==> cur[target].referenceWho[k] in cur
    requires !StaleChild(links, cur, target, keys)
    requires forall d :: d in deps <==> ChildTask(links, cur, target, d) || RefTask(cur, target, keys, d)
    ensures forall d :: d in deps ==> d in keys
  {
  }

  /** The dependencies collected for the next item are those `WaitsFor` describes. */
  lemma NewTaskWaitsFor(links: map<Id, Link>, items: map<Id, DocItem>, cur: map<Id, DocItem>, dealt: seq<Id>,
                        target: Id, keys: set<int>, deps: seq<int>)
    requires Fresh(items) && Numbered(items, cur, dealt) && NoDup(dealt) && (forall i :: i in keys <==> 0 <= i < |dealt|)
    requires target in links && target in items && target !in dealt
    requires forall k :: 0 <= k < |links[target].children| ==> links[target].children[k].1 in items
    requires forall k :: 0 <= k < |items[target].referenceWho| ==> items[target].referenceWho[k] in items
    requires forall d :: d in deps <==> ChildTask(links, cur, target, d) || RefTask(cur, target, keys, d)
    ensures WaitsFor(links, items, dealt + [target], |dealt|, deps)
  {
    var s := dealt + [target];
    var cs, refs := links[target].children, items[target].referenceWho;
    assert cur[target].referenceWho == refs;
    forall d ensures d in deps <==> 0 <= d < |dealt| && (IsChild(links, target, s[d]) || s[d] in refs) {
      if ChildTask(links, cur, target, d) {
        var k :| 0 <= k < |cs| && cur[cs[k].1].multithreadTaskId == d;
        assert cs[k].1 in dealt;
        assert s[d] == cs[k].1;
      }
      if RefTask(cur, target, keys, d) {
        var k :| 0 <= k < |refs| && cur[refs[k]].multithreadTaskId == d;
        assert refs[k] in dealt;
        assert s[d] == refs[k];
      }
      if 0 <= d < |dealt| && IsChild(links, target, s[d]) {
        var k :| 0 <= k < |cs| && cs[k].1 == s[d];
        IndexOfNoDup(dealt, d);
        assert ChildTask(links, cur, target, d);
      }
      if 0 <= d < |dealt| && s[d] in refs {
        var k :| 0 <= k < |refs| && refs[k] == s[d];
        IndexOfNoDup(dealt, d);
        assert RefTask(cur, target, keys, d);
      }
    }
  }

  /** Dealing one more item keeps the earlier tasks' descriptions. */
  lemma WaitsForSnoc(links: map<Id, Link>, items: map<Id, DocItem>, dealt: seq<Id>, target: Id, i: nat, deps: seq<int>)
    requires i < |dealt| && dealt[i] in links && dealt[i] in items
    requires WaitsFor(links, items, dealt, i, deps)
    ensures WaitsFor(links, items, dealt + [target], i, deps)
  {
    var s := dealt + [target];
    forall d | 0 <= d < i ensures s[d] == dealt[d] { }
  }

  lemma NumberedSnoc(items: map<Id, DocItem>, cur: map<Id, DocItem>, dealt: seq<Id>, target: Id)
    requires Numbered(items, cur, dealt) && target in items && target !in dealt
    ensures Numbered(items, cur[target := cur[target].(multithreadTaskId := |dealt|)], dealt + [target])
  {
    var s := dealt + [target];
    forall y | y in dealt ensures IndexOf(s, y) == IndexOf(dealt, y) {
      var k := IndexOf(dealt, y);
      assert s[k] == y;
      assert forall j :: 0 <= j < k ==> s[j] == dealt[j];
    }
    assert IndexOf(s, target) == |dealt|;
  }

  /** The values the selection loop keeps, after dealing with `dealt`, `docItems` still to go. */
  ghost predicate Dealt(links: map<Id, Link>, items: map<Id, DocItem>, cands: seq<Id>,
                        docItems: seq<Id>, dealt: seq<Id>, cur: map<Id, DocItem>, dict: map<int, Task<Id>>)
  {
    Numbering(dict, dealt) && Numbered(items, cur, dealt)
    && NoDup(docItems) && NoDup(dealt)
    && (forall y :: y in cands <==> y in docItems || y in dealt)
    && (forall y :: y in dealt ==> y !in docItems)
    && |dealt| + |docItems| == |cands|
    && (forall k :: 0 <= k < |dealt| ==> dealt[k] in links && dealt[k] in items)
    && (forall k :: 0 <= k < |docItems| ==> docItems[k] in links && docItems[k] in items)
    && (Fresh(items) ==> AllWait(links, items, dealt, dict))
  }

  /** The loop state: the task table and the values it keeps. */
  ghost predicate Dealing(links: map<Id, Link>, items: map<Id, DocItem>, cands: seq<Id>,
                          docItems: seq<Id>, dealt: seq<Id>, cur: map<Id, DocItem>, tm: TaskManager<Id>)
    reads tm
  {
    Tasks(tm, dealt) && Dealt(links, items, cands, docItems, dealt, cur, tm.taskDict)
  }

  /** Dealing with `target` as task `|dealt|` keeps the loop values. */
  lemma DealtSnoc(links: map<Id, Link>, items: map<Id, DocItem>, cands: seq<Id>,
                  docItems: seq<Id>, dealt: seq<Id>, cur: map<Id, DocItem>, dict: map<int, Task<Id>>,
                  target: Id, deps: seq<int>)
    requires Dealt(links, items, cands, docItems, dealt, cur, dict) && target in docItems
    requires Fresh(items) ==> WaitsFor(links, items, dealt + [target], |dealt|, deps)
    ensures Dealt(links, items, cands, RemoveFirst(docItems, target), dealt + [target],
                  cur[target := cur[target].(multithreadTaskId := |dealt|)],
                  dict[|dealt| := Task(|dealt|, deps, target, 0)])
    ensures |RemoveFirst(docItems, target)| < |docItems|
  {
    if Fresh(items) {
      AllWaitSnoc(links, items, dealt, dict, target, deps);
    }
    NumberingSnoc(dict, dealt, target, deps);
    NumberedSnoc(items, cur, dealt, target);
    RemoveFirstNoDup(docItems, target);
    NoDupSnoc(dealt, target);
  }

  /** The candidates not dealt yet, in their sorted order. */
  function Undealt(cands: seq<Id>, dealt: seq<Id>): seq<Id>
    decreases |cands|
  {
    if |cands| == 0 then []
    else (if cands[0] in dealt then [] else [cands[0]]) + Undealt(cands[1..], dealt)
  }

  lemma {:induction false} UndealtMembers(cands: seq<Id>, dealt: seq<Id>, y: Id)
    ensures y in Undealt(cands, dealt) <==> y in cands && y !in dealt
    decreases |cands|
  {
    if |cands| > 0 {
      UndealtMembers(cands[1..], dealt, y);
      assert cands == [cands[0]] + cands[1..];
    }
  }

  lemma {:induction false} UndealtNone(cands: seq<Id>)
    ensures Undealt(cands, []) == cands
    decreases |cands|
  {
    if |cands| > 0 {
      UndealtNone(cands[1..]);
    }
  }

  lemma {:induction false} UndealtIgnores(cands: seq<Id>, dealt: seq<Id>, t: Id)
    requires t !in cands
    ensures Undealt(cands, dealt + [t]) == Undealt(cands, dealt)
    decreases |cands|
  {
    if |cands| > 0 {
      assert cands[0] in dealt + [t] <==> cands[0] in dealt;
      UndealtIgnores(cands[1..], dealt, t);
    }
  }

  /** Dealing `t` takes it out of the undealt candidates and leaves the others in order. */
  lemma {:induction false} UndealtSnoc(cands: seq<Id>, dealt: seq<Id>, t: Id)
    requires NoDup(cands) && t in cands && t !in dealt
    ensures RemoveFirst(Undealt(cands, dealt), t) == Undealt(cands, dealt + [t])
    decreases |cands|
  {
    var c, rest := cands[0], cands[1..];
    assert cands == [c] + rest;
    var u, u1 := Undealt(cands, dealt), Undealt(rest, dealt);
    var v, v1 := Undealt(cands, dealt + [t]), Undealt(rest, dealt + [t]);
    if c == t {
      assert t !in rest by {
        assert forall j :: 0 < j < |cands| ==> cands[j] != c;
      }
      UndealtIgnores(rest, dealt, t);
      assert u == [c] + u1 && v == v1;
      assert RemoveFirst(u, t) == u1;
    } else {
      assert NoDup(rest) && t in rest;
      UndealtSnoc(rest, dealt, t);
      UndealtMembers(rest, dealt, t);
      if c in dealt {
        assert u == u1 && v == v1;
      } else {
        assert u == [c] + u1 && v == [c] + v1;
        assert RemoveFirst(u, t) == [c] + RemoveFirst(u1, t);
      }
    }
  }

  /** Task ids play no part in the levels. */
  lemma LevelsNumbered(links: map<Id, Link>, items: map<Id, DocItem>, cur: map<Id, DocItem>, dealt0: seq<Id>,
                       ds: seq<Id>, avail: Id -> bool, dealt: seq<Id>)
    requires Numbered(items, cur, dealt0)
    requires forall k :: 0 <= k < |ds| ==> ds[k] in links && ds[k] in items
    ensures Levels(links, cur, ds, avail, dealt) == Levels(links, items, ds, avail, dealt)
  {
    forall k | 0 <= k < |ds|
      ensures Best(links, cur, ds[k], avail, dealt) == Best(links, items, ds[k], avail, dealt)
      ensures Second(cur, ds[k], avail, dealt) == Second(items, ds[k], avail, dealt)
    {
      var d, e := items[ds[k]], cur[ds[k]];
      assert e.referenceWho == d.referenceWho && e.specialReferenceType == d.specialReferenceType;
      assert ZipLength(e) == ZipLength(d);
    }
    var a, b := Levels(links, cur, ds, avail, dealt), Levels(links, items, ds, avail, dealt);
    assert a.0 == b.0 && a.1 == b.1;
  }

  /** With `before` dealt, the selection rule over the undealt candidates picks `y`. */
  ghost predicate PickedAfter(links: map<Id, Link>, items: map<Id, DocItem>, cands: seq<Id>, avail: Id -> bool,
                              before: seq<Id>, y: Id)
  {
    var w := Undealt(cands, before);
    (forall k :: 0 <= k < |w| ==> w[k] in links && w[k] in items)
    && y in w
    && (var lv := Levels(links, items, w, avail, before); PickRule(lv.0, lv.1, Some(IndexOf(w, y))))
  }

  /** With `before` dealt, the selection rule over the undealt candidates picks nothing. */
  ghost predicate NonePicked(links: map<Id, Link>, items: map<Id, DocItem>, cands: seq<Id>, avail: Id -> bool,
                             before: seq<Id>)
  {
    var w := Undealt(cands, before);
    (forall k :: 0 <= k < |w| ==> w[k] in links && w[k] in items)
    && (var lv := Levels(links, items, w, avail, before); PickRule(lv.0, lv.1, None))
  }

  /** Every round dealt the item the selection rule picked at that point. */
  ghost predicate PickedAll(links: map<Id, Link>, items: map<Id, DocItem>, cands: seq<Id>, avail: Id -> bool,
                            dealt: seq<Id>)
  {
    forall i :: 0 <= i < |dealt| ==> PickedAfter(links, items, cands, avail, dealt[..i], dealt[i])
  }

  lemma PickedSnoc(links: map<Id, Link>, items: map<Id, DocItem>, cands: seq<Id>, avail: Id -> bool,
                   dealt: seq<Id>, target: Id)
    requires PickedAll(links, items, cands, avail, dealt) && PickedAfter(links, items, cands, avail, dealt, target)
    ensures PickedAll(links, items, cands, avail, dealt + [target])
  {
    var s := dealt + [target];
    forall i | 0 <= i < |s| ensures PickedAfter(links, items, cands, avail, s[..i], s[i]) {
      if i < |dealt| {
        assert s[..i] == dealt[..i] && s[i] == dealt[i];
      } else {
        assert s[..i] == dealt;
      }
    }
  }

  /** What `PickTarget` settled on, stated over the undealt candidates and the items before numbering. */
  method PickNext(links: map<Id, Link>, items: map<Id, DocItem>, cur: map<Id, DocItem>, cands: seq<Id>,
                  avail: Id -> bool, dealt: seq<Id>, docItems: seq<Id>) returns (pick: Option<nat>)
    requires Numbered(items, cur, dealt) && NoDup(docItems) && docItems == Undealt(cands, dealt)
    requires forall k :: 0 <= k < |docItems| ==> docItems[k] in links && docItems[k] in items
    ensures pick.None? ==> NonePicked(links, items, cands, avail, dealt)
    ensures pick.Some? ==> pick.value < |docItems| && PickedAfter(links, items, cands, avail, dealt, docItems[pick.value])
  {
    pick := PickTarget(links, cur, docItems, avail, dealt);
    LevelsNumbered(links, items, cur, dealt, docItems, avail, dealt);
    if pick.Some? {
      IndexOfNoDup(docItems, pick.value);
    }
  }

  /**
   * One round of the loop once `target` is picked: collect its
   * dependencies, add its task and record the task id on it. A child with
   * a task id missing from the table fails the assertion.
   */
  method DealOne(links: map<Id, Link>, items: map<Id, DocItem>, cands: seq<Id>, tm: TaskManager<Id>,
                 docItems: seq<Id>, dealt: seq<Id>, cur: map<Id, DocItem>, target: Id)
    returns (docItems': seq<Id>, dealt': seq<Id>, cur': map<Id, DocItem>, err: Option<string>)
    requires ChildrenInside(links, items) && RefsInside(items)
    requires Dealing(links, items, cands, docItems, dealt, cur, tm) && target in docItems
    modifies tm
    ensures err.None? ==> Dealing(links, items, cands, docItems', dealt', cur', tm) && |docItems'| < |docItems|
    ensures err.None? ==> docItems' == RemoveFirst(docItems, target) && dealt' == dealt + [target]
    ensures err.Some? ==> unchanged(tm) && docItems' == docItems && dealt' == dealt && cur' == cur
    ensures err.Some? ==> err.value == "AssertionError" && !Fresh(items)
  {
    docItems', dealt', cur' := docItems, dealt, cur;
    assert cur[target].referenceWho == items[target].referenceWho;
    var deps := CollectDependencies(links, cur, target, tm.taskDict.Keys);
    FreshNotStale(items, cur, dealt, links, target, tm.taskDict.Keys);
    if deps.Err? {
      return docItems, dealt, cur, Some("AssertionError");
    }
    docItems', dealt', cur' := AddDealt(links, items, cands, tm, docItems, dealt, cur, target, deps.value);
    err := None;
  }

  /** The rest of a round once the dependencies are collected: add the target's task and record its id. */
  method AddDealt(links: map<Id, Link>, items: map<Id, DocItem>, cands: seq<Id>, tm: TaskManager<Id>,
                  docItems: seq<Id>, dealt: seq<Id>, cur: map<Id, DocItem>, target: Id, deps: seq<int>)
    returns (docItems': seq<Id>, dealt': seq<Id>, cur': map<Id, DocItem>)
    requires Dealing(links, items, cands, docItems, dealt, cur, tm) && target in docItems
    requires target in links && target in cur && cur[target].referenceWho == items[target].referenceWho
    requires forall k :: 0 <= k < |links[target].children| ==> links[target].children[k].1 in cur
    requires forall k :: 0 <= k < |cur[target].referenceWho| ==> cur[target].referenceWho[k] in cur
    requires !StaleChild(links, cur, target, tm.taskDict.Keys) && NoDup(deps)
    requires forall d :: d in deps <==> ChildTask(links, cur, target, d) || RefTask(cur, target, tm.taskDict.Keys, d)
    modifies tm
    ensures Dealing(links, items, cands, docItems', dealt', cur', tm) && |docItems'| < |docItems|
    ensures docItems' == RemoveFirst(docItems, target) && dealt' == dealt + [target]
  {
    if Fresh(items) {
      NewTaskWaitsFor(links, items, cur, dealt, target, tm.taskDict.Keys, deps);
    }
    DealtSnoc(links, items, cands, docItems, dealt, cur, tm.taskDict, target, deps);
    // The target passed the availability filter, so the source's
    // `task_available_func(target_item)` test always holds here.
    DepsInTable(links, cur, target, tm.taskDict.Keys, deps);
    var added := tm.AddTask(deps, target);
    assert added == Ok(|dealt|);
    cur' := cur[target := cur[target].(multithreadTaskId := added.value)];
    dealt' := dealt + [target];
    docItems' := RemoveFirst(docItems, target);
  }

  /**
   * The loop of `get_task_manager` over the sorted candidates, one
   * `DealOne` round per candidate. Starting from items without task ids,
   * it ends with one task per candidate, and every task waits exactly for
   * the earlier tasks of its children and referenced items.
   */
  method ScheduleTasks(links: map<Id, Link>, items: map<Id, DocItem>, cands: seq<Id>, avail: Id -> bool)
    returns (newItems: map<Id, DocItem>, tm: TaskManager<Id>, dealt: seq<Id>, r: Result<nat>)
    requires ChildrenInside(links, items) && RefsInside(items)
    requires NoDup(cands) && forall k :: 0 <= k < |cands| ==> cands[k] in links && cands[k] in items
    ensures fresh(tm) && Tasks(tm, dealt) && Numbering(tm.taskDict, dealt) && Numbered(items, newItems, dealt)
    ensures NoDup(dealt) && forall y :: y in dealt ==> y in cands
    ensures forall k :: 0 <= k < |dealt| ==> dealt[k] in links && dealt[k] in items
    ensures r.Ok? ==> r.value == |cands| && forall y :: y in cands ==> y in dealt
    ensures r.Err? ==> (r.error == "AssertionError" && !Fresh(items))
                       || (r.error == "AttributeError" && NonePicked(links, items, cands, avail, dealt))
    ensures Fresh(items) ==> AllWait(links, items, dealt, tm.taskDict)
    ensures PickedAll(links, items, cands, avail, dealt)
  {
    tm := new TaskManager<Id>();
    var docItems := cands;
    newItems := items;
    dealt := [];
    UndealtNone(cands);
    while |docItems| > 0
      invariant fresh(tm) && Dealing(links, items, cands, docItems, dealt, newItems, tm)
      invariant docItems == Undealt(cands, dealt) && PickedAll(links, items, cands, avail, dealt)
      decreases |docItems|
    {
      var pick := PickNext(links, items, newItems, cands, avail, dealt, docItems);
      if pick.None? {
        r := Err("AttributeError");
        return;
      }
      var target := docItems[pick.value];
      ghost var before := dealt;
      var err;
      docItems, dealt, newItems, err := DealOne(links, items, cands, tm, docItems, dealt, newItems, target);
      if err.Some? {
        r := Err(err.value);
        return;
      }
      UndealtSnoc(cands, before, target);
      PickedSnoc(links, items, cands, avail, before, target);
    }
    r := Ok(|dealt|);
  }

  /**
   * What `get_task_manager` leaves behind, from `items` before to `cur`
   * after: one task per dealt candidate, numbered in dealing order, its id
   * recorded on the item; all candidates dealt unless it raised; and,
   * from items without task ids, every task waiting exactly for the earlier
   * tasks of its children and referenced items.
   */
  ghost predicate Scheduled(links: map<Id, Link>, items: map<Id, DocItem>, next: nat, now: Id,
                            whiteList: Option<seq<WhiteEntry>>, avail: Id -> bool,
                            cur: map<Id, DocItem>, tm: TaskManager<Id>, order: seq<Id>, r: Result<nat>)
    requires Arena(links, items, next) && now in links
    reads tm
  {
    var cands := Candidates(links, items, next, now, whiteList, avail);
    Tasks(tm, order) && Numbering(tm.taskDict, order) && Numbered(items, cur, order)
    && NoDup(order) && (forall y :: y in order ==> y in cands)
    && (forall k :: 0 <= k < |order| ==> order[k] in links && order[k] in items)
    && (r.Ok? ==> r.value == |cands| && forall y :: y in cands ==> y in order)
    && (r.Err? ==> (r.error == "AssertionError" && !Fresh(items))
                   || (r.error == "AttributeError" && NonePicked(links, items, cands, avail, order)))
    && (Fresh(items) ==> AllWait(links, items, order, tm.taskDict))
    && PickedAll(links, items, cands, avail, order)
  }

  /** `get_task_manager` on the tree's values: the candidates below `now`, then the loop. */
  method TaskManagerFor(links: map<Id, Link>, items: map<Id, DocItem>, next: nat, now: Id,
                        whiteList: Option<seq<WhiteEntry>>, avail: Id -> bool)
    returns (cur: map<Id, DocItem>, tm: TaskManager<Id>, order: seq<Id>, r: Result<nat>)
    requires Arena(links, items, next) && RefsInside(items) && now in links
    ensures Arena(links, cur, next) && RefsInside(cur) && fresh(tm)
    ensures Scheduled(links, items, next, now, whiteList, avail, cur, tm, order, r)
  {
    var cands := Candidates(links, items, next, now, whiteList, avail);
    CandidatesMeaning(links, items, next, now, whiteList, avail);
    assert ChildrenInside(links, items);
    cur, tm, order, r := ScheduleTasks(links, items, cands, avail);
    NumberedInside(items, cur, order);
  }
}
