// `MetaInfo.load_doc_from_older_meta`: when the repository is parsed anew,
// each item of the older tree is looked up in the new one by the keys that
// lead to it. A counterpart takes over the older documentation and status
// (marked `code_changed` when its code differs); an older item without
// one is reported as deleted. After references are parsed again, an
// up-to-date item whose set of referencers changed is marked
// `referencer_not_exist` or `add_new_referencer`.
module DocMerge {
  import opened Wrappers
  import opened PyStrings
  import opened SeqUtil
  import opened DocTree
  import opened DocTasks
  import opened DocReferences
  import opened StrictNames
  import MetaInfoUtils

  // ---------------------------------------------------------------------
  // find_item (lines 660-686)
  // ---------------------------------------------------------------------

  /**
   * `find_item`: the root's counterpart is the new root; any other item's
   * is the child listed under its own key by its father's counterpart.
   */
  function FindItem(links: map<Id, Link>, next: nat, oldLinks: map<Id, Link>, oldNext: nat, x: Id): (r: Option<Id>)
    requires Tree(links, next) && Tree(oldLinks, oldNext) && x in oldLinks
    ensures r.Some? ==> r.value in links
    decreases x
  {
    match oldLinks[x].father
    case None => Some(0)
    case Some(f) =>
      match FindItem(links, next, oldLinks, oldNext, f)
      case None => None
      case Some(a) => Lookup(links[a].children, KeyOf(oldLinks, oldNext, x))
  }

  lemma {:induction false} FindPathFromNone(links: map<Id, Link>, next: nat, a: Id, p: seq<string>, key: string)
    requires Tree(links, next) && a in links && FindPathFrom(links, next, a, p).None?
    ensures FindPathFrom(links, next, a, p + [key]).None?
    decreases |p|
  {
    assert |p| > 0;
    assert (p + [key])[0] == p[0] && (p + [key])[1..] == p[1..] + [key];
    match Lookup(links[a].children, p[0]) {
      case None =>
      case Some(c) => FindPathFromNone(links, next, c, p[1..], key);
    }
  }

  /** `find_item` is `find` on the new tree with the older item's key path. */
  lemma {:induction false} FindItemByKeys(links: map<Id, Link>, next: nat, oldLinks: map<Id, Link>, oldNext: nat, x: Id)
    requires Tree(links, next) && Tree(oldLinks, oldNext) && x in oldLinks
    ensures FindItem(links, next, oldLinks, oldNext, x) == FindPath(links, next, KeyPath(oldLinks, oldNext, x))
    decreases x
  {
    match oldLinks[x].father {
      case None =>
      case Some(f) =>
        FindItemByKeys(links, next, oldLinks, oldNext, f);
        var p, key := KeyPath(oldLinks, oldNext, f), KeyOf(oldLinks, oldNext, x);
        match FindPath(links, next, p) {
          case None => FindPathFromNone(links, next, 0, p, key);
          case Some(a) =>
            FindPathFromAppend(links, next, 0, p, key);
            match Lookup(links[a].children, key) {
              case None =>
              case Some(c) =>
                assert FindPathFrom(links, next, a, [key]) == FindPathFrom(links, next, c, []);
            }
        }
    }
  }

  /** The older item a new item takes over from: the one its own key path leads to. */
  ghost function BackMap(links: map<Id, Link>, next: nat, oldLinks: map<Id, Link>, oldNext: nat): (back: map<Id, Id>)
    requires Tree(links, next) && Tree(oldLinks, oldNext)
    ensures back.Keys <= links.Keys && forall y :: y in back ==> back[y] in oldLinks
  {
    map y | y in links && FindPath(oldLinks, oldNext, KeyPath(links, next, y)).Some?
      :: FindPath(oldLinks, oldNext, KeyPath(links, next, y)).value
  }

  /** `find_item` and `BackMap` are inverse: an older item finds `y` exactly when `y` goes back to it. */
  lemma FindItemBack(links: map<Id, Link>, next: nat, oldLinks: map<Id, Link>, oldNext: nat, x: Id, y: Id)
    requires Tree(links, next) && Tree(oldLinks, oldNext) && x in oldLinks && y in links
    ensures var back := BackMap(links, next, oldLinks, oldNext);
            FindItem(links, next, oldLinks, oldNext, x) == Some(y) <==> y in back && back[y] == x
  {
    FindItemByKeys(links, next, oldLinks, oldNext, x);
    FindKeyPath(links, next, y, KeyPath(oldLinks, oldNext, x));
    FindKeyPath(oldLinks, oldNext, x, KeyPath(links, next, y));
  }

  /** Two new items never go back to the same older one. */
  lemma BackInjective(links: map<Id, Link>, next: nat, oldLinks: map<Id, Link>, oldNext: nat, y: Id, z: Id)
    requires Tree(links, next) && Tree(oldLinks, oldNext)
    requires var back := BackMap(links, next, oldLinks, oldNext); y in back && z in back && back[y] == back[z]
    ensures y == z
  {
    var back := BackMap(links, next, oldLinks, oldNext);
    FindItemBack(links, next, oldLinks, oldNext, back[y], y);
    FindItemBack(links, next, oldLinks, oldNext, back[y], z);
  }

  // ---------------------------------------------------------------------
  // travel: documentation and status carried over (lines 688-711)
  // ---------------------------------------------------------------------

  /** `content["code_content"]`, when the content has that key. */
  function CodeOf(d: DocItem): Option<string>
  {
    if d.content.Some? then d.content.value.codeContent else None
  }

  /** The counterpart `d` of older item `o` after `travel`: older documentation and status, or `code_changed`. */
  function Inherit(d: DocItem, o: DocItem): DocItem
  {
    var status := if CodeOf(o).Some? && CodeOf(o) != CodeOf(d) then CodeChanged else o.itemStatus;
    d.(mdContent := o.mdContent, itemStatus := status)
  }

  /** An older item with code whose counterpart has none: the assertion of line 702 fails. */
  ghost predicate CodeClash(m: map<Id, DocItem>, oldItems: map<Id, DocItem>, back: map<Id, Id>)
  {
    exists y :: y in back && y in m && back[y] in oldItems && CodeOf(oldItems[back[y]]).Some? && CodeOf(m[y]).None?
  }

  /** `m` with the items whose older item is in `done` carried over. */
  ghost function InheritedWithin(m: map<Id, DocItem>, oldItems: map<Id, DocItem>, back: map<Id, Id>, done: set<Id>)
    : (r: map<Id, DocItem>)
    requires forall y :: y in back ==> back[y] in oldItems
    ensures r.Keys == m.Keys
  {
    map y | y in m :: if y in back && back[y] in done then Inherit(m[y], oldItems[back[y]]) else m[y]
  }

  /** An older item that no new item goes back to changes nothing. */
  lemma InheritedSkip(m: map<Id, DocItem>, oldItems: map<Id, DocItem>, back: map<Id, Id>, done: set<Id>, x: Id)
    requires forall y :: y in back ==> back[y] in oldItems
    requires forall y :: y in back ==> back[y] != x
    ensures InheritedWithin(m, oldItems, back, done + {x}) == InheritedWithin(m, oldItems, back, done)
  {
  }

  /** The one new item going back to `x` takes over from it. */
  lemma InheritedTake(m: map<Id, DocItem>, oldItems: map<Id, DocItem>, back: map<Id, Id>, done: set<Id>, x: Id, y: Id)
    requires forall z :: z in back ==> back[z] in oldItems
    requires y in back && y in m && back[y] == x && x !in done
    requires forall z :: z in back && back[z] == x ==> z == y
    ensures InheritedWithin(m, oldItems, back, done + {x})
            == InheritedWithin(m, oldItems, back, done)[y := Inherit(m[y], oldItems[x])]
  {
  }

  /** An older item without a counterpart whose father has one: the top of a deleted subtree. */
  ghost predicate Topmost(links: map<Id, Link>, next: nat, oldLinks: map<Id, Link>, oldNext: nat, x: Id)
    requires Tree(links, next) && Tree(oldLinks, oldNext) && x in oldLinks
  {
    FindItem(links, next, oldLinks, oldNext, x).None?
    && oldLinks[x].father.Some? && FindItem(links, next, oldLinks, oldNext, oldLinks[x].father.value).Some?
  }

  /** The `[full name, type name]` row of `deleted_items` for older item `x`. */
  function Row(oldLinks: map<Id, Link>, oldItems: map<Id, DocItem>, x: Id): (string, string)
    requires Upward(oldLinks) && oldLinks.Keys <= oldItems.Keys && x in oldLinks
  {
    (FullName(oldLinks, oldItems, x), TypeName(oldItems[x].itemType))
  }

  /** `Topmost` as a total predicate on ids, for the report below. */
  ghost function TopOf(links: map<Id, Link>, next: nat, oldLinks: map<Id, Link>, oldNext: nat): Id -> bool
  {
    x => Tree(links, next) && Tree(oldLinks, oldNext) && x in oldLinks && Topmost(links, next, oldLinks, oldNext, x)
  }

  /** The rows reported for the items of `s` that `top` holds for, in the order of `s`. */
  ghost function Deleted(oldLinks: map<Id, Link>, oldItems: map<Id, DocItem>, s: seq<Id>, top: Id -> bool): seq<(string, string)>
    requires Upward(oldLinks) && oldLinks.Keys <= oldItems.Keys
    requires forall k :: 0 <= k < |s| ==> s[k] in oldLinks
    decreases |s|
  {
    if |s| == 0 then []
    else
      var x := s[|s| - 1];
      Deleted(oldLinks, oldItems, s[..|s| - 1], top) + (if top(x) then [Row(oldLinks, oldItems, x)] else [])
  }

  /** Exactly the items of `s` that `top` holds for are reported, in order and once each. */
  lemma {:induction false} DeletedMeaning(oldLinks: map<Id, Link>, oldItems: map<Id, DocItem>, s: seq<Id>, top: Id -> bool)
    requires Upward(oldLinks) && oldLinks.Keys <= oldItems.Keys
    requires forall k :: 0 <= k < |s| ==> s[k] in oldLinks
    ensures var r := Deleted(oldLinks, oldItems, s, top);
            |r| <= |s|
            && (forall x :: x in s && top(x) ==> Row(oldLinks, oldItems, x) in r)
            && (forall e :: e in r ==> exists x :: x in s && top(x) && e == Row(oldLinks, oldItems, x))
    decreases |s|
  {
    if |s| > 0 {
      var init := s[..|s| - 1];
      DeletedMeaning(oldLinks, oldItems, init, top);
      assert s == init + [s[|s| - 1]];
    }
  }

  /** Every older item without a counterpart lies in the subtree of a reported one. */
  lemma {:induction false} UnmatchedBelowTopmost(links: map<Id, Link>, next: nat, oldLinks: map<Id, Link>, oldNext: nat, x: Id)
    returns (a: Id)
    requires Tree(links, next) && Tree(oldLinks, oldNext) && x in oldLinks
    requires FindItem(links, next, oldLinks, oldNext, x).None?
    ensures a in oldLinks && a in PathTo(oldLinks, x) && Topmost(links, next, oldLinks, oldNext, a)
    decreases x
  {
    var f := oldLinks[x].father.value;
    if FindItem(links, next, oldLinks, oldNext, f).Some? {
      a := x;
    } else {
      a := UnmatchedBelowTopmost(links, next, oldLinks, oldNext, f);
      assert PathTo(oldLinks, x) == PathTo(oldLinks, f) + [x];
    }
  }

  /** `m` with every item that goes back to an older item carried over. */
  ghost function Inherited(m: map<Id, DocItem>, oldItems: map<Id, DocItem>, back: map<Id, Id>): (r: map<Id, DocItem>)
    requires forall y :: y in back ==> back[y] in oldItems
    ensures r.Keys == m.Keys
  {
    map y | y in m :: if y in back then Inherit(m[y], oldItems[back[y]]) else m[y]
  }

  lemma InheritedAll(m: map<Id, DocItem>, oldItems: map<Id, DocItem>, back: map<Id, Id>, done: set<Id>)
    requires forall y :: y in back ==> back[y] in oldItems && back[y] in done
    ensures InheritedWithin(m, oldItems, back, done) == Inherited(m, oldItems, back)
  {
  }

  /** The state `travel` has reached after the first `k` items of the pre-order `t`. */
  ghost predicate CarriedUpTo(links: map<Id, Link>, next: nat, oldLinks: map<Id, Link>, oldNext: nat,
                              m: map<Id, DocItem>, oldItems: map<Id, DocItem>, back: map<Id, Id>,
                              t: seq<Id>, k: nat, done: set<Id>, cur: map<Id, DocItem>, deleted: seq<(string, string)>)
    requires Upward(oldLinks) && oldLinks.Keys <= oldItems.Keys
    requires forall y :: y in back ==> back[y] in oldItems
    requires k <= |t| && forall j :: 0 <= j < |t| ==> t[j] in oldLinks
  {
    (forall z :: z in done <==> z in t[..k])
    && cur == InheritedWithin(m, oldItems, back, done)
    && deleted == Deleted(oldLinks, oldItems, t[..k], TopOf(links, next, oldLinks, oldNext))
    && forall y :: y in back && y in m && back[y] in done ==> !(CodeOf(oldItems[back[y]]).Some? && CodeOf(m[y]).None?)
  }

  /** The report after one more item of the pre-order gains that item's row exactly when `top` holds for it. */
  lemma DeletedSnoc(oldLinks: map<Id, Link>, oldItems: map<Id, DocItem>, t: seq<Id>, k: nat, top: Id -> bool)
    requires Upward(oldLinks) && oldLinks.Keys <= oldItems.Keys
    requires k < |t| && forall j :: 0 <= j < |t| ==> t[j] in oldLinks
    ensures Deleted(oldLinks, oldItems, t[..k + 1], top)
            == Deleted(oldLinks, oldItems, t[..k], top) + (if top(t[k]) then [Row(oldLinks, oldItems, t[k])] else [])
  {
    assert t[..k + 1][..k] == t[..k];
  }

  /** No clash among the older items taken so far, one more included. */
  lemma NoClashSnoc(m: map<Id, DocItem>, oldItems: map<Id, DocItem>, back: map<Id, Id>, done: set<Id>, x: Id)
    requires forall y :: y in back ==> back[y] in oldItems
    requires forall y :: y in back && y in m && back[y] in done ==> !(CodeOf(oldItems[back[y]]).Some? && CodeOf(m[y]).None?)
    requires forall y :: y in back && y in m && back[y] == x ==> !(CodeOf(oldItems[x]).Some? && CodeOf(m[y]).None?)
    ensures forall y :: y in back && y in m && back[y] in done + {x} ==> !(CodeOf(oldItems[back[y]]).Some? && CodeOf(m[y]).None?)
  {
  }

  /** The older items taken so far are the first `k` of the pre-order, none of them `t[k]`. */
  lemma DoneSnoc(t: seq<Id>, k: nat, done: set<Id>)
    requires k < |t| && NoDup(t) && forall z :: z in done <==> z in t[..k]
    ensures t[k] !in done && forall z :: z in done + {t[k]} <==> z in t[..k + 1]
  {
    assert t[..k + 1] == t[..k] + [t[k]];
    assert forall j :: 0 <= j < k ==> t[..k][j] != t[k];
  }

  /** What the pass needs to know of `BackMap`: it is the inverse of `find_item`. */
  ghost predicate Inverse(links: map<Id, Link>, next: nat, oldLinks: map<Id, Link>, oldNext: nat, back: map<Id, Id>)
    requires Tree(links, next) && Tree(oldLinks, oldNext)
  {
    && (forall y :: y in back ==> y in links && back[y] in oldLinks
                                  && FindItem(links, next, oldLinks, oldNext, back[y]) == Some(y))
    && forall x :: x in oldLinks && FindItem(links, next, oldLinks, oldNext, x).Some? ==>
         var y := FindItem(links, next, oldLinks, oldNext, x).value; y in back && back[y] == x
  }

  lemma BackInverse(links: map<Id, Link>, next: nat, oldLinks: map<Id, Link>, oldNext: nat)
    requires Tree(links, next) && Tree(oldLinks, oldNext)
    ensures Inverse(links, next, oldLinks, oldNext, BackMap(links, next, oldLinks, oldNext))
  {
    var back := BackMap(links, next, oldLinks, oldNext);
    forall y | y in back ensures FindItem(links, next, oldLinks, oldNext, back[y]) == Some(y) {
      FindItemBack(links, next, oldLinks, oldNext, back[y], y);
    }
    forall x | x in oldLinks && FindItem(links, next, oldLinks, oldNext, x).Some?
      ensures var y := FindItem(links, next, oldLinks, oldNext, x).value; y in back && back[y] == x
    {
      FindItemBack(links, next, oldLinks, oldNext, x, FindItem(links, next, oldLinks, oldNext, x).value);
    }
  }

  /** The state before the first item. */
  lemma CarriedStart(links: map<Id, Link>, next: nat, oldLinks: map<Id, Link>, oldNext: nat,
                     m: map<Id, DocItem>, oldItems: map<Id, DocItem>, back: map<Id, Id>, t: seq<Id>)
    requires Upward(oldLinks) && oldLinks.Keys <= oldItems.Keys
    requires forall y :: y in back ==> back[y] in oldItems
    requires forall j :: 0 <= j < |t| ==> t[j] in oldLinks
    ensures CarriedUpTo(links, next, oldLinks, oldNext, m, oldItems, back, t, 0, {}, m, [])
  {
    assert InheritedWithin(m, oldItems, back, {}) == m;
  }

  /** The state after one more item, from its four parts. */
  lemma CarriedStep(links: map<Id, Link>, next: nat, oldLinks: map<Id, Link>, oldNext: nat,
                    m: map<Id, DocItem>, oldItems: map<Id, DocItem>, back: map<Id, Id>,
                    t: seq<Id>, k: nat, done: set<Id>, cur: map<Id, DocItem>, deleted: seq<(string, string)>)
    requires Upward(oldLinks) && oldLinks.Keys <= oldItems.Keys
    requires forall y :: y in back ==> back[y] in oldItems
    requires k <= |t| && forall j :: 0 <= j < |t| ==> t[j] in oldLinks
    requires forall z :: z in done <==> z in t[..k]
    requires cur == InheritedWithin(m, oldItems, back, done)
    requires deleted == Deleted(oldLinks, oldItems, t[..k], TopOf(links, next, oldLinks, oldNext))
    requires forall y :: y in back && y in m && back[y] in done ==> !(CodeOf(oldItems[back[y]]).Some? && CodeOf(m[y]).None?)
    ensures CarriedUpTo(links, next, oldLinks, oldNext, m, oldItems, back, t, k, done, cur, deleted)
  {
  }

  /** One item of the pre-order: skipped, reported deleted, carried over, or the assertion fails. */
  method CarryOne(links: map<Id, Link>, next: nat, m: map<Id, DocItem>,
                  oldLinks: map<Id, Link>, oldNext: nat, oldItems: map<Id, DocItem>, ghost back: map<Id, Id>,
                  t: seq<Id>, k: nat, ghost done: set<Id>, cur: map<Id, DocItem>, deleted: seq<(string, string)>)
    returns (cur': map<Id, DocItem>, deleted': seq<(string, string)>, clash: bool)
    requires Arena(links, m, next) && Arena(oldLinks, oldItems, oldNext) && Inverse(links, next, oldLinks, oldNext, back)
    requires k < |t| && NoDup(t) && forall j :: 0 <= j < |t| ==> t[j] in oldLinks
    requires CarriedUpTo(links, next, oldLinks, oldNext, m, oldItems, back, t, k, done, cur, deleted)
    ensures clash ==> cur' == cur && deleted' == deleted && CodeClash(m, oldItems, back)
    ensures !clash ==> CarriedUpTo(links, next, oldLinks, oldNext, m, oldItems, back, t, k + 1, done + {t[k]}, cur', deleted')
  {
    var x := t[k];
    DoneSnoc(t, k, done);
    DeletedSnoc(oldLinks, oldItems, t, k, TopOf(links, next, oldLinks, oldNext));
    var reached := oldLinks[x].father.None? || FindItem(links, next, oldLinks, oldNext, oldLinks[x].father.value).Some?;
    var found := if reached then FindItem(links, next, oldLinks, oldNext, x) else None;
    assert found == FindItem(links, next, oldLinks, oldNext, x);
    assert TopOf(links, next, oldLinks, oldNext)(x) <==> reached && found.None?;
    cur', deleted', clash := cur, deleted, false;
    if found.None? {
      InheritedSkip(m, oldItems, back, done, x);
      NoClashSnoc(m, oldItems, back, done, x);
      if reached {
        deleted' := deleted + [Row(oldLinks, oldItems, x)];
      }
    } else {
      var y := found.value;
      assert y in back && back[y] == x;
      assert cur[y] == m[y];
      if CodeOf(oldItems[x]).Some? && CodeOf(cur[y]).None? {
        return cur, deleted, true;
      }
      InheritedTake(m, oldItems, back, done, x, y);
      NoClashSnoc(m, oldItems, back, done, x);
      cur' := cur[y := Inherit(cur[y], oldItems[x])];
    }
    CarriedStep(links, next, oldLinks, oldNext, m, oldItems, back, t, k + 1, done + {x}, cur', deleted');
  }

  /** Every item is either untouched or carried over from the older item it goes back to. */
  lemma InheritedWithinShape(m: map<Id, DocItem>, oldItems: map<Id, DocItem>, back: map<Id, Id>, done: set<Id>)
    requires forall y :: y in back ==> back[y] in oldItems
    ensures var r := InheritedWithin(m, oldItems, back, done);
            forall y :: y in m ==> r[y] == m[y] || (y in back && r[y] == Inherit(m[y], oldItems[back[y]]))
  {
  }

  /**
   * What `travel` leaves: every item untouched or carried over; the
   * assertion fails exactly on a clash; otherwise every counterpart has
   * taken over and the report lists the tops of the deleted subtrees in
   * pre-order.
   */
  ghost predicate CarriedOver(links: map<Id, Link>, next: nat, m: map<Id, DocItem>,
                              oldLinks: map<Id, Link>, oldNext: nat, oldItems: map<Id, DocItem>,
                              cur: map<Id, DocItem>, deleted: seq<(string, string)>, err: Option<string>)
    requires Arena(links, m, next) && Arena(oldLinks, oldItems, oldNext)
  {
    var back := BackMap(links, next, oldLinks, oldNext);
    && cur.Keys == m.Keys
    && (forall y :: y in m ==> cur[y] == m[y] || (y in back && cur[y] == Inherit(m[y], oldItems[back[y]])))
    && (err.Some? <==> CodeClash(m, oldItems, back))
    && (err.Some? ==> err.value == "AssertionError")
    && (err.None? ==> cur == Inherited(m, oldItems, back))
    && (err.None? ==> deleted == Deleted(oldLinks, oldItems, TravelList(oldLinks, oldNext, 0), TopOf(links, next, oldLinks, oldNext)))
  }

  /** After the whole pre-order: everything carried over, no clash, the full report. */
  lemma CarriedAll(links: map<Id, Link>, next: nat, m: map<Id, DocItem>,
                   oldLinks: map<Id, Link>, oldNext: nat, oldItems: map<Id, DocItem>,
                   t: seq<Id>, done: set<Id>, cur: map<Id, DocItem>, deleted: seq<(string, string)>)
    requires Arena(links, m, next) && Arena(oldLinks, oldItems, oldNext) && t == TravelList(oldLinks, oldNext, 0)
    requires CarriedUpTo(links, next, oldLinks, oldNext, m, oldItems, BackMap(links, next, oldLinks, oldNext),
                         t, |t|, done, cur, deleted)
    ensures CarriedOver(links, next, m, oldLinks, oldNext, oldItems, cur, deleted, None)
  {
    var back := BackMap(links, next, oldLinks, oldNext);
    assert t[..|t|] == t;
    BackAllVisited(links, next, m, oldLinks, oldNext, oldItems, t, done);
    InheritedAll(m, oldItems, back, done);
    InheritedWithinShape(m, oldItems, back, done);
    NoClashWhenAllDone(m, oldItems, back, done);
    assert deleted == Deleted(oldLinks, oldItems, t, TopOf(links, next, oldLinks, oldNext));
  }

  /** Once every counterpart is done without a clash, there is none. */
  lemma NoClashWhenAllDone(m: map<Id, DocItem>, oldItems: map<Id, DocItem>, back: map<Id, Id>, done: set<Id>)
    requires forall y :: y in back ==> back[y] in oldItems && back[y] in done
    requires forall y :: y in back && y in m && back[y] in done ==> !(CodeOf(oldItems[back[y]]).Some? && CodeOf(m[y]).None?)
    ensures !CodeClash(m, oldItems, back)
  {
  }

  /** The pre-order of the older tree visits every counterpart. */
  lemma BackAllVisited(links: map<Id, Link>, next: nat, m: map<Id, DocItem>,
                       oldLinks: map<Id, Link>, oldNext: nat, oldItems: map<Id, DocItem>, t: seq<Id>, done: set<Id>)
    requires Arena(links, m, next) && Arena(oldLinks, oldItems, oldNext) && t == TravelList(oldLinks, oldNext, 0)
    requires forall z :: z in done <==> z in t
    ensures var back := BackMap(links, next, oldLinks, oldNext); forall y :: y in back ==> back[y] in done
  {
    var back := BackMap(links, next, oldLinks, oldNext);
    forall y | y in back ensures back[y] in done {
      assert PathTo(oldLinks, back[y])[0] == 0;
      TravelListComplete(oldLinks, oldNext, 0, back[y]);
    }
  }

  /** Stopped at a clash part-way through the pre-order. */
  lemma CarriedClash(links: map<Id, Link>, next: nat, m: map<Id, DocItem>,
                     oldLinks: map<Id, Link>, oldNext: nat, oldItems: map<Id, DocItem>,
                     t: seq<Id>, k: nat, done: set<Id>, cur: map<Id, DocItem>, deleted: seq<(string, string)>)
    requires Arena(links, m, next) && Arena(oldLinks, oldItems, oldNext)
    requires k <= |t| && forall j :: 0 <= j < |t| ==> t[j] in oldLinks
    requires CarriedUpTo(links, next, oldLinks, oldNext, m, oldItems, BackMap(links, next, oldLinks, oldNext),
                         t, k, done, cur, deleted)
    requires CodeClash(m, oldItems, BackMap(links, next, oldLinks, oldNext))
    ensures CarriedOver(links, next, m, oldLinks, oldNext, oldItems, cur, deleted, Some("AssertionError"))
  {
    InheritedWithinShape(m, oldItems, BackMap(links, next, oldLinks, oldNext), done);
  }

  /** The pass's starting point: the pre-order without repeats, the inverse of `find_item`, nothing done yet. */
  lemma CarryReady(links: map<Id, Link>, next: nat, m: map<Id, DocItem>,
                   oldLinks: map<Id, Link>, oldNext: nat, oldItems: map<Id, DocItem>, t: seq<Id>)
    returns (back: map<Id, Id>)
    requires Arena(links, m, next) && Arena(oldLinks, oldItems, oldNext) && t == TravelList(oldLinks, oldNext, 0)
    ensures back == BackMap(links, next, oldLinks, oldNext) && Inverse(links, next, oldLinks, oldNext, back)
    ensures NoDup(t) && forall j :: 0 <= j < |t| ==> t[j] in oldLinks
    ensures CarriedUpTo(links, next, oldLinks, oldNext, m, oldItems, back, t, 0, {}, m, [])
  {
    TravelListNoDup(oldLinks, oldNext, 0);
    back := BackMap(links, next, oldLinks, oldNext);
    BackInverse(links, next, oldLinks, oldNext);
    CarriedStart(links, next, oldLinks, oldNext, m, oldItems, back, t);
  }

  /**
   * `travel` over the older tree: each item reached gets its counterpart
   * to take over its documentation and status, or is reported deleted and
   * its subtree not visited. The recursion is run here as one pass over
   * the pre-order `get_travel_list`, skipping the items whose father has
   * no counterpart (the recursion never reaches them).
   */
  method CarryOver(links: map<Id, Link>, next: nat, m: map<Id, DocItem>,
                   oldLinks: map<Id, Link>, oldNext: nat, oldItems: map<Id, DocItem>)
    returns (cur: map<Id, DocItem>, deleted: seq<(string, string)>, err: Option<string>)
    requires Arena(links, m, next) && Arena(oldLinks, oldItems, oldNext)
    ensures CarriedOver(links, next, m, oldLinks, oldNext, oldItems, cur, deleted, err)
  {
    var t := TravelList(oldLinks, oldNext, 0);
    ghost var back := CarryReady(links, next, m, oldLinks, oldNext, oldItems, t);
    ghost var done: set<Id> := {};
    cur, deleted := m, [];
    var k := 0;
    while k < |t|
      invariant 0 <= k <= |t|
      invariant CarriedUpTo(links, next, oldLinks, oldNext, m, oldItems, back, t, k, done, cur, deleted)
    {
      var clash;
      cur, deleted, clash := CarryOne(links, next, m, oldLinks, oldNext, oldItems, back, t, k, done, cur, deleted);
      if clash {
        CarriedClash(links, next, m, oldLinks, oldNext, oldItems, t, k, done, cur, deleted);
        return cur, deleted, Some("AssertionError");
      }
      done := done + {t[k]};
      k := k + 1;
    }
    CarriedAll(links, next, m, oldLinks, oldNext, oldItems, t, done, cur, deleted);
    err := None;
  }

  // ---------------------------------------------------------------------
  // travel2: statuses refreshed from the referencers (lines 715-736)
  // ---------------------------------------------------------------------

  /** The strict names of the referencers `ws`. */
  function StrictNamesOf(links: map<Id, Link>, next: nat, items: map<Id, DocItem>, ws: seq<Id>): set<string>
    requires Tree(links, next) && links.Keys <= items.Keys && forall k :: 0 <= k < |ws| ==> ws[k] in links
  {
    set k | 0 <= k < |ws| :: StrictName(links, next, items, ws[k])
  }

  /**
   * An up-to-date counterpart whose referencers are now `now` and were
   * `before`: it has lost referencers only, or gained some.
   */
  function Refresh(d: DocItem, now: set<string>, before: set<string>): (r: DocItem)
    ensures r == d.(itemStatus := r.itemStatus)
    ensures d.itemStatus != DocUpToDate || now == before ==> r == d
    ensures d.itemStatus == DocUpToDate && now < before ==> r.itemStatus == ReferencerNotExist
    ensures d.itemStatus == DocUpToDate && !(now <= before) ==> r.itemStatus == AddNewReferencer
  {
    if now != before && d.itemStatus == DocUpToDate then
      d.(itemStatus := if now <= before then ReferencerNotExist else AddNewReferencer)
    else d
  }

  /** Counterpart `d` refreshed against the referencer names recorded in older item `o`. */
  function RefreshAgainst(links: map<Id, Link>, next: nat, items: map<Id, DocItem>, d: DocItem, o: DocItem): DocItem
    requires Tree(links, next) && links.Keys <= items.Keys
    requires forall k :: 0 <= k < |d.whoReferenceMe| ==> d.whoReferenceMe[k] in links
  {
    Refresh(d, StrictNamesOf(links, next, items, d.whoReferenceMe), set s | s in o.whoReferenceMeNameList)
  }

  /** Every item that goes back to an older item refreshed against that item's recorded referencers. */
  ghost function Refreshed(links: map<Id, Link>, next: nat, items: map<Id, DocItem>,
                           oldItems: map<Id, DocItem>, back: map<Id, Id>): (r: map<Id, DocItem>)
    requires Tree(links, next) && links.Keys == items.Keys && RefsInside(items)
    requires forall y :: y in back ==> back[y] in oldItems
    ensures r.Keys == items.Keys
  {
    map y | y in items ::
      if y in back then RefreshAgainst(links, next, items, items[y], oldItems[back[y]]) else items[y]
  }

  /** `m` with the items whose older item is in `done` set to their `target`. */
  ghost function Within(m: map<Id, DocItem>, target: map<Id, DocItem>, back: map<Id, Id>, done: set<Id>)
    : (r: map<Id, DocItem>)
    requires target.Keys == m.Keys
    ensures r.Keys == m.Keys
  {
    map y | y in m :: if y in back && back[y] in done then target[y] else m[y]
  }

  lemma WithinSkip(m: map<Id, DocItem>, target: map<Id, DocItem>, back: map<Id, Id>, done: set<Id>, x: Id)
    requires target.Keys == m.Keys
    requires forall y :: y in back ==> back[y] != x
    ensures Within(m, target, back, done + {x}) == Within(m, target, back, done)
  {
  }

  lemma WithinTake(m: map<Id, DocItem>, target: map<Id, DocItem>, back: map<Id, Id>, done: set<Id>, x: Id, y: Id)
    requires target.Keys == m.Keys
    requires y in back && y in m && back[y] == x && x !in done
    requires forall z :: z in back && back[z] == x ==> z == y
    ensures Within(m, target, back, done + {x}) == Within(m, target, back, done)[y := target[y]]
  {
  }

  lemma WithinAll(m: map<Id, DocItem>, target: map<Id, DocItem>, back: map<Id, Id>, done: set<Id>)
    requires target.Keys == m.Keys
    requires forall y :: y in back ==> back[y] in done
    requires forall y :: y in m && y !in back ==> target[y] == m[y]
    ensures Within(m, target, back, done) == target
  {
  }

  /** Items that differ in their statuses only. */
  ghost predicate SameButStatus(a: map<Id, DocItem>, b: map<Id, DocItem>)
  {
    a.Keys == b.Keys && forall y :: y in a ==> b[y] == a[y].(itemStatus := b[y].itemStatus)
  }

  lemma SameButStatusNames(a: map<Id, DocItem>, b: map<Id, DocItem>)
    requires SameButStatus(a, b)
    ensures forall z :: z in a ==> z in b && a[z].objName == b[z].objName
  {
  }

  lemma SameButStatusKeeps(links: map<Id, Link>, next: nat, a: map<Id, DocItem>, b: map<Id, DocItem>)
    requires Arena(links, a, next) && SameButStatus(a, b)
    ensures Arena(links, b, next)
  {
  }

  /** A refresh changes statuses only. */
  lemma RefreshedSameButStatus(links: map<Id, Link>, next: nat, items: map<Id, DocItem>,
                               oldItems: map<Id, DocItem>, back: map<Id, Id>)
    requires Tree(links, next) && links.Keys == items.Keys && RefsInside(items)
    requires forall y :: y in back ==> back[y] in oldItems
    ensures SameButStatus(items, Refreshed(links, next, items, oldItems, back))
  {
  }

  lemma WithinSameButStatus(m: map<Id, DocItem>, target: map<Id, DocItem>, back: map<Id, Id>, done: set<Id>)
    requires target.Keys == m.Keys && SameButStatus(m, target)
    ensures SameButStatus(m, Within(m, target, back, done))
  {
  }

  lemma WithinNone(m: map<Id, DocItem>, target: map<Id, DocItem>, back: map<Id, Id>)
    requires target.Keys == m.Keys
    ensures Within(m, target, back, {}) == m
  {
  }

  /** The state `travel2` has reached after the first `k` items of the pre-order `t`. */
  ghost predicate RefreshedUpTo(items: map<Id, DocItem>, target: map<Id, DocItem>, back: map<Id, Id>,
                                t: seq<Id>, k: nat, done: set<Id>, cur: map<Id, DocItem>)
    requires target.Keys == items.Keys && k <= |t|
  {
    (forall z :: z in done <==> z in t[..k]) && cur == Within(items, target, back, done)
  }

  /** One item of the pre-order: its counterpart, if any, refreshed. */
  method RefreshOne(links: map<Id, Link>, next: nat, items: map<Id, DocItem>,
                    oldLinks: map<Id, Link>, oldNext: nat, oldItems: map<Id, DocItem>,
                    ghost back: map<Id, Id>, ghost target: map<Id, DocItem>,
                    t: seq<Id>, k: nat, ghost done: set<Id>, cur: map<Id, DocItem>)
    returns (cur': map<Id, DocItem>)
    requires Arena(links, items, next) && Arena(oldLinks, oldItems, oldNext) && RefsInside(items)
    requires Inverse(links, next, oldLinks, oldNext, back)
    requires target == Refreshed(links, next, items, oldItems, back)
    requires k < |t| && NoDup(t) && forall j :: 0 <= j < |t| ==> t[j] in oldLinks
    requires RefreshedUpTo(items, target, back, t, k, done, cur)
    ensures RefreshedUpTo(items, target, back, t, k + 1, done + {t[k]}, cur')
  {
    var x := t[k];
    DoneSnoc(t, k, done);
    var reached := oldLinks[x].father.None? || FindItem(links, next, oldLinks, oldNext, oldLinks[x].father.value).Some?;
    var found := if reached then FindItem(links, next, oldLinks, oldNext, x) else None;
    assert found == FindItem(links, next, oldLinks, oldNext, x);
    cur' := cur;
    if found.None? {
      WithinSkip(items, target, back, done, x);
    } else {
      var y := found.value;
      assert y in back && back[y] == x;
      RefreshStepValue(links, next, items, oldItems, back, done, cur, y);
      WithinTake(items, target, back, done, x, y);
      cur' := cur[y := RefreshAgainst(links, next, cur, cur[y], oldItems[x])];
    }
  }

  /** The counterpart not yet refreshed is as it was, and refreshing it against the current items gives its target. */
  lemma RefreshStepValue(links: map<Id, Link>, next: nat, items: map<Id, DocItem>, oldItems: map<Id, DocItem>,
                         back: map<Id, Id>, done: set<Id>, cur: map<Id, DocItem>, y: Id)
    requires Tree(links, next) && links.Keys == items.Keys && RefsInside(items)
    requires forall z :: z in back ==> back[z] in oldItems
    requires cur == Within(items, Refreshed(links, next, items, oldItems, back), back, done)
    requires y in back && y in items && back[y] !in done
    ensures y in cur && cur[y] == items[y] && links.Keys <= cur.Keys
    ensures forall k :: 0 <= k < |cur[y].whoReferenceMe| ==> cur[y].whoReferenceMe[k] in links
    ensures RefreshAgainst(links, next, cur, cur[y], oldItems[back[y]])
            == Refreshed(links, next, items, oldItems, back)[y]
  {
    RefreshedSameButStatus(links, next, items, oldItems, back);
    WithinSameButStatus(items, Refreshed(links, next, items, oldItems, back), back, done);
    SameButStatusNames(items, cur);
    StrictNamesFrame(links, next, items, cur, items[y].whoReferenceMe);
  }

  /** The strict names of referencers depend on the names of the items only. */
  lemma StrictNamesFrame(links: map<Id, Link>, next: nat, a: map<Id, DocItem>, b: map<Id, DocItem>, ws: seq<Id>)
    requires Tree(links, next) && links.Keys <= a.Keys && links.Keys <= b.Keys
    requires forall z :: z in links ==> a[z].objName == b[z].objName
    requires forall k :: 0 <= k < |ws| ==> ws[k] in links
    ensures StrictNamesOf(links, next, a, ws) == StrictNamesOf(links, next, b, ws)
  {
    forall k | 0 <= k < |ws| ensures StrictName(links, next, a, ws[k]) == StrictName(links, next, b, ws[k]) {
      StrictPartsFrame(links, next, a, b, ws[k]);
    }
  }

  /** The pass's starting point for `travel2`. */
  lemma RefreshReady(links: map<Id, Link>, next: nat, items: map<Id, DocItem>,
                     oldLinks: map<Id, Link>, oldNext: nat, oldItems: map<Id, DocItem>, t: seq<Id>)
    returns (back: map<Id, Id>, target: map<Id, DocItem>)
    requires Arena(links, items, next) && Arena(oldLinks, oldItems, oldNext) && RefsInside(items)
    requires t == TravelList(oldLinks, oldNext, 0)
    ensures back == BackMap(links, next, oldLinks, oldNext) && Inverse(links, next, oldLinks, oldNext, back)
    ensures target == Refreshed(links, next, items, oldItems, back)
    ensures NoDup(t) && forall j :: 0 <= j < |t| ==> t[j] in oldLinks
    ensures RefreshedUpTo(items, target, back, t, 0, {}, items)
  {
    TravelListNoDup(oldLinks, oldNext, 0);
    back := BackMap(links, next, oldLinks, oldNext);
    BackInverse(links, next, oldLinks, oldNext);
    target := Refreshed(links, next, items, oldItems, back);
    WithinNone(items, target, back);
  }

  /** After the whole pre-order every counterpart is refreshed. */
  lemma RefreshedAll(links: map<Id, Link>, next: nat, items: map<Id, DocItem>,
                     oldLinks: map<Id, Link>, oldNext: nat, oldItems: map<Id, DocItem>,
                     t: seq<Id>, done: set<Id>, cur: map<Id, DocItem>)
    requires Arena(links, items, next) && Arena(oldLinks, oldItems, oldNext) && RefsInside(items)
    requires t == TravelList(oldLinks, oldNext, 0)
    requires RefreshedUpTo(items, Refreshed(links, next, items, oldItems, BackMap(links, next, oldLinks, oldNext)),
                           BackMap(links, next, oldLinks, oldNext), t, |t|, done, cur)
    ensures cur == Refreshed(links, next, items, oldItems, BackMap(links, next, oldLinks, oldNext))
  {
    var back := BackMap(links, next, oldLinks, oldNext);
    assert t[..|t|] == t;
    forall y | y in back ensures back[y] in done {
      assert PathTo(oldLinks, back[y])[0] == 0;
      TravelListComplete(oldLinks, oldNext, 0, back[y]);
    }
    WithinAll(items, Refreshed(links, next, items, oldItems, back), back, done);
  }

  /**
   * `travel2` over the older tree: every counterpart that was up to date
   * and whose set of referencers' strict names differs from the recorded
   * one is marked. Run as one pass over the pre-order, like `travel`.
   */
  method RefreshStatuses(links: map<Id, Link>, next: nat, items: map<Id, DocItem>,
                         oldLinks: map<Id, Link>, oldNext: nat, oldItems: map<Id, DocItem>)
    returns (cur: map<Id, DocItem>)
    requires Arena(links, items, next) && Arena(oldLinks, oldItems, oldNext) && RefsInside(items)
    ensures cur == Refreshed(links, next, items, oldItems, BackMap(links, next, oldLinks, oldNext))
  {
    var t := TravelList(oldLinks, oldNext, 0);
    ghost var back, target := RefreshReady(links, next, items, oldLinks, oldNext, oldItems, t);
    ghost var done: set<Id> := {};
    cur := items;
    var k := 0;
    while k < |t|
      invariant 0 <= k <= |t|
      invariant RefreshedUpTo(items, target, back, t, k, done, cur)
    {
      cur := RefreshOne(links, next, items, oldLinks, oldNext, oldItems, back, target, t, k, done, cur);
      done := done + {t[k]};
      k := k + 1;
    }
    RefreshedAll(links, next, items, oldLinks, oldNext, oldItems, t, done, cur);
  }

  // ---------------------------------------------------------------------
  // What the merge leaves
  // ---------------------------------------------------------------------

  /** Items that differ in their documentation and statuses only. */
  ghost predicate SameButDocs(a: map<Id, DocItem>, b: map<Id, DocItem>)
  {
    a.Keys == b.Keys
    && forall y :: y in a ==> b[y] == a[y].(mdContent := b[y].mdContent, itemStatus := b[y].itemStatus)
  }

  /** Plain full names depend on the names of the items only. */
  lemma FullNameFrame(links: map<Id, Link>, a: map<Id, DocItem>, b: map<Id, DocItem>, x: Id)
    requires Upward(links) && x in links && links.Keys <= a.Keys && links.Keys <= b.Keys
    requires forall z :: z in links ==> a[z].objName == b[z].objName
    ensures FullName(links, a, x) == FullName(links, b, x)
  {
    var p := PathTo(links, x);
    if links[x].father.Some? {
      assert NamesAlong(a, p[1..]) == NamesAlong(b, p[1..]);
    }
  }

  /** Carrying over changes documentation and statuses only. */
  lemma CarriedSameButDocs(links: map<Id, Link>, next: nat, m: map<Id, DocItem>,
                           oldLinks: map<Id, Link>, oldNext: nat, oldItems: map<Id, DocItem>,
                           cur: map<Id, DocItem>, deleted: seq<(string, string)>, err: Option<string>)
    requires Arena(links, m, next) && Arena(oldLinks, oldItems, oldNext)
    requires CarriedOver(links, next, m, oldLinks, oldNext, oldItems, cur, deleted, err)
    ensures SameButDocs(m, cur)
  {
  }

  /** Items changed in documentation and statuses only keep the tree, the references, the names and the kinds. */
  lemma SameButDocsKeeps(links: map<Id, Link>, next: nat, m: map<Id, DocItem>, cur: map<Id, DocItem>)
    requires Arena(links, m, next) && SameButDocs(m, cur)
    ensures Arena(links, cur, next)
    ensures RefsInside(m) ==> RefsInside(cur)
    ensures forall f :: f in links ==> cur[f].itemType == m[f].itemType && FullName(links, cur, f) == FullName(links, m, f)
  {
    forall f | f in links ensures FullName(links, cur, f) == FullName(links, m, f) {
      FullNameFrame(links, cur, m, f);
    }
  }

  /**
   * What `load_doc_from_older_meta` needs: both trees well formed, the
   * references inside the new one, and no file of it a latest-version
   * fake file or a jump file.
   */
  ghost predicate MergeReady(links: map<Id, Link>, next: nat, m: map<Id, DocItem>,
                             oldLinks: map<Id, Link>, oldNext: nat, oldItems: map<Id, DocItem>, jumpFiles: seq<string>)
  {
    && Arena(links, m, next) && Arena(oldLinks, oldItems, oldNext) && RefsInside(m)
    && forall f :: f in links && m[f].itemType == File ==>
         !EndsWith(FullName(links, m, f), MetaInfoUtils.LatestVersionSubstring) && FullName(links, m, f) !in jumpFiles
  }

  /**
   * What `load_doc_from_older_meta` leaves: the items carried over (only
   * part-way when the assertion fails, and then nothing else happens);
   * otherwise references parsed anew on the carried items (`referenced`),
   * the statuses refreshed, and the deleted report recorded.
   */
  ghost predicate Merged(links: map<Id, Link>, next: nat, m: map<Id, DocItem>,
                         oldLinks: map<Id, Link>, oldNext: nat, oldItems: map<Id, DocItem>,
                         carried: map<Id, DocItem>, referenced: map<Id, DocItem>, final: map<Id, DocItem>,
                         deleted0: seq<(string, string)>, deleted: seq<(string, string)>, err: Option<string>)
    requires Arena(links, m, next) && Arena(oldLinks, oldItems, oldNext)
  {
    && CarriedOver(links, next, m, oldLinks, oldNext, oldItems, carried, deleted, err)
    && (err.Some? ==> final == carried && deleted == deleted0)
    && (err.None? ==> links.Keys == referenced.Keys && RefsInside(referenced)
                      && final == Refreshed(links, next, referenced, oldItems, BackMap(links, next, oldLinks, oldNext)))
  }

  lemma MergeStopped(links: map<Id, Link>, next: nat, m: map<Id, DocItem>,
                     oldLinks: map<Id, Link>, oldNext: nat, oldItems: map<Id, DocItem>,
                     carried: map<Id, DocItem>, deleted0: seq<(string, string)>, deleted: seq<(string, string)>, err: Option<string>)
    requires Arena(links, m, next) && Arena(oldLinks, oldItems, oldNext) && err.Some?
    requires CarriedOver(links, next, m, oldLinks, oldNext, oldItems, carried, deleted, err)
    ensures Merged(links, next, m, oldLinks, oldNext, oldItems, carried, carried, carried, deleted0, deleted0, err)
  {
  }

  lemma MergeDone(links: map<Id, Link>, next: nat, m: map<Id, DocItem>,
                  oldLinks: map<Id, Link>, oldNext: nat, oldItems: map<Id, DocItem>,
                  carried: map<Id, DocItem>, referenced: map<Id, DocItem>, final: map<Id, DocItem>,
                  deleted0: seq<(string, string)>, deleted: seq<(string, string)>)
    requires Arena(links, m, next) && Arena(oldLinks, oldItems, oldNext)
    requires CarriedOver(links, next, m, oldLinks, oldNext, oldItems, carried, deleted, None)
    requires links.Keys == referenced.Keys && RefsInside(referenced)
    requires final == Refreshed(links, next, referenced, oldItems, BackMap(links, next, oldLinks, oldNext))
    ensures Merged(links, next, m, oldLinks, oldNext, oldItems, carried, referenced, final, deleted0, deleted, None)
  {
  }

  /**
   * What `load_doc_from_older_meta` leaves on a valid tree: the merge of
   * `Merged`, whose reference parsing is `parse_reference`'s with the
   * object's settings.
   */
  ghost predicate MergedFrom(links: map<Id, Link>, next: nat, m: map<Id, DocItem>,
                             oldLinks: map<Id, Link>, oldNext: nat, oldItems: map<Id, DocItem>,
                             finder: Query -> seq<Hit>, repoPath: string, whiteList: Option<seq<WhiteEntry>>,
                             fakeFiles: set<string>, jumpFiles: seq<string>, deleted0: seq<(string, string)>,
                             carried: map<Id, DocItem>, referenced: map<Id, DocItem>, final: map<Id, DocItem>,
                             deleted: seq<(string, string)>, err: Option<string>)
    requires MergeReady(links, next, m, oldLinks, oldNext, oldItems, jumpFiles)
  {
    && Arena(links, final, next)
    && Merged(links, next, m, oldLinks, oldNext, oldItems, carried, referenced, final, deleted0, deleted, err)
    && (err.None? ==> Arena(links, carried, next)
                      && ReferencesParsed(links, next, carried, referenced, finder, repoPath, whiteList, fakeFiles, jumpFiles))
  }

  /**
   * What `parse_reference` leaves on `after` when it starts from `base`:
   * some new, allowed, distinct edges recorded, each of them one a hit of
   * a walked object yielded, and every edge such a hit yields present.
   */
  ghost predicate ReferencesParsed(links: map<Id, Link>, next: nat, base: map<Id, DocItem>, after: map<Id, DocItem>,
                                   finder: Query -> seq<Hit>, repoPath: string, whiteList: Option<seq<WhiteEntry>>,
                                   fakeFiles: set<string>, jumpFiles: seq<string>)
    requires Arena(links, base, next)
  {
    var files := AllFiles(links, base, next);
    (exists es :: Recorded(base, after, es)
                  && FromYield(es, 0, FilesYield(links, base, next, files, |files|, finder, repoPath,
                                                 WhiteFileNames(whiteList), WhiteObjNames(whiteList), fakeFiles, jumpFiles)))
    && FilesDone(links, base, next, after, files, |files|, finder, repoPath,
                 WhiteFileNames(whiteList), WhiteObjNames(whiteList), fakeFiles, jumpFiles)
  }
}
