// The build of the documentation tree from the project hierarchy JSON
// (`MetaInfo.from_project_hierarchy_json`): for each file entry, the
// directory chain and the file item are created where missing; the file's
// records become items, each attached under the record of smallest span
// that contains it (or under the file) with a key made unique by a `_k`
// suffix; then `change_items` settles the kinds of the records.
//
// Python builds the tree out of objects; here it is the arena of
// `DocTree`. A record item gets its id from its span, so that a record
// that contains another (and spans more lines) has the smaller id, as the
// arena wants of a father and its child.
module DocBuild {
  import opened Wrappers
  import opened PyStrings
  import opened DocTree
  import opened DocSubtree
  import opened DocWalks
  import opened DocMeta

  /** A tree under construction: the arena's links, items and next free id. */
  datatype Forest = Forest(links: map<Id, Link>, items: map<Id, DocItem>, next: nat)

  ghost predicate Sound(f: Forest)
  {
    Arena(f.links, f.items, f.next)
  }

  // ---------------------------------------------------------------------
  // Growing the tree one child at a time
  // ---------------------------------------------------------------------

  /** `Tree`, except that the items in `pending` are not listed by their father yet. */
  ghost predicate Growing(links: map<Id, Link>, next: nat, pending: set<Id>)
  {
    Upward(links) && Walkable(links, next) && BackLinked(links) && Distinct(links)
    && ListedBut(links, pending) && Unlisted(links, pending)
  }

  /** Every listed child names its father. */
  ghost predicate BackLinked(links: map<Id, Link>)
  {
    forall x, k :: x in links && 0 <= k < |links[x].children| ==>
      links[x].children[k].1 in links && links[links[x].children[k].1].father == Some(x)
  }

  ghost predicate Distinct(links: map<Id, Link>)
  {
    forall x :: x in links ==> KeysDistinct(links[x].children) && IdsDistinct(links[x].children)
  }

  /** Every item but the root and the pending ones is listed by its father. */
  ghost predicate ListedBut(links: map<Id, Link>, pending: set<Id>)
    requires Upward(links)
  {
    forall x {:trigger ChildIndex(links[links[x].father.value].children, x)} :: x in links && x != 0 && x !in pending ==>
      ChildIndex(links[links[x].father.value].children, x) < |links[links[x].father.value].children|
  }

  /** No pending item is listed anywhere. */
  ghost predicate Unlisted(links: map<Id, Link>, pending: set<Id>)
  {
    forall x, k :: x in links && 0 <= k < |links[x].children| ==> links[x].children[k].1 !in pending
  }

  lemma GrowingTree(links: map<Id, Link>, next: nat)
    ensures Growing(links, next, {}) <==> Tree(links, next)
  {
  }

  /** `key in children.keys()`. */
  predicate HasKey(cs: seq<(string, Id)>, key: string)
  {
    KeyIndex(cs, key) < |cs|
  }

  /** A new item `x` hangs under `p` with no children and is not listed yet. */
  function Staged(links: map<Id, Link>, x: Id, p: Id): map<Id, Link>
  {
    links[x := Link(Some(p), [])]
  }

  /** `p.children[key] = x` together with `x.father = p`. */
  function Listed(links: map<Id, Link>, x: Id, p: Id, key: string): map<Id, Link>
    requires x in links && p in links
  {
    links[x := links[x].(father := Some(p))][p := links[p].(children := links[p].children + [(key, x)])]
  }

  lemma ChildIndexPrefix(cs: seq<(string, Id)>, cs': seq<(string, Id)>, y: Id)
    requires cs <= cs' && ChildIndex(cs, y) < |cs|
    ensures ChildIndex(cs', y) == ChildIndex(cs, y)
  {
    var k := ChildIndex(cs, y);
    assert cs'[k] == cs[k];
  }

  lemma {:induction false} ChildIndexLast(cs: seq<(string, Id)>, key: string, x: Id)
    requires forall j :: 0 <= j < |cs| ==> cs[j].1 != x
    ensures ChildIndex(cs + [(key, x)], x) == |cs|
    decreases |cs|
  {
    if |cs| > 0 {
      var cs' := cs + [(key, x)];
      assert cs'[0] == cs[0];
      assert cs'[1..] == cs[1..] + [(key, x)];
      ChildIndexLast(cs[1..], key, x);
    }
  }

  lemma StagedAt(links: map<Id, Link>, x: Id, p: Id, y: Id)
    ensures y in Staged(links, x, p) <==> y in links || y == x
    ensures y in Staged(links, x, p) ==> Staged(links, x, p)[y] == if y == x then Link(Some(p), []) else links[y]
  {
  }

  lemma StageGrowing(links: map<Id, Link>, next: nat, pending: set<Id>, x: Id, p: Id)
    requires Growing(links, next, pending) && x !in links && p in links && p < x < next
    ensures Growing(Staged(links, x, p), next, pending + {x})
  {
    var s := Staged(links, x, p);
    forall y | y in s
      ensures s[y] == if y == x then Link(Some(p), []) else links[y]
    {
      StagedAt(links, x, p, y);
    }
    StageLinked(links, pending, x, p, s);
    StageListed(links, pending, x, p, s);
  }

  lemma StageLinked(links: map<Id, Link>, pending: set<Id>, x: Id, p: Id, s: map<Id, Link>)
    requires BackLinked(links) && Unlisted(links, pending) && x !in links
    requires s.Keys == links.Keys + {x} && s[x] == Link(Some(p), [])
    requires forall y :: y in links ==> s[y] == links[y]
    ensures BackLinked(s) && Unlisted(s, pending + {x})
  {
    forall y, k | y in s && 0 <= k < |s[y].children|
      ensures s[y].children[k].1 in s && s[s[y].children[k].1].father == Some(y)
      ensures s[y].children[k].1 !in pending + {x}
    {
      assert y in links;
      assert links[y].children[k].1 in links;
    }
  }

  lemma StageListed(links: map<Id, Link>, pending: set<Id>, x: Id, p: Id, s: map<Id, Link>)
    requires Upward(links) && Upward(s) && ListedBut(links, pending) && x !in links
    requires s.Keys == links.Keys + {x}
    requires forall y :: y in links ==> s[y] == links[y]
    ensures ListedBut(s, pending + {x})
  {
    forall y | y in s && y != 0 && y !in pending + {x}
      ensures ChildIndex(s[s[y].father.value].children, y) < |s[s[y].father.value].children|
    {
      assert links[y].father.value in links;
    }
  }

  lemma ListedAt(links: map<Id, Link>, x: Id, p: Id, key: string, y: Id)
    requires x in links && p in links && x != p
    ensures y in Listed(links, x, p, key) <==> y in links
    ensures y in links ==>
              Listed(links, x, p, key)[y]
              == (if y == p then links[p].(children := links[p].children + [(key, x)])
                  else if y == x then links[x].(father := Some(p))
                  else links[y])
  {
  }

  lemma ListGrowing(links: map<Id, Link>, next: nat, pending: set<Id>, x: Id, p: Id, key: string)
    requires Growing(links, next, pending) && x in pending && x in links && p in links && p < x
    requires !HasKey(links[p].children, key)
    ensures Growing(Listed(links, x, p, key), next, pending - {x})
  {
    var cs := links[p].children;
    var l := Listed(links, x, p, key);
    forall y | y in links
      ensures y in l && l[y] == if y == p then links[p].(children := cs + [(key, x)])
                                else if y == x then links[x].(father := Some(p))
                                else links[y]
    {
      ListedAt(links, x, p, key, y);
    }
    assert l.Keys == links.Keys;
    assert forall j :: 0 <= j < |cs| ==> cs[j].1 != x;
    ListUpward(links, next, x, p, key, l);
    ListLinked(links, pending, x, p, key, l);
    ListDistinct(links, x, p, key, l);
    ListListed(links, pending, x, p, key, l);
  }

  lemma ListUpward(links: map<Id, Link>, next: nat, x: Id, p: Id, key: string, l: map<Id, Link>)
    requires Upward(links) && Walkable(links, next) && x in links && p in links && p < x
    requires l.Keys == links.Keys
    requires forall y :: y in links ==> l[y] == if y == p then links[p].(children := links[p].children + [(key, x)])
                                              else if y == x then links[x].(father := Some(p))
                                              else links[y]
    ensures Upward(l) && Walkable(l, next)
  {
    forall y, k | y in l && 0 <= k < |l[y].children|
      ensures l[y].children[k].1 in l && y < l[y].children[k].1
    {
      if y != p || k < |links[p].children| {
        assert l[y].children[k] == links[y].children[k];
      }
    }
  }

  lemma ListLinked(links: map<Id, Link>, pending: set<Id>, x: Id, p: Id, key: string, l: map<Id, Link>)
    requires BackLinked(links) && Unlisted(links, pending) && x in pending && x in links && p in links && x != p
    requires l.Keys == links.Keys
    requires forall y :: y in links ==> l[y] == if y == p then links[p].(children := links[p].children + [(key, x)])
                                              else if y == x then links[x].(father := Some(p))
                                              else links[y]
    ensures BackLinked(l) && Unlisted(l, pending - {x})
  {
    var cs := links[p].children;
    forall y, k | y in l && 0 <= k < |l[y].children|
      ensures l[y].children[k].1 in l && l[l[y].children[k].1].father == Some(y)
      ensures l[y].children[k].1 !in pending - {x}
    {
      if y != p || k < |cs| {
        assert l[y].children[k] == links[y].children[k];
        assert links[y].children[k].1 != x;
      }
    }
  }

  lemma ListDistinct(links: map<Id, Link>, x: Id, p: Id, key: string, l: map<Id, Link>)
    requires Distinct(links) && p in links && !HasKey(links[p].children, key)
    requires forall j :: 0 <= j < |links[p].children| ==> links[p].children[j].1 != x
    requires l.Keys == links.Keys && l[p].children == links[p].children + [(key, x)]
    requires forall y :: y in links && y != p ==> l[y].children == links[y].children
    ensures Distinct(l)
  {
    var cs := links[p].children;
    assert KeysDistinct(l[p].children) && IdsDistinct(l[p].children) by {
      assert forall j :: 0 <= j < |cs| ==> cs[j].0 != key;
      assert forall j :: 0 <= j < |cs| ==> l[p].children[j] == cs[j];
    }
  }

  lemma ListListed(links: map<Id, Link>, pending: set<Id>, x: Id, p: Id, key: string, l: map<Id, Link>)
    requires Upward(links) && Upward(l) && ListedBut(links, pending) && x in links && p in links && x != p
    requires forall j :: 0 <= j < |links[p].children| ==> links[p].children[j].1 != x
    requires l.Keys == links.Keys
    requires forall y :: y in links ==> l[y] == if y == p then links[p].(children := links[p].children + [(key, x)])
                                              else if y == x then links[x].(father := Some(p))
                                              else links[y]
    ensures ListedBut(l, pending - {x})
  {
    var cs := links[p].children;
    forall y | y in l && y != 0 && y !in pending - {x}
      ensures ChildIndex(l[l[y].father.value].children, y) < |l[l[y].father.value].children|
    {
      if y == x {
        ChildIndexLast(cs, key, x);
      } else {
        var f := links[y].father.value;
        if f == p {
          ChildIndexPrefix(cs, cs + [(key, x)], y);
        } else {
          assert l[f].children == links[f].children;
        }
      }
    }
  }

  // ---------------------------------------------------------------------
  // What a later step keeps of an earlier one
  // ---------------------------------------------------------------------

  /** No father changes and every children dict only grows at its end. */
  ghost predicate Extends(links: map<Id, Link>, links': map<Id, Link>)
  {
    forall x :: x in links ==> x in links' && links'[x].father == links[x].father && links[x].children <= links'[x].children
  }

  /** Names and contents stay, and a file stays a file. */
  ghost predicate ItemsKept(items: map<Id, DocItem>, items': map<Id, DocItem>)
  {
    forall x :: x in items ==>
      x in items' && items'[x].content == items[x].content && items'[x].objName == items[x].objName
      && (items[x].itemType == File ==> items'[x].itemType == File)
  }

  /** A grown tree lists every old item under the same keys. */
  lemma {:induction false} KeyPathKept(links: map<Id, Link>, next: nat, links': map<Id, Link>, next': nat, y: Id)
    requires Tree(links, next) && Tree(links', next') && Extends(links, links') && y in links
    ensures KeyPath(links', next', y) == KeyPath(links, next, y)
    decreases y
  {
    if links[y].father.Some? {
      var f := links[y].father.value;
      KeyPathKept(links, next, links', next', f);
      ChildIndexPrefix(links[f].children, links'[f].children, y);
    }
  }

  /** `find` keeps finding what it found before the tree grew. */
  lemma FindKept(links: map<Id, Link>, next: nat, links': map<Id, Link>, next': nat, path: seq<string>, y: Id)
    requires Tree(links, next) && Tree(links', next') && Extends(links, links') && y in links
    requires FindPath(links, next, path) == Some(y)
    ensures FindPath(links', next', path) == Some(y)
  {
    FindKeyPath(links, next, y, path);
    KeyPathKept(links, next, links', next', y);
    FindKeyPath(links', next', y, path);
  }

  // ---------------------------------------------------------------------
  // The directory chain and the file item
  // ---------------------------------------------------------------------

  /** A new child `f.next` of `at`, listed under `key`. */
  function AddChild(f: Forest, at: Id, key: string, d: DocItem): (g: Forest)
    requires at in f.links && f.next !in f.links
  {
    Forest(Listed(Staged(f.links, f.next, at), f.next, at, key), f.items[f.next := d], f.next + 1)
  }

  lemma AddChildSound(f: Forest, at: Id, key: string, d: DocItem)
    requires Sound(f) && at in f.links && !HasKey(f.links[at].children, key)
    ensures f.next !in f.links
    ensures var g := AddChild(f, at, key, d);
            Sound(g) && Extends(f.links, g.links) && f.next in g.links
            && KeyPath(g.links, g.next, f.next) == KeyPath(f.links, f.next, at) + [key]
  {
    var x := f.next;
    AddChildTree(f, at, key, d);
    var g := AddChild(f, at, key, d);
    AddChildExtends(f.links, x, at, key);
    KeyPathKept(f.links, f.next, g.links, g.next, at);
    ChildIndexLast(f.links[at].children, key, x);
  }

  lemma AddChildTree(f: Forest, at: Id, key: string, d: DocItem)
    requires Sound(f) && at in f.links && !HasKey(f.links[at].children, key)
    ensures f.next !in f.links && Sound(AddChild(f, at, key, d))
  {
    var x := f.next;
    assert at < x;
    var s := Staged(f.links, x, at);
    StageGrowing(f.links, x + 1, {}, x, at);
    assert s[at] == f.links[at];
    ListGrowing(s, x + 1, {x}, x, at, key);
    assert {x} - {x} == {};
  }

  lemma AddChildExtends(links: map<Id, Link>, x: Id, at: Id, key: string)
    requires at in links && x !in links
    ensures Extends(links, Listed(Staged(links, x, at), x, at, key))
  {
    var l := Listed(Staged(links, x, at), x, at, key);
    forall y | y in links
      ensures y in l && l[y].father == links[y].father && links[y].children <= l[y].children
    {
      if y == at {
        assert l[y].children == links[y].children + [(key, x)];
      } else {
        assert l[y] == links[y];
      }
    }
  }

  /**
   * The walk of `from_project_hierarchy_json` down the path's segments: a
   * missing directory is created on the way, and the file at the end if it
   * is missing. `node` is what `find(path)` then returns.
   */
  method InsertChain(f: Forest, segs: seq<string>) returns (g: Forest, node: Id)
    requires Sound(f) && |segs| >= 1
    ensures Chained(f, g, node, segs)
  {
    g := f;
    var now: Id := 0;
    var pos := 0;
    assert segs[..0] == [];
    while pos < |segs| - 1
      invariant 0 <= pos <= |segs| - 1
      invariant ChainAt(f, g, now, segs[..pos])
    {
      SliceSnoc(segs, pos);
      g, now := ChainStep(f, g, now, segs[pos], segs[..pos], NewItem(Dir, segs[pos]));
      pos := pos + 1;
    }
    SliceSnoc(segs, pos);
    assert segs[..pos + 1] == segs;
    g, node := ChainStep(f, g, now, segs[|segs| - 1], segs[..pos], NewItem(File, segs[|segs| - 1]));
    ChainClosed(f, g, node, segs);
  }

  lemma SliceSnoc<T>(s: seq<T>, i: nat)
    requires i < |s|
    ensures s[..i + 1] == s[..i] + [s[i]]
  {
  }

  /**
   * After the walk: the old tree grew only along the path, `find(path)`
   * reaches `node`, and `node` is either an old item (nothing was created)
   * or the new file item, the last one created.
   */
  ghost predicate Chained(f: Forest, g: Forest, node: Id, segs: seq<string>)
  {
    |segs| >= 1 && Sound(f) && Sound(g) && Extends(f.links, g.links) && f.next <= g.next
    && (forall y :: y in f.items ==> y in g.items && g.items[y] == f.items[y]) && NewBare(f, g)
    && node in g.links && FindPath(g.links, g.next, segs) == Some(node)
    && (node in f.links ==> g == f)
    && (node !in f.links ==> g.items[node] == NewItem(File, segs[|segs| - 1]) && node + 1 == g.next)
  }

  lemma ChainClosed(f: Forest, g: Forest, node: Id, segs: seq<string>)
    requires |segs| >= 1 && Sound(f) && ChainAt(f, g, node, segs)
    requires node !in f.links ==> g.items[node] == NewItem(File, segs[|segs| - 1])
    ensures Chained(f, g, node, segs)
  {
    FindKeyPath(g.links, g.next, node, segs);
  }

  /** The walk so far reached `now` by the keys `prefix`; whatever it created lies on its way and ends at `now`. */
  ghost predicate ChainAt(f: Forest, g: Forest, now: Id, prefix: seq<string>)
  {
    Sound(g) && Extends(f.links, g.links) && f.next <= g.next
    && (forall y :: y in f.items ==> y in g.items && g.items[y] == f.items[y]) && NewBare(f, g)
    && now in g.links && KeyPath(g.links, g.next, now) == prefix
    && (now in f.links ==> g == f)
    && (now !in f.links ==> g.links[now].children == [] && now + 1 == g.next)
  }

  /** The items `g` adds to `f` carry no record. */
  ghost predicate NewBare(f: Forest, g: Forest)
  {
    forall y :: y in g.items && y !in f.items ==> g.items[y].content.None?
  }

  /** One step down the path: the child under `key`, created as `d` when missing. */
  method ChainStep(f: Forest, g: Forest, now: Id, key: string, ghost prefix: seq<string>, d: DocItem)
    returns (g': Forest, now': Id)
    requires ChainAt(f, g, now, prefix) && d.content.None?
    ensures ChainAt(f, g', now', prefix + [key])
    ensures now' !in f.links ==> g'.items[now'] == d
  {
    var c := Lookup(g.links[now].children, key);
    if c.None? {
      g' := AddChild(g, now, key, d);
      AddChildStep(f, g, now, key, d);
      NewBareStep(f, g, now, key, d);
      now' := g.next;
    } else {
      LookupKeyOf(g.links, g.next, now, key);
      g', now' := g, c.value;
    }
  }

  /** A new child without a record keeps the added items bare. */
  lemma NewBareStep(f: Forest, g: Forest, at: Id, key: string, d: DocItem)
    requires NewBare(f, g) && at in g.links && g.next !in g.links && d.content.None?
    ensures NewBare(f, AddChild(g, at, key, d))
  {
  }

  /** One new child on the chain: what the chain's loop keeps. */
  lemma AddChildStep(f: Forest, g: Forest, at: Id, key: string, d: DocItem)
    requires Sound(g) && Extends(f.links, g.links) && f.next <= g.next
    requires forall y :: y in f.items ==> y in g.items && g.items[y] == f.items[y]
    requires at in g.links && !HasKey(g.links[at].children, key)
    ensures g.next !in g.links && g.next !in f.links
    ensures var h := AddChild(g, at, key, d);
            Sound(h) && Extends(f.links, h.links) && f.next <= h.next && g.next + 1 == h.next
            && (forall y :: y in f.items ==> y in h.items && h.items[y] == f.items[y])
            && g.next in h.links && h.links[g.next].children == [] && h.items[g.next] == d
            && KeyPath(h.links, h.next, g.next) == KeyPath(g.links, g.next, at) + [key]
  {
    AddChildSound(g, at, key, d);
    var h := AddChild(g, at, key, d);
    ExtendsTrans(f.links, g.links, h.links);
    AddChildItems(f, g, at, key, d);
  }

  /** The items and the new link `AddChild` leaves. */
  lemma AddChildItems(f: Forest, g: Forest, at: Id, key: string, d: DocItem)
    requires forall y :: y in f.items ==> y in g.items && g.items[y] == f.items[y]
    requires at in g.links && g.next !in g.links && g.next !in g.items && at != g.next
    ensures var h := AddChild(g, at, key, d);
            (forall y :: y in f.items ==> y in h.items && h.items[y] == f.items[y])
            && g.next + 1 == h.next && g.next in h.links && h.links[g.next].children == [] && h.items[g.next] == d
  {
  }

  lemma ExtendsTrans(a: map<Id, Link>, b: map<Id, Link>, c: map<Id, Link>)
    requires Extends(a, b) && Extends(b, c)
    ensures Extends(a, c)
  {
    forall x | x in a
      ensures x in c && c[x].father == a[x].father && a[x].children <= c[x].children
    {
      assert a[x].children <= b[x].children <= c[x].children;
    }
  }

  /** Where the walk ends relates to what `find` gave before it: the same item, or a new file. */
  lemma ChainEnd(f: Forest, g: Forest, segs: seq<string>, node: Id)
    requires Sound(f) && Sound(g) && Extends(f.links, g.links)
    requires node in g.links && FindPath(g.links, g.next, segs) == Some(node)
    ensures FindPath(f.links, f.next, segs) == Some(node) <==> node in f.links
  {
    if node in f.links {
      FindKeyPath(g.links, g.next, node, segs);
      KeyPathKept(f.links, f.next, g.links, g.next, node);
      FindKeyPath(f.links, f.next, node, segs);
    }
    var before := FindPath(f.links, f.next, segs);
    if before.Some? {
      FindKept(f.links, f.next, g.links, g.next, segs, before.value);
    }
  }

  // ---------------------------------------------------------------------
  // The father of a record: the containment rule
  // ---------------------------------------------------------------------

  function Span(r: Record): int
  {
    r.codeEndLine - r.codeStartLine
  }

  /** `code_contain(item, other_item)`: `other`'s lines hold `item`'s and are not the same range. */
  predicate CodeContain(item: Record, other: Record)
  {
    !(other.codeEndLine == item.codeEndLine && other.codeStartLine == item.codeStartLine)
    && other.codeEndLine >= item.codeEndLine && other.codeStartLine <= item.codeStartLine
  }

  /** `potential_father` once the inner loop has looked at the first `k` records. */
  function FatherScan(recs: seq<Record>, i: nat, k: nat): (r: Option<nat>)
    requires i < |recs| && k <= |recs|
    ensures r.Some? ==> r.value < k
    decreases k
  {
    if k == 0 then None
    else
      var p := FatherScan(recs, i, k - 1);
      if CodeContain(recs[i], recs[k - 1]) && (p.None? || Span(recs[k - 1]) < Span(recs[p.value])) then Some(k - 1) else p
  }

  /** The index of the record that becomes the father of record `i`, or None for the file. */
  function FatherIndex(recs: seq<Record>, i: nat): (r: Option<nat>)
    requires i < |recs|
    ensures r.Some? ==> r.value < |recs|
  {
    FatherScan(recs, i, |recs|)
  }

  /** Record `j` contains record `i`, no container spans fewer lines, and no earlier one spans as few. */
  ghost predicate SmallestContainer(recs: seq<Record>, i: nat, j: nat)
    requires i < |recs| && j < |recs|
  {
    CodeContain(recs[i], recs[j])
    && (forall l :: 0 <= l < |recs| && CodeContain(recs[i], recs[l]) ==> Span(recs[j]) <= Span(recs[l]))
    && (forall l :: 0 <= l < j && CodeContain(recs[i], recs[l]) ==> Span(recs[j]) < Span(recs[l]))
  }

  lemma {:induction false} FatherScanMeaning(recs: seq<Record>, i: nat, k: nat)
    requires i < |recs| && k <= |recs|
    ensures FatherScan(recs, i, k).None? <==> forall l :: 0 <= l < k ==> !CodeContain(recs[i], recs[l])
    ensures FatherScan(recs, i, k).Some? ==>
              var j := FatherScan(recs, i, k).value;
              CodeContain(recs[i], recs[j])
              && (forall l :: 0 <= l < k && CodeContain(recs[i], recs[l]) ==> Span(recs[j]) <= Span(recs[l]))
              && (forall l :: 0 <= l < j && CodeContain(recs[i], recs[l]) ==> Span(recs[j]) < Span(recs[l]))
    decreases k
  {
    if k > 0 {
      FatherScanMeaning(recs, i, k - 1);
    }
  }

  /**
   * The containment rule: a record with no container hangs under the file;
   * otherwise its father is the record of smallest span that contains it,
   * the first in the file's order when several span as few lines. A
   * container always spans more lines than what it contains.
   */
  lemma FatherIndexMeaning(recs: seq<Record>, i: nat)
    requires i < |recs|
    ensures FatherIndex(recs, i).None? <==> forall l :: 0 <= l < |recs| ==> !CodeContain(recs[i], recs[l])
    ensures forall j :: 0 <= j < |recs| ==> (FatherIndex(recs, i) == Some(j) <==> SmallestContainer(recs, i, j))
    ensures FatherIndex(recs, i).Some? ==> Span(recs[FatherIndex(recs, i).value]) > Span(recs[i])
  {
    FatherScanMeaning(recs, i, |recs|);
  }

  /** The inner `for other_item in obj_item_list` loop for record `i`. */
  method FindFather(recs: seq<Record>, i: nat) returns (r: Option<nat>)
    requires i < |recs|
    ensures r == FatherIndex(recs, i)
  {
    r := None;
    for k := 0 to |recs|
      invariant r == FatherScan(recs, i, k)
    {
      if CodeContain(recs[i], recs[k]) && (r.None? || Span(recs[k]) < Span(recs[r.value])) {
        r := Some(k);
      }
    }
  }

  // ---------------------------------------------------------------------
  // The key of a new child: the suffix rule
  // ---------------------------------------------------------------------

  /** `child_name + f"_{k}"`. */
  function Suffixed(name: string, k: nat): string
  {
    name + "_" + NatToString(k)
  }

  function KeySet(cs: seq<(string, Id)>): set<string>
  {
    set j | 0 <= j < |cs| :: cs[j].0
  }

  lemma SuffixedInjective(name: string, a: nat, b: nat)
    requires Suffixed(name, a) == Suffixed(name, b)
    ensures a == b
  {
    assert Suffixed(name, a)[|name| + 1..] == NatToString(a);
    assert Suffixed(name, b)[|name| + 1..] == NatToString(b);
    NatToStringInjective(a, b);
  }

  /**
   * The key under which a record named `name` is attached: the name itself
   * when the father has no child under it, otherwise `name_k` for the least
   * `k` whose key is free. It never overwrites a child.
   */
  method ChildName(cs: seq<(string, Id)>, name: string) returns (key: string)
    ensures !HasKey(cs, key)
    ensures !HasKey(cs, name) ==> key == name
    ensures HasKey(cs, name) ==>
              exists k: nat :: key == Suffixed(name, k) && forall j: nat :: j < k ==> HasKey(cs, Suffixed(name, j))
  {
    key := name;
    if HasKey(cs, name) {
      var k: nat := 0;
      ghost var unused := KeySet(cs);
      while HasKey(cs, Suffixed(name, k))
        invariant unused <= KeySet(cs)
        invariant forall j: nat :: j < k ==> HasKey(cs, Suffixed(name, j))
        invariant forall t :: t in KeySet(cs) && t !in unused ==> exists j: nat :: j < k && t == Suffixed(name, j)
        decreases |unused|
      {
        var t := Suffixed(name, k);
        assert cs[KeyIndex(cs, t)].0 == t;
        if t !in unused {
          var j: nat :| j < k && t == Suffixed(name, j);
          SuffixedInjective(name, j, k);
        }
        unused := unused - {t};
        k := k + 1;
      }
      key := Suffixed(name, k);
    }
  }

  // ---------------------------------------------------------------------
  // The ids of a file's records
  // ---------------------------------------------------------------------

  function MaxSpan(recs: seq<Record>): (m: int)
    requires |recs| > 0
    ensures forall i :: 0 <= i < |recs| ==> Span(recs[i]) <= m
  {
    if |recs| == 1 then Span(recs[0])
    else
      var m := MaxSpan(recs[..|recs| - 1]);
      assert forall i :: 0 <= i < |recs| - 1 ==> recs[..|recs| - 1][i] == recs[i];
      if Span(recs[|recs| - 1]) > m then Span(recs[|recs| - 1]) else m
  }

  function MinSpan(recs: seq<Record>): (m: int)
    requires |recs| > 0
    ensures forall i :: 0 <= i < |recs| ==> m <= Span(recs[i])
  {
    if |recs| == 1 then Span(recs[0])
    else
      var m := MinSpan(recs[..|recs| - 1]);
      assert forall i :: 0 <= i < |recs| - 1 ==> recs[..|recs| - 1][i] == recs[i];
      if Span(recs[|recs| - 1]) < m then Span(recs[|recs| - 1]) else m
  }

  /** The id of record `i` when the first free id is `base`: wider records come first, then the file's order. */
  function RecordId(base: nat, recs: seq<Record>, i: nat): Id
    requires i < |recs|
  {
    base + |recs| * (MaxSpan(recs) - Span(recs[i])) + i
  }

  /** The first id free after the records. */
  function RecordsEnd(base: nat, recs: seq<Record>): nat
  {
    if |recs| == 0 then base else base + |recs| * (MaxSpan(recs) - MinSpan(recs) + 1)
  }

  lemma MulStep(n: nat, a: nat, b: nat)
    requires a < b
    ensures n * a + n <= n * b
  {
    assert n * b == n * a + n * (b - a);
    assert n * (b - a) == n * (b - a - 1) + n;
  }

  /** A record that spans more lines has the smaller id; ids are distinct and lie in [base, RecordsEnd). */
  lemma RecordIdOrder(base: nat, recs: seq<Record>, i: nat, j: nat)
    requires i < |recs| && j < |recs|
    ensures base <= RecordId(base, recs, i) < RecordsEnd(base, recs)
    ensures Span(recs[i]) < Span(recs[j]) ==> RecordId(base, recs, j) < RecordId(base, recs, i)
    ensures i != j ==> RecordId(base, recs, i) != RecordId(base, recs, j)
  {
    var n, top := |recs|, MaxSpan(recs);
    MulStep(n, top - Span(recs[i]), top - MinSpan(recs) + 1);
    if Span(recs[i]) < Span(recs[j]) {
      MulStep(n, top - Span(recs[j]), top - Span(recs[i]));
    } else if Span(recs[j]) < Span(recs[i]) {
      MulStep(n, top - Span(recs[i]), top - Span(recs[j]));
    }
  }

  /** The ids of all records, in the file's order. */
  function RecordIds(base: nat, recs: seq<Record>): (ids: seq<Id>)
    ensures |ids| == |recs| && forall i :: 0 <= i < |recs| ==> ids[i] == RecordId(base, recs, i)
  {
    seq(|recs|, i requires 0 <= i < |recs| => RecordId(base, recs, i))
  }

  /** Distinct ids in [lo, hi). */
  ghost predicate FreshIds(ids: seq<Id>, lo: nat, hi: nat)
  {
    (forall j :: 0 <= j < |ids| ==> lo <= ids[j] < hi)
    && forall j, k :: 0 <= j < |ids| && 0 <= k < |ids| && j != k ==> ids[j] != ids[k]
  }

  lemma RecordIdsFresh(base: nat, recs: seq<Record>)
    ensures FreshIds(RecordIds(base, recs), base, RecordsEnd(base, recs))
  {
    forall j, k | 0 <= j < |recs| && 0 <= k < |recs|
      ensures base <= RecordId(base, recs, j) < RecordsEnd(base, recs)
      ensures j != k ==> RecordId(base, recs, j) != RecordId(base, recs, k)
    {
      RecordIdOrder(base, recs, j, k);
    }
  }

  /** The first `i` ids. */
  function IdsBelow(ids: seq<Id>, i: nat): set<Id>
    requires i <= |ids|
  {
    set j | 0 <= j < i :: ids[j]
  }

  /** The ids from `i` on. */
  function IdsFrom(ids: seq<Id>, i: nat): set<Id>
    requires i <= |ids|
  {
    set j | i <= j < |ids| :: ids[j]
  }

  // ---------------------------------------------------------------------
  // The items of the records (the `obj_item_list` loop)
  // ---------------------------------------------------------------------

  /** The `DocItem` made of a record: its name, lines and text, and the stored status and reference names. */
  function RecordItem(rec: Record): (d: DocItem)
    ensures d.content == Some(rec) && d.objName == rec.name && d.itemType != File
  {
    NewItem(ClassFunction, rec.name).(
      content := Some(rec), mdContent := rec.mdContent,
      codeStartLine := rec.codeStartLine, codeEndLine := rec.codeEndLine,
      itemStatus := if rec.itemStatus.Some? then rec.itemStatus.value else DocHasNotBeenGenerated,
      referenceWhoNameList := if rec.referenceWho.Some? then rec.referenceWho.value else [],
      specialReferenceType := if rec.specialReferenceType.Some? then rec.specialReferenceType.value else [],
      whoReferenceMeNameList := if rec.whoReferenceMe.Some? then rec.whoReferenceMe.value else [])
  }

  /** The first `i` records have items under `ids`, each hanging under `node` for now and listed nowhere. */
  ghost predicate StagedUpTo(g: Forest, node: Id, recs: seq<Record>, ids: seq<Id>, h: Forest, i: nat)
    requires i <= |ids| == |recs|
  {
    Growing(h.links, h.next, IdsBelow(ids, i)) && StagedMaps(g, node, recs, ids, h, i)
  }

  /** What `StagedUpTo` says of the maps, apart from the shape. */
  ghost predicate StagedMaps(g: Forest, node: Id, recs: seq<Record>, ids: seq<Id>, h: Forest, i: nat)
    requires i <= |ids| == |recs|
  {
    h.links.Keys == g.links.Keys + IdsBelow(ids, i) && h.items.Keys == h.links.Keys
    && OldKept(g, h) && NewStaged(node, recs, ids, h, i)
  }

  /** The old items keep their links and fields. */
  ghost predicate OldKept(g: Forest, h: Forest)
  {
    (forall y :: y in g.links ==> y in h.links && h.links[y] == g.links[y])
    && (forall y :: y in g.items ==> y in h.items && h.items[y] == g.items[y])
  }

  /** The first `i` records have their items, hanging under `node`. */
  ghost predicate NewStaged(node: Id, recs: seq<Record>, ids: seq<Id>, h: Forest, i: nat)
    requires i <= |ids| == |recs|
  {
    forall j :: 0 <= j < i ==>
      ids[j] in h.links && ids[j] in h.items && h.links[ids[j]] == Link(Some(node), []) && h.items[ids[j]] == RecordItem(recs[j])
  }

  lemma IdsBelowStep(ids: seq<Id>, i: nat)
    requires i < |ids|
    ensures IdsBelow(ids, i + 1) == IdsBelow(ids, i) + {ids[i]}
  {
  }

  /** The item of record `i` made and hung under `node`. */
  function StageNext(h: Forest, node: Id, recs: seq<Record>, ids: seq<Id>, i: nat): Forest
    requires i < |ids| == |recs|
  {
    Forest(Staged(h.links, ids[i], node), h.items[ids[i] := RecordItem(recs[i])], h.next)
  }

  lemma StagedMapsStep(g: Forest, node: Id, recs: seq<Record>, ids: seq<Id>, h: Forest, i: nat)
    requires i < |ids| == |recs| && StagedMaps(g, node, recs, ids, h, i) && ids[i] !in h.links
    ensures StagedMaps(g, node, recs, ids, StageNext(h, node, recs, ids, i), i + 1)
  {
    var h' := StageNext(h, node, recs, ids, i);
    KeysStep(g.links.Keys, ids, i, h.links.Keys, h'.links.Keys);
    OldKeptStep(g, h, node, recs, ids, i);
    NewStagedStep(node, recs, ids, h, i);
  }

  lemma KeysStep(before: set<Id>, ids: seq<Id>, i: nat, keys: set<Id>, keys': set<Id>)
    requires i < |ids| && keys == before + IdsBelow(ids, i) && keys' == keys + {ids[i]}
    ensures keys' == before + IdsBelow(ids, i + 1)
  {
    IdsBelowStep(ids, i);
  }

  lemma OldKeptStep(g: Forest, h: Forest, node: Id, recs: seq<Record>, ids: seq<Id>, i: nat)
    requires i < |ids| == |recs| && OldKept(g, h) && ids[i] !in h.links && h.items.Keys == h.links.Keys
    ensures OldKept(g, StageNext(h, node, recs, ids, i))
  {
  }

  lemma NewStagedStep(node: Id, recs: seq<Record>, ids: seq<Id>, h: Forest, i: nat)
    requires i < |ids| == |recs| && NewStaged(node, recs, ids, h, i) && ids[i] !in h.links
    ensures NewStaged(node, recs, ids, StageNext(h, node, recs, ids, i), i + 1)
  {
    var h' := StageNext(h, node, recs, ids, i);
    forall j | 0 <= j < i + 1
      ensures ids[j] in h'.links && ids[j] in h'.items
      ensures h'.links[ids[j]] == Link(Some(node), []) && h'.items[ids[j]] == RecordItem(recs[j])
    {
      if j < i {
        assert ids[j] in h.links;
      }
    }
  }

  lemma GrowingWider(links: map<Id, Link>, next: nat, next': nat, pending: set<Id>)
    requires Growing(links, next, pending) && next <= next'
    ensures Growing(links, next', pending)
  {
  }

  lemma StagedStart(g: Forest, node: Id, recs: seq<Record>, ids: seq<Id>, end: nat)
    requires Sound(g) && |ids| == |recs| && g.next <= end
    ensures StagedUpTo(g, node, recs, ids, Forest(g.links, g.items, end), 0)
  {
    GrowingWider(g.links, g.next, end, {});
    assert IdsBelow(ids, 0) == {};
  }

  /** The loop that makes an item of every record, before any is attached; the items get the ids `ids`. */
  method StageRecords(g: Forest, node: Id, recs: seq<Record>, ids: seq<Id>, end: nat) returns (h: Forest)
    requires Sound(g) && node in g.links && |ids| == |recs| && g.next <= end && FreshIds(ids, g.next, end)
    ensures StagedUpTo(g, node, recs, ids, h, |recs|) && h.next == end
  {
    h := Forest(g.links, g.items, end);
    StagedStart(g, node, recs, ids, end);
    for i := 0 to |recs|
      invariant StagedUpTo(g, node, recs, ids, h, i) && h.next == end
    {
      h := StageOne(g, node, recs, ids, h, i);
    }
  }

  method StageOne(g: Forest, node: Id, recs: seq<Record>, ids: seq<Id>, h: Forest, i: nat) returns (h': Forest)
    requires Walkable(g.links, g.next) && node in g.links && i < |ids| == |recs| && FreshIds(ids, g.next, h.next)
    requires StagedUpTo(g, node, recs, ids, h, i)
    ensures StagedUpTo(g, node, recs, ids, h', i + 1) && h'.next == h.next
  {
    var x := ids[i];
    h' := StageNext(h, node, recs, ids, i);
    assert x !in IdsBelow(ids, i);
    assert x !in h.links;
    StageGrowing(h.links, h.next, IdsBelow(ids, i), x, node);
    IdsBelowStep(ids, i);
    StagedMapsStep(g, node, recs, ids, h, i);
  }

  // ---------------------------------------------------------------------
  // Attaching the records (the `for item in obj_item_list` loop)
  // ---------------------------------------------------------------------

  /** A record that spans more lines than another has the smaller id. */
  ghost predicate SpanOrdered(recs: seq<Record>, ids: seq<Id>)
    requires |ids| == |recs|
  {
    forall i, j :: 0 <= i < |recs| && 0 <= j < |recs| && Span(recs[i]) < Span(recs[j]) ==> ids[j] < ids[i]
  }

  lemma RecordIdsOrdered(base: nat, recs: seq<Record>)
    ensures SpanOrdered(recs, RecordIds(base, recs))
  {
    forall i, j | 0 <= i < |recs| && 0 <= j < |recs| && Span(recs[i]) < Span(recs[j])
      ensures RecordId(base, recs, j) < RecordId(base, recs, i)
    {
      RecordIdOrder(base, recs, i, j);
    }
  }

  /** The item record `i` hangs under: its smallest container's, or the file's. */
  function FatherOf(node: Id, recs: seq<Record>, ids: seq<Id>, i: nat): Id
    requires i < |ids| == |recs|
  {
    match FatherIndex(recs, i)
    case None => node
    case Some(j) => ids[j]
  }

  /** The first `i` records hang under their fathers and are listed there; the rest still wait under `node`. */
  ghost predicate AttachedUpTo(g: Forest, node: Id, recs: seq<Record>, ids: seq<Id>, h: Forest, links: map<Id, Link>, i: nat)
    requires i <= |ids| == |recs|
  {
    Growing(links, h.next, IdsFrom(ids, i)) && AttachMaps(g, node, recs, ids, h, links, i)
    && KeysNamed(node, recs, ids, links, i)
  }

  /** `key` is `name`, or `name` with a `_k` suffix. */
  ghost predicate NameOrSuffixed(key: string, name: string)
  {
    key == name || exists k: nat :: key == Suffixed(name, k)
  }

  /** `x` is listed in `cs` under its name or a suffixed one. */
  ghost predicate NamedKey(cs: seq<(string, Id)>, x: Id, name: string)
  {
    ChildIndex(cs, x) < |cs| && NameOrSuffixed(cs[ChildIndex(cs, x)].0, name)
  }

  /** The first `i` records are listed by their fathers under their names or suffixed ones. */
  ghost predicate KeysNamed(node: Id, recs: seq<Record>, ids: seq<Id>, links: map<Id, Link>, i: nat)
    requires i <= |ids| == |recs|
  {
    forall j :: 0 <= j < i ==>
      FatherOf(node, recs, ids, j) in links && NamedKey(links[FatherOf(node, recs, ids, j)].children, ids[j], recs[j].name)
  }

  lemma KeysNamedStep(node: Id, recs: seq<Record>, ids: seq<Id>, links: map<Id, Link>, i: nat, key: string)
    requires i < |ids| == |recs| && KeysNamed(node, recs, ids, links, i)
    requires ids[i] in links && FatherOf(node, recs, ids, i) in links && FatherOf(node, recs, ids, i) != ids[i]
    requires forall k :: 0 <= k < |links[FatherOf(node, recs, ids, i)].children| ==> links[FatherOf(node, recs, ids, i)].children[k].1 != ids[i]
    requires NameOrSuffixed(key, recs[i].name)
    ensures KeysNamed(node, recs, ids, Listed(links, ids[i], FatherOf(node, recs, ids, i), key), i + 1)
  {
    var x, p := ids[i], FatherOf(node, recs, ids, i);
    var l := Listed(links, x, p, key);
    forall j | 0 <= j < i + 1
      ensures FatherOf(node, recs, ids, j) in l && NamedKey(l[FatherOf(node, recs, ids, j)].children, ids[j], recs[j].name)
    {
      var q := FatherOf(node, recs, ids, j);
      ListedAt(links, x, p, key, q);
      if j == i {
        ChildIndexLast(links[p].children, key, x);
      } else if q == p {
        ChildIndexPrefix(links[p].children, l[p].children, ids[j]);
      }
    }
  }

  ghost predicate AttachMaps(g: Forest, node: Id, recs: seq<Record>, ids: seq<Id>, h: Forest, links: map<Id, Link>, i: nat)
    requires i <= |ids| == |recs|
  {
    links.Keys == h.links.Keys && Extends(g.links, links)
    && forall j :: 0 <= j < |ids| ==>
         ids[j] in links && links[ids[j]].father == Some(if j < i then FatherOf(node, recs, ids, j) else node)
  }

  lemma IdsFromStep(ids: seq<Id>, i: nat)
    requires i < |ids| && forall j :: i < j < |ids| ==> ids[j] != ids[i]
    ensures IdsFrom(ids, i + 1) == IdsFrom(ids, i) - {ids[i]}
  {
  }

  lemma AttachStart(g: Forest, node: Id, recs: seq<Record>, ids: seq<Id>, h: Forest)
    requires |ids| == |recs| && StagedUpTo(g, node, recs, ids, h, |recs|)
    ensures AttachedUpTo(g, node, recs, ids, h, h.links, 0)
  {
    assert IdsBelow(ids, |ids|) == IdsFrom(ids, 0);
    forall y | y in g.links
      ensures y in h.links && h.links[y].father == g.links[y].father && g.links[y].children <= h.links[y].children
    {
      assert h.links[y] == g.links[y];
    }
  }

  lemma AttachMapsStep(g: Forest, node: Id, recs: seq<Record>, ids: seq<Id>, h: Forest, links: map<Id, Link>, i: nat, key: string)
    requires i < |ids| == |recs| && AttachMaps(g, node, recs, ids, h, links, i)
    requires ids[i] !in g.links && FatherOf(node, recs, ids, i) in links && FatherOf(node, recs, ids, i) != ids[i]
    requires forall j :: 0 <= j < |ids| && j != i ==> ids[j] != ids[i]
    ensures AttachMaps(g, node, recs, ids, h, Listed(links, ids[i], FatherOf(node, recs, ids, i), key), i + 1)
  {
    var x, p := ids[i], FatherOf(node, recs, ids, i);
    var l := Listed(links, x, p, key);
    forall y | y in links
      ensures y in l && l[y] == if y == p then links[p].(children := links[p].children + [(key, x)])
                                else if y == x then links[x].(father := Some(p))
                                else links[y]
    {
      ListedAt(links, x, p, key, y);
    }
    forall y | y in g.links
      ensures y in l && l[y].father == g.links[y].father && g.links[y].children <= l[y].children
    {
      assert links[y].father == g.links[y].father && g.links[y].children <= links[y].children;
    }
  }

  /** One turn of the loop: record `i` gets its father and is listed there under a free key. */
  method AttachOne(g: Forest, node: Id, recs: seq<Record>, ids: seq<Id>, h: Forest, links: map<Id, Link>, i: nat)
    returns (links': map<Id, Link>)
    requires Walkable(g.links, g.next) && node in g.links && i < |ids| == |recs|
    requires FreshIds(ids, g.next, h.next) && SpanOrdered(recs, ids)
    requires AttachedUpTo(g, node, recs, ids, h, links, i)
    ensures AttachedUpTo(g, node, recs, ids, h, links', i + 1)
  {
    var x := ids[i];
    var fi := FindFather(recs, i);
    FatherIndexMeaning(recs, i);
    var p := if fi.None? then node else ids[fi.value];
    assert p == FatherOf(node, recs, ids, i) && p < x;
    var key := ChildName(links[p].children, recs[i].name);
    assert forall k :: 0 <= k < |links[p].children| ==> links[p].children[k].1 != x;
    KeysNamedStep(node, recs, ids, links, i, key);
    links' := Listed(links, x, p, key);
    ListGrowing(links, h.next, IdsFrom(ids, i), x, p, key);
    IdsFromStep(ids, i);
    AttachMapsStep(g, node, recs, ids, h, links, i, key);
  }

  /** The loop over the records: at its end the tree is whole again. */
  method AttachRecords(g: Forest, node: Id, recs: seq<Record>, ids: seq<Id>, h: Forest) returns (links: map<Id, Link>)
    requires Walkable(g.links, g.next) && node in g.links && |ids| == |recs|
    requires FreshIds(ids, g.next, h.next) && SpanOrdered(recs, ids)
    requires StagedUpTo(g, node, recs, ids, h, |recs|)
    ensures Tree(links, h.next) && AttachMaps(g, node, recs, ids, h, links, |recs|)
    ensures KeysNamed(node, recs, ids, links, |recs|)
  {
    links := h.links;
    AttachStart(g, node, recs, ids, h);
    for i := 0 to |recs|
      invariant AttachedUpTo(g, node, recs, ids, h, links, i)
    {
      links := AttachOne(g, node, recs, ids, h, links, i);
    }
    assert IdsFrom(ids, |ids|) == {};
    GrowingTree(links, h.next);
  }

  // ---------------------------------------------------------------------
  // Settling the kinds of the records (`change_items`)
  // ---------------------------------------------------------------------

  // `change_items` writes no field but `item_type`, so the walk below keeps
  // the types in a map of their own and reads everything else from the
  // unchanging items.

  /** Every father is an item too (the part of `Upward` the walk needs). */
  ghost predicate FathersIn(links: map<Id, Link>)
  {
    forall y :: y in links && links[y].father.Some? ==> links[y].father.value in links
  }

  /** What the walk below needs of the links, the items and the types. */
  ghost predicate Walks(s: Skeleton, items: map<Id, DocItem>, t: map<Id, ItemType>)
  {
    Walkable(s.links, s.next) && FathersIn(s.links) && items.Keys == s.links.Keys && t.Keys == s.links.Keys
  }

  /** The types of the items. */
  function TypesOf(items: map<Id, DocItem>): (types: map<Id, ItemType>)
    ensures types.Keys == items.Keys
  {
    map y | y in items :: items[y].itemType
  }

  /** The items with their types replaced. */
  function Retyped(items: map<Id, DocItem>, types: map<Id, ItemType>): (items': map<Id, DocItem>)
    requires types.Keys == items.Keys
    ensures items'.Keys == items.Keys
  {
    map y | y in items :: items[y].(itemType := types[y])
  }

  /**
   * The new type of item `x`: files keep theirs; a record of kind
   * "ClassDef" is a class; one of kind "FunctionDef" is a method under a
   * class, a nested function under a function and a function elsewhere;
   * other kinds keep their type. An item without a record has no "type" to
   * read (a KeyError), and one without a father has no type to compare (an
   * AttributeError).
   */
  function Reclassify(links: map<Id, Link>, items: map<Id, DocItem>, types: map<Id, ItemType>, x: Id): (r: Result<ItemType>)
    requires FathersIn(links) && x in links && items.Keys == links.Keys && types.Keys == links.Keys
    ensures r.Ok? ==> NewKind(links, items, types, x, types[x], r.value)
    ensures r.Err? <==> (types[x] != File && (items[x].content.None?
                         || (items[x].content.value.kind == "FunctionDef" && links[x].father.None?)))
  {
    if types[x] == File then Ok(File)
    else if items[x].content.None? then Err("KeyError")
    else if items[x].content.value.kind == "ClassDef" then Ok(Class)
    else if items[x].content.value.kind == "FunctionDef" then
      match links[x].father
      case None => Err("AttributeError")
      case Some(f) => Ok(FunctionKind(types[f]))
    else Ok(types[x])
  }

  /** The type of a "FunctionDef" record whose father has the type `ft`. */
  function FunctionKind(ft: ItemType): ItemType
  {
    if ft == Class then ClassFunction else if ft == Function || ft == SubFunction then SubFunction else Function
  }

  /**
   * `after` is the type `change_items` may give item `y` of type `before`
   * when `types` holds its father's type: a file stays a file and nothing
   * else becomes one; any other item has a record; a "ClassDef" record is a
   * class; a "FunctionDef" record has a father and takes `FunctionKind` of
   * the father's type; a record of any other kind keeps its type.
   */
  ghost predicate NewKind(links: map<Id, Link>, items: map<Id, DocItem>, types: map<Id, ItemType>, y: Id,
                          before: ItemType, after: ItemType)
    requires FathersIn(links) && y in links && items.Keys == links.Keys && types.Keys == links.Keys
  {
    (after == File <==> before == File)
    && (before != File ==> items[y].content.Some?)
    && (before != File && items[y].content.Some? && items[y].content.value.kind == "ClassDef" ==> after == Class)
    && (before != File && items[y].content.Some? && items[y].content.value.kind == "FunctionDef" ==>
          links[y].father.Some? && after == FunctionKind(types[links[y].father.value]))
    && (before != File && items[y].content.Some? && items[y].content.value.kind != "ClassDef"
          && items[y].content.value.kind != "FunctionDef"
        ==> after == before)
  }

  /** `change_items(x)` on the types `t`: `x` first, then its children's subtrees in order. */
  function ChangedBelow(s: Skeleton, items: map<Id, DocItem>, x: Id, t: map<Id, ItemType>): (r: Result<map<Id, ItemType>>)
    requires Walks(s, items, t) && x in s.links
    ensures r.Ok? ==> r.value.Keys == t.Keys
    ensures r.Err? ==> r.error == "KeyError" || r.error == "AttributeError"
    decreases s.next - x, 1
  {
    match Reclassify(s.links, items, t, x)
    case Err(e) => Err(e)
    case Ok(tx) => ChangedFrom(s, items, x, |s.links[x].children|, t[x := tx])
  }

  /** The first `k` children's subtrees of `x` changed, in order, starting from `t`. */
  function ChangedFrom(s: Skeleton, items: map<Id, DocItem>, x: Id, k: nat, t: map<Id, ItemType>): (r: Result<map<Id, ItemType>>)
    requires Walks(s, items, t) && x in s.links && k <= |s.links[x].children|
    ensures r.Ok? ==> r.value.Keys == t.Keys
    ensures r.Err? ==> r.error == "KeyError" || r.error == "AttributeError"
    decreases s.next - x, 0, k
  {
    if k == 0 then Ok(t)
    else
      match ChangedFrom(s, items, x, k - 1, t)
      case Err(e) => Err(e)
      case Ok(t') => ChangedBelow(s, items, s.links[x].children[k - 1].1, t')
  }

  function FileIds(t: map<Id, ItemType>): set<Id>
  {
    set y | y in t && t[y] == File
  }

  /** Items that `change_items` can settle: files, and records (which have a father). */
  ghost predicate Settleable(s: Skeleton, items: map<Id, DocItem>, t: map<Id, ItemType>, x: Id)
    requires items.Keys == s.links.Keys && t.Keys == s.links.Keys
  {
    forall y :: y in s.links && x <= y ==> t[y] == File || (items[y].content.Some? && s.links[y].father.Some?)
  }

  /**
   * What `change_items(x)` does: no file is made or unmade, and the walk
   * succeeds when every item from `x` on is a file or a record. (Returns
   * the walk's result, so that callers need not unfold the walk.)
   */
  lemma {:induction false} ChangedBelowMeaning(s: Skeleton, items: map<Id, DocItem>, x: Id, t: map<Id, ItemType>)
    returns (r: Result<map<Id, ItemType>>)
    requires Walks(s, items, t) && x in s.links
    ensures r == ChangedBelow(s, items, x, t)
    ensures r.Ok? ==> FileIds(r.value) == FileIds(t)
    ensures Settleable(s, items, t, x) ==> r.Ok?
    decreases s.next - x, 1
  {
    var tx := Reclassify(s.links, items, t, x);
    if tx.Err? {
      r := Err(tx.error);
    } else {
      var t1 := t[x := tx.value];
      assert FileIds(t1) == FileIds(t);
      SettleableKept(s, items, t, t1, x, x);
      r := ChangedFromMeaning(s, items, x, |s.links[x].children|, t1);
    }
  }

  lemma {:induction false} ChangedFromMeaning(s: Skeleton, items: map<Id, DocItem>, x: Id, k: nat, t: map<Id, ItemType>)
    returns (r: Result<map<Id, ItemType>>)
    requires Walks(s, items, t) && x in s.links && k <= |s.links[x].children|
    ensures r == ChangedFrom(s, items, x, k, t)
    ensures r.Ok? ==> FileIds(r.value) == FileIds(t)
    ensures Settleable(s, items, t, x) ==> r.Ok?
    decreases s.next - x, 0, k, 1
  {
    if k == 0 {
      r := Ok(t);
    } else {
      var before := ChangedFromMeaning(s, items, x, k - 1, t);
      r := ChangedFromStep(s, items, x, k, t, before);
    }
  }

  /** The step of `ChangedFromMeaning` from `k - 1` children to `k`. */
  lemma {:induction false} ChangedFromStep(s: Skeleton, items: map<Id, DocItem>, x: Id, k: nat, t: map<Id, ItemType>,
                                           before: Result<map<Id, ItemType>>)
    returns (r: Result<map<Id, ItemType>>)
    requires Walks(s, items, t) && x in s.links && 0 < k <= |s.links[x].children|
    requires before == ChangedFrom(s, items, x, k - 1, t)
    requires before.Ok? ==> FileIds(before.value) == FileIds(t)
    requires Settleable(s, items, t, x) ==> before.Ok?
    ensures r == ChangedFrom(s, items, x, k, t)
    ensures r.Ok? ==> FileIds(r.value) == FileIds(t)
    ensures Settleable(s, items, t, x) ==> r.Ok?
    decreases s.next - x, 0, k, 0
  {
    ChangedFromNext(s, items, x, k, t);
    if before.Ok? {
      var c := s.links[x].children[k - 1].1;
      SettleableKept(s, items, t, before.value, x, c);
      r := ChangedBelowMeaning(s, items, c, before.value);
    } else {
      r := before;
    }
  }

  /** One more child of `x` walked: a failure so far stays, otherwise the walk goes into child `k - 1`. */
  lemma ChangedFromNext(s: Skeleton, items: map<Id, DocItem>, x: Id, k: nat, t: map<Id, ItemType>)
    requires Walks(s, items, t) && x in s.links && 0 < k <= |s.links[x].children|
    ensures s.links[x].children[k - 1].1 in s.links
    ensures ChangedFrom(s, items, x, k, t)
            == match ChangedFrom(s, items, x, k - 1, t)
               case Err(e) => Err(e)
               case Ok(t') => ChangedBelow(s, items, s.links[x].children[k - 1].1, t')
  {
  }

  lemma SettleableKept(s: Skeleton, items: map<Id, DocItem>, t: map<Id, ItemType>, t': map<Id, ItemType>, x: Id, c: Id)
    requires items.Keys == s.links.Keys && t.Keys == s.links.Keys && t'.Keys == t.Keys
    requires FileIds(t') == FileIds(t) && x <= c
    ensures Settleable(s, items, t, x) ==> Settleable(s, items, t', c)
  {
    forall y | Settleable(s, items, t, x) && y in s.links && c <= y
      ensures t'[y] == File || (items[y].content.Some? && s.links[y].father.Some?)
    {
      assert y in FileIds(t') <==> y in FileIds(t);
    }
  }

  /** `change_items(x)`: reclassifies `x`, then walks its children's subtrees; an exception ends the walk. */
  method ChangeItems(s: Skeleton, items: map<Id, DocItem>, x: Id, t: map<Id, ItemType>) returns (r: Result<map<Id, ItemType>>)
    requires Walks(s, items, t) && x in s.links
    ensures r == ChangedBelow(s, items, x, t)
    ensures r.Ok? && Tree(s.links, s.next) ==>
              (forall y :: y in s.links && x in PathTo(s.links, y) ==> NewKind(s.links, items, r.value, y, t[y], r.value[y]))
              && (forall y :: y in s.links && x !in PathTo(s.links, y) ==> r.value[y] == t[y])
    decreases s.next - x
  {
    var tx := Reclassify(s.links, items, t, x);
    if tx.Err? {
      return Err(tx.error);
    }
    var t1 := t[x := tx.value];
    var cs := s.links[x].children;
    r := Ok(t1);
    for k := 0 to |cs|
      invariant r == ChangedFrom(s, items, x, k, t1)
    {
      ChangedFromNext(s, items, x, k + 1, t1);
      if r.Ok? {
        r := ChangeItems(s, items, cs[k].1, r.value);
      }
      // otherwise the exception has already left the loop: nothing more changes
    }
    if r.Ok? && Tree(s.links, s.next) {
      ChangedBelowKinds(s, items, x, t, r.value);
    }
  }

  /**
   * Which types `change_items(x)` gives: every item of the subtree of `x`
   * gets its `NewKind` from its old type, read against its father's new
   * type, and every other item keeps its type.
   */
  lemma ChangedBelowKinds(s: Skeleton, items: map<Id, DocItem>, x: Id, t: map<Id, ItemType>, w: map<Id, ItemType>)
    requires Tree(s.links, s.next) && Walks(s, items, t) && x in s.links
    requires ChangedBelow(s, items, x, t) == Ok(w)
    ensures w.Keys == t.Keys
    ensures forall y :: y in s.links && x in PathTo(s.links, y) ==> NewKind(s.links, items, w, y, t[y], w[y])
    ensures forall y :: y in s.links && x !in PathTo(s.links, y) ==> w[y] == t[y]
  {
    forall y | y in s.links
      ensures x in PathTo(s.links, y) ==> NewKind(s.links, items, w, y, t[y], w[y])
      ensures x !in PathTo(s.links, y) ==> w[y] == t[y]
    {
      ChangedBelowKindsAt(s, items, x, t, w, y);
    }
  }

  /** `ChangedBelowKinds` at one item `y`. */
  lemma {:induction false} ChangedBelowKindsAt(s: Skeleton, items: map<Id, DocItem>, x: Id, t: map<Id, ItemType>,
                                               w: map<Id, ItemType>, y: Id)
    requires Tree(s.links, s.next) && Walks(s, items, t) && x in s.links && y in s.links
    requires ChangedBelow(s, items, x, t) == Ok(w)
    ensures w.Keys == t.Keys
    ensures x in PathTo(s.links, y) ==> NewKind(s.links, items, w, y, t[y], w[y])
    ensures x !in PathTo(s.links, y) ==> w[y] == t[y]
    decreases s.next - x, 1
  {
    var links := s.links;
    var n := |links[x].children|;
    var tx := Reclassify(links, items, t, x).value;
    var t1 := t[x := tx];
    ChangedFromKindsAt(s, items, x, n, t1, w, y);
    if InFirst(links, x, n, y) {
      InFirstBelow(links, s.next, x, n, y);
    } else if y == x {
      if links[x].father.Some? {
        var f := links[x].father.value;
        ChangedFromKindsAt(s, items, x, n, t1, w, f);
        InFirstUnder(links, s.next, x, n, f);
        assert w[f] == t[f];
      }
    } else if x in PathTo(links, y) {
      InFirstAll(links, s.next, x, y);
    }
  }

  /** The same at `y` for the first `k` children's subtrees of `x`, walked from `t`. */
  lemma {:induction false} ChangedFromKindsAt(s: Skeleton, items: map<Id, DocItem>, x: Id, k: nat, t: map<Id, ItemType>,
                                              w: map<Id, ItemType>, y: Id)
    requires Tree(s.links, s.next) && Walks(s, items, t) && x in s.links && y in s.links && k <= |s.links[x].children|
    requires ChangedFrom(s, items, x, k, t) == Ok(w)
    ensures w.Keys == t.Keys
    ensures InFirst(s.links, x, k, y) ==> NewKind(s.links, items, w, y, t[y], w[y])
    ensures !InFirst(s.links, x, k, y) ==> w[y] == t[y]
    decreases s.next - x, 0, k
  {
    if k > 0 {
      var links := s.links;
      var j := k - 1;
      ChangedFromUnfold(s, items, x, j, k, t);
      var m := ChangedFrom(s, items, x, j, t).value;
      var c := links[x].children[j].1;
      ChangedFromKindsAt(s, items, x, j, t, m, y);
      ChangedBelowKindsAt(s, items, c, m, w, y);
      InFirstStep(links, s.next, x, j, y);
      if c in PathTo(links, y) {
        NotInFirst(links, s.next, x, j, y);
      } else if InFirst(links, x, j, y) && links[y].father.Some? {
        var f := links[y].father.value;
        assert PathTo(links, y) == PathTo(links, f) + [y];
        ChangedBelowKindsAt(s, items, c, m, w, f);
        assert w[f] == m[f];
      }
    }
  }

  /** `InFirstBelow` as an implication. */
  lemma InFirstUnder(links: map<Id, Link>, next: nat, x: Id, k: nat, y: Id)
    requires Tree(links, next) && x in links && y in links
    ensures InFirst(links, x, k, y) ==> x in PathTo(links, y) && x != y
  {
    if InFirst(links, x, k, y) {
      InFirstBelow(links, next, x, k, y);
    }
  }

  /** `ChangedFrom` over `k == j + 1` children: the first `j`, then child `j`'s subtree. */
  lemma ChangedFromUnfold(s: Skeleton, items: map<Id, DocItem>, x: Id, j: nat, k: nat, t: map<Id, ItemType>)
    requires Walks(s, items, t) && x in s.links && k == j + 1 && k <= |s.links[x].children|
    ensures s.links[x].children[j].1 in s.links
    ensures ChangedFrom(s, items, x, k, t)
            == match ChangedFrom(s, items, x, j, t)
               case Err(e) => Err(e)
               case Ok(t') => ChangedBelow(s, items, s.links[x].children[j].1, t')
  {
    assert s.links[x].children[k - 1].1 == s.links[x].children[j].1;
  }

  // ---------------------------------------------------------------------
  // One file entry of the hierarchy JSON
  // ---------------------------------------------------------------------

  lemma RecordsEndAbove(base: nat, recs: seq<Record>)
    ensures base <= RecordsEnd(base, recs)
  {
    if |recs| > 0 {
      assert MinSpan(recs) <= Span(recs[0]) <= MaxSpan(recs);
      MulStep(|recs|, 0, MaxSpan(recs) - MinSpan(recs) + 1);
    }
  }

  /** What an entry built: the old tree grew, and the records' items are new ones. */
  ghost predicate FileBuilt(f: Forest, g: Forest, segs: seq<string>, recs: seq<Record>, node: Id, ids: seq<Id>)
  {
    Sound(g) && Extends(f.links, g.links) && ItemsKept(f.items, g.items) && f.next <= g.next
    && |ids| == |recs| && FreshIds(ids, f.next, g.next) && EntryBuilt(g, segs, recs, node, ids)
    && (RecordsKinded(f) ==> RecordsKinded(g))
  }

  /**
   * In `g`, `find(segs)` reaches the file item `node`, and record `i` is
   * the item `ids[i]`, placed by the containment and suffix rules and
   * typed by `RecordKind` under its father's type.
   */
  ghost predicate EntryBuilt(g: Forest, segs: seq<string>, recs: seq<Record>, node: Id, ids: seq<Id>)
  {
    Sound(g) && node in g.links && FindPath(g.links, g.next, segs) == Some(node) && g.items[node].itemType == File
    && |ids| == |recs|
    && forall i :: 0 <= i < |recs| ==>
         ids[i] in g.links && g.items[ids[i]].content == Some(recs[i]) && g.items[ids[i]].objName == recs[i].name
         && g.links[ids[i]].father == Some(FatherOf(node, recs, ids, i))
         && ids[i] != 0 && NameOrSuffixed(KeyOf(g.links, g.next, ids[i]), recs[i].name)
         && FatherOf(node, recs, ids, i) in g.items
         && g.items[ids[i]].itemType == RecordKind(recs[i], g.items[FatherOf(node, recs, ids, i)].itemType)
  }

  /**
   * The type a record's item ends with under a father of type `ft`: it is
   * created as a method (`_class_function`), and `change_items` makes a
   * "ClassDef" record a class and a "FunctionDef" record a `FunctionKind`.
   */
  function RecordKind(rec: Record, ft: ItemType): ItemType
  {
    if rec.kind == "ClassDef" then Class else if rec.kind == "FunctionDef" then FunctionKind(ft) else ClassFunction
  }

  /** Every item with a record has its `RecordKind` under its father's type. */
  ghost predicate RecordsKinded(f: Forest)
  {
    forall y :: y in f.items && y in f.links && f.items[y].content.Some? && f.links[y].father.Some?
                && f.links[y].father.value in f.items ==>
      f.items[y].itemType == RecordKind(f.items[y].content.value, f.items[f.links[y].father.value].itemType)
  }

  /** The chain adds no record and moves no item, so it keeps every record's type. */
  lemma ChainKinded(f: Forest, g: Forest, node: Id, segs: seq<string>)
    requires Chained(f, g, node, segs) && RecordsKinded(f)
    ensures RecordsKinded(g)
  {
    forall y | y in g.items && y in g.links && g.items[y].content.Some? && g.links[y].father.Some?
               && g.links[y].father.value in g.items
      ensures g.items[y].itemType == RecordKind(g.items[y].content.value, g.items[g.links[y].father.value].itemType)
    {
      assert y in f.items;
      var p := f.links[y].father.value;
      assert p in f.links;
    }
  }

  /** Where `find(segs)` led before the entry decides whether its assertion can fail. */
  ghost predicate EntryOutcome(f: Forest, segs: seq<string>, r: Result<Forest>)
    requires Sound(f)
  {
    (FindPath(f.links, f.next, segs).None? ==> r.Ok?)
    && (match FindPath(f.links, f.next, segs)
        case Some(y) => f.items[y].itemType != File ==> r == Err("AssertionError")
        case None => true)
  }

  /**
   * One entry of `from_project_hierarchy_json`: the chain down `path`, the
   * file item's assertion, the items of the records attached by the
   * containment rule under keys made unique by the suffix rule, and
   * `change_items` from the file item.
   */
  method AddFile(f: Forest, path: string, recs: seq<Record>) returns (r: Result<Forest>, node: Id, ids: seq<Id>)
    requires Sound(f)
    ensures r.Ok? ==> FileBuilt(f, r.value, Split(path, '/'), recs, node, ids)
    ensures EntryOutcome(f, Split(path, '/'), r)
    ensures r.Err? ==> r.error in Raised
  {
    var segs := Split(path, '/');
    var g;
    g, node := InsertChain(f, segs);
    ChainFound(f, g, segs, node);
    if g.items[node].itemType != File {
      return Err("AssertionError"), node, [];
    }
    r, ids := AddRecords(g, segs, node, recs);
    if r.Ok? {
      FileBuiltTrans(f, g, r.value, segs, recs, node, ids);
    }
  }

  /** The records of an entry whose file item `node` the chain reached: staged, attached, then settled. */
  method AddRecords(g: Forest, ghost segs: seq<string>, node: Id, recs: seq<Record>) returns (r: Result<Forest>, ids: seq<Id>)
    requires Sound(g) && node in g.links && FindPath(g.links, g.next, segs) == Some(node) && g.items[node].itemType == File
    ensures r.Ok? ==> FileBuilt(g, r.value, segs, recs, node, ids)
    ensures node + 1 == g.next ==> r.Ok?
    ensures r.Err? ==> r.error == "KeyError" || r.error == "AttributeError"
  {
    ids := RecordIds(g.next, recs);
    var end := RecordsEnd(g.next, recs);
    RecordIdsFresh(g.next, recs);
    RecordIdsOrdered(g.next, recs);
    RecordsEndAbove(g.next, recs);
    var h := StageRecords(g, node, recs, ids, end);
    var links := AttachRecords(g, node, recs, ids, h);
    var sk := Skeleton(links, h.next);
    var t := TypesOf(h.items);
    WalkReady(g, node, recs, ids, h, links);
    var w := ChangeItems(sk, h.items, node, t);
    var w' := ChangedBelowMeaning(sk, h.items, node, t);
    if node + 1 == g.next {
      NewFileSettles(g, node, recs, ids, h, links);
    }
    if w.Err? {
      return Err(w.error), ids;
    }
    assert 0 in g.links;
    r := Ok(Forest(links, Retyped(h.items, w.value), h.next));
    Built(g, segs, node, recs, ids, h, links, w.value);
  }

  lemma FileBuiltTrans(f: Forest, g: Forest, h: Forest, segs: seq<string>, recs: seq<Record>, node: Id, ids: seq<Id>)
    requires Chained(f, g, node, segs) && FileBuilt(g, h, segs, recs, node, ids)
    ensures FileBuilt(f, h, segs, recs, node, ids)
  {
    if RecordsKinded(f) {
      ChainKinded(f, g, node, segs);
    }
    ExtendsTrans(f.links, g.links, h.links);
    forall y | y in f.items
      ensures y in h.items && h.items[y].content == f.items[y].content && h.items[y].objName == f.items[y].objName
      ensures f.items[y].itemType == File ==> h.items[y].itemType == File
    {
      assert g.items[y] == f.items[y];
    }
  }

  /** `find(segs)` before the chain found nothing exactly when the chain made the file item, and otherwise found `node`. */
  lemma ChainFound(f: Forest, g: Forest, segs: seq<string>, node: Id)
    requires Chained(f, g, node, segs)
    ensures FindPath(f.links, f.next, segs).None? <==> node !in f.links
    ensures FindPath(f.links, f.next, segs).Some? ==> FindPath(f.links, f.next, segs).value == node && g == f
    ensures node !in f.links ==> g.items[node].itemType == File && node + 1 == g.next
  {
    ChainEnd(f, g, segs, node);
    var before := FindPath(f.links, f.next, segs);
    if before.Some? {
      FindKept(f.links, f.next, g.links, g.next, segs, before.value);
    }
  }

  /** After staging and attaching, the tree is ready for `change_items`. */
  lemma WalkReady(g: Forest, node: Id, recs: seq<Record>, ids: seq<Id>, h: Forest, links: map<Id, Link>)
    requires |ids| == |recs| && node in g.links
    requires StagedUpTo(g, node, recs, ids, h, |recs|)
    requires Tree(links, h.next) && AttachMaps(g, node, recs, ids, h, links, |recs|)
    ensures node in links && Walks(Skeleton(links, h.next), h.items, TypesOf(h.items))
  {
  }

  /** A new file item is the largest old id, so every item from it on is the file or a record under its father. */
  lemma NewFileSettles(g: Forest, node: Id, recs: seq<Record>, ids: seq<Id>, h: Forest, links: map<Id, Link>)
    requires |ids| == |recs| && Sound(g) && node in g.links && node + 1 == g.next && g.items[node].itemType == File
    requires StagedUpTo(g, node, recs, ids, h, |recs|)
    requires Tree(links, h.next) && AttachMaps(g, node, recs, ids, h, links, |recs|)
    ensures Settleable(Skeleton(links, h.next), h.items, TypesOf(h.items), node)
  {
    var t := TypesOf(h.items);
    forall y | y in links && node <= y
      ensures t[y] == File || (h.items[y].content.Some? && links[y].father.Some?)
    {
      if y == node {
        assert h.items[y] == g.items[y];
      } else {
        assert y !in g.links;
        assert y in IdsBelow(ids, |recs|);
        var j :| 0 <= j < |recs| && ids[j] == y;
        assert h.items[y] == RecordItem(recs[j]);
      }
    }
  }

  /** What the entry built, once `change_items` succeeded with the types `w`. */
  lemma Built(g: Forest, segs: seq<string>, node: Id, recs: seq<Record>, ids: seq<Id>, h: Forest,
              links: map<Id, Link>, w: map<Id, ItemType>)
    requires Sound(g) && node in g.links && FindPath(g.links, g.next, segs) == Some(node) && g.items[node].itemType == File
    requires |ids| == |recs| && g.next <= h.next && FreshIds(ids, g.next, h.next)
    requires StagedUpTo(g, node, recs, ids, h, |recs|)
    requires Tree(links, h.next) && AttachMaps(g, node, recs, ids, h, links, |recs|)
    requires KeysNamed(node, recs, ids, links, |recs|)
    requires w.Keys == links.Keys && FileIds(w) == FileIds(TypesOf(h.items))
    requires Walks(Skeleton(links, h.next), h.items, TypesOf(h.items))
    requires ChangedBelow(Skeleton(links, h.next), h.items, node, TypesOf(h.items)) == Ok(w)
    ensures FileBuilt(g, Forest(links, Retyped(h.items, w), h.next), segs, recs, node, ids)
  {
    FindKept(g.links, g.next, links, h.next, segs, node);
    FilesKept(h.items, w);
    BuiltKept(g, g, h, w);
    BuiltRecords(g, node, recs, ids, h, links, w);
    BuiltKinds(g, node, recs, ids, h, links, w);
    assert 0 in g.links;
    assert h.items[node] == g.items[node];
  }

  /**
   * After `change_items` from the file item: each record of the entry has
   * its `RecordKind`, and every other record keeps it when it had it.
   */
  lemma BuiltKinds(g: Forest, node: Id, recs: seq<Record>, ids: seq<Id>, h: Forest, links: map<Id, Link>, w: map<Id, ItemType>)
    requires Sound(g) && node in g.links && g.items[node].itemType == File
    requires |ids| == |recs| && StagedUpTo(g, node, recs, ids, h, |recs|)
    requires Tree(links, h.next) && AttachMaps(g, node, recs, ids, h, links, |recs|)
    requires Walks(Skeleton(links, h.next), h.items, TypesOf(h.items)) && w.Keys == links.Keys
    requires ChangedBelow(Skeleton(links, h.next), h.items, node, TypesOf(h.items)) == Ok(w)
    ensures forall i :: 0 <= i < |recs| ==>
              FatherOf(node, recs, ids, i) in links && w[ids[i]] == RecordKind(recs[i], w[FatherOf(node, recs, ids, i)])
    ensures RecordsKinded(g) ==> RecordsKinded(Forest(links, Retyped(h.items, w), h.next))
  {
    ChangedBelowKinds(Skeleton(links, h.next), h.items, node, TypesOf(h.items), w);
    BuiltOwnKinds(g, node, recs, ids, h, links, w);
    if RecordsKinded(g) {
      BuiltAllKinds(g, node, recs, ids, h, links, w);
    }
  }

  /** `BuiltKinds` for the entry's own records. */
  lemma BuiltOwnKinds(g: Forest, node: Id, recs: seq<Record>, ids: seq<Id>, h: Forest, links: map<Id, Link>, w: map<Id, ItemType>)
    requires node in g.links && |ids| == |recs| && NewStaged(node, recs, ids, h, |recs|)
    requires Tree(links, h.next) && AttachMaps(g, node, recs, ids, h, links, |recs|)
    requires h.items.Keys == links.Keys && w.Keys == links.Keys
    requires forall z :: z in links && node in PathTo(links, z) ==> NewKind(links, h.items, w, z, TypesOf(h.items)[z], w[z])
    ensures forall i :: 0 <= i < |recs| ==>
              FatherOf(node, recs, ids, i) in links && w[ids[i]] == RecordKind(recs[i], w[FatherOf(node, recs, ids, i)])
  {
    forall i | 0 <= i < |recs|
      ensures FatherOf(node, recs, ids, i) in links && w[ids[i]] == RecordKind(recs[i], w[FatherOf(node, recs, ids, i)])
    {
      RecordUnder(g, node, recs, ids, h, links, i);
      assert h.items[ids[i]] == RecordItem(recs[i]);
      NewRecordKind(links, h.items, w, ids[i], TypesOf(h.items)[ids[i]]);
    }
  }

  /** `BuiltKinds` for every record, the old ones kinded before. */
  lemma BuiltAllKinds(g: Forest, node: Id, recs: seq<Record>, ids: seq<Id>, h: Forest, links: map<Id, Link>, w: map<Id, ItemType>)
    requires Sound(g) && node in g.links && g.items[node].itemType == File && RecordsKinded(g)
    requires |ids| == |recs| && StagedMaps(g, node, recs, ids, h, |recs|)
    requires Tree(links, h.next) && AttachMaps(g, node, recs, ids, h, links, |recs|) && w.Keys == links.Keys
    requires forall z :: z in links && node in PathTo(links, z) ==> NewKind(links, h.items, w, z, TypesOf(h.items)[z], w[z])
    requires forall z :: z in links && node !in PathTo(links, z) ==> w[z] == TypesOf(h.items)[z]
    ensures RecordsKinded(Forest(links, Retyped(h.items, w), h.next))
  {
    var f' := Forest(links, Retyped(h.items, w), h.next);
    forall y | y in f'.items && y in links && f'.items[y].content.Some? && links[y].father.Some?
               && links[y].father.value in f'.items
      ensures f'.items[y].itemType == RecordKind(f'.items[y].content.value, f'.items[links[y].father.value].itemType)
    {
      BuiltKindAt(g, node, recs, ids, h, links, w, y);
    }
  }

  /** `BuiltKinds` at an item `y` with a record, the old types of `g` being kinded. */
  lemma BuiltKindAt(g: Forest, node: Id, recs: seq<Record>, ids: seq<Id>, h: Forest, links: map<Id, Link>, w: map<Id, ItemType>, y: Id)
    requires Sound(g) && node in g.links && g.items[node].itemType == File && RecordsKinded(g)
    requires |ids| == |recs| && StagedMaps(g, node, recs, ids, h, |recs|)
    requires Tree(links, h.next) && AttachMaps(g, node, recs, ids, h, links, |recs|) && w.Keys == links.Keys
    requires forall z :: z in links && node in PathTo(links, z) ==> NewKind(links, h.items, w, z, TypesOf(h.items)[z], w[z])
    requires forall z :: z in links && node !in PathTo(links, z) ==> w[z] == TypesOf(h.items)[z]
    requires y in links && h.items[y].content.Some? && links[y].father.Some?
    ensures w[y] == RecordKind(h.items[y].content.value, w[links[y].father.value])
  {
    var t := TypesOf(h.items);
    var p := links[y].father.value;
    if y in g.links {
      assert h.items[y] == g.items[y] && g.links[y].father == links[y].father;
      assert p in g.links && h.items[p] == g.items[p];
      if node in PathTo(links, y) {
        NewRecordKind(links, h.items, w, y, t[y]);
      } else {
        assert PathTo(links, y) == PathTo(links, p) + [y];
      }
    } else {
      assert y in IdsBelow(ids, |recs|);
      var i :| 0 <= i < |recs| && ids[i] == y;
      RecordUnder(g, node, recs, ids, h, links, i);
      assert h.items[y] == RecordItem(recs[i]);
      NewRecordKind(links, h.items, w, y, t[y]);
    }
  }

  /** A record's item that `change_items` reached, typed as a method or by its `RecordKind` before, ends with its `RecordKind`. */
  lemma NewRecordKind(links: map<Id, Link>, items: map<Id, DocItem>, w: map<Id, ItemType>, y: Id, before: ItemType)
    requires FathersIn(links) && y in links && items.Keys == links.Keys && w.Keys == links.Keys
    requires NewKind(links, items, w, y, before, w[y]) && items[y].content.Some? && links[y].father.Some?
    requires before == ClassFunction
             || (links[y].father.value in links && exists ft :: before == RecordKind(items[y].content.value, ft))
    ensures w[y] == RecordKind(items[y].content.value, w[links[y].father.value])
  {
  }

  /** Each record's item lies below the file item. */
  lemma {:induction false} RecordUnder(g: Forest, node: Id, recs: seq<Record>, ids: seq<Id>, h: Forest, links: map<Id, Link>, i: nat)
    requires node in g.links && |ids| == |recs| && i < |recs|
    requires Tree(links, h.next) && AttachMaps(g, node, recs, ids, h, links, |recs|)
    ensures ids[i] in links && node in PathTo(links, ids[i])
    decreases ids[i]
  {
    var f := FatherOf(node, recs, ids, i);
    assert links[ids[i]].father == Some(f);
    assert PathTo(links, ids[i]) == PathTo(links, f) + [ids[i]];
    if f != node {
      var j := FatherIndex(recs, i).value;
      assert f == ids[j];
      RecordUnder(g, node, recs, ids, h, links, j);
    }
  }

  lemma BuiltKept(f: Forest, g: Forest, h: Forest, w: map<Id, ItemType>)
    requires (forall y :: y in f.items ==> y in g.items && g.items[y] == f.items[y]) && OldKept(g, h)
    requires w.Keys == h.items.Keys
    requires forall y :: y in h.items && h.items[y].itemType == File ==> Retyped(h.items, w)[y].itemType == File
    ensures ItemsKept(f.items, Retyped(h.items, w))
  {
    var items' := Retyped(h.items, w);
    forall y | y in f.items
      ensures y in items' && items'[y].content == f.items[y].content && items'[y].objName == f.items[y].objName
      ensures f.items[y].itemType == File ==> items'[y].itemType == File
    {
      assert h.items[y] == g.items[y];
    }
  }

  lemma BuiltRecords(g: Forest, node: Id, recs: seq<Record>, ids: seq<Id>, h: Forest, links: map<Id, Link>, w: map<Id, ItemType>)
    requires |ids| == |recs| && NewStaged(node, recs, ids, h, |recs|) && AttachMaps(g, node, recs, ids, h, links, |recs|)
    requires Tree(links, h.next) && KeysNamed(node, recs, ids, links, |recs|) && 0 < g.next && FreshIds(ids, g.next, h.next)
    requires w.Keys == h.items.Keys
    ensures forall i :: 0 <= i < |recs| ==>
              ids[i] in links && Retyped(h.items, w)[ids[i]].content == Some(recs[i]) && Retyped(h.items, w)[ids[i]].objName == recs[i].name
              && links[ids[i]].father == Some(FatherOf(node, recs, ids, i))
              && ids[i] != 0 && NameOrSuffixed(KeyOf(links, h.next, ids[i]), recs[i].name)
  {
    var items' := Retyped(h.items, w);
    forall i | 0 <= i < |recs|
      ensures ids[i] in links && items'[ids[i]].content == Some(recs[i]) && items'[ids[i]].objName == recs[i].name
      ensures links[ids[i]].father == Some(FatherOf(node, recs, ids, i))
      ensures ids[i] != 0 && NameOrSuffixed(KeyOf(links, h.next, ids[i]), recs[i].name)
    {
      assert h.items[ids[i]] == RecordItem(recs[i]);
    }
  }

  /** Retyping by types that keep the files keeps every file a file. */
  lemma FilesKept(items: map<Id, DocItem>, w: map<Id, ItemType>)
    requires w.Keys == items.Keys && FileIds(w) == FileIds(TypesOf(items))
    ensures forall y :: y in items && items[y].itemType == File ==> Retyped(items, w)[y].itemType == File
  {
    forall y | y in items && items[y].itemType == File
      ensures Retyped(items, w)[y].itemType == File
    {
      assert y in FileIds(TypesOf(items));
    }
  }

  /** The exceptions an entry can raise. */
  const Raised: set<string> := {"AssertionError", "KeyError", "AttributeError"}

  /** A grown tree keeps what an earlier entry built. */
  lemma EntryBuiltKept(f: Forest, g: Forest, segs: seq<string>, recs: seq<Record>, node: Id, ids: seq<Id>)
    requires Sound(g) && Extends(f.links, g.links) && ItemsKept(f.items, g.items) && RecordsKinded(g)
    requires EntryBuilt(f, segs, recs, node, ids)
    ensures EntryBuilt(g, segs, recs, node, ids)
  {
    FindKept(f.links, f.next, g.links, g.next, segs, node);
    forall i | 0 <= i < |recs|
      ensures ids[i] in g.links && g.items[ids[i]].content == Some(recs[i]) && g.items[ids[i]].objName == recs[i].name
      ensures g.links[ids[i]].father == Some(FatherOf(node, recs, ids, i))
      ensures NameOrSuffixed(KeyOf(g.links, g.next, ids[i]), recs[i].name)
      ensures FatherOf(node, recs, ids, i) in g.items
      ensures g.items[ids[i]].itemType == RecordKind(recs[i], g.items[FatherOf(node, recs, ids, i)].itemType)
    {
      KeyOfKept(f, g, ids[i]);
      assert FatherOf(node, recs, ids, i) in f.links;
    }
  }

  lemma KeyOfKept(f: Forest, g: Forest, x: Id)
    requires Sound(f) && Sound(g) && Extends(f.links, g.links) && x in f.links && x != 0
    ensures KeyOf(g.links, g.next, x) == KeyOf(f.links, f.next, x)
  {
    var p := f.links[x].father.value;
    KeyPathKept(f.links, f.next, g.links, g.next, x);
    KeyPathKept(f.links, f.next, g.links, g.next, p);
    var a, kg, kf := KeyPath(g.links, g.next, p), KeyOf(g.links, g.next, x), KeyOf(f.links, f.next, x);
    assert KeyPath(g.links, g.next, x) == a + [kg];
    assert KeyPath(f.links, f.next, x) == a + [kf];
    assert (a + [kg])[|a|] == kg && (a + [kf])[|a|] == kf;
  }

  /** The entries from `0` to `k`: each present one's file and records are in `f`. */
  ghost predicate EntriesBuilt(f: Forest, entries: seq<(string, seq<Record>)>, live: set<string>,
                               nodes: seq<Id>, idss: seq<seq<Id>>, k: nat)
  {
    k <= |entries| && |nodes| == k && |idss| == k
    && forall i :: 0 <= i < k && entries[i].0 in live ==>
         EntryBuilt(f, Split(entries[i].0, '/'), entries[i].1, nodes[i], idss[i])
  }

  lemma EntriesBuiltKept(f: Forest, g: Forest, entries: seq<(string, seq<Record>)>, live: set<string>,
                         nodes: seq<Id>, idss: seq<seq<Id>>, k: nat)
    requires Sound(g) && Extends(f.links, g.links) && ItemsKept(f.items, g.items) && RecordsKinded(g)
    requires EntriesBuilt(f, entries, live, nodes, idss, k)
    ensures EntriesBuilt(g, entries, live, nodes, idss, k)
  {
    forall i | 0 <= i < k && entries[i].0 in live
      ensures EntryBuilt(g, Split(entries[i].0, '/'), entries[i].1, nodes[i], idss[i])
    {
      EntryBuiltKept(f, g, Split(entries[i].0, '/'), entries[i].1, nodes[i], idss[i]);
    }
  }

  /** The tree of only the repository item. */
  function RootForest(): (f: Forest)
    ensures Sound(f)
  {
    Forest(map[0 := Link(None, [])], map[0 := NewItem(Repo, "full_repo")], 1)
  }

  lemma EntriesBuiltSnoc(f: Forest, entries: seq<(string, seq<Record>)>, live: set<string>,
                         nodes: seq<Id>, idss: seq<seq<Id>>, k: nat, node: Id, ids: seq<Id>)
    requires k < |entries| && EntriesBuilt(f, entries, live, nodes, idss, k)
    requires entries[k].0 in live ==> EntryBuilt(f, Split(entries[k].0, '/'), entries[k].1, node, ids)
    ensures EntriesBuilt(f, entries, live, nodes + [node], idss + [ids], k + 1)
  {
    var nodes', idss' := nodes + [node], idss + [ids];
    forall i | 0 <= i < k + 1 && entries[i].0 in live
      ensures EntryBuilt(f, Split(entries[i].0, '/'), entries[i].1, nodes'[i], idss'[i])
    {
      if i < k {
        assert nodes'[i] == nodes[i] && idss'[i] == idss[i];
      }
    }
  }

  /** The loop over the entries, in order, each path not in `live` (missing or empty on disk) skipped. */
  method BuildForest(entries: seq<(string, seq<Record>)>, live: set<string>)
    returns (r: Result<Forest>, ghost nodes: seq<Id>, ghost idss: seq<seq<Id>>)
    ensures r.Err? ==> r.error in Raised
    ensures r.Ok? ==> Sound(r.value) && EntriesBuilt(r.value, entries, live, nodes, idss, |entries|)
    ensures r.Ok? ==> RecordsKinded(r.value)
  {
    var f := RootForest();
    nodes, idss := [], [];
    for k := 0 to |entries|
      invariant Sound(f) && EntriesBuilt(f, entries, live, nodes, idss, k) && RecordsKinded(f)
    {
      var (path, recs) := entries[k];
      if path !in live {
        EntriesBuiltSnoc(f, entries, live, nodes, idss, k, 0, []);
        nodes, idss := nodes + [0], idss + [[]];
        continue;
      }
      var step, node, ids := AddFile(f, path, recs);
      if step.Err? {
        return Err(step.error), nodes, idss;
      }
      EntriesBuiltKept(f, step.value, entries, live, nodes, idss, k);
      f := step.value;
      EntriesBuiltSnoc(f, entries, live, nodes, idss, k, node, ids);
      nodes, idss := nodes + [node], idss + [ids];
    }
    r := Ok(f);
  }

  /**
   * `MetaInfo.from_project_hierarchy_json`: the tree built from the
   * entries, then its tree paths and depths filled in from the root.
   * `built` is the tree before that last pass, and `nodes[i]`, `idss[i]`
   * are the file item and record items of entry `i`.
   */
  method FromProjectHierarchy(entries: seq<(string, seq<Record>)>, live: set<string>)
    returns (r: Result<MetaInfo>, ghost built: Forest, ghost nodes: seq<Id>, ghost idss: seq<seq<Id>>)
    ensures r.Err? ==> r.error in Raised
    ensures r.Ok? ==> Sound(built) && EntriesBuilt(built, entries, live, nodes, idss, |entries|) && RecordsKinded(built)
    ensures r.Ok? ==> fresh(r.value) && r.value.Valid()
    ensures r.Ok? ==> r.value.links == built.links && r.value.next == built.next
    ensures r.Ok? ==> r.value.items == DepthsBelow(built.links, built.next, 0, TreePathsBelow(built.links, built.next, 0, [], built.items))
    ensures r.Ok? ==> r.value.repoPath == "" && r.value.jumpFiles == [] && !r.value.inGenerationProcess
  {
    var b;
    b, nodes, idss := BuildForest(entries, live);
    if b.Err? {
      return Err(b.error), Forest(map[], map[], 0), nodes, idss;
    }
    built := b.value;
    var m := NewMetaInfo(b.value);
    r := Ok(m);
  }

  /** The `MetaInfo` over a built tree, its tree paths and depths filled in from the root. */
  method NewMetaInfo(f: Forest) returns (m: MetaInfo)
    requires Sound(f)
    ensures fresh(m) && m.Valid()
    ensures m.links == f.links && m.next == f.next
    ensures m.items == DepthsBelow(f.links, f.next, 0, TreePathsBelow(f.links, f.next, 0, [], f.items))
    ensures m.repoPath == "" && m.jumpFiles == [] && !m.inGenerationProcess
  {
    m := new MetaInfo(f.links, f.items, f.next);
    ghost var paths := TreePathsBelow(f.links, f.next, 0, [], f.items);
    m.ParseTreePath(0, []);
    assert m.items == paths;
    var depth := m.CheckDepth(0);
    assert m.items == DepthsBelow(f.links, f.next, 0, paths) && m.items.Keys == f.links.Keys;
  }
}
