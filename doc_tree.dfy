// The documentation tree of a repository: the repository root, its
// directories and files, and the code objects inside each file. Items live
// in an arena of ids; `links` holds each item's father and its children (in
// insertion order, under their keys) and `items` the rest of its fields.
// Every father has a smaller id than its children, which is what makes walks
// up and down the tree terminate.
module DocTree {
  import opened Wrappers
  import opened PyStrings
  import opened SeqUtil

  /**
   * An item's identity. Python compares `DocItem`s with the dataclass `==`
   * (field by field, as in `item == now` or `x not in reference_who`); the
   * model compares ids, so two distinct items with equal fields count as
   * different here.
   */
  type Id = nat

  datatype ItemType = Repo | Dir | File | Class | ClassFunction | Function | SubFunction | GlobalVar

  datatype ItemStatus = DocUpToDate | DocHasNotBeenGenerated | CodeChanged | AddNewReferencer | ReferencerNotExist

  /** The enum member's `.name`. */
  function TypeName(t: ItemType): string
  {
    match t
    case Repo => "_repo"
    case Dir => "_dir"
    case File => "_file"
    case Class => "_class"
    case ClassFunction => "_class_function"
    case Function => "_function"
    case SubFunction => "_sub_function"
    case GlobalVar => "_global_var"
  }

  predicate IsFunctionKind(t: ItemType)
  {
    t == Function || t == SubFunction || t == ClassFunction
  }

  predicate Structural(t: ItemType)
  {
    t == File || t == Dir || t == Repo
  }

  /** `DocItemType.to_str`: the structure-file type name of a code object, the member name otherwise. */
  function ToStr(t: ItemType): (r: string)
    ensures r == "ClassDef" <==> t == Class
    ensures r == "FunctionDef" <==> IsFunctionKind(t)
  {
    if t == Class then "ClassDef"
    else if IsFunctionKind(t) then "FunctionDef"
    else TypeName(t)
  }

  /** One object record of a file in the project hierarchy JSON (the item's `content`). */
  datatype Record = Record(
    name: string,
    kind: string,
    codeStartLine: int,
    codeEndLine: int,
    nameColumn: int,
    codeContent: Option<string>,
    params: seq<string>,
    mdContent: seq<string>,
    itemStatus: Option<ItemStatus>,
    referenceWho: Option<seq<string>>,
    whoReferenceMe: Option<seq<string>>,
    specialReferenceType: Option<seq<bool>>)

  /** A `DocItem` without its father and children; `content` is None for the repository, directories and files. */
  datatype DocItem = DocItem(
    itemType: ItemType,
    itemStatus: ItemStatus,
    objName: string,
    codeStartLine: int,
    codeEndLine: int,
    mdContent: seq<string>,
    content: Option<Record>,
    depth: int,
    treePath: seq<Id>,
    referenceWho: seq<Id>,
    whoReferenceMe: seq<Id>,
    specialReferenceType: seq<bool>,
    referenceWhoNameList: seq<string>,
    whoReferenceMeNameList: seq<string>,
    hasTask: bool,
    multithreadTaskId: int)

  /** A fresh item with the dataclass defaults. */
  function NewItem(t: ItemType, name: string): (d: DocItem)
    ensures d.itemType == t && d.objName == name && d.itemStatus == DocHasNotBeenGenerated
    ensures d.referenceWho == [] && d.whoReferenceMe == [] && d.multithreadTaskId == -1 && !d.hasTask
  {
    DocItem(t, DocHasNotBeenGenerated, name, -1, -1, [], None, 0, [], [], [], [], [], [], false, -1)
  }

  /** One white-list entry: a file and the name of an object in it. */
  datatype WhiteEntry = WhiteEntry(filePath: string, idText: string)

  /** The father and the `children` dict, as an ordered list of (key, child). */
  datatype Link = Link(father: Option<Id>, children: seq<(string, Id)>)

  /** The position of child `x` in `cs`, or |cs|. */
  function ChildIndex(cs: seq<(string, Id)>, x: Id): (k: nat)
    ensures k <= |cs|
    ensures k < |cs| ==> cs[k].1 == x
    ensures forall j :: 0 <= j < k ==> cs[j].1 != x
  {
    if |cs| == 0 || cs[0].1 == x then 0 else 1 + ChildIndex(cs[1..], x)
  }

  /** The position of key `key` in `cs`, or |cs|. */
  function KeyIndex(cs: seq<(string, Id)>, key: string): (k: nat)
    ensures k <= |cs|
    ensures k < |cs| ==> cs[k].0 == key
    ensures forall j :: 0 <= j < k ==> cs[j].0 != key
  {
    if |cs| == 0 || cs[0].0 == key then 0 else 1 + KeyIndex(cs[1..], key)
  }

  /** `children[key]` when `key in children`. */
  function Lookup(cs: seq<(string, Id)>, key: string): (r: Option<Id>)
    ensures r.Some? <==> exists j :: 0 <= j < |cs| && cs[j].0 == key
  {
    var k := KeyIndex(cs, key);
    if k < |cs| then Some(cs[k].1) else None
  }

  predicate KeysDistinct(cs: seq<(string, Id)>)
  {
    forall i, j :: 0 <= i < j < |cs| ==> cs[i].0 != cs[j].0
  }

  predicate IdsDistinct(cs: seq<(string, Id)>)
  {
    forall i, j :: 0 <= i < j < |cs| ==> cs[i].1 != cs[j].1
  }

  /** Item 0 is the root; every other item has a father with a smaller id. */
  ghost predicate Upward(links: map<Id, Link>)
  {
    0 in links && links[0].father.None?
    && forall x {:trigger links[x]} :: x in links && x != 0 ==>
         links[x].father.Some? && links[x].father.value in links && links[x].father.value < x
  }

  /**
   * The tree shape: ids below `next`, children point back to their father,
   * keys and children are distinct within one dict, and every item but the
   * root is listed by its father.
   */
  ghost predicate Tree(links: map<Id, Link>, next: nat)
  {
    Upward(links) && Walkable(links, next)
    && (forall x, k :: x in links && 0 <= k < |links[x].children| ==>
          links[x].children[k].1 in links && links[links[x].children[k].1].father == Some(x))
    && (forall x :: x in links ==> KeysDistinct(links[x].children) && IdsDistinct(links[x].children))
    && (forall x {:trigger ChildIndex(links[links[x].father.value].children, x)} :: x in links && x != 0 ==>
          ChildIndex(links[links[x].father.value].children, x) < |links[links[x].father.value].children|)
  }

  /** What a walk from the root needs: ids below `next`, children present and above their father. */
  ghost predicate Walkable(links: map<Id, Link>, next: nat)
  {
    (forall x :: x in links ==> x < next)
    && forall x, k :: x in links && 0 <= k < |links[x].children| ==>
         links[x].children[k].1 in links && x < links[x].children[k].1
  }

  /** The links of a tree together with the next free id. */
  datatype Skeleton = Skeleton(links: map<Id, Link>, next: nat)

  /** A skeleton whose fathers come before their children and whose walks down end. */
  type Shape = s: Skeleton | Upward(s.links) && Walkable(s.links, s.next)
    witness Skeleton(map[0 := Link(None, [])], 1)

  ghost predicate Arena(links: map<Id, Link>, items: map<Id, DocItem>, next: nat)
  {
    Tree(links, next) && links.Keys == items.Keys
  }

  // ---------------------------------------------------------------------
  // Paths to the root
  // ---------------------------------------------------------------------

  /** The `tree_path` of `x`: the items from the root down to `x`. */
  function PathTo(links: map<Id, Link>, x: Id): (p: seq<Id>)
    requires Upward(links) && x in links
    ensures |p| >= 1 && p[|p| - 1] == x && p[0] == 0
    ensures forall k :: 0 <= k < |p| ==> p[k] in links && p[k] <= x
    decreases x
  {
    match links[x].father
    case None => [x]
    case Some(f) => PathTo(links, f) + [x]
  }

  /** A path determines its last item, and an ancestor's path is a prefix of the descendant's. */
  lemma {:induction false} PathPrefix(links: map<Id, Link>, a: Id, y: Id)
    requires Upward(links) && y in links && a in PathTo(links, y)
    ensures a in links
    ensures |PathTo(links, a)| <= |PathTo(links, y)|
    ensures PathTo(links, y)[..|PathTo(links, a)|] == PathTo(links, a)
    decreases y
  {
    var p := PathTo(links, y);
    if a != y {
      var f := links[y].father.value;
      assert p == PathTo(links, f) + [y];
      assert a in PathTo(links, f);
      PathPrefix(links, a, f);
      assert p[..|PathTo(links, f)|] == PathTo(links, f);
    }
  }

  /** An item's path has each item exactly at its own level. */
  lemma PathAtLevel(links: map<Id, Link>, a: Id, y: Id, k: nat)
    requires Upward(links) && y in links && k < |PathTo(links, y)| && PathTo(links, y)[k] == a
    ensures |PathTo(links, a)| == k + 1 && PathTo(links, y)[..k + 1] == PathTo(links, a)
  {
    PathAtLevelRec(links, y, k);
  }

  lemma {:induction false} PathAtLevelRec(links: map<Id, Link>, y: Id, k: nat)
    requires Upward(links) && y in links && k < |PathTo(links, y)|
    ensures |PathTo(links, PathTo(links, y)[k])| == k + 1
    ensures PathTo(links, y)[..k + 1] == PathTo(links, PathTo(links, y)[k])
    decreases y
  {
    var p := PathTo(links, y);
    if k < |p| - 1 {
      var f := links[y].father.value;
      assert p == PathTo(links, f) + [y];
      PathAtLevelRec(links, f, k);
      assert p[..k + 1] == PathTo(links, f)[..k + 1];
    }
  }

  /** The child of `x` on the way down to a proper descendant `y`, and where `x` lists it. */
  lemma ChildOnPath(links: map<Id, Link>, next: nat, x: Id, y: Id) returns (c: Id, k: nat)
    requires Tree(links, next) && y in links && x in PathTo(links, y) && x != y
    ensures x in links && c in links && k < |links[x].children| && links[x].children[k].1 == c
    ensures links[c].father == Some(x)
    ensures |PathTo(links, c)| == |PathTo(links, x)| + 1 && PathTo(links, c) == PathTo(links, x) + [c]
    ensures |PathTo(links, c)| <= |PathTo(links, y)| && PathTo(links, y)[..|PathTo(links, c)|] == PathTo(links, c)
  {
    PathPrefix(links, x, y);
    var p := PathTo(links, y);
    var n := |PathTo(links, x)|;
    assert p[n - 1] == x;
    assert n < |p|;
    c := p[n];
    PathAtLevel(links, c, y, n);
    var pc := PathTo(links, c);
    assert |pc| == n + 1 && pc == p[..n + 1];
    assert c != 0;
    var f := links[c].father.value;
    assert pc == PathTo(links, f) + [c];
    calc {
      PathTo(links, f);
      pc[..n];
      p[..n + 1][..n];
      p[..n];
    }
    assert PathTo(links, f)[n - 1] == f;
    k := ChildIndex(links[x].children, c);
  }

  // ---------------------------------------------------------------------
  // get_full_name
  // ---------------------------------------------------------------------

  function NamesAlong(items: map<Id, DocItem>, p: seq<Id>): (r: seq<string>)
    requires forall k :: 0 <= k < |p| ==> p[k] in items
    ensures |r| == |p| && forall k :: 0 <= k < |p| ==> r[k] == items[p[k]].objName
  {
    if |p| == 0 then [] else [items[p[0]].objName] + NamesAlong(items, p[1..])
  }

  /** `get_full_name()`: the root's own name, otherwise the names below the root joined by `/`. */
  function FullName(links: map<Id, Link>, items: map<Id, DocItem>, x: Id): string
    requires Upward(links) && x in links && links.Keys <= items.Keys
  {
    if links[x].father.None? then items[x].objName
    else Join(NamesAlong(items, PathTo(links, x)[1..]), "/")
  }

  /** A child's full name is its father's with its own name appended, or its own name below the root. */
  lemma FullNameOfChild(links: map<Id, Link>, items: map<Id, DocItem>, x: Id)
    requires Upward(links) && x in links && links.Keys <= items.Keys && links[x].father.Some?
    ensures var f := links[x].father.value;
            FullName(links, items, x)
            == if links[f].father.None? then items[x].objName
               else FullName(links, items, f) + "/" + items[x].objName
  {
    var f := links[x].father.value;
    var pf := PathTo(links, f);
    assert PathTo(links, x) == pf + [x];
    assert PathTo(links, x)[1..] == pf[1..] + [x];
    NamesAlongSnoc(items, pf[1..], x);
    if links[f].father.None? {
      assert pf == [f];
      assert pf[1..] == [];
    } else {
      assert |pf| >= 2;
      JoinSnoc(NamesAlong(items, pf[1..]), items[x].objName, "/");
    }
  }

  lemma NamesAlongSnoc(items: map<Id, DocItem>, p: seq<Id>, x: Id)
    requires x in items && forall k :: 0 <= k < |p| ==> p[k] in items
    ensures NamesAlong(items, p + [x]) == NamesAlong(items, p) + [items[x].objName]
  {
  }

  /** One step up a path: the item at `level - 1` and its father's path. */
  lemma PathStepUp(links: map<Id, Link>, x: Id, level: nat, a: Id)
    requires Upward(links) && x in links && 0 < level <= |PathTo(links, x)|
    requires a in links && PathTo(links, a) == PathTo(links, x)[..level]
    ensures PathTo(links, x)[level - 1] == a
    ensures links[a].father.None? <==> level == 1
    ensures links[a].father.Some? ==> PathTo(links, links[a].father.value) == PathTo(links, x)[..level - 1]
  {
    var p, pa := PathTo(links, x), PathTo(links, a);
    assert pa[level - 1] == a;
    if links[a].father.Some? {
      var f := links[a].father.value;
      assert pa == PathTo(links, f) + [a];
      assert PathTo(links, f) == pa[..level - 1];
      assert pa[..level - 1] == p[..level - 1];
    }
  }

  lemma NamesAlongCons(items: map<Id, DocItem>, p: seq<Id>, level: nat)
    requires 0 < level <= |p| && forall k :: 0 <= k < |p| ==> p[k] in items
    ensures NamesAlong(items, p[level - 1..]) == [items[p[level - 1]].objName] + NamesAlong(items, p[level..])
  {
    assert p[level - 1..] == [p[level - 1]] + p[level..];
  }

  /** `get_full_name` as the source computes it: walking up and prepending names, then dropping the root's. */
  method GetFullName(links: map<Id, Link>, items: map<Id, DocItem>, x: Id) returns (name: string)
    requires Upward(links) && x in links && links.Keys <= items.Keys
    ensures name == FullName(links, items, x)
  {
    if links[x].father.None? {
      return items[x].objName;
    }
    var nameList: seq<string> := [];
    var now: Option<Id> := Some(x);
    ghost var p := PathTo(links, x);
    ghost var level := |p|;
    while now.Some?
      invariant 0 <= level <= |p|
      invariant now.Some? <==> level > 0
      invariant now.Some? ==> now.value in links && PathTo(links, now.value) == p[..level]
      invariant nameList == NamesAlong(items, p[level..])
      decreases level
    {
      var a := now.value;
      PathStepUp(links, x, level, a);
      NamesAlongCons(items, p, level);
      nameList := [items[a].objName] + nameList;
      now := links[a].father;
      level := level - 1;
    }
    assert p[level..] == p;
    FullNameFromNames(links, items, x, nameList);
    name := Join(nameList[1..], "/");
  }

  lemma FullNameFromNames(links: map<Id, Link>, items: map<Id, DocItem>, x: Id, names: seq<string>)
    requires Upward(links) && x in links && links.Keys <= items.Keys && links[x].father.Some?
    requires names == NamesAlong(items, PathTo(links, x))
    ensures |names| >= 1 && Join(names[1..], "/") == FullName(links, items, x)
  {
    var p := PathTo(links, x);
    assert names[1..] == NamesAlong(items, p[1..]);
  }

  // ---------------------------------------------------------------------
  // need_to_generate
  // ---------------------------------------------------------------------

  /** Some entry of the ignore list is a prefix of `name`. */
  predicate Ignored(name: string, ignore: seq<string>)
  {
    exists p :: p in ignore && StartsWith(name, p)
  }

  /** The walk up from `cur`: the verdict at the first file found, false at the top. */
  function ScanFathers(links: map<Id, Link>, items: map<Id, DocItem>, cur: Option<Id>, name: string, ignore: seq<string>): bool
    requires Upward(links) && links.Keys <= items.Keys && (cur.Some? ==> cur.value in links)
    decreases if cur.Some? then cur.value + 1 else 0
  {
    match cur
    case None => false
    case Some(a) =>
      if items[a].itemType == File then !Ignored(name, ignore)
      else ScanFathers(links, items, links[a].father, name, ignore)
  }

  /** `need_to_generate(doc_item, ignore_list)`. */
  function NeedToGenerate(links: map<Id, Link>, items: map<Id, DocItem>, x: Id, ignore: seq<string>): bool
    requires Upward(links) && x in links && links.Keys <= items.Keys
  {
    if items[x].itemStatus == DocUpToDate then false
    else if Structural(items[x].itemType) then false
    else ScanFathers(links, items, links[x].father, FullName(links, items, x), ignore)
  }

  predicate FileOnPath(items: map<Id, DocItem>, p: seq<Id>)
    requires forall k :: 0 <= k < |p| ==> p[k] in items
  {
    exists k :: 0 <= k < |p| && items[p[k]].itemType == File
  }

  /** Some proper ancestor of `x` is a file. */
  predicate HasFileAbove(links: map<Id, Link>, items: map<Id, DocItem>, x: Id)
    requires Upward(links) && x in links && links.Keys <= items.Keys
  {
    var p := PathTo(links, x);
    FileOnPath(items, p[..|p| - 1])
  }

  lemma {:induction false} ScanFathersMeaning(links: map<Id, Link>, items: map<Id, DocItem>, a: Id, name: string, ignore: seq<string>)
    requires Upward(links) && links.Keys <= items.Keys && a in links
    ensures ScanFathers(links, items, Some(a), name, ignore) <==> FileOnPath(items, PathTo(links, a)) && !Ignored(name, ignore)
    decreases a
  {
    var p := PathTo(links, a);
    if items[a].itemType == File {
      assert items[p[|p| - 1]].itemType == File;
    } else {
      match links[a].father {
        case None =>
          assert p == [a];
        case Some(f) =>
          ScanFathersMeaning(links, items, f, name, ignore);
          var pf := PathTo(links, f);
          assert p == pf + [a];
          if FileOnPath(items, p) {
            var k :| 0 <= k < |p| && items[p[k]].itemType == File;
            assert k < |pf| && pf[k] == p[k];
          }
          if FileOnPath(items, pf) {
            var k :| 0 <= k < |pf| && items[pf[k]].itemType == File;
            assert p[k] == pf[k];
          }
      }
    }
  }

  /**
   * An item needs documentation exactly when it is not up to date, is a code
   * object rather than the repository, a directory or a file, lies inside a
   * file, and its full name starts with no ignored prefix.
   */
  lemma NeedToGenerateMeaning(links: map<Id, Link>, items: map<Id, DocItem>, x: Id, ignore: seq<string>)
    requires Upward(links) && x in links && links.Keys <= items.Keys
    ensures NeedToGenerate(links, items, x, ignore)
            <==> items[x].itemStatus != DocUpToDate && !Structural(items[x].itemType)
                 && HasFileAbove(links, items, x) && !Ignored(FullName(links, items, x), ignore)
  {
    var p := PathTo(links, x);
    match links[x].father {
      case None =>
        assert p[..|p| - 1] == [];
      case Some(f) =>
        ScanFathersMeaning(links, items, f, FullName(links, items, x), ignore);
        assert p[..|p| - 1] == PathTo(links, f);
    }
  }

  /** The `while doc_item` walk of `need_to_generate`. */
  method NeedToGenerateScan(links: map<Id, Link>, items: map<Id, DocItem>, x: Id, ignore: seq<string>) returns (r: bool)
    requires Upward(links) && x in links && links.Keys <= items.Keys
    ensures r == NeedToGenerate(links, items, x, ignore)
  {
    if items[x].itemStatus == DocUpToDate {
      return false;
    }
    var relFilePath := GetFullName(links, items, x);
    if Structural(items[x].itemType) {
      return false;
    }
    var cur := links[x].father;
    while cur.Some?
      invariant cur.Some? ==> cur.value in links
      invariant ScanFathers(links, items, cur, relFilePath, ignore) == ScanFathers(links, items, links[x].father, relFilePath, ignore)
      decreases if cur.Some? then cur.value + 1 else 0
    {
      var a := cur.value;
      if items[a].itemType == File {
        var i := 0;
        while i < |ignore|
          invariant 0 <= i <= |ignore|
          invariant forall j :: 0 <= j < i ==> !StartsWith(relFilePath, ignore[j])
        {
          if StartsWith(relFilePath, ignore[i]) {
            return false;
          }
          i := i + 1;
        }
        return true;
      }
      cur := links[a].father;
    }
    return false;
  }

  // ---------------------------------------------------------------------
  // has_ans_relation
  // ---------------------------------------------------------------------

  /** `has_ans_relation(a, b)`, reading the stored `tree_path`s. */
  function HasAnsRelation(items: map<Id, DocItem>, a: Id, b: Id): Option<Id>
    requires a in items && b in items
  {
    if b in items[a].treePath then Some(b)
    else if a in items[b].treePath then Some(a)
    else None
  }

  /** Every stored `tree_path` is the item's path from the root (what `parse_tree_path` leaves). */
  ghost predicate TreePathsFinal(links: map<Id, Link>, items: map<Id, DocItem>)
    requires Upward(links) && links.Keys <= items.Keys
  {
    forall x :: x in links ==> items[x].treePath == PathTo(links, x)
  }

  /**
   * With final tree paths, two items are related exactly when one lies on
   * the other's path from the root, and the answer is the upper one: an
   * ancestor of both.
   */
  lemma HasAnsRelationMeaning(links: map<Id, Link>, items: map<Id, DocItem>, a: Id, b: Id)
    requires Upward(links) && links.Keys == items.Keys && a in links && b in links
    requires TreePathsFinal(links, items)
    ensures HasAnsRelation(items, a, b).Some? <==> b in PathTo(links, a) || a in PathTo(links, b)
    ensures HasAnsRelation(items, a, b).Some? ==>
              var u := HasAnsRelation(items, a, b).value;
              u in PathTo(links, a) && u in PathTo(links, b)
  {
    var pa, pb := PathTo(links, a), PathTo(links, b);
    assert a == pa[|pa| - 1] && b == pb[|pb| - 1];
  }

  // ---------------------------------------------------------------------
  // find
  // ---------------------------------------------------------------------

  /** The key under which `x` is listed by its father. */
  function KeyOf(links: map<Id, Link>, next: nat, x: Id): string
    requires Tree(links, next) && x in links && x != 0
  {
    var cs := links[links[x].father.value].children;
    cs[ChildIndex(cs, x)].0
  }

  /** The keys from the root down to `x`: the argument `find` needs to reach it. */
  function KeyPath(links: map<Id, Link>, next: nat, x: Id): seq<string>
    requires Tree(links, next) && x in links
    decreases x
  {
    match links[x].father
    case None => []
    case Some(f) => KeyPath(links, next, f) + [KeyOf(links, next, x)]
  }

  /** `find(path)` started at item `a`. */
  function FindPathFrom(links: map<Id, Link>, next: nat, a: Id, path: seq<string>): (r: Option<Id>)
    requires Tree(links, next) && a in links
    ensures r.Some? ==> r.value in links
    decreases |path|
  {
    if |path| == 0 then Some(a)
    else
      match Lookup(links[a].children, path[0])
      case None => None
      case Some(c) => FindPathFrom(links, next, c, path[1..])
  }

  /** `DocItem.find` on the repository root. */
  function FindPath(links: map<Id, Link>, next: nat, path: seq<string>): (r: Option<Id>)
    requires Tree(links, next)
    ensures r.Some? ==> r.value in links
  {
    FindPathFrom(links, next, 0, path)
  }

  /** A child found by its key is listed under that key. */
  lemma LookupKeyOf(links: map<Id, Link>, next: nat, a: Id, key: string)
    requires Tree(links, next) && a in links && Lookup(links[a].children, key).Some?
    ensures var c := Lookup(links[a].children, key).value;
            c in links && c != 0 && links[c].father == Some(a) && KeyOf(links, next, c) == key
  {
    var cs := links[a].children;
    var j := KeyIndex(cs, key);
    var c := cs[j].1;
    assert links[c].father == Some(a);
    var i := ChildIndex(cs, c);
    assert IdsDistinct(cs);
    assert i == j;
  }

  lemma {:induction false} FindPathFromKeys(links: map<Id, Link>, next: nat, a: Id, path: seq<string>)
    requires Tree(links, next) && a in links && FindPathFrom(links, next, a, path).Some?
    ensures KeyPath(links, next, FindPathFrom(links, next, a, path).value) == KeyPath(links, next, a) + path
    decreases |path|
  {
    if |path| == 0 {
      assert KeyPath(links, next, a) + path == KeyPath(links, next, a);
    } else {
      var c := FindStep(links, next, a, path);
      FindPathFromKeys(links, next, c, path[1..]);
      ConsKey(KeyPath(links, next, a), path);
    }
  }

  lemma ConsKey(keys: seq<string>, path: seq<string>)
    requires |path| > 0
    ensures keys + [path[0]] + path[1..] == keys + path
  {
    assert [path[0]] + path[1..] == path;
  }

  /** The first step of a successful `find`: the child listed under the first key. */
  lemma FindStep(links: map<Id, Link>, next: nat, a: Id, path: seq<string>) returns (c: Id)
    requires Tree(links, next) && a in links && |path| > 0 && FindPathFrom(links, next, a, path).Some?
    ensures c in links && FindPathFrom(links, next, c, path[1..]) == FindPathFrom(links, next, a, path)
    ensures KeyPath(links, next, c) == KeyPath(links, next, a) + [path[0]]
  {
    c := Lookup(links[a].children, path[0]).value;
    LookupKeyOf(links, next, a, path[0]);
  }

  lemma {:induction false} FindPathFromAppend(links: map<Id, Link>, next: nat, a: Id, p: seq<string>, key: string)
    requires Tree(links, next) && a in links && FindPathFrom(links, next, a, p).Some?
    ensures FindPathFrom(links, next, a, p + [key]) == FindPathFrom(links, next, FindPathFrom(links, next, a, p).value, [key])
    decreases |p|
  {
    if |p| > 0 {
      var c := Lookup(links[a].children, p[0]).value;
      assert (p + [key])[0] == p[0] && (p + [key])[1..] == p[1..] + [key];
      FindPathFromAppend(links, next, c, p[1..], key);
    }
  }

  lemma {:induction false} FindKeyPathRec(links: map<Id, Link>, next: nat, x: Id)
    requires Tree(links, next) && x in links
    ensures FindPath(links, next, KeyPath(links, next, x)) == Some(x)
    decreases x
  {
    match links[x].father {
      case None =>
      case Some(f) =>
        FindKeyPathRec(links, next, f);
        var cs := links[f].children;
        var key := KeyOf(links, next, x);
        FindPathFromAppend(links, next, 0, KeyPath(links, next, f), key);
        var i := ChildIndex(cs, x);
        assert KeysDistinct(cs);
        assert KeyIndex(cs, key) == i;
        assert Lookup(cs, key) == Some(x);
        assert FindPathFrom(links, next, x, []) == Some(x);
    }
  }

  /** `find` and the key path are inverse: each item is found by its keys, and a found item has exactly the keys asked for. */
  lemma FindKeyPath(links: map<Id, Link>, next: nat, x: Id, path: seq<string>)
    requires Tree(links, next) && x in links
    ensures FindPath(links, next, KeyPath(links, next, x)) == Some(x)
    ensures FindPath(links, next, path) == Some(x) ==> KeyPath(links, next, x) == path
  {
    FindKeyPathRec(links, next, x);
    if FindPath(links, next, path) == Some(x) {
      FindPathFromKeys(links, next, 0, path);
      assert KeyPath(links, next, 0) == [];
      assert [] + path == path;
    }
  }

  /** The `while pos < len(path)` loop of `find`. */
  method FindByPath(links: map<Id, Link>, next: nat, path: seq<string>) returns (r: Option<Id>)
    requires Tree(links, next)
    ensures r == FindPath(links, next, path)
  {
    var pos := 0;
    var now: Id := 0;
    while pos < |path|
      invariant 0 <= pos <= |path| && now in links
      invariant FindPathFrom(links, next, now, path[pos..]) == FindPath(links, next, path)
    {
      var c := Lookup(links[now].children, path[pos]);
      if c.None? {
        return None;
      }
      assert path[pos..][1..] == path[pos + 1..];
      now := c.value;
      pos := pos + 1;
    }
    assert path[pos..] == [];
    return Some(now);
  }

  // ---------------------------------------------------------------------
  // get_travel_list
  // ---------------------------------------------------------------------

  /** `get_travel_list`: `x`, then each child's list in dict order. */
  function TravelList(links: map<Id, Link>, next: nat, x: Id): (r: seq<Id>)
    requires Walkable(links, next) && x in links
    ensures |r| >= 1 && r[0] == x
    ensures forall i :: 0 <= i < |r| ==> r[i] in links
    decreases next - x, 1
  {
    [x] + TravelFrom(links, next, x, 0)
  }

  function TravelFrom(links: map<Id, Link>, next: nat, x: Id, k: nat): (r: seq<Id>)
    requires Walkable(links, next) && x in links && k <= |links[x].children|
    ensures forall i :: 0 <= i < |r| ==> r[i] in links
    decreases next - x, 0, |links[x].children| - k
  {
    var cs := links[x].children;
    if k == |cs| then []
    else
      TravelList(links, next, cs[k].1) + TravelFrom(links, next, x, k + 1)
  }

  /** Everything in the travel list of `x` lies below `x`. */
  lemma {:induction false} TravelListBelow(links: map<Id, Link>, next: nat, x: Id, y: Id)
    requires Tree(links, next) && x in links && y in TravelList(links, next, x)
    ensures y in links && x in PathTo(links, y)
    decreases next - x, 1
  {
    if y != x {
      assert y in TravelFrom(links, next, x, 0);
      TravelFromBelow(links, next, x, 0, y);
    }
  }

  lemma {:induction false} TravelFromBelow(links: map<Id, Link>, next: nat, x: Id, k: nat, y: Id)
    requires Tree(links, next) && x in links && k <= |links[x].children| && y in TravelFrom(links, next, x, k)
    ensures y in links && x in PathTo(links, y)
    decreases next - x, 0, |links[x].children| - k
  {
    var cs := links[x].children;
    var c := cs[k].1;
    assert links[c].father == Some(x);
    if y in TravelList(links, next, c) {
      TravelListBelow(links, next, c, y);
      PathPrefix(links, c, y);
      assert PathTo(links, c) == PathTo(links, x) + [c];
      assert x in PathTo(links, c);
      assert PathTo(links, y)[..|PathTo(links, c)|] == PathTo(links, c);
      var i :| 0 <= i < |PathTo(links, c)| && PathTo(links, c)[i] == x;
      assert PathTo(links, y)[i] == x;
    } else {
      TravelFromBelow(links, next, x, k + 1, y);
    }
  }

  lemma {:induction false} TravelFromHasChild(links: map<Id, Link>, next: nat, x: Id, k: nat, j: nat, y: Id)
    requires Tree(links, next) && x in links && k <= j < |links[x].children|
    requires links[x].children[j].1 in links && y in TravelList(links, next, links[x].children[j].1)
    ensures y in TravelFrom(links, next, x, k)
    decreases j - k
  {
    if k < j {
      TravelFromHasChild(links, next, x, k + 1, j, y);
    }
  }

  /** Everything below `x` is in its travel list. */
  lemma {:induction false} TravelListComplete(links: map<Id, Link>, next: nat, x: Id, y: Id)
    requires Tree(links, next) && y in links && x in PathTo(links, y)
    ensures x in links && y in TravelList(links, next, x)
    decreases |PathTo(links, y)| - |PathTo(links, x)|
  {
    PathPrefix(links, x, y);
    if x != y {
      var c, k := ChildOnPath(links, next, x, y);
      var pc := PathTo(links, c);
      assert c in pc;
      assert PathTo(links, y)[|pc| - 1] == c;
      TravelListComplete(links, next, c, y);
      TravelFromHasChild(links, next, x, 0, k, y);
    }
  }

  /** `get_all_files`: the files in travel order from the root. */
  function AllFiles(links: map<Id, Link>, items: map<Id, DocItem>, next: nat): (r: seq<Id>)
    requires Arena(links, items, next)
    ensures forall k :: 0 <= k < |r| ==> r[k] in links
  {
    var t := TravelList(links, next, 0);
    var r := FilesIn(items, t);
    assert forall k :: 0 <= k < |r| ==> r[k] in t;
    r
  }

  function FilesIn(items: map<Id, DocItem>, t: seq<Id>): (r: seq<Id>)
    requires forall k :: 0 <= k < |t| ==> t[k] in items
    ensures forall y :: y in r <==> y in t && items[y].itemType == File
  {
    if |t| == 0 then []
    else (if items[t[0]].itemType == File then [t[0]] else []) + FilesIn(items, t[1..])
  }

  /** The file list holds exactly the file items. */
  lemma AllFilesMembers(links: map<Id, Link>, items: map<Id, DocItem>, next: nat, y: Id)
    requires Arena(links, items, next)
    ensures y in AllFiles(links, items, next) <==> y in links && items[y].itemType == File
  {
    var t := TravelList(links, next, 0);
    if y in links {
      TravelListComplete(links, next, 0, y);
    }
    if y in t {
      TravelListBelow(links, next, 0, y);
    }
  }

  // ---------------------------------------------------------------------
  // check_depth
  // ---------------------------------------------------------------------

  /** The `depth` `check_depth` assigns: 0 for a leaf, one more than the deepest child otherwise. */
  function Height(links: map<Id, Link>, next: nat, x: Id): nat
    requires Walkable(links, next) && x in links
    decreases next - x, 1
  {
    if |links[x].children| == 0 then 0
    else 1 + MaxChildHeight(links, next, x, |links[x].children|)
  }

  /** The largest height among the first `k` children, starting from 0 (the `max_child_depth` loop). */
  function MaxChildHeight(links: map<Id, Link>, next: nat, x: Id, k: nat): nat
    requires Walkable(links, next) && x in links && k <= |links[x].children|
    decreases next - x, 0, k
  {
    if k == 0 then 0
    else
      var c := links[x].children[k - 1].1;
      var h := Height(links, next, c);
      var m := MaxChildHeight(links, next, x, k - 1);
      if h > m then h else m
  }

  lemma {:induction false} MaxChildHeightBounds(links: map<Id, Link>, next: nat, x: Id, k: nat, j: nat)
    requires Tree(links, next) && x in links && j < k <= |links[x].children|
    ensures links[x].children[j].1 in links
    ensures Height(links, next, links[x].children[j].1) <= MaxChildHeight(links, next, x, k)
    decreases k
  {
    MaxChildHeightStep(links, next, x, k);
    if j < k - 1 {
      MaxChildHeightBounds(links, next, x, k - 1, j);
    }
  }

  /** One more child can only raise the maximum, and to at least that child's height. */
  lemma MaxChildHeightStep(links: map<Id, Link>, next: nat, x: Id, k: nat)
    requires Tree(links, next) && x in links && 0 < k <= |links[x].children|
    ensures links[x].children[k - 1].1 in links
    ensures MaxChildHeight(links, next, x, k - 1) <= MaxChildHeight(links, next, x, k)
    ensures Height(links, next, links[x].children[k - 1].1) <= MaxChildHeight(links, next, x, k)
  {
  }

  lemma {:induction false} MaxChildHeightAttained(links: map<Id, Link>, next: nat, x: Id, k: nat) returns (j: nat)
    requires Tree(links, next) && x in links && 0 < k <= |links[x].children|
    ensures j < k && links[x].children[j].1 in links
    ensures Height(links, next, links[x].children[j].1) == MaxChildHeight(links, next, x, k)
    decreases k
  {
    var c := links[x].children[k - 1].1;
    if k == 1 || Height(links, next, c) > MaxChildHeight(links, next, x, k - 1) {
      j := k - 1;
    } else {
      j := MaxChildHeightAttained(links, next, x, k - 1);
    }
  }

  /** Leaves have height 0; otherwise every child is lower and some child is exactly one lower. */
  lemma HeightMeaning(links: map<Id, Link>, next: nat, x: Id) returns (deepest: nat)
    requires Tree(links, next) && x in links
    ensures Height(links, next, x) == 0 <==> |links[x].children| == 0
    ensures forall j :: 0 <= j < |links[x].children| ==>
              links[x].children[j].1 in links
              && Height(links, next, links[x].children[j].1) < Height(links, next, x)
    ensures |links[x].children| > 0 ==>
              deepest < |links[x].children|
              && Height(links, next, links[x].children[deepest].1) + 1 == Height(links, next, x)
  {
    var n := |links[x].children|;
    forall j | 0 <= j < n
      ensures links[x].children[j].1 in links
      ensures Height(links, next, links[x].children[j].1) < Height(links, next, x)
    {
      MaxChildHeightBounds(links, next, x, n, j);
    }
    deepest := 0;
    if n > 0 {
      deepest := MaxChildHeightAttained(links, next, x, n);
    }
  }

  // ---------------------------------------------------------------------
  // find_obj_with_lineno
  // ---------------------------------------------------------------------

  predicate Covers(d: DocItem, line: int)
  {
    d.codeStartLine <= line && d.codeEndLine >= line
  }

  /** The index of the first child from `k` on whose line range covers `line`. */
  function FirstCovering(items: map<Id, DocItem>, cs: seq<(string, Id)>, line: int, k: nat): (r: Option<nat>)
    requires k <= |cs| && forall j :: 0 <= j < |cs| ==> cs[j].1 in items
    ensures r.Some? ==> k <= r.value < |cs| && Covers(items[cs[r.value].1], line)
    ensures r.Some? ==> forall j :: k <= j < r.value ==> !Covers(items[cs[j].1], line)
    ensures r.None? ==> forall j :: k <= j < |cs| ==> !Covers(items[cs[j].1], line)
    decreases |cs| - k
  {
    if k == |cs| then None
    else if Covers(items[cs[k].1], line) then Some(k)
    else FirstCovering(items, cs, line, k + 1)
  }

  /** `find_obj_with_lineno`: descend into the first child covering the line until none does. */
  function ObjWithLineno(links: map<Id, Link>, items: map<Id, DocItem>, next: nat, x: Id, line: int): (r: Id)
    requires Arena(links, items, next) && x in links
    ensures r in links
    decreases next - x
  {
    var cs := links[x].children;
    if |cs| == 0 then x
    else
      match FirstCovering(items, cs, line, 0)
      case None => x
      case Some(j) =>
        assert links[cs[j].1].father == Some(x);
        ObjWithLineno(links, items, next, cs[j].1, line)
  }

  /**
   * The object found lies below the start, every item passed on the way
   * down covers the line, and none of its own children does.
   */
  lemma {:induction false} ObjWithLinenoMeaning(links: map<Id, Link>, items: map<Id, DocItem>, next: nat, x: Id, line: int)
    requires Arena(links, items, next) && x in links
    ensures var r := ObjWithLineno(links, items, next, x, line);
            var p := PathTo(links, r);
            |PathTo(links, x)| <= |p| && p[..|PathTo(links, x)|] == PathTo(links, x)
            && (forall k :: |PathTo(links, x)| <= k < |p| ==> Covers(items[p[k]], line))
            && (forall j :: 0 <= j < |links[r].children| ==> !Covers(items[links[r].children[j].1], line))
    decreases next - x
  {
    var cs := links[x].children;
    if |cs| > 0 && FirstCovering(items, cs, line, 0).Some? {
      var c := ObjWithLinenoStep(links, items, next, x, line);
      ObjWithLinenoMeaning(links, items, next, c, line);
      var p := PathTo(links, ObjWithLineno(links, items, next, c, line));
      CoveringPathExtend(items, PathTo(links, x), c, p, line);
    }
  }

  /** The child `find_obj_with_lineno` descends into from `x`. */
  lemma ObjWithLinenoStep(links: map<Id, Link>, items: map<Id, DocItem>, next: nat, x: Id, line: int) returns (c: Id)
    requires Arena(links, items, next) && x in links
    requires |links[x].children| > 0 && FirstCovering(items, links[x].children, line, 0).Some?
    ensures c in links && c in items && Covers(items[c], line) && x < c < next
    ensures PathTo(links, c) == PathTo(links, x) + [c]
    ensures ObjWithLineno(links, items, next, c, line) == ObjWithLineno(links, items, next, x, line)
  {
    var cs := links[x].children;
    var j := FirstCovering(items, cs, line, 0).value;
    c := cs[j].1;
    assert links[c].father == Some(x);
  }

  lemma CoveringPathExtend(items: map<Id, DocItem>, px: seq<Id>, c: Id, p: seq<Id>, line: int)
    requires c in items && Covers(items[c], line)
    requires |px| + 1 <= |p| && p[..|px| + 1] == px + [c]
    requires forall k :: |px| + 1 <= k < |p| ==> p[k] in items && Covers(items[p[k]], line)
    ensures p[..|px|] == px
    ensures forall k :: |px| <= k < |p| ==> p[k] in items && Covers(items[p[k]], line)
  {
    assert p[..|px|] == p[..|px| + 1][..|px|];
    assert p[|px|] == p[..|px| + 1][|px|];
  }

  /** The `while len(now_node.children) > 0` loop of `find_obj_with_lineno`. */
  method FindObjWithLineno(links: map<Id, Link>, items: map<Id, DocItem>, next: nat, fileNode: Id, line: int) returns (r: Id)
    requires Arena(links, items, next) && fileNode in links
    ensures r == ObjWithLineno(links, items, next, fileNode, line)
  {
    var now := fileNode;
    while |links[now].children| > 0
      invariant now in links
      invariant ObjWithLineno(links, items, next, now, line) == ObjWithLineno(links, items, next, fileNode, line)
      decreases next - now
    {
      var cs := links[now].children;
      var found := false;
      var j := 0;
      while j < |cs|
        invariant 0 <= j <= |cs|
        invariant forall i :: 0 <= i < j ==> !Covers(items[cs[i].1], line)
      {
        if Covers(items[cs[j].1], line) {
          found := true;
          break;
        }
        j := j + 1;
      }
      if !found {
        return now;
      }
      assert FirstCovering(items, cs, line, 0) == Some(j);
      assert links[cs[j].1].father == Some(now);
      now := cs[j].1;
    }
    return now;
  }

  // ---------------------------------------------------------------------
  // get_file_name
  // ---------------------------------------------------------------------

  /** `get_file_name`: the full name cut at its first `.py`, with `.py` put back. */
  function FileName(fullName: string): (r: string)
    ensures EndsWith(r, ".py") && StartsWith(fullName, r[..|r| - 3])
    ensures Contains(fullName, ".py") ==> OccursAt(fullName, ".py", |r| - 3)
                                          && forall j :: 0 <= j < |r| - 3 ==> !OccursAt(fullName, ".py", j)
    ensures !Contains(fullName, ".py") ==> r == fullName + ".py"
  {
    var i := Find(fullName, ".py");
    var stem := if i == -1 then fullName else fullName[..i];
    var r := stem + ".py";
    assert r[..|r| - 3] == stem && r[|r| - 3..] == ".py";
    r
  }
}
