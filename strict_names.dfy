// `DocItem.get_full_name(strict=True)`: the full name in which a component
// is spelt by the key its father lists it under, marked when that key
// differs from the object's own name (two objects of one name in one
// scope are listed as `name`, `name_1`, ...). These names are what the
// reference lists of the hierarchy JSON hold, and what the merge with an
// older tree compares.
module StrictNames {
  import opened Wrappers
  import opened PyStrings
  import opened DocTree

  const DuplicateMark := "(name_duplicate_version)"

  /** A component spelt by its key: the key marked when it differs from the name, the name otherwise. */
  function Marked(key: string, name: string): string
  {
    if key != name then key + DuplicateMark else name
  }

  /** The key a marked component was spelt from. */
  function Unmark(s: string): string
  {
    if EndsWith(s, DuplicateMark) then s[..|s| - |DuplicateMark|] else s
  }

  lemma UnmarkMarked(key: string, name: string)
    requires !EndsWith(key, DuplicateMark)
    ensures Unmark(Marked(key, name)) == key
  {
    if key != name {
      var s := key + DuplicateMark;
      assert s[|s| - |DuplicateMark|..] == DuplicateMark;
      assert s[..|s| - |DuplicateMark|] == key;
    }
  }

  // ---------------------------------------------------------------------
  // As written (doc_meta_info.py, lines 192-211)
  // ---------------------------------------------------------------------

  /**
   * `get_full_name(strict=True)` as written: every component is looked up
   * among the children of the item's own father, so only the item itself
   * is ever found and only its own component is spelt by its key.
   */
  function StrictNameAsWritten(links: map<Id, Link>, next: nat, items: map<Id, DocItem>, x: Id): string
    requires Tree(links, next) && links.Keys <= items.Keys && x in links
  {
    if links[x].father.None? then items[x].objName
    else
      var p := PathTo(links, x);
      assert p == PathTo(links, links[x].father.value) + [x];
      var names := NamesAlong(items, p[1..]);
      Join(names[..|names| - 1] + [Marked(KeyOf(links, next, x), items[x].objName)], "/")
  }

  /** As written, the name is the father's plain full name with the item's own key appended. */
  lemma StrictNameAsWrittenOfChild(links: map<Id, Link>, next: nat, items: map<Id, DocItem>, x: Id)
    requires Tree(links, next) && links.Keys <= items.Keys && x in links && links[x].father.Some?
    ensures var f := links[x].father.value;
            var own := Marked(KeyOf(links, next, x), items[x].objName);
            StrictNameAsWritten(links, next, items, x)
            == if links[f].father.None? then own else FullName(links, items, f) + "/" + own
  {
    var f := links[x].father.value;
    var pf := PathTo(links, f);
    var own := Marked(KeyOf(links, next, x), items[x].objName);
    assert PathTo(links, x) == pf + [x];
    assert PathTo(links, x)[1..] == pf[1..] + [x];
    NamesAlongSnoc(items, pf[1..], x);
    var names := NamesAlong(items, PathTo(links, x)[1..]);
    assert names[..|names| - 1] == NamesAlong(items, pf[1..]);
    if links[f].father.None? {
      assert pf == [f];
    } else {
      assert |pf| >= 2;
      JoinSnoc(NamesAlong(items, pf[1..]), own, "/");
    }
  }

  // ---------------------------------------------------------------------
  // Corrected: every component spelt by its own key
  // ---------------------------------------------------------------------

  /** The components below the root, each spelt by the key its own father lists it under. */
  function StrictParts(links: map<Id, Link>, next: nat, items: map<Id, DocItem>, x: Id): seq<string>
    requires Tree(links, next) && links.Keys <= items.Keys && x in links
    decreases x
  {
    match links[x].father
    case None => []
    case Some(f) => StrictParts(links, next, items, f) + [Marked(KeyOf(links, next, x), items[x].objName)]
  }

  /** `get_full_name(strict=True)` with each ancestor looked up among its own father's children. */
  function StrictName(links: map<Id, Link>, next: nat, items: map<Id, DocItem>, x: Id): string
    requires Tree(links, next) && links.Keys <= items.Keys && x in links
  {
    if links[x].father.None? then items[x].objName
    else Join(StrictParts(links, next, items, x), "/")
  }

  /** A child's strict name is its father's with its own marked key appended. */
  lemma StrictNameOfChild(links: map<Id, Link>, next: nat, items: map<Id, DocItem>, x: Id)
    requires Tree(links, next) && links.Keys <= items.Keys && x in links && links[x].father.Some?
    ensures var f := links[x].father.value;
            var own := Marked(KeyOf(links, next, x), items[x].objName);
            StrictName(links, next, items, x)
            == if links[f].father.None? then own else StrictName(links, next, items, f) + "/" + own
  {
    var f := links[x].father.value;
    var own := Marked(KeyOf(links, next, x), items[x].objName);
    assert StrictParts(links, next, items, x) == StrictParts(links, next, items, f) + [own];
    if links[f].father.Some? {
      assert StrictParts(links, next, items, f) == StrictParts(links, next, items, links[f].father.value)
               + [Marked(KeyOf(links, next, f), items[f].objName)];
      JoinSnoc(StrictParts(links, next, items, f), own, "/");
    } else {
      assert StrictParts(links, next, items, f) == [];
      assert StrictParts(links, next, items, x) == [own];
    }
  }

  /** The strict name depends on the names of the items only. */
  lemma {:induction false} StrictPartsFrame(links: map<Id, Link>, next: nat, a: map<Id, DocItem>, b: map<Id, DocItem>, x: Id)
    requires Tree(links, next) && links.Keys <= a.Keys && links.Keys <= b.Keys && x in links
    requires forall z :: z in links ==> a[z].objName == b[z].objName
    ensures StrictParts(links, next, a, x) == StrictParts(links, next, b, x)
    ensures StrictName(links, next, a, x) == StrictName(links, next, b, x)
    decreases x
  {
    if links[x].father.Some? {
      StrictPartsFrame(links, next, a, b, links[x].father.value);
    }
  }

  /** Where every key is the object's own name, the strict name is the plain full name. */
  lemma {:induction false} StrictNameWithoutDuplicates(links: map<Id, Link>, next: nat, items: map<Id, DocItem>, x: Id)
    requires Tree(links, next) && links.Keys <= items.Keys && x in links
    requires forall z :: z in links && z != 0 ==> KeyOf(links, next, z) == items[z].objName
    ensures StrictName(links, next, items, x) == FullName(links, items, x)
    decreases x
  {
    if links[x].father.Some? {
      var f := links[x].father.value;
      StrictNameWithoutDuplicates(links, next, items, f);
      StrictNameOfChild(links, next, items, x);
      FullNameOfChild(links, items, x);
    }
  }

  /** Keys without a `/` and not ending in the marker, as `name` and `name_<k>` keys are. */
  ghost predicate PlainKeys(links: map<Id, Link>)
  {
    forall x, k :: x in links && 0 <= k < |links[x].children| ==>
      '/' !in links[x].children[k].0 && !EndsWith(links[x].children[k].0, DuplicateMark)
  }

  lemma KeyOfPlain(links: map<Id, Link>, next: nat, x: Id)
    requires Tree(links, next) && x in links && x != 0 && PlainKeys(links)
    ensures '/' !in KeyOf(links, next, x) && !EndsWith(KeyOf(links, next, x), DuplicateMark)
  {
    var f := links[x].father.value;
    var cs := links[f].children;
    assert 0 <= ChildIndex(cs, x) < |cs|;
  }

  lemma MarkedPlain(key: string, name: string)
    requires '/' !in key
    ensures '/' !in Marked(key, name)
  {
    assert forall i :: 0 <= i < |DuplicateMark| ==> DuplicateMark[i] != '/';
  }

  /** The keys, recovered from the components. */
  function UnmarkAll(parts: seq<string>): (r: seq<string>)
    ensures |r| == |parts|
  {
    if |parts| == 0 then [] else UnmarkAll(parts[..|parts| - 1]) + [Unmark(parts[|parts| - 1])]
  }

  /** The components spell the key path, and none holds a `/`. */
  lemma {:induction false} StrictPartsKeys(links: map<Id, Link>, next: nat, items: map<Id, DocItem>, x: Id)
    requires Tree(links, next) && links.Keys <= items.Keys && x in links && PlainKeys(links)
    ensures var parts := StrictParts(links, next, items, x);
            UnmarkAll(parts) == KeyPath(links, next, x)
            && forall k :: 0 <= k < |parts| ==> '/' !in parts[k]
    decreases x
  {
    if links[x].father.Some? {
      var f := links[x].father.value;
      StrictPartsKeys(links, next, items, f);
      var key := KeyOf(links, next, x);
      KeyOfPlain(links, next, x);
      UnmarkMarked(key, items[x].objName);
      MarkedPlain(key, items[x].objName);
      var parts := StrictParts(links, next, items, x);
      var own := Marked(key, items[x].objName);
      assert parts == StrictParts(links, next, items, f) + [own];
      assert parts[..|parts| - 1] == StrictParts(links, next, items, f);
      assert UnmarkAll(parts) == UnmarkAll(StrictParts(links, next, items, f)) + [key];
    }
  }

  /** With plain keys, distinct items below the root have distinct strict names. */
  lemma StrictNameInjective(links: map<Id, Link>, next: nat, items: map<Id, DocItem>, a: Id, b: Id)
    requires Tree(links, next) && links.Keys <= items.Keys && PlainKeys(links)
    requires a in links && b in links && a != 0 && b != 0
    requires StrictName(links, next, items, a) == StrictName(links, next, items, b)
    ensures a == b
  {
    var pa, pb := StrictParts(links, next, items, a), StrictParts(links, next, items, b);
    StrictPartsKeys(links, next, items, a);
    StrictPartsKeys(links, next, items, b);
    JoinSplit(pa, '/');
    JoinSplit(pb, '/');
    assert pa == pb;
    FindKeyPath(links, next, a, KeyPath(links, next, b));
    FindKeyPath(links, next, b, KeyPath(links, next, a));
  }

  /**
   * Two objects of one name in one scope (listed as `A` and `A_1`), each
   * with a member listed under the same key (a method `m` in each class):
   * as written, the two members get the same strict name; corrected, they
   * are told apart.
   */
  lemma DuplicateScopesCollide(links: map<Id, Link>, next: nat, items: map<Id, DocItem>, x1: Id, x2: Id)
    requires Tree(links, next) && links.Keys <= items.Keys && x1 in links && x2 in links
    requires links[x1].father.Some? && links[x2].father.Some?
    requires var c1, c2 := links[x1].father.value, links[x2].father.value;
             c1 != c2 && c1 != 0 && c2 != 0 && links[c1].father == links[c2].father
             && items[c1].objName == items[c2].objName
    requires KeyOf(links, next, x1) == KeyOf(links, next, x2) && items[x1].objName == items[x2].objName
    ensures x1 != x2
    ensures StrictNameAsWritten(links, next, items, x1) == StrictNameAsWritten(links, next, items, x2)
    ensures PlainKeys(links) ==> StrictName(links, next, items, x1) != StrictName(links, next, items, x2)
  {
    var c1, c2 := links[x1].father.value, links[x2].father.value;
    FullNameOfChild(links, items, c1);
    FullNameOfChild(links, items, c2);
    StrictNameAsWrittenOfChild(links, next, items, x1);
    StrictNameAsWrittenOfChild(links, next, items, x2);
    if PlainKeys(links) && StrictName(links, next, items, x1) == StrictName(links, next, items, x2) {
      StrictNameInjective(links, next, items, x1, x2);
    }
  }
}
