// `MetaInfo.parse_reference`: for each object of each file, the reference
// finder reports where the object's name is used; the object found at each
// such place becomes a referencer of it, recorded on both sides. The finder
// itself (jedi) is a function parameter returning its hits.
module DocReferences {
  import opened Wrappers
  import opened PyStrings
  import opened SeqUtil
  import opened DocTree
  import MetaInfoUtils

  /** One place a name is used: a repository-relative path, a line and a column. */
  datatype Hit = Hit(path: string, line: int, column: int)

  /** The arguments `parse_reference` passes to `find_all_referencer`. */
  datatype Query = Query(repoPath: string, variableName: string, filePath: string,
                         lineNumber: int, columnNumber: int, inFileOnly: bool)

  /** `referencer` uses `referenced`; `special` is the flag stored beside it in `special_reference_type`. */
  datatype Edge = Edge(referencer: Id, referenced: Id, special: bool)

  // ---------------------------------------------------------------------
  // Recording edges
  // ---------------------------------------------------------------------

  predicate EdgesIn(keys: set<Id>, es: seq<Edge>)
  {
    forall i :: 0 <= i < |es| ==>
      es[i].referencer in keys && es[i].referenced in keys && es[i].referencer != es[i].referenced
  }

  /** The three appends of one new edge (lines 550-555). */
  function AddEdge(m: map<Id, DocItem>, e: Edge): (r: map<Id, DocItem>)
    requires e.referencer in m && e.referenced in m && e.referencer != e.referenced
    ensures r.Keys == m.Keys
  {
    var a := m[e.referencer];
    var m1 := m[e.referencer := a.(referenceWho := a.referenceWho + [e.referenced],
                                   specialReferenceType := a.specialReferenceType + [e.special])];
    var b := m1[e.referenced];
    m1[e.referenced := b.(whoReferenceMe := b.whoReferenceMe + [e.referencer])]
  }

  /** The items after recording `es` in order. */
  ghost function Apply(m: map<Id, DocItem>, es: seq<Edge>): (r: map<Id, DocItem>)
    requires EdgesIn(m.Keys, es)
    ensures r.Keys == m.Keys
    decreases |es|
  {
    if |es| == 0 then m
    else AddEdge(Apply(m, es[..|es| - 1]), es[|es| - 1])
  }

  /** The items `y` was recorded as using, in order. */
  function Referenced(es: seq<Edge>, y: Id): seq<Id>
  {
    if |es| == 0 then []
    else Referenced(es[..|es| - 1], y) + (if es[|es| - 1].referencer == y then [es[|es| - 1].referenced] else [])
  }

  /** The flags recorded beside them. */
  function Flags(es: seq<Edge>, y: Id): seq<bool>
  {
    if |es| == 0 then []
    else Flags(es[..|es| - 1], y) + (if es[|es| - 1].referencer == y then [es[|es| - 1].special] else [])
  }

  /** The items recorded as using `x`, in order. */
  function Referencers(es: seq<Edge>, x: Id): seq<Id>
  {
    if |es| == 0 then []
    else Referencers(es[..|es| - 1], x) + (if es[|es| - 1].referenced == x then [es[|es| - 1].referencer] else [])
  }

  predicate HasEdge(es: seq<Edge>, y: Id, x: Id)
  {
    exists i :: 0 <= i < |es| && es[i].referencer == y && es[i].referenced == x
  }

  /** What recording `es` does to one item: three lists grow at their ends, nothing else changes. */
  lemma {:induction false} ApplyItem(m: map<Id, DocItem>, es: seq<Edge>, y: Id)
    requires EdgesIn(m.Keys, es) && y in m
    ensures Apply(m, es)[y] == m[y].(referenceWho := m[y].referenceWho + Referenced(es, y),
                                     specialReferenceType := m[y].specialReferenceType + Flags(es, y),
                                     whoReferenceMe := m[y].whoReferenceMe + Referencers(es, y))
    decreases |es|
  {
    if |es| > 0 {
      var init := es[..|es| - 1];
      ApplyItem(m, init, y);
      var e, d := es[|es| - 1], m[y];
      AddEdgeItem(Apply(m, init), e, y);
      AppendAssoc(d.referenceWho, Referenced(init, y), if e.referencer == y then [e.referenced] else []);
      AppendAssoc(d.specialReferenceType, Flags(init, y), if e.referencer == y then [e.special] else []);
      AppendAssoc(d.whoReferenceMe, Referencers(init, y), if e.referenced == y then [e.referencer] else []);
    }
  }

  /** What recording one edge does to one item. */
  lemma AddEdgeItem(m: map<Id, DocItem>, e: Edge, y: Id)
    requires e.referencer in m && e.referenced in m && e.referencer != e.referenced && y in m
    ensures AddEdge(m, e)[y]
            == m[y].(referenceWho := m[y].referenceWho + (if e.referencer == y then [e.referenced] else []),
                     specialReferenceType := m[y].specialReferenceType + (if e.referencer == y then [e.special] else []),
                     whoReferenceMe := m[y].whoReferenceMe + (if e.referenced == y then [e.referencer] else []))
  {
    var d := m[y];
    assert d.referenceWho + [] == d.referenceWho && d.whoReferenceMe + [] == d.whoReferenceMe;
    assert d.specialReferenceType + [] == d.specialReferenceType;
  }

  /** `reference_who` and `special_reference_type` grow by the same number of entries. */
  lemma {:induction false} FlagsAlongside(es: seq<Edge>, y: Id)
    ensures |Flags(es, y)| == |Referenced(es, y)|
    decreases |es|
  {
    if |es| > 0 {
      FlagsAlongside(es[..|es| - 1], y);
    }
  }

  /** `x` is among the items `y` was recorded as using exactly when an edge from `y` to `x` was recorded. */
  lemma {:induction false} ReferencedEdges(es: seq<Edge>, y: Id, x: Id)
    ensures x in Referenced(es, y) <==> HasEdge(es, y, x)
    decreases |es|
  {
    if |es| > 0 {
      var init := es[..|es| - 1];
      ReferencedEdges(init, y, x);
      if HasEdge(es, y, x) && !HasEdge(init, y, x) {
        var i :| 0 <= i < |es| && es[i].referencer == y && es[i].referenced == x;
        assert i == |es| - 1;
      }
      if HasEdge(init, y, x) {
        var i :| 0 <= i < |init| && init[i].referencer == y && init[i].referenced == x;
        assert es[i] == init[i];
      }
    }
  }

  /** ... and exactly when `y` is among the items recorded as using `x`. */
  lemma {:induction false} ReferencersEdges(es: seq<Edge>, y: Id, x: Id)
    ensures y in Referencers(es, x) <==> HasEdge(es, y, x)
    decreases |es|
  {
    if |es| > 0 {
      var init := es[..|es| - 1];
      ReferencersEdges(init, y, x);
      if HasEdge(es, y, x) && !HasEdge(init, y, x) {
        var i :| 0 <= i < |es| && es[i].referencer == y && es[i].referenced == x;
        assert i == |es| - 1;
      }
      if HasEdge(init, y, x) {
        var i :| 0 <= i < |init| && init[i].referencer == y && init[i].referenced == x;
        assert es[i] == init[i];
      }
    }
  }

  /** No pair is recorded twice: no two edges have the same ends. */
  predicate DistinctPairs(es: seq<Edge>)
  {
    forall i, j :: 0 <= i < j < |es| ==>
      es[i].referencer != es[j].referencer || es[i].referenced != es[j].referenced
  }

  /** Pairs recorded once each give a list of used items without repeats. */
  lemma {:induction false} ReferencedNoDup(es: seq<Edge>, y: Id)
    requires DistinctPairs(es)
    ensures NoDup(Referenced(es, y))
    decreases |es|
  {
    if |es| > 0 {
      var init := es[..|es| - 1];
      var e := es[|es| - 1];
      assert DistinctPairs(init);
      ReferencedNoDup(init, y);
      if e.referencer == y {
        forall i | 0 <= i < |init| ensures init[i].referencer != y || init[i].referenced != e.referenced {
          assert init[i] == es[i];
        }
        ReferencedEdges(init, y, e.referenced);
        NoDupSnoc(Referenced(init, y), e.referenced);
      }
    }
  }

  // ---------------------------------------------------------------------
  // What `parse_reference` lets through
  // ---------------------------------------------------------------------

  /**
   * The conditions every new edge meets (lines 536-549), read on the items
   * as they were before the pass: different names, no ancestor relation
   * by the stored tree paths, and the weak flag only on a function-kind
   * referencer.
   */
  predicate Allowed(m: map<Id, DocItem>, e: Edge)
  {
    e.referencer in m && e.referenced in m && e.referencer != e.referenced
    && m[e.referencer].objName != m[e.referenced].objName
    && HasAnsRelation(m, e.referenced, e.referencer).None?
    && (e.special ==> IsFunctionKind(m[e.referencer].itemType))
  }

  /**
   * `items` is `base` with the edges `es` recorded, each of them allowed,
   * none already present in `base` and none recorded twice.
   */
  ghost predicate Recorded(base: map<Id, DocItem>, items: map<Id, DocItem>, es: seq<Edge>)
  {
    (forall i :: 0 <= i < |es| ==> Allowed(base, es[i]))
    && (forall i :: 0 <= i < |es| ==> es[i].referenced !in base[es[i].referencer].referenceWho)
    && DistinctPairs(es)
    && items == Apply(base, es)
  }

  /** Recording an allowed edge that is not yet in the referencer's list keeps `Recorded`. */
  lemma RecordedStep(base: map<Id, DocItem>, items: map<Id, DocItem>, es: seq<Edge>, e: Edge)
    requires Recorded(base, items, es) && Allowed(base, e)
    requires e.referenced !in items[e.referencer].referenceWho
    ensures Recorded(base, AddEdge(items, e), es + [e])
  {
    var es' := es + [e];
    assert es'[..|es|] == es;
    ApplyItem(base, es, e.referencer);
    ReferencedEdges(es, e.referencer, e.referenced);
    forall i | 0 <= i < |es| ensures es[i].referencer != e.referencer || es[i].referenced != e.referenced {
    }
  }

  /** Recording keeps every entry that was already in a `reference_who` list. */
  lemma RecordedKeeps(base: map<Id, DocItem>, items: map<Id, DocItem>, es: seq<Edge>, e: Edge, y: Id, x: Id)
    requires e.referencer in items && e.referenced in items && e.referencer != e.referenced
    requires y in items && x in items[y].referenceWho
    ensures x in AddEdge(items, e)[y].referenceWho
  {
  }

  /** After recording, each `reference_who` list is the old one with new entries appended, and the flags grew alongside. */
  lemma RecordedAppends(base: map<Id, DocItem>, items: map<Id, DocItem>, es: seq<Edge>, y: Id)
    requires Recorded(base, items, es) && y in base
    ensures |items[y].referenceWho| >= |base[y].referenceWho|
    ensures |items[y].specialReferenceType| >= |base[y].specialReferenceType|
    ensures |items[y].whoReferenceMe| >= |base[y].whoReferenceMe|
    ensures |items[y].referenceWho| - |base[y].referenceWho|
         == |items[y].specialReferenceType| - |base[y].specialReferenceType|
    ensures items[y].referenceWho[..|base[y].referenceWho|] == base[y].referenceWho
    ensures items[y].specialReferenceType[..|base[y].specialReferenceType|] == base[y].specialReferenceType
    ensures items[y].whoReferenceMe[..|base[y].whoReferenceMe|] == base[y].whoReferenceMe
    ensures items[y].(referenceWho := base[y].referenceWho, specialReferenceType := base[y].specialReferenceType,
                      whoReferenceMe := base[y].whoReferenceMe) == base[y]
  {
    ApplyItem(base, es, y);
    FlagsAlongside(es, y);
  }

  /** Every edge is mirrored: the two lists agree whenever they agreed before. */
  ghost predicate Mirrored(m: map<Id, DocItem>)
  {
    forall x, y :: x in m && y in m ==> (x in m[y].referenceWho <==> y in m[x].whoReferenceMe)
  }

  lemma RecordedMirrored(base: map<Id, DocItem>, items: map<Id, DocItem>, es: seq<Edge>)
    requires Recorded(base, items, es) && Mirrored(base)
    ensures Mirrored(items)
  {
    forall x, y | x in items && y in items
      ensures x in items[y].referenceWho <==> y in items[x].whoReferenceMe
    {
      ApplyItem(base, es, y);
      ApplyItem(base, es, x);
      ReferencedEdges(es, y, x);
      ReferencersEdges(es, y, x);
    }
  }

  /** Every item a reference list names is an item of the map. */
  ghost predicate RefsInside(m: map<Id, DocItem>)
  {
    forall y, x :: y in m && (x in m[y].referenceWho || x in m[y].whoReferenceMe) ==> x in m
  }

  /** Recording edges keeps the reference lists inside the map. */
  lemma RecordedInside(base: map<Id, DocItem>, items: map<Id, DocItem>, es: seq<Edge>)
    requires Recorded(base, items, es) && RefsInside(base)
    ensures RefsInside(items)
  {
    forall y, x | y in items && (x in items[y].referenceWho || x in items[y].whoReferenceMe) ensures x in items {
      ApplyItem(base, es, y);
      if x in items[y].referenceWho && x !in base[y].referenceWho {
        ReferencedEdges(es, y, x);
        var i :| 0 <= i < |es| && es[i].referencer == y && es[i].referenced == x;
        assert Allowed(base, es[i]);
      }
      if x in items[y].whoReferenceMe && x !in base[y].whoReferenceMe {
        ReferencersEdges(es, x, y);
        var i :| 0 <= i < |es| && es[i].referencer == x && es[i].referenced == y;
        assert Allowed(base, es[i]);
      }
    }
  }

  /** No list gains a repeated entry. */
  lemma RecordedNoDup(base: map<Id, DocItem>, items: map<Id, DocItem>, es: seq<Edge>, y: Id)
    requires Recorded(base, items, es) && y in base && NoDup(base[y].referenceWho)
    ensures NoDup(items[y].referenceWho)
  {
    ApplyItem(base, es, y);
    ReferencedNoDup(es, y);
    var r := Referenced(es, y);
    forall k | 0 <= k < |r| ensures r[k] !in base[y].referenceWho {
      ReferencedEdges(es, y, r[k]);
      var i :| 0 <= i < |es| && es[i].referencer == y && es[i].referenced == r[k];
    }
    NoDupConcat(base[y].referenceWho, r);
  }

  /**
   * Every entry added to a `reference_who` list names an item with another
   * name and outside the referencer's line to the root, and the flag added
   * beside it is set only on a function-kind referencer.
   */
  lemma RecordedNewEntries(base: map<Id, DocItem>, items: map<Id, DocItem>, es: seq<Edge>, y: Id, j: nat)
    requires Recorded(base, items, es) && y in base
    requires |base[y].referenceWho| + j < |items[y].referenceWho|
    ensures var x := items[y].referenceWho[|base[y].referenceWho| + j];
            x in base && base[x].objName != base[y].objName && HasAnsRelation(base, x, y).None?
    ensures |base[y].specialReferenceType| + j < |items[y].specialReferenceType|
    ensures items[y].specialReferenceType[|base[y].specialReferenceType| + j] ==> IsFunctionKind(base[y].itemType)
  {
    ApplyItem(base, es, y);
    FlagsAlongside(es, y);
    var i := FlagIndex(es, y, j);
    assert items[y].referenceWho[|base[y].referenceWho| + j] == Referenced(es, y)[j];
    assert items[y].specialReferenceType[|base[y].specialReferenceType| + j] == Flags(es, y)[j];
  }

  /** The j-th entry recorded for `y` and its flag come from one edge. */
  lemma {:induction false} FlagIndex(es: seq<Edge>, y: Id, j: nat) returns (i: nat)
    requires j < |Referenced(es, y)|
    ensures |Flags(es, y)| == |Referenced(es, y)|
    ensures i < |es| && es[i].referencer == y
    ensures Referenced(es, y)[j] == es[i].referenced && Flags(es, y)[j] == es[i].special
    decreases |es|
  {
    var init := es[..|es| - 1];
    FlagsAlongside(es, y);
    FlagsAlongside(init, y);
    if j < |Referenced(init, y)| {
      i := FlagIndex(init, y, j);
      assert es[i] == init[i];
    } else {
      i := |es| - 1;
    }
  }

  /** Recording more edges keeps every `reference_who` entry recorded so far. */
  lemma RecordedGrows(base: map<Id, DocItem>, m: map<Id, DocItem>, es: seq<Edge>,
                      m': map<Id, DocItem>, es': seq<Edge>, y: Id, x: Id)
    requires Recorded(base, m, es) && Recorded(base, m', es') && es <= es'
    requires y in base && x in m[y].referenceWho
    ensures x in m'[y].referenceWho
  {
    ApplyItem(base, es, y);
    ApplyItem(base, es', y);
    if x !in base[y].referenceWho {
      ReferencedEdges(es, y, x);
      var i :| 0 <= i < |es| && es[i].referencer == y && es[i].referenced == x;
      assert es'[i] == es[i];
      ReferencedEdges(es', y, x);
    }
  }

  // ---------------------------------------------------------------------
  // One hit
  // ---------------------------------------------------------------------

  /**
   * The object a hit points at (lines 498-543), or None when the hit is
   * skipped: a path of a fake file or of a skipped file, a path `find`
   * does not reach, an object with the same name, or one in an ancestor
   * relation with `now`.
   */
  function Referencer(links: map<Id, Link>, items: map<Id, DocItem>, next: nat, now: Id, hit: Hit,
                      fakeFiles: set<string>, jumpFiles: seq<string>): (r: Option<Id>)
    requires Arena(links, items, next) && now in links
    ensures r.Some? ==> r.value in links && r.value != now
  {
    if hit.path in fakeFiles || hit.path in jumpFiles then None
    else
      match FindPath(links, next, Split(hit.path, '/'))
      case None => None
      case Some(f) =>
        var x := ObjWithLineno(links, items, next, f, hit.line);
        if items[x].objName == items[now].objName || HasAnsRelation(items, now, x).Some? then None
        else Some(x)
  }

  /** The edge a hit yields; the flag is set for a function-kind referencer whose first line is the hit's line. */
  function HitEdge(links: map<Id, Link>, items: map<Id, DocItem>, next: nat, now: Id, hit: Hit,
                   fakeFiles: set<string>, jumpFiles: seq<string>): (r: Option<Edge>)
    requires Arena(links, items, next) && now in links
    ensures r.Some? ==> Allowed(items, r.value) && r.value.referenced == now
    ensures r.Some? ==> (r.value.special <==> IsFunctionKind(items[r.value.referencer].itemType)
                                              && items[r.value.referencer].codeStartLine == hit.line)
  {
    match Referencer(links, items, next, now, hit, fakeFiles, jumpFiles)
    case None => None
    case Some(x) => Some(Edge(x, now, IsFunctionKind(items[x].itemType) && items[x].codeStartLine == hit.line))
  }

  /**
   * A hit that is not skipped names a file by its keys; the referencer lies
   * in that file, every object passed on the way down to it covers the
   * hit's line and none of its children does; it has another name than
   * `now`, and once tree paths are final neither lies above the other.
   */
  lemma ReferencerMeaning(links: map<Id, Link>, items: map<Id, DocItem>, next: nat, now: Id, hit: Hit,
                          fakeFiles: set<string>, jumpFiles: seq<string>) returns (f: Id)
    requires Arena(links, items, next) && now in links && TreePathsFinal(links, items)
    requires Referencer(links, items, next, now, hit, fakeFiles, jumpFiles).Some?
    ensures hit.path !in fakeFiles && hit.path !in jumpFiles
    ensures var x := Referencer(links, items, next, now, hit, fakeFiles, jumpFiles).value;
            var p := PathTo(links, x);
            f in links && KeyPath(links, next, f) == Split(hit.path, '/')
            && |PathTo(links, f)| <= |p| && p[..|PathTo(links, f)|] == PathTo(links, f)
            && (forall k :: |PathTo(links, f)| <= k < |p| ==> Covers(items[p[k]], hit.line))
            && (forall j :: 0 <= j < |links[x].children| ==> !Covers(items[links[x].children[j].1], hit.line))
            && items[x].objName != items[now].objName
            && x !in PathTo(links, now) && now !in PathTo(links, x)
  {
    var path := Split(hit.path, '/');
    f := FindPath(links, next, path).value;
    FindKeyPath(links, next, f, path);
    var x := ObjWithLineno(links, items, next, f, hit.line);
    ObjWithLinenoMeaning(links, items, next, f, hit.line);
    HasAnsRelationMeaning(links, items, now, x);
  }

  /** The edges the hits yield, one entry per hit. */
  function HitEdges(links: map<Id, Link>, items: map<Id, DocItem>, next: nat, now: Id, hits: seq<Hit>,
                    fakeFiles: set<string>, jumpFiles: seq<string>): (r: seq<Option<Edge>>)
    requires Arena(links, items, next) && now in links
    ensures |r| == |hits|
  {
    if |hits| == 0 then []
    else HitEdges(links, items, next, now, hits[..|hits| - 1], fakeFiles, jumpFiles)
         + [HitEdge(links, items, next, now, hits[|hits| - 1], fakeFiles, jumpFiles)]
  }

  /** Every edge of `os` is in its referencer's list in `m` (recorded now or before). */
  ghost predicate Present(m: map<Id, DocItem>, os: seq<Option<Edge>>)
  {
    forall k :: 0 <= k < |os| && os[k].Some? ==>
      os[k].value.referencer in m && os[k].value.referenced in m[os[k].value.referencer].referenceWho
  }

  /** Recording more edges keeps the present ones, and one more present edge extends the list. */
  lemma PresentSnoc(base: map<Id, DocItem>, m: map<Id, DocItem>, es: seq<Edge>,
                    m': map<Id, DocItem>, es': seq<Edge>, os: seq<Option<Edge>>, o: Option<Edge>)
    requires Recorded(base, m, es) && Recorded(base, m', es') && es <= es'
    requires Present(m, os)
    requires o.Some? ==> o.value.referencer in m' && o.value.referenced in m'[o.value.referencer].referenceWho
    ensures Present(m', os + [o])
  {
    PresentGrows(base, m, es, m', es', os);
  }

  lemma PresentGrows(base: map<Id, DocItem>, m: map<Id, DocItem>, es: seq<Edge>,
                     m': map<Id, DocItem>, es': seq<Edge>, os: seq<Option<Edge>>)
    requires Recorded(base, m, es) && Recorded(base, m', es') && es <= es'
    requires Present(m, os)
    ensures Present(m', os)
  {
    forall k | 0 <= k < |os| && os[k].Some?
      ensures os[k].value.referencer in m' && os[k].value.referenced in m'[os[k].value.referencer].referenceWho
    {
      RecordedGrows(base, m, es, m', es', os[k].value.referencer, os[k].value.referenced);
    }
  }

  /** `e` is one of the edges `ys`. */
  predicate Yields(ys: seq<Option<Edge>>, e: Edge)
    decreases |ys|
  {
    |ys| > 0 && (ys[|ys| - 1] == Some(e) || Yields(ys[..|ys| - 1], e))
  }

  lemma {:induction false} YieldsJoin(ys: seq<Option<Edge>>, zs: seq<Option<Edge>>, e: Edge)
    requires Yields(ys, e) || Yields(zs, e)
    ensures Yields(ys + zs, e)
    decreases |zs|
  {
    if |zs| == 0 {
      assert ys + zs == ys;
    } else {
      var init := zs[..|zs| - 1];
      assert (ys + zs)[..|ys + zs| - 1] == ys + init;
      if (ys + zs)[|ys + zs| - 1] != Some(e) {
        YieldsJoin(ys, init, e);
      }
    }
  }

  /** Every edge of `es` from position `from` on is one of the edges `ys`. */
  ghost predicate FromYield(es: seq<Edge>, from: nat, ys: seq<Option<Edge>>)
  {
    forall i :: from <= i < |es| ==> Yields(ys, es[i])
  }

  /** The edges recorded by two stretches of work come from the two stretches' yields together. */
  lemma FromYieldJoin(es1: seq<Edge>, es: seq<Edge>, from: nat, ys: seq<Option<Edge>>, zs: seq<Option<Edge>>)
    requires es1 <= es && from <= |es1|
    requires FromYield(es1, from, ys) && FromYield(es, |es1|, zs)
    ensures FromYield(es, from, ys + zs)
  {
    forall i | from <= i < |es| ensures Yields(ys + zs, es[i]) {
      if i < |es1| {
        assert es[i] == es1[i];
      }
      YieldsJoin(ys, zs, es[i]);
    }
  }

  // ---------------------------------------------------------------------
  // The loops of parse_reference
  // ---------------------------------------------------------------------

  /** One pass of the `for referencer_pos in reference_list` loop (lines 499-555). */
  method RecordHit(links: map<Id, Link>, next: nat, base: map<Id, DocItem>, items: map<Id, DocItem>, now: Id,
                   hit: Hit, fakeFiles: set<string>, jumpFiles: seq<string>, ghost es0: seq<Edge>)
    returns (r: map<Id, DocItem>, ghost es: seq<Edge>)
    requires Arena(links, base, next) && now in links && Recorded(base, items, es0)
    ensures Recorded(base, r, es) && es0 <= es
    ensures var e := HitEdge(links, base, next, now, hit, fakeFiles, jumpFiles);
            e.Some? ==> e.value.referencer in r && now in r[e.value.referencer].referenceWho
    ensures var e := HitEdge(links, base, next, now, hit, fakeFiles, jumpFiles);
            e.None? || now in items[e.value.referencer].referenceWho ==> r == items && es == es0
    ensures var e := HitEdge(links, base, next, now, hit, fakeFiles, jumpFiles);
            es == es0 || (e.Some? && es == es0 + [e.value])
  {
    var e := HitEdge(links, base, next, now, hit, fakeFiles, jumpFiles);
    r, es := items, es0;
    if e.Some? && now !in items[e.value.referencer].referenceWho {
      RecordedStep(base, items, es0, e.value);
      r := AddEdge(items, e.value);
      es := es0 + [e.value];
    }
  }

  /**
   * The `for referencer_pos in reference_list` loop for object `now`. The
   * lookups read names, line ranges, kinds and tree paths, which recording
   * edges never changes, so they are made on `base`, the items before the
   * pass; only the duplicate check reads the current lists.
   */
  method RecordHits(links: map<Id, Link>, next: nat, base: map<Id, DocItem>, items: map<Id, DocItem>, now: Id,
                    hits: seq<Hit>, fakeFiles: set<string>, jumpFiles: seq<string>, ghost es0: seq<Edge>)
    returns (r: map<Id, DocItem>, ghost es: seq<Edge>)
    requires Arena(links, base, next) && now in links && Recorded(base, items, es0)
    ensures Recorded(base, r, es) && es0 <= es
    ensures Present(r, HitEdges(links, base, next, now, hits, fakeFiles, jumpFiles))
    ensures FromYield(es, |es0|, HitEdges(links, base, next, now, hits, fakeFiles, jumpFiles))
  {
    r, es := items, es0;
    for k := 0 to |hits|
      invariant Recorded(base, r, es) && es0 <= es
      invariant Present(r, HitEdges(links, base, next, now, hits[..k], fakeFiles, jumpFiles))
      invariant FromYield(es, |es0|, HitEdges(links, base, next, now, hits[..k], fakeFiles, jumpFiles))
    {
      ghost var r0, es1 := r, es;
      r, es := RecordHit(links, next, base, r, now, hits[k], fakeFiles, jumpFiles, es);
      HitsStep(links, next, base, now, hits, k, fakeFiles, jumpFiles, es0, r0, es1, r, es);
      FromYieldSnoc(es1, es, |es0|, HitEdges(links, base, next, now, hits[..k], fakeFiles, jumpFiles),
                    HitEdge(links, base, next, now, hits[k], fakeFiles, jumpFiles));
    }
    assert hits[..|hits|] == hits;
  }

  /** One more hit recorded keeps the loop invariant of `RecordHits`. */
  lemma HitsStep(links: map<Id, Link>, next: nat, base: map<Id, DocItem>, now: Id, hits: seq<Hit>, k: nat,
                 fakeFiles: set<string>, jumpFiles: seq<string>, es0: seq<Edge>,
                 r0: map<Id, DocItem>, es1: seq<Edge>, r: map<Id, DocItem>, es: seq<Edge>)
    requires Arena(links, base, next) && now in links && k < |hits|
    requires Recorded(base, r0, es1) && es0 <= es1
    requires Present(r0, HitEdges(links, base, next, now, hits[..k], fakeFiles, jumpFiles))
    requires Recorded(base, r, es) && es1 <= es
    requires var e := HitEdge(links, base, next, now, hits[k], fakeFiles, jumpFiles);
             e.Some? ==> e.value.referencer in r && now in r[e.value.referencer].referenceWho
    ensures es0 <= es
    ensures Present(r, HitEdges(links, base, next, now, hits[..k + 1], fakeFiles, jumpFiles))
    ensures HitEdges(links, base, next, now, hits[..k + 1], fakeFiles, jumpFiles)
            == HitEdges(links, base, next, now, hits[..k], fakeFiles, jumpFiles)
               + [HitEdge(links, base, next, now, hits[k], fakeFiles, jumpFiles)]
  {
    assert hits[..k + 1][..k] == hits[..k];
    var e := HitEdge(links, base, next, now, hits[k], fakeFiles, jumpFiles);
    assert e.Some? ==> e.value.referenced == now;
    var before := HitEdges(links, base, next, now, hits[..k], fakeFiles, jumpFiles);
    assert HitEdges(links, base, next, now, hits[..k + 1], fakeFiles, jumpFiles) == before + [e];
    PresentSnoc(base, r0, es1, r, es, before, e);
  }

  /** One more recorded edge, if any, comes from one more yielded entry. */
  lemma FromYieldSnoc(es1: seq<Edge>, es: seq<Edge>, from: nat, ys: seq<Option<Edge>>, e: Option<Edge>)
    requires from <= |es1| && FromYield(es1, from, ys)
    requires es == es1 || (e.Some? && es == es1 + [e.value])
    ensures FromYield(es, from, ys + [e])
  {
    assert es1 <= es;
    assert [e][..0] == [];
    assert FromYield(es, |es1|, [e]);
    FromYieldJoin(es1, es, from, ys, [e]);
  }

  /** The file paths and the object names of the white list; both empty without one (lines 462-468). */
  function WhiteFileNames(whiteList: Option<seq<WhiteEntry>>): (r: seq<string>)
    ensures whiteList.None? ==> r == []
    ensures whiteList.Some? ==>
              |r| == |whiteList.value| && forall k :: 0 <= k < |r| ==> r[k] == whiteList.value[k].filePath
  {
    match whiteList
    case None => []
    case Some(w) => seq(|w|, k requires 0 <= k < |w| => w[k].filePath)
  }

  function WhiteObjNames(whiteList: Option<seq<WhiteEntry>>): (r: seq<string>)
    ensures whiteList.None? ==> r == []
    ensures whiteList.Some? ==>
              |r| == |whiteList.value| && forall k :: 0 <= k < |r| ==> r[k] == whiteList.value[k].idText
  {
    match whiteList
    case None => []
    case Some(w) => seq(|w|, k requires 0 <= k < |w| => w[k].idText)
  }

  /**
   * The query for object `o` of file `f` (lines 484-497): the object's name
   * and first line and column from its record, the file's full name, and
   * `in_file_only` when white-listed names exist and `o`'s is not one.
   */
  function QueryOf(links: map<Id, Link>, items: map<Id, DocItem>, f: Id, o: Id, repoPath: string,
                   objNames: seq<string>): (q: Query)
    requires Upward(links) && links.Keys <= items.Keys && f in links && o in links
    ensures q.variableName == items[o].objName && q.filePath == FullName(links, items, f)
    ensures q.inFileOnly <==> objNames != [] && items[o].objName !in objNames
  {
    var d := items[o];
    var line := if d.content.Some? then d.content.value.codeStartLine else d.codeStartLine;
    var column := if d.content.Some? then d.content.value.nameColumn else -1;
    Query(repoPath, d.objName, FullName(links, items, f), line, column, objNames != [] && d.objName !in objNames)
  }

  /** The edges the finder's hits for object `o` of file `f` yield. */
  function ObjectEdges(links: map<Id, Link>, items: map<Id, DocItem>, next: nat, f: Id, o: Id,
                       finder: Query -> seq<Hit>, repoPath: string, objNames: seq<string>,
                       fakeFiles: set<string>, jumpFiles: seq<string>): seq<Option<Edge>>
    requires Arena(links, items, next) && f in links && o in links
  {
    HitEdges(links, items, next, o, finder(QueryOf(links, items, f, o, repoPath, objNames)), fakeFiles, jumpFiles)
  }

  /** The edges yielded for the objects `objs[..k]` of file `f`, object after object. */
  function ObjectsYield(links: map<Id, Link>, items: map<Id, DocItem>, next: nat, f: Id, objs: seq<Id>, k: nat,
                        finder: Query -> seq<Hit>, repoPath: string, objNames: seq<string>,
                        fakeFiles: set<string>, jumpFiles: seq<string>): seq<Option<Edge>>
    requires Arena(links, items, next) && f in links && k <= |objs| && forall j :: 0 <= j < |objs| ==> objs[j] in links
  {
    if k == 0 then []
    else ObjectsYield(links, items, next, f, objs, k - 1, finder, repoPath, objNames, fakeFiles, jumpFiles)
         + ObjectEdges(links, items, next, f, objs[k - 1], finder, repoPath, objNames, fakeFiles, jumpFiles)
  }

  /** The edges yielded for the selected files among `files[..k]`, file after file. */
  function FilesYield(links: map<Id, Link>, items: map<Id, DocItem>, next: nat, files: seq<Id>, k: nat,
                      finder: Query -> seq<Hit>, repoPath: string, fileNames: seq<string>, objNames: seq<string>,
                      fakeFiles: set<string>, jumpFiles: seq<string>): seq<Option<Edge>>
    requires Arena(links, items, next) && k <= |files| && forall j :: 0 <= j < |files| ==> files[j] in links
  {
    if k == 0 then []
    else FilesYield(links, items, next, files, k - 1, finder, repoPath, fileNames, objNames, fakeFiles, jumpFiles)
         + FileYield(links, items, next, files[k - 1], finder, repoPath, fileNames, objNames, fakeFiles, jumpFiles)
  }

  /** The edges yielded for file `f`: none when it is not selected. */
  function FileYield(links: map<Id, Link>, items: map<Id, DocItem>, next: nat, f: Id,
                     finder: Query -> seq<Hit>, repoPath: string, fileNames: seq<string>, objNames: seq<string>,
                     fakeFiles: set<string>, jumpFiles: seq<string>): seq<Option<Edge>>
    requires Arena(links, items, next) && f in links
  {
    if Selected(links, items, f, fileNames) then
      var objs := TravelFrom(links, next, f, 0);
      ObjectsYield(links, items, next, f, objs, |objs|, finder, repoPath, objNames, fakeFiles, jumpFiles)
    else []
  }

  /** Every edge yielded for an object of file `f` is present in `m`. */
  ghost predicate FileDone(links: map<Id, Link>, base: map<Id, DocItem>, next: nat, m: map<Id, DocItem>, f: Id,
                           finder: Query -> seq<Hit>, repoPath: string, objNames: seq<string>,
                           fakeFiles: set<string>, jumpFiles: seq<string>)
    requires Arena(links, base, next) && f in links
  {
    var objs := TravelFrom(links, next, f, 0);
    forall j :: 0 <= j < |objs| ==>
      Present(m, ObjectEdges(links, base, next, f, objs[j], finder, repoPath, objNames, fakeFiles, jumpFiles))
  }

  lemma FileDoneGrows(links: map<Id, Link>, base: map<Id, DocItem>, next: nat, m: map<Id, DocItem>, es: seq<Edge>,
                      m': map<Id, DocItem>, es': seq<Edge>, f: Id, finder: Query -> seq<Hit>, repoPath: string,
                      objNames: seq<string>, fakeFiles: set<string>, jumpFiles: seq<string>)
    requires Arena(links, base, next) && f in links
    requires Recorded(base, m, es) && Recorded(base, m', es') && es <= es'
    requires FileDone(links, base, next, m, f, finder, repoPath, objNames, fakeFiles, jumpFiles)
    ensures FileDone(links, base, next, m', f, finder, repoPath, objNames, fakeFiles, jumpFiles)
  {
    var objs := TravelFrom(links, next, f, 0);
    forall j | 0 <= j < |objs|
      ensures Present(m', ObjectEdges(links, base, next, f, objs[j], finder, repoPath, objNames, fakeFiles, jumpFiles))
    {
      PresentGrows(base, m, es, m', es', ObjectEdges(links, base, next, f, objs[j], finder, repoPath, objNames, fakeFiles, jumpFiles));
    }
  }

  lemma PrefixTrans<T>(a: seq<T>, b: seq<T>, c: seq<T>)
    requires a <= b && b <= c
    ensures a <= c
  {
    assert a == b[..|a|] && b == c[..|b|];
    assert c[..|b|][..|a|] == c[..|a|];
  }

  /** The objects `objs[..k]` have all their edges present in `m`. */
  ghost predicate ObjectsDone(links: map<Id, Link>, base: map<Id, DocItem>, next: nat, m: map<Id, DocItem>, f: Id,
                              objs: seq<Id>, k: nat, finder: Query -> seq<Hit>, repoPath: string, objNames: seq<string>,
                              fakeFiles: set<string>, jumpFiles: seq<string>)
    requires Arena(links, base, next) && f in links && k <= |objs| && forall j :: 0 <= j < |objs| ==> objs[j] in links
  {
    forall j :: 0 <= j < k ==>
      Present(m, ObjectEdges(links, base, next, f, objs[j], finder, repoPath, objNames, fakeFiles, jumpFiles))
  }

  lemma ObjectsDoneStep(links: map<Id, Link>, base: map<Id, DocItem>, next: nat, m: map<Id, DocItem>, es: seq<Edge>,
                        m': map<Id, DocItem>, es': seq<Edge>, f: Id, objs: seq<Id>, k: nat,
                        finder: Query -> seq<Hit>, repoPath: string, objNames: seq<string>,
                        fakeFiles: set<string>, jumpFiles: seq<string>)
    requires Arena(links, base, next) && f in links && k < |objs| && forall j :: 0 <= j < |objs| ==> objs[j] in links
    requires Recorded(base, m, es) && Recorded(base, m', es') && es <= es'
    requires ObjectsDone(links, base, next, m, f, objs, k, finder, repoPath, objNames, fakeFiles, jumpFiles)
    requires Present(m', ObjectEdges(links, base, next, f, objs[k], finder, repoPath, objNames, fakeFiles, jumpFiles))
    ensures ObjectsDone(links, base, next, m', f, objs, k + 1, finder, repoPath, objNames, fakeFiles, jumpFiles)
  {
    forall j | 0 <= j < k
      ensures Present(m', ObjectEdges(links, base, next, f, objs[j], finder, repoPath, objNames, fakeFiles, jumpFiles))
    {
      PresentGrows(base, m, es, m', es', ObjectEdges(links, base, next, f, objs[j], finder, repoPath, objNames, fakeFiles, jumpFiles));
    }
  }

  /** The edges recorded for one more object come from its own yield. */
  lemma ObjectsYieldStep(links: map<Id, Link>, base: map<Id, DocItem>, next: nat, f: Id, objs: seq<Id>, k: nat,
                         finder: Query -> seq<Hit>, repoPath: string, objNames: seq<string>,
                         fakeFiles: set<string>, jumpFiles: seq<string>, es0: seq<Edge>, es1: seq<Edge>, es: seq<Edge>)
    requires Arena(links, base, next) && f in links && k < |objs| && forall j :: 0 <= j < |objs| ==> objs[j] in links
    requires es0 <= es1 && es1 <= es
    requires FromYield(es1, |es0|, ObjectsYield(links, base, next, f, objs, k, finder, repoPath, objNames, fakeFiles, jumpFiles))
    requires FromYield(es, |es1|, ObjectEdges(links, base, next, f, objs[k], finder, repoPath, objNames, fakeFiles, jumpFiles))
    ensures FromYield(es, |es0|, ObjectsYield(links, base, next, f, objs, k + 1, finder, repoPath, objNames, fakeFiles, jumpFiles))
  {
    FromYieldJoin(es1, es, |es0|,
                  ObjectsYield(links, base, next, f, objs, k, finder, repoPath, objNames, fakeFiles, jumpFiles),
                  ObjectEdges(links, base, next, f, objs[k], finder, repoPath, objNames, fakeFiles, jumpFiles));
  }

  /**
   * The state of `walk_file` over file `f` after the objects `objs[..k]`:
   * the edges recorded since `es0` are allowed and new, every edge these
   * objects yield is present, and every recorded edge is one they yield.
   */
  ghost predicate ObjectsProgress(links: map<Id, Link>, base: map<Id, DocItem>, next: nat, f: Id, objs: seq<Id>, k: nat,
                                  finder: Query -> seq<Hit>, repoPath: string, objNames: seq<string>,
                                  fakeFiles: set<string>, jumpFiles: seq<string>,
                                  es0: seq<Edge>, r: map<Id, DocItem>, es: seq<Edge>)
  {
    Arena(links, base, next) && f in links && k <= |objs| && (forall j :: 0 <= j < |objs| ==> objs[j] in links)
    && Recorded(base, r, es) && es0 <= es
    && ObjectsDone(links, base, next, r, f, objs, k, finder, repoPath, objNames, fakeFiles, jumpFiles)
    && FromYield(es, |es0|, ObjectsYield(links, base, next, f, objs, k, finder, repoPath, objNames, fakeFiles, jumpFiles))
  }

  /** `walk_file` from the children of file `f`: its objects in travel order, each with its own query. */
  method RecordFile(links: map<Id, Link>, next: nat, base: map<Id, DocItem>, items: map<Id, DocItem>, f: Id,
                    finder: Query -> seq<Hit>, repoPath: string, objNames: seq<string>,
                    fakeFiles: set<string>, jumpFiles: seq<string>, ghost es0: seq<Edge>)
    returns (r: map<Id, DocItem>, ghost es: seq<Edge>)
    requires Arena(links, base, next) && f in links && Recorded(base, items, es0)
    ensures Recorded(base, r, es) && es0 <= es
    ensures FileDone(links, base, next, r, f, finder, repoPath, objNames, fakeFiles, jumpFiles)
    ensures var objs := TravelFrom(links, next, f, 0);
            FromYield(es, |es0|, ObjectsYield(links, base, next, f, objs, |objs|, finder, repoPath, objNames, fakeFiles, jumpFiles))
  {
    var objs := TravelFrom(links, next, f, 0);
    r, es := items, es0;
    for k := 0 to |objs|
      invariant ObjectsProgress(links, base, next, f, objs, k, finder, repoPath, objNames, fakeFiles, jumpFiles, es0, r, es)
    {
      r, es := RecordObject(links, next, base, r, f, objs, k, finder, repoPath, objNames, fakeFiles, jumpFiles, es0, es);
    }
  }

  /** One pass of `walk_file`'s loop: the hits for object `objs[k]`, recorded. */
  method RecordObject(links: map<Id, Link>, next: nat, base: map<Id, DocItem>, items: map<Id, DocItem>, f: Id,
                      objs: seq<Id>, k: nat, finder: Query -> seq<Hit>, repoPath: string, objNames: seq<string>,
                      fakeFiles: set<string>, jumpFiles: seq<string>, ghost es0: seq<Edge>, ghost es1: seq<Edge>)
    returns (r: map<Id, DocItem>, ghost es: seq<Edge>)
    requires ObjectsProgress(links, base, next, f, objs, k, finder, repoPath, objNames, fakeFiles, jumpFiles, es0, items, es1)
    requires k < |objs|
    ensures ObjectsProgress(links, base, next, f, objs, k + 1, finder, repoPath, objNames, fakeFiles, jumpFiles, es0, r, es)
  {
    var o := objs[k];
    var hits := finder(QueryOf(links, base, f, o, repoPath, objNames));
    r, es := RecordHits(links, next, base, items, o, hits, fakeFiles, jumpFiles, es1);
    PrefixTrans(es0, es1, es);
    ObjectsDoneStep(links, base, next, items, es1, r, es, f, objs, k, finder, repoPath, objNames, fakeFiles, jumpFiles);
    ObjectsYieldStep(links, base, next, f, objs, k, finder, repoPath, objNames, fakeFiles, jumpFiles, es0, es1, es);
  }

  /** A file is walked when there is no white list of files or its file name is on it (lines 477-480). */
  predicate Selected(links: map<Id, Link>, items: map<Id, DocItem>, f: Id, fileNames: seq<string>)
    requires Upward(links) && links.Keys <= items.Keys && f in links
  {
    fileNames == [] || FileName(FullName(links, items, f)) in fileNames
  }

  /** The selected files among `files[..k]` have all their edges present in `m`. */
  ghost predicate FilesDone(links: map<Id, Link>, base: map<Id, DocItem>, next: nat, m: map<Id, DocItem>,
                            files: seq<Id>, k: nat, finder: Query -> seq<Hit>, repoPath: string,
                            fileNames: seq<string>, objNames: seq<string>, fakeFiles: set<string>, jumpFiles: seq<string>)
    requires Arena(links, base, next) && k <= |files| && forall j :: 0 <= j < |files| ==> files[j] in links
  {
    forall j :: 0 <= j < k && Selected(links, base, files[j], fileNames) ==>
      FileDone(links, base, next, m, files[j], finder, repoPath, objNames, fakeFiles, jumpFiles)
  }

  lemma FilesDoneStep(links: map<Id, Link>, base: map<Id, DocItem>, next: nat, m: map<Id, DocItem>, es: seq<Edge>,
                      m': map<Id, DocItem>, es': seq<Edge>, files: seq<Id>, k: nat,
                      finder: Query -> seq<Hit>, repoPath: string, fileNames: seq<string>, objNames: seq<string>,
                      fakeFiles: set<string>, jumpFiles: seq<string>)
    requires Arena(links, base, next) && k < |files| && forall j :: 0 <= j < |files| ==> files[j] in links
    requires Recorded(base, m, es) && Recorded(base, m', es') && es <= es'
    requires FilesDone(links, base, next, m, files, k, finder, repoPath, fileNames, objNames, fakeFiles, jumpFiles)
    requires Selected(links, base, files[k], fileNames) ==>
               FileDone(links, base, next, m', files[k], finder, repoPath, objNames, fakeFiles, jumpFiles)
    ensures FilesDone(links, base, next, m', files, k + 1, finder, repoPath, fileNames, objNames, fakeFiles, jumpFiles)
  {
    forall j | 0 <= j < k && Selected(links, base, files[j], fileNames)
      ensures FileDone(links, base, next, m', files[j], finder, repoPath, objNames, fakeFiles, jumpFiles)
    {
      FileDoneGrows(links, base, next, m, es, m', es', files[j], finder, repoPath, objNames, fakeFiles, jumpFiles);
    }
  }

  /**
   * The `for file_node in file_nodes` loop of `parse_reference`: every
   * selected file is walked; the result is the items with the recorded
   * edges, and every edge yielded by a selected file's objects is present.
   * The two assertions on each file, that its name does not end with the
   * latest-version suffix and that it is not a skipped file, become a
   * precondition.
   */
  method RecordFiles(links: map<Id, Link>, next: nat, base: map<Id, DocItem>, files: seq<Id>,
                     finder: Query -> seq<Hit>, repoPath: string, whiteList: Option<seq<WhiteEntry>>,
                     fakeFiles: set<string>, jumpFiles: seq<string>)
    returns (r: map<Id, DocItem>, ghost es: seq<Edge>)
    requires Arena(links, base, next)
    requires forall k :: 0 <= k < |files| ==> files[k] in links
    requires forall k :: 0 <= k < |files| ==>
               && !EndsWith(FullName(links, base, files[k]), MetaInfoUtils.LatestVersionSubstring)
               && FullName(links, base, files[k]) !in jumpFiles
    ensures Recorded(base, r, es)
    ensures FilesDone(links, base, next, r, files, |files|, finder, repoPath,
                      WhiteFileNames(whiteList), WhiteObjNames(whiteList), fakeFiles, jumpFiles)
    ensures FromYield(es, 0, FilesYield(links, base, next, files, |files|, finder, repoPath,
                                        WhiteFileNames(whiteList), WhiteObjNames(whiteList), fakeFiles, jumpFiles))
  {
    var fileNames, objNames := WhiteFileNames(whiteList), WhiteObjNames(whiteList);
    r, es := base, [];
    for k := 0 to |files|
      invariant Recorded(base, r, es)
      invariant FilesDone(links, base, next, r, files, k, finder, repoPath, fileNames, objNames, fakeFiles, jumpFiles)
      invariant FromYield(es, 0, FilesYield(links, base, next, files, k, finder, repoPath, fileNames, objNames, fakeFiles, jumpFiles))
    {
      r, es := RecordFilesTurn(links, next, base, files, k, finder, repoPath, fileNames, objNames, fakeFiles, jumpFiles, r, es);
    }
  }

  /** One turn of that loop: the k-th file is walked when it is selected. */
  method RecordFilesTurn(links: map<Id, Link>, next: nat, base: map<Id, DocItem>, files: seq<Id>, k: nat,
                         finder: Query -> seq<Hit>, repoPath: string, fileNames: seq<string>, objNames: seq<string>,
                         fakeFiles: set<string>, jumpFiles: seq<string>, r0: map<Id, DocItem>, ghost es0: seq<Edge>)
    returns (r: map<Id, DocItem>, ghost es: seq<Edge>)
    requires Arena(links, base, next) && k < |files| && forall j :: 0 <= j < |files| ==> files[j] in links
    requires Recorded(base, r0, es0)
    requires FilesDone(links, base, next, r0, files, k, finder, repoPath, fileNames, objNames, fakeFiles, jumpFiles)
    requires FromYield(es0, 0, FilesYield(links, base, next, files, k, finder, repoPath, fileNames, objNames, fakeFiles, jumpFiles))
    ensures Recorded(base, r, es)
    ensures FilesDone(links, base, next, r, files, k + 1, finder, repoPath, fileNames, objNames, fakeFiles, jumpFiles)
    ensures FromYield(es, 0, FilesYield(links, base, next, files, k + 1, finder, repoPath, fileNames, objNames, fakeFiles, jumpFiles))
  {
    var f := files[k];
    r, es := r0, es0;
    if Selected(links, base, f, fileNames) {
      r, es := RecordFile(links, next, base, r, f, finder, repoPath, objNames, fakeFiles, jumpFiles, es);
    }
    FilesDoneStep(links, base, next, r0, es0, r, es, files, k, finder, repoPath, fileNames, objNames, fakeFiles, jumpFiles);
    FromYieldJoin(es0, es, 0, FilesYield(links, base, next, files, k, finder, repoPath, fileNames, objNames, fakeFiles, jumpFiles),
                  FileYield(links, base, next, f, finder, repoPath, fileNames, objNames, fakeFiles, jumpFiles));
  }
}
