// The runner's part of the documentation cycle: generating the document of
// one item (with its status transitions), deciding which files get a
// markdown page and rendering an item with everything below it as markdown,
// and comparing two versions of a file by the names of their definitions.
module Runner {
  import opened Wrappers
  import opened PyStrings
  import opened SeqUtil
  import opened SyntaxTree
  import opened SourceLanguages
  import opened DocTree
  import DM = DocMeta
  import FH = FileHandler

  // ---------------------------------------------------------------------
  // generate_doc_for_a_single_item
  // ---------------------------------------------------------------------

  /**
   * The items after `generate_doc_for_a_single_item(x)`. `reply` is what the
   * chat engine's `generate_doc` gives (Err when it raises) and `saved`
   * whether the checkpoint that follows a success writes without raising;
   * any exception in the `try` ends with the status set back to
   * `doc_has_not_been_generated`, even after the reply was appended.
   */
  function AfterGeneration(links: map<Id, Link>, items: map<Id, DocItem>, x: Id, ignore: seq<string>,
                           reply: Result<string>, saved: bool): (r: map<Id, DocItem>)
    requires Upward(links) && x in links && links.Keys <= items.Keys
    ensures r.Keys == items.Keys
    ensures forall y :: y in items && y != x ==> r[y] == items[y]
    ensures r[x] == items[x].(mdContent := r[x].mdContent, itemStatus := r[x].itemStatus)
    ensures !NeedToGenerate(links, items, x, ignore) ==> r == items
    ensures NeedToGenerate(links, items, x, ignore) && reply.Ok?
            ==> r[x].mdContent == items[x].mdContent + [reply.value] && (r[x].itemStatus == DocUpToDate <==> saved)
    ensures NeedToGenerate(links, items, x, ignore) && reply.Err?
            ==> r[x].mdContent == items[x].mdContent && r[x].itemStatus == DocHasNotBeenGenerated
  {
    if !NeedToGenerate(links, items, x, ignore) then items
    else match reply
      case Err(_) => items[x := items[x].(itemStatus := DocHasNotBeenGenerated)]
      case Ok(text) =>
        var done := items[x].(mdContent := items[x].mdContent + [text], itemStatus := DocUpToDate);
        items[x := if saved then done else done.(itemStatus := DocHasNotBeenGenerated)]
  }

  /**
   * `generate_doc_for_a_single_item`: `generate` stands for the chat
   * engine, asked about `x` with the items as they are, and `saved` for the
   * outcome of the checkpoint.
   */
  method GenerateDocForSingleItem(meta: DM.MetaInfo, x: Id, ignore: seq<string>,
                                  generate: (map<Id, DocItem>, Id) -> Result<string>, saved: bool)
    requires meta.Valid() && x in meta.links
    modifies meta`items
    ensures meta.Valid()
    ensures meta.items == AfterGeneration(meta.links, old(meta.items), x, ignore, generate(old(meta.items), x), saved)
  {
    var m := GenerateDoc(meta.links, meta.items, x, ignore, generate, saved);
    meta.items := m;
  }

  /** The body of `generate_doc_for_a_single_item`, on the items as values. */
  method GenerateDoc(links: map<Id, Link>, items: map<Id, DocItem>, x: Id, ignore: seq<string>,
                     generate: (map<Id, DocItem>, Id) -> Result<string>, saved: bool) returns (m: map<Id, DocItem>)
    requires Upward(links) && x in links && links.Keys <= items.Keys
    ensures m == AfterGeneration(links, items, x, ignore, generate(items, x), saved)
  {
    m := items;
    var need := NeedToGenerateScan(links, items, x, ignore);
    if need {
      var reply := generate(items, x);
      match reply {
        case Err(_) =>
          m := items[x := items[x].(itemStatus := DocHasNotBeenGenerated)];
        case Ok(text) =>
          var done := items[x].(mdContent := items[x].mdContent + [text], itemStatus := DocUpToDate);
          if !saved {
            done := done.(itemStatus := DocHasNotBeenGenerated);
          }
          m := items[x := done];
      }
    }
  }

  /** Once a reply is saved the item is up to date, so running the generation again changes nothing. */
  lemma GenerationSettles(links: map<Id, Link>, items: map<Id, DocItem>, x: Id, ignore: seq<string>,
                          reply: Result<string>, again: Result<string>, saved: bool)
    requires Upward(links) && x in links && links.Keys <= items.Keys
    requires NeedToGenerate(links, items, x, ignore) && reply.Ok?
    ensures var m := AfterGeneration(links, items, x, ignore, reply, true);
            AfterGeneration(links, m, x, ignore, again, saved) == m
  {
  }

  /** A failed generation leaves the item due for another attempt, with its documents as they were. */
  lemma GenerationRetried(links: map<Id, Link>, items: map<Id, DocItem>, x: Id, ignore: seq<string>,
                          reply: Result<string>, again: Result<string>, saved: bool)
    requires Upward(links) && x in links && links.Keys <= items.Keys
    requires NeedToGenerate(links, items, x, ignore) && reply.Err?
    ensures var m := AfterGeneration(links, items, x, ignore, reply, saved);
            NeedToGenerate(links, m, x, ignore) && m[x].mdContent == items[x].mdContent
  {
    var m := items[x := items[x].(itemStatus := DocHasNotBeenGenerated)];
    assert AfterGeneration(links, items, x, ignore, reply, saved) == m;
    NeedToGenerateStatusOnly(links, items, m, x, ignore);
  }

  /** Besides the status of the item itself, `need_to_generate` reads only names and kinds. */
  lemma NeedToGenerateStatusOnly(links: map<Id, Link>, items: map<Id, DocItem>, m: map<Id, DocItem>, x: Id, ignore: seq<string>)
    requires Upward(links) && x in links && links.Keys <= items.Keys && links.Keys <= m.Keys
    requires forall y :: y in links ==> m[y].objName == items[y].objName && m[y].itemType == items[y].itemType
    requires (m[x].itemStatus == DocUpToDate) == (items[x].itemStatus == DocUpToDate)
    ensures NeedToGenerate(links, m, x, ignore) == NeedToGenerate(links, items, x, ignore)
  {
    FullNameSameNames(links, items, m, x);
    ScanFathersSameKinds(links, items, m, links[x].father, FullName(links, items, x), ignore);
  }

  /** The full name reads only the names, which a generation does not touch. */
  lemma FullNameSameNames(links: map<Id, Link>, items: map<Id, DocItem>, m: map<Id, DocItem>, x: Id)
    requires Upward(links) && x in links && links.Keys <= items.Keys && links.Keys <= m.Keys
    requires forall y :: y in links ==> m[y].objName == items[y].objName
    ensures FullName(links, m, x) == FullName(links, items, x)
  {
    if links[x].father.Some? {
      var p := PathTo(links, x)[1..];
      assert NamesAlong(m, p) == NamesAlong(items, p);
    }
  }

  /** The walk up to the file reads only the kinds of the fathers. */
  lemma {:induction false} ScanFathersSameKinds(links: map<Id, Link>, items: map<Id, DocItem>, m: map<Id, DocItem>,
                                                cur: Option<Id>, name: string, ignore: seq<string>)
    requires Upward(links) && links.Keys <= items.Keys && links.Keys <= m.Keys && (cur.Some? ==> cur.value in links)
    requires forall y :: y in links ==> m[y].itemType == items[y].itemType
    ensures ScanFathers(links, m, cur, name, ignore) == ScanFathers(links, items, cur, name, ignore)
    decreases if cur.Some? then cur.value + 1 else 0
  {
    if cur.Some? && items[cur.value].itemType != File {
      ScanFathersSameKinds(links, items, m, links[cur.value].father, name, ignore);
    }
  }

  // ---------------------------------------------------------------------
  // recursive_check
  // ---------------------------------------------------------------------

  predicate Documented(d: DocItem)
  {
    |d.mdContent| > 0
  }

  /** `recursive_check(x)`: `x` has a document, or the check holds for one of its children. */
  function RecursiveCheck(links: map<Id, Link>, items: map<Id, DocItem>, next: nat, x: Id): bool
    requires Walkable(links, next) && x in links && links.Keys <= items.Keys
    decreases next - x, 1
  {
    Documented(items[x]) || AnyChildChecked(links, items, next, x, 0)
  }

  /** The loop over the children of `x` from position `k` on. */
  function AnyChildChecked(links: map<Id, Link>, items: map<Id, DocItem>, next: nat, x: Id, k: nat): bool
    requires Walkable(links, next) && x in links && links.Keys <= items.Keys && k <= |links[x].children|
    decreases next - x, 0, |links[x].children| - k
  {
    var cs := links[x].children;
    k < |cs| && (RecursiveCheck(links, items, next, cs[k].1) || AnyChildChecked(links, items, next, x, k + 1))
  }

  /** Some item of `t` has a document. */
  predicate SomeDocumented(items: map<Id, DocItem>, t: seq<Id>)
    requires forall i :: 0 <= i < |t| ==> t[i] in items
  {
    exists i :: 0 <= i < |t| && Documented(items[t[i]])
  }

  lemma SomeDocumentedJoin(items: map<Id, DocItem>, a: seq<Id>, b: seq<Id>)
    requires forall i :: 0 <= i < |a| ==> a[i] in items
    requires forall i :: 0 <= i < |b| ==> b[i] in items
    ensures SomeDocumented(items, a + b) <==> SomeDocumented(items, a) || SomeDocumented(items, b)
  {
    if SomeDocumented(items, a + b) {
      var i :| 0 <= i < |a + b| && Documented(items[(a + b)[i]]);
      if i >= |a| {
        assert b[i - |a|] == (a + b)[i];
      }
    }
    if SomeDocumented(items, a) {
      var i :| 0 <= i < |a| && Documented(items[a[i]]);
      assert (a + b)[i] == a[i];
    }
    if SomeDocumented(items, b) {
      var i :| 0 <= i < |b| && Documented(items[b[i]]);
      assert (a + b)[|a| + i] == b[i];
    }
  }

  /** `recursive_check(x)` holds exactly when some item of the subtree of `x` (its travel list) has a document. */
  lemma {:induction false} RecursiveCheckMeaning(links: map<Id, Link>, items: map<Id, DocItem>, next: nat, x: Id)
    requires Walkable(links, next) && x in links && links.Keys <= items.Keys
    ensures RecursiveCheck(links, items, next, x) <==> SomeDocumented(items, TravelList(links, next, x))
    decreases next - x, 1
  {
    AnyChildCheckedMeaning(links, items, next, x, 0);
    SomeDocumentedJoin(items, [x], TravelFrom(links, next, x, 0));
    assert [x][0] == x;
  }

  lemma {:induction false} AnyChildCheckedMeaning(links: map<Id, Link>, items: map<Id, DocItem>, next: nat, x: Id, k: nat)
    requires Walkable(links, next) && x in links && links.Keys <= items.Keys && k <= |links[x].children|
    ensures AnyChildChecked(links, items, next, x, k) <==> SomeDocumented(items, TravelFrom(links, next, x, k))
    decreases next - x, 0, |links[x].children| - k
  {
    var cs := links[x].children;
    if k < |cs| {
      RecursiveCheckMeaning(links, items, next, cs[k].1);
      AnyChildCheckedMeaning(links, items, next, x, k + 1);
      SomeDocumentedJoin(items, TravelList(links, next, cs[k].1), TravelFrom(links, next, x, k + 1));
    }
  }

  // ---------------------------------------------------------------------
  // to_markdown
  // ---------------------------------------------------------------------

  const Waiting: string := "Doc is waiting to be generated..."

  /** `n` copies of `#`. */
  function Hashes(n: nat): (r: string)
    ensures |r| == n && forall i :: 0 <= i < n ==> r[i] == '#'
  {
    seq(n, _ => '#')
  }

  /** The parameter list shown after a name: only for an item whose content has parameters. */
  function ParamsPart(d: DocItem): string
  {
    if d.content.Some? && |d.content.value.params| > 0 then "(" + Join(d.content.value.params, ", ") + ")" else ""
  }

  /** The heading of an item: its level in `#`s, its kind and name, and its parameters when it has any. */
  function Heading(d: DocItem, level: nat): string
  {
    Hashes(level) + " " + ToStr(d.itemType) + " " + d.objName + ParamsPart(d)
  }

  /** The two lines an item contributes itself: its heading and its latest document, or the waiting note. */
  function ItemLines(d: DocItem, level: nat): string
  {
    Heading(d, level) + "\n" + (if Documented(d) then d.mdContent[|d.mdContent| - 1] else Waiting) + "\n"
  }

  /** `to_markdown(x, level)`: the item's lines, then each child one level deeper, each followed by `***`. */
  function Markdown(links: map<Id, Link>, items: map<Id, DocItem>, next: nat, x: Id, level: nat): string
    requires Walkable(links, next) && x in links && links.Keys <= items.Keys
    decreases next - x, 1
  {
    ItemLines(items[x], level) + ChildrenMarkdown(links, items, next, x, level + 1, |links[x].children|)
  }

  /** The blocks of the first `k` children of `x`, at heading level `level`. */
  function ChildrenMarkdown(links: map<Id, Link>, items: map<Id, DocItem>, next: nat, x: Id, level: nat, k: nat): string
    requires Walkable(links, next) && x in links && links.Keys <= items.Keys && k <= |links[x].children|
    decreases next - x, 0, k
  {
    if k == 0 then ""
    else ChildrenMarkdown(links, items, next, x, level, k - 1) + Markdown(links, items, next, links[x].children[k - 1].1, level) + "***\n"
  }

  /** `to_markdown`, building the text as the source does, one piece at a time. */
  method ToMarkdown(links: map<Id, Link>, items: map<Id, DocItem>, next: nat, x: Id, level: nat) returns (md: string)
    requires Walkable(links, next) && x in links && links.Keys <= items.Keys
    ensures md == Markdown(links, items, next, x, level)
    decreases next - x, 1
  {
    var head := RenderItemLines(items[x], level);
    var blocks := RenderChildren(links, items, next, x, level + 1);
    md := head + blocks;
  }

  /** The item's own two lines. */
  method RenderItemLines(d: DocItem, level: nat) returns (md: string)
    ensures md == ItemLines(d, level)
  {
    var params := "";
    if d.content.Some? && |d.content.value.params| > 0 {
      params := "(" + Join(d.content.value.params, ", ") + ")";
    }
    var doc := Waiting;
    if |d.mdContent| > 0 {
      doc := d.mdContent[|d.mdContent| - 1];
    }
    md := Hashes(level) + " " + ToStr(d.itemType) + " " + d.objName + params + "\n" + doc + "\n";
  }

  /** The loop of `to_markdown` over the children, each rendered at `level` and followed by `***`. */
  method RenderChildren(links: map<Id, Link>, items: map<Id, DocItem>, next: nat, x: Id, level: nat) returns (md: string)
    requires Walkable(links, next) && x in links && links.Keys <= items.Keys
    ensures md == ChildrenMarkdown(links, items, next, x, level, |links[x].children|)
    decreases next - x, 0
  {
    var cs := links[x].children;
    md := "";
    var k := 0;
    while k < |cs|
      invariant 0 <= k <= |cs|
      invariant md == ChildrenMarkdown(links, items, next, x, level, k)
    {
      var c := cs[k].1;
      var sub := ToMarkdown(links, items, next, c, level);
      md := md + sub + "***\n";
      k := k + 1;
    }
  }

  /** The items `to_markdown(x, level)` renders, in order, each with its heading level. */
  function Entries(links: map<Id, Link>, next: nat, x: Id, level: nat): (r: seq<(Id, nat)>)
    requires Walkable(links, next) && x in links
    decreases next - x, 1
  {
    [(x, level)] + EntriesUpTo(links, next, x, level + 1, |links[x].children|)
  }

  /** The entries of the first `k` children of `x`, at heading level `level`. */
  function EntriesUpTo(links: map<Id, Link>, next: nat, x: Id, level: nat, k: nat): (r: seq<(Id, nat)>)
    requires Walkable(links, next) && x in links && k <= |links[x].children|
    decreases next - x, 0, k
  {
    if k == 0 then [] else EntriesUpTo(links, next, x, level, k - 1) + Entries(links, next, links[x].children[k - 1].1, level)
  }

  /** The rendered items are the travel list of `x`: the item and everything below it, in pre-order. */
  lemma {:induction false} EntriesAreTravelList(links: map<Id, Link>, next: nat, x: Id, level: nat)
    requires Walkable(links, next) && x in links
    ensures Firsts(Entries(links, next, x, level)) == TravelList(links, next, x)
    decreases next - x, 1
  {
    var n := |links[x].children|;
    EntriesUpToTravel(links, next, x, level + 1, n);
    assert TravelFrom(links, next, x, n) == [];
    assert Firsts(EntriesUpTo(links, next, x, level + 1, n)) + [] == Firsts(EntriesUpTo(links, next, x, level + 1, n));
    FirstsJoin([(x, level)], EntriesUpTo(links, next, x, level + 1, n));
  }

  /** The entries of the first `k` children, followed by the travel lists of the others, make the travel list below `x`. */
  lemma {:induction false} EntriesUpToTravel(links: map<Id, Link>, next: nat, x: Id, level: nat, k: nat)
    requires Walkable(links, next) && x in links && k <= |links[x].children|
    ensures Firsts(EntriesUpTo(links, next, x, level, k)) + TravelFrom(links, next, x, k) == TravelFrom(links, next, x, 0)
    decreases next - x, 0, k
  {
    if k > 0 {
      var j := k - 1;
      var c := links[x].children[j].1;
      EntriesUpToTravel(links, next, x, level, j);
      EntriesAreTravelList(links, next, c, level);
      var before := EntriesUpTo(links, next, x, level, j);
      FirstsJoin(before, Entries(links, next, c, level));
      assert TravelFrom(links, next, x, j) == TravelList(links, next, c) + TravelFrom(links, next, x, k);
      AppendAssoc(Firsts(before), TravelList(links, next, c), TravelFrom(links, next, x, k));
    }
  }

  function Firsts(es: seq<(Id, nat)>): (r: seq<Id>)
    ensures |r| == |es| && forall i :: 0 <= i < |es| ==> r[i] == es[i].0
  {
    seq(|es|, i requires 0 <= i < |es| => es[i].0)
  }

  lemma FirstsJoin(a: seq<(Id, nat)>, b: seq<(Id, nat)>)
    ensures Firsts(a + b) == Firsts(a) + Firsts(b)
  {
  }

  /** `s` occurs in `t` at position `i`. */
  predicate InfixAt(s: string, t: string, i: nat)
  {
    i + |s| <= |t| && t[i..i + |s|] == s
  }

  /**
   * Every rendered item shows up in the text: the `j`-th entry's heading
   * line, at its level, followed by the line with its latest document or
   * the waiting note, starts at position `at`.
   */
  lemma {:induction false} EntryRendered(links: map<Id, Link>, items: map<Id, DocItem>, next: nat, x: Id, level: nat, j: nat)
    returns (at: nat)
    requires Walkable(links, next) && x in links && links.Keys <= items.Keys
    requires j < |Entries(links, next, x, level)|
    ensures var e := Entries(links, next, x, level)[j];
            e.0 in items && InfixAt(ItemLines(items[e.0], e.1), Markdown(links, items, next, x, level), at)
    decreases next - x, 1
  {
    var n := |links[x].children|;
    var head := ItemLines(items[x], level);
    var blocks := ChildrenMarkdown(links, items, next, x, level + 1, n);
    var es := EntriesUpTo(links, next, x, level + 1, n);
    var whole := Markdown(links, items, next, x, level);
    assert whole == head + blocks;
    if j == 0 {
      at := 0;
      InfixLeft(head, head, blocks, "", whole, 0);
    } else {
      var e := es[j - 1];
      assert Entries(links, next, x, level)[j] == e;
      var i := EntryUpToRendered(links, items, next, x, level + 1, n, j - 1);
      at := |head| + i;
      InfixMid(ItemLines(items[e.0], e.1), head, blocks, "", whole, i);
    }
  }

  /** The same for the entries of the first `k` children, inside their blocks. */
  lemma {:induction false} EntryUpToRendered(links: map<Id, Link>, items: map<Id, DocItem>, next: nat, x: Id, level: nat, k: nat, j: nat)
    returns (at: nat)
    requires Walkable(links, next) && x in links && links.Keys <= items.Keys && k <= |links[x].children|
    requires j < |EntriesUpTo(links, next, x, level, k)|
    ensures var e := EntriesUpTo(links, next, x, level, k)[j];
            e.0 in items && InfixAt(ItemLines(items[e.0], e.1), ChildrenMarkdown(links, items, next, x, level, k), at)
    decreases next - x, 0, k
  {
    var p := k - 1;
    var c := links[x].children[p].1;
    var before := EntriesUpTo(links, next, x, level, p);
    var last := Entries(links, next, c, level);
    var earlier := ChildrenMarkdown(links, items, next, x, level, p);
    var block := Markdown(links, items, next, c, level);
    var whole := ChildrenMarkdown(links, items, next, x, level, k);
    var e := EntriesUpTo(links, next, x, level, k)[j];
    assert EntriesUpTo(links, next, x, level, k) == before + last;
    assert whole == earlier + block + "***\n";
    if j < |before| {
      assert e == before[j];
      var i := EntryUpToRendered(links, items, next, x, level, p, j);
      at := i;
      InfixLeft(ItemLines(items[e.0], e.1), earlier, block, "***\n", whole, i);
    } else {
      assert e == last[j - |before|];
      var i := EntryRendered(links, items, next, c, level, j - |before|);
      at := |earlier| + i;
      InfixMid(ItemLines(items[e.0], e.1), earlier, block, "***\n", whole, i);
    }
  }

  lemma InfixLeft(s: string, t: string, b: string, c: string, whole: string, i: nat)
    requires InfixAt(s, t, i) && whole == t + b + c
    ensures InfixAt(s, whole, i)
  {
    assert whole[i..i + |s|] == t[i..i + |s|];
  }

  lemma InfixMid(s: string, a: string, t: string, c: string, whole: string, i: nat)
    requires InfixAt(s, t, i) && whole == a + t + c
    ensures InfixAt(s, whole, |a| + i)
  {
    assert whole[|a| + i..|a| + i + |s|] == t[i..i + |s|];
  }

  // ---------------------------------------------------------------------
  // markdown_refresh
  // ---------------------------------------------------------------------

  /** The text `markdown_refresh` builds for a file: each child's `to_markdown` at level 2, one after the other. */
  function FileMarkdown(links: map<Id, Link>, items: map<Id, DocItem>, next: nat, f: Id, k: nat): string
    requires Walkable(links, next) && f in links && links.Keys <= items.Keys && k <= |links[f].children|
  {
    if k == 0 then "" else FileMarkdown(links, items, next, f, k - 1) + Markdown(links, items, next, links[f].children[k - 1].1, 2)
  }

  /** Where a file's page goes, below the markdown folder: its file name with `.py` made `.md`. */
  function PagePath(links: map<Id, Link>, items: map<Id, DocItem>, f: Id): string
    requires Upward(links) && f in links && links.Keys <= items.Keys
  {
    ReplaceAll(FileName(FullName(links, items, f)), ".py", ".md")
  }

  /** The page `markdown_refresh` writes for file `f`: none when no item of its subtree has a document or its text is empty. */
  function Page(links: map<Id, Link>, items: map<Id, DocItem>, next: nat, f: Id): Option<(string, string)>
    requires Upward(links) && Walkable(links, next) && links.Keys <= items.Keys && f in links
  {
    var md := FileMarkdown(links, items, next, f, |links[f].children|);
    if RecursiveCheck(links, items, next, f) && md != "" then Some((PagePath(links, items, f), md)) else None
  }

  /** The page of each file of `fs`, in order. */
  function PageList(links: map<Id, Link>, items: map<Id, DocItem>, next: nat, fs: seq<Id>): (r: seq<Option<(string, string)>>)
    requires Upward(links) && Walkable(links, next) && links.Keys <= items.Keys
    requires forall i :: 0 <= i < |fs| ==> fs[i] in links
    ensures |r| == |fs|
  {
    if |fs| == 0 then [] else PageList(links, items, next, fs[..|fs| - 1]) + [Page(links, items, next, fs[|fs| - 1])]
  }

  /** The values present in `os`, in order. */
  function Somes<T>(os: seq<Option<T>>): seq<T>
  {
    if |os| == 0 then [] else Somes(os[..|os| - 1]) + (if os[|os| - 1].Some? then [os[|os| - 1].value] else [])
  }

  /** The pages written for the files `fs`, in order. */
  function Pages(links: map<Id, Link>, items: map<Id, DocItem>, next: nat, fs: seq<Id>): seq<(string, string)>
    requires Upward(links) && Walkable(links, next) && links.Keys <= items.Keys
    requires forall i :: 0 <= i < |fs| ==> fs[i] in links
  {
    Somes(PageList(links, items, next, fs))
  }

  /** `markdown_refresh`: the markdown folder's new contents, as (path, text) pairs, for the file items in travel order. */
  method MarkdownRefresh(meta: DM.MetaInfo) returns (pages: seq<(string, string)>)
    requires meta.Valid()
    ensures pages == Pages(meta.links, meta.items, meta.next, AllFiles(meta.links, meta.items, meta.next))
  {
    var files := meta.GetAllFiles();
    pages := RefreshFiles(meta.links, meta.items, meta.next, files);
  }

  /** The loop of `markdown_refresh` over the files. */
  method RefreshFiles(links: map<Id, Link>, items: map<Id, DocItem>, next: nat, files: seq<Id>) returns (pages: seq<(string, string)>)
    requires Upward(links) && Walkable(links, next) && links.Keys <= items.Keys
    requires forall i :: 0 <= i < |files| ==> files[i] in links
    ensures pages == Pages(links, items, next, files)
  {
    pages := [];
    var i := 0;
    while i < |files|
      invariant 0 <= i <= |files|
      invariant pages == Pages(links, items, next, files[..i])
    {
      var p := PageOf(links, items, next, files[i]);
      PagesSnoc(links, items, next, files, i);
      if p.Some? {
        pages := pages + [p.value];
      }
      i := i + 1;
    }
    assert files[..|files|] == files;
  }

  lemma PagesSnoc(links: map<Id, Link>, items: map<Id, DocItem>, next: nat, files: seq<Id>, i: nat)
    requires Upward(links) && Walkable(links, next) && links.Keys <= items.Keys
    requires forall j :: 0 <= j < |files| ==> files[j] in links
    requires i < |files|
    ensures var p := Page(links, items, next, files[i]);
            Pages(links, items, next, files[..i + 1]) == Pages(links, items, next, files[..i]) + (if p.Some? then [p.value] else [])
  {
    assert files[..i + 1][..i] == files[..i];
    var ps := PageList(links, items, next, files[..i + 1]);
    assert ps[..i] == PageList(links, items, next, files[..i]);
  }

  /** One turn of the loop: the file's page, if it gets one. */
  method PageOf(links: map<Id, Link>, items: map<Id, DocItem>, next: nat, f: Id) returns (p: Option<(string, string)>)
    requires Upward(links) && Walkable(links, next) && links.Keys <= items.Keys && f in links
    ensures p == Page(links, items, next, f)
  {
    p := None;
    var has := CheckSubtree(links, items, next, f);
    if has {
      var md := RenderFile(links, items, next, f);
      if md != "" {
        var name := GetFullName(links, items, f);
        p := Some((ReplaceAll(FileName(name), ".py", ".md"), md));
      }
    }
  }

  /** The loop adding up the children's markdown at level 2. */
  method RenderFile(links: map<Id, Link>, items: map<Id, DocItem>, next: nat, f: Id) returns (md: string)
    requires Walkable(links, next) && f in links && links.Keys <= items.Keys
    ensures md == FileMarkdown(links, items, next, f, |links[f].children|)
  {
    md := "";
    var cs := links[f].children;
    var k := 0;
    while k < |cs|
      invariant 0 <= k <= |cs|
      invariant md == FileMarkdown(links, items, next, f, k)
    {
      var sub := ToMarkdown(links, items, next, cs[k].1, 2);
      md := md + sub;
      k := k + 1;
    }
  }

  /** `recursive_check`, with the loop over the children the source writes. */
  method CheckSubtree(links: map<Id, Link>, items: map<Id, DocItem>, next: nat, x: Id) returns (r: bool)
    requires Walkable(links, next) && x in links && links.Keys <= items.Keys
    ensures r == RecursiveCheck(links, items, next, x)
    decreases next - x
  {
    if |items[x].mdContent| > 0 {
      return true;
    }
    var cs := links[x].children;
    var k := 0;
    while k < |cs|
      invariant 0 <= k <= |cs|
      invariant AnyChildChecked(links, items, next, x, 0) == AnyChildChecked(links, items, next, x, k)
    {
      var c := CheckSubtree(links, items, next, cs[k].1);
      if c {
        return true;
      }
      k := k + 1;
    }
    return false;
  }

  /** Every markdown block is at least its own two lines, so a file's text is empty exactly when the file has no children. */
  lemma FileMarkdownEmpty(links: map<Id, Link>, items: map<Id, DocItem>, next: nat, f: Id, k: nat)
    requires Walkable(links, next) && f in links && links.Keys <= items.Keys && k <= |links[f].children|
    ensures FileMarkdown(links, items, next, f, k) == "" <==> k == 0
  {
    if k > 0 {
      var c := links[f].children[k - 1].1;
      assert |Markdown(links, items, next, c, 2)| >= |ItemLines(items[c], 2)| > 0;
    }
  }

  /** A file gets a page exactly when it has children and some item of its subtree (the file included) has a document. */
  lemma PageMeaning(links: map<Id, Link>, items: map<Id, DocItem>, next: nat, f: Id)
    requires Upward(links) && Walkable(links, next) && links.Keys <= items.Keys && f in links
    ensures Page(links, items, next, f).Some? <==> |links[f].children| > 0 && SomeDocumented(items, TravelList(links, next, f))
  {
    RecursiveCheckMeaning(links, items, next, f);
    FileMarkdownEmpty(links, items, next, f, |links[f].children|);
  }

  /** The pages are those of the files, each file's in the files' order. */
  lemma PagesMembers(links: map<Id, Link>, items: map<Id, DocItem>, next: nat, fs: seq<Id>, p: (string, string))
    requires Upward(links) && Walkable(links, next) && links.Keys <= items.Keys
    requires forall i :: 0 <= i < |fs| ==> fs[i] in links
    ensures p in Pages(links, items, next, fs) <==> exists i :: 0 <= i < |fs| && Page(links, items, next, fs[i]) == Some(p)
  {
    var ps := PageList(links, items, next, fs);
    SomesMembers(ps, p);
    if p in Pages(links, items, next, fs) {
      var i :| 0 <= i < |ps| && ps[i] == Some(p);
      PageListAt(links, items, next, fs, i);
    }
    if exists i :: 0 <= i < |fs| && Page(links, items, next, fs[i]) == Some(p) {
      var i :| 0 <= i < |fs| && Page(links, items, next, fs[i]) == Some(p);
      PageListAt(links, items, next, fs, i);
    }
  }

  lemma {:induction false} PageListAt(links: map<Id, Link>, items: map<Id, DocItem>, next: nat, fs: seq<Id>, i: nat)
    requires Upward(links) && Walkable(links, next) && links.Keys <= items.Keys
    requires forall j :: 0 <= j < |fs| ==> fs[j] in links
    requires i < |fs|
    ensures PageList(links, items, next, fs)[i] == Page(links, items, next, fs[i])
    decreases |fs|
  {
    if i < |fs| - 1 {
      var init := fs[..|fs| - 1];
      PageListAt(links, items, next, init, i);
      assert init[i] == fs[i];
    }
  }

  lemma {:induction false} SomesMembers<T>(os: seq<Option<T>>, v: T)
    ensures v in Somes(os) <==> exists i :: 0 <= i < |os| && os[i] == Some(v)
    decreases |os|
  {
    if |os| > 0 {
      var init := os[..|os| - 1];
      SomesMembers(init, v);
      if exists i :: 0 <= i < |init| && init[i] == Some(v) {
        var i :| 0 <= i < |init| && init[i] == Some(v);
        assert os[i] == init[i];
      }
      if exists i :: 0 <= i < |os| && os[i] == Some(v) {
        var i :| 0 <= i < |os| && os[i] == Some(v);
        if i < |init| {
          assert init[i] == os[i];
        }
      }
    }
  }

  // ---------------------------------------------------------------------
  // get_new_objects
  // ---------------------------------------------------------------------

  /**
   * `get_new_objects` as written: it hands the file's text to
   * `get_functions_and_classes`, which takes no argument besides the
   * handler, so the first call raises TypeError, whatever the versions.
   */
  function GetNewObjectsAsWritten(current: string, previous: Option<string>): (r: Result<(set<Option<string>>, set<Option<string>>)>)
  {
    Err("TypeError")
  }

  /** The names a list of definitions holds. */
  function NamesOf(ss: seq<FH.Structure>): (r: set<Option<string>>)
    ensures forall n :: n in r <==> exists i :: 0 <= i < |ss| && ss[i].name == n
  {
    set i | 0 <= i < |ss| :: ss[i].name
  }

  /**
   * The comparison `get_new_objects` intends: the names of the current
   * version missing from the previous one are new, those of the previous
   * version missing from the current one are deleted.
   */
  function ObjectChanges(current: seq<FH.Structure>, previous: seq<FH.Structure>): (r: (set<Option<string>>, set<Option<string>>))
    ensures r.0 == NamesOf(current) - NamesOf(previous)
    ensures r.1 == NamesOf(previous) - NamesOf(current)
  {
    var now, before := NamesOf(current), NamesOf(previous);
    (set n | n in now && n !in before, set n | n in before && n !in now)
  }

  /** No name is both new and deleted, and the changes lead from the previous names to the current ones. */
  lemma ObjectChangesApplied(current: seq<FH.Structure>, previous: seq<FH.Structure>)
    ensures var (added, deleted) := ObjectChanges(current, previous);
            added !! deleted && (NamesOf(previous) - deleted) + added == NamesOf(current)
  {
  }

  /** Comparing the other way round swaps the new names and the deleted ones. */
  lemma ObjectChangesSwap(current: seq<FH.Structure>, previous: seq<FH.Structure>)
    ensures ObjectChanges(previous, current) == (ObjectChanges(current, previous).1, ObjectChanges(current, previous).0)
  {
  }

  /** What `get_functions_and_classes` gives for a parse result. */
  ghost function Structures(root: Option<Node>, language: Option<Language>): seq<FH.Structure>
  {
    if root.None? || language.None? then []
    else FH.Records(FH.Walk(root.value, |root.value.children|, None, FH.Roles(language.value)), FH.RecordFor(language.value))
  }

  /**
   * `get_new_objects`, with each version parsed before its definitions are
   * listed: `parse` stands for tree-sitter, and a previous version that is
   * missing or empty counts as one without definitions.
   */
  method GetNewObjects(current: string, previous: Option<string>, parse: string -> Option<Node>, language: Option<Language>)
    returns (added: set<Option<string>>, deleted: set<Option<string>>)
    ensures (added, deleted)
            == ObjectChanges(Structures(parse(current), language),
                             if previous.Some? && previous.value != "" then Structures(parse(previous.value), language) else [])
  {
    var now := FH.GetFunctionsAndClasses(parse(current), language);
    var before := [];
    if previous.Some? && previous.value != "" {
      before := FH.GetFunctionsAndClasses(parse(previous.value), language);
    }
    var currentNames := set i | 0 <= i < |now| :: now[i].name;
    var previousNames := set i | 0 <= i < |before| :: before[i].name;
    added := currentNames - previousNames;
    deleted := previousNames - currentNames;
  }

  /** The call as written never gets as far as a comparison, where the intended one always does. */
  lemma NewObjectsAlwaysRaise(current: string, previous: Option<string>)
    ensures GetNewObjectsAsWritten(current, previous) == Err("TypeError")
  {
  }
}
