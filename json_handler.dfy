// The chat tool's JSON helpers: `extract_data`, which pulls the first
// summary and the metadata of every documented item out of the project
// hierarchy, and `recursive_search`, which collects the code and summaries
// of every item of a given name at any depth.
module JsonHandler {
  import opened Wrappers
  import opened PyStrings

  /** A loaded JSON value; objects keep their keys in document order. */
  datatype Json = JNull | JBool(b: bool) | JNum(n: int) | JStr(s: string) | JArr(items: seq<Json>) | JObj(fields: seq<(string, Json)>)

  /** `d.get(key)`: the value of the key's last occurrence, as `json.load` keeps it. */
  function Get(fields: seq<(string, Json)>, key: string): (r: Option<Json>)
    ensures r.Some? <==> exists i :: 0 <= i < |fields| && fields[i].0 == key
    ensures r.Some? ==> (r.value, key) == (fields[LastKey(fields, key)].1, fields[LastKey(fields, key)].0)
  {
    if |fields| == 0 then None
    else if fields[|fields| - 1].0 == key then Some(fields[|fields| - 1].1)
    else Get(fields[..|fields| - 1], key)
  }

  /** The position of the key's last occurrence (0 when absent). */
  function LastKey(fields: seq<(string, Json)>, key: string): (i: nat)
    ensures (exists j :: 0 <= j < |fields| && fields[j].0 == key) ==> i < |fields| && fields[i].0 == key
    ensures forall j :: i < j < |fields| ==> fields[j].0 != key
  {
    if |fields| == 0 then 0
    else if fields[|fields| - 1].0 == key then |fields| - 1
    else LastKey(fields[..|fields| - 1], key)
  }

  /** `d.get(key, default)`, looked up from the last field back. */
  function GetOr(fields: seq<(string, Json)>, key: string, default: Json): Json
  {
    if |fields| == 0 then default
    else if fields[|fields| - 1].0 == key then fields[|fields| - 1].1
    else GetOr(fields[..|fields| - 1], key, default)
  }

  /** `d.get(key, default)` is `d.get(key)` with the default for a missing key. */
  lemma {:induction false} GetOrGet(fields: seq<(string, Json)>, key: string, default: Json)
    ensures GetOr(fields, key, default) == if Get(fields, key).Some? then Get(fields, key).value else default
  {
    if |fields| > 0 && fields[|fields| - 1].0 != key {
      GetOrGet(fields[..|fields| - 1], key, default);
    }
  }

  /** Python truthiness of a JSON value. */
  predicate Truthy(j: Json)
  {
    match j
    case JNull => false
    case JBool(b) => b
    case JNum(n) => n != 0
    case JStr(s) => |s| > 0
    case JArr(items) => |items| > 0
    case JObj(fields) => |fields| > 0
  }

  // ---------------------------------------------------------------------
  // extract_data
  // ---------------------------------------------------------------------

  /** The metadata `extract_data` keeps for an item, each field with its default. */
  datatype ItemDict = ItemDict(kind: Json, name: Json, startLine: Json, endLine: Json, haveReturn: Json,
                               codeContent: Json, nameColumn: Json, itemStatus: Json)

  function ItemDictOf(fields: seq<(string, Json)>): ItemDict
  {
    ItemDict(GetOr(fields, "type", JStr("UnknownType")), GetOr(fields, "name", JStr("Unnamed")),
             GetOr(fields, "code_start_line", JNum(-1)), GetOr(fields, "code_end_line", JNum(-1)),
             GetOr(fields, "have_return", JBool(false)), GetOr(fields, "code_content", JStr("NoContent")),
             GetOr(fields, "name_column", JNum(0)), GetOr(fields, "item_status", JStr("UnknownStatus")))
  }

  /** `x[0]` on a truthy value: a list's first element, a string's first character; a TypeError or KeyError otherwise. */
  function FirstOf(j: Json): (r: Result<Json>)
    requires Truthy(j)
    ensures r.Ok? <==> j.JArr? || j.JStr?
  {
    match j
    case JArr(items) => Ok(items[0])
    case JStr(s) => Ok(JStr([s[0]]))
    case JObj(_) => Err("KeyError")
    case _ => Err("TypeError")
  }

  /**
   * One item of a file's list: None when it is skipped, the first summary
   * and the metadata when it is documented, an error where the source raises
   * (the membership test on a value that is not an object, or indexing the
   * summary).
   */
  function ItemEntry(item: Json): Result<Option<(Json, ItemDict)>>
  {
    match item
    case JObj(fields) =>
      (match Get(fields, "md_content")
       case Some(m) =>
         if !Truthy(m) then Ok(None)
         else (match FirstOf(m)
               case Ok(first) => Ok(Some((first, ItemDictOf(fields))))
               case Err(e) => Err(e))
       case None => Ok(None))
    case JArr(xs) => if JStr("md_content") in xs then Err("TypeError") else Ok(None)
    case JStr(s) => if Contains(s, "md_content") then Err("TypeError") else Ok(None)
    case _ => Err("TypeError")
  }

  /** The summaries and metadata of the first `k` items of one list. */
  function ExtractItems(items: seq<Json>, k: nat): Result<(seq<Json>, seq<ItemDict>)>
    requires k <= |items|
  {
    if k == 0 then Ok(([], []))
    else
      match ExtractItems(items, k - 1)
      case Err(e) => Err(e)
      case Ok(acc) =>
        match ItemEntry(items[k - 1])
        case Err(e) => Err(e)
        case Ok(None) => Ok(acc)
        case Ok(Some(entry)) => Ok((acc.0 + [entry.0], acc.1 + [entry.1]))
  }

  /** The summaries and metadata of the first `k` files; entries that are not lists are skipped. */
  function ExtractFiles(data: seq<(string, Json)>, k: nat): Result<(seq<Json>, seq<ItemDict>)>
    requires k <= |data|
  {
    if k == 0 then Ok(([], []))
    else
      match ExtractFiles(data, k - 1)
      case Err(e) => Err(e)
      case Ok(acc) =>
        if !data[k - 1].1.JArr? then Ok(acc)
        else
          match ExtractItems(data[k - 1].1.items, |data[k - 1].1.items|)
          case Err(e) => Err(e)
          case Ok(more) => Ok((acc.0 + more.0, acc.1 + more.1))
  }

  /** `extract_data` on the loaded hierarchy object. */
  function ExtractData(data: seq<(string, Json)>): Result<(seq<Json>, seq<ItemDict>)>
  {
    ExtractFiles(data, |data|)
  }

  /** The `i`th summary and the `i`th metadata come from the same item of some file's list. */
  ghost predicate AlignedWith(data: seq<(string, Json)>, md: seq<Json>, ex: seq<ItemDict>)
  {
    |md| == |ex|
    && forall i :: 0 <= i < |md| ==>
         exists f, m :: 0 <= f < |data| && data[f].1.JArr? && 0 <= m < |data[f].1.items|
                        && ItemEntry(data[f].1.items[m]) == Ok(Some((md[i], ex[i])))
  }

  lemma {:induction false} ExtractItemsAligned(items: seq<Json>, k: nat)
    requires k <= |items| && ExtractItems(items, k).Ok?
    ensures |ExtractItems(items, k).value.0| == |ExtractItems(items, k).value.1|
    ensures forall i :: 0 <= i < |ExtractItems(items, k).value.0| ==>
              exists m :: 0 <= m < k && ItemEntry(items[m]) == Ok(Some((ExtractItems(items, k).value.0[i], ExtractItems(items, k).value.1[i])))
    decreases k
  {
    if k > 0 {
      ExtractItemsAligned(items, k - 1);
      var acc := ExtractItems(items, k - 1).value;
      var r := ExtractItems(items, k).value;
      forall i | 0 <= i < |r.0|
        ensures exists m :: 0 <= m < k && ItemEntry(items[m]) == Ok(Some((r.0[i], r.1[i])))
      {
        if i < |acc.0| {
          assert r.0[i] == acc.0[i] && r.1[i] == acc.1[i];
          var m :| 0 <= m < k - 1 && ItemEntry(items[m]) == Ok(Some((acc.0[i], acc.1[i])));
        } else {
          assert ItemEntry(items[k - 1]) == Ok(Some((r.0[i], r.1[i])));
        }
      }
    }
  }

  /**
   * `extract_data` returns two lists of equal length, aligned index by index:
   * the `i`th summary and the `i`th metadata come from one documented item.
   */
  lemma {:induction false} ExtractFilesAligned(data: seq<(string, Json)>, k: nat)
    requires k <= |data| && ExtractFiles(data, k).Ok?
    ensures AlignedWith(data, ExtractFiles(data, k).value.0, ExtractFiles(data, k).value.1)
    decreases k
  {
    if k > 0 {
      ExtractFilesAligned(data, k - 1);
      var acc := ExtractFiles(data, k - 1).value;
      if data[k - 1].1.JArr? {
        var items := data[k - 1].1.items;
        ExtractItemsAligned(items, |items|);
        var more := ExtractItems(items, |items|).value;
        var r := ExtractFiles(data, k).value;
        forall i | 0 <= i < |r.0|
          ensures exists f, m :: 0 <= f < |data| && data[f].1.JArr? && 0 <= m < |data[f].1.items|
                                 && ItemEntry(data[f].1.items[m]) == Ok(Some((r.0[i], r.1[i])))
        {
          if i < |acc.0| {
            assert r.0[i] == acc.0[i] && r.1[i] == acc.1[i];
          } else {
            var j := i - |acc.0|;
            assert r.0[i] == more.0[j] && r.1[i] == more.1[j];
            var m :| 0 <= m < |items| && ItemEntry(items[m]) == Ok(Some((more.0[j], more.1[j])));
          }
        }
      }
    }
  }

  /** A file entry that is not a list contributes nothing. */
  lemma NonListFileSkipped(data: seq<(string, Json)>, file: string, v: Json)
    requires !v.JArr?
    ensures ExtractData(data + [(file, v)]) == ExtractData(data)
  {
    assert (data + [(file, v)])[..|data|] == data;
    PrefixExtract(data + [(file, v)], data, |data|);
  }

  lemma {:induction false} PrefixExtract(a: seq<(string, Json)>, b: seq<(string, Json)>, k: nat)
    requires k <= |b| <= |a| && a[..|b|] == b
    ensures ExtractFiles(a, k) == ExtractFiles(b, k)
    decreases k
  {
    if k > 0 {
      assert a[k - 1] == b[k - 1];
      PrefixExtract(a, b, k - 1);
    }
  }

  /** An item whose `md_content` is missing or empty contributes nothing. */
  lemma UndocumentedItemSkipped(items: seq<Json>, fields: seq<(string, Json)>)
    requires Get(fields, "md_content").None? || !Truthy(Get(fields, "md_content").value)
    ensures ExtractItems(items + [JObj(fields)], |items| + 1) == ExtractItems(items, |items|)
  {
    assert (items + [JObj(fields)])[..|items|] == items;
    PrefixItems(items + [JObj(fields)], items, |items|);
  }

  lemma {:induction false} PrefixItems(a: seq<Json>, b: seq<Json>, k: nat)
    requires k <= |b| <= |a| && a[..|b|] == b
    ensures ExtractItems(a, k) == ExtractItems(b, k)
    decreases k
  {
    if k > 0 {
      assert a[k - 1] == b[k - 1];
      PrefixItems(a, b, k - 1);
    }
  }

  /** A documented item with no other keys gets every default. */
  lemma DefaultsOfBareItem(summary: Json)
    ensures ItemEntry(JObj([("md_content", JArr([summary]))]))
            == Ok(Some((summary, ItemDict(JStr("UnknownType"), JStr("Unnamed"), JNum(-1), JNum(-1), JBool(false),
                                          JStr("NoContent"), JNum(0), JStr("UnknownStatus")))))
  {
    var md := "md_content";
    var fields := [(md, JArr([summary]))];
    assert fields[..0] == [];
    assert Get(fields, md) == Some(JArr([summary]));
    assert FirstOf(JArr([summary])) == Ok(summary);
    GetOrOther(md, JArr([summary]), "type", JStr("UnknownType"));
    GetOrOther(md, JArr([summary]), "name", JStr("Unnamed"));
    GetOrOther(md, JArr([summary]), "code_start_line", JNum(-1));
    GetOrOther(md, JArr([summary]), "code_end_line", JNum(-1));
    GetOrOther(md, JArr([summary]), "have_return", JBool(false));
    GetOrOther(md, JArr([summary]), "code_content", JStr("NoContent"));
    GetOrOther(md, JArr([summary]), "name_column", JNum(0));
    GetOrOther(md, JArr([summary]), "item_status", JStr("UnknownStatus"));
  }

  /** In a one-field object, any other key takes its default. */
  lemma GetOrOther(k0: string, v: Json, key: string, default: Json)
    requires k0 != key
    ensures GetOr([(k0, v)], key, default) == default
  {
    assert [(k0, v)][..0] == [];
  }

  /** `extract_data` after the read, with its two nested loops. */
  method ExtractDataLoop(data: seq<(string, Json)>) returns (r: Result<(seq<Json>, seq<ItemDict>)>)
    ensures r == ExtractData(data)
  {
    var mdContents: seq<Json> := [];
    var extracted: seq<ItemDict> := [];
    for k := 0 to |data|
      invariant ExtractFiles(data, k) == Ok((mdContents, extracted))
    {
      if data[k].1.JArr? {
        var more := ExtractItemsLoop(data[k].1.items);
        if more.Err? {
          FilesErrStays(data, k + 1, |data|, more.error);
          return Err(more.error);
        }
        mdContents := mdContents + more.value.0;
        extracted := extracted + more.value.1;
      }
    }
    return Ok((mdContents, extracted));
  }

  /** The inner loop of `extract_data`, over the items of one file's list. */
  method ExtractItemsLoop(items: seq<Json>) returns (r: Result<(seq<Json>, seq<ItemDict>)>)
    ensures r == ExtractItems(items, |items|)
  {
    var acc: (seq<Json>, seq<ItemDict>) := ([], []);
    var m := 0;
    while m < |items|
      invariant m <= |items| && ExtractItems(items, m) == Ok(acc)
    {
      var entry := ItemEntry(items[m]);
      ItemsStep(items, m, acc, entry);
      match entry {
        case Err(e) =>
          ItemsErrStays(items, m + 1, |items|, e);
          return Err(e);
        case Ok(None) =>
        case Ok(Some(x)) =>
          acc := (acc.0 + [x.0], acc.1 + [x.1]);
      }
      m := m + 1;
    }
    return Ok(acc);
  }

  /** One more item extends the extraction by its entry, or makes it raise. */
  lemma ItemsStep(items: seq<Json>, m: nat, acc: (seq<Json>, seq<ItemDict>), entry: Result<Option<(Json, ItemDict)>>)
    requires m < |items| && ExtractItems(items, m) == Ok(acc) && ItemEntry(items[m]) == entry
    ensures ExtractItems(items, m + 1)
            == match entry
               case Err(e) => Err(e)
               case Ok(None) => Ok(acc)
               case Ok(Some(x)) => Ok((acc.0 + [x.0], acc.1 + [x.1]))
  {
  }

  lemma {:induction false} ItemsErrStays(items: seq<Json>, j: nat, k: nat, e: string)
    requires 0 < j <= k <= |items| && ExtractItems(items, j) == Err(e)
    ensures ExtractItems(items, k) == Err(e)
    decreases k
  {
    if k > j {
      ItemsErrStays(items, j, k - 1, e);
    }
  }

  lemma {:induction false} FilesErrStays(data: seq<(string, Json)>, j: nat, k: nat, e: string)
    requires 0 < j <= k <= |data| && ExtractFiles(data, j) == Err(e)
    ensures ExtractFiles(data, k) == Err(e)
    decreases k
  {
    if k > j {
      FilesErrStays(data, j, k - 1, e);
    }
  }

  // ---------------------------------------------------------------------
  // recursive_search
  // ---------------------------------------------------------------------

  /**
   * What the search appends to `code_results` and `md_results`, and whether
   * a KeyError escaped (after the code of the offending item was appended).
   */
  datatype Trace = Trace(codes: seq<Json>, mds: seq<Json>, failed: bool)

  const Nothing: Trace := Trace([], [], false)

  /** One step after another: the second runs only when the first did not raise. */
  function Then(a: Trace, b: Trace): Trace
  {
    if a.failed then a else Trace(a.codes + b.codes, a.mds + b.mds, b.failed)
  }

  lemma ThenAssoc(a: Trace, b: Trace, c: Trace)
    ensures Then(Then(a, b), c) == Then(a, Then(b, c))
  {
  }

  lemma ThenNothing(a: Trace)
    ensures Then(a, Nothing) == a
    ensures Then(Nothing, a) == a
  {
    assert [] + a.codes == a.codes && [] + a.mds == a.mds;
  }

  /** The item itself: a dict of that name with `code_content` appends its code, then its `md_content`. */
  function OwnMatch(item: Json, searchText: string): Trace
  {
    if item.JObj? && Get(item.fields, "name") == Some(JStr(searchText)) && Get(item.fields, "code_content").Some? then
      match Get(item.fields, "md_content")
      case Some(md) => Trace([Get(item.fields, "code_content").value], [md], false)
      case None => Trace([Get(item.fields, "code_content").value], [], true)
    else Nothing
  }

  /** `recursive_search` from `j`. */
  function Search(j: Json, searchText: string): Trace
    decreases j, 1
  {
    match j
    case JObj(_) => SearchFields(j, 0, searchText)
    case JArr(_) => SearchItems(j, 0, searchText)
    case _ => Nothing
  }

  /** The dict loop from the `k`th value on: only dict and list values are searched. */
  function SearchFields(j: Json, k: nat, searchText: string): Trace
    requires j.JObj? && k <= |j.fields|
    decreases j, 0, |j.fields| - k
  {
    if k == |j.fields| then Nothing
    else
      var v := j.fields[k].1;
      Then(if v.JObj? || v.JArr? then Search(v, searchText) else Nothing, SearchFields(j, k + 1, searchText))
  }

  /** The list loop from the `k`th item on: the item's own match, then the search inside it. */
  function SearchItems(j: Json, k: nat, searchText: string): Trace
    requires j.JArr? && k <= |j.items|
    decreases j, 0, |j.items| - k
  {
    if k == |j.items| then Nothing
    else
      var item := j.items[k];
      Then(Then(OwnMatch(item, searchText), Search(item, searchText)), SearchItems(j, k + 1, searchText))
  }

  /** The two lists grow together; only a raised KeyError leaves the code list one ahead. */
  predicate Balanced(t: Trace)
  {
    |t.codes| == |t.mds| + (if t.failed then 1 else 0)
  }

  lemma ThenBalanced(a: Trace, b: Trace)
    requires Balanced(a) && Balanced(b)
    ensures Balanced(Then(a, b))
  {
  }

  lemma {:induction false} SearchBalanced(j: Json, searchText: string)
    ensures Balanced(Search(j, searchText))
    decreases j, 1
  {
    match j
    case JObj(_) => SearchFieldsBalanced(j, 0, searchText);
    case JArr(_) => SearchItemsBalanced(j, 0, searchText);
    case _ =>
  }

  lemma {:induction false} SearchFieldsBalanced(j: Json, k: nat, searchText: string)
    requires j.JObj? && k <= |j.fields|
    ensures Balanced(SearchFields(j, k, searchText))
    decreases j, 0, |j.fields| - k
  {
    if k < |j.fields| {
      var v := j.fields[k].1;
      if v.JObj? || v.JArr? {
        SearchBalanced(v, searchText);
      }
      SearchFieldsBalanced(j, k + 1, searchText);
      ThenBalanced(if v.JObj? || v.JArr? then Search(v, searchText) else Nothing, SearchFields(j, k + 1, searchText));
    }
  }

  lemma {:induction false} SearchItemsBalanced(j: Json, k: nat, searchText: string)
    requires j.JArr? && k <= |j.items|
    ensures Balanced(SearchItems(j, k, searchText))
    decreases j, 0, |j.items| - k
  {
    if k < |j.items| {
      var item := j.items[k];
      SearchBalanced(item, searchText);
      SearchItemsBalanced(j, k + 1, searchText);
      ThenBalanced(OwnMatch(item, searchText), Search(item, searchText));
      ThenBalanced(Then(OwnMatch(item, searchText), Search(item, searchText)), SearchItems(j, k + 1, searchText));
    }
  }

  /** The `i`th container inside `j`: a dict's `i`th value when it is a dict or a list, a list's `i`th item. */
  predicate HasChild(j: Json, i: nat)
  {
    (j.JObj? && i < |j.fields| && (j.fields[i].1.JObj? || j.fields[i].1.JArr?)) || (j.JArr? && i < |j.items|)
  }

  function Child(j: Json, i: nat): Json
    requires HasChild(j, i)
  {
    if j.JObj? then j.fields[i].1 else j.items[i]
  }

  /** `p` leads from `j` through containers the search enters. */
  predicate Reaches(j: Json, p: seq<nat>)
    decreases |p|
  {
    |p| == 0 || (HasChild(j, p[0]) && Reaches(Child(j, p[0]), p[1..]))
  }

  function Follow(j: Json, p: seq<nat>): Json
    requires Reaches(j, p)
    decreases |p|
  {
    if |p| == 0 then j else Follow(Child(j, p[0]), p[1..])
  }

  /** What `t` appended to the code list includes everything `s` appended to it. */
  predicate Includes(t: Trace, s: Trace)
  {
    forall c :: c in s.codes ==> c in t.codes
  }

  lemma {:induction false} SearchFieldsIncludes(j: Json, k: nat, i: nat, searchText: string)
    requires j.JObj? && k <= i < |j.fields| && HasChild(j, i)
    requires !SearchFields(j, k, searchText).failed
    ensures !Search(Child(j, i), searchText).failed && Includes(SearchFields(j, k, searchText), Search(Child(j, i), searchText))
    decreases i - k
  {
    var v := j.fields[k].1;
    var head := if v.JObj? || v.JArr? then Search(v, searchText) else Nothing;
    if k < i {
      SearchFieldsIncludes(j, k + 1, i, searchText);
    }
    assert SearchFields(j, k, searchText) == Then(head, SearchFields(j, k + 1, searchText));
  }

  lemma {:induction false} SearchItemsIncludes(j: Json, k: nat, i: nat, searchText: string)
    requires j.JArr? && k <= i < |j.items|
    requires !SearchItems(j, k, searchText).failed
    ensures !Search(j.items[i], searchText).failed && Includes(SearchItems(j, k, searchText), Search(j.items[i], searchText))
    ensures !OwnMatch(j.items[i], searchText).failed && Includes(SearchItems(j, k, searchText), OwnMatch(j.items[i], searchText))
    decreases i - k
  {
    var item := j.items[k];
    if k < i {
      SearchItemsIncludes(j, k + 1, i, searchText);
    }
    assert SearchItems(j, k, searchText)
           == Then(Then(OwnMatch(item, searchText), Search(item, searchText)), SearchItems(j, k + 1, searchText));
  }

  /** Entering any container the search enters keeps what that container's search appends. */
  lemma ChildIncluded(j: Json, i: nat, searchText: string)
    requires HasChild(j, i) && !Search(j, searchText).failed
    ensures !Search(Child(j, i), searchText).failed && Includes(Search(j, searchText), Search(Child(j, i), searchText))
  {
    if j.JObj? {
      SearchFieldsIncludes(j, 0, i, searchText);
    } else {
      SearchItemsIncludes(j, 0, i, searchText);
    }
  }

  /**
   * At any depth: a dict of the searched name with `code_content`, sitting
   * in a list the search reaches, has its code collected, unless a KeyError
   * stopped the search.
   */
  lemma {:induction false} FindsAtAnyDepth(j: Json, p: seq<nat>, i: nat, searchText: string)
    requires Reaches(j, p) && Follow(j, p).JArr? && i < |Follow(j, p).items|
    requires var x := Follow(j, p).items[i];
             x.JObj? && Get(x.fields, "name") == Some(JStr(searchText)) && Get(x.fields, "code_content").Some?
    requires !Search(j, searchText).failed
    ensures Get(Follow(j, p).items[i].fields, "code_content").value in Search(j, searchText).codes
    decreases |p|
  {
    if |p| == 0 {
      SearchItemsIncludes(j, 0, i, searchText);
    } else {
      ChildIncluded(j, p[0], searchText);
      FindsAtAnyDepth(Child(j, p[0]), p[1..], i, searchText);
    }
  }

  /** `recursive_search`, appending to the caller's lists; `raised` reports the KeyError. */
  method RecursiveSearch(dataItem: Json, searchText: string, codeResults: seq<Json>, mdResults: seq<Json>)
    returns (codes: seq<Json>, mds: seq<Json>, raised: bool)
    ensures Trace(codes, mds, raised) == Then(Trace(codeResults, mdResults, false), Search(dataItem, searchText))
    decreases dataItem, 1
  {
    if dataItem.JObj? {
      codes, mds, raised := SearchDict(dataItem, searchText, codeResults, mdResults);
    } else if dataItem.JArr? {
      codes, mds, raised := SearchList(dataItem, searchText, codeResults, mdResults);
    } else {
      codes, mds, raised := codeResults, mdResults, false;
    }
  }

  /** The dict branch: each dict or list value searched in turn. */
  method SearchDict(dataItem: Json, searchText: string, codeResults: seq<Json>, mdResults: seq<Json>)
    returns (codes: seq<Json>, mds: seq<Json>, raised: bool)
    requires dataItem.JObj?
    ensures Trace(codes, mds, raised) == Then(Trace(codeResults, mdResults, false), Search(dataItem, searchText))
    decreases dataItem, 0
  {
    codes, mds, raised := codeResults, mdResults, false;
    var fields := dataItem.fields;
    var k := 0;
    while k < |fields|
      invariant 0 <= k <= |fields|
      invariant Then(Trace(codes, mds, false), SearchFields(dataItem, k, searchText))
                == Then(Trace(codeResults, mdResults, false), Search(dataItem, searchText))
    {
      var v := fields[k].1;
      var head := if v.JObj? || v.JArr? then Search(v, searchText) else Nothing;
      ThenAssoc(Trace(codes, mds, false), head, SearchFields(dataItem, k + 1, searchText));
      if v.JObj? || v.JArr? {
        codes, mds, raised := RecursiveSearch(v, searchText, codes, mds);
        if raised {
          return;
        }
      }
      k := k + 1;
    }
    ThenNothing(Trace(codes, mds, false));
  }

  /** The list branch: each item's own match, then the search inside it. */
  method SearchList(dataItem: Json, searchText: string, codeResults: seq<Json>, mdResults: seq<Json>)
    returns (codes: seq<Json>, mds: seq<Json>, raised: bool)
    requires dataItem.JArr?
    ensures Trace(codes, mds, raised) == Then(Trace(codeResults, mdResults, false), Search(dataItem, searchText))
    decreases dataItem, 0
  {
    codes, mds, raised := codeResults, mdResults, false;
    var items := dataItem.items;
    var k := 0;
    while k < |items|
      invariant 0 <= k <= |items|
      invariant Then(Trace(codes, mds, false), SearchItems(dataItem, k, searchText))
                == Then(Trace(codeResults, mdResults, false), Search(dataItem, searchText))
    {
      var item := items[k];
      var own := OwnMatch(item, searchText);
      ThenAssoc(Trace(codes, mds, false), Then(own, Search(item, searchText)), SearchItems(dataItem, k + 1, searchText));
      ThenAssoc(Trace(codes, mds, false), own, Search(item, searchText));
      codes, mds, raised := AppendOwnMatch(item, searchText, codes, mds);
      if raised {
        return;
      }
      codes, mds, raised := RecursiveSearch(item, searchText, codes, mds);
      if raised {
        return;
      }
      k := k + 1;
    }
    ThenNothing(Trace(codes, mds, false));
  }

  /** The appends for a dict of the searched name: its code, then its summary (a KeyError when it has none). */
  method AppendOwnMatch(item: Json, searchText: string, codeResults: seq<Json>, mdResults: seq<Json>)
    returns (codes: seq<Json>, mds: seq<Json>, raised: bool)
    ensures Trace(codes, mds, raised) == Then(Trace(codeResults, mdResults, false), OwnMatch(item, searchText))
  {
    codes, mds, raised := codeResults, mdResults, false;
    if item.JObj? && Get(item.fields, "name") == Some(JStr(searchText)) && Get(item.fields, "code_content").Some? {
      codes := codes + [Get(item.fields, "code_content").value];
      if Get(item.fields, "md_content").None? {
        raised := true;
        return;
      }
      mds := mds + [Get(item.fields, "md_content").value];
    } else {
      ThenNothing(Trace(codes, mds, false));
    }
  }

  const NoMatch: Json := JStr("No matching item found.")

  /** `search_code_contents_by_name` on the loaded file: the error message, the matches, or the two sentinel lists. */
  function SearchByName(data: Json, searchText: string): Result<(seq<Json>, seq<Json>)>
  {
    var t := Search(data, searchText);
    if t.failed then Err("An error occurred: 'md_content'")
    else if |t.codes| > 0 || |t.mds| > 0 then Ok((t.codes, t.mds))
    else Ok(([NoMatch], [NoMatch]))
  }

  /** Nothing found gives the sentinel in both lists; anything found gives two lists of equal length. */
  lemma SearchByNameShape(data: Json, searchText: string)
    ensures SearchByName(data, searchText).Ok? <==> !Search(data, searchText).failed
    ensures SearchByName(data, searchText).Ok? ==> |SearchByName(data, searchText).value.0| == |SearchByName(data, searchText).value.1| > 0
    ensures SearchByName(data, searchText).Ok? && Search(data, searchText).codes == [] ==>
              SearchByName(data, searchText).value == ([NoMatch], [NoMatch])
  {
    SearchBalanced(data, searchText);
  }

  /** The file's search, with the sentinel when nothing matched. */
  method SearchCodeContentsByName(data: Json, searchText: string) returns (r: Result<(seq<Json>, seq<Json>)>)
    ensures r == SearchByName(data, searchText)
  {
    var codes, mds, raised := RecursiveSearch(data, searchText, [], []);
    ThenNothing(Search(data, searchText));
    if raised {
      return Err("An error occurred: 'md_content'");
    }
    if |codes| > 0 || |mds| > 0 {
      return Ok((codes, mds));
    }
    return Ok(([NoMatch], [NoMatch]));
  }
}
