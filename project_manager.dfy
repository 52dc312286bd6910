// The project handler's language table and class-method listing, and the
// project manager's path tree: the files that reference an item, the files
// it references and its own file, drawn as an indented outline.
module ProjectManager {
  import opened Wrappers
  import opened PyStrings
  import opened SourceLanguages
  import opened SeqUtil

  // ---------------------------------------------------------------------
  // ProjectHandler.get_file_language
  // ---------------------------------------------------------------------

  /** `get_file_language`: the language name for the lower-cased extension, None for any other. */
  function GetFileLanguage(path: string): (r: Option<string>)
    ensures r.Some? <==> Lower(SplitExt(path).1) in {".py", ".java", ".go", ".kt", ".kts"}
    ensures r.Some? ==> r.value in {"python", "java", "go", "kotlin"}
  {
    match DetectLanguage(path)
    case Some(l) => Some(LanguageName(l))
    case None => None
  }

  /** The case of the extension does not matter: `F.PY` and `F.py` both give "python". */
  lemma GetFileLanguageIgnoresCase(base: string, ext: string, lowered: string)
    requires HasStem(base)
    requires lowered in {".py", ".java", ".go", ".kt", ".kts"} && Lower(ext) == lowered
    ensures GetFileLanguage(base + ext).Some?
    ensures GetFileLanguage(base + ext) == GetFileLanguage(base + lowered)
  {
    DetectLanguageKnown(base, ext, lowered);
    LowerTwice(ext);
    DetectLanguageKnown(base, lowered, lowered);
  }

  // ---------------------------------------------------------------------
  // ProjectHandler._get_class_methods
  // ---------------------------------------------------------------------

  /** One entry of a file's structure, with the keys `_get_class_methods` reads. */
  datatype StructureItem = StructureItem(kind: string, name: Option<string>, startLine: int, endLine: int,
                                         parent: Option<string>, params: seq<string>)

  /** What `_get_class_methods` reports for a method. */
  datatype MethodInfo = MethodInfo(name: Option<string>, startLine: int, endLine: int, params: seq<string>)

  /** The item is a function-like member of class `className`. */
  predicate IsMethodOf(item: StructureItem, className: string)
  {
    item.parent == Some(className) && item.kind in {"FunctionDef", "AsyncFunctionDef", "Function", "method_declaration"}
  }

  function Summary(item: StructureItem): MethodInfo
  {
    MethodInfo(item.name, item.startLine, item.endLine, item.params)
  }

  /** The methods of `className` among the first `k` items, in order. */
  function MethodsOf(structure: seq<StructureItem>, className: string, k: nat): seq<MethodInfo>
    requires k <= |structure|
  {
    if k == 0 then []
    else MethodsOf(structure, className, k - 1)
         + (if IsMethodOf(structure[k - 1], className) then [Summary(structure[k - 1])] else [])
  }

  /** A summary is listed exactly when some item is a method of the class and summarises to it. */
  lemma {:induction false} MethodsOfMembers(structure: seq<StructureItem>, className: string, k: nat, m: MethodInfo)
    requires k <= |structure|
    ensures m in MethodsOf(structure, className, k)
            <==> exists i :: 0 <= i < k && IsMethodOf(structure[i], className) && m == Summary(structure[i])
    decreases k
  {
    if k > 0 {
      MethodsOfMembers(structure, className, k - 1, m);
      if IsMethodOf(structure[k - 1], className) && m == Summary(structure[k - 1]) {
        assert m in MethodsOf(structure, className, k);
      }
    }
  }

  /** The listing keeps the structure's order: a method earlier in the file comes earlier in the list. */
  lemma {:induction false} MethodsOfOrder(structure: seq<StructureItem>, className: string, k: nat, j: nat)
    requires j <= k <= |structure|
    ensures MethodsOf(structure, className, j) <= MethodsOf(structure, className, k)
    decreases k
  {
    if j < k {
      MethodsOfOrder(structure, className, k - 1, j);
    }
  }

  /** `_get_class_methods`. */
  method GetClassMethods(structure: seq<StructureItem>, className: string) returns (methods: seq<MethodInfo>)
    ensures methods == MethodsOf(structure, className, |structure|)
  {
    methods := [];
    for k := 0 to |structure|
      invariant methods == MethodsOf(structure, className, k)
    {
      var item := structure[k];
      if item.parent == Some(className) && item.kind in {"FunctionDef", "AsyncFunctionDef", "Function", "method_declaration"} {
        methods := methods + [MethodInfo(item.name, item.startLine, item.endLine, item.params)];
      }
    }
  }

  // ---------------------------------------------------------------------
  // ProjectManager.build_path_tree
  // ---------------------------------------------------------------------

  /** A node of the nested defaultdict: its keys with their subtrees, in insertion order. */
  datatype Trie = Trie(children: seq<(string, Trie)>)

  /** The position of key `k` among the children. */
  function KeyIndex(cs: seq<(string, Trie)>, k: string): (r: Option<nat>)
    ensures r.Some? ==> r.value < |cs| && cs[r.value].0 == k
    ensures r.None? ==> forall i :: 0 <= i < |cs| ==> cs[i].0 != k
  {
    if |cs| == 0 then None
    else if cs[|cs| - 1].0 == k then Some(|cs| - 1)
    else KeyIndex(cs[..|cs| - 1], k)
  }

  /** `node = node[part]` for each part: the chain of keys, created where missing. */
  function Insert(t: Trie, parts: seq<string>): Trie
    decreases |parts|
  {
    if |parts| == 0 then t
    else
      match KeyIndex(t.children, parts[0])
      case Some(i) => Trie(t.children[i := (parts[0], Insert(t.children[i].1, parts[1..]))])
      case None => Trie(t.children + [(parts[0], Insert(Trie([]), parts[1..]))])
  }

  /** The keys `q` lead from the root to a node. */
  predicate HasPath(t: Trie, q: seq<string>)
    decreases |q|
  {
    |q| == 0 || exists i :: 0 <= i < |t.children| && t.children[i].0 == q[0] && HasPath(t.children[i].1, q[1..])
  }

  /** `q` is a prefix of `parts`. */
  predicate PrefixOf(q: seq<string>, parts: seq<string>)
  {
    |q| <= |parts| && q == parts[..|q|]
  }

  /** Inserting a chain adds exactly its prefixes: shared prefixes are merged, nothing else changes. */
  lemma {:induction false} InsertPaths(t: Trie, parts: seq<string>, q: seq<string>)
    ensures HasPath(Insert(t, parts), q) <==> HasPath(t, q) || PrefixOf(q, parts)
    decreases |parts|
  {
    if |parts| > 0 && |q| > 0 {
      if q[0] == parts[0] {
        match KeyIndex(t.children, parts[0])
        case Some(i) =>
          InsertPaths(t.children[i].1, parts[1..], q[1..]);
          InsertUnderKey(t, parts, q, i);
        case None =>
          InsertPaths(Trie([]), parts[1..], q[1..]);
          InsertNewKey(t, parts, q);
      } else {
        InsertOtherKey(t, parts, q);
      }
    }
  }

  /** The step of `InsertPaths` when the first key is already a child. */
  lemma InsertUnderKey(t: Trie, parts: seq<string>, q: seq<string>, i: nat)
    requires |parts| > 0 && |q| > 0 && q[0] == parts[0] && KeyIndex(t.children, parts[0]) == Some(i)
    requires HasPath(Insert(t.children[i].1, parts[1..]), q[1..])
             <==> HasPath(t.children[i].1, q[1..]) || PrefixOf(q[1..], parts[1..])
    ensures HasPath(Insert(t, parts), q) <==> HasPath(t, q) || PrefixOf(q, parts)
  {
    PrefixOfStep(q, parts);
    if HasPath(Insert(t, parts), q) {
      InsertUnderKeyFound(t, parts, q, i);
    }
    if HasPath(t, q) || PrefixOf(q[1..], parts[1..]) {
      InsertUnderKeyKept(t, parts, q, i);
    }
  }

  lemma InsertUnderKeyFound(t: Trie, parts: seq<string>, q: seq<string>, i: nat)
    requires |parts| > 0 && |q| > 0 && q[0] == parts[0] && KeyIndex(t.children, parts[0]) == Some(i)
    requires HasPath(Insert(t.children[i].1, parts[1..]), q[1..])
             ==> HasPath(t.children[i].1, q[1..]) || PrefixOf(q[1..], parts[1..])
    requires HasPath(Insert(t, parts), q)
    ensures HasPath(t, q) || PrefixOf(q[1..], parts[1..])
  {
    var r := Trie(t.children[i := (parts[0], Insert(t.children[i].1, parts[1..]))]);
    assert Insert(t, parts) == r;
    var j :| 0 <= j < |r.children| && r.children[j].0 == q[0] && HasPath(r.children[j].1, q[1..]);
    if j != i {
      assert t.children[j] == r.children[j];
      HasPathVia(t, q, j);
    } else if HasPath(t.children[i].1, q[1..]) {
      HasPathVia(t, q, i);
    }
  }

  lemma InsertUnderKeyKept(t: Trie, parts: seq<string>, q: seq<string>, i: nat)
    requires |parts| > 0 && |q| > 0 && q[0] == parts[0] && KeyIndex(t.children, parts[0]) == Some(i)
    requires HasPath(t.children[i].1, q[1..]) || PrefixOf(q[1..], parts[1..])
             ==> HasPath(Insert(t.children[i].1, parts[1..]), q[1..])
    requires HasPath(t, q) || PrefixOf(q[1..], parts[1..])
    ensures HasPath(Insert(t, parts), q)
  {
    var r := Trie(t.children[i := (parts[0], Insert(t.children[i].1, parts[1..]))]);
    assert Insert(t, parts) == r;
    if PrefixOf(q[1..], parts[1..]) {
      HasPathVia(r, q, i);
    } else {
      var j :| 0 <= j < |t.children| && t.children[j].0 == q[0] && HasPath(t.children[j].1, q[1..]);
      if j != i {
        assert t.children[j] == r.children[j];
        HasPathVia(r, q, j);
      } else {
        HasPathVia(r, q, i);
      }
    }
  }

  /** A child under the first key that has the rest of the path gives the path. */
  lemma HasPathVia(t: Trie, q: seq<string>, j: nat)
    requires |q| > 0 && j < |t.children| && t.children[j].0 == q[0] && HasPath(t.children[j].1, q[1..])
    ensures HasPath(t, q)
  {
  }

  /** The step of `InsertPaths` when the first key is new: a fresh chain is appended. */
  lemma InsertNewKey(t: Trie, parts: seq<string>, q: seq<string>)
    requires |parts| > 0 && |q| > 0 && q[0] == parts[0] && KeyIndex(t.children, parts[0]).None?
    requires HasPath(Insert(Trie([]), parts[1..]), q[1..]) <==> HasPath(Trie([]), q[1..]) || PrefixOf(q[1..], parts[1..])
    ensures HasPath(Insert(t, parts), q) <==> HasPath(t, q) || PrefixOf(q, parts)
  {
    var r := Insert(t, parts);
    assert r.children[|t.children|] == (parts[0], Insert(Trie([]), parts[1..]));
    assert !HasPath(t, q);
    if HasPath(r, q) {
      var j :| 0 <= j < |r.children| && r.children[j].0 == q[0] && HasPath(r.children[j].1, q[1..]);
      assert j == |t.children|;
    }
    PrefixOfStep(q, parts);
    HasPathEmpty(q[1..]);
  }

  /** With equal first keys, `q` is a prefix of `parts` exactly when its tail is one of the tail of `parts`. */
  lemma PrefixOfStep(q: seq<string>, parts: seq<string>)
    requires |q| > 0 && |parts| > 0 && q[0] == parts[0]
    ensures PrefixOf(q, parts) <==> PrefixOf(q[1..], parts[1..])
  {
    if PrefixOf(q, parts) {
      assert q[1..] == parts[1..][..|q| - 1];
    }
    if PrefixOf(q[1..], parts[1..]) {
      assert q == [q[0]] + q[1..] && parts[..|q|] == [parts[0]] + parts[1..][..|q| - 1];
    }
  }

  lemma HasPathEmpty(q: seq<string>)
    ensures HasPath(Trie([]), q) <==> |q| == 0
  {
  }

  /** A path that starts with another key is untouched by the insertion. */
  lemma InsertOtherKey(t: Trie, parts: seq<string>, q: seq<string>)
    requires |parts| > 0 && |q| > 0 && q[0] != parts[0]
    ensures HasPath(Insert(t, parts), q) <==> HasPath(t, q)
  {
    var r := Insert(t, parts);
    if HasPath(r, q) {
      var j :| 0 <= j < |r.children| && r.children[j].0 == q[0] && HasPath(r.children[j].1, q[1..]);
      assert j < |t.children| && t.children[j] == r.children[j];
    }
    if HasPath(t, q) {
      var j :| 0 <= j < |t.children| && t.children[j].0 == q[0] && HasPath(t.children[j].1, q[1..]);
      assert r.children[j] == t.children[j];
    }
  }

  /** The marker put before the last segment of the current item's path. */
  const Marker: string := "\U{2733}\U{FE0F}"

  /** `parts[-1] = "✳️" + parts[-1]` on the split path (a split never comes back empty). */
  function MarkLast(parts: seq<string>): (r: seq<string>)
    requires |parts| > 0
    ensures |r| == |parts| && r[..|r| - 1] == parts[..|parts| - 1] && r[|r| - 1] == Marker + parts[|parts| - 1]
  {
    parts[|parts| - 1 := Marker + parts[|parts| - 1]]
  }

  /** The tree after the first `k` paths of `paths` have been inserted into `t`. */
  function InsertAll(t: Trie, paths: seq<string>, k: nat): Trie
    requires k <= |paths|
  {
    if k == 0 then t else Insert(InsertAll(t, paths, k - 1), Split(paths[k - 1], '/'))
  }

  /** The path tree `build_path_tree` builds before rendering it. */
  function PathTree(whoReferenceMe: seq<string>, referenceWho: seq<string>, docItemPath: string): Trie
  {
    var t := InsertAll(InsertAll(Trie([]), whoReferenceMe, |whoReferenceMe|), referenceWho, |referenceWho|);
    Insert(t, MarkLast(Split(docItemPath, '/')))
  }

  lemma {:induction false} InsertAllPaths(t: Trie, paths: seq<string>, k: nat, q: seq<string>)
    requires k <= |paths|
    ensures HasPath(InsertAll(t, paths, k), q) <==> HasPath(t, q) || exists i :: 0 <= i < k && PrefixOf(q, Split(paths[i], '/'))
    decreases k
  {
    if k > 0 {
      InsertAllPaths(t, paths, k - 1, q);
      InsertPaths(InsertAll(t, paths, k - 1), Split(paths[k - 1], '/'), q);
    }
  }

  /**
   * A chain of keys is in the path tree exactly when it is a prefix of one
   * of the referencing or referenced paths, split at '/', or of the item's
   * own path with its last segment marked.
   */
  lemma PathTreePaths(whoReferenceMe: seq<string>, referenceWho: seq<string>, docItemPath: string, q: seq<string>)
    ensures HasPath(PathTree(whoReferenceMe, referenceWho, docItemPath), q)
            <==> |q| == 0
                 || (exists i :: 0 <= i < |whoReferenceMe| && PrefixOf(q, Split(whoReferenceMe[i], '/')))
                 || (exists i :: 0 <= i < |referenceWho| && PrefixOf(q, Split(referenceWho[i], '/')))
                 || PrefixOf(q, MarkLast(Split(docItemPath, '/')))
  {
    var t0 := InsertAll(Trie([]), whoReferenceMe, |whoReferenceMe|);
    var t1 := InsertAll(t0, referenceWho, |referenceWho|);
    HasPathEmpty(q);
    InsertAllPaths(Trie([]), whoReferenceMe, |whoReferenceMe|, q);
    InsertAllPaths(t0, referenceWho, |referenceWho|, q);
    InsertPaths(t1, MarkLast(Split(docItemPath, '/')), q);
  }

  // ---------------------------------------------------------------------
  // tree_to_string
  // ---------------------------------------------------------------------

  /** Python's `<` on strings: code point by code point, a proper prefix first. */
  predicate StrLess(a: string, b: string)
  {
    if |a| == 0 then |b| > 0
    else if |b| == 0 then false
    else if a[0] != b[0] then a[0] < b[0]
    else StrLess(a[1..], b[1..])
  }

  lemma {:induction false} StrLessAsymmetric(a: string, b: string)
    requires StrLess(a, b)
    ensures !StrLess(b, a)
  {
    if |a| > 0 && |b| > 0 && a[0] == b[0] {
      StrLessAsymmetric(a[1..], b[1..]);
    }
  }

  /** Each key is not greater than the next. */
  predicate SortedByKey(cs: seq<(string, Trie)>)
  {
    forall i :: 0 <= i < |cs| - 1 ==> !StrLess(cs[i + 1].0, cs[i].0)
  }

  function InsertByKey(cs: seq<(string, Trie)>, e: (string, Trie)): seq<(string, Trie)>
  {
    if |cs| == 0 || !StrLess(e.0, cs[|cs| - 1].0) then cs + [e]
    else InsertByKey(cs[..|cs| - 1], e) + [cs[|cs| - 1]]
  }

  /** `sorted(tree.items())`: the children in key order. */
  function SortByKey(cs: seq<(string, Trie)>): seq<(string, Trie)>
  {
    if |cs| == 0 then [] else InsertByKey(SortByKey(cs[..|cs| - 1]), cs[|cs| - 1])
  }

  /** Inserting adds exactly the new child. */
  lemma {:induction false} InsertByKeyMultiset(cs: seq<(string, Trie)>, e: (string, Trie))
    ensures multiset(InsertByKey(cs, e)) == multiset(cs) + multiset{e}
    decreases |cs|
  {
    if |cs| > 0 && StrLess(e.0, cs[|cs| - 1].0) {
      var init, last := cs[..|cs| - 1], cs[|cs| - 1];
      InsertByKeyMultiset(init, e);
      assert cs == init + [last];
    }
  }

  /** Inserting into sorted children keeps them sorted, and the new last child is `e` or the old last child. */
  lemma {:induction false} InsertByKeySorted(cs: seq<(string, Trie)>, e: (string, Trie))
    requires SortedByKey(cs)
    ensures SortedByKey(InsertByKey(cs, e))
    ensures |InsertByKey(cs, e)| > 0
    ensures var r := InsertByKey(cs, e); r[|r| - 1] == e || (|cs| > 0 && r[|r| - 1] == cs[|cs| - 1])
    decreases |cs|
  {
    if |cs| == 0 {
      assert InsertByKey(cs, e) == [e];
    } else if !StrLess(e.0, cs[|cs| - 1].0) {
      SortedSnoc(cs, e);
    } else {
      var init, last := cs[..|cs| - 1], cs[|cs| - 1];
      SortedInit(cs);
      InsertByKeySorted(init, e);
      var t := InsertByKey(init, e);
      StrLessAsymmetric(e.0, last.0);
      assert !StrLess(last.0, t[|t| - 1].0);
      SortedSnoc(t, last);
    }
  }

  /** Dropping the last child keeps the children sorted, and the last key is not below the one before it. */
  lemma SortedInit(cs: seq<(string, Trie)>)
    requires SortedByKey(cs) && |cs| > 0
    ensures SortedByKey(cs[..|cs| - 1])
    ensures |cs| > 1 ==> !StrLess(cs[|cs| - 1].0, cs[|cs| - 2].0)
  {
    var init := cs[..|cs| - 1];
    forall i | 0 <= i < |init| - 1 ensures !StrLess(init[i + 1].0, init[i].0) {
      assert init[i] == cs[i] && init[i + 1] == cs[i + 1];
    }
  }

  /** Appending a child whose key is not below the last key keeps the children sorted. */
  lemma SortedSnoc(t: seq<(string, Trie)>, last: (string, Trie))
    requires SortedByKey(t) && |t| > 0 && !StrLess(last.0, t[|t| - 1].0)
    ensures SortedByKey(t + [last])
  {
    var r := t + [last];
    forall i | 0 <= i < |r| - 1 ensures !StrLess(r[i + 1].0, r[i].0) {
      if i < |t| - 1 {
        assert r[i] == t[i] && r[i + 1] == t[i + 1];
      }
    }
  }

  /** The children come out sorted by key, and they are the same children. */
  lemma {:induction false} SortByKeyProperties(cs: seq<(string, Trie)>)
    ensures SortedByKey(SortByKey(cs))
    ensures multiset(SortByKey(cs)) == multiset(cs)
    decreases |cs|
  {
    if |cs| > 0 {
      SortByKeyProperties(cs[..|cs| - 1]);
      InsertByKeySorted(SortByKey(cs[..|cs| - 1]), cs[|cs| - 1]);
      InsertByKeyMultiset(SortByKey(cs[..|cs| - 1]), cs[|cs| - 1]);
      assert cs == cs[..|cs| - 1] + [cs[|cs| - 1]];
    }
  }

  /** The sorted children are the children. */
  lemma SortByKeyMembers(cs: seq<(string, Trie)>)
    ensures forall e :: e in SortByKey(cs) <==> e in cs
  {
    SortByKeyProperties(cs);
    forall e ensures e in SortByKey(cs) <==> e in cs {
      assert e in SortByKey(cs) <==> e in multiset(SortByKey(cs));
      assert e in cs <==> e in multiset(cs);
    }
  }

  /** Four spaces per level. */
  function Indent(indent: nat): (r: string)
    ensures |r| == 4 * indent && forall i :: 0 <= i < |r| ==> r[i] == ' '
  {
    if indent == 0 then "" else Indent(indent - 1) + "    "
  }

  /** `tree_to_string`: one line per key, the children in key order, each subtree one level deeper. */
  function TreeToString(t: Trie, indent: nat): string
    decreases t, 1
  {
    SortByKeyMembers(t.children);
    EntriesToString(t, SortByKey(t.children), indent)
  }

  function EntriesToString(t: Trie, cs: seq<(string, Trie)>, indent: nat): string
    requires forall e :: e in cs ==> e in t.children
    decreases t, 0, |cs|
  {
    if |cs| == 0 then ""
    else
      assert cs[0] in t.children;
      Indent(indent) + cs[0].0 + "\n" + TreeToString(cs[0].1, indent + 1) + EntriesToString(t, cs[1..], indent)
  }

  /** The nodes below the root. */
  function NodeCount(t: Trie): nat
    decreases t, 1
  {
    EntriesCount(t, t.children)
  }

  function EntriesCount(t: Trie, cs: seq<(string, Trie)>): nat
    requires forall e :: e in cs ==> e in t.children
    decreases t, 0, |cs|
  {
    if |cs| == 0 then 0
    else
      assert cs[0] in t.children;
      1 + NodeCount(cs[0].1) + EntriesCount(t, cs[1..])
  }

  /** Counting the entries does not depend on their order. */
  lemma {:induction false} EntriesCountPermutation(t: Trie, cs: seq<(string, Trie)>, ds: seq<(string, Trie)>)
    requires forall e :: e in cs ==> e in t.children
    requires multiset(cs) == multiset(ds)
    ensures forall e :: e in ds ==> e in t.children
    ensures EntriesCount(t, cs) == EntriesCount(t, ds)
    decreases |cs|
  {
    SameMembers(cs, ds);
    if |cs| > 0 {
      var x := cs[0];
      assert x in multiset(ds);
      var i :| 0 <= i < |ds| && ds[i] == x;
      var rest := ds[..i] + ds[i + 1..];
      RemoveOne(cs, ds, i);
      SameMembers(rest, ds);
      EntriesCountPermutation(t, cs[1..], rest);
      EntriesCountMove(t, ds[..i], x, ds[i + 1..]);
      assert [x] + ds[..i] + ds[i + 1..] == [x] + rest;
      assert ([x] + rest)[0] == x && ([x] + rest)[1..] == rest;
      assert EntriesCount(t, [x] + rest) == 1 + NodeCount(x.1) + EntriesCount(t, rest);
    }
  }

  lemma SameMembers<T>(cs: seq<T>, ds: seq<T>)
    requires multiset(cs) <= multiset(ds)
    ensures forall e :: e in cs ==> e in ds
  {
    forall e | e in cs ensures e in ds {
      assert e in multiset(cs);
    }
  }

  lemma RemoveOne<T>(cs: seq<T>, ds: seq<T>, i: nat)
    requires |cs| > 0 && i < |ds| && ds[i] == cs[0] && multiset(cs) == multiset(ds)
    ensures multiset(cs[1..]) == multiset(ds[..i] + ds[i + 1..])
    ensures ds == ds[..i] + [cs[0]] + ds[i + 1..]
    ensures multiset(ds[..i] + ds[i + 1..]) <= multiset(ds)
  {
    var x := cs[0];
    assert cs == [x] + cs[1..];
    assert ds == ds[..i] + [x] + ds[i + 1..];
    assert multiset(cs[1..]) == multiset(cs) - multiset{x};
    assert multiset(ds) == multiset(ds[..i]) + multiset{x} + multiset(ds[i + 1..]);
  }

  /** Moving one entry to the front does not change the count. */
  lemma {:induction false} EntriesCountMove(t: Trie, a: seq<(string, Trie)>, x: (string, Trie), b: seq<(string, Trie)>)
    requires forall e :: e in a + [x] + b ==> e in t.children
    ensures EntriesCount(t, a + [x] + b) == EntriesCount(t, [x] + a + b)
    decreases |a|
  {
    if |a| > 0 {
      assert (a + [x] + b)[1..] == a[1..] + [x] + b;
      assert ([x] + a + b)[1..] == a + b;
      assert ([x] + a[1..] + b)[1..] == a[1..] + b;
      assert (a + b)[1..] == a[1..] + b;
      assert a + b == [a[0]] + (a[1..] + b);
      EntriesCountMove(t, a[1..], x, b);
    }
  }

  /** The number of newlines in `s`. */
  function Newlines(s: string): nat
  {
    if |s| == 0 then 0 else Newlines(s[..|s| - 1]) + (if s[|s| - 1] == '\n' then 1 else 0)
  }

  lemma {:induction false} NewlinesAppend(a: string, b: string)
    ensures Newlines(a + b) == Newlines(a) + Newlines(b)
    decreases |b|
  {
    if |b| > 0 {
      assert (a + b)[..|a + b| - 1] == a + b[..|b| - 1];
      NewlinesAppend(a, b[..|b| - 1]);
    } else {
      assert a + b == a;
    }
  }

  lemma {:induction false} NoNewlines(s: string)
    requires '\n' !in s
    ensures Newlines(s) == 0
    decreases |s|
  {
    if |s| > 0 {
      NoNewlines(s[..|s| - 1]);
    }
  }

  /** No key holds a newline. */
  predicate KeysOnOneLine(t: Trie)
    decreases t
  {
    forall i :: 0 <= i < |t.children| ==> '\n' !in t.children[i].0 && KeysOnOneLine(t.children[i].1)
  }

  /** `tree_to_string` writes exactly one line per node below the root. */
  lemma {:induction false} TreeToStringLines(t: Trie, indent: nat)
    requires KeysOnOneLine(t)
    ensures Newlines(TreeToString(t, indent)) == NodeCount(t)
    decreases t, 1
  {
    SortByKeyProperties(t.children);
    SortByKeyMembers(t.children);
    EntriesToStringLines(t, SortByKey(t.children), indent);
    EntriesCountPermutation(t, SortByKey(t.children), t.children);
  }

  lemma {:induction false} EntriesToStringLines(t: Trie, cs: seq<(string, Trie)>, indent: nat)
    requires KeysOnOneLine(t)
    requires forall e :: e in cs ==> e in t.children
    ensures Newlines(EntriesToString(t, cs, indent)) == EntriesCount(t, cs)
    decreases t, 0, |cs|
  {
    if |cs| > 0 {
      assert cs[0] in t.children;
      var i :| 0 <= i < |t.children| && t.children[i] == cs[0];
      var head := Indent(indent) + cs[0].0;
      assert ' ' != '\n';
      NoNewlines(Indent(indent));
      NoNewlines(cs[0].0);
      NewlinesAppend(Indent(indent), cs[0].0);
      NewlinesAppend(head, "\n");
      assert Newlines("\n") == 1 by {
        assert "\n"[..0] == "";
      }
      TreeToStringLines(cs[0].1, indent + 1);
      EntriesToStringLines(t, cs[1..], indent);
      var sub := TreeToString(cs[0].1, indent + 1);
      var rest := EntriesToString(t, cs[1..], indent);
      NewlinesAppend(head + "\n", sub);
      NewlinesAppend(head + "\n" + sub, rest);
    }
  }

  /** `tree_to_string` as written: a loop over the sorted children, recursing into each. */
  method WriteTree(t: Trie, indent: nat) returns (s: string)
    ensures s == TreeToString(t, indent)
    decreases t
  {
    SortByKeyMembers(t.children);
    var cs := SortByKey(t.children);
    s := "";
    var i := 0;
    while i < |cs|
      invariant 0 <= i <= |cs|
      invariant s + EntriesToString(t, cs[i..], indent) == TreeToString(t, indent)
    {
      assert cs[i] in t.children;
      var sub := WriteTree(cs[i].1, indent + 1);
      var block := Indent(indent) + cs[i].0 + "\n" + sub;
      EntriesStep(t, cs, i, indent);
      AppendAssoc(s, block, EntriesToString(t, cs[i + 1..], indent));
      s := s + block;
      i := i + 1;
    }
  }

  lemma EntriesStep(t: Trie, cs: seq<(string, Trie)>, i: nat, indent: nat)
    requires i < |cs| && forall e :: e in cs ==> e in t.children
    ensures EntriesToString(t, cs[i..], indent)
            == Indent(indent) + cs[i].0 + "\n" + TreeToString(cs[i].1, indent + 1) + EntriesToString(t, cs[i + 1..], indent)
  {
    assert cs[i..][0] == cs[i] && cs[i..][1..] == cs[i + 1..];
  }

  /** `build_path_tree`: the paths inserted segment by segment, then the tree as text. */
  method BuildPathTree(whoReferenceMe: seq<string>, referenceWho: seq<string>, docItemPath: string) returns (s: string)
    ensures s == TreeToString(PathTree(whoReferenceMe, referenceWho, docItemPath), 0)
  {
    var pathTree := Trie([]);
    for k := 0 to |whoReferenceMe|
      invariant pathTree == InsertAll(Trie([]), whoReferenceMe, k)
    {
      pathTree := Insert(pathTree, Split(whoReferenceMe[k], '/'));
    }
    var t0 := pathTree;
    for k := 0 to |referenceWho|
      invariant pathTree == InsertAll(t0, referenceWho, k)
    {
      pathTree := Insert(pathTree, Split(referenceWho[k], '/'));
    }
    var parts := Split(docItemPath, '/');
    parts := parts[|parts| - 1 := Marker + parts[|parts| - 1]];
    pathTree := Insert(pathTree, parts);
    s := WriteTree(pathTree, 0);
  }
}
