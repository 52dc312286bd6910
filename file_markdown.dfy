// `convert_to_markdown_file`: the objects the project hierarchy records for
// one file, rendered as markdown headings in order of their first line,
// each nested one level deeper per ancestor in the parent chain.
module FileMarkdown {
  import opened Wrappers
  import opened PyStrings

  /** One object of a file in the project hierarchy, with the keys `convert_to_markdown_file` reads. */
  datatype MdObject = MdObject(kind: string, name: Option<string>, startLine: int, parent: Option<string>,
                               params: seq<string>, mdContent: seq<string>)

  /** What the hierarchy holds for a file: a list of objects, or an object of objects (its values in order). */
  datatype FileEntry = ObjectList(objects: seq<MdObject>) | ObjectDict(values: seq<MdObject>)

  // ---------------------------------------------------------------------
  // The list turned into a dictionary keyed by name
  // ---------------------------------------------------------------------

  /** The position of the entry named `n`. */
  function IndexOfName(d: seq<MdObject>, n: Option<string>): (r: Option<nat>)
    ensures r.Some? ==> r.value < |d| && d[r.value].name == n
    ensures r.None? ==> forall i :: 0 <= i < |d| ==> d[i].name != n
  {
    if |d| == 0 then None
    else if d[|d| - 1].name == n then Some(|d| - 1)
    else IndexOfName(d[..|d| - 1], n)
  }

  /** `file_dict[obj["name"]] = obj`: a known name keeps its place and takes the new object, a new one goes last. */
  function PutByName(d: seq<MdObject>, o: MdObject): (r: seq<MdObject>)
  {
    match IndexOfName(d, o.name)
    case Some(i) => d[i := o]
    case None => d + [o]
  }

  /** The dictionary built from the first `k` objects of the list, as its values in order. */
  function KeyedByName(objs: seq<MdObject>, k: nat): seq<MdObject>
    requires k <= |objs|
  {
    if k == 0 then [] else PutByName(KeyedByName(objs, k - 1), objs[k - 1])
  }

  /** No two values share a name. */
  predicate DistinctNames(d: seq<MdObject>)
  {
    forall i, j :: 0 <= i < j < |d| ==> d[i].name != d[j].name
  }

  /** `o` is the last of the first `k` objects with its name. */
  predicate LastWithName(objs: seq<MdObject>, k: nat, o: MdObject)
    requires k <= |objs|
  {
    exists m :: 0 <= m < k && objs[m] == o && forall m' :: m < m' < k ==> objs[m'].name != o.name
  }

  /** No two values of the dictionary share a name. */
  lemma {:induction false} KeyedByNameDistinct(objs: seq<MdObject>, k: nat)
    requires k <= |objs|
    ensures DistinctNames(KeyedByName(objs, k))
    decreases k
  {
    if k > 0 {
      KeyedByNameDistinct(objs, k - 1);
      var d := KeyedByName(objs, k - 1);
      var o := objs[k - 1];
      match IndexOfName(d, o.name)
      case Some(i) =>
        assert KeyedByName(objs, k) == d[i := o];
      case None =>
        assert KeyedByName(objs, k) == d + [o];
    }
  }

  /** Each value of the dictionary is the last object of the list with its name. */
  lemma {:induction false} KeyedByNameLast(objs: seq<MdObject>, k: nat)
    requires k <= |objs|
    ensures forall i :: 0 <= i < |KeyedByName(objs, k)| ==> LastWithName(objs, k, KeyedByName(objs, k)[i])
    decreases k
  {
    if k > 0 {
      KeyedByNameLast(objs, k - 1);
      KeyedByNameDistinct(objs, k - 1);
      var d := KeyedByName(objs, k - 1);
      var o := objs[k - 1];
      var r := KeyedByName(objs, k);
      var at := IndexOfName(d, o.name);
      forall i | 0 <= i < |r|
        ensures LastWithName(objs, k, r[i])
      {
        if (at.Some? && i == at.value) || (at.None? && i == |d|) {
          assert r[i] == objs[k - 1];
        } else {
          assert i < |d| && r[i] == d[i] && d[i].name != o.name;
          var m :| 0 <= m < k - 1 && objs[m] == d[i] && forall m' :: m < m' < k - 1 ==> objs[m'].name != d[i].name;
          assert objs[m] == r[i];
        }
      }
    }
  }

  /** Every name of the list has a value in the dictionary: the one at position `i`. */
  lemma {:induction false} KeyedByNameCovers(objs: seq<MdObject>, k: nat, m: nat) returns (i: nat)
    requires m < k <= |objs|
    ensures i < |KeyedByName(objs, k)| && KeyedByName(objs, k)[i].name == objs[m].name
    decreases k
  {
    var d := KeyedByName(objs, k - 1);
    var o := objs[k - 1];
    match IndexOfName(d, o.name)
    case Some(j) =>
      assert KeyedByName(objs, k) == d[j := o];
      if m == k - 1 {
        i := j;
      } else {
        i := KeyedByNameCovers(objs, k - 1, m);
      }
    case None =>
      assert KeyedByName(objs, k) == d + [o];
      if m == k - 1 {
        i := |d|;
      } else {
        i := KeyedByNameCovers(objs, k - 1, m);
      }
  }

  // ---------------------------------------------------------------------
  // sorted(..., key=code_start_line)
  // ---------------------------------------------------------------------

  predicate SortedByLine(s: seq<MdObject>)
  {
    forall i, j :: 0 <= i < j < |s| ==> s[i].startLine <= s[j].startLine
  }

  /** `o` placed after every object whose line is not greater than its own. */
  function InsertByLine(s: seq<MdObject>, o: MdObject): seq<MdObject>
  {
    if |s| == 0 || s[|s| - 1].startLine <= o.startLine then s + [o]
    else InsertByLine(s[..|s| - 1], o) + [s[|s| - 1]]
  }

  /** Python's `sorted` on the start line: an insertion sort that keeps equal lines in their order. */
  function SortByLine(s: seq<MdObject>): seq<MdObject>
  {
    if |s| == 0 then [] else InsertByLine(SortByLine(s[..|s| - 1]), s[|s| - 1])
  }

  /** The objects of `s` on line `v`, in order. */
  function OnLine(s: seq<MdObject>, v: int): seq<MdObject>
  {
    if |s| == 0 then []
    else OnLine(s[..|s| - 1], v) + (if s[|s| - 1].startLine == v then [s[|s| - 1]] else [])
  }

  lemma {:induction false} OnLineAppend(a: seq<MdObject>, b: seq<MdObject>, v: int)
    ensures OnLine(a + b, v) == OnLine(a, v) + OnLine(b, v)
    decreases |b|
  {
    if |b| == 0 {
      assert a + b == a;
    } else {
      assert (a + b)[..|a + b| - 1] == a + b[..|b| - 1];
      OnLineAppend(a, b[..|b| - 1], v);
    }
  }

  lemma {:induction false} InsertByLinePermutes(s: seq<MdObject>, o: MdObject)
    ensures multiset(InsertByLine(s, o)) == multiset(s) + multiset{o}
    decreases |s|
  {
    if !(|s| == 0 || s[|s| - 1].startLine <= o.startLine) {
      InsertByLinePermutes(s[..|s| - 1], o);
      assert s == s[..|s| - 1] + [s[|s| - 1]];
    }
  }

  lemma {:induction false} InsertByLineSorted(s: seq<MdObject>, o: MdObject)
    requires SortedByLine(s)
    ensures SortedByLine(InsertByLine(s, o))
    decreases |s|
  {
    if !(|s| == 0 || s[|s| - 1].startLine <= o.startLine) {
      var init, last := s[..|s| - 1], s[|s| - 1];
      InsertByLineSorted(init, o);
      InsertByLinePermutes(init, o);
      var t := InsertByLine(init, o);
      forall i | 0 <= i < |t| ensures t[i].startLine <= last.startLine {
        assert t[i] in multiset(t);
        assert t[i] in multiset(init) || t[i] == o;
      }
    }
  }

  lemma OnLineSingle(o: MdObject, v: int)
    ensures OnLine([o], v) == (if o.startLine == v then [o] else [])
  {
    assert [o][..0] == [];
  }

  /** Objects on different lines never both land on line `v`. */
  lemma OnLineSwap(o: MdObject, last: MdObject, v: int)
    requires o.startLine < last.startLine
    ensures OnLine([o], v) + OnLine([last], v) == OnLine([last], v) + OnLine([o], v)
  {
    OnLineSingle(o, v);
    OnLineSingle(last, v);
  }

  lemma {:induction false} InsertByLineOnLine(s: seq<MdObject>, o: MdObject, v: int)
    ensures OnLine(InsertByLine(s, o), v) == OnLine(s, v) + OnLine([o], v)
    decreases |s|
  {
    if |s| == 0 || s[|s| - 1].startLine <= o.startLine {
      OnLineAppend(s, [o], v);
    } else {
      var init, last := s[..|s| - 1], s[|s| - 1];
      var t := InsertByLine(init, o);
      assert InsertByLine(s, o) == t + [last];
      InsertByLineOnLine(init, o, v);
      assert s == init + [last];
      OnLineAppend(t, [last], v);
      OnLineAppend(init, [last], v);
      OnLineSwap(o, last, v);
    }
  }

  /**
   * The order is a stable sort: ascending start lines, the same objects,
   * and the objects sharing a line in their original order.
   */
  lemma {:induction false} SortByLineIsStableSort(s: seq<MdObject>, v: int)
    ensures SortedByLine(SortByLine(s))
    ensures multiset(SortByLine(s)) == multiset(s)
    ensures OnLine(SortByLine(s), v) == OnLine(s, v)
    decreases |s|
  {
    if |s| > 0 {
      var init, last := s[..|s| - 1], s[|s| - 1];
      SortByLineIsStableSort(init, v);
      InsertByLineSorted(SortByLine(init), last);
      InsertByLinePermutes(SortByLine(init), last);
      InsertByLineOnLine(SortByLine(init), last, v);
      assert s == init + [last];
      OnLineAppend(init, [last], v);
    }
  }

  // ---------------------------------------------------------------------
  // parent_dict and the heading level
  // ---------------------------------------------------------------------

  /** `parent_dict` after the first `k` objects: each name with a parent maps to the parent of the last such object. */
  function ParentMap(objs: seq<MdObject>, k: nat): map<Option<string>, string>
    requires k <= |objs|
  {
    if k == 0 then map[]
    else
      var d := ParentMap(objs, k - 1);
      if objs[k - 1].parent.Some? then d[objs[k - 1].name := objs[k - 1].parent.value] else d
  }

  /** A name is a key exactly when an object of that name has a parent, and it maps to the last such object's parent. */
  lemma {:induction false} ParentMapLookup(objs: seq<MdObject>, k: nat, n: Option<string>)
    requires k <= |objs|
    ensures n in ParentMap(objs, k) <==> exists m :: 0 <= m < k && objs[m].name == n && objs[m].parent.Some?
    ensures n in ParentMap(objs, k) ==>
              exists m :: 0 <= m < k && objs[m].name == n && objs[m].parent == Some(ParentMap(objs, k)[n])
                          && forall m' :: m < m' < k && objs[m'].name == n ==> objs[m'].parent.None?
    decreases k
  {
    if k > 0 {
      ParentMapLookup(objs, k - 1, n);
      var o := objs[k - 1];
      if n in ParentMap(objs, k) && !(o.name == n && o.parent.Some?) {
        var m :| 0 <= m < k - 1 && objs[m].name == n && objs[m].parent == Some(ParentMap(objs, k - 1)[n])
                 && forall m' :: m < m' < k - 1 && objs[m'].name == n ==> objs[m'].parent.None?;
        assert ParentMap(objs, k)[n] == ParentMap(objs, k - 1)[n];
      }
    }
  }

  /** One turn of the level loop: `parent = parent_dict.get(parent)`. */
  function Step(d: map<Option<string>, string>, p: Option<string>): (r: Option<string>)
    ensures r.Some? ==> r.value in d.Values
  {
    if p.Some? && p in d then Some(d[p]) else None
  }

  /** The names the level loop can meet from `p`. */
  function Names(d: map<Option<string>, string>, p: Option<string>): set<string>
  {
    d.Values + (if p.Some? then {p.value} else {})
  }

  lemma CardLess<T>(a: set<T>, b: set<T>, x: T)
    requires a <= b && x in b && x !in a
    ensures |a| < |b|
  {
    var c := b - a;
    assert x in c;
    assert b == a + c && a !! c;
  }

  /** The level loop from `p`, stopping at a name it has met before. */
  function LevelFrom(d: map<Option<string>, string>, p: Option<string>, seen: set<string>): nat
    decreases |Names(d, p) - seen|
  {
    if p.None? || p.value in seen then 1
    else
      LevelMeasureDrops(d, p, seen);
      1 + LevelFrom(d, Step(d, p), seen + {p.value})
  }

  /** One turn of the level loop meets a new name, so fewer names are left to meet. */
  lemma LevelMeasureDrops(d: map<Option<string>, string>, p: Option<string>, seen: set<string>)
    requires p.Some? && p.value !in seen
    ensures |Names(d, Step(d, p)) - (seen + {p.value})| < |Names(d, p) - seen|
  {
    CardLess(Names(d, Step(d, p)) - (seen + {p.value}), Names(d, p) - seen, p.value);
  }

  /** The heading level of an object with parent `p`: one, plus one per ancestor on the parent chain. */
  function Level(d: map<Option<string>, string>, p: Option<string>): nat
  {
    LevelFrom(d, p, {})
  }

  /** The parent after `k` turns of the loop as written. */
  ghost function Chain(d: map<Option<string>, string>, p: Option<string>, k: nat): Option<string>
  {
    if k == 0 then p else Step(d, Chain(d, p, k - 1))
  }

  /** The loop as written stops after exactly `k` turns. */
  ghost predicate LoopExitsAt(d: map<Option<string>, string>, p: Option<string>, k: nat)
  {
    Chain(d, p, k).None? && forall j :: 0 <= j < k ==> Chain(d, p, j).Some?
  }

  lemma {:induction false} ChainShift(d: map<Option<string>, string>, p: Option<string>, i: nat, m: nat)
    ensures Chain(d, Chain(d, p, i), m) == Chain(d, p, i + m)
    decreases m
  {
    if m > 0 {
      ChainShift(d, p, i, m - 1);
    }
  }

  /** A chain that comes back to its start after `per` turns only meets what it meets in its first `per` turns. */
  lemma {:induction false} ChainPeriodic(d: map<Option<string>, string>, q: Option<string>, t: nat, per: nat) returns (r: nat)
    requires per > 0 && Chain(d, q, per) == q
    ensures r < per && Chain(d, q, t) == Chain(d, q, r)
    decreases t
  {
    if t < per {
      r := t;
    } else {
      ChainShift(d, q, per, t - per);
      r := ChainPeriodic(d, q, t - per, per);
    }
  }

  /** Before the loop stops, it never meets the same parent twice. */
  lemma DistinctBeforeExit(d: map<Option<string>, string>, p: Option<string>, k: nat, i: nat, j: nat)
    requires LoopExitsAt(d, p, k) && i < j < k
    ensures Chain(d, p, i) != Chain(d, p, j)
  {
    if Chain(d, p, i) == Chain(d, p, j) {
      var q, per := Chain(d, p, i), j - i;
      ChainShift(d, p, i, per);
      ChainShift(d, p, i, k - i);
      var r := ChainPeriodic(d, q, k - i, per);
      ChainShift(d, p, i, r);
    }
  }

  /** The names met in the first `j` turns. */
  ghost function SeenUpTo(d: map<Option<string>, string>, p: Option<string>, j: nat): set<string>
  {
    if j == 0 then {}
    else SeenUpTo(d, p, j - 1) + (if Chain(d, p, j - 1).Some? then {Chain(d, p, j - 1).value} else {})
  }

  /** What the loop met in its first `j` turns is in the seen set. */
  lemma {:induction false} SeenUpToHas(d: map<Option<string>, string>, p: Option<string>, i: nat, j: nat)
    requires i < j && Chain(d, p, i).Some?
    ensures Chain(d, p, i).value in SeenUpTo(d, p, j)
    decreases j
  {
    if i < j - 1 {
      SeenUpToHas(d, p, i, j - 1);
    }
  }

  /** Everything in the seen set was met, at turn `i`. */
  lemma {:induction false} SeenUpToFrom(d: map<Option<string>, string>, p: Option<string>, j: nat, x: string) returns (i: nat)
    requires x in SeenUpTo(d, p, j)
    ensures i < j && Chain(d, p, i) == Some(x)
    decreases j
  {
    if x in SeenUpTo(d, p, j - 1) {
      i := SeenUpToFrom(d, p, j - 1, x);
    } else {
      i := j - 1;
    }
  }

  lemma {:induction false} LevelAlongChain(d: map<Option<string>, string>, p: Option<string>, k: nat, j: nat)
    requires LoopExitsAt(d, p, k) && j <= k
    ensures LevelFrom(d, Chain(d, p, j), SeenUpTo(d, p, j)) == 1 + k - j
    decreases k - j
  {
    if j < k {
      var x := Chain(d, p, j).value;
      if x in SeenUpTo(d, p, j) {
        var i := SeenUpToFrom(d, p, j, x);
        DistinctBeforeExit(d, p, k, i, j);
      }
      LevelAlongChain(d, p, k, j + 1);
    }
  }

  /** Wherever the loop as written stops, after `k` turns, the level is `1 + k`, as the loop computes it. */
  lemma LevelMatchesLoop(d: map<Option<string>, string>, p: Option<string>, k: nat)
    requires LoopExitsAt(d, p, k)
    ensures Level(d, p) == 1 + k
  {
    LevelAlongChain(d, p, k, 0);
  }

  /** A name that is its own parent keeps the loop as written turning forever. */
  lemma {:induction false} SelfParentNeverExits(d: map<Option<string>, string>, x: string, k: nat)
    requires Some(x) in d && d[Some(x)] == x
    ensures Chain(d, Some(x), k) == Some(x)
    decreases k
  {
    if k > 0 {
      SelfParentNeverExits(d, x, k - 1);
    }
  }

  /** A top-level object is at level 1, a member of a class that has no parent at level 2. */
  lemma LevelOfWalkedObjects(d: map<Option<string>, string>, c: string)
    requires Some(c) !in d
    ensures Level(d, None) == 1
    ensures Level(d, Some(c)) == 2
  {
    assert Step(d, Some(c)) == None;
    assert {} + {c} == {c};
    assert LevelFrom(d, None, {c}) == 1;
  }

  // ---------------------------------------------------------------------
  // Rendering
  // ---------------------------------------------------------------------

  /** `"#" * n`. */
  function Hashes(n: nat): (r: string)
    ensures |r| == n && forall i :: 0 <= i < n ==> r[i] == '#'
  {
    if n == 0 then "" else Hashes(n - 1) + "#"
  }

  /** The f-string form of a name: None prints as "None". */
  function NameText(n: Option<string>): string
  {
    match n
    case Some(s) => s
    case None => "None"
  }

  /** `params_str`: the parameter list of a function-like object, "" for anything else. */
  function ParamsText(o: MdObject): (r: string)
    ensures o.kind !in {"FunctionDef", "AsyncFunctionDef", "Function"} ==> r == ""
    ensures o.kind in {"FunctionDef", "AsyncFunctionDef", "Function"} ==> r == "(" + Join(o.params, ", ") + ")"
  {
    if o.kind in {"FunctionDef", "AsyncFunctionDef", "Function"} then
      if |o.params| > 0 then "(" + Join(o.params, ", ") + ")" else "()"
    else ""
  }

  /** What one object contributes, given its level and the name of the object before it (None for the first). */
  function Block(o: MdObject, level: nat, previous: Option<string>): string
  {
    (if level == 1 && previous.Some? then "***\n" else "")
    + Hashes(level) + " " + o.kind + " " + NameText(o.name) + ParamsText(o) + ":\n"
    + (if |o.mdContent| > 0 then o.mdContent[|o.mdContent| - 1] else "") + "\n"
  }

  /** The blocks of the first `k` objects. */
  function Blocks(objs: seq<MdObject>, d: map<Option<string>, string>, k: nat): string
    requires k <= |objs|
  {
    if k == 0 then ""
    else Blocks(objs, d, k - 1) + Block(objs[k - 1], Level(d, objs[k - 1].parent), if k == 1 then None else objs[k - 2].name)
  }

  /** The markdown for objects already in order. */
  function Render(objs: seq<MdObject>): string
  {
    Blocks(objs, ParentMap(objs, |objs|), |objs|) + "***\n"
  }

  /** The objects of a file entry: a list goes through the dictionary keyed by name. */
  function EntryObjects(e: FileEntry): seq<MdObject>
  {
    match e
    case ObjectList(objs) => KeyedByName(objs, |objs|)
    case ObjectDict(values) => values
  }

  /**
   * `convert_to_markdown_file` on the loaded hierarchy: ValueError with no
   * path, or when the path has no objects; otherwise the rendering of its
   * objects sorted by start line.
   */
  function ConvertToMarkdown(hierarchy: map<string, FileEntry>, filePath: Option<string>, defaultPath: Option<string>): Result<string>
  {
    var path := if filePath.Some? then filePath else defaultPath;
    if path.None? || path.value !in hierarchy || |EntryObjects(hierarchy[path.value])| == 0 then Err("ValueError")
    else Ok(Render(SortByLine(EntryObjects(hierarchy[path.value]))))
  }

  /** The entry as loaded holds nothing. */
  predicate EmptyEntry(e: FileEntry)
  {
    match e
    case ObjectList(objs) => objs == []
    case ObjectDict(values) => values == []
  }

  /** The conversion fails exactly when there is no path, or the path has no objects (a missing entry or an empty one). */
  lemma {:induction false} ConvertToMarkdownFails(hierarchy: map<string, FileEntry>, filePath: Option<string>, defaultPath: Option<string>)
    ensures ConvertToMarkdown(hierarchy, filePath, defaultPath).Err?
            <==> (filePath.None? && defaultPath.None?)
                 || var path := if filePath.Some? then filePath.value else defaultPath.value;
                    path !in hierarchy || EmptyEntry(hierarchy[path])
  {
    var path := if filePath.Some? then filePath else defaultPath;
    if path.Some? && path.value in hierarchy && hierarchy[path.value].ObjectList? {
      var objs := hierarchy[path.value].objects;
      if |objs| > 0 {
        var i := KeyedByNameCovers(objs, |objs|, 0);
      }
    }
  }

  /** The markdown always ends with the closing rule, and the first object is never preceded by one. */
  lemma RenderShape(objs: seq<MdObject>)
    requires |objs| > 0
    ensures EndsWith(Render(objs), "***\n")
    ensures var first := Block(objs[0], Level(ParentMap(objs, |objs|), objs[0].parent), None);
            |first| <= |Render(objs)| && Render(objs)[..|first|] == first
    ensures |Render(objs)| > 0 && Render(objs)[0] == '#'
  {
    var d := ParentMap(objs, |objs|);
    var r := Render(objs);
    var first := Block(objs[0], Level(d, objs[0].parent), None);
    BlocksStartWithFirst(objs, d, |objs|);
    assert r == Blocks(objs, d, |objs|) + "***\n";
    assert r[..|first|] == first;
    assert first[0] == '#' by {
      assert Level(d, objs[0].parent) >= 1;
    }
  }

  lemma {:induction false} BlocksStartWithFirst(objs: seq<MdObject>, d: map<Option<string>, string>, k: nat)
    requires 0 < k <= |objs|
    ensures var first := Block(objs[0], Level(d, objs[0].parent), None);
            |first| <= |Blocks(objs, d, k)| && Blocks(objs, d, k)[..|first|] == first
    decreases k
  {
    if k > 1 {
      BlocksStartWithFirst(objs, d, k - 1);
    }
  }

  // ---------------------------------------------------------------------
  // The method
  // ---------------------------------------------------------------------

  /** The level loop with the stop at a name already met. */
  method ComputeLevel(d: map<Option<string>, string>, p: Option<string>) returns (level: nat)
    ensures level == Level(d, p)
  {
    level := 1;
    var parent := p;
    var seen: set<string> := {};
    while parent.Some? && parent.value !in seen
      invariant level + LevelFrom(d, parent, seen) == 1 + Level(d, p)
      decreases |Names(d, parent) - seen|
    {
      LevelMeasureDrops(d, parent, seen);
      assert LevelFrom(d, parent, seen) == 1 + LevelFrom(d, Step(d, parent), seen + {parent.value});
      level := level + 1;
      seen := seen + {parent.value};
      parent := Step(d, parent);
    }
  }

  /** The list of objects made into the dictionary keyed by name. */
  method KeyByName(objs: seq<MdObject>) returns (d: seq<MdObject>)
    ensures d == KeyedByName(objs, |objs|)
  {
    d := [];
    for k := 0 to |objs|
      invariant d == KeyedByName(objs, k)
    {
      d := PutByName(d, objs[k]);
    }
  }

  /** The loop that fills `parent_dict`. */
  method BuildParentMap(objs: seq<MdObject>) returns (d: map<Option<string>, string>)
    ensures d == ParentMap(objs, |objs|)
  {
    d := map[];
    for k := 0 to |objs|
      invariant d == ParentMap(objs, k)
    {
      if objs[k].parent.Some? {
        d := d[objs[k].name := objs[k].parent.value];
      }
    }
  }

  /** One turn of the rendering loop: the rule when due, the heading with its parameters, the last summary. */
  method WriteBlock(o: MdObject, level: nat, currentParent: Option<string>) returns (block: string)
    ensures block == Block(o, level, currentParent)
  {
    block := "";
    if level == 1 && currentParent.Some? {
      block := "***\n";
    }
    var paramsStr := "";
    if o.kind == "FunctionDef" || o.kind == "AsyncFunctionDef" || o.kind == "Function" {
      paramsStr := "()";
      if |o.params| > 0 {
        paramsStr := "(" + Join(o.params, ", ") + ")";
      }
    }
    block := block + Hashes(level) + " " + o.kind + " " + NameText(o.name) + paramsStr + ":\n";
    block := block + (if |o.mdContent| > 0 then o.mdContent[|o.mdContent| - 1] else "") + "\n";
  }

  /** The loop that writes one block per object, then the closing rule. */
  method RenderObjects(objs: seq<MdObject>) returns (markdown: string)
    ensures markdown == Render(objs)
  {
    var parents := BuildParentMap(objs);
    markdown := "";
    var currentParent: Option<string> := None;
    var i := 0;
    while i < |objs|
      invariant 0 <= i <= |objs|
      invariant markdown == Blocks(objs, parents, i)
      invariant currentParent == (if i == 0 then None else objs[i - 1].name)
    {
      var level := ComputeLevel(parents, objs[i].parent);
      var block := WriteBlock(objs[i], level, currentParent);
      markdown := markdown + block;
      currentParent := objs[i].name;
      i := i + 1;
    }
    markdown := markdown + "***\n";
  }

  /** `convert_to_markdown_file`, the hierarchy file already loaded. */
  method ConvertToMarkdownFile(hierarchy: map<string, FileEntry>, filePath: Option<string>, defaultPath: Option<string>)
    returns (r: Result<string>)
    ensures r == ConvertToMarkdown(hierarchy, filePath, defaultPath)
  {
    var path := filePath;
    if path.None? {
      path := defaultPath;
    }
    if path.None? {
      return Err("ValueError");
    }
    var objects: seq<MdObject>;
    if path.value !in hierarchy {
      objects := [];
    } else {
      match hierarchy[path.value]
      case ObjectList(objs) =>
        objects := KeyByName(objs);
      case ObjectDict(values) =>
        objects := values;
    }
    if |objects| == 0 {
      return Err("ValueError");
    }
    var markdown := RenderObjects(SortByLine(objects));
    return Ok(markdown);
  }

  // ---------------------------------------------------------------------
  // A class with a member of its own name
  // ---------------------------------------------------------------------

  /** `class Foo { Foo() {} }` in Java, as the hierarchy lists it: the class, then its constructor under it. */
  function ConstructorExample(): seq<MdObject>
  {
    [MdObject("Class", Some("Foo"), 1, None, [], []), MdObject("Function", Some("Foo"), 2, Some("Foo"), [], [])]
  }

  /**
   * Keyed by name, the constructor replaces its class, and `parent_dict`
   * maps "Foo" to "Foo".
   */
  lemma ConstructorReplacesClass()
    ensures KeyedByName(ConstructorExample(), 2) == [ConstructorExample()[1]]
    ensures SortByLine([ConstructorExample()[1]]) == [ConstructorExample()[1]]
    ensures ParentMap([ConstructorExample()[1]], 1) == map[Some("Foo") := "Foo"]
  {
    ConstructorKeyedByName();
    var f := ConstructorExample()[1];
    assert [f][..0] == [];
    assert SortByLine([f]) == InsertByLine(SortByLine([]), f) == [f];
    assert ParentMap([f], 1) == ParentMap([f], 0)[f.name := "Foo"];
  }

  /** The first half of the example: keyed by name, the constructor takes the class's place. */
  lemma ConstructorKeyedByName()
    ensures KeyedByName(ConstructorExample(), 2) == [ConstructorExample()[1]]
  {
    var ex := ConstructorExample();
    KeyedTwoSameName(ex);
  }

  /** Two objects with one name, keyed by name, leave only the second. */
  lemma KeyedTwoSameName(objs: seq<MdObject>)
    requires |objs| == 2 && objs[0].name == objs[1].name
    ensures KeyedByName(objs, 2) == [objs[1]]
  {
    var c, f := objs[0], objs[1];
    var one: seq<MdObject> := [c];
    assert KeyedByName(objs, 0) == [];
    assert IndexOfName([], c.name) == None;
    assert PutByName([], c) == one;
    assert KeyedByName(objs, 1) == one;
    assert one[|one| - 1].name == f.name;
    assert IndexOfName(one, f.name) == Some(0);
    assert PutByName(one, f) == one[0 := f];
    assert one[0 := f] == [f];
  }

  /**
   * With that `parent_dict`, the level loop as written never stops for the
   * constructor; the level with the stop at a repeated name is 2.
   */
  lemma ConstructorLoopNeverStops(k: nat)
    ensures Chain(map[Some("Foo") := "Foo"], Some("Foo"), k).Some?
    ensures !LoopExitsAt(map[Some("Foo") := "Foo"], Some("Foo"), k)
    ensures Level(map[Some("Foo") := "Foo"], Some("Foo")) == 2
  {
    var d := map[Some("Foo") := "Foo"];
    SelfParentNeverExits(d, "Foo", k);
    assert Step(d, Some("Foo")) == Some("Foo");
    assert {} + {"Foo"} == {"Foo"};
    assert LevelFrom(d, Some("Foo"), {"Foo"}) == 1;
  }
}
