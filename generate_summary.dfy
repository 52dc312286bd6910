// The book tool that writes a GitBook SUMMARY.md: every directory below the
// book's source gets a README.md when it has none, and the outline lists
// each directory (linking its README.md) and each markdown file, indented two
// spaces per level.
module GenerateSummary {
  import opened Wrappers
  import opened PyStrings

  // ---------------------------------------------------------------------
  // is_markdown_file
  // ---------------------------------------------------------------------

  /** Where the regex `$` matches: at the end, or before a newline that ends the string. */
  predicate EndAnchor(s: string, e: int)
  {
    e == |s| || (0 <= e == |s| - 1 && s[e] == '\n')
  }

  /** `.md$` matches at position `i` (the dot takes any character but a newline). */
  predicate ShortAt(s: string, i: int)
  {
    0 <= i && i + 3 <= |s| && s[i] != '\n' && s[i + 1..i + 3] == "md" && EndAnchor(s, i + 3)
  }

  /** `.markdown$` matches at position `i`. */
  predicate LongAt(s: string, i: int)
  {
    0 <= i && i + 9 <= |s| && s[i] != '\n' && s[i + 1..i + 9] == "markdown" && EndAnchor(s, i + 9)
  }

  /** `re.search('.md$|.markdown$', s)` from position `i`: the length of the leftmost match, trying `.md$` first at each position. */
  function SearchFrom(s: string, i: nat): (r: Option<nat>)
    decreases |s| - i
    ensures r.Some? ==> r.value == 3 || r.value == 9
  {
    if i > |s| then None
    else if ShortAt(s, i) then Some(3)
    else if LongAt(s, i) then Some(9)
    else SearchFrom(s, i + 1)
  }

  /** `is_markdown_file` as written: the name minus the matched length, None for False. */
  function MarkdownStemAsWritten(name: string): Option<string>
  {
    match SearchFrom(name, 0)
    case None => None
    case Some(n) => if n <= |name| then Some(name[..|name| - n]) else Some("")
  }

  lemma {:induction false} SearchSkips(s: string, i: nat, j: nat)
    requires i <= j && forall k :: i <= k < j ==> !ShortAt(s, k) && !LongAt(s, k)
    requires j <= |s| + 1
    ensures SearchFrom(s, i) == SearchFrom(s, j)
    decreases j - i
  {
    if i < j {
      SearchSkips(s, i + 1, j);
    }
  }

  /**
   * For a name without newlines, the unescaped dot makes any character
   * before `markdown` or `md` at the end count: the stem drops the last 9 or
   * 3 characters, and anything else is not markdown.
   */
  lemma MarkdownStemAsWrittenCharacterised(name: string)
    requires '\n' !in name
    ensures MarkdownStemAsWritten(name)
            == if |name| >= 9 && name[|name| - 8..] == "markdown" then Some(name[..|name| - 9])
               else if |name| >= 3 && name[|name| - 2..] == "md" then Some(name[..|name| - 3])
               else None
  {
    var n := |name|;
    forall k | 0 <= k && !(k == n - 9 || k == n - 3) ensures !ShortAt(name, k) && !LongAt(name, k) {
    }
    if n >= 9 && name[n - 8..] == "markdown" {
      assert name[n - 9] in name;
      assert LongAt(name, n - 9) && !ShortAt(name, n - 9);
      SearchSkips(name, 0, n - 9);
    } else if n >= 3 && name[n - 2..] == "md" {
      assert name[n - 3] in name;
      assert ShortAt(name, n - 3);
      if n >= 9 {
        assert !LongAt(name, n - 9);
      }
      SearchSkips(name, 0, n - 3);
    } else {
      if n >= 9 {
        assert !LongAt(name, n - 9);
      }
      if n >= 3 {
        assert !ShortAt(name, n - 3);
      }
      SearchSkips(name, 0, n + 1);
    }
  }

  /** `is_markdown_file` with the dots escaped, as evidently intended: only the `.md` and `.markdown` extensions count. */
  function MarkdownStem(name: string): (r: Option<string>)
    ensures r.Some? <==> EndsWith(name, ".markdown") || EndsWith(name, ".md")
  {
    if EndsWith(name, ".markdown") then Some(name[..|name| - 9])
    else if EndsWith(name, ".md") then Some(name[..|name| - 3])
    else None
  }

  /** The stem comes back for either extension. */
  lemma MarkdownStemRoundTrip(stem: string)
    ensures MarkdownStem(stem + ".md") == Some(stem)
    ensures MarkdownStem(stem + ".markdown") == Some(stem)
  {
    var a, b := stem + ".md", stem + ".markdown";
    assert a[|a| - 3..] == ".md" && a[..|a| - 3] == stem;
    assert b[|b| - 9..] == ".markdown" && b[..|b| - 9] == stem;
    assert a[|a| - 1] == 'd';
    if |a| >= 9 {
      assert a[|a| - 9..][8] == a[|a| - 1];
    }
  }

  /** A Windows command script is taken for a markdown page named `run.`; with the dot escaped it is not. */
  lemma CommandScriptTakenForMarkdown()
    ensures MarkdownStemAsWritten("run.cmd") == Some("run.")
    ensures MarkdownStem("run.cmd") == None
  {
    var name := "run.cmd";
    MarkdownStemAsWrittenCharacterised(name);
    assert name[|name| - 2..] == "md" && name[..|name| - 3] == "run.";
    assert name[|name| - 3..][0] == 'c';
  }

  /** With the dots escaped, the markdown names are a subset of those the regex as written accepts (newline-free names). */
  lemma CorrectedAcceptsLess(name: string)
    requires '\n' !in name && MarkdownStem(name).Some?
    ensures MarkdownStemAsWritten(name) == MarkdownStem(name)
  {
    MarkdownStemAsWrittenCharacterised(name);
    var n := |name|;
    if EndsWith(name, ".markdown") {
      assert name[n - 8..] == name[n - 9..][1..];
    } else {
      assert name[n - 2..] == name[n - 3..][1..];
      if n >= 9 {
        assert name[n - 8..][6] == name[n - 2];
      }
    }
  }

  // ---------------------------------------------------------------------
  // create_readme_if_not_exist
  // ---------------------------------------------------------------------

  /** A directory listing: files with their contents, and subdirectories. */
  datatype Entry = File(name: string, content: string) | Folder(name: string, dir: Dir)
  datatype Dir = Dir(entries: seq<Entry>)

  /** `os.path.exists(os.path.join(dire, name))`. */
  predicate Has(d: Dir, name: string)
  {
    exists i :: 0 <= i < |d.entries| && d.entries[i].name == name
  }

  /** `create_readme_if_not_exist`: a README.md holding `# <dirname>` when none exists; a new file is listed last. */
  function CreateReadme(d: Dir, dirname: string): (r: Dir)
    ensures Has(r, "README.md")
  {
    if Has(d, "README.md") then d
    else
      var r := Dir(d.entries + [File("README.md", "# " + dirname + "\n")]);
      assert r.entries[|d.entries|].name == "README.md";
      r
  }

  /** Writing the README only when it is absent makes the call idempotent, and an existing one is never touched. */
  lemma CreateReadmeIdempotent(d: Dir, dirname: string)
    ensures CreateReadme(CreateReadme(d, dirname), dirname) == CreateReadme(d, dirname)
    ensures Has(d, "README.md") ==> CreateReadme(d, dirname) == d
    ensures !Has(d, "README.md") ==> CreateReadme(d, dirname).entries[..|d.entries|] == d.entries
  {
  }

  // ---------------------------------------------------------------------
  // output_markdown
  // ---------------------------------------------------------------------

  /** The number of directories below `d`: the measure that shrinks on each descent. */
  function Size(d: Dir): nat
    decreases d, 1
  {
    EntriesSize(d, 0)
  }

  function EntriesSize(d: Dir, i: nat): nat
    requires i <= |d.entries|
    decreases d, 0, |d.entries| - i
  {
    if i == |d.entries| then 0
    else (match d.entries[i] case Folder(_, sub) => 1 + Size(sub) case File(_, _) => 0) + EntriesSize(d, i + 1)
  }

  lemma {:induction false} FolderSmaller(d: Dir, j: nat, i: nat)
    requires j <= i < |d.entries| && d.entries[i].Folder?
    ensures Size(d.entries[i].dir) < EntriesSize(d, j)
    decreases i - j
  {
    if j < i {
      FolderSmaller(d, j + 1, i);
    }
  }

  /** Entries with the same kinds and subdirectory sizes, position by position, have the same size. */
  lemma {:induction false} EntriesSizeSame(d: Dir, e: Dir, i: nat)
    requires |d.entries| == |e.entries| && i <= |d.entries|
    requires forall k :: 0 <= k < |d.entries| ==> d.entries[k].Folder? == e.entries[k].Folder?
    requires forall k :: 0 <= k < |d.entries| && d.entries[k].Folder? ==> Size(d.entries[k].dir) == Size(e.entries[k].dir)
    ensures EntriesSize(d, i) == EntriesSize(e, i)
    decreases |d.entries| - i
  {
    if i < |d.entries| {
      EntriesSizeSame(d, e, i + 1);
    }
  }

  lemma {:induction false} EntriesSizeFileAdded(d: Dir, f: Entry, i: nat)
    requires f.File? && i <= |d.entries|
    ensures EntriesSize(Dir(d.entries + [f]), i) == EntriesSize(d, i)
    decreases |d.entries| - i
  {
    var e := Dir(d.entries + [f]);
    if i < |d.entries| {
      assert e.entries[i] == d.entries[i];
      EntriesSizeFileAdded(d, f, i + 1);
    } else {
      assert e.entries[i] == f;
    }
  }

  lemma CreateReadmeSize(d: Dir, dirname: string)
    ensures Size(CreateReadme(d, dirname)) == Size(d)
  {
    if !Has(d, "README.md") {
      EntriesSizeFileAdded(d, File("README.md", "# " + dirname + "\n"), 0);
    }
  }

  /** The first loop: a README.md created in every subdirectory (the basename of the subdirectory is its name). */
  function AddReadmes(d: Dir): (r: Dir)
    ensures |r.entries| == |d.entries|
  {
    Dir(seq(|d.entries|, i requires 0 <= i < |d.entries| =>
      match d.entries[i]
      case Folder(n, sub) => Folder(n, CreateReadme(sub, n))
      case File(n, c) => File(n, c)))
  }

  lemma AddReadmesSize(d: Dir)
    ensures Size(AddReadmes(d)) == Size(d)
  {
    var r := AddReadmes(d);
    forall k | 0 <= k < |d.entries| && d.entries[k].Folder?
      ensures Size(d.entries[k].dir) == Size(r.entries[k].dir)
    {
      CreateReadmeSize(d.entries[k].dir, d.entries[k].name);
    }
    EntriesSizeSame(d, r, 0);
  }

  /** `os.path.relpath` of a subdirectory to the book's source, from its parent's. */
  function ChildPath(rel: string, name: string): string
  {
    if rel == "." then name else rel + "/" + name
  }

  function Indentation(depth: nat): (r: string)
    ensures |r| == 2 * depth
  {
    if depth == 0 then "" else Indentation(depth - 1) + "  "
  }

  /** The name test on a markdown file: never README.md, and SUMMARY.md only below the top. */
  predicate Listed(name: string, depth: nat)
  {
    !(name in ["SUMMARY.md", "README.md"]) || (depth != 0 && !(name in ["README.md"]))
  }

  /** The line for a file: its stem linked to its path, or nothing. */
  function FileLine(name: string, rel: string, depth: nat): string
  {
    if MarkdownStem(name).Some? && |MarkdownStem(name).value| > 0 && Listed(name, depth) then
      Indentation(depth) + "- [" + MarkdownStem(name).value + "](" + rel + "/" + name + ")\n"
    else ""
  }

  /** README.md is never listed; SUMMARY.md only below the top; every other file with a non-empty markdown stem is. */
  lemma ListingRules(name: string, rel: string, depth: nat)
    ensures name == "README.md" ==> FileLine(name, rel, depth) == ""
    ensures name == "SUMMARY.md" ==> (FileLine(name, rel, depth) != "" <==> depth != 0)
    ensures name != "README.md" && name != "SUMMARY.md" ==>
              (FileLine(name, rel, depth) != "" <==> MarkdownStem(name).Some? && |MarkdownStem(name).value| > 0)
  {
    var rm, sm := "README.md", "SUMMARY.md";
    assert rm[|rm| - 3..] == ".md" && rm[..|rm| - 3] == "README";
    assert sm[|sm| - 3..] == ".md" && sm[..|sm| - 3] == "SUMMARY";
    if name == sm {
      assert !EndsWith(name, ".markdown");
    }
    if name == rm {
      assert !EndsWith(name, ".markdown");
    }
  }

  /** The text and the resulting tree of `output_markdown(dire)` at `depth`, `rel` being `dire` relative to the source. */
  function Outline(d: Dir, rel: string, depth: nat): (string, Dir)
    decreases Size(d), 1
  {
    AddReadmesSize(d);
    var listed := AddReadmes(d);
    var r := EntriesOutline(listed, 0, rel, depth);
    (r.0, Dir(r.1))
  }

  /** The second loop from entry `i` on. */
  function EntriesOutline(d: Dir, i: nat, rel: string, depth: nat): (string, seq<Entry>)
    requires i <= |d.entries|
    decreases Size(d), 0, |d.entries| - i
  {
    if i == |d.entries| then ("", [])
    else
      var rest := EntriesOutline(d, i + 1, rel, depth);
      match d.entries[i]
      case Folder(n, sub) =>
        FolderSmaller(d, 0, i);
        var link := if Has(sub, "README.md") then Indentation(depth) + "- [" + n + "](" + ChildPath(rel, n) + "/README.md)\n" else "";
        var inner := Outline(sub, ChildPath(rel, n), depth + 1);
        (link + inner.0 + rest.0, [Folder(n, inner.1)] + rest.1)
      case File(n, c) =>
        (FileLine(n, rel, depth) + rest.0, [File(n, c)] + rest.1)
  }

  /** Every directory below `d` has a README.md. */
  predicate AllHaveReadme(d: Dir)
    decreases d
  {
    forall i :: 0 <= i < |d.entries| && d.entries[i].Folder? ==>
      Has(d.entries[i].dir, "README.md") && AllHaveReadme(d.entries[i].dir)
  }

  /** After `output_markdown`, every directory below the source has a README.md. */
  lemma {:induction false} OutlineLeavesReadmes(d: Dir, rel: string, depth: nat)
    ensures AllHaveReadme(Outline(d, rel, depth).1)
    decreases Size(d), 1
  {
    AddReadmesSize(d);
    EntriesLeaveReadmes(AddReadmes(d), 0, rel, depth);
    var r := EntriesOutline(AddReadmes(d), 0, rel, depth);
    assert Outline(d, rel, depth).1 == Dir(r.1);
    forall k | 0 <= k < |r.1| && r.1[k].Folder?
      ensures Has(r.1[k].dir, "README.md") && AllHaveReadme(r.1[k].dir)
    {
    }
  }

  lemma {:induction false} EntriesLeaveReadmes(d: Dir, i: nat, rel: string, depth: nat)
    requires i <= |d.entries|
    requires forall k :: i <= k < |d.entries| && d.entries[k].Folder? ==> Has(d.entries[k].dir, "README.md")
    ensures forall k :: 0 <= k < |EntriesOutline(d, i, rel, depth).1| && EntriesOutline(d, i, rel, depth).1[k].Folder? ==>
              Has(EntriesOutline(d, i, rel, depth).1[k].dir, "README.md") && AllHaveReadme(EntriesOutline(d, i, rel, depth).1[k].dir)
    decreases Size(d), 0, |d.entries| - i
  {
    if i < |d.entries| {
      EntriesLeaveReadmes(d, i + 1, rel, depth);
      var rest := EntriesOutline(d, i + 1, rel, depth).1;
      var es := EntriesOutline(d, i, rel, depth).1;
      assert es[1..] == rest;
      match d.entries[i] {
        case Folder(n, sub) =>
          FolderSmaller(d, 0, i);
          OutlineLeavesReadmes(sub, ChildPath(rel, n), depth + 1);
          OutlineKeepsReadme(sub, ChildPath(rel, n), depth + 1);
        case File(_, _) =>
      }
      forall k | 0 <= k < |es| && es[k].Folder?
        ensures Has(es[k].dir, "README.md") && AllHaveReadme(es[k].dir)
      {
        if k > 0 {
          assert es[k] == rest[k - 1];
        }
      }
    }
  }

  /** Processing a directory never removes its own README.md. */
  lemma OutlineKeepsReadme(d: Dir, rel: string, depth: nat)
    requires Has(d, "README.md")
    ensures Has(Outline(d, rel, depth).1, "README.md")
  {
    AddReadmesSize(d);
    var listed := AddReadmes(d);
    var i :| 0 <= i < |d.entries| && d.entries[i].name == "README.md";
    assert listed.entries[i].name == "README.md";
    EntriesKeepNames(listed, 0, rel, depth, i);
  }

  lemma {:induction false} EntriesKeepNames(d: Dir, j: nat, rel: string, depth: nat, i: nat)
    requires j <= i < |d.entries|
    ensures |EntriesOutline(d, j, rel, depth).1| == |d.entries| - j
    ensures EntriesOutline(d, j, rel, depth).1[i - j].name == d.entries[i].name
    decreases |d.entries| - j
  {
    if j < i {
      EntriesKeepNames(d, j + 1, rel, depth, i);
    } else if j + 1 < |d.entries| {
      EntriesKeepNames(d, j + 1, rel, depth, j + 1);
    }
  }

  /** Each subdirectory is linked through its README.md, which the first loop has just made sure of. */
  lemma SubdirectoriesLinked(d: Dir, rel: string, depth: nat, i: nat)
    requires i < |d.entries| && d.entries[i].Folder?
    ensures var n := d.entries[i].name;
            Has(AddReadmes(d).entries[i].dir, "README.md")
            && EntriesOutline(AddReadmes(d), i, rel, depth).0[..2 * depth + 5 + |n|]
               == Indentation(depth) + "- [" + n + "]("
  {
    var n := d.entries[i].name;
    var link := Indentation(depth) + "- [" + n + "](" + ChildPath(rel, n) + "/README.md)\n";
    var head := Indentation(depth) + "- [" + n + "](";
    assert link == head + (ChildPath(rel, n) + "/README.md)\n");
    assert |head| == 2 * depth + 5 + |n|;
  }

  /** `main`'s SUMMARY.md: the title, then the outline of the source directory. */
  function Summary(src: Dir): string
  {
    "# Summary\n\n" + Outline(src, ".", 0).0
  }

  // ---------------------------------------------------------------------
  // The methods
  // ---------------------------------------------------------------------

  /** The first loop of `output_markdown`. */
  method CreateReadmes(d: Dir) returns (r: Dir)
    ensures r == AddReadmes(d)
  {
    var entries: seq<Entry> := [];
    for i := 0 to |d.entries|
      invariant |entries| == i
      invariant forall k :: 0 <= k < i ==> entries[k] == AddReadmes(d).entries[k]
    {
      match d.entries[i]
      case Folder(n, sub) =>
        entries := entries + [Folder(n, CreateReadme(sub, n))];
      case File(n, c) =>
        entries := entries + [File(n, c)];
    }
    r := Dir(entries);
  }

  /** `output_markdown`: the readmes first, then one line per listed entry, recursing into subdirectories. */
  method OutputMarkdown(d: Dir, rel: string, depth: nat) returns (text: string, after: Dir)
    ensures (text, after) == Outline(d, rel, depth)
    decreases Size(d), 1
  {
    var listed := CreateReadmes(d);
    AddReadmesSize(d);
    var i := |listed.entries|;
    text := "";
    var entries: seq<Entry> := [];
    while i > 0
      invariant 0 <= i <= |listed.entries|
      invariant (text, entries) == EntriesOutline(listed, i, rel, depth)
    {
      i := i - 1;
      match listed.entries[i]
      case Folder(n, sub) =>
        FolderSmaller(listed, 0, i);
        var link := "";
        if Has(sub, "README.md") {
          link := Indentation(depth) + "- [" + n + "](" + ChildPath(rel, n) + "/README.md)\n";
        }
        var innerText, innerDir := OutputMarkdown(sub, ChildPath(rel, n), depth + 1);
        assert EntriesOutline(listed, i, rel, depth) == (link + innerText + text, [Folder(n, innerDir)] + entries);
        text := link + innerText + text;
        entries := [Folder(n, innerDir)] + entries;
      case File(n, c) =>
        assert EntriesOutline(listed, i, rel, depth) == (FileLine(n, rel, depth) + text, [File(n, c)] + entries);
        text := FileLine(n, rel, depth) + text;
        entries := [File(n, c)] + entries;
    }
    after := Dir(entries);
  }
}
