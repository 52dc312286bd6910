// The tree-sitter reference finder: locating the node under a cursor,
// scanning a file's tree for identifiers with a given name, classifying each
// as a definition or a usage, keeping usages in the origin's scope, dropping
// the origin itself, and, across the repository, filtering other files'
// references against the origin file's imports. Trees are given as values;
// a node is named by its path from the root (see SyntaxTree).
module ReferencesFinder {
  import opened Wrappers
  import opened PyStrings
  import opened SeqUtil
  import opened SyntaxTree
  import opened SourceLanguages

  /** `identifier_types`: the node kinds that carry a name. */
  function IdentifierTypes(l: Language): set<string>
  {
    match l
    case Python => {"identifier", "name"}
    case Java => {"identifier"}
    case Go => {"identifier", "field_identifier", "package_identifier"}
    case Kotlin => {"simple_identifier", "identifier"}
  }

  /** `scope_types`: the node kinds that open a scope. */
  function ScopeTypes(l: Language): set<string>
  {
    match l
    case Python => {"function_definition", "class_definition", "method_definition", "lambda", "comprehension", "for_statement", "with_statement"}
    case Java => {"class_declaration", "method_declaration", "constructor_declaration", "block", "for_statement", "enhanced_for_statement", "while_statement"}
    case Go => {"function_declaration", "method_declaration", "func_literal", "block", "for_statement", "range_clause", "if_statement"}
    case Kotlin => {"class_declaration", "function_declaration", "anonymous_function", "lambda_literal", "for_statement", "while_statement", "if_expression"}
  }

  /** `definition_types`: an identifier below a node of one of these kinds is a definition. */
  function DefinitionTypes(l: Language): set<string>
  {
    match l
    case Python => {"assignment", "augmented_assignment", "parameter", "function_definition", "class_definition", "import_statement", "import_from_statement", "for_statement", "with_statement"}
    case Java => {"variable_declarator", "formal_parameter", "catch_formal_parameter", "enhanced_for_statement", "local_variable_declaration"}
    case Go => {"var_declaration", "short_var_declaration", "parameter_declaration", "function_declaration", "method_declaration", "range_clause"}
    case Kotlin => {"variable_declaration", "parameter", "function_declaration", "class_declaration", "for_statement"}
  }

  // ---------------------------------------------------------------------
  // Position lookup

  /**
   * The bounds test of `find_deepest`: 1-based `line`, 0-based `column`; the
   * start column is inclusive and the end column exclusive on their rows.
   */
  predicate ContainsPosition(n: Node, line: int, column: int)
  {
    var row := line - 1;
    && n.startPoint.row <= row <= n.endPoint.row
    && !(n.startPoint.row == row && n.startPoint.column > column)
    && !(n.endPoint.row == row && n.endPoint.column <= column)
  }

  /**
   * `_find_node_at_position`: None when the root does not contain the
   * position; otherwise the path of a containing node none of whose children
   * contains it, reached through the first containing child at each level.
   */
  function FindDeepest(n: Node, line: int, column: int): (r: Option<seq<nat>>)
    ensures r.None? <==> !ContainsPosition(n, line, column)
    ensures r.Some? ==> ValidPath(n, r.value) && ContainsPosition(At(n, r.value), line, column)
    ensures r.Some? ==> forall i :: 0 <= i < |At(n, r.value).children| ==> !ContainsPosition(At(n, r.value).children[i], line, column)
    decreases n, 1
  {
    if !ContainsPosition(n, line, column) then None
    else DeeperAmong(n, 0, line, column)
  }

  /** The loop over the children from the `i`-th on: the first deeper match, or the node itself. */
  function DeeperAmong(n: Node, i: nat, line: int, column: int): (r: Option<seq<nat>>)
    requires i <= |n.children| && ContainsPosition(n, line, column)
    ensures r.Some? && ValidPath(n, r.value) && ContainsPosition(At(n, r.value), line, column)
    ensures r.Some? ==> forall j :: 0 <= j < |At(n, r.value).children| && !(r.value == [] && j < i) ==>
      !ContainsPosition(At(n, r.value).children[j], line, column)
    decreases n, 0, |n.children| - i
  {
    if i == |n.children| then Some([])
    else match FindDeepest(n.children[i], line, column)
      case Some(q) =>
        assert ([i] + q)[0] == i && ([i] + q)[1..] == q;
        Some([i] + q)
      case None => DeeperAmong(n, i + 1, line, column)
  }

  /**
   * `find_identifier_in_subtree`: the node itself when it is an identifier,
   * else the first identifier in pre-order below it whose text is non-empty
   * (an empty result counts as not found and the search goes on).
   */
  function FirstIdentifier(n: Node, l: Language): (r: Option<seq<nat>>)
    ensures n.kind in IdentifierTypes(l) ==> r == Some([])
    ensures r.Some? ==> ValidPath(n, r.value) && At(n, r.value).kind in IdentifierTypes(l)
    ensures r.Some? && r.value != [] ==> At(n, r.value).text != ""
    decreases n, 1
  {
    if n.kind in IdentifierTypes(l) then Some([]) else FirstIdentifierAmong(n, l, 0)
  }

  function FirstIdentifierAmong(n: Node, l: Language, i: nat): (r: Option<seq<nat>>)
    requires i <= |n.children|
    ensures r.Some? ==> |r.value| > 0 && ValidPath(n, r.value)
                        && At(n, r.value).kind in IdentifierTypes(l) && At(n, r.value).text != ""
    decreases n, 0, |n.children| - i
  {
    if i == |n.children| then None
    else match FirstIdentifier(n.children[i], l)
      case Some(q) =>
        assert ([i] + q)[0] == i && ([i] + q)[1..] == q;
        if At(n.children[i], q).text != "" then Some([i] + q) else FirstIdentifierAmong(n, l, i + 1)
      case None => FirstIdentifierAmong(n, l, i + 1)
  }

  /** The test of the upward walk: an identifier whose rows hold the line and whose start and end columns bracket the column. */
  predicate SpansPosition(n: Node, l: Language, line: int, column: int)
  {
    && n.kind in IdentifierTypes(l)
    && n.startPoint.row <= line - 1 <= n.endPoint.row
    && n.startPoint.column <= column <= n.endPoint.column
  }

  /** The depth of the nearest ancestor above depth `k` that passes the test, or -1. */
  function NearestSpanning(root: Node, p: seq<nat>, k: nat, l: Language, line: int, column: int): (r: int)
    requires ValidPath(root, p) && k <= |p|
    ensures -1 <= r < k
    ensures r >= 0 ==> SpansPosition(Ancestor(root, p, r), l, line, column)
    ensures forall j :: r < j < k ==> !SpansPosition(Ancestor(root, p, j), l, line, column)
  {
    if k == 0 then -1
    else if SpansPosition(Ancestor(root, p, k - 1), l, line, column) then k - 1
    else NearestSpanning(root, p, k - 1, l, line, column)
  }

  /**
   * `_get_identifier_at_position`: the deepest node at the position if it is
   * an identifier; else the nearest proper ancestor that passes the
   * upward-walk test; else the first identifier below the deepest node;
   * None when the root does not contain the position.
   */
  method IdentifierAtPosition(root: Node, l: Language, line: int, column: int) returns (r: Option<string>)
    ensures FindDeepest(root, line, column).None? ==> r.None?
    ensures FindDeepest(root, line, column).Some? ==>
      var p := FindDeepest(root, line, column).value;
      var k := NearestSpanning(root, p, |p|, l, line, column);
      if At(root, p).kind in IdentifierTypes(l) then r == Some(At(root, p).text)
      else if k >= 0 then r == Some(Ancestor(root, p, k).text)
      else match FirstIdentifier(At(root, p), l)
        case None => r.None?
        case Some(q) => r == Some(At(At(root, p), q).text)
  {
    var found := FindDeepest(root, line, column);
    if found.None? {
      return None;
    }
    var p := found.value;
    var node := At(root, p);
    if node.kind in IdentifierTypes(l) {
      return Some(node.text);
    }
    var k := |p|;
    while k > 0
      invariant 0 <= k <= |p|
      invariant NearestSpanning(root, p, |p|, l, line, column) == NearestSpanning(root, p, k, l, line, column)
    {
      k := k - 1;
      var current := Ancestor(root, p, k);
      if SpansPosition(current, l, line, column) {
        return Some(current.text);
      }
    }
    var below := FirstIdentifier(node, l);
    match below {
      case None => return None;
      case Some(q) => return Some(At(node, q).text);
    }
  }

  // ---------------------------------------------------------------------
  // Identifier scan and classification

  /** Some proper ancestor of the node at `p` has a definition kind. */
  ghost predicate UnderDefinition(root: Node, p: seq<nat>, l: Language)
    requires ValidPath(root, p)
  {
    exists k :: 0 <= k < |p| && Ancestor(root, p, k).kind in DefinitionTypes(l)
  }

  function ContextName(isDefinition: bool): string
  {
    if isDefinition then "definition" else "usage"
  }

  /**
   * `_get_reference_context`: "usage" for the root; otherwise "definition"
   * exactly when some proper ancestor has a definition kind. (The extra
   * Python and Java tests in the loop only ever look at kinds that are
   * already definition kinds, so they never change the answer.)
   */
  method ReferenceContext(root: Node, p: seq<nat>, l: Language) returns (context: string)
    requires ValidPath(root, p)
    ensures context == ContextName(UnderDefinition(root, p, l))
    ensures |p| == 0 ==> context == "usage"
  {
    if |p| == 0 {
      return "usage";
    }
    var k := |p|;
    while k > 0
      invariant 0 <= k <= |p|
      invariant forall j :: k <= j < |p| ==> Ancestor(root, p, j).kind !in DefinitionTypes(l)
    {
      k := k - 1;
      if Ancestor(root, p, k).kind in DefinitionTypes(l) {
        return "definition";
      }
    }
    return "usage";
  }

  /** One occurrence found by the scan: 1-based line, 0-based column and context. */
  datatype Match = Match(line: int, column: int, context: string)

  /** The occurrence reported for the node at `p`. */
  ghost function MatchOf(root: Node, p: seq<nat>, l: Language): Match
    requires ValidPath(root, p)
  {
    var n := At(root, p);
    Match(n.startPoint.row + 1, n.startPoint.column, ContextName(UnderDefinition(root, p, l)))
  }

  /** The occurrences in the subtree at `p`, in pre-order. */
  ghost function Occurrences(root: Node, n: Node, p: seq<nat>, l: Language, target: string): seq<Match>
    requires ValidPath(root, p) && At(root, p) == n
    decreases n, 1
  {
    (if n.kind in IdentifierTypes(l) && n.text == target then [MatchOf(root, p, l)] else [])
    + OccurrencesBelow(root, n, p, l, target, |n.children|)
  }

  /** The occurrences in the subtrees of the first `k` children. */
  ghost function OccurrencesBelow(root: Node, n: Node, p: seq<nat>, l: Language, target: string, k: nat): seq<Match>
    requires ValidPath(root, p) && At(root, p) == n && k <= |n.children|
    decreases n, 0, k
  {
    if k == 0 then []
    else
      ChildPath(root, p, k - 1);
      OccurrencesBelow(root, n, p, l, target, k - 1) + Occurrences(root, n.children[k - 1], p + [k - 1], l, target)
  }

  /** `_find_all_identifiers`: the pre-order walk from the root. */
  method FindAllIdentifiers(root: Node, l: Language, target: string) returns (matches: seq<Match>)
    ensures matches == Occurrences(root, root, [], l, target)
  {
    matches := CollectIdentifiers(root, root, [], l, target);
  }

  /** The inner `walk`: this node's occurrence, then each child's, in order. */
  method CollectIdentifiers(root: Node, n: Node, p: seq<nat>, l: Language, target: string) returns (matches: seq<Match>)
    requires ValidPath(root, p) && At(root, p) == n
    ensures matches == Occurrences(root, n, p, l, target)
    decreases n
  {
    var own := OwnOccurrence(root, n, p, l, target);
    var below := [];
    var i := 0;
    while i < |n.children|
      invariant 0 <= i <= |n.children|
      invariant below == OccurrencesBelow(root, n, p, l, target, i)
    {
      ChildPath(root, p, i);
      var sub := CollectIdentifiers(root, n.children[i], p + [i], l, target);
      OccurrencesBelowStep(root, n, p, l, target, i);
      below := below + sub;
      i := i + 1;
    }
    matches := own + below;
  }

  /** The match for the node itself, when it is an identifier with the target text. */
  method OwnOccurrence(root: Node, n: Node, p: seq<nat>, l: Language, target: string) returns (matches: seq<Match>)
    requires ValidPath(root, p) && At(root, p) == n
    ensures matches == if n.kind in IdentifierTypes(l) && n.text == target then [MatchOf(root, p, l)] else []
  {
    matches := [];
    if n.kind in IdentifierTypes(l) && n.text == target {
      var context := ReferenceContext(root, p, l);
      matches := [Match(n.startPoint.row + 1, n.startPoint.column, context)];
    }
  }

  lemma OccurrencesBelowStep(root: Node, n: Node, p: seq<nat>, l: Language, target: string, i: nat)
    requires ValidPath(root, p) && At(root, p) == n && i < |n.children|
    ensures ValidPath(root, p + [i]) && At(root, p + [i]) == n.children[i]
    ensures OccurrencesBelow(root, n, p, l, target, i + 1)
            == OccurrencesBelow(root, n, p, l, target, i) + Occurrences(root, n.children[i], p + [i], l, target)
  {
    ChildPath(root, p, i);
  }

  /** Every identifier node with the target text is reported, with its line, column and context. */
  lemma {:induction false} OccurrenceReported(root: Node, n: Node, p: seq<nat>, q: seq<nat>, l: Language, target: string)
    requires ValidPath(root, p) && At(root, p) == n && ValidPath(n, q)
    requires At(n, q).kind in IdentifierTypes(l) && At(n, q).text == target
    ensures ValidPath(root, p + q) && MatchOf(root, p + q, l) in Occurrences(root, n, p, l, target)
    decreases |q|
  {
    AtAppend(root, p, q);
    if |q| == 0 {
      assert p + q == p;
    } else {
      var i := q[0];
      ChildPath(root, p, i);
      assert ValidPath(n.children[i], q[1..]) && At(n, q) == At(n.children[i], q[1..]);
      OccurrenceReported(root, n.children[i], p + [i], q[1..], l, target);
      assert p + [i] + q[1..] == p + q;
      BelowContains(root, n, p, l, target, |n.children|, i);
    }
  }

  lemma {:induction false} BelowContains(root: Node, n: Node, p: seq<nat>, l: Language, target: string, k: nat, i: nat)
    requires ValidPath(root, p) && At(root, p) == n && i < k <= |n.children|
    ensures ValidPath(root, p + [i]) && At(root, p + [i]) == n.children[i]
    ensures forall m :: m in Occurrences(root, n.children[i], p + [i], l, target) ==> m in OccurrencesBelow(root, n, p, l, target, k)
    decreases k
  {
    ChildPath(root, p, i);
    if i < k - 1 {
      BelowContains(root, n, p, l, target, k - 1, i);
    }
  }

  // ---------------------------------------------------------------------
  // Scopes

  /** The depth of the nearest ancestor-or-self at depth at most `k` with a scope kind, or 0 (the root). */
  function ScopeDepth(root: Node, p: seq<nat>, l: Language, k: nat): (r: nat)
    requires ValidPath(root, p) && k <= |p|
    ensures r <= k
    ensures r > 0 ==> Ancestor(root, p, r).kind in ScopeTypes(l)
    ensures forall j :: r < j <= k ==> Ancestor(root, p, j).kind !in ScopeTypes(l)
  {
    if k == 0 then 0
    else if Ancestor(root, p, k).kind in ScopeTypes(l) then k
    else ScopeDepth(root, p, l, k - 1)
  }

  /** `find_enclosing_scope`: None off the tree, else the innermost scope node around the position, or the root. */
  function EnclosingScope(root: Node, l: Language, line: int, column: int): Option<seq<nat>>
  {
    match FindDeepest(root, line, column)
    case None => None
    case Some(p) => Some(p[..ScopeDepth(root, p, l, |p|)])
  }

  /** The upward walk of `find_enclosing_scope`. */
  method FindEnclosingScope(root: Node, l: Language, line: int, column: int) returns (scope: Option<seq<nat>>)
    ensures scope == EnclosingScope(root, l, line, column)
  {
    var found := FindDeepest(root, line, column);
    if found.None? {
      return None;
    }
    var p := found.value;
    var k := |p|;
    while k > 0
      invariant 0 <= k <= |p|
      invariant ScopeDepth(root, p, l, |p|) == ScopeDepth(root, p, l, k)
    {
      if Ancestor(root, p, k).kind in ScopeTypes(l) {
        return Some(p[..k]);
      }
      k := k - 1;
    }
    return Some(p[..0]);
  }

  /** `_is_same_scope`: the two positions have the same enclosing scope node (both off the tree counts as the same). */
  method IsSameScope(root: Node, l: Language, pos1: (int, int), pos2: (int, int)) returns (same: bool)
    ensures same <==> EnclosingScope(root, l, pos1.0, pos1.1) == EnclosingScope(root, l, pos2.0, pos2.1)
  {
    var scope1 := FindEnclosingScope(root, l, pos1.0, pos1.1);
    var scope2 := FindEnclosingScope(root, l, pos2.0, pos2.1);
    same := scope1 == scope2;
  }

  /** The scope filter's test: a definition, or a usage in the origin's scope. */
  predicate KeptByScope(m: Match, origin: (int, int), root: Node, l: Language)
  {
    m.context == "definition" || EnclosingScope(root, l, origin.0, origin.1) == EnclosingScope(root, l, m.line, m.column)
  }

  function ScopeFiltered(refs: seq<Match>, origin: (int, int), root: Node, l: Language): seq<Match>
  {
    if |refs| == 0 then []
    else
      var last := refs[|refs| - 1];
      ScopeFiltered(refs[..|refs| - 1], origin, root, l) + (if KeptByScope(last, origin, root, l) then [last] else [])
  }

  /** `_filter_references_by_scope`. */
  method FilterReferencesByScope(refs: seq<Match>, origin: (int, int), root: Node, l: Language) returns (filtered: seq<Match>)
    ensures filtered == ScopeFiltered(refs, origin, root, l)
  {
    filtered := [];
    var i := 0;
    while i < |refs|
      invariant 0 <= i <= |refs|
      invariant filtered == ScopeFiltered(refs[..i], origin, root, l)
    {
      var m := refs[i];
      assert refs[..i + 1][..i] == refs[..i];
      if m.context == "definition" {
        filtered := filtered + [m];
      } else {
        var same := IsSameScope(root, l, origin, (m.line, m.column));
        if same {
          filtered := filtered + [m];
        }
      }
      i := i + 1;
    }
    assert refs[..i] == refs;
  }

  /** The scope filter keeps, in order, exactly the definitions and the usages in the origin's scope. */
  lemma {:induction false} ScopeFilteredSpec(refs: seq<Match>, origin: (int, int), root: Node, l: Language)
    ensures IsSubsequence(ScopeFiltered(refs, origin, root, l), refs)
    ensures forall m :: m in ScopeFiltered(refs, origin, root, l) <==> m in refs && KeptByScope(m, origin, root, l)
    decreases |refs|
  {
    if |refs| > 0 {
      var init, last := refs[..|refs| - 1], refs[|refs| - 1];
      ScopeFilteredSpec(init, origin, root, l);
      assert refs == init + [last];
      var f := ScopeFiltered(init, origin, root, l);
      assert ScopeFiltered(refs, origin, root, l) == f + (if KeptByScope(last, origin, root, l) then [last] else []);
      SubsequenceExtend(f, init, last);
      if !KeptByScope(last, origin, root, l) {
        assert f + [] == f;
      }
      forall m ensures m in ScopeFiltered(refs, origin, root, l) <==> m in refs && KeptByScope(m, origin, root, l) {
        assert m in refs <==> m in init || m == last;
      }
    }
  }

  // ---------------------------------------------------------------------
  // One file

  /** A reference as the finder reports it: repository-relative file, 1-based line, 0-based column, the searched name. */
  datatype Reference = Reference(file: string, line: int, column: int, name: string)

  /** The last loop of `find_references_in_file`: each match not at the origin position, tagged with the file and the name. */
  function WithoutOrigin(matches: seq<Match>, file: string, name: string, originLine: int, originColumn: int): seq<Reference>
  {
    if |matches| == 0 then []
    else
      var m := matches[|matches| - 1];
      WithoutOrigin(matches[..|matches| - 1], file, name, originLine, originColumn)
      + (if m.line == originLine && m.column == originColumn then [] else [Reference(file, m.line, m.column, name)])
  }

  /** A reference is reported exactly when a match sits at its position and that position is not the origin. */
  lemma {:induction false} WithoutOriginSpec(matches: seq<Match>, file: string, name: string, originLine: int, originColumn: int, r: Reference)
    ensures r in WithoutOrigin(matches, file, name, originLine, originColumn)
            <==> r.file == file && r.name == name && !(r.line == originLine && r.column == originColumn)
                 && exists m :: m in matches && m.line == r.line && m.column == r.column
    decreases |matches|
  {
    if |matches| > 0 {
      var init, last := matches[..|matches| - 1], matches[|matches| - 1];
      WithoutOriginSpec(init, file, name, originLine, originColumn, r);
      assert matches == init + [last];
      if exists m :: m in matches && m.line == r.line && m.column == r.column {
        var m :| m in matches && m.line == r.line && m.column == r.column;
        if m != last {
          assert m in init;
        }
      }
    }
  }

  /** The matches that survive the scan and, when asked, the scope filter. */
  ghost function FileCandidates(root: Node, l: Language, name: string, originLine: int, originColumn: int, filterScope: bool): seq<Match>
  {
    var all := Occurrences(root, root, [], l, name);
    if filterScope then ScopeFiltered(all, (originLine, originColumn), root, l) else all
  }

  /** What `find_references_in_file` returns; `parsed` is the file's tree, None when parsing or reading raises. */
  ghost function FileReferences(file: string, name: string, originLine: int, originColumn: int, filterScope: bool,
                                parsed: Option<Node>): seq<Reference>
  {
    match DetectLanguage(file)
    case None => []
    case Some(l) =>
      match parsed
      case None => []
      case Some(root) => WithoutOrigin(FileCandidates(root, l, name, originLine, originColumn, filterScope), file, name, originLine, originColumn)
  }

  /**
   * `find_references_in_file`: nothing for an unknown extension or a file
   * that fails to parse; otherwise the scan, the optional scope filter and
   * the removal of the origin position.
   */
  method FindReferencesInFile(file: string, name: string, originLine: int, originColumn: int, filterScope: bool,
                              parsed: Option<Node>) returns (references: seq<Reference>)
    ensures references == FileReferences(file, name, originLine, originColumn, filterScope, parsed)
    ensures DetectLanguage(file).None? || parsed.None? ==> references == []
    ensures forall r :: r in references ==> r.file == file && r.name == name && !(r.line == originLine && r.column == originColumn)
  {
    var language := DetectLanguage(file);
    if language.None? || parsed.None? {
      return [];
    }
    var l, root := language.value, parsed.value;
    var matches := FindAllIdentifiers(root, l, name);
    if filterScope {
      matches := FilterReferencesByScope(matches, (originLine, originColumn), root, l);
    }
    assert matches == FileCandidates(root, l, name, originLine, originColumn, filterScope);
    references := DropOrigin(matches, file, name, originLine, originColumn);
  }

  /** The loop that tags the matches and skips the origin position. */
  method DropOrigin(matches: seq<Match>, file: string, name: string, originLine: int, originColumn: int) returns (references: seq<Reference>)
    ensures references == WithoutOrigin(matches, file, name, originLine, originColumn)
    ensures forall r :: r in references ==> r.file == file && r.name == name && !(r.line == originLine && r.column == originColumn)
  {
    references := [];
    var i := 0;
    while i < |matches|
      invariant 0 <= i <= |matches|
      invariant references == WithoutOrigin(matches[..i], file, name, originLine, originColumn)
    {
      var m := matches[i];
      assert matches[..i + 1][..i] == matches[..i];
      if !(m.line == originLine && m.column == originColumn) {
        references := references + [Reference(file, m.line, m.column, name)];
      }
      i := i + 1;
    }
    assert matches[..i] == matches;
    WithoutOriginFields(matches, file, name, originLine, originColumn);
  }

  lemma {:induction false} WithoutOriginFields(matches: seq<Match>, file: string, name: string, originLine: int, originColumn: int)
    ensures forall r :: r in WithoutOrigin(matches, file, name, originLine, originColumn) ==>
      r.file == file && r.name == name && !(r.line == originLine && r.column == originColumn)
    decreases |matches|
  {
    if |matches| > 0 {
      WithoutOriginFields(matches[..|matches| - 1], file, name, originLine, originColumn);
    }
  }

  // ---------------------------------------------------------------------
  // Import paths

  /** `rel_path.replace(os.sep, ".").rsplit(".", 1)[0]`. */
  function ModulePath(relPath: string): string
  {
    var dotted := ReplaceChar(relPath, '/', '.');
    var k := RFind(dotted, '.');
    if k < 0 then dotted else dotted[..k]
  }

  /** `_get_function_full_path`, given the file's repository-relative path. */
  function GetFunctionFullPath(relPath: string, functionName: string, className: Option<string>): string
  {
    if Truthy(className) then ModulePath(relPath) + "." + className.value + "." + functionName
    else ModulePath(relPath) + "." + functionName
  }

  /** "d/…/f.ext" becomes "d.….f" followed by ".Class.func" or ".func". */
  lemma FullPathOfSourceFile(base: string, ext: string, functionName: string, className: Option<string>)
    requires '.' !in ext && '/' !in ext
    ensures Truthy(className) ==>
      GetFunctionFullPath(base + "." + ext, functionName, className) == ReplaceChar(base, '/', '.') + "." + className.value + "." + functionName
    ensures !Truthy(className) ==>
      GetFunctionFullPath(base + "." + ext, functionName, className) == ReplaceChar(base, '/', '.') + "." + functionName
  {
    ModulePathOfSourceFile(base, ext);
  }

  /** Dropping the extension of "d/…/f.ext" and dotting the rest gives "d.….f". */
  lemma ModulePathOfSourceFile(base: string, ext: string)
    requires '.' !in ext && '/' !in ext
    ensures ModulePath(base + "." + ext) == ReplaceChar(base, '/', '.')
  {
    DottedSourceFile(base, ext);
    NoDotReplaced(ext);
    ModulePathOfDotted(base + "." + ext, ReplaceChar(base, '/', '.'), ReplaceChar(ext, '/', '.'));
  }

  lemma NoDotReplaced(ext: string)
    requires '.' !in ext && '/' !in ext
    ensures forall j :: 0 <= j < |ReplaceChar(ext, '/', '.')| ==> ReplaceChar(ext, '/', '.')[j] != '.'
  {
    var rext := ReplaceChar(ext, '/', '.');
    forall j | 0 <= j < |rext| ensures rext[j] != '.' {
      assert ext[j] != '.' && ext[j] != '/';
    }
  }

  lemma ModulePathOfDotted(relPath: string, stem: string, ext: string)
    requires ReplaceChar(relPath, '/', '.') == stem + "." + ext
    requires forall j :: 0 <= j < |ext| ==> ext[j] != '.'
    ensures ModulePath(relPath) == stem
  {
    LastDotBeforeExtension(stem, ext);
    assert (stem + "." + ext)[..|stem|] == stem;
  }

  lemma LastDotBeforeExtension(stem: string, ext: string)
    requires forall j :: 0 <= j < |ext| ==> ext[j] != '.'
    ensures RFind(stem + "." + ext, '.') == |stem|
  {
    RFindPrefix(stem + ".", ext, '.');
    RFindLast(stem + ".", '.', |stem|);
  }

  lemma DottedSourceFile(base: string, ext: string)
    ensures ReplaceChar(base + "." + ext, '/', '.') == ReplaceChar(base, '/', '.') + "." + ReplaceChar(ext, '/', '.')
  {
    ReplaceCharConcat(base + ".", ext, '/', '.');
    ReplaceCharConcat(base, ".", '/', '.');
    assert ReplaceChar(".", '/', '.') == ".";
  }

  /** The target's dotted parts and the import's are prefix-related, either way round. */
  predicate PrefixRelated(target: string, imp: string)
  {
    Split(imp, '.') <= Split(target, '.') || Split(target, '.') <= Split(imp, '.')
  }

  /** Every import of every kind, merged into one set. */
  function AllImports(imports: map<string, set<string>>): set<string>
  {
    set kind, imp | kind in imports && imp in imports[kind] :: imp
  }

  /**
   * The answer of `_is_likely_import_match`: yes when there are no imports,
   * when the target is itself an import, or when some import is
   * prefix-related to the target or `similar` to it (the `difflib` ratio
   * test, left abstract).
   */
  ghost predicate LikelyImportMatch(imports: set<string>, target: string, similar: (string, string) -> bool)
  {
    imports == {} || target in imports || exists imp :: imp in imports && (PrefixRelated(target, imp) || similar(target, imp))
  }

  /** `_is_likely_import_match`: the merge, the two direct tests, then the loop over the imports. */
  method IsLikelyImportMatch(imports: map<string, set<string>>, target: string, similar: (string, string) -> bool) returns (likely: bool)
    ensures likely <==> LikelyImportMatch(AllImports(imports), target, similar)
  {
    var all: set<string> := {};
    var kinds := imports.Keys;
    while kinds != {}
      invariant kinds <= imports.Keys
      invariant all == set kind, imp | kind in imports.Keys - kinds && imp in imports[kind] :: imp
      decreases kinds
    {
      var kind :| kind in kinds;
      all := all + imports[kind];
      kinds := kinds - {kind};
    }
    assert all == AllImports(imports);
    if all == {} {
      return true;
    }
    if target in all {
      return true;
    }
    var targetParts := Split(target, '.');
    var rest := all;
    while rest != {}
      invariant rest <= all
      invariant forall imp :: imp in all - rest ==> !(PrefixRelated(target, imp) || similar(target, imp))
      decreases rest
    {
      var imp :| imp in rest;
      var importParts := Split(imp, '.');
      if |targetParts| >= |importParts| && targetParts[..|importParts|] == importParts {
        return true;
      }
      if |importParts| >= |targetParts| && importParts[..|targetParts|] == targetParts {
        return true;
      }
      if similar(target, imp) {
        return true;
      }
      rest := rest - {imp};
    }
    return false;
  }

  // ---------------------------------------------------------------------
  // Import filter

  /**
   * The candidate import paths built for a reference from the class and
   * function around it: class path, function path, then the module-level
   * path of the name itself.
   */
  function PotentialPaths(r: Reference, context: (Option<string>, Option<string>)): (paths: seq<string>)
    ensures |paths| > 0 && paths[|paths| - 1] == GetFunctionFullPath(r.file, r.name, None)
  {
    var (className, functionName) := context;
    (if Truthy(className) && Truthy(functionName) then [GetFunctionFullPath(r.file, functionName.value, className)] else [])
    + (if Truthy(functionName) then [GetFunctionFullPath(r.file, functionName.value, None)] else [])
    + [GetFunctionFullPath(r.file, r.name, None)]
  }

  /**
   * Whether `_filter_references_by_imports` keeps a reference: always in the
   * origin's own file; never in a file of unknown language; always in a file
   * that fails to parse; otherwise when one of its potential paths is a
   * likely import match. `context` stands for `_find_function_context`.
   */
  ghost predicate ImportKept(r: Reference, originRel: string, imports: set<string>, readable: string -> bool,
                             context: (string, int, int) -> (Option<string>, Option<string>), similar: (string, string) -> bool)
  {
    || r.file == originRel
    || (DetectLanguage(r.file).Some?
        && (!readable(r.file)
            || exists path :: path in PotentialPaths(r, context(r.file, r.line, r.column)) && LikelyImportMatch(imports, path, similar)))
  }

  function Files(refs: seq<Reference>): (files: seq<string>)
    ensures |files| == |refs| && forall i :: 0 <= i < |refs| ==> files[i] == refs[i].file
  {
    if |refs| == 0 then [] else Files(refs[..|refs| - 1]) + [refs[|refs| - 1].file]
  }

  /** The references in file `f`, in order (one `refs_by_file` entry). */
  function RefsIn(refs: seq<Reference>, f: string): seq<Reference>
  {
    if |refs| == 0 then []
    else RefsIn(refs[..|refs| - 1], f) + (if refs[|refs| - 1].file == f then [refs[|refs| - 1]] else [])
  }

  ghost function KeptIn(rs: seq<Reference>, originRel: string, imports: set<string>, readable: string -> bool,
                        context: (string, int, int) -> (Option<string>, Option<string>), similar: (string, string) -> bool): seq<Reference>
  {
    if |rs| == 0 then []
    else
      var last := rs[|rs| - 1];
      KeptIn(rs[..|rs| - 1], originRel, imports, readable, context, similar)
      + (if ImportKept(last, originRel, imports, readable, context, similar) then [last] else [])
  }

  /** The kept references, file by file in the given order. */
  ghost function Grouped(files: seq<string>, refs: seq<Reference>, originRel: string, imports: set<string>, readable: string -> bool,
                         context: (string, int, int) -> (Option<string>, Option<string>), similar: (string, string) -> bool): seq<Reference>
  {
    if |files| == 0 then []
    else
      Grouped(files[..|files| - 1], refs, originRel, imports, readable, context, similar)
      + KeptIn(RefsIn(refs, files[|files| - 1]), originRel, imports, readable, context, similar)
  }

  /**
   * What `_filter_references_by_imports` returns. `originImports` is the
   * origin's `_extract_imports` result, None when parsing or reading the
   * origin raises; then, as for no references or an origin of unknown
   * language, the input comes back unchanged.
   */
  ghost function ImportFiltered(refs: seq<Reference>, originFile: string, originRel: string, originImports: Option<map<string, set<string>>>,
                                readable: string -> bool, context: (string, int, int) -> (Option<string>, Option<string>),
                                similar: (string, string) -> bool): seq<Reference>
  {
    if |refs| == 0 || DetectLanguage(originFile).None? || originImports.None? then refs
    else Grouped(Dedup(Files(refs)), refs, originRel, AllImports(originImports.value), readable, context, similar)
  }

  lemma {:induction false} RefsInMembers(refs: seq<Reference>, f: string, r: Reference)
    ensures r in RefsIn(refs, f) <==> r in refs && r.file == f
    decreases |refs|
  {
    if |refs| > 0 {
      RefsInMembers(refs[..|refs| - 1], f, r);
      assert refs == refs[..|refs| - 1] + [refs[|refs| - 1]];
    }
  }

  lemma {:induction false} KeptInMembers(rs: seq<Reference>, originRel: string, imports: set<string>, readable: string -> bool,
                                         context: (string, int, int) -> (Option<string>, Option<string>), similar: (string, string) -> bool,
                                         r: Reference)
    ensures r in KeptIn(rs, originRel, imports, readable, context, similar) <==> r in rs && ImportKept(r, originRel, imports, readable, context, similar)
    decreases |rs|
  {
    if |rs| > 0 {
      KeptInMembers(rs[..|rs| - 1], originRel, imports, readable, context, similar, r);
      assert rs == rs[..|rs| - 1] + [rs[|rs| - 1]];
    }
  }

  lemma {:induction false} GroupedMembers(files: seq<string>, refs: seq<Reference>, originRel: string, imports: set<string>,
                                          readable: string -> bool, context: (string, int, int) -> (Option<string>, Option<string>),
                                          similar: (string, string) -> bool, r: Reference)
    ensures r in Grouped(files, refs, originRel, imports, readable, context, similar)
            <==> r.file in files && r in refs && ImportKept(r, originRel, imports, readable, context, similar)
    decreases |files|
  {
    if |files| > 0 {
      var f := files[|files| - 1];
      GroupedMembers(files[..|files| - 1], refs, originRel, imports, readable, context, similar, r);
      KeptInMembers(RefsIn(refs, f), originRel, imports, readable, context, similar, r);
      RefsInMembers(refs, f, r);
      assert files == files[..|files| - 1] + [f];
    }
  }

  /** Once it runs, the import filter keeps exactly the references that pass, grouped by file. */
  lemma ImportFilteredMembers(refs: seq<Reference>, originFile: string, originRel: string, originImports: Option<map<string, set<string>>>,
                              readable: string -> bool, context: (string, int, int) -> (Option<string>, Option<string>),
                              similar: (string, string) -> bool, r: Reference)
    requires DetectLanguage(originFile).Some? && originImports.Some?
    ensures r in ImportFiltered(refs, originFile, originRel, originImports, readable, context, similar)
            <==> r in refs && ImportKept(r, originRel, AllImports(originImports.value), readable, context, similar)
  {
    if |refs| > 0 {
      var files, imports := Dedup(Files(refs)), AllImports(originImports.value);
      assert ImportFiltered(refs, originFile, originRel, originImports, readable, context, similar)
             == Grouped(files, refs, originRel, imports, readable, context, similar);
      if r in refs {
        FileListed(refs, r);
      }
      GroupedMembers(files, refs, originRel, imports, readable, context, similar, r);
    }
  }

  lemma FileListed(refs: seq<Reference>, r: Reference)
    requires r in refs
    ensures r.file in Dedup(Files(refs))
  {
    var i :| 0 <= i < |refs| && refs[i] == r;
    assert Files(refs)[i] == r.file;
  }

  /** Whether one reference of a parsed candidate file passes: some potential path is a likely import match. */
  method ReferencePasses(r: Reference, imports: map<string, set<string>>,
                         context: (string, int, int) -> (Option<string>, Option<string>), similar: (string, string) -> bool)
    returns (valid: bool)
    ensures valid <==> exists path :: path in PotentialPaths(r, context(r.file, r.line, r.column)) && LikelyImportMatch(AllImports(imports), path, similar)
  {
    var paths := PotentialPaths(r, context(r.file, r.line, r.column));
    valid := AnyLikelyImportMatch(paths, imports, similar);
  }

  /** The loop over the potential paths, stopping at the first likely import match. */
  method AnyLikelyImportMatch(paths: seq<string>, imports: map<string, set<string>>, similar: (string, string) -> bool)
    returns (valid: bool)
    ensures valid <==> exists path :: path in paths && LikelyImportMatch(AllImports(imports), path, similar)
  {
    var j := 0;
    while j < |paths|
      invariant 0 <= j <= |paths|
      invariant forall k :: 0 <= k < j ==> !LikelyImportMatch(AllImports(imports), paths[k], similar)
    {
      var likely := IsLikelyImportMatch(imports, paths[j], similar);
      if likely {
        return true;
      }
      j := j + 1;
    }
    return false;
  }

  lemma RefsInSnoc(refs: seq<Reference>, r: Reference, f: string)
    ensures RefsIn(refs + [r], f) == RefsIn(refs, f) + (if r.file == f then [r] else [])
  {
    assert (refs + [r])[..|refs|] == refs;
  }

  lemma FilesSnoc(refs: seq<Reference>, r: Reference)
    ensures Files(refs + [r]) == Files(refs) + [r.file]
  {
    assert (refs + [r])[..|refs|] == refs;
  }

  /** Every reference grouped under `f` lies in `f`. */
  lemma RefsInFile(refs: seq<Reference>, f: string)
    ensures forall r :: r in RefsIn(refs, f) ==> r.file == f
  {
    forall r | r in RefsIn(refs, f) ensures r.file == f {
      RefsInMembers(refs, f, r);
    }
  }

  lemma {:induction false} RefsInAbsent(refs: seq<Reference>, f: string)
    requires f !in Files(refs)
    ensures RefsIn(refs, f) == []
    decreases |refs|
  {
    if |refs| > 0 {
      assert Files(refs)[|refs| - 1] == refs[|refs| - 1].file;
      assert forall k :: 0 <= k < |refs| - 1 ==> Files(refs[..|refs| - 1])[k] == Files(refs)[k];
      RefsInAbsent(refs[..|refs| - 1], f);
    }
  }

  /** The files of `refs`, each once, in order of first appearance. */
  function FileOrder(refs: seq<Reference>): seq<string>
  {
    if |refs| == 0 then []
    else
      var o := FileOrder(refs[..|refs| - 1]);
      if refs[|refs| - 1].file in o then o else o + [refs[|refs| - 1].file]
  }

  /** `FileOrder` is `list(set(...))` of the files taken in first-occurrence order. */
  lemma {:induction false} FileOrderDedup(refs: seq<Reference>)
    ensures FileOrder(refs) == Dedup(Files(refs))
  {
    if |refs| > 0 {
      var n := |refs| - 1;
      FileOrderDedup(refs[..n]);
      assert refs == refs[..n] + [refs[n]];
      FilesSnoc(refs[..n], refs[n]);
      DedupSnoc(Files(refs[..n]), refs[n].file);
    }
  }

  /** `byFile` and `order` group `done` by file, keys in order of first appearance. */
  ghost predicate GroupsOf(byFile: map<string, seq<Reference>>, order: seq<string>, done: seq<Reference>)
  {
    && order == FileOrder(done)
    && (forall f :: f in byFile <==> f in order)
    && (forall f :: f in byFile ==> byFile[f] == RefsIn(done, f))
  }

  /** One reference appended to its file's group, opening the group when it is new. */
  lemma GroupsOfSnoc(byFile: map<string, seq<Reference>>, order: seq<string>, done: seq<Reference>, r: Reference)
    requires GroupsOf(byFile, order, done)
    ensures r.file in byFile ==> GroupsOf(byFile[r.file := byFile[r.file] + [r]], order, done + [r])
    ensures r.file !in byFile ==> GroupsOf(byFile[r.file := [r]], order + [r.file], done + [r])
  {
    assert (done + [r])[..|done|] == done;
    if r.file in byFile {
      assert FileOrder(done + [r]) == order;
      GroupsOfSnocKnown(byFile, order, done, r);
    } else {
      assert FileOrder(done + [r]) == order + [r.file];
      GroupsOfSnocNew(byFile, order, done, r);
    }
  }

  /** A reference in a file that already has a group is appended to that group. */
  lemma GroupsOfSnocKnown(byFile: map<string, seq<Reference>>, order: seq<string>, done: seq<Reference>, r: Reference)
    requires forall f :: f in byFile <==> f in order
    requires forall f :: f in byFile ==> byFile[f] == RefsIn(done, f)
    requires r.file in byFile
    ensures forall f :: f in byFile[r.file := byFile[r.file] + [r]] <==> f in order
    ensures forall f :: f in byFile[r.file := byFile[r.file] + [r]] ==>
              byFile[r.file := byFile[r.file] + [r]][f] == RefsIn(done + [r], f)
  {
    var next := byFile[r.file := byFile[r.file] + [r]];
    forall f | f in next ensures next[f] == RefsIn(done + [r], f) {
      if f != r.file {
        RefsInSnocOther(done, r, f);
      } else {
        RefsInSnocSame(done, r);
      }
    }
  }

  /** A reference in a file without a group opens one, last in the key order. */
  lemma GroupsOfSnocNew(byFile: map<string, seq<Reference>>, order: seq<string>, done: seq<Reference>, r: Reference)
    requires forall f :: f in byFile <==> f in order
    requires forall f :: f in byFile ==> byFile[f] == RefsIn(done, f)
    requires r.file !in byFile && order == FileOrder(done)
    ensures forall f :: f in byFile[r.file := [r]] <==> f in order + [r.file]
    ensures forall f :: f in byFile[r.file := [r]] ==> byFile[r.file := [r]][f] == RefsIn(done + [r], f)
  {
    var next := byFile[r.file := [r]];
    forall f | f in next ensures next[f] == RefsIn(done + [r], f) {
      if f != r.file {
        RefsInSnocOther(done, r, f);
      } else {
        assert r.file !in order;
        FileOrderDedup(done);
        RefsInSnocFirst(done, r);
      }
    }
  }

  /** A reference in another file leaves `f`'s group as it was. */
  lemma RefsInSnocOther(done: seq<Reference>, r: Reference, f: string)
    requires r.file != f
    ensures RefsIn(done + [r], f) == RefsIn(done, f)
  {
    RefsInSnoc(done, r, f);
    assert RefsIn(done, f) + [] == RefsIn(done, f);
  }

  /** A reference is appended to its own file's group. */
  lemma RefsInSnocSame(done: seq<Reference>, r: Reference)
    ensures RefsIn(done + [r], r.file) == RefsIn(done, r.file) + [r]
  {
    RefsInSnoc(done, r, r.file);
  }

  /** The first reference in a file makes a group of one. */
  lemma RefsInSnocFirst(done: seq<Reference>, r: Reference)
    requires r.file !in Dedup(Files(done))
    ensures RefsIn(done + [r], r.file) == [r]
  {
    assert r.file !in Files(done);
    RefsInAbsent(done, r.file);
    RefsInSnoc(done, r, r.file);
  }

  /** The grouping loop: `refs_by_file` and its key order. */
  method GroupByFile(refs: seq<Reference>) returns (byFile: map<string, seq<Reference>>, order: seq<string>)
    ensures order == Dedup(Files(refs))
    ensures forall f :: f in byFile <==> f in order
    ensures forall f :: f in byFile ==> byFile[f] == RefsIn(refs, f)
  {
    byFile, order := map[], [];
    var i := 0;
    while i < |refs|
      invariant 0 <= i <= |refs|
      invariant GroupsOf(byFile, order, refs[..i])
    {
      var r := refs[i];
      assert refs[..i + 1] == refs[..i] + [r];
      GroupsOfSnoc(byFile, order, refs[..i], r);
      if r.file in byFile {
        byFile := byFile[r.file := byFile[r.file] + [r]];
      } else {
        byFile := byFile[r.file := [r]];
        order := order + [r.file];
      }
      i := i + 1;
    }
    assert refs[..i] == refs;
    FileOrderDedup(refs);
  }

  /** All of a file's references pass when each does. */
  lemma {:induction false} KeptInAll(rs: seq<Reference>, originRel: string, imports: set<string>, readable: string -> bool,
                                     context: (string, int, int) -> (Option<string>, Option<string>), similar: (string, string) -> bool)
    requires forall r :: r in rs ==> ImportKept(r, originRel, imports, readable, context, similar)
    ensures KeptIn(rs, originRel, imports, readable, context, similar) == rs
    decreases |rs|
  {
    if |rs| > 0 {
      var init, last := rs[..|rs| - 1], rs[|rs| - 1];
      forall r | r in init ensures ImportKept(r, originRel, imports, readable, context, similar) {
        assert r in rs;
      }
      KeptInAll(init, originRel, imports, readable, context, similar);
      assert last in rs;
      assert init + [last] == rs;
    }
  }

  /** None of a file's references pass when none does. */
  lemma {:induction false} KeptInNone(rs: seq<Reference>, originRel: string, imports: set<string>, readable: string -> bool,
                                      context: (string, int, int) -> (Option<string>, Option<string>), similar: (string, string) -> bool)
    requires forall r :: r in rs ==> !ImportKept(r, originRel, imports, readable, context, similar)
    ensures KeptIn(rs, originRel, imports, readable, context, similar) == []
    decreases |rs|
  {
    if |rs| > 0 {
      KeptInNone(rs[..|rs| - 1], originRel, imports, readable, context, similar);
    }
  }

  /** The per-file loop for a parsed candidate file. */
  method KeepPassing(rs: seq<Reference>, originRel: string, imports: map<string, set<string>>, readable: string -> bool,
                     context: (string, int, int) -> (Option<string>, Option<string>), similar: (string, string) -> bool)
    returns (kept: seq<Reference>)
    requires forall r :: r in rs ==> r.file != originRel && DetectLanguage(r.file).Some? && readable(r.file)
    ensures kept == KeptIn(rs, originRel, AllImports(imports), readable, context, similar)
  {
    kept := [];
    var k := 0;
    while k < |rs|
      invariant 0 <= k <= |rs|
      invariant kept == KeptIn(rs[..k], originRel, AllImports(imports), readable, context, similar)
    {
      assert rs[..k + 1][..k] == rs[..k];
      var valid := ReferencePasses(rs[k], imports, context, similar);
      if valid {
        kept := kept + [rs[k]];
      }
      k := k + 1;
    }
    assert rs[..k] == rs;
  }

  /** The body of the loop over `refs_by_file` for one file `f`. */
  method FilterFile(f: string, fileRefs: seq<Reference>, originRel: string, imports: map<string, set<string>>, readable: string -> bool,
                    context: (string, int, int) -> (Option<string>, Option<string>), similar: (string, string) -> bool)
    returns (kept: seq<Reference>)
    requires forall r :: r in fileRefs ==> r.file == f
    ensures kept == KeptIn(fileRefs, originRel, AllImports(imports), readable, context, similar)
  {
    ghost var all := AllImports(imports);
    if f == originRel {
      KeptInAll(fileRefs, originRel, all, readable, context, similar);
      kept := fileRefs;
    } else if DetectLanguage(f).None? {
      KeptInNone(fileRefs, originRel, all, readable, context, similar);
      kept := [];
    } else if !readable(f) {
      KeptInAll(fileRefs, originRel, all, readable, context, similar);
      kept := fileRefs;
    } else {
      kept := KeepPassing(fileRefs, originRel, imports, readable, context, similar);
    }
  }

  /** The loop over `refs_by_file`, file by file in key order. */
  method FilterGroups(order: seq<string>, byFile: map<string, seq<Reference>>, refs: seq<Reference>, originRel: string,
                      imports: map<string, set<string>>, readable: string -> bool,
                      context: (string, int, int) -> (Option<string>, Option<string>), similar: (string, string) -> bool)
    returns (filtered: seq<Reference>)
    requires forall f :: f in order ==> f in byFile && byFile[f] == RefsIn(refs, f)
    ensures filtered == Grouped(order, refs, originRel, AllImports(imports), readable, context, similar)
  {
    ghost var all := AllImports(imports);
    filtered := [];
    var j := 0;
    while j < |order|
      invariant 0 <= j <= |order|
      invariant filtered == Grouped(order[..j], refs, originRel, all, readable, context, similar)
    {
      var f := order[j];
      assert order[..j + 1] == order[..j] + [f];
      RefsInFile(refs, f);
      var kept := FilterFile(f, byFile[f], originRel, imports, readable, context, similar);
      filtered := filtered + kept;
      j := j + 1;
    }
    assert order[..j] == order;
  }

  /** `_filter_references_by_imports`. */
  method FilterReferencesByImports(refs: seq<Reference>, originFile: string, originRel: string,
                                   originImports: Option<map<string, set<string>>>, readable: string -> bool,
                                   context: (string, int, int) -> (Option<string>, Option<string>), similar: (string, string) -> bool)
    returns (filtered: seq<Reference>)
    ensures filtered == ImportFiltered(refs, originFile, originRel, originImports, readable, context, similar)
  {
    if |refs| == 0 || DetectLanguage(originFile).None? || originImports.None? {
      return refs;
    }
    var byFile, order := GroupByFile(refs);
    filtered := FilterGroups(order, byFile, refs, originRel, originImports.value, readable, context, similar);
  }

  /** One `files_to_process` entry: 0 for the origin's language, 1 otherwise. */
  datatype Entry = Entry(priority: int, path: string, language: Language)

  /**
   * The entries `os.walk` yields, in walk order: every file of a known
   * language. `walk` lists the repository's files in the order the walk
   * visits them.
   */
  function Candidates(walk: seq<string>, originLanguage: Language): (es: seq<Entry>)
    ensures forall e :: e in es ==> e.path in walk && DetectLanguage(e.path) == Some(e.language)
                                    && e.priority == (if e.language == originLanguage then 0 else 1)
  {
    if |walk| == 0 then []
    else
      var path := walk[|walk| - 1];
      Candidates(walk[..|walk| - 1], originLanguage)
      + match DetectLanguage(path)
        case None => []
        case Some(l) => [Entry(if l == originLanguage then 0 else 1, path, l)]
  }

  /** The entries of priority `p`, in order. */
  function Having(es: seq<Entry>, p: int): seq<Entry>
  {
    if |es| == 0 then []
    else Having(es[..|es| - 1], p) + (if es[|es| - 1].priority == p then [es[|es| - 1]] else [])
  }

  /** `files_to_process.sort(key=priority)`: a stable sort on a key that is 0 or 1. */
  function ByPriority(es: seq<Entry>): seq<Entry>
  {
    Having(es, 0) + Having(es, 1)
  }

  lemma {:induction false} HavingMembers(es: seq<Entry>, p: int)
    ensures forall e :: e in Having(es, p) <==> e in es && e.priority == p
    ensures multiset(Having(es, p)) <= multiset(es)
    decreases |es|
  {
    if |es| > 0 {
      HavingMembers(es[..|es| - 1], p);
      assert es == es[..|es| - 1] + [es[|es| - 1]];
    }
  }

  lemma {:induction false} HavingSplit(es: seq<Entry>)
    requires forall e :: e in es ==> e.priority == 0 || e.priority == 1
    ensures multiset(Having(es, 0)) + multiset(Having(es, 1)) == multiset(es)
    decreases |es|
  {
    if |es| > 0 {
      var init, e := es[..|es| - 1], es[|es| - 1];
      assert es == init + [e];
      assert forall x :: x in init ==> x in es;
      HavingSplit(init);
      assert multiset(es) == multiset(init) + multiset{e};
      if e.priority == 0 {
        assert Having(es, 0) == Having(init, 0) + [e] && Having(es, 1) == Having(init, 1);
      } else {
        assert Having(es, 0) == Having(init, 0) && Having(es, 1) == Having(init, 1) + [e];
      }
    }
  }

  lemma {:induction false} HavingOfHaving(es: seq<Entry>, p: int, q: int)
    ensures Having(Having(es, p), q) == if p == q then Having(es, p) else []
    decreases |es|
  {
    if |es| > 0 {
      var init := es[..|es| - 1];
      var e := es[|es| - 1];
      HavingOfHaving(init, p, q);
      HavingAppend(Having(init, p), if e.priority == p then [e] else [], q);
    }
  }

  lemma {:induction false} HavingAppend(a: seq<Entry>, b: seq<Entry>, p: int)
    ensures Having(a + b, p) == Having(a, p) + Having(b, p)
    decreases |b|
  {
    if |b| == 0 {
      assert a + b == a;
    } else {
      assert (a + b)[..|a + b| - 1] == a + b[..|b| - 1];
      HavingAppend(a, b[..|b| - 1], p);
    }
  }

  /**
   * The ordering is the stable sort: all priority-0 entries before all
   * priority-1 entries, the same entries, and within each priority the walk
   * order.
   */
  lemma ByPriorityIsStableSort(es: seq<Entry>)
    requires forall e :: e in es ==> e.priority == 0 || e.priority == 1
    ensures forall i, j :: 0 <= i < j < |ByPriority(es)| ==> ByPriority(es)[i].priority <= ByPriority(es)[j].priority
    ensures multiset(ByPriority(es)) == multiset(es)
    ensures Having(ByPriority(es), 0) == Having(es, 0) && Having(ByPriority(es), 1) == Having(es, 1)
  {
    HavingMembers(es, 0);
    HavingMembers(es, 1);
    HavingSplit(es);
    var sorted := ByPriority(es);
    forall i, j | 0 <= i < j < |sorted| ensures sorted[i].priority <= sorted[j].priority {
      if i >= |Having(es, 0)| {
        assert sorted[i] in Having(es, 1) && sorted[j] in Having(es, 1);
      } else {
        assert sorted[i] in Having(es, 0);
      }
    }
    HavingAppend(Having(es, 0), Having(es, 1), 0);
    HavingAppend(Having(es, 0), Having(es, 1), 1);
    HavingOfHaving(es, 0, 0);
    HavingOfHaving(es, 1, 0);
    HavingOfHaving(es, 0, 1);
    HavingOfHaving(es, 1, 1);
  }

  /** The per-file results of a run, one list per entry, concatenated in entry order. */
  ghost function Concat(es: seq<Entry>, perFile: Entry -> seq<Reference>): seq<Reference>
  {
    if |es| == 0 then [] else Concat(es[..|es| - 1], perFile) + perFile(es[|es| - 1])
  }

  /** `find_references_in_file` on an entry, scope-filtering only the origin's language. */
  ghost function FileResults(name: string, originLine: int, originColumn: int, originLanguage: Language,
                             parsed: string -> Option<Node>): Entry -> seq<Reference>
  {
    (e: Entry) => FileReferences(e.path, name, originLine, originColumn, e.language == originLanguage, parsed(e.path))
  }

  /** The concatenated per-file results. */
  ghost function RawReferences(es: seq<Entry>, name: string, originLine: int, originColumn: int, originLanguage: Language,
                               parsed: string -> Option<Node>): seq<Reference>
  {
    Concat(es, FileResults(name, originLine, originColumn, originLanguage, parsed))
  }

  lemma {:induction false} ConcatMembers(es: seq<Entry>, perFile: Entry -> seq<Reference>, r: Reference)
    ensures r in Concat(es, perFile) <==> exists e :: e in es && r in perFile(e)
    decreases |es|
  {
    if |es| > 0 {
      var init, last := es[..|es| - 1], es[|es| - 1];
      ConcatMembers(init, perFile, r);
      assert es == init + [last];
      if r in Concat(es, perFile) && r !in perFile(last) {
        var e :| e in init && r in perFile(e);
        assert e in es;
      }
      if exists e :: e in es && r in perFile(e) {
        var e :| e in es && r in perFile(e);
        assert e == last || e in init;
      }
    }
  }

  lemma {:induction false} ConcatAppend(a: seq<Entry>, b: seq<Entry>, perFile: Entry -> seq<Reference>)
    ensures Concat(a + b, perFile) == Concat(a, perFile) + Concat(b, perFile)
    decreases |b|
  {
    if |b| == 0 {
      assert a + b == a;
    } else {
      assert (a + b)[..|a + b| - 1] == a + b[..|b| - 1];
      ConcatAppend(a, b[..|b| - 1], perFile);
    }
  }

  /**
   * What `find_references_in_repo` returns. Paths are relative to the
   * repository root; `parsed` gives each file's tree (None when reading or
   * parsing it raises) and also decides whether the import filter can read
   * a candidate file.
   */
  ghost function RepoReferences(name: string, originFile: string, originLine: int, originColumn: int, walk: seq<string>,
                                parsed: string -> Option<Node>, originImports: Option<map<string, set<string>>>,
                                context: (string, int, int) -> (Option<string>, Option<string>), similar: (string, string) -> bool)
    : seq<Reference>
  {
    match DetectLanguage(originFile)
    case None => []
    case Some(l) =>
      var raw := RawReferences(ByPriority(Candidates(walk, l)), name, originLine, originColumn, l, parsed);
      ImportFiltered(raw, originFile, originFile, originImports, f => parsed(f).Some?, context, similar)
  }

  /** The loop over the sorted entries, extending `all_references`. */
  method CollectReferences(es: seq<Entry>, name: string, originLine: int, originColumn: int, originLanguage: Language,
                           parsed: string -> Option<Node>) returns (all: seq<Reference>)
    ensures all == RawReferences(es, name, originLine, originColumn, originLanguage, parsed)
  {
    ghost var perFile := FileResults(name, originLine, originColumn, originLanguage, parsed);
    all := [];
    var i := 0;
    while i < |es|
      invariant 0 <= i <= |es|
      invariant all == Concat(es[..i], perFile)
    {
      var e := es[i];
      assert es[..i + 1][..i] == es[..i];
      var refs := FindReferencesInFile(e.path, name, originLine, originColumn, e.language == originLanguage, parsed(e.path));
      assert refs == perFile(e);
      all := all + refs;
      i := i + 1;
    }
    assert es[..i] == es;
  }

  /** The `os.walk` loop that builds `files_to_process`. */
  method ListCandidates(walk: seq<string>, originLanguage: Language) returns (es: seq<Entry>)
    ensures es == Candidates(walk, originLanguage)
  {
    es := [];
    var i := 0;
    while i < |walk|
      invariant 0 <= i <= |walk|
      invariant es == Candidates(walk[..i], originLanguage)
    {
      assert walk[..i + 1][..i] == walk[..i];
      var language := DetectLanguage(walk[i]);
      if language.Some? {
        es := es + [Entry(if language.value == originLanguage then 0 else 1, walk[i], language.value)];
      }
      i := i + 1;
    }
    assert walk[..i] == walk;
  }

  /** `find_references_in_repo`. */
  method FindReferencesInRepo(name: string, originFile: string, originLine: int, originColumn: int, walk: seq<string>,
                              parsed: string -> Option<Node>, originImports: Option<map<string, set<string>>>,
                              context: (string, int, int) -> (Option<string>, Option<string>), similar: (string, string) -> bool)
    returns (references: seq<Reference>)
    ensures references == RepoReferences(name, originFile, originLine, originColumn, walk, parsed, originImports, context, similar)
  {
    var originLanguage := DetectLanguage(originFile);
    if originLanguage.None? {
      return [];
    }
    var es := ListCandidates(walk, originLanguage.value);
    var all := CollectReferences(ByPriority(es), name, originLine, originColumn, originLanguage.value, parsed);
    references := FilterReferencesByImports(all, originFile, originFile, originImports, f => parsed(f).Some?, context, similar);
  }

  /** Every concatenated reference names the target, lies in a listed file and is not at the origin position. */
  lemma RawReferencesShape(es: seq<Entry>, name: string, originLine: int, originColumn: int,
                           originLanguage: Language, parsed: string -> Option<Node>, r: Reference)
    requires r in RawReferences(es, name, originLine, originColumn, originLanguage, parsed)
    ensures r.name == name && !(r.line == originLine && r.column == originColumn)
    ensures exists e :: e in es && e.path == r.file
  {
    var perFile := FileResults(name, originLine, originColumn, originLanguage, parsed);
    ConcatMembers(es, perFile, r);
    var e :| e in es && r in perFile(e);
    FileReferencesShape(e.path, name, originLine, originColumn, e.language == originLanguage, parsed(e.path));
  }

  lemma FileReferencesShape(file: string, name: string, originLine: int, originColumn: int, filterScope: bool, parsed: Option<Node>)
    ensures forall r :: r in FileReferences(file, name, originLine, originColumn, filterScope, parsed)
                        ==> r.file == file && r.name == name && !(r.line == originLine && r.column == originColumn)
  {
    var refs := FileReferences(file, name, originLine, originColumn, filterScope, parsed);
    forall r | r in refs ensures r.file == file && r.name == name && !(r.line == originLine && r.column == originColumn) {
      var l := DetectLanguage(file).value;
      var root := parsed.value;
      WithoutOriginSpec(FileCandidates(root, l, name, originLine, originColumn, filterScope), file, name, originLine, originColumn, r);
    }
  }

  /**
   * The origin position is never reported, in any file, and every reported
   * reference names the target and lies in a walked file of known language.
   */
  lemma RepoReferencesShape(name: string, originFile: string, originLine: int, originColumn: int, walk: seq<string>,
                            parsed: string -> Option<Node>, originImports: Option<map<string, set<string>>>,
                            context: (string, int, int) -> (Option<string>, Option<string>), similar: (string, string) -> bool,
                            r: Reference)
    requires r in RepoReferences(name, originFile, originLine, originColumn, walk, parsed, originImports, context, similar)
    ensures r.name == name && !(r.line == originLine && r.column == originColumn)
    ensures r.file in walk && DetectLanguage(r.file).Some?
  {
    var l := DetectLanguage(originFile).value;
    var es := Candidates(walk, l);
    var raw := RawReferences(ByPriority(es), name, originLine, originColumn, l, parsed);
    if |raw| > 0 && originImports.Some? {
      ImportFilteredMembers(raw, originFile, originFile, originImports, f => parsed(f).Some?, context, similar, r);
    }
    assert r in raw;
    RawReferencesShape(ByPriority(es), name, originLine, originColumn, l, parsed, r);
    var e :| e in ByPriority(es) && e.path == r.file;
    HavingMembers(es, 0);
    HavingMembers(es, 1);
    assert e in es;
  }

  /** Every path of language `l` comes before every path of another language. */
  ghost predicate SameLanguageFirst(paths: seq<string>, l: Language)
  {
    forall i, j :: 0 <= i < j < |paths| && DetectLanguage(paths[j]) == Some(l) ==> DetectLanguage(paths[i]) == Some(l)
  }

  lemma SplitOrder(ra: seq<Reference>, rb: seq<Reference>, l: Language)
    requires forall r :: r in ra ==> DetectLanguage(r.file) == Some(l)
    requires forall r :: r in rb ==> DetectLanguage(r.file) != Some(l)
    ensures SameLanguageFirst(Files(ra + rb), l)
  {
    var raw := ra + rb;
    var files := Files(raw);
    forall i, j | 0 <= i < j < |files| && DetectLanguage(files[j]) == Some(l) ensures DetectLanguage(files[i]) == Some(l) {
      assert files[i] == raw[i].file && files[j] == raw[j].file;
      assert raw[i] == ra[i];
    }
  }

  /** Before the import filter, references in the origin's language come first. */
  lemma RawReferencesOrder(walk: seq<string>, name: string, originLine: int, originColumn: int, l: Language,
                           parsed: string -> Option<Node>)
    ensures SameLanguageFirst(Files(RawReferences(ByPriority(Candidates(walk, l)), name, originLine, originColumn, l, parsed)), l)
  {
    var c := Candidates(walk, l);
    var a, b := Having(c, 0), Having(c, 1);
    ConcatAppend(a, b, FileResults(name, originLine, originColumn, l, parsed));
    var ra := RawReferences(a, name, originLine, originColumn, l, parsed);
    var rb := RawReferences(b, name, originLine, originColumn, l, parsed);
    forall r | r in ra ensures DetectLanguage(r.file) == Some(l) {
      RawReferencesShape(a, name, originLine, originColumn, l, parsed, r);
      var e :| e in a && e.path == r.file;
      HavingMembers(c, 0);
    }
    forall r | r in rb ensures DetectLanguage(r.file) != Some(l) {
      RawReferencesShape(b, name, originLine, originColumn, l, parsed, r);
      var e :| e in b && e.path == r.file;
      HavingMembers(c, 1);
    }
    SplitOrder(ra, rb, l);
  }

  lemma {:induction false} DedupOrder(paths: seq<string>, l: Language)
    requires SameLanguageFirst(paths, l)
    ensures SameLanguageFirst(Dedup(paths), l)
    decreases |paths|
  {
    if |paths| > 0 {
      var init, last := paths[..|paths| - 1], paths[|paths| - 1];
      DedupOrder(init, l);
      var d := Dedup(paths);
      if last !in Dedup(init) && DetectLanguage(last) == Some(l) {
        forall k | 0 <= k < |d| ensures DetectLanguage(d[k]) == Some(l) {
          if k < |d| - 1 {
            var m :| 0 <= m < |paths| && paths[m] == d[k];
            if m < |paths| - 1 {
              assert DetectLanguage(paths[|paths| - 1]) == Some(l);
            }
          }
        }
      }
    }
  }

  lemma {:induction false} GroupedOrder(files: seq<string>, refs: seq<Reference>, originRel: string, imports: set<string>,
                                        readable: string -> bool, context: (string, int, int) -> (Option<string>, Option<string>),
                                        similar: (string, string) -> bool, l: Language)
    requires SameLanguageFirst(files, l)
    ensures SameLanguageFirst(Files(Grouped(files, refs, originRel, imports, readable, context, similar)), l)
    decreases |files|
  {
    if |files| > 0 {
      var init, f := files[..|files| - 1], files[|files| - 1];
      GroupedOrder(init, refs, originRel, imports, readable, context, similar, l);
      var before := Grouped(init, refs, originRel, imports, readable, context, similar);
      var added := KeptIn(RefsIn(refs, f), originRel, imports, readable, context, similar);
      forall r | r in added ensures r.file == f {
        KeptInMembers(RefsIn(refs, f), originRel, imports, readable, context, similar, r);
        RefsInMembers(refs, f, r);
      }
      if DetectLanguage(f) == Some(l) {
        forall r | r in before ensures DetectLanguage(r.file) == Some(l) {
          GroupedMembers(init, refs, originRel, imports, readable, context, similar, r);
          var m :| 0 <= m < |init| && init[m] == r.file;
          assert files[m] == init[m];
        }
      }
      AppendGroupOrder(before, added, f, l);
    }
  }

  /** Appending one file's references keeps the language's files first. */
  lemma AppendGroupOrder(before: seq<Reference>, added: seq<Reference>, f: string, l: Language)
    requires SameLanguageFirst(Files(before), l)
    requires forall r :: r in added ==> r.file == f
    requires DetectLanguage(f) == Some(l) ==> forall r :: r in before ==> DetectLanguage(r.file) == Some(l)
    ensures SameLanguageFirst(Files(before + added), l)
  {
    var out := before + added;
    var fs, fb := Files(out), Files(before);
    forall i, j | 0 <= i < j < |fs| && DetectLanguage(fs[j]) == Some(l) ensures DetectLanguage(fs[i]) == Some(l) {
      assert fs[i] == out[i].file && fs[j] == out[j].file;
      if j < |before| {
        assert out[i] == before[i] && out[j] == before[j];
        assert fb[i] == before[i].file && fb[j] == before[j].file;
      } else {
        var a := added[j - |before|];
        assert out[j] == a && a in added;
        if i < |before| {
          var b := before[i];
          assert out[i] == b && b in before;
        } else {
          var b := added[i - |before|];
          assert out[i] == b && b in added;
        }
      }
    }
  }

  /**
   * `find_references_in_repo` reports the references in files of the
   * origin's language before all others, with or without the import filter.
   */
  lemma RepoReferencesOrder(name: string, originFile: string, originLine: int, originColumn: int, walk: seq<string>,
                            parsed: string -> Option<Node>, originImports: Option<map<string, set<string>>>,
                            context: (string, int, int) -> (Option<string>, Option<string>), similar: (string, string) -> bool)
    requires DetectLanguage(originFile).Some?
    ensures SameLanguageFirst(Files(RepoReferences(name, originFile, originLine, originColumn, walk, parsed, originImports, context, similar)),
                              DetectLanguage(originFile).value)
  {
    var l := DetectLanguage(originFile).value;
    var raw := RawReferences(ByPriority(Candidates(walk, l)), name, originLine, originColumn, l, parsed);
    RawReferencesOrder(walk, name, originLine, originColumn, l, parsed);
    if |raw| > 0 && originImports.Some? {
      DedupOrder(Files(raw), l);
      GroupedOrder(Dedup(Files(raw)), raw, originFile, AllImports(originImports.value), f => parsed(f).Some?, context, similar, l);
    }
  }
}
