// The call-graph builder: per-file extraction of definitions and calls from
// a syntax tree, the symmetric calls / called_by graph update, and the
// strongly-connected-component pass that compresses the graph.
module CallsParser {
  import opened Wrappers
  import opened PyStrings
  import opened SeqUtil
  import opened SyntaxTree
  import opened SourceLanguages

  /** Library roots whose calls are not recorded, per language. */
  function IgnoreLibs(l: Language): set<string>
  {
    match l
    case Python => {"numpy", "pandas", "collections", "os", "sys", "logging", "re", "datetime", "json", "itertools"}
    case Go => {"fmt", "io", "net", "http", "os", "sync", "context", "time", "bytes", "errors"}
    case Java => {"java", "javax", "org.slf4j", "com.google", "com.fasterxml", "junit", "org.apache",
                  "javax.servlet", "org.w3c", "org.xml"}
    case Kotlin => {"kotlin", "java", "org.jetbrains", "android", "com.google", "io.reactivex",
                    "com.squareup", "org.json", "org.w3c", "javax"}
  }

  /** Node kinds that are calls, per language. */
  function CallNodeTypes(l: Language): set<string>
  {
    match l
    case Python => {"call", "function_call"}
    case Java => {"method_invocation"}
    case Kotlin => {"call_expression"}
    case Go => {"call_expression"}
  }

  /** `_get_node_text`: the text of a node, None for a missing node. */
  function NodeText(n: Option<Node>): (r: Option<string>)
    ensures r.Some? <==> n.Some?
    ensures n.Some? ==> r.value == n.value.text
  {
    if n.None? then None else Some(n.value.text)
  }

  /** Python `a or b` on optional nodes (a node is always truthy). */
  function OrElse(a: Option<Node>, b: Option<Node>): Option<Node>
  {
    if a.Some? then a else b
  }

  /** The first child of kind "identifier". */
  function FirstIdentifierChild(cs: seq<Node>): (r: Option<Node>)
    ensures r.Some? ==> r.value in cs && r.value.kind == "identifier"
    ensures r.None? ==> forall i :: 0 <= i < |cs| ==> cs[i].kind != "identifier"
  {
    if |cs| == 0 then None
    else if cs[0].kind == "identifier" then Some(cs[0])
    else FirstIdentifierChild(cs[1..])
  }

  /**
   * `_extract_function_name`: a selector or member expression gives
   * "left.right" from its object/operand and name/field children when both
   * are truthy, and None otherwise; a method invocation gives its name
   * field; a call expression gives its first "identifier" child; any other
   * node gives its own text.
   */
  function ExtractFunctionName(n: Option<Node>): (r: Option<string>)
  {
    if n.None? then None else ExtractName(n.value)
  }

  function ExtractName(node: Node): (r: Option<string>)
    decreases node
  {
    if node.kind == "selector_expression" || node.kind == "member_expression" then
      var leftNode := OrElse(ChildByField(node, "object"), ChildByField(node, "operand"));
      var rightNode := OrElse(ChildByField(node, "name"), ChildByField(node, "field"));
      var left := if leftNode.None? then None else ExtractName(leftNode.value);
      var right := if rightNode.None? then None else ExtractName(rightNode.value);
      if Truthy(left) && Truthy(right) then Some(left.value + "." + right.value) else None
    else if node.kind == "method_invocation" then
      NodeText(ChildByField(node, "name"))
    else if node.kind == "call_expression" then
      NodeText(FirstIdentifierChild(node.children))
    else
      Some(node.text)
  }

  /** A selector or member name is "left.right" exactly when both sides resolve to non-empty names. */
  lemma SelectorName(node: Node)
    requires node.kind == "selector_expression" || node.kind == "member_expression"
    ensures var left := ExtractFunctionName(OrElse(ChildByField(node, "object"), ChildByField(node, "operand")));
            var right := ExtractFunctionName(OrElse(ChildByField(node, "name"), ChildByField(node, "field")));
            && (Truthy(left) && Truthy(right) ==> ExtractFunctionName(Some(node)) == Some(left.value + "." + right.value))
            && (!(Truthy(left) && Truthy(right)) ==> ExtractFunctionName(Some(node)).None?)
  {
  }

  /** Only a missing node, a nameless method invocation, a call expression without an identifier child, or an unresolved selector give None. */
  lemma ExtractFunctionNameNone(node: Node)
    requires ExtractFunctionName(Some(node)).None?
    ensures node.kind in {"selector_expression", "member_expression", "method_invocation", "call_expression"}
    ensures node.kind == "method_invocation" ==> ChildByField(node, "name").None?
    ensures node.kind == "call_expression" ==> forall i :: 0 <= i < |node.children| ==> node.children[i].kind != "identifier"
  {
  }

  /** A definition found by the walk: its name (None when the name field is missing) and 1-based lines. */
  datatype FunctionRecord = FunctionRecord(name: Option<string>, startLine: int, endLine: int)

  /** What the walk collects: definitions and (caller, callee) pairs, in pre-order. */
  datatype Collected = Collected(functions: seq<FunctionRecord>, calls: seq<(string, string)>)

  function Concat(a: Collected, b: Collected): Collected
  {
    Collected(a.functions + b.functions, a.calls + b.calls)
  }

  /** Definition kinds per language: Python functions and classes, Go functions, Java/Kotlin methods, classes and functions. */
  predicate IsDefinition(l: Language, kind: string)
  {
    match l
    case Python => kind in {"function_definition", "class_definition"}
    case Go => kind == "function_declaration"
    case _ => kind in {"method_declaration", "class_declaration", "function_declaration"}
  }

  /**
   * The definition step of `walk`: a definition node is recorded with its
   * name field's text and becomes the enclosing function of what lies below
   * it; Java and Kotlin definitions without a name field are skipped.
   */
  function DefinitionStep(node: Node, l: Language, parent: Option<string>): (r: (seq<FunctionRecord>, Option<string>))
    ensures |r.0| <= 1
    ensures |r.0| == 1 ==> r.0[0].startLine == node.startPoint.row + 1 && r.0[0].endLine == node.endPoint.row + 1
    ensures |r.0| == 0 ==> r.1 == parent
  {
    if !IsDefinition(l, node.kind) then ([], parent)
    else
      var nameNode := ChildByField(node, "name");
      if (l == Java || l == Kotlin) && nameNode.None? then ([], parent)
      else
        var name := NodeText(nameNode);
        ([FunctionRecord(name, node.startPoint.row + 1, node.endPoint.row + 1)], name)
  }

  /** The call name of a call node: the node itself for Java and Kotlin, its "function" field otherwise. */
  function CallName(node: Node, l: Language): Option<string>
  {
    if l == Java || l == Kotlin then ExtractFunctionName(Some(node))
    else ExtractFunctionName(ChildByField(node, "function"))
  }

  /** The recording condition: an enclosing function, a non-empty call name and a root segment outside the ignore list. */
  predicate Recorded(parent: Option<string>, callName: string, l: Language)
  {
    Truthy(parent) && callName != "" && Split(callName, '.')[0] !in IgnoreLibs(l)
  }

  /**
   * `walk` of `extract_functions_and_calls`. With `asWritten`, a call whose
   * name does not resolve raises (its name is split before it is checked
   * for None), which ends the walk with an error; otherwise such a call is
   * skipped.
   */
  function Walk(node: Node, l: Language, parent: Option<string>, asWritten: bool): (r: Result<Collected>)
    decreases node, 1
  {
    var (defs, parent') := DefinitionStep(node, l, parent);
    var here :=
      if node.kind !in CallNodeTypes(l) then Ok([])
      else
        var callName := CallName(node, l);
        if callName.None? then (if asWritten then Err("AttributeError") else Ok([]))
        else if Recorded(parent', callName.value, l) then Ok([(parent'.value, callName.value)])
        else Ok([]);
    if here.Err? then Err(here.error)
    else
      var below := WalkChildren(node, 0, l, parent', asWritten);
      if below.Err? then below
      else Ok(Concat(Collected(defs, here.value), below.value))
  }

  function WalkChildren(node: Node, i: nat, l: Language, parent: Option<string>, asWritten: bool): (r: Result<Collected>)
    decreases node, 0, |node.children| - i
  {
    if i >= |node.children| then Ok(Collected([], []))
    else
      var first := Walk(node.children[i], l, parent, asWritten);
      if first.Err? then first
      else
        var rest := WalkChildren(node, i + 1, l, parent, asWritten);
        if rest.Err? then rest else Ok(Concat(first.value, rest.value))
  }

  /** `extract_functions_and_calls` as written: an unresolvable call name raises. */
  function ExtractFunctionsAndCallsAsWritten(root: Node, l: Language): Result<Collected>
  {
    Walk(root, l, None, true)
  }

  /** `extract_functions_and_calls` with the None check before the split: it always succeeds. */
  function ExtractFunctionsAndCalls(root: Node, l: Language): (r: Collected)
  {
    var w := Walk(root, l, None, false);
    NeverFails(root, l, None);
    w.value
  }

  /** The corrected walk never raises. */
  lemma {:induction false} NeverFails(node: Node, l: Language, parent: Option<string>)
    ensures Walk(node, l, parent, false).Ok?
    decreases node, 1
  {
    var (defs, parent') := DefinitionStep(node, l, parent);
    NeverFailsChildren(node, 0, l, parent');
  }

  lemma {:induction false} NeverFailsChildren(node: Node, i: nat, l: Language, parent: Option<string>)
    ensures WalkChildren(node, i, l, parent, false).Ok?
    decreases node, 0, |node.children| - i
  {
    if i < |node.children| {
      NeverFails(node.children[i], l, parent);
      NeverFailsChildren(node, i + 1, l, parent);
    }
  }

  /** Every recorded call has a non-empty enclosing function, a non-empty name and a root segment outside the ignore list. */
  predicate AllRecorded(calls: seq<(string, string)>, l: Language)
  {
    forall k :: 0 <= k < |calls| ==> Recorded(Some(calls[k].0), calls[k].1, l)
  }

  lemma {:induction false} WalkRecordsOnlyFiltered(node: Node, l: Language, parent: Option<string>, asWritten: bool)
    requires Walk(node, l, parent, asWritten).Ok?
    ensures AllRecorded(Walk(node, l, parent, asWritten).value.calls, l)
    decreases node, 1
  {
    var (defs, parent') := DefinitionStep(node, l, parent);
    WalkChildrenRecordsOnlyFiltered(node, 0, l, parent', asWritten);
  }

  lemma {:induction false} WalkChildrenRecordsOnlyFiltered(node: Node, i: nat, l: Language, parent: Option<string>, asWritten: bool)
    requires WalkChildren(node, i, l, parent, asWritten).Ok?
    ensures AllRecorded(WalkChildren(node, i, l, parent, asWritten).value.calls, l)
    decreases node, 0, |node.children| - i
  {
    if i < |node.children| {
      WalkRecordsOnlyFiltered(node.children[i], l, parent, asWritten);
      WalkChildrenRecordsOnlyFiltered(node, i + 1, l, parent, asWritten);
    }
  }

  /** A call is recorded only inside a named definition and outside the ignored libraries. */
  lemma CallFilter(root: Node, l: Language)
    ensures AllRecorded(ExtractFunctionsAndCalls(root, l).calls, l)
  {
    NeverFails(root, l, None);
    WalkRecordsOnlyFiltered(root, l, None, false);
  }

  /** Where the code as written does not raise, it computes what the corrected walk computes. */
  lemma {:induction false} AsWrittenAgrees(node: Node, l: Language, parent: Option<string>)
    requires Walk(node, l, parent, true).Ok?
    ensures Walk(node, l, parent, false) == Walk(node, l, parent, true)
    decreases node, 1
  {
    var (defs, parent') := DefinitionStep(node, l, parent);
    AsWrittenAgreesChildren(node, 0, l, parent');
  }

  lemma {:induction false} AsWrittenAgreesChildren(node: Node, i: nat, l: Language, parent: Option<string>)
    requires WalkChildren(node, i, l, parent, true).Ok?
    ensures WalkChildren(node, i, l, parent, false) == WalkChildren(node, i, l, parent, true)
    decreases node, 0, |node.children| - i
  {
    if i < |node.children| {
      AsWrittenAgrees(node.children[i], l, parent);
      AsWrittenAgreesChildren(node, i + 1, l, parent);
    }
  }

  /**
   * A Kotlin call `foo()` parses as a call_expression whose children are a
   * simple_identifier and a call_suffix; it has no "identifier" child, so
   * its name is None and the code as written raises, dropping the whole
   * file, while the corrected walk skips the call.
   */
  lemma KotlinCallRaises()
    ensures var callee := Node("simple_identifier", "", Point(1, 4), Point(1, 7), "foo", []);
            var suffix := Node("call_suffix", "", Point(1, 7), Point(1, 9), "()", []);
            var call := Node("call_expression", "", Point(1, 4), Point(1, 9), "foo()", [callee, suffix]);
            && ExtractFunctionName(Some(call)).None?
            && ExtractFunctionsAndCallsAsWritten(call, Kotlin).Err?
            && ExtractFunctionsAndCalls(call, Kotlin) == Collected([], [])
  {
    var callee := Node("simple_identifier", "", Point(1, 4), Point(1, 7), "foo", []);
    var suffix := Node("call_suffix", "", Point(1, 7), Point(1, 9), "()", []);
    var call := Node("call_expression", "", Point(1, 4), Point(1, 9), "foo()", [callee, suffix]);
    assert FirstIdentifierChild([suffix]).None?;
    assert FirstIdentifierChild(call.children).None?;
    assert CallName(call, Kotlin).None?;
    assert call.kind in CallNodeTypes(Kotlin);
    assert DefinitionStep(call, Kotlin, None) == ([], None);
    assert Walk(call, Kotlin, None, true) == Err("AttributeError");
    assert DefinitionStep(callee, Kotlin, None) == ([], None);
    assert DefinitionStep(suffix, Kotlin, None) == ([], None);
    assert WalkChildren(callee, 0, Kotlin, None, false) == Ok(Collected([], []));
    assert Walk(callee, Kotlin, None, false) == Ok(Collected([], []));
    assert WalkChildren(suffix, 0, Kotlin, None, false) == Ok(Collected([], []));
    assert Walk(suffix, Kotlin, None, false) == Ok(Collected([], []));
    assert WalkChildren(call, 2, Kotlin, None, false) == Ok(Collected([], []));
    assert WalkChildren(call, 1, Kotlin, None, false) == Ok(Collected([], []));
    assert WalkChildren(call, 0, Kotlin, None, false) == Ok(Collected([], []));
  }

  /** Where a definition lives, as stored under "location". */
  datatype Location = Location(file: string, startLine: int, endLine: int)

  /** One call-graph entry: outgoing calls, incoming callers and the definition's location. */
  datatype Entry = Entry(calls: set<string>, calledBy: set<string>, location: Option<Location>)

  /** One compressed-graph entry: the component's nodes and the ids of the components it calls. */
  datatype Compressed = Compressed(nodes: seq<string>, calls: set<nat>)

  /** The index of the last record named `k`, or -1. */
  function LastNamed(records: seq<FunctionRecord>, k: string): (r: int)
    ensures -1 <= r < |records|
    ensures r >= 0 ==> records[r].name == Some(k)
    ensures forall j :: r < j < |records| ==> records[j].name != Some(k)
  {
    if |records| == 0 then -1
    else if records[|records| - 1].name == Some(k) then |records| - 1
    else LastNamed(records[..|records| - 1], k)
  }

  /** The location a key ends up with after the records are stored in order: the last record with that name wins. */
  function LastLocation(records: seq<FunctionRecord>, k: string, relPath: string, before: Option<Location>): Option<Location>
  {
    var j := LastNamed(records, k);
    if j < 0 then before else Some(Location(relPath, records[j].startLine, records[j].endLine))
  }

  /** The id of the last component that lists `k`, or -1. */
  function LastComponent(sccs: seq<seq<string>>, k: string): (r: int)
    ensures -1 <= r < |sccs|
    ensures r >= 0 ==> k in sccs[r]
    ensures forall c :: r < c < |sccs| ==> k !in sccs[c]
  {
    if |sccs| == 0 then -1
    else if k in sccs[|sccs| - 1] then |sccs| - 1
    else LastComponent(sccs[..|sccs| - 1], k)
  }

  /** `component_of`: each node maps to the id of the last component that lists it. */
  function ComponentOf(sccs: seq<seq<string>>): (r: map<string, nat>)
    ensures forall k :: k in r <==> exists c :: 0 <= c < |sccs| && k in sccs[c]
    ensures forall k :: k in r ==> r[k] < |sccs| && k in sccs[r[k]]
    ensures forall k, c :: k in r && r[k] < c < |sccs| ==> k !in sccs[c]
  {
    var nodes := set c, k | 0 <= c < |sccs| && k in sccs[c] :: k;
    map k | k in nodes :: LastComponent(sccs, k)
  }

  function Min(a: int, b: int): (r: int)
    ensures r <= a && r <= b && (r == a || r == b)
  {
    if a < b then a else b
  }

  /** The entries with stage 0 whose node is already numbered. */
  function RepeatVisits(dfs: seq<(string, int)>, numbered: set<string>): nat
  {
    if |dfs| == 0 then 0
    else RepeatVisits(dfs[..|dfs| - 1], numbered) + (if dfs[|dfs| - 1].1 == 0 && dfs[|dfs| - 1].0 in numbered then 1 else 0)
  }

  /** The entries with stage 1. */
  function Finishes(dfs: seq<(string, int)>): nat
  {
    if |dfs| == 0 then 0
    else Finishes(dfs[..|dfs| - 1]) + (if dfs[|dfs| - 1].1 == 1 then 1 else 0)
  }

  lemma CountsOfPush(dfs: seq<(string, int)>, e: (string, int), numbered: set<string>)
    ensures RepeatVisits(dfs + [e], numbered) == RepeatVisits(dfs, numbered) + (if e.1 == 0 && e.0 in numbered then 1 else 0)
    ensures Finishes(dfs + [e]) == Finishes(dfs) + (if e.1 == 1 then 1 else 0)
  {
    assert (dfs + [e])[..|dfs|] == dfs;
  }

  /** Pushing only first visits of unnumbered nodes adds no repeat visit and no finish. */
  lemma {:induction false} CountsOfFirstVisits(dfs: seq<(string, int)>, pushed: seq<(string, int)>, numbered: set<string>)
    requires forall j :: 0 <= j < |pushed| ==> pushed[j].1 == 0 && pushed[j].0 !in numbered
    ensures RepeatVisits(dfs + pushed, numbered) == RepeatVisits(dfs, numbered)
    ensures Finishes(dfs + pushed) == Finishes(dfs)
    decreases |pushed|
  {
    if |pushed| > 0 {
      var init := pushed[..|pushed| - 1];
      assert dfs + pushed == (dfs + init) + [pushed[|pushed| - 1]];
      CountsOfPush(dfs + init, pushed[|pushed| - 1], numbered);
      CountsOfFirstVisits(dfs, init, numbered);
    } else {
      assert dfs + pushed == dfs;
    }
  }

  /** A neighbour the traversal follows: a key that `current` calls. */
  predicate KeyNeighbour(g: map<string, Entry>, current: string, nb: string)
    requires current in g
  {
    nb in g[current].calls && nb in g
  }

  /** A neighbour that is on the component stack. */
  predicate OnStack(onStack: map<string, bool>, nb: string)
  {
    nb in onStack && onStack[nb]
  }

  /**
   * The neighbour scan of a first visit: every key neighbour without an
   * index is pushed for a first visit, and the lowlink of `current` drops to
   * the least index among its key neighbours that are on the stack.
   */
  method ScanOnEntry(g: map<string, Entry>, current: string, index: map<string, int>, lowlink: map<string, int>,
                     onStack: map<string, bool>)
    returns (lowlink': map<string, int>, pushed: seq<(string, int)>)
    requires current in g && current in lowlink && lowlink.Keys == index.Keys
    requires forall x :: OnStack(onStack, x) ==> x in index
    ensures lowlink'.Keys == lowlink.Keys
    ensures forall x :: x in lowlink && x != current ==> lowlink'[x] == lowlink[x]
    ensures lowlink'[current] <= lowlink[current]
    ensures forall nb :: KeyNeighbour(g, current, nb) && OnStack(onStack, nb) ==> lowlink'[current] <= index[nb]
    ensures lowlink'[current] == lowlink[current]
            || exists nb :: KeyNeighbour(g, current, nb) && OnStack(onStack, nb) && lowlink'[current] == index[nb]
    ensures forall j :: 0 <= j < |pushed| ==> pushed[j].1 == 0 && KeyNeighbour(g, current, pushed[j].0) && pushed[j].0 !in index
    ensures forall nb :: KeyNeighbour(g, current, nb) && nb !in index ==> (nb, 0) in pushed
  {
    lowlink', pushed := lowlink, [];
    var rest := g[current].calls;
    while rest != {}
      invariant rest <= g[current].calls
      invariant lowlink'.Keys == lowlink.Keys
      invariant forall x :: x in lowlink && x != current ==> lowlink'[x] == lowlink[x]
      invariant lowlink'[current] <= lowlink[current]
      invariant forall nb :: KeyNeighbour(g, current, nb) && nb !in rest && OnStack(onStack, nb) ==> lowlink'[current] <= index[nb]
      invariant lowlink'[current] == lowlink[current]
                || exists nb :: KeyNeighbour(g, current, nb) && OnStack(onStack, nb) && lowlink'[current] == index[nb]
      invariant forall j :: 0 <= j < |pushed| ==> pushed[j].1 == 0 && KeyNeighbour(g, current, pushed[j].0) && pushed[j].0 !in index
      invariant forall nb :: KeyNeighbour(g, current, nb) && nb !in index && nb !in rest ==> (nb, 0) in pushed
      decreases rest
    {
      var nb :| nb in rest;
      rest := rest - {nb};
      if nb in g {
        if nb !in index {
          pushed := pushed + [(nb, 0)];
        } else if OnStack(onStack, nb) {
          lowlink' := lowlink'[current := Min(lowlink'[current], index[nb])];
        }
      }
    }
  }

  /**
   * The neighbour scan when `current` is finished: its lowlink drops to the
   * least lowlink among its key neighbours that are on the stack.
   */
  method ScanOnExit(g: map<string, Entry>, current: string, lowlink: map<string, int>, onStack: map<string, bool>)
    returns (lowlink': map<string, int>)
    requires current in g && current in lowlink
    requires forall x :: OnStack(onStack, x) ==> x in lowlink
    ensures lowlink'.Keys == lowlink.Keys
    ensures forall x :: x in lowlink && x != current ==> lowlink'[x] == lowlink[x]
    ensures lowlink'[current] <= lowlink[current]
    ensures forall nb :: KeyNeighbour(g, current, nb) && OnStack(onStack, nb) && nb != current ==> lowlink'[current] <= lowlink[nb]
    ensures lowlink'[current] == lowlink[current]
            || exists nb :: KeyNeighbour(g, current, nb) && OnStack(onStack, nb) && lowlink'[current] == lowlink[nb]
  {
    lowlink' := lowlink;
    var rest := g[current].calls;
    while rest != {}
      invariant rest <= g[current].calls
      invariant lowlink'.Keys == lowlink.Keys
      invariant forall x :: x in lowlink && x != current ==> lowlink'[x] == lowlink[x]
      invariant lowlink'[current] <= lowlink[current]
      invariant forall nb :: KeyNeighbour(g, current, nb) && nb !in rest && OnStack(onStack, nb) && nb != current ==> lowlink'[current] <= lowlink[nb]
      invariant lowlink'[current] == lowlink[current]
                || exists nb :: KeyNeighbour(g, current, nb) && OnStack(onStack, nb) && lowlink'[current] == lowlink[nb]
      decreases rest
    {
      var nb :| nb in rest;
      rest := rest - {nb};
      if nb in g && OnStack(onStack, nb) {
        lowlink' := lowlink'[current := Min(lowlink'[current], lowlink'[nb])];
      }
    }
  }

  /**
   * Pops `stack` until `current` has been popped, marking every popped node
   * off-stack; fails, as `list.pop` on an empty list raises, when `current`
   * is not on the stack.
   */
  method PopComponent(stack: seq<string>, onStack: map<string, bool>, current: string)
    returns (ok: bool, comp: seq<string>, rest: seq<string>, onStack': map<string, bool>)
    ensures ok <==> current in stack
    ensures ok ==> |comp| > 0 && comp[|comp| - 1] == current && current !in comp[..|comp| - 1]
    ensures ok ==> |rest| + |comp| == |stack| && rest == stack[..|rest|]
    ensures ok ==> forall j :: 0 <= j < |comp| ==> comp[j] == stack[|stack| - 1 - j]
    ensures ok ==> forall w :: w in onStack' <==> w in onStack || w in comp
    ensures ok ==> forall w :: w in onStack' ==> onStack'[w] == (if w in comp then false else onStack[w])
  {
    comp, rest, onStack' := [], stack, onStack;
    while true
      invariant |rest| + |comp| == |stack| && rest == stack[..|rest|]
      invariant forall j :: 0 <= j < |comp| ==> comp[j] == stack[|stack| - 1 - j]
      invariant current !in comp
      invariant forall w :: w in onStack' <==> w in onStack || w in comp
      invariant forall w :: w in onStack' ==> onStack'[w] == (if w in comp then false else onStack[w])
      invariant current in stack <==> current in rest
      decreases |rest|
    {
      if |rest| == 0 {
        return false, comp, rest, onStack';
      }
      var w := rest[|rest| - 1];
      assert rest == rest[..|rest| - 1] + [w];
      rest := rest[..|rest| - 1];
      onStack' := onStack'[w := false];
      ghost var prev := comp;
      comp := comp + [w];
      if w == current {
        assert comp[..|comp| - 1] == prev;
        return true, comp, rest, onStack';
      }
    }
  }

  /** The outgoing component ids of component `cid`: the components of its nodes' known callees, other than itself. */
  ghost predicate OutgoingOf(d: nat, cid: nat, comp: seq<string>, g: map<string, Entry>, componentOf: map<string, nat>)
  {
    d != cid && exists node, nbr :: node in comp && node in g && nbr in g[node].calls && nbr in componentOf && componentOf[nbr] == d
  }

  /**
   * The compression loop: one entry per component id holding its nodes and
   * the ids of the other components its nodes call.
   */
  method Compress(sccs: seq<seq<string>>, g: map<string, Entry>, componentOf: map<string, nat>) returns (compressed: map<nat, Compressed>)
    requires forall c, node :: 0 <= c < |sccs| && node in sccs[c] ==> node in g
    ensures forall c: nat :: c in compressed <==> c < |sccs|
    ensures forall c: nat :: c < |sccs| ==> compressed[c].nodes == sccs[c]
    ensures forall c: nat, d: nat :: c < |sccs| ==> (d in compressed[c].calls <==> OutgoingOf(d, c, sccs[c], g, componentOf))
    ensures forall c: nat :: c in compressed ==> c !in compressed[c].calls
  {
    compressed := map[];
    var cid := 0;
    while cid < |sccs|
      invariant 0 <= cid <= |sccs|
      invariant forall c: nat :: c in compressed <==> c < cid
      invariant forall c: nat :: c < cid ==> compressed[c].nodes == sccs[c]
      invariant forall c: nat, d: nat :: c < cid ==> (d in compressed[c].calls <==> OutgoingOf(d, c, sccs[c], g, componentOf))
    {
      var comp := sccs[cid];
      var outgoing: set<nat> := {};
      var j := 0;
      while j < |comp|
        invariant 0 <= j <= |comp|
        invariant forall d: nat :: d in outgoing <==> d != cid && exists node, nbr :: node in comp[..j] && nbr in g[node].calls && nbr in componentOf && componentOf[nbr] == d
      {
        var node := comp[j];
        var rest := g[node].calls;
        ghost var seen: set<string> := {};
        ghost var before := outgoing;
        while rest != {}
          invariant rest + seen == g[node].calls && rest !! seen
          invariant forall d: nat :: d in outgoing <==> d in before || (d != cid && exists nbr :: nbr in seen && nbr in componentOf && componentOf[nbr] == d)
          decreases rest
        {
          var nbr :| nbr in rest;
          rest := rest - {nbr};
          seen := seen + {nbr};
          if nbr in componentOf && componentOf[nbr] != cid {
            outgoing := outgoing + {componentOf[nbr]};
          }
        }
        assert comp[..j + 1] == comp[..j] + [node];
        j := j + 1;
      }
      assert comp[..j] == comp;
      compressed := compressed[cid := Compressed(comp, outgoing)];
      cid := cid + 1;
    }
  }

  /** The entry a `defaultdict` access sees: the stored one, or a fresh empty one. */
  function EntryOr(g: map<string, Entry>, k: string): Entry
  {
    if k in g then g[k] else Entry({}, {}, None)
  }

  /** callee is in the caller's calls exactly when the caller is in the callee's called_by. */
  ghost predicate SymmetricGraph(g: map<string, Entry>)
  {
    (forall a, b :: a in g && b in g[a].calls ==> b in g && a in g[b].calledBy)
    && (forall a, b :: b in g && a in g[b].calledBy ==> a in g && b in g[a].calls)
  }

  /** The graph after `calls[caller].add(callee)` and `called_by[callee].add(caller)`. */
  function WithCall(g: map<string, Entry>, caller: string, callee: string): (r: map<string, Entry>)
    ensures r.Keys == g.Keys + {caller, callee}
    ensures forall k :: k in r ==> r[k].calls == EntryOr(g, k).calls + (if k == caller then {callee} else {})
    ensures forall k :: k in r ==> r[k].calledBy == EntryOr(g, k).calledBy + (if k == callee then {caller} else {})
    ensures forall k :: k in r ==> r[k].location == EntryOr(g, k).location
  {
    LinkedEntries(g, caller, callee);
    Linked(g, caller, callee)
  }

  /** The two dictionary updates of one call, written out. */
  function Linked(g: map<string, Entry>, caller: string, callee: string): map<string, Entry>
  {
    var e := EntryOr(g, caller);
    var g1 := g[caller := e.(calls := e.calls + {callee})];
    var f := EntryOr(g1, callee);
    g1[callee := f.(calledBy := f.calledBy + {caller})]
  }

  lemma LinkedEntries(g: map<string, Entry>, caller: string, callee: string)
    ensures var r := Linked(g, caller, callee);
      && r.Keys == g.Keys + {caller, callee}
      && (forall k :: k in r ==> r[k].calls == EntryOr(g, k).calls + (if k == caller then {callee} else {}))
      && (forall k :: k in r ==> r[k].calledBy == EntryOr(g, k).calledBy + (if k == callee then {caller} else {}))
      && (forall k :: k in r ==> r[k].location == EntryOr(g, k).location)
  {
    var r := Linked(g, caller, callee);
    forall k | k in r
      ensures r[k].calls == EntryOr(g, k).calls + (if k == caller then {callee} else {})
      ensures r[k].calledBy == EntryOr(g, k).calledBy + (if k == callee then {caller} else {})
      ensures r[k].location == EntryOr(g, k).location
    {
      LinkedEntry(g, caller, callee, k);
    }
  }

  lemma LinkedEntry(g: map<string, Entry>, caller: string, callee: string, k: string)
    requires k in Linked(g, caller, callee)
    ensures var e := Linked(g, caller, callee)[k];
      && e.calls == EntryOr(g, k).calls + (if k == caller then {callee} else {})
      && e.calledBy == EntryOr(g, k).calledBy + (if k == callee then {caller} else {})
      && e.location == EntryOr(g, k).location
  {
    var e := EntryOr(g, caller);
    var g1 := g[caller := e.(calls := e.calls + {callee})];
    if k == callee {
      assert EntryOr(g1, callee).calls == EntryOr(g, k).calls + (if k == caller then {callee} else {});
    } else if k == caller {
      assert Linked(g, caller, callee)[k] == g1[k];
    } else {
      assert Linked(g, caller, callee)[k] == g[k];
    }
  }

  /** Adding one call in both directions keeps the graph symmetric. */
  lemma WithCallSymmetric(g: map<string, Entry>, caller: string, callee: string)
    requires SymmetricGraph(g)
    ensures SymmetricGraph(WithCall(g, caller, callee))
  {
    var r := WithCall(g, caller, callee);
    forall a, b | a in r && b in r[a].calls
      ensures b in r && a in r[b].calledBy
    {
      if !(a == caller && b == callee) {
        assert a in g && b in g[a].calls;
      }
    }
    forall a, b | b in r && a in r[b].calledBy
      ensures a in r && b in r[a].calls
    {
      if !(a == caller && b == callee) {
        assert b in g && a in g[b].calledBy;
      }
    }
  }

  /** The graph after the definition loop of `process_file`: each named record stores its location. */
  function AfterLocations(g: map<string, Entry>, records: seq<FunctionRecord>, relPath: string): (r: map<string, Entry>)
  {
    if |records| == 0 then g
    else
      var before := AfterLocations(g, records[..|records| - 1], relPath);
      var rec := records[|records| - 1];
      if rec.name.None? then before
      else before[rec.name.value := EntryOr(before, rec.name.value).(location := Some(Location(relPath, rec.startLine, rec.endLine)))]
  }

  /** The graph after the call loop of `process_file`. */
  function AfterCalls(g: map<string, Entry>, calls: seq<(string, string)>): (r: map<string, Entry>)
  {
    if |calls| == 0 then g
    else WithCall(AfterCalls(g, calls[..|calls| - 1]), calls[|calls| - 1].0, calls[|calls| - 1].1)
  }

  /**
   * Storing locations adds exactly the named records' keys, leaves every
   * calls and called_by set as it was, and leaves each key with the
   * location of the last record of that name.
   */
  lemma AfterLocationsEffect(g: map<string, Entry>, records: seq<FunctionRecord>, relPath: string)
    ensures var r := AfterLocations(g, records, relPath);
      && (forall k :: k in r <==> k in g || exists j :: 0 <= j < |records| && records[j].name == Some(k))
      && (forall k :: k in r ==> r[k].calls == EntryOr(g, k).calls && r[k].calledBy == EntryOr(g, k).calledBy)
      && (forall k :: k in r ==> r[k].location == LastLocation(records, k, relPath, EntryOr(g, k).location))
  {
    AfterLocationsKeys(g, records, relPath);
    AfterLocationsCalls(g, records, relPath);
    AfterLocationsLast(g, records, relPath);
  }

  /** The keys after storing locations: the old ones and every record's name. */
  lemma {:induction false} AfterLocationsKeys(g: map<string, Entry>, records: seq<FunctionRecord>, relPath: string)
    ensures forall k :: k in AfterLocations(g, records, relPath) <==> k in g || exists j :: 0 <= j < |records| && records[j].name == Some(k)
  {
    if |records| > 0 {
      var n := |records| - 1;
      var init := records[..n];
      AfterLocationsKeys(g, init, relPath);
      forall k
        ensures k in AfterLocations(g, records, relPath) <==> k in g || exists j :: 0 <= j < |records| && records[j].name == Some(k)
      {
        if exists j :: 0 <= j < n && init[j].name == Some(k) {
          var j :| 0 <= j < n && init[j].name == Some(k);
          assert records[j] == init[j];
        }
        if exists j :: 0 <= j < |records| && records[j].name == Some(k) {
          var j :| 0 <= j < |records| && records[j].name == Some(k);
          if j < n {
            assert init[j] == records[j];
          }
        }
      }
    }
  }

  /** Storing locations leaves every calls and called_by set as it was. */
  lemma {:induction false} AfterLocationsCalls(g: map<string, Entry>, records: seq<FunctionRecord>, relPath: string)
    ensures var r := AfterLocations(g, records, relPath);
      forall k :: k in r ==> r[k].calls == EntryOr(g, k).calls && r[k].calledBy == EntryOr(g, k).calledBy
  {
    if |records| > 0 {
      var init := records[..|records| - 1];
      AfterLocationsCalls(g, init, relPath);
      AfterLocationsKeys(g, init, relPath);
      var before := AfterLocations(g, init, relPath);
      var r := AfterLocations(g, records, relPath);
      forall k | k in r
        ensures r[k].calls == EntryOr(g, k).calls && r[k].calledBy == EntryOr(g, k).calledBy
      {
        assert EntryOr(before, k).calls == EntryOr(g, k).calls && EntryOr(before, k).calledBy == EntryOr(g, k).calledBy;
      }
    }
  }

  /** After storing locations each key has the location of the last record of its name, or the one it had. */
  lemma {:induction false} AfterLocationsLast(g: map<string, Entry>, records: seq<FunctionRecord>, relPath: string)
    ensures var r := AfterLocations(g, records, relPath);
      forall k :: k in r ==> r[k].location == LastLocation(records, k, relPath, EntryOr(g, k).location)
  {
    if |records| > 0 {
      var n := |records| - 1;
      var init := records[..n];
      AfterLocationsLast(g, init, relPath);
      var before := AfterLocations(g, init, relPath);
      var r := AfterLocations(g, records, relPath);
      forall k | k in r
        ensures r[k].location == LastLocation(records, k, relPath, EntryOr(g, k).location)
      {
        if records[n].name != Some(k) {
          assert LastNamed(records, k) == LastNamed(init, k);
          var j := LastNamed(init, k);
          if j >= 0 {
            assert init[j] == records[j];
          }
          assert r[k] == before[k];
        }
      }
    }
  }

  /** Both endpoints of every call. */
  function Endpoints(calls: seq<(string, string)>): (r: set<string>)
    ensures forall j :: 0 <= j < |calls| ==> calls[j].0 in r && calls[j].1 in r
  {
    if |calls| == 0 then {}
    else Endpoints(calls[..|calls| - 1]) + {calls[|calls| - 1].0, calls[|calls| - 1].1}
  }

  /** The call loop adds exactly the calls' endpoints as keys and leaves locations alone. */
  lemma {:induction false} AfterCallsKeys(g: map<string, Entry>, calls: seq<(string, string)>)
    ensures AfterCalls(g, calls).Keys == g.Keys + Endpoints(calls)
    ensures forall k :: k in AfterCalls(g, calls) ==> AfterCalls(g, calls)[k].location == EntryOr(g, k).location
  {
    if |calls| > 0 {
      AfterCallsKeys(g, calls[..|calls| - 1]);
    }
  }

  /** A string that is no call's endpoint is in no call. */
  lemma NotEndpoint(calls: seq<(string, string)>, a: string, b: string)
    requires a !in Endpoints(calls)
    ensures (a, b) !in calls && (b, a) !in calls
  {
    forall j | 0 <= j < |calls| ensures calls[j] != (a, b) && calls[j] != (b, a) {
      assert calls[j].0 in Endpoints(calls) && calls[j].1 in Endpoints(calls);
    }
  }

  /** One more call of the list: the graph after the first `i + 1` calls. */
  lemma AfterCallsPrefix(g: map<string, Entry>, calls: seq<(string, string)>, i: nat)
    requires i < |calls|
    ensures AfterCalls(g, calls[..i + 1]) == WithCall(AfterCalls(g, calls[..i]), calls[i].0, calls[i].1)
  {
    assert calls[..i + 1][..i] == calls[..i];
  }

  /** A key the call loop has not produced was no key before and is in no call. */
  lemma AbsentBefore(g: map<string, Entry>, calls: seq<(string, string)>, a: string, b: string)
    requires a !in AfterCalls(g, calls)
    ensures a !in g && (a, b) !in calls && (b, a) !in calls
  {
    AfterCallsKeys(g, calls);
    NotEndpoint(calls, a, b);
  }

  /** After the call loop, b is in a's calls exactly when it was before or (a, b) is a recorded call. */
  lemma {:induction false} AfterCallsEdges(g: map<string, Entry>, calls: seq<(string, string)>, a: string, b: string)
    requires a in AfterCalls(g, calls)
    ensures b in AfterCalls(g, calls)[a].calls <==> b in EntryOr(g, a).calls || (a, b) in calls
  {
    if |calls| > 0 {
      var n := |calls| - 1;
      var init, c := calls[..n], calls[n];
      var before := AfterCalls(g, init);
      InSnoc(calls, (a, b));
      assert AfterCalls(g, calls)[a].calls == EntryOr(before, a).calls + (if a == c.0 then {c.1} else {});
      if a in before {
        AfterCallsEdges(g, init, a, b);
      } else {
        AbsentBefore(g, init, a, b);
      }
    }
  }

  /** After the call loop, b is in a's called_by exactly when it was before or (b, a) is a recorded call. */
  lemma {:induction false} AfterCallsCallers(g: map<string, Entry>, calls: seq<(string, string)>, a: string, b: string)
    requires a in AfterCalls(g, calls)
    ensures b in AfterCalls(g, calls)[a].calledBy <==> b in EntryOr(g, a).calledBy || (b, a) in calls
  {
    if |calls| > 0 {
      var n := |calls| - 1;
      var init, c := calls[..n], calls[n];
      var before := AfterCalls(g, init);
      InSnoc(calls, (b, a));
      assert AfterCalls(g, calls)[a].calledBy == EntryOr(before, a).calledBy + (if a == c.1 then {c.0} else {});
      if a in before {
        AfterCallsCallers(g, init, a, b);
      } else {
        AbsentBefore(g, init, a, b);
      }
    }
  }

  /** The call loop keeps the graph symmetric. */
  lemma {:induction false} AfterCallsSymmetric(g: map<string, Entry>, calls: seq<(string, string)>)
    requires SymmetricGraph(g)
    ensures SymmetricGraph(AfterCalls(g, calls))
  {
    if |calls| > 0 {
      AfterCallsSymmetric(g, calls[..|calls| - 1]);
      WithCallSymmetric(AfterCalls(g, calls[..|calls| - 1]), calls[|calls| - 1].0, calls[|calls| - 1].1);
    }
  }

  /** Storing locations does not touch any calls or called_by set, so symmetry is kept. */
  lemma AfterLocationsSymmetric(g: map<string, Entry>, records: seq<FunctionRecord>, relPath: string)
    requires SymmetricGraph(g)
    ensures SymmetricGraph(AfterLocations(g, records, relPath))
  {
    AfterLocationsEffect(g, records, relPath);
  }

  /**
   * The whole effect of `process_file` on the calls sets: b is in a's calls
   * exactly when it was before or the file records the call (a, b).
   */
  lemma ProcessedEdges(g: map<string, Entry>, w: Collected, relPath: string, a: string, b: string)
    requires a in AfterCalls(AfterLocations(g, w.functions, relPath), w.calls)
    ensures b in AfterCalls(AfterLocations(g, w.functions, relPath), w.calls)[a].calls
            <==> b in EntryOr(g, a).calls || (a, b) in w.calls
  {
    var g1 := AfterLocations(g, w.functions, relPath);
    AfterLocationsEffect(g, w.functions, relPath);
    AfterCallsEdges(g1, w.calls, a, b);
  }

  /** `keys` lists the keys of `g` once each. */
  ghost predicate KeysMatch(g: map<string, Entry>, keys: seq<string>)
  {
    NoDup(keys) && (forall k :: k in g <==> k in keys)
  }

  /** Storing under a key keeps the key list in step, appending the key when it is new. */
  lemma KeysMatchStore(g: map<string, Entry>, keys: seq<string>, k: string, e: Entry)
    requires KeysMatch(g, keys)
    ensures KeysMatch(g[k := e], if k in g then keys else keys + [k])
    ensures keys <= if k in g then keys else keys + [k]
  {
  }

  class CallGraphBuilder {
    var callGraph: map<string, Entry>
    /** The keys of `callGraph` in insertion order, which is the order the component pass visits them. */
    var keys: seq<string>
    var scc: seq<seq<string>>
    var componentOf: map<string, nat>
    var compressedGraph: map<nat, Compressed>

    ghost predicate Valid()
      reads this
    {
      KeysMatch(callGraph, keys)
    }

    ghost predicate Symmetric()
      reads this
    {
      SymmetricGraph(callGraph)
    }

    constructor()
      ensures Valid() && Symmetric()
      ensures callGraph == map[] && keys == [] && scc == [] && componentOf == map[] && compressedGraph == map[]
    {
      callGraph, keys := map[], [];
      scc, componentOf, compressedGraph := [], map[], map[];
    }

    /** `defaultdict` access: a missing key gets an empty entry, appended to the key order. */
    method Touch(k: string)
      requires Valid()
      modifies this
      ensures Valid() && k in callGraph
      ensures callGraph == old(callGraph)[k := EntryOr(old(callGraph), k)]
      ensures keys == if k in old(callGraph) then old(keys) else old(keys) + [k]
      ensures scc == old(scc) && componentOf == old(componentOf) && compressedGraph == old(compressedGraph)
    {
      if k !in callGraph {
        KeysMatchStore(callGraph, keys, k, Entry({}, {}, None));
        callGraph := callGraph[k := Entry({}, {}, None)];
        keys := keys + [k];
      }
    }

    /** One edge of `process_file`: callee joins the caller's calls and the caller joins the callee's called_by. */
    method AddCall(caller: string, callee: string)
      requires Valid()
      modifies this
      ensures Valid() && callGraph == WithCall(old(callGraph), caller, callee)
      ensures old(keys) <= keys
      ensures scc == old(scc) && componentOf == old(componentOf) && compressedGraph == old(compressedGraph)
    {
      var g, ks := callGraph, keys;
      var e := EntryOr(g, caller);
      var e' := e.(calls := e.calls + {callee});
      KeysMatchStore(g, ks, caller, e');
      var g1 := g[caller := e'];
      var ks1 := if caller in g then ks else ks + [caller];
      var f := EntryOr(g1, callee);
      var f' := f.(calledBy := f.calledBy + {caller});
      KeysMatchStore(g1, ks1, callee, f');
      callGraph := g1[callee := f'];
      keys := if callee in g1 then ks1 else ks1 + [callee];
    }

    /**
     * `process_file`: a file that cannot be loaded (`parsed` is None)
     * changes nothing; otherwise each named definition's location is stored
     * and then every recorded call is added in both directions.
     */
    method ProcessFile(parsed: Option<Node>, l: Language, relPath: string)
      requires Valid() && Symmetric()
      modifies this
      ensures Valid() && Symmetric()
      ensures parsed.None? ==> callGraph == old(callGraph) && keys == old(keys)
      ensures parsed.Some? ==>
        var w := ExtractFunctionsAndCalls(parsed.value, l);
        callGraph == AfterCalls(AfterLocations(old(callGraph), w.functions, relPath), w.calls)
      ensures old(keys) <= keys
      ensures scc == old(scc) && componentOf == old(componentOf) && compressedGraph == old(compressedGraph)
    {
      if parsed.None? {
        return;
      }
      var w := ExtractFunctionsAndCalls(parsed.value, l);
      ghost var g0 := callGraph;
      StoreLocations(w.functions, relPath);
      AfterLocationsSymmetric(g0, w.functions, relPath);
      ghost var g1 := callGraph;
      AddCalls(w.calls);
      AfterCallsSymmetric(g1, w.calls);
    }

    /** The first loop of `process_file`: store each named definition's location. */
    method StoreLocations(records: seq<FunctionRecord>, relPath: string)
      requires Valid()
      modifies this
      ensures Valid() && old(keys) <= keys
      ensures callGraph == AfterLocations(old(callGraph), records, relPath)
      ensures scc == old(scc) && componentOf == old(componentOf) && compressedGraph == old(compressedGraph)
    {
      var g, ks := callGraph, keys;
      var i := 0;
      while i < |records|
        invariant 0 <= i <= |records|
        invariant KeysMatch(g, ks) && old(keys) <= ks
        invariant g == AfterLocations(old(callGraph), records[..i], relPath)
        invariant scc == old(scc) && componentOf == old(componentOf) && compressedGraph == old(compressedGraph)
      {
        var rec := records[i];
        assert records[..i + 1][..i] == records[..i];
        if rec.name.Some? {
          var n := rec.name.value;
          var e := EntryOr(g, n).(location := Some(Location(relPath, rec.startLine, rec.endLine)));
          KeysMatchStore(g, ks, n, e);
          ks := if n in g then ks else ks + [n];
          g := g[n := e];
        }
        i := i + 1;
      }
      assert records[..i] == records;
      callGraph, keys := g, ks;
    }

    /** The second loop of `process_file`: add every recorded call in both directions. */
    method AddCalls(calls: seq<(string, string)>)
      requires Valid()
      modifies this
      ensures Valid() && old(keys) <= keys
      ensures callGraph == AfterCalls(old(callGraph), calls)
      ensures scc == old(scc) && componentOf == old(componentOf) && compressedGraph == old(compressedGraph)
    {
      var i := 0;
      while i < |calls|
        invariant 0 <= i <= |calls|
        invariant Valid() && old(keys) <= keys
        invariant callGraph == AfterCalls(old(callGraph), calls[..i])
        invariant scc == old(scc) && componentOf == old(componentOf) && compressedGraph == old(compressedGraph)
      {
        AfterCallsPrefix(old(callGraph), calls, i);
        AddCall(calls[i].0, calls[i].1);
        i := i + 1;
      }
      assert calls[..i] == calls;
    }

    /**
     * `_compute_scc_and_compress`: the traversal from every key in insertion
     * order that has no index yet, then `component_of` and the compressed
     * graph. A component pop that runs off the bottom of the stack raises;
     * the fields are then left as they were.
     */
    method ComputeSccAndCompress() returns (ok: bool)
      requires Valid()
      modifies this
      ensures Valid() && callGraph == old(callGraph) && keys == old(keys)
      ensures !ok ==> scc == old(scc) && componentOf == old(componentOf) && compressedGraph == old(compressedGraph)
      ensures ok ==> forall c :: 0 <= c < |scc| ==> |scc[c]| > 0 && forall j :: 0 <= j < |scc[c]| ==> scc[c][j] in callGraph
      ensures ok ==> componentOf == ComponentOf(scc)
      ensures ok ==> forall c: nat :: c in compressedGraph <==> c < |scc|
      ensures ok ==> forall c: nat :: c < |scc| ==> compressedGraph[c].nodes == scc[c]
      ensures ok ==> forall c: nat, d: nat :: c < |scc| ==>
        (d in compressedGraph[c].calls <==> OutgoingOf(d, c, scc[c], callGraph, componentOf))
      ensures ok ==> forall c: nat :: c in compressedGraph ==> c !in compressedGraph[c].calls
    {
      var g := callGraph;
      var t := Traversal(0, [], map[], map[], map[], []);
      var i := 0;
      while i < |keys|
        invariant 0 <= i <= |keys|
        invariant unchanged(this) && g == callGraph
        invariant Sound(g, t, [])
      {
        var node := keys[i];
        assert node in g;
        if node !in t.index {
          var traversed;
          traversed, t := TraverseFrom(g, t, node);
          if !traversed {
            return false;
          }
        }
        i := i + 1;
      }
      scc := t.sccs;
      componentOf := ComponentOf(t.sccs);
      compressedGraph := Compress(t.sccs, g, componentOf);
      ok := true;
    }
  }

  /** The local state of the traversal: the next index, the component stack, the two numberings, the on-stack flags and the components found. */
  datatype Traversal = Traversal(counter: int, stack: seq<string>, index: map<string, int>, lowlink: map<string, int>,
                                 onStack: map<string, bool>, sccs: seq<seq<string>>)

  /** What the traversal keeps true: everything it names is a key, and every numbered node has a lowlink. */
  ghost predicate Sound(g: map<string, Entry>, t: Traversal, dfs: seq<(string, int)>)
  {
    && t.lowlink.Keys == t.index.Keys
    && (forall x :: OnStack(t.onStack, x) ==> x in t.index)
    && (forall j :: 0 <= j < |t.stack| ==> t.stack[j] in g)
    && (forall j :: 0 <= j < |dfs| ==> dfs[j].0 in g && (dfs[j].1 == 0 || (dfs[j].1 == 1 && dfs[j].0 in t.index)))
    && (forall c :: 0 <= c < |t.sccs| ==> |t.sccs[c]| > 0 && forall j :: 0 <= j < |t.sccs[c]| ==> t.sccs[c][j] in g)
  }

  /**
   * Stage 0 for `current`, as written: `current` gets the next index (again,
   * if it already had one), goes on the component stack and is marked
   * on-stack; the neighbour scan follows.
   */
  method Enter(g: map<string, Entry>, t: Traversal, current: string) returns (t': Traversal, pushed: seq<(string, int)>)
    requires current in g && Sound(g, t, [])
    ensures Sound(g, t', []) && t'.index.Keys == t.index.Keys + {current}
    ensures t'.index == t.index[current := t.counter] && t'.counter == t.counter + 1
    ensures t'.stack == t.stack + [current] && t'.onStack == t.onStack[current := true] && t'.sccs == t.sccs
    ensures t'.lowlink[current] <= t.counter
    ensures forall j :: 0 <= j < |pushed| ==> pushed[j].1 == 0 && KeyNeighbour(g, current, pushed[j].0) && pushed[j].0 !in t'.index
    ensures forall nb :: KeyNeighbour(g, current, nb) && nb !in t'.index ==> (nb, 0) in pushed
  {
    var index := t.index[current := t.counter];
    var lowlink := t.lowlink[current := t.counter];
    var onStack := t.onStack[current := true];
    lowlink, pushed := ScanOnEntry(g, current, index, lowlink, onStack);
    t' := Traversal(t.counter + 1, t.stack + [current], index, lowlink, onStack, t.sccs);
  }

  /**
   * Stage 1 for `current`: the neighbour scan, then, when the lowlink of
   * `current` equals its index, the component ending at `current` is popped
   * and appended; fails when `current` is no longer on the stack.
   */
  method Exit(g: map<string, Entry>, t: Traversal, current: string) returns (ok: bool, t': Traversal)
    requires current in g && current in t.index && Sound(g, t, [])
    ensures ok ==> Sound(g, t', []) && t'.index == t.index && t'.counter == t.counter
    ensures ok ==> t'.sccs == t.sccs || (|t'.sccs| == |t.sccs| + 1 && t'.sccs[..|t.sccs|] == t.sccs
                                        && t'.sccs[|t.sccs|][|t'.sccs[|t.sccs|]| - 1] == current)
    ensures ok ==> (|t'.sccs| == |t.sccs| + 1 <==> t'.lowlink[current] == t.index[current])
    ensures !ok ==> t' == t && current !in t.stack
  {
    var lowlink := ScanOnExit(g, current, t.lowlink, t.onStack);
    t' := t.(lowlink := lowlink);
    ok := true;
    if lowlink[current] == t.index[current] {
      var popped, comp, remaining, onStack' := PopComponent(t.stack, t.onStack, current);
      if !popped {
        return false, t;
      }
      forall j | 0 <= j < |remaining| ensures remaining[j] in g {
        assert remaining[j] == t.stack[j];
      }
      forall j | 0 <= j < |comp| ensures comp[j] in g {
        assert comp[j] == t.stack[|t.stack| - 1 - j];
      }
      t' := t'.(stack := remaining, onStack := onStack', sccs := t.sccs + [comp]);
      assert t'.sccs[..|t.sccs|] == t.sccs;
    }
  }

  /** Dropping entries from the end of the DFS stack keeps the traversal sound. */
  lemma SoundOfPrefix(g: map<string, Entry>, t: Traversal, dfs: seq<(string, int)>, tail: seq<(string, int)>)
    requires Sound(g, t, dfs + tail)
    ensures Sound(g, t, dfs)
  {
    forall j | 0 <= j < |dfs|
      ensures dfs[j].0 in g && (dfs[j].1 == 0 || (dfs[j].1 == 1 && dfs[j].0 in t.index))
    {
      assert (dfs + tail)[j] == dfs[j];
    }
  }

  /** Pushing entries that name keys, and that are numbered when at stage 1, keeps the traversal sound. */
  lemma SoundOfPush(g: map<string, Entry>, t: Traversal, dfs: seq<(string, int)>, extra: seq<(string, int)>)
    requires Sound(g, t, dfs)
    requires forall j :: 0 <= j < |extra| ==> extra[j].0 in g && (extra[j].1 == 0 || (extra[j].1 == 1 && extra[j].0 in t.index))
    ensures Sound(g, t, dfs + extra)
  {
    forall j | 0 <= j < |dfs + extra|
      ensures (dfs + extra)[j].0 in g && ((dfs + extra)[j].1 == 0 || ((dfs + extra)[j].1 == 1 && (dfs + extra)[j].0 in t.index))
    {
      if j < |dfs| {
        assert (dfs + extra)[j] == dfs[j];
      } else {
        assert (dfs + extra)[j] == extra[j - |dfs|];
      }
    }
  }

  /** A stage that keeps the traversal sound and numbers no fewer nodes keeps the DFS stack sound as well. */
  lemma SoundAfterStep(g: map<string, Entry>, t0: Traversal, t: Traversal, dfs: seq<(string, int)>)
    requires Sound(g, t0, dfs) && Sound(g, t, []) && t0.index.Keys <= t.index.Keys
    ensures Sound(g, t, dfs)
  {
    forall j | 0 <= j < |dfs|
      ensures dfs[j].0 in g && (dfs[j].1 == 0 || (dfs[j].1 == 1 && dfs[j].0 in t.index))
    {
    }
  }

  /**
   * The `dfs_stack` loop started at `root`: pops an entry and runs stage 0
   * or stage 1 for it until the stack is empty.
   */
  method TraverseFrom(g: map<string, Entry>, t: Traversal, root: string) returns (ok: bool, t': Traversal)
    requires root in g && Sound(g, t, [])
    ensures ok ==> Sound(g, t', []) && t.index.Keys + {root} <= t'.index.Keys && t.sccs <= t'.sccs
  {
    t' := t;
    var dfs := [(root, 0)];
    while |dfs| > 0
      invariant Sound(g, t', dfs) && t.index.Keys <= t'.index.Keys && t.sccs <= t'.sccs
      invariant root in t'.index || dfs == [(root, 0)]
      decreases g.Keys - t'.index.Keys, RepeatVisits(dfs, t'.index.Keys), Finishes(dfs)
    {
      var top := dfs[|dfs| - 1];
      var current, stage := top.0, top.1;
      ghost var before := dfs;
      ghost var seen := t'.index.Keys;
      ghost var t0 := t';
      dfs := dfs[..|dfs| - 1];
      assert before == dfs + [top];
      SoundOfPrefix(g, t', dfs, [top]);
      CountsOfPush(dfs, top, seen);
      if stage == 0 {
        var pushed;
        t', pushed := Enter(g, t', current);
        SoundAfterStep(g, t0, t', dfs);
        CountsOfPush(dfs, (current, 1), t'.index.Keys);
        SoundOfPush(g, t', dfs, [(current, 1)]);
        dfs := dfs + [(current, 1)];
        CountsOfFirstVisits(dfs, pushed, t'.index.Keys);
        SoundOfPush(g, t', dfs, pushed);
        dfs := dfs + pushed;
        if current in seen {
          assert t'.index.Keys == seen;
          assert RepeatVisits(dfs, t'.index.Keys) < RepeatVisits(before, seen);
        } else {
          assert g.Keys - t'.index.Keys < g.Keys - seen;
        }
      } else {
        var exited;
        exited, t' := Exit(g, t', current);
        if !exited {
          return false, t';
        }
        SoundAfterStep(g, t0, t', dfs);
        assert Finishes(dfs) < Finishes(before);
      }
    }
    ok := true;
  }
}
