// The tree-sitter based file handler: language detection, the walk that
// lists a file's functions and classes with their enclosing class, the
// name and parameter extractors, the per-object code slice, the write path
// and the markdown rendering of a file's objects.
module FileHandler {
  import opened Wrappers
  import opened PyStrings
  import opened SyntaxTree
  import opened SourceLanguages
  import opened SeqUtil

  /** `_detect_language`: the language name of the path's extension, compared lower-cased. */
  function DetectLanguageName(path: string): (r: Option<string>)
    ensures r.Some? <==> Lower(SplitExt(path).1) in {".py", ".java", ".go", ".kt", ".kts"}
    ensures r.Some? ==> r.value in {"python", "java", "go", "kotlin"} && r.value == LanguageName(DetectLanguage(path).value)
  {
    match DetectLanguage(path)
    case None => None
    case Some(l) => Some(LanguageName(l))
  }

  // ---------------------------------------------------------------------
  // NODE_TYPES
  // ---------------------------------------------------------------------

  predicate IsFunctionType(l: Language, kind: string)
  {
    match l
    case Python => kind == "function_definition" || kind == "decorated_definition"
    case Java => kind == "method_declaration" || kind == "constructor_declaration"
    case Go => kind == "function_declaration" || kind == "method_declaration"
    case Kotlin => kind == "function_declaration"
  }

  predicate IsClassType(l: Language, kind: string)
  {
    match l
    case Python => kind == "class_definition"
    case Java => kind == "class_declaration"
    case Go => false
    case Kotlin => kind == "class_declaration" || kind == "object_declaration"
  }

  /** The index of the first child of kind `k`. */
  function FirstOfKind(cs: seq<Node>, k: string): (r: Option<nat>)
    ensures r.Some? ==> r.value < |cs| && cs[r.value].kind == k && forall j :: 0 <= j < r.value ==> cs[j].kind != k
    ensures r.None? ==> forall j :: 0 <= j < |cs| ==> cs[j].kind != k
  {
    if |cs| == 0 then None
    else if cs[0].kind == k then Some(0)
    else match FirstOfKind(cs[1..], k)
      case None => None
      case Some(j) => Some(j + 1)
  }

  method FindFirstOfKind(cs: seq<Node>, k: string) returns (r: Option<nat>)
    ensures r == FirstOfKind(cs, k)
  {
    var i := 0;
    while i < |cs|
      invariant 0 <= i <= |cs|
      invariant forall j :: 0 <= j < i ==> cs[j].kind != k
    {
      if cs[i].kind == k {
        FirstOfKindAt(cs, k, i);
        return Some(i);
      }
      i := i + 1;
    }
    return None;
  }

  lemma FirstOfKindAt(cs: seq<Node>, k: string, i: nat)
    requires i < |cs| && cs[i].kind == k && forall j :: 0 <= j < i ==> cs[j].kind != k
    ensures FirstOfKind(cs, k) == Some(i)
  {
  }

  // ---------------------------------------------------------------------
  // Names
  // ---------------------------------------------------------------------

  /** `_extract_name_from_function_definition`: the first identifier child, or "unknown". */
  function FunctionDefinitionName(n: Node): string
  {
    match FirstOfKind(n.children, "identifier")
    case Some(i) => n.children[i].text
    case None => "unknown"
  }

  /** A child that `_extract_go_function_name` takes as the name: a field identifier, or an identifier with no parameter list before it. */
  predicate GoNameAt(cs: seq<Node>, i: nat)
    requires i < |cs|
  {
    cs[i].kind == "field_identifier" || (cs[i].kind == "identifier" && forall j :: 0 <= j < i ==> cs[j].kind != "parameter_list")
  }

  /** The first index from `i` on that qualifies as a Go name. */
  function GoNameIndexFrom(cs: seq<Node>, i: nat): (r: Option<nat>)
    requires i <= |cs|
    ensures r.Some? ==> i <= r.value < |cs| && GoNameAt(cs, r.value) && forall j :: i <= j < r.value ==> !GoNameAt(cs, j)
    ensures r.None? ==> forall j :: i <= j < |cs| ==> !GoNameAt(cs, j)
    decreases |cs| - i
  {
    if i == |cs| then None
    else if GoNameAt(cs, i) then Some(i)
    else GoNameIndexFrom(cs, i + 1)
  }

  /** The text of the first child that qualifies as a Go name, or "unknown". */
  function GoFunctionName(n: Node): string
  {
    match GoNameIndexFrom(n.children, 0)
    case Some(i) => n.children[i].text
    case None => "unknown"
  }

  /**
   * `_extract_go_function_name`: the first field identifier, or the first
   * identifier not preceded by a parameter list (a receiver); "unknown"
   * when there is neither.
   */
  method ExtractGoFunctionName(n: Node) returns (name: string)
    ensures name == GoFunctionName(n)
  {
    var cs := n.children;
    var i := 0;
    while i < |cs|
      invariant 0 <= i <= |cs|
      invariant forall j :: 0 <= j < i ==> !GoNameAt(cs, j)
    {
      if cs[i].kind == "field_identifier" {
        GoNameIndexAt(cs, i, 0);
        return cs[i].text;
      } else if cs[i].kind == "identifier" {
        var receiverFound := false;
        var k := 0;
        while k < i
          invariant 0 <= k <= i
          invariant receiverFound <==> exists j :: 0 <= j < k && cs[j].kind == "parameter_list"
        {
          if cs[k].kind == "parameter_list" {
            receiverFound := true;
          }
          k := k + 1;
        }
        if !receiverFound {
          GoNameIndexAt(cs, i, 0);
          return cs[i].text;
        }
      }
      i := i + 1;
    }
    return "unknown";
  }

  lemma {:induction false} GoNameIndexAt(cs: seq<Node>, i: nat, m: nat)
    requires m <= i < |cs| && GoNameAt(cs, i) && forall j :: m <= j < i ==> !GoNameAt(cs, j)
    ensures GoNameIndexFrom(cs, m) == Some(i)
    decreases i - m
  {
    if m < i {
      assert !GoNameAt(cs, m);
      GoNameIndexAt(cs, i, m + 1);
    }
  }

  /** `_extract_name_generic`. */
  function GenericName(n: Node, l: Language): string
  {
    if l == Go && (n.kind == "method_declaration" || n.kind == "function_declaration") then GoFunctionName(n)
    else match FirstIdentifierOrName(n.children)
      case Some(i) => n.children[i].text
      case None => "unknown"
  }

  /** The first child of kind `identifier` or `name`. */
  function FirstIdentifierOrName(cs: seq<Node>): (r: Option<nat>)
    ensures r.Some? ==> r.value < |cs| && cs[r.value].kind in {"identifier", "name"}
                        && forall j :: 0 <= j < r.value ==> cs[j].kind !in {"identifier", "name"}
    ensures r.None? ==> forall j :: 0 <= j < |cs| ==> cs[j].kind !in {"identifier", "name"}
  {
    if |cs| == 0 then None
    else if cs[0].kind in {"identifier", "name"} then Some(0)
    else match FirstIdentifierOrName(cs[1..])
      case None => None
      case Some(j) => Some(j + 1)
  }

  /**
   * `extract_name` as written. A `decorated_definition` with no
   * `function_definition` child (a decorated class) falls off the end of
   * the loop and has no name.
   */
  function ExtractNameAsWritten(n: Node, l: Language): (r: Option<string>)
    ensures r.None? <==> n.kind == "decorated_definition" && FirstOfKind(n.children, "function_definition").None?
  {
    if n.kind == "decorated_definition" then
      match FirstOfKind(n.children, "function_definition")
      case Some(i) => Some(FunctionDefinitionName(n.children[i]))
      case None => None
    else if n.kind == "function_definition" then Some(FunctionDefinitionName(n))
    else Some(GenericName(n, l))
  }

  /** The index of the first child that is a function or a class definition. */
  function FirstDefinition(cs: seq<Node>): (r: Option<nat>)
    ensures r.Some? ==> r.value < |cs| && cs[r.value].kind in {"function_definition", "class_definition"}
                        && forall j :: 0 <= j < r.value ==> cs[j].kind !in {"function_definition", "class_definition"}
    ensures r.None? ==> forall j :: 0 <= j < |cs| ==> cs[j].kind !in {"function_definition", "class_definition"}
  {
    if |cs| == 0 then None
    else if cs[0].kind in {"function_definition", "class_definition"} then Some(0)
    else match FirstDefinition(cs[1..])
      case None => None
      case Some(j) => Some(j + 1)
  }

  /**
   * `extract_name` with decorated classes named: a `decorated_definition`
   * is named after the function or class it wraps.
   */
  function ExtractName(n: Node, l: Language): (r: Option<string>)
    ensures r.None? <==> n.kind == "decorated_definition" && FirstDefinition(n.children).None?
  {
    if n.kind == "decorated_definition" then
      match FirstDefinition(n.children)
      case Some(i) =>
        if n.children[i].kind == "function_definition" then Some(FunctionDefinitionName(n.children[i]))
        else Some(GenericName(n.children[i], l))
      case None => None
    else if n.kind == "function_definition" then Some(FunctionDefinitionName(n))
    else Some(GenericName(n, l))
  }

  /** The correction changes the name only of a decorated definition that wraps a class. */
  lemma ExtractNameCorrected(n: Node, l: Language)
    ensures n.kind != "decorated_definition" ==> ExtractName(n, l) == ExtractNameAsWritten(n, l)
    ensures (forall j :: 0 <= j < |n.children| ==> n.children[j].kind != "class_definition")
            ==> ExtractName(n, l) == ExtractNameAsWritten(n, l)
  {
    if n.kind == "decorated_definition" && forall j :: 0 <= j < |n.children| ==> n.children[j].kind != "class_definition" {
      match FirstDefinition(n.children)
      case Some(i) =>
        assert FirstOfKind(n.children, "function_definition") == Some(i) by {
          FirstOfKindAt(n.children, "function_definition", i);
        }
      case None =>
    }
  }

  lemma {:induction false} FirstDefinitionAt(cs: seq<Node>, i: nat)
    requires i < |cs| && cs[i].kind in {"function_definition", "class_definition"}
    requires forall j :: 0 <= j < i ==> cs[j].kind !in {"function_definition", "class_definition"}
    ensures FirstDefinition(cs) == Some(i)
    decreases i
  {
    if i > 0 {
      FirstDefinitionAt(cs[1..], i - 1);
    }
  }

  method ExtractNameOf(n: Node, l: Language) returns (name: Option<string>)
    ensures name == ExtractName(n, l)
    decreases n
  {
    if n.kind == "decorated_definition" {
      var cs := n.children;
      var i := 0;
      while i < |cs| && cs[i].kind != "function_definition" && cs[i].kind != "class_definition"
        invariant 0 <= i <= |cs|
        invariant forall j :: 0 <= j < i ==> cs[j].kind !in {"function_definition", "class_definition"}
      {
        i := i + 1;
      }
      if i == |cs| {
        return None;
      }
      assert FirstDefinition(cs) == Some(i) by {
        FirstDefinitionAt(cs, i);
      }
      if cs[i].kind == "function_definition" {
        var id := FindFirstOfKind(cs[i].children, "identifier");
        return Some(if id.Some? then cs[i].children[id.value].text else "unknown");
      }
      assert cs[i] in n.children;
      name := ExtractNameOf(cs[i], l);
    } else if n.kind == "function_definition" {
      var id := FindFirstOfKind(n.children, "identifier");
      return Some(if id.Some? then n.children[id.value].text else "unknown");
    } else if l == Go && (n.kind == "method_declaration" || n.kind == "function_declaration") {
      var s := ExtractGoFunctionName(n);
      return Some(s);
    } else {
      var cs := n.children;
      var k := 0;
      while k < |cs|
        invariant 0 <= k <= |cs|
        invariant forall j :: 0 <= j < k ==> cs[j].kind !in {"identifier", "name"}
      {
        if cs[k].kind == "identifier" || cs[k].kind == "name" {
          return Some(cs[k].text);
        }
        k := k + 1;
      }
      return Some("unknown");
    }
  }

  // ---------------------------------------------------------------------
  // Parameters
  // ---------------------------------------------------------------------

  /** The kind of the child that holds a language's parameter list. */
  function ParameterListKind(l: Language): string
  {
    match l
    case Python => "parameters"
    case Java => "formal_parameters"
    case Go => "parameter_list"
    case Kotlin => "function_value_parameters"
  }

  /** The texts of the children of kind `k`, in order. */
  function TextsOfKind(cs: seq<Node>, k: string): (r: seq<string>)
    ensures |r| <= |cs|
  {
    if |cs| == 0 then []
    else TextsOfKind(cs[..|cs| - 1], k) + (if cs[|cs| - 1].kind == k then [cs[|cs| - 1].text] else [])
  }

  /** What one entry of a parameter list contributes, per language. */
  function ParameterNames(l: Language, c: Node): seq<string>
  {
    match l
    case Python =>
      if c.kind == "identifier" then [c.text]
      else if c.kind == "default_parameter" then
        (match FirstOfKind(c.children, "identifier") case Some(i) => [c.children[i].text] case None => [])
      else []
    case Java =>
      if c.kind == "formal_parameter" then
        var ids := TextsOfKind(c.children, "identifier");
        if |ids| > 0 then [ids[|ids| - 1]] else []
      else []
    case Go =>
      if c.kind == "parameter_declaration" then TextsOfKind(c.children, "identifier") else []
    case Kotlin =>
      if c.kind == "function_value_parameter" then
        (match FirstOfKind(c.children, "simple_identifier") case Some(i) => [c.children[i].text] case None => [])
      else []
  }

  /** The parameter names of a list's entries, concatenated in order. */
  function ListParameters(l: Language, cs: seq<Node>): seq<string>
  {
    if |cs| == 0 then [] else ListParameters(l, cs[..|cs| - 1]) + ParameterNames(l, cs[|cs| - 1])
  }

  /**
   * The parameters as the four `_extract_*_parameters` compute them: the
   * entries of the first parameter-list child; a Python decorated
   * definition first steps into its `function_definition`.
   */
  function ParametersAsWritten(n: Node, l: Language): seq<string>
  {
    if l == Python && n.kind == "decorated_definition" && FirstOfKind(n.children, "function_definition").Some? then
      var i := FirstOfKind(n.children, "function_definition").value;
      ParametersAsWritten(n.children[i], l)
    else match FirstOfKind(n.children, ParameterListKind(l))
      case Some(i) => ListParameters(l, n.children[i].children)
      case None => []
  }

  /**
   * The parameters the extractors are meant to return. They are those
   * computed as written except for a Go method, whose first
   * `parameter_list` is the receiver: its parameters are the list under
   * the `parameters` field.
   */
  function Parameters(n: Node, l: Language): seq<string>
  {
    if l == Go && n.kind == "method_declaration" then
      match ChildByField(n, "parameters")
      case Some(p) => ListParameters(l, p.children)
      case None => []
    else ParametersAsWritten(n, l)
  }

  /** The per-entry rules of the four extractors' inner loops. */
  method EntryParameters(l: Language, c: Node) returns (names: seq<string>)
    ensures names == ParameterNames(l, c)
  {
    names := [];
    if l == Python {
      if c.kind == "identifier" {
        names := [c.text];
      } else if c.kind == "default_parameter" {
        var i := FindFirstOfKind(c.children, "identifier");
        if i.Some? {
          names := [c.children[i.value].text];
        }
      }
    } else if l == Java {
      if c.kind == "formal_parameter" {
        var ids := CollectTexts(c.children, "identifier");
        if |ids| > 0 {
          names := [ids[|ids| - 1]];
        }
      }
    } else if l == Go {
      if c.kind == "parameter_declaration" {
        names := CollectTexts(c.children, "identifier");
      }
    } else {
      if c.kind == "function_value_parameter" {
        var i := FindFirstOfKind(c.children, "simple_identifier");
        if i.Some? {
          names := [c.children[i.value].text];
        }
      }
    }
  }

  method CollectTexts(cs: seq<Node>, k: string) returns (texts: seq<string>)
    ensures texts == TextsOfKind(cs, k)
  {
    texts := [];
    for i := 0 to |cs|
      invariant texts == TextsOfKind(cs[..i], k)
    {
      assert cs[..i + 1][..i] == cs[..i];
      if cs[i].kind == k {
        texts := texts + [cs[i].text];
      }
    }
    assert cs[..|cs|] == cs;
  }

  /** The loop over a parameter list's entries. */
  method CollectParameters(l: Language, cs: seq<Node>) returns (params: seq<string>)
    ensures params == ListParameters(l, cs)
  {
    params := [];
    for i := 0 to |cs|
      invariant params == ListParameters(l, cs[..i])
    {
      assert cs[..i + 1][..i] == cs[..i];
      var names := EntryParameters(l, cs[i]);
      params := params + names;
    }
    assert cs[..|cs|] == cs;
  }

  /** `extract_parameters`, with a Go method's parameters taken from its `parameters` field. */
  method ExtractParameters(n: Node, l: Language) returns (params: seq<string>)
    ensures params == Parameters(n, l)
    decreases n
  {
    if l == Go && n.kind == "method_declaration" {
      var p := ChildByField(n, "parameters");
      params := [];
      if p.Some? {
        params := CollectParameters(l, p.value.children);
      }
      return;
    }
    if l == Python && n.kind == "decorated_definition" {
      var i := FindFirstOfKind(n.children, "function_definition");
      if i.Some? {
        params := ExtractParameters(n.children[i.value], l);
        return;
      }
    }
    var i := FindFirstOfKind(n.children, ParameterListKind(l));
    params := [];
    if i.Some? {
      params := CollectParameters(l, n.children[i.value].children);
    }
  }

  /**
   * A Python parameter name comes from a bare identifier entry or is the
   * first identifier of a `default_parameter` entry, and every such entry
   * contributes its name.
   */
  lemma {:induction false} PythonParameterMembers(cs: seq<Node>, p: string)
    ensures p in ListParameters(Python, cs)
            <==> exists i :: 0 <= i < |cs| && PythonParameterEntry(cs[i], p)
    decreases |cs|
  {
    if |cs| > 0 {
      var init := cs[..|cs| - 1];
      PythonParameterMembers(init, p);
      if exists i :: 0 <= i < |cs| && PythonParameterEntry(cs[i], p) {
        var i :| 0 <= i < |cs| && PythonParameterEntry(cs[i], p);
        if i < |cs| - 1 {
          assert cs[i] == init[i];
        }
      }
      if exists i :: 0 <= i < |init| && PythonParameterEntry(init[i], p) {
        var i :| 0 <= i < |init| && PythonParameterEntry(init[i], p);
        assert cs[i] == init[i];
      }
    }
  }

  /** Entry `c` of a Python parameter list names parameter `p`. */
  predicate PythonParameterEntry(c: Node, p: string)
  {
    (c.kind == "identifier" && c.text == p)
    || (c.kind == "default_parameter" && FirstOfKind(c.children, "identifier").Some?
        && c.children[FirstOfKind(c.children, "identifier").value].text == p)
  }

  /** A Go method `func (s T) m(x U)`, as tree-sitter shapes it. */
  function GoMethodExample(): Node
  {
    var at := Point(0, 0);
    Node("method_declaration", "", at, at, "func (s T) m(x U)",
         [Node("func", "", at, at, "func", []), GoParameterList("receiver", "s", "T"),
          Node("field_identifier", "name", at, at, "m", []), GoParameterList("parameters", "x", "U")])
  }

  /** A Go `parameter_list` under field `field` declaring the one parameter `name` of type `ty`. */
  function GoParameterList(field: string, name: string, ty: string): Node
  {
    var at := Point(0, 0);
    Node("parameter_list", field, at, at, "(" + name + " " + ty + ")",
         [Node("parameter_declaration", "", at, at, name + " " + ty,
               [Node("identifier", "name", at, at, name, []), Node("type_identifier", "type", at, at, ty, [])])])
  }

  /**
   * `_extract_go_parameters` reads the first `parameter_list`, which for a
   * method is the receiver: the method `m(x U)` on receiver `s` is given
   * the parameter `s`, where its parameter is `x`.
   */
  lemma GoReceiverTakenForParameters()
    ensures ParametersAsWritten(GoMethodExample(), Go) == ["s"]
    ensures Parameters(GoMethodExample(), Go) == ["x"]
  {
    var n := GoMethodExample();
    assert FirstOfKind(n.children, "parameter_list") == Some(1) by {
      FirstOfKindAt(n.children, "parameter_list", 1);
    }
    assert ParametersAsWritten(n, Go) == ListParameters(Go, n.children[1].children);
    assert ChildByField(n, "parameters") == Some(n.children[3]);
    assert Parameters(n, Go) == ListParameters(Go, n.children[3].children);
    GoParameterListNames("receiver", "s", "T");
    GoParameterListNames("parameters", "x", "U");
  }

  /** The names a one-declaration Go `parameter_list` gives: just the declared name. */
  lemma GoParameterListNames(field: string, name: string, ty: string)
    ensures ListParameters(Go, GoParameterList(field, name, ty).children) == [name]
  {
    var ps := GoParameterList(field, name, ty).children;
    assert ListParameters(Go, ps) == ListParameters(Go, ps[..0]) + ParameterNames(Go, ps[0]);
    var ids := ps[0].children;
    assert TextsOfKind(ids, "identifier") == TextsOfKind(ids[..1], "identifier") + [];
    assert ids[..1][..0] == [];
  }

  /** A Go method's parameters are its `parameters` list; every other definition's are those computed as written. */
  lemma ParametersCorrected(n: Node, l: Language)
    ensures l == Go && n.kind == "method_declaration" && ChildByField(n, "parameters").Some?
            ==> Parameters(n, l) == ListParameters(Go, ChildByField(n, "parameters").value.children)
    ensures !(l == Go && n.kind == "method_declaration") ==> Parameters(n, l) == ParametersAsWritten(n, l)
  {
  }

  // ---------------------------------------------------------------------
  // get_functions_and_classes
  // ---------------------------------------------------------------------

  /** One entry of `get_functions_and_classes`: kind, name, 1-based first and last line, parameters, parent, code. */
  datatype Structure = Structure(kind: string, name: Option<string>, startLine: int, endLine: int,
                                 params: seq<string>, parent: Option<string>, code: string)

  /** A reported definition: its path below the walked node, the node itself and the parent recorded with it. */
  datatype Found = Found(path: seq<nat>, node: Node, parent: Option<string>)

  /**
   * How `walk` treats a child: a function is recorded and not entered, a
   * class is recorded and entered with its name as the parent, anything
   * else is entered with the parent unchanged.
   */
  datatype Role = FunctionRole | ClassRole(name: Option<string>) | OtherRole

  /** The function kinds are tested before the class kinds, as `walk` does. */
  function RoleOf(l: Language, n: Node): (r: Role)
    ensures r.FunctionRole? <==> IsFunctionType(l, n.kind)
    ensures r.ClassRole? <==> !IsFunctionType(l, n.kind) && IsClassType(l, n.kind)
    ensures r.ClassRole? ==> r.name == ExtractName(n, l)
  {
    if IsFunctionType(l, n.kind) then FunctionRole
    else if IsClassType(l, n.kind) then ClassRole(ExtractName(n, l))
    else OtherRole
  }

  /** `RoleOf` as a function value, so that the walk's lemmas need not look inside it. */
  function Roles(l: Language): Node -> Role
  {
    (n: Node) => RoleOf(l, n)
  }

  /** The kind string a definition is reported under. */
  function StructureKind(l: Language, n: Node): string
  {
    if IsFunctionType(l, n.kind) then (if l == Python then "FunctionDef" else "Function")
    else if l == Python then "ClassDef" else "Class"
  }

  /** The tuple `walk` appends for a definition node. */
  function RecordOf(n: Node, parent: Option<string>, l: Language): Structure
  {
    Structure(StructureKind(l, n), ExtractName(n, l), n.startPoint.row + 1, n.endPoint.row + 1,
              if IsFunctionType(l, n.kind) then Parameters(n, l) else [], parent, n.text)
  }

  /** `RecordOf` as a function value. */
  function RecordFor(l: Language): (Node, Option<string>) -> Structure
  {
    (n: Node, parent: Option<string>) => RecordOf(n, parent, l)
  }

  /** The entries for a sequence of reported definitions, in order. */
  function Records(fs: seq<Found>, rec: (Node, Option<string>) -> Structure): (r: seq<Structure>)
    ensures |r| == |fs| && forall k :: 0 <= k < |fs| ==> r[k] == rec(fs[k].node, fs[k].parent)
  {
    seq(|fs|, k requires 0 <= k < |fs| => rec(fs[k].node, fs[k].parent))
  }

  /** The entries are exactly the records of the reported definitions. */
  lemma RecordsMembers(fs: seq<Found>, rec: (Node, Option<string>) -> Structure, s: Structure)
    ensures s in Records(fs, rec) <==> exists f :: f in fs && s == rec(f.node, f.parent)
  {
    if s in Records(fs, rec) {
      var k :| 0 <= k < |fs| && Records(fs, rec)[k] == s;
      assert fs[k] in fs;
    }
  }

  /** The same definitions, with child index `j` put in front of each path. */
  function Prefixed(j: nat, fs: seq<Found>): (r: seq<Found>)
    ensures |r| == |fs| && forall k :: 0 <= k < |fs| ==> r[k] == Found([j] + fs[k].path, fs[k].node, fs[k].parent)
  {
    seq(|fs|, k requires 0 <= k < |fs| => Found([j] + fs[k].path, fs[k].node, fs[k].parent))
  }

  /** The parent name `walk` passes to the children of a node with role `r`. */
  function ParentBelow(r: Role, parent: Option<string>): Option<string>
  {
    if r.ClassRole? then r.name else parent
  }

  /** What `walk` reports for child number `j`, which is `c`, given the current parent name. */
  ghost function Visit(c: Node, j: nat, parent: Option<string>, role: Node -> Role): seq<Found>
    decreases c, |c.children| + 1
  {
    match role(c)
    case FunctionRole => [Found([j], c, parent)]
    case ClassRole(name) => [Found([j], c, None)] + Prefixed(j, Walk(c, |c.children|, name, role))
    case OtherRole => Prefixed(j, Walk(c, |c.children|, parent, role))
  }

  /** What `walk(n, parent)` reports for the first `k` children of `n`. */
  ghost function Walk(n: Node, k: nat, parent: Option<string>, role: Node -> Role): seq<Found>
    requires k <= |n.children|
    decreases n, k
  {
    if k == 0 then [] else Walk(n, k - 1, parent, role) + Visit(n.children[k - 1], k - 1, parent, role)
  }

  /**
   * The definition the walk finds at path `q` below `n`: no node on the way
   * down, `n` excluded, is a function (the walk does not enter one), a
   * class on the way makes its name the current parent, and the node at
   * the end is a function recorded with the current parent or a class
   * recorded with none.
   */
  ghost predicate Reported(n: Node, q: seq<nat>, parent: Option<string>, par: Option<string>, role: Node -> Role)
    requires ValidPath(n, q) && |q| >= 1
    decreases |q|
  {
    var c := n.children[q[0]];
    if |q| == 1 then (role(c).FunctionRole? && par == parent) || (role(c).ClassRole? && par == None)
    else !role(c).FunctionRole? && Reported(c, q[1..], ParentBelow(role(c), parent), par, role)
  }

  /** `Reported` seen from child `c`: `rest` is the path below it. */
  ghost predicate ReportedBelow(c: Node, rest: seq<nat>, parent: Option<string>, par: Option<string>, role: Node -> Role)
    requires ValidPath(c, rest)
  {
    if |rest| == 0 then (role(c).FunctionRole? && par == parent) || (role(c).ClassRole? && par == None)
    else !role(c).FunctionRole? && Reported(c, rest, ParentBelow(role(c), parent), par, role)
  }

  lemma PrefixedMembers(j: nat, fs: seq<Found>, f: Found)
    ensures f in Prefixed(j, fs) <==> |f.path| >= 1 && f.path[0] == j && Found(f.path[1..], f.node, f.parent) in fs
  {
    if |f.path| >= 1 && f.path[0] == j && Found(f.path[1..], f.node, f.parent) in fs {
      var k :| 0 <= k < |fs| && fs[k] == Found(f.path[1..], f.node, f.parent);
      assert [j] + f.path[1..] == f.path;
      assert Prefixed(j, fs)[k] == f;
    }
    if f in Prefixed(j, fs) {
      var k :| 0 <= k < |fs| && Prefixed(j, fs)[k] == f;
      assert f.path[1..] == fs[k].path;
    }
  }

  /** The walk reports exactly the definitions `Reported` describes, each with the node at its path. */
  lemma {:induction false} WalkMembers(n: Node, k: nat, parent: Option<string>, role: Node -> Role, f: Found)
    requires k <= |n.children|
    ensures f in Walk(n, k, parent, role)
            <==> |f.path| >= 1 && f.path[0] < k && ValidPath(n, f.path) && f.node == At(n, f.path) && Reported(n, f.path, parent, f.parent, role)
    decreases n, k
  {
    if k > 0 {
      WalkMembers(n, k - 1, parent, role, f);
      var c := n.children[k - 1];
      VisitMembers(c, k - 1, parent, role, f);
      if |f.path| >= 1 && f.path[0] == k - 1 {
        var rest := f.path[1..];
        assert ValidPath(n, f.path) <==> ValidPath(c, rest);
        if ValidPath(c, rest) {
          assert At(n, f.path) == At(c, rest);
        }
      }
    }
  }

  lemma {:induction false} VisitMembers(c: Node, j: nat, parent: Option<string>, role: Node -> Role, f: Found)
    ensures f in Visit(c, j, parent, role)
            <==> |f.path| >= 1 && f.path[0] == j && ValidPath(c, f.path[1..]) && f.node == At(c, f.path[1..])
                 && ReportedBelow(c, f.path[1..], parent, f.parent, role)
    decreases c, |c.children| + 1
  {
    if role(c).FunctionRole? {
      if |f.path| >= 1 && f.path[0] == j && |f.path| == 1 {
        assert f.path == [j];
      }
    } else {
      var below := ParentBelow(role(c), parent);
      PrefixedMembers(j, Walk(c, |c.children|, below, role), f);
      if |f.path| >= 1 {
        var g := Found(f.path[1..], f.node, f.parent);
        WalkMembers(c, |c.children|, below, role, g);
        if |f.path| == 1 && f.path[0] == j {
          assert f.path == [j];
          assert g !in Walk(c, |c.children|, below, role);
        }
      }
    }
  }

  /** No node strictly between `n` and the end of `q` is a function: the walk enters none. */
  ghost predicate NoFunctionAbove(n: Node, q: seq<nat>, role: Node -> Role)
    requires ValidPath(n, q)
  {
    forall k :: 1 <= k < |q| ==> !role(Ancestor(n, q, k)).FunctionRole?
  }

  /** The name of the deepest class among the nodes at depths 1 to `k - 1` on path `q`, or `parent` when there is none. */
  ghost function EnclosingClass(n: Node, q: seq<nat>, k: nat, parent: Option<string>, role: Node -> Role): Option<string>
    requires ValidPath(n, q) && k <= |q|
    decreases k
  {
    if k <= 1 then parent
    else
      var r := role(Ancestor(n, q, k - 1));
      if r.ClassRole? then r.name else EnclosingClass(n, q, k - 1, parent, role)
  }

  /** Seen from the first child on the path, ancestors are one level shallower. */
  lemma AncestorStep(n: Node, q: seq<nat>, k: nat)
    requires ValidPath(n, q) && 1 <= k <= |q|
    ensures ValidPath(n.children[q[0]], q[1..]) && Ancestor(n, q, k) == Ancestor(n.children[q[0]], q[1..], k - 1)
  {
    PrefixValid(n, q, k);
    assert q[..k][1..] == q[1..][..k - 1];
  }

  /** Below the first child, the enclosing class is found the same way with that child's contribution as the starting parent. */
  lemma {:induction false} EnclosingClassStep(n: Node, q: seq<nat>, k: nat, parent: Option<string>, role: Node -> Role)
    requires ValidPath(n, q) && 2 <= k <= |q|
    ensures ValidPath(n.children[q[0]], q[1..])
    ensures EnclosingClass(n, q, k, parent, role)
            == EnclosingClass(n.children[q[0]], q[1..], k - 1, ParentBelow(role(n.children[q[0]]), parent), role)
    decreases k
  {
    AncestorStep(n, q, k - 1);
    if k > 2 {
      EnclosingClassStep(n, q, k - 1, parent, role);
    } else {
      AncestorStep(n, q, 1);
    }
  }

  /** The parent a definition at `q` is reported with: the enclosing class for a function, none for a class. */
  ghost function ReportedParent(n: Node, q: seq<nat>, parent: Option<string>, role: Node -> Role): Option<string>
    requires ValidPath(n, q) && |q| >= 1
  {
    if role(At(n, q)).FunctionRole? then EnclosingClass(n, q, |q|, parent, role) else None
  }

  /**
   * A definition is reported exactly when no function lies above it, and
   * then with its enclosing class (or the starting parent) if it is a
   * function and with no parent if it is a class.
   */
  lemma {:induction false} ReportedCharacterised(n: Node, q: seq<nat>, parent: Option<string>, par: Option<string>, role: Node -> Role)
    requires ValidPath(n, q) && |q| >= 1
    ensures Reported(n, q, parent, par, role)
            <==> NoFunctionAbove(n, q, role) && !role(At(n, q)).OtherRole? && par == ReportedParent(n, q, parent, role)
    decreases |q|
  {
    var c := n.children[q[0]];
    var rest := q[1..];
    if |q| == 1 {
      assert At(n, q) == c by { assert q[1..] == []; }
    } else {
      var below := ParentBelow(role(c), parent);
      ReportedCharacterised(c, rest, below, par, role);
      assert At(n, q) == At(c, rest);
      EnclosingClassStep(n, q, |q|, parent, role);
      assert ReportedParent(n, q, parent, role) == ReportedParent(c, rest, below, role);
      forall k | 1 <= k < |q|
        ensures Ancestor(n, q, k) == if k == 1 then c else Ancestor(c, rest, k - 1)
      {
        AncestorStep(n, q, k);
      }
      if NoFunctionAbove(n, q, role) {
        forall k | 1 <= k < |rest|
          ensures !role(Ancestor(c, rest, k)).FunctionRole?
        {
          assert Ancestor(n, q, k + 1) == Ancestor(c, rest, k);
        }
      }
      if !role(c).FunctionRole? && NoFunctionAbove(c, rest, role) {
        forall k | 1 <= k < |q|
          ensures !role(Ancestor(n, q, k)).FunctionRole?
        {
          if k > 1 {
            assert Ancestor(n, q, k) == Ancestor(c, rest, k - 1);
          }
        }
      }
      assert Ancestor(n, q, 1) == c;
    }
  }

  /** The entries `walk(n, parent)` appends for the first `k` children of `n`, computed the way the walk goes. */
  ghost function WalkRecords(n: Node, k: nat, parent: Option<string>, role: Node -> Role,
                             rec: (Node, Option<string>) -> Structure): seq<Structure>
    requires k <= |n.children|
    decreases n, k
  {
    if k == 0 then [] else WalkRecords(n, k - 1, parent, role, rec) + VisitRecords(n.children[k - 1], parent, role, rec)
  }

  /** The entries one child contributes: its own if it is a definition, then those inside it unless it is a function. */
  ghost function VisitRecords(c: Node, parent: Option<string>, role: Node -> Role,
                              rec: (Node, Option<string>) -> Structure): seq<Structure>
    decreases c, |c.children| + 1
  {
    match role(c)
    case FunctionRole => [rec(c, parent)]
    case ClassRole(name) => [rec(c, None)] + WalkRecords(c, |c.children|, name, role, rec)
    case OtherRole => WalkRecords(c, |c.children|, parent, role, rec)
  }

  /** The entries are those of the reported definitions, in the order the walk finds them. */
  lemma {:induction false} WalkRecordsFound(n: Node, k: nat, parent: Option<string>, role: Node -> Role,
                                            rec: (Node, Option<string>) -> Structure)
    requires k <= |n.children|
    ensures WalkRecords(n, k, parent, role, rec) == Records(Walk(n, k, parent, role), rec)
    decreases n, k
  {
    if k > 0 {
      var c := n.children[k - 1];
      assert c in n.children;
      WalkRecordsFound(n, k - 1, parent, role, rec);
      VisitRecordsFound(c, k - 1, parent, role, rec);
      RecordsAppend(Walk(n, k - 1, parent, role), Visit(c, k - 1, parent, role), rec);
    }
  }

  lemma {:induction false} VisitRecordsFound(c: Node, j: nat, parent: Option<string>, role: Node -> Role,
                                             rec: (Node, Option<string>) -> Structure)
    ensures VisitRecords(c, parent, role, rec) == Records(Visit(c, j, parent, role), rec)
    decreases c, |c.children| + 1
  {
    match role(c)
    case FunctionRole =>
      assert Records([Found([j], c, parent)], rec) == [rec(c, parent)];
    case ClassRole(name) =>
      var inner := Walk(c, |c.children|, name, role);
      WalkRecordsFound(c, |c.children|, name, role, rec);
      assert Records([Found([j], c, None)], rec) == [rec(c, None)];
      RecordsAppend([Found([j], c, None)], Prefixed(j, inner), rec);
      RecordsPrefixed(j, inner, rec);
    case OtherRole =>
      WalkRecordsFound(c, |c.children|, parent, role, rec);
      RecordsPrefixed(j, Walk(c, |c.children|, parent, role), rec);
  }

  lemma RecordsAppend(a: seq<Found>, b: seq<Found>, rec: (Node, Option<string>) -> Structure)
    ensures Records(a + b, rec) == Records(a, rec) + Records(b, rec)
  {
  }

  lemma RecordsPrefixed(j: nat, fs: seq<Found>, rec: (Node, Option<string>) -> Structure)
    ensures Records(Prefixed(j, fs), rec) == Records(fs, rec)
  {
  }

  /** The recursive `walk(node, parent_name)`, appending to `result`. */
  method WalkNode(node: Node, parentName: Option<string>, l: Language, result: seq<Structure>) returns (out: seq<Structure>)
    ensures out == result + WalkRecords(node, |node.children|, parentName, Roles(l), RecordFor(l))
    decreases node, 0
  {
    out := result;
    var i := 0;
    while i < |node.children|
      invariant i <= |node.children|
      invariant out == result + WalkRecords(node, i, parentName, Roles(l), RecordFor(l))
    {
      var child := node.children[i];
      assert child in node.children;
      out := VisitChild(child, parentName, l, out);
      AppendAssoc(result, WalkRecords(node, i, parentName, Roles(l), RecordFor(l)),
                  VisitRecords(child, parentName, Roles(l), RecordFor(l)));
      i := i + 1;
    }
  }

  /** One iteration of `walk`'s loop over the children. */
  method VisitChild(child: Node, parentName: Option<string>, l: Language, result: seq<Structure>) returns (out: seq<Structure>)
    ensures out == result + VisitRecords(child, parentName, Roles(l), RecordFor(l))
    decreases child, 1
  {
    if IsFunctionType(l, child.kind) {
      var entry := FunctionEntry(child, parentName, l);
      out := result + [entry];
    } else if IsClassType(l, child.kind) {
      var entry := ClassEntry(child, l);
      out := WalkNode(child, entry.name, l, result + [entry]);
      AppendAssoc(result, [entry], WalkRecords(child, |child.children|, entry.name, Roles(l), RecordFor(l)));
    } else {
      out := WalkNode(child, parentName, l, result);
    }
  }

  /** The tuple `walk` appends for a function: its name, lines, parameters, the current parent and its text. */
  method FunctionEntry(child: Node, parentName: Option<string>, l: Language) returns (entry: Structure)
    requires IsFunctionType(l, child.kind)
    ensures entry == RecordOf(child, parentName, l)
    ensures entry.kind == (if l == Python then "FunctionDef" else "Function") && entry.parent == parentName
  {
    var name := ExtractNameOf(child, l);
    var params := ExtractParameters(child, l);
    entry := Structure(if l == Python then "FunctionDef" else "Function", name, child.startPoint.row + 1, child.endPoint.row + 1,
                       params, parentName, child.text);
  }

  /** The tuple `walk` appends for a class: its name, lines, no parameters, no parent, and its text. */
  method ClassEntry(child: Node, l: Language) returns (entry: Structure)
    requires !IsFunctionType(l, child.kind) && IsClassType(l, child.kind)
    ensures entry == RecordOf(child, None, l) && entry.name == ExtractName(child, l)
    ensures entry.kind == (if l == Python then "ClassDef" else "Class") && entry.params == [] && entry.parent == None
  {
    var name := ExtractNameOf(child, l);
    entry := Structure(if l == Python then "ClassDef" else "Class", name, child.startPoint.row + 1, child.endPoint.row + 1,
                       [], None, child.text);
  }

  /**
   * What `get_functions_and_classes` lists for a tree: one entry for each
   * function or class that has no function above it, reported with the
   * nearest enclosing class as its parent if it is a function and with no
   * parent if it is a class.
   */
  lemma StructuresListed(root: Node, l: Language, s: Structure)
    ensures s in Records(Walk(root, |root.children|, None, Roles(l)), RecordFor(l))
            <==> exists q :: ValidPath(root, q) && |q| >= 1 && NoFunctionAbove(root, q, Roles(l)) && !RoleOf(l, At(root, q)).OtherRole?
                             && s == RecordOf(At(root, q), ReportedParent(root, q, None, Roles(l)), l)
  {
    var fs := Walk(root, |root.children|, None, Roles(l));
    RecordsMembers(fs, RecordFor(l), s);
    if s in Records(fs, RecordFor(l)) {
      var f :| f in fs && s == RecordFor(l)(f.node, f.parent);
      WalkMembers(root, |root.children|, None, Roles(l), f);
      ReportedCharacterised(root, f.path, None, f.parent, Roles(l));
    }
    if exists q :: ValidPath(root, q) && |q| >= 1 && NoFunctionAbove(root, q, Roles(l)) && !RoleOf(l, At(root, q)).OtherRole?
                   && s == RecordOf(At(root, q), ReportedParent(root, q, None, Roles(l)), l) {
      var q :| ValidPath(root, q) && |q| >= 1 && NoFunctionAbove(root, q, Roles(l)) && !RoleOf(l, At(root, q)).OtherRole?
               && s == RecordOf(At(root, q), ReportedParent(root, q, None, Roles(l)), l);
      var f := Found(q, At(root, q), ReportedParent(root, q, None, Roles(l)));
      ReportedCharacterised(root, q, None, f.parent, Roles(l));
      WalkMembers(root, |root.children|, None, Roles(l), f);
    }
  }

  /**
   * `get_functions_and_classes`: nothing without a tree or a language;
   * otherwise the records of the definitions the walk from the root
   * reports, with no parent at the top.
   */
  method GetFunctionsAndClasses(root: Option<Node>, language: Option<Language>) returns (result: seq<Structure>)
    ensures root.None? || language.None? ==> result == []
    ensures root.Some? && language.Some?
            ==> result == Records(Walk(root.value, |root.value.children|, None, Roles(language.value)), RecordFor(language.value))
  {
    if root.None? || language.None? {
      return [];
    }
    result := WalkNode(root.value, None, language.value, []);
    WalkRecordsFound(root.value, |root.value.children|, None, Roles(language.value), RecordFor(language.value));
  }

  // ---------------------------------------------------------------------
  // get_obj_code_info and generate_file_structure
  // ---------------------------------------------------------------------

  /** The dictionary `get_obj_code_info` builds for one definition. */
  datatype CodeInfo = CodeInfo(kind: string, name: Option<string>, mdContent: seq<string>, startLine: int, endLine: int,
                               params: seq<string>, haveReturn: bool, codeContent: string, nameColumn: int)

  /**
   * `get_obj_code_info`, given the lines of the file it reads (`readlines`,
   * each line with its end). It raises ValueError with no path to read,
   * IndexError when the file has lines but `start_line - 1` is not an
   * index of them, and TypeError when the name it searches for is None.
   */
  function GetObjCodeInfo(kind: string, name: Option<string>, startLine: int, endLine: int, params: seq<string>,
                          filePath: Option<string>, defaultPath: Option<string>, lines: seq<string>): (r: Result<CodeInfo>)
    ensures r.Err? <==> (filePath.None? && defaultPath.None?)
                        || (|lines| > 0 && (PyIndex(startLine - 1, |lines|).None? || name.None?))
    ensures r.Ok? ==> r.value.kind == kind && r.value.name == name && r.value.mdContent == []
                      && r.value.startLine == startLine && r.value.endLine == endLine && r.value.params == params
    ensures r.Ok? ==> (r.value.haveReturn <==> Contains(r.value.codeContent, "return"))
  {
    if filePath.None? && defaultPath.None? then Err("ValueError")
    else
      var code := Join(PySlice(lines, startLine - 1, endLine), "");
      if |lines| == 0 then Ok(CodeInfo(kind, name, [], startLine, endLine, params, Contains(code, "return"), code, 0))
      else match PyIndex(startLine - 1, |lines|)
        case None => Err("IndexError")
        case Some(i) =>
          if name.None? then Err("TypeError")
          else Ok(CodeInfo(kind, name, [], startLine, endLine, params, Contains(code, "return"), code, Find(lines[i], name.value)))
  }

  /**
   * For a definition inside the file: the code is its lines joined, and
   * the name column is the first place the name occurs on its first line,
   * -1 when it does not occur there.
   */
  lemma GetObjCodeInfoInRange(kind: string, name: string, startLine: int, endLine: int, params: seq<string>,
                              filePath: Option<string>, defaultPath: Option<string>, lines: seq<string>) returns (info: CodeInfo)
    requires filePath.Some? || defaultPath.Some?
    requires 1 <= startLine <= endLine <= |lines|
    ensures GetObjCodeInfo(kind, Some(name), startLine, endLine, params, filePath, defaultPath, lines) == Ok(info)
    ensures info.codeContent == Join(lines[startLine - 1..endLine], "")
    ensures info.nameColumn == -1 <==> !Contains(lines[startLine - 1], name)
    ensures info.nameColumn != -1 ==> OccursAt(lines[startLine - 1], name, info.nameColumn)
    ensures info.nameColumn == Find(lines[startLine - 1], name)
  {
    info := GetObjCodeInfo(kind, Some(name), startLine, endLine, params, filePath, defaultPath, lines).value;
  }

  /** An empty file gives empty code, no return and name column 0, whatever the lines and the name. */
  lemma GetObjCodeInfoEmptyFile(kind: string, name: Option<string>, startLine: int, endLine: int, params: seq<string>,
                                filePath: Option<string>, defaultPath: Option<string>)
    requires filePath.Some? || defaultPath.Some?
    ensures var r := GetObjCodeInfo(kind, name, startLine, endLine, params, filePath, defaultPath, []);
            r.Ok? && r.value.codeContent == "" && !r.value.haveReturn && r.value.nameColumn == 0
  {
    assert !OccursAt("", "return", 0);
  }

  /** Python's negative indexing: a start line of 0 searches the name on the file's last line. */
  lemma GetObjCodeInfoStartZero(kind: string, name: string, endLine: int, params: seq<string>, path: string, lines: seq<string>)
    requires |lines| > 0
    ensures var r := GetObjCodeInfo(kind, Some(name), 0, endLine, params, Some(path), None, lines);
            r.Ok? && r.value.nameColumn == Find(lines[|lines| - 1], name)
  {
  }

  /** An entry of `generate_file_structure`: the code information with the parent from the walk. */
  datatype FileObject = FileObject(info: CodeInfo, parent: Option<string>)

  /** The objects for the first `k` entries of the walk, or the first exception `get_obj_code_info` raises. */
  function FileObjects(ss: seq<Structure>, k: nat, path: string, lines: seq<string>): (r: Result<seq<FileObject>>)
    requires k <= |ss|
    ensures r.Ok? ==> |r.value| == k
  {
    if k == 0 then Ok([])
    else match FileObjects(ss, k - 1, path, lines)
      case Err(e) => Err(e)
      case Ok(objs) =>
        var s := ss[k - 1];
        match GetObjCodeInfo(s.kind, s.name, s.startLine, s.endLine, s.params, Some(path), None, lines)
        case Err(e) => Err(e)
        case Ok(info) => Ok(objs + [FileObject(info, s.parent)])
  }

  /** Whether entry `j` makes `get_obj_code_info` raise. */
  predicate EntryFails(ss: seq<Structure>, j: nat, path: string, lines: seq<string>)
    requires j < |ss|
  {
    GetObjCodeInfo(ss[j].kind, ss[j].name, ss[j].startLine, ss[j].endLine, ss[j].params, Some(path), None, lines).Err?
  }

  /** The file fails exactly when one of its entries does. */
  lemma {:induction false} FileObjectsFail(ss: seq<Structure>, k: nat, path: string, lines: seq<string>)
    requires k <= |ss|
    ensures FileObjects(ss, k, path, lines).Err? <==> exists j :: 0 <= j < k && EntryFails(ss, j, path, lines)
    decreases k
  {
    if k > 0 {
      FileObjectsFail(ss, k - 1, path, lines);
      if FileObjects(ss, k - 1, path, lines).Ok? && EntryFails(ss, k - 1, path, lines) {
        assert FileObjects(ss, k, path, lines).Err?;
      }
    }
  }

  /** Otherwise each object is its entry's code information with its parent. */
  lemma {:induction false} FileObjectsEntries(ss: seq<Structure>, k: nat, path: string, lines: seq<string>, j: nat)
    requires j < k <= |ss| && FileObjects(ss, k, path, lines).Ok?
    ensures !EntryFails(ss, j, path, lines)
    ensures FileObjects(ss, k, path, lines).value[j]
            == FileObject(GetObjCodeInfo(ss[j].kind, ss[j].name, ss[j].startLine, ss[j].endLine, ss[j].params,
                                         Some(path), None, lines).value, ss[j].parent)
    decreases k
  {
    if j < k - 1 {
      FileObjectsEntries(ss, k - 1, path, lines, j);
    }
  }

  /** Once an entry fails, the result is that failure. */
  lemma {:induction false} FileObjectsErrStays(ss: seq<Structure>, k: nat, m: nat, path: string, lines: seq<string>)
    requires k <= m <= |ss| && FileObjects(ss, k, path, lines).Err?
    ensures FileObjects(ss, m, path, lines) == FileObjects(ss, k, path, lines)
    decreases m
  {
    if k < m {
      FileObjectsErrStays(ss, k, m - 1, path, lines);
    }
  }

  /** One more entry: its failure, or its object appended. */
  lemma FileObjectsStep(ss: seq<Structure>, k: nat, path: string, lines: seq<string>, objs: seq<FileObject>)
    requires k < |ss| && FileObjects(ss, k, path, lines) == Ok(objs)
    ensures var s := ss[k];
      FileObjects(ss, k + 1, path, lines)
      == match GetObjCodeInfo(s.kind, s.name, s.startLine, s.endLine, s.params, Some(path), None, lines)
         case Err(e) => Err(e)
         case Ok(info) => Ok(objs + [FileObject(info, s.parent)])
  {
  }

  /** The loop of `generate_file_structure` over the walk's entries. */
  method CollectFileObjects(ss: seq<Structure>, path: string, lines: seq<string>) returns (r: Result<seq<FileObject>>)
    ensures r == FileObjects(ss, |ss|, path, lines)
  {
    var objs := [];
    for k := 0 to |ss|
      invariant FileObjects(ss, k, path, lines) == Ok(objs)
    {
      var s := ss[k];
      var info := GetObjCodeInfo(s.kind, s.name, s.startLine, s.endLine, s.params, Some(path), None, lines);
      FileObjectsStep(ss, k, path, lines, objs);
      if info.Err? {
        FileObjectsErrStays(ss, k + 1, |ss|, path, lines);
        return Err(info.error);
      }
      objs := objs + [FileObject(info.value, s.parent)];
    }
    return Ok(objs);
  }

  /**
   * `generate_file_structure` for a file whose text has lines `lines` and
   * parses to `root`: no objects for a file of unknown language, else one
   * per entry the walk reports.
   */
  method GenerateFileStructure(path: string, root: Node, lines: seq<string>) returns (r: Result<seq<FileObject>>)
    ensures DetectLanguage(path).None? ==> r == Ok([])
    ensures DetectLanguage(path).Some? ==>
              var ss := Records(Walk(root, |root.children|, None, Roles(DetectLanguage(path).value)), RecordFor(DetectLanguage(path).value));
              r == FileObjects(ss, |ss|, path, lines)
  {
    var language := DetectLanguage(path);
    if language.None? {
      return Ok([]);
    }
    var ss := GetFunctionsAndClasses(Some(root), language);
    r := CollectFileObjects(ss, path, lines);
  }

  /** `@dataclass class Point: ...`, as tree-sitter shapes it. */
  function DecoratedClassExample(): Node
  {
    var at := Point(0, 0);
    var body := Node("block", "body", Point(2, 4), Point(2, 10), "x: int", []);
    var cls := Node("class_definition", "definition", Point(1, 0), Point(2, 10), "class Point:\n    x: int",
                    [Node("class", "", Point(1, 0), Point(1, 5), "class", []), Node("identifier", "name", Point(1, 6), Point(1, 11), "Point", []),
                     Node(":", "", Point(1, 11), Point(1, 12), ":", []), body]);
    Node("decorated_definition", "", at, Point(2, 10), "@dataclass\nclass Point:\n    x: int",
         [Node("decorator", "", at, Point(0, 10), "@dataclass", []), cls])
  }

  /**
   * A decorated Python class is walked as a function whose name is None;
   * `get_obj_code_info` then raises TypeError for it, so the whole file
   * fails. With the class's own name the same entry is accepted.
   */
  lemma DecoratedClassFailsFile(lines: seq<string>)
    requires 2 <= |lines|
    ensures RoleOf(Python, DecoratedClassExample()).FunctionRole?
    ensures ExtractNameAsWritten(DecoratedClassExample(), Python) == None
    ensures var ss := [Structure("FunctionDef", ExtractNameAsWritten(DecoratedClassExample(), Python), 1, 3, [], None, DecoratedClassExample().text)];
            FileObjects(ss, 1, "m.py", lines) == Err("TypeError")
    ensures ExtractName(DecoratedClassExample(), Python) == Some("Point")
    ensures var ss := [Structure("FunctionDef", ExtractName(DecoratedClassExample(), Python), 1, 3, [], None, DecoratedClassExample().text)];
            FileObjects(ss, 1, "m.py", lines).Ok?
  {
    var n := DecoratedClassExample();
    assert FirstOfKind(n.children, "function_definition").None?;
    assert FirstDefinition(n.children) == Some(1) by {
      FirstDefinitionAt(n.children, 1);
    }
    var cs := n.children[1].children;
    assert FirstIdentifierOrName(cs) == Some(1) by {
      assert FirstIdentifierOrName(cs[1..]) == Some(0);
    }
  }

  // ---------------------------------------------------------------------
  // write_file
  // ---------------------------------------------------------------------

  /** POSIX `os.path.join(a, b)`: an absolute `b` replaces `a`. */
  function PathJoin(a: string, b: string): (r: string)
    ensures |b| > 0 && b[0] == '/' ==> r == b
    ensures !(|b| > 0 && b[0] == '/') ==> exists sep | sep in {"", "/"} :: r == a + sep + b
  {
    if |b| > 0 && b[0] == '/' then b
    else if a == "" || EndsWith(a, "/") then (assert a + b == a + "" + b; a + b)
    else a + "/" + b
  }

  /** The path `write_file` opens: one leading '/' is dropped, then the result is joined to the repository path. */
  function WriteFilePath(repoPath: string, filePath: string): string
  {
    PathJoin(repoPath, if |filePath| > 0 && filePath[0] == '/' then filePath[1..] else filePath)
  }

  /** A relative path, with or without one leading '/', lands under the repository. */
  lemma WriteFilePathUnderRepo(repoPath: string, p: string)
    requires !(|p| > 0 && p[0] == '/')
    ensures WriteFilePath(repoPath, "/" + p) == WriteFilePath(repoPath, p)
    ensures exists sep | sep in {"", "/"} :: WriteFilePath(repoPath, p) == repoPath + sep + p
  {
    assert ("/" + p)[1..] == p;
  }

  /** Only one '/' is dropped: a path starting with two is still absolute and leaves the repository. */
  lemma WriteFilePathDoubleSlash(repoPath: string, p: string)
    ensures WriteFilePath(repoPath, "//" + p) == "/" + p
  {
    assert ("//" + p)[1..] == "/" + p;
  }
}
