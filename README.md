# RepoAgent core, modelled in Dafny

RepoAgent documents a code repository incrementally. It parses every source
file into a tree of directories, files, classes and functions (the
`DocItem` tree held by `MetaInfo`). It records who references whom, and it
merges the documentation of an older version of the tree into a new one.
It then schedules one documentation task per item, so that an item is
documented after the items it depends on. Around this core sit the
tree-sitter file handler, the call-graph builder with its
strongly-connected-component compression, the unified-diff line tracker,
the reference finders, and a few string and outline utilities.

This project models that core and proves what it computes:

- `DocTree`, `DocSubtree`, `DocWalks`, `StrictNames`, `DocMeta`: the arena
  of items (ids, fathers, keyed children), `need_to_generate`, `find`,
  full names, and the recursive walks `check_depth`, `parse_tree_path`
  and `check_has_task`.
- `DocBuild`: `from_project_hierarchy_json`, which creates the directory
  chain, attaches each record by the containment rule, resolves key
  clashes with the `_k` suffix rule, and settles the kinds.
- `DocReferences`: `parse_reference`, with the reference lookup given as a
  function that returns hits.
- `DocMerge`: `load_doc_from_older_meta`, which carries documentation over,
  reports deleted subtrees and refreshes statuses.
- `DocTasks`: `get_task_manager`, which picks items greedily and breaks
  cycles.
- `MultiTaskDispatch`: the task table and its sequential worker.
- `Runner`: the status transitions of one generation step,
  `recursive_check`, `to_markdown` and `get_new_objects`.
- `CallsParser`: call extraction, the symmetric graph update, and the
  explicit-stack SCC pass.
- `ChangeDetector`: hunk line numbering and changed-structure detection.
- `ReferencesFinder`, `ReferencesFinderV2`: the tree-sitter reference
  finders.
- `FileHandler`, `FileMarkdown`: structure extraction and markdown
  rendering of a file.
- `ProjectManager`, `MetaInfoUtils`, `JsonHandler`, `GenerateSummary`:
  path trees, fake-file names, the chat tool's JSON search, and the book's
  SUMMARY outline.

Objects that Python updates in place are classes, or arenas of ids whose
methods reassign maps. Loops are methods with invariants, proved against
specification functions. Exceptions are `Err` results that carry the
exception's name. Syntax trees, reference hits, file contents and the
language model's answers are inputs.

## Model

| member | source | states |
|---|---|---|
| MetaInfoUtils.IsLatestVersionFileEndsWith | repo_agent/utils/meta_info_utils.py:11-15 | `is_latest_version_file_regex` holds exactly when the path ends in `_latest_version.` followed by py, java, go, kt or kts (with `$` also matching before one final newline) |
| MetaInfoUtils.GetLatestVersionPath | repo_agent/utils/meta_info_utils.py:17-20 | the marker `_latest_version` is placed between the `splitext` base and the extension |
| MetaInfoUtils.LatestVersionSubstringAccepted | repo_agent/utils/meta_info_utils.py:10-15 | every path ending in the suffix `_latest_version.py` is accepted by the latest-version pattern, so the file walk skips it |
| MetaInfoUtils.LatestVersionPathAccepted | repo_agent/utils/meta_info_utils.py:11-20 | for every path whose extension is one of the five, the fake-file path is accepted by the latest-version pattern |
| MetaInfoUtils.RecoverOriginalName | repo_agent/utils/meta_info_utils.py:96 | removing every `_latest_version` from the fake-file path gives the original path back when the original contains no marker |
| MetaInfoUtils.ReplaceAllNone | repo_agent/utils/meta_info_utils.py:96 | `str.replace` of a pattern that does not occur leaves the string unchanged |
| MultiTaskDispatch.TaskManager.constructor | repo_agent/multi_task_dispatch.py:19-22 | an empty table with both counters at 0 |
| MultiTaskDispatch.TaskManager.AllSuccess | repo_agent/multi_task_dispatch.py:24-26 | true exactly when no task is left in the table; when false some task id is still present |
| MultiTaskDispatch.TaskManager.AddTask | repo_agent/multi_task_dispatch.py:28-34 | with every dependency id present, the task is stored under `now_id` with those dependencies, status 0 and the payload, that id is returned and `now_id` grows by one; a missing dependency id raises KeyError and changes nothing; the table invariants (dependencies present, distinct, earlier ids, all pending) are kept |
| MultiTaskDispatch.TaskManager.GetNextTask | repo_agent/multi_task_dispatch.py:36-48 | `query_id` grows by one; when no task has an empty dependency list and status 0 the result is `(None, -1)` and nothing changes; otherwise the first ready task in table order is returned and only its status becomes 1 |
| MultiTaskDispatch.TaskManager.MarkCompleted | repo_agent/multi_task_dispatch.py:50-55 | a present id leaves the table and one occurrence of it leaves every remaining task's dependency list, nothing else changes; a missing id raises KeyError and changes nothing |
| MultiTaskDispatch.SomeTaskReady | repo_agent/multi_task_dispatch.py:36-48 | in a non-empty table whose dependencies point to smaller present ids, some task is ready, so the sequential worker never waits |
| MultiTaskDispatch.ProgressStep | repo_agent/multi_task_dispatch.py:58-67 | handling a ready task and marking it completed keeps the worker's invariant: handled ids leave the table in an order where each task comes after all its dependencies |
| MultiTaskDispatch.CompletionStep | repo_agent/multi_task_dispatch.py:50-55 | handing a task out and completing it keeps the table well formed (pending, duplicate-free, depending only on smaller present ids) |
| MultiTaskDispatch.Worker | repo_agent/multi_task_dispatch.py:58-67 | run alone, the worker drains the table, handles each initial task exactly once, hands the handler each task's payload, and handles every task after all its dependencies |
| JsonHandler.Get | repo_agent/chat_with_repo/json_handler.py:30-37 | `item.get(key)` finds a value exactly when the key occurs, and then it is the value of the key's last occurrence, which is the one `json.load` keeps |
| JsonHandler.GetOrGet | repo_agent/chat_with_repo/json_handler.py:30-37 | `item.get(key, default)` is the stored value when the key is present and the default otherwise |
| JsonHandler.FirstOf | repo_agent/chat_with_repo/json_handler.py:28 | `item["md_content"][0]` on a truthy value succeeds exactly for a list or a string |
| JsonHandler.ExtractFilesAligned | repo_agent/chat_with_repo/json_handler.py:20-40 | when `extract_data` succeeds, its two lists have equal length, and the `i`th summary and the `i`th metadata dict come from one documented item of one file's list |
| JsonHandler.NonListFileSkipped | repo_agent/chat_with_repo/json_handler.py:25 | a file entry whose value is not a list adds nothing to either list |
| JsonHandler.UndocumentedItemSkipped | repo_agent/chat_with_repo/json_handler.py:27 | an item whose `md_content` is missing or empty adds nothing to either list |
| JsonHandler.DefaultsOfBareItem | repo_agent/chat_with_repo/json_handler.py:29-38 | an item holding only `md_content` gets UnknownType, Unnamed, -1, -1, False, NoContent, 0 and UnknownStatus |
| JsonHandler.ExtractDataLoop | repo_agent/chat_with_repo/json_handler.py:20-40 | the nested loops compute the extraction, including the error raised by an item that is not a dict or by a summary that cannot be indexed |
| JsonHandler.ExtractItemsLoop | repo_agent/chat_with_repo/json_handler.py:26-39 | the inner loop over one file's items computes that file's extraction |
| JsonHandler.ItemsStep | repo_agent/chat_with_repo/json_handler.py:26-39 | one more item extends the extraction by its own entry, or makes it raise |
| JsonHandler.SearchBalanced | repo_agent/chat_with_repo/json_handler.py:42-53 | `recursive_search` appends to the code list and the summary list together, so the two stay equal in length unless a KeyError stops it between the two appends |
| JsonHandler.ChildIncluded | repo_agent/chat_with_repo/json_handler.py:43-53 | what the search of a nested dict or list appends is part of what the search of its container appends |
| JsonHandler.FindsAtAnyDepth | repo_agent/chat_with_repo/json_handler.py:47-53 | a dict with the searched name and `code_content`, in a list at any depth the search reaches, has its code collected unless a KeyError stopped the search |
| JsonHandler.RecursiveSearch | repo_agent/chat_with_repo/json_handler.py:42-53 | the method appends to the caller's lists exactly what the search function describes, and reports the KeyError of a match without `md_content` |
| JsonHandler.SearchDict | repo_agent/chat_with_repo/json_handler.py:43-46 | the dict branch searches each dict or list value in order |
| JsonHandler.SearchList | repo_agent/chat_with_repo/json_handler.py:47-53 | the list branch takes each item's own match, then searches inside the item |
| JsonHandler.AppendOwnMatch | repo_agent/chat_with_repo/json_handler.py:49-52 | a dict with the searched name and `code_content` appends its code and then its `md_content`, or raises KeyError when `md_content` is missing |
| JsonHandler.SearchByNameShape | repo_agent/chat_with_repo/json_handler.py:55-73 | the search succeeds exactly when no KeyError escapes; a success holds two lists of equal, non-zero length, and the `"No matching item found."` sentinel in both when nothing matched |
| JsonHandler.SearchCodeContentsByName | repo_agent/chat_with_repo/json_handler.py:55-73 | on the loaded data, the method returns the search's two lists, the sentinel lists, or the `An error occurred` message |
| GenerateSummary.SearchFrom | display/book_tools/generate_summary_from_book.py:78 | a match of the pattern for ".md" or ".markdown" at the end of the name is 3 or 9 characters long |
| GenerateSummary.MarkdownStemAsWrittenCharacterised | display/book_tools/generate_summary_from_book.py:77-84 | for a name without newlines, `is_markdown_file` as written drops the last 9 characters when the name ends in `markdown`, the last 3 when it ends in `md`, and returns False otherwise: any character may stand for the dot |
| GenerateSummary.MarkdownStem | display/book_tools/generate_summary_from_book.py:77-84 | with the dots escaped, a name has a stem exactly when it ends in `.markdown` or `.md` |
| GenerateSummary.MarkdownStemRoundTrip | display/book_tools/generate_summary_from_book.py:77-84 | the stem of `stem + ".md"` and of `stem + ".markdown"` is `stem` |
| GenerateSummary.CommandScriptTakenForMarkdown | display/book_tools/generate_summary_from_book.py:78-82 | as written, `run.cmd` has the markdown stem `run.`; with the dot escaped it has none |
| GenerateSummary.CorrectedAcceptsLess | display/book_tools/generate_summary_from_book.py:77-84 | every newline-free name with an escaped-dot stem gets the same stem from the regex as written |
| GenerateSummary.CreateReadme | display/book_tools/generate_summary_from_book.py:6-12 | after `create_readme_if_not_exist` the directory has a README.md |
| GenerateSummary.CreateReadmeIdempotent | display/book_tools/generate_summary_from_book.py:6-12 | creating the README twice is creating it once, an existing README.md leaves the directory unchanged, and a new one only adds an entry after the old ones |
| GenerateSummary.CreateReadmeSize | display/book_tools/generate_summary_from_book.py:6-12 | creating a README does not change the size of the directory tree |
| GenerateSummary.AddReadmes | display/book_tools/generate_summary_from_book.py:43-47 | the first loop keeps the number of entries |
| GenerateSummary.AddReadmesSize | display/book_tools/generate_summary_from_book.py:43-47 | the first loop does not change the size of the tree, so the recursion on subdirectories terminates |
| GenerateSummary.Indentation | display/book_tools/generate_summary_from_book.py:58 | the indentation at depth `d` is `2 * d` characters |
| GenerateSummary.ListingRules | display/book_tools/generate_summary_from_book.py:61-65 | README.md is never listed; SUMMARY.md is listed exactly below the top level; any other file is listed exactly when it has a non-empty markdown stem |
| GenerateSummary.OutlineLeavesReadmes | display/book_tools/generate_summary_from_book.py:42-60 | after `output_markdown` every directory below the one processed has a README.md |
| GenerateSummary.OutlineKeepsReadme | display/book_tools/generate_summary_from_book.py:42-65 | processing a directory never removes its own README.md |
| GenerateSummary.EntriesKeepNames | display/book_tools/generate_summary_from_book.py:49-65 | the second loop keeps each entry's name and position |
| GenerateSummary.SubdirectoriesLinked | display/book_tools/generate_summary_from_book.py:52-58 | every subdirectory has a README.md once the first loop ran, so its line starts with the indentation and `- [name](` |
| GenerateSummary.CreateReadmes | display/book_tools/generate_summary_from_book.py:43-47 | the loop computes the first loop's result |
| GenerateSummary.OutputMarkdown | display/book_tools/generate_summary_from_book.py:42-65 | the method's text and resulting tree are those of the outline function |
| ProjectManager.GetFileLanguage | repo_agent/project_manager.py:18-24 | a path has a language exactly when its lower-cased `splitext` extension is `.py`, `.java`, `.go`, `.kt` or `.kts`, and the language is python, java, go or kotlin |
| ProjectManager.GetFileLanguageIgnoresCase | repo_agent/project_manager.py:45-48 | an extension and its lower-cased form give the same language |
| ProjectManager.MethodsOfMembers | repo_agent/project_manager.py:125-137 | a summary is listed exactly when some structure item is a function-like member whose parent is the class and the summary is taken from that item |
| ProjectManager.MethodsOfOrder | repo_agent/project_manager.py:128-136 | the listing follows the structure's order: the methods among a prefix of the structure are a prefix of the listing |
| ProjectManager.GetClassMethods | repo_agent/project_manager.py:125-137 | the loop computes the listing of the class's methods |
| ProjectManager.KeyIndex | repo_agent/project_manager.py:255-256 | a key's position among a node's children holds that key, and no child holds a key that is not found |
| ProjectManager.InsertPaths | repo_agent/project_manager.py:253-256 | walking `node = node[part]` adds exactly the prefixes of the chain: a chain of keys is in the new tree exactly when it was in the old one or is a prefix of the inserted chain |
| ProjectManager.MarkLast | repo_agent/project_manager.py:258-259 | the marker is put before the last segment and the other segments are unchanged |
| ProjectManager.InsertAllPaths | repo_agent/project_manager.py:251-256 | after inserting a list of paths, a chain is in the tree exactly when it was before or is a prefix of one of the split paths |
| ProjectManager.PathTreePaths | repo_agent/project_manager.py:244-262 | a chain of keys is in the path tree exactly when it is empty, a prefix of a referencing or referenced path split at `/`, or a prefix of the item's own path with its last segment marked |
| ProjectManager.InsertByKeyMultiset | repo_agent/project_manager.py:266 | inserting a child into the sorted list adds exactly that child |
| ProjectManager.InsertByKeySorted | repo_agent/project_manager.py:266 | inserting a child keeps the list sorted by key |
| ProjectManager.SortByKeyProperties | repo_agent/project_manager.py:266 | `sorted(tree.items())` orders the children by key with Python's string order and is a permutation of them |
| ProjectManager.Indent | repo_agent/project_manager.py:267 | the indentation at level `n` is `4 * n` spaces |
| ProjectManager.EntriesCountPermutation | repo_agent/project_manager.py:264-270 | the number of nodes under a list of children does not depend on the children's order |
| ProjectManager.TreeToStringLines | repo_agent/project_manager.py:264-270 | `tree_to_string` writes one line per node below the root |
| ProjectManager.WriteTree | repo_agent/project_manager.py:264-270 | the loop over the sorted children, recursing into each, computes the tree's text |
| ProjectManager.BuildPathTree | repo_agent/project_manager.py:244-272 | `build_path_tree` returns the text of the path tree: the referencing paths, the referenced paths and the marked item path inserted in that order |
| ChangeDetector.DigitRun | repo_agent/change_detector.py:99 | the `\d+` run starting at an index is the longest run of digits there |
| ChangeDetector.HunkHeaderOfFormat | repo_agent/change_detector.py:99-103 | every header `@@ -a,b +c,d @@heading` in git's format is recognised, and the two start lines `a` and `c` are read back |
| ChangeDetector.HeaderWithoutCounts | repo_agent/change_detector.py:99 | a header that leaves out the `,count` parts (`@@ -3 +3 @@`) is not recognised by the pattern |
| ChangeDetector.ParseDiffs | repo_agent/change_detector.py:79-115 | the loop, with both counters starting at 0, returns the added and removed lists of the line-by-line run |
| ChangeDetector.HunkNumbering | repo_agent/change_detector.py:98-113 | after a header and inside one hunk, each added line is recorded with its line number in the new file and each removed line with its number in the old file, and the counters end at the starts plus the lines each file has |
| ChangeDetector.HeaderSetsCounters | repo_agent/change_detector.py:100-103 | a header line records nothing and sets the two counters to the start lines |
| ChangeDetector.AddedRefBelow | repo_agent/change_detector.py:105-107 | the new-file numbers recorded in a hunk lie between the hunk's new start and that start plus the hunk's new-file lines |
| ChangeDetector.AddedRefIncreasing | repo_agent/change_detector.py:105-107 | inside one hunk the recorded new-file numbers strictly increase |
| ChangeDetector.AddedCount | repo_agent/change_detector.py:98-113 | one `added` entry is recorded per addition line, over any input |
| ChangeDetector.CollectTouched | repo_agent/change_detector.py:137-146 | a (name, parent) pair is collected exactly when some changed line falls in the inclusive range of a structure with that name and parent |
| ChangeDetector.IdentifyChangesInStructure | repo_agent/change_detector.py:120-147 | the added set and the removed set are the structures touched by the added and by the removed lines |
| CallsParser.NodeText | repo_agent/parsers/calls_parser.py:119-122 | `_get_node_text` gives a text exactly for a present node, and that text is the node's source text |
| CallsParser.FirstIdentifierChild | repo_agent/parsers/calls_parser.py:108-110 | the child found is one of the children and has kind `identifier`; when none is found no child has that kind |
| CallsParser.SelectorName | repo_agent/parsers/calls_parser.py:91-101 | a selector or member expression is named `left.right` exactly when both sides resolve to non-empty names, and None otherwise |
| CallsParser.ExtractFunctionNameNone | repo_agent/parsers/calls_parser.py:88-117 | `_extract_function_name` gives None only for an unresolved selector or member expression, a method invocation without a name field, or a call expression without an `identifier` child |
| CallsParser.DefinitionStep | repo_agent/parsers/calls_parser.py:33-61 | a node records at most one definition, with the 1-based start and end lines of the node, and the enclosing function is unchanged when nothing is recorded |
| CallsParser.NeverFails | repo_agent/parsers/calls_parser.py:32-84 | the walk with a None call name skipped never raises |
| CallsParser.CallFilter | repo_agent/parsers/calls_parser.py:70-79 | every recorded call lies inside a named definition, has a non-empty name, and its first dotted segment is not an ignored library of the language |
| CallsParser.AsWrittenAgrees | repo_agent/parsers/calls_parser.py:32-84 | wherever the walk as written does not raise, the corrected walk records the same definitions and calls |
| CallsParser.KotlinCallRaises | repo_agent/parsers/calls_parser.py:70-77 | a Kotlin `foo()` has no `identifier` child, so its name is None and the walk as written raises on `call_name.split`, while the corrected walk skips the call |
| CallsParser.LastNamed | repo_agent/parsers/calls_parser.py:138-143 | the index found is that of the last record with the name, and -1 when there is none |
| CallsParser.LastComponent | repo_agent/parsers/calls_parser.py:220 | the component found lists the node, and no later component does |
| CallsParser.ComponentOf | repo_agent/parsers/calls_parser.py:220 | `component_of` has exactly the nodes of the components as keys, and maps each to the last component that lists it |
| CallsParser.CountsOfFirstVisits | repo_agent/parsers/calls_parser.py:196-200 | pushing first visits of nodes that have no index yet adds no repeat visit and no finish, which is what makes the traversal terminate |
| CallsParser.ScanOnEntry | repo_agent/parsers/calls_parser.py:196-202 | the first-visit scan pushes every neighbour without an index, only key neighbours, and lowers the lowlink of the current node to at most the index of every on-stack neighbour, touching no other lowlink |
| CallsParser.ScanOnExit | repo_agent/parsers/calls_parser.py:204-208 | the finishing scan lowers the lowlink of the current node to at most the lowlink of every on-stack key neighbour, touching no other lowlink |
| CallsParser.PopComponent | repo_agent/parsers/calls_parser.py:210-217 | the pop succeeds exactly when the current node is on the stack; the component is the stack's top down to the current node, in pop order, and each popped node is marked off-stack |
| CallsParser.Compress | repo_agent/parsers/calls_parser.py:221-229 | the compressed graph has one entry per component id, holding that component's nodes and exactly the other components its nodes call, and never the component itself |
| CallsParser.WithCall | repo_agent/parsers/calls_parser.py:144-146 | adding a call adds the callee to the caller's calls and the caller to the callee's called_by, creates missing entries, and changes nothing else |
| CallsParser.WithCallSymmetric | repo_agent/parsers/calls_parser.py:144-146 | adding a call in both directions keeps `calls` and `called_by` mirror images of each other |
| CallsParser.AfterLocationsEffect | repo_agent/parsers/calls_parser.py:138-143 | storing locations adds exactly the named definitions as keys, leaves every calls and called_by set unchanged, and gives each key the location of the last definition of that name |
| CallsParser.AfterCallsKeys | repo_agent/parsers/calls_parser.py:144-146 | the call loop adds exactly the calls' endpoints as keys and leaves locations alone |
| CallsParser.AfterCallsEdges | repo_agent/parsers/calls_parser.py:144-145 | after the call loop, b is in a's calls exactly when it was before or (a, b) is a recorded call |
| CallsParser.AfterCallsCallers | repo_agent/parsers/calls_parser.py:144-146 | after the call loop, b is in a's called_by exactly when it was before or (b, a) is a recorded call |
| CallsParser.AfterCallsSymmetric | repo_agent/parsers/calls_parser.py:144-146 | the call loop keeps the graph symmetric |
| CallsParser.ProcessedEdges | repo_agent/parsers/calls_parser.py:132-146 | after `process_file`, b is in a's calls exactly when it was before or the file records the call (a, b) |
| CallsParser.KeysMatchStore | repo_agent/parsers/calls_parser.py:139 | a `defaultdict` store keeps the key order in step with the keys, appending a new key at the end |
| CallsParser.CallGraphBuilder.constructor | repo_agent/parsers/calls_parser.py:10-24 | the builder starts with an empty call graph and empty components |
| CallsParser.CallGraphBuilder.Touch | repo_agent/parsers/calls_parser.py:139 | `defaultdict` access gives a missing key an empty entry, appended to the key order, and changes nothing else |
| CallsParser.CallGraphBuilder.AddCall | repo_agent/parsers/calls_parser.py:145-146 | one call is added in both directions and the components are left alone |
| CallsParser.CallGraphBuilder.ProcessFile | repo_agent/parsers/calls_parser.py:132-149 | a file that cannot be loaded changes nothing; otherwise the graph becomes the stored locations followed by the added calls, and stays symmetric |
| CallsParser.CallGraphBuilder.StoreLocations | repo_agent/parsers/calls_parser.py:138-143 | the first loop computes the graph with the locations stored |
| CallsParser.CallGraphBuilder.AddCalls | repo_agent/parsers/calls_parser.py:144-146 | the second loop computes the graph with the calls added |
| CallsParser.CallGraphBuilder.ComputeSccAndCompress | repo_agent/parsers/calls_parser.py:176-229 | the call graph is unchanged; on success every component is non-empty and made of keys, `component_of` maps each node to its last component, and the compressed graph is exactly the components with the other components their nodes call; a failed pop leaves the fields as they were |
| CallsParser.Enter | repo_agent/parsers/calls_parser.py:189-202 | stage 0 gives the node the next index, pushes it on the component stack and marks it on-stack, and pushes a first visit for every neighbour key without an index |
| CallsParser.Exit | repo_agent/parsers/calls_parser.py:203-217 | stage 1 keeps the numbering, and appends one component exactly when the node's lowlink equals its index; it fails only when the node is no longer on the stack |
| CallsParser.TraverseFrom | repo_agent/parsers/calls_parser.py:186-217 | the `dfs_stack` loop terminates and, on success, has numbered the start node and kept every earlier component |
| ReferencesFinder.FindDeepest | repo_agent/references_finder.py:127-152 | `_find_node_at_position` finds nothing exactly when the root does not contain the position; otherwise it finds a node that contains the position and none of whose children does |
| ReferencesFinder.DeeperAmong | repo_agent/references_finder.py:145-150 | the loop over the children returns the first child's deeper match, or the node itself when no child contains the position |
| ReferencesFinder.FirstIdentifier | repo_agent/references_finder.py:178-185 | the subtree search returns the node itself when it is an identifier, and otherwise only an identifier with non-empty text below it |
| ReferencesFinder.NearestSpanning | repo_agent/references_finder.py:168-175 | the upward walk finds the nearest ancestor that is an identifier spanning the position, and passes over no nearer one |
| ReferencesFinder.IdentifierAtPosition | repo_agent/references_finder.py:154-190 | the identifier at a position is the deepest node when it is an identifier, else the nearest spanning identifier above it, else the first identifier in its subtree, and None when no node holds the position |
| ReferencesFinder.ReferenceContext | repo_agent/references_finder.py:212-241 | the root is a usage, and any other node is a definition exactly when some proper ancestor has a definition kind |
| ReferencesFinder.FindAllIdentifiers | repo_agent/references_finder.py:192-210 | the walk returns the pre-order occurrences of identifiers with the target text |
| ReferencesFinder.CollectIdentifiers | repo_agent/references_finder.py:198-207 | the inner walk returns the node's own occurrence followed by each child's, in order |
| ReferencesFinder.OccurrenceReported | repo_agent/references_finder.py:198-207 | every identifier node with the target text anywhere below is reported, with its 1-based line, its column and its context |
| ReferencesFinder.ScopeDepth | repo_agent/references_finder.py:268-273 | the upward walk stops at the nearest ancestor-or-self with a scope kind, and falls back to the root |
| ReferencesFinder.FindEnclosingScope | repo_agent/references_finder.py:263-273 | the loop computes the enclosing scope, None when no node holds the position |
| ReferencesFinder.IsSameScope | repo_agent/references_finder.py:258-278 | two positions are in the same scope exactly when their enclosing scopes are the same node, or both are off the tree |
| ReferencesFinder.FilterReferencesByScope | repo_agent/references_finder.py:280-298 | the loop computes the scope filter |
| ReferencesFinder.ScopeFilteredSpec | repo_agent/references_finder.py:280-298 | the scope filter keeps, in order, exactly the definitions and the usages in the origin's scope |
| ReferencesFinder.WithoutOriginSpec | repo_agent/references_finder.py:330-332 | a reference is reported exactly when a match sits at its position, it names the file and the variable, and it is not the origin position |
| ReferencesFinder.FindReferencesInFile | repo_agent/references_finder.py:300-338 | nothing is found for an unknown language or a file that fails to parse; otherwise the scan, the optional scope filter and the removal of the origin, so no reference is at the origin |
| ReferencesFinder.DropOrigin | repo_agent/references_finder.py:327-334 | the loop tags each match with the file and the name and skips the origin position |
| ReferencesFinder.FullPathOfSourceFile | repo_agent/references_finder.py:400-410 | `_get_function_full_path` of `d/…/f.ext` is `d.….f` followed by `.Class.func` when a class is given and by `.func` otherwise |
| ReferencesFinder.ModulePathOfSourceFile | repo_agent/references_finder.py:405 | replacing the separators and dropping the last dotted part of `d/…/f.ext` gives `d.….f` |
| ReferencesFinder.IsLikelyImportMatch | repo_agent/references_finder.py:465-500 | the loop answers exactly the likely-match test: no imports at all, a direct match, a prefix either way, or a similar path |
| ReferencesFinder.PotentialPaths | repo_agent/references_finder.py:559-574 | the candidate paths always end with the module-level path of the reference's name |
| ReferencesFinder.Files | repo_agent/references_finder.py:526 | the file list has one entry per reference, its file |
| ReferencesFinder.RefsInMembers | repo_agent/references_finder.py:525-527 | a file's group holds exactly the references in that file |
| ReferencesFinder.GroupedMembers | repo_agent/references_finder.py:531-589 | after the loop over the groups, a reference is kept exactly when its file is listed, it is a reference, and it passes the per-file test |
| ReferencesFinder.ImportFilteredMembers | repo_agent/references_finder.py:502-591 | once the import filter runs, it keeps exactly the references in the origin file, and those in a file of known language that cannot be read or has a potential path that is a likely import match |
| ReferencesFinder.FileListed | repo_agent/references_finder.py:525-531 | every reference's file is one of the grouped files |
| ReferencesFinder.ReferencePasses | repo_agent/references_finder.py:553-584 | a reference of a readable candidate file passes exactly when one of its potential paths is a likely import match |
| ReferencesFinder.AnyLikelyImportMatch | repo_agent/references_finder.py:577-581 | the loop that stops at the first match answers whether any path is a likely import match |
| ReferencesFinder.RefsInAbsent | repo_agent/references_finder.py:525-527 | a file with no reference has an empty group |
| ReferencesFinder.FileOrderDedup | repo_agent/references_finder.py:525-531 | the `defaultdict` key order is the references' files in first-occurrence order |
| ReferencesFinder.GroupsOfSnoc | repo_agent/references_finder.py:526-527 | one more reference is appended to its file's group, and a new file opens a group last in the key order |
| ReferencesFinder.GroupByFile | repo_agent/references_finder.py:525-527 | the grouping loop gives each file in first-occurrence order exactly its references, in order |
| ReferencesFinder.KeptInAll | repo_agent/references_finder.py:533-536 | when every reference of a file passes, the whole group is kept |
| ReferencesFinder.KeptInNone | repo_agent/references_finder.py:539-541 | when no reference of a file passes, nothing of the group is kept |
| ReferencesFinder.KeepPassing | repo_agent/references_finder.py:553-584 | the per-reference loop keeps exactly the passing references of a readable candidate file |
| ReferencesFinder.FilterFile | repo_agent/references_finder.py:531-589 | one file's step keeps the group's passing references |
| ReferencesFinder.FilterGroups | repo_agent/references_finder.py:531-589 | the loop over the groups keeps, file by file in key order, each file's passing references |
| ReferencesFinder.FilterReferencesByImports | repo_agent/references_finder.py:502-595 | the method computes the import filter, including the unfiltered result for no references, an unknown origin language and unreadable imports |
| ReferencesFinder.Candidates | repo_agent/references_finder.py:612-624 | every candidate is a walked file of a known language, with priority 0 exactly for the origin's language and 1 otherwise |
| ReferencesFinder.HavingMembers | repo_agent/references_finder.py:627 | the entries of one priority are exactly the entries with that priority |
| ReferencesFinder.ByPriorityIsStableSort | repo_agent/references_finder.py:627 | `list.sort` by priority puts all priority-0 entries first, keeps the same entries, and keeps the walk order within each priority |
| ReferencesFinder.ConcatMembers | repo_agent/references_finder.py:629-637 | a reference is collected exactly when one of the entries' searches found it |
| ReferencesFinder.CollectReferences | repo_agent/references_finder.py:629-640 | the loop over the sorted entries extends the list by each file's references, in order |
| ReferencesFinder.ListCandidates | repo_agent/references_finder.py:610-624 | the walk loop lists the candidates |
| ReferencesFinder.FindReferencesInRepo | repo_agent/references_finder.py:597-645 | the method returns the repository search: nothing for an unknown origin language, otherwise the collected references through the import filter |
| ReferencesFinder.RawReferencesShape | repo_agent/references_finder.py:629-637 | every collected reference names the target, lies in a listed file and is not at the origin position |
| ReferencesFinder.FileReferencesShape | repo_agent/references_finder.py:327-334 | every reference found in a file names that file and the target, and is not at the origin position |
| ReferencesFinder.RepoReferencesShape | repo_agent/references_finder.py:597-645 | the origin position is never reported in any file, and every reference names the target and lies in a walked file of known language |
| ReferencesFinder.RawReferencesOrder | repo_agent/references_finder.py:627-637 | before the import filter, references in files of the origin's language come first |
| ReferencesFinder.DedupOrder | repo_agent/references_finder.py:525-531 | taking first occurrences keeps the origin's language first |
| ReferencesFinder.GroupedOrder | repo_agent/references_finder.py:531-589 | the group loop keeps the origin's language first |
| ReferencesFinder.RepoReferencesOrder | repo_agent/references_finder.py:597-645 | the repository search reports references in files of the origin's language before all others, with or without the import filter |
| ReferencesFinderV2.FindReferencesInRepo | repo_agent/references_finder_v2.py:324-368 | the second finder's repository search is the collected references without an import filter |
| ReferencesFinderV2.RepoReferencesShape | repo_agent/references_finder_v2.py:324-368 | the origin position is never reported, and every reference names the target in a walked file of known language |
| ReferencesFinderV2.RepoReferencesOrder | repo_agent/references_finder_v2.py:324-368 | references in files of the origin's language come before all others |
| ReferencesFinderV2.ImportFilterOnlyRemoves | repo_agent/references_finder.py:642-645 | the first finder only removes references: each of its results is one of the second finder's, and the two agree when the origin's imports cannot be read |
| SourceLanguages.LanguageOfExtension | repo_agent/references_finder.py:111-117 | an extension has a language exactly when it is `.py`, `.java`, `.go`, `.kt` or `.kts` |
| SourceLanguages.DetectLanguageKnown | repo_agent/references_finder.py:109-119 | a path whose `splitext` extension lower-cases to one of the five has that extension's language, whatever its case |
| SourceLanguages.DetectLanguageUnknown | repo_agent/references_finder.py:109-119 | any other extension gives None |
| SourceLanguages.ExtensionRoundTrip | repo_agent/references_finder.py:99-119 | `_detect_language("f." + _get_extension(l))` gives back `l` for each of the four languages |
| SourceLanguages.UnknownLanguageExtension | repo_agent/references_finder.py:99-107 | an unknown language name gets `txt`, which no language claims |
| FileHandler.DetectLanguageName | repo_agent/file_handler.py:81-84 | `_detect_language` names a language exactly when the lower-cased extension is one of the five, and the name is that of the shared extension table |
| FileHandler.FirstOfKind | repo_agent/file_handler.py:202-203 | the first child of a kind is found, and no earlier child has that kind |
| FileHandler.FindFirstOfKind | repo_agent/file_handler.py:202-204 | the loop over the children stops at the first child of the kind |
| FileHandler.GoNameIndexFrom | repo_agent/file_handler.py:238-256 | the child taken as a Go name is the first field identifier or identifier with no parameter list before it |
| FileHandler.ExtractGoFunctionName | repo_agent/file_handler.py:232-258 | the loop returns the first child that qualifies as a Go name, or `unknown` |
| FileHandler.FirstIdentifierOrName | repo_agent/file_handler.py:227-229 | the generic extractor takes the first child of kind `identifier` or `name` |
| FileHandler.ExtractNameAsWritten | repo_agent/file_handler.py:198-209 | `extract_name` returns None exactly for a decorated definition with no `function_definition` child, such as a decorated class |
| FileHandler.FirstDefinition | repo_agent/file_handler.py:201-204 | the first child that is a function or class definition is found, and no earlier child is one |
| FileHandler.ExtractName | repo_agent/file_handler.py:198-230 | with decorated classes handled, the name is missing only for a decorated definition that wraps neither a function nor a class |
| FileHandler.ExtractNameCorrected | repo_agent/file_handler.py:198-209 | the corrected extractor agrees with the code as written on every node that is not decorated, and on every node with no class child |
| FileHandler.ExtractNameOf | repo_agent/file_handler.py:198-258 | the extraction loops compute the name |
| FileHandler.CollectTexts | repo_agent/file_handler.py:320-322 | the loop collects the texts of the children of one kind, in order |
| FileHandler.EntryParameters | repo_agent/file_handler.py:284-337 | one entry of a parameter list contributes the names its language's extractor takes from it |
| FileHandler.CollectParameters | repo_agent/file_handler.py:283-338 | the loop over a parameter list collects each entry's names, in order |
| FileHandler.ExtractParameters | repo_agent/file_handler.py:260-339 | the method computes the parameters of a definition for its language |
| FileHandler.PythonParameterMembers | repo_agent/file_handler.py:281-294 | a Python parameter is listed exactly when it is a bare identifier entry or the first identifier of a `default_parameter` entry |
| FileHandler.GoReceiverTakenForParameters | repo_agent/file_handler.py:312-324 | for `func (s *T) M(x int)` the code as written lists the receiver `s` as the parameters; the corrected extractor lists `x` |
| FileHandler.GoParameterListNames | repo_agent/file_handler.py:314-323 | a Go parameter list with one declaration lists that declaration's identifier |
| FileHandler.ParametersCorrected | repo_agent/file_handler.py:260-339 | a Go method's parameters come from its `parameters` field; every other definition's are those of the code as written |
| FileHandler.RoleOf | repo_agent/file_handler.py:353-389 | the function kinds are tested before the class kinds, and a class carries its extracted name |
| FileHandler.Records | repo_agent/file_handler.py:357-386 | there is one entry per reported definition, built from its node and parent, in order |
| FileHandler.WalkMembers | repo_agent/file_handler.py:348-389 | a definition is reported by the walk of the first children exactly when it lies below one of them, has no function above it, is a function or a class, and carries the parent the walk computes for it |
| FileHandler.ReportedCharacterised | repo_agent/file_handler.py:348-389 | a node is reported exactly when no function lies above it, it is a function or a class, and its parent is the nearest enclosing class name for a function and None for a class |
| FileHandler.WalkRecordsFound | repo_agent/file_handler.py:348-389 | the entries the walk appends are the records of the definitions it reports |
| FileHandler.WalkNode | repo_agent/file_handler.py:348-389 | the recursive walk appends to the result exactly the records of the definitions below the node |
| FileHandler.VisitChild | repo_agent/file_handler.py:350-389 | one child is recorded, entered or both according to its role |
| FileHandler.FunctionEntry | repo_agent/file_handler.py:353-371 | a function is recorded as FunctionDef for Python and Function otherwise, with the current parent |
| FileHandler.ClassEntry | repo_agent/file_handler.py:373-386 | a class is recorded as ClassDef for Python and Class otherwise, with no parameters and parent None |
| FileHandler.StructuresListed | repo_agent/file_handler.py:341-392 | an entry is listed exactly when it is the record of some node below the root that has no function above it and is a function or a class |
| FileHandler.GetFunctionsAndClasses | repo_agent/file_handler.py:341-392 | no root or no language gives nothing; otherwise the result is the records of the walk |
| FileHandler.GetObjCodeInfo | repo_agent/file_handler.py:394-429 | the call fails exactly with no path, or when the file has lines and `start_line - 1` is no index of them or the name is None; otherwise the result carries the given fields, an empty `md_content`, and `have_return` exactly when `return` occurs in the code |
| FileHandler.GetObjCodeInfoInRange | repo_agent/file_handler.py:419-427 | inside the file, the code is the lines from `start_line` to `end_line` joined, and the name column is the first index of the name on the first line, -1 when it does not occur |
| FileHandler.GetObjCodeInfoEmptyFile | repo_agent/file_handler.py:419-420 | an empty file gives empty code, no return and name column 0 |
| FileHandler.GetObjCodeInfoStartZero | repo_agent/file_handler.py:420 | a start line of 0 searches the last line, as Python's index -1 does |
| FileHandler.FileObjectsFail | repo_agent/file_handler.py:457-474 | building a file's objects fails exactly when one of its entries makes `get_obj_code_info` raise |
| FileHandler.FileObjectsEntries | repo_agent/file_handler.py:457-472 | each object is the code information of the entry at the same position with the entry's parent added |
| FileHandler.CollectFileObjects | repo_agent/file_handler.py:457-474 | the loop computes the file's objects or the first exception |
| FileHandler.GenerateFileStructure | repo_agent/file_handler.py:431-484 | an unknown language gives an empty structure; otherwise the objects of the walk's entries, or the first exception |
| FileHandler.DecoratedClassFailsFile | repo_agent/file_handler.py:198-209 | a decorated Python class is reported as a function (a `decorated_definition` counts as one), its name as written is None and the whole file fails with TypeError; with the corrected extractor it is named `Point` and the file's objects are built |
| FileHandler.PathJoin | repo_agent/file_handler.py:140 | POSIX `os.path.join` keeps an absolute second part and otherwise joins the two parts with at most one `/` between them |
| FileHandler.WriteFilePathUnderRepo | repo_agent/file_handler.py:137-140 | a relative path, with or without one leading `/`, is written under the repository |
| FileHandler.WriteFilePathDoubleSlash | repo_agent/file_handler.py:137-140 | only one `/` is stripped, so a path starting with two is written outside the repository |
| FileMarkdown.IndexOfName | repo_agent/file_handler.py:537 | a name is found at a position holding it, or no position holds it |
| FileMarkdown.KeyedByNameDistinct | repo_agent/file_handler.py:533-538 | the list turned into a dictionary keyed by name has no two values with one name |
| FileMarkdown.KeyedByNameLast | repo_agent/file_handler.py:533-538 | each value of that dictionary is the last object of the list with its name |
| FileMarkdown.KeyedByNameCovers | repo_agent/file_handler.py:533-538 | every name of the list keeps a value in the dictionary |
| FileMarkdown.KeyByName | repo_agent/file_handler.py:535-538 | the loop builds that dictionary |
| FileMarkdown.OnLineAppend | repo_agent/file_handler.py:551-554 | the objects on one line of two joined lists are those of the first list, then those of the second |
| FileMarkdown.InsertByLinePermutes | repo_agent/file_handler.py:551-554 | inserting by start line adds the object and loses none |
| FileMarkdown.InsertByLineSorted | repo_agent/file_handler.py:551-554 | inserting into a list sorted by start line keeps it sorted |
| FileMarkdown.InsertByLineOnLine | repo_agent/file_handler.py:551-554 | the inserted object goes after the objects already on its line |
| FileMarkdown.SortByLineIsStableSort | repo_agent/file_handler.py:551-554 | `sorted(..., key=code_start_line)` is sorted by start line, a permutation of its input, and keeps objects on the same line in their order |
| FileMarkdown.ParentMapLookup | repo_agent/file_handler.py:556-558 | `parent_dict` has a name exactly when an object with that name has a parent, and maps it to the parent of the last such object |
| FileMarkdown.BuildParentMap | repo_agent/file_handler.py:556-558 | the loop builds `parent_dict` |
| FileMarkdown.Step | repo_agent/file_handler.py:565 | one turn of the level loop leads to None or to a value of `parent_dict` |
| FileMarkdown.LevelMeasureDrops | repo_agent/file_handler.py:562-566 | each turn meets a name not met before, so the loop with the stop at a repeated name terminates |
| FileMarkdown.ChainShift | repo_agent/file_handler.py:564-565 | `i` turns of the loop followed by `m` more are `i + m` turns |
| FileMarkdown.ChainPeriodic | repo_agent/file_handler.py:564-565 | once the parent chain comes back to where it was, it repeats with that period |
| FileMarkdown.DistinctBeforeExit | repo_agent/file_handler.py:562-566 | when the loop as written stops, the parents it met were all different |
| FileMarkdown.LevelAlongChain | repo_agent/file_handler.py:562-566 | from any point of a parent chain that ends, the level counts the turns left plus one |
| FileMarkdown.LevelMatchesLoop | repo_agent/file_handler.py:562-566 | whenever the loop as written stops after `k` turns, the level is `1 + k`, the value the source computes |
| FileMarkdown.SelfParentNeverExits | repo_agent/file_handler.py:564-565 | a name that is its own parent keeps the loop as written turning forever |
| FileMarkdown.LevelOfWalkedObjects | repo_agent/file_handler.py:562-566 | a top-level object has level 1, and a method of a class that has no parent has level 2 |
| FileMarkdown.ComputeLevel | repo_agent/file_handler.py:562-566 | the loop, stopped at a repeated name, computes the level |
| FileMarkdown.Hashes | repo_agent/file_handler.py:575 | `'#' * level` is `level` hash signs |
| FileMarkdown.ParamsText | repo_agent/file_handler.py:569-574 | only the three function kinds get a parameter text, and theirs is the parameters joined by `, ` in parentheses |
| FileMarkdown.WriteBlock | repo_agent/file_handler.py:562-577 | one turn of the rendering loop writes the rule when a top-level object follows another, the heading, and the last summary |
| FileMarkdown.RenderObjects | repo_agent/file_handler.py:556-578 | the loop writes one block per object in order, then the closing rule |
| FileMarkdown.RenderShape | repo_agent/file_handler.py:560-578 | the markdown ends with the closing rule, starts with the first object's heading with no rule before it, and so starts with `#` |
| FileMarkdown.BlocksStartWithFirst | repo_agent/file_handler.py:560-577 | every prefix of the blocks starts with the first object's block |
| FileMarkdown.ConvertToMarkdownFails | repo_agent/file_handler.py:519-545 | the conversion raises ValueError exactly when there is no path at all, or the hierarchy has nothing for the path |
| FileMarkdown.ConvertToMarkdownFile | repo_agent/file_handler.py:519-580 | the method renders the path's objects, keyed by name when listed, sorted by start line |
| FileMarkdown.ConstructorReplacesClass | repo_agent/file_handler.py:533-558 | for a Java class `Foo` with a constructor `Foo`, keying by name leaves only the constructor, and `parent_dict` maps `Foo` to itself |
| FileMarkdown.ConstructorKeyedByName | repo_agent/file_handler.py:533-538 | keyed by name, the constructor takes its class's place |
| FileMarkdown.KeyedTwoSameName | repo_agent/file_handler.py:533-538 | two objects with one name leave only the second |
| FileMarkdown.ConstructorLoopNeverStops | repo_agent/file_handler.py:562-566 | with that `parent_dict` the level loop as written never stops; with the stop at a repeated name the level is 2 |
| Runner.AfterGeneration | repo_agent/runner.py:81-103 | only the item itself changes, and only in its documents and status: nothing happens when `need_to_generate` is false; a reply is appended and the item is up to date exactly when the checkpoint succeeds; a failed reply appends nothing and leaves the status `doc_has_not_been_generated` |
| Runner.GenerateDoc | repo_agent/runner.py:81-103 | the body of `generate_doc_for_a_single_item` gives those items, the generator's reply taken as an input |
| Runner.GenerateDocForSingleItem | repo_agent/runner.py:81-103 | the method on the meta information changes only the items, into those items, and keeps the tree valid |
| Runner.GenerationSettles | repo_agent/runner.py:83-95 | once a reply is saved, running the generation again changes nothing |
| Runner.GenerationRetried | repo_agent/runner.py:91-103 | a failed generation leaves the item due for generation, with its documents as they were |
| Runner.NeedToGenerateStatusOnly | repo_agent/doc_meta_info.py:82-99 | besides the item's own status, `need_to_generate` reads only names and kinds, which a generation does not touch |
| Runner.FullNameSameNames | repo_agent/doc_meta_info.py:192-211 | the full name depends only on the names along the path |
| Runner.ScanFathersSameKinds | repo_agent/doc_meta_info.py:92-98 | the walk up to the file reads only the kinds of the fathers |
| Runner.RecursiveCheckMeaning | repo_agent/runner.py:159-165 | `recursive_check(x)` holds exactly when some item of the subtree of `x` has a document |
| Runner.AnyChildCheckedMeaning | repo_agent/runner.py:162-165 | the loop over the children from position `k` on holds exactly when some item below one of those children, or the child itself, has a document |
| Runner.CheckSubtree | repo_agent/runner.py:159-165 | the method with the loop over the children computes `recursive_check` |
| Runner.Hashes | repo_agent/runner.py:211 | `"#" * now_level` is that many hash signs |
| Runner.RenderItemLines | repo_agent/runner.py:210-219 | the method writes the item's heading and its latest document, or the waiting note |
| Runner.ToMarkdown | repo_agent/runner.py:209-223 | `to_markdown` builds the item's lines followed by each child's markdown one level deeper, each followed by `***` |
| Runner.RenderChildren | repo_agent/runner.py:220-222 | the loop over the children appends each child's markdown and a rule |
| Runner.EntriesAreTravelList | repo_agent/runner.py:209-223 | the items `to_markdown(x)` renders are the item and everything below it in pre-order, the travel list of `x` |
| Runner.EntriesUpToTravel | repo_agent/runner.py:220-222 | the items rendered for the first `k` children, followed by the subtrees of the rest, are the travel list below `x` |
| Runner.EntryRendered | repo_agent/runner.py:209-223 | each rendered item's heading and document lines occur in the markdown, at the heading level of its depth below `x` |
| Runner.EntryUpToRendered | repo_agent/runner.py:220-222 | the same holds inside the blocks of the first `k` children |
| Runner.RenderFile | repo_agent/runner.py:173-175 | the loop adds up the file's children's markdown at level 2 |
| Runner.FileMarkdownEmpty | repo_agent/runner.py:173-181 | a file's text is empty exactly when it has no children |
| Runner.PageMeaning | repo_agent/runner.py:157-185 | a file gets a page exactly when it has children and some item of its subtree has a document |
| Runner.PageOf | repo_agent/runner.py:157-185 | one turn of the loop over the files gives that file's page, if it gets one |
| Runner.PageList | repo_agent/runner.py:157 | there is one entry per file |
| Runner.PagesMembers | repo_agent/runner.py:157-202 | the pages written are exactly the pages of the files, none other |
| Runner.RefreshFiles | repo_agent/runner.py:157-202 | the loop over the files collects their pages in order |
| Runner.MarkdownRefresh | repo_agent/runner.py:141-207 | `markdown_refresh` writes the pages of the file items, in travel order |
| Runner.NamesOf | repo_agent/runner.py:535-536 | the set comprehension holds exactly the names of the definitions |
| Runner.ObjectChanges | repo_agent/runner.py:535-540 | the new names are the current ones that were not there before, the deleted names the previous ones that are gone |
| Runner.ObjectChangesApplied | repo_agent/runner.py:535-540 | no name is both new and deleted, and removing the deleted names from the previous ones and adding the new ones gives the current names |
| Runner.ObjectChangesSwap | repo_agent/runner.py:535-540 | comparing the other way round swaps the new and the deleted names |
| Runner.GetNewObjects | repo_agent/runner.py:513-540 | with each version parsed, the changes are those between the current definitions and the previous ones, a missing or empty previous version counting as no definitions |
| Runner.NewObjectsAlwaysRaise | repo_agent/runner.py:526-532 | as written, `get_functions_and_classes` is called with an argument it does not take, so the call always raises TypeError |
| DocTree.ToStr | repo_agent/doc_meta_info.py:41-51 | `to_str` gives `ClassDef` exactly for a class and `FunctionDef` exactly for the three function kinds |
| DocTree.NewItem | repo_agent/doc_meta_info.py:101-130 | a fresh item has the dataclass defaults: not generated, no references, task id -1, no task |
| DocTree.ChildIndex | repo_agent/doc_meta_info.py:199-202 | the first position at which a father lists the child, or past the end when it does not |
| DocTree.KeyIndex | repo_agent/doc_meta_info.py:219 | the first position of a key in the children, or past the end when it is absent |
| DocTree.Lookup | repo_agent/doc_meta_info.py:219-221 | `children[key]` exists exactly when some child is listed under the key |
| DocTree.PathTo | repo_agent/doc_meta_info.py:174-186 | an item's `tree_path` runs from the root down to the item, through items with smaller ids |
| DocTree.PathPrefix | repo_agent/doc_meta_info.py:174-186 | an ancestor's path is a prefix of its descendant's |
| DocTree.PathAtLevel | repo_agent/doc_meta_info.py:174-186 | the item at position `k` of a path has a path of length `k + 1`, the prefix up to it |
| DocTree.ChildOnPath | repo_agent/doc_meta_info.py:174-186 | below an ancestor, the next item on a path is a child that the ancestor lists, and its path extends the ancestor's by itself |
| DocTree.NamesAlong | repo_agent/doc_meta_info.py:198-207 | the names along a path, one per item |
| DocTree.FullNameOfChild | repo_agent/doc_meta_info.py:192-211 | a child's full name is its father's with `/` and its own name appended, or just its own name below the root |
| DocTree.GetFullName | repo_agent/doc_meta_info.py:192-211 | the `while now != None` loop, prepending names and dropping the root's, computes the full name |
| DocTree.FullNameFromNames | repo_agent/doc_meta_info.py:208-211 | below the root, the full name is the names of the path without the root's, joined by `/` |
| DocTree.ScanFathersMeaning | repo_agent/doc_meta_info.py:92-99 | the walk up from an item finds a verdict of true exactly when a file lies on its path and the name is not ignored |
| DocTree.NeedToGenerateMeaning | repo_agent/doc_meta_info.py:82-99 | an item needs a document exactly when it is not up to date, is not the repository, a directory or a file, lies below a file, and no ignore entry is a prefix of its full name |
| DocTree.NeedToGenerateScan | repo_agent/doc_meta_info.py:82-99 | the method with the `while doc_item` loop computes `need_to_generate` |
| DocTree.HasAnsRelationMeaning | repo_agent/doc_meta_info.py:134-149 | once the tree paths are parsed, `has_ans_relation` finds an item exactly when one of the two is an ancestor of the other, and the item found lies on both paths |
| DocTree.FindPathFrom | repo_agent/doc_meta_info.py:216-224 | `find` from an item ends at an item of the tree or at None |
| DocTree.LookupKeyOf | repo_agent/doc_meta_info.py:219-221 | a child found by its key has that father and is listed under that key |
| DocTree.FindPathFromKeys | repo_agent/doc_meta_info.py:213-224 | a successful `find` ends at the item whose key path is the start's followed by the keys asked for |
| DocTree.FindStep | repo_agent/doc_meta_info.py:218-222 | one turn of the loop moves to the child under the next key |
| DocTree.FindPathFromAppend | repo_agent/doc_meta_info.py:216-224 | finding `p + [key]` is finding `p`, then `key` from there |
| DocTree.FindKeyPathRec | repo_agent/doc_meta_info.py:213-224 | every item is found by its key path |
| DocTree.FindKeyPath | repo_agent/doc_meta_info.py:213-224 | `find` and the key path are inverse: every item is found by its keys, and an item found has exactly the keys asked for |
| DocTree.FindByPath | repo_agent/doc_meta_info.py:213-224 | the `while pos < len(path)` loop computes `find` |
| DocTree.TravelList | repo_agent/doc_meta_info.py:151-155 | the travel list starts with the item and holds items of the tree |
| DocTree.TravelListBelow | repo_agent/doc_meta_info.py:151-155 | everything in an item's travel list lies below it or is it |
| DocTree.TravelFromBelow | repo_agent/doc_meta_info.py:153-154 | everything the children from position `k` contribute lies below the item |
| DocTree.TravelFromHasChild | repo_agent/doc_meta_info.py:153-154 | the travel list of every child from position `k` is part of what they contribute |
| DocTree.TravelListComplete | repo_agent/doc_meta_info.py:151-155 | everything below an item is in its travel list |
| DocTree.FilesIn | repo_agent/doc_meta_info.py:432-433 | the files of a list of items are exactly its items of type file |
| DocTree.AllFilesMembers | repo_agent/doc_meta_info.py:428-438 | `get_all_files` lists exactly the file items of the tree |
| DocTree.MaxChildHeightBounds | repo_agent/doc_meta_info.py:166-169 | the `max_child_depth` of the first `k` children is at least each of their depths |
| DocTree.MaxChildHeightStep | repo_agent/doc_meta_info.py:166-169 | one more child can only raise `max_child_depth`, to at least that child's depth |
| DocTree.MaxChildHeightAttained | repo_agent/doc_meta_info.py:166-169 | `max_child_depth` is the depth of one of the children |
| DocTree.HeightMeaning | repo_agent/doc_meta_info.py:157-171 | the depth `check_depth` assigns is 0 exactly for a leaf; every child is lower, and some child is exactly one lower |
| DocTree.FirstCovering | repo_agent/doc_meta_info.py:445-454 | the first child from `k` on whose line range covers the line, with no earlier one covering it |
| DocTree.ObjWithLineno | repo_agent/doc_meta_info.py:440-458 | `find_obj_with_lineno` ends at an item of the tree |
| DocTree.ObjWithLinenoMeaning | repo_agent/doc_meta_info.py:440-458 | the item found lies below the start, every item on the way down from the start covers the line, and none of its children does |
| DocTree.ObjWithLinenoStep | repo_agent/doc_meta_info.py:445-452 | one turn descends into the first covering child and leaves the result unchanged |
| DocTree.FindObjWithLineno | repo_agent/doc_meta_info.py:440-458 | the method with the source's nested loops computes `find_obj_with_lineno` |
| DocTree.FileName | repo_agent/doc_meta_info.py:188-190 | `get_file_name` ends in `.py` and is the full name cut where its first `.py` begins, and is the full name with `.py` added when it has none |
| DocSubtree.SiblingsApart | repo_agent/doc_meta_info.py:151-155 | no item lies below two different children of one father, so the children's travel lists are disjoint |
| DocSubtree.InFirstAll | repo_agent/doc_meta_info.py:151-155 | everything strictly below an item lies below one of its children |
| DocSubtree.NeedToGenerateFrame | repo_agent/doc_meta_info.py:82-99 | `need_to_generate` gives the same verdict on two versions of the items that agree on names, kinds and statuses |
| DocSubtree.AnyChildNext | repo_agent/doc_meta_info.py:228-230 | one more turn of the loop of `check_has_task` ors the flag of the next child into that of the first ones |
| DocSubtree.HasTaskWitness | repo_agent/doc_meta_info.py:225-230 | a flag `check_has_task` sets has a reason: some item of the subtree had the flag already or needs generation |
| DocSubtree.HasTaskFromBelow | repo_agent/doc_meta_info.py:225-230 | any such reason in the subtree sets the flag |
| DocSubtree.HasTaskMeaning | repo_agent/doc_meta_info.py:225-230 | `check_has_task` leaves the flag of an item set exactly when some item of its subtree had it set or needs generation |
| DocSubtree.TreePathFrom | repo_agent/doc_meta_info.py:174-186 | the path `parse_tree_path` leaves below a starting item is the starting path followed by the items from the start down |
| DocSubtree.TreePathFromChild | repo_agent/doc_meta_info.py:184-186 | a child started with its father's path gets what the father's walk would give it |
| DocSubtree.TreePathFromRoot | repo_agent/doc_meta_info.py:174-186 | started at the root with an empty path, every item gets its path from the root |
| DocSubtree.WalkStart | repo_agent/doc_meta_info.py:431-436 | the walk of `get_all_files` lists the item itself if it is a file, then the files of its children's walks |
| DocSubtree.WalkStep | repo_agent/doc_meta_info.py:435-436 | one child's walk appends that child's files, in travel order |
| DocWalks.WithoutDepthsSet | repo_agent/doc_meta_info.py:164-171 | setting one `depth` changes no other field of any item |
| DocWalks.WithoutTreePathsSet | repo_agent/doc_meta_info.py:184 | setting one `tree_path` changes no other field of any item |
| DocWalks.WithoutHasTasksSet | repo_agent/doc_meta_info.py:227-230 | setting one `has_task` flag changes no other field of any item |
| DocWalks.DepthStep | repo_agent/doc_meta_info.py:166-168 | after the walk of child `j`, the depths are set in the subtrees of the first `j + 1` children and nowhere else |
| DocWalks.DepthFinish | repo_agent/doc_meta_info.py:170-171 | once every child is walked and the item gets its own depth, every item of its subtree has its depth and nothing else changed |
| DocWalks.DepthsBelowMeaning | repo_agent/doc_meta_info.py:157-171 | `check_depth` on an item sets the depth of every item of its subtree to its height and changes nothing else |
| DocWalks.DepthsFromMeaning | repo_agent/doc_meta_info.py:166-168 | the loop over the first `k` children sets the depths in their subtrees and changes nothing else |
| DocWalks.DepthsFromNext | repo_agent/doc_meta_info.py:166-168 | one more child walked extends that by the child's subtree |
| DocWalks.FatherNotBelow | repo_agent/doc_meta_info.py:166-167 | a child's walk leaves its father alone |
| DocWalks.TreePathStep | repo_agent/doc_meta_info.py:185-186 | after the walk of child `j`, the paths are set in the first `j + 1` subtrees, and the item itself is left alone |
| DocWalks.TreePathFinish | repo_agent/doc_meta_info.py:184-186 | once every child is walked, every item of the subtree has its path |
| DocWalks.TreePathsBelowAbove | repo_agent/doc_meta_info.py:184-186 | the walk started at an item touches only items with larger ids |
| DocWalks.TreePathsBelowMeaning | repo_agent/doc_meta_info.py:174-186 | `parse_tree_path(now_path)` on an item sets the path of every item of its subtree and changes nothing else |
| DocWalks.TreePathsFromMeaning | repo_agent/doc_meta_info.py:185-186 | the loop over the first `k` children sets the paths in their subtrees, leaves the item alone and changes nothing else |
| DocWalks.TreePathsBelowKeeps | repo_agent/doc_meta_info.py:184-186 | `parse_tree_path` on an item changes nothing but `tree_path` fields |
| DocWalks.TreePathsFromKeeps | repo_agent/doc_meta_info.py:185-186 | the walks of the first `k` children change nothing but `tree_path` fields |
| DocWalks.HasTasksBelowFrame | repo_agent/doc_meta_info.py:225-230 | `check_has_task` changes no field but `has_task` |
| DocWalks.HasTasksFromFrame | repo_agent/doc_meta_info.py:228-230 | its loop changes no field but `has_task` |
| DocWalks.HasTasksFromNext | repo_agent/doc_meta_info.py:228-230 | one more turn walks the next child and then ors its flag into the item's |
| DocWalks.MarkedFlags | repo_agent/doc_meta_info.py:226-227 | the first step sets the item's flag when it needs generation and touches no other item |
| DocWalks.HasTaskMark | repo_agent/doc_meta_info.py:226-227 | that step keeps names, kinds and statuses, and so whether the item needs generation |
| DocWalks.HasTaskStep | repo_agent/doc_meta_info.py:228-230 | after the walk of child `k` and the update from it, the item's flag is its own or that of one of the first `k + 1` children, and the subtrees of those children have their final flags |
| DocWalks.HasTaskFinish | repo_agent/doc_meta_info.py:225-230 | once every child is walked, every item of the subtree has the flag `check_has_task` leaves |
| DocWalks.HasTasksBelowMeaning | repo_agent/doc_meta_info.py:225-230 | `check_has_task` on an item leaves each item of its subtree flagged exactly when something below it was flagged or needs generation, and leaves the others' flags alone |
| DocWalks.HasTasksFromMeaning | repo_agent/doc_meta_info.py:228-230 | after the first `k` children, the item's flag is its own or one of theirs, and their subtrees have their final flags |
| DocMeta.MetaInfo.constructor | repo_agent/doc_meta_info.py:299-310 | a `MetaInfo` around a built tree has the dataclass defaults for every other field |
| DocMeta.MetaInfo.CheckDepth | repo_agent/doc_meta_info.py:157-171 | `check_depth` returns the item's height and leaves every item of its subtree with its height and every other field as it was |
| DocMeta.MetaInfo.ParseTreePath | repo_agent/doc_meta_info.py:174-186 | `parse_tree_path` leaves each item of the subtree with the starting path followed by its own path down, and every other field as it was |
| DocMeta.MetaInfo.MarkIfNeeded | repo_agent/doc_meta_info.py:226-227 | the item's flag is set when it needs generation |
| DocMeta.MetaInfo.CheckHasTask | repo_agent/doc_meta_info.py:225-230 | `check_has_task` leaves the flags its meaning lemma describes |
| DocMeta.MetaInfo.HasTaskFromChildren | repo_agent/doc_meta_info.py:228-230 | the loop over all the children leaves the flags the loop's meaning lemma describes |
| DocMeta.MetaInfo.HasTaskFromChild | repo_agent/doc_meta_info.py:229-230 | one pass of the loop walks the next child, then ors its flag into the item's |
| DocMeta.MetaInfo.WalkTree | repo_agent/doc_meta_info.py:431-436 | the nested `walk_tree` appends the files of the subtree in travel order |
| DocMeta.MetaInfo.GetAllFiles | repo_agent/doc_meta_info.py:428-438 | `get_all_files` gives the file items in travel order from the root |
| DocMeta.MetaInfo.ParseReference | repo_agent/doc_meta_info.py:459-564 | `parse_reference` changes only the items: some new, allowed and distinct edges are recorded, each one a hit of a walked object yielded, every edge such a hit yields is present, and references stay inside the tree |
| DocMeta.MetaInfo.GetTaskManager | repo_agent/doc_meta_info.py:566-638 | `get_task_manager` deals the candidates below the item one by one, as the scheduling rule picks them, and gives each a task in a new table with its dependencies |
| DocMeta.MetaInfo.GetTopology | repo_agent/doc_meta_info.py:640-645 | `get_topology` first parses the references: `parsed` is what `ReferencesParsed` allows from the old items. It then schedules the whole tree from the root over `parsed` (`Scheduled`). The tasks are numbered in dealing order |
| DocMeta.MetaInfo.LoadDocFromOlderMeta | repo_agent/doc_meta_info.py:656-741 | `load_doc_from_older_meta` carries the documentation over from the older tree, parses references anew, refreshes the statuses whose referencers changed and records the deleted items |
| DocMeta.MergeOlder | repo_agent/doc_meta_info.py:656-741 | the same, on the values of the fields it reads and writes |
| DocMeta.ReferencesAgain | repo_agent/doc_meta_info.py:713-738 | after the carry-over, references are parsed anew and the statuses refreshed from the older items |
| DocReferences.AddEdge | repo_agent/doc_meta_info.py:553-557 | recording one edge keeps the items |
| DocReferences.ApplyItem | repo_agent/doc_meta_info.py:553-557 | recording edges in order grows three lists of each item at their ends and changes nothing else |
| DocReferences.AddEdgeItem | repo_agent/doc_meta_info.py:553-557 | one edge appends to the referencer's `reference_who` and `special_reference_type` and to the referenced item's `who_reference_me` |
| DocReferences.FlagsAlongside | repo_agent/doc_meta_info.py:553-556 | `reference_who` and `special_reference_type` grow by the same number of entries |
| DocReferences.ReferencedEdges | repo_agent/doc_meta_info.py:556 | an item is among those `y` was recorded as using exactly when an edge from `y` to it was recorded |
| DocReferences.ReferencersEdges | repo_agent/doc_meta_info.py:557 | and exactly when `y` is among the items recorded as using it |
| DocReferences.ReferencedNoDup | repo_agent/doc_meta_info.py:544 | edges recorded once each give a `reference_who` without repeats |
| DocReferences.RecordedStep | repo_agent/doc_meta_info.py:543-558 | recording an allowed edge not yet in the referencer's list keeps the record of the pass |
| DocReferences.RecordedKeeps | repo_agent/doc_meta_info.py:553-557 | recording keeps every entry already in a `reference_who` list |
| DocReferences.RecordedAppends | repo_agent/doc_meta_info.py:553-557 | after recording, each list is the old one with entries appended, the flags growing alongside, and every other field is as it was |
| DocReferences.RecordedMirrored | repo_agent/doc_meta_info.py:556-557 | the two directions of the references stay in agreement |
| DocReferences.RecordedInside | repo_agent/doc_meta_info.py:553-557 | recording keeps every reference list inside the tree |
| DocReferences.RecordedNoDup | repo_agent/doc_meta_info.py:544 | no `reference_who` list gains a repeated entry |
| DocReferences.RecordedNewEntries | repo_agent/doc_meta_info.py:536-552 | every new entry names an item with another name and no ancestor relation, and its flag is set only for a function-kind referencer |
| DocReferences.FlagIndex | repo_agent/doc_meta_info.py:545-556 | the `j`-th entry recorded for an item and its flag come from one edge |
| DocReferences.RecordedGrows | repo_agent/doc_meta_info.py:553-557 | recording more edges keeps every entry recorded so far |
| DocReferences.Referencer | repo_agent/doc_meta_info.py:498-543 | a hit that is not skipped names an item of the tree other than the object itself |
| DocReferences.HitEdge | repo_agent/doc_meta_info.py:536-552 | the edge a hit yields is allowed and points at the object, and its flag is set exactly for a function-kind referencer whose first line is the hit's line |
| DocReferences.ReferencerMeaning | repo_agent/doc_meta_info.py:498-543 | a hit is skipped for a fake or jumped path; otherwise the referencer lies in the file its path names by keys, every object on the way down covers the hit's line and none of its children does, it has another name and neither it nor the object lies above the other |
| DocReferences.HitEdges | repo_agent/doc_meta_info.py:498 | one entry per hit |
| DocReferences.RecordHit | repo_agent/doc_meta_info.py:498-558 | one pass of the loop records the hit's edge when it is not already present, and otherwise changes nothing |
| DocReferences.RecordHits | repo_agent/doc_meta_info.py:498-558 | the loop over an object's hits leaves every edge they yield present, and records only edges they yield |
| DocReferences.HitsStep | repo_agent/doc_meta_info.py:498-558 | one more hit keeps that loop's invariant |
| DocReferences.WhiteFileNames | repo_agent/doc_meta_info.py:462-467 | the white list's file paths, in order; empty without a white list |
| DocReferences.WhiteObjNames | repo_agent/doc_meta_info.py:462-468 | the white list's object names, in order; empty without a white list |
| DocReferences.QueryOf | repo_agent/doc_meta_info.py:484-497 | the query carries the object's name and the file's full name, and is limited to the file exactly when white-listed names exist and the object's is not one |
| DocReferences.RecordObject | repo_agent/doc_meta_info.py:482-560 | one pass of `walk_file` records the object's hits and keeps the invariant of the walk |
| DocReferences.RecordFile | repo_agent/doc_meta_info.py:482-563 | `walk_file` over a file's objects in travel order leaves every edge they yield present and records only edges they yield |
| DocReferences.FilesDoneStep | repo_agent/doc_meta_info.py:470-563 | one more file keeps the invariant of the loop over the files |
| DocReferences.RecordFiles | repo_agent/doc_meta_info.py:460-563 | the loop over the files leaves every edge a selected file's objects yield present, and records only allowed, new and distinct edges they yield |
| DocReferences.RecordFilesTurn | repo_agent/doc_meta_info.py:470-563 | one turn of the file loop: a selected file's yielded edges become present and only allowed, new and distinct edges it yields are recorded, extending the loop's guarantees from the first k files to the first k + 1 |
| DocTasks.TravelFromUnder | repo_agent/doc_meta_info.py:151-155 | everything the children from position `k` contribute lies below one of them |
| DocTasks.TravelListNoDup | repo_agent/doc_meta_info.py:151-155 | `get_travel_list` lists each item once |
| DocTasks.TravelFromNoDup | repo_agent/doc_meta_info.py:153-154 | the children's lists together hold no item twice |
| DocTasks.WhiteFiltered | repo_agent/doc_meta_info.py:568-579 | `filter(in_white_list, ...)` keeps exactly the items some white-list entry names by file and object name, and adds no repeats |
| DocTasks.AvailableFiltered | repo_agent/doc_meta_info.py:580 | `filter(task_available_func, ...)` keeps exactly the available items, and adds no repeats |
| DocTasks.InsertByDepth | repo_agent/doc_meta_info.py:581 | inserting by depth adds the item and loses none |
| DocTasks.InsertByDepthSorted | repo_agent/doc_meta_info.py:581 | inserting into a list sorted by depth keeps it sorted |
| DocTasks.SortByDepth | repo_agent/doc_meta_info.py:581 | `sorted(..., key=depth)` is a permutation of its input |
| DocTasks.SortByDepthSorted | repo_agent/doc_meta_info.py:581 | and is sorted by depth |
| DocTasks.NoDupPermutation | repo_agent/doc_meta_info.py:581 | sorting a list without repeats gives one without repeats |
| DocTasks.CandidatesMeaning | repo_agent/doc_meta_info.py:567-581 | the list the loop starts from has no repeats, is sorted by depth, and holds exactly the available items of the subtree that the white list, when there is one, names |
| DocTasks.PendingChildren | repo_agent/doc_meta_info.py:591-593 | the count of children is zero exactly when every available child is dealt with |
| DocTasks.PendingRefs | repo_agent/doc_meta_info.py:594-606 | the count over the zipped pairs is zero exactly when every available referenced item, the plain ones only for the second count, is dealt with |
| DocTasks.ZipLength | repo_agent/doc_meta_info.py:594-596 | `zip` stops at the shorter of the two lists |
| DocTasks.Best | repo_agent/doc_meta_info.py:589-600 | `best_break_level` is zero exactly when every available child and referenced item is dealt with |
| DocTasks.Second | repo_agent/doc_meta_info.py:590-606 | `second_best_break_level` is zero exactly when every available referenced item not marked special is dealt with |
| DocTasks.PlainRefsAtMostAll | repo_agent/doc_meta_info.py:594-606 | the plain count never exceeds the full one |
| DocTasks.SecondAtMostBest | repo_agent/doc_meta_info.py:589-606 | the second-best level never exceeds the best |
| DocTasks.BreakLevels | repo_agent/doc_meta_info.py:589-606 | the two counting loops compute both levels |
| DocTasks.Levels | repo_agent/doc_meta_info.py:588-606 | one pair of levels per item still to deal with |
| DocTasks.PickStep | repo_agent/doc_meta_info.py:611-613 | an item with a positive best level becomes the pick when its second-best level is lower than any so far |
| DocTasks.PickZero | repo_agent/doc_meta_info.py:607-610 | a zero best level ends the scan with that item, the first such |
| DocTasks.PickDone | repo_agent/doc_meta_info.py:588-613 | a full scan without a zero best level picks the first item with the least second-best level below 1e7, or nothing |
| DocTasks.PickTarget | repo_agent/doc_meta_info.py:585-613 | the selection loop picks the item the selection rule names |
| DocTasks.CollectDependencies | repo_agent/doc_meta_info.py:620-628 | the dependencies fail with AssertionError exactly when a child carries a task id the table lacks; otherwise they are, without repeats, the task ids of the children and those of the referenced items that are in the table |
| DocTasks.IndexOf | repo_agent/doc_meta_info.py:635 | the first position of an item in a list, as `remove` finds it |
| DocTasks.NumberedInside | repo_agent/doc_meta_info.py:633 | recording task ids changes no key and no reference |
| DocTasks.NumberingSnoc | repo_agent/doc_meta_info.py:630-634 | adding the next task keeps the table numbered in dealing order |
| DocTasks.AllWaitSnoc | repo_agent/doc_meta_info.py:620-634 | adding the next task keeps every task waiting exactly for what its item requires |
| DocTasks.FreshNotStale | repo_agent/doc_meta_info.py:621-623 | starting from items without task ids, the assertion on children never fails |
| DocTasks.DepsInTable | repo_agent/doc_meta_info.py:620-628 | every dependency collected is a task already in the table |
| DocTasks.NewTaskWaitsFor | repo_agent/doc_meta_info.py:620-628 | the next task waits exactly for the earlier tasks of its children and referenced items |
| DocTasks.NumberedSnoc | repo_agent/doc_meta_info.py:633-634 | recording the next task id keeps the items numbered in dealing order |
| DocTasks.DealtSnoc | repo_agent/doc_meta_info.py:630-635 | dealing one item keeps the loop's values and shortens the list still to go |
| DocTasks.UndealtMembers | repo_agent/doc_meta_info.py:634-635 | the items still to go are exactly the candidates not dealt with |
| DocTasks.UndealtSnoc | repo_agent/doc_meta_info.py:635 | `doc_items.remove(target)` leaves the candidates not yet dealt with, in order |
| DocTasks.LevelsNumbered | repo_agent/doc_meta_info.py:588-606 | task ids play no part in the levels |
| DocTasks.PickedSnoc | repo_agent/doc_meta_info.py:585-635 | every round deals the item the selection rule picks at that point |
| DocTasks.PickNext | repo_agent/doc_meta_info.py:585-613 | the pick of a round, stated over the candidates not dealt with |
| DocTasks.DealOne | repo_agent/doc_meta_info.py:586-635 | a round deals the picked item, or raises AssertionError only when some item already carried a task id, changing nothing |
| DocTasks.AddDealt | repo_agent/doc_meta_info.py:629-635 | the rest of a round adds the item's task with its dependencies and records its id |
| DocTasks.ScheduleTasks | repo_agent/doc_meta_info.py:582-638 | the loop ends with one task per dealt candidate numbered in dealing order, every candidate dealt unless it raised (AssertionError only on items with task ids, AttributeError only when nothing could be picked), each round dealing the rule's pick, and from items without task ids every task waits exactly for the earlier tasks of its children and referenced items |
| DocTasks.TaskManagerFor | repo_agent/doc_meta_info.py:566-638 | `get_task_manager` on the tree's values: the candidates below the item, then that loop |
| DocMerge.FindItem | repo_agent/doc_meta_info.py:661-688 | `find_item` only ever answers with an item of the new tree |
| DocMerge.FindPathFromNone | repo_agent/doc_meta_info.py:674-676 | once a father has no counterpart, nothing below it has one either |
| DocMerge.FindItemByKeys | repo_agent/doc_meta_info.py:661-688 | `find_item` of an older item is the new item reached from the root by the older item's chain of children keys, or nothing when that chain breaks |
| DocMerge.FindItemBack | repo_agent/doc_meta_info.py:661-688 | a new item is `find_item`'s answer for an older item exactly when the new item's chain of keys leads to that older item in the older tree |
| DocMerge.BackInjective | repo_agent/doc_meta_info.py:661-688 | no two new items are the counterpart of the same older item |
| DocMerge.InheritedSkip | repo_agent/doc_meta_info.py:690-697 | visiting an older item without a counterpart changes no new item |
| DocMerge.InheritedTake | repo_agent/doc_meta_info.py:698-708 | visiting an older item with a counterpart changes that one counterpart only |
| DocMerge.DeletedMeaning | repo_agent/doc_meta_info.py:693-697 | the deleted report holds exactly one `[full name, type name]` row per visited older item that is the top of a deleted subtree, in visiting order |
| DocMerge.UnmatchedBelowTopmost | repo_agent/doc_meta_info.py:690-711 | every older item without a counterpart lies under (or is) the top of a deleted subtree, the one item the report names for it |
| DocMerge.InheritedAll | repo_agent/doc_meta_info.py:690-711 | once every older item is visited, each new item with a counterpart carries that older item's documentation and status |
| DocMerge.BackInverse | repo_agent/doc_meta_info.py:661-688 | the counterpart relation is the inverse of `find_item`, one-to-one, within both trees |
| DocMerge.CarriedStart | repo_agent/doc_meta_info.py:656-659 | before `travel` starts, nothing is carried over and nothing is reported |
| DocMerge.CarriedStep | repo_agent/doc_meta_info.py:690-711 | after a prefix of the older pre-order, exactly the counterparts of the visited items carry their documentation and the report lists the deleted tops visited so far |
| DocMerge.CarryOne | repo_agent/doc_meta_info.py:690-708 | one visit of `travel`: it copies documentation and status to the counterpart, marks it `code_changed` when the code differs, adds a row for the top of a deleted subtree, or stops on the failed code assertion |
| DocMerge.CarriedAll | repo_agent/doc_meta_info.py:690-711 | after the whole older pre-order without a failed assertion, every counterpart has carried over and the report is complete |
| DocMerge.CarriedClash | repo_agent/doc_meta_info.py:701-702 | an older item with code whose counterpart has none makes `travel` fail with `AssertionError` |
| DocMerge.CarryOver | repo_agent/doc_meta_info.py:690-711 | `travel` over the older tree: new items change only by taking over documentation and status from their counterparts; it fails exactly when some older item with code has a counterpart without code; otherwise every counterpart has carried over and the report lists the tops of the deleted subtrees in pre-order |
| DocMerge.Refresh | repo_agent/doc_meta_info.py:726-733 | an up-to-date counterpart whose referencers shrank becomes `referencer_not_exist`, one that gained any becomes `add_new_referencer`; every other item and every other field is left alone |
| DocMerge.WithinAll | repo_agent/doc_meta_info.py:718-738 | once every older item is visited by `travel2`, every counterpart has its refreshed status |
| DocMerge.RefreshedSameButStatus | repo_agent/doc_meta_info.py:718-738 | `travel2` changes nothing but statuses |
| DocMerge.RefreshOne | repo_agent/doc_meta_info.py:718-736 | one visit of `travel2` refreshes the status of the visited item's counterpart, if any |
| DocMerge.RefreshStepValue | repo_agent/doc_meta_info.py:722-733 | the referencer names a visit compares are computed on the items as they stand, which `travel2` has not changed in any name |
| DocMerge.StrictNamesFrame | repo_agent/doc_meta_info.py:722-724 | the strict names of the referencers depend on item names only, so status changes made earlier in `travel2` do not affect them |
| DocMerge.RefreshedAll | repo_agent/doc_meta_info.py:718-738 | after the whole older pre-order every counterpart is refreshed against its older item's recorded referencers |
| DocMerge.RefreshStatuses | repo_agent/doc_meta_info.py:718-738 | `travel2` leaves exactly the refreshed statuses on every counterpart and every other item as it was |
| DocMerge.FullNameFrame | repo_agent/doc_meta_info.py:192-211 | plain full names depend on item names only |
| DocMerge.CarriedSameButDocs | repo_agent/doc_meta_info.py:690-711 | the carry-over changes documentation and statuses only, whether or not it fails |
| DocMerge.SameButDocsKeeps | repo_agent/doc_meta_info.py:690-711 | items changed in documentation and statuses only keep the tree, the references, the kinds and the full names |
| DocMerge.MergeStopped | repo_agent/doc_meta_info.py:701-741 | when the code assertion fails, nothing after the carry-over happens: no reference parsing, no refresh, the deleted report left as it was |
| DocMerge.MergeDone | repo_agent/doc_meta_info.py:713-741 | without a failure the merge is the carry-over, then the references parsed anew, then the statuses refreshed |
| StrictNames.UnmarkMarked | repo_agent/doc_meta_info.py:204-205 | stripping the duplicate mark gives back the dictionary key the strict name was built from |
| StrictNames.StrictNameAsWrittenOfChild | repo_agent/doc_meta_info.py:192-211 | `get_full_name(strict=True)` as written: the father's plain full name, then the item's own key, marked when it differs from its name |
| StrictNames.StrictNameOfChild | repo_agent/doc_meta_info.py:192-211 | the strict name as intended: the father's strict name, then the item's own key, marked when it differs from its name |
| StrictNames.StrictPartsFrame | repo_agent/doc_meta_info.py:192-211 | strict names depend on the item names only |
| StrictNames.StrictNameWithoutDuplicates | repo_agent/doc_meta_info.py:192-211 | in a tree where every key is its item's name, the strict name is the plain full name |
| StrictNames.KeyOfPlain | repo_agent/doc_meta_info.py:204-205 | a plain key holds no '/' and no duplicate mark |
| StrictNames.MarkedPlain | repo_agent/doc_meta_info.py:204-205 | marking a key adds no '/' |
| StrictNames.StrictPartsKeys | repo_agent/doc_meta_info.py:192-211 | with plain keys, the parts of a strict name unmark to the item's chain of keys |
| StrictNames.StrictNameInjective | repo_agent/doc_meta_info.py:192-211 | with plain keys, distinct items below the root have distinct strict names |
| StrictNames.DuplicateScopesCollide | repo_agent/doc_meta_info.py:199-203 | as written, two items with the same key and name under two same-named sibling fathers get the same strict name; the corrected names differ |
| DocBuild.AddChildSound | repo_agent/doc_meta_info.py:833-841 | hanging a new item under a key its father lacks keeps the tree well formed, only grows it at the end of one children dict, and reaches the new item by the father's keys plus the new key |
| DocBuild.KeyPathKept | repo_agent/doc_meta_info.py:829-849 | growing the tree never changes the chain of keys that leads to an existing item |
| DocBuild.FindKept | repo_agent/doc_meta_info.py:829-849 | what `find` reached before the tree grew it still reaches |
| DocBuild.InsertChain | repo_agent/doc_meta_info.py:829-849 | the walk down `file_name.split("/")` creates missing directories and the file item, grows the tree only along that path, and ends at the item `find` reaches by the whole path; that item is either an existing one (and nothing changed) or the new file item |
| DocBuild.ChainKinded | repo_agent/doc_meta_info.py:829-849 | the directory and file items the walk down the path creates carry no record, and no item moves, so every record keeps its `RecordKind` |
| DocBuild.ChainEnd | repo_agent/doc_meta_info.py:852-855 | `find` before the walk reaches the walk's end item exactly when that item already existed |
| DocBuild.ChainFound | repo_agent/doc_meta_info.py:852-855 | `find` before the walk found nothing exactly when the walk made a new file item, and otherwise found the walk's end item |
| DocBuild.RecordItem | repo_agent/doc_meta_info.py:859-865 | the item of a record has the record as its content, the record's name, and is not a file |
| DocBuild.StageRecords | repo_agent/doc_meta_info.py:857-876 | every record of the entry becomes a new item, with fresh ids, each for now hanging under the file item and listed nowhere; old items are unchanged |
| DocBuild.FatherIndexMeaning | repo_agent/doc_meta_info.py:878-906 | the father of a record is the record whose lines strictly contain its own with the fewest lines (the first such on a tie), or the file item when none contains it |
| DocBuild.FindFather | repo_agent/doc_meta_info.py:878-906 | the inner loop over `obj_item_list` picks exactly that father |
| DocBuild.ChildName | repo_agent/doc_meta_info.py:908-915 | the key a record is listed under is new in its father's children: its own name when free, otherwise its name with the first `_k` suffix not yet taken |
| DocBuild.SuffixedInjective | repo_agent/doc_meta_info.py:912-915 | different counters give different suffixed keys |
| DocBuild.AttachRecords | repo_agent/doc_meta_info.py:878-919 | every record ends up in a well formed tree under its containment father, listed there under its name or a suffixed one |
| DocBuild.Reclassify | repo_agent/doc_meta_info.py:923-934 | a non-file item without content fails (KeyError), and so does a `FunctionDef` item without a father (AttributeError). Otherwise the new type is the item's `NewKind`. A file stays a file and nothing else becomes one. A `ClassDef` record becomes a class. A `FunctionDef` record becomes a method under a class, a nested function under a function or nested function, and a function elsewhere. A record of any other kind keeps its type |
| DocBuild.ChangeItems | repo_agent/doc_meta_info.py:922-938 | `change_items` reclassifies the item, then walks its children's subtrees, and stops at the first exception. On success in a tree, every item of the subtree has its `NewKind`, read against its father's new type, and every other item keeps its type |
| DocBuild.ChangedBelowMeaning | repo_agent/doc_meta_info.py:922-938 | `change_items` makes and unmakes no file. It succeeds when every item it can reach is a file or a record under a father |
| DocBuild.ChangedBelowKinds | repo_agent/doc_meta_info.py:922-936 | on success, `change_items(x)` gives every item of the subtree of `x` its `NewKind`. A file stays a file. A `ClassDef` record becomes `_class`. A `FunctionDef` record becomes `_class_function` under a `_class`, `_sub_function` under a `_function` or `_sub_function`, and `_function` under anything else, reading the father's new type. Other records keep their type. Items outside the subtree keep theirs |
| DocBuild.AddRecords | repo_agent/doc_meta_info.py:857-938 | on a fresh file item, the records are staged, attached and reclassified without failure. The result places each record as described, and gives each record's item its `RecordKind` under its father's final type. Every older record keeps its `RecordKind` when it had it. Failures are KeyError or AttributeError |
| DocBuild.RecordUnder | repo_agent/doc_meta_info.py:878-919 | every record's item lies in the subtree of the file item, so `change_items(file_item)` reaches it |
| DocBuild.BuiltKinds | repo_agent/doc_meta_info.py:857-938 | after `change_items(file_item)`, each record of the entry has its `RecordKind` under its father's final type. Every older record keeps its `RecordKind` |
| DocBuild.AddFile | repo_agent/doc_meta_info.py:829-938 | one entry of the hierarchy. A path `find` did not reach before always succeeds. A path that reached a non-file item fails with the assertion of line 855. A success holds the file item at the path, with the old tree only grown. Every record is placed by the containment and suffix rules and typed by its `RecordKind`: a class for "ClassDef", the father-dependent function type for "FunctionDef", and the created `_class_function` otherwise |
| DocBuild.EntryBuiltKept | repo_agent/doc_meta_info.py:816-938 | a later entry does not undo what an earlier entry built, including the records' types, as long as every record keeps its `RecordKind` |
| DocBuild.BuildForest | repo_agent/doc_meta_info.py:805-939 | the loop over the entries. In the final tree every present entry has its file item, and its records are placed and typed by `RecordKind`. Every item with a record has its `RecordKind` under its father's type. Any failure is one of the exceptions the entries raise |
| DocBuild.FromProjectHierarchy | repo_agent/doc_meta_info.py:805-942 | `from_project_hierarchy_json` returns a fresh valid `MetaInfo` over the built tree, in which every record has its `RecordKind`, with tree paths and depths computed and the other fields at their defaults |
| DocBuild.NewMetaInfo | repo_agent/doc_meta_info.py:940-942 | the built tree gets its tree paths and its depths from the root, and the other `MetaInfo` fields get their defaults |

## Left out

- FileHandler.RecordOf: uses the corrected `ExtractName` and `Parameters`, so `GetFunctionsAndClasses` and `GenerateFileStructure` differ from the code as written in two cases. A Go method gets its own parameters rather than its receiver's names. A decorated Python class gets its class name, where the code as written records None and the file then fails with TypeError. Both cases are in "## Findings".
- CallsParser.ProcessFile: uses the corrected `ExtractFunctionsAndCalls`, which skips a call whose name is None. As written, `call_name.split` raises AttributeError at repo_agent/parsers/calls_parser.py:77, and the `except` at line 148 drops the whole file. See "## Findings".
- GenerateSummary.FileLine: uses the corrected `MarkdownStem`, and so does `OutputMarkdown`. As written, the unescaped dot makes "run.cmd" a markdown page listed as `[run.](…)`; the model does not list it. See "## Findings".
- DocMerge.StrictNamesOf: compares referencers by the corrected `StrictName`, not by the strict `get_full_name` as written. They differ only when two same-named sibling scopes hold members under the same key (`StrictNames.DuplicateScopesCollide`). See "## Findings".
- Item identity: items are told apart by their arena id. Python compares `DocItem`s with the dataclass `==` (`item == now` in `get_full_name` and `find_item`, `now_obj not in reference_who` in `parse_reference`), which could equate two distinct items with equal fields.
- DocBuild.BuildForest: `PlainKeys` (no key contains '/' or ends with the duplicate mark) is not established, because record names are arbitrary strings. `StrictNames.StrictNameInjective` keeps it as a hypothesis.
- DocBuild.InsertChain: a directory item keeps `NewItem`'s default documentation, where the source sets its `md_content` to "". No later step reads a directory's `md_content`.
- DocBuild.BuildForest: the exists/size filter of lines 819-827 is the input set `live` of present, non-empty files. `tqdm` progress and the logging are not modelled.
- DocBuild.BuildForest: the `assert type(file_content) == list` of line 851 holds by typing, because each entry's records are a sequence.
- DocBuild.StageRecords: ids come from the arena numbering. Records with more lines get smaller ids, so every father's id is below its children's.
- DocBuild.StageRecords: records hang under the file item while they are staged and are listed under their fathers only when attached. Python sets `father` and the `children` entry together.
- DocBuild.ChangeItems: the walk rewrites a map of item types, which is applied to the items afterwards.
- DocBuild.ChildName: the contract states that the suffix is the least free one. The final state in `EntryBuilt` states only "the name, or the name with some `_k` suffix".
- DocBuild.AddFile: when `find` before the entry reached an old file item, the records are attached under it, and `change_items` may return Err (KeyError or AttributeError) for old items below it. The contract states only when the assertion fails and when the entry succeeds.
- DocMeta.MetaInfo.GetTaskManager: `task_available_func` is a total predicate `avail`. A None function (every item available) is `avail` that always holds.
- DocTasks.CollectDependencies: `list(set(item_denp_task_ids))` is taken in first-occurrence order, because Python leaves set order unspecified.
- CallsParser.PopComponent: `stack.pop()` on an empty stack is an error result rather than an IndexError that escapes. Because a popped stage-0 node is not checked for an index, a node can be renumbered, and two components may then hold the same node.
- DocMeta.MetaInfo.ParseReference: both assertions `parse_reference` makes of each file become a precondition on the files of the tree, and no failing-assertion path is modelled: that the full name does not end with `latest_verison_substring` (repo_agent/doc_meta_info.py:471) and that it is not in `jump_files` (repo_agent/doc_meta_info.py:475). The tree builder never admits a latest-version file (repo_agent/file_handler.py:502-506; `MetaInfoUtils.LatestVersionSubstringAccepted`). The same precondition is carried by DocMeta.MetaInfo.GetTopology, DocMeta.MetaInfo.LoadDocFromOlderMeta, DocMeta.MergeOlder, DocMeta.ReferencesAgain and DocReferences.RecordFiles.
- MetaInfoUtils.LatestVersionSubstring: repo_agent/doc_meta_info.py:20 imports `latest_verison_substring` from repo_agent/utils/meta_info_utils.py, whose line 10 defines it only in a comment, so importing `doc_meta_info` (and with it `runner`) as written raises ImportError; the model takes the commented value `"_latest_version.py"`.
- CallsParser.StoreLocations: a definition whose name is None is skipped, where Python stores its location under the key `None`.
- JsonHandler.Get: objects keep duplicate keys in document order, and a lookup takes the last occurrence (as `json.load` keeps it). The duplicates are not collapsed.
- PyStrings.LowerChar: folds only the ASCII letters 'A' to 'Z'. Python's `str.lower` also folds other letters: U+212A KELVIN SIGN becomes 'k', so Python maps the extension ".\u212At" to ".kt" and detects kotlin, while the model's `GetFileLanguage` and `DetectLanguage` return None for it.
- ChangeDetector.DigitRun: `IsDigit` accepts only '0' to '9'. Python's `\d` and `int()` also accept other Unicode decimal digits, so a hunk header written with such digits matches in Python and is rejected by the model.
- Paths are split and joined on '/' (POSIX) by `PyStrings`. Windows separators are not modelled.
- ProjectManager: the `StructureItem` fields stand for the `item["name"]`, `item["type"]` and `item["parent"]` lookups. The KeyError of a missing key is not modelled.
- I/O: file reads and writes, `os.walk`, `os.path.exists` and `getsize`, git, the tree-sitter parser, jedi and the language model are inputs or function parameters. Logging, `tqdm` and printing are not modelled.
- ReferencesFinder.IsLikelyImportMatch: the `difflib` similarity ratio is an uninterpreted predicate, because it is floating point.
- FileHandler: `generate_overall_structure`, `_detect_most_popular_language` and `_fallback_file_structure` are not modelled. They walk the file system and count files.
- Runner: `add_new_item`, `process_file_changes`, `update_existing_item`, `update_object`, `run`, `first_generate`, `get_all_pys` and `git_commit` are not modelled. They drive I/O, git and a thread pool, and `add_new_item` and `process_file_changes` call `get_functions_and_classes` with an argument it does not take (the same failure as `Runner.NewObjectsAlwaysRaise`).
- DocMeta: `checkpoint`, `from_checkpoint_path`, `to_hierarchy_json` and `print_recursive` are not modelled. They serialise and print the tree.
- Concurrency: `checkpoint_lock`, `runner_lock`, the thread pool and the worker's sleep and retry are not modelled. Dispatch is sequential.
- Runner.MarkdownRefresh: the file writes, directory creation and retries of `markdown_refresh` are not modelled. The model computes which pages are written and their text.

## Findings

| source | as written | input that shows it | evidently intended | confidence | as-written member | corrected member |
|---|---|---|---|---|---|---|
| repo_agent/parsers/calls_parser.py:70-77 | `call_name.split('.')` runs before the check that `call_name` is set, so a call without a resolvable name raises AttributeError and `process_file` drops the whole file | a Kotlin call `foo()`, parsed as a `call_expression` whose children are a `simple_identifier` and a `call_suffix` | a call without a name is skipped, as the `parent_func and call_name` test that follows means to do | not executed | CallsParser.KotlinCallRaises | CallsParser.NeverFails |
| repo_agent/file_handler.py:198-209 | `_extract_name` of a `decorated_definition` looks only for a wrapped `function_definition`, so a decorated class gets name None and `get_obj_code_info` then raises TypeError for the file | `@dataclass` over `class Point: x: int` | the decorated class is named after the class it wraps | not executed | FileHandler.DecoratedClassFailsFile | FileHandler.ExtractNameCorrected |
| repo_agent/file_handler.py:312-324 | `_extract_go_parameters` reads the first `parameter_list`, which for a method is the receiver | `func (s T) m(x U)` is given the parameter `s` | the method's parameters are those of its `parameters` field (`x`) | not executed | FileHandler.GoReceiverTakenForParameters | FileHandler.ParametersCorrected |
| repo_agent/file_handler.py:562-566 | the heading-level loop follows `parent_dict` by name and never stops when a name is its own parent | a class `Foo` with a constructor `Foo`: `parent_dict["Foo"] == "Foo"` | the level counts the distinct ancestors, and stops at a name already met (level 2 here) | not executed | FileMarkdown.ConstructorLoopNeverStops | FileMarkdown.LevelMatchesLoop |
| display/book_tools/generate_summary_from_book.py:72-84 | the regex alternatives `.md$` and `.markdown$` leave the dot unescaped, so any character before `md` matches | "run.cmd" is listed as the page `[run.](…)` | only names ending in ".md" or ".markdown" are pages | not executed | GenerateSummary.CommandScriptTakenForMarkdown | GenerateSummary.CorrectedAcceptsLess |
| repo_agent/doc_meta_info.py:192-211 | with `strict=True` each ancestor is looked up in `self.father.children`, so only the item's own component uses its key; ancestors keep their plain names | two classes `A` (listed as `A` and `A_1`) in one file, each with a method `m`: both methods are named `f.py/A/m` | every component is spelt by the key its father lists it under, so the two methods differ | not executed | StrictNames.DuplicateScopesCollide | StrictNames.StrictNameInjective |
| repo_agent/runner.py:526-532 | `get_new_objects` calls `get_functions_and_classes(current_version)`, but the method (repo_agent/file_handler.py:341) takes no argument | any call: TypeError before anything is compared | the definitions of both versions are parsed and compared by name | not executed | Runner.NewObjectsAlwaysRaise | Runner.ObjectChangesApplied |
