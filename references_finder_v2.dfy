// The second reference finder: the same position lookup, identifier scan,
// scope filter and per-file search as the first, whose members it reuses,
// and a repository search that stops before the import filter.
module ReferencesFinderV2 {
  import opened Wrappers
  import opened SyntaxTree
  import opened SourceLanguages
  import RF = ReferencesFinder

  /** What this `find_references_in_repo` returns: the per-file results, same language first, unfiltered. */
  ghost function RepoReferences(name: string, originFile: string, originLine: int, originColumn: int, walk: seq<string>,
                                parsed: string -> Option<Node>): seq<RF.Reference>
  {
    match DetectLanguage(originFile)
    case None => []
    case Some(l) => RF.RawReferences(RF.ByPriority(RF.Candidates(walk, l)), name, originLine, originColumn, l, parsed)
  }

  /** `find_references_in_repo` without `_filter_references_by_imports`. */
  method FindReferencesInRepo(name: string, originFile: string, originLine: int, originColumn: int, walk: seq<string>,
                              parsed: string -> Option<Node>) returns (references: seq<RF.Reference>)
    ensures references == RepoReferences(name, originFile, originLine, originColumn, walk, parsed)
  {
    var originLanguage := DetectLanguage(originFile);
    if originLanguage.None? {
      return [];
    }
    var es := RF.ListCandidates(walk, originLanguage.value);
    references := RF.CollectReferences(RF.ByPriority(es), name, originLine, originColumn, originLanguage.value, parsed);
  }

  /** The origin position is never reported, and every reference names the target in a walked file of known language. */
  lemma RepoReferencesShape(name: string, originFile: string, originLine: int, originColumn: int, walk: seq<string>,
                            parsed: string -> Option<Node>, r: RF.Reference)
    requires r in RepoReferences(name, originFile, originLine, originColumn, walk, parsed)
    ensures r.name == name && !(r.line == originLine && r.column == originColumn)
    ensures r.file in walk && DetectLanguage(r.file).Some?
  {
    var l := DetectLanguage(originFile).value;
    var es := RF.Candidates(walk, l);
    RF.RawReferencesShape(RF.ByPriority(es), name, originLine, originColumn, l, parsed, r);
    var e :| e in RF.ByPriority(es) && e.path == r.file;
    RF.HavingMembers(es, 0);
    RF.HavingMembers(es, 1);
    assert e in es;
  }

  /** References in files of the origin's language come before all others. */
  lemma RepoReferencesOrder(name: string, originFile: string, originLine: int, originColumn: int, walk: seq<string>,
                            parsed: string -> Option<Node>)
    requires DetectLanguage(originFile).Some?
    ensures RF.SameLanguageFirst(RF.Files(RepoReferences(name, originFile, originLine, originColumn, walk, parsed)),
                                 DetectLanguage(originFile).value)
  {
    RF.RawReferencesOrder(walk, name, originLine, originColumn, DetectLanguage(originFile).value, parsed);
  }

  /**
   * The first finder only removes references: each of its results is one of
   * this finder's, and the two agree when the origin's imports cannot be read.
   */
  lemma ImportFilterOnlyRemoves(name: string, originFile: string, originLine: int, originColumn: int, walk: seq<string>,
                                parsed: string -> Option<Node>, originImports: Option<map<string, set<string>>>,
                                context: (string, int, int) -> (Option<string>, Option<string>), similar: (string, string) -> bool)
    ensures forall r :: r in RF.RepoReferences(name, originFile, originLine, originColumn, walk, parsed, originImports, context, similar)
                        ==> r in RepoReferences(name, originFile, originLine, originColumn, walk, parsed)
    ensures originImports.None? ==>
              RF.RepoReferences(name, originFile, originLine, originColumn, walk, parsed, originImports, context, similar)
              == RepoReferences(name, originFile, originLine, originColumn, walk, parsed)
  {
    forall r | r in RF.RepoReferences(name, originFile, originLine, originColumn, walk, parsed, originImports, context, similar)
      ensures r in RepoReferences(name, originFile, originLine, originColumn, walk, parsed)
    {
      var l := DetectLanguage(originFile).value;
      var raw := RF.RawReferences(RF.ByPriority(RF.Candidates(walk, l)), name, originLine, originColumn, l, parsed);
      if |raw| > 0 && originImports.Some? {
        RF.ImportFilteredMembers(raw, originFile, originFile, originImports, f => parsed(f).Some?, context, similar, r);
      }
    }
  }
}
