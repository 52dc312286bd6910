// The extension table shared by the reference finder, the file handler and
// the project handler: .py, .java, .go, .kt and .kts, compared after
// lower-casing the extension.
module SourceLanguages {
  import opened Wrappers
  import opened PyStrings

  datatype Language = Python | Java | Go | Kotlin

  /** The language names used as dictionary keys throughout the program. */
  function LanguageName(l: Language): string
  {
    match l
    case Python => "python"
    case Java => "java"
    case Go => "go"
    case Kotlin => "kotlin"
  }

  /** The extension-to-language table, looked up with an exact key. */
  function LanguageOfExtension(ext: string): (r: Option<Language>)
    ensures r.Some? <==> ext in {".py", ".java", ".go", ".kt", ".kts"}
  {
    if ext == ".py" then Some(Python)
    else if ext == ".java" then Some(Java)
    else if ext == ".go" then Some(Go)
    else if ext == ".kt" || ext == ".kts" then Some(Kotlin)
    else None
  }

  /**
   * `_detect_language` / `get_file_language`: the table applied to the
   * lower-cased `os.path.splitext` extension of the path.
   */
  function DetectLanguage(path: string): (r: Option<Language>)
    ensures r.Some? ==> SplitExt(path).1 != "" && '.' !in SplitExt(path).1[1..]
  {
    LanguageOfExtension(Lower(SplitExt(path).1))
  }

  /** `_get_extension`: the extension written for a language name, "txt" for any other string. */
  function GetExtension(language: string): (r: string)
    ensures r != "kts"
  {
    if language == "python" then "py"
    else if language == "java" then "java"
    else if language == "go" then "go"
    else if language == "kotlin" then "kt"
    else "txt"
  }

  /** A base whose last path component has a character other than a dot. */
  predicate HasStem(base: string)
  {
    exists k :: RFind(base, '/') < k < |base| && base[k] != '.'
  }

  /**
   * Detection ignores the case of the extension: any spelling of one of the
   * five extensions after a proper stem is detected as its language.
   */
  lemma DetectLanguageKnown(base: string, ext: string, lowered: string)
    requires HasStem(base)
    requires lowered in {".py", ".java", ".go", ".kt", ".kts"} && Lower(ext) == lowered
    ensures DetectLanguage(base + ext) == LanguageOfExtension(lowered)
    ensures DetectLanguage(base + ext).Some?
  {
    assert |ext| == |lowered| && ext[0] == '.';
    forall k | 1 <= k < |ext| ensures ext[k] != '.' && ext[k] != '/' {
      assert LowerChar(ext[k]) == lowered[k];
    }
    assert '.' !in ext[1..];
    var k :| RFind(base, '/') < k < |base| && base[k] != '.';
    SplitExtOfConcat(base, ext);
  }

  /** A path without one of the five extensions, in any case, has no language. */
  lemma DetectLanguageUnknown(path: string)
    requires Lower(SplitExt(path).1) !in {".py", ".java", ".go", ".kt", ".kts"}
    ensures DetectLanguage(path).None?
  {
  }

  /** `_detect_language("f." + _get_extension(l)) == l` for the four languages. */
  lemma {:induction false} ExtensionRoundTrip(l: Language)
    ensures DetectLanguage("f." + GetExtension(LanguageName(l))) == Some(l)
  {
    var ext := "." + GetExtension(LanguageName(l));
    assert "f." + GetExtension(LanguageName(l)) == "f" + ext;
    match l {
      case Python => assert ext == ".py";
      case Java => assert ext == ".java";
      case Go => assert ext == ".go";
      case Kotlin => assert ext == ".kt";
    }
    assert RFind("f", '/') == -1;
    assert HasStem("f");
    LowerOfLower(ext);
    DetectLanguageKnown("f", ext, ext);
  }

  /** A language name the table does not know gets the "txt" extension, which detects as nothing. */
  lemma {:induction false} UnknownLanguageExtension(language: string)
    requires language !in {"python", "java", "go", "kotlin"}
    ensures GetExtension(language) == "txt"
    ensures DetectLanguage("f." + GetExtension(language)).None?
  {
    var p := "f." + GetExtension(language);
    assert p == "f" + ".txt";
    assert RFind("f", '/') == -1;
    SplitExtOfConcat("f", ".txt");
  }
}
