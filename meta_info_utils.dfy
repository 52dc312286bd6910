// Naming of the "latest version" fake files that shadow a source file while
// its staged content is documented, and the recovery of the original name.
module MetaInfoUtils {
  import opened PyStrings

  const Marker: string := "_latest_version"

  /** The extensions the fake-file pattern accepts after `_latest_version.`. */
  const PatternExts: seq<string> := ["py", "java", "go", "kt", "kts"]

  /** Python's `$` matches at the very end or just before one final newline. */
  predicate AtEnd(s: string, e: int)
  {
    e == |s| || (|s| > 0 && e == |s| - 1 && s[|s| - 1] == '\n')
  }

  /** The literal text of the k-th alternative of the pattern. */
  function Alternative(k: nat): string
    requires k < |PatternExts|
  {
    Marker + "." + PatternExts[k]
  }

  /** The pattern `_latest_version\.(py|java|go|kt|kts)$` matches `s` starting at index i. */
  predicate MatchesAt(s: string, i: int)
  {
    exists k | 0 <= k < |PatternExts| :: OccursAt(s, Alternative(k), i) && AtEnd(s, i + |Alternative(k)|)
  }

  /** `is_latest_version_file_regex`: `re.search` finds a match at some position. */
  predicate IsLatestVersionFile(path: string)
  {
    exists i | 0 <= i <= |path| :: MatchesAt(path, i)
  }

  /** The path ends in an alternative, possibly followed by one newline. */
  predicate EndsInAlternative(path: string)
  {
    exists k | 0 <= k < |PatternExts| ::
      EndsWith(path, Alternative(k)) || EndsWith(path, Alternative(k) + "\n")
  }

  /** The search succeeds exactly when the path ends in `_latest_version.<ext>`, possibly followed by one newline. */
  lemma IsLatestVersionFileEndsWith(path: string)
    ensures IsLatestVersionFile(path) <==> EndsInAlternative(path)
  {
    if IsLatestVersionFile(path) {
      var i :| 0 <= i <= |path| && MatchesAt(path, i);
      var k :| 0 <= k < |PatternExts| && OccursAt(path, Alternative(k), i) && AtEnd(path, i + |Alternative(k)|);
      MatchEndsIn(path, i, k);
    }
    if EndsInAlternative(path) {
      var k :| 0 <= k < |PatternExts| &&
        (EndsWith(path, Alternative(k)) || EndsWith(path, Alternative(k) + "\n"));
      AlternativeMatches(path, k);
    }
  }

  lemma AlternativeMatches(path: string, k: nat)
    requires k < |PatternExts|
    requires EndsWith(path, Alternative(k)) || EndsWith(path, Alternative(k) + "\n")
    ensures IsLatestVersionFile(path)
  {
    var w := Alternative(k);
    var i := if EndsWith(path, w) then |path| - |w| else |path| - |w| - 1;
    if !EndsWith(path, w) {
      assert path[i..i + |w|] == (w + "\n")[..|w|];
    }
    assert OccursAt(path, w, i) && AtEnd(path, i + |w|);
    assert MatchesAt(path, i);
  }

  lemma MatchEndsIn(path: string, i: int, k: nat)
    requires k < |PatternExts|
    requires OccursAt(path, Alternative(k), i) && AtEnd(path, i + |Alternative(k)|)
    ensures EndsInAlternative(path)
  {
    var w := Alternative(k);
    if i + |w| == |path| {
      assert EndsWith(path, w);
    } else {
      assert path[|path| - |w| - 1..] == w + "\n";
      assert EndsWith(path, w + "\n");
    }
  }

  /** `get_latest_version_path`: the marker goes between the base path and the extension. */
  function GetLatestVersionPath(path: string): (r: string)
    ensures r == SplitExt(path).0 + Marker + SplitExt(path).1
  {
    var (base, ext) := SplitExt(path);
    base + Marker + ext
  }

  /** A path with one of the five extensions is turned into a path the pattern accepts. */
  lemma LatestVersionPathAccepted(path: string)
    requires SplitExt(path).1 in [".py", ".java", ".go", ".kt", ".kts"]
    ensures IsLatestVersionFile(GetLatestVersionPath(path))
  {
    var (base, ext) := SplitExt(path);
    var r := GetLatestVersionPath(path);
    var k := if ext == ".py" then 0 else if ext == ".java" then 1
              else if ext == ".go" then 2 else if ext == ".kt" then 3 else 4;
    var w := Alternative(k);
    assert r == base + w;
    assert r[|base|..] == w;
    assert MatchesAt(r, |base|);
  }

  /** `delete_fake_files` recovers the original name by deleting every marker occurrence. */
  function OriginalName(fakePath: string): string
  {
    ReplaceAll(fakePath, Marker, "")
  }

  /** Deleting the marker gives the original path back, provided the original did not contain it. */
  lemma RecoverOriginalName(path: string)
    requires !Contains(path, Marker)
    ensures OriginalName(GetLatestVersionPath(path)) == path
  {
    var (base, ext) := SplitExt(path);
    NoOccurrenceBeforeMarker(path, base, ext);
    ReplaceAllSkip(base, Marker + ext, Marker, "");
    assert (Marker + ext)[..|Marker|] == Marker;
    assert (Marker + ext)[|Marker|..] == ext;
    NoOccurrenceInSuffix(path, base, ext);
    ReplaceAllNone(ext, Marker, "");
    assert base + Marker + ext == base + (Marker + ext);
  }

  /** The last character of the marker occurs nowhere else in it: the marker has no border. */
  lemma MarkerEndsUniquely()
    ensures forall j :: 0 <= j < |Marker| - 1 ==> Marker[j] != 'n'
  {
  }

  lemma NoOccurrenceBeforeMarker(path: string, base: string, ext: string)
    requires path == base + ext && !Contains(path, Marker)
    ensures forall i :: 0 <= i < |base| ==> !OccursAt(base + (Marker + ext), Marker, i)
  {
    var s := base + (Marker + ext);
    MarkerEndsUniquely();
    forall i | 0 <= i < |base| ensures !OccursAt(s, Marker, i) {
      if i + |Marker| <= |base| {
        assert path[i..i + |Marker|] == s[i..i + |Marker|];
        assert !OccursAt(path, Marker, i);
      } else {
        // Such an occurrence would end inside the inserted marker.
        var m := i + |Marker| - |base|;
        assert s[i + |Marker| - 1] == Marker[m - 1];
      }
    }
  }

  lemma NoOccurrenceInSuffix(path: string, base: string, ext: string)
    requires path == base + ext && !Contains(path, Marker)
    ensures forall i :: 0 <= i <= |ext| ==> !OccursAt(ext, Marker, i)
  {
    forall i | 0 <= i <= |ext| ensures !OccursAt(ext, Marker, i) {
      assert !OccursAt(path, Marker, |base| + i);
      if i + |Marker| <= |ext| {
        assert path[|base| + i..|base| + i + |Marker|] == ext[i..i + |Marker|];
      }
    }
  }

  /** Positions before |x| that start no occurrence are copied unchanged. */
  lemma {:induction false} ReplaceAllSkip(x: string, rest: string, pat: string, rep: string)
    requires |pat| > 0
    requires forall i :: 0 <= i < |x| ==> !OccursAt(x + rest, pat, i)
    ensures ReplaceAll(x + rest, pat, rep) == x + ReplaceAll(rest, pat, rep)
    decreases |x|
  {
    if |x| > 0 {
      var s := x + rest;
      assert !OccursAt(s, pat, 0);
      if |s| < |pat| {
        ReplaceAllNone(rest, pat, rep);
      } else {
        assert s[1..] == x[1..] + rest;
        forall i | 0 <= i < |x| - 1 ensures !OccursAt(x[1..] + rest, pat, i) {
          assert !OccursAt(s, pat, i + 1);
          if i + |pat| <= |s| - 1 {
            assert s[i + 1..i + 1 + |pat|] == (x[1..] + rest)[i..i + |pat|];
          }
        }
        ReplaceAllSkip(x[1..], rest, pat, rep);
      }
    } else {
      assert x + rest == rest;
    }
  }

  /** A string without an occurrence of the pattern is left unchanged. */
  lemma {:induction false} ReplaceAllNone(y: string, pat: string, rep: string)
    requires |pat| > 0
    requires forall i :: 0 <= i <= |y| ==> !OccursAt(y, pat, i)
    ensures ReplaceAll(y, pat, rep) == y
    decreases |y|
  {
    if |y| >= |pat| {
      assert !OccursAt(y, pat, 0);
      forall i | 0 <= i <= |y| - 1 ensures !OccursAt(y[1..], pat, i) {
        assert !OccursAt(y, pat, i + 1);
        if i + |pat| <= |y| - 1 {
          assert y[i + 1..i + 1 + |pat|] == y[1..][i..i + |pat|];
        }
      }
      ReplaceAllNone(y[1..], pat, rep);
    }
  }

  /**
   * `latest_verison_substring`, the suffix `parse_reference` asserts no file
   * name ends with. The module defines it only in a comment; this is the
   * commented value.
   */
  const LatestVersionSubstring: string := "_latest_version.py"

  /** A path ending in that suffix is one the latest-version pattern accepts. */
  lemma LatestVersionSubstringAccepted(path: string)
    requires EndsWith(path, LatestVersionSubstring)
    ensures IsLatestVersionFile(path)
  {
    assert Alternative(0) == LatestVersionSubstring;
    AlternativeMatches(path, 0);
  }
}
