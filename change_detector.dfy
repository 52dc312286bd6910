// Line bookkeeping over unified-diff hunks (the format of section 2.2.2.2,
// "Detailed Description of Unified Format", of the GNU diffutils manual) and
// the detection of the functions and classes that changed lines fall into.
module ChangeDetector {
  import opened Wrappers
  import opened PyStrings

  // ---------------------------------------------------------------------
  // The hunk-header pattern `@@ \-(\d+),\d+ \+(\d+),\d+ @@`, applied with
  // `re.match`: anchored at the start of the line, anything may follow.
  // ---------------------------------------------------------------------

  predicate IsDigit(c: char) { '0' <= c <= '9' }

  /** Length of the run of digits starting at index i. */
  function DigitRun(s: string, i: nat): (n: nat)
    requires i <= |s|
    decreases |s| - i
    ensures i + n <= |s|
    ensures forall k :: i <= k < i + n ==> IsDigit(s[k])
    ensures i + n == |s| || !IsDigit(s[i + n])
  {
    if i < |s| && IsDigit(s[i]) then 1 + DigitRun(s, i + 1) else 0
  }

  /** `lit` occurs in `s` at index i. */
  predicate LiteralAt(s: string, i: nat, lit: string)
  {
    i + |lit| <= |s| && s[i..i + |lit|] == lit
  }

  /**
   * Parses a `\d+` group at i followed by the literal `next`; returns the
   * group's value and the index after `next`. A greedy digit run followed by
   * a non-digit literal is exactly what the regular expression accepts.
   */
  function NumberThen(s: string, i: nat, next: string): Option<(nat, nat)>
    requires i <= |s|
  {
    var n := DigitRun(s, i);
    if n >= 1 && LiteralAt(s, i + n, next) then Some((ParseDigits(s[i..i + n]), i + n + |next|))
    else None
  }

  /** `(old start, new start)` of a line the hunk-header pattern matches, or None. */
  function HunkHeader(line: string): Option<(nat, nat)>
  {
    if !LiteralAt(line, 0, "@@ -") then None
    else match NumberThen(line, 4, ",")
      case None => None
      case Some((oldStart, i)) =>
        match NumberThen(line, i, " +")
        case None => None
        case Some((_, j)) =>
          match NumberThen(line, j, ",")
          case None => None
          case Some((newStart, k)) =>
            match NumberThen(line, k, " @@")
            case None => None
            case Some(_) => Some((oldStart, newStart))
  }

  /** The header line git writes for a hunk; `heading` is the optional text after the second `@@`. */
  function FormatHeader(oldStart: nat, oldCount: nat, newStart: nat, newCount: nat, heading: string): string
  {
    "@@ -" + (NatToString(oldStart) + ("," + (NatToString(oldCount)
      + (" +" + (NatToString(newStart) + ("," + (NatToString(newCount) + (" @@" + heading))))))))
  }

  /** A formatted number followed by `next` at index i is read back. */
  lemma NumberThenAt(s: string, i: nat, n: nat, next: string)
    requires |next| > 0 && !IsDigit(next[0])
    requires i + |NatToString(n)| + |next| <= |s|
    requires s[i..i + |NatToString(n)|] == NatToString(n)
    requires s[i + |NatToString(n)|..i + |NatToString(n)| + |next|] == next
    ensures NumberThen(s, i, next) == Some((n, i + |NatToString(n)| + |next|))
  {
    var d := NatToString(n);
    forall k | i <= k < i + |d| ensures IsDigit(s[k]) {
      assert s[k] == s[i..i + |d|][k - i];
    }
    assert s[i + |d|] == s[i + |d|..i + |d| + |next|][0];
    DigitRunOf(s, i, |d|);
    ParseNatToString(n);
  }

  /** A formatted number followed by `next` at the start of the suffix s[i..] is read back. */
  lemma NumberThenSuffix(s: string, i: nat, n: nat, next: string, post: string) returns (e: nat)
    requires |next| > 0 && !IsDigit(next[0])
    requires i <= |s| && s[i..] == NatToString(n) + (next + post)
    ensures e == i + |NatToString(n)| + |next| && e <= |s|
    ensures NumberThen(s, i, next) == Some((n, e))
    ensures s[e..] == post
  {
    e := i + |NatToString(n)| + |next|;
    var d := NatToString(n);
    var u := d + (next + post);
    SliceOfSuffix(s, i, 0, |d|);
    assert u[..|d|] == d;
    SliceOfSuffix(s, i, |d|, |d| + |next|);
    assert u[|d|..|d| + |next|] == next;
    assert s[i + |d| + |next|..] == u[|d| + |next|..];
    assert u[|d| + |next|..] == post;
    NumberThenAt(s, i, n, next);
  }

  lemma SliceOfSuffix(s: string, i: nat, a: nat, b: nat)
    requires i + a <= i + b <= |s|
    ensures s[i + a..i + b] == s[i..][a..b]
  {
  }

  lemma {:induction false} DigitRunOf(s: string, i: nat, n: nat)
    requires i + n <= |s|
    requires forall k :: i <= k < i + n ==> IsDigit(s[k])
    requires i + n == |s| || !IsDigit(s[i + n])
    ensures DigitRun(s, i) == n
    decreases n
  {
    if n > 0 { DigitRunOf(s, i + 1, n - 1); }
  }

  /** Every header in git's format is recognised, with both start lines read back. */
  lemma HunkHeaderOfFormat(a: nat, b: nat, c: nat, d: nat, heading: string)
    ensures HunkHeader(FormatHeader(a, b, c, d, heading)) == Some((a, c))
  {
    var s := FormatHeader(a, b, c, d, heading);
    var t3 := NatToString(d) + (" @@" + heading);
    var t2 := NatToString(c) + ("," + t3);
    var t1 := NatToString(b) + (" +" + t2);
    assert s == "@@ -" + (NatToString(a) + ("," + t1));
    assert s[..4] == "@@ -";
    assert s[4..] == NatToString(a) + ("," + t1);
    HeaderChain(s, a, b, c, d, t1, t2, t3, heading);
  }

  lemma HeaderChain(s: string, a: nat, b: nat, c: nat, d: nat, t1: string, t2: string, t3: string, heading: string)
    requires |s| >= 4 && s[..4] == "@@ -" && s[4..] == NatToString(a) + ("," + t1)
    requires t1 == NatToString(b) + (" +" + t2)
    requires t2 == NatToString(c) + ("," + t3)
    requires t3 == NatToString(d) + (" @@" + heading)
    ensures HunkHeader(s) == Some((a, c))
  {
    var i := NumberThenSuffix(s, 4, a, ",", t1);
    var j, k := HeaderFromNew(s, i, b, c, d, t2, t3, heading);
    assert LiteralAt(s, 0, "@@ -");
    HunkHeaderFromParts(s, a, c, i, j, k);
  }

  /** From the new-file start on: ` +b,d @@` with the old count `b` already read. */
  lemma HeaderFromNew(s: string, i: nat, b: nat, c: nat, d: nat, t2: string, t3: string, heading: string) returns (j: nat, k: nat)
    requires i <= |s| && s[i..] == NatToString(b) + (" +" + t2)
    requires t2 == NatToString(c) + ("," + t3)
    requires t3 == NatToString(d) + (" @@" + heading)
    ensures NumberThen(s, i, " +") == Some((b, j)) && j <= |s|
    ensures NumberThen(s, j, ",") == Some((c, k)) && k <= |s| && NumberThen(s, k, " @@").Some?
  {
    j := NumberThenSuffix(s, i, b, " +", t2);
    k := HeaderFromNewCount(s, j, c, d, t3, heading);
  }

  /** The tail `c,d @@heading` of a header. */
  lemma HeaderFromNewCount(s: string, j: nat, c: nat, d: nat, t3: string, heading: string) returns (k: nat)
    requires j <= |s| && s[j..] == NatToString(c) + ("," + t3)
    requires t3 == NatToString(d) + (" @@" + heading)
    ensures NumberThen(s, j, ",") == Some((c, k)) && k <= |s| && NumberThen(s, k, " @@").Some?
  {
    k := NumberThenSuffix(s, j, c, ",", t3);
    var _ := NumberThenSuffix(s, k, d, " @@", heading);
  }

  lemma HunkHeaderFromParts(s: string, a: nat, c: nat, i: nat, j: nat, k: nat)
    requires LiteralAt(s, 0, "@@ -")
    requires 4 <= |s| && NumberThen(s, 4, ",") == Some((a, i))
    requires i <= |s| && NumberThen(s, i, " +").Some? && NumberThen(s, i, " +").value.1 == j
    requires j <= |s| && NumberThen(s, j, ",") == Some((c, k))
    requires k <= |s| && NumberThen(s, k, " @@").Some?
    ensures HunkHeader(s) == Some((a, c))
  {
  }

  /** A header that leaves out the `,count` parts is not recognised. */
  lemma HeaderWithoutCounts()
    ensures HunkHeader("@@ -3 +3 @@") == None
  {
    assert DigitRun("@@ -3 +3 @@", 5) == 0;
    assert DigitRun("@@ -3 +3 @@", 4) == 1;
  }

  // ---------------------------------------------------------------------
  // parse_diffs
  // ---------------------------------------------------------------------

  /** A line that adds to the new file: starts with '+' but not with "+++". */
  predicate IsAdded(line: string) { |line| >= 1 && line[0] == '+' && !LiteralAt(line, 0, "+++") }

  /** A line that removes from the old file: starts with '-' but not with "---". */
  predicate IsRemoved(line: string) { |line| >= 1 && line[0] == '-' && !LiteralAt(line, 0, "---") }

  datatype Counters = Counters(current: int, change: int, added: seq<(int, string)>, removed: seq<(int, string)>)

  /** The effect of one diff line. */
  function Step(st: Counters, line: string): Counters
  {
    match HunkHeader(line)
    case Some((o, n)) => st.(current := o, change := n)
    case None =>
      if IsAdded(line) then st.(added := st.added + [(st.change, line[1..])], change := st.change + 1)
      else if IsRemoved(line) then st.(removed := st.removed + [(st.current, line[1..])], current := st.current + 1)
      else st.(current := st.current + 1, change := st.change + 1)
  }

  /** Processing a list of lines from the given counters. */
  function Run(st: Counters, lines: seq<string>): Counters
    decreases |lines|
  {
    if |lines| == 0 then st else Run(Step(st, lines[0]), lines[1..])
  }

  /** `parse_diffs`: both counters start at 0; returns (added, removed). */
  method ParseDiffs(diffs: seq<string>) returns (added: seq<(int, string)>, removed: seq<(int, string)>)
    ensures added == Run(Counters(0, 0, [], []), diffs).added
    ensures removed == Run(Counters(0, 0, [], []), diffs).removed
  {
    var lineNumberCurrent, lineNumberChange := 0, 0;
    added, removed := [], [];
    var i := 0;
    while i < |diffs|
      invariant 0 <= i <= |diffs|
      invariant Run(Counters(0, 0, [], []), diffs)
                == Run(Counters(lineNumberCurrent, lineNumberChange, added, removed), diffs[i..])
    {
      var line := diffs[i];
      assert diffs[i..][1..] == diffs[i + 1..];
      var header := HunkHeader(line);
      if header.Some? {
        lineNumberCurrent, lineNumberChange := header.value.0, header.value.1;
      } else if IsAdded(line) {
        added := added + [(lineNumberChange, line[1..])];
        lineNumberChange := lineNumberChange + 1;
      } else if IsRemoved(line) {
        removed := removed + [(lineNumberCurrent, line[1..])];
        lineNumberCurrent := lineNumberCurrent + 1;
      } else {
        lineNumberCurrent := lineNumberCurrent + 1;
        lineNumberChange := lineNumberChange + 1;
      }
      i := i + 1;
    }
  }

  // Reference numbering of one hunk, stated independently of the counters:
  // a hunk line belongs to the new file unless it is a removal, and to the
  // old file unless it is an addition.

  function CountInNew(body: seq<string>): nat
  {
    if |body| == 0 then 0 else CountInNew(body[..|body| - 1]) + (if IsRemoved(body[|body| - 1]) then 0 else 1)
  }

  function CountInOld(body: seq<string>): nat
  {
    if |body| == 0 then 0 else CountInOld(body[..|body| - 1]) + (if IsAdded(body[|body| - 1]) then 0 else 1)
  }

  /** Each addition paired with its new-file line number: the hunk's new start plus the new-file lines before it. */
  function AddedRef(body: seq<string>, newStart: int): seq<(int, string)>
  {
    if |body| == 0 then []
    else
      var last := body[|body| - 1];
      AddedRef(body[..|body| - 1], newStart)
        + (if IsAdded(last) then [(newStart + CountInNew(body[..|body| - 1]), last[1..])] else [])
  }

  /** Each removal paired with its old-file line number. */
  function RemovedRef(body: seq<string>, oldStart: int): seq<(int, string)>
  {
    if |body| == 0 then []
    else
      var last := body[|body| - 1];
      RemovedRef(body[..|body| - 1], oldStart)
        + (if IsRemoved(last) then [(oldStart + CountInOld(body[..|body| - 1]), last[1..])] else [])
  }

  predicate NoHeader(body: seq<string>)
  {
    forall k :: 0 <= k < |body| ==> HunkHeader(body[k]).None?
  }

  lemma {:induction false} RunSnoc(st: Counters, body: seq<string>, line: string)
    ensures Run(st, body + [line]) == Step(Run(st, body), line)
    decreases |body|
  {
    if |body| > 0 {
      assert (body + [line])[1..] == body[1..] + [line];
      RunSnoc(Step(st, body[0]), body[1..], line);
    }
  }

  /**
   * Within one hunk (a header followed by lines that are not headers), the
   * recorded additions and removals carry exactly the reference numbers.
   */
  lemma {:induction false} HunkNumbering(st: Counters, oldStart: nat, newStart: nat, body: seq<string>)
    requires NoHeader(body)
    ensures var r := Run(st.(current := oldStart, change := newStart), body);
      r.added == st.added + AddedRef(body, newStart)
      && r.removed == st.removed + RemovedRef(body, oldStart)
      && r.change == newStart + CountInNew(body)
      && r.current == oldStart + CountInOld(body)
    decreases |body|
  {
    if |body| > 0 {
      var init := body[..|body| - 1];
      var last := body[|body| - 1];
      assert init + [last] == body;
      assert NoHeader(init);
      HunkNumbering(st, oldStart, newStart, init);
      RunSnoc(st.(current := oldStart, change := newStart), init, last);
    }
  }

  /** The header line itself records nothing and sets the two counters. */
  lemma HeaderSetsCounters(st: Counters, line: string, a: nat, c: nat)
    requires HunkHeader(line) == Some((a, c))
    ensures Run(st, [line]) == st.(current := a, change := c)
  {
    assert [line][1..] == [];
  }

  function CountAdded(lines: seq<string>): nat
  {
    if |lines| == 0 then 0 else CountAdded(lines[..|lines| - 1]) + (if IsAdded(lines[|lines| - 1]) then 1 else 0)
  }

  lemma {:induction false} AddedRefLength(body: seq<string>, newStart: int)
    ensures |AddedRef(body, newStart)| == CountAdded(body)
  {
    if |body| > 0 { AddedRefLength(body[..|body| - 1], newStart); }
  }

  lemma {:induction false} CountInNewMonotone(body: seq<string>, j: nat)
    requires j <= |body|
    ensures CountInNew(body[..j]) <= CountInNew(body)
    decreases |body|
  {
    if j < |body| {
      assert body[..|body| - 1][..j] == body[..j];
      CountInNewMonotone(body[..|body| - 1], j);
    } else {
      assert body[..j] == body;
    }
  }

  /** Recorded new-file numbers of a hunk are below the hunk's new start plus its new-file lines. */
  lemma {:induction false} AddedRefBelow(body: seq<string>, newStart: int)
    ensures forall k :: 0 <= k < |AddedRef(body, newStart)| ==>
      newStart <= AddedRef(body, newStart)[k].0 < newStart + CountInNew(body)
  {
    if |body| > 0 {
      AddedRefBelow(body[..|body| - 1], newStart);
    }
  }

  /** Within one hunk the recorded new-file numbers strictly increase. */
  lemma {:induction false} AddedRefIncreasing(body: seq<string>, newStart: int)
    ensures forall k, l :: 0 <= k < l < |AddedRef(body, newStart)| ==>
      AddedRef(body, newStart)[k].0 < AddedRef(body, newStart)[l].0
  {
    if |body| > 0 {
      var init := body[..|body| - 1];
      AddedRefIncreasing(init, newStart);
      AddedRefBelow(init, newStart);
    }
  }

  /** Over any input, one `added` entry is recorded per addition line. */
  lemma {:induction false} AddedCount(st: Counters, lines: seq<string>)
    ensures |Run(st, lines).added| == |st.added| + CountAdded(lines)
    decreases |lines|
  {
    if |lines| > 0 {
      var init := lines[..|lines| - 1];
      assert init + [lines[|lines| - 1]] == lines;
      AddedCount(st, init);
      RunSnoc(st, init, lines[|lines| - 1]);
      var l := lines[|lines| - 1];
      if HunkHeader(l).Some? { assert l[0] == '@'; }
    }
  }

  // ---------------------------------------------------------------------
  // identify_changes_in_structure
  // ---------------------------------------------------------------------

  /** A structure record: (type, name, start line, end line, parent name). */
  datatype Structure = Structure(kind: string, name: string, startLine: int, endLine: int, parent: Option<string>)

  /** The (name, parent) pairs of the structures whose inclusive range holds one of the lines. */
  function Touched(lines: seq<(int, string)>, structures: seq<Structure>): set<(string, Option<string>)>
  {
    set l, s | l in lines && s in structures && s.startLine <= l.0 <= s.endLine :: (s.name, s.parent)
  }

  method CollectTouched(lines: seq<(int, string)>, structures: seq<Structure>)
    returns (result: set<(string, Option<string>)>)
    ensures forall p :: p in result <==>
      exists l, s :: l in lines && s in structures && s.startLine <= l.0 <= s.endLine && p == (s.name, s.parent)
  {
    result := {};
    var i := 0;
    while i < |lines|
      invariant 0 <= i <= |lines|
      invariant result == Touched(lines[..i], structures)
    {
      var j := 0;
      while j < |structures|
        invariant 0 <= j <= |structures|
        invariant result == Touched(lines[..i], structures)
                  + set s | s in structures[..j] && s.startLine <= lines[i].0 <= s.endLine :: (s.name, s.parent)
      {
        var s := structures[j];
        if s.startLine <= lines[i].0 <= s.endLine {
          result := result + {(s.name, s.parent)};
        }
        assert structures[..j + 1] == structures[..j] + [s];
        j := j + 1;
      }
      assert structures[..j] == structures;
      assert lines[..i + 1] == lines[..i] + [lines[i]];
      i := i + 1;
    }
    assert lines[..i] == lines;
  }

  /** `identify_changes_in_structure`: one set per change type. */
  method IdentifyChangesInStructure(added: seq<(int, string)>, removed: seq<(int, string)>, structures: seq<Structure>)
    returns (addedStructures: set<(string, Option<string>)>, removedStructures: set<(string, Option<string>)>)
    ensures addedStructures == Touched(added, structures)
    ensures removedStructures == Touched(removed, structures)
  {
    addedStructures := CollectTouched(added, structures);
    removedStructures := CollectTouched(removed, structures);
  }
}
