/**
 * The one-pass check that no hunk of a file's diff is cut off (`complete_hunks` in
 * scripts/pr-review/role_review.py). The chunk is given as its lines.
 */
module HunkChecker {
  import opened Collections
  import opened Decimals

  // ---- hunk headers: @@ -\d+(?:,(\d+))? \+\d+(?:,(\d+))? @@.* -------------------------

  ghost predicate Digits(s: string, i: nat, j: nat)
  {
    i <= j <= |s| && forall k :: i <= k < j ==> '0' <= s[k] <= '9'
  }

  /** s[i..j] is `\d+(?:,(\d+))?` and stands for n lines: the optional number, or one without it. */
  ghost predicate IsRange(s: string, i: nat, j: nat, n: nat)
  {
    exists e: nat :: RangeSplit(s, i, e, j, n)
  }

  ghost predicate RangeSplit(s: string, i: nat, e: nat, j: nat, n: nat)
  {
    && i < e <= j && Digits(s, i, e) && j <= |s|
    && if e == j then n == 1
       else s[e] == ',' && e + 1 < j && Digits(s, e + 1, j) && n == ValueOf(s[e + 1..j])
  }

  /** The line matches the header expression and declares `o` old and `n` new lines. */
  ghost predicate IsHeader(s: string, o: nat, n: nat)
  {
    exists j: nat, k: nat :: HeaderSplit(s, j, k, o, n)
  }

  ghost predicate HeaderSplit(s: string, j: nat, k: nat, o: nat, n: nat)
  {
    && "@@ -" <= s && IsRange(s, 4, j, o)
    && j <= |s| && " +" <= s[j..] && IsRange(s, j + 2, k, n)
    && k <= |s| && " @@" <= s[k..]
  }

  const OPEN := "@@ -"
  const MIDDLE := " +"
  const CLOSE := " @@"

  predicate StartsAt(s: string, i: nat, word: string)
  {
    i + |word| <= |s| && s[i..i + |word|] == word
  }

  lemma StartsAtIs(s: string, i: nat, word: string)
    ensures StartsAt(s, i, word) <==> i <= |s| && word <= s[i..]
  {
    if i + |word| <= |s| { assert s[i..][..|word|] == s[i..i + |word|]; }
  }

  function DigitsEnd(s: string, i: nat): (j: nat)
    requires i <= |s|
    ensures Digits(s, i, j) && (j < |s| ==> !IsDigit(s[j]))
    decreases |s| - i
  {
    if i < |s| && IsDigit(s[i]) then DigitsEnd(s, i + 1) else i
  }

  /** One range starting at i: where it ends and how many lines it declares. */
  function ParseRange(s: string, i: nat): (r: Option<(nat, nat)>)
    requires i <= |s|
    ensures r.Some? ==> IsRange(s, i, r.value.0, r.value.1)
  {
    var e := DigitsEnd(s, i);
    if e == i then None
    else if e < |s| && s[e] == ',' then
      var j := DigitsEnd(s, e + 1);
      if j == e + 1 then None
      else assert RangeSplit(s, i, e, j, ValueOf(s[e + 1..j])); Some((j, ValueOf(s[e + 1..j])))
    else assert RangeSplit(s, i, e, e, 1); Some((e, 1))
  }

  /** The second range and the end of the header, from position j on. */
  function ParseSecond(s: string, j: nat): (r: Option<(nat, nat)>)
    ensures r.Some? ==>
      StartsAt(s, j, MIDDLE) && IsRange(s, j + |MIDDLE|, r.value.0, r.value.1) && StartsAt(s, r.value.0, CLOSE)
  {
    if !StartsAt(s, j, MIDDLE) then None
    else
      var b := ParseRange(s, j + |MIDDLE|);
      if b.None? || !StartsAt(s, b.value.0, CLOSE) then None else b
  }

  lemma HeaderIsSplit(s: string, j: nat, k: nat, o: nat, n: nat)
    ensures HeaderSplit(s, j, k, o, n) <==>
      && StartsAt(s, 0, OPEN) && IsRange(s, |OPEN|, j, o)
      && StartsAt(s, j, MIDDLE) && IsRange(s, j + |MIDDLE|, k, n)
      && StartsAt(s, k, CLOSE)
  {
    StartsAtIs(s, 0, OPEN);
    StartsAtIs(s, j, MIDDLE);
    StartsAtIs(s, k, CLOSE);
    assert s[0..] == s;
  }

  function ParseHeader(s: string): (r: Option<(nat, nat)>)
    ensures r.Some? ==> IsHeader(s, r.value.0, r.value.1)
  {
    if !StartsAt(s, 0, OPEN) then None
    else
      var a := ParseRange(s, |OPEN|);
      if a.None? then None
      else
        var b := ParseSecond(s, a.value.0);
        if b.None? then None
        else
          HeaderIsSplit(s, a.value.0, b.value.0, a.value.1, b.value.1);
          Some((a.value.1, b.value.1))
  }

  lemma DigitsEndIsUnique(s: string, i: nat, e: nat)
    requires Digits(s, i, e) && (e == |s| || !IsDigit(s[e]))
    ensures DigitsEnd(s, i) == e
  {
    var d := DigitsEnd(s, i);
    assert Digits(s, i, d);
  }

  lemma RangeIsUnique(s: string, i: nat, j: nat, n: nat)
    requires IsRange(s, i, j, n) && j < |s| && s[j] == ' '
    ensures ParseRange(s, i) == Some((j, n))
  {
    var e: nat :| RangeSplit(s, i, e, j, n);
    DigitsEndIsUnique(s, i, e);
    if e < j { DigitsEndIsUnique(s, e + 1, j); }
  }

  lemma LiteralStarts(s: string, i: nat, literal: string)
    requires StartsAt(s, i, literal) && literal != ""
    ensures i < |s| && s[i] == literal[0]
  {
    assert s[i..i + |literal|][0] == literal[0];
  }

  lemma SecondIsFound(s: string, j: nat, k: nat, n: nat)
    requires StartsAt(s, j, MIDDLE) && IsRange(s, j + |MIDDLE|, k, n) && StartsAt(s, k, CLOSE)
    ensures ParseSecond(s, j) == Some((k, n))
  {
    LiteralStarts(s, k, CLOSE);
    RangeIsUnique(s, j + |MIDDLE|, k, n);
  }

  lemma HeaderIsFound(s: string, j: nat, k: nat, o: nat, n: nat)
    requires HeaderSplit(s, j, k, o, n)
    ensures ParseHeader(s) == Some((o, n))
  {
    HeaderIsSplit(s, j, k, o, n);
    LiteralStarts(s, j, MIDDLE);
    RangeIsUnique(s, |OPEN|, j, o);
    SecondIsFound(s, j, k, n);
  }

  /** The scanner accepts exactly the lines that the expression matches, with the same numbers. */
  lemma HeaderScannerIsExact(s: string, o: nat, n: nat)
    ensures ParseHeader(s) == Some((o, n)) <==> IsHeader(s, o, n)
  {
    if IsHeader(s, o, n) {
      var j: nat, k: nat :| HeaderSplit(s, j, k, o, n);
      HeaderIsFound(s, j, k, o, n);
    }
  }

  // ---- the check ------------------------------------------------------------------------

  predicate OpensHunk(line: string) { StartsAt(line, 0, "@@") }

  const NOTE := "\\ No newline at end of file"

  predicate IsNote(line: string) { StartsAt(line, 0, NOTE) }

  predicate Counted(line: string) { line != "" && (line[0] == ' ' || line[0] == '+' || line[0] == '-') }

  function Olds(line: string): nat { if line != "" && (line[0] == ' ' || line[0] == '-') then 1 else 0 }

  function News(line: string): nat { if line != "" && (line[0] == ' ' || line[0] == '+') then 1 else 0 }

  datatype Failure = IncompleteHunk | InvalidHunk

  /** Complete: at least one hunk, all complete. NoHunk: left to the metadata rules. */
  datatype Verdict = Complete | NoHunk | Rejected(why: Failure)

  /** What remains of the current hunk; Before the first one. */
  datatype Progress = Before | Inside(olds: int, news: int) | Failed(why: Failure)

  function Step(p: Progress, line: string): Progress
  {
    if p.Failed? then p
    else if OpensHunk(line) then
      if p.Inside? && p != Inside(0, 0) then Failed(IncompleteHunk)
      else
        var h := ParseHeader(line);
        if h.None? then Failed(InvalidHunk) else Inside(h.value.0, h.value.1)
    else if p.Inside? && p != Inside(0, 0) then
      if IsNote(line) then p
      else if !Counted(line) then Failed(IncompleteHunk)
      else
        var q := Inside(p.olds - Olds(line), p.news - News(line));
        if q.olds < 0 || q.news < 0 then Failed(InvalidHunk) else q
    else if p.Inside? && line != "" && !IsNote(line) then Failed(InvalidHunk)
    else p
  }

  function Run(p: Progress, lines: seq<string>): Progress
    decreases lines
  {
    if lines == [] then p else Run(Step(p, lines[0]), lines[1..])
  }

  function Conclude(p: Progress): Verdict
  {
    match p
    case Before => NoHunk
    case Inside(o, n) => if o == 0 && n == 0 then Complete else Rejected(IncompleteHunk)
    case Failed(f) => Rejected(f)
  }

  /** The loop of the source, with its two variables and its early exits. */
  method CompleteHunks(lines: seq<string>) returns (v: Verdict)
    ensures v == Conclude(Run(Before, lines))
  {
    var remaining: Option<(int, int)> := None;
    for i := 0 to |lines|
      invariant remaining.Some? ==> remaining.value.0 >= 0 && remaining.value.1 >= 0
      invariant Run(Before, lines)
        == Run(if remaining.None? then Before else Inside(remaining.value.0, remaining.value.1), lines[i..])
    {
      var line := lines[i];
      assert lines[i..][1..] == lines[i + 1..];
      if OpensHunk(line) {
        if remaining.Some? && remaining.value != (0, 0) {
          FailedStays(IncompleteHunk, lines[i + 1..]);
          return Rejected(IncompleteHunk);
        }
        var h := ParseHeader(line);
        if h.None? { FailedStays(InvalidHunk, lines[i + 1..]); return Rejected(InvalidHunk); }
        remaining := Some((h.value.0, h.value.1));
      } else if remaining.Some? && remaining.value != (0, 0) {
        if !IsNote(line) {
          if !Counted(line) { FailedStays(IncompleteHunk, lines[i + 1..]); return Rejected(IncompleteHunk); }
          remaining := Some((remaining.value.0 - Olds(line), remaining.value.1 - News(line)));
          if remaining.value.0 < 0 || remaining.value.1 < 0 {
            FailedStays(InvalidHunk, lines[i + 1..]);
            return Rejected(InvalidHunk);
          }
        }
      } else if remaining.Some? && line != "" && !IsNote(line) {
        FailedStays(InvalidHunk, lines[i + 1..]);
        return Rejected(InvalidHunk);
      }
    }
    if remaining.Some? && remaining.value != (0, 0) { return Rejected(IncompleteHunk); }
    v := if remaining.Some? then Complete else NoHunk;
  }

  lemma {:induction false} FailedStays(v: Failure, lines: seq<string>)
    ensures Run(Failed(v), lines) == Failed(v)
  {
    if lines != [] { FailedStays(v, lines[1..]); }
  }

  lemma {:induction false} RunConcat(p: Progress, a: seq<string>, b: seq<string>)
    ensures Run(p, a + b) == Run(Run(p, a), b)
    decreases a
  {
    if a == [] {
      assert a + b == b;
    } else {
      assert (a + b)[1..] == a[1..] + b;
      RunConcat(Step(p, a[0]), a[1..], b);
    }
  }

  // ---- the grammar ------------------------------------------------------------------------

  ghost predicate Starts(line: string, any: string) { line != "" && line[0] in any }

  /** The positions of the lines that start with one of the given characters. */
  ghost function Starting(lines: seq<string>, any: string): set<nat>
  {
    set i: nat | i < |lines| && Starts(lines[i], any)
  }

  ghost predicate NoteLine(line: string) { "\\ No newline at end of file" <= line }

  ghost predicate HunkLine(line: string) { "@@" <= line }

  /**
   * Lines that start with a space, a plus or a minus, and no-newline notes: o of them start with a
   * space or a minus, n with a space or a plus.
   */
  ghost predicate IsBody(lines: seq<string>, o: int, n: int)
  {
    && (forall l :: l in lines ==> Starts(l, " +-") || NoteLine(l))
    && |Starting(lines, " -")| == o && |Starting(lines, " +")| == n
  }

  /** What may follow a complete hunk: blank lines and no-newline notes. */
  ghost predicate IsTrailer(lines: seq<string>)
  {
    forall l :: l in lines ==> l == "" || NoteLine(l)
  }

  /** The rest of a hunk that still needs o old and n new lines, and any number of further hunks. */
  ghost predicate IsRest(lines: seq<string>, o: int, n: int)
    decreases |lines|, 2
  {
    exists i: nat, j: nat :: RestSplit(lines, o, n, i, j)
  }

  ghost predicate RestSplit(lines: seq<string>, o: int, n: int, i: nat, j: nat)
    decreases |lines|, 1
  {
    && i <= j <= |lines| && IsBody(lines[..i], o, n) && IsTrailer(lines[i..j])
    && (j == |lines| || IsHunks(lines[j..]))
  }

  /** One or more hunks: a header, a body with the declared counts, a trailer. */
  ghost predicate IsHunks(lines: seq<string>)
    decreases |lines|, 0
  {
    lines != [] && HunkLine(lines[0]) && exists o: nat, n: nat :: IsHeader(lines[0], o, n) && IsRest(lines[1..], o, n)
  }

  /** Metadata lines, then hunks to the end. */
  ghost predicate IsChunk(lines: seq<string>)
  {
    exists p: nat :: p < |lines| && (forall i :: 0 <= i < p ==> !HunkLine(lines[i])) && IsHunks(lines[p..])
  }

  // ---- the check decides the grammar ----------------------------------------------------------

  lemma FirstCharacter(line: string)
    ensures OpensHunk(line) <==> HunkLine(line)
    ensures IsNote(line) <==> NoteLine(line)
    ensures Counted(line) <==> Starts(line, " +-")
    ensures Olds(line) == if Starts(line, " -") then 1 else 0
    ensures News(line) == if Starts(line, " +") then 1 else 0
    ensures HunkLine(line) ==> line != "" && line[0] == '@'
    ensures NoteLine(line) ==> line != "" && line[0] == '\\'
  {
    StartsAtIs(line, 0, "@@");
    StartsAtIs(line, 0, NOTE);
    assert line[0..] == line;
  }

  lemma FirstCharacters(lines: seq<string>)
    ensures forall l :: l in lines ==>
      (OpensHunk(l) <==> HunkLine(l)) && (IsNote(l) <==> NoteLine(l)) && (Counted(l) <==> Starts(l, " +-"))
  {
    forall l | l in lines
      ensures (OpensHunk(l) <==> HunkLine(l)) && (IsNote(l) <==> NoteLine(l)) && (Counted(l) <==> Starts(l, " +-"))
    {
      FirstCharacter(l);
    }
  }

  function OldCount(lines: seq<string>): nat { if lines == [] then 0 else Olds(lines[0]) + OldCount(lines[1..]) }

  function NewCount(lines: seq<string>): nat { if lines == [] then 0 else News(lines[0]) + NewCount(lines[1..]) }

  lemma {:induction false} CountsSnoc(lines: seq<string>, x: string)
    ensures OldCount(lines + [x]) == OldCount(lines) + Olds(x)
    ensures NewCount(lines + [x]) == NewCount(lines) + News(x)
  {
    if lines != [] {
      assert (lines + [x])[1..] == lines[1..] + [x];
      CountsSnoc(lines[1..], x);
    }
  }

  lemma StartingSnoc(lines: seq<string>, x: string, any: string)
    ensures |Starting(lines + [x], any)| == |Starting(lines, any)| + if Starts(x, any) then 1 else 0
  {
    var n := |lines|;
    assert Starting(lines + [x], any) == Starting(lines, any) + if Starts(x, any) then {n} else {};
  }

  /** What the check subtracts for lines is how many of them start with the right characters. */
  lemma {:induction false} CountsAreStarting(lines: seq<string>)
    ensures OldCount(lines) == |Starting(lines, " -")| && NewCount(lines) == |Starting(lines, " +")|
  {
    if lines != [] {
      var before, x := lines[..|lines| - 1], lines[|lines| - 1];
      assert lines == before + [x];
      CountsAreStarting(before);
      CountsSnoc(before, x);
      FirstCharacter(x);
      StartingSnoc(before, x, " -");
      StartingSnoc(before, x, " +");
    }
  }

  lemma BodyIsCounted(lines: seq<string>, o: int, n: int)
    ensures IsBody(lines, o, n) <==>
      (forall l :: l in lines ==> Counted(l) || IsNote(l)) && OldCount(lines) == o && NewCount(lines) == n
  {
    FirstCharacters(lines);
    CountsAreStarting(lines);
  }

  lemma ZeroBodyIsTrailer(lines: seq<string>)
    requires IsBody(lines, 0, 0)
    ensures IsTrailer(lines)
  {
    forall l | l in lines ensures NoteLine(l) {
      var i :| 0 <= i < |lines| && lines[i] == l;
      assert i !in Starting(lines, " -") && i !in Starting(lines, " +");
    }
  }

  lemma BodyCons(line: string, lines: seq<string>, o: int, n: int)
    ensures IsBody([line] + lines, o, n)
      <==> (Counted(line) || IsNote(line)) && IsBody(lines, o - Olds(line), n - News(line))
  {
    assert ([line] + lines)[1..] == lines;
    BodyIsCounted([line] + lines, o, n);
    BodyIsCounted(lines, o - Olds(line), n - News(line));
  }

  /** Moving the first line into the body. */
  lemma RestByBodyLine(lines: seq<string>, o: int, n: int)
    requires lines != [] && (Counted(lines[0]) || IsNote(lines[0]))
    requires IsRest(lines[1..], o - Olds(lines[0]), n - News(lines[0]))
    ensures IsRest(lines, o, n)
  {
    var rest := lines[1..];
    var i: nat, j: nat :| RestSplit(rest, o - Olds(lines[0]), n - News(lines[0]), i, j);
    assert IsBody(lines[..i + 1], o, n) by {
      assert lines[..i + 1] == [lines[0]] + rest[..i];
      FirstCharacter(lines[0]);
      BodyCons(lines[0], rest[..i], o, n);
    }
    assert lines[i + 1..j + 1] == rest[i..j];
    assert lines[j + 1..] == rest[j..];
    assert RestSplit(lines, o, n, i + 1, j + 1);
  }

  /** Moving the first line into the trailer of a hunk that needs nothing more. */
  lemma RestByTrailerLine(lines: seq<string>)
    requires lines != [] && (lines[0] == "" || NoteLine(lines[0])) && IsRest(lines[1..], 0, 0)
    ensures IsRest(lines, 0, 0)
  {
    var rest := lines[1..];
    var i: nat, j: nat :| RestSplit(rest, 0, 0, i, j);
    ZeroBodyIsTrailer(rest[..i]);
    assert lines[0..j + 1] == [lines[0]] + (rest[..i] + rest[i..j]) && lines[j + 1..] == rest[j..];
    assert lines[..0] == [];
    assert RestSplit(lines, 0, 0, 0, j + 1);
  }

  lemma {:induction false} AcceptedIsRest(lines: seq<string>, o: nat, n: nat)
    requires Conclude(Run(Inside(o, n), lines)) == Complete
    ensures IsRest(lines, o, n)
    decreases |lines|
  {
    if lines == [] {
      assert RestSplit(lines, 0, 0, 0, 0);
    } else {
      var line, rest := lines[0], lines[1..];
      FirstCharacter(line);
      var q := Step(Inside(o, n), line);
      if q.Failed? { FailedStays(q.why, rest); }
      AcceptedIsRest(rest, q.olds, q.news);
      if OpensHunk(line) {
        HeaderScannerIsExact(line, q.olds, q.news);
        assert lines[0..] == lines && lines[..0] == [] && lines[0..0] == [];
        assert IsHunks(lines);
        assert RestSplit(lines, 0, 0, 0, 0);
      } else if o != 0 || n != 0 {
        RestByBodyLine(lines, o, n);
      } else {
        RestByTrailerLine(lines);
      }
    }
  }

  /** Taking the first line out of the body. */
  lemma BodyLineOff(lines: seq<string>, o: int, n: int, i: nat, j: nat)
    requires RestSplit(lines, o, n, i, j) && i > 0
    ensures Counted(lines[0]) || IsNote(lines[0])
    ensures RestSplit(lines[1..], o - Olds(lines[0]), n - News(lines[0]), i - 1, j - 1)
  {
    var rest := lines[1..];
    assert lines == [lines[0]] + rest;
    assert lines[..i] == [lines[0]] + rest[..i - 1];
    BodyCons(lines[0], rest[..i - 1], o, n);
    assert rest[i - 1..j - 1] == lines[i..j];
    assert rest[j - 1..] == lines[j..];
  }

  /** Taking the first line out of the trailer. */
  lemma TrailerLineOff(lines: seq<string>, o: int, n: int, j: nat)
    requires RestSplit(lines, o, n, 0, j) && j > 0
    ensures o == n == 0 && (lines[0] == "" || NoteLine(lines[0])) && RestSplit(lines[1..], 0, 0, 0, j - 1)
  {
    var rest := lines[1..];
    assert lines == [lines[0]] + rest;
    assert lines[0..j] == [lines[0]] + rest[0..j - 1];
    assert rest[j - 1..] == lines[j..];
    assert rest[..0] == lines[..0] == [];
  }

  lemma NothingTaken(lines: seq<string>, o: int, n: int)
    requires RestSplit(lines, o, n, 0, 0)
    ensures o == n == 0 && (lines == [] || IsHunks(lines))
  {
    assert lines[0..] == lines && lines[..0] == [];
    assert Starting([], " -") == {} && Starting([], " +") == {};
  }

  lemma StepOnBody(line: string, o: nat, n: nat)
    requires (Counted(line) || IsNote(line)) && Olds(line) <= o && News(line) <= n
    ensures Step(Inside(o, n), line) == Inside(o - Olds(line), n - News(line))
  {
    FirstCharacter(line);
  }

  lemma StepOnTrailer(line: string)
    requires line == "" || NoteLine(line)
    ensures Step(Inside(0, 0), line) == Inside(0, 0)
  {
    FirstCharacter(line);
  }

  lemma StepOnHeader(line: string, o: nat, n: nat)
    requires HunkLine(line) && IsHeader(line, o, n)
    ensures Step(Inside(0, 0), line) == Inside(o, n)
  {
    FirstCharacter(line);
    HeaderScannerIsExact(line, o, n);
  }

  lemma RestCounts(lines: seq<string>, o: int, n: int)
    requires IsRest(lines, o, n)
    ensures o >= 0 && n >= 0
  {
    var i: nat, j: nat :| RestSplit(lines, o, n, i, j);
  }

  lemma {:induction false} RestIsAccepted(lines: seq<string>, o: nat, n: nat)
    requires IsRest(lines, o, n)
    ensures Conclude(Run(Inside(o, n), lines)) == Complete
    decreases |lines|
  {
    var i: nat, j: nat :| RestSplit(lines, o, n, i, j);
    if lines == [] {
      NothingTaken(lines, o, n);
    } else {
      var line, rest := lines[0], lines[1..];
      if i > 0 {
        BodyLineOff(lines, o, n, i, j);
        RestCounts(rest, o - Olds(line), n - News(line));
        StepOnBody(line, o, n);
        RestIsAccepted(rest, o - Olds(line), n - News(line));
      } else if j > 0 {
        TrailerLineOff(lines, o, n, j);
        StepOnTrailer(line);
        RestIsAccepted(rest, 0, 0);
      } else {
        NothingTaken(lines, o, n);
        var o': nat, n': nat :| IsHeader(line, o', n') && IsRest(rest, o', n');
        StepOnHeader(line, o', n');
        RestIsAccepted(rest, o', n');
      }
    }
  }

  lemma {:induction false} BeforeRun(lines: seq<string>, p: nat)
    requires p <= |lines| && forall i :: 0 <= i < p ==> !OpensHunk(lines[i])
    ensures Run(Before, lines) == Run(Before, lines[p..])
    decreases p
  {
    if p == 0 {
      assert lines[0..] == lines;
    } else {
      BeforeRun(lines[1..], p - 1);
      assert lines[1..][p - 1..] == lines[p..];
    }
  }

  /** Where the first hunk opens, if anywhere. */
  function FirstHunk(lines: seq<string>): (p: nat)
    ensures p <= |lines| && forall i :: 0 <= i < p ==> !OpensHunk(lines[i])
    ensures p < |lines| ==> OpensHunk(lines[p])
  {
    if lines == [] || OpensHunk(lines[0]) then 0 else 1 + FirstHunk(lines[1..])
  }

  /** The one-pass check accepts exactly the chunks of the grammar. */
  lemma CheckDecidesGrammar(lines: seq<string>)
    ensures Conclude(Run(Before, lines)) == Complete <==> IsChunk(lines)
  {
    if IsChunk(lines) {
      var p: nat :| p < |lines| && (forall i :: 0 <= i < p ==> !HunkLine(lines[i])) && IsHunks(lines[p..]);
      FirstCharacters(lines);
      BeforeRun(lines, p);
      var hunks := lines[p..];
      var o: nat, n: nat :| IsHeader(hunks[0], o, n) && IsRest(hunks[1..], o, n);
      HeaderScannerIsExact(hunks[0], o, n);
      RestIsAccepted(hunks[1..], o, n);
    }
    if Conclude(Run(Before, lines)) == Complete {
      var p := FirstHunk(lines);
      BeforeRun(lines, p);
      var hunks := lines[p..];
      if p < |lines| {
        var q := Step(Before, hunks[0]);
        if q.Failed? { FailedStays(q.why, hunks[1..]); }
        HeaderScannerIsExact(hunks[0], q.olds, q.news);
        AcceptedIsRest(hunks[1..], q.olds, q.news);
        FirstCharacters(lines);
        assert IsHunks(hunks);
      }
    }
  }

  // ---- why a chunk is rejected -----------------------------------------------------------------

  /** Chunks without a hunk are left to the metadata rules, and no others. */
  lemma {:induction false} NoHunkIff(lines: seq<string>)
    ensures Run(Before, lines) == Before <==> forall l :: l in lines ==> !HunkLine(l)
    ensures Conclude(Run(Before, lines)) == NoHunk <==> forall l :: l in lines ==> !HunkLine(l)
  {
    if lines != [] {
      var before, x := lines[..|lines| - 1], lines[|lines| - 1];
      assert lines == before + [x];
      NoHunkIff(before);
      RunSnoc(before, x);
      FirstCharacter(x);
    }
  }

  lemma RunSnoc(lines: seq<string>, x: string)
    ensures Run(Before, lines + [x]) == Step(Run(Before, lines), x)
  {
    RunConcat(Before, lines, [x]);
    assert [x][1..] == [];
  }

  /**
   * A header at h after complete hunks, or after none; the lines from there up to i are lines of its
   * body, no more than it declares and fewer of at least one kind.
   */
  ghost predicate Unfinished(lines: seq<string>, h: nat, i: nat, o: nat, n: nat)
  {
    && h < i <= |lines| && HunkLine(lines[h]) && IsHeader(lines[h], o, n)
    && (IsChunk(lines[..h]) || forall l :: l in lines[..h] ==> !HunkLine(l))
    && BodyBegun(lines[h + 1..i], o, n)
  }

  ghost predicate BodyBegun(body: seq<string>, o: nat, n: nat)
  {
    && (forall l :: l in body ==> Starts(l, " +-") || NoteLine(l))
    && |Starting(body, " -")| <= o && |Starting(body, " +")| <= n
    && (|Starting(body, " -")| < o || |Starting(body, " +")| < n)
  }

  /** An unfinished hunk is followed by nothing, by a hunk marker, or by a line no body can hold. */
  ghost predicate IsCutOff(lines: seq<string>)
  {
    exists h: nat, i: nat, o: nat, n: nat ::
      Unfinished(lines, h, i, o, n) && (i == |lines| || EndsBody(lines[i]))
  }

  ghost predicate EndsBody(line: string) { HunkLine(line) || !(Starts(line, " +-") || NoteLine(line)) }

  lemma BodyBegunBefore(before: seq<string>, x: string, o: nat, n: nat)
    requires BodyBegun(before + [x], o, n)
    ensures BodyBegun(before, o, n) && (Starts(x, " +-") || NoteLine(x))
    ensures |Starting(before + [x], " -")| == |Starting(before, " -")| + if Starts(x, " -") then 1 else 0
    ensures |Starting(before + [x], " +")| == |Starting(before, " +")| + if Starts(x, " +") then 1 else 0
  {
    StartingSnoc(before, x, " -");
    StartingSnoc(before, x, " +");
    forall l | l in before ensures l in before + [x] {}
    assert (before + [x])[|before|] == x;
  }

  lemma {:induction false} BodyRun(body: seq<string>, o: nat, n: nat)
    requires BodyBegun(body, o, n)
    ensures Run(Inside(o, n), body) == Inside(o - |Starting(body, " -")|, n - |Starting(body, " +")|)
  {
    if body == [] {
      assert Starting(body, " -") == {} && Starting(body, " +") == {};
    } else {
      var before, x := body[..|body| - 1], body[|body| - 1];
      assert body == before + [x];
      BodyBegunBefore(before, x, o, n);
      BodyRun(before, o, n);
      RunConcat(Inside(o, n), before, [x]);
      assert [x][1..] == [];
      FirstCharacter(x);
    }
  }

  lemma UnfinishedRun(lines: seq<string>, h: nat, i: nat, o: nat, n: nat)
    requires Unfinished(lines, h, i, o, n)
    ensures Run(Before, lines[..i]).Inside? && Run(Before, lines[..i]) != Inside(0, 0)
  {
    var body := lines[h + 1..i];
    CheckDecidesGrammar(lines[..h]);
    NoHunkIff(lines[..h]);
    FirstCharacter(lines[h]);
    HeaderScannerIsExact(lines[h], o, n);
    PrefixSnoc(lines, h);
    RunSnoc(lines[..h], lines[h]);
    BodyRun(body, o, n);
    assert lines[..i] == lines[..h + 1] + body;
    RunConcat(Before, lines[..h + 1], body);
  }

  lemma BodyBegunSnoc(body: seq<string>, x: string, o: nat, n: nat)
    requires BodyBegun(body, o, n) && (Starts(x, " +-") || NoteLine(x))
    ensures BodyBegun(body + [x], o, n) <==>
      var q := Inside(o - |Starting(body, " -")| - Olds(x), n - |Starting(body, " +")| - News(x));
      q.olds >= 0 && q.news >= 0 && q != Inside(0, 0)
    ensures |Starting(body + [x], " -")| == |Starting(body, " -")| + Olds(x)
    ensures |Starting(body + [x], " +")| == |Starting(body, " +")| + News(x)
  {
    FirstCharacter(x);
    StartingSnoc(body, x, " -");
    StartingSnoc(body, x, " +");
  }

  lemma BodyOpens(o: nat, n: nat)
    requires o != 0 || n != 0
    ensures BodyBegun([], o, n) && |Starting([], " -")| == |Starting([], " +")| == 0
  {
    assert Starting([], " -") == {} && Starting([], " +") == {};
  }

  lemma UnfinishedInPrefix(lines: seq<string>, k: nat, h: nat, i: nat, o: nat, n: nat)
    requires k <= |lines| && Unfinished(lines[..k], h, i, o, n)
    ensures Unfinished(lines, h, i, o, n)
  {
    assert lines[..k][..h] == lines[..h] && lines[..k][h + 1..i] == lines[h + 1..i];
  }

  lemma HunkOpens(lines: seq<string>, k: nat, o: nat, n: nat)
    requires |lines| == k + 1 && HunkLine(lines[k]) && IsHeader(lines[k], o, n) && (o != 0 || n != 0)
    requires IsChunk(lines[..k]) || forall l :: l in lines[..k] ==> !HunkLine(l)
    ensures Unfinished(lines, k, k + 1, o, n)
    ensures |Starting(lines[k + 1..], " -")| == |Starting(lines[k + 1..], " +")| == 0
  {
    assert lines[k + 1..] == lines[k + 1..k + 1] == [];
    BodyOpens(o, n);
  }

  lemma HunkGoesOn(lines: seq<string>, k: nat, h: nat, o: nat, n: nat)
    requires |lines| == k + 1 && Unfinished(lines[..k], h, k, o, n) && BodyBegun(lines[..k][h + 1..] + [lines[k]], o, n)
    ensures Unfinished(lines, h, k + 1, o, n) && lines[h + 1..] == lines[..k][h + 1..] + [lines[k]]
  {
    assert lines[h + 1..] == lines[h + 1..k + 1] == lines[..k][h + 1..] + [lines[k]];
    assert lines[..k][..h] == lines[..h];
  }

  /** A header that leaves lines to come follows complete hunks, or none. */
  lemma StepOpens(lines: seq<string>, k: nat, o: nat, n: nat)
    requires |lines| == k + 1 && OpensHunk(lines[k]) && (o != 0 || n != 0)
    requires Step(Run(Before, lines[..k]), lines[k]) == Inside(o, n)
    ensures Unfinished(lines, k, k + 1, o, n)
    ensures |Starting(lines[k + 1..], " -")| == |Starting(lines[k + 1..], " +")| == 0
  {
    FirstCharacter(lines[k]);
    NoHunkIff(lines[..k]);
    CheckDecidesGrammar(lines[..k]);
    HeaderScannerIsExact(lines[k], o, n);
    HunkOpens(lines, k, o, n);
  }

  lemma StepGoesOn(lines: seq<string>, k: nat, h: nat, o: nat, n: nat, p: Progress)
    requires |lines| == k + 1 && !OpensHunk(lines[k]) && Unfinished(lines[..k], h, k, o, n)
    requires p == Inside(o - |Starting(lines[..k][h + 1..], " -")|, n - |Starting(lines[..k][h + 1..], " +")|)
    requires Step(p, lines[k]).Inside? && Step(p, lines[k]) != Inside(0, 0)
    ensures Unfinished(lines, h, k + 1, o, n)
    ensures Step(p, lines[k]) == Inside(o - |Starting(lines[h + 1..], " -")|, n - |Starting(lines[h + 1..], " +")|)
  {
    FirstCharacter(lines[k]);
    assert lines[..k][h + 1..k] == lines[..k][h + 1..];
    BodyBegunSnoc(lines[..k][h + 1..], lines[k], o, n);
    HunkGoesOn(lines, k, h, o, n);
  }

  lemma StepFromInside(p: Progress, x: string)
    requires !OpensHunk(x) && Step(p, x).Inside? && Step(p, x) != Inside(0, 0)
    ensures p.Inside? && p != Inside(0, 0)
  {}

  /** Inside an unfinished body the check has seen its header. */
  lemma {:induction false} UnfinishedBody(lines: seq<string>) returns (h: nat, o: nat, n: nat)
    requires Run(Before, lines).Inside? && Run(Before, lines) != Inside(0, 0)
    ensures Unfinished(lines, h, |lines|, o, n)
    ensures Run(Before, lines) == Inside(o - |Starting(lines[h + 1..], " -")|, n - |Starting(lines[h + 1..], " +")|)
    decreases |lines|
  {
    var k := |lines| - 1;
    var before, x, q := lines[..k], lines[k], Run(Before, lines);
    assert lines == before + [x];
    RunSnoc(before, x);
    if OpensHunk(x) {
      h, o, n := k, q.olds, q.news;
      StepOpens(lines, k, o, n);
    } else {
      StepFromInside(Run(Before, before), x);
      h, o, n := UnfinishedBody(before);
      StepGoesOn(lines, k, h, o, n, Run(Before, before));
    }
  }

  lemma StepCutsOff(p: Progress, x: string)
    requires !p.Failed? && Step(p, x) == Failed(IncompleteHunk)
    ensures p.Inside? && p != Inside(0, 0) && EndsBody(x)
  {
    FirstCharacter(x);
  }

  lemma {:induction false} FailureIsCutOff(lines: seq<string>) returns (h: nat, i: nat, o: nat, n: nat)
    requires Run(Before, lines) == Failed(IncompleteHunk)
    ensures Unfinished(lines, h, i, o, n) && i < |lines| && EndsBody(lines[i])
    decreases |lines|
  {
    var k := |lines| - 1;
    var before, x := lines[..k], lines[k];
    assert lines == before + [x];
    RunSnoc(before, x);
    if Run(Before, before).Failed? {
      h, i, o, n := FailureIsCutOff(before);
    } else {
      StepCutsOff(Run(Before, before), x);
      i := k;
      h, o, n := UnfinishedBody(before);
    }
    UnfinishedInPrefix(lines, k, h, i, o, n);
  }

  /** A chunk is rejected as incomplete exactly when one of its hunks is cut off, and otherwise as invalid. */
  lemma IncompleteIffCutOff(lines: seq<string>)
    ensures Conclude(Run(Before, lines)) == Rejected(IncompleteHunk) <==> IsCutOff(lines)
  {
    var p := Run(Before, lines);
    if p == Failed(IncompleteHunk) {
      var h, i, o, n := FailureIsCutOff(lines);
    } else if p.Inside? && p != Inside(0, 0) {
      var h, o, n := UnfinishedBody(lines);
    }
    if IsCutOff(lines) {
      var h: nat, i: nat, o: nat, n: nat :| Unfinished(lines, h, i, o, n) && (i == |lines| || EndsBody(lines[i]));
      CutOffIsRejected(lines, h, i, o, n);
    }
  }

  lemma StepEndsBody(p: Progress, x: string)
    requires p.Inside? && p != Inside(0, 0) && EndsBody(x)
    ensures Step(p, x) == Failed(IncompleteHunk)
  {
    FirstCharacter(x);
  }

  lemma EndsIncomplete(p: Progress, rest: seq<string>)
    requires p.Inside? && p != Inside(0, 0) && (rest == [] || EndsBody(rest[0]))
    ensures Conclude(Run(p, rest)) == Rejected(IncompleteHunk)
  {
    if rest != [] {
      StepEndsBody(p, rest[0]);
      FailedStays(IncompleteHunk, rest[1..]);
    }
  }

  lemma CutOffIsRejected(lines: seq<string>, h: nat, i: nat, o: nat, n: nat)
    requires Unfinished(lines, h, i, o, n) && (i == |lines| || EndsBody(lines[i]))
    ensures Conclude(Run(Before, lines)) == Rejected(IncompleteHunk)
  {
    UnfinishedRun(lines, h, i, o, n);
    RunEndsIncomplete(lines, i);
  }

  lemma RunEndsIncomplete(lines: seq<string>, i: nat)
    requires i <= |lines| && Run(Before, lines[..i]).Inside? && Run(Before, lines[..i]) != Inside(0, 0)
    requires i == |lines| || EndsBody(lines[i])
    ensures Conclude(Run(Before, lines)) == Rejected(IncompleteHunk)
  {
    assert lines == lines[..i] + lines[i..];
    RunConcat(Before, lines[..i], lines[i..]);
    EndsIncomplete(Run(Before, lines[..i]), lines[i..]);
  }

  // ---- a truncated hunk is rejected --------------------------------------------------------------

  lemma {:induction false} ShortBodyIsIncomplete(lines: seq<string>, o: int, n: int)
    requires o >= 0 && n >= 0 && (forall l :: l in lines ==> !OpensHunk(l))
    requires OldCount(lines) < o || NewCount(lines) < n
    ensures Conclude(Run(Inside(o, n), lines)).Rejected?
  {
    if lines != [] {
      var q := Step(Inside(o, n), lines[0]);
      FirstCharacter(lines[0]);
      assert lines[0] in lines && forall l :: l in lines[1..] ==> l in lines;
      if q.Failed? { FailedStays(q.why, lines[1..]); } else { ShortBodyIsIncomplete(lines[1..], q.olds, q.news); }
    }
  }

  /**
   * Whatever precedes it, a last hunk that shows fewer lines than its header declares is
   * rejected.
   */
  lemma TruncationIsRejected(before: seq<string>, header: string, shown: seq<string>, o: nat, n: nat)
    requires HunkLine(header) && IsHeader(header, o, n)
    requires forall l :: l in shown ==> !HunkLine(l)
    requires |Starting(shown, " -")| < o || |Starting(shown, " +")| < n
    ensures Conclude(Run(Before, before + [header] + shown)).Rejected?
    ensures !IsChunk(before + [header] + shown)
  {
    assert before + [header] + shown == before + ([header] + shown);
    RunConcat(Before, before, [header] + shown);
    assert ([header] + shown)[1..] == shown;
    var p := Run(Before, before);
    HeaderScannerIsExact(header, o, n);
    FirstCharacter(header);
    FirstCharacters(shown);
    CountsAreStarting(shown);
    var q := Step(p, header);
    if q.Failed? { FailedStays(q.why, shown); } else { ShortBodyIsIncomplete(shown, o, n); }
    CheckDecidesGrammar(before + [header] + shown);
  }

  /** Lines without a header close a hunk, if they do, by at least one counted line. */
  lemma {:induction false} TailRun(p: Progress, tail: seq<string>)
    requires Run(p, tail) == Inside(0, 0) && forall l :: l in tail ==> !OpensHunk(l)
    ensures p.Inside? && (p == Inside(0, 0) <==> forall l :: l in tail ==> !Counted(l))
    decreases tail
  {
    if p.Failed? {
      FailedStays(p.why, tail);
    } else if tail != [] {
      var line, rest := tail[0], tail[1..];
      assert tail == [line] + rest;
      assert line in tail && forall l :: l in rest ==> l in tail;
      FirstCharacter(line);
      TailRun(Step(p, line), rest);
    }
  }

  /**
   * Cutting lines without a header from the end of an accepted chunk leaves it accepted exactly
   * when no counted line is among them; otherwise its last hunk is incomplete.
   */
  lemma CutChunkIsRejected(lines: seq<string>, cut: nat)
    requires IsChunk(lines) && cut <= |lines| && forall l :: l in lines[cut..] ==> !HunkLine(l)
    ensures Conclude(Run(Before, lines[..cut]))
         == if exists l :: l in lines[cut..] && Starts(l, " +-") then Rejected(IncompleteHunk) else Complete
  {
    FirstCharacters(lines[cut..]);
    CheckDecidesGrammar(lines);
    assert lines == lines[..cut] + lines[cut..];
    RunConcat(Before, lines[..cut], lines[cut..]);
    TailRun(Run(Before, lines[..cut]), lines[cut..]);
  }
}
