/**
 * Fitting tool names to Bedrock's [a-zA-Z0-9_-]{1,64} and restoring them
 * (`toBedrockName` and `restoreToolName` in app/src/lib/mcp-client.ts).
 */
module ToolNames {
  import opened Collections
  import opened Decimals

  const LIMIT := 64

  predicate Allowed(c: char)
  {
    'a' <= c <= 'z' || 'A' <= c <= 'Z' || IsDigit(c) || c == '_' || c == '-'
  }

  ghost predicate AllAllowed(s: string) { forall i :: 0 <= i < |s| ==> Allowed(s[i]) }

  /** `name.replace(/[^a-zA-Z0-9_-]/g, '_')` */
  function Replaced(name: string): (r: string)
    ensures AllAllowed(r) && |r| == |name|
  {
    seq(|name|, i requires 0 <= i < |name| => if Allowed(name[i]) then name[i] else '_')
  }

  /** `s.slice(0, end)`: a negative end counts from the back. */
  function SliceTo(s: string, end: int): (r: string)
    ensures r <= s && |r| <= |s|
    ensures end >= 0 ==> |r| <= end
  {
    var e := if end < 0 then |s| + end else end;
    if e < 0 then [] else if e < |s| then s[..e] else s
  }

  function Base(name: string): (r: string)
    ensures AllAllowed(r) && |r| <= LIMIT
  {
    var out := Replaced(name);
    if |out| > LIMIT then SliceTo(out, LIMIT) else out
  }

  /** The name does not fit as it is. */
  predicate Rewritten(name: string) { Base(name) != name }

  lemma AllowedAre(c: char)
    ensures Allowed(c) <==>
      var n := c as int; 48 <= n <= 57 || 65 <= n <= 90 || 97 <= n <= 122 || n == 95 || n == 45
  {}

  /** A base keeps the first 64 characters of the name, but has an underscore for each that is not allowed. */
  lemma BaseIs(name: string, i: nat)
    ensures |Base(name)| == if |name| <= 64 then |name| else 64
    ensures i < |Base(name)| ==> Base(name)[i] == if Allowed(name[i]) then name[i] else '_'
  {}

  /** A numbered candidate ends in an underscore and its number, and begins with what of the base fits before. */
  lemma CandidateIs(out: string, n: nat)
    requires n > 0 && |out| <= 64
    ensures var suffix := "_" + Decimal(n); var room := 64 - |suffix|;
      Candidate(out, n) ==
        (if room >= |out| then out
         else if room >= 0 then out[..room]
         else if |out| + room >= 0 then out[..|out| + room] else "") + suffix
  {}

  lemma UnchangedMeaning(name: string)
    ensures !Rewritten(name) <==> AllAllowed(name) && |name| <= 64
  {
    if AllAllowed(name) { assert Replaced(name) == name; }
  }

  function Suffix(n: nat): string { "_" + Decimal(n) }

  /** The candidates in the order they are tried. */
  function Candidate(out: string, n: nat): string
  {
    if n == 0 then out else SliceTo(out, LIMIT - |Suffix(n)|) + Suffix(n)
  }

  /** The text behind the last underscore. */
  function TailOf(s: string): string
  {
    if s == [] || s[|s| - 1] == '_' then [] else TailOf(s[..|s| - 1]) + [s[|s| - 1]]
  }

  lemma {:induction false} TailIsNumber(x: string, d: string)
    requires forall i :: 0 <= i < |d| ==> IsDigit(d[i])
    ensures TailOf(x + ("_" + d)) == d
  {
    var s := x + ("_" + d);
    if d == [] {
      assert s[|s| - 1] == '_';
    } else {
      var n := |d| - 1;
      assert s[..|s| - 1] == x + ("_" + d[..n]) && s[|s| - 1] == d[n];
      TailIsNumber(x, d[..n]);
    }
  }

  /** Candidates with different suffixes differ: the text behind the last underscore is the number. */
  lemma CandidatesDiffer(out: string, m: nat, n: nat)
    requires 0 < m && 0 < n && m != n
    ensures Candidate(out, m) != Candidate(out, n)
  {
    DecimalRoundTrip(m);
    DecimalRoundTrip(n);
    TailIsNumber(SliceTo(out, LIMIT - |Suffix(m)|), Decimal(m));
    TailIsNumber(SliceTo(out, LIMIT - |Suffix(n)|), Decimal(n));
  }

  type Names = map<string, string>

  /** The candidate is free for the name: nobody has it, or the name itself. */
  predicate Free(m: Names, candidate: string, name: string)
  {
    candidate !in m || m[candidate] == name
  }

  /** Every number below k is taken; as candidates differ, there are not more of them than entries. */
  lemma TakenFitInMap(m: Names, name: string, k: nat)
    requires forall j :: 0 <= j < k ==> !Free(m, Candidate(Base(name), j), name)
    ensures k <= |m| + 1
  {
    var out := Base(name);
    if k > 0 {
      var cs := seq(k - 1, i requires 0 <= i < k - 1 => Candidate(out, i + 1));
      forall i, j | 0 <= i < j < |cs| ensures cs[i] != cs[j] { CandidatesDiffer(out, i + 1, j + 1); }
      forall i | 0 <= i < |cs| ensures cs[i] in m { assert !Free(m, Candidate(out, i + 1), name); }
      DistinctKeysFit(cs, m);
    }
  }

  /** The number of the first free candidate from k on. */
  function FirstFree(m: Names, name: string, k: nat): (r: nat)
    requires forall j :: 0 <= j < k ==> !Free(m, Candidate(Base(name), j), name)
    ensures k <= r <= |m| + 1
    ensures Free(m, Candidate(Base(name), r), name)
    ensures forall j :: 0 <= j < r ==> !Free(m, Candidate(Base(name), j), name)
    decreases |m| + 1 - k
  {
    TakenFitInMap(m, name, k);
    if Free(m, Candidate(Base(name), k), name) then k
    else
      TakenFitInMap(m, name, k + 1);
      FirstFree(m, name, k + 1)
  }

  /** `toBedrockName`: the map afterwards and the answer. */
  function Call(m: Names, name: string): (Names, string)
  {
    if !Rewritten(name) then (m, name)
    else
      var c := Candidate(Base(name), FirstFree(m, name, 0));
      (m[c := name], c)
  }

  function Restore(m: Names, bedrockName: string): string
  {
    if bedrockName in m then m[bedrockName] else bedrockName
  }

  class ToolNameMap {
    var names: Names

    constructor ()
      ensures names == map[]
    {
      names := map[];
    }

    method ToBedrockName(name: string) returns (out: string)
      modifies this
      ensures (names, out) == Call(old(names), name)
    {
      out := Replaced(name);
      if |out| > LIMIT { out := SliceTo(out, LIMIT); }
      if out != name {
        var candidate := out;
        var n := 1;
        while candidate in names && names[candidate] != name
          invariant n >= 1 && names == old(names) && out == Base(name)
          invariant candidate == Candidate(out, n - 1)
          invariant forall j :: 0 <= j < n - 1 ==> !Free(names, Candidate(out, j), name)
          decreases |names| + 2 - n
        {
          TakenFitInMap(names, name, n);
          var suffix := "_" + Decimal(n);
          n := n + 1;
          candidate := SliceTo(out, LIMIT - |suffix|) + suffix;
        }
        FirstFreeIs(names, name, n - 1);
        names := names[candidate := name];
        out := candidate;
      }
    }

    method RestoreToolName(bedrockName: string) returns (name: string)
      ensures name == Restore(names, bedrockName)
    {
      name := if bedrockName in names then names[bedrockName] else bedrockName;
    }
  }

  lemma FirstFreeIs(m: Names, name: string, k: nat)
    requires Free(m, Candidate(Base(name), k), name)
    requires forall j :: 0 <= j < k ==> !Free(m, Candidate(Base(name), j), name)
    ensures FirstFree(m, name, 0) == k
  {
    var r := FirstFree(m, name, 0);
  }

  // ---- every sequence of calls ---------------------------------------------------------

  function After(names: seq<string>): Names
  {
    if names == [] then map[] else Call(After(names[..|names| - 1]), names[|names| - 1]).0
  }

  /** What call number i of the sequence answered. */
  function Answer(names: seq<string>, i: nat): string
    requires i < |names|
  {
    Call(After(names[..i]), names[i]).1
  }

  ghost predicate Extends(m: Names, m': Names)
  {
    forall c :: c in m ==> c in m' && m'[c] == m[c]
  }

  /** Each entry is the answer that its name would get again. */
  ghost predicate Settled(m: Names)
  {
    forall c :: c in m ==> Rewritten(m[c]) && Call(m, m[c]) == (m, c)
  }

  lemma CallExtends(m: Names, name: string)
    ensures Extends(m, Call(m, name).0)
  {}

  /** An answer stays the answer when the map grows. */
  lemma AnswerStays(m: Names, m': Names, name: string)
    requires Extends(Call(m, name).0, m') && Extends(m, m')
    ensures Call(m', name).1 == Call(m, name).1
    ensures Rewritten(name) ==> Call(m', name).0 == m'
  {
    if Rewritten(name) {
      var k := FirstFree(m, name, 0);
      var c := Candidate(Base(name), k);
      assert c in Call(m, name).0 && Call(m, name).0[c] == name;
      forall j | 0 <= j < k ensures !Free(m', Candidate(Base(name), j), name) {
        assert !Free(m, Candidate(Base(name), j), name);
      }
      FirstFreeIs(m', name, k);
      assert m'[c := name] == m';
    }
  }

  lemma CallKeepsSettled(m: Names, name: string)
    requires Settled(m)
    ensures Settled(Call(m, name).0)
  {
    var m' := Call(m, name).0;
    CallExtends(m, name);
    forall c | c in m' ensures Rewritten(m'[c]) && Call(m', m'[c]) == (m', c) {
      if c in m && m[c] == m'[c] {
        assert Call(m, m[c]) == (m, c);
        AnswerStays(m, m', m[c]);
      } else {
        AnswerStays(m, m', name);
      }
    }
  }

  lemma {:induction false} AfterIsSettled(names: seq<string>)
    ensures Settled(After(names)) && |After(names)| <= |names|
  {
    if names != [] {
      var n := |names| - 1;
      AfterIsSettled(names[..n]);
      CallKeepsSettled(After(names[..n]), names[n]);
    }
  }

  lemma {:induction false} LaterExtends(names: seq<string>, i: nat)
    requires i <= |names|
    ensures Extends(After(names[..i]), After(names))
    decreases |names| - i
  {
    if i == |names| {
      assert names[..i] == names;
    } else {
      LaterExtends(names, i + 1);
      assert names[..i + 1][..i] == names[..i] && names[..i + 1][i] == names[i];
      CallExtends(After(names[..i]), names[i]);
    }
  }

  lemma AnswerInMap(names: seq<string>, i: nat)
    requires i < |names|
    ensures Call(After(names), names[i]).1 == Answer(names, i)
    ensures Rewritten(names[i]) ==> Answer(names, i) in After(names) && After(names)[Answer(names, i)] == names[i]
  {
    LaterExtends(names, i);
    LaterExtends(names, i + 1);
    assert names[..i + 1][..i] == names[..i] && names[..i + 1][i] == names[i];
    AnswerStays(After(names[..i]), After(names), names[i]);
  }

  /** At every later time, every rewritten name is restored to exactly the original. */
  lemma RewrittenRestores(names: seq<string>, i: nat)
    requires i < |names| && Rewritten(names[i])
    ensures Restore(After(names), Answer(names, i)) == names[i]
  {
    AnswerInMap(names, i);
  }

  /** Different rewritten names never share an answer; repeating a call repeats its answer. */
  lemma AnswersIdentifyNames(names: seq<string>, i: nat, j: nat)
    requires i < |names| && j < |names|
    ensures names[i] == names[j] ==> Answer(names, i) == Answer(names, j)
    ensures names[i] != names[j] && Rewritten(names[i]) && Rewritten(names[j]) ==> Answer(names, i) != Answer(names, j)
  {
    AnswerInMap(names, i);
    AnswerInMap(names, j);
  }

  lemma CandidateShape(out: string, k: nat)
    requires AllAllowed(out) && |out| <= LIMIT
    ensures AllAllowed(Candidate(out, k))
    ensures |Suffix(k)| <= LIMIT ==> |Candidate(out, k)| <= LIMIT
  {
    if k > 0 {
      var s, t := SliceTo(out, LIMIT - |Suffix(k)|), Suffix(k);
      forall x | 0 <= x < |s| + |t| ensures Allowed((s + t)[x]) {
        if x < |s| { assert s[x] == out[x]; }
      }
    }
  }

  /** Answers consist of allowed characters, and fit the limit while the numbers in use do. */
  lemma AnswerFits(names: seq<string>, i: nat)
    requires i < |names|
    ensures AllAllowed(Answer(names, i))
    ensures |"_" + Decimal(|names|)| <= 64 ==> |Answer(names, i)| <= 64
  {
    AfterIsSettled(names[..i]);
    UnchangedMeaning(names[i]);
    if Rewritten(names[i]) {
      var k := FirstFree(After(names[..i]), names[i], 0);
      DecimalGrows(k, |names|);
      CandidateShape(Base(names[i]), k);
    }
  }

  /**
   * A name that was left unchanged restores to itself exactly when no rewritten name was given
   * that spelling - before or after.
   */
  lemma UnchangedRestoresIff(names: seq<string>, x: string)
    requires !Rewritten(x)
    ensures Restore(After(names), x) == x <==>
              forall i :: 0 <= i < |names| && Rewritten(names[i]) ==> Answer(names, i) != x
  {
    AfterIsSettled(names);
    if x in After(names) {
      EntryWasAnswered(names, x);
    }
    forall i | 0 <= i < |names| && Rewritten(names[i]) && Answer(names, i) == x ensures x in After(names) {
      AnswerInMap(names, i);
    }
  }

  lemma AnswerOfPrefix(names: seq<string>, n: nat, i: nat)
    requires i < n <= |names|
    ensures Answer(names[..n], i) == Answer(names, i)
  {
    assert names[..n][..i] == names[..i];
  }

  lemma {:induction false} EntryWasAnswered(names: seq<string>, c: string)
    requires c in After(names)
    ensures exists i :: 0 <= i < |names| && Rewritten(names[i]) && Answer(names, i) == c
  {
    var n := |names| - 1;
    if c in After(names[..n]) {
      EntryWasAnswered(names[..n], c);
      var i :| 0 <= i < n && Rewritten(names[..n][i]) && Answer(names[..n], i) == c;
      AnswerOfPrefix(names, n, i);
    } else {
      assert Answer(names, n) == c;
    }
  }

  /** In terms of the names alone: an unchanged name is lost to every rewritten name it is the base of. */
  lemma BaseIsLost(names: seq<string>, x: string, i: nat)
    requires !Rewritten(x) && i < |names| && Rewritten(names[i]) && Base(names[i]) == x
    ensures Restore(After(names), x) != x
  {
    AfterIsSettled(names);
    LaterExtends(names, i);
    AnswerInMap(names, i);
    if FirstFree(After(names[..i]), names[i], 0) > 0 {
      assert !Free(After(names[..i]), Candidate(Base(names[i]), 0), names[i]);
      assert x in After(names);
    }
  }

  /** And it is safe while it is no candidate of a rewritten name. */
  lemma NoCandidateIsSafe(names: seq<string>, x: string)
    requires !Rewritten(x)
    requires forall i, k: nat :: 0 <= i < |names| && Rewritten(names[i]) ==> Candidate(Base(names[i]), k) != x
    ensures Restore(After(names), x) == x
  {
    forall i | 0 <= i < |names| && Rewritten(names[i]) ensures Answer(names, i) != x {
      assert Answer(names, i) == Candidate(Base(names[i]), FirstFree(After(names[..i]), names[i], 0));
    }
    UnchangedRestoresIff(names, x);
  }

  /** The spelling ends in an underscore and a number, as the numbered candidates do. */
  predicate Numbered(x: string)
  {
    var t := TailOf(x);
    t != [] && |t| < |x| && forall i :: 0 <= i < |t| ==> IsDigit(t[i])
  }

  lemma CandidateIsNumbered(out: string, k: nat)
    requires k > 0
    ensures Numbered(Candidate(out, k))
  {
    DecimalRoundTrip(k);
    TailIsNumber(SliceTo(out, LIMIT - |Suffix(k)|), Decimal(k));
  }

  /** For a name without such an ending the condition is exact: it restores unless it is the base of a rewritten one. */
  lemma UnnumberedRestoresIff(names: seq<string>, x: string)
    requires !Rewritten(x) && !Numbered(x)
    ensures Restore(After(names), x) == x
       <==> forall i :: 0 <= i < |names| && Rewritten(names[i]) ==> Base(names[i]) != x
  {
    if forall i :: 0 <= i < |names| && Rewritten(names[i]) ==> Base(names[i]) != x {
      forall i, k: nat | 0 <= i < |names| && Rewritten(names[i]) ensures Candidate(Base(names[i]), k) != x {
        if k > 0 { CandidateIsNumbered(Base(names[i]), k); }
      }
      NoCandidateIsSafe(names, x);
    } else {
      var i :| 0 <= i < |names| && Rewritten(names[i]) && Base(names[i]) == x;
      BaseIsLost(names, x, i);
    }
  }

  /** The clash is real: "a b" is given the spelling of the tool "a_b", which then cannot be called. */
  lemma UnchangedNameCanBeLost()
    ensures var names := ["a b", "a_b"];
            !Rewritten("a_b") && Answer(names, 0) == Answer(names, 1) == "a_b" && Restore(After(names), "a_b") == "a b"
  {
    var names := ["a b", "a_b"];
    assert Replaced("a b") == "a_b" && Replaced("a_b") == "a_b";
    FirstFreeIs(map[], "a b", 0);
    assert names[..0] == [] && names[..1] == ["a b"] && names[..1][..0] == [];
    assert After(names[..1]) == map["a_b" := "a b"];
    assert After(names) == map["a_b" := "a b"];
  }
}
