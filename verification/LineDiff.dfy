/** The line diff of internal/configdrift/drift.go: a table of suffix LCS lengths and a
    greedy walk over it.  The rendered lines are read back as an edit script; the script
    rebuilds both inputs, keeps as many lines as any common subsequence has, and no other
    script from the one input to the other changes fewer lines. */
module LineDiff {

  datatype Edit = Keep(line: string) | Delete(line: string) | Insert(line: string)

  /** What the script starts from: drop the insertions. */
  function Before(script: seq<Edit>): (lines: seq<string>)
    ensures |lines| <= |script|
  {
    if script == [] then []
    else (if script[0].Insert? then [] else [script[0].line]) + Before(script[1..])
  }

  /** What the script ends in: drop the deletions. */
  function After(script: seq<Edit>): (lines: seq<string>)
    ensures |lines| <= |script|
  {
    if script == [] then []
    else (if script[0].Delete? then [] else [script[0].line]) + After(script[1..])
  }

  function Kept(script: seq<Edit>): (lines: seq<string>)
    ensures |lines| <= |script|
  {
    if script == [] then []
    else (if script[0].Keep? then [script[0].line] else []) + Kept(script[1..])
  }

  /** The number of '-' plus '+' lines. */
  function Changes(script: seq<Edit>): nat {
    if script == [] then 0
    else (if script[0].Keep? then 0 else 1) + Changes(script[1..])
  }

  ghost predicate Transforms(script: seq<Edit>, a: seq<string>, b: seq<string>) {
    Before(script) == a && After(script) == b
  }

  /** Every hunk lists its deletions before its insertions. */
  ghost predicate DeletesFirst(script: seq<Edit>) {
    forall k :: 0 < k < |script| && script[k].Delete? ==> !script[k-1].Insert?
  }

  ghost predicate Subsequence(c: seq<string>, s: seq<string>) {
    c == [] || (s != [] && ((c[0] == s[0] && Subsequence(c[1..], s[1..])) || Subsequence(c, s[1..])))
  }

  ghost predicate CommonSubsequence(c: seq<string>, a: seq<string>, b: seq<string>) {
    Subsequence(c, a) && Subsequence(c, b)
  }

  /** The value the table holds at (i, j), for the suffixes a[i..] and b[j..]. */
  function Lcs(a: seq<string>, b: seq<string>, i: nat, j: nat): nat
    requires i <= |a| && j <= |b|
    decreases |a| - i + |b| - j
  {
    if i == |a| || j == |b| then 0
    else if a[i] == b[j] then 1 + Lcs(a, b, i + 1, j + 1)
    else if Lcs(a, b, i + 1, j) >= Lcs(a, b, i, j + 1) then Lcs(a, b, i + 1, j)
    else Lcs(a, b, i, j + 1)
  }

  /** The characters the diff puts in front of kept, deleted and inserted lines. */
  function Render(e: Edit): (r: string)
    ensures r != []
  {
    match e
    case Keep(line) => " " + line
    case Delete(line) => "-" + line
    case Insert(line) => "+" + line
  }

  function Rendered(script: seq<Edit>): (lines: seq<string>)
    ensures |lines| == |script|
    ensures forall k :: 0 <= k < |script| ==> lines[k] == Render(script[k])
  {
    seq(|script|, k requires 0 <= k < |script| => Render(script[k]))
  }

  function Shown(script: seq<Edit>): (lines: seq<string>)
    ensures lines != []
  {
    ["@@"] + Rendered(script)
  }

  predicate IsDiffLine(line: string) {
    line != "" && line[0] in {' ', '-', '+'}
  }

  /** Reading one rendered line back. */
  function Read(line: string): Edit
    requires IsDiffLine(line)
  {
    if line[0] == ' ' then Keep(line[1..])
    else if line[0] == '-' then Delete(line[1..])
    else Insert(line[1..])
  }

  function ReadAll(lines: seq<string>): (script: seq<Edit>)
    requires forall line :: line in lines ==> IsDiffLine(line)
    ensures |script| == |lines|
  {
    seq(|lines|, k requires 0 <= k < |lines| => Read(lines[k]))
  }

  /** The shape of a printed diff: the "@@" line, then kept, deleted and inserted lines. */
  predicate IsDiff(lines: seq<string>) {
    lines != [] && lines[0] == "@@" && forall line :: line in lines[1..] ==> IsDiffLine(line)
  }

  function ScriptOf(lines: seq<string>): seq<Edit>
    requires IsDiff(lines)
  {
    ReadAll(lines[1..])
  }

  /** Rendering loses nothing: the script is determined by the lines of the diff. */
  lemma ReadRendered(script: seq<Edit>)
    ensures forall line :: line in Rendered(script) ==> IsDiffLine(line)
    ensures ReadAll(Rendered(script)) == script
  {
    forall k | 0 <= k < |script|
      ensures IsDiffLine(Rendered(script)[k]) && Read(Rendered(script)[k]) == script[k]
    {
      assert Rendered(script)[k][1..] == script[k].line;
    }
  }

  lemma {:induction false} AppendBefore(script: seq<Edit>, e: Edit)
    ensures Before(script + [e]) == Before(script) + (if e.Insert? then [] else [e.line])
  {
    if script == [] {
      assert script + [e] == [e];
    } else {
      assert (script + [e])[1..] == script[1..] + [e] && (script + [e])[0] == script[0];
      AppendBefore(script[1..], e);
      var x := if script[0].Insert? then [] else [script[0].line];
      var y := if e.Insert? then [] else [e.line];
      assert x + (Before(script[1..]) + y) == x + Before(script[1..]) + y;
    }
  }

  lemma {:induction false} AppendAfter(script: seq<Edit>, e: Edit)
    ensures After(script + [e]) == After(script) + (if e.Delete? then [] else [e.line])
  {
    if script == [] {
      assert script + [e] == [e];
    } else {
      assert (script + [e])[1..] == script[1..] + [e] && (script + [e])[0] == script[0];
      AppendAfter(script[1..], e);
      var x := if script[0].Delete? then [] else [script[0].line];
      var y := if e.Delete? then [] else [e.line];
      assert x + (After(script[1..]) + y) == x + After(script[1..]) + y;
    }
  }

  lemma {:induction false} AppendKept(script: seq<Edit>, e: Edit)
    ensures Kept(script + [e]) == Kept(script) + (if e.Keep? then [e.line] else [])
  {
    if script == [] {
      assert script + [e] == [e];
    } else {
      assert (script + [e])[1..] == script[1..] + [e] && (script + [e])[0] == script[0];
      AppendKept(script[1..], e);
      var x := if script[0].Keep? then [script[0].line] else [];
      var y := if e.Keep? then [e.line] else [];
      assert x + (Kept(script[1..]) + y) == x + Kept(script[1..]) + y;
    }
  }

  lemma Append(script: seq<Edit>, e: Edit)
    ensures Before(script + [e]) == Before(script) + (if e.Insert? then [] else [e.line])
    ensures After(script + [e]) == After(script) + (if e.Delete? then [] else [e.line])
    ensures Kept(script + [e]) == Kept(script) + (if e.Keep? then [e.line] else [])
  {
    hide *;
    AppendBefore(script, e);
    AppendAfter(script, e);
    AppendKept(script, e);
  }

  /** Kept lines are never lost and never counted as changes. */
  lemma {:induction false} Conservation(script: seq<Edit>)
    ensures Changes(script) + 2 * |Kept(script)| == |Before(script)| + |After(script)|
  {
    if script != [] {
      Conservation(script[1..]);
    }
  }

  lemma {:induction false} KeptIsCommon(script: seq<Edit>)
    ensures CommonSubsequence(Kept(script), Before(script), After(script))
  {
    if script != [] {
      KeptIsCommon(script[1..]);
      var c, x, a, b := Kept(script[1..]), script[0].line, Before(script[1..]), After(script[1..]);
      assert ([x] + a)[1..] == a && ([x] + b)[1..] == b && ([x] + c)[1..] == c;
      assert [] + a == a && [] + b == b && [] + c == c;
    }
  }

  /** Dropping one line shortens the longest common subsequence by one at most. */
  lemma {:induction false} LcsSteps(a: seq<string>, b: seq<string>, i: nat, j: nat)
    requires i <= |a| && j <= |b|
    ensures i < |a| ==> Lcs(a, b, i + 1, j) <= Lcs(a, b, i, j) <= Lcs(a, b, i + 1, j) + 1
    ensures j < |b| ==> Lcs(a, b, i, j + 1) <= Lcs(a, b, i, j) <= Lcs(a, b, i, j + 1) + 1
    decreases |a| - i + |b| - j
  {
    if i < |a| {
      LcsSteps(a, b, i + 1, j);
    }
    if j < |b| {
      LcsSteps(a, b, i, j + 1);
    }
    if i < |a| && j < |b| {
      LcsSteps(a, b, i + 1, j + 1);
    }
  }

  lemma {:induction false} CommonAtMostLcs(c: seq<string>, a: seq<string>, b: seq<string>, i: nat, j: nat)
    requires i <= |a| && j <= |b|
    requires CommonSubsequence(c, a[i..], b[j..])
    ensures |c| <= Lcs(a, b, i, j)
    decreases |a| - i + |b| - j
  {
    if c != [] {
      assert a[i..][1..] == a[i+1..] && b[j..][1..] == b[j+1..];
      LcsSteps(a, b, i, j);
      if Subsequence(c, a[i+1..]) {
        CommonAtMostLcs(c, a, b, i + 1, j);
      } else if Subsequence(c, b[j+1..]) {
        CommonAtMostLcs(c, a, b, i, j + 1);
      } else {
        CommonAtMostLcs(c[1..], a, b, i + 1, j + 1);
      }
    }
  }

  ghost predicate LongestKept(script: seq<Edit>, a: seq<string>, b: seq<string>) {
    && CommonSubsequence(Kept(script), a, b)
    && forall c :: CommonSubsequence(c, a, b) ==> |c| <= |Kept(script)|
  }

  ghost predicate FewestChanges(script: seq<Edit>, a: seq<string>, b: seq<string>) {
    forall other :: Transforms(other, a, b) ==> Changes(script) <= Changes(other)
  }

  /** A script that keeps as many lines as the table promises is minimal in both senses. */
  lemma Minimal(script: seq<Edit>, a: seq<string>, b: seq<string>)
    requires Transforms(script, a, b)
    requires |Kept(script)| == Lcs(a, b, 0, 0)
    ensures LongestKept(script, a, b)
    ensures FewestChanges(script, a, b)
  {
    assert a[0..] == a && b[0..] == b;
    KeptIsCommon(script);
    forall c | CommonSubsequence(c, a, b)
      ensures |c| <= |Kept(script)|
    {
      CommonAtMostLcs(c, a, b, 0, 0);
    }
    forall other | Transforms(other, a, b)
      ensures Changes(script) <= Changes(other)
    {
      KeptIsCommon(other);
      Conservation(script);
      Conservation(other);
    }
  }

  /** With equal inputs a minimal script keeps everything; with different ones it cannot. */
  lemma NoChangesIffEqual(script: seq<Edit>, a: seq<string>, b: seq<string>)
    requires Transforms(script, a, b) && FewestChanges(script, a, b)
    ensures Changes(script) == 0 <==> a == b
    ensures a == b <==> forall e :: e in script ==> e.Keep?
  {
    if a == b {
      var all := seq(|a|, k requires 0 <= k < |a| => Keep(a[k]));
      AllKept(all);
      assert Before(all) == a;
    }
    ZeroChanges(script);
    if Changes(script) == 0 {
      AllKept(script);
    }
  }

  lemma {:induction false} AllKept(script: seq<Edit>)
    requires forall e :: e in script ==> e.Keep?
    ensures Changes(script) == 0
    ensures |Before(script)| == |script| && Before(script) == After(script)
    ensures forall k :: 0 <= k < |script| ==> Before(script)[k] == script[k].line
  {
    if script != [] {
      AllKept(script[1..]);
    }
  }

  lemma {:induction false} ZeroChanges(script: seq<Edit>)
    ensures Changes(script) == 0 <==> forall e :: e in script ==> e.Keep?
  {
    if script != [] {
      ZeroChanges(script[1..]);
      assert forall e :: e in script <==> e == script[0] || e in script[1..];
    }
  }

  ghost predicate IsTable(dp: array2<nat>, a: seq<string>, b: seq<string>)
    reads dp
  {
    && dp.Length0 == |a| + 1 && dp.Length1 == |b| + 1
    && forall i, j :: 0 <= i <= |a| && 0 <= j <= |b| ==> dp[i, j] == Lcs(a, b, i, j)
  }

  lemma TableAt(dp: array2<nat>, a: seq<string>, b: seq<string>, i: nat, j: nat)
    requires IsTable(dp, a, b) && i <= |a| && j <= |b|
    ensures dp.Length0 == |a| + 1 && dp.Length1 == |b| + 1 && dp[i, j] == Lcs(a, b, i, j)
  {
  }

  /** One step of the recurrence, and its two border cases. */
  lemma LcsCell(a: seq<string>, b: seq<string>, i: nat, j: nat)
    requires i <= |a| && j <= |b|
    ensures i == |a| || j == |b| ==> Lcs(a, b, i, j) == 0
    ensures i < |a| && j < |b| ==>
              Lcs(a, b, i, j) == (
                if a[i] == b[j] then 1 + Lcs(a, b, i + 1, j + 1)
                else if Lcs(a, b, i + 1, j) >= Lcs(a, b, i, j + 1) then Lcs(a, b, i + 1, j)
                else Lcs(a, b, i, j + 1))
  {
  }

  /** Fills dp from the back: dp[i, j] is the LCS length of a[i..] and b[j..]. */
  method FillTable(a: seq<string>, b: seq<string>) returns (dp: array2<nat>)
    ensures fresh(dp) && IsTable(dp, a, b)
  {
    hide Lcs;
    dp := new nat[|a| + 1, |b| + 1]((_, _) => 0);
    var i := |a|;
    forall j | 0 <= j <= |b| { LcsCell(a, b, |a|, j); }
    forall i | 0 <= i <= |a| { LcsCell(a, b, i, |b|); }
    while i > 0
      invariant 0 <= i <= |a|
      invariant forall i', j' :: i <= i' <= |a| && 0 <= j' <= |b| ==> dp[i', j'] == Lcs(a, b, i', j')
      invariant forall i' :: 0 <= i' <= |a| ==> dp[i', |b|] == 0
    {
      i := i - 1;
      var j := |b|;
      while j > 0
        invariant 0 <= j <= |b|
        invariant forall i', j' :: i < i' <= |a| && 0 <= j' <= |b| ==> dp[i', j'] == Lcs(a, b, i', j')
        invariant forall j' :: j <= j' <= |b| ==> dp[i, j'] == Lcs(a, b, i, j')
        invariant forall i' :: 0 <= i' <= |a| ==> dp[i', |b|] == 0
      {
        j := j - 1;
        assert dp[i + 1, j + 1] == Lcs(a, b, i + 1, j + 1);
        assert dp[i + 1, j] == Lcs(a, b, i + 1, j);
        assert dp[i, j + 1] == Lcs(a, b, i, j + 1);
        if a[i] == b[j] {
          dp[i, j] := dp[i + 1, j + 1] + 1;
        } else if dp[i + 1, j] >= dp[i, j + 1] {
          dp[i, j] := dp[i + 1, j];
        } else {
          dp[i, j] := dp[i, j + 1];
        }
        LcsCell(a, b, i, j);
        assert dp[i, j] == Lcs(a, b, i, j);
      }
    }
  }

  /** What the walk has established when it stands at (i, j). */
  ghost predicate Walked(script: seq<Edit>, a: seq<string>, b: seq<string>, i: nat, j: nat) {
    && i <= |a| && j <= |b|
    && Transforms(script, a[..i], b[..j])
    && |Kept(script)| + Lcs(a, b, i, j) == Lcs(a, b, 0, 0)
    && DeletesFirst(script)
    && (script != [] && script[|script|-1].Insert? ==>
          j > 0 && (i < |a| ==> Lcs(a, b, i + 1, j - 1) < Lcs(a, b, i, j)))
  }

  lemma KeepStep(script: seq<Edit>, a: seq<string>, b: seq<string>, i: nat, j: nat)
    requires Walked(script, a, b, i, j)
    requires i < |a| && j < |b| && a[i] == b[j]
    ensures Walked(script + [Keep(a[i])], a, b, i + 1, j + 1)
    ensures Shown(script + [Keep(a[i])]) == Shown(script) + [" " + a[i]]
  {
    hide Before, After, Kept;
    Append(script, Keep(a[i]));
  }

  lemma DeleteStep(script: seq<Edit>, a: seq<string>, b: seq<string>, i: nat, j: nat)
    requires Walked(script, a, b, i, j)
    requires i < |a|
    requires j < |b| ==> a[i] != b[j] && Lcs(a, b, i + 1, j) >= Lcs(a, b, i, j + 1)
    ensures Walked(script + [Delete(a[i])], a, b, i + 1, j)
    ensures Shown(script + [Delete(a[i])]) == Shown(script) + ["-" + a[i]]
  {
    hide Before, After, Kept;
    Append(script, Delete(a[i]));
    if script != [] && script[|script|-1].Insert? {
      LcsSteps(a, b, i + 1, j - 1);
    }
  }

  lemma InsertStep(script: seq<Edit>, a: seq<string>, b: seq<string>, i: nat, j: nat)
    requires Walked(script, a, b, i, j)
    requires j < |b|
    requires i < |a| ==> a[i] != b[j] && Lcs(a, b, i + 1, j) < Lcs(a, b, i, j + 1)
    ensures Walked(script + [Insert(b[j])], a, b, i, j + 1)
    ensures Shown(script + [Insert(b[j])]) == Shown(script) + ["+" + b[j]]
  {
    hide Before, After, Kept;
    Append(script, Insert(b[j]));
  }

  lemma Started(a: seq<string>, b: seq<string>)
    ensures Walked([], a, b, 0, 0) && Shown([]) == ["@@"]
  {
  }

  lemma Finished(script: seq<Edit>, a: seq<string>, b: seq<string>)
    requires Walked(script, a, b, |a|, |b|)
    ensures IsDiff(Shown(script)) && ScriptOf(Shown(script)) == script
    ensures Transforms(script, a, b) && |Kept(script)| == Lcs(a, b, 0, 0)
    ensures LongestKept(script, a, b) && FewestChanges(script, a, b)
    ensures DeletesFirst(script)
  {
    assert a[..|a|] == a && b[..|b|] == b;
    Minimal(script, a, b);
    ReadRendered(script);
    assert Shown(script)[1..] == Rendered(script);
  }

  /** The diff from the live lines a to the desired lines b, as printed. */
  method LineDiff(a: seq<string>, b: seq<string>) returns (lines: seq<string>)
    ensures IsDiff(lines)
    ensures Transforms(ScriptOf(lines), a, b)
    ensures |Kept(ScriptOf(lines))| == Lcs(a, b, 0, 0)
    ensures LongestKept(ScriptOf(lines), a, b) && FewestChanges(ScriptOf(lines), a, b)
    ensures DeletesFirst(ScriptOf(lines))
  {
    hide *;
    var dp := FillTable(a, b);
    lines := ["@@"];
    ghost var script: seq<Edit> := [];
    var i, j := 0, 0;
    Started(a, b);
    while i < |a| && j < |b|
      invariant 0 <= i <= |a| && 0 <= j <= |b|
      invariant IsTable(dp, a, b)
      invariant Walked(script, a, b, i, j)
      invariant lines == Shown(script)
      decreases |a| - i + |b| - j
    {
      TableAt(dp, a, b, i + 1, j);
      TableAt(dp, a, b, i, j + 1);
      if a[i] == b[j] {
        KeepStep(script, a, b, i, j);
        script := script + [Keep(a[i])];
        lines := lines + [" " + a[i]];
        i := i + 1;
        j := j + 1;
      } else if dp[i + 1, j] >= dp[i, j + 1] {
        DeleteStep(script, a, b, i, j);
        script := script + [Delete(a[i])];
        lines := lines + ["-" + a[i]];
        i := i + 1;
      } else {
        InsertStep(script, a, b, i, j);
        script := script + [Insert(b[j])];
        lines := lines + ["+" + b[j]];
        j := j + 1;
      }
    }
    while i < |a|
      invariant 0 <= i <= |a| && 0 <= j <= |b| && (i == |a| || j == |b|)
      invariant Walked(script, a, b, i, j)
      invariant lines == Shown(script)
    {
      DeleteStep(script, a, b, i, j);
      script := script + [Delete(a[i])];
      lines := lines + ["-" + a[i]];
      i := i + 1;
    }
    while j < |b|
      invariant i == |a| && 0 <= j <= |b|
      invariant Walked(script, a, b, i, j)
      invariant lines == Shown(script)
    {
      InsertStep(script, a, b, i, j);
      script := script + [Insert(b[j])];
      lines := lines + ["+" + b[j]];
      j := j + 1;
    }
    Finished(script, a, b);
  }
}
