/** The configuration drift report of internal/configdrift/drift.go around the line diff:
    redaction of secret lines, the text of a unified diff, and the report's summary. */
module ConfigDrift {
  import opened LineDiff
  import opened Text

  function Needles(): set<string> {
    { "password", "api_key", "api-token", "secret", "private_key", "privkey",
      "server_api_header", "hash_nonce", "dns_cloudflare_api_token" }
  }

  const MARK := "<redacted>"
  const DIFF_LIMIT := 1000000

  predicate SecretLike(line: string) {
    var lower := ToLower(TrimSpace(line));
    lower != "" && !("#" <= lower) && exists needle :: needle in Needles() && Contains(lower, needle)
  }

  function RedactLine(line: string): string {
    if SecretLike(line) then
      var idx := Index(line, '=');
      if idx >= 0 then TrimRight(line[..idx+1], {' ', '\t'}) + " " + MARK else MARK
    else line
  }

  /** The lines redactConfig works on. */
  function RawLines(value: string): (lines: seq<string>)
    ensures lines != []
  {
    Split(ReplaceCRLF(value), '\n')
  }

  function RedactedLines(value: string): (lines: seq<string>)
    ensures |lines| == |RawLines(value)|
    ensures forall k :: 0 <= k < |lines| ==> lines[k] == RedactLine(RawLines(value)[k])
  {
    seq(|RawLines(value)|, k requires 0 <= k < |RawLines(value)| => RedactLine(RawLines(value)[k]))
  }

  function RedactText(value: string): string {
    Join(RedactedLines(value), '\n')
  }

  function SplitLines(value: string): (lines: seq<string>)
    ensures forall line :: line in lines ==> '\n' !in line
  {
    var text := TrimSuffix(ReplaceCRLF(value), "\n");
    if text == "" then [] else Split(text, '\n')
  }

  /** The lines of a text are what its line ends follow, whichever of the two kinds they are; an empty
      text, and one that is a line end alone, has none. */
  lemma LinesOfText(lines: seq<string>)
    requires forall line :: line in lines ==> '\n' !in line && '\r' !in line
    ensures SplitLines(CrLf(lines)) == SplitLines(Terminated(lines)) == if lines == [""] then [] else lines
  {
    hide ReplaceCRLF, Split, CrLf, Terminated, Join;
    LineEndsAreOne(lines);
    NoLines();
    if lines != [] {
      TerminatedIsJoin(lines);
      var text := Join(lines, '\n');
      assert (text + "\n")[|text|..] == "\n" && (text + "\n")[..|text|] == text;
      SplitJoin(lines, '\n');
      JoinIsEmpty(lines);
    }
  }

  lemma NoLines()
    ensures Terminated([]) == "" && SplitLines("") == []
  {
    NothingToReplace();
  }

  lemma JoinIsEmpty(lines: seq<string>)
    requires lines != []
    ensures Join(lines, '\n') == "" <==> lines == [""]
  {
    if |lines| > 1 {
      assert |Join(lines, '\n')| == |lines[0]| + 1 + |Join(lines[1..], '\n')|;
    }
  }

  /** The lines a file contributes to the diff. */
  function DiffLines(value: string): seq<string> {
    SplitLines(RedactText(value))
  }

  /** The lines differ at most in what a secret-like line holds after its first '='. */
  predicate SameButSecret(x: string, y: string) {
    || x == y
    || (&& SecretLike(x) && SecretLike(y)
        && (var i, j := Index(x, '='), Index(y, '=');
            (i < 0 && j < 0) || (i >= 0 && j >= 0 && x[..i] == y[..j])))
  }

  predicate SameButSecrets(x: string, y: string) {
    var a, b := RawLines(x), RawLines(y);
    |a| == |b| && forall k :: 0 <= k < |a| ==> SameButSecret(a[k], b[k])
  }

  /** What a redacted line still tells is decided by the text up to the first '='. */
  lemma SecretIsHidden(x: string, y: string)
    requires SameButSecret(x, y)
    ensures RedactLine(x) == RedactLine(y)
  {
    hide SecretLike, Index, TrimRight;
    var i, j := Index(x, '='), Index(y, '=');
    if x != y && i >= 0 && j >= 0 {
      assert x[..i+1] == y[..j+1] by {
        assert x[..i+1] == x[..i] + [x[i]] && y[..j+1] == y[..j] + [y[j]];
      }
    }
  }

  /** Trimming the kept part never removes anything, because it ends in '='. */
  lemma RedactedForm(line: string)
    requires SecretLike(line) && '=' in line
    ensures RedactLine(line) == line[..Index(line, '=')+1] + " " + MARK
    ensures Index(RedactLine(line), '=') == Index(line, '=')
  {
    hide SecretLike, Index;
    var idx := Index(line, '=');
    var r := line[..idx+1] + " " + MARK;
    assert r[idx] == '=' && r[..idx] == line[..idx];
    IndexIs(r, '=', idx);
  }

  /** Redacting a redacted line changes nothing more. */
  lemma RedactLineIdempotent(line: string)
    ensures RedactLine(RedactLine(line)) == RedactLine(line)
  {
    hide SecretLike, Index, TrimRight;
    var r := RedactLine(line);
    if SecretLike(line) && '=' in line {
      RedactedForm(line);
      var idx := Index(line, '=');
      assert r[..idx+1] == line[..idx+1];
      if SecretLike(r) {
        assert r[idx] == '=';
        RedactedForm(r);
      }
    }
  }

  /** Two files that differ only inside secrets have the same redacted text. */
  lemma SecretsAreHidden(x: string, y: string)
    requires SameButSecrets(x, y)
    ensures RedactText(x) == RedactText(y)
  {
    forall k | 0 <= k < |RawLines(x)|
      ensures RedactedLines(x)[k] == RedactedLines(y)[k]
    {
      SecretIsHidden(RawLines(x)[k], RawLines(y)[k]);
    }
    assert RedactedLines(x) == RedactedLines(y);
  }

  /** So a minimal diff between them has neither a '+' nor a '-' line. */
  lemma SecretsAloneNeverShow(live: string, desired: string, script: seq<Edit>)
    requires SameButSecrets(live, desired)
    requires Transforms(script, DiffLines(live), DiffLines(desired))
    requires FewestChanges(script, DiffLines(live), DiffLines(desired))
    ensures forall e :: e in script ==> e.Keep?
  {
    SecretsAreHidden(live, desired);
    NoChangesIffEqual(script, DiffLines(live), DiffLines(desired));
  }

  /** What the report shows of a line: itself, unless it names a secret and is not a comment; then its
      text through the first '=' with a mark for the rest, or the mark alone. */
  ghost predicate ShownAs(line: string, shown: string) {
    var bare, lower := TrimLeftSpace(line), ToLower(line);
    if bare != "" && bare[0] != '#'
       && (|| Contains(lower, "password") || Contains(lower, "api_key") || Contains(lower, "api-token")
           || Contains(lower, "secret") || Contains(lower, "private_key") || Contains(lower, "privkey")
           || Contains(lower, "server_api_header") || Contains(lower, "hash_nonce")
           || Contains(lower, "dns_cloudflare_api_token"))
    then
      if '=' in line then
        exists k :: 0 <= k < |line| && line[k] == '=' && '=' !in line[..k] && shown == line[..k+1] + " <redacted>"
      else shown == "<redacted>"
    else shown == line
  }

  lemma NeedlesAreWords()
    ensures forall needle :: needle in Needles() ==> IsWord(needle)
  {
    hide IsSpace;
    forall c: char
      ensures IsSpace(c) <==> c as int == 32 || 9 <= c as int <= 13
    {
      SpaceTable(c);
    }
  }

  /** A line is secret exactly when it is neither blank nor a comment and contains one of the words. */
  lemma SecretLikeIs(line: string)
    ensures var bare := TrimLeftSpace(line);
            SecretLike(line) <==>
              bare != "" && bare[0] != '#' && exists needle :: needle in Needles() && Contains(ToLower(line), needle)
  {
    hide TrimLeftSpace, TrimRightSpace, Contains, IsSpace, Needles, ToLower;
    var t, bare := TrimSpace(line), TrimLeftSpace(line);
    NeedlesAreWords();
    var left, right := TrimSplits(line);
    LowerOfThree(left, t, right);
    LowerBlank(left);
    LowerBlank(right);
    forall needle | needle in Needles()
      ensures Contains(ToLower(line), needle) <==> Contains(ToLower(t), needle)
    {
      ContainsTrimmed(ToLower(left), ToLower(t), ToLower(right), needle);
    }
    TrimStart(line);
    HashLowered(t);
  }

  lemma TrimStart(line: string)
    ensures TrimSpace(line) == "" <==> TrimLeftSpace(line) == ""
    ensures TrimSpace(line) != "" ==> TrimSpace(line)[0] == TrimLeftSpace(line)[0]
  {
    hide TrimLeftSpace, TrimRightSpace, IsSpace;
    var bare := TrimLeftSpace(line);
    var right := TrimsRight(bare);
    assert TrimSpace(line) == "" ==> bare == right;
    assert right != "" ==> right[0] in right;
  }

  lemma HashLowered(t: string)
    ensures ToLower(t) == "" <==> t == ""
    ensures "#" <= ToLower(t) <==> t != "" && t[0] == '#'
  {
    assert t != "" ==> ToLower(t)[0] == LowerChar(t[0]);
  }

  lemma RedactLineIs(line: string)
    ensures ShownAs(line, RedactLine(line))
  {
    hide SecretLike, Contains, ToLower, TrimLeftSpace, TrimRight;
    SecretLikeIs(line);
    NeedleList(ToLower(line));
    if SecretLike(line) && '=' in line {
      RedactedForm(line);
      var k := Index(line, '=');
      assert line[k] == '=' && '=' !in line[..k] && RedactLine(line) == line[..k+1] + " <redacted>";
    }
  }

  lemma NeedleList(lower: string)
    ensures (exists needle :: needle in Needles() && Contains(lower, needle)) <==>
              (|| Contains(lower, "password") || Contains(lower, "api_key") || Contains(lower, "api-token")
               || Contains(lower, "secret") || Contains(lower, "private_key") || Contains(lower, "privkey")
               || Contains(lower, "server_api_header") || Contains(lower, "hash_nonce")
               || Contains(lower, "dns_cloudflare_api_token"))
  {
    hide Contains;
  }

  /** The lines of the redacted text are the redacted lines. */
  lemma RedactedTextLines(value: string)
    ensures Split(RedactText(value), '\n') == RedactedLines(value)
  {
    hide RedactLine, Split, ReplaceCRLF, TrimRight;
    forall line | line in RedactedLines(value)
      ensures '\n' !in line
    {
      var k :| 0 <= k < |RedactedLines(value)| && RedactedLines(value)[k] == line;
      assert RawLines(value)[k] in RawLines(value);
      RedactAddsNoLine(RawLines(value)[k]);
    }
    SplitJoin(RedactedLines(value), '\n');
  }

  lemma RedactAddsNoLine(line: string)
    requires '\n' !in line
    ensures '\n' !in RedactLine(line)
  {
    hide SecretLike, Index;
    var idx := Index(line, '=');
    if SecretLike(line) && idx >= 0 {
      RedactedForm(line);
    }
  }

  lemma RedactTextShown(value: string)
    ensures var before, after := Split(ReplaceCRLF(value), '\n'), Split(RedactText(value), '\n');
            |after| == |before| && forall k :: 0 <= k < |before| ==> ShownAs(before[k], after[k])
  {
    hide ShownAs, RedactLine, RedactText, Split, ReplaceCRLF;
    RedactedTextLines(value);
    forall k | 0 <= k < |RawLines(value)|
      ensures ShownAs(RawLines(value)[k], RedactedLines(value)[k])
    {
      RedactLineIs(RawLines(value)[k]);
    }
  }

  method RedactConfig(value: string) returns (out: string)
    ensures out == RedactText(value)
    ensures var before, after := Split(ReplaceCRLF(value), '\n'), Split(out, '\n');
            |after| == |before| && forall k :: 0 <= k < |before| ==> ShownAs(before[k], after[k])
  {
    hide *;
    var raw := RawLines(value);
    var lines := new string[|raw|](k requires 0 <= k < |raw| => raw[k]);
    var i := 0;
    while i < lines.Length
      invariant 0 <= i <= lines.Length == |raw|
      invariant forall k :: 0 <= k < i ==> lines[k] == RedactLine(raw[k])
      invariant forall k :: i <= k < |raw| ==> lines[k] == raw[k]
    {
      var line := lines[i];
      RedactCases(line);
      if SecretLike(line) {
        var idx := Index(line, '=');
        if idx >= 0 {
          lines[i] := TrimRight(line[..idx+1], {' ', '\t'}) + " " + MARK;
        } else {
          lines[i] := MARK;
        }
      }
      i := i + 1;
    }
    RedactTextIs(value, lines[..]);
    out := Join(lines[..], '\n');
    RedactTextShown(value);
  }

  lemma RedactCases(line: string)
    ensures !SecretLike(line) ==> RedactLine(line) == line
    ensures SecretLike(line) && Index(line, '=') < 0 ==> RedactLine(line) == MARK
    ensures SecretLike(line) && Index(line, '=') >= 0 ==>
              RedactLine(line) == TrimRight(line[..Index(line, '=')+1], {' ', '\t'}) + " " + MARK
  {
    hide SecretLike, TrimRight, Index;
  }

  lemma RedactTextIs(value: string, lines: seq<string>)
    requires |lines| == |RawLines(value)|
    requires forall k :: 0 <= k < |lines| ==> lines[k] == RedactLine(RawLines(value)[k])
    ensures lines != [] && Join(lines, '\n') == RedactText(value)
  {
    hide RedactLine, RawLines;
    assert lines == RedactedLines(value);
  }

  function Header(desiredPath: string, livePath: string): string {
    "--- live: " + livePath + "\n" + "+++ desired: " + desiredPath + "\n"
  }

  /** What stands in for the body when the files are too large to compare. */
  function Omitted(): string {
    "@@ full diff omitted because files are large @@\n" + "- live sha/content differs\n" + "+ desired sha/content differs\n"
  }

  lemma HeaderLines(desiredPath: string, livePath: string)
    ensures Header(desiredPath, livePath) == "--- live: " + (livePath + "\n") + "+++ desired: " + (desiredPath + "\n")
  {
  }

  lemma OmittedLines()
    ensures Omitted() == "@@ full diff omitted because files are large @@\n" + "- live sha/content differs\n" + "+ desired sha/content differs\n"
  {
  }

  /** Every text in a script comes from one of the two files. */
  lemma {:induction false} LinesOfScript(script: seq<Edit>)
    ensures forall e :: e in script ==> e.line in Before(script) || e.line in After(script)
  {
    if script != [] {
      LinesOfScript(script[1..]);
      assert script == [script[0]] + script[1..];
    }
  }

  lemma DiffLinesUnbroken(lines: seq<string>, a: seq<string>, b: seq<string>)
    requires IsDiff(lines) && Transforms(ScriptOf(lines), a, b)
    requires forall line :: line in a + b ==> '\n' !in line
    ensures lines != [] && forall line :: line in lines ==> '\n' !in line
    ensures lines[|lines|-1] != ""
  {
    LinesOfScript(ScriptOf(lines));
    forall k | 0 <= k < |lines|
      ensures '\n' !in lines[k] && lines[k] != ""
    {
      if k > 0 {
        assert lines[k] == lines[1..][k-1];
        assert lines[k] in lines[1..];
        var e := ScriptOf(lines)[k-1];
        assert e in ScriptOf(lines) && e == Read(lines[k]);
        assert e.line in a + b;
        assert lines[k] == [lines[k][0]] + lines[k][1..];
      }
    }
  }

  /** A printed diff is read back by cutting its body at the line ends. */
  ghost predicate ShowsDiff(out: string, header: string, a: seq<string>, b: seq<string>) {
    && header <= out
    && var lines := Split(out[|header|..], '\n');
       && IsDiff(lines)
       && Transforms(ScriptOf(lines), a, b)
       && LongestKept(ScriptOf(lines), a, b)
       && FewestChanges(ScriptOf(lines), a, b)
       && DeletesFirst(ScriptOf(lines))
  }

  method UnifiedDiff(desiredPath: string, livePath: string, desired: string, live: string) returns (out: string)
    ensures |DiffLines(live)| * |DiffLines(desired)| <= 1_000_000 ==>
              ShowsDiff(out, Header(desiredPath, livePath), DiffLines(live), DiffLines(desired))
    ensures |DiffLines(live)| * |DiffLines(desired)| > 1_000_000 ==>
              out == Header(desiredPath, livePath) + Omitted()
  {
    hide LineDiff.IsDiff, LineDiff.ScriptOf, LineDiff.Transforms, LineDiff.LongestKept, LineDiff.FewestChanges, LineDiff.DeletesFirst;
    hide Header, Join, Split, RedactText, SplitLines, Omitted, TrimRight, IsDiffLine;
    var desiredText := RedactConfig(desired);
    var liveText := RedactConfig(live);
    out := "--- live: ";
    out := out + (livePath + "\n");
    out := out + "+++ desired: ";
    out := out + (desiredPath + "\n");
    HeaderLines(desiredPath, livePath);
    ghost var header := out;
    assert header + Terminated([]) == header;
    var liveLines, desiredLines := SplitLines(liveText), SplitLines(desiredText);
    if |liveLines| * |desiredLines| > DIFF_LIMIT {
      OmittedLines();
      out := out + ("@@ full diff omitted because files are large @@\n" + "- live sha/content differs\n" + "+ desired sha/content differs\n");
      return;
    }
    var lines := LineDiff.LineDiff(liveLines, desiredLines);
    var k := 0;
    while k < |lines|
      invariant 0 <= k <= |lines|
      invariant out == header + Terminated(lines[..k])
    {
      TerminatedAppend(lines[..k], lines[k]);
      assert lines[..k+1] == lines[..k] + [lines[k]];
      out := out + lines[k];
      out := out + "\n";
      k := k + 1;
    }
    assert lines[..k] == lines;
    DiffLinesUnbroken(lines, liveLines, desiredLines);
    PrintedLines(header, lines);
    out := TrimRight(out, {'\n'});
  }

  datatype Mapping = Mapping(id: string, desiredPath: string, livePath: string)
  datatype FileRead = Data(bytes: string) | NotExist | Unreadable
  datatype Status = Match | Drift | MissingLive | Error
  datatype Item = Item(id: string, status: Status, diff: string)
  datatype Summary = Summary(total: nat, matching: nat, drifted: nat, missingLive: nat, errors: nat)
  datatype ReportStatus = ReportOk | ReportDrift | ReportError

  /** Reading files is outside the model: `disk` says what each path yields. */
  type Disk = string -> FileRead

  predicate InSync(disk: Disk, m: Mapping) {
    disk(m.desiredPath).Data? && disk(m.livePath) == disk(m.desiredPath)
  }

  method CompareOne(disk: Disk, m: Mapping) returns (item: Item)
    ensures item.id == m.id
    ensures item.status == Match <==> InSync(disk, m)
    ensures item.status == MissingLive <==> disk(m.desiredPath).Data? && disk(m.livePath) == NotExist
    ensures item.status == Drift <==>
              disk(m.desiredPath).Data? && disk(m.livePath).Data? && disk(m.livePath) != disk(m.desiredPath)
    ensures item.status in {Match, Error} ==> item.diff == ""
    ensures item.status in {Drift, MissingLive} ==>
              var live := if item.status == Drift then disk(m.livePath).bytes else "";
              var desired := disk(m.desiredPath).bytes;
              |DiffLines(live)| * |DiffLines(desired)| <= 1_000_000 ==>
                ShowsDiff(item.diff, Header(m.desiredPath, m.livePath), DiffLines(live), DiffLines(desired))
  {
    hide ShowsDiff, Header, DiffLines, Omitted;
    match disk(m.desiredPath)
    case NotExist => item := Item(m.id, Error, "");
    case Unreadable => item := Item(m.id, Error, "");
    case Data(desired) =>
      match disk(m.livePath)
      case NotExist =>
        var diff := UnifiedDiff(m.desiredPath, m.livePath, desired, "");
        item := Item(m.id, MissingLive, diff);
      case Unreadable => item := Item(m.id, Error, "");
      case Data(live) =>
        if desired == live {
          item := Item(m.id, Match, "");
        } else {
          var diff := UnifiedDiff(m.desiredPath, m.livePath, desired, live);
          item := Item(m.id, Drift, diff);
        }
  }

  function CountStatus(items: seq<Item>, status: Status): (n: nat)
    ensures n <= |items|
    ensures n == 0 <==> forall item :: item in items ==> item.status != status
  {
    if items == [] then 0
    else
      var last := items[|items|-1];
      assert items == items[..|items|-1] + [last];
      CountStatus(items[..|items|-1], status) + (if last.status == status then 1 else 0)
  }

  function Tally(items: seq<Item>): (s: Summary)
    ensures s.total == |items|
  {
    Summary(|items|, CountStatus(items, Match), CountStatus(items, Drift),
            CountStatus(items, MissingLive), CountStatus(items, Error))
  }

  function Bump(s: Summary, status: Status): Summary {
    match status
    case Match => s.(total := s.total + 1, matching := s.matching + 1)
    case Drift => s.(total := s.total + 1, drifted := s.drifted + 1)
    case MissingLive => s.(total := s.total + 1, missingLive := s.missingLive + 1)
    case Error => s.(total := s.total + 1, errors := s.errors + 1)
  }

  lemma TallyAppend(items: seq<Item>, item: Item)
    ensures Tally(items + [item]) == Bump(Tally(items), item.status)
  {
    assert (items + [item])[..|items|] == items;
  }

  lemma {:induction false} TallyAdds(items: seq<Item>)
    ensures var s := Tally(items); s.total == s.matching + s.drifted + s.missingLive + s.errors
  {
    if items != [] {
      TallyAdds(items[..|items|-1]);
    }
  }

  /** `cancelled` says at which mappings the context was already done. */
  method Compare(disk: Disk, mappings: seq<Mapping>, cancelled: seq<bool>)
    returns (status: ReportStatus, summary: Summary, items: seq<Item>)
    requires |cancelled| == |mappings|
    ensures |items| == |mappings| && summary == Tally(items)
    ensures summary.total == summary.matching + summary.drifted + summary.missingLive + summary.errors
    ensures forall k :: 0 <= k < |mappings| ==>
              (items[k].status == Match <==> !cancelled[k] && InSync(disk, mappings[k]))
    ensures status == ReportOk <==> forall k :: 0 <= k < |mappings| ==> items[k].status == Match
    ensures status == ReportError <==> exists k :: 0 <= k < |mappings| && items[k].status == Error
  {
    hide InSync, CountStatus, Tally;
    items := [];
    var matching, drifted, missingLive, errors := 0, 0, 0, 0;
    var i := 0;
    assert Tally([]) == Summary(0, 0, 0, 0, 0) by { TallyEmpty(); }
    while i < |mappings|
      invariant 0 <= i == |items| <= |mappings|
      invariant Summary(i, matching, drifted, missingLive, errors) == Tally(items)
      invariant forall k :: 0 <= k < i ==>
                  (items[k].status == Match <==> !cancelled[k] && InSync(disk, mappings[k]))
    {
      var item := Item(mappings[i].id, Error, "");
      if !cancelled[i] {
        item := CompareOne(disk, mappings[i]);
      }
      TallyAppend(items, item);
      items := items + [item];
      match item.status {
        case Match => matching := matching + 1;
        case Drift => drifted := drifted + 1;
        case MissingLive => missingLive := missingLive + 1;
        case Error => errors := errors + 1;
      }
      i := i + 1;
    }
    summary := Summary(|items|, matching, drifted, missingLive, errors);
    TallyAdds(items);
    TallyZero(items);
    status := ReportOk;
    if errors > 0 {
      status := ReportError;
    } else if drifted > 0 || missingLive > 0 {
      status := ReportDrift;
    }
  }

  lemma TallyEmpty()
    ensures Tally([]) == Summary(0, 0, 0, 0, 0)
  {
  }

  lemma TallyZero(items: seq<Item>)
    ensures Tally(items).errors == 0 <==> forall k :: 0 <= k < |items| ==> items[k].status != Error
    ensures Tally(items).errors + Tally(items).drifted + Tally(items).missingLive == 0 <==>
              forall k :: 0 <= k < |items| ==> items[k].status == Match
  {
    forall k | 0 <= k < |items| ensures items[k] in items {}
  }
}
