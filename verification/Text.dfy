/** The string operations of Go's `strings` package that the modelled code uses, over ASCII. */
module Text {

  predicate IsSpace(c: char) {
    c in {' ', '\t', '\n', '\U{000B}', '\U{000C}', '\r'}
  }

  function LowerChar(c: char): char {
    if 'A' <= c <= 'Z' then (c as int + 32) as char else c
  }

  function ToLower(s: string): (r: string)
    ensures |r| == |s|
    ensures forall k :: 0 <= k < |s| ==> r[k] == LowerChar(s[k])
  {
    seq(|s|, k requires 0 <= k < |s| => LowerChar(s[k]))
  }

  /** strings.EqualFold on ASCII text. */
  predicate EqualFold(s: string, t: string) {
    ToLower(s) == ToLower(t)
  }

  function TrimLeftSpace(s: string): (r: string)
    ensures |r| <= |s| && r == s[|s|-|r|..]
    ensures r != "" ==> !IsSpace(r[0])
  {
    if s != "" && IsSpace(s[0]) then TrimLeftSpace(s[1..]) else s
  }

  function TrimRightSpace(s: string): (r: string)
    ensures r <= s
    ensures r != "" ==> !IsSpace(r[|r|-1])
  {
    if s != "" && IsSpace(s[|s|-1]) then TrimRightSpace(s[..|s|-1]) else s
  }

  function TrimSpace(s: string): (r: string)
    ensures |r| <= |s|
    ensures r != "" ==> !IsSpace(r[0]) && !IsSpace(r[|r|-1])
  {
    TrimRightSpace(TrimLeftSpace(s))
  }

  /** strings.TrimRight with a cutset. */
  function TrimRight(s: string, cutset: set<char>): (r: string)
    ensures r <= s
    ensures r != "" ==> r[|r|-1] !in cutset
  {
    if s != "" && s[|s|-1] in cutset then TrimRight(s[..|s|-1], cutset) else s
  }

  predicate HasSuffix(s: string, suffix: string) {
    |suffix| <= |s| && s[|s|-|suffix|..] == suffix
  }

  function TrimSuffix(s: string, suffix: string): (r: string)
    ensures r <= s
    ensures |r| == |s| || |r| + |suffix| == |s|
  {
    if HasSuffix(s, suffix) then s[..|s|-|suffix|] else s
  }

  predicate Contains(s: string, part: string) {
    part <= s || (s != "" && Contains(s[1..], part))
  }

  lemma {:induction false} ContainsAt(s: string, part: string, k: nat)
    requires k <= |s| && part <= s[k..]
    ensures Contains(s, part)
  {
    if k > 0 {
      assert s[1..][k-1..] == s[k..];
      ContainsAt(s[1..], part, k - 1);
    }
  }

  lemma {:induction false} ContainsItsChars(s: string, part: string, c: char)
    requires Contains(s, part) && c in part
    ensures c in s
  {
    if !(part <= s) {
      ContainsItsChars(s[1..], part, c);
    }
  }

  lemma TrimIsShorter(s: string)
    ensures TrimSpace(s) != s ==> |TrimSpace(s)| < |s|
  {
    var l := TrimLeftSpace(s);
    if |l| == |s| {
      assert l == s;
    }
  }

  lemma TrimNothing(s: string)
    requires s == "" || (!IsSpace(s[0]) && !IsSpace(s[|s|-1]))
    ensures TrimSpace(s) == s
  {
  }

  /** White space is the space and the five control characters from tab to carriage return. */
  lemma SpaceTable(c: char)
    ensures IsSpace(c) <==> c as int == 32 || 9 <= c as int <= 13
  {
  }

  /** Letters are lowered one by one, and nothing else is. */
  lemma LetterTable(k: nat, c: char)
    requires k < 26
    ensures LowerChar("ABCDEFGHIJKLMNOPQRSTUVWXYZ"[k]) == "abcdefghijklmnopqrstuvwxyz"[k]
    ensures c !in "ABCDEFGHIJKLMNOPQRSTUVWXYZ" ==> LowerChar(c) == c
  {
    var upper := "ABCDEFGHIJKLMNOPQRSTUVWXYZ";
    assert upper[k] as int == 65 + k;
    if 'A' <= c <= 'Z' {
      assert upper[c as int - 65] == c;
    }
  }

  predicate AllBlank(s: string) {
    forall c :: c in s ==> IsSpace(c)
  }

  /** Trimming takes the white space off both ends, and that alone. */
  lemma TrimSplits(s: string) returns (left: string, right: string)
    ensures s == left + TrimSpace(s) + right && AllBlank(left) && AllBlank(right)
  {
    hide IsSpace;
    left := TrimsLeft(s);
    right := TrimsRight(TrimLeftSpace(s));
  }

  lemma TrimsLeft(s: string) returns (left: string)
    ensures s == left + TrimLeftSpace(s) && AllBlank(left)
  {
    hide TrimLeftSpace, AllBlank;
    left := s[..|s|-|TrimLeftSpace(s)|];
    BlankLeft(s);
  }

  lemma {:induction false} BlankLeft(s: string)
    ensures AllBlank(s[..|s|-|TrimLeftSpace(s)|])
  {
    hide IsSpace;
    if s != "" && IsSpace(s[0]) {
      BlankLeft(s[1..]);
      var k := |s| - |TrimLeftSpace(s)|;
      forall c | c in s[..k]
        ensures IsSpace(c)
      {
        assert s[..k] == [s[0]] + s[1..][..k-1];
        assert c == s[0] || c in s[1..][..k-1];
      }
    }
  }

  lemma {:induction false} TrimsRight(s: string) returns (right: string)
    ensures s == TrimRightSpace(s) + right && AllBlank(right)
  {
    hide IsSpace;
    right := "";
    if s != "" && IsSpace(s[|s|-1]) {
      var rest := TrimsRight(s[..|s|-1]);
      right := rest + [s[|s|-1]];
    }
  }

  lemma {:induction false} BlanksBefore(blanks: string, rest: string)
    requires AllBlank(blanks)
    ensures TrimLeftSpace(blanks + rest) == TrimLeftSpace(rest)
  {
    hide IsSpace;
    if blanks == "" {
      assert blanks + rest == rest;
    } else {
      assert (blanks + rest)[1..] == blanks[1..] + rest && blanks[0] in blanks;
      BlanksBefore(blanks[1..], rest);
    }
  }

  lemma {:induction false} BlanksAfter(rest: string, blanks: string)
    requires AllBlank(blanks)
    ensures TrimRightSpace(rest + blanks) == TrimRightSpace(rest)
  {
    hide IsSpace;
    var n := |blanks| - 1;
    if blanks == "" {
      assert rest + blanks == rest;
    } else {
      assert (rest + blanks)[..|rest| + n] == rest + blanks[..n] && blanks[n] in blanks;
      BlanksAfter(rest, blanks[..n]);
    }
  }

  /** And that is all there is to trimming. */
  lemma TrimsTo(left: string, body: string, right: string)
    requires AllBlank(left) && AllBlank(right)
    requires body == "" || (!IsSpace(body[0]) && !IsSpace(body[|body|-1]))
    ensures TrimSpace(left + body + right) == body
  {
    hide IsSpace;
    assert left + body + right == left + (body + right);
    BlanksBefore(left, body + right);
    if body == "" {
      BlanksBefore(right, "");
      assert body + right == right && right + "" == right;
    } else {
      BlanksAfter(body, right);
    }
  }

  lemma LowerOfThree(a: string, b: string, c: string)
    ensures ToLower(a + b + c) == ToLower(a) + ToLower(b) + ToLower(c)
  {
  }

  lemma LowerBlank(s: string)
    ensures AllBlank(s) ==> AllBlank(ToLower(s)) && ToLower(s) == s
  {
    if AllBlank(s) {
      assert forall k :: 0 <= k < |s| ==> s[k] in s;
    }
  }

  /** Lowering and trimming can change places. */
  lemma LowerTrims(s: string)
    ensures TrimSpace(ToLower(s)) == ToLower(TrimSpace(s))
  {
    hide TrimSpace, IsSpace;
    var left, right := TrimSplits(s);
    var body := TrimSpace(s);
    LowerOfThree(left, body, right);
    LowerBlank(left);
    LowerBlank(right);
    LowerEdges(body);
    TrimsTo(ToLower(left), ToLower(body), ToLower(right));
  }

  lemma LowerEdges(body: string)
    requires body == "" || (!IsSpace(body[0]) && !IsSpace(body[|body|-1]))
    ensures var low := ToLower(body); low == "" || (!IsSpace(low[0]) && !IsSpace(low[|low|-1]))
  {
  }

  /** A part without white space is inside the trimmed text if it is inside the text. */
  lemma ContainsTrimmed(left: string, body: string, right: string, part: string)
    requires AllBlank(left) && AllBlank(right) && IsWord(part)
    ensures Contains(left + body + right, part) <==> Contains(body, part)
  {
    hide IsSpace, Contains;
    var s := left + body + right;
    if Contains(s, part) {
      var k := ContainedAt(s, part);
      assert part[0] in part && part[|part|-1] in part;
      assert s[k] == part[0] && s[k + |part| - 1] == part[|part|-1];
      BlankOutside(left, body, right, k);
      BlankOutside(left, body, right, k + |part| - 1);
      assert s[k..k + |part|] == part && s[k..k + |part|] == body[k - |left|..k - |left| + |part|];
      ContainsAt(body, part, k - |left|);
    }
    if Contains(body, part) {
      var k := ContainedAt(body, part);
      assert s[|left| + k..][..|part|] == body[k..][..|part|];
      ContainsAt(s, part, |left| + k);
    }
  }

  lemma BlankOutside(left: string, body: string, right: string, k: nat)
    requires AllBlank(left) && AllBlank(right) && k < |left + body + right|
    ensures IsSpace((left + body + right)[k]) || |left| <= k < |left| + |body|
  {
    hide IsSpace;
    if k < |left| {
      assert (left + body + right)[k] == left[k] && left[k] in left;
    } else if k >= |left| + |body| {
      var j := k - |left| - |body|;
      assert (left + body + right)[k] == right[j] && right[j] in right;
    }
  }

  lemma {:induction false} ContainedAt(s: string, part: string) returns (k: nat)
    requires Contains(s, part)
    ensures k <= |s| && part <= s[k..]
  {
    if part <= s {
      k := 0;
    } else {
      k := ContainedAt(s[1..], part);
      assert s[1..][k..] == s[k+1..];
      k := k + 1;
    }
  }

  /** The first position of c, or -1. */
  function Index(s: string, c: char): (i: int)
    ensures -1 <= i < |s|
    ensures i == -1 <==> c !in s
    ensures i >= 0 ==> s[i] == c && c !in s[..i]
  {
    if s == "" then -1
    else if s[0] == c then 0
    else
      var rest := Index(s[1..], c);
      assert s == [s[0]] + s[1..];
      if rest < 0 then -1
      else assert s[..rest+1] == [s[0]] + s[1..][..rest]; rest + 1
  }

  lemma {:induction false} IndexIs(s: string, c: char, k: nat)
    requires k < |s| && s[k] == c && c !in s[..k]
    ensures Index(s, c) == k
  {
    if k > 0 {
      assert s[0] in s[..k];
      assert s[1..][..k-1] == s[..k][1..];
      IndexIs(s[1..], c, k - 1);
    }
  }

  /** strings.Split on a one-character separator. */
  function Split(s: string, c: char): (parts: seq<string>)
    ensures parts != []
    ensures forall part :: part in parts ==> c !in part
  {
    if s == "" then [""]
    else
      var rest := Split(s[1..], c);
      if s[0] == c then [""] + rest
      else
        assert rest[0] in rest;
        [[s[0]] + rest[0]] + rest[1..]
  }

  function Join(parts: seq<string>, c: char): string
    requires parts != []
  {
    if |parts| == 1 then parts[0] else parts[0] + [c] + Join(parts[1..], c)
  }

  lemma {:induction false} JoinSplit(s: string, c: char)
    ensures Join(Split(s, c), c) == s
  {
    if s != "" {
      JoinSplit(s[1..], c);
      var rest := Split(s[1..], c);
      if s[0] == c {
        assert ([""] + rest)[1..] == rest;
      } else {
        assert ([[s[0]] + rest[0]] + rest[1..])[1..] == rest[1..];
        if |rest| > 1 {
          assert [s[0]] + rest[0] + [c] + Join(rest[1..], c) == [s[0]] + (rest[0] + [c] + Join(rest[1..], c));
        }
      }
    }
  }

  lemma {:induction false} SplitNone(s: string, c: char)
    requires c !in s
    ensures Split(s, c) == [s]
  {
    if s != "" {
      SplitNone(s[1..], c);
      assert [s[0]] + s[1..] == s;
    }
  }

  lemma {:induction false} SplitFirst(s: string, c: char, rest: string)
    requires c !in s
    ensures Split(s + [c] + rest, c) == [s] + Split(rest, c)
  {
    if s == "" {
      assert s + [c] + rest == [c] + rest;
      assert ([c] + rest)[1..] == rest;
    } else {
      assert (s + [c] + rest)[1..] == s[1..] + [c] + rest;
      SplitFirst(s[1..], c, rest);
      assert [s[0]] + s[1..] == s;
      var tail := Split(s[1..] + [c] + rest, c);
      assert tail[0] == s[1..] && tail[1..] == Split(rest, c);
    }
  }

  lemma {:induction false} SplitLast(s: string, c: char, last: string)
    requires c !in last
    ensures Split(s + [c] + last, c) == Split(s, c) + [last]
  {
    if s == "" {
      SplitNone(last, c);
      assert s + [c] + last == [c] + last;
      assert ([c] + last)[1..] == last;
    } else {
      SplitLast(s[1..], c, last);
      assert (s + [c] + last)[1..] == s[1..] + [c] + last;
    }
  }

  lemma {:induction false} TrimLeftKeepsParts(s: string, c: char)
    requires !IsSpace(c)
    ensures |Split(TrimLeftSpace(s), c)| == |Split(s, c)|
  {
    if s != "" && IsSpace(s[0]) {
      TrimLeftKeepsParts(s[1..], c);
    }
  }

  lemma {:induction false} DropLastKeepsParts(s: string, c: char)
    requires s != "" && s[|s|-1] != c
    ensures |Split(s[..|s|-1], c)| == |Split(s, c)|
  {
    if |s| == 1 {
      assert s[1..] == "" && s[..0] == "";
    } else {
      assert s[1..][..|s|-2] == s[..|s|-1][1..];
      DropLastKeepsParts(s[1..], c);
    }
  }

  lemma {:induction false} TrimRightKeepsParts(s: string, c: char)
    requires !IsSpace(c)
    ensures |Split(TrimRightSpace(s), c)| == |Split(s, c)|
  {
    if s != "" && IsSpace(s[|s|-1]) {
      DropLastKeepsParts(s, c);
      TrimRightKeepsParts(s[..|s|-1], c);
    }
  }

  lemma {:induction false} SplitJoin(parts: seq<string>, c: char)
    requires parts != []
    requires forall part :: part in parts ==> c !in part
    ensures Split(Join(parts, c), c) == parts
  {
    if |parts| == 1 {
      assert parts[0] in parts;
      SplitNone(parts[0], c);
    } else {
      assert parts[0] in parts;
      SplitJoin(parts[1..], c);
      SplitFirst(parts[0], c, Join(parts[1..], c));
    }
  }

  /** strings.ReplaceAll(s, "\r\n", "\n"). */
  function ReplaceCRLF(s: string): (r: string)
    ensures |r| <= |s|
  {
    if |s| < 2 then s
    else if s[..2] == "\r\n" then "\n" + ReplaceCRLF(s[2..])
    else s[..1] + ReplaceCRLF(s[1..])
  }

  /** The lines, each followed by a line end. */
  function Terminated(lines: seq<string>): string {
    if lines == [] then "" else lines[0] + "\n" + Terminated(lines[1..])
  }

  /** The lines, each followed by the line end of another system. */
  function CrLf(lines: seq<string>): string {
    if lines == [] then "" else lines[0] + "\r\n" + CrLf(lines[1..])
  }

  lemma OtherCRLF(s: string)
    requires s != "" && s[0] != '\r'
    ensures ReplaceCRLF(s) == [s[0]] + ReplaceCRLF(s[1..])
  {
    if |s| == 1 {
      assert s == [s[0]] && s[1..] == "";
    } else {
      assert s[..2][0] == s[0] && s[..1] == [s[0]];
    }
  }

  lemma FirstCRLF(rest: string)
    ensures ReplaceCRLF("\r\n" + rest) == "\n" + ReplaceCRLF(rest)
  {
    var s := "\r\n" + rest;
    assert s[..2] == "\r\n" && s[2..] == rest;
  }

  lemma {:induction false} NextCRLF(line: string, rest: string)
    requires '\r' !in line
    ensures ReplaceCRLF(line + "\r\n" + rest) == line + "\n" + ReplaceCRLF(rest)
    ensures ReplaceCRLF(line + "\n" + rest) == line + "\n" + ReplaceCRLF(rest)
  {
    hide ReplaceCRLF;
    var s, t := line + "\r\n" + rest, line + "\n" + rest;
    OtherCRLF(t);
    if line == "" {
      FirstCRLF(rest);
      assert s == "\r\n" + rest;
      assert t[1..] == rest && [t[0]] == "\n";
    } else {
      OtherCRLF(s);
      assert s[1..] == line[1..] + "\r\n" + rest && t[1..] == line[1..] + "\n" + rest;
      assert line == [line[0]] + line[1..];
      NextCRLF(line[1..], rest);
    }
  }

  /** Both kinds of line ends become the same. */
  lemma {:induction false} LineEndsAreOne(lines: seq<string>)
    requires forall line :: line in lines ==> '\r' !in line
    ensures ReplaceCRLF(CrLf(lines)) == ReplaceCRLF(Terminated(lines)) == Terminated(lines)
  {
    hide ReplaceCRLF;
    if lines == [] {
      NothingToReplace();
    } else {
      NextCRLF(lines[0], CrLf(lines[1..]));
      NextCRLF(lines[0], Terminated(lines[1..]));
      LineEndsAreOne(lines[1..]);
    }
  }

  lemma NothingToReplace()
    ensures ReplaceCRLF("") == ""
  {
  }

  lemma {:induction false} TerminatedAppend(lines: seq<string>, line: string)
    ensures Terminated(lines + [line]) == Terminated(lines) + line + "\n"
  {
    if lines == [] {
      assert lines + [line] == [line];
    } else {
      assert (lines + [line])[1..] == lines[1..] + [line];
      TerminatedAppend(lines[1..], line);
    }
  }

  lemma {:induction false} TerminatedIsJoin(lines: seq<string>)
    requires lines != []
    ensures Terminated(lines) == Join(lines, '\n') + "\n"
  {
    if |lines| > 1 {
      TerminatedIsJoin(lines[1..]);
    }
  }

  lemma TrimLineEnd(header: string, body: string)
    requires EndsPlain(body)
    ensures TrimRight(header + (body + "\n"), {'\n'}) == header + body
  {
    var all := header + (body + "\n");
    assert all[..|all|-1] == header + body;
  }

  /** Trimming the end of the printed text removes its last line end and nothing else, and the
      lines are read back by cutting the rest at the line ends. */
  lemma PrintedLines(header: string, lines: seq<string>)
    requires lines != [] && lines[|lines|-1] != ""
    requires forall line :: line in lines ==> '\n' !in line
    ensures var out := TrimRight(header + Terminated(lines), {'\n'});
            header <= out && Split(out[|header|..], '\n') == lines
  {
    hide *;
    TerminatedIsJoin(lines);
    JoinEndsPlain(lines);
    TrimLineEnd(header, Join(lines, '\n'));
    SplitJoin(lines, '\n');
    AfterHeader(header, Join(lines, '\n'));
  }

  lemma {:induction false} JoinEndsPlain(lines: seq<string>)
    requires lines != [] && lines[|lines|-1] != ""
    requires forall line :: line in lines ==> '\n' !in line
    ensures EndsPlain(Join(lines, '\n'))
  {
    var last := lines[|lines|-1];
    assert last in lines && last[|last|-1] in last;
    if |lines| > 1 {
      JoinEndsPlain(lines[1..]);
    }
  }

  predicate EndsPlain(body: string) {
    body != "" && body[|body|-1] != '\n'
  }

  lemma AfterHeader(header: string, body: string)
    ensures header <= header + body && (header + body)[|header|..] == body
  {
  }

  /* ---- words and numbers ---- */

  predicate IsWord(w: string) {
    w != "" && forall c :: c in w ==> !IsSpace(c)
  }

  function FirstWord(s: string): (w: string)
    ensures w <= s
    ensures forall c :: c in w ==> !IsSpace(c)
    ensures s != "" && !IsSpace(s[0]) ==> w != ""
  {
    if s == "" || IsSpace(s[0]) then "" else [s[0]] + FirstWord(s[1..])
  }

  /** strings.Fields */
  function Fields(s: string): (words: seq<string>)
    decreases |s|
  {
    var t := TrimLeftSpace(s);
    if t == "" then []
    else
      var w := FirstWord(t);
      [w] + Fields(t[|w|..])
  }

  lemma {:induction false} FirstWordIs(w: string, rest: string)
    requires IsWord(w) && (rest == "" || IsSpace(rest[0]))
    ensures FirstWord(w + rest) == w
  {
    assert (w + rest)[1..] == w[1..] + rest;
    if |w| > 1 {
      FirstWordIs(w[1..], rest);
    } else {
      assert w + rest == [w[0]] + rest && w[1..] + rest == rest;
    }
    assert w == [w[0]] + w[1..];
  }

  lemma FieldsNext(w: string, rest: string)
    requires IsWord(w)
    ensures Fields(w) == [w]
    ensures Fields(w + " " + rest) == [w] + Fields(rest)
  {
    assert w[0] in w;
    assert w + "" == w;
    FirstWordIs(w, "");
    var s := w + " " + rest;
    assert s == w + (" " + rest);
    FirstWordIs(w, " " + rest);
    assert TrimLeftSpace(s) == s && s[|w|..] == " " + rest;
    assert (" " + rest)[1..] == rest;
    assert TrimLeftSpace(" " + rest) == TrimLeftSpace(rest);
    assert Fields(" " + rest) == Fields(rest);
    assert TrimLeftSpace(w) == w && w[|w|..] == "";
    assert Fields("") == [];
  }

  predicate IsDigit(c: char) { '0' <= c <= '9' }

  function DigitChar(d: nat): (c: char)
    requires d < 10
    ensures IsDigit(c) && c as int - '0' as int == d
  {
    ('0' as int + d) as char
  }

  function Digits(n: nat): (s: string)
    ensures s != "" && forall c :: c in s ==> IsDigit(c)
  {
    if n < 10 then [DigitChar(n)] else Digits(n / 10) + [DigitChar(n % 10)]
  }

  /** strconv.Itoa */
  function Itoa(n: int): string {
    if n < 0 then "-" + Digits(-n) else Digits(n)
  }

  function DigitsValue(s: string): int
  {
    if s == "" then 0 else 10 * DigitsValue(s[..|s|-1]) + (s[|s|-1] as int - '0' as int)
  }

  datatype Parsed = Bad | Int(n: int)

  const MAX_INT64 := 0x7fff_ffff_ffff_ffff

  /** strconv.Atoi: an optional sign, then digits only, within 64 bits. */
  function Atoi(s: string): (r: Parsed)
    ensures r.Int? ==> -0x8000_0000_0000_0000 <= r.n < 0x8000_0000_0000_0000
  {
    var digits := if s != "" && s[0] in {'+', '-'} then s[1..] else s;
    if digits == "" || exists c :: c in digits && !IsDigit(c) then Bad
    else
      var n: int := if s[0] == '-' then -DigitsValue(digits) else DigitsValue(digits);
      if -MAX_INT64 - 1 <= n <= MAX_INT64 then Int(n) else Bad
  }

  lemma {:induction false} DigitsValueIs(n: nat)
    ensures DigitsValue(Digits(n)) == n
  {
    if n >= 10 {
      DigitsValueIs(n / 10);
      assert Digits(n)[..|Digits(n)|-1] == Digits(n / 10);
    } else {
      assert Digits(n)[..0] == "";
    }
  }

  lemma AtoiItoa(n: int)
    requires -MAX_INT64 - 1 <= n <= MAX_INT64
    ensures Atoi(Itoa(n)) == Int(n)
    ensures IsWord(Itoa(n))
  {
    hide Digits, DigitsValue;
    var d := Digits(if n < 0 then -n else n);
    DigitsValueIs(if n < 0 then -n else n);
    assert d[0] in d;
    assert ("-" + d)[1..] == d;
  }

  /** A plus sign is read too, but not written; and what is written has no zero in front. */
  lemma ItoaForm(n: nat)
    requires n <= MAX_INT64
    ensures Atoi("+" + Itoa(n)) == Int(n)
    ensures forall c :: c in Itoa(n) ==> '0' <= c <= '9'
    ensures Itoa(n)[0] == '0' <==> n == 0
    ensures n > 0 ==> Itoa(-(n as int)) == "-" + Itoa(n)
  {
    hide Digits, DigitsValue;
    DigitsValueIs(n);
    assert ("+" + Digits(n))[1..] == Digits(n);
    NoLeadingZero(n);
  }

  lemma {:induction false} NoLeadingZero(n: nat)
    ensures Digits(n)[0] == '0' <==> n == 0
  {
    if n >= 10 {
      NoLeadingZero(n / 10);
      assert Digits(n)[0] == Digits(n / 10)[0];
    }
  }
}
