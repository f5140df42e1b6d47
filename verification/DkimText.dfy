/** The text of a DKIM record as an administrator pastes it (internal/admin/sql_store.go:2826-2837):
    a key file in zone form, with its quoted pieces between parentheses over several lines, or the
    bare text. */
module DkimText {
  import opened Text

  function WithoutChars(s: string, drop: set<char>): string {
    if s == "" then "" else (if s[0] in drop then "" else [s[0]]) + WithoutChars(s[1..], drop)
  }

  function LinesToSpaces(s: string): string {
    seq(|s|, k requires 0 <= k < |s| => if s[k] == '\n' then ' ' else s[k])
  }

  function Flat(value: string): string {
    LinesToSpaces(WithoutChars(value, {'\r'}))
  }

  function LastIndex(s: string, ch: char): (i: int)
    ensures -1 <= i < |s|
  {
    if s == "" then -1 else if s[|s|-1] == ch then |s| - 1 else LastIndex(s[..|s|-1], ch)
  }

  function JoinWords(words: seq<string>): string {
    if words == [] then "" else Join(words, ' ')
  }

  /** The text between the outer parentheses of the zone file form, without quotes or line ends. */
  function NormalizeDkimTxt(value: string): string {
    var flat := Flat(value);
    var start, end := Index(flat, '('), LastIndex(flat, ')');
    var inner := if start >= 0 && end > start then flat[start+1..end] else flat;
    JoinWords(Fields(WithoutChars(inner, {'"'})))
  }

  /* ---- what is published ---- */

  /** What may stand between the pieces of the text: blanks, line ends and quotes. */
  predicate IsFiller(s: string) {
    forall c :: c in s ==> IsSpace(c) || c == '"'
  }

  predicate IsPiece(s: string) {
    IsWord(s) && '"' !in s && '(' !in s && ')' !in s
  }

  /** A filler that keeps the pieces at its sides apart. */
  predicate Parts(s: string) {
    IsFiller(s) && exists c :: c in s && c != '\r' && c != '"'
  }

  /** The pieces, each with the filler before it, and a last filler. */
  function Scattered(fillers: seq<string>, pieces: seq<string>, last: string): string
    requires |fillers| == |pieces|
  {
    if pieces == [] then last
    else fillers[0] + (pieces[0] + Scattered(fillers[1..], pieces[1..], last))
  }

  ghost predicate IsScattered(fillers: seq<string>, pieces: seq<string>, last: string) {
    && |fillers| == |pieces|
    && (forall p :: p in pieces ==> IsPiece(p))
    && (forall k :: 0 <= k < |fillers| ==> IsFiller(fillers[k]))
    && (forall k :: 1 <= k < |fillers| ==> Parts(fillers[k]))
    && IsFiller(last)
  }

  /** Pieces between an opening and a closing parenthesis are published with one blank between
      them, whatever stands before the first opening and behind the last closing one. */
  lemma ZoneFormIsJoined(head: string, fillers: seq<string>, pieces: seq<string>, last: string, tail: string)
    requires '(' !in head && ')' !in tail && IsScattered(fillers, pieces, last)
    ensures NormalizeDkimTxt(head + "(" + Scattered(fillers, pieces, last) + ")" + tail) == if pieces == [] then "" else Join(pieces, ' ')
  {
    hide Scattered, NormalizeDkimTxt, Fields, Join;
    var body := Scattered(fillers, pieces, last);
    Between(head, body, tail);
    ScatteredWords(fillers, pieces, last);
  }

  /** Pieces without any parenthesis around them are published the same way. */
  lemma BareTextIsJoined(fillers: seq<string>, pieces: seq<string>, last: string)
    requires IsScattered(fillers, pieces, last)
    ensures NormalizeDkimTxt(Scattered(fillers, pieces, last)) == if pieces == [] then "" else Join(pieces, ' ')
  {
    hide Scattered, Fields, Join, Flat, WithoutChars;
    var s := Scattered(fillers, pieces, last);
    ScatteredHasNo(fillers, pieces, last);
    FlatKeeps(s, '(');
    assert Index(Flat(s), '(') == -1;
    ScatteredWords(fillers, pieces, last);
  }

  lemma {:induction false} WithoutIs(s: string, drop: set<char>)
    ensures forall c :: c in WithoutChars(s, drop) <==> c in s && c !in drop
    ensures (forall c :: c in s ==> c !in drop) ==> WithoutChars(s, drop) == s
  {
    if s != "" {
      assert s == [s[0]] + s[1..];
      WithoutIs(s[1..], drop);
    }
  }

  lemma {:induction false} WithoutBoth(s: string, t: string, drop: set<char>)
    ensures WithoutChars(s + t, drop) == WithoutChars(s, drop) + WithoutChars(t, drop)
  {
    if s == "" {
      assert s + t == t;
    } else {
      assert (s + t)[1..] == s[1..] + t;
      WithoutBoth(s[1..], t, drop);
    }
  }

  lemma FlatKeeps(s: string, ch: char)
    requires !IsSpace(ch)
    ensures ch in Flat(s) <==> ch in s
  {
    WithoutIs(s, {'\r'});
    var t := WithoutChars(s, {'\r'});
    if ch in t {
      var k :| 0 <= k < |t| && t[k] == ch;
      assert LinesToSpaces(t)[k] == ch;
    }
  }

  lemma FlatBoth(s: string, t: string)
    ensures Flat(s + t) == Flat(s) + Flat(t)
  {
    WithoutBoth(s, t, {'\r'});
  }

  lemma {:induction false} LastIndexIs(s: string, ch: char, t: string)
    requires ch !in t
    ensures LastIndex(s + [ch] + t, ch) == |s|
  {
    var all := s + [ch] + t;
    if t != "" {
      assert all[..|all|-1] == s + [ch] + t[..|t|-1] && all[|all|-1] == t[|t|-1];
      LastIndexIs(s, ch, t[..|t|-1]);
    }
  }

  lemma Between(head: string, body: string, tail: string)
    requires '(' !in head && ')' !in tail
    ensures NormalizeDkimTxt(head + "(" + body + ")" + tail) == JoinWords(Fields(WithoutChars(Flat(body), {'"'})))
  {
    hide Fields, JoinWords, Flat, WithoutChars;
    var value := head + "(" + body + ")" + tail;
    var h, b, t := Flat(head), Flat(body), Flat(tail);
    FlatBoth(head + "(" + body + ")", tail);
    FlatBoth(head + "(" + body, ")");
    FlatBoth(head + "(", body);
    FlatBoth(head, "(");
    Parentheses();
    FlatKeeps(head, '(');
    FlatKeeps(tail, ')');
    var flat := Flat(value);
    assert flat == h + "(" + b + ")" + t;
    LastIndexIs(h + "(" + b, ')', t);
    assert flat[|h|] == '(' && flat[..|h|] == h;
    IndexIs(flat, '(', |h|);
    assert flat[|h|+1..|h|+1+|b|] == b;
  }

  lemma Parentheses()
    ensures Flat("(") == "(" && Flat(")") == ")"
  {
    WithoutIs("(", {'\r'});
    WithoutIs(")", {'\r'});
  }

  /** The text without carriage returns and quotes, line feeds taken for blanks. */
  function Cleaned(s: string): string {
    WithoutChars(Flat(s), {'"'})
  }

  lemma CleanedBoth(s: string, t: string)
    ensures Cleaned(s + t) == Cleaned(s) + Cleaned(t)
  {
    FlatBoth(s, t);
    WithoutBoth(Flat(s), Flat(t), {'"'});
  }

  lemma CleanedPiece(p: string)
    requires IsPiece(p)
    ensures Cleaned(p) == p
  {
    WithoutIs(p, {'\r'});
    forall k | 0 <= k < |p| ensures p[k] != '\n' {
      assert p[k] in p && !IsSpace(p[k]);
    }
    assert LinesToSpaces(p) == p;
    WithoutIs(p, {'"'});
  }

  lemma CleanedFiller(f: string)
    requires IsFiller(f)
    ensures AllBlank(Cleaned(f))
    ensures Parts(f) ==> Cleaned(f) != ""
  {
    WithoutIs(f, {'\r'});
    var t := WithoutChars(f, {'\r'});
    WithoutIs(Flat(f), {'"'});
    if Parts(f) {
      var c :| c in f && c != '\r' && c != '"';
      var k :| 0 <= k < |t| && t[k] == c;
      assert Flat(f)[k] in Flat(f) && Flat(f)[k] != '"';
      assert Flat(f)[k] in Cleaned(f);
    }
  }

  lemma FieldsAfterBlanks(blanks: string, rest: string)
    requires AllBlank(blanks)
    ensures Fields(blanks + rest) == Fields(rest)
  {
    BlanksBefore(blanks, rest);
  }

  lemma FieldsOfPiece(w: string, rest: string)
    requires IsWord(w) && (rest == "" || IsSpace(rest[0]))
    ensures Fields(w + rest) == [w] + Fields(rest)
  {
    FirstWordIs(w, rest);
    assert w[0] in w;
    assert (w + rest)[|w|..] == rest;
    assert TrimLeftSpace(w + rest) == w + rest;
  }

  lemma {:induction false} ScatteredWords(fillers: seq<string>, pieces: seq<string>, last: string)
    requires IsScattered(fillers, pieces, last)
    ensures Fields(Cleaned(Scattered(fillers, pieces, last))) == pieces
    ensures var s := Cleaned(Scattered(fillers, pieces, last));
            (pieces != [] ==> Parts(fillers[0])) ==> s == "" || IsSpace(s[0])
  {
    hide Cleaned, Fields, IsFiller, Parts, IsPiece;
    if pieces == [] {
      CleanedFiller(last);
      FieldsAfterBlanks(Cleaned(last), "");
      NoFields();
      assert Cleaned(last) + "" == Cleaned(last);
    } else {
      var rest := Scattered(fillers[1..], pieces[1..], last);
      assert pieces[0] in pieces;
      ScatteredWords(fillers[1..], pieces[1..], last);
      CleanedBoth(fillers[0], pieces[0] + rest);
      CleanedBoth(pieces[0], rest);
      CleanedFiller(fillers[0]);
      CleanedPiece(pieces[0]);
      PieceIsWord(pieces[0]);
      FieldsOfPiece(pieces[0], Cleaned(rest));
      FieldsAfterBlanks(Cleaned(fillers[0]), pieces[0] + Cleaned(rest));
    }
  }

  lemma PieceIsWord(p: string)
    requires IsPiece(p)
    ensures IsWord(p)
  {
  }

  lemma NoFields()
    ensures Fields("") == []
  {
  }

  lemma {:induction false} ScatteredHasNo(fillers: seq<string>, pieces: seq<string>, last: string)
    requires IsScattered(fillers, pieces, last)
    ensures '(' !in Scattered(fillers, pieces, last)
  {
    if pieces != [] {
      assert pieces[0] in pieces;
      ScatteredHasNo(fillers[1..], pieces[1..], last);
    }
  }
}
