/** What the spray alert comes to for the keys that logins really have: the key that a handler builds
    (davLoginKeys in internal/groupware/handlers.go) is read back by the limiter
    (parsePairLimiterKey and AccountEmailFromLimiterKey in internal/session/sql_limiter.go), and a client
    is reported for the number of addresses it fails on. */
module AuthSpray {
  import opened Clock
  import opened Options
  import opened Text
  import opened Penalties
  import opened LimiterHistory
  import opened LoginLimiters
  import opened LoginGate

  /** A part of a key that is not changed on the way: lower case, without white space around it, and
      without a bar. */
  predicate Shaped(part: string) {
    part != "" && TrimSpace(part) == part && ToLower(part) == part && '|' !in part
  }

  /** And one that is not refused: no control character, and not too long. */
  predicate Printable(part: string) {
    |part| <= 320 && forall c :: c in part ==> 32 <= c as int && c as int != 127
  }

  predicate PlainPart(part: string) {
    Shaped(part) && Printable(part)
  }

  lemma EdgesAreNoBlanks(part: string)
    requires part != "" && TrimSpace(part) == part
    ensures !IsSpace(part[0]) && !IsSpace(part[|part|-1])
  {
    hide IsSpace, TrimLeftSpace, TrimRightSpace;
  }

  /** A key that begins and ends with plain parts is neither trimmed nor lowered. */
  lemma KeyStays(first: string, middle: string, last: string)
    requires Shaped(first) && Shaped(last) && ToLower(middle) == middle
    ensures ToLower(TrimSpace(first + middle + last)) == first + middle + last
  {
    hide IsSpace, TrimSpace, ToLower;
    EdgesAreNoBlanks(first);
    EdgesAreNoBlanks(last);
    var key := first + middle + last;
    assert key[0] == first[0] && key[|key|-1] == last[|last|-1];
    TrimNothing(key);
    LowerOfThree(first, middle, last);
  }

  /** The bars of a key cut it into its parts. */
  lemma KeyParts(a: string, b: string, c: string, d: string)
    requires '|' !in a && '|' !in b && '|' !in c && '|' !in d
    ensures Split(a + "|" + b + "|" + c, '|') == [a, b, c]
    ensures Split(a + "|" + b + "|" + c + "|" + d, '|') == [a, b, c, d]
  {
    hide Split;
    assert a + "|" + b + "|" + c == a + ['|'] + (b + ['|'] + c);
    assert a + "|" + b + "|" + c + "|" + d == a + ['|'] + (b + ['|'] + (c + ['|'] + d));
    SplitNone(c, '|');
    SplitNone(d, '|');
    SplitFirst(c, '|', d);
    SplitFirst(b, '|', c);
    SplitFirst(b, '|', c + ['|'] + d);
    SplitFirst(a, '|', b + ['|'] + c);
    SplitFirst(a, '|', b + ['|'] + (c + ['|'] + d));
  }

  lemma Labels(subject: string)
    ensures ToLower("|pair|") == "|pair|" && ToLower("|account|") == "|account|" && ToLower("|ip|") == "|ip|"
    ensures '|' !in "pair" && '|' !in "account" && '|' !in "ip" && "ip" != "pair" && "account" != "pair" && "ip" != "account"
    ensures ToLower(subject) == subject ==> ToLower("|pair|" + subject + "|") == "|pair|" + subject + "|"
  {
    hide ToLower;
    LowerLiterals();
    LowerOfThree("|pair|", subject, "|");
  }

  lemma LowerLiterals()
    ensures ToLower("|pair|") == "|pair|" && ToLower("|account|") == "|account|" && ToLower("|ip|") == "|ip|" && ToLower("|") == "|"
  {
  }

  /** A text of four parts of which the second is "pair" is read as service, address and client, in these
      roles, in lower case and without the white space around each, exactly if something printable and not
      too long is left of all three. */
  lemma PairIsReadIff(a: string, b: string, c: string)
    requires '|' !in a && '|' !in b && '|' !in c
    ensures var service, subject, host := ToLower(TrimSpace(a)), ToLower(TrimSpace(b)), ToLower(TrimSpace(c));
            ParsePair(a + "|pair|" + b + "|" + c) ==
              if service != "" && subject != "" && host != "" && Printable(service) && Printable(subject) && Printable(host)
              then Some(Pair(service, subject, host)) else None
  {
    hide Split, ToLower, TrimSpace, TrimLeftSpace, TrimRightSpace;
    assert a + "|pair|" + b + "|" + c == a + ("|pair|" + b + "|") + c;
    PairParts(a, b, c);
    LowerTrims(TrimLeftSpace(a));
    LowerTrims(b);
    LowerTrims(TrimRightSpace(c));
    TrimTwice(a);
    TrimTwice(c);
  }

  lemma PairParts(a: string, b: string, c: string)
    requires '|' !in a && '|' !in b && '|' !in c
    ensures Split(ToLower(TrimSpace(a + ("|pair|" + b + "|") + c)), '|')
         == [ToLower(TrimLeftSpace(a)), "pair", ToLower(b), ToLower(TrimRightSpace(c))]
  {
    hide Split, ToLower, TrimSpace, TrimLeftSpace, TrimRightSpace, IsSpace;
    var first, last := TrimLeftSpace(a), TrimRightSpace(c);
    BarsStay(b);
    TrimOuter(a, "|pair|" + b + "|", c);
    LowerOfThree(first, "|pair|" + b + "|", last);
    LowerKeepsBars(first);
    LowerKeepsBars(b);
    LowerKeepsBars(last);
    FourParts(ToLower(first), ToLower(b), ToLower(last));
  }

  lemma BarsStay(b: string)
    ensures ToLower("|pair|" + b + "|") == "|pair|" + ToLower(b) + "|"
    ensures var s := "|pair|" + b + "|"; s != "" && !IsSpace(s[0]) && !IsSpace(s[|s|-1])
  {
    hide ToLower;
    LowerOfThree("|pair|", b, "|");
    LowerLiterals();
  }

  lemma FourParts(x: string, y: string, z: string)
    requires '|' !in x && '|' !in y && '|' !in z
    ensures Split(x + ("|pair|" + y + "|") + z, '|') == [x, "pair", y, z]
  {
    hide Split;
    assert x + ("|pair|" + y + "|") + z == x + "|" + "pair" + "|" + y + "|" + z;
    assert '|' !in "pair";
    KeyParts(x, "pair", y, z);
  }

  /** Only the outer ends of a key are trimmed. */
  lemma TrimOuter(a: string, middle: string, c: string)
    requires middle != "" && !IsSpace(middle[0]) && !IsSpace(middle[|middle|-1])
    ensures TrimSpace(a + middle + c) == TrimLeftSpace(a) + middle + TrimRightSpace(c)
  {
    hide IsSpace, TrimLeftSpace, TrimRightSpace, TrimSpace, AllBlank;
    var left := TrimsLeft(a);
    var right := TrimsRight(c);
    var first, last := TrimLeftSpace(a), TrimRightSpace(c);
    var body := first + middle + last;
    assert a + middle + c == left + body + right;
    assert body[0] == if first != "" then first[0] else middle[0];
    assert body[|body|-1] == if last != "" then last[|last|-1] else middle[|middle|-1];
    TrimsTo(left, body, right);
  }

  lemma LowerKeepsBars(s: string)
    ensures '|' !in s ==> '|' !in ToLower(s)
  {
  }

  lemma TrimTwice(s: string)
    ensures TrimSpace(TrimLeftSpace(s)) == TrimSpace(s) && TrimSpace(TrimRightSpace(s)) == TrimSpace(s)
  {
    hide IsSpace, TrimLeftSpace, TrimRightSpace, AllBlank;
    LeftStays(TrimLeftSpace(s));
    hide TrimSpace;
    var left, right := TrimSplits(s);
    BlanksAfter(left + TrimSpace(s), right);
    HalfTrimmed(left, TrimSpace(s));
  }

  lemma HalfTrimmed(left: string, body: string)
    requires AllBlank(left)
    requires body == "" || (!IsSpace(body[0]) && !IsSpace(body[|body|-1]))
    ensures TrimSpace(TrimRightSpace(left + body)) == body
  {
    hide IsSpace, TrimLeftSpace, TrimRightSpace, TrimSpace;
    if body == "" {
      assert left + body == left;
      NothingButBlanks(left);
    } else {
      RightStays(left + body);
      assert left + body + "" == left + body;
      TrimsTo(left, body, "");
    }
  }

  lemma LeftStays(s: string)
    requires s != "" ==> !IsSpace(s[0])
    ensures TrimLeftSpace(s) == s
  {
  }

  lemma RightStays(s: string)
    requires s != "" ==> !IsSpace(s[|s|-1])
    ensures TrimRightSpace(s) == s
  {
  }

  lemma NothingButBlanks(blanks: string)
    requires AllBlank(blanks)
    ensures TrimRightSpace(blanks) == "" && TrimSpace("") == ""
  {
    hide IsSpace;
    assert "" + blanks == blanks;
    BlanksAfter("", blanks);
  }

  /** No other key of a login is read as a pair. */
  lemma PairKeyIsRead(service: string, subject: string, host: string)
    requires PlainPart(service) && PlainPart(subject) && PlainPart(host)
    ensures ParsePair(LoginKeys(service, subject, host)[2]) == Some(Pair(service, subject, host))
    ensures ParsePair(LoginKeys(service, subject, host)[0]) == None && ParsePair(LoginKeys(service, subject, host)[1]) == None
  {
    hide Split, ToLower, TrimSpace, Printable, SafePart;
    var keys := LoginKeys(service, subject, host);
    assert keys[2] == service + "|pair|" + subject + "|" + host;
    PairIsReadIff(service, subject, host);
    Labels(subject);
    assert keys[0] == service + "|ip|" + host == service + "|" + "ip" + "|" + host;
    assert keys[1] == service + "|account|" + subject == service + "|" + "account" + "|" + subject;
    KeyStays(service, "|ip|", host);
    KeyStays(service, "|account|", subject);
    KeyParts(service, "ip", host, "");
    KeyParts(service, "account", subject, "");
  }

  /** A text of three parts of which the second is "account" names the address in the third, in lower
      case and without the white space around it. */
  lemma AccountIsRead(a: string, c: string)
    requires '|' !in a && '|' !in c
    ensures AccountEmail(a + "|account|" + c) == AddressIn(ToLower(TrimSpace(c)))
  {
    hide Split, ToLower, TrimSpace, TrimLeftSpace, TrimRightSpace, AddressIn;
    var first, last := TrimLeftSpace(a), TrimRightSpace(c);
    var x, z := ToLower(first), ToLower(last);
    TrimOuter(a, "|account|", c);
    LowerOfThree(first, "|account|", last);
    Labels("");
    assert x + "|account|" + z == x + "|" + "account" + "|" + z;
    LowerKeepsBars(first);
    LowerKeepsBars(last);
    KeyParts(x, "account", z, "");
    LowerTrims(last);
    TrimTwice(c);
  }

  /** A text is an address if it has something before its first @ sign, and behind it a dot and no
      other @ sign, and none of five control characters and blanks anywhere. */
  lemma AddressCases(text: string)
    ensures AddressIn(text) ==
              var at := Index(text, '@');
              if || at <= 0 || '@' in text[at+1..] || '.' !in text[at+1..]
                 || exists c :: c in text && (c as int == 0 || c as int == 9 || c as int == 10 || c as int == 13 || c as int == 32)
              then "" else text
  {
    hide Index;
  }

  lemma OnlyBlanks(part: string)
    requires Printable(part)
    ensures (exists c :: c in part && (c as int == 0 || c as int == 9 || c as int == 10 || c as int == 13 || c as int == 32))
            <==> ' ' in part
  {
    assert ' ' as int == 32;
  }

  lemma OtherKeysHaveNoAccount(service: string, subject: string, host: string)
    requires PlainPart(service) && PlainPart(subject) && PlainPart(host)
    ensures AccountEmail(LoginKeys(service, subject, host)[0]) == "" && AccountEmail(LoginKeys(service, subject, host)[2]) == ""
  {
    hide Split, ToLower, TrimSpace, Index;
    var keys := LoginKeys(service, subject, host);
    Labels(subject);
    assert keys[0] == service + "|ip|" + host == service + "|" + "ip" + "|" + host;
    assert keys[2] == service + ("|pair|" + subject + "|") + host == service + "|" + "pair" + "|" + subject + "|" + host;
    KeyStays(service, "|ip|", host);
    KeyStays(service, "|pair|" + subject + "|", host);
    KeyParts(service, "ip", host, "");
    KeyParts(service, "pair", subject, host);
  }

  /** The account key of a login names its address: something, an @ sign, and something with a dot, with
      no other @ sign and no blank.  Its other keys name none, and no other text is taken for one. */
  lemma AccountKeyIsRead(service: string, subject: string, host: string)
    requires PlainPart(service) && PlainPart(subject) && PlainPart(host)
    ensures var keys, at := LoginKeys(service, subject, host), Index(subject, '@');
            && AccountEmail(keys[0]) == "" && AccountEmail(keys[2]) == ""
            && AccountEmail(keys[1]) == if at > 0 && '@' !in subject[at+1..] && '.' in subject[at+1..] && ' ' !in subject
                                        then subject else ""
  {
    hide AccountEmail, AddressIn, Index, Shaped, Printable;
    OtherKeysHaveNoAccount(service, subject, host);
    ShapedIs(service);
    ShapedIs(subject);
    AccountIsRead(service, subject);
    OnlyBlanks(subject);
    AddressCases(subject);
  }

  lemma ShapedIs(part: string)
    requires Shaped(part)
    ensures ToLower(TrimSpace(part)) == part && '|' !in part && part != ""
  {
    hide ToLower, TrimSpace;
  }

  /* ---- a minute of failed logins ---- */

  datatype Try = Try(subject: string, host: string, at: Instant)

  predicate HaveSubjects(tries: seq<Try>) {
    forall t :: t in tries ==> t.subject != ""
  }

  ghost predicate OneMinute(service: string, tries: seq<Try>) {
    && PlainPart(service) && HaveSubjects(tries)
    && (forall t :: t in tries ==> PlainPart(t.subject) && PlainPart(t.host) && ZERO < t.at)
    && (forall i, j :: 0 <= i < j < |tries| ==> tries[i].at <= tries[j].at)
    && forall i, j :: 0 <= i < j < |tries| ==> tries[j].at - tries[i].at <= 60 * 1_000_000_000
  }

  lemma MinuteHasSubjects(service: string, tries: seq<Try>)
    requires OneMinute(service, tries)
    ensures HaveSubjects(tries)
  {
  }

  /** FailAll for every login: its three keys, in order. */
  function Failing(service: string, tries: seq<Try>): (calls: seq<Call>)
    requires HaveSubjects(tries)
    ensures |calls| == 3 * |tries|
  {
    if tries == [] then []
    else
      var t := tries[|tries|-1];
      var keys := LoginKeys(service, t.subject, t.host);
      Failing(service, tries[..|tries|-1]) + [Fail(keys[0], t.at), Fail(keys[1], t.at), Fail(keys[2], t.at)]
  }

  lemma {:induction false} FailingAt(service: string, tries: seq<Try>, i: nat)
    requires OneMinute(service, tries) && i < 3 * |tries|
    ensures PlainPart(tries[i/3].subject) && PlainPart(tries[i/3].host) && ZERO < tries[i/3].at
    ensures |LoginKeys(service, tries[i/3].subject, tries[i/3].host)| == 3
    ensures Failing(service, tries)[i] == Fail(LoginKeys(service, tries[i/3].subject, tries[i/3].host)[i%3], tries[i/3].at)
  {
    hide LoginKeys, PlainPart;
    var n := |tries| - 1;
    assert tries[i/3] in tries;
    ThreeKeys(service, tries[i/3].subject, tries[i/3].host);
    if i < 3 * n {
      FailingAt(service, tries[..n], i);
      assert tries[..n][i/3] == tries[i/3];
    } else {
      assert i / 3 == n && i % 3 == i - 3 * n;
    }
  }

  lemma {:induction false} ToldFailures(calls: seq<Call>)
    requires forall i :: 0 <= i < |calls| ==> calls[i].Fail?
    ensures |Told(calls)| == |calls|
    ensures forall i :: 0 <= i < |calls| ==> Told(calls)[i] == Failed(calls[i].key, calls[i].at)
  {
    hide Told;
    if calls == [] {
      ToldNothing(calls);
    } else {
      var n := |calls| - 1;
      ToldFailures(calls[..n]);
      ToldNext(calls, n);
      assert calls[..n+1] == calls;
    }
  }

  /** The addresses that a client tried. */
  ghost function Tried(tries: seq<Try>, host: string): set<string> {
    set t | t in tries && t.host == host :: t.subject
  }

  lemma {:induction false} AllFail(service: string, tries: seq<Try>)
    requires HaveSubjects(tries)
    ensures forall i :: 0 <= i < |Failing(service, tries)| ==> Failing(service, tries)[i].Fail?
  {
    hide LoginKeys;
    if tries != [] {
      AllFail(service, tries[..|tries|-1]);
    }
  }

  /** What one event of such a minute is about. */
  lemma EventOf(service: string, tries: seq<Try>, e: Event) returns (i: nat)
    requires OneMinute(service, tries) && e in Told(Failing(service, tries))
    ensures i < |tries| && e.Failed? && e.at == tries[i].at
    ensures ParsePair(e.key) == None || ParsePair(e.key) == Some(Pair(service, tries[i].subject, tries[i].host))
  {
    hide Told, ParsePair, PlainPart, LoginKeys, Failing;
    var calls := Failing(service, tries);
    AllFail(service, tries);
    ToldFailures(calls);
    var k :| 0 <= k < |calls| && Told(calls)[k] == e;
    i := k / 3;
    FailingAt(service, tries, k);
    PairKeyIsRead(service, tries[i].subject, tries[i].host);
  }

  lemma ThreeKeys(service: string, subject: string, host: string)
    requires PlainPart(subject)
    ensures |LoginKeys(service, subject, host)| == 3
  {
  }

  /** In a minute of failures, a client has under attack exactly the addresses it tried. */
  lemma UnderAttackAreTried(service: string, tries: seq<Try>, host: string, now: Instant)
    requires OneMinute(service, tries) && forall t :: t in tries ==> t.at <= now <= t.at + 60 * 1_000_000_000
    ensures AccountsUnderAttack(Told(Failing(service, tries)), host, now) == Tried(tries, host)
  {
    hide Told, ParsePair, PlainPart, LoginKeys, LastEvent, Failing, OneMinute;
    MinuteHasSubjects(service, tries);
    var history := Told(Failing(service, tries));
    Minute();
    forall account | account in AccountsUnderAttack(history, host, now)
      ensures account in Tried(tries, host)
    {
      var e :| e in history && e.Failed? && ParsePair(e.key).Some? && ParsePair(e.key).value.client == host
               && ParsePair(e.key).value.account == account;
      var i := EventOf(service, tries, e);
      assert tries[i] in tries;
    }
    forall account | account in Tried(tries, host)
      ensures account in AccountsUnderAttack(history, host, now)
    {
      var t :| t in tries && t.host == host && t.subject == account;
      var key := TriedKey(service, tries, t);
      var e := LastEvent(history, key).value;
      var i := EventOf(service, tries, e);
      assert tries[i] in tries;
    }
  }

  lemma Minute()
    ensures SPRAY_WINDOW == 60 * 1_000_000_000 && SPRAY_THRESHOLD == 5 && SPRAY_COOLDOWN == 5 * 60 * 1_000_000_000
  {
  }

  lemma TriedKey(service: string, tries: seq<Try>, t: Try) returns (key: string)
    requires OneMinute(service, tries) && t in tries
    ensures ParsePair(key) == Some(Pair(service, t.subject, t.host))
    ensures LastEvent(Told(Failing(service, tries)), key).Some?
  {
    hide Told, ParsePair, PlainPart, LoginKeys, LastEvent, Failing;
    var i :| 0 <= i < |tries| && tries[i] == t;
    var calls := Failing(service, tries);
    AllFail(service, tries);
    ToldFailures(calls);
    assert (3 * i + 2) / 3 == i && (3 * i + 2) % 3 == 2;
    FailingAt(service, tries, 3 * i + 2);
    PairKeyIsRead(service, t.subject, t.host);
    key := LoginKeys(service, t.subject, t.host)[2];
    assert Told(calls)[3 * i + 2] == Failed(key, t.at) && Told(calls)[3 * i + 2] in Told(calls);
  }

  lemma PrefixOfMinute(service: string, tries: seq<Try>, n: nat)
    requires OneMinute(service, tries) && n <= |tries|
    ensures OneMinute(service, tries[..n])
    ensures Failing(service, tries[..n]) == Failing(service, tries)[..3*n]
    ensures forall host :: Tried(tries[..n], host) <= Tried(tries, host)
  {
    hide LoginKeys, PlainPart, Failing;
    assert forall t :: t in tries[..n] ==> t in tries;
    forall i | 0 <= i < 3 * n
      ensures Failing(service, tries[..n])[i] == Failing(service, tries)[i]
    {
      FailingAt(service, tries, i);
      FailingAt(service, tries[..n], i);
      assert tries[..n][i/3] == tries[i/3];
    }
  }

  /** The alerts only ever grow, at their end. */
  ghost predicate Growing(alerts: seq<seq<Alert>>) {
    forall i, j :: 0 <= i <= j < |alerts| ==> alerts[i] <= alerts[j]
  }

  ghost predicate Reported(alerts: seq<Alert>, host: string) {
    exists i :: 0 <= i < |alerts| && alerts[i].client == host
  }

  /** A call after which a new alert stands tells a failure of a pair key, whose client is reported for
      five accounts or more. */
  lemma NewAlert(before: seq<Alert>, after: seq<Alert>, calls: seq<Call>, k: nat)
    requires k < |calls| && AlertsAfter(before, after, calls, k)
    ensures before <= after && |after| <= |before| + 1
    ensures after != before ==>
              && calls[k].Fail? && ParsePair(calls[k].key).Some? && after[|before|].client == ParsePair(calls[k].key).value.client
              && after[|before|].client != "unknown"
              && |AccountsUnderAttack(Told(calls[..k+1]), after[|before|].client, calls[k].at)| >= 5
  {
    hide Told, ParsePair, AccountsUnderAttack;
    Minute();
  }

  lemma {:induction false} AlertsGrow(alerts: seq<seq<Alert>>, calls: seq<Call>, i: nat, j: nat)
    requires |alerts| == |calls| + 1 && i <= j <= |calls|
    requires forall k :: 0 <= k < |calls| ==> AlertsAfter(alerts[k], alerts[k+1], calls, k)
    ensures alerts[i] <= alerts[j]
    decreases j
  {
    hide AlertsAfter;
    if i < j {
      AlertsGrow(alerts, calls, i, j - 1);
      NewAlert(alerts[j-1], alerts[j], calls, j - 1);
    }
  }

  /** An alert of the last moment was raised at some call. */
  lemma {:induction false} RaisedAt(alerts: seq<seq<Alert>>, calls: seq<Call>, host: string, n: nat) returns (k: nat)
    requires |alerts| == |calls| + 1 && n <= |calls| && alerts[0] == [] && Reported(alerts[n], host)
    requires forall k :: 0 <= k < |calls| ==> AlertsAfter(alerts[k], alerts[k+1], calls, k)
    ensures k < n && calls[k].Fail? && ParsePair(calls[k].key).Some? && ParsePair(calls[k].key).value.client == host
    ensures host != "unknown" && |AccountsUnderAttack(Told(calls[..k+1]), host, calls[k].at)| >= 5
  {
    hide AlertsAfter, Told, ParsePair, AccountsUnderAttack;
    NewAlert(alerts[n-1], alerts[n], calls, n - 1);
    if Reported(alerts[n-1], host) {
      k := RaisedAt(alerts, calls, host, n - 1);
    } else {
      k := n - 1;
    }
  }

  /** Only the pair key of a login can raise an alert: the call is the third of its login. */
  lemma RaisedByPairKey(service: string, tries: seq<Try>, k: nat)
    requires OneMinute(service, tries) && k < 3 * |tries| && ParsePair(Failing(service, tries)[k].key).Some?
    ensures k % 3 == 2 && ParsePair(Failing(service, tries)[k].key).value.client == tries[k/3].host
    ensures Failing(service, tries)[k].at == tries[k/3].at
  {
    hide ParsePair, PlainPart, LoginKeys, Failing;
    var t := tries[k/3];
    FailingAt(service, tries, k);
    PairKeyIsRead(service, t.subject, t.host);
  }

  /** What is under attack once the first n logins have failed. */
  lemma AttackedAfter(service: string, tries: seq<Try>, host: string, n: nat)
    requires OneMinute(service, tries) && 0 < n <= |tries|
    ensures AccountsUnderAttack(Told(Failing(service, tries)[..3*n]), host, tries[n-1].at) == Tried(tries[..n], host)
  {
    hide AccountsUnderAttack, Told, Failing, Tried, PlainPart;
    PrefixOfMinute(service, tries, n);
    forall t | t in tries[..n]
      ensures t.at <= tries[n-1].at <= t.at + 60 * 1_000_000_000
    {
      var i :| 0 <= i < n && tries[i] == t;
    }
    UnderAttackAreTried(service, tries[..n], host, tries[n-1].at);
  }

  lemma OnlyIfFive(service: string, tries: seq<Try>, host: string, alerts: seq<seq<Alert>>)
    requires OneMinute(service, tries) && |alerts| == 3 * |tries| + 1 && alerts[0] == []
    requires forall k :: 0 <= k < 3 * |tries| ==> AlertsAfter(alerts[k], alerts[k+1], Failing(service, tries), k)
    requires Reported(alerts[3 * |tries|], host)
    ensures host != "unknown" && |Tried(tries, host)| >= 5
  {
    hide AlertsAfter, Told, ParsePair, AccountsUnderAttack, Failing, OneMinute, Tried, Reported;
    MinuteHasSubjects(service, tries);
    var calls := Failing(service, tries);
    var k := RaisedAt(alerts, calls, host, 3 * |tries|);
    RaisedByPairKey(service, tries, k);
    var n := k / 3 + 1;
    assert k + 1 == 3 * n;
    AttackedAfter(service, tries, host, n);
    PrefixOfMinute(service, tries, n);
    Larger(Tried(tries[..n], host), Tried(tries, host));
  }

  lemma Larger(a: set<string>, b: set<string>)
    requires a <= b
    ensures |a| <= |b|
  {
    assert b == a + (b - a);
  }

  /** The last login of a client. */
  lemma {:induction false} LastTry(tries: seq<Try>, host: string) returns (n: nat)
    requires Tried(tries, host) != {}
    ensures 0 < n <= |tries| && tries[n-1].host == host && Tried(tries[..n], host) == Tried(tries, host)
  {
    n := |tries|;
    if tries[n-1].host == host {
      assert tries[..n] == tries;
    } else {
      var front := tries[..n-1];
      assert tries == front + [tries[n-1]];
      assert Tried(front, host) == Tried(tries, host);
      n := LastTry(front, host);
      assert front[..n] == tries[..n];
    }
  }

  lemma IfFive(service: string, tries: seq<Try>, host: string, alerts: seq<seq<Alert>>)
    requires OneMinute(service, tries) && |alerts| == 3 * |tries| + 1
    requires forall k :: 0 <= k < 3 * |tries| ==> AlertsAfter(alerts[k], alerts[k+1], Failing(service, tries), k)
    requires host != "unknown" && |Tried(tries, host)| >= 5
    ensures Reported(alerts[3 * |tries|], host)
  {
    hide AlertsAfter, Told, ParsePair, AccountsUnderAttack, Failing, OneMinute, Tried, LoginKeys;
    MinuteHasSubjects(service, tries);
    var calls := Failing(service, tries);
    var n := LastTry(tries, host);
    var k := 3 * n - 1;
    AttackedAfter(service, tries, host, n);
    LastCallOf(service, tries, n);
    NowReported(alerts[k], alerts[k+1], calls, k, host);
    AlertsGrow(alerts, calls, k + 1, 3 * |tries|);
    var i :| 0 <= i < |alerts[k+1]| && alerts[k+1][i].client == host;
    assert alerts[3 * |tries|][i] == alerts[k+1][i];
  }

  lemma LastCallOf(service: string, tries: seq<Try>, n: nat)
    requires OneMinute(service, tries) && 0 < n <= |tries|
    ensures var call := Failing(service, tries)[3 * n - 1];
            && call.Fail? && call.at == tries[n-1].at
            && ParsePair(call.key) == Some(Pair(service, tries[n-1].subject, tries[n-1].host))
  {
    hide ParsePair, PlainPart, LoginKeys, Failing;
    var t := tries[n-1];
    assert (3 * n - 1) / 3 == n - 1 && (3 * n - 1) % 3 == 2;
    FailingAt(service, tries, 3 * n - 1);
    PairKeyIsRead(service, t.subject, t.host);
  }

  lemma NowReported(before: seq<Alert>, after: seq<Alert>, calls: seq<Call>, k: nat, host: string)
    requires k < |calls| && AlertsAfter(before, after, calls, k) && calls[k].Fail? && host != "unknown"
    requires ParsePair(calls[k].key).Some? && ParsePair(calls[k].key).value.client == host
    requires |AccountsUnderAttack(Told(calls[..k+1]), host, calls[k].at)| >= 5
    ensures Reported(after, host)
  {
    hide Told, ParsePair, AccountsUnderAttack;
    Minute();
  }

  /** Whatever logins fail within a minute, a client is reported exactly if it failed on five different
      addresses or more, however the logins of the clients mix; many clients that fail on one address are
      not. */
  method SprayRun(service: string, tries: seq<Try>, penalties: seq<Penalty>, window: int, threshold: int)
    returns (alerts: seq<Alert>)
    requires OneMinute(service, tries) && DistinctThresholds(penalties)
    ensures forall host :: Reported(alerts, host) <==> host != "unknown" && |Tried(tries, host)| >= 5
  {
    hide *;
    MinuteHasSubjects(service, tries);
    var calls := Failing(service, tries);
    CallsAreLegal(service, tries, calls);
    var all, active := RunAlerts(calls, penalties, window, threshold, {});
    alerts := all[|calls|];
    forall host
      ensures Reported(alerts, host) <==> host != "unknown" && |Tried(tries, host)| >= 5
    {
      if Reported(alerts, host) {
        OnlyIfFive(service, tries, host, all);
      }
      if host != "unknown" && |Tried(tries, host)| >= 5 {
        IfFive(service, tries, host, all);
      }
    }
  }

  lemma CallsAreLegal(service: string, tries: seq<Try>, calls: seq<Call>)
    requires OneMinute(service, tries) && calls == Failing(service, tries)
    ensures forall i :: 0 <= i < |calls| ==> ZERO < calls[i].at
    ensures forall i, j :: 0 <= i < j < |calls| ==> calls[i].at <= calls[j].at
  {
    hide PlainPart, LoginKeys, Failing;
    forall i | 0 <= i < |calls|
      ensures ZERO < calls[i].at && calls[i].at == tries[i/3].at
    {
      FailingAt(service, tries, i);
    }
    forall i, j | 0 <= i < j < |calls|
      ensures calls[i].at <= calls[j].at
    {
      assert i / 3 <= j / 3;
    }
  }
}
