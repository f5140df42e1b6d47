/** DNS records as Cloudflare's API carries them, and how internal/admin/sql_store.go compares
    them.  A record's id is a number here; 0 stands for the empty string. */
module Dns {
  import opened Options
  import opened Text

  datatype DataValue = Number(n: int) | Words(s: string) | Other

  datatype Record = Record(
    id: nat, kind: string, name: string, content: string, priority: Option<int>, ttl: int,
    proxied: Option<bool>, comment: string, data: map<string, DataValue>)

  function NormalizeDNSName(value: string): string {
    TrimSuffix(ToLower(TrimSpace(value)), ".")
  }

  /** The normal form is lower case, without the white space around it and one dot at its end. */
  lemma NormalFormIs(left: string, name: string, right: string)
    requires AllBlank(left) && AllBlank(right)
    requires name == "" || (!IsSpace(name[0]) && !IsSpace(name[|name|-1]))
    ensures NormalizeDNSName(left + name + right) ==
              ToLower(if name != "" && name[|name|-1] == '.' then name[..|name|-1] else name)
  {
    hide IsSpace, TrimSpace;
    TrimsTo(left, name, right);
    if name != "" {
      var low, n := ToLower(name), |name| - 1;
      assert low[n] == LowerChar(name[n]) && low[n..] == [low[n]] && low[..n] == ToLower(name[..n]);
      assert "." == ['.'];
    }
  }

  function NumberFromValue(value: DataValue): Parsed {
    match value
    case Number(n) => Int(n)
    case Words(s) => Atoi(TrimSpace(s))
    case Other => Bad
  }

  function DataAt(data: map<string, DataValue>, key: string): DataValue {
    if key in data then data[key] else Other
  }

  function SrvText(priority: int, weight: int, port: int, target: string): string {
    Itoa(priority) + " " + Itoa(weight) + " " + Itoa(port) + " " + NormalizeDNSName(target)
  }

  /** The canonical text of an SRV record, from its structured data, from four words of content,
      or from three words and the priority beside them. */
  function SrvComparable(record: Record): Option<string> {
    var d := record.data;
    var p, w, q := NumberFromValue(DataAt(d, "priority")), NumberFromValue(DataAt(d, "weight")), NumberFromValue(DataAt(d, "port"));
    var target := DataAt(d, "target");
    if p.Int? && w.Int? && q.Int? && target.Words? && TrimSpace(target.s) != "" then
      Some(SrvText(p.n, w.n, q.n, target.s))
    else
      var parts := Fields(record.content);
      if |parts| == 4 && Atoi(parts[0]).Int? && Atoi(parts[1]).Int? && Atoi(parts[2]).Int? then
        Some(SrvText(Atoi(parts[0]).n, Atoi(parts[1]).n, Atoi(parts[2]).n, parts[3]))
      else if |parts| == 3 && record.priority.Some? && Atoi(parts[0]).Int? && Atoi(parts[1]).Int? then
        Some(SrvText(record.priority.value, Atoi(parts[0]).n, Atoi(parts[1]).n, parts[2]))
      else None
  }

  function RecordComparable(record: Record): string {
    if EqualFold(record.kind, "SRV") && SrvComparable(record).Some? then SrvComparable(record).value
    else TrimSpace(record.content)
  }

  predicate SamePriority(a: Record, b: Record) {
    (EqualFold(a.kind, "SRV") && EqualFold(b.kind, "SRV")) || a.priority == b.priority
  }

  predicate IsProxied(r: Record) {
    r.proxied == Some(true)
  }

  predicate SameButProxy(current: Record, want: Record) {
    && EqualFold(RecordComparable(current), RecordComparable(want))
    && SamePriority(current, want)
    && EqualFold(current.kind, want.kind)
  }

  predicate Matches(current: Record, want: Record) {
    SameButProxy(current, want) && IsProxied(current) == IsProxied(want)
  }

  /** A record as stored under an id matches what was asked for. */
  lemma StoredMatches(want: Record, id: nat)
    ensures Matches(want.(id := id), want)
    ensures RecordComparable(want.(id := id)) == RecordComparable(want)
  {
    hide Fields, Atoi, NormalizeDNSName, TrimSpace, ToLower, Itoa;
    assert SrvComparable(want.(id := id)) == SrvComparable(want);
  }

  /* ---- what a domain asks for ---- */

  /** A record of the domain's DNS page. */
  datatype DNSRecord = DNSRecord(kind: string, name: string, value: string, priority: Option<int>, proxied: Option<bool>)

  function AtoiOrZero(s: string): (n: int)
    ensures Atoi(s) == Bad ==> n == 0
  {
    if Atoi(s).Int? then Atoi(s).n else 0
  }

  /** desiredCloudflareRecords for one record. */
  function Desired(record: DNSRecord): (item: Record)
    ensures item.id == 0 && item.kind == record.kind && item.name == record.name
    ensures record.kind != "SRV" ==> item.content == record.value
  {
    var parts := Fields(record.value);
    var srv := record.kind == "SRV" && |parts| == 4;
    Record(
      0, record.kind, record.name,
      if srv then "" else record.value,
      record.priority, 1,
      if record.kind in {"A", "AAAA", "CNAME"} then Some(record.proxied == Some(true)) else None,
      "Managed by ProIdentity Mail",
      if srv then
        map["priority" := Number(AtoiOrZero(parts[0])), "weight" := Number(AtoiOrZero(parts[1])),
            "port" := Number(AtoiOrZero(parts[2])), "target" := Words(NormalizeDNSName(parts[3]))]
      else map[])
  }

  method DesiredCloudflareRecords(records: seq<DNSRecord>) returns (out: seq<Record>)
    ensures |out| == |records| && forall k :: 0 <= k < |out| ==> out[k] == Desired(records[k])
  {
    hide Desired;
    out := [];
    var i := 0;
    while i < |records|
      invariant 0 <= i == |out| <= |records|
      invariant forall k :: 0 <= k < i ==> out[k] == Desired(records[k])
    {
      out := out + [Desired(records[i])];
      i := i + 1;
    }
  }

  predicate InRange(n: int) {
    -MAX_INT64 - 1 <= n <= MAX_INT64
  }

  /** A host name in normal form: no white space, lower case, no dot at the end. */
  predicate NormalHost(host: string) {
    IsWord(host) && ToLower(host) == host && host[|host|-1] != '.'
  }

  lemma NormalHostIsNormal(host: string)
    requires NormalHost(host)
    ensures NormalizeDNSName(host) == host && TrimSpace(host) == host && IsWord(host)
  {
    hide IsSpace, ToLower, TrimSpace;
    assert host[0] in host && host[|host|-1] in host;
    TrimNothing(host);
    assert host[|host|-1..] == [host[|host|-1]];
  }

  /** Structured data in which something is missing, or the target is blank. */
  predicate NoSrvData(d: map<string, DataValue>) {
    || "priority" !in d || "weight" !in d || "port" !in d || "target" !in d
    || !d["target"].Words? || AllBlank(d["target"].s)
  }

  lemma NoDataIsSkipped(r: Record)
    requires NoSrvData(r.data)
    ensures SrvComparable(r) == SrvComparable(r.(data := map[]))
  {
    hide Fields, Atoi, NormalizeDNSName, Itoa, IsSpace;
    var d := r.data;
    if "target" in d && d["target"].Words? && AllBlank(d["target"].s) {
      assert d["target"].s + "" + "" == d["target"].s;
      TrimsTo(d["target"].s, "", "");
    }
  }

  /** A number, or a text of one, with white space around it perhaps. */
  ghost predicate IsNumber(v: DataValue, n: int) {
    v == Number(n) || (v.Words? && exists left, right :: IsPadded(v.s, left, Itoa(n), right))
  }

  ghost predicate IsPadded(s: string, left: string, body: string, right: string) {
    AllBlank(left) && AllBlank(right) && s == left + body + right
  }

  ghost predicate IsSrvData(d: map<string, DataValue>, p: int, w: int, q: int, target: string) {
    && "priority" in d && "weight" in d && "port" in d && "target" in d
    && IsNumber(d["priority"], p) && IsNumber(d["weight"], w) && IsNumber(d["port"], q)
    && d["target"].Words? && NormalizeDNSName(d["target"].s) == target
  }

  lemma NumberIs(v: DataValue, n: int)
    requires InRange(n) && IsNumber(v, n)
    ensures NumberFromValue(v) == Int(n)
  {
    hide Itoa, Atoi, TrimSpace, IsSpace, AllBlank;
    AtoiItoa(n);
    if v.Words? {
      var left, right :| IsPadded(v.s, left, Itoa(n), right);
      var body := Itoa(n);
      assert body[0] in body && body[|body|-1] in body;
      TrimsTo(left, body, right);
    }
  }

  lemma DataIs(r: Record, p: int, w: int, q: int, target: string)
    requires InRange(p) && InRange(w) && InRange(q) && NormalHost(target) && IsSrvData(r.data, p, w, q, target)
    ensures SrvComparable(r) == Some(SrvText(p, w, q, target))
  {
    hide IsNumber, NumberFromValue, TrimSpace, Fields, Atoi, Itoa;
    NumberIs(r.data["priority"], p);
    NumberIs(r.data["weight"], w);
    NumberIs(r.data["port"], q);
    NormalHostIsNormal(target);
  }

  lemma DataForms(p: int, w: int, q: int, target: string)
    requires NormalHost(target)
    ensures IsSrvData(map["priority" := Number(p), "weight" := Number(w), "port" := Number(q), "target" := Words(target)], p, w, q, target)
    ensures NoSrvData(map[])
  {
    hide *;
    KeysDiffer();
    NormalHostIsNormal(target);
    NothingIsNoData();
    AreSrvData(map["priority" := Number(p), "weight" := Number(w), "port" := Number(q), "target" := Words(target)], p, w, q, target);
  }

  lemma NothingIsNoData()
    ensures NoSrvData(map[])
  {
  }

  lemma AreSrvData(d: map<string, DataValue>, p: int, w: int, q: int, target: string)
    requires "priority" in d && "weight" in d && "port" in d && "target" in d
    requires d["priority"] == Number(p) && d["weight"] == Number(w) && d["port"] == Number(q) && d["target"] == Words(target)
    requires NormalizeDNSName(target) == target
    ensures IsSrvData(d, p, w, q, target)
  {
    hide NormalizeDNSName, Itoa, AllBlank;
  }

  lemma KeysDiffer()
    ensures "priority" != "weight" && "priority" != "port" && "priority" != "target"
    ensures "weight" != "port" && "weight" != "target" && "port" != "target"
  {
    assert |"priority"| == 8 && |"weight"| == 6 && |"port"| == 4 && |"target"| == 6;
    assert "weight"[0] != "target"[0];
  }

  lemma SrvFields(p: int, w: int, q: int, target: string)
    requires IsWord(Itoa(p)) && IsWord(Itoa(w)) && IsWord(Itoa(q)) && IsWord(target)
    ensures Fields(Itoa(p) + " " + (Itoa(w) + " " + (Itoa(q) + " " + target))) == [Itoa(p), Itoa(w), Itoa(q), target]
    ensures Fields(Itoa(w) + " " + (Itoa(q) + " " + target)) == [Itoa(w), Itoa(q), target]
  {
    hide Fields, IsWord, Itoa;
    FieldsNext(target, "");
    FieldsNext(Itoa(q), target);
    FieldsNext(Itoa(w), Itoa(q) + " " + target);
    FieldsNext(Itoa(p), Itoa(w) + " " + (Itoa(q) + " " + target));
  }

  lemma SameText(p: int, w: int, q: int, target: string, written: string)
    requires NormalizeDNSName(written) == NormalizeDNSName(target)
    ensures SrvText(p, w, q, written) == SrvText(p, w, q, target)
  {
  }

  /** One SRV record compares alike in every form it comes in: as asked for on the DNS page, as
      structured data, as four words, and as three words with the priority apart. */
  lemma SrvFormsAgree(p: int, w: int, q: int, target: string, written: string, page: DNSRecord,
                      structured: Record, four: Record, three: Record)
    requires InRange(p) && InRange(w) && InRange(q) && NormalHost(target)
    requires page.kind == structured.kind == four.kind == three.kind == "SRV"
    requires IsWord(written) && NormalizeDNSName(written) == target
    requires page.value == Itoa(p) + " " + (Itoa(w) + " " + (Itoa(q) + " " + written))
    requires IsSrvData(structured.data, p, w, q, target)
    requires NoSrvData(four.data) && four.content == page.value
    requires NoSrvData(three.data) && three.priority == Some(p) && three.content == Itoa(w) + " " + (Itoa(q) + " " + target)
    ensures RecordComparable(structured) == RecordComparable(four) == RecordComparable(three)
         == RecordComparable(Desired(page)) == SrvText(p, w, q, target)
    ensures Desired(page).content == ""
    ensures Desired(page).data ==
              map["priority" := Number(p), "weight" := Number(w), "port" := Number(q), "target" := Words(target)]
  {
    hide Atoi, Itoa, NormalizeDNSName, TrimSpace, Fields, SrvText, ToLower;
    NoDataIsSkipped(four);
    NoDataIsSkipped(three);
    DataIs(structured, p, w, q, target);
    hide NoSrvData, IsSrvData;
    NormalHostIsNormal(target);
    AtoiItoa(p);
    AtoiItoa(w);
    AtoiItoa(q);
    SrvFields(p, w, q, target);
    SrvFields(p, w, q, written);
    SameText(p, w, q, target, written);
    assert Fields(three.content) == [Itoa(w), Itoa(q), target];
    assert Fields(page.value) == [Itoa(p), Itoa(w), Itoa(q), written];
    assert SrvComparable(structured) == Some(SrvText(p, w, q, target));
    assert SrvComparable(three) == Some(SrvText(p, w, q, target));
    assert SrvComparable(four) == Some(SrvText(p, w, q, target));
    assert SrvComparable(Desired(page)) == Some(SrvText(p, w, q, target));
  }

  /** The record is of type SRV and carries these four values, in one of the three forms. */
  ghost predicate Says(r: Record, p: int, w: int, q: int, target: string) {
    && r.kind == "SRV" && InRange(p) && InRange(w) && InRange(q) && NormalHost(target)
    && (|| IsSrvData(r.data, p, w, q, target)
        || (NoSrvData(r.data) && r.content == Itoa(p) + " " + (Itoa(w) + " " + (Itoa(q) + " " + target)))
        || (NoSrvData(r.data) && r.priority == Some(p) && r.content == Itoa(w) + " " + (Itoa(q) + " " + target)))
  }

  lemma SaysText(r: Record, p: int, w: int, q: int, target: string)
    requires Says(r, p, w, q, target)
    ensures RecordComparable(r) == SrvText(p, w, q, target)
  {
    hide *;
    SaysForms(r, p, w, q, target);
    NormalHostIsNormal(target);
    DataForms(p, w, q, target);
    var value := Itoa(p) + " " + (Itoa(w) + " " + (Itoa(q) + " " + target));
    var page := DNSRecord("SRV", "", value, None, None);
    var structured := Record(0, "SRV", "", "", None, 1, None, "",
      map["priority" := Number(p), "weight" := Number(w), "port" := Number(q), "target" := Words(target)]);
    var four := structured.(content := value, data := map[]);
    var three := structured.(content := Itoa(w) + " " + (Itoa(q) + " " + target), priority := Some(p), data := map[]);
    if IsSrvData(r.data, p, w, q, target) {
      SrvFormsAgree(p, w, q, target, target, page, r, four, three);
    } else if r.content == value && NoSrvData(r.data) {
      SrvFormsAgree(p, w, q, target, target, page, structured, r, three);
    } else {
      SrvFormsAgree(p, w, q, target, target, page, structured, four, r);
    }
  }

  lemma SaysForms(r: Record, p: int, w: int, q: int, target: string)
    requires Says(r, p, w, q, target)
    ensures r.kind == "SRV" && InRange(p) && InRange(w) && InRange(q) && NormalHost(target)
    ensures || IsSrvData(r.data, p, w, q, target)
            || (NoSrvData(r.data) && r.content == Itoa(p) + " " + (Itoa(w) + " " + (Itoa(q) + " " + target)))
            || (NoSrvData(r.data) && r.priority == Some(p) && r.content == Itoa(w) + " " + (Itoa(q) + " " + target))
  {
    hide NormalHost, Itoa, IsSrvData, NoSrvData;
  }

  lemma {:induction false} DigitsAreLow(n: nat)
    ensures ToLower(Digits(n)) == Digits(n)
  {
    assert forall k :: 0 <= k < |Digits(n)| ==> IsDigit(Digits(n)[k]);
  }

  lemma SrvTextIsLow(p: int, w: int, q: int, target: string)
    requires NormalHost(target)
    ensures ToLower(SrvText(p, w, q, target)) == SrvText(p, w, q, target)
  {
    hide ToLower, Digits, NormalizeDNSName;
    NormalHostIsNormal(target);
    ItoaIsLow(p);
    ItoaIsLow(w);
    ItoaIsLow(q);
    LowerBlank(" ");
    var pw := Itoa(p) + " " + Itoa(w);
    var pwq := pw + " " + Itoa(q);
    LowerOfThree(Itoa(p), " ", Itoa(w));
    LowerOfThree(pw, " ", Itoa(q));
    LowerOfThree(pwq, " ", target);
    LowSpace();
  }

  lemma LowSpace()
    ensures ToLower(" ") == " " && ToLower("-") == "-"
  {
  }

  lemma ItoaIsLow(n: int)
    ensures ToLower(Itoa(n)) == Itoa(n)
  {
    hide ToLower, Digits;
    LowSpace();
    DigitsAreLow(if n < 0 then -n else n);
    LowerOfThree("-", "", Digits(if n < 0 then -n else n));
    assert "-" + "" == "-" && ToLower("") == "";
  }

  /** Two SRV texts are equal, also when case is ignored, only for equal values. */
  lemma SrvTextTells(p: int, w: int, q: int, target: string, p': int, w': int, q': int, target': string)
    requires InRange(p) && InRange(w) && InRange(q) && NormalHost(target)
    requires InRange(p') && InRange(w') && InRange(q') && NormalHost(target')
    ensures EqualFold(SrvText(p, w, q, target), SrvText(p', w', q', target'))
            <==> p == p' && w == w' && q == q' && target == target'
  {
    hide ToLower, SrvText, Itoa, Atoi, Fields;
    SrvTextIsLow(p, w, q, target);
    SrvTextIsLow(p', w', q', target');
    SrvWords(p, w, q, target);
    SrvWords(p', w', q', target');
    AtoiItoa(p);
    AtoiItoa(w);
    AtoiItoa(q);
    AtoiItoa(p');
    AtoiItoa(w');
    AtoiItoa(q');
  }

  lemma SrvWords(p: int, w: int, q: int, target: string)
    requires InRange(p) && InRange(w) && InRange(q) && NormalHost(target)
    ensures Fields(SrvText(p, w, q, target)) == [Itoa(p), Itoa(w), Itoa(q), target]
  {
    hide Atoi, Itoa, NormalizeDNSName, Fields, ToLower;
    NormalHostIsNormal(target);
    AtoiItoa(p);
    AtoiItoa(w);
    AtoiItoa(q);
    SrvFields(p, w, q, target);
    assert SrvText(p, w, q, target) == Itoa(p) + " " + (Itoa(w) + " " + (Itoa(q) + " " + target));
  }
}
