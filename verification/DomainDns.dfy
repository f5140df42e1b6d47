/** The DNS records a mail domain should have (buildDomainDNS in internal/admin/sql_store.go),
    and when they can stand beside each other. */
module DomainDns {
  import opened Options
  import opened Text
  import opened DkimText
  import opened Dns
  import opened Cloudflare
  import opened CloudflareApply
  import opened CloudflareConvergence

  datatype Settings = Settings(
    mailHostname: string, adminHostname: string, webmailHostname: string,
    publicIPv4: string, publicIPv6: string, hostnameMode: string,
    disableWebmailAlias: bool, disableAdminAlias: bool)

  /** A domain in normal form with its active DKIM key, if any. */
  datatype Config = Config(domain: string, selector: string, dkim: string, settings: Settings)

  function NormalizeHostnameMode(value: string): string {
    var mode := ToLower(TrimSpace(value));
    if mode == "head-domain" || mode == "per-domain" then mode else "shared"
  }

  function EffectiveMailHost(domain: string, configured: string): string {
    var host := NormalizeDNSName(configured);
    if host == "" || HasSuffix(host, ".local") || !('.' in host) then
      if domain == "" then "mail.local" else "mail." + domain
    else host
  }

  function MailHostForDomain(domain: string, settings: Settings): string {
    if NormalizeHostnameMode(settings.hostnameMode) == "per-domain" then "mail." + domain
    else EffectiveMailHost(domain, settings.mailHostname)
  }

  predicate HostBelongsToDomain(host: string, domain: string) {
    var h, d := NormalizeDNSName(host), NormalizeDNSName(domain);
    h == d || HasSuffix(h, "." + d)
  }

  predicate UsableTarget(target: string) {
    target != "" && !HasSuffix(target, ".local") && '.' in target
  }

  function IPv4(c: Config): string { TrimSpace(c.settings.publicIPv4) }
  function IPv6(c: Config): string { TrimSpace(c.settings.publicIPv6) }
  function MailHost(c: Config): string { MailHostForDomain(c.domain, c.settings) }
  predicate InDomain(c: Config) { HostBelongsToDomain(MailHost(c), c.domain) }

  /** The places records are put at, relative to the domain, and the mail host itself. */
  datatype Place =
    | AtMailHost | Mail | Webmail | Madmin | Apex | Dmarc | MtaSts | SmtpTls | Autoconfig | Autodiscover
    | Submission | Imaps | Pop3s | Sieve | Caldavs | Carddavs | Dkim

  function Prefix(place: Place, selector: string): string {
    match place
    case AtMailHost => ""
    case Apex => ""
    case Mail => "mail."
    case Webmail => "webmail."
    case Madmin => "madmin."
    case Dmarc => "_dmarc."
    case MtaSts => "_mta-sts."
    case SmtpTls => "_smtp._tls."
    case Autoconfig => "autoconfig."
    case Autodiscover => "autodiscover."
    case Submission => "_submission._tcp."
    case Imaps => "_imaps._tcp."
    case Pop3s => "_pop3s._tcp."
    case Sieve => "_sieve._tcp."
    case Caldavs => "_caldavs._tcp."
    case Carddavs => "_carddavs._tcp."
    case Dkim => selector + "._domainkey."
  }

  function NameAt(c: Config, place: Place): string {
    if place == AtMailHost then MailHost(c)
    else if place in {Webmail, Madmin} then NormalizeDNSName(Prefix(place, c.selector) + c.domain)
    else Prefix(place, c.selector) + c.domain
  }

  function AliasTarget(c: Config, place: Place): string {
    NormalizeDNSName(if place == Webmail then c.settings.webmailHostname else c.settings.adminHostname)
  }

  /** Whether the browser alias at the place is wanted at all. */
  predicate AliasWanted(c: Config, place: Place) {
    && !(if place == Webmail then c.settings.disableWebmailAlias else c.settings.disableAdminAlias)
    && NameAt(c, place) != "" && UsableTarget(AliasTarget(c, place))
  }

  predicate AliasIsOwnHost(c: Config, place: Place) {
    AliasWanted(c, place) && AliasTarget(c, place) == NameAt(c, place)
  }

  datatype Kind = A | AAAA | CNAME | MX | TXT | SRV

  function KindName(kind: Kind): string {
    match kind
    case A => "A"
    case AAAA => "AAAA"
    case CNAME => "CNAME"
    case MX => "MX"
    case TXT => "TXT"
    case SRV => "SRV"
  }

  /** A record by where it stands and what type it has. */
  datatype Slot = Slot(place: Place, kind: Kind)

  function AddressSlots(c: Config, place: Place): seq<Slot> {
    (if IPv4(c) != "" then [Slot(place, A)] else []) + (if IPv6(c) != "" then [Slot(place, AAAA)] else [])
  }

  function HostSlots(c: Config): seq<Slot> {
    if InDomain(c) then AddressSlots(c, AtMailHost)
    else if NameAt(c, Mail) != MailHost(c) then [Slot(Mail, CNAME)]
    else []
  }

  function AliasSlots(c: Config, place: Place): seq<Slot> {
    if !AliasWanted(c, place) then []
    else if AliasIsOwnHost(c, place) then AddressSlots(c, place)
    else [Slot(place, CNAME)]
  }

  function FixedSlots(): seq<Slot> {
    [Slot(Apex, MX), Slot(Apex, TXT), Slot(Dmarc, TXT), Slot(MtaSts, TXT), Slot(SmtpTls, TXT),
     Slot(Autoconfig, CNAME), Slot(Autodiscover, CNAME), Slot(Submission, SRV), Slot(Imaps, SRV),
     Slot(Pop3s, SRV), Slot(Sieve, SRV), Slot(Caldavs, SRV), Slot(Carddavs, SRV)]
  }

  function DkimSlots(c: Config): seq<Slot> {
    if c.selector != "" && c.dkim != "" then [Slot(Dkim, TXT)] else []
  }

  /** The wanted records in the order they are appended. */
  function Slots(c: Config): seq<Slot> {
    HostSlots(c) + AliasSlots(c, Webmail) + AliasSlots(c, Madmin) + FixedSlots() + DkimSlots(c)
  }

  function ValueAt(c: Config, slot: Slot): string {
    match slot.kind
    case A => IPv4(c)
    case AAAA => IPv6(c)
    case CNAME => if slot.place in {Webmail, Madmin} then AliasTarget(c, slot.place) else MailHost(c)
    case MX => MailHost(c)
    case TXT =>
      (match slot.place
       case Dmarc => "v=DMARC1; p=quarantine; rua=mailto:dmarc@" + c.domain
       case MtaSts => "v=STSv1; id=2026050601"
       case SmtpTls => "v=TLSRPTv1; rua=mailto:tlsrpt@" + c.domain
       case Dkim => NormalizeDkimTxt(c.dkim)
       case _ => "v=spf1 mx -all")
    case SRV =>
      (match slot.place
       case Submission => "0 1 587 " + MailHost(c)
       case Imaps => "0 1 993 " + MailHost(c)
       case Pop3s => "0 1 995 " + MailHost(c)
       case Sieve => "0 1 4190 " + MailHost(c)
       case _ => "0 1 443 " + MailHost(c))
  }

  function RecordFor(c: Config, slot: Slot): (r: DNSRecord)
    ensures r.kind == KindName(slot.kind) && r.name == NameAt(c, slot.place)
  {
    DNSRecord(KindName(slot.kind), NameAt(c, slot.place), ValueAt(c, slot),
              if slot.kind == MX then Some(10) else None,
              if slot.place in {Webmail, Madmin} then Some(true) else None)
  }

  function RecordsFor(c: Config, slots: seq<Slot>): (records: seq<DNSRecord>)
    ensures |records| == |slots|
    ensures forall i :: 0 <= i < |slots| ==> records[i] == RecordFor(c, slots[i])
  {
    seq(|slots|, i requires 0 <= i < |slots| => RecordFor(c, slots[i]))
  }

  /* ---- the code ---- */

  function ProxiedAddresses(name: string, v4: string, v6: string): seq<DNSRecord> {
    (if v4 != "" then [DNSRecord("A", name, v4, None, Some(true))] else [])
    + (if v6 != "" then [DNSRecord("AAAA", name, v6, None, Some(true))] else [])
  }

  /** What appendWebServiceAlias adds. */
  function AliasRecords(aliasName: string, targetHost: string, s: Settings): seq<DNSRecord> {
    var name, target := NormalizeDNSName(aliasName), NormalizeDNSName(targetHost);
    if name == "" || !UsableTarget(target) then []
    else if name == target then ProxiedAddresses(name, TrimSpace(s.publicIPv4), TrimSpace(s.publicIPv6))
    else [DNSRecord("CNAME", name, target, None, Some(true))]
  }

  method AppendWebServiceAlias(records: seq<DNSRecord>, aliasName: string, targetHost: string, s: Settings)
    returns (out: seq<DNSRecord>)
    ensures out == records + AliasRecords(aliasName, targetHost, s)
  {
    hide NormalizeDNSName, TrimSpace, HasSuffix;
    var name, target := NormalizeDNSName(aliasName), NormalizeDNSName(targetHost);
    out := records;
    if name == "" || target == "" || HasSuffix(target, ".local") || '.' !in target {
      return;
    }
    if name == target {
      if TrimSpace(s.publicIPv4) != "" {
        out := out + [DNSRecord("A", name, TrimSpace(s.publicIPv4), None, Some(true))];
      }
      if TrimSpace(s.publicIPv6) != "" {
        out := out + [DNSRecord("AAAA", name, TrimSpace(s.publicIPv6), None, Some(true))];
      }
      return;
    }
    out := out + [DNSRecord("CNAME", name, target, None, Some(true))];
  }

  /** The records every domain gets. */
  function ServiceRecords(domain: string, mailHost: string): seq<DNSRecord> {
    [
      DNSRecord("MX", domain, mailHost, Some(10), None),
      DNSRecord("TXT", domain, "v=spf1 mx -all", None, None),
      DNSRecord("TXT", "_dmarc." + domain, "v=DMARC1; p=quarantine; rua=mailto:dmarc@" + domain, None, None),
      DNSRecord("TXT", "_mta-sts." + domain, "v=STSv1; id=2026050601", None, None),
      DNSRecord("TXT", "_smtp._tls." + domain, "v=TLSRPTv1; rua=mailto:tlsrpt@" + domain, None, None),
      DNSRecord("CNAME", "autoconfig." + domain, mailHost, None, None),
      DNSRecord("CNAME", "autodiscover." + domain, mailHost, None, None),
      DNSRecord("SRV", "_submission._tcp." + domain, "0 1 587 " + mailHost, None, None),
      DNSRecord("SRV", "_imaps._tcp." + domain, "0 1 993 " + mailHost, None, None),
      DNSRecord("SRV", "_pop3s._tcp." + domain, "0 1 995 " + mailHost, None, None),
      DNSRecord("SRV", "_sieve._tcp." + domain, "0 1 4190 " + mailHost, None, None),
      DNSRecord("SRV", "_caldavs._tcp." + domain, "0 1 443 " + mailHost, None, None),
      DNSRecord("SRV", "_carddavs._tcp." + domain, "0 1 443 " + mailHost, None, None)]
  }

  /** The mail host's own addresses, or the alias that leads to it. */
  method MailHostRecords(domain: string, mailHost: string, settings: Settings) returns (records: seq<DNSRecord>, provisionable: bool)
    ensures forall c: Config :: c.domain == domain && c.settings == settings && mailHost == MailHost(c) ==>
              && records == RecordsFor(c, HostSlots(c))
              && provisionable == !(InDomain(c) && IPv4(c) == "" && IPv6(c) == "")
  {
    hide *;
    var domainMailAlias := "mail." + domain;
    provisionable := true;
    records := [];
    var h, d := NormalizeDNSName(mailHost), NormalizeDNSName(domain);
    if h == d || HasSuffix(h, "." + d) {
      if TrimSpace(settings.publicIPv4) != "" {
        records := records + [DNSRecord("A", mailHost, TrimSpace(settings.publicIPv4), None, None)];
      }
      if TrimSpace(settings.publicIPv6) != "" {
        records := records + [DNSRecord("AAAA", mailHost, TrimSpace(settings.publicIPv6), None, None)];
      }
      if TrimSpace(settings.publicIPv4) == "" && TrimSpace(settings.publicIPv6) == "" {
        provisionable := false;
      }
    } else if domainMailAlias != mailHost {
      records := records + [DNSRecord("CNAME", domainMailAlias, mailHost, None, None)];
    }
    forall c: Config | c.domain == domain && c.settings == settings && mailHost == MailHost(c)
      ensures records == RecordsFor(c, HostSlots(c))
      ensures provisionable == !(InDomain(c) && IPv4(c) == "" && IPv6(c) == "")
    {
      HostRecords(c);
    }
  }

  /** The mail host of a domain: its own `mail.` name in the mode with one host per domain and whenever
      no usable host is configured, and otherwise the configured host in normal form. */
  lemma MailHostIs(c: Config)
    ensures var host := NormalizeDNSName(c.settings.mailHostname);
            MailHost(c) ==
              if EqualFold(TrimSpace(c.settings.hostnameMode), "per-domain") then "mail." + c.domain
              else if host == "" || '.' !in host || (|host| >= 6 && host[|host|-6..] == ".local") then
                if c.domain == "" then "mail.local" else "mail." + c.domain
              else host
  {
    hide NormalizeDNSName, TrimSpace, ToLower;
    ModeIs(c.settings.hostnameMode);
  }

  lemma ModeIs(value: string)
    ensures NormalizeHostnameMode(value) == "per-domain" <==> EqualFold(TrimSpace(value), "per-domain")
    ensures NormalizeHostnameMode(value) == "head-domain" <==> EqualFold(TrimSpace(value), "head-domain")
    ensures NormalizeHostnameMode(value) in {"per-domain", "head-domain", "shared"}
  {
    hide TrimSpace;
    assert ToLower("head-domain") == "head-domain";
    assert ToLower("per-domain") == "per-domain";
    assert "shared"[0] != "per-domain"[0] && "head-domain"[0] != "per-domain"[0];
  }

  /** What the records say: mail goes to the mail host, with priority 10, and is sent from there alone;
      a host of the domain's own has its addresses, with the white space taken off, and a host elsewhere
      is reached by `mail.`; and no address stands at the apex unless the mail host is the apex. */
  ghost predicate MailRecords(records: seq<DNSRecord>, domain: string, mailHost: string, s: Settings) {
    var v4, v6 := TrimSpace(s.publicIPv4), TrimSpace(s.publicIPv6);
    var own := mailHost == domain || HasSuffix(mailHost, "." + domain);
    && (forall r :: r in records && r.kind == "MX" <==> r == DNSRecord("MX", domain, mailHost, Some(10), None))
    && DNSRecord("TXT", domain, "v=spf1 mx -all", None, None) in records
    && (own && v4 != "" ==> DNSRecord("A", mailHost, v4, None, None) in records)
    && (own && v6 != "" ==> DNSRecord("AAAA", mailHost, v6, None, None) in records)
    && (!own && mailHost != "mail." + domain ==> DNSRecord("CNAME", "mail." + domain, mailHost, None, None) in records)
    && (forall r :: r in records && r.kind in {"A", "AAAA"} ==>
          || (own && r.name == mailHost && r.proxied == None && r.value == if r.kind == "A" then v4 else v6)
          || ((r.name == "webmail." + domain || r.name == "madmin." + domain) && r.proxied == Some(true)
              && r.value == if r.kind == "A" then v4 else v6))
    && forall r :: r in records && r.kind in {"A", "AAAA"} && r.name == domain ==> mailHost == domain
  }

  method BuildDomainDNS(rawDomain: string, selector: string, dkim: string, settings: Settings)
    returns (records: seq<DNSRecord>, mailHost: string, provisionable: bool)
    ensures var c := Config(NormalizeDNSName(rawDomain), selector, dkim, settings);
            && records == RecordsFor(c, Slots(c)) && mailHost == MailHost(c)
            && provisionable == !(InDomain(c) && IPv4(c) == "" && IPv6(c) == "")
    ensures var host, domain := NormalizeDNSName(settings.mailHostname), NormalizeDNSName(rawDomain);
            mailHost ==
              if EqualFold(TrimSpace(settings.hostnameMode), "per-domain") then "mail." + domain
              else if host == "" || '.' !in host || (|host| >= 6 && host[|host|-6..] == ".local") then
                if domain == "" then "mail.local" else "mail." + domain
              else host
    ensures NormalHost(NormalizeDNSName(rawDomain)) && NormalHost(mailHost) ==>
              MailRecords(records, NormalizeDNSName(rawDomain), mailHost, settings)
  {
    hide *;
    var domain := NormalizeDNSName(rawDomain);
    DomainRecordsAre(Config(domain, selector, dkim, settings));
    ghost var c := Config(domain, selector, dkim, settings);
    OtherRecords(c);
    DkimRecords(c);
    if selector != "" && dkim != "" {
      DkimRecord(c);
    }
    HostOfDomain(c);
    AliasRecordsAre(c, Webmail);
    AliasRecordsAre(c, Madmin);
    FixedRecords(c);
    mailHost := MailHostForDomain(domain, settings);
    records, provisionable := MailHostRecords(domain, mailHost, settings);
    if !settings.disableWebmailAlias {
      records := AppendWebServiceAlias(records, "webmail." + domain, settings.webmailHostname, settings);
    }
    assert records == RecordsFor(c, HostSlots(c)) + RecordsFor(c, AliasSlots(c, Webmail));
    if !settings.disableAdminAlias {
      records := AppendWebServiceAlias(records, "madmin." + domain, settings.adminHostname, settings);
    }
    assert records == RecordsFor(c, HostSlots(c)) + RecordsFor(c, AliasSlots(c, Webmail)) + RecordsFor(c, AliasSlots(c, Madmin));
    records := records + ServiceRecords(domain, mailHost);
    if selector != "" && dkim != "" {
      records := records + [DNSRecord("TXT", selector + "._domainkey." + domain, NormalizeDkimTxt(dkim), None, None)];
    }
  }

  lemma DomainRecordsAre(c: Config)
    ensures var host := NormalizeDNSName(c.settings.mailHostname);
            MailHost(c) ==
              if EqualFold(TrimSpace(c.settings.hostnameMode), "per-domain") then "mail." + c.domain
              else if host == "" || '.' !in host || (|host| >= 6 && host[|host|-6..] == ".local") then
                if c.domain == "" then "mail.local" else "mail." + c.domain
              else host
    ensures NormalHost(c.domain) && NormalHost(MailHost(c)) ==>
              MailRecords(RecordsFor(c, Slots(c)), c.domain, MailHost(c), c.settings)
  {
    hide *;
    MailHostIs(c);
    if NormalHost(c.domain) && NormalHost(MailHost(c)) {
      SlotsGiveMailRecords(c);
    }
  }

  lemma SlotsGiveMailRecords(c: Config)
    requires NormalHost(c.domain) && NormalHost(MailHost(c))
    ensures MailRecords(RecordsFor(c, Slots(c)), c.domain, MailHost(c), c.settings)
  {
    hide NormalHost, MailHost, TrimSpace, NormalizeDNSName, Slots, RecordFor, RecordsFor, HasSuffix, IPv4, IPv6, RecordSays;
    ApexRecords(c);
    MailSlots(c);
    HostKinds(c);
    SlotsAreRecords(c);
    var records := RecordsFor(c, Slots(c));
    forall r | r in records
      ensures RecordSays(c, r)
    {
      EachRecordSays(c, r);
    }
    RecordsSay(c, records);
  }

  /** What one record can be, as far as mail goes. */
  ghost predicate RecordSays(c: Config, r: DNSRecord) {
    var v4, v6 := TrimSpace(c.settings.publicIPv4), TrimSpace(c.settings.publicIPv6);
    && (r.kind == "MX" ==> r == DNSRecord("MX", c.domain, MailHost(c), Some(10), None))
    && (r.kind in {"A", "AAAA"} ==>
          && r.value == (if r.kind == "A" then v4 else v6)
          && (r.name == c.domain ==> MailHost(c) == c.domain)
          && (|| (InDomain(c) && r.name == MailHost(c) && r.proxied == None)
              || ((r.name == "webmail." + c.domain || r.name == "madmin." + c.domain) && r.proxied == Some(true))))
  }

  lemma SlotsAreRecords(c: Config)
    ensures forall x :: x in Slots(c) ==> RecordFor(c, x) in RecordsFor(c, Slots(c))
  {
    hide Slots, RecordFor;
    forall x | x in Slots(c)
      ensures RecordFor(c, x) in RecordsFor(c, Slots(c))
    {
      var i :| 0 <= i < |Slots(c)| && Slots(c)[i] == x;
      assert RecordsFor(c, Slots(c))[i] == RecordFor(c, x);
    }
  }

  lemma EachRecordSays(c: Config, r: DNSRecord)
    requires NormalHost(c.domain) && NormalHost(MailHost(c)) && r in RecordsFor(c, Slots(c))
    ensures RecordSays(c, r)
  {
    hide NormalHost, MailHost, TrimSpace, Slots, RecordFor, InDomain;
    var records := RecordsFor(c, Slots(c));
    var i :| 0 <= i < |records| && records[i] == r;
    assert Slots(c)[i] in Slots(c) && r == RecordFor(c, Slots(c)[i]);
    SlotIs(c, Slots(c)[i]);
    ApexRecords(c);
  }

  lemma RecordsSay(c: Config, records: seq<DNSRecord>)
    requires forall r :: r in records ==> RecordSays(c, r)
    requires InDomain(c) <==> MailHost(c) == c.domain || HasSuffix(MailHost(c), "." + c.domain)
    requires DNSRecord("MX", c.domain, MailHost(c), Some(10), None) in records
    requires DNSRecord("TXT", c.domain, "v=spf1 mx -all", None, None) in records
    requires InDomain(c) && TrimSpace(c.settings.publicIPv4) != "" ==>
               DNSRecord("A", MailHost(c), TrimSpace(c.settings.publicIPv4), None, None) in records
    requires InDomain(c) && TrimSpace(c.settings.publicIPv6) != "" ==>
               DNSRecord("AAAA", MailHost(c), TrimSpace(c.settings.publicIPv6), None, None) in records
    requires !InDomain(c) && MailHost(c) != "mail." + c.domain ==> DNSRecord("CNAME", "mail." + c.domain, MailHost(c), None, None) in records
    ensures MailRecords(records, c.domain, MailHost(c), c.settings)
  {
    hide InDomain, MailHost, TrimSpace, HasSuffix;
  }

  /** What the record of one slot can be, as far as mail goes. */
  ghost predicate SlotSays(c: Config, x: Slot) {
    var r, v4, v6 := RecordFor(c, x), TrimSpace(c.settings.publicIPv4), TrimSpace(c.settings.publicIPv6);
    && (r.kind == "MX" ==> x == Slot(Apex, MX))
    && (r.kind in {"A", "AAAA"} ==>
          && r.value == (if r.kind == "A" then v4 else v6)
          && (r.name == c.domain ==> MailHost(c) == c.domain)
          && (|| (InDomain(c) && r.name == MailHost(c) && r.proxied == None)
              || ((r.name == "webmail." + c.domain || r.name == "madmin." + c.domain) && r.proxied == Some(true))))
  }

  lemma SlotIs(c: Config, x: Slot)
    requires NormalHost(c.domain) && x in Slots(c)
    ensures SlotSays(c, x)
  {
    hide NormalHost, MailHost, TrimSpace, NormalizeDNSName, Slots, InDomain, ValueAt, NameAt, AliasWanted, Prefix, KindName;
    SlotsHaveFacts(c);
    MailSlots(c);
    KindNames(x.kind);
    SlotValues(c, x);
    if x.place in {Webmail, Madmin} {
      NameIs(c, x.place);
      AliasPrefix(c.selector);
      assert |NameAt(c, x.place)| > |c.domain|;
    }
  }

  lemma AliasPrefix(selector: string)
    ensures Prefix(Webmail, selector) == "webmail." && Prefix(Madmin, selector) == "madmin."
  {
  }

  lemma KindNames(kind: Kind)
    ensures KindName(kind) == "A" <==> kind == A
    ensures KindName(kind) == "AAAA" <==> kind == AAAA
    ensures KindName(kind) == "MX" <==> kind == MX
  {
  }

  lemma SlotValues(c: Config, x: Slot)
    ensures x.kind == A ==> ValueAt(c, x) == TrimSpace(c.settings.publicIPv4)
    ensures x.kind == AAAA ==> ValueAt(c, x) == TrimSpace(c.settings.publicIPv6)
    ensures x.place == AtMailHost ==> NameAt(c, x.place) == MailHost(c)
  {
    hide MailHost, TrimSpace;
  }

  lemma MailSlots(c: Config)
    ensures Slot(Apex, MX) in Slots(c) && Slot(Apex, TXT) in Slots(c)
    ensures InDomain(c) && IPv4(c) != "" ==> Slot(AtMailHost, A) in Slots(c)
    ensures InDomain(c) && IPv6(c) != "" ==> Slot(AtMailHost, AAAA) in Slots(c)
    ensures !InDomain(c) && "mail." + c.domain != MailHost(c) ==> Slot(Mail, CNAME) in Slots(c)
    ensures forall x :: x in Slots(c) && x.kind == MX ==> x == Slot(Apex, MX)
    ensures forall x :: x in Slots(c) && x.kind in {A, AAAA} ==> x.place in {AtMailHost, Webmail, Madmin}
  {
    hide InDomain, MailHost, IPv4, IPv6, AliasSlots, FixedSlots, NameAt;
    FixedKinds();
    AliasKinds(c, Webmail);
    AliasKinds(c, Madmin);
    MailName(c);
    forall x
      ensures x in Slots(c) <==> || x in HostSlots(c) || x in AliasSlots(c, Webmail) || x in AliasSlots(c, Madmin)
                                 || x in FixedSlots() || x in DkimSlots(c)
    {
    }
  }

  lemma MailName(c: Config)
    ensures NameAt(c, Mail) == "mail." + c.domain
  {
  }

  lemma FixedKinds()
    ensures Slot(Apex, MX) in FixedSlots() && Slot(Apex, TXT) in FixedSlots()
    ensures forall x :: x in FixedSlots() ==> x.kind !in {A, AAAA} && (x.kind == MX ==> x == Slot(Apex, MX))
  {
    forall x | x in FixedSlots()
      ensures x.kind !in {A, AAAA} && (x.kind == MX ==> x == Slot(Apex, MX))
    {
      var k :| 0 <= k < |FixedSlots()| && FixedSlots()[k] == x;
      FixedKind(k);
    }
    assert FixedSlots()[0] == Slot(Apex, MX) && FixedSlots()[1] == Slot(Apex, TXT);
  }

  lemma FixedKind(k: nat)
    requires k < |FixedSlots()|
    ensures var kind := FixedSlots()[k].kind;
            if k == 0 then FixedSlots()[k] == Slot(Apex, MX) else kind == TXT || kind == CNAME || kind == SRV
  {
  }

  lemma AliasKinds(c: Config, place: Place)
    ensures forall x :: x in AliasSlots(c, place) ==> x.place == place && x.kind in {A, AAAA, CNAME}
  {
    hide AliasWanted, AliasIsOwnHost, IPv4, IPv6;
  }

  lemma HostKinds(c: Config)
    requires NormalHost(c.domain) && NormalHost(MailHost(c))
    ensures InDomain(c) <==> MailHost(c) == c.domain || HasSuffix(MailHost(c), "." + c.domain)
    ensures RecordFor(c, Slot(AtMailHost, A)) == DNSRecord("A", MailHost(c), TrimSpace(c.settings.publicIPv4), None, None)
    ensures RecordFor(c, Slot(AtMailHost, AAAA)) == DNSRecord("AAAA", MailHost(c), TrimSpace(c.settings.publicIPv6), None, None)
    ensures RecordFor(c, Slot(Mail, CNAME)) == DNSRecord("CNAME", "mail." + c.domain, MailHost(c), None, None)
    ensures IPv4(c) == TrimSpace(c.settings.publicIPv4) && IPv6(c) == TrimSpace(c.settings.publicIPv6)
  {
    hide NormalHost, MailHost, TrimSpace, NormalizeDNSName, HasSuffix;
    NormalHostIsNormal(c.domain);
    NormalHostIsNormal(MailHost(c));
  }

  lemma HostRecords(c: Config)
    ensures RecordsFor(c, HostSlots(c)) ==
      var h, d := NormalizeDNSName(MailHost(c)), NormalizeDNSName(c.domain);
      if h == d || HasSuffix(h, "." + d) then
        (if TrimSpace(c.settings.publicIPv4) != "" then [DNSRecord("A", MailHost(c), TrimSpace(c.settings.publicIPv4), None, None)] else [])
        + (if TrimSpace(c.settings.publicIPv6) != "" then [DNSRecord("AAAA", MailHost(c), TrimSpace(c.settings.publicIPv6), None, None)] else [])
      else if "mail." + c.domain != MailHost(c) then [DNSRecord("CNAME", "mail." + c.domain, MailHost(c), None, None)]
      else []
    ensures var h, d := NormalizeDNSName(MailHost(c)), NormalizeDNSName(c.domain);
            InDomain(c) <==> h == d || HasSuffix(h, "." + d)
    ensures TrimSpace(c.settings.publicIPv4) == IPv4(c) && TrimSpace(c.settings.publicIPv6) == IPv6(c)
  {
    hide MailHostForDomain, TrimSpace, NormalizeDNSName, HasSuffix;
  }

  function AliasLabel(place: Place): string {
    if place == Webmail then "webmail." else "madmin."
  }

  lemma AliasRecordsAre(c: Config, place: Place)
    requires place in {Webmail, Madmin}
    ensures var on := !(if place == Webmail then c.settings.disableWebmailAlias else c.settings.disableAdminAlias);
            var host := if place == Webmail then c.settings.webmailHostname else c.settings.adminHostname;
            RecordsFor(c, AliasSlots(c, place)) == if on then AliasRecords(AliasLabel(place) + c.domain, host, c.settings) else []
    ensures AliasLabel(Webmail) == "webmail." && AliasLabel(Madmin) == "madmin."
  {
    hide UsableTarget, TrimSpace, IPv4, IPv6, NormalizeDNSName, NameAt, ValueAt, KindName, RecordFor, AddressSlots, ProxiedAddresses;
    AliasSlotRecords(c, place);
    AddressSlotRecords(c, place);
  }

  lemma AddressSlotRecords(c: Config, place: Place)
    requires place in {Webmail, Madmin}
    ensures RecordsFor(c, AddressSlots(c, place)) == ProxiedAddresses(NameAt(c, place), IPv4(c), IPv6(c))
  {
    AliasSlotRecords(c, place);
    hide RecordFor, RecordsFor, NameAt, IPv4, IPv6, TrimSpace;
    NoRecords(c);
    OneRecord(c, Slot(place, A));
    OneRecord(c, Slot(place, AAAA));
    RecordsForBoth(c, if IPv4(c) != "" then [Slot(place, A)] else [], if IPv6(c) != "" then [Slot(place, AAAA)] else []);
  }

  lemma NoRecords(c: Config)
    ensures RecordsFor(c, []) == []
  {
  }

  lemma OneRecord(c: Config, slot: Slot)
    ensures RecordsFor(c, [slot]) == [RecordFor(c, slot)]
  {
    hide RecordFor;
  }

  lemma RecordsForBoth(c: Config, a: seq<Slot>, b: seq<Slot>)
    ensures RecordsFor(c, a + b) == RecordsFor(c, a) + RecordsFor(c, b)
  {
    hide RecordFor;
  }

  lemma AliasSlotRecords(c: Config, place: Place)
    requires place in {Webmail, Madmin}
    ensures NameAt(c, place) == NormalizeDNSName(AliasLabel(place) + c.domain)
    ensures RecordFor(c, Slot(place, A)) == DNSRecord("A", NameAt(c, place), TrimSpace(c.settings.publicIPv4), None, Some(true))
    ensures RecordFor(c, Slot(place, AAAA)) == DNSRecord("AAAA", NameAt(c, place), TrimSpace(c.settings.publicIPv6), None, Some(true))
    ensures RecordFor(c, Slot(place, CNAME)) == DNSRecord("CNAME", NameAt(c, place), AliasTarget(c, place), None, Some(true))
    ensures IPv4(c) == TrimSpace(c.settings.publicIPv4) && IPv6(c) == TrimSpace(c.settings.publicIPv6)
  {
    hide NormalizeDNSName, TrimSpace, AliasTarget;
  }

  lemma OtherRecords(c: Config)
    ensures RecordsFor(c, Slots(c)) ==
              RecordsFor(c, HostSlots(c)) + RecordsFor(c, AliasSlots(c, Webmail)) + RecordsFor(c, AliasSlots(c, Madmin))
              + RecordsFor(c, FixedSlots()) + RecordsFor(c, DkimSlots(c))
  {
    hide HostSlots, AliasSlots, FixedSlots, DkimSlots, RecordsFor;
    var h, w, m := HostSlots(c), AliasSlots(c, Webmail), AliasSlots(c, Madmin);
    RecordsForBoth(c, h, w);
    RecordsForBoth(c, h + w, m);
    RecordsForBoth(c, h + w + m, FixedSlots());
    RecordsForBoth(c, h + w + m + FixedSlots(), DkimSlots(c));
  }

  lemma DkimRecords(c: Config)
    ensures RecordsFor(c, DkimSlots(c)) ==
              if c.selector != "" && c.dkim != "" then [RecordFor(c, Slot(Dkim, TXT))] else []
  {
    hide RecordFor, RecordsFor;
    NoRecords(c);
    OneRecord(c, Slot(Dkim, TXT));
  }

  lemma HostOfDomain(c: Config)
    ensures MailHostForDomain(c.domain, c.settings) == MailHost(c)
  {
    hide MailHostForDomain;
  }

  lemma DkimRecord(c: Config)
    ensures RecordFor(c, Slot(Dkim, TXT)) ==
              DNSRecord("TXT", c.selector + "._domainkey." + c.domain, NormalizeDkimTxt(c.dkim), None, None)
  {
    hide NormalizeDkimTxt;
  }

  lemma FixedRecords(c: Config)
    ensures RecordsFor(c, FixedSlots()) == ServiceRecords(c.domain, MailHost(c))
  {
    hide MailHost;
    ApexRecords(c);
    PolicyRecords(c);
    ReportAndSetupRecords(c);
    MailServiceRecords(c);
    OtherServiceRecords(c);
    hide RecordFor, ValueAt, NameAt, Prefix;
  }

  lemma ApexRecords(c: Config)
    ensures var domain, mailHost := c.domain, MailHost(c);
      && RecordFor(c, Slot(Apex, MX)) == DNSRecord("MX", domain, mailHost, Some(10), None)
      && RecordFor(c, Slot(Apex, TXT)) == DNSRecord("TXT", domain, "v=spf1 mx -all", None, None)
  {
    hide MailHost;
    assert "" + c.domain == c.domain;
  }

  lemma PolicyRecords(c: Config)
    ensures var domain, mailHost := c.domain, MailHost(c);
      && RecordFor(c, Slot(Dmarc, TXT)) == DNSRecord("TXT", "_dmarc." + domain, "v=DMARC1; p=quarantine; rua=mailto:dmarc@" + domain, None, None)
      && RecordFor(c, Slot(MtaSts, TXT)) == DNSRecord("TXT", "_mta-sts." + domain, "v=STSv1; id=2026050601", None, None)
  {
    hide MailHost;
  }

  lemma ReportAndSetupRecords(c: Config)
    ensures var domain, mailHost := c.domain, MailHost(c);
      && RecordFor(c, Slot(SmtpTls, TXT)) == DNSRecord("TXT", "_smtp._tls." + domain, "v=TLSRPTv1; rua=mailto:tlsrpt@" + domain, None, None)
      && RecordFor(c, Slot(Autoconfig, CNAME)) == DNSRecord("CNAME", "autoconfig." + domain, mailHost, None, None)
      && RecordFor(c, Slot(Autodiscover, CNAME)) == DNSRecord("CNAME", "autodiscover." + domain, mailHost, None, None)
  {
    hide MailHost;
  }

  lemma MailServiceRecords(c: Config)
    ensures var domain, mailHost := c.domain, MailHost(c);
      && RecordFor(c, Slot(Submission, SRV)) == DNSRecord("SRV", "_submission._tcp." + domain, "0 1 587 " + mailHost, None, None)
      && RecordFor(c, Slot(Imaps, SRV)) == DNSRecord("SRV", "_imaps._tcp." + domain, "0 1 993 " + mailHost, None, None)
      && RecordFor(c, Slot(Pop3s, SRV)) == DNSRecord("SRV", "_pop3s._tcp." + domain, "0 1 995 " + mailHost, None, None)
  {
    hide MailHost;
  }

  lemma OtherServiceRecords(c: Config)
    ensures var domain, mailHost := c.domain, MailHost(c);
      && RecordFor(c, Slot(Sieve, SRV)) == DNSRecord("SRV", "_sieve._tcp." + domain, "0 1 4190 " + mailHost, None, None)
      && RecordFor(c, Slot(Caldavs, SRV)) == DNSRecord("SRV", "_caldavs._tcp." + domain, "0 1 443 " + mailHost, None, None)
      && RecordFor(c, Slot(Carddavs, SRV)) == DNSRecord("SRV", "_carddavs._tcp." + domain, "0 1 443 " + mailHost, None, None)
  {
    hide MailHost;
  }

  /* ---- which records can stand beside each other ---- */

  predicate SlotsCompatible(x: Slot, y: Slot) {
    x.place == y.place ==> x.kind != CNAME && y.kind != CNAME && x.kind != y.kind
  }

  ghost predicate AllSlotsCompatible(slots: seq<Slot>) {
    forall i, j :: 0 <= i < j < |slots| ==> SlotsCompatible(slots[i], slots[j])
  }

  lemma ConcatCompatible(a: seq<Slot>, b: seq<Slot>)
    requires AllSlotsCompatible(a) && AllSlotsCompatible(b)
    requires forall x, y :: x in a && y in b ==> x.place != y.place
    ensures AllSlotsCompatible(a + b)
  {
    hide SlotsCompatible;
    forall i, j | 0 <= i < j < |a + b|
      ensures SlotsCompatible((a + b)[i], (a + b)[j])
    {
      if i < |a| <= j {
        assert (a + b)[i] in a && (a + b)[j] in b;
        DifferentPlaces((a + b)[i], (a + b)[j]);
      }
    }
  }

  lemma DifferentPlaces(x: Slot, y: Slot)
    requires x.place != y.place
    ensures SlotsCompatible(x, y)
  {
  }

  lemma SlotsStandTogether(c: Config)
    ensures AllSlotsCompatible(Slots(c))
  {
    var h, w, m, f, d := HostSlots(c), AliasSlots(c, Webmail), AliasSlots(c, Madmin), FixedSlots(), DkimSlots(c);
    HostSlotsStand(c);
    AliasSlotsStand(c, Webmail);
    AliasSlotsStand(c, Madmin);
    FixedSlotsStand();
    hide AllSlotsCompatible, HostSlots, AliasSlots, FixedSlots;
    assert AllSlotsCompatible(d) by { DkimSlotsStand(c); }
    ConcatCompatible(h, w);
    ConcatCompatible(h + w, m);
    ConcatCompatible(h + w + m, f);
    ConcatCompatible(h + w + m + f, d);
  }

  lemma HostSlotsStand(c: Config)
    ensures AllSlotsCompatible(HostSlots(c)) && forall x :: x in HostSlots(c) ==> x.place in {AtMailHost, Mail}
  {
    hide InDomain, NameAt, MailHost, IPv4, IPv6;
  }

  lemma AliasSlotsStand(c: Config, place: Place)
    ensures AllSlotsCompatible(AliasSlots(c, place)) && forall x :: x in AliasSlots(c, place) ==> x.place == place
  {
    hide NameAt, MailHost, IPv4, IPv6, AliasWanted, AliasIsOwnHost;
  }

  lemma DkimSlotsStand(c: Config)
    ensures AllSlotsCompatible(DkimSlots(c))
  {
  }

  /** The fixed places in order; only the apex has two records. */
  function Order(place: Place): nat {
    match place
    case Apex => 0
    case Dmarc => 1
    case MtaSts => 2
    case SmtpTls => 3
    case Autoconfig => 4
    case Autodiscover => 5
    case Submission => 6
    case Imaps => 7
    case Pop3s => 8
    case Sieve => 9
    case Caldavs => 10
    case Carddavs => 11
    case _ => 12
  }

  lemma FixedInOrder()
    ensures var f := FixedSlots();
            && |f| == 13 && f[0] == Slot(Apex, MX) && f[1] == Slot(Apex, TXT)
            && forall i :: 1 <= i < 13 ==> Order(f[i].place) == i - 1
  {
  }

  lemma FixedSlotsStand()
    ensures AllSlotsCompatible(FixedSlots())
    ensures forall x :: x in FixedSlots() ==> x.place !in {AtMailHost, Mail, Webmail, Madmin, Dkim}
  {
    FixedInOrder();
    hide FixedSlots;
  }

  /** What the presence of a record says. */
  ghost predicate SlotFacts(c: Config, x: Slot) {
    && (x.place == AtMailHost ==> InDomain(c) && ((x.kind == A && IPv4(c) != "") || (x.kind == AAAA && IPv6(c) != "")))
    && (x.place == Mail ==> !InDomain(c))
    && (x.place in {Webmail, Madmin} ==> AliasWanted(c, x.place) && x.kind in {A, AAAA, CNAME})
    && (x.place !in {AtMailHost, Mail, Webmail, Madmin, Autoconfig, Autodiscover} ==> x.kind in {MX, TXT, SRV})
    && (x.place == Dkim ==> c.selector != "")
  }

  lemma SlotsHaveFacts(c: Config)
    ensures forall x :: x in Slots(c) ==> SlotFacts(c, x)
  {
    hide InDomain, NameAt, MailHost, IPv4, IPv6, AliasWanted, AliasIsOwnHost, FixedSlots;
    FixedFacts();
    forall x | x in Slots(c)
      ensures SlotFacts(c, x)
    {
      assert x in HostSlots(c) || x in AliasSlots(c, Webmail) || x in AliasSlots(c, Madmin) || x in FixedSlots() || x in DkimSlots(c);
    }
  }

  lemma FixedFacts()
    ensures forall x :: x in FixedSlots() ==>
              && x.place !in {AtMailHost, Mail, Webmail, Madmin, Dkim}
              && (x.place !in {Autoconfig, Autodiscover} ==> x.kind in {MX, TXT, SRV})
    ensures Slot(Autoconfig, CNAME) in FixedSlots() && Slot(Autodiscover, CNAME) in FixedSlots()
    ensures Slot(Apex, TXT) in FixedSlots()
  {
    var f := FixedSlots();
    assert f[1] == Slot(Apex, TXT) && f[5] == Slot(Autoconfig, CNAME) && f[6] == Slot(Autodiscover, CNAME);
  }

  /* ---- names ---- */

  function PrefixLength(place: Place, selector: string): nat {
    match place
    case AtMailHost => 0
    case Apex => 0
    case Mail => 5
    case Webmail => 8
    case Madmin => 7
    case Dmarc => 7
    case MtaSts => 9
    case SmtpTls => 11
    case Autoconfig => 11
    case Autodiscover => 13
    case Submission => 17
    case Imaps => 12
    case Pop3s => 12
    case Sieve => 12
    case Caldavs => 14
    case Carddavs => 15
    case Dkim => |selector| + 12
  }

  function SecondChar(place: Place): char {
    match place
    case Mail => 'a'
    case Webmail => 'e'
    case Madmin => 'a'
    case Dmarc => 'd'
    case MtaSts => 'm'
    case SmtpTls => 's'
    case Autoconfig => 'u'
    case Autodiscover => 'u'
    case Submission => 's'
    case Imaps => 'i'
    case Pop3s => 'p'
    case Sieve => 's'
    case Caldavs => 'c'
    case Carddavs => 'c'
    case _ => '-'
  }

  lemma PrefixShape(place: Place, selector: string)
    ensures var p := Prefix(place, selector);
            && |p| == PrefixLength(place, selector)
            && (place !in {AtMailHost, Apex, Dkim} ==> p[1] == SecondChar(place) && p[|p|-2] != 'y' && LowerChar(p[|p|-2]) != 'y')
            && (place == Dkim ==> p[|p|-2] == 'y')
            && LowerChar(SecondChar(place)) == SecondChar(place)
  {
  }

  lemma ShapesDiffer(p: Place, q: Place, selector: string)
    requires p != q && p != AtMailHost && q != AtMailHost && p != Dkim && q != Dkim
    requires PrefixLength(p, selector) == PrefixLength(q, selector)
    ensures SecondChar(p) != SecondChar(q) && p != Apex && q != Apex
  {
  }

  lemma LowerAt(p: string, d: string, k: nat)
    requires k < |p|
    ensures ToLower(p + d)[k] == LowerChar(p[k]) && |ToLower(p + d)| == |p| + |d|
  {
  }

  /** Different places of one domain have different names. */
  lemma NamesDiffer(c: Config, p: Place, q: Place)
    requires NormalHost(c.domain) && p != q && p != AtMailHost && q != AtMailHost
    ensures !EqualFold(NameAt(c, p), NameAt(c, q))
  {
    hide Prefix, ToLower, LowerChar, NormalizeDNSName;
    NameIs(c, p);
    NameIs(c, q);
    PrefixShape(p, c.selector);
    PrefixShape(q, c.selector);
    var a, b := Prefix(p, c.selector), Prefix(q, c.selector);
    if ToLower(a + c.domain) == ToLower(b + c.domain) {
      assert |ToLower(a + c.domain)| == |ToLower(b + c.domain)|;
      assert |a| == |b|;
      if p != Dkim && q != Dkim {
        ShapesDiffer(p, q, c.selector);
        LowerAt(a, c.domain, 1);
        LowerAt(b, c.domain, 1);
      } else if p != Apex && q != Apex {
        LowerAt(a, c.domain, |a| - 2);
        LowerAt(b, c.domain, |a| - 2);
        LowerY();
      }
    }
  }

  lemma LowerY()
    ensures LowerChar('y') == 'y'
  {
  }

  /** In a normal domain the browser aliases' names are normal already. */
  lemma NameIs(c: Config, place: Place)
    requires NormalHost(c.domain) && place != AtMailHost
    ensures NameAt(c, place) == Prefix(place, c.selector) + c.domain
  {
    hide NormalizeDNSName;
    if place in {Webmail, Madmin} {
      LabelIsNormal(place, c.selector, c.domain);
      NormalHostIsNormal(Prefix(place, c.selector) + c.domain);
    }
  }

  lemma LabelIsNormal(place: Place, selector: string, domain: string)
    requires NormalHost(domain) && place in {Webmail, Madmin, Autoconfig, Autodiscover}
    ensures NormalHost(Prefix(place, selector) + domain)
  {
    var p := Prefix(place, selector);
    var name := p + domain;
    forall k | 0 <= k < |p|
      ensures !IsSpace(p[k]) && LowerChar(p[k]) == p[k]
    {
    }
    forall k | 0 <= k < |domain|
      ensures !IsSpace(domain[k]) && LowerChar(domain[k]) == domain[k]
    {
      assert domain[k] in domain && ToLower(domain)[k] == LowerChar(domain[k]);
    }
    assert ToLower(name) == name;
  }

  /* ---- when the generated set is well-formed ---- */

  predicate Published(c: Config) {
    InDomain(c) && (IPv4(c) != "" || IPv6(c) != "")
  }

  predicate HostIsAt(c: Config, place: Place) {
    EqualFold(MailHost(c), NameAt(c, place))
  }

  /** The mail host is published under a name that the domain also uses for something else. */
  predicate Clash(c: Config) {
    Published(c) && (|| HostIsAt(c, Autoconfig) || HostIsAt(c, Autodiscover)
                     || (AliasWanted(c, Webmail) && HostIsAt(c, Webmail))
                     || (AliasWanted(c, Madmin) && HostIsAt(c, Madmin)))
  }

  function Wanted(c: Config, slot: Slot): (r: Record)
    ensures r.kind == KindName(slot.kind) && r.name == NameAt(c, slot.place)
  {
    Desired(RecordFor(c, slot))
  }

  ghost predicate IsWanted(desired: seq<Record>, c: Config) {
    |desired| == |Slots(c)| && forall i :: 0 <= i < |desired| ==> desired[i] == Wanted(c, Slots(c)[i])
  }

  lemma KindsFold(k: Kind, l: Kind)
    ensures EqualFold(KindName(k), KindName(l)) <==> k == l
    ensures EqualFold(KindName(k), "CNAME") <==> k == CNAME
    ensures KindName(k) == "CNAME" <==> k == CNAME
  {
    var a, b := ToLower(KindName(k)), ToLower(KindName(l));
    if {k, l} == {TXT, SRV} {
      assert a[0] != b[0];
    }
    assert KindName(CNAME) == "CNAME";
    assert k != CNAME ==> |a| != 5;
  }

  lemma WantedCompatible(c: Config, x: Slot, y: Slot)
    requires NormalHost(c.domain) && SlotFacts(c, x) && SlotFacts(c, y) && SlotsCompatible(x, y)
    requires !Clash(c)
    ensures Compatible(Wanted(c, x), Wanted(c, y))
  {
    hide InDomain, NameAt, MailHost, IPv4, IPv6, AliasWanted, KindName, ToLower, Desired, RecordFor, EqualFold;
    KindsFold(x.kind, y.kind);
    KindsFold(y.kind, x.kind);
    HostName(c);
    if x.place != y.place && x.place != AtMailHost && y.place != AtMailHost {
      NamesDiffer(c, x.place, y.place);
    }
    FoldSymmetric(Wanted(c, x).name, Wanted(c, y).name);
  }

  lemma FoldSymmetric(a: string, b: string)
    ensures EqualFold(a, b) == EqualFold(b, a)
  {
  }

  lemma HostName(c: Config)
    ensures NameAt(c, AtMailHost) == MailHost(c)
  {
  }

  lemma ClashBreaks(c: Config, desired: seq<Record>)
    requires IsWanted(desired, c) && Clash(c)
    ensures !WellFormed(desired)
  {
    hide InDomain, NameAt, MailHost, IPv4, IPv6, AliasWanted, AliasIsOwnHost, KindName, ToLower, Wanted, EqualFold, FixedSlots, Compatible;
    var x := Slot(AtMailHost, if IPv4(c) != "" then A else AAAA);
    var place := if HostIsAt(c, Autoconfig) then Autoconfig else if HostIsAt(c, Autodiscover) then Autodiscover
                 else if AliasWanted(c, Webmail) && HostIsAt(c, Webmail) then Webmail else Madmin;
    var y := Slot(place, if place in {Webmail, Madmin} && AliasIsOwnHost(c, place) then x.kind else CNAME);
    FixedFacts();
    assert HostSlots(c)[0] == x;
    assert y in HostSlots(c) + AliasSlots(c, Webmail) + AliasSlots(c, Madmin) + FixedSlots() by {
      assert place in {Autoconfig, Autodiscover} ==> y in FixedSlots();
      assert place in {Webmail, Madmin} ==> y in AliasSlots(c, place);
    }
    assert Slots(c)[0] == x && y in Slots(c);
    var j :| 0 <= j < |Slots(c)| && Slots(c)[j] == y;
    NotCompatible(c, x, y);
    assert !Compatible(desired[0], desired[j]);
  }

  lemma NotCompatible(c: Config, x: Slot, y: Slot)
    requires x.place == AtMailHost && HostIsAt(c, y.place) && (y.kind == CNAME || y.kind == x.kind)
    ensures !Compatible(Wanted(c, x), Wanted(c, y))
  {
    hide NameAt, MailHost, KindName, ToLower, Desired, RecordFor, EqualFold;
    KindsFold(x.kind, y.kind);
    KindsFold(y.kind, x.kind);
    HostName(c);
  }

  /** The generated records can stand beside each other exactly when the published mail host is
      not one of the names the domain uses for something else. */
  lemma WellFormedIffNoClash(c: Config, desired: seq<Record>)
    requires NormalHost(c.domain) && IsWanted(desired, c)
    ensures WellFormed(desired) <==> !Clash(c)
  {
    if Clash(c) {
      ClashBreaks(c, desired);
    } else {
      hide SlotFacts, SlotsCompatible, Slots, Wanted, Compatible, Clash;
      SlotsStandTogether(c);
      SlotsHaveFacts(c);
      forall i, j | 0 <= i < j < |desired|
        ensures Compatible(desired[i], desired[j])
      {
        assert Slots(c)[i] in Slots(c) && Slots(c)[j] in Slots(c);
        WantedCompatible(c, Slots(c)[i], Slots(c)[j]);
      }
    }
  }

  /** A shared mail host set to a client setup name of the domain, and published, always clashes. */
  lemma SetupHostClashes(c: Config, place: Place)
    requires NormalHost(c.domain) && place in {Autoconfig, Autodiscover}
    requires NormalizeHostnameMode(c.settings.hostnameMode) != "per-domain"
    requires NormalizeDNSName(c.settings.mailHostname) == NameAt(c, place) && !HasSuffix(NameAt(c, place), ".local")
    requires IPv4(c) != "" || IPv6(c) != ""
    ensures Clash(c)
  {
    hide *;
    var host := Prefix(place, c.selector) + c.domain;
    NameIs(c, place);
    LabelIsNormal(place, c.selector, c.domain);
    NormalHostIsNormal(host);
    NormalHostIsNormal(c.domain);
    SetupName(place, c.selector, c.domain);
    HostIs(c, host);
    ClashIs(c, place);
  }

  lemma HostIs(c: Config, host: string)
    requires NormalizeHostnameMode(c.settings.hostnameMode) != "per-domain"
    requires NormalizeDNSName(c.settings.mailHostname) == host && host != "" && '.' in host && !HasSuffix(host, ".local")
    requires NormalizeDNSName(host) == host && NormalizeDNSName(c.domain) == c.domain && HasSuffix(host, "." + c.domain)
    ensures MailHost(c) == host && InDomain(c)
  {
    hide NormalizeHostnameMode, NormalizeDNSName, HasSuffix;
  }

  lemma ClashIs(c: Config, place: Place)
    requires place in {Autoconfig, Autodiscover} && InDomain(c) && (IPv4(c) != "" || IPv6(c) != "")
    requires MailHost(c) == NameAt(c, place)
    ensures Clash(c)
  {
    hide InDomain, IPv4, IPv6, MailHost, NameAt, AliasWanted;
  }

  lemma SetupName(place: Place, selector: string, domain: string)
    requires place in {Autoconfig, Autodiscover}
    ensures var host := Prefix(place, selector) + domain; host != "" && '.' in host && HasSuffix(host, "." + domain)
  {
    var p := Prefix(place, selector);
    var host := p + domain;
    assert p[|p|-1] == '.' && host[|p|-1] == '.';
    assert host[|p|-1..] == "." + domain;
  }

  function PlanFor(desired: seq<Record>): (planned: seq<Planned>)
    ensures IsPlan(planned, desired, [])
  {
    seq(|desired|, i requires 0 <= i < |desired| => PlanOne(desired[i], Touch(desired[i], [])))
  }

  /** The records generated for such a host do not settle: once an empty zone is filled with them,
      some wanted record is not "ok". */
  lemma SetupHostDoesNotSettle(c: Config, place: Place, desired: seq<Record>)
    requires NormalHost(c.domain) && place in {Autoconfig, Autodiscover}
    requires NormalizeHostnameMode(c.settings.hostnameMode) != "per-domain"
    requires NormalizeDNSName(c.settings.mailHostname) == NameAt(c, place) && !HasSuffix(NameAt(c, place), ".local")
    requires IPv4(c) != "" || IPv6(c) != ""
    requires IsWanted(desired, c)
    ensures var q := ApplyAll(Start(map[], 1), PlanFor(desired), true);
            q.Done? && exists k :: 0 <= k < |desired| && !Settled(q.p.zone, desired[k])
  {
    hide *;
    SetupHostClashes(c, place);
    ClashBreaks(c, desired);
    DivergesUnlessWellFormed(desired, PlanFor(desired));
  }

  /** One such configuration, from the settings to the unsettled zone. */
  lemma ClashingConfiguration() returns (c: Config, desired: seq<Record>)
    ensures c == Config("a.b", "", "", Settings("autoconfig.a.b", "", "", "1", "", "", false, false))
    ensures NormalHost(c.domain) && Clash(c) && IsWanted(desired, c)
    ensures var q := ApplyAll(Start(map[], 1), PlanFor(desired), true);
            q.Done? && exists k :: 0 <= k < |desired| && !Settled(q.p.zone, desired[k])
  {
    hide ApplyAll, Settled, Clash, Slots, Wanted, NormalizeHostnameMode, NormalizeDNSName, IPv4, NameAt, NormalHost, PlanFor, HasSuffix;
    c := Config("a.b", "", "", Settings("autoconfig.a.b", "", "", "1", "", "", false, false));
    desired := seq(|Slots(c)|, i requires 0 <= i < |Slots(c)| => Wanted(c, Slots(c)[i]));
    ExampleIsNormal(c);
    SetupHostClashes(c, Autoconfig);
    SetupHostDoesNotSettle(c, Autoconfig, desired);
  }

  lemma ExampleIsNormal(c: Config)
    requires c == Config("a.b", "", "", Settings("autoconfig.a.b", "", "", "1", "", "", false, false))
    ensures NormalHost(c.domain) && NormalizeHostnameMode(c.settings.hostnameMode) != "per-domain"
    ensures NormalizeDNSName(c.settings.mailHostname) == NameAt(c, Autoconfig) && !HasSuffix(NameAt(c, Autoconfig), ".local")
    ensures IPv4(c) != ""
  {
    hide NormalizeDNSName, NormalizeHostnameMode, TrimSpace, MailHost, Prefix;
    ShortNameIsNormal();
    LabelIsNormal(Autoconfig, "", "a.b");
    AutoconfigName();
    NormalHostIsNormal("autoconfig.a.b");
    TrimNothing("1");
    SharedMode();
  }

  lemma ShortNameIsNormal()
    ensures NormalHost("a.b")
  {
    assert ToLower("a.b")[0] == 'a' && ToLower("a.b")[1] == '.' && ToLower("a.b")[2] == 'b';
    assert ToLower("a.b") == "a.b";
  }

  lemma AutoconfigName()
    ensures Prefix(Autoconfig, "") + "a.b" == "autoconfig.a.b" && !HasSuffix("autoconfig.a.b", ".local")
  {
    var host := "autoconfig.a.b";
    assert host[8..][5] != ".local"[5];
  }

  lemma SharedMode()
    ensures NormalizeHostnameMode("") != "per-domain"
  {
  }

  /** With one mail host per domain there is never a clash. */
  lemma PerDomainNeverClashes(c: Config)
    requires NormalHost(c.domain) && NormalizeHostnameMode(c.settings.hostnameMode) == "per-domain"
    ensures !Clash(c)
  {
    hide NormalizeHostnameMode, AliasWanted, EqualFold, ToLower, NormalizeDNSName, InDomain;
    NameIs(c, Mail);
    assert MailHost(c) == NameAt(c, Mail);
    NamesDiffer(c, Mail, Autoconfig);
    NamesDiffer(c, Mail, Autodiscover);
    NamesDiffer(c, Mail, Webmail);
    NamesDiffer(c, Mail, Madmin);
  }

  /** Nor in any mode, unless the mail host is one of four names of the domain. */
  lemma OrdinaryHostNeverClashes(c: Config)
    requires forall place :: place in {Webmail, Madmin, Autoconfig, Autodiscover} ==> !HostIsAt(c, place)
    ensures !Clash(c)
  {
  }

  /* ---- end to end ---- */

  /** The zone has the record: one of its name and type, but for case, with its content, but for case and
      white space around it, its priority, and proxied exactly if the record is; of other types than TXT
      it has no second one. */
  ghost predicate Served(zone: Zone, r: DNSRecord) {
    exists id :: id in zone && ServedBy(zone, r, id)
  }

  ghost predicate ServedBy(zone: Zone, r: DNSRecord, id: nat)
    requires id in zone
  {
    && EqualFold(zone[id].name, r.name) && EqualFold(zone[id].kind, r.kind)
    && EqualFold(TrimSpace(zone[id].content), TrimSpace(r.value)) && zone[id].priority == r.priority
    && (zone[id].proxied == Some(true) <==> r.kind in {"A", "AAAA", "CNAME"} && r.proxied == Some(true))
    && (r.kind != "TXT" ==>
          forall other :: other in zone && EqualFold(zone[other].name, r.name) && EqualFold(zone[other].kind, r.kind) ==> other == id)
  }

  lemma SettledIsServed(zone: Zone, r: DNSRecord)
    requires Settled(zone, Desired(r)) && r.kind in {"A", "AAAA", "CNAME", "MX", "TXT"}
    ensures Served(zone, r)
  {
    hide ToLower, TrimSpace, IsSpf, SrvComparable, Fields, Atoi, Matches;
    var want := Desired(r);
    NotSrv(r);
    var id :| && id in zone && Relevant(want, zone[id]) && Matches(zone[id], want)
              && forall other :: other in zone && Relevant(want, zone[other]) ==> other == id;
    MatchesMeans(zone[id], want);
    assert ServedBy(zone, r, id);
  }

  lemma NotSrv(r: DNSRecord)
    requires r.kind in {"A", "AAAA", "CNAME", "MX", "TXT"}
    ensures r.kind != "SRV" && !EqualFold(r.kind, "SRV")
    ensures Desired(r) == Record(0, r.kind, r.name, r.value, r.priority, 1,
                                 if r.kind in {"A", "AAAA", "CNAME"} then Some(r.proxied == Some(true)) else None,
                                 "Managed by ProIdentity Mail", map[])
  {
    hide Fields, AtoiOrZero, NormalizeDNSName;
    assert ToLower("SRV")[0] == 's' && |ToLower("SRV")| == 3;
    assert r.kind != "" && (|r.kind| == 3 ==> r.kind == "TXT" && ToLower(r.kind)[0] == 't');
  }

  lemma MatchesMeans(current: Record, want: Record)
    requires Matches(current, want) && !EqualFold(want.kind, "SRV")
    ensures EqualFold(current.kind, want.kind) && EqualFold(TrimSpace(current.content), TrimSpace(want.content))
    ensures current.priority == want.priority && (current.proxied == Some(true) <==> want.proxied == Some(true))
  {
    hide ToLower, TrimSpace, SrvComparable;
  }

  /** With every wanted record settled, the zone has all records that are not of type SRV, and among them
      those that mail depends on. */
  lemma SettledRecordsAreServed(c: Config, desired: seq<Record>, zone: Zone)
    requires IsWanted(desired, c) && forall k :: 0 <= k < |desired| ==> Settled(zone, desired[k])
    ensures forall x :: x in Slots(c) && x.kind != SRV ==> Served(zone, RecordFor(c, x))
  {
    hide Slots, RecordFor, Settled, Served;
    forall x | x in Slots(c) && x.kind != SRV
      ensures Served(zone, RecordFor(c, x))
    {
      var k :| 0 <= k < |Slots(c)| && Slots(c)[k] == x;
      assert desired[k] == Wanted(c, x);
      KindIsListed(x.kind);
      SettledIsServed(zone, RecordFor(c, x));
    }
  }

  lemma KindIsListed(kind: Kind)
    requires kind != SRV
    ensures KindName(kind) in {"A", "AAAA", "CNAME", "MX", "TXT"}
  {
  }

  ghost predicate MailIsServed(c: Config, zone: Zone) {
    var v4, v6 := TrimSpace(c.settings.publicIPv4), TrimSpace(c.settings.publicIPv6);
    var own := MailHost(c) == c.domain || HasSuffix(MailHost(c), "." + c.domain);
    && Served(zone, DNSRecord("MX", c.domain, MailHost(c), Some(10), None))
    && Served(zone, DNSRecord("TXT", c.domain, "v=spf1 mx -all", None, None))
    && (own && v4 != "" ==> Served(zone, DNSRecord("A", MailHost(c), v4, None, None)))
    && (own && v6 != "" ==> Served(zone, DNSRecord("AAAA", MailHost(c), v6, None, None)))
    && (!own && MailHost(c) != "mail." + c.domain ==> Served(zone, DNSRecord("CNAME", "mail." + c.domain, MailHost(c), None, None)))
  }

  lemma MailSlotsServed(c: Config, zone: Zone)
    requires NormalHost(c.domain) && NormalHost(MailHost(c))
    requires forall x :: x in Slots(c) && x.kind != SRV ==> Served(zone, RecordFor(c, x))
    ensures MailIsServed(c, zone)
  {
    hide Slots, RecordFor, Served, NormalHost, MailHost, TrimSpace, HasSuffix, InDomain, IPv4, IPv6;
    MailSlots(c);
    HostKinds(c);
    ApexRecords(c);
  }

  /** For a domain whose mail host does not clash, applying its generated records with replace to
      any zone settles all of them.  Afterwards the zone has every generated record, the MX, address and
      SPF records with the values of the configuration; no wanted name has a CNAME beside another record,
      and the apex has exactly one SPF record. */
  lemma GeneratedRecordsConverge(c: Config, desired: seq<Record>, zone: Zone, nextId: nat, listing: seq<Record>,
                                 planned: seq<Planned>, listing': seq<Record>, planned': seq<Planned>)
    requires NormalHost(c.domain) && !Clash(c) && IsWanted(desired, c)
    requires ValidZone(zone) && (forall id :: id in zone ==> id < nextId) && nextId > 0
    requires IsListing(listing, zone) && IsPlan(planned, desired, listing)
    requires var q := ApplyAll(Start(zone, nextId), planned, true);
             q.Done? ==> IsListing(listing', q.p.zone) && IsPlan(planned', desired, listing')
    ensures var q := ApplyAll(Start(zone, nextId), planned, true);
            && q.Done?
            && (forall k :: 0 <= k < |planned'| ==> planned'[k].action == OK)
            && (forall x :: x in Slots(c) && x.kind != SRV ==> Served(q.p.zone, RecordFor(c, x)))
            && (NormalHost(MailHost(c)) ==> MailIsServed(c, q.p.zone))
            && (forall k, id :: 0 <= k < |desired| && id in q.p.zone ==> CnameIsAlone(q.p.zone, id, desired[k].name))
            && exists spf :: spf in q.p.zone && IsApexSpf(c, q.p.zone[spf])
                 && forall other :: other in q.p.zone && IsApexSpf(c, q.p.zone[other]) ==> other == spf
  {
    hide ApplyAll, Settled, IsListing, IsPlan, PlanOne, WellFormed, Slots, Wanted, NormalHost, Clash, EqualFold, IsCname, IsApexSpf,
      Served, RecordFor, MailIsServed, MailHost;
    WellFormedIffNoClash(c, desired);
    PlanLength(planned, desired, listing);
    Convergence(zone, nextId, desired, listing, planned, listing', planned');
    var q := ApplyAll(Start(zone, nextId), planned, true).p;
    SettledRecordsAreServed(c, desired, q.zone);
    if NormalHost(MailHost(c)) {
      MailSlotsServed(c, q.zone);
    }
    forall k, id | 0 <= k < |desired| && id in q.zone
      ensures CnameIsAlone(q.zone, id, desired[k].name)
    {
      KindIsExact(c, Slots(c)[k]);
      if EqualFold(q.zone[id].name, desired[k].name) {
        SettledNamesAreClean(q.zone, desired[k], id);
      }
    }
    var i := SpfIndex(c);
    ApexSpfIsUnique(c, q.zone, desired[i]);
  }

  /** If the record stands at the name and is a CNAME, nothing else stands there. */
  ghost predicate CnameIsAlone(zone: Zone, id: nat, name: string)
    requires id in zone
  {
    EqualFold(zone[id].name, name) && IsCname(zone[id]) ==>
      forall other :: other in zone && EqualFold(zone[other].name, name) ==> other == id
  }

  lemma PlanLength(planned: seq<Planned>, desired: seq<Record>, listing: seq<Record>)
    requires IsPlan(planned, desired, listing)
    ensures |planned| == |desired|
  {
  }

  lemma KindIsExact(c: Config, slot: Slot)
    ensures Wanted(c, slot).kind == "CNAME" || !IsCname(Wanted(c, slot))
  {
    hide ToLower, KindName;
    KindsFold(slot.kind, slot.kind);
  }

  predicate IsApexSpf(c: Config, r: Record) {
    EqualFold(r.name, c.domain) && EqualFold(r.kind, "TXT") && IsSpf(r.content)
  }

  lemma SpfIndex(c: Config) returns (i: nat)
    ensures i < |Slots(c)| && Slots(c)[i] == Slot(Apex, TXT)
  {
    hide HostSlots, AliasSlots, DkimSlots, FixedSlots;
    FixedFacts();
    assert Slot(Apex, TXT) in Slots(c);
    i :| 0 <= i < |Slots(c)| && Slots(c)[i] == Slot(Apex, TXT);
  }

  lemma SpfText(c: Config)
    requires NormalHost(c.domain)
    ensures var w := Wanted(c, Slot(Apex, TXT));
            && w.kind == "TXT" && w.name == c.domain && IsSpf(w.content)
            && TrimSuffix(w.name, ".") == w.name
  {
    hide ToLower, IsSpf, Desired;
    assert "" + c.domain == c.domain;
    assert c.domain[|c.domain|-1..] == [c.domain[|c.domain|-1]];
    SpfIsSpf();
    TextContent(RecordFor(c, Slot(Apex, TXT)));
  }

  lemma TextContent(r: DNSRecord)
    requires r.kind == "TXT"
    ensures Desired(r).content == r.value
  {
    assert "TXT" != "SRV" by { assert "TXT"[0] != "SRV"[0]; }
  }

  lemma SpfIsSpf()
    ensures IsSpf("v=spf1 mx -all")
  {
    var lower := ToLower("v=spf1 mx -all");
    assert lower[0] == 'v' && lower[1] == '=' && lower[2] == 's' && lower[3] == 'p' && lower[4] == 'f' && lower[5] == '1';
  }

  lemma ApexSpfIsUnique(c: Config, zone: Zone, want: Record)
    requires NormalHost(c.domain) && want == Wanted(c, Slot(Apex, TXT)) && Settled(zone, want)
    ensures exists spf :: spf in zone && IsApexSpf(c, zone[spf])
              && forall other :: other in zone && IsApexSpf(c, zone[other]) ==> other == spf
  {
    hide ToLower, Wanted, NormalHost, Matches, IsSpf;
    SpfText(c);
    var own :| && own in zone && Relevant(want, zone[own]) && Matches(zone[own], want)
               && forall other :: other in zone && Relevant(want, zone[other]) ==> other == own;
    MatchesHasType(zone[own], want);
    KindsFold(TXT, CNAME);
    assert KindName(TXT) == "TXT" && KindName(CNAME) == "CNAME";
    assert !IsCname(zone[own]);
    assert IsApexSpf(c, zone[own]);
    forall other | other in zone && IsApexSpf(c, zone[other]) ensures other == own {
      assert Relevant(want, zone[other]);
    }
  }
}
