/** The DNS planner of internal/admin/sql_store.go: for each wanted record, which existing
    records it touches, and whether it is there, missing, or in conflict. */
module Cloudflare {
  import opened Options
  import opened Text
  import opened Dns

  predicate IsSpf(content: string) {
    "v=spf1" <= ToLower(content)
  }

  lemma SpfIs(content: string)
    ensures IsSpf(content) <==> |content| >= 6 && EqualFold(content[..6], "v=spf1")
  {
    assert ToLower("v=spf1") == "v=spf1";
    assert |content| >= 6 ==> ToLower(content)[..6] == ToLower(content[..6]);
  }

  predicate IsCname(r: Record) {
    EqualFold(r.kind, "CNAME")
  }

  /** Whether an existing record is in the way of, or is, the wanted one. */
  predicate Relevant(want: Record, current: Record) {
    && EqualFold(current.name, want.name)
    && (|| want.kind == "CNAME"
        || IsCname(current)
        || (&& EqualFold(current.kind, want.kind)
            && !(&& want.kind == "TXT" && EqualFold(want.name, TrimSuffix(want.name, "."))
                 && IsSpf(want.content) && !IsSpf(current.content))))
  }

  function Touch(want: Record, existing: seq<Record>): (out: seq<Record>)
    ensures forall r :: r in out <==> r in existing && Relevant(want, r)
  {
    if existing == [] then []
    else
      var front, last := existing[..|existing|-1], existing[|existing|-1];
      assert existing == front + [last];
      Touch(want, front) + (if Relevant(want, last) then [last] else [])
  }

  method RelevantExisting(want: Record, existing: seq<Record>) returns (out: seq<Record>)
    ensures out == Touch(want, existing)
  {
    out := [];
    var i := 0;
    while i < |existing|
      invariant 0 <= i <= |existing|
      invariant out == Touch(want, existing[..i])
    {
      hide Relevant, EqualFold, IsCname, IsSpf;
      var current := existing[i];
      TouchNext(want, existing, i);
      RelevantCases(want, current);
      if !EqualFold(current.name, want.name) {
      } else if want.kind == "CNAME" {
        out := out + [current];
      } else if EqualFold(current.kind, "CNAME") {
        out := out + [current];
      } else if !EqualFold(current.kind, want.kind) {
      } else if want.kind == "TXT" && EqualFold(want.name, TrimSuffix(want.name, "."))
                && IsSpf(want.content) && !IsSpf(current.content) {
      } else {
        out := out + [current];
      }
      i := i + 1;
    }
    assert existing[..i] == existing;
  }

  lemma TouchNext(want: Record, existing: seq<Record>, i: nat)
    requires i < |existing|
    ensures Touch(want, existing[..i+1]) == Touch(want, existing[..i]) + (if Relevant(want, existing[i]) then [existing[i]] else [])
  {
    assert existing[..i+1][..i] == existing[..i];
  }

  lemma RelevantCases(want: Record, current: Record)
    ensures Relevant(want, current) <==>
      && EqualFold(current.name, want.name)
      && (|| want.kind == "CNAME"
          || EqualFold(current.kind, "CNAME")
          || (&& EqualFold(current.kind, want.kind)
              && !(&& want.kind == "TXT" && EqualFold(want.name, TrimSuffix(want.name, "."))
                   && IsSpf(want.content) && !IsSpf(current.content))))
  {
  }

  datatype Action = OK | Create | Conflict | Blocked
  datatype Reason = Missing | AlreadyMatches | Differs | ShouldBeProxied | ShouldBeDnsOnly | CnameOverOthers | OtherOverCname
  datatype Planned = Planned(action: Action, reason: Reason, desired: Record, touch: seq<Record>)

  predicate HasCname(records: seq<Record>) {
    exists r :: r in records && IsCname(r)
  }

  predicate HasOther(records: seq<Record>) {
    exists r :: r in records && !IsCname(r)
  }

  function PlanOne(want: Record, touch: seq<Record>): Planned {
    if touch == [] then Planned(Create, Missing, want, touch)
    else if |touch| == 1 && Matches(touch[0], want) then Planned(OK, AlreadyMatches, want, touch)
    else if want.kind != "CNAME" && HasCname(touch) then Planned(Blocked, OtherOverCname, want, touch)
    else if want.kind == "CNAME" && HasOther(touch) then Planned(Blocked, CnameOverOthers, want, touch)
    else if |touch| == 1 && SameButProxy(touch[0], want) then
      Planned(Conflict, if IsProxied(want) then ShouldBeProxied else ShouldBeDnsOnly, want, touch)
    else Planned(Conflict, Differs, want, touch)
  }

  method PlanCloudflareActions(desired: seq<Record>, existing: seq<Record>) returns (planned: seq<Planned>)
    ensures IsPlan(planned, desired, existing)
  {
    planned := [];
    var i := 0;
    while i < |desired|
      invariant 0 <= i == |planned| <= |desired|
      invariant forall k :: 0 <= k < i ==> planned[k] == PlanOne(desired[k], Touch(desired[k], existing))
    {
      hide *;
      var want := desired[i];
      var touch := RelevantExisting(want, existing);
      var action, reason := Create, Missing;
      PlanCases(want, touch);
      if |touch| == 0 {
      } else if |touch| == 1 && Matches(touch[0], want) {
        action, reason := OK, AlreadyMatches;
      } else {
        action, reason := Conflict, Differs;
        if |touch| == 1 && SameButProxy(touch[0], want) {
          reason := if IsProxied(want) then ShouldBeProxied else ShouldBeDnsOnly;
        }
        if want.kind == "CNAME" && HasOther(touch) {
          action, reason := Blocked, CnameOverOthers;
        }
        if want.kind != "CNAME" && HasCname(touch) {
          action, reason := Blocked, OtherOverCname;
        }
      }
      planned := planned + [Planned(action, reason, want, touch)];
      i := i + 1;
    }
  }

  lemma PlanCases(want: Record, touch: seq<Record>)
    ensures PlanOne(want, touch) ==
      if |touch| == 0 then Planned(Create, Missing, want, touch)
      else if |touch| == 1 && Matches(touch[0], want) then Planned(OK, AlreadyMatches, want, touch)
      else if want.kind != "CNAME" && HasCname(touch) then Planned(Blocked, OtherOverCname, want, touch)
      else if want.kind == "CNAME" && HasOther(touch) then Planned(Blocked, CnameOverOthers, want, touch)
      else Planned(Conflict, if |touch| == 1 && SameButProxy(touch[0], want)
                             then (if IsProxied(want) then ShouldBeProxied else ShouldBeDnsOnly) else Differs, want, touch)
  {
    hide Matches, SameButProxy, IsProxied, HasCname, HasOther;
  }

  ghost predicate IsPlan(planned: seq<Planned>, desired: seq<Record>, existing: seq<Record>) {
    && |planned| == |desired|
    && forall k :: 0 <= k < |planned| ==> planned[k] == PlanOne(desired[k], Touch(desired[k], existing))
  }

  predicate InTheWay(p: Planned) {
    p.action in {Conflict, Blocked}
  }

  /** Wanted records that can stand beside each other: two at one name are both something other
      than CNAME (section 3.6.2 of RFC 1034) and have different types. */
  ghost predicate WellFormed(desired: seq<Record>) {
    forall i, j :: 0 <= i < j < |desired| ==> Compatible(desired[i], desired[j])
  }

  predicate Compatible(a: Record, b: Record) {
    EqualFold(a.name, b.name) ==> !IsCname(a) && !IsCname(b) && !EqualFold(a.kind, b.kind)
  }

  lemma CompatibleWants(desired: seq<Record>, i: nat, j: nat)
    requires WellFormed(desired) && i < |desired| && j < |desired| && i != j
    ensures Compatible(desired[i], desired[j])
  {
    if j < i {
      assert Compatible(desired[j], desired[i]);
    }
  }

  /** A stored wanted record is relevant to itself, and matches it. */
  lemma StoredIsRelevant(want: Record, id: nat)
    ensures Relevant(want, want.(id := id)) && Matches(want.(id := id), want)
  {
    StoredMatches(want, id);
  }

  /** It is not relevant to a compatible other one, whatever its id. */
  lemma CompatibleIsIrrelevant(a: Record, b: Record, id: nat)
    requires Compatible(a, b)
    ensures !Relevant(a, b.(id := id))
  {
    CnameFolds(a);
  }

  lemma CnameFolds(a: Record)
    ensures a.kind == "CNAME" ==> IsCname(a)
  {
  }

  /** A record that matches one wanted record, or has exactly its type, is irrelevant to every
      compatible other one. */
  lemma OwnTypeIsIrrelevant(a: Record, b: Record, r: Record)
    requires Compatible(a, b) && Relevant(b, r) && EqualFold(r.kind, b.kind)
    ensures !Relevant(a, r)
  {
    hide ToLower;
    CnameFolds(a);
    CnameFolds(b);
  }

  /* ---- what "ok" means ---- */

  /** A wanted record is planned as "ok" exactly when one listed record is relevant to it, and that one has
      its type, its content but for case and white space around it, its priority, and its proxy flag, where
      a missing flag is off. */
  lemma OkMeans(want: Record, existing: seq<Record>)
    requires !EqualFold(want.kind, "SRV")
    ensures var near := Touch(want, existing);
            PlanOne(want, near).action == OK <==>
              && |near| == 1 && EqualFold(near[0].kind, want.kind)
              && EqualFold(TrimSpace(near[0].content), TrimSpace(want.content))
              && near[0].priority == want.priority
              && (near[0].proxied == Some(true) <==> want.proxied == Some(true))
  {
    hide Touch, ToLower, TrimSpace, SrvComparable;
  }

  /** What is planned otherwise: nothing in the way means create, a CNAME beside another type is blocked,
      and every other difference is a conflict. */
  lemma ActionsMean(want: Record, near: seq<Record>)
    ensures var action := PlanOne(want, near).action;
            && (action == Create <==> near == [])
            && (action == Blocked <==>
                  && action != OK && near != []
                  && if want.kind == "CNAME" then exists r :: r in near && !EqualFold(r.kind, "CNAME")
                     else exists r :: r in near && EqualFold(r.kind, "CNAME"))
  {
    hide Matches, SameButProxy, EqualFold;
  }

  /** And what it is planned for, when only the proxy flag is wrong. */
  lemma ProxyReasonsMean(want: Record, near: seq<Record>)
    requires !EqualFold(want.kind, "SRV") && PlanOne(want, near).action == Conflict
    ensures var reason := PlanOne(want, near).reason;
            if && |near| == 1 && EqualFold(near[0].kind, want.kind) && near[0].priority == want.priority
               && EqualFold(TrimSpace(near[0].content), TrimSpace(want.content))
            then && (near[0].proxied == Some(true) <==> want.proxied != Some(true))
                 && reason == if want.proxied == Some(true) then ShouldBeProxied else ShouldBeDnsOnly
            else reason == Differs
  {
    hide ToLower, TrimSpace, SrvComparable;
  }

  /** An SRV record is compared by its four values instead, whichever form either of the two has. */
  lemma SrvOkMeans(want: Record, existing: seq<Record>, p: int, w: int, q: int, target: string,
                   p': int, w': int, q': int, target': string)
    requires Says(want, p, w, q, target)
    requires |Touch(want, existing)| == 1 && Says(Touch(want, existing)[0], p', w', q', target')
    ensures PlanOne(want, Touch(want, existing)).action == OK <==>
              && p == p' && w == w' && q == q' && target == target'
              && (Touch(want, existing)[0].proxied == Some(true) <==> want.proxied == Some(true))
  {
    hide Touch, ToLower, SrvText, NormalHost, RecordComparable, InRange, IsSrvData, NoSrvData;
    var current := Touch(want, existing)[0];
    SaysText(want, p, w, q, target);
    SaysText(current, p', w', q', target');
    SrvTextTells(p', w', q', target', p, w, q, target);
  }

  /** Case is ignored also where it matters: a DKIM record with a key in the wrong case is "ok". */
  lemma WrongCaseIsOk(name: string, key: string, existing: Record)
    requires existing.kind == "TXT" && existing.name == name && existing.priority == None && existing.proxied == None
    requires existing.content == ToLower(key) && !IsSpf(key)
    ensures PlanOne(Desired(DNSRecord("TXT", name, key, None, None)),
                    Touch(Desired(DNSRecord("TXT", name, key, None, None)), [existing])).action == OK
  {
    hide TrimSpace, IsSpf, ToLower;
    var want := Desired(DNSRecord("TXT", name, key, None, None));
    TextIsNoSrv();
    assert [existing][..0] == [] && Touch(want, [existing]) == [existing];
    LowerTwice(TrimSpace(key));
    LowerTrims(key);
    OkMeans(want, [existing]);
  }

  lemma TextIsNoSrv()
    ensures !EqualFold("TXT", "SRV") && "TXT" != "SRV" && !EqualFold("TXT", "CNAME") && "TXT" != "CNAME"
    ensures "TXT" != "A" && "TXT" != "AAAA"
  {
    assert ToLower("TXT")[0] == 't' && ToLower("SRV")[0] == 's';
    assert |ToLower("CNAME")| == 5;
  }

  lemma LowerTwice(s: string)
    ensures ToLower(ToLower(s)) == ToLower(s)
  {
  }

  /* ---- the zone ---- */

  type Zone = map<nat, Record>

  predicate ValidZone(zone: Zone) {
    forall id :: id in zone ==> id > 0 && zone[id].id == id
  }

  /** What listing the zone's records returns: each of them once, in any order. */
  ghost predicate IsListing(existing: seq<Record>, zone: Zone) {
    && (forall r :: r in existing <==> r.id in zone && zone[r.id] == r)
    && forall i, j :: 0 <= i < j < |existing| ==> existing[i].id != existing[j].id
  }

  /** Exactly one record of the zone is relevant to the wanted one, and matches it. */
  ghost predicate Settled(zone: Zone, want: Record) {
    exists id :: && id in zone && Relevant(want, zone[id]) && Matches(zone[id], want)
                 && forall other :: other in zone && Relevant(want, zone[other]) ==> other == id
  }

  lemma {:induction false} TouchDistinct(want: Record, existing: seq<Record>)
    requires forall i, j :: 0 <= i < j < |existing| ==> existing[i].id != existing[j].id
    ensures forall i, j :: 0 <= i < j < |Touch(want, existing)| ==> Touch(want, existing)[i].id != Touch(want, existing)[j].id
  {
    hide Relevant;
    if existing != [] {
      var front, last := existing[..|existing|-1], existing[|existing|-1];
      TouchDistinct(want, front);
      forall r | r in Touch(want, front) ensures r.id != last.id {
        assert r in front;
      }
    }
  }

  lemma OnlyOne(touch: seq<Record>, r: Record)
    requires r in touch && forall x :: x in touch ==> x == r
    requires forall i, j :: 0 <= i < j < |touch| ==> touch[i].id != touch[j].id
    ensures touch == [r]
  {
    assert Second(touch, r) == r && touch[0] in touch;
  }

  function Second(touch: seq<Record>, r: Record): (s: Record)
    ensures |touch| > 1 ==> s in touch && s.id == touch[1].id
    ensures |touch| <= 1 ==> s == r
  {
    if |touch| > 1 then touch[1] else r
  }

  /** A wanted record is planned as "ok" exactly when it is settled in the zone. */
  lemma SettledIffOK(zone: Zone, want: Record, existing: seq<Record>)
    requires ValidZone(zone) && IsListing(existing, zone)
    ensures Settled(zone, want) <==> PlanOne(want, Touch(want, existing)).action == OK
  {
    hide Relevant, Matches, Touch;
    TouchDistinct(want, existing);
    var touch := Touch(want, existing);
    if Settled(zone, want) {
      var id :| && id in zone && Relevant(want, zone[id]) && Matches(zone[id], want)
                && forall other :: other in zone && Relevant(want, zone[other]) ==> other == id;
      assert zone[id] in touch;
      forall r | r in touch ensures r == zone[id] {
      }
      OnlyOne(touch, zone[id]);
    }
    if PlanOne(want, touch).action == OK {
      assert touch[0] in touch;
      var id := touch[0].id;
      forall other | other in zone && Relevant(want, zone[other]) ensures other == id {
        assert zone[other] in touch;
      }
    }
  }
}
