/** What applying a plan with replace guarantees: records that are not in the way stay, what is
    replaced is backed up first, and for wanted records that can stand beside each other the zone
    converges: planning again finds every one of them in place. */
module CloudflareConvergence {
  import opened Text
  import opened Dns
  import opened Cloudflare
  import opened CloudflareApply

  function Ids(records: seq<Record>): set<nat> {
    set r | r in records :: r.id
  }

  /** Deletions are recorded, and none happens twice. */
  ghost predicate DeletedOnce(calls: seq<ApiCall>, deleted: set<nat>) {
    && (forall i :: 0 <= i < |calls| && calls[i].Deleted? ==> calls[i].id in deleted)
    && forall i, j :: 0 <= i < j < |calls| && calls[i].Deleted? && calls[j].Deleted? ==> calls[i].id != calls[j].id
  }

  /** Deleting succeeds when every record not yet deleted is still there, and removes just those. */
  lemma {:induction false} DeleteAllMeans(p: Progress, records: seq<Record>)
    requires forall r :: r in records ==> r.id != 0
    ensures DeleteAll(p, records).Done? <==> Ids(records) - p.deleted <= p.zone.Keys
    ensures DeleteAll(p, records).Done? ==>
              var q := DeleteAll(p, records).p;
              && q.zone == p.zone - (Ids(records) - p.deleted)
              && q.deleted == p.deleted + Ids(records)
              && q.backup == p.backup && q.nextId == p.nextId
              && (DeletedOnce(p.calls, p.deleted) ==> DeletedOnce(q.calls, q.deleted))
  {
    if records != [] {
      var front, last := records[..|records|-1], records[|records|-1];
      assert records == front + [last];
      DeleteAllMeans(p, front);
      assert Ids(records) == Ids(front) + {last.id};
      var before := DeleteAll(p, front);
      if before.Done? {
        DeleteOneMeans(p, before.p, Ids(front), last.id);
        assert last in records;
      }
    }
  }

  lemma DeleteOneMeans(p: Progress, q: Progress, ids: set<nat>, id: nat)
    requires q.zone == p.zone - (ids - p.deleted) && q.deleted == p.deleted + ids
    requires ids - p.deleted <= p.zone.Keys
    ensures id in q.deleted ==> ids + {id} - p.deleted == ids - p.deleted && p.deleted + (ids + {id}) == q.deleted
    ensures id !in q.deleted ==>
              && (id in q.zone <==> ids + {id} - p.deleted <= p.zone.Keys)
              && q.zone - {id} == p.zone - (ids + {id} - p.deleted)
              && q.deleted + {id} == p.deleted + (ids + {id})
              && (DeletedOnce(q.calls, q.deleted) ==> DeletedOnce(q.calls + [Deleted(id)], q.deleted + {id}))
  {
  }

  predicate Touches(planned: Planned, id: nat) {
    InTheWay(planned) && id in Ids(planned.touch)
  }

  /** Some record that is in the way of one of the first k wanted records has this id. */
  ghost predicate Touched(planned: seq<Planned>, k: nat, id: nat)
    requires k <= |planned|
  {
    exists j :: 0 <= j < k && Touches(planned[j], id)
  }

  lemma TouchedNext(planned: seq<Planned>, k: nat, id: nat)
    requires k < |planned|
    ensures Touched(planned, k + 1, id) <==> Touched(planned, k, id) || Touches(planned[k], id)
  {
    hide Touches;
    if Touches(planned[k], id) {
    }
  }

  lemma TouchIsListed(planned: seq<Planned>, desired: seq<Record>, listing: seq<Record>, zone: Zone, k: nat)
    requires ValidZone(zone) && IsListing(listing, zone) && IsPlan(planned, desired, listing) && k < |planned|
    ensures planned[k] == PlanOne(desired[k], Touch(desired[k], listing))
    ensures planned[k].desired == desired[k] && planned[k].touch == Touch(desired[k], listing)
    ensures forall r :: r in planned[k].touch <==> r.id in zone && zone[r.id] == r && Relevant(desired[k], r)
    ensures forall r :: r in planned[k].touch ==> r.id != 0
    ensures planned[k].touch == [] <==> planned[k].action == Create
  {
    hide Relevant, Matches, SameButProxy, IsCname, IsProxied;
  }

  /* ---- conservation ---- */

  /** What the first k steps have kept, whatever was wanted. */
  ghost predicate Conserved(zone: Zone, nextId: nat, planned: seq<Planned>, k: nat, p: Progress)
    requires k <= |planned|
  {
    && nextId <= p.nextId
    && (forall id :: id in zone && !Touched(planned, k, id) ==> id in p.zone && p.zone[id] == zone[id])
    && (forall id :: id in zone && Touched(planned, k, id) ==> zone[id] in p.backup)
    && (forall r :: r in p.backup ==> r.id in zone && zone[r.id] == r && Touched(planned, k, r.id))
    && DeletedOnce(p.calls, p.deleted)
  }

  /** What one replaced record changes: only the touched ids, all of them backed up. */
  lemma ReplaceMeans(p: Progress, planned: Planned)
    requires InTheWay(planned) && forall r :: r in planned.touch ==> r.id != 0
    requires ApplyOne(p, planned, true).Done?
    ensures var q := ApplyOne(p, planned, true).p;
            && p.nextId <= q.nextId && q.backup == p.backup + planned.touch
            && (forall id :: id in p.zone && id < p.nextId && id !in Ids(planned.touch) ==> id in q.zone && q.zone[id] == p.zone[id])
            && (DeletedOnce(p.calls, p.deleted) ==> DeletedOnce(q.calls, q.deleted))
  {
    hide DeleteAll;
    var touch, want := planned.touch, planned.desired;
    var q := p.(backup := p.backup + touch);
    if touch != [] && touch[0].kind == want.kind {
      assert touch[0] in touch && forall r :: r in touch[1..] ==> r in touch;
      if UpdateRecord(q, touch[0].id, want).Done? {
        DeleteAllMeans(UpdateRecord(q, touch[0].id, want).p, touch[1..]);
      }
    } else {
      DeleteAllMeans(q, touch);
    }
  }

  lemma ConservesStep(zone: Zone, nextId: nat, planned: seq<Planned>, desired: seq<Record>, listing: seq<Record>,
                      k: nat, p: Progress)
    requires ValidZone(zone) && forall id :: id in zone ==> id < nextId
    requires IsListing(listing, zone) && IsPlan(planned, desired, listing) && k < |planned| == |desired|
    requires Conserved(zone, nextId, planned, k, p)
    requires ApplyOne(p, planned[k], true).Done?
    ensures Conserved(zone, nextId, planned, k + 1, ApplyOne(p, planned[k], true).p)
  {
    hide PlanOne, Touch, Relevant, DeleteAll, IsListing, IsPlan, Touched, ValidZone, DeletedOnce;
    TouchIsListed(planned, desired, listing, zone, k);
    forall id ensures Touched(planned, k + 1, id) <==> Touched(planned, k, id) || Touches(planned[k], id) {
      TouchedNext(planned, k, id);
    }
    if InTheWay(planned[k]) {
      ReplaceMeans(p, planned[k]);
      hide ApplyOne;
      var q := ApplyOne(p, planned[k], true).p;
      forall id | id in zone && Touches(planned[k], id) ensures zone[id] in q.backup {
        var r :| r in planned[k].touch && r.id == id;
      }
      forall r | r in q.backup ensures r.id in zone && zone[r.id] == r && Touched(planned, k + 1, r.id) {
        assert r in p.backup || r in planned[k].touch;
      }
    } else if planned[k].action == Create {
      CreateKeeps(p, planned[k].desired);
    }
  }

  lemma CreateKeeps(p: Progress, r: Record)
    ensures DeletedOnce(p.calls, p.deleted) ==> DeletedOnce(CreateRecord(p, r).calls, p.deleted)
  {
  }

  lemma NothingDone(zone: Zone, nextId: nat, planned: seq<Planned>)
    ensures Conserved(zone, nextId, planned, 0, Start(zone, nextId))
    ensures ApplyAll(Start(zone, nextId), planned[..0], true) == Done(Start(zone, nextId))
  {
  }

  /** Applying with replace leaves every record that is in no one's way as it was, backs up the
      original of every other one, and deletes no record twice. */
  lemma {:induction false} Conservation(zone: Zone, nextId: nat, planned: seq<Planned>, desired: seq<Record>,
                                        listing: seq<Record>, k: nat)
    requires ValidZone(zone) && forall id :: id in zone ==> id < nextId
    requires IsListing(listing, zone) && IsPlan(planned, desired, listing) && k <= |planned|
    requires ApplyAll(Start(zone, nextId), planned[..k], true).Done?
    ensures Conserved(zone, nextId, planned, k, ApplyAll(Start(zone, nextId), planned[..k], true).p)
  {
    hide ApplyOne, IsListing, PlanOne, Touch, Conserved;
    if k == 0 {
      NothingDone(zone, nextId, planned);
    } else {
      ApplyAllNext(Start(zone, nextId), planned, true, k - 1);
      Conservation(zone, nextId, planned, desired, listing, k - 1);
      ConservesStep(zone, nextId, planned, desired, listing, k - 1, ApplyAll(Start(zone, nextId), planned[..k-1], true).p);
    }
  }

  /** Applying without replace only ever adds records, and calls nothing else than create. */
  lemma {:induction false} WithoutReplace(p: Progress, planned: seq<Planned>)
    requires forall id :: id in p.zone ==> id < p.nextId
    ensures var q := ApplyAll(p, planned, false);
            && q.Done?
            && (forall id :: id in p.zone ==> id in q.p.zone && q.p.zone[id] == p.zone[id])
            && (forall id :: id in q.p.zone ==> id < q.p.nextId) && p.nextId <= q.p.nextId
            && p.calls <= q.p.calls && (forall i :: |p.calls| <= i < |q.p.calls| ==> q.p.calls[i].Created?)
            && q.p.backup == p.backup
  {
    if planned != [] {
      WithoutReplace(p, planned[..|planned|-1]);
    }
  }

  /* ---- convergence ---- */

  /** A record in the way of two wanted records is a CNAME in the way of two others. */
  lemma SharedTouch(desired: seq<Record>, i: nat, j: nat, r: Record)
    requires WellFormed(desired) && i < |desired| && j < |desired| && i != j
    requires Relevant(desired[i], r) && Relevant(desired[j], r)
    ensures !EqualFold(r.kind, desired[i].kind) && !EqualFold(r.kind, desired[j].kind)
    ensures r.kind != desired[i].kind
  {
    hide Relevant, Compatible, WellFormed;
    CompatibleWants(desired, i, j);
    CompatibleWants(desired, j, i);
    if EqualFold(r.kind, desired[j].kind) {
      OwnTypeIsIrrelevant(desired[i], desired[j], r);
    }
    if EqualFold(r.kind, desired[i].kind) {
      OwnTypeIsIrrelevant(desired[j], desired[i], r);
    }
  }

  /** The state after k steps, for wanted records that can stand beside each other: `own` says
      which record of the zone stands for which wanted one; every other record is an original
      that nothing so far touched, and the touched originals are deleted or owned. */
  ghost predicate Converging(zone: Zone, nextId: nat, planned: seq<Planned>, k: nat, p: Progress, own: map<nat, nat>)
    requires k <= |planned|
  {
    && nextId <= p.nextId
    && (forall id :: id in p.zone ==> id < p.nextId && id > 0 && p.zone[id].id == id)
    && Stands(nextId, planned, k, p.zone, own)
    && Untouched(zone, planned, k, p, own.Values)
  }

  ghost predicate Stands(nextId: nat, planned: seq<Planned>, k: nat, now: Zone, own: map<nat, nat>)
    requires k <= |planned|
  {
    && (forall j: nat :: j in own <==> j < k && planned[j].action != OK)
    && (forall j: nat :: j in own ==> own[j] in now && now[own[j]] == planned[j].desired.(id := own[j]))
    && (forall j: nat, l: nat :: j in own && l in own && j != l ==> own[j] != own[l])
    && (forall j: nat :: j in own ==> own[j] >= nextId || UpdatedInPlace(planned[j], own[j]))
  }

  ghost predicate Untouched(zone: Zone, planned: seq<Planned>, k: nat, p: Progress, owned: set<nat>)
    requires k <= |planned|
  {
    && (forall id :: id in p.zone && id !in owned ==> id in zone && p.zone[id] == zone[id] && !Touched(planned, k, id))
    && (forall id :: id in zone && !Touched(planned, k, id) ==> id in p.zone && id !in owned)
    && (forall id :: id in zone && Touched(planned, k, id) ==> id in p.deleted || id in owned)
    && (forall id :: id in p.deleted ==> id in zone && id !in p.zone && Touched(planned, k, id))
  }

  predicate UpdatedInPlace(planned: Planned, id: nat) {
    && InTheWay(planned) && planned.touch != []
    && planned.touch[0].kind == planned.desired.kind && planned.touch[0].id == id
  }

  ghost predicate Setting(zone: Zone, nextId: nat, planned: seq<Planned>, desired: seq<Record>, listing: seq<Record>) {
    && ValidZone(zone) && (forall id :: id in zone ==> id < nextId) && nextId > 0
    && IsListing(listing, zone) && IsPlan(planned, desired, listing) && |planned| == |desired| && WellFormed(desired)
  }

  /** What step k touches was deleted before, or is still there untouched; and the record it would
      update in place is still there. */
  lemma TouchIsReady(zone: Zone, nextId: nat, planned: seq<Planned>, desired: seq<Record>, listing: seq<Record>,
                     k: nat, p: Progress, own: map<nat, nat>)
    requires Setting(zone, nextId, planned, desired, listing) && k < |planned|
    requires Converging(zone, nextId, planned, k, p, own)
    ensures forall id :: id in Ids(planned[k].touch) ==> id in zone && id !in own.Values
    ensures forall id :: id in Ids(planned[k].touch) && id !in p.deleted ==> id in p.zone && !Touched(planned, k, id)
    ensures forall id :: id in Ids(planned[k].touch) && id in p.deleted ==> id !in p.zone
    ensures planned[k].touch != [] && planned[k].touch[0].kind == desired[k].kind ==>
              planned[k].touch[0].id in p.zone && planned[k].touch[0].id !in p.deleted
              && planned[k].touch[0].id !in Ids(planned[k].touch[1..])
  {
    hide Relevant, PlanOne, Touch, WellFormed, IsListing, IsPlan, Touched, Stands;
    TouchIsListed(planned, desired, listing, zone, k);
    forall id | id in Ids(planned[k].touch)
      ensures id in zone && id !in own.Values
      ensures id !in p.deleted ==> id in p.zone && !Touched(planned, k, id)
    {
      NotOwned(zone, nextId, planned, desired, listing, k, p, own, id);
    }
    if planned[k].touch != [] && planned[k].touch[0].kind == desired[k].kind {
      var r := planned[k].touch[0];
      assert r in planned[k].touch;
      NotTouchedBefore(zone, nextId, planned, desired, listing, k, r);
      assert r.id in Ids(planned[k].touch);
      ListedOnce(listing, zone);
      TouchDistinct(desired[k], listing);
      FirstIsAlone(planned[k].touch);
    }
  }

  lemma ListedOnce(listing: seq<Record>, zone: Zone)
    requires IsListing(listing, zone)
    ensures forall i, j :: 0 <= i < j < |listing| ==> listing[i].id != listing[j].id
  {
  }

  lemma FirstIsAlone(touch: seq<Record>)
    requires touch != [] && forall i, j :: 0 <= i < j < |touch| ==> touch[i].id != touch[j].id
    ensures touch[0].id !in Ids(touch[1..])
  {
  }

  lemma NotOwned(zone: Zone, nextId: nat, planned: seq<Planned>, desired: seq<Record>, listing: seq<Record>,
                 k: nat, p: Progress, own: map<nat, nat>, id: nat)
    requires Setting(zone, nextId, planned, desired, listing) && k < |planned|
    requires Stands(nextId, planned, k, p.zone, own) && id in Ids(planned[k].touch)
    ensures id in zone && id !in own.Values
  {
    hide Relevant, PlanOne, Touch, WellFormed, IsListing;
    TouchIsListed(planned, desired, listing, zone, k);
    if id in own.Values {
      var j: nat :| j in own && own[j] == id;
      TouchIsListed(planned, desired, listing, zone, j);
      assert planned[j].touch[0] in planned[j].touch;
      SharedTouch(desired, j, k, zone[id]);
    }
  }

  lemma NotTouchedBefore(zone: Zone, nextId: nat, planned: seq<Planned>, desired: seq<Record>, listing: seq<Record>,
                         k: nat, r: Record)
    requires Setting(zone, nextId, planned, desired, listing) && k < |planned|
    requires r in planned[k].touch && EqualFold(r.kind, desired[k].kind)
    ensures !Touched(planned, k, r.id)
  {
    hide Relevant, PlanOne, Touch, WellFormed, IsListing;
    TouchIsListed(planned, desired, listing, zone, k);
    if Touched(planned, k, r.id) {
      var j :| 0 <= j < k && Touches(planned[j], r.id);
      TouchIsListed(planned, desired, listing, zone, j);
      SharedTouch(desired, k, j, r);
    }
  }

  lemma ConvergeReplace(zone: Zone, nextId: nat, planned: seq<Planned>, desired: seq<Record>, listing: seq<Record>,
                        k: nat, p: Progress, own: map<nat, nat>) returns (own': map<nat, nat>)
    requires Setting(zone, nextId, planned, desired, listing) && k < |planned| && InTheWay(planned[k])
    requires Converging(zone, nextId, planned, k, p, own)
    ensures ApplyOne(p, planned[k], true).Done?
    ensures Converging(zone, nextId, planned, k + 1, ApplyOne(p, planned[k], true).p, own')
  {
    hide Relevant, PlanOne, Touch, WellFormed, IsListing, IsPlan, ApplyOne, Touched, LeavesOne, Stands, Untouched;
    var touch := planned[k].touch;
    TouchIsListed(planned, desired, listing, zone, k);
    TouchIsReady(zone, nextId, planned, desired, listing, k, p, own);
    var id := if touch != [] && touch[0].kind == desired[k].kind then touch[0].id else p.nextId;
    if id == p.nextId {
      RecreateLeavesOne(p, planned[k]);
    } else {
      UpdateLeavesOne(p, planned[k]);
    }
    own' := own[k := id];
    ConvergedBy(zone, nextId, planned, k, p, own, Ids(touch), id, ApplyOne(p, planned[k], true).p);
  }

  lemma UpdateLeavesOne(p: Progress, planned: Planned)
    requires InTheWay(planned) && planned.touch != [] && planned.touch[0].kind == planned.desired.kind
    requires (forall r :: r in planned.touch ==> r.id != 0) && Ids(planned.touch) - p.deleted <= p.zone.Keys
    requires forall id :: id in Ids(planned.touch) && id in p.deleted ==> id !in p.zone
    requires var id := planned.touch[0].id; id != p.nextId && id in p.zone && id !in p.deleted && id !in Ids(planned.touch[1..])
    ensures ApplyOne(p, planned, true).Done?
    ensures LeavesOne(p, planned, Ids(planned.touch), planned.touch[0].id, ApplyOne(p, planned, true).p)
  {
    hide DeleteAll, DeletedOnce;
    var touch, id := planned.touch, planned.touch[0].id;
    assert touch == [touch[0]] + touch[1..];
    assert Ids(touch) == {id} + Ids(touch[1..]);
    DeleteAllMeans(UpdateRecord(p.(backup := p.backup + touch), id, planned.desired).p, touch[1..]);
  }

  lemma RecreateLeavesOne(p: Progress, planned: Planned)
    requires InTheWay(planned) && !(planned.touch != [] && planned.touch[0].kind == planned.desired.kind)
    requires (forall r :: r in planned.touch ==> r.id != 0) && Ids(planned.touch) - p.deleted <= p.zone.Keys
    requires p.nextId !in Ids(planned.touch)
    requires forall id :: id in Ids(planned.touch) && id in p.deleted ==> id !in p.zone
    ensures ApplyOne(p, planned, true).Done?
    ensures LeavesOne(p, planned, Ids(planned.touch), p.nextId, ApplyOne(p, planned, true).p)
  {
    hide DeleteAll, DeletedOnce;
    var q := p.(backup := p.backup + planned.touch);
    DeleteAllMeans(q, planned.touch);
    assert p.zone - (Ids(planned.touch) - p.deleted) == p.zone - Ids(planned.touch);
  }

  lemma OwnNext(own: map<nat, nat>, k: nat, id: nat)
    requires k !in own
    ensures own[k := id].Values == own.Values + {id}
  {
    var more := own[k := id];
    assert more[k] == id;
    forall v | v in own.Values ensures v in more.Values {
      var j :| j in own && own[j] == v;
      assert more[j] == v;
    }
  }

  lemma NotYet(nextId: nat, planned: seq<Planned>, k: nat, now: Zone, own: map<nat, nat>)
    requires k < |planned| && Stands(nextId, planned, k, now, own)
    ensures k !in own
  {
  }

  predicate LeavesOne(p: Progress, planned: Planned, gone: set<nat>, id: nat, q: Progress) {
    && q.zone == (p.zone - gone)[id := planned.desired.(id := id)]
    && q.deleted == p.deleted + (gone - {id})
    && (if id == p.nextId then q.nextId == p.nextId + 1
        else q.nextId == p.nextId && UpdatedInPlace(planned, id) && id in gone && id !in p.deleted)
  }

  /** If a step removes what it touches and leaves one record for the wanted one, the zone keeps
      converging. */
  lemma ConvergedBy(zone: Zone, nextId: nat, planned: seq<Planned>, k: nat, p: Progress, own: map<nat, nat>,
                    gone: set<nat>, id: nat, q: Progress)
    requires k < |planned| && planned[k].action != OK
    requires Converging(zone, nextId, planned, k, p, own)
    requires (forall i :: i in zone ==> i < nextId) && nextId > 0
    requires gone == if InTheWay(planned[k]) then Ids(planned[k].touch) else {}
    requires forall i :: i in gone ==> i in zone && i !in own.Values
    requires forall i :: i in gone && i !in p.deleted ==> i in p.zone && !Touched(planned, k, i)
    requires LeavesOne(p, planned[k], gone, id, q)
    ensures Converging(zone, nextId, planned, k + 1, q, own[k := id])
  {
    hide Touched, InTheWay, UpdatedInPlace, Stands, Untouched;
    assert k !in own by { NotYet(nextId, planned, k, p.zone, own); }
    OwnNext(own, k, id);
    StandsNext(nextId, planned, k, p, own, gone, id, q);
    UntouchedNext(zone, nextId, planned, k, p, own.Values, gone, id, q);
  }

  lemma StandsNext(nextId: nat, planned: seq<Planned>, k: nat, p: Progress, own: map<nat, nat>,
                   gone: set<nat>, id: nat, q: Progress)
    requires k < |planned| && planned[k].action != OK && nextId <= p.nextId
    requires Stands(nextId, planned, k, p.zone, own) && forall i :: i in p.zone ==> i < p.nextId
    requires forall i :: i in gone ==> i !in own.Values
    requires LeavesOne(p, planned[k], gone, id, q)
    ensures Stands(nextId, planned, k + 1, q.zone, own[k := id])
  {
    hide UpdatedInPlace, InTheWay;
    forall j: nat | j in own
      ensures own[j] in own.Values && own[j] != id
    {
    }
  }

  lemma UntouchedNext(zone: Zone, nextId: nat, planned: seq<Planned>, k: nat, p: Progress, owned: set<nat>,
                      gone: set<nat>, id: nat, q: Progress)
    requires k < |planned| && nextId <= p.nextId && forall i :: i in zone ==> i < nextId
    requires Untouched(zone, planned, k, p, owned)
    requires gone == if InTheWay(planned[k]) then Ids(planned[k].touch) else {}
    requires forall i :: i in gone ==> i in zone && i !in owned
    requires forall i :: i in gone && i !in p.deleted ==> i in p.zone && !Touched(planned, k, i)
    requires LeavesOne(p, planned[k], gone, id, q)
    ensures Untouched(zone, planned, k + 1, q, owned + {id})
  {
    hide Touched, InTheWay, UpdatedInPlace, Ids;
    forall i ensures Touched(planned, k + 1, i) <==> Touched(planned, k, i) || i in gone {
      TouchedNext(planned, k, i);
    }
  }

  /** Step by step: applying never fails, and the zone keeps converging. */
  lemma {:induction false} Converges(zone: Zone, nextId: nat, planned: seq<Planned>, desired: seq<Record>,
                                     listing: seq<Record>, k: nat) returns (own: map<nat, nat>)
    requires Setting(zone, nextId, planned, desired, listing) && k <= |planned|
    ensures ApplyAll(Start(zone, nextId), planned[..k], true).Done?
    ensures Converging(zone, nextId, planned, k, ApplyAll(Start(zone, nextId), planned[..k], true).p, own)
  {
    hide ApplyOne, Setting, Converging, Stands, Untouched;
    if k == 0 {
      own := map[];
      ConvergesAtStart(zone, nextId, planned, desired, listing);
    } else {
      var before := Converges(zone, nextId, planned, desired, listing, k - 1);
      ApplyAllNext(Start(zone, nextId), planned, true, k - 1);
      own := ConvergeStep(zone, nextId, planned, desired, listing, k - 1,
                          ApplyAll(Start(zone, nextId), planned[..k-1], true).p, before);
    }
  }

  lemma ConvergesAtStart(zone: Zone, nextId: nat, planned: seq<Planned>, desired: seq<Record>, listing: seq<Record>)
    requires Setting(zone, nextId, planned, desired, listing)
    ensures ApplyAll(Start(zone, nextId), planned[..0], true) == Done(Start(zone, nextId))
    ensures Converging(zone, nextId, planned, 0, Start(zone, nextId), map[])
  {
    hide IsListing, IsPlan, WellFormed;
  }

  lemma ConvergeStep(zone: Zone, nextId: nat, planned: seq<Planned>, desired: seq<Record>, listing: seq<Record>,
                     k: nat, p: Progress, own: map<nat, nat>) returns (own': map<nat, nat>)
    requires Setting(zone, nextId, planned, desired, listing) && k < |planned|
    requires Converging(zone, nextId, planned, k, p, own)
    ensures ApplyOne(p, planned[k], true).Done?
    ensures Converging(zone, nextId, planned, k + 1, ApplyOne(p, planned[k], true).p, own')
  {
    if InTheWay(planned[k]) {
      hide *;
      own' := ConvergeReplace(zone, nextId, planned, desired, listing, k, p, own);
    } else if planned[k].action == Create {
      own' := own[k := p.nextId];
      ConvergeCreate(zone, nextId, planned, desired, listing, k, p, own);
    } else {
      own' := own;
      ConvergeOK(zone, nextId, planned, k, p, own);
    }
  }

  lemma ConvergeCreate(zone: Zone, nextId: nat, planned: seq<Planned>, desired: seq<Record>, listing: seq<Record>,
                       k: nat, p: Progress, own: map<nat, nat>)
    requires Setting(zone, nextId, planned, desired, listing) && k < |planned| && planned[k].action == Create
    requires Converging(zone, nextId, planned, k, p, own)
    ensures Converging(zone, nextId, planned, k + 1, CreateRecord(p, planned[k].desired), own[k := p.nextId])
  {
    hide Stands, Untouched, IsListing, IsPlan, WellFormed;
    var q := CreateRecord(p, planned[k].desired);
    assert p.zone - {} == p.zone;
    ConvergedBy(zone, nextId, planned, k, p, own, {}, p.nextId, q);
  }

  lemma ConvergeOK(zone: Zone, nextId: nat, planned: seq<Planned>, k: nat, p: Progress, own: map<nat, nat>)
    requires k < |planned| && planned[k].action == OK
    requires Converging(zone, nextId, planned, k, p, own)
    ensures Converging(zone, nextId, planned, k + 1, p, own)
  {
    hide Touched, UpdatedInPlace;
    forall id ensures Touched(planned, k + 1, id) <==> Touched(planned, k, id) {
      TouchedNext(planned, k, id);
    }
  }

  lemma OKStaysSettled(zone: Zone, nextId: nat, planned: seq<Planned>, desired: seq<Record>, listing: seq<Record>,
                       k: nat, p: Progress, own: map<nat, nat>)
    requires Setting(zone, nextId, planned, desired, listing) && k < |planned| && planned[k].action == OK
    requires Converging(zone, nextId, planned, |planned|, p, own)
    ensures Settled(p.zone, desired[k])
  {
    hide Relevant, Touch, WellFormed, IsListing, Touched, Matches, IsCname, SameButProxy, IsProxied;
    TouchIsListed(planned, desired, listing, zone, k);
    var r := planned[k].touch[0];
    assert r in planned[k].touch && Matches(r, desired[k]) && planned[k].touch == [r];
    MatchesHasType(r, desired[k]);
    if Touched(planned, |planned|, r.id) {
      NeverTouched(zone, nextId, planned, desired, listing, k, r);
    }
    forall id | id in p.zone && Relevant(desired[k], p.zone[id])
      ensures id == r.id
    {
      if id in own.Values {
        var j: nat :| j in own && own[j] == id;
        OwnedIsIrrelevant(planned, desired, listing, k, j, id);
      } else {
        TouchIsListed(planned, desired, listing, zone, k);
        assert p.zone[id] in planned[k].touch;
      }
    }
  }

  lemma MatchesHasType(r: Record, want: Record)
    requires Matches(r, want)
    ensures EqualFold(r.kind, want.kind)
  {
  }

  lemma OwnedIsIrrelevant(planned: seq<Planned>, desired: seq<Record>, listing: seq<Record>, k: nat, j: nat, id: nat)
    requires IsPlan(planned, desired, listing) && WellFormed(desired) && j < |planned| && k < |planned| && j != k
    ensures !Relevant(desired[k], planned[j].desired.(id := id))
  {
    hide Relevant, Touch, WellFormed;
    CompatibleWants(desired, k, j);
    CompatibleIsIrrelevant(desired[k], desired[j], id);
  }

  lemma NeverTouched(zone: Zone, nextId: nat, planned: seq<Planned>, desired: seq<Record>, listing: seq<Record>,
                     k: nat, r: Record)
    requires Setting(zone, nextId, planned, desired, listing) && k < |planned| && planned[k].action == OK
    requires r in planned[k].touch && EqualFold(r.kind, desired[k].kind)
    ensures !Touched(planned, |planned|, r.id)
  {
    hide Relevant, PlanOne, Touch, WellFormed, IsListing;
    TouchIsListed(planned, desired, listing, zone, k);
    if Touched(planned, |planned|, r.id) {
      var j :| 0 <= j < |planned| && Touches(planned[j], r.id);
      TouchIsListed(planned, desired, listing, zone, j);
      SharedTouch(desired, k, j, r);
    }
  }

  lemma NoOriginalLeft(zone: Zone, nextId: nat, planned: seq<Planned>, desired: seq<Record>, listing: seq<Record>,
                       k: nat, p: Progress, own: map<nat, nat>)
    requires Setting(zone, nextId, planned, desired, listing) && k < |planned| && planned[k].action != OK
    requires Untouched(zone, planned, |planned|, p, own.Values)
    ensures forall id :: id in p.zone && id !in own.Values ==> !Relevant(desired[k], p.zone[id])
  {
    hide Relevant, Touch, WellFormed, IsListing, PlanOne;
    TouchIsListed(planned, desired, listing, zone, k);
    forall id | id in p.zone && id !in own.Values
      ensures !Relevant(desired[k], p.zone[id])
    {
      assert p.zone[id] == zone[id] && zone[id].id == id;
      assert !Touches(planned[k], id);
      assert zone[id] in planned[k].touch <==> Relevant(desired[k], zone[id]);
    }
  }

  lemma OwnedIsSettled(zone: Zone, nextId: nat, planned: seq<Planned>, desired: seq<Record>, listing: seq<Record>,
                       k: nat, p: Progress, own: map<nat, nat>)
    requires Setting(zone, nextId, planned, desired, listing) && k < |planned| && planned[k].action != OK
    requires Converging(zone, nextId, planned, |planned|, p, own)
    ensures Settled(p.zone, desired[k])
  {
    hide Relevant, Touch, WellFormed, IsListing, Matches, PlanOne, UpdatedInPlace;
    TouchIsListed(planned, desired, listing, zone, k);
    assert k in own;
    StoredIsRelevant(desired[k], own[k]);
    NoOriginalLeft(zone, nextId, planned, desired, listing, k, p, own);
    forall id | id in p.zone && Relevant(desired[k], p.zone[id])
      ensures id == own[k]
    {
      if id in own.Values {
        var j: nat :| j in own && own[j] == id;
        if j != k {
          OwnedIsIrrelevant(planned, desired, listing, k, j, id);
        }
      }
    }
  }

  /** For every zone and every set of wanted records that can stand beside each other, applying
      the plan with replace succeeds and settles every wanted record: planning again, against any
      listing of the new zone, finds "ok" everywhere, and a second apply makes no call and leaves
      the zone as it is. */
  lemma Convergence(zone: Zone, nextId: nat, desired: seq<Record>, listing: seq<Record>, planned: seq<Planned>,
                    listing': seq<Record>, planned': seq<Planned>)
    requires Setting(zone, nextId, planned, desired, listing)
    requires var q := ApplyAll(Start(zone, nextId), planned, true);
             q.Done? ==> IsListing(listing', q.p.zone) && IsPlan(planned', desired, listing')
    ensures var q := ApplyAll(Start(zone, nextId), planned, true);
            && q.Done? && ValidZone(q.p.zone)
            && (forall k :: 0 <= k < |desired| ==> Settled(q.p.zone, desired[k]))
            && (forall k :: 0 <= k < |planned'| ==> planned'[k].action == OK)
            && forall replace :: ApplyAll(Start(q.p.zone, q.p.nextId), planned', replace) == Done(Start(q.p.zone, q.p.nextId))
  {
    hide ApplyAll, Settled, IsListing, PlanOne, Touch, Stands, Untouched, WellFormed;
    var own := Converges(zone, nextId, planned, desired, listing, |planned|);
    assert planned[..|planned|] == planned;
    var q := ApplyAll(Start(zone, nextId), planned, true).p;
    forall k | 0 <= k < |desired|
      ensures Settled(q.zone, desired[k])
    {
      if planned[k].action == OK {
        OKStaysSettled(zone, nextId, planned, desired, listing, k, q, own);
      } else {
        OwnedIsSettled(zone, nextId, planned, desired, listing, k, q, own);
      }
    }
    forall k | 0 <= k < |planned'|
      ensures planned'[k].action == OK
    {
      SettledIffOK(q.zone, desired[k], listing');
    }
    forall replace {
      AllOKDoesNothing(Start(q.zone, q.nextId), planned', replace);
    }
  }

  lemma {:induction false} AllOKDoesNothing(p: Progress, planned: seq<Planned>, replace: bool)
    requires forall k :: 0 <= k < |planned| ==> planned[k].action == OK
    ensures ApplyAll(p, planned, replace) == Done(p)
  {
    if planned != [] {
      AllOKDoesNothing(p, planned[..|planned|-1], replace);
    }
  }

  /** A settled CNAME is alone at its name, and no CNAME stands beside any other settled record. */
  lemma SettledNamesAreClean(zone: Zone, want: Record, id: nat)
    requires Settled(zone, want) && id in zone && EqualFold(zone[id].name, want.name)
    requires want.kind == "CNAME" || !IsCname(want)
    ensures want.kind == "CNAME" ==> forall other :: other in zone && EqualFold(zone[other].name, want.name) ==> other == id
    ensures want.kind != "CNAME" ==> !IsCname(zone[id])
  {
    hide ToLower;
    var own :| && own in zone && Relevant(want, zone[own]) && Matches(zone[own], want)
               && forall other :: other in zone && Relevant(want, zone[other]) ==> other == own;
    MatchesHasType(zone[own], want);
    assert IsCname(zone[id]) ==> Relevant(want, zone[id]);
  }

  /** A settled SPF record is the only one at its name (section 3.2 of RFC 7208). */
  lemma SettledSpfIsUnique(zone: Zone, want: Record, a: nat, b: nat)
    requires Settled(zone, want) && want.kind == "TXT" && IsSpf(want.content)
    requires a in zone && b in zone
    requires EqualFold(zone[a].name, want.name) && EqualFold(zone[a].kind, "TXT") && IsSpf(zone[a].content)
    requires EqualFold(zone[b].name, want.name) && EqualFold(zone[b].kind, "TXT") && IsSpf(zone[b].content)
    ensures a == b
  {
    hide ToLower;
    assert Relevant(want, zone[a]) && Relevant(want, zone[b]);
  }

  /* ---- the condition is exact ---- */

  lemma {:induction false} FromEmptyZone(planned: seq<Planned>, desired: seq<Record>, k: nat)
    requires IsPlan(planned, desired, []) && k <= |planned|
    ensures var q := ApplyAll(Start(map[], 1), planned[..k], true);
            && q.Done? && q.p.nextId == k + 1
            && (forall id :: id in q.p.zone <==> 1 <= id <= k)
            && forall j :: 0 <= j < k ==> q.p.zone[j + 1] == desired[j].(id := j + 1)
  {
    hide PlanOne, ApplyAll, Touch, ApplyOne;
    if k == 0 {
      NothingApplied(planned);
    } else {
      FromEmptyZone(planned, desired, k - 1);
      ApplyAllNext(Start(map[], 1), planned, true, k - 1);
      NothingTouched(desired[k-1]);
      CreateOne(ApplyAll(Start(map[], 1), planned[..k-1], true).p, planned[k-1]);
    }
  }

  lemma NothingApplied(planned: seq<Planned>)
    ensures ApplyAll(Start(map[], 1), planned[..0], true) == Done(Start(map[], 1))
  {
  }

  lemma CreateOne(p: Progress, planned: Planned)
    requires planned == Planned(Create, Missing, planned.desired, [])
    ensures var q := ApplyOne(p, planned, true);
            q.Done? && q.p.nextId == p.nextId + 1 && q.p.zone == p.zone[p.nextId := planned.desired.(id := p.nextId)]
  {
  }

  lemma NothingTouched(want: Record)
    ensures PlanOne(want, Touch(want, [])) == Planned(Create, Missing, want, [])
  {
  }

  /** Wanted records that cannot stand beside each other are in each other's way. */
  lemma IncompatibleIsRelevant(a: Record, b: Record, i: nat, j: nat)
    requires !Compatible(a, b)
    ensures Relevant(a, b.(id := j)) || Relevant(b, a.(id := i))
  {
    hide ToLower;
  }

  /** If two wanted records cannot stand beside each other, the zone does not converge: after
      filling an empty zone one of them is not settled. */
  lemma DivergesUnlessWellFormed(desired: seq<Record>, planned: seq<Planned>)
    requires IsPlan(planned, desired, []) && !WellFormed(desired)
    ensures IsListing([], map[])
    ensures var q := ApplyAll(Start(map[], 1), planned, true);
            q.Done? && exists k :: 0 <= k < |desired| && !Settled(q.p.zone, desired[k])
  {
    hide Relevant, Matches, Compatible, ApplyAll, PlanOne;
    FromEmptyZone(planned, desired, |planned|);
    assert planned[..|planned|] == planned;
    var i, j :| 0 <= i < j < |desired| && !Compatible(desired[i], desired[j]);
    IncompatibleIsRelevant(desired[i], desired[j], i + 1, j + 1);
    StoredIsRelevant(desired[i], i + 1);
    StoredIsRelevant(desired[j], j + 1);
    var zone := ApplyAll(Start(map[], 1), planned, true).p.zone;
    assert !Settled(zone, desired[i]) || !Settled(zone, desired[j]);
  }
}
