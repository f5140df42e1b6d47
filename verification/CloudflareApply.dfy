/** Applying a plan to a Cloudflare zone (internal/admin/sql_store.go): the calls made, what is
    backed up, and that the zone converges to what was wanted. */
module CloudflareApply {
  import opened Dns
  import opened Cloudflare

  datatype ApiCall = Created(record: Record) | Updated(id: nat, record: Record) | Deleted(id: nat)

  /** The zone with what the apply loop keeps beside it. */
  datatype Progress = Progress(zone: Zone, nextId: nat, calls: seq<ApiCall>, backup: seq<Record>, deleted: set<nat>)

  datatype Outcome = Failed | Done(p: Progress)

  function CreateRecord(p: Progress, r: Record): Progress {
    p.(zone := p.zone[p.nextId := r.(id := p.nextId)], nextId := p.nextId + 1, calls := p.calls + [Created(r)])
  }

  /** Updating a record that is not there is an error. */
  function UpdateRecord(p: Progress, id: nat, r: Record): Outcome {
    if id !in p.zone then Failed
    else Done(p.(zone := p.zone[id := r.(id := id)], calls := p.calls + [Updated(id, r)]))
  }

  function DeleteRecord(p: Progress, id: nat): Outcome {
    if id !in p.zone then Failed
    else Done(p.(zone := p.zone - {id}, calls := p.calls + [Deleted(id)], deleted := p.deleted + {id}))
  }

  /** Deletes the records, skipping those already deleted. */
  function DeleteAll(p: Progress, records: seq<Record>): Outcome {
    if records == [] then Done(p)
    else
      var before := DeleteAll(p, records[..|records|-1]);
      var id := records[|records|-1].id;
      if before.Failed? || (id != 0 && id in before.p.deleted) then before
      else DeleteRecord(before.p, id)
  }

  function ApplyOne(p: Progress, planned: Planned, replace: bool): Outcome {
    var want, touch := planned.desired, planned.touch;
    if planned.action == OK || (InTheWay(planned) && !replace) then Done(p)
    else if planned.action == Create then Done(CreateRecord(p, want))
    else
      var q := p.(backup := p.backup + touch);
      if touch != [] && touch[0].kind == want.kind then
        var updated := UpdateRecord(q, touch[0].id, want);
        if updated.Failed? then Failed else DeleteAll(updated.p, touch[1..])
      else
        var cleared := DeleteAll(q, touch);
        if cleared.Failed? then Failed else Done(CreateRecord(cleared.p, want))
  }

  function ApplyAll(p: Progress, planned: seq<Planned>, replace: bool): Outcome {
    if planned == [] then Done(p)
    else
      var before := ApplyAll(p, planned[..|planned|-1], replace);
      if before.Failed? then Failed else ApplyOne(before.p, planned[|planned|-1], replace)
  }

  lemma ApplyAllNext(p: Progress, planned: seq<Planned>, replace: bool, k: nat)
    requires k < |planned|
    ensures ApplyAll(p, planned[..k+1], replace) ==
              if ApplyAll(p, planned[..k], replace).Failed? then Failed
              else ApplyOne(ApplyAll(p, planned[..k], replace).p, planned[k], replace)
  {
    hide ApplyOne;
    assert planned[..k+1][..k] == planned[..k];
  }

  function Start(zone: Zone, nextId: nat): Progress {
    Progress(zone, nextId, [], [], {})
  }

  /* ---- the code ---- */

  class CloudflareZone {
    var records: Zone
    var nextId: nat
    ghost var calls: seq<ApiCall>

    ghost predicate Valid()
      reads this
    {
      ValidZone(records) && nextId > 0 && forall id :: id in records ==> id < nextId
    }

    constructor (records: Zone, nextId: nat)
      requires ValidZone(records) && nextId > 0 && forall id :: id in records ==> id < nextId
      ensures Valid() && this.records == records && this.nextId == nextId && calls == []
    {
      this.records := records;
      this.nextId := nextId;
      calls := [];
    }

    method ListRecords() returns (listing: seq<Record>)
      requires Valid()
      ensures IsListing(listing, records)
    {
      listing := [];
      var todo := records.Keys;
      while todo != {}
        invariant todo <= records.Keys
        invariant forall r :: r in listing <==> r.id in records && r.id !in todo && records[r.id] == r
        invariant forall i, j :: 0 <= i < j < |listing| ==> listing[i].id != listing[j].id
        decreases todo
        modifies {}
      {
        var id :| id in todo;
        assert forall i :: 0 <= i < |listing| ==> listing[i] in listing;
        listing := listing + [records[id]];
        todo := todo - {id};
      }
    }

    method CreateRecord(r: Record)
      requires Valid()
      modifies this
      ensures Valid() && calls == old(calls) + [Created(r)]
      ensures nextId == old(nextId) + 1 && records == old(records)[old(nextId) := r.(id := old(nextId))]
    {
      records := records[nextId := r.(id := nextId)];
      nextId := nextId + 1;
      calls := calls + [Created(r)];
    }

    method UpdateRecord(id: nat, r: Record) returns (ok: bool)
      requires Valid()
      modifies this
      ensures Valid() && ok == (id in old(records)) && nextId == old(nextId)
      ensures ok ==> records == old(records)[id := r.(id := id)] && calls == old(calls) + [Updated(id, r)]
      ensures !ok ==> records == old(records) && calls == old(calls)
    {
      ok := id in records;
      if ok {
        records := records[id := r.(id := id)];
        calls := calls + [Updated(id, r)];
      }
    }

    method DeleteRecord(id: nat) returns (ok: bool)
      requires Valid()
      modifies this
      ensures Valid() && ok == (id in old(records)) && nextId == old(nextId)
      ensures ok ==> records == old(records) - {id} && calls == old(calls) + [Deleted(id)]
      ensures !ok ==> records == old(records) && calls == old(calls)
    {
      ok := id in records;
      if ok {
        records := records - {id};
        calls := calls + [Deleted(id)];
      }
    }
  }

  /** Zone and loop variables stand where the specification does. */
  ghost predicate At(zone: CloudflareZone, backup: seq<Record>, changed: nat, deleted: set<nat>, p: Progress)
    reads zone
  {
    && zone.Valid() && zone.records == p.zone && zone.nextId == p.nextId && zone.calls == p.calls
    && backup == p.backup && changed == |p.calls| && deleted == p.deleted
  }

  method DeleteTouched(zone: CloudflareZone, records: seq<Record>, changed: nat, deleted: set<nat>,
                       ghost backup: seq<Record>, ghost p: Progress)
    returns (ok: bool, changed': nat, deleted': set<nat>)
    requires At(zone, backup, changed, deleted, p)
    modifies zone
    ensures zone.Valid() && ok == DeleteAll(p, records).Done?
    ensures ok ==> At(zone, backup, changed', deleted', DeleteAll(p, records).p)
  {
    ok, changed', deleted' := true, changed, deleted;
    var i := 0;
    assert records[..0] == [];
    while i < |records|
      invariant 0 <= i <= |records|
      invariant DeleteAll(p, records[..i]).Done?
      invariant At(zone, backup, changed', deleted', DeleteAll(p, records[..i]).p)
    {
      hide DeleteAll;
      DeleteAllNext(p, records, i);
      var id := records[i].id;
      if !(id != 0 && id in deleted') {
        ok := zone.DeleteRecord(id);
        if !ok {
          DeleteAllFails(p, records, i + 1);
          return;
        }
        deleted' := deleted' + {id};
        changed' := changed' + 1;
      }
      i := i + 1;
    }
    assert records[..i] == records;
  }

  lemma DeleteAllNext(p: Progress, records: seq<Record>, i: nat)
    requires i < |records|
    ensures var before, id := DeleteAll(p, records[..i]), records[i].id;
            DeleteAll(p, records[..i+1]) ==
              if before.Failed? || (id != 0 && id in before.p.deleted) then before else DeleteRecord(before.p, id)
  {
    assert records[..i+1][..i] == records[..i];
  }

  lemma {:induction false} DeleteAllFails(p: Progress, records: seq<Record>, i: nat)
    requires i <= |records| && DeleteAll(p, records[..i]).Failed?
    ensures DeleteAll(p, records).Failed?
    decreases |records| - i
  {
    if i < |records| {
      DeleteAllNext(p, records, i);
      DeleteAllFails(p, records, i + 1);
    } else {
      assert records[..i] == records;
    }
  }

  lemma {:induction false} ApplyAllFails(p: Progress, planned: seq<Planned>, replace: bool, i: nat)
    requires i <= |planned| && ApplyAll(p, planned[..i], replace).Failed?
    ensures ApplyAll(p, planned, replace).Failed?
    decreases |planned| - i
  {
    if i < |planned| {
      ApplyAllNext(p, planned, replace, i);
      ApplyAllFails(p, planned, replace, i + 1);
    } else {
      assert planned[..i] == planned;
    }
  }

  datatype Result = NotReady | NeedsReview | ApiError | Applied(changed: nat, backup: seq<Record>)

  method ApplyPlanned(zone: CloudflareZone, planned: Planned, replace: bool, changed: nat, deleted: set<nat>,
                      backup: seq<Record>, ghost p: Progress)
    returns (ok: bool, changed': nat, deleted': set<nat>, backup': seq<Record>)
    requires At(zone, backup, changed, deleted, p)
    modifies zone
    ensures zone.Valid() && ok == ApplyOne(p, planned, replace).Done?
    ensures ok ==> At(zone, backup', changed', deleted', ApplyOne(p, planned, replace).p)
  {
    hide DeleteAll;
    ok, changed', deleted', backup' := true, changed, deleted, backup;
    if planned.action == OK {
      return;
    }
    if planned.action == Create {
      zone.CreateRecord(planned.desired);
      changed' := changed' + 1;
      return;
    }
    if !replace {
      return;
    }
    backup' := backup' + planned.touch;
    ghost var q := p.(backup := p.backup + planned.touch);
    if |planned.touch| > 0 && planned.touch[0].kind == planned.desired.kind {
      ok := zone.UpdateRecord(planned.touch[0].id, planned.desired);
      if ok {
        changed' := changed' + 1;
        ok, changed', deleted' := DeleteTouched(zone, planned.touch[1..], changed', deleted', backup',
                                                UpdateRecord(q, planned.touch[0].id, planned.desired).p);
      }
      return;
    }
    ok, changed', deleted' := DeleteTouched(zone, planned.touch, changed', deleted', backup', q);
    if ok {
      zone.CreateRecord(planned.desired);
      changed' := changed' + 1;
    }
  }

  /** Plans against the listed records and carries the plan out. */
  method ApplyCloudflareDNS(zone: CloudflareZone, desired: seq<Record>, provisionable: bool, replace: bool)
    returns (result: Result, ghost planned: seq<Planned>, ghost listing: seq<Record>)
    requires zone.Valid() && zone.calls == []
    modifies zone
    ensures zone.Valid()
    ensures IsListing(listing, old(zone.records)) && IsPlan(planned, desired, listing)
    ensures result == NotReady <==> !provisionable
    ensures result == NeedsReview <==> provisionable && !replace && exists k :: 0 <= k < |planned| && InTheWay(planned[k])
    ensures result in {NotReady, NeedsReview} ==> zone.records == old(zone.records) && zone.calls == []
    ensures result == ApiError || result.Applied? ==>
              result.Applied? == ApplyAll(Start(old(zone.records), old(zone.nextId)), planned, replace).Done?
    ensures result.Applied? ==>
              At(zone, result.backup, result.changed, ApplyAll(Start(old(zone.records), old(zone.nextId)), planned, replace).p.deleted,
                 ApplyAll(Start(old(zone.records), old(zone.nextId)), planned, replace).p)
  {
    hide ApplyAll, IsListing, IsPlan, InTheWay;
    var existing := zone.ListRecords();
    var plan := PlanCloudflareActions(desired, existing);
    listing, planned := existing, plan;
    if !provisionable {
      return NotReady, planned, listing;
    }
    var hasBlocking := exists k :: 0 <= k < |plan| && InTheWay(plan[k]);
    if hasBlocking && !replace {
      return NeedsReview, planned, listing;
    }
    ghost var start := Start(zone.records, zone.nextId);
    var backupRecords, changed, deleted: set<nat> := [], 0, {};
    var i := 0;
    ApplyNone(start, plan, replace);
    while i < |plan|
      invariant 0 <= i <= |plan|
      invariant ApplyAll(start, plan[..i], replace).Done?
      invariant At(zone, backupRecords, changed, deleted, ApplyAll(start, plan[..i], replace).p)
    {
      ApplyAllNext(start, plan, replace, i);
      var ok;
      ok, changed, deleted, backupRecords := ApplyPlanned(zone, plan[i], replace, changed, deleted, backupRecords,
                                                          ApplyAll(start, plan[..i], replace).p);
      if !ok {
        ApplyAllFails(start, plan, replace, i + 1);
        return ApiError, planned, listing;
      }
      i := i + 1;
    }
    assert plan[..i] == plan;
    result := Applied(changed, backupRecords);
  }

  lemma ApplyNone(p: Progress, planned: seq<Planned>, replace: bool)
    ensures ApplyAll(p, planned[..0], replace) == Done(p)
  {
  }
}
