/** Dynamic updates (RFC 2136) against the record store: the handler's loops, and the finite
    map they keep. */
module DynUpdate {
  import opened Common
  import opened DnsMessage
  import opened Filters
  import opened Names
  import opened ZoneData
  import opened RecordStore

  datatype Class = Inet | NoClass | AnyClass | OtherClass

  // data is the record's value as text. A type the DNS library has no name for reads Other("").
  datatype UpdateRR = UpdateRR(name: string, rrtype: RType, rrclass: Class, ttl: u32, data: string)

  datatype Rcode = Success | FormatError | ServerFailure | NotZone

  // ---------- names and values ----------

  // The name below the zone, "" for the zone itself. A name outside the zone stays whole.
  function NormalizeRRName(fqdn: string, domain: string): string
  {
    if Norm(fqdn) == Norm(domain) then "" else TrimSuffix(Norm(fqdn), "." + Norm(domain))
  }

  function RecordName(rr: UpdateRR, domain: string): string
  {
    var name := NormalizeRRName(rr.name, domain);
    if name == "" then "@" else name
  }

  predicate Supported(t: RType)
  {
    t == A || t == AAAA || t == CNAME || t == TXT || t == PTR
  }

  function RRValue(rr: UpdateRR): string
  {
    if Supported(rr.rrtype) then rr.data else ""
  }

  function RRToRecord(rr: UpdateRR, domain: string): Option<Record>
  {
    if Supported(rr.rrtype)
    then Some(Record(0, RecordName(rr, domain), rr.rrtype, if rr.ttl == 0 then 60 else rr.ttl, rr.data, ""))
    else None
  }

  // How deletions read the name of a stored record.
  function Owner(name: string): string
  {
    if name == "@" then "" else name
  }

  // No type to go by: every record of the name is meant.
  predicate AllTypes(t: RType)
  {
    t == ANY || t == Other("")
  }

  // ---------- what one update does ----------

  predicate Drops(rr: UpdateRR, domain: string, r: Record)
  {
    match rr.rrclass
    case Inet => Supported(rr.rrtype) && r.name == RecordName(rr, domain) && r.rtype == rr.rrtype
    case NoClass =>
      Owner(r.name) == NormalizeRRName(rr.name, domain) && r.rtype == rr.rrtype && (RRValue(rr) == "" || r.value == RRValue(rr))
    case AnyClass => Owner(r.name) == NormalizeRRName(rr.name, domain) && (AllTypes(rr.rrtype) || r.rtype == rr.rrtype)
    case OtherClass => false
  }

  function Keeps(rr: UpdateRR, domain: string): Record -> bool
  {
    (r: Record) => !Drops(rr, domain, r)
  }

  function Added(rr: UpdateRR, domain: string): Option<Record>
  {
    if rr.rrclass == Inet then RRToRecord(rr, domain) else None
  }

  function Updated(rs: seq<Record>, rr: UpdateRR, domain: string): seq<Record>
  {
    var kept := Filter(rs, Keeps(rr, domain));
    match Added(rr, domain)
    case None => kept
    case Some(rec) => Put(kept, rec)
  }

  // The number of record writes this takes.
  function Writes(rs: seq<Record>, rr: UpdateRR, domain: string): nat
  {
    FilterShrinks(rs, Keeps(rr, domain));
    |rs| - |Filter(rs, Keeps(rr, domain))| + if Added(rr, domain).Some? then 1 else 0
  }

  function UpdatedAll(rs: seq<Record>, rrs: seq<UpdateRR>, domain: string): seq<Record>
  {
    if rrs == [] then rs
    else Updated(UpdatedAll(rs, rrs[..|rrs| - 1], domain), rrs[|rrs| - 1], domain)
  }

  function WritesAll(rs: seq<Record>, rrs: seq<UpdateRR>, domain: string): nat
  {
    if rrs == [] then 0
    else
      WritesAll(rs, rrs[..|rrs| - 1], domain)
        + Writes(UpdatedAll(rs, rrs[..|rrs| - 1], domain), rrs[|rrs| - 1], domain)
  }

  // The update is of a kind that looks at the stored zone.
  predicate Touches(rr: UpdateRR)
  {
    rr.rrclass == NoClass || rr.rrclass == AnyClass || (rr.rrclass == Inet && Supported(rr.rrtype))
  }

  lemma UpdatedDistinct(rs: seq<Record>, rr: UpdateRR, domain: string)
    requires DistinctIds(rs)
    ensures DistinctIds(Updated(rs, rr, domain))
  {
    FilterKeepsIdsDistinct(rs, Keeps(rr, domain));
    if Added(rr, domain).Some? {
      PutNew(Filter(rs, Keeps(rr, domain)), Added(rr, domain).value);
    }
  }

  lemma {:induction false} UpdatedAllDistinct(rs: seq<Record>, rrs: seq<UpdateRR>, domain: string)
    requires DistinctIds(rs)
    ensures DistinctIds(UpdatedAll(rs, rrs, domain))
  {
    if rrs != [] {
      UpdatedAllDistinct(rs, rrs[..|rrs| - 1], domain);
      UpdatedDistinct(UpdatedAll(rs, rrs[..|rrs| - 1], domain), rrs[|rrs| - 1], domain);
    }
  }

  // ---------- deleting one by one ----------

  // The records while the deletions have got to position i.
  function Halfway(rs: seq<Record>, keep: Record -> bool, i: nat): seq<Record>
    requires i <= |rs|
  {
    Filter(rs[..i], keep) + rs[i..]
  }

  // How many are gone by then.
  function Gone(rs: seq<Record>, keep: Record -> bool, i: nat): nat
    requires i <= |rs|
  {
    FilterShrinks(rs[..i], keep);
    i - |Filter(rs[..i], keep)|
  }

  lemma HalfwayEnds(rs: seq<Record>, keep: Record -> bool)
    ensures Halfway(rs, keep, 0) == rs && Gone(rs, keep, 0) == 0
    ensures Halfway(rs, keep, |rs|) == Filter(rs, keep) && Gone(rs, keep, |rs|) == |rs| - |Filter(rs, keep)|
  {
    assert rs[..|rs|] == rs && rs[|rs|..] == [];
    assert Filter(rs[..0], keep) == [] && [] + rs[0..] == rs;
    assert Filter(rs, keep) + [] == Filter(rs, keep);
  }

  lemma KeepAt(rs: seq<Record>, keep: Record -> bool, i: nat)
    requires i < |rs| && keep(rs[i])
    ensures Halfway(rs, keep, i + 1) == Halfway(rs, keep, i) && Gone(rs, keep, i + 1) == Gone(rs, keep, i)
  {
    FilterStep(rs, i, keep);
    hide Filter;
    var kept := Filter(rs[..i], keep);
    assert rs[i..] == [rs[i]] + rs[i + 1..];
    assert (kept + [rs[i]]) + rs[i + 1..] == kept + ([rs[i]] + rs[i + 1..]);
  }

  lemma DropAt(rs: seq<Record>, keep: Record -> bool, i: nat)
    requires i < |rs| && DistinctIds(rs) && !keep(rs[i])
    ensures IndexOfId(Halfway(rs, keep, i), rs[i].id) < |Halfway(rs, keep, i)|
    ensures Filter(Halfway(rs, keep, i), OtherId(rs[i].id)) == Halfway(rs, keep, i + 1)
    ensures Gone(rs, keep, i + 1) == Gone(rs, keep, i) + 1
  {
    FilterStep(rs, i, keep);
    hide Filter, IndexOfId;
    var kept, other := Filter(rs[..i], keep), OtherId(rs[i].id);
    assert rs[i] == Halfway(rs, keep, i)[|kept|];
    assert kept + [] == kept;
    forall r | r in kept
      ensures other(r)
    {
      assert r in rs[..i];
    }
    OthersStay(kept, rs[i], rs[i + 1..], other);
    assert rs[i..] == [rs[i]] + rs[i + 1..];
  }

  lemma OthersStay(kept: seq<Record>, gone: Record, rest: seq<Record>, p: Record -> bool)
    requires !p(gone) && (forall r :: r in kept ==> p(r)) && (forall r :: r in rest ==> p(r))
    ensures Filter(kept + ([gone] + rest), p) == kept + rest
  {
    assert Filter([gone], p) == [];
    hide Filter;
    FilterConcat(kept, [gone] + rest, p);
    FilterConcat([gone], rest, p);
    FilterAll(kept, p);
    FilterAll(rest, p);
    assert [] + rest == rest;
  }

  // ---------- the zone in the store ----------

  // z holds these records after n more record writes.
  function Rewritten(z: Zone, records: seq<Record>, today: nat -> u32, ticks: nat, n: nat): Zone
  {
    z.(records := records, soa := Bumps(z.soa, today, ticks, n))
  }

  // z in the middle of a loop of deletions.
  function At(z: Zone, keep: Record -> bool, today: nat -> u32, ticks: nat, i: nat): Zone
    requires i <= |z.records|
  {
    Rewritten(z, Halfway(z.records, keep, i), today, ticks, Gone(z.records, keep, i))
  }

  class DDNSHandler {
    const store: FileStore

    constructor (store: FileStore)
      ensures this.store == store
    {
      this.store := store;
    }

    // The loop the deletions share: every listed record that is meant goes by its id.
    method DeleteWhere(key: string, ghost z: Zone, keep: Record -> bool)
      requires store.Valid() && LoadKey(store.files, key) == Ok(z) && DistinctIds(z.records)
      modifies store
      ensures store.Valid()
      ensures var kept := Filter(z.records, keep);
              && |kept| <= |z.records|
              && store.ticks == old(store.ticks) + |z.records| - |kept|
              && Filename(z.domain, z.view).Some?
              && store.files == old(store.files)
                   [FileOf(z) := Rewritten(z, kept, store.today, old(store.ticks), |z.records| - |kept|)]
    {
      hide Halfway, Filter, LoadKey, FilesOk, Filename, BumpedSoa;
      var records := ListRecords(key, z);
      ghost var files0, ticks0 := store.files, store.ticks;
      LoadAgain(files0, key, z, z);
      HalfwayEnds(records, keep);
      for i := 0 to |records|
        invariant store.Valid() && store.ticks == ticks0 + Gone(records, keep, i)
        invariant store.files == files0[FileOf(z) := At(z, keep, store.today, ticks0, i)]
      {
        if !keep(records[i]) {
          DeleteOne(key, records[i].id, z, keep, i, files0, ticks0);
        } else {
          KeepAt(records, keep, i);
        }
      }
    }

    method DeleteOne(key: string, id: int, ghost z: Zone, ghost keep: Record -> bool, ghost i: nat,
          ghost files0: map<string, Zone>, ghost ticks0: nat)
      requires store.Valid() && FilesOk(files0) && LoadKey(files0, key) == Ok(z) && Filename(z.domain, z.view).Some?
      requires DistinctIds(z.records) && i < |z.records| && !keep(z.records[i]) && id == z.records[i].id
      requires store.ticks == ticks0 + Gone(z.records, keep, i)
      requires store.files == files0[FileOf(z) := At(z, keep, store.today, ticks0, i)]
      modifies store
      ensures store.Valid() && store.ticks == ticks0 + Gone(z.records, keep, i + 1)
      ensures store.files == files0[FileOf(z) := At(z, keep, store.today, ticks0, i + 1)]
    {
      hide Halfway, Filter, LoadKey, Filename, BumpedSoa;
      LoadAgain(files0, key, z, At(z, keep, store.today, ticks0, i));
      DropAt(z.records, keep, i);
      var _ := store.DeleteRecord(key, id);
    }

    method ListRecords(key: string, ghost z: Zone) returns (records: seq<Record>)
      requires LoadKey(store.files, key) == Ok(z)
      ensures records == z.records
    {
      var loaded := store.LoadZoneFile(key);
      return loaded.value.records;
    }

    // Old records of the name and type go first, so that a client's retry or a new address
    // leaves one record.
    method Upsert(domain: string, rr: UpdateRR, record: Record) returns (e: Option<StoreError>)
      requires store.Valid() && IdsOk(store.files, domain) && Added(rr, domain) == Some(record)
      modifies store
      ensures store.Valid()
      ensures e == if LoadKey(old(store.files), domain).Err? then Some(LoadKey(old(store.files), domain).error) else None
      ensures store.ticks == old(store.ticks) + TicksFor(old(store.files), domain, [rr])
      ensures store.files == AfterUpdates(old(store.files), domain, [rr], store.today, old(store.ticks))
    {
      hide LoadKey, FilesOk, Filename, BumpedSoa, Put, Filter;
      var loaded := store.LoadZoneFile(domain);
      OneUpdate(store.files, domain, rr, store.today, store.ticks);
      if loaded.Ok? {
        ghost var z, files0, ticks0 := loaded.value, store.files, store.ticks;
        DeleteWhere(domain, z, Keeps(rr, domain));
        ghost var kept := Filter(z.records, Keeps(rr, domain));
        LoadAgain(files0, domain, z, Rewritten(z, kept, store.today, ticks0, |z.records| - |kept|));
      }
      e := store.PutRecord(domain, record);
    }

    // One update record. Of the zone only its domain is used.
    method ApplyUpdate(domain: string, rr: UpdateRR) returns (e: Option<StoreError>)
      requires store.Valid() && IdsOk(store.files, domain)
      modifies store
      ensures store.Valid()
      ensures e == if Touches(rr) && LoadKey(old(store.files), domain).Err? then Some(LoadKey(old(store.files), domain).error)
                   else None
      ensures store.ticks == old(store.ticks) + TicksFor(old(store.files), domain, [rr])
      ensures store.files == AfterUpdates(old(store.files), domain, [rr], store.today, old(store.ticks))
    {
      hide LoadKey, FilesOk, Filename, BumpedSoa, Put, Filter;
      var loaded := store.LoadZoneFile(domain);
      ghost var z := if loaded.Ok? then loaded.value else Zone("", "", 0, 0, [], None);
      OneUpdate(store.files, domain, rr, store.today, store.ticks);
      match rr.rrclass {
        case Inet =>
          var record := RRToRecord(rr, domain);
          if record.None? {
            if loaded.Ok? {
              KeepsAll(z, rr, domain);
              LoadAgain(store.files, domain, z, z);
            }
            return None;
          }
          e := Upsert(domain, rr, record.value);
        case NoClass =>
          if loaded.Err? {
            return Some(loaded.error);
          }
          DeleteWhere(domain, z, Keeps(rr, domain));
          return None;
        case AnyClass =>
          if loaded.Err? {
            return Some(loaded.error);
          }
          DeleteWhere(domain, z, Keeps(rr, domain));
          return None;
        case OtherClass =>
          if loaded.Ok? {
            KeepsAll(z, rr, domain);
            LoadAgain(store.files, domain, z, z);
          }
          return None;
      }
    }

    // A whole update message: the zone section's name and the update section. Records before a
    // failing one stay applied.
    method ProcessUpdate(question: Option<string>, updates: seq<UpdateRR>) returns (rcode: Rcode, reload: bool)
      requires store.Valid() && forall key :: IdsOk(store.files, key)
      modifies store
      ensures store.Valid()
      ensures rcode == Answer(old(store.files), question, updates) && (reload <==> rcode == Success)
      ensures store.files == if rcode == FormatError || rcode == NotZone then old(store.files)
                             else
                               var domain := LoadKey(old(store.files), TrimDot(question.value)).value.domain;
                               AfterUpdates(old(store.files), domain, updates, store.today, old(store.ticks))
    {
      hide LoadKey, FilesOk, Filename, BumpedSoa, Updated, Writes;
      if question.None? {
        return FormatError, false;
      }
      var loaded := store.LoadZoneFile(TrimDot(question.value));
      if loaded.Err? {
        return NotZone, false;
      }
      var domain := loaded.value.domain;
      ghost var files0, ticks0 := store.files, store.ticks;
      NoUpdates(files0, domain, store.today, ticks0);
      for i := 0 to |updates|
        invariant store.Valid() && IdsOk(store.files, domain)
        invariant LoadKey(files0, domain).Err? ==> forall k :: 0 <= k < i ==> !Touches(updates[k])
        invariant store.ticks == ticks0 + TicksFor(files0, domain, updates[..i])
        invariant store.files == AfterUpdates(files0, domain, updates[..i], store.today, ticks0)
      {
        MoreUpdates(files0, domain, updates[..i], updates[i], store.today, ticks0);
        assert updates[..i] + [updates[i]] == updates[..i + 1];
        var e := ApplyUpdate(domain, updates[i]);
        if e.Some? {
          return ServerFailure, false;
        }
      }
      assert updates[..|updates|] == updates;
      return Success, true;
    }
  }

  // ---------- whole messages on the files ----------

  // The zone addressed by key, if there is one, has distinct record ids.
  ghost predicate IdsOk(files: map<string, Zone>, key: string)
  {
    LoadKey(files, key).Ok? ==> DistinctIds(LoadKey(files, key).value.records)
  }

  function TicksFor(files: map<string, Zone>, domain: string, rrs: seq<UpdateRR>): nat
  {
    var z := LoadKey(files, domain);
    if z.Ok? then WritesAll(z.value.records, rrs, domain) else 0
  }

  function AfterUpdates(files: map<string, Zone>, domain: string, rrs: seq<UpdateRR>, today: nat -> u32,
        ticks: nat): map<string, Zone>
    requires FilesOk(files)
  {
    var r := LoadKey(files, domain);
    if r.Err? then files
    else
      var z := r.value;
      files[FileOf(z) := Rewritten(z, UpdatedAll(z.records, rrs, domain), today, ticks, WritesAll(z.records, rrs, domain))]
  }

  function Answer(files: map<string, Zone>, question: Option<string>, updates: seq<UpdateRR>): Rcode
  {
    if question.None? then FormatError
    else if LoadKey(files, TrimDot(question.value)).Err? then NotZone
    else if LoadKey(files, LoadKey(files, TrimDot(question.value)).value.domain).Err?
            && exists k :: 0 <= k < |updates| && Touches(updates[k])
    then ServerFailure
    else Success
  }

  lemma OneUpdate(files: map<string, Zone>, domain: string, rr: UpdateRR, today: nat -> u32, ticks: nat)
    requires FilesOk(files)
    ensures LoadKey(files, domain).Ok? ==>
              var z := LoadKey(files, domain).value;
              && Filename(z.domain, z.view).Some?
              && TicksFor(files, domain, [rr]) == Writes(z.records, rr, domain)
              && AfterUpdates(files, domain, [rr], today, ticks)
                   == files[FileOf(z) :=
                        Rewritten(z, Updated(z.records, rr, domain), today, ticks, Writes(z.records, rr, domain))]
  {
    if LoadKey(files, domain).Ok? {
      var z := LoadKey(files, domain).value;
      LoadAgain(files, domain, z, z);
      JustOne(z.records, rr, domain);
    }
  }

  lemma NoUpdates(files: map<string, Zone>, domain: string, today: nat -> u32, ticks: nat)
    requires FilesOk(files)
    ensures AfterUpdates(files, domain, [], today, ticks) == files && TicksFor(files, domain, []) == 0
  {
    if LoadKey(files, domain).Ok? {
      LoadAgain(files, domain, LoadKey(files, domain).value, LoadKey(files, domain).value);
    }
  }

  // The zone after some updates.
  function ZoneAfter(z: Zone, rrs: seq<UpdateRR>, domain: string, today: nat -> u32, ticks: nat): Zone
  {
    Rewritten(z, UpdatedAll(z.records, rrs, domain), today, ticks, WritesAll(z.records, rrs, domain))
  }

  lemma UpdatedFiles(files: map<string, Zone>, domain: string, z: Zone, rrs: seq<UpdateRR>, today: nat -> u32,
        ticks: nat)
    requires FilesOk(files) && LoadKey(files, domain) == Ok(z)
    ensures Filename(z.domain, z.view).Some?
    ensures AfterUpdates(files, domain, rrs, today, ticks) == files[FileOf(z) := ZoneAfter(z, rrs, domain, today, ticks)]
    ensures FilesOk(AfterUpdates(files, domain, rrs, today, ticks))
    ensures LoadKey(AfterUpdates(files, domain, rrs, today, ticks), domain) == Ok(ZoneAfter(z, rrs, domain, today, ticks))
  {
    LoadAgain(files, domain, z, ZoneAfter(z, rrs, domain, today, ticks));
    MidOk(files, z, ZoneAfter(z, rrs, domain, today, ticks));
  }

  lemma ZoneAfterMore(z: Zone, rrs: seq<UpdateRR>, rr: UpdateRR, domain: string, today: nat -> u32, ticks: nat)
    ensures var mid, n := ZoneAfter(z, rrs, domain, today, ticks), WritesAll(z.records, rrs, domain);
            && ZoneAfter(mid, [rr], domain, today, ticks + n) == ZoneAfter(z, rrs + [rr], domain, today, ticks)
            && n + WritesAll(mid.records, [rr], domain) == WritesAll(z.records, rrs + [rr], domain)
  {
    var records := UpdatedAll(z.records, rrs, domain);
    AllAndOne(z.records, rrs, rr, domain);
    JustOne(records, rr, domain);
    hide UpdatedAll, WritesAll, Updated, Writes, Rewritten;
    var n, m := WritesAll(z.records, rrs, domain), Writes(records, rr, domain);
    var mid := Rewritten(z, records, today, ticks, n);
    RewrittenTwice(z, records, Updated(records, rr, domain), today, ticks, n, m);
    assert mid.records == records by {
      RecordsOf(z, records, today, ticks, n);
    }
  }

  lemma RecordsOf(z: Zone, records: seq<Record>, today: nat -> u32, ticks: nat, n: nat)
    ensures Rewritten(z, records, today, ticks, n).records == records
  {
  }

  lemma JustOne(rs: seq<Record>, rr: UpdateRR, domain: string)
    ensures UpdatedAll(rs, [rr], domain) == Updated(rs, rr, domain) && WritesAll(rs, [rr], domain) == Writes(rs, rr, domain)
  {
    AllAndOne(rs, [], rr, domain);
    assert [] + [rr] == [rr];
  }

  lemma MoreUpdates(files: map<string, Zone>, domain: string, rrs: seq<UpdateRR>, rr: UpdateRR,
        today: nat -> u32, ticks: nat)
    requires FilesOk(files) && IdsOk(files, domain)
    ensures var mid := AfterUpdates(files, domain, rrs, today, ticks);
            var n := TicksFor(files, domain, rrs);
            && FilesOk(mid) && IdsOk(mid, domain) && LoadKey(mid, domain).Err? == LoadKey(files, domain).Err?
            && AfterUpdates(mid, domain, [rr], today, ticks + n) == AfterUpdates(files, domain, rrs + [rr], today, ticks)
            && n + TicksFor(mid, domain, [rr]) == TicksFor(files, domain, rrs + [rr])
            && IdsOk(AfterUpdates(files, domain, rrs + [rr], today, ticks), domain)
  {
    hide FilesOk, LoadKey, FileOf, Filename, AfterUpdates, ZoneAfter, UpdatedAll, WritesAll, DistinctIds;
    var mid, n := AfterUpdates(files, domain, rrs, today, ticks), TicksFor(files, domain, rrs);
    if LoadKey(files, domain).Ok? {
      var z := LoadKey(files, domain).value;
      var z' := ZoneAfter(z, rrs, domain, today, ticks);
      UpdatedFiles(files, domain, z, rrs, today, ticks);
      UpdatedFiles(files, domain, z, rrs + [rr], today, ticks);
      UpdatedFiles(mid, domain, z', [rr], today, ticks + n);
      ZoneAfterMore(z, rrs, rr, domain, today, ticks);
      ZoneAfterIds(z, rrs, domain, today, ticks);
      ZoneAfterIds(z, rrs + [rr], domain, today, ticks);
    } else {
      NoZoneNoChange(files, domain, rrs, today, ticks);
      NoZoneNoChange(files, domain, rrs + [rr], today, ticks);
      NoZoneNoChange(files, domain, [rr], today, ticks + n);
    }
  }

  lemma ZoneAfterIds(z: Zone, rrs: seq<UpdateRR>, domain: string, today: nat -> u32, ticks: nat)
    requires DistinctIds(z.records)
    ensures var z' := ZoneAfter(z, rrs, domain, today, ticks);
            DistinctIds(z'.records) && z'.domain == z.domain && z'.view == z.view
            && (Filename(z.domain, z.view).Some? ==> FileOf(z') == FileOf(z))
  {
    UpdatedAllDistinct(z.records, rrs, domain);
  }

  lemma NoZoneNoChange(files: map<string, Zone>, domain: string, rrs: seq<UpdateRR>, today: nat -> u32, ticks: nat)
    requires FilesOk(files) && LoadKey(files, domain).Err?
    ensures AfterUpdates(files, domain, rrs, today, ticks) == files
  {
  }

  lemma AllAndOne(rs: seq<Record>, rrs: seq<UpdateRR>, rr: UpdateRR, domain: string)
    ensures UpdatedAll(rs, rrs + [rr], domain) == Updated(UpdatedAll(rs, rrs, domain), rr, domain)
    ensures WritesAll(rs, rrs + [rr], domain) == WritesAll(rs, rrs, domain) + Writes(UpdatedAll(rs, rrs, domain), rr, domain)
  {
    assert (rrs + [rr])[..|rrs|] == rrs;
  }

  lemma RewrittenTwice(z: Zone, rs: seq<Record>, rs': seq<Record>, today: nat -> u32, ticks: nat, n: nat, m: nat)
    ensures Rewritten(Rewritten(z, rs, today, ticks, n), rs', today, ticks + n, m) == Rewritten(z, rs', today, ticks, n + m)
  {
    BumpsAppend(z.soa, today, ticks, n, m);
  }

  lemma KeepsAll(z: Zone, rr: UpdateRR, domain: string)
    requires !Touches(rr)
    ensures Updated(z.records, rr, domain) == z.records && Writes(z.records, rr, domain) == 0
  {
    FilterAll(z.records, Keeps(rr, domain));
  }

  // The handler looks a zone up by the name in the message and writes it by its own domain.
  // That is the same zone exactly when the name asks for no view.
  lemma WritesTheZoneItRead(files: map<string, Zone>, key: string, z: Zone)
    requires FilesOk(files) && LoadKey(files, key) == Ok(z)
    ensures LoadKey(files, z.domain) == Ok(z) <==> SplitZoneKey(key).1 == ""
  {
    var (domain, view) := SplitZoneKey(key);
    FilesAreApart(domain, view, z.domain, z.view);
    NoAt(z.domain);
    SplitPlain(z.domain);
    if LoadKey(files, z.domain) == Ok(z) {
      FilesAreApart(z.domain, "", z.domain, z.view);
    }
  }

  // ---------- the finite map ----------

  type Slot = (string, RType)

  datatype Value = Value(ttl: int, value: string, extra: string)

  function SlotOf(r: Record): Slot
  {
    (r.name, r.rtype)
  }

  function ValueOf(r: Record): Value
  {
    Value(r.ttl, r.value, r.extra)
  }

  ghost predicate OnePerSlot(rs: seq<Record>)
  {
    forall i, j :: 0 <= i < j < |rs| ==> SlotOf(rs[i]) != SlotOf(rs[j])
  }

  function MapOf(rs: seq<Record>): map<Slot, Value>
  {
    if rs == [] then map[] else MapOf(rs[..|rs| - 1])[SlotOf(rs[|rs| - 1]) := ValueOf(rs[|rs| - 1])]
  }

  // The slots an update clears: the one it is about to fill, or what it deletes.
  predicate Meant(rr: UpdateRR, domain: string, k: Slot, v: Value)
  {
    match rr.rrclass
    case Inet => Supported(rr.rrtype) && k == (RecordName(rr, domain), rr.rrtype)
    case NoClass => k == (RecordName(rr, domain), rr.rrtype) && (RRValue(rr) == "" || v.value == RRValue(rr))
    case AnyClass => k.0 == RecordName(rr, domain) && (AllTypes(rr.rrtype) || k.1 == rr.rrtype)
    case OtherClass => false
  }

  function Without(m: map<Slot, Value>, rr: UpdateRR, domain: string): map<Slot, Value>
  {
    map k | k in m && !Meant(rr, domain, k, m[k]) :: m[k]
  }

  // Put, delete-value, delete-type and delete-name on a map.
  function MapStep(m: map<Slot, Value>, rr: UpdateRR, domain: string): map<Slot, Value>
  {
    if rr.rrclass == Inet && Supported(rr.rrtype)
    then m[(RecordName(rr, domain), rr.rrtype) := Value(if rr.ttl == 0 then 60 else rr.ttl, rr.data, "")]
    else Without(m, rr, domain)
  }

  function MapSteps(m: map<Slot, Value>, rrs: seq<UpdateRR>, domain: string): map<Slot, Value>
  {
    if rrs == [] then m else MapStep(MapSteps(m, rrs[..|rrs| - 1], domain), rrs[|rrs| - 1], domain)
  }

  // Stored names are never empty.
  ghost predicate Named(rs: seq<Record>)
  {
    forall r :: r in rs ==> r.name != ""
  }

  predicate HostOwner(rr: UpdateRR, domain: string)
  {
    NormalizeRRName(rr.name, domain) != "@"
  }

  lemma {:induction false} MapOfHas(rs: seq<Record>, k: Slot)
    requires OnePerSlot(rs)
    ensures k in MapOf(rs) <==> exists r :: r in rs && SlotOf(r) == k
    ensures forall r :: r in rs && SlotOf(r) == k ==> MapOf(rs)[k] == ValueOf(r)
  {
    if rs != [] {
      var n := |rs| - 1;
      MapOfHas(rs[..n], k);
      assert forall r :: r in rs <==> r in rs[..n] || r == rs[n];
      assert forall r :: r in rs[..n] ==> SlotOf(r) != SlotOf(rs[n]);
    }
  }

  lemma {:induction false} FilterOnePerSlot(rs: seq<Record>, p: Record -> bool)
    requires OnePerSlot(rs)
    ensures OnePerSlot(Filter(rs, p))
  {
    if rs != [] {
      var n := |rs| - 1;
      FilterOnePerSlot(rs[..n], p);
      assert forall r :: r in rs[..n] ==> SlotOf(r) != SlotOf(rs[n]);
    }
  }

  lemma MeansTheSame(rr: UpdateRR, domain: string, r: Record)
    requires r.name != "" && (rr.rrclass == Inet || HostOwner(rr, domain))
    ensures Drops(rr, domain, r) <==> Meant(rr, domain, SlotOf(r), ValueOf(r))
  {
    hide NormalizeRRName;
  }

  lemma MapOfKept(rs: seq<Record>, rr: UpdateRR, domain: string)
    requires OnePerSlot(rs) && Named(rs) && (rr.rrclass == Inet || HostOwner(rr, domain))
    ensures OnePerSlot(Filter(rs, Keeps(rr, domain)))
    ensures MapOf(Filter(rs, Keeps(rr, domain))) == Without(MapOf(rs), rr, domain)
  {
    var keep := Keeps(rr, domain);
    FilterOnePerSlot(rs, keep);
    forall r | r in rs
      ensures keep(r) <==> !Meant(rr, domain, SlotOf(r), ValueOf(r))
    {
      MeansTheSame(rr, domain, r);
    }
    hide MapOf, Drops, Meant, SlotOf, ValueOf, Keeps;
    forall k: Slot
      ensures k in MapOf(Filter(rs, keep)) <==> k in MapOf(rs) && !Meant(rr, domain, k, MapOf(rs)[k])
      ensures k in MapOf(Filter(rs, keep)) ==> MapOf(Filter(rs, keep))[k] == MapOf(rs)[k]
    {
      MapOfHas(Filter(rs, keep), k);
      MapOfHas(rs, k);
      if r :| r in rs && SlotOf(r) == k && keep(r) {
        FilterKeeps(rs, keep, r);
      }
    }
  }

  // A deletion that names the label "@" below the zone, with something of it in the map.
  ghost predicate Misses(m: map<Slot, Value>, rr: UpdateRR, domain: string)
  {
    rr.rrclass != Inet && !HostOwner(rr, domain) && exists k :: k in m && Meant(rr, domain, k, m[k])
  }

  // The records stay a map, and one update is one map operation, exactly if it is no deletion
  // that misses what it means.
  lemma StepIsMapStep(rs: seq<Record>, rr: UpdateRR, domain: string)
    requires OnePerSlot(rs) && Named(rs)
    ensures var after := Updated(rs, rr, domain);
            && OnePerSlot(after) && Named(after)
            && (MapOf(after) == MapStep(MapOf(rs), rr, domain) <==> !Misses(MapOf(rs), rr, domain))
  {
    hide MapOf, Filter, NormalizeRRName, Put, Without, Meant;
    var kept := Filter(rs, Keeps(rr, domain));
    if rr.rrclass != Inet && !HostOwner(rr, domain) {
      AtLabelDropsNothing(rs, rr, domain);
      WithoutNone(MapOf(rs), rr, domain);
    } else {
      MapOfKept(rs, rr, domain);
      if Added(rr, domain).Some? {
        var rec := RRToRecord(rr, domain).value;
        PutNew(kept, rec);
        PutIsMapStep(MapOf(rs), kept, rr, domain, rec.(id := MaxId(kept) + 1));
      }
    }
  }

  // No stored record is read as the label "@" below the zone.
  lemma AtLabelDropsNothing(rs: seq<Record>, rr: UpdateRR, domain: string)
    requires rr.rrclass != Inet && !HostOwner(rr, domain)
    ensures Filter(rs, Keeps(rr, domain)) == rs
  {
    hide NormalizeRRName;
    FilterAll(rs, Keeps(rr, domain));
  }

  lemma WithoutNone(m: map<Slot, Value>, rr: UpdateRR, domain: string)
    ensures Without(m, rr, domain) == m <==> !exists k :: k in m && Meant(rr, domain, k, m[k])
  {
    hide Meant;
    forall k | k in m && Meant(rr, domain, k, m[k])
      ensures k !in Without(m, rr, domain)
    {
    }
  }

  lemma PutIsMapStep(m: map<Slot, Value>, kept: seq<Record>, rr: UpdateRR, domain: string, last: Record)
    requires Added(rr, domain).Some? && last == RRToRecord(rr, domain).value.(id := last.id)
    requires OnePerSlot(kept) && (forall r :: r in kept ==> !Drops(rr, domain, r)) && MapOf(kept) == Without(m, rr, domain)
    ensures OnePerSlot(kept + [last]) && MapOf(kept + [last]) == MapStep(m, rr, domain)
  {
    hide MapOf, RecordName;
    MapOfPut(kept, last);
    assert forall s, v :: Meant(rr, domain, s, v) <==> s == SlotOf(last);
    assert Without(m, rr, domain) == m - {SlotOf(last)};
  }

  lemma MapOfPut(rs: seq<Record>, rec: Record)
    requires OnePerSlot(rs) && forall r :: r in rs ==> SlotOf(r) != SlotOf(rec)
    ensures OnePerSlot(rs + [rec]) && MapOf(rs + [rec]) == MapOf(rs)[SlotOf(rec) := ValueOf(rec)]
  {
    assert (rs + [rec])[..|rs|] == rs;
  }

  // After every update of a run the records are the map the operations so far make.
  ghost predicate TracksMap(rs: seq<Record>, rrs: seq<UpdateRR>, domain: string)
  {
    && MapOf(UpdatedAll(rs, rrs, domain)) == MapSteps(MapOf(rs), rrs, domain)
    && (rrs != [] ==> TracksMap(rs, rrs[..|rrs| - 1], domain))
  }

  ghost predicate NeverMisses(m: map<Slot, Value>, rrs: seq<UpdateRR>, domain: string)
  {
    rrs != [] ==>
      && NeverMisses(m, rrs[..|rrs| - 1], domain)
      && !Misses(MapSteps(m, rrs[..|rrs| - 1], domain), rrs[|rrs| - 1], domain)
  }

  // Any run of updates, over however many messages, keeps one record per slot and follows a
  // run of map operations, all along exactly if no deletion misses; so it does whenever the
  // deletions do not name the label "@".
  lemma {:induction false} UpdatesKeepAMap(rs: seq<Record>, rrs: seq<UpdateRR>, domain: string)
    requires OnePerSlot(rs) && DistinctIds(rs) && Named(rs)
    ensures var after := UpdatedAll(rs, rrs, domain); OnePerSlot(after) && DistinctIds(after) && Named(after)
    ensures TracksMap(rs, rrs, domain) <==> NeverMisses(MapOf(rs), rrs, domain)
    ensures (forall i :: 0 <= i < |rrs| ==> rrs[i].rrclass == Inet || HostOwner(rrs[i], domain)) ==>
              NeverMisses(MapOf(rs), rrs, domain)
  {
    hide Updated, MapStep, HostOwner, MapOf;
    if rrs != [] {
      var n := |rrs| - 1;
      UpdatesKeepAMap(rs, rrs[..n], domain);
      StepIsMapStep(UpdatedAll(rs, rrs[..n], domain), rrs[n], domain);
      UpdatedDistinct(UpdatedAll(rs, rrs[..n], domain), rrs[n], domain);
    }
  }

  // Where the map breaks: the label "@" below the zone is stored as the zone's own name, where
  // a deletion under the same name does not look. Everywhere else delete-name undoes a put.
  lemma DeleteNameUndoesPut(rs: seq<Record>, put: UpdateRR, del: UpdateRR, domain: string)
    requires put.rrclass == Inet && Supported(put.rrtype)
    requires del.rrclass == AnyClass && del.rrtype == ANY && del.name == put.name
    ensures (forall r :: r in UpdatedAll(rs, [put, del], domain) ==> r.name != RecordName(put, domain))
            <==> HostOwner(put, domain)
  {
    hide NormalizeRRName, Filter;
    assert [put, del][..1] == [put] && [put][..0] == [];
    var kept := Filter(rs, Keeps(put, domain));
    var rec := RRToRecord(put, domain).value;
    PutNew(kept, rec);
    var stored := rec.(id := MaxId(kept) + 1);
    var mid := Updated(rs, put, domain);
    assert mid == kept + [stored] && mid[|kept|] == stored;
    assert UpdatedAll(rs, [put], domain) == Updated(UpdatedAll(rs, [], domain), put, domain) == mid;
    assert UpdatedAll(rs, [put, del], domain) == Updated(mid, del, domain);
    if !HostOwner(put, domain) {
      FilterKeeps(mid, Keeps(del, domain), stored);
    }
  }

  // Up to the year 2147 every record write moves the serial forward.
  lemma EveryWriteMovesTheSerial(soa: SoaRecord, today: nat -> u32, ticks: nat, n: nat)
    requires today(ticks + n) % 100 == 0 && today(ticks + n) < 0x8000_0000
    ensures var before, after := Bumps(Some(soa), today, ticks, n), Bumps(Some(soa), today, ticks, n + 1);
            before.Some? && after.Some? && SerialLess(before.value.serial, after.value.serial)
  {
    BumpsSome(soa, today, ticks, n);
    SerialMovesForward(Bumps(Some(soa), today, ticks, n).value.serial, today(ticks + n));
  }

  lemma {:induction false} BumpsSome(soa: SoaRecord, today: nat -> u32, ticks: nat, n: nat)
    ensures Bumps(Some(soa), today, ticks, n).Some?
  {
    if 0 < n {
      BumpsSome(soa, today, ticks, n - 1);
    }
  }
}
