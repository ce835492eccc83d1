/** Reconciling DHCP leases with A records (SyncManager): the map of tracked leases, and the
    records of the forward zone it answers for. */
module DhcpSync {
  import opened Common
  import opened DnsMessage
  import opened Filters
  import opened Names
  import opened ZoneData
  import opened RecordStore

  datatype Lease = Lease(ip: string, hostname: string, mac: string)
  datatype Tracked = Tracked(hostname: string, ip: string, mac: string, aID: int, ptrID: int)

  // ---------- the leases to have ----------

  // Of two leases for one address the later one counts; one without a usable name is dropped.
  function LeaseMap(sanitize: string -> string, leases: seq<Lease>): map<string, Lease>
  {
    if leases == [] then map[]
    else
      var before := LeaseMap(sanitize, leases[..|leases| - 1]);
      var l := leases[|leases| - 1];
      if sanitize(l.hostname) == "" then before else before[l.ip := l.(hostname := sanitize(l.hostname))]
  }

  method BuildLeaseMap(sanitize: string -> string, leases: seq<Lease>) returns (newMap: map<string, Lease>)
    ensures newMap == LeaseMap(sanitize, leases)
  {
    newMap := map[];
    for i := 0 to |leases|
      invariant newMap == LeaseMap(sanitize, leases[..i])
    {
      assert leases[..i + 1][..i] == leases[..i];
      var l := leases[i];
      var h := sanitize(l.hostname);
      if h == "" {
        continue;
      }
      newMap := newMap[l.ip := l.(hostname := h)];
    }
    assert leases[..|leases|] == leases;
  }

  // Every lease is filed under its own address.
  lemma {:induction false} LeaseMapByAddress(sanitize: string -> string, leases: seq<Lease>)
    ensures ByAddress(LeaseMap(sanitize, leases))
  {
    if leases != [] {
      LeaseMapByAddress(sanitize, leases[..|leases| - 1]);
    }
  }

  predicate ByAddress(leases: map<string, Lease>)
  {
    forall ip :: ip in leases ==> leases[ip].ip == ip
  }

  // The last lease for the address with a usable name gives it this one.
  ghost predicate ReportedAs(sanitize: string -> string, leases: seq<Lease>, ip: string, hostname: string)
  {
    exists i :: 0 <= i < |leases| && GivesName(sanitize, leases, i, ip, hostname)
  }

  ghost predicate GivesName(sanitize: string -> string, leases: seq<Lease>, i: nat, ip: string, hostname: string)
    requires i < |leases|
  {
    && leases[i].ip == ip && sanitize(leases[i].hostname) == hostname != ""
    && forall j :: i < j < |leases| && leases[j].ip == ip ==> sanitize(leases[j].hostname) == ""
  }

  // The leases to have are exactly those reported with a usable name, the last one for each
  // address, under that name.
  lemma {:induction false} LeaseMapExactly(sanitize: string -> string, leases: seq<Lease>, ip: string)
    ensures var m := LeaseMap(sanitize, leases);
            && (ip in m <==> exists i :: 0 <= i < |leases| && leases[i].ip == ip && sanitize(leases[i].hostname) != "")
            && (ip in m ==> m[ip].ip == ip && ReportedAs(sanitize, leases, ip, m[ip].hostname))
    ensures forall h, h' :: ReportedAs(sanitize, leases, ip, h) && ReportedAs(sanitize, leases, ip, h') ==> h == h'
    ensures forall h :: ReportedAs(sanitize, leases, ip, h) ==> ip in LeaseMap(sanitize, leases)
  {
    if leases != [] {
      var n := |leases| - 1;
      LeaseMapExactly(sanitize, leases[..n], ip);
      assert forall i :: 0 <= i < n ==> leases[..n][i] == leases[i];
      if leases[n].ip == ip && sanitize(leases[n].hostname) != "" {
        assert GivesName(sanitize, leases, n, ip, sanitize(leases[n].hostname));
      }
      forall h
        ensures ReportedAs(sanitize, leases, ip, h) <==>
                if leases[n].ip == ip && sanitize(leases[n].hostname) != "" then h == sanitize(leases[n].hostname)
                else ReportedAs(sanitize, leases[..n], ip, h)
      {
        ReportedMore(sanitize, leases, ip, h);
      }
    }
  }

  lemma ReportedMore(sanitize: string -> string, leases: seq<Lease>, ip: string, h: string)
    requires leases != []
    ensures var n := |leases| - 1;
            ReportedAs(sanitize, leases, ip, h) <==>
            if leases[n].ip == ip && sanitize(leases[n].hostname) != "" then h == sanitize(leases[n].hostname)
            else ReportedAs(sanitize, leases[..n], ip, h)
  {
    var n := |leases| - 1;
    assert forall i :: 0 <= i < n ==> leases[..n][i] == leases[i];
    if leases[n].ip == ip && sanitize(leases[n].hostname) != "" {
      assert GivesName(sanitize, leases, n, ip, sanitize(leases[n].hostname));
    } else {
      forall i | 0 <= i < n
        ensures GivesName(sanitize, leases, i, ip, h) <==> GivesName(sanitize, leases[..n], i, ip, h)
      {
      }
    }
  }

  // ---------- tracked leases and the forward zone ----------

  // The record a tracked lease answers for.
  predicate IsRecordOf(r: Record, ip: string, t: Tracked)
  {
    r.id == t.aID && r.name == t.hostname && r.rtype == A && r.value == ip
  }

  ghost predicate Held(records: seq<Record>, ip: string, t: Tracked)
  {
    0 < t.aID && exists i :: 0 <= i < |records| && IsRecordOf(records[i], ip, t)
  }

  ghost predicate Inv(state: map<string, Tracked>, records: seq<Record>)
  {
    DistinctIds(records) && forall ip :: ip in state ==> Held(records, ip, state[ip])
  }

  lemma TrackedIdsDiffer(state: map<string, Tracked>, records: seq<Record>, ip: string, ip': string)
    requires Inv(state, records) && ip in state && ip' in state && ip != ip'
    ensures state[ip].aID != state[ip'].aID
  {
    assert Held(records, ip, state[ip]) && Held(records, ip', state[ip']);
  }

  ghost predicate Tracks(state: map<string, Tracked>, id: int)
  {
    exists ip :: ip in state && state[ip].aID == id
  }

  ghost function Untracked(state: map<string, Tracked>): Record -> bool
  {
    (r: Record) => !Tracks(state, r.id)
  }

  // The records nobody asked the manager to look after.
  ghost function Foreign(state: map<string, Tracked>, records: seq<Record>): seq<Record>
  {
    Filter(records, Untracked(state))
  }

  predicate Agrees(state: map<string, Tracked>, leases: map<string, Lease>)
  {
    state.Keys == leases.Keys && forall ip :: ip in leases ==> state[ip].hostname == leases[ip].hostname
  }

  // The records hold an A record of this name and address.
  ghost predicate HoldsAddress(records: seq<Record>, hostname: string, ip: string)
  {
    exists i :: 0 <= i < |records| && records[i].name == hostname && records[i].rtype == A && records[i].value == ip
  }

  // Tracked are exactly the addresses reported with a usable name, under the last one.
  ghost predicate Follows(state: map<string, Tracked>, sanitize: string -> string, leases: seq<Lease>)
  {
    forall ip, hostname ::
      ip in state && state[ip].hostname == hostname <==> ReportedAs(sanitize, leases, ip, hostname)
  }

  ghost predicate Served(state: map<string, Tracked>, records: seq<Record>)
  {
    forall ip :: ip in state ==> HoldsAddress(records, state[ip].hostname, ip)
  }

  lemma AgreedIsReported(sanitize: string -> string, leases: seq<Lease>, state: map<string, Tracked>, records: seq<Record>)
    requires Agrees(state, LeaseMap(sanitize, leases)) && Inv(state, records)
    ensures Follows(state, sanitize, leases) && Served(state, records)
  {
    hide LeaseMap, ReportedAs;
    forall ip, hostname
      ensures ip in state && state[ip].hostname == hostname <==> ReportedAs(sanitize, leases, ip, hostname)
    {
      LeaseMapExactly(sanitize, leases, ip);
    }
    forall ip | ip in state
      ensures HoldsAddress(records, state[ip].hostname, ip)
    {
      assert Held(records, ip, state[ip]);
      var i :| 0 <= i < |records| && IsRecordOf(records[i], ip, state[ip]);
    }
  }

  // A lease and its record go.
  lemma Drop(state: map<string, Tracked>, records: seq<Record>, ip: string)
    requires Inv(state, records) && ip in state
    ensures var left := Filter(records, OtherId(state[ip].aID));
            0 < state[ip].aID && Inv(state - {ip}, left) && Foreign(state - {ip}, left) == Foreign(state, records)
  {
    assert Held(records, ip, state[ip]);
    var id, rest := state[ip].aID, state - {ip};
    var left := Filter(records, OtherId(id));
    FilterKeepsIdsDistinct(records, OtherId(id));
    forall k | k in rest
      ensures Held(left, k, rest[k])
    {
      TrackedIdsDiffer(state, records, k, ip);
      assert Held(records, k, state[k]);
      var i :| 0 <= i < |records| && IsRecordOf(records[i], k, state[k]);
      FilterKeeps(records, OtherId(id), records[i]);
      assert records[i] in left;
    }
    forall r: Record
      ensures Untracked(state)(r) <==> OtherId(id)(r) && Untracked(rest)(r)
    {
      if !Untracked(rest)(r) {
        var k :| k in rest && rest[k].aID == r.id;
        assert k in state && state[k].aID == r.id;
      }
      if r.id == id {
        assert ip in state && state[ip].aID == r.id;
      } else if !Untracked(state)(r) {
        var k :| k in state && state[k].aID == r.id;
        assert k in rest && rest[k].aID == r.id;
      }
    }
    FilterTwice(records, OtherId(id), Untracked(rest), Untracked(state));
  }

  // A lease comes, with a record under an unused id.
  lemma Come(state: map<string, Tracked>, records: seq<Record>, ip: string, t: Tracked, rec: Record)
    requires Inv(state, records) && ip !in state && IsRecordOf(rec, ip, t) && rec.id == MaxId(records) + 1
    ensures Inv(state[ip := t], records + [rec]) && Foreign(state[ip := t], records + [rec]) == Foreign(state, records)
  {
    var more, all := state[ip := t], records + [rec];
    forall k | k in more
      ensures Held(all, k, more[k])
    {
      if k == ip {
        assert IsRecordOf(all[|records|], ip, t);
      } else {
        assert Held(records, k, state[k]);
        var i :| 0 <= i < |records| && IsRecordOf(records[i], k, state[k]);
        assert IsRecordOf(all[i], k, state[k]);
      }
    }
    assert all[..|records|] == records;
    assert more[ip].aID == rec.id;
    forall r | r in records
      ensures Untracked(state)(r) <==> Untracked(more)(r)
    {
      assert r.id != rec.id;
      if !Untracked(state)(r) {
        var k :| k in state && state[k].aID == r.id;
        assert k in more && more[k].aID == r.id;
      }
      if !Untracked(more)(r) {
        var k :| k in more && more[k].aID == r.id;
        assert k in state && state[k].aID == r.id;
      }
    }
    FilterSame(records, Untracked(state), Untracked(more));
  }

  lemma MadeFor(t: Tracked, rec: Record, ip: string)
    requires rec.id == t.aID && rec.name == t.hostname && rec.rtype == A && rec.value == ip
    ensures IsRecordOf(rec, ip, t)
  {
  }

  // The two maps differ at most at one address.
  ghost predicate SameElse(state: map<string, Tracked>, state': map<string, Tracked>, ip: string)
  {
    forall k :: k != ip ==> (k in state <==> k in state') && (k in state ==> state[k] == state'[k])
  }

  // ---------- the manager ----------

  datatype Outcome = ParseFailed | ZoneFailed | Synced(changed: bool)

  // What is given from outside: the naming rules of package dns and the default SOA of a day.
  datatype Config = Config(zone: string, reverseZone: string, ttl: int, autoCreate: bool, sanitize: string -> string,
                           reverseOf: string -> Option<string>, ptrName: string -> string, defaultSoa: string -> SoaRecord)

  function KeyFile(key: string): Option<string>
  {
    Filename(SplitZoneKey(key).0, SplitZoneKey(key).1)
  }

  // The reverse zones are other zones than the forward zone.
  ghost predicate ZonesApart(cfg: Config)
  {
    && (cfg.reverseZone != "" ==> KeyFile(cfg.reverseZone) != KeyFile(cfg.zone))
    && (forall ip :: cfg.reverseOf(ip).Some? ==> KeyFile(cfg.reverseOf(ip).value) != KeyFile(cfg.zone))
  }

  // No file is changed; some may be new.
  ghost predicate Extends(files: map<string, Zone>, files': map<string, Zone>)
  {
    forall k :: k in files ==> k in files' && files'[k] == files[k]
  }

  function Records(files: map<string, Zone>, key: string): Option<seq<Record>>
  {
    var z := LoadKey(files, key);
    if z.Ok? then Some(z.value.records) else None
  }

  lemma LoadedFile(files: map<string, Zone>, key: string)
    requires FilesOk(files) && LoadKey(files, key).Ok?
    ensures var z := LoadKey(files, key).value; Filename(z.domain, z.view).Some? && Filename(z.domain, z.view) == KeyFile(key)
  {
  }

  lemma ExtendsLoads(files: map<string, Zone>, files': map<string, Zone>, key: string)
    requires Extends(files, files') && LoadKey(files, key).Ok?
    ensures LoadKey(files', key) == LoadKey(files, key)
  {
  }

  lemma OtherFileLoads(files: map<string, Zone>, f: string, z: Zone, key: string)
    requires KeyFile(key) != Some(f)
    ensures LoadKey(files[f := z], key) == LoadKey(files, key)
  {
  }

  class SyncManager {
    const store: FileStore
    const cfg: Config
    var state: map<string, Tracked>

    constructor (store: FileStore, cfg: Config, saved: map<string, Tracked>)
      ensures this.store == store && this.cfg == cfg && state == saved
    {
      this.store, this.cfg, state := store, cfg, saved;
    }

    ghost function Forward(): Option<seq<Record>>
      reads store
    {
      Records(store.files, cfg.zone)
    }

    method EnsureZone(domain: string) returns (ok: bool)
      requires store.Valid()
      modifies store
      ensures store.Valid() && Extends(old(store.files), store.files)
      ensures ok <==> LoadKey(store.files, domain).Ok?
      ensures LoadKey(old(store.files), domain).Ok? || !cfg.autoCreate ==> store.files == old(store.files)
      ensures ok && LoadKey(old(store.files), domain).Err? ==> Records(store.files, domain) == Some([])
    {
      hide SplitZoneKey, Norm;
      var loaded := store.LoadZoneFile(domain);
      if loaded.Ok? {
        return true;
      }
      if !cfg.autoCreate {
        return false;
      }
      var zone := Zone(domain, "", cfg.ttl, 0, [], Some(cfg.defaultSoa(domain)));
      NewZoneLoads(store.files, zone);
      var e := store.PutZone(zone);
      return e.None?;
    }

    // The pointer record goes to the reverse zone of the lease itself.
    method CreatePtr(lease: Lease) returns (ptrID: int)
      requires store.Valid() && ZonesApart(cfg) && Forward().Some?
      modifies store
      ensures store.Valid() && Forward() == old(Forward())
    {
      hide LoadKey, KeyFile, Filename;
      var ptrZone := cfg.reverseOf(lease.ip);
      if ptrZone.None? {
        return 0;
      }
      ghost var files0 := store.files;
      var ok := EnsureZone(ptrZone.value);
      ExtendsLoads(files0, store.files, cfg.zone);
      if !ok {
        return 0;
      }
      var reverse := store.LoadZoneFile(ptrZone.value);
      LoadedFile(store.files, ptrZone.value);
      var rec := Record(0, cfg.ptrName(lease.ip), PTR, cfg.ttl, lease.hostname + "." + cfg.zone, "");
      ptrID := NextRecordID(reverse.value.records);
      ghost var z := reverse.value;
      ghost var z' := WithRecords(z, Put(z.records, rec), store.today(store.ticks));
      OtherFileLoads(store.files, FileOf(z), z', cfg.zone);
      var _ := store.PutRecord(ptrZone.value, rec);
    }

    method CreateRecords(lease: Lease) returns (t: Tracked)
      requires store.Valid() && ZonesApart(cfg) && Forward().Some?
      modifies store
      ensures store.Valid()
      ensures var id := MaxId(old(Forward()).value) + 1;
              && Forward() == Some(old(Forward()).value + [Record(id, lease.hostname, A, cfg.ttl, lease.ip, "")])
              && t.hostname == lease.hostname && t.ip == lease.ip && t.aID == id
    {
      hide LoadKey, KeyFile, Filename, MaxId;
      ghost var records := Forward().value;
      var rec := Record(0, lease.hostname, A, cfg.ttl, lease.ip, "");
      var loaded := store.LoadZoneFile(cfg.zone);
      var id := NextRecordID(loaded.value.records);
      PutNew(records, rec);
      PutInZone(store.files, cfg.zone, rec, store.today(store.ticks));
      var _ := store.PutRecord(cfg.zone, rec);
      var ptrID := CreatePtr(lease);
      return Tracked(lease.hostname, lease.ip, lease.mac, id, ptrID);
    }

    // The pointer record is looked for in the reverse zone of this pass, which need not be the
    // one it was put into.
    method DeleteTrackedRecords(t: Tracked, reverseZone: string)
      requires store.Valid() && Forward().Some? && (reverseZone != "" ==> KeyFile(reverseZone) != KeyFile(cfg.zone))
      modifies store
      ensures store.Valid()
      ensures Forward() == Some(if 0 < t.aID then Filter(old(Forward()).value, OtherId(t.aID)) else old(Forward()).value)
    {
      hide KeyFile, Filename, Filter, IndexOfId;
      if 0 < t.aID {
        DeleteInZone(store.files, cfg.zone, t.aID, store.today(store.ticks));
        var _ := store.DeleteRecord(cfg.zone, t.aID);
      }
      if 0 < t.ptrID && reverseZone != "" {
        DeleteElsewhere(t.ptrID, reverseZone);
      }
    }

    method DeleteElsewhere(id: int, reverseZone: string)
      requires store.Valid() && KeyFile(reverseZone) != KeyFile(cfg.zone)
      modifies store
      ensures store.Valid() && Forward() == old(Forward())
    {
      hide KeyFile, Filename, Filter, IndexOfId, LoadKey;
      if LoadKey(store.files, reverseZone).Ok? {
        LoadedFile(store.files, reverseZone);
        ghost var z := LoadKey(store.files, reverseZone).value;
        OtherFileLoads(store.files, FileOf(z), WithRecords(z, Filter(z.records, OtherId(id)), store.today(store.ticks)), cfg.zone);
      }
      var _ := store.DeleteRecord(reverseZone, id);
    }

    // Leases that are gone take their records with them.
    method RemoveGone(leases: map<string, Lease>, reverseZone: string) returns (changed: bool)
      requires store.Valid() && Forward().Some? && Inv(state, Forward().value)
      requires reverseZone != "" ==> KeyFile(reverseZone) != KeyFile(cfg.zone)
      modifies `state, store
      ensures store.Valid() && Forward().Some? && Inv(state, Forward().value)
      ensures Foreign(state, Forward().value) == old(Foreign(state, Forward().value))
      ensures state == map ip | ip in old(state) && ip in leases :: old(state)[ip]
      ensures !changed ==> state == old(state) && store.files == old(store.files)
      ensures old(state).Keys <= leases.Keys ==> !changed
    {
      hide Inv, Foreign, Filter, KeyFile, Records;
      changed := false;
      var todo := state.Keys;
      while todo != {}
        invariant store.Valid() && Forward().Some? && Inv(state, Forward().value)
        invariant Foreign(state, Forward().value) == old(Foreign(state, Forward().value))
        invariant todo <= state.Keys
        invariant state == map ip | ip in old(state) && (ip in todo || ip in leases) :: old(state)[ip]
        invariant !changed ==> state == old(state) && store.files == old(store.files)
        invariant old(state).Keys <= leases.Keys ==> !changed
      {
        var ip :| ip in todo;
        todo := todo - {ip};
        if ip !in leases {
          RemoveOne(ip, reverseZone);
          changed := true;
        }
      }
    }

    method RemoveOne(ip: string, reverseZone: string)
      requires store.Valid() && Forward().Some? && Inv(state, Forward().value) && ip in state
      requires reverseZone != "" ==> KeyFile(reverseZone) != KeyFile(cfg.zone)
      modifies `state, store
      ensures store.Valid() && Forward().Some? && Inv(state, Forward().value)
      ensures Foreign(state, Forward().value) == old(Foreign(state, Forward().value))
      ensures state == old(state) - {ip}
    {
      hide Foreign, Filter, KeyFile, Records;
      Drop(state, Forward().value, ip);
      DeleteTrackedRecords(state[ip], reverseZone);
      state := state - {ip};
    }

    // Brings one lease up to date.
    method Renew(ip: string, lease: Lease, reverseZone: string) returns (changed: bool)
      requires store.Valid() && ZonesApart(cfg) && Forward().Some? && Inv(state, Forward().value) && lease.ip == ip
      requires reverseZone != "" ==> KeyFile(reverseZone) != KeyFile(cfg.zone)
      modifies `state, store
      ensures store.Valid() && Forward().Some? && Inv(state, Forward().value)
      ensures Foreign(state, Forward().value) == old(Foreign(state, Forward().value))
      ensures ip in state && state[ip].hostname == lease.hostname && SameElse(old(state), state, ip)
      ensures changed <==> !(ip in old(state) && old(state)[ip].hostname == lease.hostname)
      ensures !changed ==> state == old(state) && store.files == old(store.files)
    {
      hide Inv, Foreign, Filter, KeyFile, Records, ZonesApart, IsRecordOf;
      var known := ip in state;
      if known && state[ip].hostname == lease.hostname {
        return false;
      }
      ghost var others := state - {ip};
      assert ip !in state ==> others == state;
      if known {
        Drop(state, Forward().value, ip);
        DeleteTrackedRecords(state[ip], reverseZone);
      }
      Track(ip, lease, others);
      return true;
    }

    // Creates the records of a lease and tracks it, in place of what was tracked before.
    method Track(ip: string, lease: Lease, ghost others: map<string, Tracked>)
      requires store.Valid() && ZonesApart(cfg) && Forward().Some? && lease.ip == ip
      requires Inv(others, Forward().value) && others == state - {ip}
      modifies `state, store
      ensures store.Valid() && Forward().Some? && Inv(state, Forward().value)
      ensures Foreign(state, Forward().value) == Foreign(others, old(Forward()).value)
      ensures ip in state && state[ip].hostname == lease.hostname && SameElse(old(state), state, ip)
    {
      hide Inv, Foreign, Filter, KeyFile, Records, ZonesApart, IsRecordOf, MaxId, FilesOk;
      ghost var records := Forward().value;
      var t := CreateRecords(lease);
      ghost var rec := Record(t.aID, lease.hostname, A, cfg.ttl, lease.ip, "");
      MadeFor(t, rec, ip);
      Come(others, records, ip, t, rec);
      state := state[ip := t];
      assert state == others[ip := t];
    }

    method AddNew(leases: map<string, Lease>, reverseZone: string) returns (changed: bool)
      requires store.Valid() && ZonesApart(cfg) && Forward().Some? && Inv(state, Forward().value)
      requires ByAddress(leases) && state.Keys <= leases.Keys
      requires reverseZone != "" ==> KeyFile(reverseZone) != KeyFile(cfg.zone)
      modifies `state, store
      ensures store.Valid() && Forward().Some? && Inv(state, Forward().value)
      ensures Foreign(state, Forward().value) == old(Foreign(state, Forward().value))
      ensures Agrees(state, leases)
      ensures !changed ==> state == old(state) && store.files == old(store.files)
      ensures old(Agrees(state, leases)) ==> !changed
    {
      hide Inv, Foreign, Filter, KeyFile, Records, ZonesApart;
      changed := false;
      var todo := leases.Keys;
      while todo != {}
        invariant store.Valid() && Forward().Some? && Inv(state, Forward().value)
        invariant Foreign(state, Forward().value) == old(Foreign(state, Forward().value))
        invariant todo <= leases.Keys && state.Keys <= leases.Keys
        invariant forall ip :: ip in leases && ip !in todo ==> ip in state && state[ip].hostname == leases[ip].hostname
        invariant !changed ==> state == old(state) && store.files == old(store.files)
        invariant old(Agrees(state, leases)) ==> !changed
      {
        var ip :| ip in todo;
        todo := todo - {ip};
        var renewed := Renew(ip, leases[ip], reverseZone);
        changed := changed || renewed;
      }
    }

    method EnsureSyncZones(leases: map<string, Lease>) returns (ok: bool, reverseZone: string)
      requires store.Valid() && ZonesApart(cfg)
      modifies store
      ensures store.Valid() && Extends(old(store.files), store.files)
      ensures ok ==> Forward().Some?
      ensures old(Forward()).Some? ==> Forward() == old(Forward())
      ensures old(Forward()).None? && Forward().Some? ==> Forward().value == []
      ensures ok && reverseZone != "" ==> KeyFile(reverseZone) != KeyFile(cfg.zone)
    {
      hide LoadKey, KeyFile, Filename;
      ghost var files0 := store.files;
      ok := EnsureZone(cfg.zone);
      if LoadKey(files0, cfg.zone).Ok? {
        ExtendsLoads(files0, store.files, cfg.zone);
      }
      if !ok {
        return false, "";
      }
      reverseZone := cfg.reverseZone;
      if reverseZone == "" && leases != map[] {
        var ip :| ip in leases;
        var derived := cfg.reverseOf(ip);
        reverseZone := if derived.Some? then derived.value else "";
      }
      if reverseZone != "" {
        ghost var files1 := store.files;
        ok := EnsureZone(reverseZone);
        ExtendsLoads(files1, store.files, cfg.zone);
      }
    }

    // One pass. After it the tracked leases are those reported with a usable name, each holding
    // its own record of that name and address in the forward zone, and all other records there
    // are as they were. With nothing new reported, neither the tracked leases nor any zone
    // changes; a reverse zone may be made.
    method SyncOnce(parsed: Option<seq<Lease>>) returns (outcome: Outcome)
      requires store.Valid() && ZonesApart(cfg)
      requires if Forward().Some? then Inv(state, Forward().value) else state == map[]
      modifies `state, store
      ensures store.Valid() && (outcome == ParseFailed <==> parsed.None?)
      ensures outcome == ParseFailed ==> state == old(state) && store.files == old(store.files)
      ensures outcome == ZoneFailed ==> state == old(state) && Extends(old(store.files), store.files)
      ensures old(Forward()).Some? ==> Forward().Some?
      ensures if Forward().Some? then Inv(state, Forward().value) else state == map[]
      ensures outcome.Synced? ==>
                && Forward().Some? && Agrees(state, LeaseMap(cfg.sanitize, parsed.value))
                && Foreign(state, Forward().value) == (if old(Forward()).Some? then old(Foreign(state, Forward().value)) else [])
      ensures outcome.Synced? ==> Follows(state, cfg.sanitize, parsed.value) && Served(state, Forward().value)
      ensures outcome.Synced? && Agrees(old(state), LeaseMap(cfg.sanitize, parsed.value)) && old(Forward()).Some? ==>
                && outcome == Synced(false) && state == old(state)
                && Forward() == old(Forward()) && Extends(old(store.files), store.files)
    {
      hide LeaseMap, ByAddress, KeyFile, Records, ZonesApart, Follows, Served;
      if parsed.None? {
        return ParseFailed;
      }
      var leases := BuildLeaseMap(cfg.sanitize, parsed.value);
      LeaseMapByAddress(cfg.sanitize, parsed.value);
      var ok, reverseZone := EnsureSyncZones(leases);
      if !ok {
        return ZoneFailed;
      }
      var removed := RemoveGone(leases, reverseZone);
      var added := AddNew(leases, reverseZone);
      AgreedIsReported(cfg.sanitize, parsed.value, state, Forward().value);
      return Synced(removed || added);
    }
  }

  lemma NewZoneLoads(files: map<string, Zone>, zone: Zone)
    requires FilesOk(files) && zone.view == "" && LoadKey(files, zone.domain).Err?
    ensures Filename(zone.domain, "").Some? ==>
              var f := Filename(zone.domain, "").value; f !in files && LoadKey(files[f := zone], zone.domain) == Ok(zone)
  {
    if Filename(zone.domain, "").Some? {
      NoAt(zone.domain);
      SplitPlain(zone.domain);
    }
  }

  lemma PutInZone(files: map<string, Zone>, key: string, rec: Record, today: u32)
    requires FilesOk(files) && LoadKey(files, key).Ok?
    ensures var z := LoadKey(files, key).value;
            Filename(z.domain, z.view).Some? &&
            Records(files[FileOf(z) := WithRecords(z, Put(z.records, rec), today)], key) == Some(Put(z.records, rec))
  {
    var z := LoadKey(files, key).value;
    LoadAgain(files, key, z, WithRecords(z, Put(z.records, rec), today));
  }

  lemma DeleteInZone(files: map<string, Zone>, key: string, id: int, today: u32)
    requires FilesOk(files) && LoadKey(files, key).Ok?
    ensures var z := LoadKey(files, key).value;
            Filename(z.domain, z.view).Some? &&
            Records(files[FileOf(z) := WithRecords(z, Filter(z.records, OtherId(id)), today)], key)
              == Some(Filter(z.records, OtherId(id)))
    ensures var z := LoadKey(files, key).value;
            IndexOfId(z.records, id) == |z.records| ==> Filter(z.records, OtherId(id)) == z.records
  {
    var z := LoadKey(files, key).value;
    LoadAgain(files, key, z, WithRecords(z, Filter(z.records, OtherId(id)), today));
    if IndexOfId(z.records, id) == |z.records| {
      FilterAll(z.records, OtherId(id));
    }
  }
}
