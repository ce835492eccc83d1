/** RRset patches of the PowerDNS-compatible API: a draft of the zone changed in place, entry
    by entry, and stored only as a whole. */
module RrsetPatch {
  import opened Common
  import opened DnsMessage
  import opened Filters
  import opened Names
  import opened ZoneData
  import opened RecordStore

  const MIN_RECORD_TTL: int := 300
  const MAX_RRSETS: nat := 100
  const MAX_RECORDS_PER_RRSET: nat := 100

  // Type and change type are given as they read in upper case.
  datatype ChangeType = Replace | Delete | BadChange
  datatype Entry = Entry(content: string, disabled: bool)
  datatype RRSet = RRSet(name: string, rtype: RType, changeType: ChangeType, ttl: int, records: seq<Entry>)

  datatype Rdata = Rdata(value: string, extra: string)

  // Reading presentation format and validating names and zones are not part of this model.
  datatype Syntax = Syntax(parse: (string, string, RType, string) -> Option<Rdata>, // owner, zone, type, content
                           parseSoa: string -> Option<SoaRecord>,
                           domainOk: string -> bool,
                           zoneOk: Zone -> bool)

  datatype PatchError = NotInZone | EmptyName | UnsupportedType | InvalidChangeType | SoaDeleted | SoaBelowApex
                      | BadContent | BadSoaContent | SoaMissing | ZoneInvalid

  predicate Representable(t: RType)
  {
    || t == A || t == AAAA || t == CNAME || t == MX || t == TXT || t == NS
    || t == SRV || t == PTR || t == CAA || t == DNAME || t == SOA
  }

  // ---------- what an entry asks for ----------

  function RelativeRecordName(name: string, domain: string): Result<string, PatchError>
  {
    var fqdn, zone := Norm(name), Lower(domain);
    if fqdn == zone then Ok("@")
    else if !HasSuffix(fqdn, "." + zone) then Err(NotInZone)
    else if TrimSuffix(fqdn, "." + zone) == "" then Err(EmptyName)
    else Ok(TrimSuffix(fqdn, "." + zone))
  }

  function EffectiveTtl(ttl: int, zoneTtl: int): int
  {
    var t := if ttl == 0 then zoneTtl else ttl;
    if t <= 0 then 3600 else if t < MIN_RECORD_TTL then MIN_RECORD_TTL else t
  }

  function RelName(rs: RRSet, domain: string): string
  {
    var r := RelativeRecordName(rs.name, domain);
    if r.Ok? then r.value else ""
  }

  // The record an entry stands for, not numbered yet.
  function RecordOf(syntax: Syntax, domain: string, zoneTtl: int, rs: RRSet, e: Entry): Option<Record>
  {
    var rdata := syntax.parse(rs.name, domain, rs.rtype, e.content);
    if rdata.None? then None
    else Some(Record(0, RelName(rs, domain), rs.rtype, EffectiveTtl(rs.ttl, zoneTtl), rdata.value.value, rdata.value.extra))
  }

  // The records of all entries that are not disabled, in order; None if one does not parse.
  function RecordsOf(syntax: Syntax, domain: string, zoneTtl: int, rs: RRSet, es: seq<Entry>): Option<seq<Record>>
  {
    if es == [] then Some([])
    else
      var before := RecordsOf(syntax, domain, zoneTtl, rs, es[..|es| - 1]);
      var last := es[|es| - 1];
      if before.None? || last.disabled then before
      else
        var rec := RecordOf(syntax, domain, zoneTtl, rs, last);
        if rec.None? then None else Some(before.value + [rec.value])
  }

  // Why an entry fails, if it does. The zone's records have no say in it.
  function Failure(syntax: Syntax, domain: string, zoneTtl: int, rs: RRSet): Option<PatchError>
  {
    var name := RelativeRecordName(rs.name, domain);
    if name.Err? then Some(name.error)
    else if !Representable(rs.rtype) then Some(UnsupportedType)
    else
      match rs.changeType
      case BadChange => Some(InvalidChangeType)
      case Delete => if rs.rtype == SOA then Some(SoaDeleted) else None
      case Replace =>
        if rs.rtype != SOA then
          if RecordsOf(syntax, domain, zoneTtl, rs, rs.records).None? then Some(BadContent) else None
        else if rs.records == [] then Some(SoaDeleted)
        else if name.value != "@" then Some(SoaBelowApex)
        else if syntax.parseSoa(rs.records[0].content).None? then Some(BadSoaContent)
        else None
  }

  function FirstFailure(syntax: Syntax, domain: string, zoneTtl: int, rrsets: seq<RRSet>): Option<PatchError>
  {
    if rrsets == [] then None
    else
      var before := FirstFailure(syntax, domain, zoneTtl, rrsets[..|rrsets| - 1]);
      if before.Some? then before else Failure(syntax, domain, zoneTtl, rrsets[|rrsets| - 1])
  }

  // What the entry wants to see under its name and type.
  function Wanted(syntax: Syntax, domain: string, zoneTtl: int, rs: RRSet): seq<Record>
  {
    var records := RecordsOf(syntax, domain, zoneTtl, rs, rs.records);
    if rs.changeType == Replace && records.Some? then records.value else []
  }

  // ---------- numbered records ----------

  // Each appended record gets the next free id.
  function AppendAll(rs: seq<Record>, added: seq<Record>): seq<Record>
  {
    if added == [] then rs
    else
      var before := AppendAll(rs, added[..|added| - 1]);
      before + [added[|added| - 1].(id := MaxId(before) + 1)]
  }

  function Elsewhere(name: string, rtype: RType): Record -> bool
  {
    (r: Record) => !(r.name == name && r.rtype == rtype)
  }

  // The zone's records after one entry that did not fail.
  function Changed(syntax: Syntax, domain: string, zoneTtl: int, records: seq<Record>, rs: RRSet): seq<Record>
  {
    if rs.rtype == SOA then records
    else AppendAll(Filter(records, Elsewhere(RelName(rs, domain), rs.rtype)), Wanted(syntax, domain, zoneTtl, rs))
  }

  function ChangedSoa(syntax: Syntax, soa: Option<SoaRecord>, rs: RRSet): Option<SoaRecord>
  {
    if rs.rtype == SOA && rs.records != [] then syntax.parseSoa(rs.records[0].content) else soa
  }

  function Patched(syntax: Syntax, z: Zone, rrsets: seq<RRSet>): Zone
  {
    if rrsets == [] then z
    else
      var before := Patched(syntax, z, rrsets[..|rrsets| - 1]);
      var rs := rrsets[|rrsets| - 1];
      before.(records := Changed(syntax, z.domain, z.ttl, before.records, rs), soa := ChangedSoa(syntax, before.soa, rs))
  }

  // ---------- the draft ----------

  class Draft {
    const zone: Zone // as loaded
    var records: seq<Record>
    var soa: Option<SoaRecord>

    constructor (zone: Zone)
      ensures this.zone == zone && records == zone.records && soa == zone.soa
    {
      this.zone, records, soa := zone, zone.records, zone.soa;
    }

    method RemoveRecords(name: string, rtype: RType)
      modifies `records
      ensures records == Filter(old(records), Elsewhere(name, rtype))
    {
      var kept: seq<Record> := [];
      for i := 0 to |records|
        invariant records == old(records) && kept == Filter(records[..i], Elsewhere(name, rtype))
      {
        FilterStep(records, i, Elsewhere(name, rtype));
        if records[i].name == name && records[i].rtype == rtype {
          continue;
        }
        kept := kept + [records[i]];
      }
      assert records[..|records|] == records;
      records := kept;
    }

    method ApplyRRSetDelete(rs: RRSet, relName: string) returns (e: Option<PatchError>)
      modifies `records
      ensures rs.rtype == SOA ==> e == Some(SoaDeleted)
      ensures rs.rtype != SOA ==> e == None && records == Filter(old(records), Elsewhere(relName, rs.rtype))
    {
      if rs.rtype == SOA {
        return Some(SoaDeleted);
      }
      RemoveRecords(relName, rs.rtype);
      return None;
    }

    method ApplySOAReplace(syntax: Syntax, rs: RRSet, relName: string) returns (e: Option<PatchError>)
      requires rs.rtype == SOA && rs.changeType == Replace && RelativeRecordName(rs.name, zone.domain) == Ok(relName)
      modifies `soa
      ensures e == Failure(syntax, zone.domain, zone.ttl, rs)
      ensures e.None? ==> soa == ChangedSoa(syntax, old(soa), rs)
    {
      if |rs.records| == 0 {
        return Some(SoaDeleted);
      }
      if relName != "@" {
        return Some(SoaBelowApex);
      }
      var parsed := syntax.parseSoa(rs.records[0].content);
      if parsed.None? {
        return Some(BadSoaContent);
      }
      soa := parsed;
      return None;
    }

    method ApplyRRSetReplace(syntax: Syntax, rs: RRSet, relName: string) returns (e: Option<PatchError>)
      requires rs.rtype != SOA && RelName(rs, zone.domain) == relName
      modifies `records
      ensures var wanted := RecordsOf(syntax, zone.domain, zone.ttl, rs, rs.records);
              && e == (if wanted.None? then Some(BadContent) else None)
              && (wanted.Some? ==> records == AppendAll(Filter(old(records), Elsewhere(relName, rs.rtype)), wanted.value))
    {
      RemoveRecords(relName, rs.rtype);
      var ttl := rs.ttl;
      if ttl == 0 {
        ttl := zone.ttl;
      }
      if 0 < ttl < MIN_RECORD_TTL {
        ttl := MIN_RECORD_TTL;
      }
      var ok := AppendEntries(syntax, rs, relName, ttl);
      return if ok then None else Some(BadContent);
    }

    method AppendEntries(syntax: Syntax, rs: RRSet, relName: string, ttl: int) returns (ok: bool)
      requires RelName(rs, zone.domain) == relName && (ttl <= 0 || MIN_RECORD_TTL <= ttl)
      requires EffectiveTtl(rs.ttl, zone.ttl) == if ttl <= 0 then 3600 else ttl
      modifies `records
      ensures var wanted := RecordsOf(syntax, zone.domain, zone.ttl, rs, rs.records);
              ok == wanted.Some? && (ok ==> records == AppendAll(old(records), wanted.value))
    {
      hide RelName, EffectiveTtl, AppendAll, RecordOf;
      NothingAppended(records);
      for i := 0 to |rs.records|
        invariant RecordsOf(syntax, zone.domain, zone.ttl, rs, rs.records[..i]).Some?
        invariant records == AppendAll(old(records), RecordsOf(syntax, zone.domain, zone.ttl, rs, rs.records[..i]).value)
      {
        assert rs.records[..i + 1][..i] == rs.records[..i];
        if rs.records[i].disabled {
          continue;
        }
        var rec := ParseRRContent(syntax, rs, relName, rs.records[i].content, ttl);
        if rec.None? {
          StaysBad(syntax, zone.domain, zone.ttl, rs, rs.records, i + 1);
          return false;
        }
        var id := NextRecordID(records);
        OneAppended(old(records), RecordsOf(syntax, zone.domain, zone.ttl, rs, rs.records[..i]).value, rec.value);
        records := records + [rec.value.(id := id)];
      }
      assert rs.records[..|rs.records|] == rs.records;
      return true;
    }

    method ParseRRContent(syntax: Syntax, rs: RRSet, relName: string, content: string,
          ttl: int) returns (rec: Option<Record>)
      requires RelName(rs, zone.domain) == relName && (ttl <= 0 || MIN_RECORD_TTL <= ttl)
      requires EffectiveTtl(rs.ttl, zone.ttl) == if ttl <= 0 then 3600 else ttl
      ensures forall disabled :: rec == RecordOf(syntax, zone.domain, zone.ttl, rs, Entry(content, disabled))
    {
      var effective := ttl;
      if effective <= 0 {
        effective := 3600;
      }
      var rdata := syntax.parse(rs.name, zone.domain, rs.rtype, content);
      if rdata.None? {
        return None;
      }
      return Some(Record(0, relName, rs.rtype, effective, rdata.value.value, rdata.value.extra));
    }

    method ApplyRRSetChange(syntax: Syntax, rs: RRSet) returns (e: Option<PatchError>)
      modifies this
      ensures e == Failure(syntax, zone.domain, zone.ttl, rs)
      ensures e.None? ==> records == Changed(syntax, zone.domain, zone.ttl, old(records), rs)
      ensures e.None? ==> soa == ChangedSoa(syntax, old(soa), rs)
    {
      hide Filter, RecordsOf, RelativeRecordName;
      var relName := RelativeRecordName(rs.name, zone.domain);
      if relName.Err? {
        return Some(relName.error);
      }
      if !Representable(rs.rtype) {
        return Some(UnsupportedType);
      }
      match rs.changeType {
        case Delete =>
          e := ApplyRRSetDelete(rs, relName.value);
        case Replace =>
          if rs.rtype == SOA {
            e := ApplySOAReplace(syntax, rs, relName.value);
          } else {
            e := ApplyRRSetReplace(syntax, rs, relName.value);
          }
        case BadChange =>
          return Some(InvalidChangeType);
      }
    }
  }

  lemma NothingAppended(rs: seq<Record>)
    ensures AppendAll(rs, []) == rs
  {
  }

  lemma OneAppended(rs: seq<Record>, added: seq<Record>, rec: Record)
    ensures AppendAll(rs, added + [rec]) == AppendAll(rs, added) + [rec.(id := MaxId(AppendAll(rs, added)) + 1)]
  {
    assert (added + [rec])[..|added|] == added;
  }

  lemma {:induction false} StaysBad(syntax: Syntax, domain: string, zoneTtl: int, rs: RRSet, es: seq<Entry>, i: nat)
    requires i <= |es| && RecordsOf(syntax, domain, zoneTtl, rs, es[..i]).None?
    ensures RecordsOf(syntax, domain, zoneTtl, rs, es).None?
    decreases |es|
  {
    if i == |es| {
      assert es[..i] == es;
    } else {
      assert es[..|es| - 1][..i] == es[..i];
      StaysBad(syntax, domain, zoneTtl, rs, es[..|es| - 1], i);
    }
  }

  // ---------- the request ----------

  datatype Status = NoContent | Unprocessable | NotFound | InternalError

  predicate WithinLimits(rrsets: seq<RRSet>)
  {
    |rrsets| <= MAX_RRSETS && forall i :: 0 <= i < |rrsets| ==> |rrsets[i].records| <= MAX_RECORDS_PER_RRSET
  }

  // Whether a loaded zone takes the patch.
  predicate Takes(syntax: Syntax, z: Zone, rrsets: seq<RRSet>)
  {
    var patched := Patched(syntax, z, rrsets);
    FirstFailure(syntax, z.domain, z.ttl, rrsets).None? && patched.soa.Some? && syntax.zoneOk(patched)
  }

  function StatusOf(syntax: Syntax, files: map<string, Zone>, zoneID: string, body: Option<seq<RRSet>>): Status
  {
    if Norm(zoneID) == "" || !syntax.domainOk(Norm(zoneID)) || body.None? || !WithinLimits(body.value) then Unprocessable
    else
      match LoadKey(files, Norm(zoneID))
      case Err(e) => if e == ZoneNotFound then NotFound else InternalError
      case Ok(z) => if Takes(syntax, z, body.value) then NoContent else Unprocessable
  }

  class PDNSCompatHandler {
    const store: FileStore
    const syntax: Syntax

    constructor (store: FileStore, syntax: Syntax)
      ensures this.store == store && this.syntax == syntax
    {
      this.store, this.syntax := store, syntax;
    }

    method ValidatePatchLimits(rrsets: seq<RRSet>) returns (ok: bool)
      ensures ok == WithinLimits(rrsets)
    {
      if |rrsets| > MAX_RRSETS {
        return false;
      }
      for i := 0 to |rrsets|
        invariant forall k :: 0 <= k < i ==> |rrsets[k].records| <= MAX_RECORDS_PER_RRSET
      {
        if |rrsets[i].records| > MAX_RECORDS_PER_RRSET {
          return false;
        }
      }
      return true;
    }

    // The change of the loaded zone that UpdateZone runs under its lock.
    method Mutate(z: Zone, rrsets: seq<RRSet>) returns (r: Option<Zone>)
      ensures r == if Takes(syntax, z, rrsets) then Some(Patched(syntax, z, rrsets)) else None
    {
      hide Changed, ChangedSoa, Failure;
      var draft := new Draft(z);
      for i := 0 to |rrsets|
        invariant fresh(draft) && draft.zone == z && FirstFailure(syntax, z.domain, z.ttl, rrsets[..i]).None?
        invariant Patched(syntax, z, rrsets[..i]) == z.(records := draft.records, soa := draft.soa)
      {
        assert rrsets[..i + 1][..i] == rrsets[..i];
        var e := draft.ApplyRRSetChange(syntax, rrsets[i]);
        if e.Some? {
          StaysFailed(syntax, z.domain, z.ttl, rrsets, i + 1);
          return None;
        }
      }
      assert rrsets[..|rrsets|] == rrsets;
      if draft.soa.None? {
        return None;
      }
      var patched := z.(records := draft.records, soa := draft.soa);
      if !syntax.zoneOk(patched) {
        return None;
      }
      return Some(patched);
    }

    // All entries or nothing: only a patch that goes through reaches the stored zone.
    method PatchZone(zoneID: string, body: Option<seq<RRSet>>) returns (status: Status, reload: bool)
      requires store.Valid()
      modifies store
      ensures store.Valid() && store.ticks == old(store.ticks)
      ensures status == StatusOf(syntax, old(store.files), zoneID, body) && (reload <==> status == NoContent)
      ensures store.files == if status != NoContent then old(store.files)
                             else
                               var z := LoadKey(old(store.files), Norm(zoneID)).value;
                               old(store.files)[FileOf(z) := Patched(syntax, z, body.value)]
    {
      hide LoadKey, Filename, FirstFailure;
      var domain := Norm(zoneID);
      if domain == "" || !syntax.domainOk(domain) {
        return Unprocessable, false;
      }
      if body.None? {
        return Unprocessable, false;
      }
      var within := ValidatePatchLimits(body.value);
      if !within {
        return Unprocessable, false;
      }
      var loaded := store.LoadZoneFile(domain);
      if loaded.Err? {
        return if loaded.error == ZoneNotFound then NotFound else InternalError, false;
      }
      var patched := Mutate(loaded.value, body.value);
      if patched.None? {
        return Unprocessable, false;
      }
      PatchKeepsZone(syntax, loaded.value, body.value);
      LoadedHasFile(store.files, domain);
      var _ := store.SaveZoneFile(patched.value);
      return NoContent, true;
    }
  }

  lemma LoadedHasFile(files: map<string, Zone>, key: string)
    requires FilesOk(files) && LoadKey(files, key).Ok?
    ensures var z := LoadKey(files, key).value; Filename(z.domain, z.view).Some?
  {
  }

  lemma {:induction false} PatchKeepsZone(syntax: Syntax, z: Zone, rrsets: seq<RRSet>)
    ensures Patched(syntax, z, rrsets).domain == z.domain && Patched(syntax, z, rrsets).view == z.view
    ensures Patched(syntax, z, rrsets).ttl == z.ttl
  {
    if rrsets != [] {
      PatchKeepsZone(syntax, z, rrsets[..|rrsets| - 1]);
    }
  }

  lemma {:induction false} PatchKeepsRest(syntax: Syntax, z: Zone, rrsets: seq<RRSet>)
    ensures var after := Patched(syntax, z, rrsets); after == z.(records := after.records, soa := after.soa)
  {
    if rrsets != [] {
      PatchKeepsRest(syntax, z, rrsets[..|rrsets| - 1]);
    }
  }

  lemma {:induction false} StaysFailed(syntax: Syntax, domain: string, zoneTtl: int, rrsets: seq<RRSet>, i: nat)
    requires i <= |rrsets| && FirstFailure(syntax, domain, zoneTtl, rrsets[..i]).Some?
    ensures FirstFailure(syntax, domain, zoneTtl, rrsets).Some?
    decreases |rrsets|
  {
    if i == |rrsets| {
      assert rrsets[..i] == rrsets;
    } else {
      assert rrsets[..|rrsets| - 1][..i] == rrsets[..i];
      StaysFailed(syntax, domain, zoneTtl, rrsets[..|rrsets| - 1], i);
    }
  }

  // ---------- what a patch leaves, ids aside ----------

  function Plain(r: Record): Record
  {
    r.(id := 0)
  }

  function PlainAll(rs: seq<Record>): (r: seq<Record>)
    ensures |r| == |rs|
  {
    if rs == [] then [] else PlainAll(rs[..|rs| - 1]) + [Plain(rs[|rs| - 1])]
  }

  predicate Mentions(rs: RRSet, domain: string, r: Record)
  {
    rs.rtype != SOA && r.name == RelName(rs, domain) && r.rtype == rs.rtype
  }

  // No entry names the record's name and type.
  function Unnamed(rrsets: seq<RRSet>, domain: string): Record -> bool
  {
    (r: Record) => forall i :: 0 <= i < |rrsets| ==> !Mentions(rrsets[i], domain, r)
  }

  // What the entries want, each block as long as no later entry names its slot again.
  function Blocks(syntax: Syntax, domain: string, zoneTtl: int, rrsets: seq<RRSet>): seq<Record>
  {
    if rrsets == [] then []
    else
      var before := Blocks(syntax, domain, zoneTtl, rrsets[..|rrsets| - 1]);
      var rs := rrsets[|rrsets| - 1];
      if rs.rtype == SOA then before
      else Filter(before, Elsewhere(RelName(rs, domain), rs.rtype)) + Wanted(syntax, domain, zoneTtl, rs)
  }

  lemma {:induction false} PlainConcat(a: seq<Record>, b: seq<Record>)
    ensures PlainAll(a + b) == PlainAll(a) + PlainAll(b)
  {
    if b == [] {
      assert a + b == a;
    } else {
      assert (a + b)[..|a + b| - 1] == a + b[..|b| - 1];
      PlainConcat(a, b[..|b| - 1]);
    }
  }

  ghost predicate BlindToIds(p: Record -> bool)
  {
    forall r :: p(r) == p(Plain(r))
  }

  lemma {:induction false} PlainFilter(rs: seq<Record>, p: Record -> bool)
    requires BlindToIds(p)
    ensures PlainAll(Filter(rs, p)) == Filter(PlainAll(rs), p)
  {
    if rs != [] {
      var n := |rs| - 1;
      PlainFilter(rs[..n], p);
      PlainConcat(Filter(rs[..n], p), [rs[n]]);
      assert PlainAll(rs)[..n] == PlainAll(rs[..n]);
      assert p(rs[n]) == p(Plain(rs[n]));
    }
  }

  lemma {:induction false} PlainAppendAll(rs: seq<Record>, added: seq<Record>)
    requires forall i :: 0 <= i < |added| ==> added[i].id == 0
    ensures PlainAll(AppendAll(rs, added)) == PlainAll(rs) + added
  {
    if added == [] {
      NothingAppended(rs);
    } else {
      hide PlainAll, AppendAll;
      var n := |added| - 1;
      PlainAppendAll(rs, added[..n]);
      assert added[..n] + [added[n]] == added;
      OneAppended(rs, added[..n], added[n]);
      PlainLast(AppendAll(rs, added[..n]), added[n], MaxId(AppendAll(rs, added[..n])) + 1);
      Regroup(PlainAll(rs), added[..n], [added[n]]);
    }
  }

  lemma PlainLast(rs: seq<Record>, rec: Record, id: int)
    requires rec.id == 0
    ensures PlainAll(rs + [rec.(id := id)]) == PlainAll(rs) + [rec]
  {
    assert (rs + [rec.(id := id)])[..|rs|] == rs;
  }

  lemma {:induction false} WantedPlain(syntax: Syntax, domain: string, zoneTtl: int, rs: RRSet, es: seq<Entry>)
    ensures var w := RecordsOf(syntax, domain, zoneTtl, rs, es);
            w.Some? ==> forall i :: 0 <= i < |w.value| ==>
              w.value[i].id == 0 && w.value[i].name == RelName(rs, domain) && w.value[i].rtype == rs.rtype
  {
    hide RelName;
    if es != [] {
      WantedPlain(syntax, domain, zoneTtl, rs, es[..|es| - 1]);
    }
  }

  lemma WantedSlot(syntax: Syntax, domain: string, zoneTtl: int, rs: RRSet)
    ensures forall i :: 0 <= i < |Wanted(syntax, domain, zoneTtl, rs)| ==>
              var r := Wanted(syntax, domain, zoneTtl, rs)[i]; r.id == 0 && r.name == RelName(rs, domain) && r.rtype == rs.rtype
  {
    hide RelName, RecordsOf;
    WantedPlain(syntax, domain, zoneTtl, rs, rs.records);
  }

  // The stored records, ids aside: those no entry names, as they were, and then what the
  // entries want.
  lemma {:induction false} PatchedRecords(syntax: Syntax, z: Zone, rrsets: seq<RRSet>)
    ensures PlainAll(Patched(syntax, z, rrsets).records)
         == Filter(PlainAll(z.records), Unnamed(rrsets, z.domain)) + Blocks(syntax, z.domain, z.ttl, rrsets)
  {
    if rrsets == [] {
      FilterAll(PlainAll(z.records), Unnamed(rrsets, z.domain));
    } else {
      var n := |rrsets| - 1;
      PatchedRecords(syntax, z, rrsets[..n]);
      PatchKeepsZone(syntax, z, rrsets[..n]);
      OneMore(syntax, z, Patched(syntax, z, rrsets[..n]).records, rrsets);
    }
  }

  lemma OneMore(syntax: Syntax, z: Zone, records: seq<Record>, rrsets: seq<RRSet>)
    requires rrsets != []
    requires var before := rrsets[..|rrsets| - 1];
             PlainAll(records) == Filter(PlainAll(z.records), Unnamed(before, z.domain)) + Blocks(syntax, z.domain, z.ttl, before)
    ensures PlainAll(Changed(syntax, z.domain, z.ttl, records, rrsets[|rrsets| - 1]))
         == Filter(PlainAll(z.records), Unnamed(rrsets, z.domain)) + Blocks(syntax, z.domain, z.ttl, rrsets)
  {
    var n := |rrsets| - 1;
    var rs, before := rrsets[n], rrsets[..n];
    var others := PlainAll(z.records);
    var blocks := Blocks(syntax, z.domain, z.ttl, before);
    UnnamedStep(rrsets, z.domain);
    if rs.rtype == SOA {
      FilterSame(others, Unnamed(before, z.domain), Unnamed(rrsets, z.domain));
    } else {
      var p := Elsewhere(RelName(rs, z.domain), rs.rtype);
      var wanted := Wanted(syntax, z.domain, z.ttl, rs);
      WantedPlain(syntax, z.domain, z.ttl, rs, rs.records);
      PlainAppendAll(Filter(records, p), wanted);
      PlainFilter(records, p);
      FilterConcat(Filter(others, Unnamed(before, z.domain)), blocks, p);
      FilterTwice(others, Unnamed(before, z.domain), p, Unnamed(rrsets, z.domain));
      Regroup(Filter(others, Unnamed(rrsets, z.domain)), Filter(blocks, p), wanted);
    }
  }

  lemma Regroup(a: seq<Record>, b: seq<Record>, c: seq<Record>)
    ensures (a + b) + c == a + (b + c)
  {
  }

  lemma UnnamedStep(rrsets: seq<RRSet>, domain: string)
    requires rrsets != []
    ensures var before, rs := rrsets[..|rrsets| - 1], rrsets[|rrsets| - 1];
            forall r :: Unnamed(rrsets, domain)(r) <==> Unnamed(before, domain)(r) && !Mentions(rs, domain, r)
  {
    hide Mentions;
    var n := |rrsets| - 1;
    assert forall i :: 0 <= i < n ==> rrsets[..n][i] == rrsets[i];
  }

  // Blocks hold named records only, and the block of an entry no later one names again is
  // whole.
  lemma {:induction false} BlocksAreNamed(syntax: Syntax, domain: string, zoneTtl: int, rrsets: seq<RRSet>)
    ensures Filter(Blocks(syntax, domain, zoneTtl, rrsets), Unnamed(rrsets, domain)) == []
  {
    hide RelName, RecordsOf;
    if rrsets != [] {
      var n := |rrsets| - 1;
      var rs, before := rrsets[n], rrsets[..n];
      var blocks := Blocks(syntax, domain, zoneTtl, before);
      BlocksAreNamed(syntax, domain, zoneTtl, before);
      UnnamedStep(rrsets, domain);
      var unnamed := Unnamed(rrsets, domain);
      if rs.rtype == SOA {
        FilterSame(blocks, Unnamed(before, domain), unnamed);
      } else {
        var p := Elsewhere(RelName(rs, domain), rs.rtype);
        WantedPlain(syntax, domain, zoneTtl, rs, rs.records);
        FilterTwice(blocks, Unnamed(before, domain), p, unnamed);
        FilterTwice(blocks, p, Unnamed(before, domain), unnamed);
        FilterConcat(Filter(blocks, p), Wanted(syntax, domain, zoneTtl, rs), unnamed);
        FilterTwice(blocks, p, unnamed, unnamed);
        assert Filter(blocks, unnamed) == [];
        FilterNothing(Wanted(syntax, domain, zoneTtl, rs), unnamed);
      }
    }
  }

  function At(name: string, rtype: RType): Record -> bool
  {
    (r: Record) => r.name == name && r.rtype == rtype
  }

  // Entry j is the last to name its slot.
  predicate LastWord(rrsets: seq<RRSet>, domain: string, j: nat)
    requires j < |rrsets|
  {
    rrsets[j].rtype != SOA &&
    forall i :: j < i < |rrsets| ==>
      !(RelName(rrsets[i], domain) == RelName(rrsets[j], domain) && rrsets[i].rtype == rrsets[j].rtype)
  }

  lemma {:induction false} BlockIsWhole(syntax: Syntax, domain: string, zoneTtl: int, rrsets: seq<RRSet>, j: nat)
    requires j < |rrsets| && LastWord(rrsets, domain, j)
    ensures var rs := rrsets[j];
            Filter(Blocks(syntax, domain, zoneTtl, rrsets), At(RelName(rs, domain), rs.rtype))
            == Wanted(syntax, domain, zoneTtl, rs)
  {
    hide RelName, RecordsOf;
    var n := |rrsets| - 1;
    var last, before := rrsets[n], rrsets[..n];
    var blocks := Blocks(syntax, domain, zoneTtl, before);
    WantedSlot(syntax, domain, zoneTtl, last);
    if j == n {
      LastBlock(blocks, Wanted(syntax, domain, zoneTtl, last), RelName(last, domain), last.rtype);
    } else {
      assert before[j] == rrsets[j] && LastWord(before, domain, j);
      BlockIsWhole(syntax, domain, zoneTtl, before, j);
      if last.rtype != SOA {
        var rs := rrsets[j];
        var wanted := Wanted(syntax, domain, zoneTtl, last);
        OtherBlock(blocks, wanted, RelName(last, domain), last.rtype, RelName(rs, domain), rs.rtype);
      }
    }
  }

  lemma LastBlock(blocks: seq<Record>, wanted: seq<Record>, name: string, rtype: RType)
    requires forall i :: 0 <= i < |wanted| ==> wanted[i].name == name && wanted[i].rtype == rtype
    ensures Filter(Filter(blocks, Elsewhere(name, rtype)) + wanted, At(name, rtype)) == wanted
  {
    hide Filter;
    var kept, at := Filter(blocks, Elsewhere(name, rtype)), At(name, rtype);
    FilterConcat(kept, wanted, at);
    assert forall i :: 0 <= i < |kept| ==> kept[i] in kept && !at(kept[i]);
    FilterNothing(kept, at);
    FilterAll(wanted, at);
    assert [] + wanted == wanted;
  }

  lemma OtherBlock(blocks: seq<Record>, wanted: seq<Record>, name: string, rtype: RType, name': string, rtype': RType)
    requires forall i :: 0 <= i < |wanted| ==> wanted[i].name == name && wanted[i].rtype == rtype
    requires (name, rtype) != (name', rtype')
    ensures Filter(Filter(blocks, Elsewhere(name, rtype)) + wanted, At(name', rtype')) == Filter(blocks, At(name', rtype'))
  {
    var p, at := Elsewhere(name, rtype), At(name', rtype');
    FilterConcat(Filter(blocks, p), wanted, at);
    FilterTwice(blocks, p, at, at);
    FilterNothing(wanted, at);
    assert Filter(blocks, at) + [] == Filter(blocks, at);
  }

  // The name and type of each entry that has the last word hold exactly the enabled contents
  // of that entry, in order.
  lemma NamedSlotHoldsLastEntry(syntax: Syntax, z: Zone, rrsets: seq<RRSet>, j: nat)
    requires j < |rrsets| && LastWord(rrsets, z.domain, j)
    ensures Filter(PlainAll(Patched(syntax, z, rrsets).records), At(RelName(rrsets[j], z.domain), rrsets[j].rtype))
         == Wanted(syntax, z.domain, z.ttl, rrsets[j])
  {
    hide RelName, Blocks, Wanted;
    var rs := rrsets[j];
    var at := At(RelName(rs, z.domain), rs.rtype);
    var others := Filter(PlainAll(z.records), Unnamed(rrsets, z.domain));
    PatchedRecords(syntax, z, rrsets);
    BlockIsWhole(syntax, z.domain, z.ttl, rrsets, j);
    FilterConcat(others, Blocks(syntax, z.domain, z.ttl, rrsets), at);
    forall r | r in others
      ensures !at(r)
    {
      assert !Mentions(rrsets[j], z.domain, r);
    }
    FilterNothing(others, at);
    assert [] + Wanted(syntax, z.domain, z.ttl, rs) == Wanted(syntax, z.domain, z.ttl, rs);
  }

  // Records no entry names stay as they are, ids and order included.
  lemma {:induction false} OtherRecordsStay(syntax: Syntax, z: Zone, rrsets: seq<RRSet>)
    ensures Filter(Patched(syntax, z, rrsets).records, Unnamed(rrsets, z.domain)) == Filter(z.records, Unnamed(rrsets, z.domain))
  {
    hide RelName, RecordsOf;
    if rrsets != [] {
      var n := |rrsets| - 1;
      var rs, before := rrsets[n], rrsets[..n];
      var records := Patched(syntax, z, before).records;
      var unnamed := Unnamed(rrsets, z.domain);
      OtherRecordsStay(syntax, z, before);
      PatchKeepsZone(syntax, z, before);
      UnnamedStep(rrsets, z.domain);
      FilterTwice(records, Unnamed(before, z.domain), unnamed, unnamed);
      FilterTwice(z.records, Unnamed(before, z.domain), unnamed, unnamed);
      if rs.rtype != SOA {
        var kept := Filter(records, Elsewhere(RelName(rs, z.domain), rs.rtype));
        FilterTwice(records, Elsewhere(RelName(rs, z.domain), rs.rtype), unnamed, unnamed);
        WantedPlain(syntax, z.domain, z.ttl, rs, rs.records);
        AppendedAreOut(kept, Wanted(syntax, z.domain, z.ttl, rs), unnamed);
      }
    }
  }

  lemma {:induction false} AppendedAreOut(rs: seq<Record>, added: seq<Record>, p: Record -> bool)
    requires forall i, id :: 0 <= i < |added| ==> !p(added[i].(id := id))
    ensures Filter(AppendAll(rs, added), p) == Filter(rs, p)
  {
    if added != [] {
      AppendedAreOut(rs, added[..|added| - 1], p);
    }
  }

  lemma {:induction false} AppendKeepsIdsDistinct(rs: seq<Record>, added: seq<Record>)
    requires DistinctIds(rs)
    ensures DistinctIds(AppendAll(rs, added))
  {
    if added != [] {
      AppendKeepsIdsDistinct(rs, added[..|added| - 1]);
    }
  }

  lemma {:induction false} PatchKeepsIdsDistinct(syntax: Syntax, z: Zone, rrsets: seq<RRSet>)
    requires DistinctIds(z.records)
    ensures DistinctIds(Patched(syntax, z, rrsets).records)
  {
    hide RelName, Wanted;
    if rrsets != [] {
      var n := |rrsets| - 1;
      var records, rs := Patched(syntax, z, rrsets[..n]).records, rrsets[n];
      PatchKeepsIdsDistinct(syntax, z, rrsets[..n]);
      if rs.rtype != SOA {
        FilterKeepsIdsDistinct(records, Elsewhere(RelName(rs, z.domain), rs.rtype));
        AppendKeepsIdsDistinct(Filter(records, Elsewhere(RelName(rs, z.domain), rs.rtype)), Wanted(syntax, z.domain, z.ttl, rs));
      }
    }
  }

  // Sending the same patch again changes neither a record, ids aside, nor the SOA.
  lemma PatchIsIdempotent(syntax: Syntax, z: Zone, rrsets: seq<RRSet>)
    ensures var once := Patched(syntax, z, rrsets);
            && PlainAll(Patched(syntax, once, rrsets).records) == PlainAll(once.records)
            && Patched(syntax, once, rrsets).soa == once.soa
  {
    hide Blocks;
    var once := Patched(syntax, z, rrsets);
    var unnamed := Unnamed(rrsets, z.domain);
    PatchKeepsZone(syntax, z, rrsets);
    PatchedRecords(syntax, z, rrsets);
    PatchedRecords(syntax, once, rrsets);
    var others, blocks := Filter(PlainAll(z.records), unnamed), Blocks(syntax, z.domain, z.ttl, rrsets);
    FilterConcat(others, blocks, unnamed);
    FilterTwice(PlainAll(z.records), unnamed, unnamed, unnamed);
    BlocksAreNamed(syntax, z.domain, z.ttl, rrsets);
    assert others + [] == others;
    SoaTwice(syntax, z, once, rrsets);
  }

  // The SOA after a patch: that of the last SOA entry, if there is one.
  function LastSoa(syntax: Syntax, rrsets: seq<RRSet>): Option<Option<SoaRecord>>
  {
    if rrsets == [] then None
    else
      var rs := rrsets[|rrsets| - 1];
      if rs.rtype == SOA && rs.records != [] then Some(syntax.parseSoa(rs.records[0].content))
      else LastSoa(syntax, rrsets[..|rrsets| - 1])
  }

  lemma {:induction false} SoaIsLastEntrys(syntax: Syntax, z: Zone, rrsets: seq<RRSet>)
    ensures Patched(syntax, z, rrsets).soa == if LastSoa(syntax, rrsets).Some? then LastSoa(syntax, rrsets).value else z.soa
  {
    if rrsets != [] {
      SoaIsLastEntrys(syntax, z, rrsets[..|rrsets| - 1]);
    }
  }

  lemma SoaTwice(syntax: Syntax, z: Zone, once: Zone, rrsets: seq<RRSet>)
    requires once == Patched(syntax, z, rrsets)
    ensures Patched(syntax, once, rrsets).soa == once.soa
  {
    SoaIsLastEntrys(syntax, z, rrsets);
    SoaIsLastEntrys(syntax, once, rrsets);
  }
}
