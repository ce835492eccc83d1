/** Zones as files (FileStore) and the record operations on them, with the SOA serial. */
module RecordStore {
  import opened Common
  import opened DnsMessage
  import opened Filters
  import opened Names
  import opened ZoneData

  // ---------- file names ----------

  predicate LowerOrDigit(c: char)
  {
    'a' <= c <= 'z' || '0' <= c <= '9'
  }

  predicate FilenameChar(c: char)
  {
    LowerOrDigit(c) || c == '.' || c == '-' || c == '_'
  }

  predicate ViewNameOk(view: string)
  {
    0 < |view| <= 64 && forall i :: 0 <= i < |view| ==> LowerOrDigit(view[i]) || view[i] == '_' || view[i] == '-'
  }

  predicate DomainNameOk(domain: string)
  {
    (forall i :: 0 <= i < |domain| ==> FilenameChar(domain[i])) && domain != "" && domain != "." && domain != ".."
  }

  // The file of a zone, without the ".json"; None when the name cannot be a file name.
  function Filename(domain: string, view: string): Option<string>
  {
    if !DomainNameOk(Norm(domain)) then None
    else if view == "" then Some(Norm(domain))
    else if ViewNameOk(view) then Some(Norm(domain) + "@" + view)
    else None
  }

  // Splits a key at its last "@".
  function SplitZoneKey(key: string): (string, string)
  {
    if key == "" then ("", "")
    else if key[|key| - 1] == '@' then (key[..|key| - 1], "")
    else
      var (domain, view) := SplitZoneKey(key[..|key| - 1]);
      if |domain| == |key| - 1 then (key, "") else (domain, view + [key[|key| - 1]])
  }

  lemma {:induction false} SplitPlain(key: string)
    requires '@' !in key
    ensures SplitZoneKey(key) == (key, "")
  {
    if key != "" {
      SplitPlain(key[..|key| - 1]);
    }
  }

  lemma {:induction false} SplitJoined(domain: string, view: string)
    requires '@' !in view && '@' !in domain
    ensures SplitZoneKey(domain + "@" + view) == (domain, view)
  {
    var key := domain + "@" + view;
    if view == "" {
      assert key[..|key| - 1] == domain;
    } else {
      var n := |view| - 1;
      SplitJoined(domain, view[..n]);
      assert key[..|key| - 1] == domain + "@" + view[..n];
      assert view[..n] + [view[n]] == view;
    }
  }

  // The key under which a zone is addressed is the name of its file: reading the key back
  // gives the zone's domain and view, and two zones share a file only if both agree.
  lemma FileKeyRoundTrip(domain: string, view: string)
    requires Filename(domain, view).Some?
    ensures SplitZoneKey(Filename(domain, view).value) == (Norm(domain), view)
  {
    var d := Norm(domain);
    assert '@' !in d;
    if view == "" {
      SplitPlain(d);
    } else {
      assert '@' !in view;
      SplitJoined(d, view);
    }
  }

  lemma FilesAreApart(domain: string, view: string, domain': string, view': string)
    requires Filename(domain, view).Some? && Filename(domain', view').Some?
    ensures Filename(domain, view) == Filename(domain', view') <==> Norm(domain) == Norm(domain') && view == view'
  {
    FileKeyRoundTrip(domain, view);
    FileKeyRoundTrip(domain', view');
  }

  // ---------- serials ----------

  // Section 3.2 of RFC 1982, for 32 bits.
  predicate SerialLess(a: u32, b: u32)
  {
    (a < b && b - a < 0x8000_0000) || (a > b && a - b > 0x8000_0000)
  }

  // A calendar day as the leading digits of a serial, in 32-bit arithmetic.
  function DayPrefix(year: nat, month: nat, day: nat): u32
  {
    (year * 1000000 + month * 10000 + day * 100) % UINT32
  }

  function NextSerial(serial: u32, today: u32): u32
  {
    if serial < today then (today + 1) % UINT32 else (serial + 1) % UINT32
  }

  // The serial moves forward exactly unless it lies 2^31 or more behind today's.
  lemma SerialMovesForward(serial: u32, today: u32)
    requires today % 100 == 0
    ensures SerialLess(serial, NextSerial(serial, today)) <==> !(serial < today && today + 1 - serial >= 0x8000_0000)
  {
  }

  // That cannot happen up to the year 2147, whatever the serial was.
  lemma SerialMovesForwardThrough2147(serial: u32, year: nat, month: nat, day: nat)
    requires year <= 2147 && 1 <= month <= 12 && 1 <= day <= 31
    ensures SerialLess(serial, NextSerial(serial, DayPrefix(year, month, day)))
  {
    var n := year * 1000000 + month * 10000 + day * 100;
    assert n < 0x8000_0000;
    assert DayPrefix(year, month, day) == n;
  }

  // The serial of a new zone (DefaultSOA); it is written YYYYMMDD00 in the same way.
  function DefaultSerial(year: nat, month: nat, day: nat): u32
  {
    var n := (year * 10000 + month * 100 + day) % UINT32;
    ((if n < 20200101 then 20200101 else n) * 100) % UINT32
  }

  // So the first change on the day a zone is made counts from there.
  lemma NewZoneSerialContinues(year: nat, month: nat, day: nat)
    requires 2020 <= year <= 4293 && 1 <= month <= 12 && 1 <= day <= 31
    ensures NextSerial(DefaultSerial(year, month, day), DayPrefix(year, month, day)) == DefaultSerial(year, month, day) + 1
  {
    var n := year * 10000 + month * 100 + day;
    assert 20200101 <= n < UINT32 && n * 100 < UINT32 - 1;
    assert DayPrefix(year, month, day) == n * 100;
  }

  function BumpedSoa(soa: Option<SoaRecord>, today: u32): Option<SoaRecord>
  {
    match soa
    case None => None
    case Some(s) => Some(s.(serial := NextSerial(s.serial, today)))
  }

  // n record writes in a row; the clock is read at each.
  function Bumps(soa: Option<SoaRecord>, clock: nat -> u32, from: nat, n: nat): Option<SoaRecord>
  {
    if n == 0 then soa else BumpedSoa(Bumps(soa, clock, from, n - 1), clock(from + n - 1))
  }

  lemma {:induction false} BumpsAppend(soa: Option<SoaRecord>, clock: nat -> u32, from: nat, m: nat, n: nat)
    ensures Bumps(Bumps(soa, clock, from, m), clock, from + m, n) == Bumps(soa, clock, from, m + n)
  {
    if 0 < n {
      BumpsAppend(soa, clock, from, m, n - 1);
    }
  }

  // ---------- records ----------

  ghost predicate DistinctIds(rs: seq<Record>)
  {
    forall i, j :: 0 <= i < j < |rs| ==> rs[i].id != rs[j].id
  }

  function MaxId(rs: seq<Record>): (m: int)
    ensures 0 <= m && forall i :: 0 <= i < |rs| ==> rs[i].id <= m
  {
    if rs == [] then 0
    else
      var rest := MaxId(rs[..|rs| - 1]);
      assert forall i :: 0 <= i < |rs| - 1 ==> rs[..|rs| - 1][i] == rs[i];
      if rs[|rs| - 1].id > rest then rs[|rs| - 1].id else rest
  }

  method NextRecordID(rs: seq<Record>) returns (id: int)
    ensures id == MaxId(rs) + 1
  {
    var max := 0;
    for i := 0 to |rs|
      invariant max == MaxId(rs[..i])
    {
      assert rs[..i + 1][..i] == rs[..i];
      if rs[i].id > max {
        max := rs[i].id;
      }
    }
    assert rs[..|rs|] == rs;
    return max + 1;
  }

  // The first record with this id, or |rs|.
  function IndexOfId(rs: seq<Record>, id: int): (k: nat)
    ensures k <= |rs| && (forall i :: 0 <= i < k ==> rs[i].id != id) && (k < |rs| ==> rs[k].id == id)
  {
    if rs == [] || rs[0].id == id then 0
    else
      var k := IndexOfId(rs[1..], id);
      assert forall i :: 1 <= i < 1 + k ==> rs[i] == rs[1..][i - 1];
      1 + k
  }

  function Numbered(rs: seq<Record>, rec: Record): Record
  {
    if rec.id == 0 then rec.(id := MaxId(rs) + 1) else rec
  }

  function Put(rs: seq<Record>, rec: Record): seq<Record>
  {
    var numbered := Numbered(rs, rec);
    var k := IndexOfId(rs, numbered.id);
    if k < |rs| then rs[k := numbered] else rs + [numbered]
  }

  function OtherId(id: int): Record -> bool
  {
    (r: Record) => r.id != id
  }

  lemma {:induction false} FilterKeepsIdsDistinct(rs: seq<Record>, p: Record -> bool)
    requires DistinctIds(rs)
    ensures DistinctIds(Filter(rs, p))
  {
    if rs != [] {
      var n := |rs| - 1;
      FilterKeepsIdsDistinct(rs[..n], p);
      assert forall r :: r in rs[..n] ==> r.id != rs[n].id;
    }
  }

  // A record without an id becomes a new one under an unused id; the others stay.
  lemma PutNew(rs: seq<Record>, rec: Record)
    requires rec.id == 0
    ensures Put(rs, rec) == rs + [rec.(id := MaxId(rs) + 1)]
    ensures DistinctIds(rs) ==> DistinctIds(Put(rs, rec))
  {
  }

  // One with an id replaces its namesake, or is added under it.
  lemma PutKeepsIdsDistinct(rs: seq<Record>, rec: Record)
    requires DistinctIds(rs)
    ensures DistinctIds(Put(rs, rec)) && Numbered(rs, rec) in Put(rs, rec)
    ensures Filter(Put(rs, rec), OtherId(Numbered(rs, rec).id)) == Filter(rs, OtherId(Numbered(rs, rec).id))
    ensures rec.id != 0 ==> Numbered(rs, rec) == rec
  {
    var numbered := Numbered(rs, rec);
    var k := IndexOfId(rs, numbered.id);
    var p := OtherId(numbered.id);
    if k < |rs| {
      assert Put(rs, rec)[k] == numbered;
      FilterReplace(rs, k, numbered, p);
    } else {
      assert Put(rs, rec)[|rs|] == numbered;
      FilterConcat(rs, [numbered], p);
      assert Filter(rs, p) + [] == Filter(rs, p);
    }
  }

  lemma {:induction false} FilterReplace(rs: seq<Record>, k: nat, rec: Record, p: Record -> bool)
    requires k < |rs| && !p(rs[k]) && !p(rec)
    ensures Filter(rs[k := rec], p) == Filter(rs, p)
  {
    var n := |rs| - 1;
    if k == n {
      assert rs[k := rec][..n] == rs[..n];
    } else {
      assert rs[k := rec][..n] == rs[..n][k := rec];
      FilterReplace(rs[..n], k, rec, p);
    }
  }

  method PutInto(rs: seq<Record>, record: Record) returns (r: seq<Record>)
    ensures r == Put(rs, record)
  {
    var rec := record;
    if rec.id == 0 {
      var id := NextRecordID(rs);
      rec := rec.(id := id);
    }
    for i := 0 to |rs|
      invariant forall k :: 0 <= k < i ==> rs[k].id != rec.id
    {
      if rs[i].id == rec.id {
        return rs[i := rec];
      }
    }
    return rs + [rec];
  }

  method WithoutId(rs: seq<Record>, id: int) returns (r: seq<Record>)
    ensures r == Filter(rs, OtherId(id))
  {
    r := [];
    for i := 0 to |rs|
      invariant r == Filter(rs[..i], OtherId(id))
    {
      FilterStep(rs, i, OtherId(id));
      if rs[i].id != id {
        r := r + [rs[i]];
      }
    }
    assert rs[..|rs|] == rs;
  }

  // ---------- the store ----------

  datatype StoreError = InvalidZone | ZoneNotFound | RecordNotFound | DomainRequired

  // Every file holds a zone that belongs there.
  ghost predicate FilesOk(files: map<string, Zone>)
  {
    forall k :: k in files ==> Filename(files[k].domain, files[k].view) == Some(k)
  }

  function Load(files: map<string, Zone>, domain: string, view: string): Result<Zone, StoreError>
  {
    var file := Filename(domain, view);
    if file.None? then Err(InvalidZone)
    else if file.value !in files then Err(ZoneNotFound)
    else Ok(files[file.value])
  }

  function LoadKey(files: map<string, Zone>, key: string): Result<Zone, StoreError>
  {
    var (domain, view) := SplitZoneKey(key);
    Load(files, domain, view)
  }

  function FileOf(zone: Zone): string
    requires Filename(zone.domain, zone.view).Some?
  {
    Filename(zone.domain, zone.view).value
  }

  lemma LoadAgain(files: map<string, Zone>, key: string, z: Zone, z': Zone)
    requires FilesOk(files) && LoadKey(files, key) == Ok(z) && z'.domain == z.domain && z'.view == z.view
    ensures Filename(z.domain, z.view).Some? && FileOf(z') == FileOf(z) && files[FileOf(z) := z] == files
    ensures LoadKey(files[FileOf(z) := z'], key) == Ok(z')
  {
    hide SplitZoneKey, DomainNameOk;
  }

  lemma NoAt(domain: string)
    requires DomainNameOk(Norm(domain))
    ensures '@' !in domain
  {
    forall i | 0 <= i < |domain|
      ensures domain[i] != '@'
    {
      if i < |TrimDot(domain)| {
        assert FilenameChar(Norm(domain)[i]);
      }
    }
  }

  lemma MidOk(files: map<string, Zone>, z: Zone, z': Zone)
    requires FilesOk(files) && Filename(z.domain, z.view).Some? && z'.domain == z.domain && z'.view == z.view
    ensures FilesOk(files[FileOf(z) := z'])
  {
    hide Filename;
  }

  // z after one record write.
  function WithRecords(z: Zone, records: seq<Record>, today: u32): Zone
  {
    z.(records := records, soa := BumpedSoa(z.soa, today))
  }

  class FileStore {
    const today: nat -> u32 // the day prefix at each reading of the clock
    var files: map<string, Zone>
    var ticks: nat

    constructor (today: nat -> u32)
      ensures files == map[] && ticks == 0 && this.today == today && Valid()
    {
      this.today, files, ticks := today, map[], 0;
    }

    ghost predicate Valid()
      reads this
    {
      FilesOk(files)
    }

    // key is "domain" or "domain@view".
    method LoadZoneFile(key: string) returns (r: Result<Zone, StoreError>)
      ensures r == LoadKey(files, key)
    {
      var (domain, view) := SplitZoneKey(key);
      r := LoadZoneViewFile(domain, view);
    }

    method LoadZoneViewFile(domain: string, view: string) returns (r: Result<Zone, StoreError>)
      ensures r == Load(files, domain, view)
    {
      var file := Filename(domain, view);
      if file.None? {
        return Err(InvalidZone);
      }
      if file.value !in files {
        return Err(ZoneNotFound);
      }
      return Ok(files[file.value]);
    }

    method SaveZoneFile(zone: Zone) returns (ok: bool)
      requires Valid()
      modifies `files
      ensures Valid() && (ok <==> Filename(zone.domain, zone.view).Some?)
      ensures files == if ok then old(files)[FileOf(zone) := zone] else old(files)
    {
      var file := Filename(zone.domain, zone.view);
      if file.None? {
        return false;
      }
      files := files[file.value := zone];
      return true;
    }

    method PutZone(zone: Zone) returns (e: Option<StoreError>)
      requires Valid()
      modifies `files
      ensures Valid() && (e.None? <==> Filename(zone.domain, zone.view).Some?)
      ensures files == if e.None? then old(files)[FileOf(zone) := zone] else old(files)
    {
      if zone.domain == "" {
        return Some(DomainRequired);
      }
      var ok := SaveZoneFile(zone);
      return if ok then None else Some(InvalidZone);
    }

    // Writes one record and moves the serial. The zone goes back to the file it came from.
    method PutRecord(key: string, record: Record) returns (e: Option<StoreError>)
      requires Valid()
      modifies this
      ensures Valid()
      ensures LoadKey(old(files), key).Err? ==>
                e == Some(LoadKey(old(files), key).error) && files == old(files) && ticks == old(ticks)
      ensures LoadKey(old(files), key).Ok? ==>
                var z := LoadKey(old(files), key).value;
                && e == None && ticks == old(ticks) + 1
                && files == old(files)[FileOf(z) := WithRecords(z, Put(z.records, record), today(old(ticks)))]
    {
      hide Put, Filter, IndexOfId, SplitZoneKey, DomainNameOk, NextSerial;
      var loaded := LoadZoneFile(key);
      if loaded.Err? {
        return Some(loaded.error);
      }
      var zone := loaded.value;
      var records := PutInto(zone.records, record);
      zone := zone.(records := records);
      if zone.soa.Some? {
        zone := zone.(soa := BumpedSoa(zone.soa, today(ticks)));
      }
      ticks := ticks + 1;
      var _ := SaveZoneFile(zone);
      return None;
    }

    method DeleteRecord(key: string, recordID: int) returns (e: Option<StoreError>)
      requires Valid()
      modifies this
      ensures Valid()
      ensures LoadKey(old(files), key).Err? ==>
                e == Some(LoadKey(old(files), key).error) && files == old(files) && ticks == old(ticks)
      ensures LoadKey(old(files), key).Ok? ==>
                var z := LoadKey(old(files), key).value;
                if IndexOfId(z.records, recordID) == |z.records|
                then e == Some(RecordNotFound) && files == old(files) && ticks == old(ticks)
                else e == None && ticks == old(ticks) + 1 &&
                     files == old(files)[FileOf(z) := WithRecords(z, Filter(z.records, OtherId(recordID)), today(old(ticks)))]
    {
      hide Put, Filter, IndexOfId, SplitZoneKey, DomainNameOk, NextSerial;
      var loaded := LoadZoneFile(key);
      if loaded.Err? {
        return Some(loaded.error);
      }
      var zone := loaded.value;
      if IndexOfId(zone.records, recordID) == |zone.records| {
        return Some(RecordNotFound);
      }
      var records := WithoutId(zone.records, recordID);
      zone := zone.(records := records);
      if zone.soa.Some? {
        zone := zone.(soa := BumpedSoa(zone.soa, today(ticks)));
      }
      ticks := ticks + 1;
      var _ := SaveZoneFile(zone);
      return None;
    }
  }
}
