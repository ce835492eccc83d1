/** What a patch of RRsets stores and refuses, read off the request alone. */
module PatchFacts {
  import opened Common
  import opened DnsMessage
  import opened Filters
  import opened Names
  import opened ZoneData
  import opened RecordStore
  import opened RrsetPatch

  // ---------- the records of one entry ----------

  // ks lists the positions of the enabled contents, in order.
  ghost predicate ListsEnabled(es: seq<Entry>, ks: seq<nat>)
  {
    && (forall a, b :: 0 <= a < b < |ks| ==> ks[a] < ks[b])
    && (forall a :: 0 <= a < |ks| ==> ks[a] < |es| && !es[ks[a]].disabled)
    && forall k: nat :: k < |es| && !es[k].disabled ==> k in ks
  }

  // The TTL given, or that of the zone; at least five minutes, an hour if there is none.
  ghost predicate TtlBecomes(given: int, zoneTtl: int, ttl: int)
  {
    var t := if given == 0 then zoneTtl else given;
    && (t <= 0 ==> ttl == 3600)
    && (0 < t < 300 ==> ttl == 300)
    && (300 <= t ==> ttl == t)
  }

  // r is what the content says, under the entry's name and type.
  ghost predicate StandsFor(syntax: Syntax, domain: string, zoneTtl: int, rs: RRSet, content: string, r: Record)
  {
    && syntax.parse(rs.name, domain, rs.rtype, content) == Some(Rdata(r.value, r.extra))
    && r.name == RelName(rs, domain) && r.rtype == rs.rtype && TtlBecomes(rs.ttl, zoneTtl, r.ttl)
  }

  ghost predicate StandFor(syntax: Syntax, domain: string, zoneTtl: int, rs: RRSet, es: seq<Entry>, ks: seq<nat>, recs: seq<Record>)
  {
    && |recs| == |ks| && (forall a :: 0 <= a < |ks| ==> ks[a] < |es|)
    && forall a :: 0 <= a < |ks| ==> StandsFor(syntax, domain, zoneTtl, rs, es[ks[a]].content, recs[a])
  }

  // Every enabled content parses.
  ghost predicate AllParse(syntax: Syntax, domain: string, rs: RRSet, es: seq<Entry>)
  {
    forall k :: 0 <= k < |es| && !es[k].disabled ==> syntax.parse(rs.name, domain, rs.rtype, es[k].content).Some?
  }

  lemma EnabledMore(es: seq<Entry>, ks: seq<nat>)
    requires es != [] && ListsEnabled(es[..|es| - 1], ks)
    ensures ListsEnabled(es, if es[|es| - 1].disabled then ks else ks + [|es| - 1])
  {
    var n := |es| - 1;
    assert forall k :: 0 <= k < n ==> es[..n][k] == es[k];
    if !es[n].disabled {
      var more := ks + [n];
      assert more[|ks|] == n && forall k :: k in ks ==> k in more;
    }
  }

  lemma RecordStandsFor(syntax: Syntax, domain: string, zoneTtl: int, rs: RRSet, e: Entry)
    ensures var r := RecordOf(syntax, domain, zoneTtl, rs, e);
            && (r.Some? <==> syntax.parse(rs.name, domain, rs.rtype, e.content).Some?)
            && (r.Some? ==> StandsFor(syntax, domain, zoneTtl, rs, e.content, r.value))
  {
    hide RelName;
  }

  lemma {:induction false} RecordsAreTheEnabled(syntax: Syntax, domain: string, zoneTtl: int, rs: RRSet, es: seq<Entry>)
      returns (ks: seq<nat>)
    ensures var recs := RecordsOf(syntax, domain, zoneTtl, rs, es);
            && ListsEnabled(es, ks) && (recs.Some? <==> AllParse(syntax, domain, rs, es))
            && (recs.Some? ==> StandFor(syntax, domain, zoneTtl, rs, es, ks, recs.value))
  {
    hide RelName, RecordOf, StandsFor, ListsEnabled, AllParse, StandFor;
    if es == [] {
      ks := [];
      NothingEnabled(syntax, domain, zoneTtl, rs);
    } else {
      var n := |es| - 1;
      var before := RecordsAreTheEnabled(syntax, domain, zoneTtl, rs, es[..n]);
      EnabledMore(es, before);
      RecordStandsFor(syntax, domain, zoneTtl, rs, es[n]);
      AllParseMore(syntax, domain, rs, es);
      ks := if es[n].disabled then before else before + [n];
      var recs := RecordsOf(syntax, domain, zoneTtl, rs, es[..n]);
      if recs.Some? {
        StandForMore(syntax, domain, zoneTtl, rs, es, before, recs.value);
      }
    }
  }

  lemma NothingEnabled(syntax: Syntax, domain: string, zoneTtl: int, rs: RRSet)
    ensures ListsEnabled([], []) && AllParse(syntax, domain, rs, []) && StandFor(syntax, domain, zoneTtl, rs, [], [], [])
  {
  }

  lemma StandForMore(syntax: Syntax, domain: string, zoneTtl: int, rs: RRSet, es: seq<Entry>, ks: seq<nat>, recs: seq<Record>)
    requires es != [] && StandFor(syntax, domain, zoneTtl, rs, es[..|es| - 1], ks, recs)
    ensures StandFor(syntax, domain, zoneTtl, rs, es, ks, recs)
    ensures forall r :: StandsFor(syntax, domain, zoneTtl, rs, es[|es| - 1].content, r) ==>
              StandFor(syntax, domain, zoneTtl, rs, es, ks + [|es| - 1], recs + [r])
  {
    hide StandsFor;
    var n := |es| - 1;
    assert forall a :: 0 <= a < |ks| ==> es[..n][ks[a]] == es[ks[a]];
  }

  lemma AllParseMore(syntax: Syntax, domain: string, rs: RRSet, es: seq<Entry>)
    requires es != []
    ensures var n := |es| - 1;
            AllParse(syntax, domain, rs, es) <==>
            AllParse(syntax, domain, rs, es[..n])
            && (es[n].disabled || syntax.parse(rs.name, domain, rs.rtype, es[n].content).Some?)
  {
    var n := |es| - 1;
    assert forall k :: 0 <= k < n ==> es[..n][k] == es[k];
  }

  // ---------- the slot an entry has the last word on ----------

  lemma {:induction false} PlainAt(rs: seq<Record>, i: nat)
    requires i < |rs|
    ensures PlainAll(rs)[i] == rs[i].(id := 0)
  {
    if i < |rs| - 1 {
      PlainAt(rs[..|rs| - 1], i);
    }
  }

  // After a patch the name and type of a last replacing entry hold one record for each of its
  // enabled contents, in order: the value and extra data it parses to, with the TTL asked for
  // within bounds. Those of a last deleting entry hold none.
  lemma SlotHoldsTheEnabled(syntax: Syntax, z: Zone, rrsets: seq<RRSet>, j: nat) returns (ks: seq<nat>)
    requires FirstFailure(syntax, z.domain, z.ttl, rrsets).None? && j < |rrsets| && LastWord(rrsets, z.domain, j)
    ensures var rs := rrsets[j];
            var slot := Filter(Patched(syntax, z, rrsets).records,
                               (r: Record) => r.name == RelName(rs, z.domain) && r.rtype == rs.rtype);
            && (rs.changeType == Replace ==>
                 ListsEnabled(rs.records, ks) && StandFor(syntax, z.domain, z.ttl, rs, rs.records, ks, slot))
            && (rs.changeType == Delete ==> slot == [])
  {
    hide Filter, RelName, RecordsOf, FirstFailure, Patched, ListsEnabled, StandFor;
    var rs, records := rrsets[j], Patched(syntax, z, rrsets).records;
    var at := At(RelName(rs, z.domain), rs.rtype);
    FilterSame(records, at, (r: Record) => r.name == RelName(rs, z.domain) && r.rtype == rs.rtype);
    NamedSlotHoldsLastEntry(syntax, z, rrsets, j);
    PlainFilter(records, at);
    NothingFailed(syntax, z.domain, z.ttl, rrsets, j);
    ks := RecordsAreTheEnabled(syntax, z.domain, z.ttl, rs, rs.records);
    if rs.changeType == Replace {
      IdsDoNotMatter(syntax, z.domain, z.ttl, rs, ks, Filter(records, at));
    }
  }

  lemma IdsDoNotMatter(syntax: Syntax, domain: string, zoneTtl: int, rs: RRSet, ks: seq<nat>, recs: seq<Record>)
    requires StandFor(syntax, domain, zoneTtl, rs, rs.records, ks, PlainAll(recs))
    ensures StandFor(syntax, domain, zoneTtl, rs, rs.records, ks, recs)
  {
    hide RelName;
    forall a | 0 <= a < |recs|
      ensures PlainAll(recs)[a] == recs[a].(id := 0)
    {
      PlainAt(recs, a);
    }
  }

  // ---------- which patches go through ----------

  lemma {:induction false} NothingFailed(syntax: Syntax, domain: string, zoneTtl: int, rrsets: seq<RRSet>, j: nat)
    requires FirstFailure(syntax, domain, zoneTtl, rrsets).None? && j < |rrsets|
    ensures Failure(syntax, domain, zoneTtl, rrsets[j]).None?
  {
    hide Failure;
    if j < |rrsets| - 1 {
      NothingFailed(syntax, domain, zoneTtl, rrsets[..|rrsets| - 1], j);
    }
  }

  ghost predicate FailsFirstAt(syntax: Syntax, domain: string, zoneTtl: int, rrsets: seq<RRSet>, j: nat, e: PatchError)
    requires j < |rrsets|
  {
    && Failure(syntax, domain, zoneTtl, rrsets[j]) == Some(e)
    && forall i :: 0 <= i < j ==> Failure(syntax, domain, zoneTtl, rrsets[i]).None?
  }

  // The failure reported is that of the first entry that fails.
  lemma {:induction false} FirstFailureIsFirst(syntax: Syntax, domain: string, zoneTtl: int, rrsets: seq<RRSet>)
    ensures var f := FirstFailure(syntax, domain, zoneTtl, rrsets);
            && (f.None? <==> forall j :: 0 <= j < |rrsets| ==> Failure(syntax, domain, zoneTtl, rrsets[j]).None?)
            && (f.Some? ==> exists j :: 0 <= j < |rrsets| && FailsFirstAt(syntax, domain, zoneTtl, rrsets, j, f.value))
  {
    hide Failure;
    if rrsets != [] {
      var n := |rrsets| - 1;
      FirstFailureIsFirst(syntax, domain, zoneTtl, rrsets[..n]);
      assert forall i :: 0 <= i < n ==> rrsets[..n][i] == rrsets[i];
      var f := FirstFailure(syntax, domain, zoneTtl, rrsets);
      if FirstFailure(syntax, domain, zoneTtl, rrsets[..n]).Some? {
        var j :| 0 <= j < n && FailsFirstAt(syntax, domain, zoneTtl, rrsets[..n], j, f.value);
        assert FailsFirstAt(syntax, domain, zoneTtl, rrsets, j, f.value);
      } else if f.Some? {
        assert FailsFirstAt(syntax, domain, zoneTtl, rrsets, n, f.value);
      }
    }
  }

  // Where a name stands to the zone, both in small letters.
  predicate IsApex(name: string, domain: string)
  {
    Norm(name) == Lower(domain)
  }

  ghost predicate IsBelow(name: string, domain: string)
  {
    StandsBefore(Norm(name), Lower(domain))
  }

  ghost predicate StandsBefore(name: string, zone: string)
  {
    exists rel :: rel <= name && rel != "" && name == rel + "." + zone
  }

  lemma SuffixIsBelow(name: string, zone: string)
    ensures StandsBefore(name, zone) <==> HasSuffix(name, "." + zone) && TrimSuffix(name, "." + zone) != ""
    ensures HasSuffix(name, "." + zone) ==>
              name == TrimSuffix(name, "." + zone) + "." + zone && (TrimSuffix(name, "." + zone) == "" <==> name == "." + zone)
    ensures HasSuffix("." + zone, "." + zone)
  {
    if HasSuffix(name, "." + zone) {
      var rel := TrimSuffix(name, "." + zone);
      assert name == rel + ("." + zone) == rel + "." + zone;
    }
    if rel :| rel <= name && rel != "" && name == rel + "." + zone {
      assert name == rel + ("." + zone);
      assert name[|name| - |zone| - 1..] == "." + zone;
      assert TrimSuffix(name, "." + zone) == rel;
    }
  }

  // An entry is named relative to the zone: "@" for the zone itself, else what stands in front.
  lemma RelativeNameExactly(rs: RRSet, domain: string)
    ensures var r := RelativeRecordName(rs.name, domain);
            && (r.Ok? <==> IsApex(rs.name, domain) || IsBelow(rs.name, domain))
            && (IsApex(rs.name, domain) ==> r == Ok("@"))
            && (r.Ok? && !IsApex(rs.name, domain) ==> r.value != "" && Norm(rs.name) == r.value + "." + Lower(domain))
            && (r.Err? ==> r.error == if Norm(rs.name) == "." + Lower(domain) then EmptyName else NotInZone)
  {
    hide Norm, Lower, HasSuffix, TrimSuffix, StandsBefore;
    SuffixIsBelow(Norm(rs.name), Lower(domain));
    DotIsNotIt(Lower(domain));
  }

  lemma DotIsNotIt(zone: string)
    ensures "." + zone != zone && !StandsBefore(zone, zone)
  {
    assert |"." + zone| == |zone| + 1;
    forall rel: string
      ensures zone != rel + "." + zone
    {
      assert |rel + "." + zone| == |rel| + 1 + |zone|;
    }
  }

  // The label "@" below the zone is taken for the zone itself.
  predicate TakenForApex(name: string, domain: string)
  {
    IsApex(name, domain) || Norm(name) == "@." + Lower(domain)
  }

  predicate Storable(t: RType)
  {
    t in {A, AAAA, CNAME, MX, TXT, NS, SRV, PTR, CAA, DNAME, SOA}
  }

  // What an entry must be to go through.
  ghost predicate EntryOk(syntax: Syntax, domain: string, rs: RRSet)
  {
    && (IsApex(rs.name, domain) || IsBelow(rs.name, domain)) && Storable(rs.rtype)
    && match rs.changeType
       case BadChange => false
       case Delete => rs.rtype != SOA
       case Replace =>
         if rs.rtype != SOA then AllParse(syntax, domain, rs, rs.records)
         else rs.records != [] && TakenForApex(rs.name, domain) && syntax.parseSoa(rs.records[0].content).Some?
  }

  // A patch goes through exactly if each of its entries does.
  lemma PatchPassesExactly(syntax: Syntax, z: Zone, rrsets: seq<RRSet>)
    ensures FirstFailure(syntax, z.domain, z.ttl, rrsets).None? <==>
            forall j :: 0 <= j < |rrsets| ==> EntryOk(syntax, z.domain, rrsets[j])
  {
    hide Failure, EntryOk;
    FirstFailureIsFirst(syntax, z.domain, z.ttl, rrsets);
    forall j | 0 <= j < |rrsets|
      ensures Failure(syntax, z.domain, z.ttl, rrsets[j]).None? <==> EntryOk(syntax, z.domain, rrsets[j])
    {
      EntryFailsExactly(syntax, z.domain, z.ttl, rrsets[j]);
    }
  }

  lemma EntryFailsExactly(syntax: Syntax, domain: string, zoneTtl: int, rs: RRSet)
    ensures Failure(syntax, domain, zoneTtl, rs).None? <==> EntryOk(syntax, domain, rs)
  {
    hide IsApex, IsBelow, TakenForApex, RecordsOf, AllParse, RelativeRecordName;
    RelativeNameExactly(rs, domain);
    if RelativeRecordName(rs.name, domain).Ok? {
      TakenExactly(rs, domain);
    }
    var _ := RecordsAreTheEnabled(syntax, domain, zoneTtl, rs, rs.records);
  }

  lemma TakenExactly(rs: RRSet, domain: string)
    requires RelativeRecordName(rs.name, domain).Ok?
    ensures RelativeRecordName(rs.name, domain).value == "@" <==> TakenForApex(rs.name, domain)
  {
    hide Norm, Lower;
    var fqdn, zone := Norm(rs.name), Lower(domain);
    if fqdn != zone {
      assert fqdn == TrimSuffix(fqdn, "." + zone) + ("." + zone);
      assert "@." + zone == "@" + ("." + zone);
    }
  }

  // The answer to the request: NoContent exactly if the zone is there, each entry goes
  // through within the limits of the request, and the zone keeps an SOA and is valid.
  lemma StatusExactly(syntax: Syntax, files: map<string, Zone>, zoneID: string, body: Option<seq<RRSet>>)
    ensures var wellFormed := Norm(zoneID) != "" && syntax.domainOk(Norm(zoneID)) && body.Some? && |body.value| <= 100
                              && forall i :: 0 <= i < |body.value| ==> |body.value[i].records| <= 100;
            var status, loaded := StatusOf(syntax, files, zoneID, body), LoadKey(files, Norm(zoneID));
            && (status == NotFound <==> wellFormed && loaded == Err(ZoneNotFound))
            && (status == InternalError <==> wellFormed && loaded.Err? && loaded.error != ZoneNotFound)
            && (status == NoContent <==>
                  && wellFormed && loaded.Ok?
                  && (forall j :: 0 <= j < |body.value| ==> EntryOk(syntax, loaded.value.domain, body.value[j]))
                  && Patched(syntax, loaded.value, body.value).soa.Some?
                  && syntax.zoneOk(Patched(syntax, loaded.value, body.value)))
  {
    hide EntryOk, FirstFailure, Patched, LoadKey, Norm;
    if body.Some? && LoadKey(files, Norm(zoneID)).Ok? {
      PatchPassesExactly(syntax, LoadKey(files, Norm(zoneID)).value, body.value);
    }
  }
}
