/** The in-memory index of authoritative zones (ZoneManager.Load and FindZone), with
    split-horizon views, against a linear scan of the loaded list. */
module ZoneIndex {
  import opened Common
  import opened Names
  import opened ZoneData

  // ---------- the reference: scan the list ----------

  predicate Visible(z: Zone, view: string)
  {
    z.view == "" || z.view == view
  }

  // z answers for the normalized name s, as far as this client is concerned.
  predicate Covers(z: Zone, view: string, s: string)
  {
    Visible(z, view) && LabelSuffix(Norm(z.domain), s)
  }

  // The longer domain wins; at the same domain the client's own zone beats the default.
  predicate Outranks(a: Zone, b: Zone)
  {
    |Norm(a.domain)| > |Norm(b.domain)| || (|Norm(a.domain)| == |Norm(b.domain)| && a.view != "" && b.view == "")
  }

  // Of equals, the one listed last counts.
  function Scan(zs: seq<Zone>, view: string, s: string): Option<Zone>
  {
    if zs == [] then None
    else
      var z := zs[|zs| - 1];
      var best := Scan(zs[..|zs| - 1], view, s);
      if Covers(z, view, s) && (best.None? || !Outranks(best.value, z)) then Some(z) else best
  }

  // The last zone listed for exactly this domain and view.
  function LastFor(zs: seq<Zone>, domain: string, view: string): Option<Zone>
  {
    if zs == [] then None
    else if Norm(zs[|zs| - 1].domain) == domain && zs[|zs| - 1].view == view then Some(zs[|zs| - 1])
    else LastFor(zs[..|zs| - 1], domain, view)
  }

  function AtDomain(zs: seq<Zone>, view: string, domain: string): Option<Zone>
  {
    var own := if view != "" then LastFor(zs, domain, view) else None;
    if own.Some? then own else LastFor(zs, domain, "")
  }

  lemma {:induction false} LastForIsFor(zs: seq<Zone>, domain: string, view: string)
    ensures var r := LastFor(zs, domain, view);
            r.Some? ==> Norm(r.value.domain) == domain && r.value.view == view && r.value in zs
    ensures LastFor(zs, domain, view).None? ==>
              forall i :: 0 <= i < |zs| ==> !(Norm(zs[i].domain) == domain && zs[i].view == view)
  {
    if zs != [] {
      LastForIsFor(zs[..|zs| - 1], domain, view);
      assert forall i :: 0 <= i < |zs| - 1 ==> zs[..|zs| - 1][i] == zs[i];
    }
  }

  lemma {:induction false} ScanIsBest(zs: seq<Zone>, view: string, s: string)
    ensures Scan(zs, view, s).None? ==> forall z :: z in zs ==> !Covers(z, view, s)
    ensures Scan(zs, view, s).Some? ==> IsBest(zs, view, s, Scan(zs, view, s).value)
  {
    if zs != [] {
      var n := |zs| - 1;
      ScanIsBest(zs[..n], view, s);
      assert zs == zs[..n] + [zs[n]];
    }
  }

  ghost predicate IsBest(zs: seq<Zone>, view: string, s: string, r: Zone)
  {
    r in zs && Covers(r, view, s) && forall z :: z in zs && Covers(z, view, s) ==> !Outranks(z, r)
  }

  // At the domain it picks, the scan agrees with the exact lookup.
  lemma {:induction false} ScanIsAtItsDomain(zs: seq<Zone>, view: string, s: string)
    requires Scan(zs, view, s).Some?
    ensures Scan(zs, view, s) == AtDomain(zs, view, Norm(Scan(zs, view, s).value.domain))
  {
    var n := |zs| - 1;
    var z, best := zs[n], Scan(zs[..n], view, s);
    var d := Norm(Scan(zs, view, s).value.domain);
    ScanIsBest(zs[..n], view, s);
    LastForIsFor(zs[..n], d, "");
    LastForIsFor(zs[..n], d, view);
    if Covers(z, view, s) && (best.None? || !Outranks(best.value, z)) {
      if z.view == "" && view != "" && LastFor(zs[..n], d, view).Some? {
        assert Covers(LastFor(zs[..n], d, view).value, view, s);
        assert false;
      }
    } else {
      ScanIsAtItsDomain(zs[..n], view, s);
      if Norm(z.domain) == d && Visible(z, view) {
        assert Covers(z, view, s) && Outranks(best.value, z);
      }
    }
  }

  // Conversely, a zone found at some domain, with nothing at any longer one, is the scan's.
  lemma ScanFoundAt(zs: seq<Zone>, view: string, s: string, domain: string)
    requires LabelSuffix(domain, s) && AtDomain(zs, view, domain).Some?
    requires forall d :: LabelSuffix(d, s) && |d| > |domain| ==> AtDomain(zs, view, d).None?
    ensures Scan(zs, view, s) == AtDomain(zs, view, domain)
  {
    var z := AtDomain(zs, view, domain).value;
    LastForIsFor(zs, domain, view);
    LastForIsFor(zs, domain, "");
    ScanIsBest(zs, view, s);
    assert z in zs && Covers(z, view, s);
    var r := Scan(zs, view, s).value;
    ScanIsAtItsDomain(zs, view, s);
    if |Norm(r.domain)| == |domain| {
      SameLengthSameSuffix(s, Norm(r.domain), domain);
    }
  }

  lemma ScanFoundNothing(zs: seq<Zone>, view: string, s: string)
    requires forall d :: LabelSuffix(d, s) ==> AtDomain(zs, view, d).None?
    ensures Scan(zs, view, s) == None
  {
    ScanIsBest(zs, view, s);
    if Scan(zs, view, s).Some? {
      ScanIsAtItsDomain(zs, view, s);
      assert false;
    }
  }

  // ---------- the index ----------

  datatype Found = Found(zone: Zone, subdomain: string)

  function Lookup(m: map<string, Zone>, k: string): Option<Zone>
  {
    if k in m then Some(m[k]) else None
  }

  function LookupView(m: map<string, map<string, Zone>>, d: string, v: string): Option<Zone>
  {
    if d in m then Lookup(m[d], v) else None
  }

  // The two maps answer every exact lookup as the list does.
  ghost predicate Indexes(zones: map<string, Zone>, viewZones: map<string, map<string, Zone>>, zs: seq<Zone>)
  {
    && (forall d :: Lookup(zones, d) == LastFor(zs, d, ""))
    && (forall d, v :: v != "" ==> LookupView(viewZones, d, v) == LastFor(zs, d, v))
  }

  lemma IndexesNone()
    ensures Indexes(map[], map[], [])
  {
  }

  lemma LastForStep(zs: seq<Zone>, z: Zone, d: string, v: string)
    ensures LastFor(zs + [z], d, v) == if Norm(z.domain) == d && z.view == v then Some(z) else LastFor(zs, d, v)
  {
    assert (zs + [z])[..|zs|] == zs;
  }

  lemma IndexesDefault(zones: map<string, Zone>, viewZones: map<string, map<string, Zone>>, zs: seq<Zone>, z: Zone)
    requires Indexes(zones, viewZones, zs) && z.view == ""
    ensures Indexes(zones[Norm(z.domain) := z], viewZones, zs + [z])
  {
    hide Norm, LastFor;
    forall d, v
      ensures LastFor(zs + [z], d, v) == if Norm(z.domain) == d && z.view == v then Some(z) else LastFor(zs, d, v)
    {
      LastForStep(zs, z, d, v);
    }
  }

  lemma IndexesView(zones: map<string, Zone>, viewZones: map<string, map<string, Zone>>, zs: seq<Zone>, z: Zone)
    requires Indexes(zones, viewZones, zs) && z.view != ""
    ensures var d := Norm(z.domain);
            Indexes(zones, viewZones[d := (if d in viewZones then viewZones[d] else map[])[z.view := z]], zs + [z])
  {
    hide Norm, LastFor;
    forall d, v
      ensures LastFor(zs + [z], d, v) == if Norm(z.domain) == d && z.view == v then Some(z) else LastFor(zs, d, v)
    {
      LastForStep(zs, z, d, v);
    }
  }

  class ZoneManager {
    var zones: map<string, Zone>
    var viewZones: map<string, map<string, Zone>>
    ghost var loaded: seq<Zone> // the list behind the maps

    constructor ()
      ensures Valid() && loaded == []
    {
      zones, viewZones, loaded := map[], map[], [];
    }

    ghost predicate Valid()
      reads this
    {
      Indexes(zones, viewZones, loaded)
    }

    // The list is read before the lock is taken; a failing store leaves the index as it was.
    method Load(listed: Option<seq<Zone>>) returns (ok: bool)
      requires Valid()
      modifies this
      ensures Valid() && ok == listed.Some?
      ensures loaded == if listed.Some? then listed.value else old(loaded)
    {
      if listed.None? {
        return false;
      }
      hide Norm, Indexes;
      var zs := listed.value;
      zones, viewZones, loaded := map[], map[], zs;
      IndexesNone();
      for i := 0 to |zs|
        invariant loaded == zs && Indexes(zones, viewZones, zs[..i])
      {
        var zone := zs[i];
        var normalized := Norm(zone.domain);
        assert zs[..i + 1] == zs[..i] + [zone];
        if zone.view != "" {
          IndexesView(zones, viewZones, zs[..i], zone);
          if normalized !in viewZones {
            viewZones := viewZones[normalized := map[]];
          }
          viewZones := viewZones[normalized := viewZones[normalized][zone.view := zone]];
        } else {
          IndexesDefault(zones, viewZones, zs[..i], zone);
          zones := zones[normalized := zone];
        }
      }
      assert zs[..|zs|] == zs;
      return true;
    }

    method FindByName(clientView: string, domain: string) returns (r: Option<Zone>)
      requires Valid()
      ensures r == AtDomain(loaded, clientView, domain)
    {
      assert Lookup(zones, domain) == LastFor(loaded, domain, "");
      if clientView != "" {
        assert LookupView(viewZones, domain, clientView) == LastFor(loaded, domain, clientView);
        if domain in viewZones {
          if clientView in viewZones[domain] {
            return Some(viewZones[domain][clientView]);
          }
        }
      }
      if domain in zones {
        return Some(zones[domain]);
      }
      return None;
    }

    method FindZone(clientView: string, qname: string) returns (r: Option<Found>)
      requires Valid()
      ensures r.None? <==> Scan(loaded, clientView, Norm(qname)).None?
      ensures r.Some? ==> Scan(loaded, clientView, Norm(qname)) == Some(r.value.zone)
      ensures r.Some? ==> r.value.subdomain == Subdomain(Norm(qname), Norm(r.value.zone.domain))
    {
      hide AtDomain, Scan, Norm, Join, Split;
      var normalized := Norm(qname);
      var apex := FindByName(clientView, normalized);
      if apex.Some? {
        ScanFoundAt(loaded, clientView, normalized, normalized);
        NameAtDomain(loaded, clientView, normalized);
        return Some(Found(apex.value, "@"));
      }
      var parts := Split(normalized);
      for i := 1 to |parts|
        invariant forall k :: 0 < k < i ==> AtDomain(loaded, clientView, Join(parts[k..])).None?
      {
        var domain := Join(parts[i..]);
        CutIsParent(normalized, i);
        var zone := FindByName(clientView, domain);
        if zone.Some? {
          LongerOnesPassed(loaded, clientView, normalized, i);
          ScanFoundAt(loaded, clientView, normalized, domain);
          NameAtDomain(loaded, clientView, domain);
          var sub := Join(parts[..i]);
          SuffixRoundTrip(sub, domain);
          return Some(Found(zone.value, sub));
        }
      }
      AllPassed(loaded, clientView, normalized);
      ScanFoundNothing(loaded, clientView, normalized);
      return None;
    }
  }

  // The loop has looked at every label suffix that is longer than the one it is at.
  lemma LongerOnesPassed(zs: seq<Zone>, view: string, s: string, i: nat)
    requires 0 < i < |Split(s)| && AtDomain(zs, view, s).None?
    requires forall k :: 0 < k < i ==> AtDomain(zs, view, Join(Split(s)[k..])).None?
    ensures forall d :: LabelSuffix(d, s) && |d| > |Join(Split(s)[i..])| ==> AtDomain(zs, view, d).None?
  {
    hide AtDomain, Join, Split;
    forall d | LabelSuffix(d, s) && |d| > |Join(Split(s)[i..])|
      ensures AtDomain(zs, view, d).None?
    {
      if d != s {
        var k := ParentIsCut(s, d);
        if i < k {
          CutsShrink(s, i, k);
        }
      }
    }
  }

  lemma AllPassed(zs: seq<Zone>, view: string, s: string)
    requires AtDomain(zs, view, s).None?
    requires forall k :: 0 < k < |Split(s)| ==> AtDomain(zs, view, Join(Split(s)[k..])).None?
    ensures forall d :: LabelSuffix(d, s) ==> AtDomain(zs, view, d).None?
  {
    hide AtDomain, Join, Split;
    forall d | LabelSuffix(d, s)
      ensures AtDomain(zs, view, d).None?
    {
      if d != s {
        var k := ParentIsCut(s, d);
      }
    }
  }

  // The name below the zone; the zone's own name is written "@".
  function Subdomain(s: string, domain: string): string
  {
    if s == domain then "@" else TrimSuffix(s, "." + domain)
  }

  lemma NameAtDomain(zs: seq<Zone>, view: string, domain: string)
    ensures AtDomain(zs, view, domain).Some? ==> Norm(AtDomain(zs, view, domain).value.domain) == domain
  {
    LastForIsFor(zs, domain, view);
    LastForIsFor(zs, domain, "");
  }

  // ---------- what the client gets ----------

  // The client may see the zone, and the name is the zone's or below it.
  ghost predicate Serves(z: Zone, view: string, s: string)
  {
    (z.view == "" || z.view == view) && (s == Norm(z.domain) || exists sub :: s == sub + "." + Norm(z.domain))
  }

  // Of the zones that serve the name none is longer; of the same name none is the client's own
  // unless this one is, and none of the same view is listed later.
  ghost predicate Preferred(zs: seq<Zone>, view: string, s: string, i: nat)
    requires i < |zs|
  {
    && Serves(zs[i], view, s)
    && forall j :: 0 <= j < |zs| && Serves(zs[j], view, s) ==>
         && |Norm(zs[j].domain)| <= |Norm(zs[i].domain)|
         && (|Norm(zs[j].domain)| == |Norm(zs[i].domain)| ==>
              (zs[j].view == view ==> zs[i].view == view) && (i < j ==> zs[j].view != zs[i].view))
  }

  lemma ServesIsCovers(z: Zone, view: string, s: string)
    ensures Serves(z, view, s) <==> Covers(z, view, s)
  {
    var domain := Norm(z.domain);
    if HasSuffix(s, "." + domain) {
      var sub := TrimSuffix(s, "." + domain);
      assert s == sub + ("." + domain) == sub + "." + domain;
    }
    if sub :| s == sub + "." + domain {
      SuffixRoundTrip(sub, domain);
    }
  }

  lemma {:induction false} LaterOnesDiffer(zs: seq<Zone>, view: string, s: string) returns (i: nat)
    requires Scan(zs, view, s).Some?
    ensures i < |zs| && zs[i] == Scan(zs, view, s).value
    ensures forall j :: i < j < |zs| && Covers(zs[j], view, s) && |Norm(zs[j].domain)| == |Norm(zs[i].domain)| ==>
              zs[j].view != zs[i].view
  {
    var n := |zs| - 1;
    var best := Scan(zs[..n], view, s);
    if Covers(zs[n], view, s) && (best.None? || !Outranks(best.value, zs[n])) {
      i := n;
    } else {
      i := LaterOnesDiffer(zs[..n], view, s);
    }
  }

  // The zone found is the preferred one of those the client may see; there is none exactly if
  // no such zone serves the name.
  lemma FoundZoneIsTheMostSpecificVisible(zs: seq<Zone>, view: string, s: string)
    ensures var r := Scan(zs, view, s);
            && (r.None? <==> forall z :: z in zs ==> !Serves(z, view, s))
            && (r.Some? ==> exists i :: 0 <= i < |zs| && zs[i] == r.value && Preferred(zs, view, s, i))
  {
    ScanIsBest(zs, view, s);
    forall z | z in zs
      ensures Serves(z, view, s) <==> Covers(z, view, s)
    {
      ServesIsCovers(z, view, s);
    }
    hide Serves, Scan, Norm;
    if Scan(zs, view, s).Some? {
      var i := LaterOnesDiffer(zs, view, s);
      forall j | 0 <= j < |zs| && Serves(zs[j], view, s) && |Norm(zs[j].domain)| == |Norm(zs[i].domain)| && zs[j].view == view
        ensures zs[i].view == view
      {
        assert zs[j] in zs;
      }
      assert Preferred(zs, view, s, i);
    }
  }

  // The full name of a subdomain in a zone, as the resolver rebuilds it (zoneFQDN).
  function ZoneFQDN(zone: Zone, sub: string): string
  {
    if sub == "@" then Norm(zone.domain) else Lower(sub + "." + Norm(zone.domain))
  }

  // Putting the subdomain back in front of the zone gives the queried name again, except
  // that a label written "@" directly below the zone is taken for the zone itself.
  lemma SubdomainRoundTrip(zone: Zone, s: string)
    requires LabelSuffix(Norm(zone.domain), s) && Lower(s) == s
    ensures var domain := Norm(zone.domain);
            ZoneFQDN(zone, Subdomain(s, domain)) == s <==> s != "@." + domain
  {
    var domain := Norm(zone.domain);
    if s == domain {
      assert |"@." + domain| == |s| + 2;
    } else {
      var sub := TrimSuffix(s, "." + domain);
      assert s == sub + ("." + domain) == sub + "." + domain;
      assert "@." + domain == "@" + ("." + domain);
      assert sub == "@" <==> s == "@." + domain;
    }
  }
}
