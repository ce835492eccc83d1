/** Following a CNAME chain across the local zones and, at the end, upstream (cnamePhase),
    including an ALIAS the chain may end on. */
module CnamePhase {
  import opened Common
  import opened DnsMessage
  import Filters
  import opened Names
  import opened ZoneData
  import opened ZoneIndex
  import opened ZoneAnswer
  import opened CnameChain
  import opened ChainFacts

  // Everything outside the zone store: the upstream resolver (None when the exchange fails),
  // the rebinding test, and the DNSSEC post-processing of an upstream answer.
  datatype Env = Env(
    parses: Parser,
    hasForwarder: bool,
    upstream: (string, RType) -> Option<Upstream>,
    rebinding: (string, seq<RR>) -> bool,
    process: seq<RR> -> seq<RR>)

  datatype Upstream = Upstream(rcode: nat, answer: seq<RR>)

  const RCODE_SERVER_FAILURE: nat := 2

  // One attempt to get an answer from outside.
  datatype Fetched = Failed | Blocked | Fetched(rrs: seq<RR>)

  function Fetch(env: Env, name: string, qtype: RType): Fetched
  {
    match env.upstream(name, qtype)
    case None => Failed
    case Some(u) =>
      if u.rcode == RCODE_SERVER_FAILURE then Failed
      else if env.rebinding(name, u.answer) then Blocked
      else Fetched(env.process(u.answer))
  }

  function Renamed(owner: string, rrs: seq<RR>): (r: seq<RR>)
    ensures |r| == |rrs| && forall i :: 0 <= i < |rrs| ==> r[i] == rrs[i].(name := Fqdn(owner))
  {
    seq(|rrs|, i requires 0 <= i < |rrs| => rrs[i].(name := Fqdn(owner)))
  }

  // The result of a chase: what local zones contributed, what came from upstream, how many
  // names were looked up in local zones, how many upstream exchanges were made. Records found
  // for an ALIAS count as remote, wherever they come from.
  datatype Outcome = Outcome(local: seq<RR>, remote: seq<RR>, viaAlias: bool, lookups: nat, exchanges: nat, blocked: bool)

  // ---------- the rule ----------

  // An ALIAS target: a local zone that owns it decides, unless it is itself an ALIAS there.
  function AliasRecords(env: Env, zs: seq<Zone>, view: string, target: string, qtype: RType): (Fetched, nat)
  {
    var here := LocalAnswer(env, zs, view, target, qtype);
    if here.Some? && here.value.aliasTarget == "" then (Fetched(here.value.answer), 0)
    else if !env.hasForwarder then (Failed, 0)
    else (Fetch(env, target, qtype), 1)
  }

  function LocalAnswer(env: Env, zs: seq<Zone>, view: string, target: string, qtype: RType): Option<Response>
  {
    match Scan(zs, view, Norm(target))
    case None => None
    case Some(zone) => Some(Respond(env.parses, zone, Subdomain(Norm(target), Norm(zone.domain)), qtype))
  }

  // How a chase ends: at an ALIAS of a local zone, or at a name no local zone has.
  function ViaAlias(env: Env, zs: seq<Zone>, view: string, target: string, zr: Response, qtype: RType,
        depth: nat): Outcome
  {
    var (found, n) := AliasRecords(env, zs, view, zr.aliasTarget, qtype);
    match found
    case Failed => Outcome(zr.answer, [], true, depth + 2, n, false)
    case Blocked => Outcome(zr.answer, [], true, depth + 2, n, true)
    case Fetched(rrs) => Outcome(zr.answer, Renamed(target, rrs), true, depth + 2, n, false)
  }

  function FromUpstream(env: Env, target: string, qtype: RType, depth: nat): Outcome
  {
    if (qtype != A && qtype != AAAA) || !env.hasForwarder then Outcome([], [], false, depth + 1, 0, false)
    else
      match Fetch(env, target, qtype)
      case Failed => Outcome([], [], false, depth + 1, 1, false)
      case Blocked => Outcome([], [], false, depth + 1, 1, true)
      case Fetched(rrs) => Outcome([], rrs, false, depth + 1, 1, false)
  }

  function Chase(env: Env, zs: seq<Zone>, view: string, qtype: RType, target: string, seen: set<string>,
        depth: nat): Outcome
    decreases MAX_CHAIN_DEPTH - depth
  {
    if depth >= MAX_CHAIN_DEPTH || target == "" || Norm(target) in seen then Outcome([], [], false, depth, 0, false)
    else
      match LocalAnswer(env, zs, view, target, qtype)
      case None => FromUpstream(env, target, qtype, depth)
      case Some(zr) =>
        if zr.aliasTarget != "" then ViaAlias(env, zs, view, target, zr, qtype, depth)
        else
          var rest := Chase(env, zs, view, qtype, zr.cnameTarget, seen + {Norm(target)}, depth + 1);
          rest.(local := zr.answer + rest.local)
  }

  // The names a chase looks up, in order.
  function Hops(env: Env, zs: seq<Zone>, view: string, qtype: RType, target: string, seen: set<string>,
        depth: nat): seq<string>
    decreases MAX_CHAIN_DEPTH - depth
  {
    if depth >= MAX_CHAIN_DEPTH || target == "" || Norm(target) in seen then []
    else
      match LocalAnswer(env, zs, view, target, qtype)
      case None => [target]
      case Some(zr) =>
        if zr.aliasTarget != "" then [target]
        else [target] + Hops(env, zs, view, qtype, zr.cnameTarget, seen + {Norm(target)}, depth + 1)
  }

  // ---------- the code ----------

  // The local zone responsible for a name, and its response.
  method LookLocal(env: Env, zones: ZoneManager, view: string, target: string,
        qtype: RType) returns (r: Option<Response>)
    requires zones.Valid()
    ensures r == LocalAnswer(env, zones.loaded, view, target, qtype)
  {
    hide Respond, Scan, Norm, Fqdn, Subdomain;
    NormOfFqdn(target);
    var found := zones.FindZone(view, Fqdn(target));
    if found.None? {
      return None;
    }
    var zr := GenerateResponse(env.parses, found.value.zone, found.value.subdomain, qtype);
    return Some(zr);
  }

  method ResolveAliasRRs(env: Env, zones: ZoneManager, view: string, target: string, qtype: RType)
      returns (r: Fetched, lookups: nat, exchanges: nat)
    requires zones.Valid()
    ensures (r, exchanges) == AliasRecords(env, zones.loaded, view, target, qtype) && lookups == 1
  {
    hide LocalAnswer, Fetch;
    lookups, exchanges := 0, 0;
    var here := LookLocal(env, zones, view, target, qtype);
    lookups := lookups + 1;
    if here.Some? && here.value.aliasTarget == "" {
      r := Fetched(here.value.answer);
      return;
    }
    if !env.hasForwarder {
      r := Failed;
      return;
    }
    r := Fetch(env, target, qtype);
    exchanges := exchanges + 1;
  }

  method AnswerAlias(env: Env, zones: ZoneManager, view: string, answer: seq<RR>, target: string, zr: Response,
        qtype: RType, lookedUp: nat)
      returns (r: seq<RR>, lookups: nat, exchanges: nat, blocked: bool)
    requires zones.Valid() && 0 < lookedUp
    ensures var o := ViaAlias(env, zones.loaded, view, target, zr, qtype, lookedUp - 1);
            && lookups == o.lookups && exchanges == o.exchanges && blocked == o.blocked
            && (!blocked ==> r == answer + o.remote)
  {
    hide AliasRecords;
    var found, more, n := ResolveAliasRRs(env, zones, view, zr.aliasTarget, qtype);
    lookups := lookedUp + more;
    assert answer + [] == answer;
    match found {
      case Blocked => return answer, lookups, n, true;
      case Failed => return answer, lookups, n, false;
      case Fetched(rrs) => return answer + Renamed(target, rrs), lookups, n, false;
    }
  }

  method AskUpstream(env: Env, answer: seq<RR>, target: string, qtype: RType, ghost depth: nat)
      returns (r: seq<RR>, exchanges: nat, blocked: bool)
    ensures var o := FromUpstream(env, target, qtype, depth);
            exchanges == o.exchanges && blocked == o.blocked && (!blocked ==> r == answer + o.remote)
  {
    hide Fetch;
    assert answer + [] == answer;
    r, exchanges, blocked := answer, 0, false;
    if qtype != A && qtype != AAAA {
      return;
    }
    if !env.hasForwarder {
      return;
    }
    var found := Fetch(env, target, qtype);
    exchanges := exchanges + 1;
    match found {
      case Failed => return;
      case Blocked => blocked := true;
      case Fetched(rrs) => r := answer + rrs;
    }
  }

  lemma EndsHere(env: Env, zs: seq<Zone>, view: string, target: string, zr: Response, qtype: RType, depth: nat)
    ensures ViaAlias(env, zs, view, target, zr, qtype, depth).local == zr.answer
    ensures var o := FromUpstream(env, target, qtype, depth); o.local == [] && o.lookups == depth + 1
  {
    hide AliasRecords, Fetch;
  }

  // answer is what the client would be sent; a blocked chase was answered with NXDOMAIN already.
  // Every lookup in the local zones and every upstream exchange is counted where it is made.
  method ChaseCname(env: Env, zones: ZoneManager, view: string, qname: string, qtype: RType, zr: Response)
      returns (answer: seq<RR>, lookups: nat, exchanges: nat, blocked: bool)
    requires zones.Valid()
    ensures var o := Chase(env, zones.loaded, view, qtype, zr.cnameTarget, {Norm(qname)}, 0);
            && lookups == o.lookups && exchanges == o.exchanges && blocked == o.blocked
            && (!blocked ==> answer == zr.answer + o.local + o.remote)
  {
    hide LocalAnswer, ViaAlias, FromUpstream, Norm, Fqdn;
    answer, lookups, exchanges, blocked := zr.answer, 0, 0, false;
    var target := zr.cnameTarget;
    var seen := {Norm(qname)};
    ghost var whole := Chase(env, zones.loaded, view, qtype, target, seen, 0);
    ghost var local: seq<RR> := [];
    var depth := 0;
    while depth < MAX_CHAIN_DEPTH && target != ""
      invariant depth <= MAX_CHAIN_DEPTH && lookups == depth && exchanges == 0 && !blocked
      invariant answer == zr.answer + local
      invariant var o := Chase(env, zones.loaded, view, qtype, target, seen, depth);
                whole == o.(local := local + o.local)
    {
      var key := Norm(target);
      if key in seen {
        break;
      }
      var here := LookLocal(env, zones, view, target, qtype);
      lookups := lookups + 1;
      if here.None? {
        EndsHere(env, zones.loaded, view, target, zr, qtype, depth);
        assert local + [] == local;
        answer, exchanges, blocked := AskUpstream(env, answer, target, qtype, depth);
        return;
      }
      var targetZR := here.value;
      Regroup(zr.answer, local, targetZR.answer);
      answer := answer + targetZR.answer;
      if targetZR.aliasTarget != "" {
        EndsHere(env, zones.loaded, view, target, targetZR, qtype, depth);
        answer, lookups, exchanges, blocked := AnswerAlias(env, zones, view, answer, target, targetZR, qtype, lookups);
        return;
      }
      ghost var rest := Chase(env, zones.loaded, view, qtype, targetZR.cnameTarget, seen + {key}, depth + 1);
      Regroup(local, targetZR.answer, rest.local);
      local := local + targetZR.answer;
      seen := seen + {key};
      target := targetZR.cnameTarget;
      depth := depth + 1;
    }
    assert local + [] == local;
    assert answer == zr.answer + whole.local + [];
  }

  // ---------- what holds for every set of zones ----------

  lemma EndIsBounded(env: Env, zs: seq<Zone>, view: string, target: string, zr: Response, qtype: RType, depth: nat)
    ensures var o := ViaAlias(env, zs, view, target, zr, qtype, depth);
            o.viaAlias && o.lookups == depth + 2 && o.exchanges <= 1 && (!env.hasForwarder ==> o.exchanges == 0)
    ensures var o := FromUpstream(env, target, qtype, depth);
            !o.viaAlias && o.lookups == depth + 1 && o.exchanges <= 1 && (!env.hasForwarder ==> o.exchanges == 0)
  {
    hide LocalAnswer, Fetch;
  }

  // A chase looks up one name a hop, at most eight, and the target of an ALIAS it ends on.
  lemma {:induction false} ChaseIsBounded(env: Env, zs: seq<Zone>, view: string, qtype: RType, target: string,
        seen: set<string>, depth: nat)
    requires depth <= MAX_CHAIN_DEPTH
    ensures var o := Chase(env, zs, view, qtype, target, seen, depth);
            var hops := |Hops(env, zs, view, qtype, target, seen, depth)|;
            && depth + hops <= MAX_CHAIN_DEPTH && o.lookups == depth + hops + (if o.viaAlias then 1 else 0)
            && o.exchanges <= 1 && (!env.hasForwarder ==> o.exchanges == 0)
    decreases MAX_CHAIN_DEPTH - depth
  {
    hide LocalAnswer, ViaAlias, FromUpstream, Norm;
    if depth < MAX_CHAIN_DEPTH && target != "" && Norm(target) !in seen {
      match LocalAnswer(env, zs, view, target, qtype)
      case Some(zr) =>
        if zr.aliasTarget == "" {
          ChaseIsBounded(env, zs, view, qtype, zr.cnameTarget, seen + {Norm(target)}, depth + 1);
        } else {
          EndIsBounded(env, zs, view, target, zr, qtype, depth);
        }
      case None =>
        EndIsBounded(env, zs, view, target, Response([], 0, "", ""), qtype, depth);
    }
  }

  // Zones of other views have no influence at all.
  function VisibleZones(zs: seq<Zone>, view: string): seq<Zone>
  {
    if zs == [] then []
    else
      var rest := VisibleZones(zs[..|zs| - 1], view);
      if Visible(zs[|zs| - 1], view) then rest + [zs[|zs| - 1]] else rest
  }

  lemma {:induction false} ScanSeesOwnView(zs: seq<Zone>, view: string, s: string)
    ensures Scan(VisibleZones(zs, view), view, s) == Scan(zs, view, s)
  {
    if zs != [] {
      var n := |zs| - 1;
      ScanSeesOwnView(zs[..n], view, s);
      var rest := VisibleZones(zs[..n], view);
      assert (rest + [zs[n]])[..|rest|] == rest;
    }
  }

  lemma LocalSeesOwnView(env: Env, zs: seq<Zone>, view: string, target: string, qtype: RType)
    ensures LocalAnswer(env, VisibleZones(zs, view), view, target, qtype) == LocalAnswer(env, zs, view, target, qtype)
    ensures AliasRecords(env, VisibleZones(zs, view), view, target, qtype) == AliasRecords(env, zs, view, target, qtype)
  {
    hide Respond, Scan, Fetch, Norm, VisibleZones;
    ScanSeesOwnView(zs, view, Norm(target));
  }

  lemma {:induction false} ChaseSeesOwnView(env: Env, zs: seq<Zone>, view: string, qtype: RType, target: string,
        seen: set<string>, depth: nat)
    ensures Chase(env, VisibleZones(zs, view), view, qtype, target, seen, depth)
         == Chase(env, zs, view, qtype, target, seen, depth)
    decreases MAX_CHAIN_DEPTH - depth
  {
    hide LocalAnswer, AliasRecords, FromUpstream, Norm, VisibleZones;
    if depth < MAX_CHAIN_DEPTH && target != "" && Norm(target) !in seen {
      LocalSeesOwnView(env, zs, view, target, qtype);
      match LocalAnswer(env, zs, view, target, qtype)
      case Some(zr) =>
        if zr.aliasTarget == "" {
          ChaseSeesOwnView(env, zs, view, qtype, zr.cnameTarget, seen + {Norm(target)}, depth + 1);
        } else {
          LocalSeesOwnView(env, zs, view, zr.aliasTarget, qtype);
        }
      case None =>
    }
  }

  // ---------- the local answer is one connected chain ----------

  // Every record is owned by the target of the last CNAME before it.
  predicate Connected(owner: string, rrs: seq<RR>)
    decreases |rrs|
  {
    rrs == [] || (Norm(rrs[0].name) == owner && Connected(After(owner, rrs[0]), rrs[1..]))
  }

  function After(owner: string, rr: RR): string
  {
    if rr.rrtype == CNAME then Norm(rr.data) else owner
  }

  function EndOf(owner: string, rrs: seq<RR>): string
    decreases |rrs|
  {
    if rrs == [] then owner else EndOf(After(owner, rrs[0]), rrs[1..])
  }

  // A list is connected when its parts are, the second from where the first one ends.
  lemma {:induction false} ConnectedConcat(owner: string, a: seq<RR>, b: seq<RR>)
    ensures Connected(owner, a + b) <==> Connected(owner, a) && Connected(EndOf(owner, a), b)
    ensures EndOf(owner, a + b) == EndOf(EndOf(owner, a), b)
    decreases |a|
  {
    hide Norm, After;
    if a == [] {
      assert a + b == b;
    } else {
      ConnectedConcat(After(owner, a[0]), a[1..], b);
      assert (a + b)[1..] == a[1..] + b;
    }
  }

  // Records that are no CNAMEs, all at one name.
  lemma {:induction false} OwnedConnected(owner: string, at: string, rrs: seq<RR>)
    requires forall rr :: rr in rrs ==> Norm(rr.name) == at && rr.rrtype != CNAME
    ensures Connected(owner, rrs) <==> rrs == [] || owner == at
    ensures EndOf(owner, rrs) == owner
    decreases |rrs|
  {
    hide Norm;
    if rrs != [] {
      assert rrs[0] in rrs;
      OwnedConnected(owner, at, rrs[1..]);
    }
  }

  // A chain as the code lays it out is connected unless its last records land elsewhere.
  lemma {:induction false} LaidOutConnected(zone: Zone, qtype: RType, name: string, rrs: seq<RR>, m: nat, t: nat)
    requires LaidOut(zone, qtype, name, rrs, m, t) && qtype != CNAME
    ensures Connected(ChainName(zone, name, m), rrs) <==>
            |rrs| == t - m || ChainName(zone, name, t) == Landing(zone, ChainName(zone, name, t))
    ensures EndOf(ChainName(zone, name, m), rrs) == ChainName(zone, name, t)
    decreases |rrs|
  {
    hide Norm, ChainName, Landing;
    if m == t {
      forall rr | rr in rrs
        ensures Norm(rr.name) == Landing(zone, ChainName(zone, name, t)) && rr.rrtype != CNAME
      {
        var i :| 0 <= i < |rrs| && rrs[i] == rr;
        assert LandsAt(zone, qtype, name, rrs[i], t);
      }
      OwnedConnected(ChainName(zone, name, t), Landing(zone, ChainName(zone, name, t)), rrs);
    } else {
      assert LinkAt(zone, name, rrs[0], m + 0);
      LaidOutTail(zone, qtype, name, rrs, m, t);
      LaidOutConnected(zone, qtype, name, rrs[1..], m + 1, t);
    }
  }

  lemma LaidOutTail(zone: Zone, qtype: RType, name: string, rrs: seq<RR>, m: nat, t: nat)
    requires LaidOut(zone, qtype, name, rrs, m, t) && m < t
    ensures LaidOut(zone, qtype, name, rrs[1..], m + 1, t)
  {
    hide LinkAt, LandsAt;
    var rest := rrs[1..];
    forall i: nat | i < t - (m + 1)
      ensures LinkAt(zone, name, rest[i], m + 1 + i)
    {
      assert LinkAt(zone, name, rrs[i + 1], m + (i + 1));
    }
    forall i: nat | t - (m + 1) <= i < |rest|
      ensures LandsAt(zone, qtype, name, rest[i], t)
    {
      assert LandsAt(zone, qtype, name, rrs[i + 1], t);
    }
  }

  // What one zone makes of a chase.
  lemma ChasedConnected(parses: Parser, zone: Zone, qtype: RType, sub: string)
    requires Chased(zone, qtype, sub)
    ensures var name := ZoneFQDN(zone, sub);
            var c := ChainsOf(parses, zone, CnameList(zone, sub), sub, qtype);
            && (Connected(name, c.rrs) <==> !Detours(parses, zone, qtype, name))
            && c.rrs != [] && c.rrs[0].rrtype == CNAME && Norm(c.rrs[0].name) == name
            && (c.unresolved != "" ==>
                  && Connected(name, c.rrs) && EndOf(name, c.rrs) == c.unresolved
                  && Lower(c.unresolved) == c.unresolved && TargetOf(zone, c.unresolved))
  {
    hide ChainsOf, CnameList, OnePass, NoRepeat, AllPass, ReachesFrom, Detours, EndRRs, Norm, SubOf, Below, Fqdn, AtLabel;
    hide Connected, EndOf, LandsAt, FirstNames, Passes, Holds, TargetOf;
    var name := ZoneFQDN(zone, sub);
    var c := ChainsOf(parses, zone, CnameList(zone, sub), sub, qtype);
    ChasedPasses(zone, qtype, sub);
    AtLabelBelow(zone);
    var t := ChaseStopsSomewhere(parses, zone, qtype, sub);
    hide ZoneFQDN, Chased;
    ChainStart(zone, name);
    hide ChainName;
    StopsAtDetour(parses, zone, qtype, name, c, t);
    LaidOutConnected(zone, qtype, name, c.rrs, 0, t);
    ChainNameLower(zone, name, t);
    ChainNameIsTarget(zone, qtype, name, t);
    assert LinkAt(zone, name, c.rrs[0], 0 + 0);
  }

  // What one zone makes of the records of the type asked for.
  lemma PlainConnected(parses: Parser, zone: Zone, s: string, qtype: RType)
    requires Norm(zone.domain) != "" && qtype != CNAME && qtype != ANY
    requires LabelSuffix(Norm(zone.domain), s) && Lower(s) == s
    requires !Chases(OnePass(zone, Subdomain(s, Norm(zone.domain)), qtype), qtype)
    ensures var sub := Subdomain(s, Norm(zone.domain));
            var rrs := RRs(parses, zone, OnePass(zone, sub, qtype).matched, sub);
            && (Connected(s, rrs) <==> !Detours(parses, zone, qtype, s))
            && (rrs != [] ==> |Norm(rrs[0].name)| <= |s|)
  {
    hide OnePass, RRs, Norm, Fqdn, Connected, AtLabel, CnameList;
    var sub := Subdomain(s, Norm(zone.domain));
    var rrs := RRs(parses, zone, OnePass(zone, sub, qtype).matched, sub);
    AtLabelBelow(zone);
    OnePassCname(zone, sub, qtype);
    StaysHere(parses, zone, s, qtype);
    var at := Landing(zone, s);
    if s == Norm(zone.domain) {
      MatchedHasType(zone, sub, qtype);
      NormOfFqdn(zone.domain);
      ApexRRs(parses, zone, OnePass(zone, sub, qtype).matched, qtype);
    } else {
      EndRRsLand(parses, zone, qtype, s);
    }
    assert rrs != [] ==> rrs[0] in rrs;
    OwnedConnected(s, at, rrs);
  }

  // A name that starts no chase makes a detour only as the label "@" itself.
  lemma StaysHere(parses: Parser, zone: Zone, s: string, qtype: RType)
    requires !Passes(zone, qtype, s)
    ensures Detours(parses, zone, qtype, s) <==> s == AtLabel(zone) && EndRRs(parses, zone, qtype, s) != []
  {
    hide Passes, EndRRs, AtLabel;
    ChainStart(zone, s);
    hide ChainName;
    if s == AtLabel(zone) && EndRRs(parses, zone, qtype, s) != [] {
      assert DetoursAt(parses, zone, qtype, s, 0);
    }
    forall k: nat | 0 < k
      ensures !DetoursAt(parses, zone, qtype, s, k)
    {
      assert !Passes(zone, qtype, ChainName(zone, s, 0));
    }
  }

  // The response of one zone is a connected chain from the name asked for, exactly without a
  // detour. A name to go on with is where that chain ends.
  lemma RespondIsConnected(parses: Parser, zone: Zone, s: string, qtype: RType)
    requires GoodZone(zone) && qtype != CNAME && qtype != ANY
    requires LabelSuffix(Norm(zone.domain), s) && Lower(s) == s
    ensures var zr := Respond(parses, zone, Subdomain(s, Norm(zone.domain)), qtype);
            && (Connected(s, zr.answer) <==> !Detours(parses, zone, qtype, s))
            && (zr.cnameTarget != "" ==>
                  && Connected(s, zr.answer) && EndOf(s, zr.answer) == zr.cnameTarget
                  && zr.answer != [] && zr.answer[0].rrtype == CNAME
                  && Lower(zr.cnameTarget) == zr.cnameTarget && TargetOf(zone, zr.cnameTarget))
            && (zr.aliasTarget != "" ==> zr.answer == [])
            && (zr.answer != [] ==> |Norm(zr.answer[0].name)| <= |s|)
  {
    hide OnePass, CnameList, ChainsOf, RRs, Norm, Detours, Connected, EndOf, HasAnswerOfType, TargetOf;
    var sub := Subdomain(s, Norm(zone.domain));
    OnePassCname(zone, sub, qtype);
    if Chases(OnePass(zone, sub, qtype), qtype) {
      SubOfChased(zone, s, qtype);
      ChasedConnected(parses, zone, qtype, sub);
    } else {
      PlainConnected(parses, zone, s, qtype);
    }
  }

  // Only a name below the apex starts a chase.
  lemma SubOfChased(zone: Zone, s: string, qtype: RType)
    requires LabelSuffix(Norm(zone.domain), s) && Lower(s) == s
    requires Chases(OnePass(zone, Subdomain(s, Norm(zone.domain)), qtype), qtype)
    ensures var sub := Subdomain(s, Norm(zone.domain)); Lower(sub) == sub && ZoneFQDN(zone, sub) == s
  {
    hide OnePass, Norm;
    var domain := Norm(zone.domain);
    var sub := Subdomain(s, domain);
    OnePassCname(zone, sub, qtype);
    CnameIsRecord(zone, sub);
    assert CnameList(zone, sub)[0] in CnameList(zone, sub);
    hide CnameList;
    assert s == sub + ("." + domain) == sub + "." + domain;
    assert forall i :: 0 <= i < |sub| ==> Lower(s)[i] == s[i];
  }

  // The zones a client of this view can see have at most one CNAME per name.
  ghost predicate GoodZones(zs: seq<Zone>, view: string)
  {
    forall z :: z in zs && Visible(z, view) ==> GoodZone(z)
  }

  // x is the target of some CNAME a client of this view can see.
  ghost predicate TargetIn(zs: seq<Zone>, view: string, x: string)
  {
    exists z :: z in zs && Visible(z, view) && TargetOf(z, x)
  }

  // The local zone responsible for a target leads off the chain: through its label "@", or
  // because the target ended in two dots, of which only one is dropped where it is owned.
  ghost predicate StraysAt(env: Env, zs: seq<Zone>, view: string, qtype: RType, target: string)
  {
    match Scan(zs, view, Norm(target))
    case None => false
    case Some(zone) =>
      || Detours(env.parses, zone, qtype, Norm(target))
      || (Norm(target) != target && LocalAnswer(env, zs, view, target, qtype).value.answer != [])
  }

  ghost predicate Straight(env: Env, zs: seq<Zone>, view: string, qtype: RType, hops: seq<string>)
  {
    forall h :: h in hops ==> !StraysAt(env, zs, view, qtype, h)
  }

  lemma StraightCons(env: Env, zs: seq<Zone>, view: string, qtype: RType, h: string, rest: seq<string>)
    ensures Straight(env, zs, view, qtype, [h] + rest) <==>
            !StraysAt(env, zs, view, qtype, h) && Straight(env, zs, view, qtype, rest)
  {
    hide StraysAt;
    assert h in [h] + rest;
    assert forall x :: x in rest ==> x in [h] + rest;
  }

  lemma NothingConnects(env: Env, zs: seq<Zone>, view: string, qtype: RType, owner: string)
    ensures Connected(owner, []) && EndOf(owner, []) == owner && Straight(env, zs, view, qtype, [])
  {
  }

  lemma LocalIsConnected(env: Env, zs: seq<Zone>, view: string, target: string, qtype: RType)
    requires GoodZones(zs, view)
    requires qtype != CNAME && qtype != ANY && Lower(target) == target && LocalAnswer(env, zs, view, target, qtype).Some?
    ensures var zr := LocalAnswer(env, zs, view, target, qtype).value;
            && (Connected(target, zr.answer) <==> !StraysAt(env, zs, view, qtype, target))
            && (zr.cnameTarget != "" ==>
                  && EndOf(target, zr.answer) == zr.cnameTarget && Lower(zr.cnameTarget) == zr.cnameTarget
                  && TargetIn(zs, view, zr.cnameTarget))
            && (zr.aliasTarget != "" ==> zr.answer == [])
  {
    hide Respond, Fqdn, GoodZone, Scan, Detours, TrimDot, TargetOf;
    var s := Norm(target);
    NormIsLower(target);
    ScanIsBest(zs, view, s);
    var zone := Scan(zs, view, s).value;
    RespondIsConnected(env.parses, zone, s, qtype);
    NormIsShorter(target);
    hide Norm;
    var zr := LocalAnswer(env, zs, view, target, qtype).value;
    if s != target && zr.answer == [] {
      assert Connected(target, zr.answer) && Connected(s, zr.answer);
    }
  }

  lemma NormIsShorter(s: string)
    requires Lower(s) == s
    ensures Norm(s) != s ==> |Norm(s)| < |s|
  {
  }

  // The part the local zones contribute, from the target on, is one connected chain exactly
  // if no zone leads off it. What an ALIAS at its end stands for is owned by the name where
  // the chain ends.
  lemma {:induction false} ChaseIsConnected(env: Env, zs: seq<Zone>, view: string, qtype: RType, target: string,
        seen: set<string>, depth: nat)
    requires GoodZones(zs, view)
    requires qtype != CNAME && qtype != ANY && Lower(target) == target
    ensures var o := Chase(env, zs, view, qtype, target, seen, depth);
            && (Connected(target, o.local) <==>
                  Straight(env, zs, view, qtype, Hops(env, zs, view, qtype, target, seen, depth)))
            && (o.viaAlias ==> forall rr :: rr in o.remote ==> Norm(rr.name) == Norm(EndOf(target, o.local)))
    decreases MAX_CHAIN_DEPTH - depth
  {
    hide Respond, Norm, GoodZone, ViaAlias, FromUpstream, LocalAnswer, StraysAt, Straight, Connected, EndOf;
    NothingConnects(env, zs, view, qtype, target);
    if depth < MAX_CHAIN_DEPTH && target != "" && Norm(target) !in seen {
      StraightCons(env, zs, view, qtype, target, []);
      assert [target] + [] == [target];
      match LocalAnswer(env, zs, view, target, qtype)
      case Some(zr) =>
        LocalIsConnected(env, zs, view, target, qtype);
        if zr.aliasTarget == "" {
          var seen' := seen + {Norm(target)};
          var rest := Chase(env, zs, view, qtype, zr.cnameTarget, seen', depth + 1);
          ConnectedConcat(target, zr.answer, rest.local);
          NothingConnects(env, zs, view, qtype, EndOf(target, zr.answer));
          StraightCons(env, zs, view, qtype, target, Hops(env, zs, view, qtype, zr.cnameTarget, seen', depth + 1));
          if zr.cnameTarget != "" {
            ChaseIsConnected(env, zs, view, qtype, zr.cnameTarget, seen', depth + 1);
          }
        } else {
          AliasIsOwned(env, zs, view, target, zr, qtype, depth);
        }
      case None =>
        EndsHere(env, zs, view, target, Response([], 0, "", ""), qtype, depth);
        NoAlias(env, target, qtype, depth);
        NoStray(env, zs, view, qtype, target);
    }
  }

  lemma NoStray(env: Env, zs: seq<Zone>, view: string, qtype: RType, target: string)
    requires LocalAnswer(env, zs, view, target, qtype).None?
    ensures !StraysAt(env, zs, view, qtype, target)
  {
    hide Respond, Norm, Scan;
  }

  lemma NoAlias(env: Env, target: string, qtype: RType, depth: nat)
    ensures !FromUpstream(env, target, qtype, depth).viaAlias
  {
    hide Fetch;
  }

  lemma AliasIsOwned(env: Env, zs: seq<Zone>, view: string, target: string, zr: Response, qtype: RType, depth: nat)
    requires zr.answer == []
    ensures var o := ViaAlias(env, zs, view, target, zr, qtype, depth);
            o.local == [] && forall rr :: rr in o.remote ==> Norm(rr.name) == Norm(target)
  {
    hide AliasRecords, Norm, Fqdn;
    NormOfFqdn(target);
  }

  // The whole answer to a query for a name of a local zone, over any visible zones with one
  // CNAME per name, cyclic ones included: the local part is one connected chain from the queried name
  // on exactly if neither that zone nor a zone of a target leads off it. At most eight names
  // are looked up behind the first, and at most one upstream exchange is made.
  lemma ChasedAnswer(env: Env, zs: seq<Zone>, view: string, qname: string, qtype: RType)
    requires GoodZones(zs, view)
    requires qtype != CNAME && qtype != ANY && LocalAnswer(env, zs, view, qname, qtype).Some?
    ensures var s := Norm(qname);
            var zr := LocalAnswer(env, zs, view, qname, qtype).value;
            var o := Chase(env, zs, view, qtype, zr.cnameTarget, {s}, 0);
            var hops := Hops(env, zs, view, qtype, zr.cnameTarget, {s}, 0);
            && (Connected(s, zr.answer + o.local) <==>
                  !Detours(env.parses, Scan(zs, view, s).value, qtype, s) && Straight(env, zs, view, qtype, hops))
            && (o.viaAlias ==> forall rr :: rr in o.remote ==> Norm(rr.name) == Norm(EndOf(s, zr.answer + o.local)))
            && |hops| <= MAX_CHAIN_DEPTH && o.exchanges <= 1
  {
    hide Respond, Fetch, Norm, Scan, Detours, StraysAt, ViaAlias, FromUpstream, Straight, Connected, EndOf;
    var s := Norm(qname);
    var zone := Scan(zs, view, s).value;
    ScanIsBest(zs, view, s);
    NormIsLower(qname);
    RespondIsConnected(env.parses, zone, s, qtype);
    var zr := LocalAnswer(env, zs, view, qname, qtype).value;
    var o := Chase(env, zs, view, qtype, zr.cnameTarget, {s}, 0);
    ChaseIsBounded(env, zs, view, qtype, zr.cnameTarget, {s}, 0);
    ConnectedConcat(s, zr.answer, o.local);
    NothingConnects(env, zs, view, qtype, EndOf(s, zr.answer));
    if zr.cnameTarget != "" {
      ChaseIsConnected(env, zs, view, qtype, zr.cnameTarget, {s}, 0);
    }
  }

  // ---------- a condition on the zones alone ----------

  predicate TwoDots(s: string)
  {
    |s| >= 2 && s[|s| - 2..] == ".."
  }

  // The name is not the label "@" right below a visible zone.
  ghost predicate OffTheLabels(zs: seq<Zone>, view: string, name: string)
  {
    forall z :: z in zs && Visible(z, view) ==> name != AtLabel(z)
  }

  // No visible CNAME points to such a label or at a name with two dots at its end.
  ghost predicate PlainTargets(zs: seq<Zone>, view: string)
  {
    forall z, r :: z in zs && Visible(z, view) && r in z.records && r.rtype == CNAME ==>
      !TwoDots(r.value) && OffTheLabels(zs, view, Norm(r.value))
  }

  lemma NormTwice(s: string)
    requires !TwoDots(s)
    ensures Norm(Norm(s)) == Norm(s)
  {
    assert |s| >= 2 ==> s[|s| - 2..] == [s[|s| - 2], s[|s| - 1]];
    var t := TrimDot(s);
    assert TrimDot(Lower(t)) == Lower(t);
  }

  lemma TargetIsPlain(zs: seq<Zone>, view: string, x: string)
    requires PlainTargets(zs, view) && TargetIn(zs, view, x)
    ensures Norm(x) == x && OffTheLabels(zs, view, x)
  {
    hide Norm, OffTheLabels;
    var z :| z in zs && Visible(z, view) && TargetOf(z, x);
    var r :| r in z.records && r.rtype == CNAME && Norm(r.value) == x;
    NormTwice(r.value);
  }

  // In the zone responsible for such a name the chain stays on its names.
  lemma NoDetourInPlain(env: Env, zs: seq<Zone>, view: string, qtype: RType, name: string, zone: Zone)
    requires PlainTargets(zs, view) && OffTheLabels(zs, view, name) && zone in zs && Visible(zone, view)
    ensures !Detours(env.parses, zone, qtype, name)
  {
    hide Norm, AtLabel, Detours, TargetOf, PlainTargets;
    if TargetOf(zone, AtLabel(zone)) {
      TargetIsPlain(zs, view, AtLabel(zone));
      assert false;
    }
    NoDetourWithoutTarget(env.parses, zone, qtype, name);
  }

  lemma {:induction false} PlainHopsAreStraight(env: Env, zs: seq<Zone>, view: string, qtype: RType, target: string,
        seen: set<string>, depth: nat)
    requires GoodZones(zs, view) && PlainTargets(zs, view) && qtype != CNAME && qtype != ANY
    requires target != "" ==> Lower(target) == target && Norm(target) == target && OffTheLabels(zs, view, target)
    ensures Straight(env, zs, view, qtype, Hops(env, zs, view, qtype, target, seen, depth))
    decreases MAX_CHAIN_DEPTH - depth
  {
    hide Respond, Norm, GoodZones, PlainTargets, OffTheLabels, Scan, LocalAnswer, Straight, StraysAt, Detours;
    NothingConnects(env, zs, view, qtype, target);
    if depth < MAX_CHAIN_DEPTH && target != "" && Norm(target) !in seen {
      PlainNameStays(env, zs, view, qtype, target);
      StraightCons(env, zs, view, qtype, target, []);
      assert [target] + [] == [target];
      match LocalAnswer(env, zs, view, target, qtype)
      case None =>
      case Some(zr) =>
        if zr.aliasTarget == "" {
          LocalIsConnected(env, zs, view, target, qtype);
          if zr.cnameTarget != "" {
            TargetIsPlain(zs, view, zr.cnameTarget);
          }
          var seen' := seen + {Norm(target)};
          PlainHopsAreStraight(env, zs, view, qtype, zr.cnameTarget, seen', depth + 1);
          StraightCons(env, zs, view, qtype, target, Hops(env, zs, view, qtype, zr.cnameTarget, seen', depth + 1));
        }
    }
  }

  lemma PlainNameStays(env: Env, zs: seq<Zone>, view: string, qtype: RType, target: string)
    requires PlainTargets(zs, view) && Norm(target) == target && OffTheLabels(zs, view, target)
    ensures !StraysAt(env, zs, view, qtype, target)
  {
    hide Norm, Detours, PlainTargets, OffTheLabels, Scan, LocalAnswer;
    ScanIsBest(zs, view, target);
    match Scan(zs, view, target)
    case None =>
    case Some(zone) => NoDetourInPlain(env, zs, view, qtype, target, zone);
  }

  // So in visible zones with one CNAME per name, none of which points to a label "@" right
  // below a zone or at a name with two dots at its end, every answer to a query for a name
  // that is no such label is one connected chain.
  lemma PlainZonesAnswerInChains(env: Env, zs: seq<Zone>, view: string, qname: string, qtype: RType)
    requires GoodZones(zs, view) && PlainTargets(zs, view) && OffTheLabels(zs, view, Norm(qname))
    requires qtype != CNAME && qtype != ANY && LocalAnswer(env, zs, view, qname, qtype).Some?
    ensures var s := Norm(qname);
            var zr := LocalAnswer(env, zs, view, qname, qtype).value;
            Connected(s, zr.answer + Chase(env, zs, view, qtype, zr.cnameTarget, {s}, 0).local)
  {
    hide Respond, Norm, Scan, Detours, StraysAt, Straight, Connected, GoodZone, GoodZones, PlainTargets, OffTheLabels, Hops;
    hide Chase;
    var s := Norm(qname);
    var zr := LocalAnswer(env, zs, view, qname, qtype).value;
    ChasedAnswer(env, zs, view, qname, qtype);
    ScanIsBest(zs, view, s);
    var zone := Scan(zs, view, s).value;
    NoDetourInPlain(env, zs, view, qtype, s, zone);
    NormIsLower(qname);
    FirstTarget(env, zs, view, qname, qtype);
    if zr.cnameTarget != "" {
      TargetIsPlain(zs, view, zr.cnameTarget);
    }
    PlainHopsAreStraight(env, zs, view, qtype, zr.cnameTarget, {s}, 0);
  }

  lemma FirstTarget(env: Env, zs: seq<Zone>, view: string, qname: string, qtype: RType)
    requires GoodZones(zs, view) && qtype != CNAME && qtype != ANY && LocalAnswer(env, zs, view, qname, qtype).Some?
    ensures var target := LocalAnswer(env, zs, view, qname, qtype).value.cnameTarget;
            target != "" ==> Lower(target) == target && TargetIn(zs, view, target)
  {
    hide Respond, Norm, Scan, Detours, Connected, EndOf, TargetOf, GoodZone;
    var s := Norm(qname);
    ScanIsBest(zs, view, s);
    NormIsLower(qname);
    RespondIsConnected(env.parses, Scan(zs, view, s).value, s, qtype);
  }

  // The input on which the answer is no chain: www points at "@.e.com", whose records are
  // owned by "e.com".
  function DetourZone(): Zone
  {
    Zone("e.com", "", 60, 0,
         [Record(1, "www", CNAME, 60, "@.e.com", ""), Record(2, "@", A, 60, "192.0.2.1", "")], None)
  }

  lemma DetourLeavesTheChain(parses: Parser)
    requires parses(A, "192.0.2.1")
    ensures GoodZone(DetourZone())
    ensures Respond(parses, DetourZone(), "www", A).answer ==
            [RR("www.e.com.", CNAME, 60, "@.e.com."), RR("e.com.", A, 60, "192.0.2.1")]
    ensures !Connected("www.e.com", Respond(parses, DetourZone(), "www", A).answer)
  {
    hide Norm, Respond, Connected;
    DetourNames();
    DetourAnswer(parses);
    NotConnected("www.e.com", RR("www.e.com.", CNAME, 60, "@.e.com."), RR("e.com.", A, 60, "192.0.2.1"));
  }

  lemma DetourAnswer(parses: Parser)
    requires parses(A, "192.0.2.1")
    ensures Respond(parses, DetourZone(), "www", A).answer ==
            [RR("www.e.com.", CNAME, 60, "@.e.com."), RR("e.com.", A, 60, "192.0.2.1")]
  {
    hide OnePass, CnameList, ChainsOf, HasAnswerOfType, DetourZone;
    DetourMatches();
    DetourChain(parses);
  }

  // A record behind a CNAME that is not owned by its target.
  lemma NotConnected(owner: string, link: RR, last: RR)
    requires link.rrtype == CNAME && Norm(last.name) != Norm(link.data)
    ensures !Connected(owner, [link, last])
  {
    assert [link, last][1..] == [last];
  }

  lemma DetourChain(parses: Parser)
    requires parses(A, "192.0.2.1")
    ensures ChainsOf(parses, DetourZone(), [DetourZone().records[0]], "www", A).rrs ==
            [RR("www.e.com.", CNAME, 60, "@.e.com."), RR("e.com.", A, 60, "192.0.2.1")]
  {
    hide OnePass, Norm, Canonical, Below, SubOf;
    var zone := DetourZone();
    var www := zone.records[0];
    DetourNames();
    DetourRRs(parses);
    DetourMatches();
    assert [www][..0] == [];
    assert ChainsOf(parses, zone, [], "www", A) == Chains([], "", {"www.e.com"});
    assert Follow(parses, zone, A, "@.e.com", {"www.e.com"}, 0).rrs == [RR("e.com.", A, 60, "192.0.2.1")];
  }

  lemma DetourRRs(parses: Parser)
    requires parses(A, "192.0.2.1")
    ensures var zone := DetourZone();
            && RRs(parses, zone, [zone.records[1]], "@") == [RR("e.com.", A, 60, "192.0.2.1")]
            && RecordToRR(parses, zone, zone.records[0], "www") == Some(RR("www.e.com.", CNAME, 60, "@.e.com."))
  {
    var apex := DetourZone().records[1];
    assert [apex][..0] == [];
    assert "e.com" + "." == "e.com." && "www" + "." + "e.com" + "." == "www.e.com." && "@.e.com" + "." == "@.e.com.";
  }

  lemma DetourNames()
    ensures var zone := DetourZone();
            && Norm("e.com.") == "e.com" && Norm("www.e.com.") == "www.e.com" && Norm("@.e.com.") == "@.e.com"
            && Canonical("@.e.com") == "@.e.com" && ZoneFQDN(zone, "www") == "www.e.com"
            && Norm(zone.domain) == "e.com" && Below(zone, "@.e.com") && SubOf(zone, "@.e.com") == "@"
  {
    hide Norm, Lower, Canonical;
    NormOfName("e.com");
    NormOfName("www.e.com");
    NormOfName("@.e.com");
    CanonicalIsNorm("@.e.com");
    assert "www" + "." + "e.com" == "www.e.com" && "." + "e.com" == ".e.com";
    assert "@.e.com"[1..] == ".e.com" && "@.e.com"[..1] == "@";
    assert "e.com" + "." == "e.com." && "www.e.com" + "." == "www.e.com." && "@.e.com" + "." == "@.e.com.";
  }

  lemma NormOfName(name: string)
    requires forall i :: 0 <= i < |name| ==> LowerChar(name[i]) == name[i]
    requires name != "" && name[|name| - 1] != '.'
    ensures Norm(name) == name && Lower(name) == name && Norm(name + ".") == name
  {
    assert TrimDot(name + ".") == name;
  }

  lemma DetourMatches()
    ensures var zone := DetourZone();
            && OnePass(zone, "www", A).matched == [] && OnePass(zone, "www", A).cname == [zone.records[0]]
            && OnePass(zone, "@", A).matched == [zone.records[1]]
  {
    hide Filters.Filter, Named, WhenWildMatched, WhenWild, WhenAlias, NameExists, WhenMatched, WhenCname, DetourZone;
    DetourFilters();
    NamedAt(DetourZone().records, 0);
  }

  lemma DetourFilters()
    ensures var rs := DetourZone().records;
            && |rs| == 2 && RecName(rs[0]) == "www"
            && Filters.Filter(rs, WhenMatched("www", A)) == [] && Filters.Filter(rs, WhenCname("www")) == [rs[0]]
            && Filters.Filter(rs, WhenMatched("@", A)) == [rs[1]]
  {
    hide Filters.Filter;
    var www, apex := DetourZone().records[0], DetourZone().records[1];
    assert RecName(www) == "www" && RecName(apex) == "@" && DetourZone().records == [www, apex];
    FilterOfTwo(www, apex, WhenMatched("www", A));
    FilterOfTwo(www, apex, WhenCname("www"));
    FilterOfTwo(www, apex, WhenMatched("@", A));
    hide RecName;
  }

  lemma NamedAt(rs: seq<Record>, i: nat)
    requires i < |rs|
    ensures Named(rs, RecName(rs[i]))
  {
  }

  lemma FilterOfTwo(a: Record, b: Record, p: Record -> bool)
    ensures Filters.Filter([a, b], p) == OneIf(a, p) + OneIf(b, p)
  {
    assert [a, b][..1] == [a] && [a][..0] == [];
    assert Filters.Filter([a], p) == OneIf(a, p);
  }

  lemma NormIsLower(s: string)
    ensures Lower(Norm(s)) == Norm(s)
  {
    LowerIdempotent(TrimDot(s));
  }
}
