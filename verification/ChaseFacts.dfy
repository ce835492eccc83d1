/** What a chase across zones looks up and what it sends: from the zones and the upstream
    resolver alone. */
module ChaseFacts {
  import opened Common
  import opened DnsMessage
  import opened Names
  import opened ZoneData
  import opened ZoneIndex
  import opened ZoneAnswer
  import opened CnameChain
  import opened CnamePhase

  // Some visible zone has the name.
  predicate Covered(zs: seq<Zone>, view: string, name: string)
  {
    Scan(zs, view, Norm(name)).Some?
  }

  // The response of the visible zone responsible for a name.
  function ResponseAt(env: Env, zs: seq<Zone>, view: string, name: string, qtype: RType): Response
    requires Covered(zs, view, name)
  {
    var zone := Scan(zs, view, Norm(name)).value;
    Respond(env.parses, zone, Subdomain(Norm(name), Norm(zone.domain)), qtype)
  }

  // One round of the chase.
  lemma ChaseCases(env: Env, zs: seq<Zone>, view: string, qtype: RType, target: string, seen: set<string>, depth: nat)
    ensures var hops, o := Hops(env, zs, view, qtype, target, seen, depth), Chase(env, zs, view, qtype, target, seen, depth);
            if depth >= 8 || target == "" || Norm(target) in seen then hops == [] && o == Outcome([], [], false, depth, 0, false)
            else if !Covered(zs, view, target) then hops == [target] && o == FromUpstream(env, target, qtype, depth)
            else
              var zr := ResponseAt(env, zs, view, target, qtype);
              var more := seen + {Norm(target)};
              if zr.aliasTarget != "" then hops == [target] && o == ViaAlias(env, zs, view, target, zr, qtype, depth)
              else
                var rest := Chase(env, zs, view, qtype, zr.cnameTarget, more, depth + 1);
                && hops == [target] + Hops(env, zs, view, qtype, zr.cnameTarget, more, depth + 1)
                && o == rest.(local := zr.answer + rest.local)
  {
    hide Respond, Norm, Scan, ViaAlias, FromUpstream, Subdomain;
  }

  // ---------- which names are looked up ----------

  // From hop to hop the chase goes on where the response of the zone says.
  ghost predicate Follows(env: Env, zs: seq<Zone>, view: string, qtype: RType, hops: seq<string>)
  {
    forall i :: 0 <= i < |hops| - 1 ==>
      && Covered(zs, view, hops[i]) && ResponseAt(env, zs, view, hops[i], qtype).aliasTarget == ""
      && hops[i + 1] == ResponseAt(env, zs, view, hops[i], qtype).cnameTarget
  }

  // No hop is the root or a name met before, and all are different.
  ghost predicate Fresh(hops: seq<string>, seen: set<string>)
  {
    && (forall i :: 0 <= i < |hops| ==> hops[i] != "" && Norm(hops[i]) !in seen)
    && forall i, j :: 0 <= i < j < |hops| ==> Norm(hops[i]) != Norm(hops[j])
  }

  ghost predicate MetBefore(hops: seq<string>, seen: set<string>, name: string)
  {
    Norm(name) in seen || exists i :: 0 <= i < |hops| && Norm(hops[i]) == Norm(name)
  }

  // The chase ends where no visible zone has the name, at an ALIAS, with nothing to go on
  // with, at a name met before, or after so many hops.
  ghost predicate Ends(env: Env, zs: seq<Zone>, view: string, qtype: RType, hops: seq<string>, seen: set<string>, most: nat)
    requires hops != []
  {
    var last := hops[|hops| - 1];
    || !Covered(zs, view, last)
    || ResponseAt(env, zs, view, last, qtype).aliasTarget != ""
    || ResponseAt(env, zs, view, last, qtype).cnameTarget == ""
    || MetBefore(hops, seen, ResponseAt(env, zs, view, last, qtype).cnameTarget)
    || |hops| == most
  }

  // The names a chase looks up are exactly these: the target, unless it is the root or was met
  // before, and from each name on the one its zone refers to, eight names in all at most.
  lemma {:induction false} HopsAreTheChain(env: Env, zs: seq<Zone>, view: string, qtype: RType, target: string,
        seen: set<string>, depth: nat)
    requires depth <= 8
    ensures var hops := Hops(env, zs, view, qtype, target, seen, depth);
            && |hops| + depth <= 8
            && (hops == [] <==> depth == 8 || target == "" || Norm(target) in seen)
            && (hops != [] ==> hops[0] == target && Ends(env, zs, view, qtype, hops, seen, 8 - depth))
            && Follows(env, zs, view, qtype, hops) && Fresh(hops, seen)
    decreases MAX_CHAIN_DEPTH - depth
  {
    hide ResponseAt, Covered, Norm, Hops, Chase, Follows, Fresh, Ends;
    ChaseCases(env, zs, view, qtype, target, seen, depth);
    NoHop(env, zs, view, qtype, seen);
    if depth < 8 && target != "" && Norm(target) !in seen {
      var more := seen + {Norm(target)};
      if Covered(zs, view, target) && ResponseAt(env, zs, view, target, qtype).aliasTarget == "" {
        var next := ResponseAt(env, zs, view, target, qtype).cnameTarget;
        HopsAreTheChain(env, zs, view, qtype, next, more, depth + 1);
        OneHopMore(env, zs, view, qtype, target, Hops(env, zs, view, qtype, next, more, depth + 1), seen, 8 - depth);
      } else {
        OnlyHop(env, zs, view, qtype, target, seen, 8 - depth);
      }
    }
  }

  lemma NoHop(env: Env, zs: seq<Zone>, view: string, qtype: RType, seen: set<string>)
    ensures Follows(env, zs, view, qtype, []) && Fresh([], seen)
  {
  }

  lemma OnlyHop(env: Env, zs: seq<Zone>, view: string, qtype: RType, target: string, seen: set<string>, most: nat)
    requires target != "" && Norm(target) !in seen
    requires !Covered(zs, view, target) || ResponseAt(env, zs, view, target, qtype).aliasTarget != ""
    ensures Follows(env, zs, view, qtype, [target]) && Fresh([target], seen) && Ends(env, zs, view, qtype, [target], seen, most)
  {
    hide ResponseAt, Covered, Norm;
  }

  lemma OneHopMore(env: Env, zs: seq<Zone>, view: string, qtype: RType, target: string, rest: seq<string>,
        seen: set<string>, most: nat)
    requires 0 < most && Covered(zs, view, target) && ResponseAt(env, zs, view, target, qtype).aliasTarget == ""
    requires target != "" && Norm(target) !in seen
    requires var next, more := ResponseAt(env, zs, view, target, qtype).cnameTarget, seen + {Norm(target)};
             && (rest == [] <==> most == 1 || next == "" || Norm(next) in more)
             && (rest != [] ==> rest[0] == next && Ends(env, zs, view, qtype, rest, more, most - 1))
             && Follows(env, zs, view, qtype, rest) && Fresh(rest, more)
    ensures var hops := [target] + rest;
            Ends(env, zs, view, qtype, hops, seen, most) && Follows(env, zs, view, qtype, hops) && Fresh(hops, seen)
  {
    hide ResponseAt, Norm, Covered, Ends, Follows, Fresh;
    FollowsMore(env, zs, view, qtype, target, rest);
    FreshMore(target, rest, seen);
    EndsMore(env, zs, view, qtype, target, rest, seen, most);
  }

  lemma FollowsMore(env: Env, zs: seq<Zone>, view: string, qtype: RType, target: string, rest: seq<string>)
    requires Covered(zs, view, target) && ResponseAt(env, zs, view, target, qtype).aliasTarget == ""
    requires rest != [] ==> rest[0] == ResponseAt(env, zs, view, target, qtype).cnameTarget
    requires Follows(env, zs, view, qtype, rest)
    ensures Follows(env, zs, view, qtype, [target] + rest)
  {
    hide ResponseAt, Covered;
    var hops := [target] + rest;
    forall i | 0 <= i < |hops| - 1
      ensures Covered(zs, view, hops[i]) && ResponseAt(env, zs, view, hops[i], qtype).aliasTarget == ""
      ensures hops[i + 1] == ResponseAt(env, zs, view, hops[i], qtype).cnameTarget
    {
      assert hops[i + 1] == rest[i] && (0 < i ==> hops[i] == rest[i - 1]);
      assert 0 < i ==> rest[i] == rest[i - 1 + 1];
    }
  }

  lemma FreshMore(target: string, rest: seq<string>, seen: set<string>)
    requires target != "" && Norm(target) !in seen && Fresh(rest, seen + {Norm(target)})
    ensures Fresh([target] + rest, seen)
  {
    hide Norm;
    var hops := [target] + rest;
    assert forall i :: 0 < i < |hops| ==> hops[i] == rest[i - 1];
  }

  lemma EndsMore(env: Env, zs: seq<Zone>, view: string, qtype: RType, target: string, rest: seq<string>,
        seen: set<string>, most: nat)
    requires 0 < most && Covered(zs, view, target) && ResponseAt(env, zs, view, target, qtype).aliasTarget == ""
    requires var next, more := ResponseAt(env, zs, view, target, qtype).cnameTarget, seen + {Norm(target)};
             && (rest == [] <==> most == 1 || next == "" || Norm(next) in more)
             && (rest != [] ==> Ends(env, zs, view, qtype, rest, more, most - 1))
    ensures Ends(env, zs, view, qtype, [target] + rest, seen, most)
  {
    hide ResponseAt, Norm, Covered;
    var hops, more := [target] + rest, seen + {Norm(target)};
    forall name | Norm(name) in more || MetBefore(rest, more, name)
      ensures MetBefore(hops, seen, name)
    {
      MetMore(target, rest, seen, name);
    }
    assert rest == [] ==> hops[|hops| - 1] == target;
    assert rest != [] ==> hops[|hops| - 1] == rest[|rest| - 1];
  }

  lemma MetMore(target: string, rest: seq<string>, seen: set<string>, name: string)
    requires Norm(name) in seen + {Norm(target)} || MetBefore(rest, seen + {Norm(target)}, name)
    ensures MetBefore([target] + rest, seen, name)
  {
    hide Norm;
    var hops := [target] + rest;
    assert hops[0] == target;
    if i :| 0 <= i < |rest| && Norm(rest[i]) == Norm(name) {
      assert hops[i + 1] == rest[i];
    }
  }

  // ---------- what the local zones contribute ----------

  function AnswersAt(env: Env, zs: seq<Zone>, view: string, qtype: RType, hops: seq<string>): seq<RR>
  {
    if hops == [] then []
    else
      (if Covered(zs, view, hops[0]) then ResponseAt(env, zs, view, hops[0], qtype).answer else [])
        + AnswersAt(env, zs, view, qtype, hops[1..])
  }

  lemma {:induction false} LocalIsTheAnswers(env: Env, zs: seq<Zone>, view: string, qtype: RType, target: string,
        seen: set<string>, depth: nat)
    ensures Chase(env, zs, view, qtype, target, seen, depth).local
         == AnswersAt(env, zs, view, qtype, Hops(env, zs, view, qtype, target, seen, depth))
    decreases MAX_CHAIN_DEPTH - depth
  {
    hide ResponseAt, Covered, Norm, Hops, Chase, ViaAlias, FromUpstream;
    ChaseCases(env, zs, view, qtype, target, seen, depth);
    if depth < 8 && target != "" && Norm(target) !in seen {
      EndsHere(env, zs, view, target, Response([], 0, "", ""), qtype, depth);
      assert [target][1..] == [];
      if Covered(zs, view, target) {
        var zr, more := ResponseAt(env, zs, view, target, qtype), seen + {Norm(target)};
        EndsHere(env, zs, view, target, zr, qtype, depth);
        assert zr.answer + [] == zr.answer;
        if zr.aliasTarget == "" {
          LocalIsTheAnswers(env, zs, view, qtype, zr.cnameTarget, more, depth + 1);
          var rest := Hops(env, zs, view, qtype, zr.cnameTarget, more, depth + 1);
          assert ([target] + rest)[1..] == rest;
        }
      }
    }
  }

  // ---------- what comes from outside ----------

  // The upstream exchange for a name went through: it is possible, succeeds, and is no
  // server failure.
  predicate Reachable(env: Env, name: string, qtype: RType)
  {
    env.hasForwarder && env.upstream(name, qtype).Some? && env.upstream(name, qtype).value.rcode != 2
  }

  predicate Rebinds(env: Env, name: string, qtype: RType)
  {
    Reachable(env, name, qtype) && env.rebinding(name, env.upstream(name, qtype).value.answer)
  }

  // The records an upstream exchange gives the client.
  function Outside(env: Env, name: string, qtype: RType): seq<RR>
  {
    if Reachable(env, name, qtype) && !Rebinds(env, name, qtype)
    then env.process(env.upstream(name, qtype).value.answer)
    else []
  }

  // A local zone decides an ALIAS target, unless that is an ALIAS itself.
  predicate Decided(env: Env, zs: seq<Zone>, view: string, name: string, qtype: RType)
  {
    Covered(zs, view, name) && ResponseAt(env, zs, view, name, qtype).aliasTarget == ""
  }

  // The same records, all owned by one name.
  ghost predicate OwnedBy(rrs: seq<RR>, from: seq<RR>, owner: string)
  {
    |rrs| == |from| && forall i :: 0 <= i < |rrs| ==> rrs[i] == from[i].(name := Fqdn(owner))
  }

  ghost predicate EndsOutside(env: Env, qtype: RType, last: string, o: Outcome)
  {
    var asked := (qtype == A || qtype == AAAA) && env.hasForwarder;
    && !o.viaAlias
    && o.remote == (if asked then Outside(env, last, qtype) else [])
    && o.blocked == (asked && Rebinds(env, last, qtype))
    && o.exchanges == (if asked then 1 else 0)
  }

  ghost predicate EndsAtAlias(env: Env, zs: seq<Zone>, view: string, qtype: RType, last: string, target: string, o: Outcome)
  {
    var decided := Decided(env, zs, view, target, qtype);
    && o.viaAlias
    && OwnedBy(o.remote, if decided then ResponseAt(env, zs, view, target, qtype).answer else Outside(env, target, qtype), last)
    && o.blocked == (!decided && Rebinds(env, target, qtype))
    && o.exchanges == (if !decided && env.hasForwarder then 1 else 0)
  }

  ghost predicate EndsInside(o: Outcome)
  {
    !o.viaAlias && o.remote == [] && !o.blocked && o.exchanges == 0
  }

  // What comes from outside is decided by the last name looked up. If no visible zone has it,
  // it is the upstream answer for exactly that name, when an address was asked for. If it is
  // an ALIAS, it is what the local zone of its target answers, or else the upstream answer for
  // that target, under the last name. Otherwise nothing is asked for.
  ghost predicate Supplied(env: Env, zs: seq<Zone>, view: string, qtype: RType, hops: seq<string>, o: Outcome)
  {
    if hops == [] then EndsInside(o)
    else
      var last := hops[|hops| - 1];
      if !Covered(zs, view, last) then EndsOutside(env, qtype, last, o)
      else if ResponseAt(env, zs, view, last, qtype).aliasTarget != ""
      then EndsAtAlias(env, zs, view, qtype, last, ResponseAt(env, zs, view, last, qtype).aliasTarget, o)
      else EndsInside(o)
  }

  lemma {:induction false} RemoteIsSupplied(env: Env, zs: seq<Zone>, view: string, qtype: RType, target: string,
        seen: set<string>, depth: nat)
    ensures Supplied(env, zs, view, qtype, Hops(env, zs, view, qtype, target, seen, depth),
                     Chase(env, zs, view, qtype, target, seen, depth))
    decreases MAX_CHAIN_DEPTH - depth
  {
    hide ResponseAt, Covered, Norm, Hops, Chase, ViaAlias, FromUpstream, Supplied;
    ChaseCases(env, zs, view, qtype, target, seen, depth);
    if depth < 8 && target != "" && Norm(target) !in seen {
      LastHopSupplies(env, zs, view, qtype, target, depth);
      if Covered(zs, view, target) && ResponseAt(env, zs, view, target, qtype).aliasTarget == "" {
        var zr, more := ResponseAt(env, zs, view, target, qtype), seen + {Norm(target)};
        RemoteIsSupplied(env, zs, view, qtype, zr.cnameTarget, more, depth + 1);
        OneMoreSupplied(env, zs, view, qtype, target, zr, Hops(env, zs, view, qtype, zr.cnameTarget, more, depth + 1),
                        Chase(env, zs, view, qtype, zr.cnameTarget, more, depth + 1));
      }
    } else {
      NothingSupplied(env, zs, view, qtype, depth);
    }
  }

  lemma NothingSupplied(env: Env, zs: seq<Zone>, view: string, qtype: RType, depth: nat)
    ensures Supplied(env, zs, view, qtype, [], Outcome([], [], false, depth, 0, false))
  {
  }

  lemma LastHopSupplies(env: Env, zs: seq<Zone>, view: string, qtype: RType, target: string, depth: nat)
    ensures !Covered(zs, view, target) ==> Supplied(env, zs, view, qtype, [target], FromUpstream(env, target, qtype, depth))
    ensures Covered(zs, view, target) && ResponseAt(env, zs, view, target, qtype).aliasTarget != "" ==>
              var zr := ResponseAt(env, zs, view, target, qtype);
              Supplied(env, zs, view, qtype, [target], ViaAlias(env, zs, view, target, zr, qtype, depth))
  {
    hide ResponseAt, Covered, FromUpstream, ViaAlias, EndsOutside, EndsAtAlias;
    UpstreamSupplies(env, target, qtype, depth);
    if Covered(zs, view, target) {
      AliasSupplies(env, zs, view, target, ResponseAt(env, zs, view, target, qtype), qtype, depth);
    }
  }

  // A hop in front has no say in it.
  lemma OneMoreSupplied(env: Env, zs: seq<Zone>, view: string, qtype: RType, target: string, zr: Response,
        rest: seq<string>, o: Outcome)
    requires Covered(zs, view, target) && zr == ResponseAt(env, zs, view, target, qtype) && zr.aliasTarget == ""
    requires Supplied(env, zs, view, qtype, rest, o)
    ensures Supplied(env, zs, view, qtype, [target] + rest, o.(local := zr.answer + o.local))
  {
    hide ResponseAt, Covered, Outside, Rebinds, Decided;
    assert rest != [] ==> ([target] + rest)[|rest|] == rest[|rest| - 1];
  }

  lemma UpstreamSupplies(env: Env, target: string, qtype: RType, depth: nat)
    ensures EndsOutside(env, qtype, target, FromUpstream(env, target, qtype, depth))
  {
  }

  lemma AliasSupplies(env: Env, zs: seq<Zone>, view: string, target: string, zr: Response, qtype: RType, depth: nat)
    ensures EndsAtAlias(env, zs, view, qtype, target, zr.aliasTarget, ViaAlias(env, zs, view, target, zr, qtype, depth))
  {
    hide Respond, Norm, Scan, Fqdn;
  }

  // The client's answer to a query whose zone refers elsewhere.
  lemma WholeAnswer(env: Env, zs: seq<Zone>, view: string, qname: string, qtype: RType)
    requires Covered(zs, view, qname)
    ensures var zr := ResponseAt(env, zs, view, qname, qtype);
            var o := Chase(env, zs, view, qtype, zr.cnameTarget, {Norm(qname)}, 0);
            var hops := Hops(env, zs, view, qtype, zr.cnameTarget, {Norm(qname)}, 0);
            && o.local == AnswersAt(env, zs, view, qtype, hops) && Supplied(env, zs, view, qtype, hops, o)
            && |hops| <= 8 && Follows(env, zs, view, qtype, hops) && Fresh(hops, {Norm(qname)})
            && (hops != [] ==> hops[0] == zr.cnameTarget && Ends(env, zs, view, qtype, hops, {Norm(qname)}, 8))
            && (hops == [] <==> zr.cnameTarget == "" || Norm(zr.cnameTarget) == Norm(qname))
  {
    hide Respond, Norm, Scan, Chase, Hops, Supplied, Follows, Fresh, Ends, AnswersAt;
    var zr := ResponseAt(env, zs, view, qname, qtype);
    LocalIsTheAnswers(env, zs, view, qtype, zr.cnameTarget, {Norm(qname)}, 0);
    RemoteIsSupplied(env, zs, view, qtype, zr.cnameTarget, {Norm(qname)}, 0);
    HopsAreTheChain(env, zs, view, qtype, zr.cnameTarget, {Norm(qname)}, 0);
  }
}
