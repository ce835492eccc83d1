/** Which records of a zone answer a query (matchZoneRecords), and the resource records
    made from them (recordToRR). */
module ZoneAnswer {
  import opened Common
  import opened DnsMessage
  import opened Filters
  import opened Names
  import opened ZoneData
  import opened ZoneIndex

  // ---------- from record to RR ----------

  // Whether a value parses for its type (an IP address, the fields of an SOA).
  type Parser = (RType, string) -> bool

  function ToUint32(x: int): u32
  {
    x % UINT32
  }

  // None for a type that has no wire form, a value that does not parse, and a CNAME at the apex.
  function RecordToRR(parses: Parser, zone: Zone, rec: Record, sub: string): Option<RR>
  {
    var owner := Fqdn(if sub == "@" then zone.domain else sub + "." + zone.domain);
    var own := if ToUint32(rec.ttl) == 0 then 3600 else ToUint32(rec.ttl);
    var ttl: u32 := if zone.ttlOverride > 0 && rec.rtype != SOA then ToUint32(zone.ttlOverride) else own;
    match rec.rtype
    case CNAME => if sub == "@" then None else Some(RR(owner, CNAME, ttl, Fqdn(rec.value)))
    case A | AAAA | SOA => if parses(rec.rtype, rec.value) then Some(RR(owner, rec.rtype, ttl, rec.value)) else None
    case MX | NS | SRV | PTR | DNAME => Some(RR(owner, rec.rtype, ttl, Fqdn(rec.value)))
    case TXT | CAA => Some(RR(owner, rec.rtype, ttl, rec.value))
    case _ => None
  }

  function RRs(parses: Parser, zone: Zone, recs: seq<Record>, sub: string): seq<RR>
  {
    if recs == [] then []
    else
      var rest := RRs(parses, zone, recs[..|recs| - 1], sub);
      match RecordToRR(parses, zone, recs[|recs| - 1], sub)
      case None => rest
      case Some(rr) => rest + [rr]
  }

  method AppendRRs(parses: Parser, answer: seq<RR>, zone: Zone, recs: seq<Record>, sub: string) returns (r: seq<RR>)
    ensures r == answer + RRs(parses, zone, recs, sub)
  {
    r := answer;
    for i := 0 to |recs|
      invariant r == answer + RRs(parses, zone, recs[..i], sub)
    {
      assert recs[..i + 1][..i] == recs[..i];
      var rr := RecordToRR(parses, zone, recs[i], sub);
      if rr.Some? {
        r := r + [rr.value];
      }
    }
    assert recs[..|recs|] == recs;
  }

  // ---------- matching ----------

  datatype Match = Match(matched: seq<Record>, cname: seq<Record>, alias: seq<Record>, nameExists: bool)

  function RecName(r: Record): string
  {
    if r.name == "" then "@" else r.name
  }

  predicate SingleLabel(sub: string)
  {
    '.' !in sub
  }

  predicate TypeMatches(r: Record, qtype: RType)
  {
    qtype == ANY || r.rtype == qtype
  }

  function HasName(name: string): Record -> bool
  {
    (r: Record) => RecName(r) == name
  }

  function Answers(qtype: RType): Record -> bool
  {
    (r: Record) => r.rtype != ALIAS && TypeMatches(r, qtype)
  }

  function IsCname(sub: string): Record -> bool
  {
    (r: Record) => r.rtype == CNAME && sub != "@"
  }

  function IsAlias(): Record -> bool
  {
    (r: Record) => r.rtype == ALIAS
  }

  // The rule of section 4.3.3 of RFC 1034 in two passes: first find the records at the
  // name, falling back to the wildcard; then sort them by their role.
  function AtName(zone: Zone, name: string): seq<Record>
  {
    Filter(zone.records, HasName(name))
  }

  function Candidates(zone: Zone, sub: string): seq<Record>
  {
    var exact := AtName(zone, sub);
    if exact == [] && sub != "@" && SingleLabel(sub) then AtName(zone, "*") else exact
  }

  function TwoPass(zone: Zone, sub: string, qtype: RType): Match
  {
    var cands := Candidates(zone, sub);
    Match(Filter(cands, Answers(qtype)),
          Filter(cands, IsCname(sub)),
          Filter(cands, IsAlias()),
          sub != "@" && cands != [])
  }

  // The conditions under which the single pass puts a record into each of its lists.
  function WhenMatched(sub: string, qtype: RType): Record -> bool
  {
    (r: Record) => RecName(r) == sub && r.rtype != ALIAS && TypeMatches(r, qtype)
  }

  function WhenCname(sub: string): Record -> bool
  {
    (r: Record) => RecName(r) == sub && r.rtype == CNAME && sub != "@"
  }

  function WhenAlias(sub: string): Record -> bool
  {
    (r: Record) => RecName(r) == sub && r.rtype == ALIAS
  }

  predicate Wild(r: Record, sub: string)
  {
    RecName(r) == "*" && sub != "*" && sub != "@" && SingleLabel(sub)
  }

  function WhenWildMatched(sub: string, qtype: RType): Record -> bool
  {
    (r: Record) => Wild(r, sub) && r.rtype != CNAME && r.rtype != ALIAS && TypeMatches(r, qtype)
  }

  function WhenWild(sub: string, rtype: RType): Record -> bool
  {
    (r: Record) => Wild(r, sub) && r.rtype == rtype
  }

  predicate Named(rs: seq<Record>, name: string)
  {
    exists k :: 0 <= k < |rs| && RecName(rs[k]) == name
  }

  predicate NameExists(zone: Zone, sub: string)
  {
    sub != "@" && (Named(zone.records, sub) || (SingleLabel(sub) && Named(zone.records, "*")))
  }

  // The CNAME records at a name do not depend on the type asked for.
  function CnameList(zone: Zone, sub: string): seq<Record>
  {
    Filter(zone.records, WhenCname(sub))
      + (if sub != "@" && !Named(zone.records, sub) then Filter(zone.records, WhenWild(sub, CNAME)) else [])
  }

  // What the single pass returns, list by list.
  function OnePass(zone: Zone, sub: string, qtype: RType): Match
  {
    var rs := zone.records;
    var fallBack := sub != "@" && !Named(rs, sub);
    var wildCname := Filter(rs, WhenWild(sub, CNAME));
    Match(Filter(rs, WhenMatched(sub, qtype))
            + (if fallBack then Filter(rs, WhenWildMatched(sub, qtype)) else [])
            + (if fallBack && (qtype == CNAME || qtype == ANY) then wildCname else []),
          CnameList(zone, sub),
          Filter(rs, WhenAlias(sub)) + (if fallBack then Filter(rs, WhenWild(sub, ALIAS)) else []),
          NameExists(zone, sub))
  }

  // The lists the single pass fills.
  datatype Lists = Lists(matched: seq<Record>, cname: seq<Record>, alias: seq<Record>,
                         wildMatched: seq<Record>, wildCname: seq<Record>, wildAlias: seq<Record>)

  function OneIf(rec: Record, p: Record -> bool): seq<Record>
  {
    if p(rec) then [rec] else []
  }

  // Which lists one record goes to.
  function Places(rec: Record, sub: string, qtype: RType): Lists
  {
    Lists(OneIf(rec, WhenMatched(sub, qtype)), OneIf(rec, WhenCname(sub)), OneIf(rec, WhenAlias(sub)),
          OneIf(rec, WhenWildMatched(sub, qtype)), OneIf(rec, WhenWild(sub, CNAME)), OneIf(rec, WhenWild(sub, ALIAS)))
  }

  function Appended(acc: Lists, more: Lists): Lists
  {
    Lists(acc.matched + more.matched, acc.cname + more.cname, acc.alias + more.alias,
          acc.wildMatched + more.wildMatched, acc.wildCname + more.wildCname, acc.wildAlias + more.wildAlias)
  }

  lemma AppendedNothing(acc: Lists)
    ensures acc.matched + [] == acc.matched && acc.cname + [] == acc.cname && acc.alias + [] == acc.alias
    ensures acc.wildMatched + [] == acc.wildMatched && acc.wildCname + [] == acc.wildCname && acc.wildAlias + [] == acc.wildAlias
  {
  }

  // The body of the loop: a record of another name is skipped, one of the wildcard is kept
  // aside in case there is none of the name itself.
  method Place(acc: Lists, rec: Record, sub: string, qtype: RType) returns (r: Lists)
    ensures r == Appended(acc, Places(rec, sub, qtype))
  {
    AppendedNothing(acc);
    r := acc;
    var recName := RecName(rec);
    if sub == "@" && recName != "@" {
      return;
    }
    if sub != "@" {
      if recName == sub {
      } else if recName == "*" && SingleLabel(sub) {
        r := PlaceWild(acc, rec, sub, qtype);
        return;
      } else {
        return;
      }
    }
    r := PlaceExact(acc, rec, sub, qtype);
  }

  method PlaceWild(acc: Lists, rec: Record, sub: string, qtype: RType) returns (r: Lists)
    requires RecName(rec) != sub && Wild(rec, sub)
    ensures r == Appended(acc, Places(rec, sub, qtype))
  {
    AppendedNothing(acc);
    if rec.rtype == CNAME {
      return acc.(wildCname := acc.wildCname + [rec]);
    }
    if rec.rtype == ALIAS {
      return acc.(wildAlias := acc.wildAlias + [rec]);
    }
    if qtype == ANY || rec.rtype == qtype {
      return acc.(wildMatched := acc.wildMatched + [rec]);
    }
    return acc;
  }

  method PlaceExact(acc: Lists, rec: Record, sub: string, qtype: RType) returns (r: Lists)
    requires RecName(rec) == sub
    ensures r == Appended(acc, Places(rec, sub, qtype))
  {
    AppendedNothing(acc);
    if rec.rtype == CNAME && sub != "@" {
      r := acc.(cname := acc.cname + [rec]);
      if qtype == CNAME || qtype == ANY {
        r := r.(matched := r.matched + [rec]);
      }
      return;
    }
    if rec.rtype == ALIAS {
      return acc.(alias := acc.alias + [rec]);
    }
    if qtype != ANY && rec.rtype != qtype {
      return acc;
    }
    return acc.(matched := acc.matched + [rec]);
  }

  function Scanned(rs: seq<Record>, sub: string, qtype: RType): Lists
  {
    Lists(Filter(rs, WhenMatched(sub, qtype)), Filter(rs, WhenCname(sub)), Filter(rs, WhenAlias(sub)),
          Filter(rs, WhenWildMatched(sub, qtype)), Filter(rs, WhenWild(sub, CNAME)), Filter(rs, WhenWild(sub, ALIAS)))
  }

  lemma ScannedStep(rs: seq<Record>, i: nat, sub: string, qtype: RType)
    requires i < |rs|
    ensures Scanned(rs[..i + 1], sub, qtype) == Appended(Scanned(rs[..i], sub, qtype), Places(rs[i], sub, qtype))
  {
    FilterStep(rs, i, WhenMatched(sub, qtype));
    FilterStep(rs, i, WhenCname(sub));
    FilterStep(rs, i, WhenAlias(sub));
    FilterStep(rs, i, WhenWildMatched(sub, qtype));
    FilterStep(rs, i, WhenWild(sub, CNAME));
    FilterStep(rs, i, WhenWild(sub, ALIAS));
  }

  lemma NamedStep(rs: seq<Record>, i: nat, name: string)
    requires i < |rs|
    ensures Named(rs[..i + 1], name) <==> Named(rs[..i], name) || RecName(rs[i]) == name
  {
    assert rs[..i + 1] == rs[..i] + [rs[i]];
    if Named(rs[..i], name) {
      var k :| 0 <= k < i && RecName(rs[..i][k]) == name;
      assert rs[..i + 1][k] == rs[..i][k];
    }
    assert rs[..i + 1][i] == rs[i];
  }

  method MatchZoneRecords(zone: Zone, sub: string, qtype: RType) returns (m: Match)
    ensures m == OnePass(zone, sub, qtype)
  {
    var acc := Lists([], [], [], [], [], []);
    var hasExact, hasWild := false, false;
    var rs := zone.records;
    for i := 0 to |rs|
      invariant acc == Scanned(rs[..i], sub, qtype)
      invariant hasExact <==> sub != "@" && Named(rs[..i], sub)
      invariant hasWild <==> sub != "@" && SingleLabel(sub) && Named(rs[..i], "*")
    {
      var rec := rs[i];
      ScannedStep(rs, i, sub, qtype);
      NamedStep(rs, i, sub);
      NamedStep(rs, i, "*");
      var recName := RecName(rec);
      if sub != "@" && recName == sub {
        hasExact := true;
      }
      if sub != "@" && recName == "*" && SingleLabel(sub) {
        hasWild := true;
      }
      acc := Place(acc, rec, sub, qtype);
    }
    assert rs[..|rs|] == rs;
    m := Match(acc.matched, acc.cname, acc.alias, hasExact || hasWild);
    if sub != "@" && !hasExact {
      m := m.(matched := m.matched + acc.wildMatched, cname := m.cname + acc.wildCname);
      if qtype == CNAME || qtype == ANY {
        m := m.(matched := m.matched + acc.wildCname);
      }
      m := m.(alias := m.alias + acc.wildAlias);
    }
  }

  lemma NamedMeansSome(zone: Zone, name: string)
    ensures AtName(zone, name) != [] <==> Named(zone.records, name)
  {
    var p := HasName(name);
    if Named(zone.records, name) {
      var k :| 0 <= k < |zone.records| && RecName(zone.records[k]) == name;
      FilterKeeps(zone.records, p, zone.records[k]);
    }
    if AtName(zone, name) != [] {
      assert AtName(zone, name)[0] in zone.records;
    }
  }

  ghost predicate Agree(one: Match, two: Match, qtype: RType)
  {
    && one.cname == two.cname && one.alias == two.alias && one.nameExists == two.nameExists
    && multiset(one.matched) == multiset(two.matched)
    && (qtype != CNAME && qtype != ANY ==> one.matched == two.matched)
  }

  // The single pass equals the two-pass rule: the same CNAME and ALIAS lists, the same
  // records to answer with (a wildcard CNAME asked for by type comes last), the same verdict
  // on whether the name exists.
  lemma OnePassIsTwoPass(zone: Zone, sub: string, qtype: RType)
    ensures Agree(OnePass(zone, sub, qtype), TwoPass(zone, sub, qtype), qtype)
  {
    if sub == "@" || Named(zone.records, sub) {
      ExactAgrees(zone, sub, qtype);
    } else if SingleLabel(sub) && sub != "*" {
      WildAgrees(zone, sub, qtype);
    } else {
      NoneAgrees(zone, sub, qtype);
    }
  }

  lemma ExactAgrees(zone: Zone, sub: string, qtype: RType)
    requires sub == "@" || Named(zone.records, sub)
    ensures Agree(OnePass(zone, sub, qtype), TwoPass(zone, sub, qtype), qtype)
  {
    NamedMeansSome(zone, sub);
    ExactCase(zone, sub, qtype);
    assert Candidates(zone, sub) == AtName(zone, sub);
    assert OnePass(zone, sub, qtype).matched == Filter(zone.records, WhenMatched(sub, qtype));
    assert OnePass(zone, sub, qtype).cname == Filter(zone.records, WhenCname(sub));
    assert OnePass(zone, sub, qtype).alias == Filter(zone.records, WhenAlias(sub));
  }

  lemma WildAgrees(zone: Zone, sub: string, qtype: RType)
    requires sub != "@" && sub != "*" && SingleLabel(sub) && !Named(zone.records, sub)
    ensures Agree(OnePass(zone, sub, qtype), TwoPass(zone, sub, qtype), qtype)
  {
    hide OnePass, Filter, Named, WhenWildMatched, WhenWild, AtName, Answers, IsCname, IsAlias;
    WildOnePass(zone, sub, qtype);
    NamedMeansSome(zone, sub);
    NamedMeansSome(zone, "*");
    WildCase(zone, sub, qtype);
    assert Candidates(zone, sub) == AtName(zone, "*");
  }

  // What the single pass comes to when only the wildcard can match.
  lemma WildOnePass(zone: Zone, sub: string, qtype: RType)
    requires sub != "@" && sub != "*" && SingleLabel(sub) && !Named(zone.records, sub)
    ensures var plain, cnames := Filter(zone.records, WhenWildMatched(sub, qtype)), Filter(zone.records, WhenWild(sub, CNAME));
            OnePass(zone, sub, qtype) ==
            Match(plain + if qtype == CNAME || qtype == ANY then cnames else [],
                  cnames, Filter(zone.records, WhenWild(sub, ALIAS)),
                  Named(zone.records, "*"))
  {
    NothingExact(zone, sub, WhenMatched(sub, qtype));
    NothingExact(zone, sub, WhenCname(sub));
    NothingExact(zone, sub, WhenAlias(sub));
    hide Filter, Named, WhenMatched, WhenCname, WhenAlias, WhenWildMatched, WhenWild;
    var plain, cnames := Filter(zone.records, WhenWildMatched(sub, qtype)), Filter(zone.records, WhenWild(sub, CNAME));
    assert [] + plain == plain && [] + cnames == cnames && plain + [] == plain;
    assert [] + Filter(zone.records, WhenWild(sub, ALIAS)) == Filter(zone.records, WhenWild(sub, ALIAS));
  }

  lemma NoneAgrees(zone: Zone, sub: string, qtype: RType)
    requires sub != "@" && !Named(zone.records, sub) && (sub == "*" || !SingleLabel(sub))
    ensures Agree(OnePass(zone, sub, qtype), TwoPass(zone, sub, qtype), qtype)
  {
    NamedMeansSome(zone, sub);
    NothingExact(zone, sub, WhenMatched(sub, qtype));
    NothingExact(zone, sub, WhenCname(sub));
    NothingExact(zone, sub, WhenAlias(sub));
    NothingWild(zone, sub, WhenWildMatched(sub, qtype));
    NothingWild(zone, sub, WhenWild(sub, CNAME));
    NothingWild(zone, sub, WhenWild(sub, ALIAS));
    assert Candidates(zone, sub) == [];
    assert OnePass(zone, sub, qtype).matched == [];
  }

  lemma ExactCase(zone: Zone, sub: string, qtype: RType)
    ensures var rs, cands := zone.records, AtName(zone, sub);
            && Filter(rs, WhenMatched(sub, qtype)) == Filter(cands, Answers(qtype))
            && Filter(rs, WhenCname(sub)) == Filter(cands, IsCname(sub))
            && Filter(rs, WhenAlias(sub)) == Filter(cands, IsAlias())
  {
    var exact := HasName(sub);
    FilterTwice(zone.records, exact, Answers(qtype), WhenMatched(sub, qtype));
    FilterTwice(zone.records, exact, IsCname(sub), WhenCname(sub));
    FilterTwice(zone.records, exact, IsAlias(), WhenAlias(sub));
  }

  lemma WildCase(zone: Zone, sub: string, qtype: RType)
    requires sub != "@" && sub != "*" && SingleLabel(sub)
    ensures var rs, cands := zone.records, AtName(zone, "*");
            var answers := Filter(cands, Answers(qtype));
            && multiset(Filter(rs, WhenWildMatched(sub, qtype)) +
                        if qtype == CNAME || qtype == ANY then Filter(rs, WhenWild(sub, CNAME)) else [])
               == multiset(answers)
            && (qtype != CNAME && qtype != ANY ==> Filter(rs, WhenWildMatched(sub, qtype)) == answers)
            && Filter(rs, WhenWild(sub, CNAME)) == Filter(cands, IsCname(sub))
            && Filter(rs, WhenWild(sub, ALIAS)) == Filter(cands, IsAlias())
  {
    var rs := zone.records;
    var star := HasName("*");
    FilterTwice(rs, star, IsCname(sub), WhenWild(sub, CNAME));
    FilterTwice(rs, star, IsAlias(), WhenWild(sub, ALIAS));
    var wildAnswers := (r: Record) => Wild(r, sub) && r.rtype != ALIAS && TypeMatches(r, qtype);
    FilterTwice(rs, star, Answers(qtype), wildAnswers);
    if qtype == CNAME || qtype == ANY {
      FilterParts(rs, wildAnswers, WhenWildMatched(sub, qtype), WhenWild(sub, CNAME));
    } else {
      FilterSame(rs, wildAnswers, WhenWildMatched(sub, qtype));
    }
  }

  lemma NothingExact(zone: Zone, sub: string, p: Record -> bool)
    requires forall r :: p(r) ==> RecName(r) == sub
    requires !Named(zone.records, sub)
    ensures Filter(zone.records, p) == []
  {
    FilterNothing(zone.records, p);
  }

  lemma NothingWild(zone: Zone, sub: string, p: Record -> bool)
    requires forall r :: p(r) ==> Wild(r, sub)
    requires sub == "*" || !SingleLabel(sub)
    ensures Filter(zone.records, p) == []
  {
    FilterNothing(zone.records, p);
  }
}
