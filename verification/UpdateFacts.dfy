/** What dynamic updates do to the stored records and which zone they find, told from the
    message and the files alone. */
module UpdateFacts {
  import opened Common
  import opened DnsMessage
  import opened Filters
  import opened Names
  import opened ZoneData
  import opened RecordStore
  import opened DynUpdate

  // ---------- names ----------

  // The name below the zone; that of the zone itself is empty, one outside stays whole.
  lemma NameExactly(fqdn: string, domain: string)
    ensures var name := NormalizeRRName(fqdn, domain);
            && (Norm(fqdn) == Norm(domain) ==> name == "")
            && (Norm(fqdn) != Norm(domain) && HasSuffix(Norm(fqdn), "." + Norm(domain)) ==> Norm(fqdn) == name + "." + Norm(domain))
            && (Norm(fqdn) != Norm(domain) && !HasSuffix(Norm(fqdn), "." + Norm(domain)) ==> name == Norm(fqdn))
  {
    var s, d := Norm(fqdn), Norm(domain);
    if s != d && HasSuffix(s, "." + d) {
      assert s == TrimSuffix(s, "." + d) + ("." + d) == TrimSuffix(s, "." + d) + "." + d;
    }
  }

  // An update speaks of the zone's own name under "@"; a stored record has it under "@" or
  // without a name.
  predicate SpeaksOf(rr: UpdateRR, domain: string, name: string)
  {
    var below := NormalizeRRName(rr.name, domain);
    name == if below == "" then "@" else below
  }

  predicate StoredUnder(rr: UpdateRR, domain: string, r: Record)
  {
    NormalizeRRName(rr.name, domain) == if r.name == "@" then "" else r.name
  }

  // ---------- one update ----------

  predicate Storable(t: RType)
  {
    t in {A, AAAA, CNAME, TXT, PTR}
  }

  predicate IsDeletion(rr: UpdateRR)
  {
    rr.rrclass == NoClass || rr.rrclass == AnyClass
  }

  // The record that a put stores: the data as given, kept for a minute unless a TTL is given.
  predicate IsRecordFor(rr: UpdateRR, domain: string, r: Record)
  {
    SpeaksOf(rr, domain, r.name) && r.rtype == rr.rrtype && r.value == rr.data && r.extra == ""
    && r.ttl == if 0 < rr.ttl then rr.ttl else 60
  }

  predicate Replaced(rr: UpdateRR, domain: string, r: Record)
  {
    SpeaksOf(rr, domain, r.name) && r.rtype == rr.rrtype
  }

  ghost function Others(rr: UpdateRR, domain: string): Record -> bool
  {
    (r: Record) => !Replaced(rr, domain, r)
  }

  // A put replaces the records of its name and type by one, with an id no other has.
  lemma PutExactly(rs: seq<Record>, rr: UpdateRR, domain: string) returns (kept: seq<Record>, r: Record)
    requires rr.rrclass == Inet && Storable(rr.rrtype)
    ensures Updated(rs, rr, domain) == kept + [r] && kept == Filter(rs, Others(rr, domain))
    ensures IsRecordFor(rr, domain, r) && Writes(rs, rr, domain) == |rs| - |kept| + 1
    ensures forall x :: x in kept ==> x.id < r.id
  {
    hide NormalizeRRName;
    FilterSame(rs, Keeps(rr, domain), Others(rr, domain));
    kept := Filter(rs, Keeps(rr, domain));
    var rec := RRToRecord(rr, domain).value;
    assert Added(rr, domain) == Some(rec);
    r := rec.(id := MaxId(kept) + 1);
    assert IsRecordFor(rr, domain, r);
    hide Filter, Put, Keeps, Others, Added, RRToRecord, IsRecordFor;
    PutNew(kept, rec);
    AllBelow(kept);
  }

  lemma AllBelow(rs: seq<Record>)
    ensures forall x :: x in rs ==> x.id < MaxId(rs) + 1
  {
    hide MaxId;
  }

  // A put of another type, or an update of another class, changes nothing.
  lemma UnstorableDoesNothing(rs: seq<Record>, rr: UpdateRR, domain: string)
    requires rr.rrclass == OtherClass || (rr.rrclass == Inet && !Storable(rr.rrtype))
    ensures Updated(rs, rr, domain) == rs && Writes(rs, rr, domain) == 0
  {
    hide NormalizeRRName;
    FilterAll(rs, Keeps(rr, domain));
  }

  // What a deletion means: a value (any, when none can be read from it), a type, or all of the
  // name, which the type ANY and a type without a name ask for.
  predicate Deletes(rr: UpdateRR, domain: string, r: Record)
  {
    && StoredUnder(rr, domain, r)
    && if rr.rrclass == NoClass
       then r.rtype == rr.rrtype && (Storable(rr.rrtype) && rr.data != "" ==> r.value == rr.data)
       else rr.rrtype == ANY || rr.rrtype == Other("") || r.rtype == rr.rrtype
  }

  // A deletion leaves the other records in order, with one write for each that goes.
  lemma DeleteExactly(rs: seq<Record>, rr: UpdateRR, domain: string)
    requires IsDeletion(rr)
    ensures Updated(rs, rr, domain) == Filter(rs, (x: Record) => !Deletes(rr, domain, x))
    ensures Writes(rs, rr, domain) == |rs| - |Updated(rs, rr, domain)|
  {
    hide NormalizeRRName;
    FilterSame(rs, Keeps(rr, domain), (x: Record) => !Deletes(rr, domain, x));
    hide Filter;
  }

  // ---------- a whole message ----------

  // states are the records after each update in turn.
  ghost predicate Stages(rs: seq<Record>, rrs: seq<UpdateRR>, domain: string, states: seq<seq<Record>>)
  {
    && |states| == |rrs| + 1 && states[0] == rs
    && forall i :: 0 <= i < |rrs| ==> states[i + 1] == Updated(states[i], rrs[i], domain)
  }

  // The updates are made in their order, each on what the one before left.
  lemma {:induction false} InOrder(rs: seq<Record>, rrs: seq<UpdateRR>, domain: string, states: seq<seq<Record>>)
    requires Stages(rs, rrs, domain, states)
    ensures UpdatedAll(rs, rrs, domain) == states[|rrs|]
    ensures var n := |rrs| - 1;
            WritesAll(rs, rrs, domain)
              == if rrs == [] then 0 else WritesAll(rs, rrs[..n], domain) + Writes(states[n], rrs[n], domain)
  {
    hide Updated, Writes;
    if rrs != [] {
      InOrder(rs, rrs[..|rrs| - 1], domain, states[..|rrs|]);
    }
  }

  // A message without a zone is malformed; one whose zone is not stored is turned away; one
  // with a deletion, or a put that can be stored, fails when the zone of that domain without
  // a view is not stored; all others succeed.
  lemma AnswerExactly(files: map<string, Zone>, question: Option<string>, updates: seq<UpdateRR>)
    ensures var rcode := Answer(files, question, updates);
            && (rcode == FormatError <==> question.None?)
            && (rcode == NotZone <==> question.Some? && LoadKey(files, TrimDot(question.value)).Err?)
            && (rcode == ServerFailure <==>
                 && question.Some? && LoadKey(files, TrimDot(question.value)).Ok?
                 && LoadKey(files, LoadKey(files, TrimDot(question.value)).value.domain).Err?
                 && exists k :: 0 <= k < |updates| &&
                      (IsDeletion(updates[k]) || (updates[k].rrclass == Inet && Storable(updates[k].rrtype))))
  {
    hide LoadKey;
    forall k | 0 <= k < |updates|
      ensures Touches(updates[k]) <==> IsDeletion(updates[k]) || (updates[k].rrclass == Inet && Storable(updates[k].rrtype))
    {
    }
  }

  // ---------- files ----------

  predicate LowerAlphanumeric(c: char)
  {
    97 <= c as int <= 122 || 48 <= c as int <= 57
  }

  // A domain, written in small letters, makes a file name of letters, digits, dots, dashes and
  // underscores, but for the two names a directory has; a view one of at most 64 characters
  // without dots.
  predicate GoodDomain(d: string)
  {
    d !in ["", ".", ".."] && forall i :: 0 <= i < |d| ==> LowerAlphanumeric(d[i]) || d[i] in ".-_"
  }

  predicate GoodView(view: string)
  {
    view == "" || (|view| <= 64 && forall i :: 0 <= i < |view| ==> LowerAlphanumeric(view[i]) || view[i] in "-_")
  }

  lemma CharExactly(c: char)
    ensures LowerOrDigit(c) <==> LowerAlphanumeric(c)
  {
  }

  lemma DomainExactly(d: string)
    ensures DomainNameOk(d) <==> GoodDomain(d)
  {
    hide LowerOrDigit, LowerAlphanumeric;
    forall i | 0 <= i < |d|
      ensures FilenameChar(d[i]) <==> LowerAlphanumeric(d[i]) || d[i] in ".-_"
    {
      CharExactly(d[i]);
    }
  }

  lemma ViewExactly(view: string)
    ensures GoodView(view) <==> view == "" || ViewNameOk(view)
  {
    hide LowerOrDigit, LowerAlphanumeric;
    forall i | 0 <= i < |view|
      ensures LowerOrDigit(view[i]) <==> LowerAlphanumeric(view[i])
    {
      CharExactly(view[i]);
    }
  }

  lemma FilenameExactly(domain: string, view: string)
    ensures Filename(domain, view) ==
            if GoodDomain(Norm(domain)) && GoodView(view) then Some(Norm(domain) + if view == "" then "" else "@" + view) else None
  {
    DomainExactly(Norm(domain));
    ViewExactly(view);
    hide Norm, GoodDomain, GoodView, DomainNameOk, ViewNameOk;
    assert Norm(domain) + "" == Norm(domain);
    assert Norm(domain) + ("@" + view) == Norm(domain) + "@" + view;
  }

  // A key names a domain, or a domain and a view behind the last "@".
  predicate NamesFile(key: string, domain: string, view: string)
  {
    ('@' !in key && key == domain && view == "") || ('@' !in view && key == domain + "@" + view)
  }

  // A zone is loaded from the file of the domain and view its key names.
  lemma LoadKeyExactly(files: map<string, Zone>, key: string, domain: string, view: string)
    requires NamesFile(key, domain, view)
    ensures var r := LoadKey(files, key);
            if !(GoodDomain(Norm(domain)) && GoodView(view)) then r == Err(InvalidZone)
            else
              var f := Norm(domain) + if view == "" then "" else "@" + view;
              r == if f in files then Ok(files[f]) else Err(ZoneNotFound)
  {
    hide GoodDomain, GoodView, Norm, Filename;
    FilenameExactly(domain, view);
    SplitExactly(key, domain, view);
  }

  lemma {:induction false} SplitExactly(key: string, domain: string, view: string)
    requires NamesFile(key, domain, view)
    ensures SplitZoneKey(key) == (domain, view)
  {
    if '@' !in key && key == domain && view == "" {
      SplitPlain(key);
    } else if view == "" {
      assert key[..|key| - 1] == domain && key[|key| - 1] == '@';
    } else {
      var n := |view| - 1;
      var k := |key| - 1;
      assert key[k] == view[n] != '@';
      assert key[..k] == domain + "@" + view[..n];
      assert key[|domain|] == '@';
      SplitExactly(key[..k], domain, view[..n]);
      assert view[..n] + [view[n]] == view;
      assert |domain| < k;
    }
  }
}
