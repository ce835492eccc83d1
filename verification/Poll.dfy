/** A slave polling its master (applyMasterState): sections gated by checksums of the bytes
    last seen. */
module Poll {
  import opened Common
  import opened ZoneData
  import opened RecordStore

  type Bytes = string

  datatype Section =
    | Zones | ManualDomains | AllowedDomains | WhitelistIPs | AuthConfig | BlocklistPatterns | TSIGKeys | TLSCert | ClientGroups
    | BlocklistURLs | ConfigOverrides | NamedAPIKeys | TLSACMEConfig // reapplied at every poll

  datatype Kind = ZoneReload | BlocklistReload | AuthReload | DDNSKeyReload | ClientGroupsReload | TLSReload

  // The hash is taken as injective, and no bytes hash to the zero a fresh slave starts with.
  datatype Checksum = Zero | Of(data: Bytes)

  // What a section other than the zones decodes to: a certificate and its key, the login
  // configuration and when it was updated; for the others, rest is empty.
  datatype Payload = Payload(text: string, rest: string)

  // How a write of the local store ends. A certificate and its key are two files, the second
  // of which can fail alone.
  datatype Writing = Written | HalfWritten | Unwritten

  datatype Codec = Codec(zones: Bytes -> Option<seq<Zone>>, payload: (Section, Bytes) -> Option<Payload>)

  // One response of the master, how the writes of the local store end while it is applied, and
  // the slave's clock then.
  datatype Response = Response(raw: Section -> Bytes, writes: Section -> Writing, zoneWrites: nat -> bool, clock: string)

  datatype Slave = Slave(prev: map<Section, Checksum>, files: map<string, Zone>, sections: map<Section, Payload>)

  // ---------- one poll ----------

  predicate Gated(sec: Section)
  {
    sec != BlocklistURLs && sec != ConfigOverrides && sec != NamedAPIKeys && sec != TLSACMEConfig
  }

  // The sections that ask for a reload only when they were written.
  predicate HotReload(sec: Section)
  {
    sec == TLSCert || sec == ClientGroups
  }

  function KindOf(sec: Section): Option<Kind>
  {
    match sec
    case Zones => Some(ZoneReload)
    case ManualDomains | AllowedDomains | WhitelistIPs | BlocklistPatterns => Some(BlocklistReload)
    case AuthConfig => Some(AuthReload)
    case TSIGKeys => Some(DDNSKeyReload)
    case ClientGroups => Some(ClientGroupsReload)
    case TLSCert => Some(TLSReload)
    case _ => None
  }

  predicate Present(raw: Bytes)
  {
    raw != "" && raw != "null"
  }

  function PrevOf(s: Slave, sec: Section): Checksum
  {
    if sec in s.prev then s.prev[sec] else Zero
  }

  function ValueOf(s: Slave, sec: Section): Option<Payload>
  {
    if sec in s.sections then Some(s.sections[sec]) else None
  }

  predicate Opens(s: Slave, r: Response, sec: Section)
  {
    Present(r.raw(sec)) && (Gated(sec) ==> PrevOf(s, sec) != Of(r.raw(sec)))
  }

  predicate Decodes(codec: Codec, raw: Bytes, sec: Section)
  {
    if sec == Zones then codec.zones(raw).Some? else codec.payload(sec, raw).Some?
  }

  function PrevAfter(s: Slave, r: Response, sec: Section): Checksum
  {
    if Gated(sec) && Opens(s, r, sec) then Of(r.raw(sec)) else PrevOf(s, sec)
  }

  // What the store holds after a value was to replace the one there. The login configuration
  // is stamped with the slave's own clock.
  function Stored(sec: Section, before: Option<Payload>, v: Payload, r: Response): Option<Payload>
  {
    match r.writes(sec)
    case Written => Some(if sec == AuthConfig then v.(rest := r.clock) else v)
    case HalfWritten => if sec == TLSCert then Some(Payload(v.text, RestOf(before))) else before
    case Unwritten => before
  }

  function RestOf(v: Option<Payload>): string
  {
    if v.Some? then v.value.rest else ""
  }

  function ValueAfter(codec: Codec, s: Slave, r: Response, sec: Section): Option<Payload>
  {
    if sec != Zones && Opens(s, r, sec) && Decodes(codec, r.raw(sec), sec)
    then Stored(sec, ValueOf(s, sec), codec.payload(sec, r.raw(sec)).value, r)
    else ValueOf(s, sec)
  }

  // Each zone of the list replaces the file of its name; one that cannot be written is skipped.
  function ZonesPut(files: map<string, Zone>, zs: seq<Zone>, writes: nat -> bool): map<string, Zone>
  {
    if zs == [] then files
    else
      var n := |zs| - 1;
      var before := ZonesPut(files, zs[..n], writes);
      if Filename(zs[n].domain, zs[n].view).Some? && writes(n) then before[FileOf(zs[n]) := zs[n]] else before
  }

  function FilesAfter(codec: Codec, s: Slave, r: Response): map<string, Zone>
  {
    if Opens(s, r, Zones) && codec.zones(r.raw(Zones)).Some?
    then ZonesPut(s.files, codec.zones(r.raw(Zones)).value, r.zoneWrites)
    else s.files
  }

  predicate Reported(codec: Codec, s: Slave, r: Response, sec: Section)
  {
    Gated(sec) && Opens(s, r, sec) && Decodes(codec, r.raw(sec), sec) && (HotReload(sec) ==> r.writes(sec).Written?)
  }

  ghost predicate Requested(codec: Codec, s: Slave, r: Response, kind: Kind)
  {
    exists sec :: KindOf(sec) == Some(kind) && Reported(codec, s, r, sec)
  }

  ghost predicate SectionDone(codec: Codec, s: Slave, r: Response, s': Slave, sec: Section)
  {
    PrevOf(s', sec) == PrevAfter(s, r, sec) && ValueOf(s', sec) == ValueAfter(codec, s, r, sec)
  }

  ghost predicate SectionKept(s: Slave, s': Slave, sec: Section)
  {
    PrevOf(s', sec) == PrevOf(s, sec) && ValueOf(s', sec) == ValueOf(s, sec)
  }

  // The order in which a poll goes through the sections.
  function Position(sec: Section): nat
  {
    match sec
    case Zones => 0
    case BlocklistURLs => 1
    case ManualDomains => 2
    case AllowedDomains => 3
    case WhitelistIPs => 4
    case AuthConfig => 5
    case ConfigOverrides => 6
    case BlocklistPatterns => 7
    case TSIGKeys => 8
    case NamedAPIKeys => 9
    case TLSACMEConfig => 10
    case TLSCert => 11
    case ClientGroups => 12
  }

  // s' is s with the first n sections applied.
  ghost predicate Progress(codec: Codec, s: Slave, r: Response, s': Slave, n: nat)
  {
    && s'.files == (if 0 < n then FilesAfter(codec, s, r) else s.files)
    && forall sec :: if Position(sec) < n then SectionDone(codec, s, r, s', sec) else SectionKept(s, s', sec)
  }

  // s' is s with this one section applied.
  ghost predicate Applied(codec: Codec, s: Slave, r: Response, s': Slave, sec: Section)
  {
    && s'.files == (if sec == Zones then FilesAfter(codec, s, r) else s.files)
    && SectionDone(codec, s, r, s', sec)
    && forall k :: k != sec ==> SectionKept(s, s', k)
  }

  ghost predicate Polled(codec: Codec, s: Slave, r: Response, s': Slave)
  {
    s'.files == FilesAfter(codec, s, r) && forall sec :: SectionDone(codec, s, r, s', sec)
  }

  lemma NothingDone(codec: Codec, s: Slave, r: Response)
    ensures Progress(codec, s, r, s, 0)
  {
  }

  lemma OneMore(codec: Codec, s: Slave, r: Response, mid: Slave, s': Slave, sec: Section)
    requires Progress(codec, s, r, mid, Position(sec)) && Applied(codec, mid, r, s', sec)
    ensures Progress(codec, s, r, s', Position(sec) + 1)
    ensures Reported(codec, mid, r, sec) == Reported(codec, s, r, sec)
  {
    assert SectionKept(s, mid, sec);
    forall k
      ensures if Position(k) < Position(sec) + 1 then SectionDone(codec, s, r, s', k) else SectionKept(s, s', k)
    {
      if k != sec {
        assert SectionKept(mid, s', k);
        assert Position(k) != Position(sec);
      }
    }
  }

  lemma AllDone(codec: Codec, s: Slave, r: Response, s': Slave)
    requires Progress(codec, s, r, s', 13)
    ensures Polled(codec, s, r, s')
  {
    assert forall sec :: Position(sec) < 13;
  }

  class Poller {
    const codec: Codec
    var prev: map<Section, Checksum> // the checksums of pollState
    var files: map<string, Zone>     // the slave's store
    var sections: map<Section, Payload>

    constructor (codec: Codec, files: map<string, Zone>, sections: map<Section, Payload>)
      ensures this.codec == codec && Now() == Slave(map[], files, sections)
    {
      this.codec, prev, this.files, this.sections := codec, map[], files, sections;
    }

    function Now(): Slave
      reads this
    {
      Slave(prev, files, sections)
    }

    method SectionChanged(sec: Section, data: Bytes) returns (changed: bool)
      modifies `prev
      ensures changed <==> PrevOf(old(Now()), sec) != Of(data)
      ensures prev == if changed then old(prev)[sec := Of(data)] else old(prev)
      ensures forall k :: PrevOf(Now(), k) == if changed && k == sec then Of(data) else PrevOf(old(Now()), k)
      ensures forall k :: ValueOf(Now(), k) == ValueOf(old(Now()), k)
    {
      var h := Of(data);
      if sec in prev {
        if h == prev[sec] {
          return false;
        }
      }
      prev := prev[sec := h];
      return true;
    }

    method ApplyZonesSection(r: Response) returns (changed: bool)
      modifies `prev, `files
      ensures Applied(codec, old(Now()), r, Now(), Zones) && changed == Reported(codec, old(Now()), r, Zones)
    {
      var raw := r.raw(Zones);
      if !Present(raw) {
        return false;
      }
      var different := SectionChanged(Zones, raw);
      if !different {
        return false;
      }
      var zs := codec.zones(raw);
      if zs.None? {
        return false;
      }
      PutZones(zs.value, r);
      return true;
    }

    method PutZones(zs: seq<Zone>, r: Response)
      modifies `files
      ensures files == ZonesPut(old(files), zs, r.zoneWrites)
    {
      hide Filename;
      for i := 0 to |zs|
        invariant files == ZonesPut(old(files), zs[..i], r.zoneWrites)
      {
        assert zs[..i + 1][..i] == zs[..i];
        if Filename(zs[i].domain, zs[i].view).Some? && r.zoneWrites(i) {
          files := files[FileOf(zs[i]) := zs[i]];
        }
      }
      assert zs[..|zs|] == zs;
    }

    // The shape shared by the other gated sections.
    method ApplySection(sec: Section, r: Response) returns (changed: bool)
      requires Gated(sec) && sec != Zones
      modifies `prev, `sections
      ensures Applied(codec, old(Now()), r, Now(), sec) && changed == Reported(codec, old(Now()), r, sec)
    {
      hide FilesAfter, Stored, HotReload, PrevOf, ValueOf, Decodes;
      var raw := r.raw(sec);
      if !Present(raw) {
        return false;
      }
      var different := SectionChanged(sec, raw);
      if !different {
        return false;
      }
      changed := ApplyChanged(sec, r);
    }

    method ApplyChanged(sec: Section, r: Response) returns (changed: bool)
      requires sec != Zones
      modifies `sections
      ensures ValueOf(Now(), sec) ==
              if Decodes(codec, r.raw(sec), sec)
              then Stored(sec, ValueOf(old(Now()), sec), codec.payload(sec, r.raw(sec)).value, r)
              else ValueOf(old(Now()), sec)
      ensures forall k :: k != sec ==> ValueOf(Now(), k) == ValueOf(old(Now()), k)
      ensures forall k :: PrevOf(Now(), k) == PrevOf(old(Now()), k)
      ensures changed <==> Decodes(codec, r.raw(sec), sec) && (HotReload(sec) ==> r.writes(sec).Written?)
    {
      hide Stored, HotReload;
      var v := codec.payload(sec, r.raw(sec));
      if v.None? {
        return false;
      }
      var ok := Store(sec, v.value, r);
      return if HotReload(sec) then ok else true;
    }

    method Store(sec: Section, v: Payload, r: Response) returns (ok: bool)
      requires sec != Zones
      modifies `sections
      ensures ok == r.writes(sec).Written?
      ensures ValueOf(Now(), sec) == Stored(sec, ValueOf(old(Now()), sec), v, r)
      ensures forall k :: k != sec ==> ValueOf(Now(), k) == ValueOf(old(Now()), k)
    {
      match r.writes(sec) {
        case Written =>
          sections := sections[sec := if sec == AuthConfig then v.(rest := r.clock) else v];
          return true;
        case HalfWritten =>
          if sec == TLSCert {
            sections := sections[sec := Payload(v.text, if sec in sections then sections[sec].rest else "")];
          }
          return false;
        case Unwritten =>
          return false;
      }
    }

    method ApplyUngatedSection(sec: Section, r: Response)
      requires !Gated(sec)
      modifies `sections
      ensures Applied(codec, old(Now()), r, Now(), sec)
    {
      hide FilesAfter;
      var raw := r.raw(sec);
      if Present(raw) {
        var _ := ApplyChanged(sec, r);
      }
    }

    // A gated section as one step of a poll that began in s.
    method StepSection(sec: Section, r: Response, ghost s: Slave) returns (changed: bool)
      requires Gated(sec) && sec != Zones && Progress(codec, s, r, Now(), Position(sec))
      modifies `prev, `sections
      ensures Progress(codec, s, r, Now(), Position(sec) + 1) && changed == Reported(codec, s, r, sec)
    {
      hide Progress, Applied, Reported;
      changed := ApplySection(sec, r);
      OneMore(codec, s, r, old(Now()), Now(), sec);
    }

    method StepUngated(sec: Section, r: Response, ghost s: Slave)
      requires !Gated(sec) && Progress(codec, s, r, Now(), Position(sec))
      modifies `sections
      ensures Progress(codec, s, r, Now(), Position(sec) + 1)
    {
      hide Progress, Applied, Reported;
      ApplyUngatedSection(sec, r);
      OneMore(codec, s, r, old(Now()), Now(), sec);
    }

    // The first six sections: zones, the domain lists, the configuration of logins.
    method ApplyFirst(r: Response) returns (zones: bool, lists: bool, auth: bool)
      modifies this
      ensures Progress(codec, old(Now()), r, Now(), 6)
      ensures zones == Reported(codec, old(Now()), r, Zones) && auth == Reported(codec, old(Now()), r, AuthConfig)
      ensures lists <==> Reported(codec, old(Now()), r, ManualDomains) || Reported(codec, old(Now()), r, AllowedDomains)
                         || Reported(codec, old(Now()), r, WhitelistIPs)
    {
      hide Progress, Applied, Reported, Poller.Now;
      ghost var s := Now();
      NothingDone(codec, s, r);
      zones := ApplyZonesSection(r);
      OneMore(codec, s, r, s, Now(), Zones);
      StepUngated(BlocklistURLs, r, s);
      var manualChanged := StepSection(ManualDomains, r, s);
      var allowedChanged := StepSection(AllowedDomains, r, s);
      var whitelistChanged := StepSection(WhitelistIPs, r, s);
      auth := StepSection(AuthConfig, r, s);
      lists := manualChanged || allowedChanged || whitelistChanged;
    }

    method ApplyRest(r: Response, ghost s: Slave) returns (patterns: bool, tsig: bool, tls: bool, clientGroups: bool)
      requires Progress(codec, s, r, Now(), 6)
      modifies this
      ensures Progress(codec, s, r, Now(), 13)
      ensures patterns == Reported(codec, s, r, BlocklistPatterns) && tsig == Reported(codec, s, r, TSIGKeys)
      ensures tls == Reported(codec, s, r, TLSCert) && clientGroups == Reported(codec, s, r, ClientGroups)
    {
      hide Progress, Applied, Reported, Poller.Now;
      StepUngated(ConfigOverrides, r, s);
      patterns := StepSection(BlocklistPatterns, r, s);
      tsig := StepSection(TSIGKeys, r, s);
      StepUngated(NamedAPIKeys, r, s);
      StepUngated(TLSACMEConfig, r, s);
      tls := StepSection(TLSCert, r, s);
      clientGroups := StepSection(ClientGroups, r, s);
    }

    method ApplyMasterState(r: Response) returns (requested: set<Kind>)
      modifies this
      ensures Polled(codec, old(Now()), r, Now())
      ensures forall kind :: kind in requested <==> Requested(codec, old(Now()), r, kind)
    {
      hide Progress, Applied, Reported, Polled, Requested, Poller.Now;
      ghost var s := Now();
      var zonesChanged, listsChanged, authChanged := ApplyFirst(r);
      var patternsChanged, tsigChanged, tlsChanged, clientGroupsChanged := ApplyRest(r, s);
      AllDone(codec, s, r, Now());
      var blocklistChanged := listsChanged || patternsChanged;
      requested := Triggered(zonesChanged, blocklistChanged, authChanged, tsigChanged, clientGroupsChanged, tlsChanged);
      SectionsByKind(codec, s, r);
    }
  }

  // The reloads asked for at the end of a poll.
  function Triggered(zones: bool, blocklist: bool, auth: bool, tsig: bool, clientGroups: bool,
        tls: bool): (kinds: set<Kind>)
    ensures forall kind :: kind in kinds <==>
              match kind
              case ZoneReload => zones
              case BlocklistReload => blocklist
              case AuthReload => auth
              case DDNSKeyReload => tsig
              case ClientGroupsReload => clientGroups
              case TLSReload => tls
  {
    (if zones then {ZoneReload} else {}) + (if blocklist then {BlocklistReload} else {}) + (if auth then {AuthReload} else {})
      + (if tsig then {DDNSKeyReload} else {}) + (if clientGroups then {ClientGroupsReload} else {})
      + (if tls then {TLSReload} else {})
  }

  lemma SectionsByKind(codec: Codec, s: Slave, r: Response)
    ensures Requested(codec, s, r, ZoneReload) <==> Reported(codec, s, r, Zones)
    ensures Requested(codec, s, r, BlocklistReload) <==>
            || Reported(codec, s, r, ManualDomains) || Reported(codec, s, r, AllowedDomains)
            || Reported(codec, s, r, WhitelistIPs) || Reported(codec, s, r, BlocklistPatterns)
    ensures Requested(codec, s, r, AuthReload) <==> Reported(codec, s, r, AuthConfig)
    ensures Requested(codec, s, r, DDNSKeyReload) <==> Reported(codec, s, r, TSIGKeys)
    ensures Requested(codec, s, r, ClientGroupsReload) <==> Reported(codec, s, r, ClientGroups)
    ensures Requested(codec, s, r, TLSReload) <==> Reported(codec, s, r, TLSCert)
  {
    hide Reported;
    assert forall kind, sec :: KindOf(sec) == Some(kind) && Reported(codec, s, r, sec) ==> Requested(codec, s, r, kind);
  }

  // ---------- runs of polls ----------

  ghost predicate PolledAt(codec: Codec, states: seq<Slave>, polls: seq<Response>, i: nat)
    requires i < |polls| && |states| == |polls| + 1
  {
    Polled(codec, states[i], polls[i], states[i + 1])
  }

  // states[i] is the slave before poll i; it starts knowing no checksums, with any store.
  ghost predicate Run(codec: Codec, states: seq<Slave>, polls: seq<Response>)
  {
    && |states| == |polls| + 1
    && states[0].prev == map[]
    && forall i :: 0 <= i < |polls| ==> PolledAt(codec, states, polls, i)
  }

  // The response has something in this section.
  predicate Brings(r: Response, sec: Section)
  {
    r.raw(sec) !in ["", "null"]
  }

  // What the section last read, in the polls before n that brought it.
  function LastSeen(polls: seq<Response>, sec: Section, n: nat): Checksum
    requires n <= |polls|
  {
    if n == 0 then Zero
    else if Brings(polls[n - 1], sec) then Of(polls[n - 1].raw(sec))
    else LastSeen(polls, sec, n - 1)
  }

  lemma {:induction false} ChecksumIsLastSeen(codec: Codec, states: seq<Slave>, polls: seq<Response>,
        sec: Section, n: nat)
    requires Run(codec, states, polls) && n <= |polls| && Gated(sec)
    ensures PrevOf(states[n], sec) == LastSeen(polls, sec, n)
  {
    if 0 < n {
      ChecksumIsLastSeen(codec, states, polls, sec, n - 1);
      assert PolledAt(codec, states, polls, n - 1);
      assert SectionDone(codec, states[n - 1], polls[n - 1], states[n], sec);
    }
  }

  // In poll n the section's bytes differ from those last seen.
  predicate ChangedIn(polls: seq<Response>, sec: Section, n: nat)
    requires n < |polls|
  {
    Brings(polls[n], sec) && LastSeen(polls, sec, n) != Of(polls[n].raw(sec))
  }

  predicate Readable(codec: Codec, r: Response, sec: Section)
  {
    (sec == Zones && codec.zones(r.raw(sec)).Some?) || (sec != Zones && codec.payload(sec, r.raw(sec)).Some?)
  }

  // The sections a reload is for.
  predicate Concerns(kind: Kind, sec: Section)
  {
    match kind
    case ZoneReload => sec == Zones
    case BlocklistReload => sec in {ManualDomains, AllowedDomains, WhitelistIPs, BlocklistPatterns}
    case AuthReload => sec == AuthConfig
    case DDNSKeyReload => sec == TSIGKeys
    case ClientGroupsReload => sec == ClientGroups
    case TLSReload => sec == TLSCert
  }

  lemma ConcernsExactly(kind: Kind, sec: Section)
    ensures Concerns(kind, sec) <==> KindOf(sec) == Some(kind)
    ensures Concerns(kind, sec) ==> Gated(sec)
  {
  }

  // A reload is requested exactly in the polls where the bytes of one of its sections changed
  // (and decode; a certificate or client groups must also have been written).
  lemma ReloadsExactlyOnChange(codec: Codec, states: seq<Slave>, polls: seq<Response>, kind: Kind, n: nat)
    requires Run(codec, states, polls) && n < |polls|
    ensures Requested(codec, states[n], polls[n], kind) <==>
            exists sec :: Concerns(kind, sec) && ChangedIn(polls, sec, n) && Readable(codec, polls[n], sec)
                          && (sec in {TLSCert, ClientGroups} ==> polls[n].writes(sec).Written?)
  {
    forall sec
      ensures KindOf(sec) == Some(kind) && Reported(codec, states[n], polls[n], sec) <==>
              Concerns(kind, sec) && ChangedIn(polls, sec, n) && Readable(codec, polls[n], sec)
              && (sec in {TLSCert, ClientGroups} ==> polls[n].writes(sec).Written?)
    {
      ConcernsExactly(kind, sec);
      hide KindOf, Concerns;
      if Gated(sec) {
        ChecksumIsLastSeen(codec, states, polls, sec, n);
      }
    }
  }

  lemma ValueStep(codec: Codec, states: seq<Slave>, polls: seq<Response>, sec: Section, n: nat)
    requires Run(codec, states, polls) && n < |polls| && Gated(sec) && sec != Zones
    ensures var v := codec.payload(sec, polls[n].raw(sec));
            ValueOf(states[n + 1], sec) ==
            if ChangedIn(polls, sec, n) && v.Some? then Stored(sec, ValueOf(states[n], sec), v.value, polls[n])
            else ValueOf(states[n], sec)
  {
    ChecksumIsLastSeen(codec, states, polls, sec, n);
    assert PolledAt(codec, states, polls, n);
    assert SectionDone(codec, states[n], polls[n], states[n + 1], sec);
    hide Stored, ValueOf, LastSeen;
  }

  // The stored value of a gated section is the one of the last poll that changed its bytes:
  // written then if it could be, and never tried again.
  lemma {:induction false} ValueIsFromLastChange(codec: Codec, states: seq<Slave>, polls: seq<Response>,
        sec: Section, n: nat)
      returns (k: nat)
    requires Run(codec, states, polls) && n <= |polls| && Gated(sec) && sec != Zones && LastSeen(polls, sec, n) != Zero
    ensures k < n && ChangedIn(polls, sec, k) && LastSeen(polls, sec, n) == Of(polls[k].raw(sec))
    ensures var v := codec.payload(sec, polls[k].raw(sec));
            ValueOf(states[n], sec) ==
            if v.Some? then Stored(sec, ValueOf(states[k], sec), v.value, polls[k]) else ValueOf(states[k], sec)
  {
    ValueStep(codec, states, polls, sec, n - 1);
    hide Stored, Run, ValueOf;
    if ChangedIn(polls, sec, n - 1) {
      k := n - 1;
    } else {
      k := ValueIsFromLastChange(codec, states, polls, sec, n - 1);
    }
  }

  // A failed write keeps what was there; of a certificate whose key could not be written, the
  // certificate is new and the key the old one.
  lemma StoredExactly(sec: Section, before: Option<Payload>, v: Payload, r: Response)
    ensures var after := Stored(sec, before, v, r);
            && (r.writes(sec).Written? ==>
                 after.Some? && after.value.text == v.text && after.value.rest == if sec == AuthConfig then r.clock else v.rest)
            && (r.writes(sec).HalfWritten? && sec == TLSCert ==>
                 after.Some? && after.value.text == v.text && after.value.rest == if before.None? then "" else before.value.rest)
            && (r.writes(sec).Unwritten? || (r.writes(sec).HalfWritten? && sec != TLSCert) ==> after == before)
  {
  }

  // The section as the master has it, the stamp on the login configuration aside.
  predicate AsSent(sec: Section, stored: Option<Payload>, v: Payload)
  {
    stored.Some? && stored.value.text == v.text && (sec != AuthConfig ==> stored.value.rest == v.rest)
  }

  // So a poll leaves the section as the master has it, exactly when the write after the last
  // change succeeded, or the old value was the same, or of a certificate only the key could
  // not be written and was the same.
  lemma InSyncExactlyIfWritten(codec: Codec, states: seq<Slave>, polls: seq<Response>, sec: Section,
        n: nat) returns (k: nat)
    requires Run(codec, states, polls) && n < |polls| && Gated(sec) && sec != Zones
    requires Brings(polls[n], sec) && Decodes(codec, polls[n].raw(sec), sec)
    ensures k <= n && ChangedIn(polls, sec, k) && polls[k].raw(sec) == polls[n].raw(sec)
    ensures var v, before := codec.payload(sec, polls[n].raw(sec)).value, ValueOf(states[k], sec);
            AsSent(sec, ValueOf(states[n + 1], sec), v) <==>
            || polls[k].writes(sec).Written?
            || AsSent(sec, before, v)
            || (sec == TLSCert && polls[k].writes(sec).HalfWritten? && RestOf(before) == v.rest)
    ensures sec == AuthConfig && polls[k].writes(sec).Written? ==> RestOf(ValueOf(states[n + 1], sec)) == polls[k].clock
  {
    k := ValueIsFromLastChange(codec, states, polls, sec, n + 1);
  }

  // The other sections are written at every poll.
  lemma UngatedInSync(codec: Codec, states: seq<Slave>, polls: seq<Response>, sec: Section, n: nat)
    requires Run(codec, states, polls) && n < |polls| && sec in {BlocklistURLs, ConfigOverrides, NamedAPIKeys, TLSACMEConfig}
    requires Brings(polls[n], sec) && Decodes(codec, polls[n].raw(sec), sec) && polls[n].writes(sec).Written?
    ensures ValueOf(states[n + 1], sec) == codec.payload(sec, polls[n].raw(sec))
  {
    assert PolledAt(codec, states, polls, n);
    assert SectionDone(codec, states[n], polls[n], states[n + 1], sec);
  }

  // ---------- zones ----------

  // Zone i is the last of the list with its file.
  predicate LastOfItsFile(zs: seq<Zone>, i: nat)
    requires i < |zs|
  {
    Filename(zs[i].domain, zs[i].view).Some? &&
    forall j :: i < j < |zs| ==> Filename(zs[j].domain, zs[j].view) != Filename(zs[i].domain, zs[i].view)
  }

  ghost predicate HoldsAll(files: map<string, Zone>, zs: seq<Zone>)
  {
    forall i :: 0 <= i < |zs| && LastOfItsFile(zs, i) ==> FileOf(zs[i]) in files && files[FileOf(zs[i])] == zs[i]
  }

  lemma {:induction false} PutZoneIsStored(files: map<string, Zone>, zs: seq<Zone>, writes: nat -> bool, i: nat)
    requires i < |zs| && Filename(zs[i].domain, zs[i].view).Some? && writes(i)
    requires forall j :: i < j < |zs| && writes(j) ==> Filename(zs[j].domain, zs[j].view) != Filename(zs[i].domain, zs[i].view)
    ensures var after := ZonesPut(files, zs, writes); FileOf(zs[i]) in after && after[FileOf(zs[i])] == zs[i]
  {
    hide Filename;
    var n := |zs| - 1;
    if i < n {
      assert zs[..n][i] == zs[i];
      PutZoneIsStored(files, zs[..n], writes, i);
    }
  }

  // Files the list does not name, or that cannot be written, stay, so a zone deleted on the
  // master stays on the slave.
  lemma {:induction false} OtherZonesStay(files: map<string, Zone>, zs: seq<Zone>, writes: nat -> bool, f: string)
    requires forall i :: 0 <= i < |zs| && writes(i) ==> Filename(zs[i].domain, zs[i].view) != Some(f)
    ensures var after := ZonesPut(files, zs, writes); (f in after <==> f in files) && (f in files ==> after[f] == files[f])
  {
    hide Filename;
    if zs != [] {
      OtherZonesStay(files, zs[..|zs| - 1], writes, f);
    }
  }

  ghost predicate ZoneWritesSucceed(polls: seq<Response>)
  {
    forall i, k: nat :: 0 <= i < |polls| ==> polls[i].zoneWrites(k)
  }

  // Every zone the master sends is stored as sent, at that poll and as long as the section
  // reads the same.
  lemma {:induction false} SentZonesAreStored(codec: Codec, states: seq<Slave>, polls: seq<Response>, n: nat)
    requires Run(codec, states, polls) && n <= |polls| && ZoneWritesSucceed(polls)
    ensures LastSeen(polls, Zones, n).Of? && codec.zones(LastSeen(polls, Zones, n).data).Some? ==>
              HoldsAll(states[n].files, codec.zones(LastSeen(polls, Zones, n).data).value)
  {
    hide Filename, ZonesPut;
    if 0 < n {
      SentZonesAreStored(codec, states, polls, n - 1);
      ChecksumIsLastSeen(codec, states, polls, Zones, n - 1);
      assert PolledAt(codec, states, polls, n - 1);
      var r := polls[n - 1];
      if Opens(states[n - 1], r, Zones) && codec.zones(r.raw(Zones)).Some? {
        var zs := codec.zones(r.raw(Zones)).value;
        forall i | 0 <= i < |zs| && LastOfItsFile(zs, i)
          ensures FileOf(zs[i]) in states[n].files && states[n].files[FileOf(zs[i])] == zs[i]
        {
          assert r.zoneWrites(i);
          PutZoneIsStored(states[n - 1].files, zs, r.zoneWrites, i);
        }
      }
    }
  }
}
