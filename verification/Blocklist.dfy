/** The blocklist lookup index (BlocklistManager): flat maps rebuilt from per-source sets,
    by a full load or by the arrival of one URL's domains. */
module Blocklist {
  import opened Common
  import opened Names

  // ---------- the store behind it ----------

  datatype URL = URL(id: int, category: string, enabled: bool)
  datatype URLDomainSet = URLDomainSet(urlID: int, category: string, domains: seq<string>)

  // files holds the fetched domains of a URL, once there are any.
  datatype Store = Store(urls: seq<URL>, files: map<int, seq<string>>, manual: seq<string>, allowed: seq<string>,
                         whitelist: seq<string>, wildcards: seq<string>, regexps: seq<string>)

  function Listing(urls: seq<URL>, files: map<int, seq<string>>): seq<URLDomainSet>
  {
    if urls == [] then []
    else
      var u := urls[|urls| - 1];
      Listing(urls[..|urls| - 1], files)
        + if u.enabled && u.id in files then [URLDomainSet(u.id, u.category, files[u.id])] else []
  }

  method GetBlocklistURLSets(s: Store) returns (result: seq<URLDomainSet>)
    ensures result == Listing(s.urls, s.files)
  {
    result := [];
    for i := 0 to |s.urls|
      invariant result == Listing(s.urls[..i], s.files)
    {
      var u := s.urls[i];
      assert s.urls[..i + 1][..i] == s.urls[..i];
      if !u.enabled {
        continue;
      }
      if u.id !in s.files {
        continue;
      }
      result := result + [URLDomainSet(u.id, u.category, s.files[u.id])];
    }
    assert s.urls[..|s.urls|] == s.urls;
  }

  // What the provider hands out; None where a read failed.
  datatype Provider = Provider(urlSets: Option<seq<URLDomainSet>>, manual: Option<seq<string>>, allowed: Option<seq<string>>,
                               whitelist: Option<seq<string>>, patterns: Option<(seq<string>, seq<string>)>)

  function Reading(s: Store): Provider
  {
    Provider(Some(Listing(s.urls, s.files)), Some(s.manual), Some(s.allowed), Some(s.whitelist), Some((s.wildcards, s.regexps)))
  }

  // ---------- what is blocked ----------

  datatype Entry = Entry(category: string, domains: set<string>)

  datatype Content = Content(urls: map<int, Entry>, manual: set<string>, allowed: set<string>,
                             wildcards: seq<string>, regexps: seq<string>, whitelist: seq<string>)

  // The regular expression engine is not part of this model.
  datatype Engine = Engine(compiles: string -> bool, matches: (string, string) -> bool)

  function DomainSet(list: seq<string>): set<string>
  {
    set i | 0 <= i < |list| :: Norm(list[i])
  }

  // Of two sets under one URL id the later one counts.
  function UrlSets(sets: seq<URLDomainSet>, allowed: set<string>): map<int, Entry>
  {
    if sets == [] then map[]
    else
      var us := sets[|sets| - 1];
      UrlSets(sets[..|sets| - 1], allowed)[us.urlID := Entry(us.category, DomainSet(us.domains) - allowed)]
  }

  function Wildcards(patterns: seq<string>): seq<string>
  {
    if patterns == [] then []
    else
      var p := patterns[|patterns| - 1];
      Wildcards(patterns[..|patterns| - 1]) + if "*." <= p then [Lower(p[2..])] else []
  }

  function Undelimited(p: string): string
  {
    if |p| > 2 && p[0] == '/' && p[|p| - 1] == '/' then p[1..|p| - 1] else p
  }

  function Regexps(engine: Engine, patterns: seq<string>): seq<string>
  {
    if patterns == [] then []
    else
      var raw := Undelimited(patterns[|patterns| - 1]);
      Regexps(engine, patterns[..|patterns| - 1]) + if engine.compiles(raw) then [raw] else []
  }

  // Patterns that cannot be read count as none; any other failed read fails the load.
  function Loaded(engine: Engine, p: Provider): Option<Content>
  {
    if p.urlSets.None? || p.manual.None? || p.allowed.None? || p.whitelist.None? then None
    else
      var allowed := DomainSet(p.allowed.value);
      var (wildcards, regexps) := if p.patterns.Some? then p.patterns.value else ([], []);
      Some(Content(UrlSets(p.urlSets.value, allowed), DomainSet(p.manual.value) - allowed, allowed,
                   Wildcards(wildcards), Regexps(engine, regexps), p.whitelist.value))
  }

  function Applied(c: Content, id: int, category: string, domains: seq<string>): Content
  {
    c.(urls := c.urls[id := Entry(category, DomainSet(domains) - c.allowed)])
  }

  ghost predicate ListedIn(c: Content, id: int, name: string, cats: seq<string>)
  {
    id in c.urls && name in c.urls[id].domains && (c.urls[id].category == "" || c.urls[id].category in cats)
  }

  ghost predicate ByList(c: Content, name: string, cats: seq<string>)
  {
    name in c.manual || exists id :: ListedIn(c, id, name, cats)
  }

  ghost predicate ByPattern(engine: Engine, c: Content, name: string)
  {
    || (exists i :: 0 <= i < |c.wildcards| && LabelSuffix(c.wildcards[i], name))
    || (exists i :: 0 <= i < |c.regexps| && engine.matches(c.regexps[i], name))
  }

  // ---------- the flat maps ----------

  ghost predicate Listed(urls: map<int, Entry>, ids: set<int>, category: string, d: string)
  {
    exists id :: id in ids && id in urls && urls[id].category == category && d in urls[id].domains
  }

  predicate InCat(cat: map<string, set<string>>, c: string, d: string)
  {
    c in cat && d in cat[c]
  }

  ghost predicate FlatFor(uncat: set<string>, cat: map<string, set<string>>, urls: map<int, Entry>, ids: set<int>)
  {
    && (forall d :: d in uncat <==> Listed(urls, ids, "", d))
    && (forall c, d :: InCat(cat, c, d) <==> c != "" && Listed(urls, ids, c, d))
  }

  lemma ListedStep(urls: map<int, Entry>, ids: set<int>, id: int, c: string, d: string)
    requires id in urls
    ensures Listed(urls, ids + {id}, c, d) <==> Listed(urls, ids, c, d) || (urls[id].category == c && d in urls[id].domains)
  {
    if Listed(urls, ids + {id}, c, d) {
      var k :| k in ids + {id} && k in urls && urls[k].category == c && d in urls[k].domains;
      assert k == id || k in ids;
    }
  }

  // Adding one entry to the maps.
  lemma FlatStep(uncat: set<string>, cat: map<string, set<string>>, uncat': set<string>,
        cat': map<string, set<string>>, urls: map<int, Entry>, ids: set<int>, id: int)
    requires id in urls && FlatFor(uncat, cat, urls, ids)
    requires uncat' == if urls[id].category == "" then uncat + urls[id].domains else uncat
    requires cat' == if urls[id].category == "" then cat else CatAdded(cat, urls[id].category, urls[id].domains)
    ensures FlatFor(uncat', cat', urls, ids + {id})
  {
    hide Listed;
    hide InCat;
    forall c, d
      ensures Listed(urls, ids + {id}, c, d) <==> Listed(urls, ids, c, d) || (urls[id].category == c && d in urls[id].domains)
    {
      ListedStep(urls, ids, id, c, d);
    }
    if urls[id].category != "" {
      CatAddedHas(cat, urls[id].category, urls[id].domains);
    }
  }

  lemma CatAddedHas(cat: map<string, set<string>>, category: string, domains: set<string>)
    ensures forall c, d ::
              InCat(CatAdded(cat, category, domains), c, d) <==> InCat(cat, c, d) || (c == category && d in domains)
  {
  }

  function CatAdded(cat: map<string, set<string>>, c: string, domains: set<string>): map<string, set<string>>
  {
    cat[c := (if c in cat then cat[c] else {}) + domains]
  }

  lemma FlatOfNone(urls: map<int, Entry>)
    ensures FlatFor({}, map[], urls, {})
  {
  }

  lemma NonEmpty(ids: set<int>)
    ensures ids != {} ==> exists id :: id in ids
  {
    assert (forall id :: id !in ids) ==> ids == {};
  }

  // The first half of rebuildFlatMapsLocked: one pass over the sources, in any order.
  method FlatMaps(urls: map<int, Entry>) returns (uncat: set<string>, cat: map<string, set<string>>)
    ensures FlatFor(uncat, cat, urls, urls.Keys)
  {
    hide FlatFor;
    uncat, cat := {}, map[];
    FlatOfNone(urls);
    var todo := urls.Keys;
    assert urls.Keys - todo == {};
    while todo != {}
      invariant todo <= urls.Keys && FlatFor(uncat, cat, urls, urls.Keys - todo)
    {
      NonEmpty(todo);
      var id :| id in todo;
      var entry := urls[id];
      ghost var uncat0, cat0 := uncat, cat;
      if entry.category == "" {
        uncat := uncat + entry.domains;
      } else {
        if entry.category !in cat {
          cat := cat[entry.category := {}];
        }
        cat := cat[entry.category := cat[entry.category] + entry.domains];
      }
      FlatStep(uncat0, cat0, uncat, cat, urls, urls.Keys - todo, id);
      assert urls.Keys - (todo - {id}) == (urls.Keys - todo) + {id};
      todo := todo - {id};
    }
    assert urls.Keys - {} == urls.Keys;
  }

  class BlocklistManager {
    const engine: Engine
    var uncatDomains: set<string>
    var catDomains: map<string, set<string>>
    var urlSets: map<int, Entry>
    var manualDomains: set<string>
    var allowedDomains: set<string>
    var wildcards: seq<string>
    var regexps: seq<string>
    var whitelist: seq<string>

    constructor (engine: Engine)
      ensures Valid() && Current() == Content(map[], {}, {}, [], [], [])
      ensures this.engine == engine
    {
      this.engine := engine;
      uncatDomains, catDomains, urlSets, manualDomains, allowedDomains := {}, map[], map[], {}, {};
      wildcards, regexps, whitelist := [], [], [];
    }

    ghost function Current(): Content
      reads this
    {
      Content(urlSets, manualDomains, allowedDomains, wildcards, regexps, whitelist)
    }

    // The flat maps are the unions by category of the sources, and no source holds an
    // exempt name.
    ghost predicate Valid()
      reads this
    {
      && (forall d :: d in uncatDomains <==> d in manualDomains || Listed(urlSets, urlSets.Keys, "", d))
      && (forall c, d :: InCat(catDomains, c, d) <==> c != "" && Listed(urlSets, urlSets.Keys, c, d))
      && Exempts(Current())
    }

    method RebuildFlatMaps()
      requires Exempts(Current())
      modifies `uncatDomains, `catDomains
      ensures Valid()
    {
      var uncat, cat := FlatMaps(urlSets);
      uncat := uncat + manualDomains;
      uncatDomains, catDomains := uncat, cat;
    }

    // The sources are read before the lock is taken; a failed read changes nothing.
    method Load(provider: Provider) returns (ok: bool)
      requires Valid()
      modifies this
      ensures Valid() && (ok <==> Loaded(engine, provider).Some?)
      ensures Current() == if ok then Loaded(engine, provider).value else old(Current())
    {
      if provider.urlSets.None? {
        return false;
      }
      if provider.manual.None? {
        return false;
      }
      if provider.allowed.None? {
        return false;
      }
      if provider.whitelist.None? {
        return false;
      }
      var wildcardPatterns: seq<string>, regexpPatterns: seq<string> := [], [];
      if provider.patterns.Some? {
        wildcardPatterns, regexpPatterns := provider.patterns.value.0, provider.patterns.value.1;
      }
      var newWildcards := ParseWildcards(wildcardPatterns);
      var newRegexps := CompileRegexps(engine, regexpPatterns);
      var newAllowed := BuildDomainSet(provider.allowed.value);
      var newManual := BuildFilteredDomainSet(provider.manual.value, newAllowed);
      var newURLSets := BuildFilteredURLSets(provider.urlSets.value, newAllowed);
      LoadedExempts(engine, provider);
      Install(Content(newURLSets, newManual, newAllowed, newWildcards, newRegexps, provider.whitelist.value));
      return true;
    }

    // The part of a load under the lock.
    method Install(c: Content)
      requires Exempts(c)
      modifies this
      ensures Valid() && Current() == c
    {
      urlSets, manualDomains, allowedDomains := c.urls, c.manual, c.allowed;
      whitelist, wildcards, regexps := c.whitelist, c.wildcards, c.regexps;
      RebuildFlatMaps();
    }

    // One URL's domains arrived: only its entry changes.
    method ApplyURLDomains(urlID: int, category: string, domains: seq<string>)
      requires Valid()
      modifies this
      ensures Valid() && Current() == Applied(old(Current()), urlID, category, domains)
    {
      var entry := BuildFilteredDomainSet(domains, allowedDomains);
      urlSets := urlSets[urlID := Entry(category, entry)];
      RebuildFlatMaps();
    }

    method IsBlocked(domain: string, enabledCats: seq<string>) returns (blocked: bool)
      requires Valid()
      ensures blocked <==> ByList(Current(), Norm(domain), enabledCats) || ByPattern(engine, Current(), Norm(domain))
    {
      var normalized := Norm(domain);
      var catHit := false;
      for i := 0 to |enabledCats|
        invariant catHit <==> exists k :: 0 <= k < i && InCat(catDomains, enabledCats[k], normalized)
      {
        if enabledCats[i] in catDomains {
          if normalized in catDomains[enabledCats[i]] {
            catHit := true;
            assert InCat(catDomains, enabledCats[i], normalized);
            break;
          }
        }
      }
      FlatAnswers(Current(), uncatDomains, catDomains, normalized, enabledCats);
      if normalized in uncatDomains || catHit {
        return true;
      }
      for i := 0 to |wildcards|
        invariant forall k :: 0 <= k < i ==> !LabelSuffix(wildcards[k], normalized)
      {
        if normalized == wildcards[i] || HasSuffix(normalized, "." + wildcards[i]) {
          assert LabelSuffix(Current().wildcards[i], normalized);
          return true;
        }
      }
      for i := 0 to |regexps|
        invariant forall k :: 0 <= k < i ==> !engine.matches(regexps[k], normalized)
      {
        if engine.matches(regexps[i], normalized) {
          assert engine.matches(Current().regexps[i], normalized);
          return true;
        }
      }
      return false;
    }
  }

  // The two lookups in the flat maps answer for all sources together.
  lemma FlatAnswers(c: Content, uncat: set<string>, cat: map<string, set<string>>, name: string, cats: seq<string>)
    requires forall d :: d in uncat <==> d in c.manual || Listed(c.urls, c.urls.Keys, "", d)
    requires forall k, d :: InCat(cat, k, d) <==> k != "" && Listed(c.urls, c.urls.Keys, k, d)
    ensures ByList(c, name, cats) <==> name in uncat || exists k :: 0 <= k < |cats| && InCat(cat, cats[k], name)
  {
    if ByList(c, name, cats) && name !in c.manual {
      var id :| ListedIn(c, id, name, cats);
      assert Listed(c.urls, c.urls.Keys, c.urls[id].category, name);
      if c.urls[id].category != "" {
        var k :| 0 <= k < |cats| && cats[k] == c.urls[id].category;
        assert InCat(cat, cats[k], name);
      }
    }
    if name in uncat && name !in c.manual {
      var id :| id in c.urls && c.urls[id].category == "" && name in c.urls[id].domains;
      assert ListedIn(c, id, name, cats);
    }
    if k :| 0 <= k < |cats| && InCat(cat, cats[k], name) {
      var id :| id in c.urls && c.urls[id].category == cats[k] && name in c.urls[id].domains;
      assert ListedIn(c, id, name, cats);
    }
  }

  // ---------- building the sets ----------

  method BuildDomainSet(list: seq<string>) returns (r: set<string>)
    ensures r == DomainSet(list)
  {
    r := {};
    for i := 0 to |list|
      invariant r == DomainSet(list[..i])
    {
      DomainSetStep(list, i);
      r := r + {Norm(list[i])};
    }
    assert list[..|list|] == list;
  }

  lemma DomainSetStep(list: seq<string>, i: nat)
    requires i < |list|
    ensures DomainSet(list[..i + 1]) == DomainSet(list[..i]) + {Norm(list[i])}
  {
    hide Norm;
    var longer, shorter := list[..i + 1], list[..i];
    forall d | d in DomainSet(longer)
      ensures d in DomainSet(shorter) + {Norm(list[i])}
    {
      var k :| 0 <= k < i + 1 && Norm(longer[k]) == d;
      assert k < i ==> shorter[k] == longer[k];
    }
    forall d | d in DomainSet(shorter)
      ensures d in DomainSet(longer)
    {
      var k :| 0 <= k < i && Norm(shorter[k]) == d;
      assert longer[k] == shorter[k];
    }
    assert longer[i] == list[i];
  }

  method BuildFilteredDomainSet(list: seq<string>, allowed: set<string>) returns (r: set<string>)
    ensures r == DomainSet(list) - allowed
  {
    r := {};
    for i := 0 to |list|
      invariant r == DomainSet(list[..i]) - allowed
    {
      DomainSetStep(list, i);
      var norm := Norm(list[i]);
      if norm !in allowed {
        r := r + {norm};
      }
    }
    assert list[..|list|] == list;
  }

  method BuildFilteredURLSets(sets: seq<URLDomainSet>, allowed: set<string>) returns (r: map<int, Entry>)
    ensures r == UrlSets(sets, allowed)
  {
    hide DomainSet;
    r := map[];
    for i := 0 to |sets|
      invariant r == UrlSets(sets[..i], allowed)
    {
      assert sets[..i + 1][..i] == sets[..i];
      var domains := BuildFilteredDomainSet(sets[i].domains, allowed);
      r := r[sets[i].urlID := Entry(sets[i].category, domains)];
    }
    assert sets[..|sets|] == sets;
  }

  method ParseWildcards(patterns: seq<string>) returns (r: seq<string>)
    ensures r == Wildcards(patterns)
  {
    r := [];
    for i := 0 to |patterns|
      invariant r == Wildcards(patterns[..i])
    {
      assert patterns[..i + 1][..i] == patterns[..i];
      if "*." <= patterns[i] {
        r := r + [Lower(patterns[i][2..])];
      }
    }
    assert patterns[..|patterns|] == patterns;
  }

  method CompileRegexps(engine: Engine, patterns: seq<string>) returns (r: seq<string>)
    ensures r == Regexps(engine, patterns)
  {
    r := [];
    for i := 0 to |patterns|
      invariant r == Regexps(engine, patterns[..i])
    {
      assert patterns[..i + 1][..i] == patterns[..i];
      var raw := Undelimited(patterns[i]);
      if !engine.compiles(raw) {
        continue;
      }
      r := r + [raw];
    }
    assert patterns[..|patterns|] == patterns;
  }

  // ---------- exempt names ----------

  ghost predicate Exempts(c: Content)
  {
    c.manual !! c.allowed && forall id :: id in c.urls ==> c.urls[id].domains !! c.allowed
  }

  lemma {:induction false} UrlSetsExempt(sets: seq<URLDomainSet>, allowed: set<string>, id: int)
    requires id in UrlSets(sets, allowed)
    ensures UrlSets(sets, allowed)[id].domains !! allowed
  {
    if sets[|sets| - 1].urlID != id {
      UrlSetsExempt(sets[..|sets| - 1], allowed, id);
    }
  }

  lemma LoadedExempts(engine: Engine, p: Provider)
    requires Loaded(engine, p).Some?
    ensures Exempts(Loaded(engine, p).value)
  {
    var c := Loaded(engine, p).value;
    forall id | id in c.urls
      ensures c.urls[id].domains !! c.allowed
    {
      UrlSetsExempt(p.urlSets.value, c.allowed, id);
    }
  }

  // An exempt name is blocked only by a pattern, and then it is blocked.
  lemma ExemptBlockedOnlyByPattern(engine: Engine, c: Content, name: string, cats: seq<string>)
    requires Exempts(c) && name in c.allowed
    ensures (ByList(c, name, cats) || ByPattern(engine, c, name)) <==> ByPattern(engine, c, name)
  {
    forall id
      ensures !ListedIn(c, id, name, cats)
    {
    }
  }

  // ---------- one URL's event against a full reload ----------

  // The category the receiver looks up for the event: that of the first URL with this id.
  function UrlCategory(urls: seq<URL>, id: int): string
  {
    if urls == [] then "" else if urls[0].id == id then urls[0].category else UrlCategory(urls[1..], id)
  }

  // The category under which a reload lists the URL, if it lists it.
  function EnabledCategory(urls: seq<URL>, id: int): Option<string>
  {
    if urls == [] then None
    else if urls[|urls| - 1].enabled && urls[|urls| - 1].id == id then Some(urls[|urls| - 1].category)
    else EnabledCategory(urls[..|urls| - 1], id)
  }

  function Written(s: Store, id: int, domains: seq<string>): Store
  {
    s.(files := s.files[id := domains])
  }

  lemma {:induction false} ListingAt(urls: seq<URL>, files: map<int, seq<string>>, allowed: set<string>, id: int)
    ensures var m := UrlSets(Listing(urls, files), allowed);
            if id in files && EnabledCategory(urls, id).Some?
            then id in m && m[id] == Entry(EnabledCategory(urls, id).value, DomainSet(files[id]) - allowed)
            else id !in m
  {
    hide DomainSet;
    if urls != [] {
      var n := |urls| - 1;
      ListingAt(urls[..n], files, allowed, id);
      var u, before := urls[n], Listing(urls[..n], files);
      if u.enabled && u.id in files {
        var s := URLDomainSet(u.id, u.category, files[u.id]);
        assert (before + [s])[..|before|] == before;
      } else {
        assert before + [] == before;
      }
    }
  }

  // Writing one URL's file changes the listing at that URL only.
  lemma ListingWritten(urls: seq<URL>, files: map<int, seq<string>>, allowed: set<string>, id: int,
        domains: seq<string>)
    ensures var before, after := UrlSets(Listing(urls, files), allowed), UrlSets(Listing(urls, files[id := domains]), allowed);
            && (EnabledCategory(urls, id).None? ==> after == before - {id})
            && (EnabledCategory(urls, id).Some? ==>
                 after == before[id := Entry(EnabledCategory(urls, id).value, DomainSet(domains) - allowed)])
  {
    hide DomainSet, Listing, UrlSets, EnabledCategory;
    ListingAt(urls, files[id := domains], allowed, id);
    var before, after := UrlSets(Listing(urls, files), allowed), UrlSets(Listing(urls, files[id := domains]), allowed);
    forall k
      ensures k != id ==> (k in before <==> k in after)
      ensures k != id && k in before ==> before[k] == after[k]
    {
      ListingAt(urls, files, allowed, k);
      ListingAt(urls, files[id := domains], allowed, k);
    }
  }

  // Storing a URL's domains and applying them in memory gives what a full reload would give,
  // exactly when the reload lists the URL under the category the receiver looked up.
  lemma EventEqualsReload(engine: Engine, s: Store, id: int, domains: seq<string>)
    ensures Applied(Loaded(engine, Reading(s)).value, id, UrlCategory(s.urls, id), domains)
              == Loaded(engine, Reading(Written(s, id, domains))).value
            <==> EnabledCategory(s.urls, id) == Some(UrlCategory(s.urls, id))
  {
    hide DomainSet, Listing, UrlSets, EnabledCategory, UrlCategory, Wildcards, Regexps;
    ListingWritten(s.urls, s.files, DomainSet(s.allowed), id, domains);
    var applied := Applied(Loaded(engine, Reading(s)).value, id, UrlCategory(s.urls, id), domains);
    assert id in applied.urls && applied.urls[id].category == UrlCategory(s.urls, id);
  }

  // The same names are in a list, whatever categories are looked up.
  ghost predicate SameLists(c: Content, c': Content)
  {
    forall name, cats :: ByList(c, name, cats) <==> ByList(c', name, cats)
  }

  // One more source of names, under a category, if any.
  function WithSource(rest: Content, id: int, category: Option<string>, domains: set<string>): Content
  {
    if category.None? then rest else rest.(urls := rest.urls[id := Entry(category.value, domains)])
  }

  lemma SourceAdds(rest: Content, id: int, category: string, domains: set<string>, name: string, cats: seq<string>)
    requires id !in rest.urls
    ensures ByList(WithSource(rest, id, Some(category), domains), name, cats) <==>
            ByList(rest, name, cats) || (name in domains && (category == "" || category in cats))
  {
    hide ListedIn;
    var c := WithSource(rest, id, Some(category), domains);
    assert c.manual == rest.manual;
    SourceAddsAt(rest, id, category, domains, id, name, cats);
    forall k
      ensures ListedIn(c, k, name, cats) <==>
              ListedIn(rest, k, name, cats) || (k == id && name in domains && (category == "" || category in cats))
    {
      SourceAddsAt(rest, id, category, domains, k, name, cats);
    }
  }

  lemma SourceAddsAt(rest: Content, id: int, category: string, domains: set<string>, k: int, name: string, cats: seq<string>)
    requires id !in rest.urls
    ensures ListedIn(WithSource(rest, id, Some(category), domains), k, name, cats) <==>
            ListedIn(rest, k, name, cats) || (k == id && name in domains && (category == "" || category in cats))
  {
  }

  // A name listed for one category is listed for every lookup with that category.
  lemma ListedForMore(c: Content, name: string, category: string, cats: seq<string>)
    requires ByList(c, name, [category]) && (category == "" || category in cats)
    ensures ByList(c, name, cats)
  {
    if name !in c.manual {
      var id :| ListedIn(c, id, name, [category]);
      assert ListedIn(c, id, name, cats);
    }
  }

  // The other sources list every name of this one already, under its category.
  ghost predicate Redundant(rest: Content, category: string, domains: set<string>)
  {
    forall d :: d in domains ==> ByList(rest, d, [category])
  }

  // One source under this or that category, or under none, makes no difference to any lookup
  // exactly if it is the same category or the source is redundant under both.
  lemma CategoryDoesNotShow(rest: Content, id: int, a: string, b: Option<string>, domains: set<string>)
    requires id !in rest.urls
    ensures SameLists(WithSource(rest, id, Some(a), domains), WithSource(rest, id, b, domains)) <==>
            b == Some(a) || (Redundant(rest, a, domains) && (b.Some? ==> Redundant(rest, b.value, domains)))
  {
    hide ByList, WithSource;
    var c, c' := WithSource(rest, id, Some(a), domains), WithSource(rest, id, b, domains);
    forall name, cats
      ensures ByList(c, name, cats) <==> ByList(rest, name, cats) || (name in domains && (a == "" || a in cats))
      ensures ByList(c', name, cats) <==>
              ByList(rest, name, cats) || (b.Some? && name in domains && (b.value == "" || b.value in cats))
    {
      SourceAdds(rest, id, a, domains, name, cats);
      WithNone(rest, id, domains);
      if b.Some? {
        SourceAdds(rest, id, b.value, domains, name, cats);
      }
    }
    if b != Some(a) {
      if SameLists(c, c') {
        forall d | d in domains
          ensures ByList(rest, d, [a]) && (b.Some? ==> ByList(rest, d, [b.value]))
        {
          BothListed(rest, c, c', a, b, d);
        }
      }
      if Redundant(rest, a, domains) && (b.Some? ==> Redundant(rest, b.value, domains)) {
        forall name, cats
          ensures ByList(c, name, cats) <==> ByList(c', name, cats)
        {
          if name in domains && (a == "" || a in cats) {
            ListedForMore(rest, name, a, cats);
          }
          if b.Some? && name in domains && (b.value == "" || b.value in cats) {
            ListedForMore(rest, name, b.value, cats);
          }
        }
      }
    }
  }

  lemma WithNone(rest: Content, id: int, domains: set<string>)
    ensures WithSource(rest, id, None, domains) == rest
  {
  }

  // Lookups that cannot tell the categories apart find the name in the other sources.
  lemma BothListed(rest: Content, c: Content, c': Content, a: string, b: Option<string>, d: string)
    requires b != Some(a) && SameLists(c, c')
    requires forall cats :: ByList(c, d, cats) <==> ByList(rest, d, cats) || a == "" || a in cats
    requires forall cats :: ByList(c', d, cats) <==> ByList(rest, d, cats) || (b.Some? && (b.value == "" || b.value in cats))
    ensures ByList(rest, d, [a]) && (b.Some? ==> ByList(rest, d, [b.value]))
  {
    hide ByList;
    assert ByList(c, d, [a]);
    assert ByList(c, d, []) <==> ByList(c', d, []);
    if ByList(rest, d, []) {
      ListedAnyway(rest, d, [a]);
      if b.Some? {
        ListedAnyway(rest, d, [b.value]);
      }
    }
    assert b.Some? ==> ByList(c', d, [b.value]);
  }

  lemma ListedAnyway(c: Content, name: string, cats: seq<string>)
    requires ByList(c, name, [])
    ensures ByList(c, name, cats)
  {
    if name !in c.manual {
      var id :| ListedIn(c, id, name, []);
      assert ListedIn(c, id, name, cats);
    }
  }

  // What lookups can tell of it: after the event they find the same as after a reload exactly
  // if the reload lists the URL under that category, or the other sources list every domain
  // that is not exempt under both categories anyway.
  lemma EventBlocksLikeReload(engine: Engine, s: Store, id: int, domains: seq<string>)
    ensures var before := Loaded(engine, Reading(s)).value;
            var category, relisted := UrlCategory(s.urls, id), EnabledCategory(s.urls, id);
            var rest := before.(urls := before.urls - {id});
            var effective := DomainSet(domains) - DomainSet(s.allowed);
            SameLists(Applied(before, id, category, domains), Loaded(engine, Reading(Written(s, id, domains))).value)
            <==> relisted == Some(category)
                 || (Redundant(rest, category, effective) && (relisted.Some? ==> Redundant(rest, relisted.value, effective)))
  {
    hide DomainSet, Listing, UrlSets, EnabledCategory, UrlCategory, Wildcards, Regexps, SameLists, Redundant;
    var before := Loaded(engine, Reading(s)).value;
    var category, relisted := UrlCategory(s.urls, id), EnabledCategory(s.urls, id);
    var rest := before.(urls := before.urls - {id});
    var effective := DomainSet(domains) - DomainSet(s.allowed);
    ListingWritten(s.urls, s.files, DomainSet(s.allowed), id, domains);
    assert Applied(before, id, category, domains) == WithSource(rest, id, Some(category), effective);
    assert Loaded(engine, Reading(Written(s, id, domains))).value == WithSource(rest, id, relisted, effective);
    CategoryDoesNotShow(rest, id, category, relisted, effective);
  }

  ghost predicate DistinctIds(urls: seq<URL>)
  {
    forall i, j :: 0 <= i < j < |urls| ==> urls[i].id != urls[j].id
  }

  lemma {:induction false} FirstIsAt(urls: seq<URL>, i: nat)
    requires DistinctIds(urls) && i < |urls|
    ensures UrlCategory(urls, urls[i].id) == urls[i].category
  {
    if 0 < i {
      assert DistinctIds(urls[1..]);
      FirstIsAt(urls[1..], i - 1);
    }
  }

  lemma {:induction false} EnabledIsAt(urls: seq<URL>, i: nat)
    requires DistinctIds(urls) && i < |urls| && urls[i].enabled
    ensures EnabledCategory(urls, urls[i].id) == Some(urls[i].category)
  {
    if i < |urls| - 1 {
      assert DistinctIds(urls[..|urls| - 1]);
      EnabledIsAt(urls[..|urls| - 1], i);
    }
  }

  // An event brings new domains for the URL at some position of the list.
  datatype Event = Event(at: nat, domains: seq<string>)

  function AfterEvents(c: Content, urls: seq<URL>, events: seq<Event>): Content
    requires forall k :: 0 <= k < |events| ==> events[k].at < |urls|
  {
    if events == [] then c
    else
      var e := events[|events| - 1];
      Applied(AfterEvents(c, urls, events[..|events| - 1]), urls[e.at].id, UrlCategory(urls, urls[e.at].id), e.domains)
  }

  function StoreAfter(s: Store, events: seq<Event>): Store
    requires forall k :: 0 <= k < |events| ==> events[k].at < |s.urls|
    ensures StoreAfter(s, events).urls == s.urls
  {
    if events == [] then s
    else
      var e := events[|events| - 1];
      Written(StoreAfter(s, events[..|events| - 1]), s.urls[e.at].id, e.domains)
  }

  // However many events for enabled URLs arrive after a load, no reload would change anything.
  lemma {:induction false} EventsEqualReload(engine: Engine, s: Store, events: seq<Event>)
    requires DistinctIds(s.urls)
    requires forall k :: 0 <= k < |events| ==> events[k].at < |s.urls| && s.urls[events[k].at].enabled
    ensures AfterEvents(Loaded(engine, Reading(s)).value, s.urls, events)
         == Loaded(engine, Reading(StoreAfter(s, events))).value
  {
    hide Loaded, Applied;
    if events != [] {
      var n := |events| - 1;
      EventsEqualReload(engine, s, events[..n]);
      var e := events[n];
      FirstIsAt(s.urls, e.at);
      EnabledIsAt(s.urls, e.at);
      EventEqualsReload(engine, StoreAfter(s, events[..n]), s.urls[e.at].id, e.domains);
    }
  }

  // ---------- events while a reload is under way ----------

  // What the URL's file blocks, once the exempt names are out.
  function Effective(s: Store, id: int): Option<set<string>>
  {
    if id in s.files then Some(DomainSet(s.files[id]) - DomainSet(s.allowed)) else None
  }

  ghost predicate Brings(urls: seq<URL>, events: seq<Event>, id: int)
    requires forall k :: 0 <= k < |events| ==> events[k].at < |urls|
  {
    exists k :: 0 <= k < |events| && urls[events[k].at].id == id
  }

  lemma {:induction false} StoreAfterMore(s: Store, early: seq<Event>, late: seq<Event>)
    requires forall k :: 0 <= k < |early| ==> early[k].at < |s.urls|
    requires forall k :: 0 <= k < |late| ==> late[k].at < |s.urls|
    ensures StoreAfter(s, early + late) == StoreAfter(StoreAfter(s, early), late)
  {
    if late == [] {
      assert early + late == early;
    } else {
      var n := |late| - 1;
      StoreAfterMore(s, early, late[..n]);
      assert (early + late)[..|early| + n] == early + late[..n];
    }
  }

  // An event's file does not depend on what was there before; the other files stay.
  lemma {:induction false} StoreAfterAt(s: Store, s': Store, events: seq<Event>, id: int)
    requires s'.urls == s.urls && forall k :: 0 <= k < |events| ==> events[k].at < |s.urls|
    ensures var after, after' := StoreAfter(s, events), StoreAfter(s', events);
            && after == s.(files := after.files)
            && if Brings(s.urls, events, id)
               then id in after.files && id in after'.files && after.files[id] == after'.files[id]
               else (id in after.files <==> id in s.files) && (id in s.files ==> after.files[id] == s.files[id])
  {
    if events != [] {
      var n := |events| - 1;
      StoreAfterAt(s, s', events[..n], id);
      if Brings(s.urls, events[..n], id) {
        var k :| 0 <= k < n && s.urls[events[..n][k].at].id == id;
        assert events[k] == events[..n][k];
      }
      if Brings(s.urls, events, id) && s.urls[events[n].at].id != id {
        var k :| 0 <= k < |events| && s.urls[events[k].at].id == id;
        assert events[..n][k] == events[k];
      }
    }
  }

  // Two stores with the same lists load alike exactly if each enabled URL blocks the same.
  lemma LoadsAlike(engine: Engine, s: Store, s': Store)
    requires s' == s.(files := s'.files)
    ensures Loaded(engine, Reading(s)) == Loaded(engine, Reading(s')) <==>
            forall id :: EnabledCategory(s.urls, id).Some? ==> Effective(s, id) == Effective(s', id)
  {
    hide DomainSet, Listing, UrlSets, EnabledCategory, Wildcards, Regexps;
    var allowed := DomainSet(s.allowed);
    var m, m' := UrlSets(Listing(s.urls, s.files), allowed), UrlSets(Listing(s.urls, s'.files), allowed);
    forall id
      ensures if id in s.files && EnabledCategory(s.urls, id).Some?
              then id in m && m[id] == Entry(EnabledCategory(s.urls, id).value, DomainSet(s.files[id]) - allowed)
              else id !in m
      ensures if id in s'.files && EnabledCategory(s.urls, id).Some?
              then id in m' && m'[id] == Entry(EnabledCategory(s.urls, id).value, DomainSet(s'.files[id]) - allowed)
              else id !in m'
    {
      ListingAt(s.urls, s.files, allowed, id);
      ListingAt(s.urls, s'.files, allowed, id);
    }
    assert Loaded(engine, Reading(s)) == Loaded(engine, Reading(s')) <==> m == m';
    if forall id :: EnabledCategory(s.urls, id).Some? ==> Effective(s, id) == Effective(s', id) {
      forall id
        ensures (id in m <==> id in m') && (id in m ==> m[id] == m'[id])
      {
        assert Effective(s, id) == Effective(s', id) || EnabledCategory(s.urls, id).None?;
      }
    } else {
      var id :| EnabledCategory(s.urls, id).Some? && Effective(s, id) != Effective(s', id);
      assert id in m ==> id !in m' || m[id] != m'[id];
    }
  }

  lemma LoadedSome(engine: Engine, s: Store)
    ensures Loaded(engine, Reading(s)).Some?
  {
  }

  lemma EffectiveAfter(s: Store, early: seq<Event>, late: seq<Event>, id: int)
    requires forall k :: 0 <= k < |early| ==> early[k].at < |s.urls|
    requires forall k :: 0 <= k < |late| ==> late[k].at < |s.urls|
    ensures var s' := StoreAfter(s, early);
            var one, two := StoreAfter(s, late), StoreAfter(s', late);
            && one.urls == two.urls == s.urls && two == one.(files := two.files)
            && (if Brings(s.urls, late, id) then Effective(one, id) == Effective(two, id)
                else Effective(one, id) == Effective(s, id) && Effective(two, id) == Effective(s', id))
            && (!Brings(s.urls, early, id) ==> Effective(s, id) == Effective(s', id))
  {
    hide DomainSet;
    var s' := StoreAfter(s, early);
    StoreAfterAt(s, s', early, id);
    StoreAfterAt(s, s', late, id);
    StoreAfterAt(s', s, late, id);
  }

  // A load reads the store first and installs later. Events that are stored and applied in
  // between (early) are overwritten by the installation, those after it (late) are applied to
  // it. What is installed in the end is what a reload would give exactly if each URL of an
  // early event blocks what it did when the store was read, or comes again late.
  lemma EventsLostExactly(engine: Engine, s: Store, early: seq<Event>, late: seq<Event>)
    requires DistinctIds(s.urls)
    requires forall k :: 0 <= k < |early| ==> early[k].at < |s.urls| && s.urls[early[k].at].enabled
    requires forall k :: 0 <= k < |late| ==> late[k].at < |s.urls| && s.urls[late[k].at].enabled
    ensures AfterEvents(Loaded(engine, Reading(s)).value, s.urls, late)
              == Loaded(engine, Reading(StoreAfter(s, early + late))).value
            <==> forall k :: 0 <= k < |early| ==>
                   var id := s.urls[early[k].at].id;
                   Brings(s.urls, late, id) || Effective(s, id) == Effective(StoreAfter(s, early), id)
  {
    hide Loaded, Reading, DomainSet, EnabledCategory, AfterEvents, StoreAfter, Effective;
    var s' := StoreAfter(s, early);
    var one, two := StoreAfter(s, late), StoreAfter(s', late);
    EventsEqualReload(engine, s, late);
    StoreAfterMore(s, early, late);
    EffectiveAfter(s, early, late, 0);
    LoadsAlike(engine, one, two);
    LoadedSome(engine, one);
    LoadedSome(engine, two);
    forall id
      ensures Brings(s.urls, late, id) ==> Effective(one, id) == Effective(two, id)
      ensures !Brings(s.urls, late, id) ==> Effective(one, id) == Effective(s, id) && Effective(two, id) == Effective(s', id)
      ensures !Brings(s.urls, early, id) ==> Effective(s, id) == Effective(s', id)
    {
      EffectiveAfter(s, early, late, id);
    }
    forall k | 0 <= k < |early|
      ensures EnabledCategory(s.urls, s.urls[early[k].at].id).Some?
    {
      EnabledIsAt(s.urls, early[k].at);
    }
  }
}
