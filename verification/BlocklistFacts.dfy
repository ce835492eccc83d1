/** What a freshly loaded blocklist blocks, read off the stored lists alone. */
module BlocklistFacts {
  import opened Common
  import opened Names
  import opened Blocklist

  // Some entry of the list reads like the name, case and a final dot aside.
  predicate Lists(list: seq<string>, name: string)
  {
    exists i :: 0 <= i < |list| && Norm(list[i]) == name
  }

  // Position u holds the last enabled URL of this id.
  ghost predicate LastEnabled(urls: seq<URL>, id: int, u: nat)
  {
    && u < |urls| && urls[u].id == id && urls[u].enabled
    && forall w :: u < w < |urls| ==> !(urls[w].id == id && urls[w].enabled)
  }

  // The URL's file lists the name, and its last enabled entry has no category or one that is
  // asked for.
  ghost predicate ListedUnder(s: Store, id: int, name: string, cats: seq<string>)
  {
    && id in s.files && Lists(s.files[id], name)
    && exists u: nat :: LastEnabled(s.urls, id, u) && (s.urls[u].category == "" || s.urls[u].category in cats)
  }

  ghost predicate BlockedByList(s: Store, name: string, cats: seq<string>)
  {
    !Lists(s.allowed, name) && (Lists(s.manual, name) || exists id :: ListedUnder(s, id, name, cats))
  }

  // x is the name itself or a parent of it.
  predicate IsOrIsAbove(x: string, name: string)
  {
    name == x || (|x| < |name| && name[|name| - |x| - 1..] == "." + x)
  }

  // The expression between its delimiters, if it is written with them.
  predicate ReadsAs(pattern: string, expression: string)
  {
    if 2 < |pattern| && pattern[0] == '/' && pattern[|pattern| - 1] == '/' then pattern == "/" + expression + "/"
    else pattern == expression
  }

  ghost predicate BlockedByPattern(engine: Engine, s: Store, name: string)
  {
    || (exists i :: 0 <= i < |s.wildcards| && "*." <= s.wildcards[i] && IsOrIsAbove(Lower(s.wildcards[i][2..]), name))
    || (exists i, x :: 0 <= i < |s.regexps| && ReadsAs(s.regexps[i], x) && engine.compiles(x) && engine.matches(x, name))
  }

  // ---------- lists ----------

  lemma SetIsList(list: seq<string>, name: string)
    ensures name in DomainSet(list) <==> Lists(list, name)
  {
    hide Norm;
  }

  lemma {:induction false} CategoryIsLast(urls: seq<URL>, id: int)
    ensures var c := EnabledCategory(urls, id);
            && (c.Some? ==> exists u: nat :: LastEnabled(urls, id, u) && urls[u].category == c.value)
            && (c.None? ==> forall u: nat :: !LastEnabled(urls, id, u))
    ensures forall u: nat :: LastEnabled(urls, id, u) ==> EnabledCategory(urls, id) == Some(urls[u].category)
  {
    if urls != [] {
      var n := |urls| - 1;
      CategoryIsLast(urls[..n], id);
      if urls[n].enabled && urls[n].id == id {
        assert LastEnabled(urls, id, n);
      } else {
        forall u: nat
          ensures LastEnabled(urls, id, u) <==> LastEnabled(urls[..n], id, u)
        {
          LastEnabledBefore(urls, id, u);
        }
      }
    }
  }

  lemma LastEnabledBefore(urls: seq<URL>, id: int, u: nat)
    requires urls != [] && !(urls[|urls| - 1].enabled && urls[|urls| - 1].id == id)
    ensures LastEnabled(urls, id, u) <==> LastEnabled(urls[..|urls| - 1], id, u)
  {
    var n := |urls| - 1;
    assert forall w :: 0 <= w < n ==> urls[..n][w] == urls[w];
    if LastEnabled(urls[..n], id, u) {
      forall w | u < w < |urls|
        ensures !(urls[w].id == id && urls[w].enabled)
      {
        assert w < n ==> urls[..n][w] == urls[w];
      }
    }
  }

  // After a load of the store, a name is in a list for the categories asked for exactly if no
  // exemption reads like it, and a manual entry or the file of an enabled URL does.
  lemma LoadListsExactly(engine: Engine, s: Store, name: string, cats: seq<string>)
    ensures ByList(Loaded(engine, Reading(s)).value, name, cats) <==> BlockedByList(s, name, cats)
  {
    hide DomainSet, Listing, UrlSets, EnabledCategory, Wildcards, Regexps, Lists;
    var c := Loaded(engine, Reading(s)).value;
    SetIsList(s.manual, name);
    SetIsList(s.allowed, name);
    forall id
      ensures ListedIn(c, id, name, cats) <==> !Lists(s.allowed, name) && ListedUnder(s, id, name, cats)
    {
      ListedExactly(engine, s, id, name, cats);
    }
    hide ListedIn, ListedUnder;
  }

  lemma ListedExactly(engine: Engine, s: Store, id: int, name: string, cats: seq<string>)
    ensures ListedIn(Loaded(engine, Reading(s)).value, id, name, cats)
            <==> !Lists(s.allowed, name) && ListedUnder(s, id, name, cats)
  {
    hide DomainSet, Listing, UrlSets, EnabledCategory, Wildcards, Regexps, Lists;
    ListingAt(s.urls, s.files, DomainSet(s.allowed), id);
    SetIsList(s.allowed, name);
    CategoryIsLast(s.urls, id);
    hide LastEnabled;
    if id in s.files {
      SetIsList(s.files[id], name);
    }
  }

  // ---------- patterns ----------

  lemma {:induction false} WildcardsAre(patterns: seq<string>, w: string)
    ensures w in Wildcards(patterns) <==> exists i :: 0 <= i < |patterns| && "*." <= patterns[i] && Lower(patterns[i][2..]) == w
  {
    hide Lower;
    if patterns != [] {
      var n := |patterns| - 1;
      WildcardsAre(patterns[..n], w);
      assert forall i :: 0 <= i < n ==> patterns[..n][i] == patterns[i];
      if i :| 0 <= i < |patterns| && "*." <= patterns[i] && Lower(patterns[i][2..]) == w {
        assert i < n ==> patterns[..n][i] == patterns[i];
      }
    }
  }

  lemma {:induction false} RegexpsAre(engine: Engine, patterns: seq<string>, x: string)
    ensures x in Regexps(engine, patterns) <==> exists i :: 0 <= i < |patterns| && ReadsAs(patterns[i], x) && engine.compiles(x)
  {
    hide ReadsAs, Undelimited;
    if patterns != [] {
      var n := |patterns| - 1;
      RegexpsAre(engine, patterns[..n], x);
      DelimitersOff(patterns[n], x);
      assert forall i :: 0 <= i < n ==> patterns[..n][i] == patterns[i];
      if i :| 0 <= i < |patterns| && ReadsAs(patterns[i], x) && engine.compiles(x) {
        assert i < n ==> patterns[..n][i] == patterns[i];
      }
    }
  }

  lemma DelimitersOff(pattern: string, x: string)
    ensures ReadsAs(pattern, x) <==> Undelimited(pattern) == x
  {
    if 2 < |pattern| && pattern[0] == '/' && pattern[|pattern| - 1] == '/' {
      assert pattern == "/" + pattern[1..|pattern| - 1] + "/";
      assert ("/" + x + "/")[1..|x| + 1] == x;
    }
  }

  lemma AboveIsSuffix(x: string, name: string)
    ensures LabelSuffix(x, name) <==> IsOrIsAbove(x, name)
  {
    assert |"." + x| == |x| + 1;
  }

  // It is blocked by a pattern exactly if the lower case of what stands behind "*." in some
  // wildcard is the name or a parent of it, or some expression that compiles matches it.
  lemma LoadMatchesExactly(engine: Engine, s: Store, name: string)
    ensures ByPattern(engine, Loaded(engine, Reading(s)).value, name) <==> BlockedByPattern(engine, s, name)
  {
    hide Wildcards, Regexps, Lower, LabelSuffix, IsOrIsAbove, ReadsAs, DomainSet, UrlSets, Listing;
    var c := Loaded(engine, Reading(s)).value;
    forall w
      ensures w in c.wildcards <==>
              exists i :: 0 <= i < |s.wildcards| && "*." <= s.wildcards[i] && Lower(s.wildcards[i][2..]) == w
      ensures LabelSuffix(w, name) <==> IsOrIsAbove(w, name)
    {
      WildcardsAre(s.wildcards, w);
      AboveIsSuffix(w, name);
    }
    forall x
      ensures x in c.regexps <==> exists i :: 0 <= i < |s.regexps| && ReadsAs(s.regexps[i], x) && engine.compiles(x)
    {
      RegexpsAre(engine, s.regexps, x);
    }
    AnyIn(c.wildcards, (w: string) => LabelSuffix(w, name));
    AnyIn(c.regexps, (x: string) => engine.matches(x, name));
    assert (exists i :: 0 <= i < |c.wildcards| && LabelSuffix(c.wildcards[i], name)) <==>
           exists w :: w in c.wildcards && LabelSuffix(w, name);
    assert (exists i :: 0 <= i < |c.regexps| && engine.matches(c.regexps[i], name)) <==>
           exists x :: x in c.regexps && engine.matches(x, name);
  }

  lemma AnyIn(s: seq<string>, p: string -> bool)
    ensures (exists i :: 0 <= i < |s| && p(s[i])) <==> exists x :: x in s && p(x)
  {
  }

  // A load fails exactly if a list cannot be read; patterns that cannot be read count as none.
  lemma LoadFailsExactly(engine: Engine, p: Provider)
    ensures Loaded(engine, p).None? <==> p.urlSets.None? || p.manual.None? || p.allowed.None? || p.whitelist.None?
    ensures Loaded(engine, p).Some? && p.patterns.None? ==>
              Loaded(engine, p) == Loaded(engine, p.(patterns := Some(([], []))))
    ensures Loaded(engine, p).Some? ==> Loaded(engine, p).value.whitelist == p.whitelist.value
  {
  }
}
