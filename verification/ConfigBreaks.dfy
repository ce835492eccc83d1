/** Where a restart does not give the running configuration: patches that name a field in
    another spelling, and values that leave something of the old ones. */
module ConfigBreaks {
  import opened Common
  import opened KeyOrder
  import opened ConfigMerge
  import opened ConfigDecode

  // ---------- which key counts, when there is another spelling ----------

  // A field whose keys are all later is as it was.
  lemma {:induction false} NoKeyFor(s: Schema, n: string, cur: Json, d: Doc, keys: seq<string>)
    requires s.Struct? && n in s.fields && forall j :: 0 <= j < |keys| ==> Target(s, keys[j]) != Some(n)
    ensures FieldDecoded(s, n, cur, d, keys) == cur
  {
    hide Target, Decoded;
    if keys != [] {
      NoKeyFor(s, n, cur, d, keys[..|keys| - 1]);
    }
  }

  lemma {:induction false} OnlyOfList(s: Schema, n: string, cur: Json, d: Doc, keys: seq<string>, i: nat)
    requires s.Struct? && n in s.fields && i < |keys| && Target(s, keys[i]) == Some(n)
    requires forall j :: 0 <= j < |keys| && j != i ==> Target(s, keys[j]) != Some(n)
    ensures FieldDecoded(s, n, cur, d, keys) == Decoded(s.fields[n], cur, At(d, keys[i]))
  {
    hide Target, Decoded;
    var m := |keys| - 1;
    if i == m {
      NoKeyFor(s, n, cur, d, keys[..m]);
    } else {
      OnlyOfList(s, n, cur, d, keys[..m], i);
    }
  }

  // The only key for a field is decoded onto what was there.
  lemma OnlyKeyCounts(s: Schema, n: string, cur: Json, d: Doc, k: string)
    requires s.Struct? && n in s.fields && k in d && Target(s, k) == Some(n)
    requires forall j :: j in d && Target(s, j) == Some(n) ==> j == k
    ensures At(FieldsOf(Decoded(s, cur, Obj(d))), n) == Decoded(s.fields[n], At(FieldsOf(cur), n), d[k])
  {
    hide Target, Less, Sorted;
    var keys := Sorted(d.Keys);
    SortedLists(d.Keys);
    assert k in keys;
    var i :| 0 <= i < |keys| && keys[i] == k;
    forall j | 0 <= j < |keys| && j != i
      ensures Target(s, keys[j]) != Some(n)
    {
      LessIsTotal(keys[i], keys[j]);
      assert keys[j] in d.Keys;
    }
    OnlyOfList(s, n, At(FieldsOf(cur), n), d, keys, i);
  }

  lemma {:induction false} DecodedIsTidy(s: Schema, cur: Json, doc: Json)
    requires Sound(s) && Tidy(s, cur) && Fits(s, doc)
    ensures Tidy(s, Decoded(s, cur, doc))
    decreases s, 1, 0
  {
    if s.Struct? && doc.Obj? {
      hide Target, Fits, FieldDecoded;
      SortedLists(doc.fields.Keys);
      forall n | n in s.fields
        ensures Tidy(s.fields[n], Decoded(s, cur, doc).fields[n])
      {
        FieldIsTidy(s, n, cur.fields[n], doc, Sorted(doc.fields.Keys));
      }
    }
  }

  lemma {:induction false} FieldIsTidy(s: Schema, n: string, cur: Json, doc: Json, keys: seq<string>)
    requires Sound(s) && s.Struct? && n in s.fields && Tidy(s.fields[n], cur)
    requires doc.Obj? && Fits(s, doc) && forall k :: k in keys ==> k in doc.fields
    ensures Tidy(s.fields[n], FieldDecoded(s, n, cur, doc.fields, keys))
    decreases s, 0, |keys|
  {
    hide Target, Fits, Tidy;
    if keys != [] {
      var m := |keys| - 1;
      FieldIsTidy(s, n, cur, doc, keys[..m]);
      if Target(s, keys[m]) == Some(n) {
        FitsAt(s, doc, keys[m]);
        SoundField(s, n);
        DecodedIsTidy(s.fields[n], FieldDecoded(s, n, cur, doc.fields, keys[..m]), At(doc.fields, keys[m]));
      }
    }
  }

  lemma SoundField(s: Schema, n: string)
    requires Sound(s) && s.Struct? && n in s.fields
    ensures Sound(s.fields[n])
  {
  }

  // One override of a ready configuration leaves a ready one.
  lemma OverriddenIsReady(t: Typing, cfg: Doc, p: Doc)
    requires Sound(t.schema) && Ready(t.schema, Obj(cfg)) && p != map[] && Fits(t.schema, Obj(p))
    ensures Obj(Overridden(t, cfg, p)) == Filled(t.schema, Decoded(t.schema, Obj(cfg), Obj(Merged(cfg, p))))
    ensures Ready(t.schema, Obj(Overridden(t, cfg, p)))
  {
    hide Sound, Fits, Merge, Filled, Decoded;
    TidyIsWhole(t.schema, Obj(cfg));
    MergedFits(t.schema, Obj(cfg), Obj(p));
    AtMerged(Obj(cfg), Obj(p), "");
    DecodedIsTidy(t.schema, Obj(cfg), Obj(Merged(cfg, p)));
    FilledIsReady(t.schema, Decoded(t.schema, Obj(cfg), Obj(Merged(cfg, p))));
    FilledIsObj(t.schema, Obj(cfg), Decoded(t.schema, Obj(cfg), Obj(Merged(cfg, p))));
  }

  lemma FilledField(s: Schema, c: Json, n: string)
    requires s.Struct? && n in s.fields
    ensures At(FieldsOf(Filled(s, c)), n) == Filled(s.fields[n], At(FieldsOf(c), n))
  {
  }

  // What a field that is no struct holds after a text was decoded onto another.
  function Holds(l: Leaf, cur: string, v: string): Json
  {
    Filled(Value(l), Atom(l.onto(cur, v)))
  }

  // After overriding, a field holds what the greatest key for it says.
  lemma FieldAfter(t: Typing, cfg: Doc, p: Doc, n: string, k: string) returns (before: string)
    requires Sound(t.schema) && Ready(t.schema, Obj(cfg)) && p != map[] && Fits(t.schema, Obj(p))
    requires t.schema.Struct? && n in t.schema.fields && t.schema.fields[n].Value?
    requires k in p && p[k].Atom? && Target(t.schema, k) == Some(n)
    requires forall j :: (j in p || j in cfg) && j != k && Target(t.schema, j) == Some(n) ==> Less(j, k)
    ensures At(Overridden(t, cfg, p), n) == Holds(t.schema.fields[n].leaf, before, p[k].text)
  {
    hide Sound, Fits, Ready, Target, Less;
    var merged := Merged(cfg, p);
    OverriddenIsReady(t, cfg, p);
    forall j
      ensures j in merged ==> j in p || j in cfg
      ensures j == k ==> j in merged && merged[j] == p[k]
    {
      AtMerged(Obj(cfg), Obj(p), j);
    }
    var b := LastKeyCounts(t.schema, n, Obj(cfg), merged, k);
    before := TextOf(b);
    FilledField(t.schema, Decoded(t.schema, Obj(cfg), Obj(merged)), n);
  }

  lemma KeysOfReady(s: Schema, cfg: Doc)
    requires Ready(s, Obj(cfg))
    ensures s.Struct? && cfg.Keys == s.fields.Keys
  {
  }

  // Two patches of one key each: first the twin of a field, then the field itself.
  function TwinRun(n: string, k: string, a: string, b: string): seq<Doc>
  {
    [map[k := Atom(a)], map[n := Atom(b)]]
  }

  lemma PersistedTwins(n: string, k: string, a: string, b: string)
    requires k != n
    ensures Persisted(TwinRun(n, k, a, b)) == map[k := Atom(a), n := Atom(b)]
  {
    var first: Doc, second: Doc := map[k := Atom(a)], map[n := Atom(b)];
    assert [first, second][..1] == [first] && [first][..0] == [];
    assert MergeAll(Obj(map[]), [first]) == Merge(MergeAll(Obj(map[]), []), Obj(first));
    assert Merge(Obj(map[]), Obj(first)).fields == first;
    assert Merge(Obj(first), Obj(second)).fields == map[k := Atom(a), n := Atom(b)];
  }

  // k is another spelling of the name of field n; a and b are values of it that differ.
  ghost predicate Twins(s: Schema, n: string, k: string, a: string, b: string)
  {
    && s.Struct? && n in s.fields && s.fields[n].Value? && k !in s.fields && Target(s, k) == Some(n)
    && var l := s.fields[n].leaf;
       l.fits(a) && l.fits(b) && SelfContained(l, a) && SelfContained(l, b) && Holds(l, "", a) != Holds(l, "", b)
  }

  lemma TwinRunning(t: Typing, base: Doc, n: string, k: string, a: string, b: string)
    requires Sound(t.schema) && Ready(t.schema, Obj(base)) && Twins(t.schema, n, k, a, b)
    ensures At(Running(t, base, TwinRun(n, k, a, b)), n) == Holds(t.schema.fields[n].leaf, "", b)
  {
    hide Sound, Fits, Ready, Less, Overridden, Holds, Target;
    var first: Doc, second: Doc := map[k := Atom(a)], map[n := Atom(b)];
    TwinFits(t.schema, n, k, a, b);
    var live := Overridden(t, base, first);
    OverriddenIsReady(t, base, first);
    KeysOfReady(t.schema, live);
    assert [first, second][..1] == [first] && [first][..0] == [];
    assert Running(t, base, [first]) == Overridden(t, Running(t, base, []), first) == live;
    OwnFieldAfter(t, live, second, n);
    HoldsAlways(t.schema.fields[n].leaf, TextOf(At(live, n)), b);
  }

  lemma TwinRestarted(t: Typing, base: Doc, n: string, k: string, a: string, b: string)
    requires Sound(t.schema) && Ready(t.schema, Obj(base)) && Twins(t.schema, n, k, a, b) && Less(n, k)
    ensures At(Overridden(t, base, Persisted(TwinRun(n, k, a, b))), n) == Holds(t.schema.fields[n].leaf, "", a)
  {
    hide Sound, Fits, Ready, Less, Overridden, Holds, Persisted;
    TwinFits(t.schema, n, k, a, b);
    PersistedTwins(n, k, a, b);
    KeysOfReady(t.schema, base);
    var before := FieldAfter(t, base, Persisted(TwinRun(n, k, a, b)), n, k);
    HoldsAlways(t.schema.fields[n].leaf, before, a);
  }

  // A run that sets a field by a late twin first: the running configuration has the second
  // value, a restart goes back to the first.
  lemma LateTwinBreaks(t: Typing, base: Doc, n: string, k: string, a: string, b: string)
    requires Sound(t.schema) && Ready(t.schema, Obj(base)) && Twins(t.schema, n, k, a, b) && Less(n, k)
    ensures Overridden(t, base, Persisted(TwinRun(n, k, a, b))) != Running(t, base, TwinRun(n, k, a, b))
  {
    hide Sound, Ready, Overridden, Running, Persisted;
    TwinRunning(t, base, n, k, a, b);
    TwinRestarted(t, base, n, k, a, b);
  }

  lemma HoldsAlways(l: Leaf, cur: string, v: string)
    requires SelfContained(l, v)
    ensures Holds(l, cur, v) == Holds(l, "", v)
  {
  }

  lemma TwinFits(s: Schema, n: string, k: string, a: string, b: string)
    requires s.Struct? && n in s.fields && s.fields[n].Value? && Target(s, k) == Some(n)
    requires s.fields[n].leaf.fits(a) && s.fields[n].leaf.fits(b)
    ensures Fits(s, Obj(map[k := Atom(a)])) && Fits(s, Obj(map[n := Atom(b)])) && Fits(s, Obj(map[k := Atom(a), n := Atom(b)]))
  {
  }

  // Every run of these patches, from any configuration, survives a restart.
  ghost predicate AlwaysKept(s: Schema, patches: set<Doc>)
  {
    forall t: Typing, base: Doc, run: seq<Doc> ::
      t.schema == s && Ready(s, Obj(base)) && (forall i :: 0 <= i < |run| ==> run[i] in patches) ==>
        Overridden(t, base, Persisted(run)) == Running(t, base, run)
  }

  // Setting a field by another spelling is safe exactly if that comes before the field's own
  // name: the tags of the source are in small letters, so that capitals come before them; the
  // names of fields without a tag are capitalized, and small letters come after them.
  lemma TwinIsKeptExactly(t: Typing, base: Doc, n: string, k: string, a: string, b: string)
    requires Sound(t.schema) && Ready(t.schema, Obj(base)) && Twins(t.schema, n, k, a, b)
    ensures AlwaysKept(t.schema, {map[k := Atom(a)], map[n := Atom(b)]}) <==> Less(k, n)
  {
    hide Sound, Fits, Ready, Less, Overridden, Holds, Clean, Running;
    var s := t.schema;
    var first: Doc, second: Doc := map[k := Atom(a)], map[n := Atom(b)];
    LessIsTotal(k, n);
    TwinFits(s, n, k, a, b);
    if Less(k, n) {
      TwinIsClean(s, n, k, a, b);
      forall t': Typing, base': Doc, run: seq<Doc> |
          t'.schema == s && Ready(s, Obj(base')) && (forall i :: 0 <= i < |run| ==> run[i] in {first, second})
        ensures Overridden(t', base', Persisted(run)) == Running(t', base', run)
      {
        RestartIsRunning(t', base', run);
      }
    } else {
      LateTwinBreaks(t, base, n, k, a, b);
      var run := TwinRun(n, k, a, b);
      assert forall i :: 0 <= i < |run| ==> run[i] in {first, second};
    }
  }

  lemma TwinIsClean(s: Schema, n: string, k: string, a: string, b: string)
    requires s.Struct? && n in s.fields && s.fields[n].Value? && k !in s.fields && Target(s, k) == Some(n) && Less(k, n)
    requires SelfContained(s.fields[n].leaf, b)
    ensures Clean(s, Obj(map[k := Atom(a)])) && Clean(s, Obj(map[n := Atom(b)]))
  {
    hide SelfContained, Less;
    LessIsTotal(k, n);
  }

  // A value that leaves something of the old one: the running configuration has it on top of
  // the patch before, a restart on top of the base.
  lemma PartialValueBreaks(t: Typing, base: Doc, n: string, o: string, a: string, v: string)
    requires Sound(t.schema) && Ready(t.schema, Obj(base))
    requires t.schema.Struct? && n in t.schema.fields && t.schema.fields[n].Value? && n in base && base[n] == Atom(o)
    requires var l := t.schema.fields[n].leaf;
             Complete(l, a) && !l.empty(a) && l.fits(v) && Holds(l, a, v) != Holds(l, o, v)
    ensures var run: seq<Doc> := [map[n := Atom(a)], map[n := Atom(v)]];
            Overridden(t, base, Persisted(run)) != Running(t, base, run)
  {
    hide Sound, Fits, Ready, Overridden, Merged;
    var l := t.schema.fields[n].leaf;
    var first: Doc, second: Doc := map[n := Atom(a)], map[n := Atom(v)];
    var run := [first, second];
    assert run[..1] == [first] && [first][..0] == [];
    PersistedTwice(n, a, v);
    TwinFits(t.schema, n, n, a, v);
    var live := Overridden(t, base, first);
    OverriddenIsReady(t, base, first);
    KeysOfReady(t.schema, base);
    KeysOfReady(t.schema, live);
    assert Running(t, base, [first]) == Overridden(t, Running(t, base, []), first) == live;
    OwnFieldAfter(t, base, first, n);
    OwnFieldAfter(t, live, second, n);
    OwnFieldAfter(t, base, second, n);
  }

  lemma PersistedTwice(n: string, a: string, v: string)
    ensures Persisted([map[n := Atom(a)], map[n := Atom(v)]]) == map[n := Atom(v)]
  {
    var first: Doc, second: Doc := map[n := Atom(a)], map[n := Atom(v)];
    assert [first, second][..1] == [first] && [first][..0] == [];
    assert MergeAll(Obj(map[]), [first]) == Merge(MergeAll(Obj(map[]), []), Obj(first));
    assert Merge(Obj(map[]), Obj(first)).fields == first;
    var both := Merge(Obj(first), Obj(second)).fields;
    AtMerged(Obj(first), Obj(second), n);
    assert both.Keys == {n} && both[n] == Atom(v);
  }

  // A field's own key, alone, is decoded onto what the field holds.
  lemma OwnFieldAfter(t: Typing, cfg: Doc, p: Doc, n: string)
    requires Sound(t.schema) && Ready(t.schema, Obj(cfg)) && p.Keys == {n} && Fits(t.schema, Obj(p))
    requires t.schema.Struct? && n in t.schema.fields && t.schema.fields[n].Value? && p[n].Atom?
    ensures At(Overridden(t, cfg, p), n) == Holds(t.schema.fields[n].leaf, TextOf(At(cfg, n)), p[n].text)
  {
    hide Sound, Fits, Ready;
    KeysOfReady(t.schema, cfg);
    OverriddenIsReady(t, cfg, p);
    OwnKeyOnly(t.schema, cfg, p, n);
    FilledField(t.schema, Decoded(t.schema, Obj(cfg), Obj(Merged(cfg, p))), n);
  }

  // Decoding a ready configuration overridden at one field of its own name.
  lemma OwnKeyOnly(s: Schema, cfg: Doc, p: Doc, n: string)
    requires s.Struct? && n in s.fields && cfg.Keys == s.fields.Keys && p.Keys == {n} && p[n] != Null
    ensures At(FieldsOf(Decoded(s, Obj(cfg), Obj(Merged(cfg, p)))), n)
         == Decoded(s.fields[n], At(cfg, n), Merge(At(cfg, n), p[n]))
  {
    hide Decoded, Merge;
    var merged := Merged(cfg, p);
    forall j
      ensures j in merged ==> j in cfg
      ensures j == n ==> j in merged && merged[j] == Merge(At(cfg, n), p[n])
    {
      AtMerged(Obj(cfg), Obj(p), j);
      OnlyNullsMergeToNull(At(cfg, n), p[n]);
    }
    OnlyKeyCounts(s, n, Obj(cfg), merged, n);
  }

  // ---------- the same, deeper in the configuration ----------

  function Inner(t: Typing, f: string): Typing
    requires t.schema.Struct? && f in t.schema.fields
  {
    Typing(t.schema.fields[f], t.torn)
  }

  // The patches, each under one key.
  function Under(f: string, run: seq<Doc>): seq<Doc>
  {
    if run == [] then [] else Under(f, run[..|run| - 1]) + [map[f := Obj(run[|run| - 1])]]
  }

  ghost predicate HasSection(s: Schema, f: string)
  {
    s.Struct? && f in s.fields && s.fields[f].Struct?
  }

  lemma SectionIsReady(s: Schema, cfg: Doc, f: string)
    requires Sound(s) && Ready(s, Obj(cfg)) && HasSection(s, f)
    ensures Sound(s.fields[f]) && f in cfg && cfg[f].Obj? && Ready(s.fields[f], Obj(cfg[f].fields))
  {
    assert Filled(s, Obj(cfg)).fields[f] == Filled(s.fields[f], cfg[f]);
  }

  lemma FitsUnder(s: Schema, f: string, p: Doc)
    requires HasSection(s, f) && Fits(s.fields[f], Obj(p))
    ensures Fits(s, Obj(map[f := Obj(p)]))
  {
  }

  // Overriding a section by itself.
  lemma OverriddenUnder(t: Typing, cfg: Doc, f: string, p: Doc)
    requires Sound(t.schema) && Ready(t.schema, Obj(cfg)) && HasSection(t.schema, f)
    requires p != map[] && Fits(t.schema.fields[f], Obj(p))
    ensures Ready(t.schema, Obj(Overridden(t, cfg, map[f := Obj(p)])))
    ensures f in cfg && cfg[f].Obj?
    ensures At(Overridden(t, cfg, map[f := Obj(p)]), f) == Obj(Overridden(Inner(t, f), cfg[f].fields, p))
  {
    hide Sound, Ready, Fits, Decoded, Filled, Overridden, Merge;
    SectionIsReady(t.schema, cfg, f);
    FitsUnder(t.schema, f, p);
    KeysOfReady(t.schema, cfg);
    assert f in map[f := Obj(p)];
    OverriddenIsReady(t, cfg, map[f := Obj(p)]);
    OverriddenIsReady(Inner(t, f), cfg[f].fields, p);
    OwnKeyOnly(t.schema, cfg, map[f := Obj(p)], f);
    AtMerged(Obj(cfg[f].fields), Obj(p), "");
    FilledField(t.schema, Decoded(t.schema, Obj(cfg), Obj(Merged(cfg, map[f := Obj(p)]))), f);
  }

  ghost predicate Proper(s: Schema, run: seq<Doc>)
  {
    forall i :: 0 <= i < |run| ==> run[i] != map[] && Fits(s, Obj(run[i]))
  }

  lemma {:induction false} RunningUnder(t: Typing, base: Doc, f: string, run: seq<Doc>)
    requires Sound(t.schema) && Ready(t.schema, Obj(base)) && HasSection(t.schema, f) && Proper(t.schema.fields[f], run)
    ensures Ready(t.schema, Obj(Running(t, base, Under(f, run))))
    ensures f in base && base[f].Obj?
    ensures At(Running(t, base, Under(f, run)), f) == Obj(Running(Inner(t, f), base[f].fields, run))
  {
    hide Sound, Ready, Fits, Overridden;
    SectionIsReady(t.schema, base, f);
    if run != [] {
      var n := |run| - 1;
      RunningUnder(t, base, f, run[..n]);
      assert Under(f, run)[..|Under(f, run)| - 1] == Under(f, run[..n]);
      var live := Running(t, base, Under(f, run[..n]));
      SectionIsReady(t.schema, live, f);
      OverriddenUnder(t, live, f, run[n]);
    }
  }

  lemma {:induction false} PersistedUnder(f: string, run: seq<Doc>)
    requires run != []
    ensures MergeAll(Obj(map[]), Under(f, run)) == Obj(map[f := Obj(Persisted(run))])
  {
    var n := |run| - 1;
    assert Under(f, run)[..|Under(f, run)| - 1] == Under(f, run[..n]);
    var before := MergeAll(Obj(map[]), Under(f, run[..n]));
    var last: Doc := map[f := Obj(run[n])];
    if n > 0 {
      PersistedUnder(f, run[..n]);
    }
    hide Merge;
    AllIsObj(run[..n]);
    AllIsObj(run);
    SectionMerges(FieldsOf(before), f, FieldsOf(MergeAll(Obj(map[]), run[..n])), run[n]);
  }

  lemma {:induction false} AllIsObj(run: seq<Doc>)
    ensures MergeAll(Obj(map[]), run).Obj?
  {
    if run != [] {
      AtMerged(MergeAll(Obj(map[]), run[..|run| - 1]), Obj(run[|run| - 1]), "");
    }
  }

  lemma SectionMerges(before: Doc, f: string, inner: Doc, p: Doc)
    requires (before == map[] && inner == map[]) || before == map[f := Obj(inner)]
    ensures Merge(Obj(before), Obj(map[f := Obj(p)])) == Obj(map[f := Merge(Obj(inner), Obj(p))])
  {
    var m := Merge(Obj(before), Obj(map[f := Obj(p)]));
    AtMerged(Obj(before), Obj(map[f := Obj(p)]), f);
    assert m.fields.Keys == {f};
  }

  // A run that does not survive a restart in a section does not survive it in the whole.
  lemma BreaksUnder(t: Typing, base: Doc, f: string, run: seq<Doc>)
    requires Sound(t.schema) && Ready(t.schema, Obj(base)) && HasSection(t.schema, f) && run != []
    requires Proper(t.schema.fields[f], run + [Persisted(run)]) && f in base && base[f].Obj?
    requires Overridden(Inner(t, f), base[f].fields, Persisted(run)) != Running(Inner(t, f), base[f].fields, run)
    ensures Overridden(t, base, Persisted(Under(f, run))) != Running(t, base, Under(f, run))
    ensures Proper(t.schema, Under(f, run) + [Persisted(Under(f, run))])
  {
    hide Sound, Ready, Fits, Overridden, Running, MergeAll;
    assert run == (run + [Persisted(run)])[..|run|] && Persisted(run) == (run + [Persisted(run)])[|run|];
    RunningUnder(t, base, f, run);
    PersistedUnder(f, run);
    OverriddenUnder(t, base, f, Persisted(run));
    ProperUnder(t.schema, f, run);
    FitsUnder(t.schema, f, Persisted(run));
    assert Persisted(Under(f, run)) == map[f := Obj(Persisted(run))] && f in Persisted(Under(f, run));
  }

  lemma {:induction false} ProperUnder(s: Schema, f: string, run: seq<Doc>)
    requires HasSection(s, f) && Proper(s.fields[f], run)
    ensures Proper(s, Under(f, run))
  {
    hide Fits;
    if run != [] {
      var n := |run| - 1;
      ProperUnder(s, f, run[..n]);
      FitsUnder(s, f, run[n]);
      assert f in map[f := Obj(run[n])];
    }
  }

  // The failing input in the configuration itself. The fields of the section web_ui have no
  // tags: patched off by its name in small letters and on by its own name, the field is on in the
  // running configuration, and off after a restart.
  lemma WebUiComesBack(t: Typing, base: Doc, off: string, on: string)
    requires Sound(t.schema) && Ready(t.schema, Obj(base))
    requires HasSection(t.schema, "caddy") && HasSection(t.schema.fields["caddy"], "web_ui")
    requires Twins(t.schema.fields["caddy"].fields["web_ui"], "Enabled", "enabled", off, on)
    ensures var run: seq<Doc> := [map["caddy" := Obj(map["web_ui" := Obj(map["enabled" := Atom(off)])])],
                                  map["caddy" := Obj(map["web_ui" := Obj(map["Enabled" := Atom(on)])])]];
            Overridden(t, base, Persisted(run)) != Running(t, base, run)
  {
    hide Sound, Ready, Fits, Overridden, Running, MergeAll, Holds, Target, Persisted;
    var caddy := Inner(t, "caddy");
    SectionIsReady(t.schema, base, "caddy");
    var section := base["caddy"].fields;
    SectionIsReady(caddy.schema, section, "web_ui");
    var s := caddy.schema.fields["web_ui"];
    var twins := TwinRun("Enabled", "enabled", off, on);
    assert Less("Enabled", "enabled");
    LateTwinBreaks(Inner(caddy, "web_ui"), section["web_ui"].fields, "Enabled", "enabled", off, on);
    ProperTwins(s, "Enabled", "enabled", off, on);
    BreaksUnder(caddy, section, "web_ui", twins);
    BreaksUnder(t, base, "caddy", Under("web_ui", twins));
    UnderTwo("web_ui", twins[0], twins[1]);
    UnderTwo("caddy", map["web_ui" := Obj(twins[0])], map["web_ui" := Obj(twins[1])]);
  }

  lemma ProperTwins(s: Schema, n: string, k: string, a: string, b: string)
    requires s.Struct? && n in s.fields && s.fields[n].Value? && Target(s, k) == Some(n) && k != n
    requires s.fields[n].leaf.fits(a) && s.fields[n].leaf.fits(b)
    ensures Proper(s, TwinRun(n, k, a, b) + [Persisted(TwinRun(n, k, a, b))])
  {
    hide Fits, Target, Persisted;
    TwinFits(s, n, k, a, b);
    PersistedTwins(n, k, a, b);
    assert k in map[k := Atom(a)] && n in map[n := Atom(b)] && n in map[k := Atom(a), n := Atom(b)];
  }

  lemma UnderTwo(f: string, first: Doc, second: Doc)
    ensures Under(f, [first, second]) == [map[f := Obj(first)], map[f := Obj(second)]]
  {
    assert [first, second][..1] == [first] && [first][..0] == [];
    assert Under(f, [first]) == Under(f, []) + [map[f := Obj(first)]];
  }
}
