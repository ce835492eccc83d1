/** Deep merging of configuration overrides, in memory and in the store, and when patching
    step by step equals merging once. */
module ConfigMerge {
  // A decoded JSON document. Atoms are everything but objects and null (numbers, strings,
  // booleans and arrays, which merging replaces as a whole).
  datatype Json = Null | Atom(text: string) | Obj(fields: map<string, Json>)

  type Doc = map<string, Json>

  // ---------- the merge ----------

  function FieldsOf(v: Json): Doc
  {
    if v.Obj? then v.fields else map[]
  }

  function At(d: Doc, k: string): Json
  {
    if k in d then d[k] else Null
  }

  // Nulls in the overrides change nothing; objects merge key by key; anything else replaces.
  function Merge(base: Json, over: Json): Json
    decreases over
  {
    match over
    case Null => base
    case Atom(_) => over
    case Obj(fs) =>
      var b := FieldsOf(base);
      Obj(map k | k in b.Keys + fs.Keys && (k in b || fs[k] != Null) :: if k in fs then Merge(At(b, k), fs[k]) else b[k])
  }

  function Merged(dst: Doc, src: Doc): Doc
  {
    Merge(Obj(dst), Obj(src)).fields
  }

  // The overrides already gone through.
  function Done(src: Doc, todo: set<string>): Doc
  {
    map k | k in src && k !in todo :: src[k]
  }

  lemma MergedStep(dst: Doc, src: Doc, todo: set<string>, k: string)
    requires k in todo && k in src
    ensures var d := Merged(dst, Done(src, todo));
            Merged(dst, Done(src, todo - {k})) == if src[k] == Null then d else d[k := Merge(At(dst, k), src[k])]
  {
    var d, d' := Merged(dst, Done(src, todo)), Merged(dst, Done(src, todo - {k}));
    forall j | j != k
      ensures j in d <==> j in d'
      ensures j in d ==> d[j] == d'[j]
    {
    }
    var s' := Done(src, todo - {k});
    assert k in s' && s'[k] == src[k];
    assert k in d' <==> k in dst || src[k] != Null;
    assert k in d' ==> d'[k] == Merge(At(dst, k), src[k]);
    MergedUntouched(dst, src, todo, k);
    if src[k] == Null {
      assert d' == d;
    } else {
      assert d' == d[k := Merge(At(dst, k), src[k])];
    }
  }

  lemma MergedEnds(dst: Doc, src: Doc)
    ensures Merged(dst, Done(src, src.Keys)) == dst && Merged(dst, Done(src, {})) == Merged(dst, src)
  {
    assert Done(src, src.Keys) == map[] && Done(src, {}) == src;
    assert Merged(dst, Done(src, src.Keys)) == Merged(dst, map[]) == dst;
    assert Merged(dst, Done(src, {})) == Merged(dst, src);
  }

  // The entry at a key that has not been gone through is still the old one.
  lemma MergedUntouched(dst: Doc, src: Doc, todo: set<string>, k: string)
    requires k in todo
    ensures var d := Merged(dst, Done(src, todo)); (k in d <==> k in dst) && (k in d ==> d[k] == dst[k])
  {
  }

  // config.mergeMap
  method MergeMap(dst: Doc, src: Doc) returns (r: Doc)
    ensures r == Merged(dst, src)
    decreases Obj(src)
  {
    hide Merge, Merged;
    r := dst;
    var todo := src.Keys;
    MergedEnds(dst, src);
    while todo != {}
      invariant todo <= src.Keys && r == Merged(dst, Done(src, todo))
    {
      var k :| k in todo;
      MergedStep(dst, src, todo, k);
      MergedUntouched(dst, src, todo, k);
      todo := todo - {k};
      if src[k].Null? {
        continue;
      }
      if src[k].Obj? {
        var dstMap: Doc := map[];
        if k in r {
          if r[k].Obj? {
            dstMap := r[k].fields;
          }
        }
        var inner := MergeMap(dstMap, src[k].fields);
        MergeIntoFields(At(dst, k), src[k]);
        r := r[k := Obj(inner)];
      } else {
        AtomReplaces(At(dst, k), src[k]);
        r := r[k := src[k]];
      }
    }
  }

  // filestore.mergeOverridesMap: written apart from MergeMap, with the same result.
  method MergeOverridesMap(dst: Doc, src: Doc) returns (r: Doc)
    ensures r == Merged(dst, src)
    decreases Obj(src)
  {
    hide Merge, Merged;
    r := dst;
    var todo := src.Keys;
    MergedEnds(dst, src);
    while todo != {}
      invariant todo <= src.Keys && r == Merged(dst, Done(src, todo))
    {
      var k :| k in todo;
      MergedStep(dst, src, todo, k);
      MergedUntouched(dst, src, todo, k);
      todo := todo - {k};
      if src[k].Null? {
        continue;
      }
      if src[k].Obj? {
        MergeIntoFields(At(dst, k), src[k]);
        if k in r {
          if r[k].Obj? {
            var inner := MergeOverridesMap(r[k].fields, src[k].fields);
            r := r[k := Obj(inner)];
            continue;
          }
        }
        var inner := MergeOverridesMap(map[], src[k].fields);
        r := r[k := Obj(inner)];
      } else {
        AtomReplaces(At(dst, k), src[k]);
        r := r[k := src[k]];
      }
    }
  }

  lemma MergeIntoFields(base: Json, over: Json)
    requires over.Obj?
    ensures Merge(base, over) == Obj(Merged(FieldsOf(base), over.fields))
  {
  }

  lemma AtomReplaces(base: Json, over: Json)
    requires over.Atom?
    ensures Merge(base, over) == over
  {
  }

  // ---------- when merging is associative ----------

  // Every key of b is overridden by o, so that nothing of b would be left.
  predicate Covers(o: Json, b: Json)
    requires o.Obj? && b.Obj?
    decreases o
  {
    forall k :: k in b.fields ==>
      k in o.fields && o.fields[k] != Null && (o.fields[k].Obj? && b.fields[k].Obj? ==> Covers(o.fields[k], b.fields[k]))
  }

  // No path holds an object in b, a plain value in o1, and in o2 an object again that does
  // not cover b's: merging step by step, o1 would wipe out what merging o1 and o2 first keeps.
  predicate NoClash(b: Json, o1: Json, o2: Json)
    decreases o2
  {
    o2.Obj? && !o1.Null? ==>
      if o1.Atom? then b.Obj? ==> Covers(o2, b)
      else forall k :: k in o1.fields && k in o2.fields ==> NoClash(At(FieldsOf(b), k), o1.fields[k], o2.fields[k])
  }

  // Merging over nothing and then over b is merging over b: only nulls get lost on the way.
  lemma {:induction false} CleanFirst(b: Json, o: Json)
    ensures Merge(b, Merge(Null, o)) == Merge(b, o)
    decreases o
  {
    if o.Obj? {
      forall k | k in o.fields
        ensures Merge(At(FieldsOf(b), k), Merge(Null, o.fields[k])) == Merge(At(FieldsOf(b), k), o.fields[k])
        ensures Merge(Null, o.fields[k]) == Null <==> o.fields[k] == Null
      {
        CleanFirst(At(FieldsOf(b), k), o.fields[k]);
      }
      var clean := Merge(Null, o);
      assert forall k :: k in clean.fields <==> k in o.fields && o.fields[k] != Null;
      assert Merge(b, clean).fields == Merge(b, o).fields;
    }
  }

  lemma AtMerged(b: Json, o: Json, k: string)
    requires o.Obj?
    ensures Merge(b, o).Obj?
    ensures At(Merge(b, o).fields, k) == Merge(At(FieldsOf(b), k), At(o.fields, k))
    ensures k in Merge(b, o).fields <==> k in FieldsOf(b) || At(o.fields, k) != Null
  {
  }

  lemma OnlyNullsMergeToNull(b: Json, o: Json)
    ensures Merge(b, o) == Null <==> b == Null && o == Null
  {
  }

  // Overrides that cover an object leave nothing of it, and only they do.
  lemma {:induction false} CoversExactly(o: Json, b: Json)
    requires o.Obj? && b.Obj?
    ensures Merge(b, o) == Merge(Null, o) <==> Covers(o, b)
    decreases o
  {
    var with, without := Merge(b, o).fields, Merge(Null, o).fields;
    forall k
      ensures k in with <==> k in b.fields || At(o.fields, k) != Null
      ensures k in without <==> At(o.fields, k) != Null
      ensures At(with, k) == Merge(At(b.fields, k), At(o.fields, k)) && At(without, k) == Merge(Null, At(o.fields, k))
    {
      AtMerged(b, o, k);
      AtMerged(Null, o, k);
    }
    forall k | k in b.fields && k in o.fields && o.fields[k].Obj? && b.fields[k].Obj?
      ensures Merge(b.fields[k], o.fields[k]) == Merge(Null, o.fields[k]) <==> Covers(o.fields[k], b.fields[k])
    {
      CoversExactly(o.fields[k], b.fields[k]);
    }
    CoversAt(o, b, with, without);
  }

  lemma CoversAt(o: Json, b: Json, with: Doc, without: Doc)
    requires o.Obj? && b.Obj?
    requires forall k :: k in with <==> k in b.fields || At(o.fields, k) != Null
    requires forall k :: k in without <==> At(o.fields, k) != Null
    requires forall k :: At(with, k) == Merge(At(b.fields, k), At(o.fields, k)) && At(without, k) == Merge(Null, At(o.fields, k))
    requires forall k :: k in b.fields && k in o.fields && o.fields[k].Obj? && b.fields[k].Obj? ==>
               (Merge(b.fields[k], o.fields[k]) == Merge(Null, o.fields[k]) <==> Covers(o.fields[k], b.fields[k]))
    ensures with == without <==> Covers(o, b)
  {
    hide Merge, Covers;
    forall k
      ensures (k in with <==> k in without) && At(with, k) == At(without, k) <==> CoversKey(o, b, k)
    {
      if At(o.fields, k) != Null && !(At(b.fields, k).Obj? && At(o.fields, k).Obj?) {
        ScalarOverAnything(At(b.fields, k), At(o.fields, k));
      }
      if k !in b.fields {
        NothingOverNothing(At(o.fields, k));
      }
    }
    SameDocs(with, without);
    CoversByKey(o, b);
  }

  // Covers, key by key.
  predicate CoversKey(o: Json, b: Json, k: string)
    requires o.Obj? && b.Obj?
  {
    k in b.fields ==>
      k in o.fields && o.fields[k] != Null && (o.fields[k].Obj? && b.fields[k].Obj? ==> Covers(o.fields[k], b.fields[k]))
  }

  lemma CoversByKey(o: Json, b: Json)
    requires o.Obj? && b.Obj?
    ensures Covers(o, b) <==> forall k :: CoversKey(o, b, k)
  {
    if forall k :: CoversKey(o, b, k) {
      forall k | k in b.fields
        ensures k in o.fields && o.fields[k] != Null
        ensures o.fields[k].Obj? && b.fields[k].Obj? ==> Covers(o.fields[k], b.fields[k])
      {
        assert CoversKey(o, b, k);
      }
    }
  }

  lemma NothingOverNothing(o: Json)
    ensures o == Null ==> Merge(Null, o) == Null
  {
  }

  lemma ScalarOverAnything(b: Json, o: Json)
    requires !(b.Obj? && o.Obj?) && o != Null
    ensures Merge(b, o) == Merge(Null, o)
  {
  }

  lemma SameDocs(d: Doc, d': Doc)
    ensures d == d' <==> forall k :: (k in d <==> k in d') && At(d, k) == At(d', k)
  {
    if forall k :: (k in d <==> k in d') && At(d, k) == At(d', k) {
      forall k | k in d
        ensures k in d' && d[k] == d'[k]
      {
        assert At(d, k) == At(d', k);
      }
    }
  }

  predicate Associates(b: Json, o1: Json, o2: Json)
  {
    Merge(Merge(b, o1), o2) == Merge(b, Merge(o1, o2))
  }

  // Merging is associative exactly without a clash.
  lemma {:induction false} AssociativeExactlyWithoutClash(b: Json, o1: Json, o2: Json)
    ensures Associates(b, o1, o2) <==> NoClash(b, o1, o2)
    decreases o2
  {
    if o1.Null? {
      CleanFirst(b, o2);
    } else if o2.Obj? && o1.Atom? {
      CleanFirst(b, o2);
      if b.Obj? {
        CoversExactly(o2, b);
      }
    } else if o2.Obj? {
      forall k | k in o1.fields && k in o2.fields
        ensures Associates(At(FieldsOf(b), k), o1.fields[k], o2.fields[k])
                <==> NoClash(At(FieldsOf(b), k), o1.fields[k], o2.fields[k])
      {
        AssociativeExactlyWithoutClash(At(FieldsOf(b), k), o1.fields[k], o2.fields[k]);
      }
      BothObjects(b, o1, o2);
    }
  }

  lemma BothObjects(b: Json, o1: Json, o2: Json)
    requires o1.Obj? && o2.Obj?
    requires (forall k :: k in o1.fields && k in o2.fields ==>
               (Associates(At(FieldsOf(b), k), o1.fields[k], o2.fields[k])
                <==> NoClash(At(FieldsOf(b), k), o1.fields[k], o2.fields[k])))
    ensures Associates(b, o1, o2) <==> NoClash(b, o1, o2)
  {
    var left, right := Merge(Merge(b, o1), o2), Merge(b, Merge(o1, o2));
    AtMerged(Merge(b, o1), o2, "");
    AtMerged(o1, o2, "");
    AtMerged(b, Merge(o1, o2), "");
    hide Merge, NoClash;
    forall k
      ensures k in left.fields <==> k in right.fields
      ensures At(left.fields, k) == At(right.fields, k) <==> NoClashAt(b, o1, o2, k)
    {
      KeyByKey(b, o1, o2, k);
    }
    SameDocs(left.fields, right.fields);
    NoClashByKey(b, o1, o2);
  }

  predicate NoClashAt(b: Json, o1: Json, o2: Json, k: string)
    requires o1.Obj? && o2.Obj?
  {
    k in o1.fields && k in o2.fields ==> NoClash(At(FieldsOf(b), k), o1.fields[k], o2.fields[k])
  }

  lemma NoClashByKey(b: Json, o1: Json, o2: Json)
    requires o1.Obj? && o2.Obj?
    ensures NoClash(b, o1, o2) <==> forall k :: NoClashAt(b, o1, o2, k)
  {
    if forall k :: NoClashAt(b, o1, o2, k) {
      forall k | k in o1.fields && k in o2.fields
        ensures NoClash(At(FieldsOf(b), k), o1.fields[k], o2.fields[k])
      {
        assert NoClashAt(b, o1, o2, k);
      }
    }
  }

  lemma KeyByKey(b: Json, o1: Json, o2: Json, k: string)
    requires o1.Obj? && o2.Obj? && Merge(Merge(b, o1), o2).Obj? && Merge(b, Merge(o1, o2)).Obj?
    requires k in o1.fields && k in o2.fields ==>
               (Associates(At(FieldsOf(b), k), o1.fields[k], o2.fields[k])
                <==> NoClash(At(FieldsOf(b), k), o1.fields[k], o2.fields[k]))
    ensures var left, right := Merge(Merge(b, o1), o2).fields, Merge(b, Merge(o1, o2)).fields;
            (k in left <==> k in right) && (At(left, k) == At(right, k) <==> NoClashAt(b, o1, o2, k))
  {
    hide Merge, NoClash;
    var bk, k1, k2 := At(FieldsOf(b), k), At(o1.fields, k), At(o2.fields, k);
    AtMerged(b, o1, k);
    AtMerged(Merge(b, o1), o2, k);
    AtMerged(o1, o2, k);
    AtMerged(b, Merge(o1, o2), k);
    OnlyNullsMergeToNull(k1, k2);
    CleanFirst(bk, k2);
    NullChangesNothing(Merge(bk, k1));
    NullChangesNothing(bk);
    NullChangesNothing(k1);
  }

  lemma NullChangesNothing(b: Json)
    ensures Merge(b, Null) == b
  {
  }

  // ---------- patching step by step ----------

  // No path holds an object in one document and a plain value in the other.
  predicate Agree(x: Json, y: Json)
    decreases x
  {
    match x
    case Null => true
    case Atom(_) => !y.Obj?
    case Obj(fs) => y.Null? || (y.Obj? && forall k :: k in fs && k in y.fields ==> Agree(fs[k], y.fields[k]))
  }

  lemma {:induction false} AgreeingNeverClash(b: Json, o1: Json, o2: Json)
    requires Agree(o1, o2)
    ensures NoClash(b, o1, o2)
    decreases o2
  {
    if o1.Obj? && o2.Obj? {
      forall k | k in o1.fields && k in o2.fields
        ensures NoClash(At(FieldsOf(b), k), o1.fields[k], o2.fields[k])
      {
        AgreeingNeverClash(At(FieldsOf(b), k), o1.fields[k], o2.fields[k]);
      }
    }
  }

  lemma {:induction false} MergeKeepsAgreement(x: Json, y: Json, z: Json)
    requires Agree(x, z) && Agree(y, z)
    ensures Agree(Merge(x, y), z)
    decreases y
  {
    if y.Obj? && z.Obj? {
      var m := Merge(x, y);
      forall k | k in m.fields && k in z.fields
        ensures Agree(m.fields[k], z.fields[k])
      {
        AtMerged(x, y, k);
        if k in y.fields {
          assert Agree(At(FieldsOf(x), k), z.fields[k]);
          MergeKeepsAgreement(At(FieldsOf(x), k), y.fields[k], z.fields[k]);
        }
      }
    }
  }

  function MergeAll(base: Json, patches: seq<Doc>): Json
  {
    if patches == [] then base else Merge(MergeAll(base, patches[..|patches| - 1]), Obj(patches[|patches| - 1]))
  }

  ghost predicate PairwiseAgree(patches: seq<Doc>)
  {
    forall i, j :: 0 <= i < j < |patches| ==> Agree(Obj(patches[i]), Obj(patches[j]))
  }

  lemma {:induction false} AllAgreeWith(patches: seq<Doc>, p: Doc)
    requires forall i :: 0 <= i < |patches| ==> Agree(Obj(patches[i]), Obj(p))
    ensures Agree(MergeAll(Obj(map[]), patches), Obj(p))
  {
    if patches != [] {
      var n := |patches| - 1;
      AllAgreeWith(patches[..n], p);
      MergeKeepsAgreement(MergeAll(Obj(map[]), patches[..n]), Obj(patches[n]), Obj(p));
    }
  }

  // As long as the patches agree with each other on where objects are, patching the running
  // configuration step by step gives what a restart makes of the persisted overrides.
  lemma {:induction false} StepwiseEqualsRestart(base: Doc, patches: seq<Doc>)
    requires PairwiseAgree(patches)
    ensures MergeAll(Obj(base), patches) == Merge(Obj(base), MergeAll(Obj(map[]), patches))
  {
    if patches == [] {
      assert Merge(Obj(base), Obj(map[])).fields == base;
    } else {
      var n := |patches| - 1;
      var persisted, p := MergeAll(Obj(map[]), patches[..n]), Obj(patches[n]);
      assert PairwiseAgree(patches[..n]);
      StepwiseEqualsRestart(base, patches[..n]);
      assert forall i :: 0 <= i < n ==> patches[..n][i] == patches[i];
      AllAgreeWith(patches[..n], patches[n]);
      AgreeingNeverClash(Obj(base), persisted, p);
      AssociativeExactlyWithoutClash(Obj(base), persisted, p);
    }
  }

  // Every prefix of the patches, made step by step, is what a restart would make of it.
  ghost predicate KeepsUp(base: Doc, patches: seq<Doc>)
  {
    forall i :: 0 <= i <= |patches| ==> SameAsRestart(base, patches[..i])
  }

  predicate SameAsRestart(base: Doc, patches: seq<Doc>)
  {
    MergeAll(Obj(base), patches) == Merge(Obj(base), MergeAll(Obj(map[]), patches))
  }

  predicate ClashFreeAt(base: Doc, patches: seq<Doc>, i: nat)
    requires i < |patches|
  {
    NoClash(Obj(base), MergeAll(Obj(map[]), patches[..i]), Obj(patches[i]))
  }

  // A patch keeps what the ones before it kept, exactly if it does not clash with them.
  lemma NextKeepsUp(base: Doc, patches: seq<Doc>)
    requires patches != [] && SameAsRestart(base, patches[..|patches| - 1])
    ensures SameAsRestart(base, patches) <==> ClashFreeAt(base, patches, |patches| - 1)
  {
    hide NoClash, Merge;
    var n := |patches| - 1;
    AssociativeExactlyWithoutClash(Obj(base), MergeAll(Obj(map[]), patches[..n]), Obj(patches[n]));
  }

  // Patching keeps up with a restart all along exactly if no patch clashes with the base and
  // what the patches before it have overridden.
  lemma {:induction false} KeepsUpExactlyWithoutClash(base: Doc, patches: seq<Doc>)
    ensures KeepsUp(base, patches) <==> forall i :: 0 <= i < |patches| ==> ClashFreeAt(base, patches, i)
  {
    hide NoClash, Merge, SameAsRestart;
    if patches == [] {
      NoPatches(base);
      assert patches[..0] == [];
    } else {
      var n := |patches| - 1;
      KeepsUpExactlyWithoutClash(base, patches[..n]);
      assert forall i :: 0 <= i <= n ==> patches[..n][..i] == patches[..i];
      assert patches[..n + 1] == patches;
      assert forall i :: 0 <= i < n ==> (ClashFreeAt(base, patches[..n], i) <==> ClashFreeAt(base, patches, i));
      if KeepsUp(base, patches[..n]) {
        assert SameAsRestart(base, patches[..n][..n]);
        NextKeepsUp(base, patches);
      }
      if KeepsUp(base, patches) {
        forall i | 0 <= i <= n
          ensures SameAsRestart(base, patches[..n][..i])
        {
          assert SameAsRestart(base, patches[..i]);
        }
      }
    }
  }

  lemma NoPatches(base: Doc)
    ensures SameAsRestart(base, [])
  {
    assert Merge(Obj(base), Obj(map[])).fields == base;
  }

  // Where it breaks: an object, overridden by a plain value, overridden by an empty object.
  lemma RestartDiffers()
    ensures var base, patches := map["a" := Obj(map["x" := Atom("1")])], [map["a" := Atom("0")], map["a" := Obj(map[])]];
            !SameAsRestart(base, patches)
  {
    var base: Doc := map["a" := Obj(map["x" := Atom("1")])];
    var first: Doc, second: Doc := map["a" := Atom("0")], map["a" := Obj(map[])];
    var patches := [first, second];
    assert patches[..1] == [first] && [first][..0] == [];
    var persisted := Merge(Obj(map[]), Obj(first));
    assert MergeAll(Obj(map[]), [first]) == Merge(MergeAll(Obj(map[]), []), Obj(first));
    assert MergeAll(Obj(base), [first]) == Merge(MergeAll(Obj(base), []), Obj(first));
    AtMerged(Obj(base), Obj(first), "a");
    AtMerged(Obj(map[]), Obj(first), "a");
    AtMerged(Merge(Obj(base), Obj(first)), Obj(second), "a");
    AtMerged(persisted, Obj(second), "a");
    AtMerged(Obj(base), Merge(persisted, Obj(second)), "a");
    var live, again := MergeAll(Obj(base), patches), Merge(Obj(base), MergeAll(Obj(map[]), patches));
    assert At(FieldsOf(live), "a") == Obj(map[]);
    assert At(FieldsOf(again), "a") == Merge(Obj(map["x" := Atom("1")]), Obj(map[]));
    assert "x" in At(FieldsOf(again), "a").fields;
  }
}
