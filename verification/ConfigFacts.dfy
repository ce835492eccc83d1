/** What merging and decoding leave at each place of a configuration. */
module ConfigFacts {
  import opened Common
  import opened Names
  import opened KeyOrder
  import opened ConfigMerge
  import opened ConfigDecode

  // ---------- merging, path by path ----------

  // The value under a path of keys; null where there is nothing.
  function Look(v: Json, path: seq<string>): Json
  {
    if path == [] then v
    else if v.Obj? && path[0] in v.fields then Look(v.fields[path[0]], path[1..])
    else Null
  }

  // The overrides decide along a path at the first place where they have no object: a plain
  // value there is all that is left, a null or nothing leaves what the base has.
  lemma {:induction false} MergedAtEveryPath(b: Json, o: Json, path: seq<string>, i: nat)
    requires i <= |path| && forall j :: 0 <= j < i ==> Look(o, path[..j]).Obj?
    ensures Look(o, path[..i]).Atom? ==> Look(Merge(b, o), path) == if i == |path| then Look(o, path) else Null
    ensures Look(o, path[..i]).Null? ==> Look(Merge(b, o), path) == Look(b, path)
    ensures Look(o, path[..i]).Obj? && i == |path| ==> Look(Merge(b, o), path).Obj?
    decreases |path|
  {
    assert path[..|path|] == path;
    if i == 0 {
      NothingBelow(o, path);
    } else {
      assert Look(o, path[..0]) == o;
      var k, rest := path[0], path[1..];
      AtMerged(b, o, k);
      forall j | 0 < j <= i
        ensures Look(o, path[..j]) == Look(At(o.fields, k), rest[..j - 1])
      {
        LookStep(o, path[..j]);
        assert path[..j][1..] == rest[..j - 1];
      }
      forall j | 0 <= j < i - 1
        ensures Look(At(o.fields, k), rest[..j]).Obj?
      {
        assert Look(o, path[..j + 1]).Obj?;
      }
      MergedAtEveryPath(At(FieldsOf(b), k), At(o.fields, k), rest, i - 1);
      LookStep(Merge(b, o), path);
      LookStep(b, path);
      LookStep(o, path);
    }
  }

  lemma LookStep(v: Json, path: seq<string>)
    requires path != []
    ensures Look(v, path) == Look(At(FieldsOf(v), path[0]), path[1..])
  {
    NothingBelow(Null, path[1..]);
  }

  lemma NothingBelow(v: Json, path: seq<string>)
    ensures !v.Obj? && path != [] ==> Look(v, path) == Null
    ensures v.Null? ==> Look(v, path) == Null
  {
  }

  // ---------- what a patch may change ----------

  // Kept are the editable keys that are not null, with their values.
  lemma EditsExactly(editable: set<string>, body: Doc, k: string)
    ensures var edits := Edits(editable, body);
            && (k in edits <==> k in editable && k in body && !body[k].Null?)
            && (k in edits ==> edits[k] == body[k])
  {
  }

  // ---------- decoding, field by field ----------

  predicate SameButCase(a: string, b: string)
  {
    |a| == |b| && forall i :: 0 <= i < |a| ==> LowerChar(a[i]) == LowerChar(b[i])
  }

  // A key goes into the field of its name, else into the first declared one that differs from
  // it in letter case only.
  predicate GoesTo(s: Schema, k: string, n: string)
    requires s.Struct?
  {
    if k in s.fields then n == k
    else
      n in s.fields && exists i :: 0 <= i < |s.names| && s.names[i] == n && SameButCase(n, k)
                                   && forall j :: 0 <= j < i ==> !SameButCase(s.names[j], k)
  }

  lemma TargetExactly(s: Schema, k: string, n: string)
    requires s.Struct?
    ensures Target(s, k) == Some(n) <==> GoesTo(s, k, n)
  {
    hide Lower, SameButCase;
    FirstFolded(s.names, k);
  }

  lemma {:induction false} FirstFolded(names: seq<string>, k: string)
    ensures var r := FoldedField(names, k);
            if r.None? then forall i :: 0 <= i < |names| ==> !SameButCase(names[i], k)
            else exists i :: IsFirst(names, k, r.value, i)
    ensures forall i, n :: IsFirst(names, k, n, i) ==> FoldedField(names, k) == Some(n)
  {
    if names != [] {
      FoldsAlike(names[0], k);
      hide SameButCase, Lower;
      FirstFolded(names[1..], k);
      assert forall i :: 0 <= i < |names| - 1 ==> names[1..][i] == names[i + 1];
      if Lower(names[0]) == Lower(k) {
        assert IsFirst(names, k, names[0], 0);
      } else {
        forall i, n | IsFirst(names, k, n, i)
          ensures FoldedField(names, k) == Some(n)
        {
          assert IsFirst(names[1..], k, n, i - 1);
        }
        if FoldedField(names, k).Some? {
          var n := FoldedField(names, k).value;
          var i :| IsFirst(names[1..], k, n, i);
          assert IsFirst(names, k, n, i + 1);
        }
      }
    }
  }

  predicate IsFirst(names: seq<string>, k: string, n: string, i: int)
  {
    0 <= i < |names| && names[i] == n && SameButCase(n, k) && forall j :: 0 <= j < i ==> !SameButCase(names[j], k)
  }

  lemma FoldsAlike(a: string, b: string)
    ensures Lower(a) == Lower(b) <==> SameButCase(a, b)
  {
    if Lower(a) == Lower(b) {
      forall i | 0 <= i < |a|
        ensures LowerChar(a[i]) == LowerChar(b[i])
      {
        assert Lower(a)[i] == Lower(b)[i];
      }
    }
  }

  // Every field of the type is there, and one that no key goes to stays as it was.
  lemma FieldStays(s: Schema, cur: Json, d: Doc, n: string)
    requires s.Struct? && n in s.fields
    ensures var r := Decoded(s, cur, Obj(d));
            && r.Obj? && r.fields.Keys == s.fields.Keys
            && ((forall k :: k in d ==> !GoesTo(s, k, n)) ==> At(r.fields, n) == At(FieldsOf(cur), n))
  {
    if forall k :: k in d ==> !GoesTo(s, k, n) {
      forall k | k in d
        ensures Target(s, k) != Some(n)
      {
        TargetExactly(s, k, n);
      }
      hide Target, GoesTo;
      SortedLists(d.Keys);
      NoKeyNoChange(s, n, At(FieldsOf(cur), n), d, Sorted(d.Keys));
    }
  }

  // A field takes what the greatest of its keys says, onto what lesser ones may have left.
  lemma FieldTakesLast(s: Schema, cur: Json, d: Doc, n: string, k: string) returns (before: Json)
    requires s.Struct? && n in s.fields && k in d && GoesTo(s, k, n)
    requires forall j :: j in d && j != k && GoesTo(s, j, n) ==> Less(j, k)
    ensures At(FieldsOf(Decoded(s, cur, Obj(d))), n) == Decoded(s.fields[n], before, d[k])
  {
    forall j
      ensures Target(s, j) == Some(n) <==> GoesTo(s, j, n)
    {
      TargetExactly(s, j, n);
    }
    hide Target, GoesTo, Less, Decoded;
    before := LastKeyCounts(s, n, cur, d, k);
  }

  lemma {:induction false} NoKeyNoChange(s: Schema, n: string, cur: Json, d: Doc, keys: seq<string>)
    requires s.Struct? && n in s.fields && forall k :: k in keys ==> Target(s, k) != Some(n)
    ensures FieldDecoded(s, n, cur, d, keys) == cur
  {
    hide Target, Decoded;
    if keys != [] {
      NoKeyNoChange(s, n, cur, d, keys[..|keys| - 1]);
      assert keys[|keys| - 1] in keys;
    }
  }

  // A field that is no struct takes the text as its type does, and nothing from other values.
  lemma LeafExactly(l: Leaf, cur: Json, doc: Json)
    ensures Decoded(Value(l), cur, doc)
         == if doc.Atom? then Atom(l.onto(if cur.Atom? then cur.text else "", doc.text)) else cur
    ensures Fits(Value(l), doc) <==> doc == Null || (doc.Atom? && l.fits(doc.text))
  {
  }

  // A document fits where every value fits the field it goes to; other keys do not matter.
  lemma FitsExactly(s: Schema, doc: Json)
    requires s.Struct?
    ensures Fits(s, doc) <==>
            || doc == Null
            || (doc.Obj? && forall k, n :: k in doc.fields && GoesTo(s, k, n) ==> n in s.fields && Fits(s.fields[n], doc.fields[k]))
  {
    forall k, n
      ensures Target(s, k) == Some(n) <==> GoesTo(s, k, n)
    {
      TargetExactly(s, k, n);
    }
    hide Target, GoesTo;
  }

  // Without overrides nothing is decoded and no default filled in.
  lemma NothingOverridden(t: Typing, cfg: Doc, overrides: Doc)
    ensures |overrides| == 0 ==> Overridden(t, cfg, overrides) == cfg
    ensures 0 < |overrides| && !Fits(t.schema, Merge(Obj(cfg), Obj(overrides))) ==>
              Overridden(t, cfg, overrides) == t.torn(cfg, Merge(Obj(cfg), Obj(overrides)).fields)
  {
    assert |overrides| == 0 ==> overrides == map[];
  }

  // ---------- defaults ----------

  // The field under a path of names.
  function FieldAt(s: Schema, path: seq<string>): Option<Schema>
  {
    if path == [] then Some(s)
    else if s.Struct? && path[0] in s.fields then FieldAt(s.fields[path[0]], path[1..])
    else None
  }

  // Of every field that is no struct, however deep, an empty text becomes the default and
  // anything else stays.
  lemma {:induction false} DefaultsExactly(s: Schema, c: Json, path: seq<string>)
    requires FieldAt(s, path).Some? && FieldAt(s, path).value.Value?
    ensures var l, v := FieldAt(s, path).value.leaf, Look(c, path);
            Look(Filled(s, c), path) == if v.Atom? && l.empty(v.text) then Atom(l.dflt) else v
    decreases |path|
  {
    if path != [] {
      DefaultsExactly(s.fields[path[0]], At(FieldsOf(c), path[0]), path[1..]);
      LookStep(c, path);
    }
  }
}
