/** Decoding merged documents into the typed configuration (config.MergeOverrides), and when
    patching the running configuration gives what a restart makes of the persisted overrides. */
module ConfigDecode {
  import opened Common
  import opened Names
  import opened KeyOrder
  import opened ConfigMerge

  // ---------- the types of the configuration ----------

  // A field that is no struct. Texts are what encoding/json writes; fits says which it accepts,
  // onto what decoding the second text makes of a field that holds the first. (A slice decoded
  // onto another keeps, in elements that name not all their fields, what was there.) An empty
  // field gets the default.
  datatype Leaf = Leaf(fits: string -> bool, onto: (string, string) -> string, empty: string -> bool, dflt: string)

  // names lists the fields in the order of their declaration.
  datatype Schema = Value(leaf: Leaf) | Struct(names: seq<string>, fields: map<string, Schema>)

  // The first field whose name differs from the key in letter case only.
  function FoldedField(names: seq<string>, k: string): Option<string>
  {
    if names == [] then None
    else if Lower(names[0]) == Lower(k) then Some(names[0])
    else FoldedField(names[1..], k)
  }

  // The field a key is decoded into: the one of exactly this name, else a folded one.
  function Target(s: Schema, k: string): (n: Option<string>)
    requires s.Struct?
    ensures n.Some? ==> n.value in s.fields
  {
    if k in s.fields then Some(k)
    else
      match FoldedField(s.names, k)
      case None => None
      case Some(n) => if n in s.fields then Some(n) else None
  }

  function TextOf(v: Json): string
  {
    if v.Atom? then v.text else ""
  }

  // Whether a document decodes without a type error.
  predicate Fits(s: Schema, doc: Json)
    decreases s
  {
    doc.Null? ||
    match s
    case Value(l) => doc.Atom? && l.fits(doc.text)
    case Struct(_, _) =>
      doc.Obj? && forall k :: k in doc.fields && Target(s, k).Some? ==> Fits(s.fields[Target(s, k).value], doc.fields[k])
  }

  // What decoding makes of the current value: the keys of an object go into the fields they name, in their
  // order in the text, so that the last one for a field counts.
  function Decoded(s: Schema, cur: Json, doc: Json): Json
    decreases s, 1, 0
  {
    match s
    case Value(l) => if doc.Atom? then Atom(l.onto(TextOf(cur), doc.text)) else cur
    case Struct(_, fields) =>
      if !doc.Obj? then cur
      else Obj(map n | n in fields :: FieldDecoded(s, n, At(FieldsOf(cur), n), doc.fields, Sorted(doc.fields.Keys)))
  }

  function FieldDecoded(s: Schema, n: string, cur: Json, d: Doc, keys: seq<string>): Json
    requires s.Struct? && n in s.fields
    decreases s, 0, |keys|
  {
    if keys == [] then cur
    else
      var k := keys[|keys| - 1];
      var before := FieldDecoded(s, n, cur, d, keys[..|keys| - 1]);
      if Target(s, k) == Some(n) then Decoded(s.fields[n], before, At(d, k)) else before
  }

  function Filled(s: Schema, c: Json): Json
    decreases s
  {
    match s
    case Value(l) => if c.Atom? && l.empty(c.text) then Atom(l.dflt) else c
    case Struct(_, fields) => Obj(map n | n in fields :: Filled(fields[n], At(FieldsOf(c), n)))
  }

  // torn is what a failed decoding leaves; nothing is assumed of it.
  datatype Typing = Typing(schema: Schema, torn: (Doc, Doc) -> Doc)

  function Settled(t: Typing, cfg: Doc, merged: Doc): Doc
  {
    if Fits(t.schema, Obj(merged)) then FieldsOf(Filled(t.schema, Decoded(t.schema, Obj(cfg), Obj(merged))))
    else t.torn(cfg, merged)
  }

  function Overridden(t: Typing, cfg: Doc, overrides: Doc): Doc
  {
    if overrides == map[] then cfg else Settled(t, cfg, Merged(cfg, overrides))
  }

  // config.MergeOverrides
  method MergeOverrides(t: Typing, cfg: Doc, overrides: Doc) returns (r: Doc, ok: bool)
    ensures r == Overridden(t, cfg, overrides)
    ensures ok <==> overrides == map[] || Fits(t.schema, Obj(Merged(cfg, overrides)))
  {
    hide Merged, Fits, Filled, Decoded;
    if |overrides| == 0 {
      assert overrides == map[];
      return cfg, true;
    }
    var merged := MergeMap(cfg, overrides);
    if !Fits(t.schema, Obj(merged)) {
      return t.torn(cfg, merged), false;
    }
    r := FieldsOf(Filled(t.schema, Decoded(t.schema, Obj(cfg), Obj(merged))));
    ok := true;
  }

  // The running configuration after some patches, and what is persisted then.
  function Running(t: Typing, base: Doc, patches: seq<Doc>): Doc
  {
    if patches == [] then base
    else Overridden(t, Running(t, base, patches[..|patches| - 1]), patches[|patches| - 1])
  }

  function Persisted(patches: seq<Doc>): Doc
  {
    FieldsOf(MergeAll(Obj(map[]), patches))
  }

  // ---------- well-formed types and documents ----------

  // A text as encoding/json writes it: decoding it gives it back, whatever was there.
  ghost predicate Complete(l: Leaf, v: string)
  {
    l.fits(v) && forall o :: l.onto(o, v) == v
  }

  // A text that leaves nothing of what was there.
  ghost predicate SelfContained(l: Leaf, v: string)
  {
    forall o, o' :: l.onto(o, v) == l.onto(o', v)
  }

  // What a field holds after decoding, or by default, is written as a complete text.
  ghost predicate Sound(s: Schema)
    decreases s
  {
    match s
    case Value(l) => Complete(l, l.dflt) && forall o, v :: l.fits(v) ==> Complete(l, l.onto(o, v))
    case Struct(names, fields) => (forall n :: n in names <==> n in fields) && forall n :: n in fields ==> Sound(fields[n])
  }

  // A number, a string, a switch or a duration: the new text replaces the old.
  function Scalar(fits: string -> bool, empty: string -> bool, dflt: string): Leaf
  {
    Leaf(fits, (cur, v) => v, empty, dflt)
  }

  lemma ScalarIsSound(fits: string -> bool, empty: string -> bool, dflt: string, v: string)
    requires fits(dflt)
    ensures Sound(Value(Scalar(fits, empty, dflt))) && SelfContained(Scalar(fits, empty, dflt), v)
  {
  }

  // A configuration in its JSON form: every field, each with a complete text.
  ghost predicate Tidy(s: Schema, c: Json)
    decreases s
  {
    match s
    case Value(l) => c.Atom? && Complete(l, c.text)
    case Struct(_, fields) => c.Obj? && c.fields.Keys == fields.Keys && forall n :: n in fields ==> Tidy(fields[n], c.fields[n])
  }

  // Tidy, and nothing left to fill in.
  ghost predicate Ready(s: Schema, c: Json)
  {
    Tidy(s, c) && Filled(s, c) == c
  }

  // A key that is decoded into a field of another spelling, and after it.
  predicate LateTwin(s: Schema, k: string)
    requires s.Struct?
  {
    k !in s.fields && Target(s, k).Some? && Less(Target(s, k).value, k)
  }

  // A patch without late twins, whose values leave nothing of the old ones.
  ghost predicate Clean(s: Schema, p: Json)
    decreases s
  {
    match s
    case Value(l) => p.Atom? ==> SelfContained(l, p.text)
    case Struct(_, fields) =>
      p.Obj? ==>
        && (forall k :: k in p.fields ==> !LateTwin(s, k))
        && forall n :: n in fields && n in p.fields ==> Clean(fields[n], p.fields[n])
  }

  // A document that names every field, so that nothing of the old configuration is left.
  ghost predicate Whole(s: Schema, doc: Json)
    decreases s
  {
    match s
    case Value(l) => doc.Atom? && SelfContained(l, doc.text) && l.fits(doc.text)
    case Struct(_, fields) =>
      && doc.Obj? && (forall k :: k in doc.fields ==> !LateTwin(s, k))
      && forall n :: n in fields ==> n in doc.fields && Whole(fields[n], doc.fields[n])
  }

  // What such a document decodes to: field by field what it says under the field's own name.
  function Clear(s: Schema, doc: Json): Json
    decreases s
  {
    match s
    case Value(l) => Atom(l.onto("", TextOf(doc)))
    case Struct(_, fields) => Obj(map n | n in fields :: Clear(fields[n], At(FieldsOf(doc), n)))
  }

  // ---------- which key counts ----------

  lemma {:induction false} LastOfList(s: Schema, n: string, cur: Json, d: Doc, keys: seq<string>, i: nat) returns (before: Json)
    requires s.Struct? && n in s.fields && i < |keys| && Target(s, keys[i]) == Some(n)
    requires forall j :: i < j < |keys| ==> Target(s, keys[j]) != Some(n)
    ensures FieldDecoded(s, n, cur, d, keys) == Decoded(s.fields[n], before, At(d, keys[i]))
  {
    hide Target, Decoded;
    var m := |keys| - 1;
    if i == m {
      before := FieldDecoded(s, n, cur, d, keys[..m]);
    } else {
      before := LastOfList(s, n, cur, d, keys[..m], i);
    }
  }

  // The greatest key for a field decides it.
  lemma LastKeyCounts(s: Schema, n: string, cur: Json, d: Doc, k: string) returns (before: Json)
    requires s.Struct? && n in s.fields && k in d && Target(s, k) == Some(n)
    requires forall j :: j in d && j != k && Target(s, j) == Some(n) ==> Less(j, k)
    ensures At(FieldsOf(Decoded(s, cur, Obj(d))), n) == Decoded(s.fields[n], before, d[k])
  {
    hide Target, Less, Sorted;
    var keys := Sorted(d.Keys);
    SortedLists(d.Keys);
    assert k in keys;
    var i :| 0 <= i < |keys| && keys[i] == k;
    forall j | i < j < |keys|
      ensures Target(s, keys[j]) != Some(n)
    {
      LessIsTotal(keys[i], keys[j]);
      assert keys[j] in d.Keys;
    }
    before := LastOfList(s, n, At(FieldsOf(cur), n), d, keys, i);
  }

  // Without late twins a field's own name is the last key for it.
  lemma OwnNameIsLast(s: Schema, d: Doc, n: string)
    requires s.Struct? && n in s.fields && forall k :: k in d ==> !LateTwin(s, k)
    ensures Target(s, n) == Some(n)
    ensures forall j :: j in d && j != n && Target(s, j) == Some(n) ==> Less(j, n)
  {
    hide Less;
    forall j | j in d && j != n && Target(s, j) == Some(n)
      ensures Less(j, n)
    {
      assert !LateTwin(s, j);
      LessIsTotal(j, n);
    }
  }

  lemma {:induction false} DecodedWhole(s: Schema, cur: Json, doc: Json)
    requires Whole(s, doc)
    ensures Decoded(s, cur, doc) == Clear(s, doc)
    decreases s, 1
  {
    if s.Struct? {
      hide LateTwin, Target, FieldDecoded;
      forall n | n in s.fields
        ensures At(FieldsOf(Decoded(s, cur, doc)), n) == Clear(s.fields[n], doc.fields[n])
      {
        FieldWhole(s, cur, doc, n);
      }
    }
  }

  lemma FieldWhole(s: Schema, cur: Json, doc: Json, n: string)
    requires s.Struct? && n in s.fields && Whole(s, doc)
    ensures n in doc.fields && At(FieldsOf(Decoded(s, cur, doc)), n) == Clear(s.fields[n], doc.fields[n])
    decreases s, 0
  {
    hide LateTwin, Target, Decoded, Clear;
    OwnNameIsLast(s, doc.fields, n);
    var before := LastKeyCounts(s, n, cur, doc.fields, n);
    DecodedWhole(s.fields[n], before, doc.fields[n]);
  }

  // ---------- merging fitting, clean documents ----------

  lemma AtFields(b: Json, x: Json, k: string)
    requires b.Obj? && (x.Null? || x.Obj?)
    ensures Merge(b, x).Obj? && At(FieldsOf(Merge(b, x)), k) == Merge(At(b.fields, k), At(FieldsOf(x), k))
  {
    if x.Obj? {
      AtMerged(b, x, k);
    }
  }

  lemma FitsByKey(s: Schema, d: Doc)
    requires s.Struct?
    ensures Fits(s, Obj(d)) <==> forall k :: Target(s, k).Some? ==> Fits(s.fields[Target(s, k).value], At(d, k))
  {
    hide Target;
    if Fits(s, Obj(d)) {
      forall k | Target(s, k).Some?
        ensures Fits(s.fields[Target(s, k).value], At(d, k))
      {
      }
    } else {
      var k :| k in d && Target(s, k).Some? && !Fits(s.fields[Target(s, k).value], d[k]);
      assert At(d, k) == d[k];
    }
  }

  // What fits stays fitting exactly under overrides that fit.
  lemma {:induction false} MergedFits(s: Schema, c: Json, p: Json)
    requires Fits(s, c)
    ensures Fits(s, Merge(c, p)) <==> Fits(s, p)
    decreases s
  {
    if s.Struct? && p.Obj? {
      hide Target, Merge, Fits;
      var m := MergedFields(c, p);
      NotAtom(s, c);
      forall k | Target(s, k).Some?
        ensures At(m, k) == Merge(At(FieldsOf(c), k), At(p.fields, k))
        ensures Fits(s.fields[Target(s, k).value], At(m, k)) <==> Fits(s.fields[Target(s, k).value], At(p.fields, k))
      {
        AtMerged(c, p, k);
        FitsAt(s, c, k);
        MergedFits(s.fields[Target(s, k).value], At(FieldsOf(c), k), At(p.fields, k));
      }
      FitsByKey(s, m);
      FitsByKey(s, p.fields);
    }
  }

  function MergedFields(c: Json, p: Json): (d: Doc)
    requires p.Obj?
    ensures Merge(c, p) == Obj(d)
  {
    Merge(c, p).fields
  }

  lemma NotAtom(s: Schema, c: Json)
    requires s.Struct? && Fits(s, c)
    ensures c.Null? || c.Obj?
  {
  }

  lemma FitsAt(s: Schema, c: Json, k: string)
    requires s.Struct? && Fits(s, c) && Target(s, k).Some?
    ensures Fits(s.fields[Target(s, k).value], At(FieldsOf(c), k))
  {
    hide Target;
    if c.Obj? {
      FitsByKey(s, c.fields);
    }
  }

  lemma FieldFits(s: Schema, c: Json, n: string)
    requires s.Struct? && Fits(s, c) && n in s.fields
    ensures Fits(s.fields[n], At(FieldsOf(c), n))
  {
    FitsAt(s, c, n);
  }

  lemma {:induction false} WholeMerged(s: Schema, c: Json, p: Json)
    requires Whole(s, c) && Fits(s, p) && Clean(s, p)
    ensures Whole(s, Merge(c, p))
    decreases s
  {
    if s.Struct? && p.Obj? {
      hide LateTwin, Fits;
      var m := Merge(c, p);
      forall n | n in s.fields
        ensures n in m.fields && Whole(s.fields[n], m.fields[n])
      {
        AtMerged(c, p, n);
        FieldFits(s, p, n);
        WholeMerged(s.fields[n], c.fields[n], At(p.fields, n));
      }
      forall k | k in m.fields
        ensures !LateTwin(s, k)
      {
        AtMerged(c, p, k);
      }
    }
  }

  lemma {:induction false} CleanMerged(s: Schema, x: Json, y: Json)
    requires Clean(s, x) && Clean(s, y)
    ensures Clean(s, Merge(x, y))
    decreases s
  {
    if s.Struct? && y.Obj? {
      hide LateTwin;
      var m := Merge(x, y);
      forall n | n in s.fields && n in m.fields
        ensures Clean(s.fields[n], m.fields[n])
      {
        AtMerged(x, y, n);
        CleanMerged(s.fields[n], At(FieldsOf(x), n), At(y.fields, n));
      }
      forall k | k in m.fields
        ensures !LateTwin(s, k)
      {
        AtMerged(x, y, k);
      }
    }
  }

  lemma WholeField(s: Schema, doc: Json, n: string)
    requires s.Struct? && n in s.fields && Whole(s, doc)
    ensures doc.Obj? && n in doc.fields && Whole(s.fields[n], doc.fields[n])
  {
  }

  lemma ClearByField(s: Schema, x: Json, y: Json)
    requires s.Struct?
    requires forall n :: n in s.fields ==> Clear(s.fields[n], At(FieldsOf(x), n)) == Clear(s.fields[n], At(FieldsOf(y), n))
    ensures Clear(s, x) == Clear(s, y)
  {
    hide Clear;
    ClearKeys(s, x);
    ClearKeys(s, y);
    var a, b := Clear(s, x).fields, Clear(s, y).fields;
    forall n | n in s.fields
      ensures a[n] == b[n]
    {
      ClearField(s, x, n);
      ClearField(s, y, n);
    }
    assert a == b;
  }

  lemma ClearField(s: Schema, x: Json, n: string)
    requires s.Struct? && n in s.fields
    ensures Clear(s, x).Obj? && n in Clear(s, x).fields && Clear(s, x).fields[n] == Clear(s.fields[n], At(FieldsOf(x), n))
  {
  }

  lemma ClearKeys(s: Schema, x: Json)
    requires s.Struct?
    ensures Clear(s, x).Obj? && Clear(s, x).fields.Keys == s.fields.Keys
  {
  }

  // Where the types say what is an object, merging is associative.
  lemma {:induction false} ClearAssociates(s: Schema, b: Json, x: Json, y: Json)
    requires Whole(s, b) && Fits(s, x) && Fits(s, y)
    ensures Clear(s, Merge(Merge(b, x), y)) == Clear(s, Merge(b, Merge(x, y)))
    decreases s
  {
    if s.Struct? && y.Obj? {
      hide Whole, Fits, Merge, Clear;
      NotAtom(s, x);
      forall n | n in s.fields
        ensures Clear(s.fields[n], At(FieldsOf(Merge(Merge(b, x), y)), n))
             == Clear(s.fields[n], At(FieldsOf(Merge(b, Merge(x, y))), n))
      {
        WholeField(s, b, n);
        AtFields(b, x, n);
        AtMerged(Merge(b, x), y, n);
        AtMerged(x, y, n);
        AtMerged(b, Merge(x, y), n);
        FieldFits(s, x, n);
        FieldFits(s, y, n);
        ClearAssociates(s.fields[n], b.fields[n], At(FieldsOf(x), n), At(y.fields, n));
      }
      ClearByField(s, Merge(Merge(b, x), y), Merge(b, Merge(x, y)));
    } else if s.Struct? {
      NotAtom(s, y);
    }
  }

  // Merging only sees of a whole document what it decodes to.
  lemma {:induction false} ClearCongruent(s: Schema, x: Json, y: Json, p: Json)
    requires Whole(s, x) && Whole(s, y) && Clear(s, x) == Clear(s, y) && Fits(s, p)
    ensures Clear(s, Merge(x, p)) == Clear(s, Merge(y, p))
    decreases s
  {
    if s.Struct? && p.Obj? {
      hide Whole, Fits, Merge, Clear;
      forall n | n in s.fields
        ensures Clear(s.fields[n], At(FieldsOf(Merge(x, p)), n)) == Clear(s.fields[n], At(FieldsOf(Merge(y, p)), n))
      {
        AtMerged(x, p, n);
        AtMerged(y, p, n);
        FieldFits(s, p, n);
        WholeField(s, x, n);
        WholeField(s, y, n);
        SameField(s, x, y, n);
        ClearCongruent(s.fields[n], x.fields[n], y.fields[n], At(p.fields, n));
      }
      ClearByField(s, Merge(x, p), Merge(y, p));
    } else if s.Struct? {
      NotAtom(s, p);
    }
  }

  lemma SameField(s: Schema, x: Json, y: Json, n: string)
    requires s.Struct? && n in s.fields && Clear(s, x) == Clear(s, y)
    ensures Clear(s.fields[n], At(FieldsOf(x), n)) == Clear(s.fields[n], At(FieldsOf(y), n))
  {
    assert Clear(s, x).fields[n] == Clear(s, y).fields[n];
  }

  // ---------- settled configurations ----------

  lemma {:induction false} ClearIsTidy(s: Schema, doc: Json)
    requires Sound(s) && Whole(s, doc)
    ensures Tidy(s, Clear(s, doc))
    decreases s
  {
    if s.Struct? {
      hide LateTwin;
      forall n | n in s.fields
        ensures Tidy(s.fields[n], Clear(s, doc).fields[n])
      {
        ClearIsTidy(s.fields[n], doc.fields[n]);
      }
    }
  }

  lemma {:induction false} FilledIsReady(s: Schema, c: Json)
    requires Sound(s) && Tidy(s, c)
    ensures Ready(s, Filled(s, c))
    decreases s
  {
    if s.Struct? {
      forall n | n in s.fields
        ensures Tidy(s.fields[n], Filled(s, c).fields[n])
        ensures Filled(s.fields[n], Filled(s, c).fields[n]) == Filled(s, c).fields[n]
      {
        FilledIsReady(s.fields[n], c.fields[n]);
      }
    }
  }

  // A configuration in its JSON form is whole, fits, and decodes to itself.
  lemma {:induction false} TidyIsWhole(s: Schema, c: Json)
    requires Tidy(s, c)
    ensures Whole(s, c) && Fits(s, c) && Clear(s, c) == c
    decreases s
  {
    if s.Struct? {
      forall n | n in s.fields
        ensures Whole(s.fields[n], c.fields[n]) && Fits(s.fields[n], c.fields[n]) && Clear(s.fields[n], c.fields[n]) == c.fields[n]
      {
        TidyIsWhole(s.fields[n], c.fields[n]);
      }
      assert Clear(s, c).fields == c.fields;
    }
  }

  // Settling before the next patch does not matter.
  lemma {:induction false} FillAbsorbs(s: Schema, d: Json, p: Json)
    requires Sound(s) && Whole(s, d) && Fits(s, p)
    ensures Filled(s, Clear(s, Merge(Filled(s, Clear(s, d)), p))) == Filled(s, Clear(s, Merge(d, p)))
    decreases s
  {
    if s.Struct? {
      hide LateTwin, Fits, Merge;
      var c := Filled(s, Clear(s, d));
      NotAtom(s, p);
      forall n | n in s.fields
        ensures SameOnce(s.fields[n], At(FieldsOf(Merge(c, p)), n), At(FieldsOf(Merge(d, p)), n))
      {
        AtFields(c, p, n);
        AtFields(d, p, n);
        FieldFits(s, p, n);
        FillAbsorbs(s.fields[n], d.fields[n], At(FieldsOf(p), n));
      }
      SameByField(s, Merge(c, p), Merge(d, p));
    }
  }

  // Two documents that settle to the same.
  ghost predicate SameOnce(s: Schema, x: Json, y: Json)
  {
    Filled(s, Clear(s, x)) == Filled(s, Clear(s, y))
  }

  lemma SameByField(s: Schema, x: Json, y: Json)
    requires s.Struct? && forall n :: n in s.fields ==> SameOnce(s.fields[n], At(FieldsOf(x), n), At(FieldsOf(y), n))
    ensures SameOnce(s, x, y)
  {
    forall n | n in s.fields
      ensures Filled(s.fields[n], At(Clear(s, x).fields, n)) == Filled(s.fields[n], At(Clear(s, y).fields, n))
    {
      assert SameOnce(s.fields[n], At(FieldsOf(x), n), At(FieldsOf(y), n));
    }
  }

  // ---------- patching and restarting ----------

  ghost predicate Plain(s: Schema, patches: seq<Doc>)
  {
    forall i :: 0 <= i < |patches| ==> Fits(s, Obj(patches[i])) && Clean(s, Obj(patches[i]))
  }

  lemma EmptyChangesNothing(d: Doc)
    ensures Merge(Obj(d), Obj(map[])) == Obj(d)
  {
    assert Merge(Obj(d), Obj(map[])).fields == d;
  }

  // Overriding a ready configuration: what the merged document says, defaults filled in.
  lemma OverriddenClears(t: Typing, cfg: Doc, p: Doc)
    requires Sound(t.schema) && Ready(t.schema, Obj(cfg)) && Fits(t.schema, Obj(p)) && Clean(t.schema, Obj(p))
    ensures Obj(Overridden(t, cfg, p)) == Filled(t.schema, Clear(t.schema, Merge(Obj(cfg), Obj(p))))
    ensures Fits(t.schema, Merge(Obj(cfg), Obj(p))) && Whole(t.schema, Merge(Obj(cfg), Obj(p)))
  {
    hide Sound, Tidy, Fits, Clean, Merge, Whole, Decoded;
    var merged := Merge(Obj(cfg), Obj(p));
    TidyIsWhole(t.schema, Obj(cfg));
    MergedFits(t.schema, Obj(cfg), Obj(p));
    WholeMerged(t.schema, Obj(cfg), Obj(p));
    DecodedWhole(t.schema, Obj(cfg), merged);
    EmptyChangesNothing(cfg);
    AtMerged(Obj(cfg), Obj(p), "");
    FilledIsObj(t.schema, Obj(cfg), Clear(t.schema, merged));
    assert Obj(Merged(cfg, p)) == merged;
  }

  lemma FilledIsObj(s: Schema, c: Json, doc: Json)
    requires Tidy(s, c) && c.Obj?
    ensures Filled(s, doc).Obj?
  {
  }

  // The running configuration is what all patches merged into the base settle to.
  lemma {:induction false} RunningSettles(t: Typing, base: Doc, patches: seq<Doc>)
    requires Sound(t.schema) && Ready(t.schema, Obj(base)) && Plain(t.schema, patches)
    ensures var d := MergeAll(Obj(base), patches);
            && Whole(t.schema, d) && Obj(Running(t, base, patches)) == Filled(t.schema, Clear(t.schema, d))
            && Ready(t.schema, Obj(Running(t, base, patches)))
  {
    hide Sound, Tidy, Fits, Clean, Merge, Whole, Clear, Filled, Overridden;
    if patches == [] {
      TidyIsWhole(t.schema, Obj(base));
    } else {
      var n := |patches| - 1;
      var before, p := MergeAll(Obj(base), patches[..n]), patches[n];
      RunningSettles(t, base, patches[..n]);
      OverriddenClears(t, Running(t, base, patches[..n]), p);
      FillAbsorbs(t.schema, before, Obj(p));
      WholeMerged(t.schema, before, Obj(p));
      ClearIsTidy(t.schema, Merge(before, Obj(p)));
      FilledIsReady(t.schema, Clear(t.schema, Merge(before, Obj(p))));
    }
  }

  lemma {:induction false} PersistedFits(s: Schema, patches: seq<Doc>)
    requires s.Struct? && Plain(s, patches)
    ensures var p := MergeAll(Obj(map[]), patches); p.Obj? && Fits(s, p) && Clean(s, p)
  {
    if patches != [] {
      hide Fits, Clean, Merge;
      var n := |patches| - 1;
      var before := MergeAll(Obj(map[]), patches[..n]);
      PersistedFits(s, patches[..n]);
      MergedFits(s, before, Obj(patches[n]));
      CleanMerged(s, before, Obj(patches[n]));
      AtMerged(before, Obj(patches[n]), "");
    }
  }

  // Merged into the base one by one or all at once, patches decode to the same.
  lemma {:induction false} PersistedSettles(s: Schema, base: Doc, patches: seq<Doc>)
    requires s.Struct? && Whole(s, Obj(base)) && Plain(s, patches)
    ensures var d, all := MergeAll(Obj(base), patches), Merge(Obj(base), MergeAll(Obj(map[]), patches));
            Whole(s, d) && Whole(s, all) && Clear(s, d) == Clear(s, all)
  {
    hide Fits, Clean, Merge, Whole, Clear;
    if patches == [] {
      EmptyChangesNothing(base);
    } else {
      var n := |patches| - 1;
      var d, persisted, p := MergeAll(Obj(base), patches[..n]), MergeAll(Obj(map[]), patches[..n]), Obj(patches[n]);
      PersistedSettles(s, base, patches[..n]);
      PersistedFits(s, patches[..n]);
      PersistedFits(s, patches);
      WholeMerged(s, d, p);
      WholeMerged(s, Obj(base), Merge(persisted, p));
      ClearCongruent(s, d, Merge(Obj(base), persisted), p);
      ClearAssociates(s, Obj(base), persisted, p);
    }
  }

  // Patches that fit the types, without late twins and with values that leave nothing of the
  // old ones, change the running configuration into what a restart makes of them.
  lemma RestartIsRunning(t: Typing, base: Doc, patches: seq<Doc>)
    requires Sound(t.schema) && Ready(t.schema, Obj(base)) && Plain(t.schema, patches)
    ensures Overridden(t, base, Persisted(patches)) == Running(t, base, patches)
  {
    hide Sound, Fits, Clean, Merge, Whole, Clear, Filled, Overridden;
    assert t.schema.Struct?;
    hide Tidy;
    RunningSettles(t, base, patches);
    TidyIsWhole(t.schema, Obj(base));
    PersistedSettles(t.schema, base, patches);
    PersistedFits(t.schema, patches);
    OverriddenClears(t, base, Persisted(patches));
    assert Obj(Persisted(patches)) == MergeAll(Obj(map[]), patches);
  }

  // With such patches before it, the last one is accepted, and a restart after it decodes,
  // exactly if it fits the types. One that does not is persisted all the same.
  lemma LastPatchDecides(t: Typing, base: Doc, patches: seq<Doc>)
    requires Sound(t.schema) && Ready(t.schema, Obj(base)) && patches != [] && Plain(t.schema, patches[..|patches| - 1])
    ensures var live, last := Running(t, base, patches[..|patches| - 1]), patches[|patches| - 1];
            && (Fits(t.schema, Obj(Merged(live, last))) <==> Fits(t.schema, Obj(last)))
            && (Fits(t.schema, Obj(Merged(base, Persisted(patches)))) <==> Fits(t.schema, Obj(last)))
  {
    hide Sound, Fits, Clean, Merge, Whole, Clear, Filled, Overridden;
    var n := |patches| - 1;
    var live, last, persisted := Running(t, base, patches[..n]), patches[n], MergeAll(Obj(map[]), patches[..n]);
    assert t.schema.Struct?;
    hide Tidy;
    RunningSettles(t, base, patches[..n]);
    TidyIsWhole(t.schema, Obj(live));
    TidyIsWhole(t.schema, Obj(base));
    PersistedFits(t.schema, patches[..n]);
    MergedFits(t.schema, Obj(live), Obj(last));
    MergedFits(t.schema, persisted, Obj(last));
    MergedFits(t.schema, Obj(base), Merge(persisted, Obj(last)));
    AtMerged(Obj(live), Obj(last), "");
    AtMerged(persisted, Obj(last), "");
    AtMerged(Obj(base), Merge(persisted, Obj(last)), "");
  }

  // ---------- the handler ----------

  class ConfigHandler {
    const typing: Typing
    const editable: set<string>
    var live: Doc        // the running configuration, in its JSON form
    var persisted: Doc   // config_overrides.json
    var base: Doc        // the configuration file, with its defaults
    ghost var patches: seq<Doc> // those persisted so far

    constructor (typing: Typing, editable: set<string>, base: Doc)
      ensures Valid() && this.base == base && patches == [] && this.editable == editable && this.typing == typing
    {
      this.typing, this.editable, live, persisted := typing, editable, base, map[];
      this.base, patches := base, [];
    }

    ghost predicate Valid()
      reads this
    {
      live == Running(typing, base, patches) && Obj(persisted) == MergeAll(Obj(map[]), patches)
    }

    // False when the merged configuration does not decode.
    method ServePatch(body: Doc) returns (ok: bool)
      requires Valid()
      modifies this
      ensures Valid() && base == old(base)
      ensures var edits := Edits(editable, body);
              && patches == old(patches) + (if edits == map[] then [] else [edits])
              && (ok <==> edits == map[] || Fits(typing.schema, Obj(Merged(old(live), edits))))
    {
      hide Merge, Edits, Overridden, Fits;
      var overrides := map k | k in body && k in editable && body[k] != Null :: body[k];
      EditsAre(editable, body, overrides);
      if |overrides| == 0 {
        assert overrides == map[];
        return true;
      }
      persisted := MergeOverridesMap(persisted, overrides);
      live, ok := MergeOverrides(typing, live, overrides);
      patches := patches + [overrides];
      assert patches[..|patches| - 1] == old(patches);
      MergeIntoFields(Obj(old(persisted)), Obj(overrides));
    }

    // Starting again from the same base.
    method Restart() returns (config: Doc)
      requires Valid()
      ensures config == Overridden(typing, base, persisted)
      ensures Sound(typing.schema) && Ready(typing.schema, Obj(base)) && Plain(typing.schema, patches) ==> config == live
    {
      hide Merge, Overridden, Sound, Ready, Plain, Fits;
      var ok: bool;
      config, ok := MergeOverrides(typing, base, persisted);
      if Sound(typing.schema) && Ready(typing.schema, Obj(base)) && Plain(typing.schema, patches) {
        RestartIsRunning(typing, base, patches);
      }
    }
  }

  function Edits(editable: set<string>, body: Doc): Doc
  {
    map k | k in body && k in editable && body[k] != Null :: body[k]
  }

  lemma EditsAre(editable: set<string>, body: Doc, overrides: Doc)
    requires overrides == map k | k in body && k in editable && body[k] != Null :: body[k]
    ensures overrides == Edits(editable, body)
  {
  }
}
