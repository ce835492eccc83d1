/** The order in which encoding/json writes the keys of a map: ascending, character by
    character. */
module KeyOrder {

  predicate Less(a: string, b: string)
    decreases |a|
  {
    if b == "" then false
    else if a == "" then true
    else if a[0] != b[0] then a[0] < b[0]
    else Less(a[1..], b[1..])
  }

  lemma {:induction false} LessIsTotal(a: string, b: string)
    ensures a == b || Less(a, b) || Less(b, a)
    ensures !(Less(a, b) && Less(b, a)) && (a == b ==> !Less(a, b))
    decreases |a|
  {
    if a != "" && b != "" {
      LessIsTotal(a[1..], b[1..]);
      assert a == [a[0]] + a[1..] && b == [b[0]] + b[1..];
    }
  }

  lemma {:induction false} LessIsTransitive(a: string, b: string, c: string)
    requires Less(a, b) && Less(b, c)
    ensures Less(a, c)
    decreases |a|
  {
    if a != "" && a[0] == b[0] == c[0] {
      LessIsTransitive(a[1..], b[1..], c[1..]);
    }
  }

  predicate IsLeast(keys: set<string>, k: string)
  {
    k in keys && forall j :: j in keys && j != k ==> Less(k, j)
  }

  lemma {:induction false} LeastExists(keys: set<string>) returns (k: string)
    requires keys != {}
    ensures IsLeast(keys, k)
    decreases |keys|
  {
    var j :| j in keys;
    if keys == {j} {
      return j;
    }
    var rest := keys - {j};
    assert keys == rest + {j};
    assert rest != {};
    var m := LeastExists(rest);
    LessIsTotal(j, m);
    k := if Less(j, m) then j else m;
    forall x | x in keys && x != k
      ensures Less(k, x)
    {
      if k == j && x != m {
        LessIsTransitive(j, m, x);
      }
    }
  }

  function Least(keys: set<string>): (k: string)
    requires keys != {}
    ensures IsLeast(keys, k)
  {
    assert exists k :: IsLeast(keys, k) by {
      var k := LeastExists(keys);
    }
    assert forall j, k :: IsLeast(keys, j) && IsLeast(keys, k) ==> j == k by {
      forall j, k | IsLeast(keys, j) && IsLeast(keys, k)
        ensures j == k
      {
        LessIsTotal(j, k);
      }
    }
    var k :| IsLeast(keys, k);
    k
  }

  function Sorted(keys: set<string>): seq<string>
    decreases |keys|
  {
    if keys == {} then [] else [Least(keys)] + Sorted(keys - {Least(keys)})
  }

  // Each key occurs, and those before it are smaller.
  lemma {:induction false} SortedLists(keys: set<string>)
    ensures forall k :: k in keys <==> k in Sorted(keys)
    ensures forall i, j :: 0 <= i < j < |Sorted(keys)| ==> Less(Sorted(keys)[i], Sorted(keys)[j])
    decreases |keys|
  {
    if keys != {} {
      var k := Least(keys);
      SortedLists(keys - {k});
      var rest := Sorted(keys - {k});
      assert forall i :: 0 <= i < |rest| ==> rest[i] in rest;
    }
  }
}
