/** Domain names as the strings the program handles: case folding (ASCII), trailing dots,
    suffix tests, and splitting into labels. */
module Names {

  function LowerChar(c: char): char
  {
    if 'A' <= c <= 'Z' then (c as int + 32) as char else c
  }

  function Lower(s: string): (r: string)
    ensures |r| == |s| && forall i :: 0 <= i < |s| ==> r[i] == LowerChar(s[i])
  {
    seq(|s|, i requires 0 <= i < |s| => LowerChar(s[i]))
  }

  function TrimDot(s: string): string
  {
    if s != "" && s[|s| - 1] == '.' then s[..|s| - 1] else s
  }

  function Norm(s: string): string
  {
    Lower(TrimDot(s))
  }

  // Adds the trailing dot. (A backslash-escaped final dot is not modelled.)
  function Fqdn(s: string): string
  {
    if s != "" && s[|s| - 1] == '.' then s else s + "."
  }

  predicate HasSuffix(s: string, t: string)
  {
    |t| <= |s| && s[|s| - |t|..] == t
  }

  function TrimSuffix(s: string, t: string): string
  {
    if HasSuffix(s, t) then s[..|s| - |t|] else s
  }

  // p is s itself or s with some leading labels removed.
  predicate LabelSuffix(p: string, s: string)
  {
    p == s || HasSuffix(s, "." + p)
  }

  // d is c with a capital ASCII letter made small.
  predicate Folds(c: char, d: char)
  {
    if 'A' <= c <= 'Z' then d as int - 'a' as int == c as int - 'A' as int else d == c
  }

  // Normalizing drops one dot at the end and folds every character, no more.
  lemma NormExactly(s: string)
    ensures var n := if s != "" && s[|s| - 1] == '.' then |s| - 1 else |s|;
            |Norm(s)| == n && forall i :: 0 <= i < n ==> Folds(s[i], Norm(s)[i])
  {
  }

  lemma LowerIdempotent(s: string)
    ensures Lower(Lower(s)) == Lower(s)
  {
  }

  lemma LowerConcat(s: string, t: string)
    ensures Lower(s + t) == Lower(s) + Lower(t)
  {
  }

  lemma NormOfFqdn(s: string)
    ensures Norm(Fqdn(s)) == Norm(s)
  {
    if !(s != "" && s[|s| - 1] == '.') {
      assert TrimDot(s + ".") == s;
    }
  }

  // Below a zone, normalizing the full name only touches its parts.
  lemma NormBelow(sub: string, domain: string)
    requires Lower(sub) == sub && Norm(domain) != ""
    ensures Norm(sub + "." + domain) == sub + "." + Norm(domain)
  {
    var s := sub + "." + domain;
    assert s[|s| - 1] == domain[|domain| - 1];
    assert TrimDot(s) == sub + "." + TrimDot(domain);
    LowerConcat(sub + ".", TrimDot(domain));
    LowerConcat(sub, ".");
    assert Lower(".") == ".";
  }

  lemma SuffixRoundTrip(sub: string, domain: string)
    ensures HasSuffix(sub + "." + domain, "." + domain)
    ensures TrimSuffix(sub + "." + domain, "." + domain) == sub
    ensures |sub + "." + domain| > |domain|
  {
    assert sub + "." + domain == sub + ("." + domain);
  }

  // ---------- labels ----------

  function Split(s: string): (parts: seq<string>)
    ensures 0 < |parts|
    decreases |s|
  {
    if s == "" then [""]
    else
      var rest := Split(s[1..]);
      if s[0] == '.' then [""] + rest else [[s[0]] + rest[0]] + rest[1..]
  }

  function Join(parts: seq<string>): string
    requires 0 < |parts|
  {
    if |parts| == 1 then parts[0] else parts[0] + "." + Join(parts[1..])
  }

  lemma {:induction false} JoinOfSplit(s: string)
    ensures Join(Split(s)) == s
    decreases |s|
  {
    if s != "" {
      var rest := Split(s[1..]);
      JoinOfSplit(s[1..]);
      assert s == [s[0]] + s[1..];
      if s[0] == '.' {
        assert Split(s)[1..] == rest;
      } else if 1 < |rest| {
        assert Split(s)[1..] == rest[1..];
      }
    }
  }

  lemma {:induction false} JoinCuts(parts: seq<string>, i: nat)
    requires 0 < i < |parts|
    ensures Join(parts) == Join(parts[..i]) + "." + Join(parts[i..])
  {
    if i == 1 {
      assert parts[..1] == [parts[0]];
    } else {
      JoinCuts(parts[1..], i - 1);
      assert parts[1..][..i - 1] == parts[..i][1..];
      assert parts[1..][i - 1..] == parts[i..];
    }
  }

  // Every parent name of s is found by dropping leading labels.
  lemma {:induction false} ParentIsCut(s: string, p: string) returns (i: nat)
    requires HasSuffix(s, "." + p)
    ensures 0 < i < |Split(s)| && Join(Split(s)[i..]) == p
    decreases |s|
  {
    var rest := Split(s[1..]);
    if |s| == |p| + 1 {
      assert s[0] == ("." + p)[0] && s[1..] == p;
      i := 1;
      JoinOfSplit(p);
      assert Split(s)[1..] == rest;
    } else {
      assert s[1..][|s[1..]| - |p| - 1..] == s[|s| - |p| - 1..];
      var k := ParentIsCut(s[1..], p);
      if s[0] == '.' {
        i := k + 1;
        assert Split(s)[i..] == rest[k..];
      } else {
        i := k;
        assert Split(s)[i..] == rest[k..];
      }
    }
  }

  // Dropping labels gives a parent name, and dropping more gives a shorter one.
  lemma CutIsParent(s: string, i: nat)
    requires 0 < i < |Split(s)|
    ensures s == Join(Split(s)[..i]) + "." + Join(Split(s)[i..])
    ensures HasSuffix(s, "." + Join(Split(s)[i..]))
    ensures |Join(Split(s)[i..])| < |s|
  {
    JoinOfSplit(s);
    JoinCuts(Split(s), i);
    SuffixRoundTrip(Join(Split(s)[..i]), Join(Split(s)[i..]));
  }

  lemma CutsShrink(s: string, i: nat, j: nat)
    requires 0 < i < j < |Split(s)|
    ensures |Join(Split(s)[j..])| < |Join(Split(s)[i..])|
  {
    var parts := Split(s)[i..];
    JoinCuts(parts, j - i);
    assert parts[j - i..] == Split(s)[j..];
  }

  // Two label suffixes of one name with the same length are the same name.
  lemma SameLengthSameSuffix(s: string, p: string, q: string)
    requires LabelSuffix(p, s) && LabelSuffix(q, s) && |p| == |q|
    ensures p == q
  {
    assert p == s[|s| - |p|..] by {
      if p != s {
        assert ("." + p)[1..] == p;
        assert s[|s| - |p| - 1..][1..] == s[|s| - |p|..];
      }
    }
    assert q == s[|s| - |q|..] by {
      if q != s {
        assert ("." + q)[1..] == q;
        assert s[|s| - |q| - 1..][1..] == s[|s| - |q|..];
      }
    }
  }
}
