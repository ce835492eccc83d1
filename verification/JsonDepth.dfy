/** The nesting check run over a request body before it is decoded (checkJSONDepth), against
    the depth of the value the body spells. */
module JsonDepth {

  // ---------- the scanner ----------

  predicate Opens(c: char)
  {
    c == '{' || c == '['
  }

  predicate Closes(c: char)
  {
    c == '}' || c == ']'
  }

  // What is left behind the string literal whose opening quote was just read.
  function AfterString(s: string): (r: string)
    ensures |r| <= |s|
    decreases |s|
  {
    if s == "" then ""
    else if s[0] == '\\' then if |s| == 1 then "" else AfterString(s[2..])
    else if s[0] == '"' then s[1..]
    else AfterString(s[1..])
  }

  // Whether the scan of s, begun at some depth, meets no opening bracket beyond the limit.
  function Scan(s: string, depth: int, limit: int): bool
    decreases |s|
  {
    if s == "" then true
    else if s[0] == '"' then Scan(AfterString(s[1..]), depth, limit)
    else if Opens(s[0]) then depth + 1 <= limit && Scan(s[1..], depth + 1, limit)
    else if Closes(s[0]) then Scan(s[1..], depth - 1, limit)
    else Scan(s[1..], depth, limit)
  }

  function From(data: array<char>, i: nat): string
    reads data
  {
    if i < data.Length then data[i..] else ""
  }

  // The inner loop: moves i from behind an opening quote to behind the closing one (or past
  // the end).
  method SkipString(data: array<char>, start: nat) returns (i: nat)
    requires start <= data.Length
    ensures start <= i && From(data, i) == AfterString(From(data, start))
  {
    i := start;
    while i < data.Length
      invariant start <= i
      invariant AfterString(From(data, start)) == AfterString(From(data, i))
      decreases data.Length - i
    {
      assert From(data, i)[1..] == From(data, i + 1);
      if data[i] == '\\' {
        assert i + 1 < data.Length ==> From(data, i)[2..] == From(data, i + 2);
        i := i + 2;
        continue;
      }
      if data[i] == '"' {
        i := i + 1;
        return;
      }
      i := i + 1;
    }
  }

  method CheckJSONDepth(data: array<char>, maxDepth: int) returns (ok: bool)
    ensures ok == Scan(data[..], 0, maxDepth)
  {
    hide AfterString;
    var depth, i := 0, 0;
    assert From(data, 0) == data[..];
    while i < data.Length
      invariant 0 <= i
      invariant Scan(data[..], 0, maxDepth) == Scan(From(data, i), depth, maxDepth)
      decreases data.Length - i
    {
      var c := data[i];
      assert From(data, i)[1..] == From(data, i + 1);
      if c == '"' {
        i := SkipString(data, i + 1);
      } else if Opens(c) {
        depth := depth + 1;
        if depth > maxDepth {
          return false;
        }
        i := i + 1;
      } else if Closes(c) {
        depth := depth - 1;
        i := i + 1;
      } else {
        i := i + 1;
      }
    }
    return true;
  }

  // ---------- JSON values and their spellings ----------

  // A character of a string literal: itself, or an escaped one. (The four digits of \\uXXXX
  // are ordinary characters behind an escaped u.)
  datatype Piece = Plain(c: char) | Escaped(c: char)

  // before and after hold the white space around a value, so that a value of these types is
  // a JSON value together with one way of laying it out.
  datatype Value =
    | Atom(text: string) // a number, true, false or null
    | Text(body: seq<Piece>)
    | Array(empty: string, items: Items)
    | Object(empty: string, members: Members)

  datatype Items = NoItems | Item(before: string, value: Value, after: string, rest: Items)

  datatype Members =
    | NoMembers
    | Member(lead: string, key: seq<Piece>, trail: string, before: string, value: Value, after: string, rest: Members)

  predicate Blank(s: string)
  {
    forall i :: 0 <= i < |s| ==> s[i] == ' ' || s[i] == '\t' || s[i] == '\n' || s[i] == '\r'
  }

  predicate Unstructured(c: char)
  {
    c != '"' && !Opens(c) && !Closes(c)
  }

  predicate PiecesOk(body: seq<Piece>)
  {
    forall i :: 0 <= i < |body| ==> body[i].Plain? ==> body[i].c != '"' && body[i].c != '\\'
  }

  predicate ValueOk(v: Value)
  {
    match v
    case Atom(text) => forall i :: 0 <= i < |text| ==> Unstructured(text[i])
    case Text(body) => PiecesOk(body)
    case Array(empty, items) => Blank(empty) && ItemsOk(items)
    case Object(empty, members) => Blank(empty) && MembersOk(members)
  }

  predicate ItemsOk(items: Items)
  {
    match items
    case NoItems => true
    case Item(before, v, after, rest) => Blank(before) && Blank(after) && ValueOk(v) && ItemsOk(rest)
  }

  predicate MembersOk(members: Members)
  {
    match members
    case NoMembers => true
    case Member(lead, key, trail, before, v, after, rest) =>
      Blank(lead) && PiecesOk(key) && Blank(trail) && Blank(before) && ValueOk(v) && Blank(after) && MembersOk(rest)
  }

  function PrintPieces(body: seq<Piece>): string
  {
    if body == [] then "\""
    else
      match body[0]
      case Plain(c) => [c] + PrintPieces(body[1..])
      case Escaped(c) => ['\\', c] + PrintPieces(body[1..])
  }

  function PrintText(body: seq<Piece>): string
  {
    "\"" + PrintPieces(body)
  }

  function Print(v: Value): string
  {
    match v
    case Atom(text) => text
    case Text(body) => PrintText(body)
    case Array(empty, items) => "[" + (empty + (PrintItems(items) + "]"))
    case Object(empty, members) => "{" + (empty + (PrintMembers(members) + "}"))
  }

  function PrintItems(items: Items): string
  {
    match items
    case NoItems => ""
    case Item(before, v, after, rest) =>
      before + (Print(v) + (after + ((if rest.NoItems? then "" else ",") + PrintItems(rest))))
  }

  function PrintMembers(members: Members): string
  {
    match members
    case NoMembers => ""
    case Member(lead, key, trail, before, v, after, rest) =>
      lead + (PrintText(key) + (trail + (":" + (before + (Print(v) + (after +
        ((if rest.NoMembers? then "" else ",") + PrintMembers(rest))))))))
  }

  function Max(a: nat, b: nat): nat
  {
    if a < b then b else a
  }

  function Depth(v: Value): nat
  {
    match v
    case Atom(_) => 0
    case Text(_) => 0
    case Array(_, items) => 1 + ItemsDepth(items)
    case Object(_, members) => 1 + MembersDepth(members)
  }

  function ItemsDepth(items: Items): nat
  {
    match items
    case NoItems => 0
    case Item(_, v, _, rest) => Max(Depth(v), ItemsDepth(rest))
  }

  function MembersDepth(members: Members): nat
  {
    match members
    case NoMembers => 0
    case Member(_, _, _, _, v, _, rest) => Max(Depth(v), MembersDepth(rest))
  }

  // ---------- the scanner on a spelling ----------

  lemma {:induction false} SkipUnstructured(s: string, post: string, depth: int, limit: int)
    requires forall i :: 0 <= i < |s| ==> Unstructured(s[i])
    ensures Scan(s + post, depth, limit) == Scan(post, depth, limit)
  {
    if s == "" {
      assert s + post == post;
    } else {
      assert (s + post)[1..] == s[1..] + post;
      SkipUnstructured(s[1..], post, depth, limit);
    }
  }

  lemma {:induction false} SkipPieces(body: seq<Piece>, post: string)
    requires PiecesOk(body)
    ensures AfterString(PrintPieces(body) + post) == post
  {
    var s := PrintPieces(body) + post;
    if body == [] {
      assert s[1..] == post;
    } else {
      SkipPieces(body[1..], post);
      var rest := PrintPieces(body[1..]) + post;
      if body[0].Plain? {
        assert s[1..] == rest;
      } else {
        assert s[2..] == rest;
      }
    }
  }

  // Brackets, quotes and escapes inside a string literal never count.
  lemma SkipText(body: seq<Piece>, post: string, depth: int, limit: int)
    requires PiecesOk(body)
    ensures Scan(PrintText(body) + post, depth, limit) == Scan(post, depth, limit)
  {
    assert (PrintText(body) + post)[1..] == PrintPieces(body) + post;
    SkipPieces(body, post);
  }

  predicate Fits(inner: nat, depth: int, limit: int)
  {
    inner == 0 || depth + inner <= limit
  }

  lemma {:induction false} ScanValue(v: Value, post: string, depth: int, limit: int)
    requires ValueOk(v)
    ensures Scan(Print(v) + post, depth, limit) == (Fits(Depth(v), depth, limit) && Scan(post, depth, limit))
    decreases v, 0
  {
    match v
    case Atom(text) =>
      SkipUnstructured(text, post, depth, limit);
    case Text(body) =>
      SkipText(body, post, depth, limit);
    case Array(empty, items) =>
      ScanItems(items, "]" + post, depth + 1, limit);
      ScanBracketed("[", empty, PrintItems(items), "]", post, depth, limit);
    case Object(empty, members) =>
      ScanMembers(members, "}" + post, depth + 1, limit);
      ScanBracketed("{", empty, PrintMembers(members), "}", post, depth, limit);
  }

  lemma ScanBracketed(open: string, empty: string, inner: string, close: string, post: string, depth: int, limit: int)
    requires |open| == |close| == 1 && Opens(open[0]) && Closes(close[0]) && Blank(empty)
    ensures Scan((open + (empty + (inner + close))) + post, depth, limit)
         == (depth + 1 <= limit && Scan(inner + (close + post), depth + 1, limit))
    ensures Scan(close + post, depth + 1, limit) == Scan(post, depth, limit)
  {
    SkipUnstructured(empty, inner + (close + post), depth + 1, limit);
    var whole := (open + (empty + (inner + close))) + post;
    assert whole[0] == open[0] && whole[1..] == empty + (inner + (close + post));
    assert (close + post)[1..] == post;
  }

  lemma {:induction false} ScanItems(items: Items, post: string, depth: int, limit: int)
    requires ItemsOk(items)
    ensures Scan(PrintItems(items) + post, depth, limit) == (Fits(ItemsDepth(items), depth, limit) && Scan(post, depth, limit))
    decreases items
  {
    hide Scan, Print, Depth, ValueOk;
    match items
    case NoItems => assert "" + post == post;
    case Item(before, v, after, rest) =>
      var comma := if rest.NoItems? then "" else ",";
      ScanItems(rest, post, depth, limit);
      ScanSlot(before, v, after, comma, PrintItems(rest) + post, depth, limit);
      assert PrintItems(items) + post == before + (Print(v) + (after + (comma + (PrintItems(rest) + post))));
  }

  // One value with the white space around it and the comma behind it.
  lemma ScanSlot(before: string, v: Value, after: string, comma: string, tail: string, depth: int, limit: int)
    requires Blank(before) && ValueOk(v) && Blank(after) && (comma == "" || comma == ",")
    ensures Scan(before + (Print(v) + (after + (comma + tail))), depth, limit)
         == (Fits(Depth(v), depth, limit) && Scan(tail, depth, limit))
    decreases v, 1
  {
    hide Scan, Print, Depth, ValueOk;
    SkipUnstructured(comma, tail, depth, limit);
    SkipUnstructured(after, comma + tail, depth, limit);
    ScanValue(v, after + (comma + tail), depth, limit);
    SkipUnstructured(before, Print(v) + (after + (comma + tail)), depth, limit);
  }

  // The key of a member, up to the colon.
  lemma ScanKey(lead: string, key: seq<Piece>, trail: string, tail: string, depth: int, limit: int)
    requires Blank(lead) && PiecesOk(key) && Blank(trail)
    ensures Scan(lead + (PrintText(key) + (trail + (":" + tail))), depth, limit) == Scan(tail, depth, limit)
  {
    hide Scan, PrintText, PiecesOk;
    SkipUnstructured(":", tail, depth, limit);
    SkipUnstructured(trail, ":" + tail, depth, limit);
    SkipText(key, trail + (":" + tail), depth, limit);
    SkipUnstructured(lead, PrintText(key) + (trail + (":" + tail)), depth, limit);
  }

  lemma {:induction false} ScanMembers(members: Members, post: string, depth: int, limit: int)
    requires MembersOk(members)
    ensures Scan(PrintMembers(members) + post, depth, limit)
         == (Fits(MembersDepth(members), depth, limit) && Scan(post, depth, limit))
    decreases members
  {
    hide Scan, Print, PrintText, Depth, ValueOk, PiecesOk;
    match members
    case NoMembers => assert "" + post == post;
    case Member(lead, key, trail, before, v, after, rest) =>
      var comma := if rest.NoMembers? then "" else ",";
      var tail := PrintMembers(rest) + post;
      ScanMembers(rest, post, depth, limit);
      ScanSlot(before, v, after, comma, tail, depth, limit);
      var value := before + (Print(v) + (after + (comma + tail)));
      ScanKey(lead, key, trail, value, depth, limit);
      assert PrintMembers(members) + post == lead + (PrintText(key) + (trail + (":" + value))) by {
        MemberRegroups(lead, PrintText(key), trail, before, Print(v), after, comma, PrintMembers(rest), post);
      }
  }

  lemma MemberRegroups(a: string, b: string, c: string, d: string, e: string, f: string, g: string, h: string,
        post: string)
    ensures (a + (b + (c + (":" + (d + (e + (f + (g + h)))))))) + post
         == a + (b + (c + (":" + (d + (e + (f + (g + (h + post))))))))
  {
    Regroup(g, h, post);
    Regroup(f, g + h, post);
    Regroup(e, f + (g + h), post);
    Regroup(d, e + (f + (g + h)), post);
    Regroup(":", d + (e + (f + (g + h))), post);
    Regroup(c, ":" + (d + (e + (f + (g + h)))), post);
    Regroup(b, c + (":" + (d + (e + (f + (g + h))))), post);
    Regroup(a, b + (c + (":" + (d + (e + (f + (g + h)))))), post);
  }

  lemma Regroup(a: string, b: string, c: string)
    ensures (a + b) + c == a + (b + c)
  {
  }

  // The check accepts the text of a value, however it is laid out, exactly when the value
  // nests no deeper than allowed.
  lemma AcceptsExactlyWithinLimit(v: Value, lead: string, trail: string, limit: nat)
    requires ValueOk(v) && Blank(lead) && Blank(trail)
    ensures Scan(lead + (Print(v) + trail), 0, limit) <==> Depth(v) <= limit
  {
    SkipUnstructured(lead, Print(v) + trail, 0, limit);
    ScanValue(v, trail, 0, limit);
    assert trail + "" == trail;
    SkipUnstructured(trail, "", 0, limit);
  }
}
