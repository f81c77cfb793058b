/** server/endpointHandler.go: the names that endpoint questions ask for. */
module EndpointNames {
  import opened Ordering

  // ---- strings.Split and strings.Join, for a separator of one byte

  function Split(s: Text, sep: Byte): (pieces: seq<Text>)
    ensures pieces != []
  {
    if s == [] then [[]]
    else
      var rest := Split(s[1..], sep);
      if s[0] == sep then [[]] + rest else [[s[0]] + rest[0]] + rest[1..]
  }

  function JoinPieces(pieces: seq<Text>, sep: Byte): Text
    requires pieces != []
  {
    if |pieces| == 1 then pieces[0] else pieces[0] + [sep] + JoinPieces(pieces[1..], sep)
  }

  ghost predicate Free(pieces: seq<Text>, sep: Byte) {
    forall i :: 0 <= i < |pieces| ==> sep !in pieces[i]
  }

  lemma {:induction false} SplitPiecesAreFree(s: Text, sep: Byte)
    ensures Free(Split(s, sep), sep)
  {
    if s != [] {
      SplitPiecesAreFree(s[1..], sep);
    }
  }

  lemma {:induction false} JoinOfSplit(s: Text, sep: Byte)
    ensures JoinPieces(Split(s, sep), sep) == s
  {
    if s != [] {
      JoinOfSplit(s[1..], sep);
      var rest := Split(s[1..], sep);
      var pieces := Split(s, sep);
      if s[0] == sep {
        assert pieces[1..] == rest;
      } else {
        assert pieces[1..] == rest[1..];
      }
      assert s == [s[0]] + s[1..];
    }
  }

  /** A first piece is split off. */
  lemma {:induction false} SplitFirst(piece: Text, rest: Text, sep: Byte)
    requires sep !in piece
    ensures Split(piece + [sep] + rest, sep) == [piece] + Split(rest, sep)
    ensures Split(piece, sep) == [piece]
  {
    var s := piece + [sep] + rest;
    if piece == [] {
      assert s[1..] == rest;
    } else {
      SplitFirst(piece[1..], rest, sep);
      assert s[1..] == piece[1..] + [sep] + rest;
      assert piece == [piece[0]] + piece[1..];
    }
  }

  lemma {:induction false} SplitOfJoin(pieces: seq<Text>, sep: Byte)
    requires pieces != [] && Free(pieces, sep)
    ensures Split(JoinPieces(pieces, sep), sep) == pieces
  {
    if |pieces| == 1 {
      SplitFirst(pieces[0], [], sep);
    } else {
      SplitOfJoin(pieces[1..], sep);
      SplitFirst(pieces[0], JoinPieces(pieces[1..], sep), sep);
    }
  }

  /** Joining adds no other byte than the separator. */
  lemma {:induction false} JoinKeepsFree(pieces: seq<Text>, sep: Byte, c: Byte)
    requires pieces != [] && Free(pieces, c) && c != sep
    ensures c !in JoinPieces(pieces, sep)
  {
    if |pieces| > 1 {
      JoinKeepsFree(pieces[1..], sep, c);
    }
  }

  // ---- endpoint requests

  /** What a question says besides its name and type; `key` is the object to hash. */
  datatype EndpointRequest = EndpointRequest(groups: seq<Text>, prefix: Text, key: Text, extra: seq<Text>)

  /** The subdomain is what remains of the name in front of the domain of the zone. */
  function ParseEndpointRequest(subdomain: Text): EndpointRequest {
    var labels := Split(subdomain, '.');
    var parts := Split(labels[0], '-');
    if |parts| > 1 then
      EndpointRequest(labels[1..], parts[0], parts[1], parts[2..])
    else
      EndpointRequest(labels[1..], [], parts[0], [])
  }

  ghost predicate Plain(pieces: seq<Text>) {
    Free(pieces, '-') && Free(pieces, '.')
  }

  /** A name written with a prefix, or as the object alone, is parsed into what it was written from. */
  lemma ParseOfPrinted(r: EndpointRequest)
    requires Plain([r.prefix, r.key] + r.extra) && Free(r.groups, '.')
    ensures ParseEndpointRequest(JoinPieces([JoinPieces([r.prefix, r.key] + r.extra, '-')] + r.groups, '.')) == r
    ensures ParseEndpointRequest(JoinPieces([r.key] + r.groups, '.')) == EndpointRequest(r.groups, [], r.key, [])
  {
    var parts := [r.prefix, r.key] + r.extra;
    SplitOfJoin(parts, '-');
    JoinKeepsFree(parts, '-', '.');
    SplitOfJoin([JoinPieces(parts, '-')] + r.groups, '.');
    assert r.key == parts[1];
    SplitOfJoin([r.key] + r.groups, '.');
    SplitFirst(r.key, [], '-');
  }

  /** With separators spelt out, whatever the pieces: object and prefix, one extra and two groups. */
  lemma ParseSpelt(prefix: Text, key: Text, extra: Text, g: Text, h: Text)
    requires Plain([prefix, key, extra]) && Free([g, h], '.')
    ensures ParseEndpointRequest(prefix + "-" + key + "-" + extra + "." + g + "." + h) ==
      EndpointRequest([g, h], prefix, key, [extra])
    ensures ParseEndpointRequest(key + "." + g) == EndpointRequest([g], [], key, [])
  {
    var parts, first := [prefix, key, extra], prefix + "-" + key + "-" + extra;
    assert Free([prefix, key] + [extra], '-') && Free([prefix, key] + [extra], '.') by {
      assert [prefix, key] + [extra] == parts;
    }
    assert JoinPieces([extra], '-') == extra;
    assert JoinPieces([key, extra], '-') == key + "-" + extra;
    assert JoinPieces(parts, '-') == first;
    assert JoinPieces([g, h], '.') == g + "." + h;
    assert JoinPieces([first, g, h], '.') == prefix + "-" + key + "-" + extra + "." + g + "." + h;
    assert JoinPieces([key, g], '.') == key + "." + g;
    var r := EndpointRequest([g, h], prefix, key, [extra]);
    assert [prefix, key] + [extra] == parts && [first] + [g, h] == [first, g, h];
    ParseOfPrinted(r);
    assert parts[1] == key && [g, h][0] == g;
    ParseOfPrinted(EndpointRequest([g], [], key, []));
    assert [key] + [g] == [key, g];
  }

  /** Every subdomain is one of the two written forms of its request. */
  lemma PrintOfParsed(subdomain: Text)
    ensures var r := ParseEndpointRequest(subdomain);
      || subdomain == JoinPieces([JoinPieces([r.prefix, r.key] + r.extra, '-')] + r.groups, '.')
      || (subdomain == JoinPieces([r.key] + r.groups, '.') && r.prefix == [] && r.extra == [])
  {
    var r := ParseEndpointRequest(subdomain);
    var labels := Split(subdomain, '.');
    var parts := Split(labels[0], '-');
    JoinOfSplit(subdomain, '.');
    JoinOfSplit(labels[0], '-');
    assert labels == [labels[0]] + labels[1..];
    if |parts| > 1 {
      assert parts == [parts[0], parts[1]] + parts[2..];
    }
  }

  /** A request has the form that printing asks for. */
  lemma ParsedIsPlain(subdomain: Text)
    ensures var r := ParseEndpointRequest(subdomain); Plain([r.prefix, r.key] + r.extra) && Free(r.groups, '.')
  {
    var labels := Split(subdomain, '.');
    var parts := Split(labels[0], '-');
    SplitPiecesAreFree(subdomain, '.');
    SplitPiecesAreFree(labels[0], '-');
    PartsComeFrom(labels[0], '-', '.');
  }

  lemma {:induction false} PartsComeFrom(s: Text, sep: Byte, c: Byte)
    requires c !in s
    ensures Free(Split(s, sep), c)
  {
    if s != [] {
      PartsComeFrom(s[1..], sep, c);
    }
  }

  /** An empty prefix in front of an object, and nothing behind it. */
  ghost predicate AddsEmptyPrefix(s: Text, t: Text) {
    s == ['-'] + t && '-' !in Split(t, '.')[0]
  }

  /** Two subdomains make the same request exactly when they are equal up to an empty prefix. */
  lemma SameRequestIff(s: Text, t: Text)
    ensures ParseEndpointRequest(s) == ParseEndpointRequest(t) <==>
        s == t || AddsEmptyPrefix(s, t) || AddsEmptyPrefix(t, s)
  {
    if ParseEndpointRequest(s) == ParseEndpointRequest(t) {
      PrintOfParsed(s);
      PrintOfParsed(t);
      var r := ParseEndpointRequest(s);
      ParsedIsPlain(s);
      EmptyPrefix(r.key, r.groups);
    }
    if AddsEmptyPrefix(s, t) { WithoutEmptyPrefix(s, t); }
    if AddsEmptyPrefix(t, s) { WithoutEmptyPrefix(t, s); }
  }

  /** The two forms of a request with an empty prefix and no extras. */
  lemma EmptyPrefix(key: Text, groups: seq<Text>)
    requires '-' !in key && '.' !in key && Free(groups, '.')
    ensures AddsEmptyPrefix(JoinPieces([JoinPieces([[], key] + [], '-')] + groups, '.'),
        JoinPieces([key] + groups, '.'))
  {
    SplitOfJoin([key] + groups, '.');
    var parts: seq<Text> := [[], key] + [];
    assert parts[1..] == [key];
    assert JoinPieces(parts, '-') == ['-'] + key;
    if groups != [] {
      var first: Text := ['-'] + key;
      assert ([first] + groups)[1..] == groups == ([key] + groups)[1..];
      assert first + ['.'] + JoinPieces(groups, '.') == ['-'] + (key + ['.'] + JoinPieces(groups, '.'));
    }
  }

  lemma WithoutEmptyPrefix(s: Text, t: Text)
    requires AddsEmptyPrefix(s, t)
    ensures ParseEndpointRequest(s) == ParseEndpointRequest(t)
  {
    var labels := Split(t, '.');
    assert s[1..] == t;
    assert Split(s, '.') == [['-'] + labels[0]] + labels[1..];
    SplitFirst([], labels[0], '-');
    SplitFirst(labels[0], [], '-');
    var none: Text := [];
    assert none + ['-'] + labels[0] == ['-'] + labels[0];
  }
}
