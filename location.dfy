/**
 * What a screen reads from the route it was reached by: the path, and the values of its query
 * parameters as `useSearchParams().get(name)` returns them.
 */
module Location {
  import opened Wrappers
  import opened Text
  import UriComponent

  /** The part of a route before its first '?'. */
  function Path(route: string): string
  {
    var k := IndexOf(route, '?');
    if k < 0 then route else route[..k]
  }

  /** The query string: the part of a route after its first '?', or "" when there is none. */
  function Query(route: string): string
  {
    var k := IndexOf(route, '?');
    if k < 0 then "" else route[k + 1..]
  }

  /** The pieces of `s` between the occurrences of `sep`. */
  function SplitOn(s: string, sep: char): (pieces: seq<string>)
    ensures |pieces| >= 1
    decreases |s|
  {
    var k := IndexOf(s, sep);
    if k < 0 then [s] else [s[..k]] + SplitOn(s[k + 1..], sep)
  }

  /** A decoded name-value pair of a query string. */
  datatype Param = Param(name: string, value: string)

  /** One '&'-separated piece: the name before its first '=', the value after it (empty when the
      piece has no '='), both decoded. */
  function ParsePiece(piece: string): Param
  {
    var k := IndexOf(piece, '=');
    if k < 0 then Param(UriComponent.Decode(piece), "")
    else Param(UriComponent.Decode(piece[..k]), UriComponent.Decode(piece[k + 1..]))
  }

  /** The pairs of a query string, in order; empty pieces are skipped. */
  function ParsePieces(pieces: seq<string>): seq<Param>
  {
    if pieces == [] then []
    else if pieces[0] == "" then ParsePieces(pieces[1..])
    else [ParsePiece(pieces[0])] + ParsePieces(pieces[1..])
  }

  /** The value of the first pair called `name`; absent exactly when no pair has that name. */
  function FirstValue(params: seq<Param>, name: string): (r: Option<string>)
    ensures r.None? <==> forall i :: 0 <= i < |params| ==> params[i].name != name
    ensures r.Some? ==> exists i :: (0 <= i < |params| && params[i] == Param(name, r.value)
                                     && forall j :: 0 <= j < i ==> params[j].name != name)
  {
    if params == [] then None
    else if params[0].name == name then Some(params[0].value)
    else FirstValue(params[1..], name)
  }

  /** The decoded pairs of a query string, as `new URLSearchParams(query)` holds them. */
  function Pairs(query: string): seq<Param>
  {
    ParsePieces(SplitOn(query, '&'))
  }

  /** `new URLSearchParams(query).get(name)`: absent (`null`) exactly when no pair has that
      name, and otherwise the value of the first pair that has it. */
  function SearchParam(query: string, name: string): (r: Option<string>)
    ensures r.None? <==> forall i :: 0 <= i < |Pairs(query)| ==> Pairs(query)[i].name != name
    ensures r.Some? ==> exists i :: (0 <= i < |Pairs(query)| && Pairs(query)[i] == Param(name, r.value)
                                     && forall j :: 0 <= j < i ==> Pairs(query)[j].name != name)
  {
    FirstValue(Pairs(query), name)
  }

  /** The name of the one parameter the wizard ever puts in a route. */
  const EmailParam := "email"

  /** A route `path + "?" + q`, with no '?' in `path`, has that path and the query `q`. */
  lemma SplitRoute(path: string, q: string)
    requires '?' !in path
    ensures Path(path + "?" + q) == path && Query(path + "?" + q) == q
  {
    var route := path + "?" + q;
    assert route[|path|] == '?';
    assert route[..|path|] == path;
    assert route[|path| + 1..] == q;
  }

  /** The parameter name reads back as itself. */
  lemma EmailParamDecodes()
    ensures UriComponent.Decode(EmailParam) == EmailParam
  {
    UriComponent.EncodeUnreserved(EmailParam);
    UriComponent.RoundTrip(EmailParam);
  }

  /** A query holding the one pair `email=enc`, with no '&' in `enc`. */
  lemma SingleEmailPair(enc: string)
    requires '&' !in enc
    ensures SearchParam("email=" + enc, EmailParam) == Some(UriComponent.Decode(enc))
  {
    var q := "email=" + enc;
    assert '&' !in q;
    assert SplitOn(q, '&') == [q];
    assert q[5] == '=' && q[..5] == EmailParam && q[6..] == enc;
    assert IndexOf(q, '=') == 5;
    EmailParamDecodes();
    assert ParsePieces([q]) == [ParsePiece(q)];
  }

  /** A route built as `path + "?email=" + encodeURIComponent(v)`, with no '?' in `path`, has
      that path, and its `email` parameter reads back as exactly `v`. */
  lemma EmailParamRoundTrip(path: string, v: string)
    requires '?' !in path
    ensures Path(path + "?email=" + UriComponent.Encode(v)) == path
    ensures SearchParam(Query(path + "?email=" + UriComponent.Encode(v)), EmailParam) == Some(v)
  {
    var enc := UriComponent.Encode(v);
    assert path + "?email=" + enc == path + "?" + ("email=" + enc);
    SplitRoute(path, "email=" + enc);
    UriComponent.EncodeHasNoDelimiter(v);
    SingleEmailPair(enc);
    UriComponent.RoundTrip(v);
  }

  /** A route without '?' has that path and no query parameter at all. */
  lemma BareRoute(path: string, name: string)
    requires '?' !in path
    ensures Path(path) == path && SearchParam(Query(path), name) == None
  {
    assert SplitOn("", '&') == [""];
    assert ParsePieces([""]) == ParsePieces([]);
  }
}
