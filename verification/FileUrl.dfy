/** FileURLParts (azfile/parsing_urls.go): a URL taken apart and put together again. Whether a
    host is an IP address is a parameter. */
module FileUrl {
  import opened Text
  import opened Query
  import opened SasFormats
  import opened SasParams

  const SHARE_SNAPSHOT: Text := "sharesnapshot"

  const SNAPSHOT_IS: Text := SHARE_SNAPSHOT + EQUALS

  datatype Url = Url(scheme: Text, host: Text, path: Text, rawQuery: Text)

  datatype FileUrlParts = FileUrlParts(
    scheme: Text,
    host: Text,
    shareName: Text,
    directoryOrFilePath: Text,
    shareSnapshot: Text,
    sas: SasQueryParameters,
    unparsedParams: Text,
    accountName: Text)

  // ----- Paths -----

  datatype PathParts = PathParts(account: Text, share: Text, rest: Text)

  function SplitShare(account: Text, path: Text): PathParts {
    var i := IndexOf(path, '/');
    if i == -1 then PathParts(account, path, "") else PathParts(account, path[..i], path[i + 1..])
  }

  function SplitAccount(path: Text): PathParts {
    var i := IndexOf(path, '/');
    if i == -1 then PathParts(path, "", "") else SplitShare(path[..i], path[i + 1..])
  }

  function ParsePath(ip: bool, path: Text): PathParts {
    if path == "" then PathParts("", "", "") else
    var p := if path[0] == '/' then path[1..] else path;
    if ip then SplitAccount(p) else SplitShare("", p)
  }

  function SharePath(share: Text, rest: Text): Text {
    if rest == "" then share else share + SLASH + rest
  }

  function PrintPath(ip: bool, parts: PathParts): Text {
    (if ip && parts.account != "" then SLASH + parts.account else "")
    + (if parts.share != "" then SLASH + SharePath(parts.share, parts.rest) else "")
  }

  /** Slash-free names, none missing where a later one is present, an account for IP hosts only. */
  predicate PathCanonical(ip: bool, parts: PathParts) {
    && '/' !in parts.share
    && (parts.share == "" ==> parts.rest == "")
    && if ip then '/' !in parts.account && (parts.account == "" ==> parts.share == "") else parts.account == ""
  }

  lemma IndexOfFirst(a: Text, b: Text)
    ensures IndexOf(a, '/') == -1 <==> '/' !in a
    ensures IndexOf(a + SLASH + b, '/') == |a| <==> '/' !in a
    ensures (a + SLASH + b)[..|a|] == a && (a + SLASH + b)[|a| + 1..] == b
    ensures 0 <= IndexOf(a + SLASH + b, '/') <= |a|
  {
    var s := a + SLASH + b;
    assert s[|a|] == '/';
    if '/' !in a {
      assert s == a + ['/'] + b;
      IndexOfAppend(a, '/', b);
    } else {
      var i :| 0 <= i < |a| && a[i] == '/';
      assert s[..|a|] == a;
      assert s[..|a|][i] == '/';
    }
  }

  lemma SplitShareOf(account: Text, share: Text, rest: Text)
    ensures SplitShare(account, SharePath(share, rest)) == PathParts(account, share, rest) <==> '/' !in share
  {
    IndexOfFirst(share, rest);
    hide IndexOf;
    var i := IndexOf(SharePath(share, rest), '/');
    if rest == "" && i != -1 {
      assert |share[..i]| < |share|;
    } else if rest != "" && i != |share| {
      assert |(share + SLASH + rest)[..i]| < |share|;
    }
  }

  lemma SplitAccountOf(account: Text, path: Text)
    ensures '/' !in account ==> SplitAccount(account + SLASH + path) == SplitShare(account, path)
    ensures '/' in account ==> SplitAccount(account + SLASH + path).account != account
    ensures '/' !in account ==> SplitAccount(account) == PathParts(account, "", "")
    ensures '/' in account ==> SplitAccount(account).account != account
  {
    IndexOfFirst(account, path);
    hide IndexOf;
    if '/' in account {
      var i, j := IndexOf(account, '/'), IndexOf(account + SLASH + path, '/');
      assert |account[..i]| < |account| && |(account + SLASH + path)[..j]| < |account|;
    }
  }

  lemma AfterSlash(path: Text)
    ensures (SLASH + path)[1..] == path
  {
  }

  /** A path that begins with an account and goes on with q. */
  function Absolute(account: Text, q: Text): Text {
    SLASH + (account + SLASH + q)
  }

  lemma ParseAbsolute(account: Text, q: Text)
    requires '/' !in account
    ensures ParsePath(true, Absolute(account, q)) == SplitShare(account, q)
  {
    SplitAccountOf(account, q);
    AfterSlash(account + SLASH + q);
    hide SplitAccount, SplitShare;
  }

  lemma AbsoluteIsMade(path: Text, account: Text) returns (q: Text)
    requires path != "" && path[0] == '/' && ParsePath(true, path).account == account
    requires ParsePath(true, path).share != ""
    ensures path == Absolute(account, q) && ParsePath(true, path) == SplitShare(account, q)
  {
    var p := path[1..];
    var i := IndexOf(p, '/');
    q := p[i + 1..];
    assert SplitAccount(p) == SplitShare(p[..i], q);
    Rejoined(path, i);
    hide Absolute, IndexOf;
  }

  lemma Rejoined(path: Text, i: nat)
    requires i + 1 < |path| && path[0] == '/' && path[1..][i] == '/'
    ensures path == Absolute(path[1..][..i], path[1..][i + 1..])
  {
    var p := path[1..];
    assert path == SLASH + p && p == p[..i] + SLASH + p[i + 1..];
  }

  lemma SplitShareMeans(account: Text, share: Text, q: Text, rest: Text)
    requires '/' !in share
    ensures SplitShare(account, q) == PathParts(account, share, rest) <==>
            (q == share && rest == "") || q == share + SLASH + rest
  {
    IndexOfFirst(share, rest);
    hide IndexOf;
    var i := IndexOf(q, '/');
    if i != -1 {
      assert q == q[..i] + ['/'] + q[i + 1..];
    }
  }

  lemma NoAccount(share: Text, rest: Text)
    requires share != ""
    ensures SplitAccount(SharePath(share, rest)) != PathParts("", share, rest)
  {
    var p := SharePath(share, rest);
    assert p[0] == share[0];
    var i := IndexOf(p, '/');
    if i == 0 {
      assert '/' in share;
      var path := p[1..];
      var j := IndexOf(path, '/');
      assert j == -1 || '/' !in path[..j];
    }
  }

  lemma AccountPath(parts: PathParts)
    requires parts.account != ""
    ensures ParsePath(true, PrintPath(true, parts)) == parts <==> PathCanonical(true, parts)
  {
    var a, s, r := parts.account, parts.share, parts.rest;
    SplitAccountOf(a, SharePath(s, r));
    SplitShareOf(a, s, r);
    var p := if s == "" then a else a + SLASH + SharePath(s, r);
    assert PrintPath(true, parts) == SLASH + p;
    AfterSlash(p);
    hide IndexOf, SplitShare, SplitAccount, SharePath, PrintPath;
  }

  /** A path is read back into the parts it was printed from if and only if they are canonical. */
  lemma PathRoundTrip(ip: bool, parts: PathParts)
    ensures ParsePath(ip, PrintPath(ip, parts)) == parts <==> PathCanonical(ip, parts)
  {
    if ip && parts.account != "" {
      AccountPath(parts);
    } else if parts.share != "" {
      var p := SharePath(parts.share, parts.rest);
      SplitShareOf("", parts.share, parts.rest);
      NoAccount(parts.share, parts.rest);
      assert PrintPath(ip, parts) == SLASH + p;
      AfterSlash(p);
      hide IndexOf, SplitShare, SplitAccount, SharePath, PrintPath;
    }
  }

  /** Taking a path apart, as NewFileURLParts does. */
  method TakePathApart(ip: bool, urlPath: Text) returns (parts: PathParts)
    ensures parts == ParsePath(ip, urlPath)
  {
    parts := PathParts("", "", "");
    if urlPath != "" {
      var path := urlPath;
      if path[0] == '/' {
        path := path[1..];
      }
      if ip {
        var accountEndIndex := IndexOf(path, '/');
        if accountEndIndex == -1 {
          parts := parts.(account := path);
        } else {
          parts := parts.(account := path[..accountEndIndex]);
          path := path[accountEndIndex + 1..];
          var shareEndIndex := IndexOf(path, '/');
          if shareEndIndex == -1 {
            parts := parts.(share := path);
          } else {
            parts := parts.(share := path[..shareEndIndex], rest := path[shareEndIndex + 1..]);
          }
        }
      } else {
        var shareEndIndex := IndexOf(path, '/');
        if shareEndIndex == -1 {
          parts := parts.(share := path);
        } else {
          parts := parts.(share := path[..shareEndIndex], rest := path[shareEndIndex + 1..]);
        }
      }
    }
  }

  /** Putting a path together, as FileURLParts.URL does. */
  method PutPathTogether(ip: bool, parts: PathParts) returns (path: Text)
    ensures path == PrintPath(ip, parts)
  {
    path := "";
    if ip && parts.account != "" {
      path := path + SLASH + parts.account;
    }
    if parts.share != "" {
      path := path + SLASH + parts.share;
      if parts.rest != "" {
        path := path + SLASH + parts.rest;
      }
    }
  }

  // ----- Parsing -----

  predicate NamesSnapshot(x: Text) {
    Lower(x) == SHARE_SNAPSHOT
  }

  /** caseInsensitiveValues.Get: the values of some key that matches up to case. */
  method Get(values: Values, key: Text) returns (v: seq<Text>, ok: bool)
    ensures ok <==> exists k :: k in values && Lower(k) == Lower(key)
    ensures ok ==> exists k :: k in values && Lower(k) == Lower(key) && v == values[k]
    ensures !ok ==> v == []
  {
    var todo := values.Keys;
    while todo != {}
      invariant todo <= values.Keys
      invariant forall k :: k in values && k !in todo ==> Lower(k) != Lower(key)
      decreases todo
    {
      var k :| k in todo;
      if Lower(k) == Lower(key) {
        return values[k], true;
      }
      todo := todo - {k};
    }
    return [], false;
  }

  ghost predicate HasSnapshot(values: Values) {
    exists x :: x in values && NamesSnapshot(x)
  }

  /** The snapshot is taken from some key that names it; then the lower-case key is deleted. */
  ghost predicate SnapshotRead(values: Values, snapshot: Text)
    requires NoEmptyLists(values)
  {
    if HasSnapshot(values) then exists x :: x in values && NamesSnapshot(x) && snapshot == values[x][0]
    else snapshot == ""
  }

  function Remove(values: Values, key: Text): Values {
    map x | x in values && x != key :: values[x]
  }

  ghost function AfterSnapshot(values: Values): Values {
    if HasSnapshot(values) then Remove(values, SHARE_SNAPSHOT) else values
  }

  function PathOf(up: FileUrlParts): PathParts {
    PathParts(up.accountName, up.shareName, up.directoryOrFilePath)
  }

  datatype QueryParts = QueryParts(shareSnapshot: Text, sas: SasQueryParameters, unparsedParams: Text)

  function QueryOf(up: FileUrlParts): QueryParts {
    QueryParts(up.shareSnapshot, up.sas, up.unparsedParams)
  }

  /** r is what may be read from the query's values. */
  ghost predicate QueryRead(values: Values, r: QueryParts)
    requires NoEmptyLists(values)
  {
    && SnapshotRead(values, r.shareSnapshot)
    && Reads(AfterSnapshot(values), r.sas)
    && r.unparsedParams == Encode(WithoutSas(AfterSnapshot(values)))
  }

  /** up is what NewFileURLParts may make of the URL. */
  ghost predicate Parses(isIp: Text -> bool, u: Url, up: FileUrlParts) {
    && up.scheme == u.scheme && up.host == u.host
    && PathOf(up) == ParsePath(isIp(u.host), u.path)
    && QueryRead(ParseValues(u.rawQuery), QueryOf(up))
  }

  method TakeSnapshot(values: Values) returns (snapshot: Text, rest: Values)
    requires NoEmptyLists(values)
    ensures SnapshotRead(values, snapshot) && rest == AfterSnapshot(values)
  {
    snapshot, rest := "", values;
    assert Lower(SHARE_SNAPSHOT) == SHARE_SNAPSHOT;
    var snapshotStr, ok := Get(rest, SHARE_SNAPSHOT);
    hide Lower;
    if ok {
      snapshot := snapshotStr[0];
      rest := Remove(rest, SHARE_SNAPSHOT);
    }
  }

  /** Taking a query apart, as NewFileURLParts does. */
  method TakeQueryApart(rawQuery: Text) returns (r: QueryParts)
    ensures QueryRead(ParseValues(rawQuery), r)
  {
    hide Reads, ParseValues, Encode, SnapshotRead, HasSnapshot;
    var snapshot, paramsMap := TakeSnapshot(ParseValues(rawQuery));
    var sas;
    sas, paramsMap := NewSasQueryParameters(paramsMap, true);
    hide AfterSnapshot, WithoutSas;
    var unparsed := EncodeValues(paramsMap);
    r := QueryParts(snapshot, sas, unparsed);
  }

  /** NewFileURLParts. */
  method NewFileUrlParts(isIp: Text -> bool, u: Url) returns (up: FileUrlParts)
    ensures Parses(isIp, u, up)
  {
    var parts := TakePathApart(isIp(u.host), u.path);
    var r := TakeQueryApart(u.rawQuery);
    hide ParsePath, QueryRead;
    up := FileUrlParts(u.scheme, u.host, parts.share, parts.rest, r.shareSnapshot, r.sas, r.unparsedParams,
                       parts.account);
    assert PathOf(up) == parts && QueryOf(up) == r;
  }

  // ----- Printing -----

  function Amp(q: Text): Text {
    if |q| > 0 then q + AMP else q
  }

  function WithParams(q: Text, more: Text): Text {
    if more == "" then q else Amp(q) + more
  }

  function SnapshotParam(snapshot: Text): Text {
    if snapshot == "" then "" else SNAPSHOT_IS + snapshot
  }

  ghost function RawQuery(r: QueryParts): Text
    requires ValidParams(r.sas)
  {
    WithParams(WithParams(r.unparsedParams, SnapshotParam(r.shareSnapshot)), EncodeSas(r.sas))
  }

  ghost function ToUrl(isIp: Text -> bool, up: FileUrlParts): Url
    requires ValidParams(up.sas)
  {
    Url(up.scheme, up.host, PrintPath(isIp(up.host), PathOf(up)), RawQuery(QueryOf(up)))
  }

  /** Putting a query together, as FileURLParts.URL does. */
  method PutQueryTogether(r: QueryParts) returns (rawQuery: Text)
    requires ValidParams(r.sas)
    ensures rawQuery == RawQuery(r)
  {
    rawQuery := r.unparsedParams;
    if r.shareSnapshot != "" {
      if |rawQuery| > 0 {
        rawQuery := rawQuery + AMP;
      }
      rawQuery := rawQuery + (SNAPSHOT_IS + r.shareSnapshot);
    }
    var sasValues := AddToValues(r.sas, map[]);
    hide ToValues, Encode;
    assert map[] + ToValues(r.sas) == ToValues(r.sas);
    var sas := EncodeValues(sasValues);
    if sas != "" {
      if |rawQuery| > 0 {
        rawQuery := rawQuery + AMP;
      }
      rawQuery := rawQuery + sas;
    }
  }

  /** FileURLParts.URL. */
  method ComposeUrl(isIp: Text -> bool, up: FileUrlParts) returns (u: Url)
    requires ValidParams(up.sas)
    ensures u == ToUrl(isIp, up)
  {
    var path := PutPathTogether(isIp(up.host), PathOf(up));
    hide RawQuery, PrintPath;
    var rawQuery := PutQueryTogether(QueryOf(up));
    u := Url(up.scheme, up.host, path, rawQuery);
  }

  /** r is the URL with the snapshot replaced in what u may be read as. */
  ghost predicate MayBeWithSnapshot(isIp: Text -> bool, u: Url, shareSnapshot: Text, r: Url) {
    exists p :: Parses(isIp, u, p) && ValidParams(p.sas) && r == ToUrl(isIp, p.(shareSnapshot := shareSnapshot))
  }

  /** FileURL.WithSnapshot on the URL alone. */
  method WithSnapshot(isIp: Text -> bool, u: Url, shareSnapshot: Text) returns (r: Url)
    ensures MayBeWithSnapshot(isIp, u, shareSnapshot, r)
  {
    var p := NewFileUrlParts(isIp, u);
    hide ValidParams, ToUrl, Reads, ParseValues, SnapshotRead;
    var values := ParseValues(u.rawQuery);
    assert NoEmptyLists(AfterSnapshot(values));
    ReadsAreValid(AfterSnapshot(values), p.sas);
    r := ComposeUrl(isIp, p.(shareSnapshot := shareSnapshot));
    hide Parses;
  }

  /** Whatever is read from a query can be printed. */
  lemma ReadsAreValid(values: Values, p: SasQueryParameters)
    requires NoEmptyLists(values) && Reads(values, p)
    ensures ValidParams(p)
  {
    assert FieldRead(values, values.Keys, p, St) && FieldRead(values, values.Keys, p, Se) &&
           FieldRead(values, values.Keys, p, Sip);
    hide ParseTime, ParseIp;
    forall s
      ensures ValidTime(ParseSasTime(s).time) && ValidIpRange(ParseIpRange(s))
    {
      ParsedSasTimeIsValid(s);
      ParsedIpRangeIsValid(s);
    }
  }
}
