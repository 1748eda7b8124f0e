// util::uri: taking a URI apart and printing it.

module UriParts {
  import opened Searching
  import opened Slices

  // ----- Searching -----

  /** Searching s after `pre`: c is not in `a`, and `b` is empty or starts with it. */
  lemma FindAfter(s: string, pre: string, a: string, b: string, post: string, c: char)
    requires s == pre + a + b + post && c !in a && (b == [] || b[0] == c)
    ensures Find(s, |pre|, |pre| + |a| + |b|, c) == |pre| + |a|
  {
    var i := Find(s, |pre|, |pre| + |a| + |b|, c);
    assert forall j :: |pre| <= j < |pre| + |a| ==> s[j] == a[j - |pre|];
    assert b != [] ==> s[|pre| + |a|] == b[0];
  }

  // ----- The parts of a URI -----

  /** s holds "://" at k. */
  predicate SeparatorAt(s: string, k: nat) {
    k + 3 <= |s| && s[k] == ':' && s[k + 1] == '/' && s[k + 2] == '/'
  }

  datatype Parts = Parts(protocol: string, host: string, port: string, path: string, query: string)

  /** Where the parts lie. A protocol is there when the host does not start at 0. */
  datatype Layout = Layout(hostStart: nat, hostEnd: nat, authorityEnd: nat, queryStart: nat)

  predicate Fits(s: string, l: Layout) {
    && l.hostStart <= l.hostEnd <= l.authorityEnd <= l.queryStart <= |s|
    && (l.hostEnd < l.authorityEnd ==> s[l.hostEnd] == ':')
    && (l.hostStart > 0 ==> l.hostStart >= 3 && SeparatorAt(s, l.hostStart - 3))
  }

  function Cut(s: string, l: Layout): Parts
    requires Fits(s, l)
  {
    Parts(if l.hostStart > 0 then s[..l.hostStart - 3] else [],
          Slice(s, l.hostStart, l.hostEnd),
          if l.hostEnd < l.authorityEnd then Slice(s, l.hostEnd + 1, l.authorityEnd) else [],
          Slice(s, l.authorityEnd, l.queryStart),
          Slice(s, l.queryStart, |s|))
  }

  function QueryStart(s: string): (i: nat)
    ensures i <= |s|
  {
    Find(s, 0, |s|, '?')
  }

  function Colon(s: string): (i: nat)
    ensures i <= |s|
  {
    Find(s, 0, |s|, ':')
  }

  /** "://" at the first colon, with something after it. */
  predicate HasProtocol(s: string) {
    var k := Colon(s);
    k + 3 < |s| && SeparatorAt(s, k)
  }

  function HostStart(s: string): (i: nat)
    ensures i <= |s|
  {
    if HasProtocol(s) then Colon(s) + 3 else 0
  }

  function PathStart(s: string): (i: nat)
    ensures HostStart(s) <= i <= |s|
  {
    Find(s, HostStart(s), |s|, '/')
  }

  /** The code reads its ranges forwards exactly when the first '?' comes after any protocol separator and
      after any start of a path. */
  predicate InDomain(s: string) {
    (if PathStart(s) < |s| then PathStart(s) else HostStart(s)) <= QueryStart(s)
  }

  /** Where the authority ends. */
  function Limit(s: string): (a: nat)
    requires InDomain(s)
    ensures HostStart(s) <= a <= QueryStart(s)
  {
    if PathStart(s) < |s| then PathStart(s) else QueryStart(s)
  }

  function LayoutOf(s: string): (l: Layout)
    requires InDomain(s)
    ensures Fits(s, l)
  {
    Layout(HostStart(s), Find(s, HostStart(s), Limit(s), ':'), Limit(s), QueryStart(s))
  }

  function Parse(s: string): Parts
    requires InDomain(s)
  {
    Cut(s, LayoutOf(s))
  }

  function PortText(port: string): string {
    if port != [] then [':'] + port else []
  }

  function SchemeText(protocol: string): string {
    if protocol != [] then protocol + "://" else []
  }

  function Authority(c: Parts): string {
    c.host + PortText(c.port)
  }

  function Tail(c: Parts): string {
    c.path + c.query
  }

  function Print(c: Parts): string {
    SchemeText(c.protocol) + (Authority(c) + Tail(c))
  }

  // ----- The program -----

  class Uri {
    var protocol: string
    var host: string
    var port: string
    var path: string
    var query: string

    function Current(): Parts
      reads this
    {
      Parts(protocol, host, port, path, query)
    }

    constructor (uri: string)
      requires InDomain(uri)
      ensures Current() == Parse(uri)
    {
      protocol, host, port, path, query := [], [], [], [], [];
      new;
      if |uri| == 0 {
        ParseNothing(uri);
        return;
      }
      LimitIsNoColon(uri);
      var queryStart := Find(uri, 0, |uri|, '?');
      var protocolEnd := ParseProtocol(uri);
      var pathStart := Find(uri, protocolEnd, |uri|, '/');
      var limit := if pathStart != |uri| then pathStart else queryStart;
      assert limit == Limit(uri);
      SplitRest(uri, protocolEnd, limit, queryStart, pathStart != |uri|);
    }

    method ParseProtocol(uri: string) returns (protocolEnd: nat)
      requires protocol == []
      modifies this`protocol
      ensures protocolEnd == HostStart(uri) && host == old(host) && port == old(port)
      ensures path == old(path) && query == old(query)
      ensures protocol == if protocolEnd > 0 then uri[..protocolEnd - 3] else []
    {
      protocolEnd := Find(uri, 0, |uri|, ':');
      if protocolEnd != |uri| {
        var afterProtocol := Slice(uri, protocolEnd, |uri|);
        if |afterProtocol| > 3 && SeparatorAt(afterProtocol, 0) {
          protocol := uri[..protocolEnd];
          protocolEnd := protocolEnd + 3;
          return;
        }
      }
      protocolEnd := 0;  // no protocol
    }

    /** Host, port, path and query, once their limits are known. */
    method SplitRest(uri: string, hostStart: nat, limit: nat, queryStart: nat, hasPath: bool)
      requires hostStart <= limit <= queryStart <= |uri| && (limit < |uri| ==> uri[limit] != ':')
      requires !hasPath ==> limit == queryStart
      requires port == path == query == []
      modifies this`host, this`port, this`path, this`query
      ensures var l := Layout(hostStart, Find(uri, hostStart, limit, ':'), limit, queryStart);
              Fits(uri, l) ==> Current() == Cut(uri, l).(protocol := protocol)
    {
      var hostEnd := Find(uri, hostStart, limit, ':');
      host := Slice(uri, hostStart, hostEnd);
      if hostEnd != |uri| && uri[hostEnd] == ':' {
        port := Slice(uri, hostEnd + 1, limit);
      }
      if hasPath {
        path := Slice(uri, limit, queryStart);
      }
      if queryStart != |uri| {
        query := Slice(uri, queryStart, |uri|);
      }
    }

    method Str() returns (s: string)
      ensures s == Print(Current())
      ensures s == (if protocol != [] then protocol + "://" else []) + host + (if port != [] then ":" + port else [])
                   + path + query
    {
      s := [];
      if protocol != [] {
        s := protocol + "://";
      }
      s := s + host;
      if port != [] {
        s := s + ([':'] + port);
      }
      assert s == SchemeText(protocol) + host + PortText(port);
      s := s + path;
      s := s + query;
      PrintFlat(Current());
    }
  }

  lemma ParseNothing(uri: string)
    requires uri == [] && InDomain(uri)
    ensures Parse(uri) == Parts([], [], [], [], [])
  {
  }

  /** A path or a query begins where the authority ends. */
  lemma LimitIsNoColon(uri: string)
    requires InDomain(uri)
    ensures Limit(uri) < |uri| ==> uri[Limit(uri)] != ':'
  {
  }

  lemma PrintFlat(c: Parts)
    ensures SchemeText(c.protocol) + c.host + PortText(c.port) + c.path + c.query == Print(c)
  {
    var scheme, port := SchemeText(c.protocol), PortText(c.port);
    assert scheme + c.host + port == scheme + (c.host + port);
    assert (scheme + (c.host + port)) + c.path + c.query == scheme + ((c.host + port) + (c.path + c.query));
  }

  // ----- Parse, then print -----

  /** A separator without a protocol. */
  predicate EmptyProtocol(l: Layout) {
    l.hostStart == 3
  }

  /** A port colon without a port. */
  predicate EmptyPort(l: Layout) {
    l.hostEnd + 1 == l.authorityEnd
  }

  lemma SeparatorJoins(s: string, k: nat)
    requires SeparatorAt(s, k)
    ensures s[..k] + "://" == s[..k + 3]
  {
  }

  lemma SchemeCut(s: string, l: Layout)
    requires Fits(s, l)
    ensures SchemeText(Cut(s, l).protocol) == if EmptyProtocol(l) then [] else s[..l.hostStart]
  {
    if l.hostStart > 3 {
      SeparatorJoins(s, l.hostStart - 3);
    }
  }

  lemma PortOf(s: string, i: nat, j: nat)
    requires i <= j <= |s| && (i < j ==> s[i] == ':')
    ensures PortText(if i < j then Slice(s, i + 1, j) else []) == if i + 1 == j then [] else Slice(s, i, j)
  {
    if i + 1 < j {
      HeadOfSlice(s, i, j);
    } else if i < j {
      assert |Slice(s, i + 1, j)| == 0;
    } else {
      assert |Slice(s, i, j)| == 0;
    }
  }

  lemma PortCut(s: string, l: Layout)
    requires Fits(s, l)
    ensures PortText(Cut(s, l).port) == if EmptyPort(l) then [] else Slice(s, l.hostEnd, l.authorityEnd)
  {
    PortOf(s, l.hostEnd, l.authorityEnd);
  }

  lemma HeadOfSlice(s: string, i: nat, j: nat)
    requires i < j <= |s|
    ensures [s[i]] + Slice(s, i + 1, j) == Slice(s, i, j)
  {
  }

  /** A text is what lies before, between and after two cuts. */
  lemma TwoCuts(s: string, i: nat, j: nat)
    requires i <= j <= |s|
    ensures s[..i] + (Slice(s, i, j) + Slice(s, j, |s|)) == s
  {
    SliceConcat(s, i, j, |s|);
    assert s[..i] + Slice(s, i, |s|) == s;
  }

  lemma TailCut(s: string, l: Layout)
    requires Fits(s, l)
    ensures Tail(Cut(s, l)) == Slice(s, l.authorityEnd, |s|)
  {
    SliceConcat(s, l.authorityEnd, l.queryStart, |s|);
  }

  lemma AuthorityCut(s: string, l: Layout)
    requires Fits(s, l) && !EmptyPort(l)
    ensures Authority(Cut(s, l)) == Slice(s, l.hostStart, l.authorityEnd)
  {
    PortCut(s, l);
    SliceConcat(s, l.hostStart, l.hostEnd, l.authorityEnd);
  }

  lemma PrintedLength(c: Parts)
    ensures |Print(c)| == |SchemeText(c.protocol)| + |c.host| + |PortText(c.port)| + |Tail(c)|
  {
  }

  /** Something is lost when a separator or a colon stands alone. */
  lemma PrintLoses(s: string, l: Layout)
    requires Fits(s, l) && (EmptyProtocol(l) || EmptyPort(l))
    ensures |Print(Cut(s, l))| < |s|
  {
    var c := Cut(s, l);
    PrintedLength(c);
    SchemeCut(s, l);
    PortCut(s, l);
    TailCut(s, l);
  }

  lemma PrintCut(s: string, l: Layout)
    requires Fits(s, l)
    ensures Print(Cut(s, l)) == s <==> !EmptyProtocol(l) && !EmptyPort(l)
  {
    if EmptyProtocol(l) || EmptyPort(l) {
      PrintLoses(s, l);
    } else {
      SchemeCut(s, l);
      AuthorityCut(s, l);
      TailCut(s, l);
      TwoCuts(s, l.hostStart, l.authorityEnd);
    }
  }

  /** The text begins with a separator, so that no protocol precedes it. */
  predicate SeparatorFirst(s: string) {
    |s| > 3 && SeparatorAt(s, 0)
  }

  /** Host and port: the text from the separator on, up to the path, or without one up to the query. */
  function AuthorityText(s: string): string
    requires InDomain(s)
  {
    Slice(s, HostStart(s), Limit(s))
  }

  /** The only colon of the text is its last character. */
  predicate EndsInOnlyColon(a: string) {
    a != [] && a[|a| - 1] == ':' && forall j :: 0 <= j < |a| - 1 ==> a[j] != ':'
  }

  lemma SeparatorIsFirst(s: string)
    requires InDomain(s)
    ensures EmptyProtocol(LayoutOf(s)) <==> SeparatorFirst(s)
  {
  }

  lemma OnlyColonAt(s: string, i: nat, j: nat)
    requires i <= j <= |s|
    ensures EndsInOnlyColon(Slice(s, i, j)) <==> i < j && s[j - 1] == ':' && forall k :: i <= k < j - 1 ==> s[k] != ':'
  {
    var a := Slice(s, i, j);
    assert forall k :: 0 <= k < j - i ==> a[k] == s[i + k];
    assert forall k :: i <= k < j ==> s[k] == a[k - i];
  }

  lemma ColonIsLast(s: string)
    requires InDomain(s)
    ensures EmptyPort(LayoutOf(s)) <==> EndsInOnlyColon(AuthorityText(s))
  {
    OnlyColonAt(s, HostStart(s), Limit(s));
  }

  /** Printing what was parsed gives the text back if and only if it has neither a separator without a
      protocol nor a port colon without a port. */
  lemma PrintParsed(s: string)
    requires InDomain(s)
    ensures Print(Parse(s)) == s <==> !SeparatorFirst(s) && !EndsInOnlyColon(AuthorityText(s))
  {
    PrintCut(s, LayoutOf(s));
    SeparatorIsFirst(s);
    ColonIsLast(s);
  }

  /** Two texts that do not come back. */
  lemma SeparatorAndColonAreLost()
    ensures InDomain("://h") && Print(Parse("://h")) != "://h"
    ensures InDomain("h:") && Print(Parse("h:")) != "h:"
  {
    var s := "://h";
    assert s[0] == ':' && s[3] == 'h';
    assert HasProtocol(s) && PathStart(s) == |s| && QueryStart(s) == |s|;
    PrintParsed(s);
    var c := "h:";
    assert c[0] == 'h' && c[1] == ':';
    assert !HasProtocol(c) && PathStart(c) == |c| && QueryStart(c) == |c|;
    assert AuthorityText(c) == c;
    PrintParsed(c);
  }

  // ----- Print, then parse -----

  predicate Without(s: string, c: char, d: char) {
    c !in s && d !in s
  }

  /** Each component on its own. */
  predicate WellShaped(c: Parts) {
    && Without(c.protocol, ':', '?')
    && ':' !in c.host && Without(c.host, '/', '?')
    && Without(c.port, '/', '?')
    && (c.path == [] || c.path[0] == '/') && '?' !in c.path
    && (c.query == [] || c.query[0] == '?')
  }

  /** Components that the printed form keeps apart. */
  predicate Canonical(c: Parts) {
    && WellShaped(c)
    && (c.path == [] ==> '/' !in c.query)
    && (c.protocol != [] ==> Authority(c) + Tail(c) != [])
    && (c.protocol == [] && c.port == [] ==> !HasProtocol(Tail(c)))
  }

  /** Where the parts lie in the printed form. */
  function Expected(c: Parts): Layout {
    var h := |SchemeText(c.protocol)|;
    var a := h + |Authority(c)|;
    Layout(h, h + |c.host|, a, a + |c.path|)
  }

  lemma NotInConcat(a: string, b: string, c: char)
    requires c !in a && c !in b
    ensures c !in a + b
  {
  }

  lemma NoQueryMark(c: Parts)
    requires WellShaped(c)
    ensures '?' !in SchemeText(c.protocol) && '?' !in Authority(c)
  {
    if c.protocol != [] {
      NotInConcat(c.protocol, "://", '?');
    }
    if c.port != [] {
      NotInConcat(":", c.port, '?');
    }
    NotInConcat(c.host, PortText(c.port), '?');
  }

  /** The first '?' of scheme, authority, path and query is where the query starts. */
  lemma QueryAfter(scheme: string, authority: string, path: string, query: string)
    requires '?' !in scheme && '?' !in authority && '?' !in path && (query == [] || query[0] == '?')
    ensures QueryStart(scheme + (authority + (path + query))) == |scheme| + |authority| + |path|
  {
    var a := scheme + (authority + path);
    NotInConcat(authority, path, '?');
    NotInConcat(scheme, authority + path, '?');
    var s := scheme + (authority + (path + query));
    assert authority + (path + query) == (authority + path) + query;
    assert s == [] + a + query + [];
    FindAfter(s, [], a, query, [], '?');
  }

  /** A prefix without a colon does not change whether the first colon starts a protocol separator. */
  lemma PrefixedProtocol(a: string, t: string)
    requires ':' !in a
    ensures HasProtocol(a + t) <==> HasProtocol(t)
  {
    var k := Colon(t);
    assert a + t == [] + (a + t[..k]) + Slice(t, k, |t|) + [];
    FindAfter(a + t, [], a + t[..k], Slice(t, k, |t|), [], ':');
    assert Colon(a + t) == |a| + k;
  }

  lemma SchemeFound(protocol: string, rest: string)
    requires ':' !in protocol && rest != []
    ensures HostStart(protocol + "://" + rest) == |protocol| + 3
  {
    var s := protocol + "://" + rest;
    assert s == [] + protocol + ("://" + rest) + [];
    FindAfter(s, [], protocol, "://" + rest, [], ':');
  }

  lemma PortIsNoScheme(host: string, port: string, tail: string)
    requires ':' !in host && port != [] && port[0] != '/'
    ensures HostStart((host + ([':'] + port)) + tail) == 0
  {
    var s, rest := (host + ([':'] + port)) + tail, [':'] + port + tail;
    assert s == [] + host + rest + [];
    FindAfter(s, [], host, rest, [], ':');
    var k := |host|;
    assert s[k + 1] == port[0];
  }

  lemma PrintedScheme(c: Parts)
    requires Canonical(c)
    ensures HostStart(Print(c)) == Expected(c).hostStart
  {
    var rest := Authority(c) + Tail(c);
    if c.protocol != [] {
      SchemeFound(c.protocol, rest);
    } else {
      assert Print(c) == rest;
      if c.port != [] {
        PortIsNoScheme(c.host, c.port, Tail(c));
      } else {
        assert Authority(c) == c.host;
        PrefixedProtocol(c.host, Tail(c));
      }
    }
  }

  /** The first '/' after the scheme is where the path starts. */
  lemma PathAfter(scheme: string, authority: string, path: string, query: string)
    requires '/' !in authority && (path == [] || path[0] == '/') && (path == [] ==> '/' !in query)
    ensures var s := scheme + (authority + (path + query));
            Find(s, |scheme|, |s|, '/') == if path == [] then |s| else |scheme| + |authority|
  {
    var s := scheme + (authority + (path + query));
    if path == [] {
      NotInConcat(authority, query, '/');
      assert s == scheme + (authority + query) + [] + [];
      FindAfter(s, scheme, authority + query, [], [], '/');
    } else {
      assert s == scheme + authority + (path + query) + [];
      FindAfter(s, scheme, authority, path + query, [], '/');
    }
  }

  /** The first ':' of the authority is where the port starts. */
  lemma PortAfter(scheme: string, host: string, port: string, tail: string)
    requires ':' !in host
    ensures var a := host + PortText(port);
            Find(scheme + (a + tail), |scheme|, |scheme| + |a|, ':') == |scheme| + |host|
  {
    var p := PortText(port);
    Regroup(scheme, host, p, tail);
    FindAfter(scheme + ((host + p) + tail), scheme, host, p, tail, ':');
  }

  lemma Regroup(a: string, b: string, c: string, d: string)
    ensures a + ((b + c) + d) == a + b + c + d
  {
    assert (b + c) + d == b + (c + d);
    assert a + (b + (c + d)) == (a + b) + (c + d);
  }

  lemma PrintedPath(c: Parts)
    requires Canonical(c)
    ensures PathStart(Print(c)) == if c.path == [] then |Print(c)| else Expected(c).authorityEnd
  {
    PrintedScheme(c);
    NoSlash(c.host, c.port);
    PathAfter(SchemeText(c.protocol), Authority(c), c.path, c.query);
  }

  lemma NoSlash(host: string, port: string)
    requires '/' !in host && '/' !in port
    ensures '/' !in host + PortText(port)
  {
  }

  /** The searches decide the layout. */
  lemma LayoutIs(s: string, l: Layout)
    requires l.hostStart <= l.authorityEnd <= l.queryStart <= |s|
    requires HostStart(s) == l.hostStart && QueryStart(s) == l.queryStart
    requires PathStart(s) == if l.authorityEnd == l.queryStart then |s| else l.authorityEnd
    requires Find(s, l.hostStart, l.authorityEnd, ':') == l.hostEnd
    ensures InDomain(s) && LayoutOf(s) == l
  {
  }

  lemma PrintedQuery(c: Parts)
    requires WellShaped(c)
    ensures QueryStart(Print(c)) == Expected(c).queryStart
  {
    NoQueryMark(c);
    QueryAfter(SchemeText(c.protocol), Authority(c), c.path, c.query);
  }

  lemma PrintedPort(c: Parts)
    requires WellShaped(c)
    ensures ExpectedFits(c)
    ensures var l := Expected(c); Find(Print(c), l.hostStart, l.authorityEnd, ':') == l.hostEnd
  {
    PortAfter(SchemeText(c.protocol), c.host, c.port, Tail(c));
  }

  predicate ExpectedFits(c: Parts) {
    var l := Expected(c);
    l.hostStart <= l.hostEnd <= l.authorityEnd <= l.queryStart <= |Print(c)|
    && (l.authorityEnd == l.queryStart <==> c.path == [])
  }

  lemma PrintedLayout(c: Parts)
    requires Canonical(c)
    ensures InDomain(Print(c)) && LayoutOf(Print(c)) == Expected(c)
  {
    PrintedPort(c);
    PrintedQuery(c);
    PrintedScheme(c);
    PrintedPath(c);
    LayoutIs(Print(c), Expected(c));
  }

  /** In the printed form every part is where it is expected. */
  lemma CutProtocol(c: Parts)
    requires c.protocol != []
    ensures Expected(c).hostStart == |c.protocol| + 3 && Print(c)[..|c.protocol|] == c.protocol
  {
    var rest := Authority(c) + Tail(c);
    assert (c.protocol + "://") + rest == c.protocol + ("://" + rest);
  }

  lemma CutHost(c: Parts)
    requires ExpectedFits(c)
    ensures var l := Expected(c); Slice(Print(c), l.hostStart, l.hostEnd) == c.host
  {
    var scheme, after := SchemeText(c.protocol), PortText(c.port) + Tail(c);
    assert (c.host + PortText(c.port)) + Tail(c) == c.host + after;
    assert scheme + (c.host + after) == (scheme + c.host) + after;
    MiddleSlice(Print(c), scheme, c.host, after);
  }

  lemma CutPort(c: Parts)
    requires ExpectedFits(c) && c.port != []
    ensures var l := Expected(c); l.hostEnd < l.authorityEnd && Slice(Print(c), l.hostEnd + 1, l.authorityEnd) == c.port
  {
    var before, tail := SchemeText(c.protocol) + (c.host + [':']), Tail(c);
    assert c.host + ([':'] + c.port) == (c.host + [':']) + c.port;
    assert ((c.host + [':']) + c.port) + tail == (c.host + [':']) + (c.port + tail);
    assert SchemeText(c.protocol) + ((c.host + [':']) + (c.port + tail)) == before + (c.port + tail);
    assert before + (c.port + tail) == (before + c.port) + tail;
    MiddleSlice(Print(c), before, c.port, tail);
  }

  lemma CutTail(c: Parts)
    requires ExpectedFits(c)
    ensures var l := Expected(c);
            && Slice(Print(c), l.authorityEnd, l.queryStart) == c.path
            && Slice(Print(c), l.queryStart, |Print(c)|) == c.query
  {
    var before := SchemeText(c.protocol) + Authority(c);
    assert SchemeText(c.protocol) + (Authority(c) + Tail(c)) == before + Tail(c);
    assert before + (c.path + c.query) == (before + c.path) + c.query;
    MiddleSlice(Print(c), before, c.path, c.query);
    assert Print(c) == ((before + c.path) + c.query) + [];
    MiddleSlice(Print(c), before + c.path, c.query, []);
  }

  lemma CutExpected(c: Parts)
    requires Fits(Print(c), Expected(c)) && ExpectedFits(c)
    ensures Cut(Print(c), Expected(c)) == c
  {
    var l := Expected(c);
    if c.protocol != [] {
      CutProtocol(c);
    } else {
      assert l.hostStart == 0;
    }
    CutHost(c);
    if c.port != [] {
      CutPort(c);
    } else {
      assert l.hostEnd == l.authorityEnd;
    }
    CutTail(c);
  }

  /** What the searches say about a layout. */
  ghost predicate Searched(s: string, l: Layout) {
    && Fits(s, l)
    && (forall j :: 0 <= j < l.hostStart - 3 ==> s[j] != ':')
    && (forall j :: 0 <= j < l.queryStart ==> s[j] != '?')
    && (forall j :: l.hostStart <= j < l.hostEnd ==> s[j] != ':')
    && (forall j :: l.hostStart <= j < l.authorityEnd ==> s[j] != '/')
    && (l.authorityEnd < l.queryStart ==> s[l.authorityEnd] == '/')
    && (l.authorityEnd == l.queryStart ==> forall j :: l.queryStart <= j < |s| ==> s[j] != '/')
    && (l.queryStart < |s| ==> s[l.queryStart] == '?')
    && (l.hostStart == 0 ==> !HasProtocol(s))
    && (l.hostStart > 0 ==> l.hostStart < |s|)
  }

  lemma LayoutIsSearched(s: string)
    requires InDomain(s)
    ensures Searched(s, LayoutOf(s))
  {
  }

  lemma AuthorityIsWellShaped(s: string, l: Layout)
    requires Searched(s, l)
    ensures var c := Cut(s, l); ':' !in c.host && Without(c.host, '/', '?') && Without(c.port, '/', '?')
  {
    SliceWithout(s, l.hostStart, l.hostEnd, ':');
    SliceWithout(s, l.hostStart, l.hostEnd, '/');
    SliceWithout(s, l.hostStart, l.hostEnd, '?');
    if l.hostEnd < l.authorityEnd {
      SliceWithout(s, l.hostEnd + 1, l.authorityEnd, '/');
      SliceWithout(s, l.hostEnd + 1, l.authorityEnd, '?');
    }
  }

  lemma TailIsWellShaped(s: string, l: Layout)
    requires Searched(s, l)
    ensures var c := Cut(s, l);
            && (c.path == [] || c.path[0] == '/') && '?' !in c.path
            && (c.query == [] || c.query[0] == '?') && (c.path == [] ==> '/' !in c.query)
  {
    SliceWithout(s, l.authorityEnd, l.queryStart, '?');
    if l.authorityEnd < l.queryStart {
      SliceStart(s, l.authorityEnd, l.queryStart);
    } else {
      SliceWithout(s, l.queryStart, |s|, '/');
    }
    if l.queryStart < |s| {
      SliceStart(s, l.queryStart, |s|);
    }
  }

  lemma CutIsWellShaped(s: string, l: Layout)
    requires Searched(s, l)
    ensures WellShaped(Cut(s, l)) && (Cut(s, l).path == [] ==> '/' !in Cut(s, l).query)
  {
    AuthorityIsWellShaped(s, l);
    TailIsWellShaped(s, l);
    if l.hostStart > 0 {
      SliceWithout(s, 0, l.hostStart - 3, ':');
      SliceWithout(s, 0, l.hostStart - 3, '?');
    }
  }

  /** A text cut without protocol and port has no separator after its host. */
  lemma BareTail(s: string, l: Layout)
    requires Searched(s, l) && l.hostStart == 0 && l.hostEnd == l.authorityEnd
    ensures !HasProtocol(Tail(Cut(s, l)))
  {
    var a := l.authorityEnd;
    TailCut(s, l);
    assert s == s[..a] + Slice(s, a, |s|);
    PrefixedProtocol(s[..a], Slice(s, a, |s|));
  }

  /** What a cut produces is canonical, provided it prints back to the text. */
  lemma {:induction false} CutIsCanonical(s: string, l: Layout)
    requires Searched(s, l) && Print(Cut(s, l)) == s
    ensures Canonical(Cut(s, l))
  {
    CutIsWellShaped(s, l);
    PrintCut(s, l);
    var c := Cut(s, l);
    if c.protocol == [] {
      if c.port == [] {
        BareTail(s, l);
      }
    } else {
      assert |s| == |SchemeText(c.protocol)| + |Authority(c) + Tail(c)|;
    }
  }

  /** Parsing what was printed gives the components back if and only if they are canonical. */
  lemma ParsePrinted(c: Parts)
    ensures Canonical(c) <==> InDomain(Print(c)) && Parse(Print(c)) == c
  {
    if Canonical(c) {
      PrintedLayout(c);
      CutExpected(c);
    }
    if InDomain(Print(c)) && Parse(Print(c)) == c {
      LayoutIsSearched(Print(c));
      CutIsCanonical(Print(c), LayoutOf(Print(c)));
    }
  }

  /** What the parts of any text look like: the protocol ends before the first colon; the host has neither a colon nor
      the start of a path or a query; the port has no start of either; the path starts with a slash and the query with
      a question mark, when there is one. */
  lemma PartsOfText(s: string)
    requires InDomain(s)
    ensures var c := Parse(s);
            && ':' !in c.protocol && '?' !in c.protocol
            && ':' !in c.host && '/' !in c.host && '?' !in c.host
            && '/' !in c.port && '?' !in c.port
            && (c.path == [] || c.path[0] == '/') && '?' !in c.path
            && (c.query == [] || c.query[0] == '?')
  {
    LayoutIsSearched(s);
    CutIsWellShaped(s, LayoutOf(s));
  }

  /** A scheme is what precedes the first colon, when that begins "://" with something after it. */
  lemma SchemeExactly(s: string)
    ensures HasProtocol(s) <==> exists p, rest :: s == p + ("://" + rest) && ':' !in p && rest != []
  {
    var k := Colon(s);
    if HasProtocol(s) {
      var p, rest := s[..k], s[k + 3..];
      assert s == p + ("://" + rest) && ':' !in p && rest != [];
    }
    forall p, rest | s == p + ("://" + rest) && ':' !in p && rest != []
      ensures HasProtocol(s)
    {
      var after := "://" + rest;
      assert after[0] == ':' && after[1] == '/' && after[2] == '/';
      assert forall j :: 0 <= j < |p| ==> s[j] == p[j];
      assert s[|p|] == ':' && s[|p| + 1] == '/' && s[|p| + 2] == '/';
      assert k == |p|;
    }
  }

  lemma SchemeOf(s: string, l: Layout)
    requires Fits(s, l)
    ensures s[..l.hostStart] == if l.hostStart > 0 then Cut(s, l).protocol + "://" else []
  {
    if l.hostStart > 0 {
      SeparatorJoins(s, l.hostStart - 3);
    }
  }

  lemma AuthorityOf(s: string, l: Layout)
    requires Fits(s, l)
    ensures var c := Cut(s, l);
            Slice(s, l.hostStart, l.authorityEnd) == c.host + if l.hostEnd < l.authorityEnd then ":" + c.port else []
  {
    if l.hostEnd < l.authorityEnd {
      HeadOfSlice(s, l.hostEnd, l.authorityEnd);
    }
    SliceConcat(s, l.hostStart, l.hostEnd, l.authorityEnd);
  }

  /** Nothing of a text is lost but separators: it is its parts with "://" after a scheme and a colon before a port,
      either of which may be empty. */
  lemma TextIsItsParts(s: string) returns (scheme: bool, port: bool)
    requires InDomain(s)
    ensures scheme <==> exists p, rest :: s == p + ("://" + rest) && ':' !in p && rest != []
    ensures var c := Parse(s);
            && s == (if scheme then c.protocol + "://" else [])
                    + ((c.host + if port then ":" + c.port else []) + (c.path + c.query))
            && (!scheme ==> c.protocol == []) && (!port ==> c.port == [])
  {
    var l := LayoutOf(s);
    scheme, port := l.hostStart > 0, l.hostEnd < l.authorityEnd;
    SchemeExactly(s);
    SchemeOf(s, l);
    AuthorityOf(s, l);
    TailCut(s, l);
    TwoCuts(s, l.hostStart, l.authorityEnd);
  }

  lemma ExampleIsCanonical(c: Parts)
    requires c == Parts("http", "h", "80", "/p", "?q=?")
    ensures Canonical(c)
  {
    assert |Authority(c)| > 0;
  }

  lemma ExamplePrinted(c: Parts)
    requires c == Parts("http", "h", "80", "/p", "?q=?")
    ensures Print(c) == "http://h:80/p?q=?"
  {
    assert SchemeText(c.protocol) == "http://" && Authority(c) == "h:80" && Tail(c) == "/p?q=?";
    Regroup("http://", "h:80", "/p", "?q=?");
  }

  /** A text with all the parts. */
  lemma AllParts()
    ensures InDomain("http://h:80/p?q=?")
    ensures Parse("http://h:80/p?q=?") == Parts("http", "h", "80", "/p", "?q=?")
  {
    var c := Parts("http", "h", "80", "/p", "?q=?");
    ExampleIsCanonical(c);
    ExamplePrinted(c);
    ParsePrinted(c);
  }
}
