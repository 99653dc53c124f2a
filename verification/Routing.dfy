/** End-to-end routing: the memory built from a registry answers every request like a plain scan
    over the registered objects (pkg/routing/table.go, Route). */
module Routing {
  import opened Keys
  import opened TableMemory
  import opened TableMemoryLaws

  /** The object claims each of its hosts with each of its path prefixes. One that lists no hosts claims
      the empty host, and one that lists no path prefixes every path. */
  predicate Claims(o: HTTPSO, h: string, p: string) {
    && (match o.hosts case None => h == "" case Some(hosts) => h in hosts)
    && (match o.pathPrefixes case None => p == "" case Some(prefixes) => p in prefixes)
  }

  /** The claim (h, p) covers the target: whole segments of it, from the host on. */
  predicate Covers(h: string, p: string, target: seq<string>) {
    RouteSegments(h, p) <= target
  }

  /** What a scan over all objects and all their claims would answer: an object whose claim covers
      the most segments of the target, and the oldest of those that make the same claim. */
  ghost predicate IsScanResult(objs: map<NamespacedName, HTTPSO>, target: seq<string>, r: Option<HTTPSO>) {
    match r
    case None => forall n, h, p | n in objs && Claims(objs[n], h, p) :: !Covers(h, p, target)
    case Some(o) => o.name in objs && objs[o.name] == o && exists h, p :: IsBestClaim(objs, target, o, h, p)
  }

  ghost predicate IsBestClaim(objs: map<NamespacedName, HTTPSO>, target: seq<string>, o: HTTPSO, h: string, p: string) {
    && Claims(o, h, p) && Covers(h, p, target)
    && forall n, h', p' | n in objs && Claims(objs[n], h', p') && Covers(h', p', target) ::
         && |RouteSegments(h', p')| <= |RouteSegments(h, p)|
         && (RouteSegments(h', p') == RouteSegments(h, p) ==> o.created <= objs[n].created)
  }

  /** What the table answers for a request, given the published memory if there is one. */
  function TableRoute(published: Option<Memory>, req: Option<Request>): Option<HTTPSO> {
    if req.None? || published.None? then None else Route(published.value, NewKeyFromRequest(req))
  }

  lemma ClaimIsKey(o: HTTPSO, h: string, p: string)
    requires Claims(o, h, p)
    ensures NewKey(h, p) in KeysOf(o)
  {
    KeysForHas(OrBlank(o.hosts), OrBlank(o.pathPrefixes), h, p);
  }

  lemma KeyIsClaim(o: HTTPSO, k: Key) returns (h: string, p: string)
    requires k in KeysOf(o)
    ensures Claims(o, h, p) && k == NewKey(h, p)
  {
    h, p := KeysForFrom(OrBlank(o.hosts), OrBlank(o.pathPrefixes), k);
  }

  lemma NothingCovers(tm: Memory, objs: map<NamespacedName, HTTPSO>, host: string, path: string)
    requires BuiltFrom(tm, objs) && Route(tm, NewKey(host, path)).None?
    ensures IsScanResult(objs, RouteSegments(host, path), None)
  {
    forall n, h, p | n in objs && Claims(objs[n], h, p)
      ensures !Covers(h, p, RouteSegments(host, path))
    {
      ClaimIsKey(objs[n], h, p);
      BuiltFromMeans(tm, objs, NewKey(h, p));
      KeyPrefix(h, p, host, path);
    }
  }

  /** Of two keys that are prefixes of a third, the shorter is a prefix of the longer. */
  lemma ShorterIsPrefix(a: string, b: string, c: string)
    requires a <= c && b <= c && |a| <= |b|
    ensures a <= b
  {
    assert a == c[..|a|] && b == c[..|b|];
  }

  lemma BestCovers(tm: Memory, objs: map<NamespacedName, HTTPSO>, host: string, path: string, h: string, p: string)
    requires BuiltFrom(tm, objs)
    requires var key, k := NewKey(host, path), NewKey(h, p);
             && k in tm.store && k <= key && Claims(tm.store[k], h, p)
             && forall k' | k' in tm.store && k' <= key :: |k'| <= |k|
    ensures IsBestClaim(objs, RouteSegments(host, path), tm.store[NewKey(h, p)], h, p)
  {
    var key, k := NewKey(host, path), NewKey(h, p);
    var o := tm.store[k];
    BuiltFromMeans(tm, objs, k);
    KeyPrefix(h, p, host, path);
    forall n, h', p' | n in objs && Claims(objs[n], h', p') && Covers(h', p', RouteSegments(host, path))
      ensures |RouteSegments(h', p')| <= |RouteSegments(h, p)|
      ensures RouteSegments(h', p') == RouteSegments(h, p) ==> o.created <= objs[n].created
    {
      var k' := NewKey(h', p');
      ClaimIsKey(objs[n], h', p');
      BuiltFromMeans(tm, objs, k');
      KeyPrefix(h', p', host, path);
      ShorterIsPrefix(k', k, key);
      KeyPrefix(h', p', h, p);
      KeyInjective(h', p', h, p);
    }
  }

  /** For every registry, request host and path, routing by longest key refines the scan. */
  lemma RouteRefinesScan(tm: Memory, objs: map<NamespacedName, HTTPSO>, host: string, path: string)
    requires BuiltFrom(tm, objs)
    ensures IsScanResult(objs, RouteSegments(host, path), Route(tm, NewKey(host, path)))
  {
    var key := NewKey(host, path);
    var r := Route(tm, key);
    if r.None? {
      NothingCovers(tm, objs, host, path);
    } else {
      var k :| k in tm.store && k <= key && tm.store[k] == r.value
        && forall k' | k' in tm.store && k' <= key :: |k'| <= |k|;
      BuiltFromMeans(tm, objs, k);
      var h, p := KeyIsClaim(r.value, k);
      BestCovers(tm, objs, host, path, h, p);
    }
  }

  /** For hosts without slashes, to cover a target means to have its host, up to the port, and a
      prefix of its path segments. */
  lemma CoversByHost(h: string, p: string, host: string, path: string)
    requires '/' !in h && '/' !in host
    ensures Covers(h, p, RouteSegments(host, path)) <==>
            StripPort(h) == StripPort(host) && Segments(p) <= Segments(path)
    ensures |RouteSegments(h, p)| == 1 + |Segments(p)|
  {
    ConsPrefix(StripPort(h), Segments(p), StripPort(host), Segments(path));
  }

  /** No request, or a request before the first memory is published, is routed nowhere. */
  lemma NothingToRoute(published: Option<Memory>, req: Option<Request>)
    ensures published.None? || req.None? ==> TableRoute(published, req) == None
  {
  }

  /** A request without a URL has the empty key, which no object can claim. */
  lemma NoURLNoRoute(tm: Memory, objs: map<NamespacedName, HTTPSO>, host: string)
    requires BuiltFrom(tm, objs)
    ensures TableRoute(Some(tm), Some(Request(None, host))) == None
  {
    BuiltFromMeans(tm, objs, "");
    if "" in tm.store {
      var o := tm.store[""];
      var h, p := KeyIsClaim(o, "");
    }
  }
}
