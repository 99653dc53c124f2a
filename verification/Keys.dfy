/** Routing keys (pkg/routing/key.go). A key is the string "//host/path/"; keys are compared as
    byte strings, so that one key being a prefix of another decides whether it captures it. */
module Keys {

  datatype Option<+T> = None | Some(value: T)

  /** Go strings are byte strings. */
  type Byte = c: char | c as int < 256

  type Bytes = seq<Byte>

  type Key = string

  /** The index of the last colon, or -1. */
  function LastColon(s: string): (i: int)
    ensures -1 <= i < |s|
    ensures i == -1 <==> ':' !in s
    ensures i >= 0 ==> s[i] == ':' && ':' !in s[i + 1..]
  {
    if s == "" then -1
    else if s[|s| - 1] == ':' then |s| - 1
    else
      var i := LastColon(s[..|s| - 1]);
      assert s == s[..|s| - 1] + [s[|s| - 1]];
      i
  }

  function StripPort(host: string): string {
    var i := LastColon(host);
    if i == -1 then host else host[..i]
  }

  function TrimLeft(s: string): (r: string)
    ensures r != "" ==> r[0] != '/'
  {
    if s != "" && s[0] == '/' then TrimLeft(s[1..]) else s
  }

  function TrimRight(s: string): (r: string)
    ensures r != "" ==> s != "" && r[0] == s[0] && r[|r| - 1] != '/'
  {
    if s != "" && s[|s| - 1] == '/' then TrimRight(s[..|s| - 1]) else s
  }

  /** strings.Trim(path, "/") */
  function Trim(s: string): (r: string)
    ensures r != "" ==> r[0] != '/' && r[|r| - 1] != '/'
  {
    TrimRight(TrimLeft(s))
  }

  lemma {:induction false} TrimLeftIsSlice(s: string) returns (i: nat)
    ensures i <= |s| && TrimLeft(s) == s[i..] && forall k | 0 <= k < i :: s[k] == '/'
  {
    i := 0;
    if s != "" && s[0] == '/' {
      i := TrimLeftIsSlice(s[1..]);
      i := i + 1;
      assert forall k | 1 <= k < i :: s[k] == s[1..][k - 1];
    }
  }

  lemma {:induction false} TrimRightIsSlice(s: string) returns (j: nat)
    ensures j <= |s| && TrimRight(s) == s[..j] && forall k | j <= k < |s| :: s[k] == '/'
  {
    j := |s|;
    if s != "" && s[|s| - 1] == '/' {
      j := TrimRightIsSlice(s[..|s| - 1]);
    }
  }

  /** Trimming cuts off slashes on either side, all of them and nothing else. */
  lemma TrimIsSlice(s: string) returns (i: nat, j: nat)
    ensures i <= j <= |s| && Trim(s) == s[i..j]
    ensures forall k | 0 <= k < i || j <= k < |s| :: s[k] == '/'
    ensures i < j ==> s[i] != '/' && s[j - 1] != '/'
  {
    i := TrimLeftIsSlice(s);
    j := TrimRightIsSlice(s[i..]);
    assert forall k | i + j <= k < |s| :: s[k] == s[i..][k - i];
    assert s[i..][..j] == s[i..i + j];
    j := i + j;
  }

  function NewKey(host: string, path: string): Key {
    var trimmed := Trim(path);
    "//" + StripPort(host) + "/" + if trimmed == "" then "" else trimmed + "/"
  }

  datatype URL = URL(host: string, path: string)
  datatype Request = Request(url: Option<URL>, host: string)

  /** The key of a request; the absent key is the empty byte string. The Host header overrides the URL. */
  function NewKeyFromRequest(req: Option<Request>): Key {
    match req
    case None => ""
    case Some(r) =>
      match r.url
      case None => ""
      case Some(u) => NewKey(if r.host != "" then r.host else u.host, u.path)
  }

  // ---- Segments

  /** The pieces of s between slashes, some of them empty; there is always at least one. */
  function Split(s: string): (segs: seq<string>)
    ensures segs != [] && forall seg | seg in segs :: '/' !in seg
    ensures '/' !in s ==> segs == [s]
  {
    if s == "" then [""]
    else
      var rest := Split(s[1..]);
      if s[0] == '/' then [""] + rest
      else
        assert '/' !in [s[0]] + rest[0];
        assert s == [s[0]] + s[1..];
        [[s[0]] + rest[0]] + rest[1..]
  }

  /** The segments of a path; a path of nothing but slashes has none. */
  function Segments(path: string): (segs: seq<string>)
    ensures forall seg | seg in segs :: '/' !in seg
  {
    if Trim(path) == "" then [] else Split(Trim(path))
  }

  /** What a key addresses: the port-stripped host (one segment unless it contains a slash) and
      then the segments of the path. */
  function RouteSegments(host: string, path: string): seq<string> {
    Split(StripPort(host)) + Segments(path)
  }

  /** Every segment followed by a slash. */
  function Terminated(segs: seq<string>): string {
    if segs == [] then "" else segs[0] + "/" + Terminated(segs[1..])
  }

  lemma {:induction false} TerminatedConcat(a: seq<string>, b: seq<string>)
    ensures Terminated(a + b) == Terminated(a) + Terminated(b)
  {
    if a == [] {
      assert a + b == b;
    } else {
      TerminatedConcat(a[1..], b);
      assert (a + b)[1..] == a[1..] + b;
    }
  }

  lemma TerminatedCons(c: char, seg: string, rest: seq<string>)
    ensures Terminated([[c] + seg] + rest) == [c] + Terminated([seg] + rest)
  {
    assert ([[c] + seg] + rest)[1..] == rest && ([seg] + rest)[1..] == rest;
  }

  lemma TerminatedBlank(rest: seq<string>)
    ensures Terminated([""] + rest) == "/" + Terminated(rest)
  {
    assert ([""] + rest)[1..] == rest;
  }

  lemma {:induction false} TerminatedSplit(s: string)
    ensures Terminated(Split(s)) == s + "/"
  {
    if s != "" {
      TerminatedSplit(s[1..]);
      var rest := Split(s[1..]);
      assert s + "/" == [s[0]] + (s[1..] + "/");
      if s[0] == '/' {
        TerminatedBlank(rest);
      } else {
        assert rest == [rest[0]] + rest[1..];
        TerminatedCons(s[0], rest[0], rest[1..]);
      }
    }
  }

  /** A key spells out its route segments. */
  lemma KeyIsTerminated(host: string, path: string)
    ensures NewKey(host, path) == "//" + Terminated(RouteSegments(host, path))
  {
    TerminatedConcat(Split(StripPort(host)), Segments(path));
    TerminatedSplit(StripPort(host));
    TerminatedSplit(Trim(path));
  }

  /** Two slash-free strings followed by a slash agree as far as the shorter reaches only if equal. */
  lemma FirstSegment(x: string, y: string, s: string, t: string)
    requires '/' !in x && '/' !in y && x + "/" + s <= y + "/" + t
    ensures x == y && s <= t
  {
    var a, b := x + "/" + s, y + "/" + t;
    assert b[|x|] == a[|x|] == '/' && b[|y|] == '/';
    assert forall i | 0 <= i < |x| :: b[i] == a[i] == x[i] != '/';
    assert forall i | 0 <= i < |y| :: b[i] == y[i] != '/';
    assert x == b[..|x|] && y == b[..|y|];
    assert s == a[|x| + 1..] && t == b[|y| + 1..];
  }

  lemma {:induction false} TerminatedPrefix(a: seq<string>, b: seq<string>)
    requires forall x | x in a :: '/' !in x
    requires forall x | x in b :: '/' !in x
    ensures Terminated(a) <= Terminated(b) <==> a <= b
  {
    if a != [] {
      if b == [] {
        assert |Terminated(a)| > 0;
      } else {
        TerminatedPrefix(a[1..], b[1..]);
        if Terminated(a) <= Terminated(b) {
          FirstSegment(a[0], b[0], Terminated(a[1..]), Terminated(b[1..]));
        }
        assert a == [a[0]] + a[1..] && b == [b[0]] + b[1..];
      }
    }
  }

  /** One key is a prefix of another exactly when its route segments are: keys never match in the
      middle of a segment. */
  lemma KeyPrefix(h1: string, p1: string, h2: string, p2: string)
    ensures NewKey(h1, p1) <= NewKey(h2, p2) <==> RouteSegments(h1, p1) <= RouteSegments(h2, p2)
  {
    KeyIsTerminated(h1, p1);
    KeyIsTerminated(h2, p2);
    var a, b := RouteSegments(h1, p1), RouteSegments(h2, p2);
    TerminatedPrefix(a, b);
    assert ("//" + Terminated(a))[2..] == Terminated(a) && ("//" + Terminated(b))[2..] == Terminated(b);
  }

  /** For hosts without slashes: equal hosts up to the port, and a prefix of whole path segments. */
  lemma KeyPrefixByHost(h1: string, p1: string, h2: string, p2: string)
    requires '/' !in h1 && '/' !in h2
    ensures NewKey(h1, p1) <= NewKey(h2, p2) <==>
            StripPort(h1) == StripPort(h2) && Segments(p1) <= Segments(p2)
  {
    KeyPrefix(h1, p1, h2, p2);
    ConsPrefix(StripPort(h1), Segments(p1), StripPort(h2), Segments(p2));
  }

  lemma ConsPrefix<T>(x: T, a: seq<T>, y: T, b: seq<T>)
    ensures [x] + a <= [y] + b <==> x == y && a <= b
  {
    assert ([x] + a)[1..] == a && ([y] + b)[1..] == b;
    if [x] + a <= [y] + b {
      assert ([x] + a)[0] == ([y] + b)[0];
    }
  }

  /** Keys are equal exactly when they address the same segments. */
  lemma KeyInjective(h1: string, p1: string, h2: string, p2: string)
    ensures NewKey(h1, p1) == NewKey(h2, p2) <==> RouteSegments(h1, p1) == RouteSegments(h2, p2)
  {
    KeyPrefix(h1, p1, h2, p2);
    KeyPrefix(h2, p2, h1, p1);
  }

  lemma {:induction false} LastColonBeforePort(host: string, port: string)
    requires ':' !in port
    ensures LastColon(host + ":" + port) == |host|
  {
    if port != "" {
      var m := |port| - 1;
      LastColonBeforePort(host, port[..m]);
      var full := host + ":" + port;
      assert full[..|full| - 1] == host + ":" + port[..m] && full[|full| - 1] == port[m];
    }
  }

  /** A port is cut off whatever the host before it looks like, and a host is left alone exactly
      when it has no colon; a bracketed address without a port is therefore cut inside. */
  lemma PortStripped(host: string, port: string)
    requires ':' !in port
    ensures StripPort(host + ":" + port) == host
    ensures StripPort(host) == host <==> ':' !in host
  {
    LastColonBeforePort(host, port);
  }

  // ---- The keys an object claims

  /** A missing list stands for one empty entry; an empty list claims nothing. */
  function OrBlank(list: Option<seq<string>>): seq<string> {
    match list
    case None => [""]
    case Some(l) => l
  }

  function KeysForHost(host: string, paths: seq<string>): (keys: seq<Key>)
    ensures |keys| == |paths| && forall j | 0 <= j < |paths| :: keys[j] == NewKey(host, paths[j])
  {
    seq(|paths|, j requires 0 <= j < |paths| => NewKey(host, paths[j]))
  }

  function KeysFor(hosts: seq<string>, paths: seq<string>): seq<Key> {
    if hosts == [] then []
    else KeysFor(hosts[..|hosts| - 1], paths) + KeysForHost(hosts[|hosts| - 1], paths)
  }

  lemma {:induction false} KeysForNext(hosts: seq<string>, paths: seq<string>, i: nat)
    requires i < |hosts|
    ensures KeysFor(hosts[..i + 1], paths) == KeysFor(hosts[..i], paths) + KeysForHost(hosts[i], paths)
  {
    assert hosts[..i + 1][..i] == hosts[..i];
  }

  /** Every host and path prefix contribute their key. */
  lemma {:induction false} KeysForHas(hosts: seq<string>, paths: seq<string>, h: string, p: string)
    requires h in hosts && p in paths
    ensures NewKey(h, p) in KeysFor(hosts, paths)
  {
    var m := |hosts| - 1;
    if h == hosts[m] {
      var j :| 0 <= j < |paths| && paths[j] == p;
      assert KeysForHost(h, paths)[j] == NewKey(h, p);
    } else {
      assert hosts == hosts[..m] + [hosts[m]];
      KeysForHas(hosts[..m], paths, h, p);
    }
  }

  /** Every key comes from some host and path prefix. */
  lemma {:induction false} KeysForFrom(hosts: seq<string>, paths: seq<string>, k: Key) returns (h: string, p: string)
    requires k in KeysFor(hosts, paths)
    ensures h in hosts && p in paths && k == NewKey(h, p)
  {
    var m := |hosts| - 1;
    var keys := KeysForHost(hosts[m], paths);
    if k in keys {
      var j :| 0 <= j < |keys| && keys[j] == k;
      h, p := hosts[m], paths[j];
    } else {
      h, p := KeysForFrom(hosts[..m], paths, k);
    }
  }

  /** The inner loop over the path prefixes. */
  method NewKeysForHost(host: string, paths: seq<string>) returns (keys: seq<Key>)
    ensures keys == KeysForHost(host, paths)
  {
    keys := [];
    for j := 0 to |paths|
      invariant |keys| == j && forall k | 0 <= k < j :: keys[k] == NewKey(host, paths[k])
    {
      keys := keys + [NewKey(host, paths[j])];
    }
  }

  method NewKeys(hosts: Option<seq<string>>, pathPrefixes: Option<seq<string>>) returns (keys: seq<Key>)
    ensures keys == KeysFor(OrBlank(hosts), OrBlank(pathPrefixes))
  {
    var hs, ps := OrBlank(hosts), OrBlank(pathPrefixes);
    keys := [];
    for i := 0 to |hs|
      invariant keys == KeysFor(hs[..i], ps)
    {
      var more := NewKeysForHost(hs[i], ps);
      keys := keys + more;
      KeysForNext(hs, ps, i);
    }
    assert hs[..|hs|] == hs;
  }
}
