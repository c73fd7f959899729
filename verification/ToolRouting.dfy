/** Namespacing tools by server, routing a namespaced call back, and keeping server keys apart. */
module ToolRouting {
  import opened Wrappers
  import opened Text

  function SanitizeChar(c: char): char {
    if IsWord(c) || c == '-' then c else '_'
  }

  function SanitizeServerName(name: string): string {
    seq(|name|, i requires 0 <= i < |name| => SanitizeChar(name[i]))
  }

  function Prefix(serverKey: string): string {
    "mcp__" + serverKey + "__"
  }

  function NamespaceTool(serverKey: string, toolName: string): string {
    Prefix(serverKey) + toolName
  }

  datatype Route = Route(serverKey: string, toolName: string)

  predicate Owns(serverKey: string, name: string) {
    StartsWith(name, Prefix(serverKey)) && |name| > |Prefix(serverKey)|
  }

  /** A key put before the first one that is not longer: longest first, equal lengths in their order. */
  function InsertByLength(key: string, sorted: seq<string>): seq<string> {
    if sorted == [] || |sorted[0]| <= |key| then [key] + sorted
    else [sorted[0]] + InsertByLength(key, sorted[1..])
  }

  function SortByLength(keys: seq<string>): seq<string> {
    if keys == [] then [] else InsertByLength(keys[0], SortByLength(keys[1..]))
  }

  function FirstOwner(name: string, keys: seq<string>): Option<Route> {
    if keys == [] then None
    else if Owns(keys[0], name) then Some(Route(keys[0], name[|Prefix(keys[0])|..]))
    else FirstOwner(name, keys[1..])
  }

  function RouteNamespacedTool(name: string, serverKeys: seq<string>): Option<Route> {
    FirstOwner(name, SortByLength(serverKeys))
  }

  // ----- the longest owner

  ghost predicate LongestFirst(keys: seq<string>) {
    keys != [] ==> (forall k :: k in keys[1..] ==> |k| <= |keys[0]|) && LongestFirst(keys[1..])
  }

  lemma {:induction false} InsertKeepsOrder(key: string, sorted: seq<string>)
    requires LongestFirst(sorted)
    ensures LongestFirst(InsertByLength(key, sorted))
    ensures forall k :: k in InsertByLength(key, sorted) <==> k == key || k in sorted
  {
    if sorted != [] {
      assert sorted == [sorted[0]] + sorted[1..];
      if |sorted[0]| > |key| {
        InsertKeepsOrder(key, sorted[1..]);
        var rest := InsertByLength(key, sorted[1..]);
        assert ([sorted[0]] + rest)[1..] == rest;
      } else {
        assert ([key] + sorted)[1..] == sorted;
      }
    } else {
      assert [key][1..] == [];
    }
  }

  lemma {:induction false} SortKeepsKeys(keys: seq<string>)
    ensures LongestFirst(SortByLength(keys))
    ensures forall k :: k in SortByLength(keys) <==> k in keys
  {
    if keys == [] {
    } else {
      SortKeepsKeys(keys[1..]);
      InsertKeepsOrder(keys[0], SortByLength(keys[1..]));
      assert keys == [keys[0]] + keys[1..];
    }
  }

  /** `key` owns the name and no longer key among `keys` does. */
  ghost predicate LongestOwner(name: string, keys: seq<string>, key: string) {
    key in keys && Owns(key, name) && forall k :: k in keys && Owns(k, name) ==> |k| <= |key|
  }

  lemma {:induction false} OwnersOfOneLength(name: string, a: string, b: string)
    requires Owns(a, name) && Owns(b, name) && |a| == |b|
    ensures a == b
  {
    assert Prefix(a) == name[..|Prefix(a)|] && Prefix(b) == name[..|Prefix(b)|];
    assert a == Prefix(a)[5..5 + |a|] && b == Prefix(b)[5..5 + |b|];
  }

  lemma {:induction false} FirstOwnerIsLongest(name: string, keys: seq<string>)
    requires LongestFirst(keys)
    ensures FirstOwner(name, keys).None? <==> forall k :: k in keys ==> !Owns(k, name)
    ensures FirstOwner(name, keys).Some? ==>
              && LongestOwner(name, keys, FirstOwner(name, keys).value.serverKey)
              && NamespaceTool(FirstOwner(name, keys).value.serverKey, FirstOwner(name, keys).value.toolName) == name
  {
    hide Prefix, Owns;
    if keys == [] {
    } else {
      assert keys == [keys[0]] + keys[1..];
      if Owns(keys[0], name) {
        OwnedName(keys[0], name);
      } else {
        FirstOwnerIsLongest(name, keys[1..]);
      }
    }
  }

  lemma OwnedName(key: string, name: string)
    requires Owns(key, name)
    ensures |Prefix(key)| < |name| && Prefix(key) + name[|Prefix(key)|..] == name
  {
  }

  /** The route of a name: the unique longest owner, and the tool that re-namespaces to the name. */
  lemma {:induction false} RouteIff(name: string, keys: seq<string>, route: Route)
    ensures RouteNamespacedTool(name, keys) == Some(route)
       <==> LongestOwner(name, keys, route.serverKey) && NamespaceTool(route.serverKey, route.toolName) == name
    ensures RouteNamespacedTool(name, keys) == None <==> forall k :: k in keys ==> !Owns(k, name)
  {
    hide Owns, Prefix;
    var sorted := SortByLength(keys);
    SortKeepsKeys(keys);
    FirstOwnerIsLongest(name, sorted);
    var found := RouteNamespacedTool(name, keys);
    if found.Some? && LongestOwner(name, keys, route.serverKey)
       && NamespaceTool(route.serverKey, route.toolName) == name
    {
      OwnersOfOneLength(name, found.value.serverKey, route.serverKey);
      assert found.value.toolName == name[|Prefix(route.serverKey)|..] == route.toolName;
    }
  }

  /** Routing does not depend on the order in which the keys come, or on repetitions. */
  lemma {:induction false} RouteIgnoresOrder(name: string, keys: seq<string>, keys': seq<string>)
    requires forall k :: k in keys <==> k in keys'
    ensures RouteNamespacedTool(name, keys) == RouteNamespacedTool(name, keys')
  {
    hide Owns, NamespaceTool, RouteNamespacedTool;
    var r := RouteNamespacedTool(name, keys);
    if r.Some? {
      RouteIff(name, keys, r.value);
      RouteIff(name, keys', r.value);
    } else {
      RouteIff(name, keys, Route("", ""));
      RouteIff(name, keys', Route("", ""));
    }
  }

  // ----- which servers are always reached

  /** Another key that can capture calls meant for `key`. */
  predicate Extends(longer: string, key: string) {
    longer == key + "_" || StartsWith(longer, key + "__")
  }

  lemma {:induction false} LongerOwnerExtends(key: string, toolName: string, longer: string)
    requires Owns(longer, NamespaceTool(key, toolName)) && |longer| > |key|
    ensures Extends(longer, key)
  {
    var name, n := NamespaceTool(key, toolName), |key|;
    var whole := longer + "__";
    assert name == "mcp__" + (key + "__" + toolName);
    assert Prefix(longer) == "mcp__" + whole;
    assert name[5..] == key + "__" + toolName && Prefix(longer)[5..] == whole;
    assert whole == name[5..][..|whole|];
    assert longer[..n] == whole[..n] == key;
    assert longer[n] == whole[n] == '_';
    if |longer| == n + 1 {
      assert longer == key + "_";
    } else {
      assert longer[n + 1] == whole[n + 1] == '_';
      assert longer[..n + 2] == key + "__";
    }
  }

  /** For every key that extends `key` there is a tool of `key` whose calls it captures. */
  lemma {:induction false} ExtensionCaptures(key: string, longer: string) returns (toolName: string)
    requires Extends(longer, key)
    ensures toolName != "" && Owns(longer, NamespaceTool(key, toolName)) && |longer| > |key|
  {
    if longer == key + "_" {
      toolName := "_x";
      assert NamespaceTool(key, toolName) == Prefix(longer) + "x";
    } else {
      toolName := longer[|key| + 2..] + "__x";
      assert longer == key + "__" + longer[|key| + 2..];
      assert NamespaceTool(key, toolName) == Prefix(longer) + "x";
    }
  }

  ghost predicate AlwaysReached(key: string, keys: seq<string>) {
    forall toolName :: toolName != "" ==>
      RouteNamespacedTool(NamespaceTool(key, toolName), keys) == Some(Route(key, toolName))
  }

  lemma OwnTool(key: string, toolName: string)
    requires toolName != ""
    ensures Owns(key, NamespaceTool(key, toolName))
  {
  }

  /** Every namespaced tool of a server is routed back to it exactly when no other key extends its key. */
  lemma {:induction false} AlwaysReachedIff(key: string, keys: seq<string>)
    requires key in keys
    ensures AlwaysReached(key, keys) <==> forall k :: k in keys ==> !Extends(k, key)
  {
    hide Owns, Extends, RouteNamespacedTool, NamespaceTool;
    if forall k :: k in keys ==> !Extends(k, key) {
      forall toolName | toolName != ""
        ensures RouteNamespacedTool(NamespaceTool(key, toolName), keys) == Some(Route(key, toolName))
      {
        var name := NamespaceTool(key, toolName);
        OwnTool(key, toolName);
        forall k | k in keys && Owns(k, name) ensures |k| <= |key| {
          if |k| > |key| {
            LongerOwnerExtends(key, toolName, k);
          }
        }
        RouteIff(name, keys, Route(key, toolName));
      }
    } else {
      var k :| k in keys && Extends(k, key);
      var toolName := ExtensionCaptures(key, k);
      RouteIff(NamespaceTool(key, toolName), keys, Route(key, toolName));
    }
  }

  // ----- allocating keys

  /** The keys tried for a server, in order: the sanitized name, then with suffix 2, 3, ... */
  function Candidate(name: string, i: nat): string {
    if i == 0 then SanitizeServerName(name) else SanitizeServerName(name) + "_" + Decimal(i + 1)
  }

  lemma {:induction false} CandidatesDiffer(name: string, i: nat, j: nat)
    requires i < j
    ensures Candidate(name, i) != Candidate(name, j)
  {
    var base := SanitizeServerName(name);
    var a, b := base + "_" + Decimal(i + 1), base + "_" + Decimal(j + 1);
    if i > 0 && a == b {
      assert a[|base| + 1..] == Decimal(i + 1) && b[|base| + 1..] == Decimal(j + 1);
      DecimalInjective(i + 1, j + 1);
    }
  }

  lemma {:induction false} SubsetSize<T>(a: set<T>, b: set<T>)
    requires a <= b
    ensures |a| <= |b|
  {
    assert b == a + (b - a);
  }

  /** A suffixed key does not extend the plain one: allocation alone never misroutes a call. */
  lemma {:induction false} SuffixDoesNotExtend(name: string, i: nat)
    requires i > 0
    ensures !Extends(Candidate(name, i), Candidate(name, 0))
  {
    var base, digits := SanitizeServerName(name), Decimal(i + 1);
    var key := base + "_" + digits;
    assert key[|base| + 1] == digits[0] != '_';
    assert (base + "__")[|base| + 1] == '_';
  }

  datatype Server = Server(name: string, key: string)

  datatype Connection = Connected | NotAuthorized | Failed

  function Keys(servers: seq<Server>): set<string> {
    set s | s in servers :: s.key
  }

  /** `servers.set(name, server)`: a known name keeps its place. */
  function SetServer(servers: seq<Server>, server: Server): seq<Server> {
    if servers == [] then [server]
    else if servers[0].name == server.name then [server] + servers[1..]
    else [servers[0]] + SetServer(servers[1..], server)
  }

  ghost predicate DistinctKeys(servers: seq<Server>) {
    servers != [] ==> (forall s :: s in servers[1..] ==> s.key != servers[0].key) && DistinctKeys(servers[1..])
  }

  lemma {:induction false} SetServerMembers(servers: seq<Server>, server: Server)
    ensures forall s :: s in SetServer(servers, server) ==> s == server || s in servers
  {
    if servers == [] {
    } else {
      SetServerMembers(servers[1..], server);
      assert servers == [servers[0]] + servers[1..];
    }
  }

  lemma {:induction false} SetServerKeepsDistinct(servers: seq<Server>, server: Server)
    requires DistinctKeys(servers) && forall s :: s in servers ==> s.key != server.key
    ensures DistinctKeys(SetServer(servers, server))
  {
    if servers == [] {
      assert [server][1..] == [];
    } else {
      assert servers == [servers[0]] + servers[1..];
      if servers[0].name == server.name {
        assert ([server] + servers[1..])[1..] == servers[1..];
      } else {
        SetServerKeepsDistinct(servers[1..], server);
        SetServerMembers(servers[1..], server);
        var rest := SetServer(servers[1..], server);
        assert ([servers[0]] + rest)[1..] == rest;
      }
    }
  }

  /** The first candidate that is not in use. */
  ghost predicate FirstFree(name: string, used: set<string>, key: string) {
    && key !in used
    && exists i: nat :: key == Candidate(name, i) && forall j: nat :: j < i ==> Candidate(name, j) in used
  }

  /** Each configured server that came up is set, one after the other, under its first free key. */
  ghost predicate ConnectedTo(before: seq<Server>, config: seq<(string, Connection)>, after: seq<Server>)
    decreases |config|
  {
    if config == [] then after == before
    else
      var (init, last) := (config[..|config| - 1], config[|config| - 1]);
      if last.1 != Connected then ConnectedTo(before, init, after)
      else exists middle, key ::
        ConnectedTo(before, init, middle) && FirstFree(last.0, Keys(middle), key)
        && after == SetServer(middle, Server(last.0, key))
  }

  lemma {:induction false} ConnectedStep(before: seq<Server>, init: seq<(string, Connection)>,
                                         last: (string, Connection),
                                         middle: seq<Server>, key: string, after: seq<Server>)
    requires ConnectedTo(before, init, middle)
    requires if last.1 != Connected then after == middle
             else FirstFree(last.0, Keys(middle), key) && after == SetServer(middle, Server(last.0, key))
    ensures ConnectedTo(before, init + [last], after)
  {
    hide FirstFree, SetServer;
    assert (init + [last])[..|init|] == init;
  }

  /** The configured servers that came up. */
  function UpNames(config: seq<(string, Connection)>): seq<string> {
    if config == [] then []
    else
      var last := config[|config| - 1];
      UpNames(config[..|config| - 1]) + if last.1 == Connected then [last.0] else []
  }

  function Names(servers: seq<Server>): seq<string> {
    seq(|servers|, i requires 0 <= i < |servers| => servers[i].name)
  }

  lemma {:induction false} SetNewServer(servers: seq<Server>, server: Server)
    requires server.name !in Names(servers)
    ensures SetServer(servers, server) == servers + [server]
  {
    if servers == [] {
    } else {
      assert Names(servers)[0] == servers[0].name && Names(servers)[1..] == Names(servers[1..]);
      SetNewServer(servers[1..], server);
      assert [servers[0]] + (servers[1..] + [server]) == servers + [server];
    }
  }

  lemma {:induction false} UpNamesConfigured(config: seq<(string, Connection)>)
    ensures forall name :: name in UpNames(config) ==> exists i :: 0 <= i < |config| && config[i].0 == name
  {
    if config == [] {
    } else {
      UpNamesConfigured(config[..|config| - 1]);
    }
  }

  /**
   Connecting a configuration, whose names are distinct, from scratch connects exactly the
   servers that came up, in their order, under pairwise distinct keys.
   */
  lemma {:induction false} ConnectedServers(config: seq<(string, Connection)>, after: seq<Server>)
    requires ConnectedTo([], config, after)
    requires forall i, j :: 0 <= i < j < |config| ==> config[i].0 != config[j].0
    ensures Names(after) == UpNames(config) && DistinctKeys(after)
    decreases |config|
  {
    hide SetServer, DistinctKeys, FirstFree, Names, Keys;
    if config == [] {
      NoServers();
    } else {
      var (init, last) := (config[..|config| - 1], config[|config| - 1]);
      UpNamesConfigured(init);
      if last.1 != Connected {
        ConnectedServers(init, after);
      } else {
        var middle, key :| ConnectedTo([], init, middle) && FirstFree(last.0, Keys(middle), key)
                           && after == SetServer(middle, Server(last.0, key));
        ConnectedServers(init, middle);
        OneMoreServer(middle, last.0, key, UpNames(init));
      }
    }
  }

  lemma {:induction false} OneMoreServer(servers: seq<Server>, name: string, key: string, names: seq<string>)
    requires DistinctKeys(servers) && FirstFree(name, Keys(servers), key) && Names(servers) == names && name !in names
    ensures var after := SetServer(servers, Server(name, key)); DistinctKeys(after) && Names(after) == names + [name]
  {
    hide Candidate, DistinctKeys, SetServer;
    forall s | s in servers ensures s.key != key {
      assert s.key in Keys(servers);
    }
    SetNewServer(servers, Server(name, key));
    SetServerKeepsDistinct(servers, Server(name, key));
  }

  lemma NoServers()
    ensures DistinctKeys([]) && Names([]) == []
  {
  }

  class McpHost {
    /** The connected servers in the order of their first connection. */
    var servers: seq<Server>

    constructor ()
      ensures servers == []
    {
      servers := [];
    }

    /** The first candidate that no connected server uses; there always is one. */
    method AllocateKey(name: string) returns (key: string)
      ensures FirstFree(name, Keys(servers), key)
    {
      hide Candidate;
      var usedKeys := Keys(servers);
      ghost var tried: set<string> := {};
      key := SanitizeServerName(name);
      FirstCandidate(name);
      var suffix := 2;
      while key in usedKeys
        invariant suffix >= 2 && key == Candidate(name, suffix - 2)
        invariant forall j: nat :: j < suffix - 2 ==> Candidate(name, j) in tried
        invariant tried <= usedKeys && forall k :: k in tried ==>
            exists j: nat :: j < suffix - 2 && k == Candidate(name, j)
        decreases |usedKeys| - |tried|
      {
        if key in tried {
          var j: nat :| j < suffix - 2 && key == Candidate(name, j);
          CandidatesDiffer(name, j, suffix - 2);
        }
        tried := tried + {key};
        SubsetSize(tried, usedKeys);
        key := SanitizeServerName(name) + "_" + Decimal(suffix);
        NextCandidate(name, suffix);
        suffix := suffix + 1;
      }
    }

    /** Connects the configured servers; each outcome is what its connection attempt gave. */
    method Connect(config: seq<(string, Connection)>) returns (connected: bool)
      modifies this
      ensures ConnectedTo(old(servers), config, servers)
      ensures connected <==> servers != []
    {
      hide FirstFree, SetServer;
      for i := 0 to |config|
        invariant ConnectedTo(old(servers), config[..i], servers)
      {
        var (name, outcome) := config[i];
        assert config[..i + 1] == config[..i] + [config[i]];
        ghost var before := servers;
        if outcome != Connected {
          ConnectedStep(old(servers), config[..i], config[i], before, "", before);
          continue;
        }
        var key := AllocateKey(name);
        servers := SetServer(servers, Server(name, key));
        ConnectedStep(old(servers), config[..i], config[i], before, key, servers);
      }
      assert config[..|config|] == config;
      connected := |servers| > 0;
    }

    /** The server a model-issued call goes to, with the tool's own name. */
    method RouteToolCall(name: string) returns (r: Option<(Server, string)>)
      requires DistinctKeys(servers)
      ensures r.Some? ==>
                && r.value.0 in servers
                && NamespaceTool(r.value.0.key, r.value.1) == name
                && forall s :: s in servers && Owns(s.key, name) ==> |s.key| <= |r.value.0.key|
      ensures r.None? <==> forall s :: s in servers ==> !Owns(s.key, name)
    {
      hide Owns, NamespaceTool, RouteNamespacedTool, LongestOwner, DistinctKeys;
      var keys := KeyList(servers);
      KeyListHolds(servers);
      var route := RouteNamespacedTool(name, keys);
      if route.None? {
        NoRoute(name, servers);
        return None;
      }
      RouteGoesToLongest(name, servers, route.value);
      for i := 0 to |servers|
        invariant forall j :: 0 <= j < i ==> servers[j].key != route.value.serverKey
      {
        if servers[i].key == route.value.serverKey {
          return Some((servers[i], route.value.toolName));
        }
      }
      assert false;
    }
  }

  /** The keys of the servers, as the router takes them. */
  function KeyList(servers: seq<Server>): seq<string> {
    seq(|servers|, i requires 0 <= i < |servers| => servers[i].key)
  }

  lemma {:induction false} KeyListHolds(servers: seq<Server>)
    ensures forall s :: s in servers ==> s.key in KeyList(servers)
    ensures forall k :: k in KeyList(servers) ==> exists s :: s in servers && s.key == k
  {
    var keys := KeyList(servers);
    forall s | s in servers ensures s.key in keys {
      var i :| 0 <= i < |servers| && servers[i] == s;
      assert keys[i] == s.key;
    }
    forall k | k in keys ensures exists s :: s in servers && s.key == k {
      var i :| 0 <= i < |keys| && keys[i] == k;
      assert servers[i] in servers;
    }
  }

  lemma {:induction false} NoRoute(name: string, servers: seq<Server>)
    requires RouteNamespacedTool(name, KeyList(servers)).None?
    ensures forall s :: s in servers ==> !Owns(s.key, name)
  {
    hide Owns, NamespaceTool, RouteNamespacedTool, KeyList;
    KeyListHolds(servers);
    RouteIff(name, KeyList(servers), Route("", ""));
  }

  lemma {:induction false} RouteGoesToLongest(name: string, servers: seq<Server>, route: Route)
    requires RouteNamespacedTool(name, KeyList(servers)) == Some(route)
    ensures exists s :: s in servers && s.key == route.serverKey && Owns(s.key, name)
    ensures NamespaceTool(route.serverKey, route.toolName) == name
    ensures forall s :: s in servers && Owns(s.key, name) ==> |s.key| <= |route.serverKey|
  {
    hide Owns, NamespaceTool, RouteNamespacedTool, KeyList;
    KeyListHolds(servers);
    RouteIff(name, KeyList(servers), route);
  }

  lemma FirstCandidate(name: string)
    ensures Candidate(name, 0) == SanitizeServerName(name)
  {
  }

  lemma NextCandidate(name: string, suffix: nat)
    requires suffix >= 2
    ensures Candidate(name, suffix - 1) == SanitizeServerName(name) + "_" + Decimal(suffix)
  {
  }

  /**
   A sanitised name keeps letters, digits, underscores and hyphens, and has an underscore for every
   other character.
  */
  lemma SanitizedIs(name: string)
    ensures var key := SanitizeServerName(name);
            && |key| == |name|
            && forall i :: 0 <= i < |name| ==>
                 key[i] == if 'a' <= name[i] <= 'z' || 'A' <= name[i] <= 'Z' || '0' <= name[i] <= '9'
                              || name[i] == '_' || name[i] == '-'
                           then name[i] else '_'
  {
  }
}
