/**
 * `separateIceServers`, `getStunServers` and `getTurnServers` of
 * lib/util/index.js: split ICE server entries into STUN URLs and TURN
 * descriptors by the scheme of their `url`.
 */
module IceServers {
  import opened Wrappers

  /** An ICE server entry as configured: `url`, `username`, `credential`. */
  datatype IceServer = IceServer(url: Option<string>, username: Option<string>, credential: Option<string>)

  /** A TURN descriptor as produced: `{urls: [url], username, password}`. */
  datatype TurnServer = TurnServer(urls: seq<string>, username: Option<string>, password: Option<string>)

  datatype Separated = Separated(stunServers: seq<string>, turnServers: seq<TurnServer>)

  /** `s.split(c)[0]`: the text before the first `c`, or all of `s`. */
  function BeforeFirst(s: string, c: char): (r: string)
    ensures r <= s
    ensures c !in r
    ensures |r| < |s| ==> s[|r|] == c
  {
    if s == [] || s[0] == c then [] else [s[0]] + BeforeFirst(s[1..], c)
  }

  /** The entry's URL when it is present and non-empty (a truthy `url`). */
  predicate HasUrl(server: IceServer)
  {
    server.url.Some? && server.url.value != ""
  }

  function Scheme(server: IceServer): string
    requires HasUrl(server)
  {
    BeforeFirst(server.url.value, ':')
  }

  predicate IsStun(server: IceServer)
  {
    HasUrl(server) && (Scheme(server) == "stun" || Scheme(server) == "stuns")
  }

  predicate IsTurn(server: IceServer)
  {
    HasUrl(server) && (Scheme(server) == "turn" || Scheme(server) == "turns")
  }

  /** The URL with its query dropped (`url.split('?')[0]`). */
  function BaseUrl(server: IceServer): string
    requires HasUrl(server)
  {
    BeforeFirst(server.url.value, '?')
  }

  function StunUrl(server: IceServer): string
    requires IsStun(server)
  {
    BaseUrl(server)
  }

  function TurnDescriptor(server: IceServer): TurnServer
    requires IsTurn(server)
  {
    TurnServer([BaseUrl(server)], server.username, server.credential)
  }

  /** The STUN entries of `servers`, in order (first pass of the source). */
  function StunEntries(servers: seq<IceServer>): (r: seq<IceServer>)
    ensures forall i :: 0 <= i < |r| ==> IsStun(r[i])
  {
    if servers == [] then []
    else StunEntries(servers[..|servers| - 1])
         + (if IsStun(servers[|servers| - 1]) then [servers[|servers| - 1]] else [])
  }

  /** The TURN entries of `servers`, in order (first pass of the source). */
  function TurnEntries(servers: seq<IceServer>): (r: seq<IceServer>)
    ensures forall i :: 0 <= i < |r| ==> IsTurn(r[i])
  {
    if servers == [] then []
    else TurnEntries(servers[..|servers| - 1])
         + (if IsTurn(servers[|servers| - 1]) then [servers[|servers| - 1]] else [])
  }

  function StunUrls(entries: seq<IceServer>): seq<string>
    requires forall i :: 0 <= i < |entries| ==> IsStun(entries[i])
  {
    seq(|entries|, i requires 0 <= i < |entries| => StunUrl(entries[i]))
  }

  function TurnDescriptors(entries: seq<IceServer>): seq<TurnServer>
    requires forall i :: 0 <= i < |entries| ==> IsTurn(entries[i])
  {
    seq(|entries|, i requires 0 <= i < |entries| => TurnDescriptor(entries[i]))
  }

  /**
   * What `separateIceServers(iceServers)` returns: a missing list separates
   * into nothing, and no entry lands in both lists, so there are at most as
   * many results as entries; each TURN descriptor carries one URL.
   */
  function Separate(iceServers: Option<seq<IceServer>>): (r: Separated)
    ensures iceServers.None? ==> r == Separated([], [])
    ensures iceServers.Some? ==> |r.stunServers| + |r.turnServers| <= |iceServers.value|
    ensures forall i :: 0 <= i < |r.turnServers| ==> |r.turnServers[i].urls| == 1
  {
    var servers := if iceServers.Some? then iceServers.value else [];
    EntriesCount(servers);
    Separated(StunUrls(StunEntries(servers)), TurnDescriptors(TurnEntries(servers)))
  }

  /** An entry is STUN or TURN or neither, never both. */
  lemma {:induction false} EntriesCount(servers: seq<IceServer>)
    ensures |StunEntries(servers)| + |TurnEntries(servers)| <= |servers|
  {
    if servers != [] {
      var last := servers[|servers| - 1];
      EntriesCount(servers[..|servers| - 1]);
      assert !(IsStun(last) && IsTurn(last));
    }
  }

  lemma {:induction false} EntriesAppend(a: seq<IceServer>, b: seq<IceServer>)
    ensures StunEntries(a + b) == StunEntries(a) + StunEntries(b)
    ensures TurnEntries(a + b) == TurnEntries(a) + TurnEntries(b)
  {
    if b == [] {
      assert a + b == a;
    } else {
      var init := b[..|b| - 1];
      assert (a + b)[..|a + b| - 1] == a + init;
      assert (a + b)[|a + b| - 1] == b[|b| - 1];
      EntriesAppend(a, init);
    }
  }

  /**
   * Separation keeps input order within each list: separating a concatenation
   * gives the concatenation of the separated parts.
   */
  lemma SeparateAppend(a: seq<IceServer>, b: seq<IceServer>)
    ensures Separate(Some(a + b)).stunServers == Separate(Some(a)).stunServers + Separate(Some(b)).stunServers
    ensures Separate(Some(a + b)).turnServers == Separate(Some(a)).turnServers + Separate(Some(b)).turnServers
  {
    EntriesAppend(a, b);
  }

  /**
   * What one entry contributes: its query-less URL if its scheme is `stun` or
   * `stuns`, a TURN descriptor carrying its `username` and its `credential` as
   * `password` if the scheme is `turn` or `turns`, and nothing otherwise
   * (including entries without a URL).
   */
  lemma SeparateOne(server: IceServer)
    ensures Separate(Some([server])).stunServers == if IsStun(server) then [StunUrl(server)] else []
    ensures Separate(Some([server])).turnServers == if IsTurn(server) then [TurnDescriptor(server)] else []
    ensures !HasUrl(server) ==> Separate(Some([server])) == Separated([], [])
  {
    assert [server][..0] == [];
    assert StunEntries([server]) == if IsStun(server) then [server] else [];
    assert TurnEntries([server]) == if IsTurn(server) then [server] else [];
  }

  /** Every STUN result is a query-less prefix of the URL of some `stun`/`stuns` entry. */
  lemma {:induction false} StunServersOrigin(servers: seq<IceServer>, i: nat)
    requires i < |Separate(Some(servers)).stunServers|
    ensures exists j :: 0 <= j < |servers| && IsStun(servers[j])
                        && Separate(Some(servers)).stunServers[i] == StunUrl(servers[j])
    ensures '?' !in Separate(Some(servers)).stunServers[i]
  {
    StunEntriesFrom(servers, i);
  }

  lemma {:induction false} StunEntriesFrom(servers: seq<IceServer>, i: nat)
    requires i < |StunEntries(servers)|
    ensures exists j :: 0 <= j < |servers| && servers[j] == StunEntries(servers)[i]
  {
    var init := servers[..|servers| - 1];
    if i < |StunEntries(init)| {
      StunEntriesFrom(init, i);
      var j :| 0 <= j < |init| && init[j] == StunEntries(init)[i];
      assert servers[j] == init[j];
    } else {
      assert servers[|servers| - 1] == StunEntries(servers)[i];
    }
  }

  /** `separateIceServers`: one pass that sorts entries by scheme, then a map over each list. */
  method SeparateIceServers(iceServers: Option<seq<IceServer>>) returns (r: Separated)
    ensures r == Separate(iceServers)
  {
    var stunEntries: seq<IceServer> := [];
    var turnEntries: seq<IceServer> := [];
    var servers := if iceServers.Some? then iceServers.value else [];
    var i := 0;
    while i < |servers|
      invariant 0 <= i <= |servers|
      invariant stunEntries == StunEntries(servers[..i])
      invariant turnEntries == TurnEntries(servers[..i])
    {
      var server := servers[i];
      assert servers[..i + 1][..i] == servers[..i];
      if HasUrl(server) {
        var scheme := BeforeFirst(server.url.value, ':');
        if scheme == "stun" || scheme == "stuns" {
          stunEntries := stunEntries + [server];
        } else if scheme == "turn" || scheme == "turns" {
          turnEntries := turnEntries + [server];
        }
      }
      i := i + 1;
    }
    assert servers[..|servers|] == servers;
    var stunServers := seq(|stunEntries|, k requires 0 <= k < |stunEntries| => BeforeFirst(stunEntries[k].url.value, '?'));
    var turnServers := seq(|turnEntries|, k requires 0 <= k < |turnEntries| =>
      TurnServer([BeforeFirst(turnEntries[k].url.value, '?')], turnEntries[k].username, turnEntries[k].credential));
    r := Separated(stunServers, turnServers);
  }

  /** `getStunServers`: exactly the `stunServers` of `separateIceServers`. */
  method GetStunServers(iceServers: Option<seq<IceServer>>) returns (r: seq<string>)
    ensures r == Separate(iceServers).stunServers
  {
    var separated := SeparateIceServers(iceServers);
    r := separated.stunServers;
  }

  /** `getTurnServers`: exactly the `turnServers` of `separateIceServers`. */
  method GetTurnServers(iceServers: Option<seq<IceServer>>) returns (r: seq<TurnServer>)
    ensures r == Separate(iceServers).turnServers
  {
    var separated := SeparateIceServers(iceServers);
    r := separated.turnServers;
  }
}
