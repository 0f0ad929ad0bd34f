/** Per-peer connection and failure records, shared by all sessions. */
module Fail2Bans {
  import opened Basics
  import opened PeerFilters

  // A reading of the monotonic clock.
  type Instant = int

  const U32_MAX: nat := 0xFFFF_FFFF

  datatype Verdict = Ok | TooManyConnections | TooManyFails | NoRecord

  datatype PeerInfo = PeerInfo(connections: nat, fails: nat, time: Instant)

  type Peers = map<IpAddr, PeerInfo>

  datatype Limits = Limits(maxConnections: nat, maxFails: nat, maxAge: nat)

  function Pushed(peers: Peers, peer: IpAddr, now: Instant): Peers
  {
    if peer in peers then peers[peer := peers[peer].(connections := peers[peer].connections + 1, time := now)]
    else peers[peer := PeerInfo(1, 0, now)]
  }

  // Unsigned 32-bit subtraction: taking one from zero wraps.
  function Decrement(n: nat): nat
  {
    if n == 0 then U32_MAX else n - 1
  }

  function Popped(peers: Peers, peer: IpAddr): Peers
  {
    if peer in peers then peers[peer := peers[peer].(connections := Decrement(peers[peer].connections))] else peers
  }

  function Failed(peers: Peers, peer: IpAddr, now: Instant): Peers
  {
    if peer in peers then peers[peer := peers[peer].(fails := peers[peer].fails + 1, time := now)] else peers
  }

  // The records young enough to be kept.
  function Swept(limits: Limits, peers: Peers, now: Instant): Peers
  {
    map peer | peer in peers && now - peers[peer].time <= limits.maxAge :: peers[peer]
  }

  function VerdictOn(limits: Limits, peers: Peers, peer: IpAddr): Verdict
  {
    if peer !in peers then NoRecord
    else if peers[peer].fails > limits.maxFails then TooManyFails
    else if peers[peer].connections > limits.maxConnections then TooManyConnections
    else Verdict.Ok
  }

  class Fail2Ban {
    const limits: Limits
    var peers: Peers

    constructor (limits: Limits)
      ensures this.limits == limits && peers == map[]
    {
      this.limits, peers := limits, map[];
    }

    method PushConnection(peer: IpAddr, now: Instant)
      modifies this
      ensures peers == Pushed(old(peers), peer, now)
    {
      if peer in peers {
        var info := peers[peer];
        info := info.(connections := info.connections + 1);
        info := info.(time := now);
        peers := peers[peer := info];
      } else {
        peers := peers[peer := PeerInfo(1, 0, now)];
      }
    }

    method PopConnection(peer: IpAddr)
      modifies this
      ensures peers == Popped(old(peers), peer)
    {
      if peer in peers {
        peers := peers[peer := peers[peer].(connections := Decrement(peers[peer].connections))];
      }
    }

    method PushFail(peer: IpAddr, now: Instant)
      modifies this
      ensures peers == Failed(old(peers), peer, now)
    {
      if peer in peers {
        var info := peers[peer];
        info := info.(fails := info.fails + 1);
        info := info.(time := now);
        peers := peers[peer := info];
      }
    }

    method GetVerdict(peer: IpAddr, now: Instant) returns (verdict: Verdict)
      modifies this
      ensures peers == Swept(limits, old(peers), now)
      ensures verdict == VerdictOn(limits, peers, peer)
      ensures verdict == NoRecord <==> peer !in old(peers) || now - old(peers)[peer].time > limits.maxAge
    {
      peers := map p | p in peers && now - peers[p].time <= limits.maxAge :: peers[p];
      if peer in peers {
        var info := peers[peer];
        verdict := if info.fails > limits.maxFails then TooManyFails
                   else if info.connections > limits.maxConnections then TooManyConnections
                   else Verdict.Ok;
      } else {
        verdict := NoRecord;
      }
    }
  }
}
