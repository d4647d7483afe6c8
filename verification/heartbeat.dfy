/**
 * The list of active peers (`handle_heartbeat` in src/modules/validation.rs): each heartbeat updates or
 * adds its sender and then purges whoever was last heard ten seconds ago or more.
 */
module Heartbeats {
  import opened Base

  datatype Peer = Peer(address: string, seen: nat)

  datatype Beat = Beat(address: string, time: nat)

  const HEARTBEAT_TIMEOUT: nat := 10

  // ---------------------------------------------------------------- one heartbeat

  predicate Listed(peers: seq<Peer>, address: string) {
    exists i :: 0 <= i < |peers| && peers[i].address == address
  }

  function Refreshed(peers: seq<Peer>, b: Beat): seq<Peer> {
    if Listed(peers, b.address)
    then seq(|peers|, i requires 0 <= i < |peers| =>
                      if peers[i].address == b.address then Peer(b.address, b.time) else peers[i])
    else peers + [Peer(b.address, b.time)]
  }

  predicate Recent(p: Peer, now: nat) {
    now - p.seen < HEARTBEAT_TIMEOUT
  }

  /** `retain`. */
  function Purged(peers: seq<Peer>, now: nat): (kept: seq<Peer>)
    ensures forall p :: p in kept <==> p in peers && Recent(p, now)
  {
    if peers == [] then []
    else (if Recent(peers[0], now) then [peers[0]] else []) + Purged(peers[1..], now)
  }

  /** `None` where the subtraction of a later timestamp from the clock underflows. */
  function Heard(peers: seq<Peer>, b: Beat): Option<seq<Peer>> {
    var refreshed := Refreshed(peers, b);
    if exists i :: 0 <= i < |refreshed| && refreshed[i].seen > b.time then None
    else Some(Purged(refreshed, b.time))
  }

  // ---------------------------------------------------------------- histories

  ghost predicate Ordered(beats: seq<Beat>) {
    forall i, j :: 0 <= i <= j < |beats| ==> beats[i].time <= beats[j].time
  }

  /** The list after a history of heartbeats, starting from an empty one. */
  function PeersAfter(beats: seq<Beat>): Option<seq<Peer>> {
    if beats == [] then Some([])
    else
      match PeersAfter(beats[..|beats| - 1])
      case None => None
      case Some(peers) => Heard(peers, beats[|beats| - 1])
  }

  /** When a peer was last heard in the whole history. */
  function LastBeat(beats: seq<Beat>, address: string): Option<nat> {
    if beats == [] then None
    else if beats[|beats| - 1].address == address then Some(beats[|beats| - 1].time)
    else LastBeat(beats[..|beats| - 1], address)
  }

  predicate DistinctAddresses(peers: seq<Peer>) {
    forall i, j :: 0 <= i < j < |peers| ==> peers[i].address != peers[j].address
  }

  /** The list holds exactly the peers heard less than ten seconds before `now`, with their latest times. */
  ghost predicate ListExact(peers: seq<Peer>, beats: seq<Beat>, now: nat) {
    && DistinctAddresses(peers)
    && forall p :: p in peers <==> LastBeat(beats, p.address) == Some(p.seen) && Recent(p, now)
  }

  lemma {:induction false} LastBeatBefore(beats: seq<Beat>, address: string, now: nat)
    requires forall i :: 0 <= i < |beats| ==> beats[i].time <= now
    ensures LastBeat(beats, address).Some? ==> LastBeat(beats, address).value <= now
    decreases |beats|
  {
    if beats != [] && beats[|beats| - 1].address != address {
      LastBeatBefore(beats[..|beats| - 1], address, now);
    }
  }

  lemma {:induction false} PurgedDistinct(peers: seq<Peer>, now: nat)
    requires DistinctAddresses(peers)
    ensures DistinctAddresses(Purged(peers, now))
  {
    if peers != [] {
      PurgedDistinct(peers[1..], now);
      var rest := Purged(peers[1..], now);
      forall j | 0 <= j < |rest| ensures rest[j].address != peers[0].address {
        assert rest[j] in peers[1..];
      }
    }
  }

  lemma RefreshedDistinct(peers: seq<Peer>, b: Beat)
    requires DistinctAddresses(peers)
    ensures DistinctAddresses(Refreshed(peers, b))
  {
  }

  lemma RefreshedMembers(peers: seq<Peer>, b: Beat, p: Peer)
    ensures p in Refreshed(peers, b) <==>
              if p.address == b.address then p.seen == b.time else p in peers
  {
    var after := Refreshed(peers, b);
    if Listed(peers, b.address) {
      var i :| 0 <= i < |peers| && peers[i].address == b.address;
      assert after[i] == Peer(b.address, b.time);
      if p in peers {
        var j :| 0 <= j < |peers| && peers[j] == p;
        assert p.address != b.address ==> after[j] == p;
      }
    } else {
      assert after[|peers|] == Peer(b.address, b.time);
      assert p in after <==> p in peers || p == Peer(b.address, b.time);
      assert p in peers ==> p.address != b.address;
    }
  }

  /**
   * One step: a peer purged earlier and so forgotten was already too old, and time only moves on, so
   * nothing that matters was lost.
   */
  lemma HeardKeepsExact(peers: seq<Peer>, beats: seq<Beat>, before: nat, b: Beat)
    requires ListExact(peers, beats, before) && before <= b.time
    requires forall i :: 0 <= i < |beats| ==> beats[i].time <= before
    ensures Heard(peers, b).Some?
    ensures ListExact(Heard(peers, b).value, beats + [b], b.time)
  {
    var refreshed := Refreshed(peers, b);
    forall i | 0 <= i < |refreshed| ensures refreshed[i].seen <= b.time {
      RefreshedMembers(peers, b, refreshed[i]);
      LastBeatBefore(beats, refreshed[i].address, before);
    }
    RefreshedDistinct(peers, b);
    PurgedDistinct(refreshed, b.time);
    assert (beats + [b])[..|beats|] == beats;
    var after := Heard(peers, b).value;
    forall p ensures p in after <==> LastBeat(beats + [b], p.address) == Some(p.seen) && Recent(p, b.time) {
      RefreshedMembers(peers, b, p);
    }
  }

  /**
   * For every history with non-decreasing times the list never fails to update, has distinct addresses,
   * and equals exactly the peers whose latest heartbeat is less than ten seconds before the newest one.
   */
  lemma {:induction false} HeartbeatListExact(beats: seq<Beat>)
    requires Ordered(beats)
    ensures PeersAfter(beats).Some?
    ensures ListExact(PeersAfter(beats).value, beats, if beats == [] then 0 else beats[|beats| - 1].time)
    decreases |beats|
  {
    if beats != [] {
      var last := |beats| - 1;
      var front := beats[..last];
      HeartbeatListExact(front);
      assert beats == front + [beats[last]];
      HeardKeepsExact(PeersAfter(front).value, front, if front == [] then 0 else front[last - 1].time, beats[last]);
    }
  }

  // ---------------------------------------------------------------- the update loop

  /** Stamps the sender's entry in place, or pushes a new one. */
  method Refresh(peers: seq<Peer>, b: Beat) returns (list: seq<Peer>)
    ensures list == Refreshed(peers, b)
  {
    list := peers;
    if !Listed(peers, b.address) {
      list := list + [Peer(b.address, b.time)];
    } else {
      for i := 0 to |list|
        invariant |list| == |peers|
        invariant forall j :: 0 <= j < i ==>
                    list[j] == if peers[j].address == b.address then Peer(b.address, b.time) else peers[j]
        invariant forall j :: i <= j < |peers| ==> list[j] == peers[j]
      {
        if list[i].address == b.address {
          list := list[i := list[i].(seen := b.time)];
        }
      }
    }
  }
}
