/** Swarm statistics, as far as byte accounting needs them: `src/download/stats.rs`. */
module Stats {
  import opened Common

  datatype PeerEntry = PeerEntry(choked: bool, havePieces: nat, downloaded: nat)

  class SwarmStats {
    /** Total bytes received, in 64 bits. */
    var totalDownloaded: u64
    var peers: map<nat, PeerEntry>
    /** The same total, unbounded. */
    ghost var received: nat

    ghost predicate Valid()
      reads this
    {
      totalDownloaded == received % U64_LIMIT
    }

    constructor ()
      ensures Valid() && received == 0 && peers == map[]
    {
      totalDownloaded := 0;
      peers := map[];
      received := 0;
    }

    method PeerConnected(addr: nat)
      modifies this`peers
      ensures peers == old(peers)[addr := PeerEntry(true, 0, 0)]
    {
      peers := peers[addr := PeerEntry(true, 0, 0)];
    }

    method PeerDisconnected(addr: nat)
      modifies this`peers
      ensures peers == old(peers) - {addr}
    {
      peers := peers - {addr};
    }

    method SetChoked(addr: nat, choked: bool)
      modifies this`peers
      ensures peers == if addr !in old(peers) then old(peers)
                       else old(peers)[addr := old(peers)[addr].(choked := choked)]
    {
      if addr in peers {
        peers := peers[addr := peers[addr].(choked := choked)];
      }
    }

    method SetHaveCount(addr: nat, count: nat)
      modifies this`peers
      ensures peers == if addr !in old(peers) then old(peers)
                       else old(peers)[addr := old(peers)[addr].(havePieces := count)]
    {
      if addr in peers {
        peers := peers[addr := peers[addr].(havePieces := count)];
      }
    }

    /** Adds to the total, and to the peer if it is still registered. */
    method RecordBlock(addr: nat, length: nat)
      requires Valid()
      modifies this
      ensures Valid() && received == old(received) + length
      ensures peers == if addr !in old(peers) then old(peers)
                       else old(peers)[addr := old(peers)[addr].(downloaded := old(peers)[addr].downloaded + length)]
    {
      totalDownloaded := (totalDownloaded + length) % U64_LIMIT;
      received := received + length;
      if addr in peers {
        peers := peers[addr := peers[addr].(downloaded := peers[addr].downloaded + length)];
      }
    }
  }
}
