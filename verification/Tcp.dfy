/**
 * The receiving side of TCP (kernel/net/tcp.c) against a network that loses,
 * repeats and reorders the segments of its peers.
 */
module Tcp {
  import opened Bytes
  import opened Ring

  const MAX_CONNS := 32
  const RX_SIZE := 4096
  const ACCEPT_QUEUE := 4
  const SEQ_SPACE := 0x1_0000_0000

  datatype State =
    Closed | Listen | SynSent | SynReceived | Established | FinWait1 | FinWait2 | CloseWait | LastAck | TimeWait

  datatype Conn = Conn(
    inUse: bool, state: State, localPort: nat, remoteIp: nat, remotePort: nat, rcvNxt: nat,
    rx: seq<byte>, readPos: nat, writePos: nat, count: nat,
    parent: int, queue: seq<int>, queueTail: nat, queueHead: nat, queueCount: nat, eof: bool)

  datatype Segment = Segment(srcIp: nat, srcPort: nat, dstPort: nat, seqNum: nat, syn: bool, ack: bool, fin: bool,
                             rst: bool, data: seq<byte>)

  datatype Key = Key(remoteIp: nat, remotePort: nat, localPort: nat)

  /** What one peer sends: a stream numbered from its initial sequence number. */
  datatype Peer = Peer(iss: nat, stream: seq<byte>)

  predicate PeerOk(p: Peer) { p.iss < SEQ_SPACE && |p.stream| < SEQ_SPACE }

  /** The sequence number of stream position `k`. */
  function SeqOf(p: Peer, k: nat): nat { (p.iss + 1 + k) % SEQ_SPACE }

  /** Positions of a stream have different sequence numbers. */
  lemma SeqDistinct(p: Peer, j: nat, k: nat)
    requires PeerOk(p) && j <= |p.stream| && k <= |p.stream| && SeqOf(p, j) == SeqOf(p, k)
    ensures j == k
  {
  }

  /** The segment is one the peer sends with its text taken from position `off`. */
  predicate Carries(s: Segment, p: Peer, off: nat) {
    && off + |s.data| <= |p.stream| && s.seqNum == SeqOf(p, off) && s.data == p.stream[off..off + |s.data|]
    && (s.fin ==> off + |s.data| == |p.stream|)
  }

  /** A segment of this peer, first sent or repeated, at any time: only SYN, text and FIN are bound to a position. */
  ghost predicate Genuine(s: Segment, p: Peer) {
    && s.seqNum < SEQ_SPACE
    && (s.syn ==> s.seqNum == p.iss && s.data == [] && !s.fin)
    && (!s.syn && (s.data != [] || s.fin) ==> exists off: nat :: Carries(s, p, off))
  }

  function KeyOf(c: Conn): Key { Key(c.remoteIp, c.remotePort, c.localPort) }

  function SourceOf(s: Segment): Key { Key(s.srcIp, s.srcPort, s.dstPort) }

  /** The bytes in the receive ring. */
  function Waiting(c: Conn): seq<byte> { Held(c.rx, c.readPos, c.count) }

  /** Everything accepted from the peer: delivered to the reader, or waiting in the ring. */
  function Accepted(c: Conn, delivered: seq<byte>): seq<byte> { delivered + Waiting(c) }

  ghost predicate BufferOk(c: Conn) {
    |c.rx| == RX_SIZE && RingOk(c.rx, c.readPos, c.writePos, c.count) && c.rcvNxt < SEQ_SPACE
  }

  /** The safety property of one connection. */
  ghost predicate ConnOk(c: Conn, delivered: seq<byte>, p: Peer) {
    && BufferOk(c) && Accepted(c, delivered) <= p.stream
    && (c.state == Listen || c.state == SynSent || c.state == SynReceived ==> Accepted(c, delivered) == [])
    && (c.state == SynReceived || c.state == Established ==> c.rcvNxt == SeqOf(p, |Accepted(c, delivered)|))
  }

  /** The links between connections point into the table. */
  predicate LinksOk(c: Conn) {
    -1 <= c.parent < MAX_CONNS && |c.queue| == ACCEPT_QUEUE && c.queueTail < ACCEPT_QUEUE && c.queueHead < ACCEPT_QUEUE
  }

  // ----- the steps of one connection, on values -----

  /** A fresh connection, as tcp_alloc_conn leaves it. */
  function Blank(): Conn {
    Conn(true, Closed, 0, 0, 0, 0, Zeros(RX_SIZE), 0, 0, 0, -1, [0, 0, 0, 0], 0, 0, 0, false)
  }

  lemma BlankOk(c: Conn, p: Peer)
    requires BufferOk(c) && c.count == 0 && c.state != Established && PeerOk(p)
    requires c.state == SynReceived ==> c.rcvNxt == SeqOf(p, 0)
    ensures ConnOk(c, [], p)
  {
    assert Waiting(c) == [];
    assert Accepted(c, []) == [];
  }

  /** Changing fields the property does not mention, to a state that promises no more. */
  lemma StateOnly(c: Conn, c': Conn, delivered: seq<byte>, p: Peer)
    requires ConnOk(c, delivered, p) && c'.rx == c.rx && c'.readPos == c.readPos && c'.writePos == c.writePos
      && c'.count == c.count
    requires c'.rcvNxt == c.rcvNxt || (c'.rcvNxt < SEQ_SPACE && c'.state != Established && c'.state != SynReceived)
    requires c'.state == c.state || (c.state == SynReceived && c'.state == Established)
      || (c'.state != Listen && c'.state != SynSent && c'.state != SynReceived && c'.state != Established)
    ensures ConnOk(c', delivered, p)
  {
  }

  /** A three-way handshake begun here ends with the peer's SYN. */
  lemma Opened(c: Conn, c': Conn, delivered: seq<byte>, p: Peer, s: Segment)
    requires ConnOk(c, delivered, p) && c.state == SynSent && Genuine(s, p) && s.syn && PeerOk(p)
    requires c'.rx == c.rx && c'.readPos == c.readPos && c'.writePos == c.writePos && c'.count == c.count
    requires c'.state == Established && c'.rcvNxt == (s.seqNum + 1) % SEQ_SPACE
    ensures ConnOk(c', delivered, p)
  {
    assert Accepted(c', delivered) == Accepted(c, delivered);
  }

  /** How much of the text fits. */
  function Fitting(c: Conn, n: nat): nat {
    if c.count <= RX_SIZE && n < RX_SIZE - c.count then n else if c.count <= RX_SIZE then RX_SIZE - c.count else 0
  }

  /**
   * What an established connection holds after a segment: text at the expected sequence number
   * is appended until the 4096 bytes of the ring are full, other text is not.
   */
  predicate Fills(c: Conn, s: Segment, c': Conn) {
    && Waiting(c') <= Waiting(c) + s.data
    && |Waiting(c')| == if s.seqNum != c.rcvNxt then |Waiting(c)|
                        else if |Waiting(c)| + |s.data| <= 4096 then |Waiting(c)| + |s.data|
                        else 4096
  }

  lemma TakenFills(c: Conn, s: Segment, c': Conn)
    requires BufferOk(c) && Waiting(c') == Waiting(c) + Taken(c, s)
    ensures Fills(c, s, c')
  {
    HeldSize(c);
    hide Waiting;
  }

  lemma FillsStill(c: Conn, s: Segment, text: Conn, c': Conn)
    requires Fills(c, s, text) && c'.rx == text.rx && c'.readPos == text.readPos && c'.count == text.count
    ensures Fills(c, s, c')
  {
    hide Held;
  }

  lemma HeldSize(c: Conn)
    requires BufferOk(c)
    ensures |Waiting(c)| == c.count <= 4096
  {
  }

  /** Text at the expected sequence number extends what was accepted by the next bytes of the stream. */
  lemma TextAccepted(c: Conn, c': Conn, delivered: seq<byte>, p: Peer, s: Segment, off: nat, n: nat)
    requires ConnOk(c, delivered, p) && c.state == Established && PeerOk(p) && Carries(s, p, off)
      && s.seqNum == c.rcvNxt
    requires n <= |s.data| && BufferOk(c') && Waiting(c') == Waiting(c) + s.data[..n]
    requires c'.state == Established && c'.rcvNxt == (c.rcvNxt + n) % SEQ_SPACE
    ensures ConnOk(c', delivered, p) && Accepted(c', delivered) == Accepted(c, delivered) + s.data[..n]
  {
    var a := Accepted(c, delivered);
    SeqDistinct(p, off, |a|);
    assert Accepted(c', delivered) == a + s.data[..n];
    SubSlice(p.stream, off, |s.data|, 0, n);
    assert s.data[..n] == s.data[0..n];
    assert a == p.stream[..|a|];
    assert a + p.stream[|a|..|a| + n] == p.stream[..|a| + n];
    SeqAdds(p, |a|, n);
  }

  lemma SeqAdds(p: Peer, k: nat, n: nat)
    ensures (SeqOf(p, k) + n) % SEQ_SPACE == SeqOf(p, k + n)
  {
    var x := p.iss + 1 + k;
    assert (x % SEQ_SPACE + n) % SEQ_SPACE == (x + n) % SEQ_SPACE by { ModAdds(x, n); }
  }

  lemma ModAdds(x: nat, n: nat)
    ensures (x % SEQ_SPACE + n) % SEQ_SPACE == (x + n) % SEQ_SPACE
  {
  }

  // ----- FIN -----

  /** Everything the peer sent has been accepted. */
  predicate Complete(c: Conn, delivered: seq<byte>, p: Peer) { Accepted(c, delivered) == p.stream }

  /**
   * When a FIN marks the end of the stream, the stream is complete exactly if the
   * segment was in order and fitted the ring, or brought nothing new.
   */
  predicate FinInOrder(c: Conn, s: Segment) {
    || (s.seqNum == c.rcvNxt && Fitting(c, |s.data|) == |s.data|)
    || (s.seqNum + |s.data|) % SEQ_SPACE == c.rcvNxt
  }

  /** The text taken from a segment in the established state. */
  function Taken(c: Conn, s: Segment): seq<byte> {
    if s.data != [] && s.seqNum == c.rcvNxt && Fitting(c, |s.data|) <= |s.data| then s.data[..Fitting(c, |s.data|)]
    else []
  }

  lemma FinCompletes(c: Conn, c': Conn, delivered: seq<byte>, p: Peer, s: Segment, off: nat)
    requires ConnOk(c, delivered, p) && c.state == Established && PeerOk(p) && Carries(s, p, off) && s.fin
      && s.seqNum < SEQ_SPACE
    requires Accepted(c', delivered) == Accepted(c, delivered) + Taken(c, s) && Accepted(c', delivered) <= p.stream
    ensures Complete(c', delivered, p) <==> FinInOrder(c, s)
  {
    hide Waiting;
    var k, n := |Accepted(c, delivered)|, |s.data|;
    SeqAdds(p, off, n);
    assert off + n == |p.stream|;
    if SeqOf(p, |p.stream|) == c.rcvNxt {
      SeqDistinct(p, |p.stream|, k);
    }
    if s.seqNum == c.rcvNxt {
      SeqDistinct(p, off, k);
    }
  }

  // ----- the table -----

  ghost predicate SlotOk(c: Conn, delivered: seq<byte>, peers: Key -> Peer) {
    LinksOk(c) && (c.inUse ==> ConnOk(c, delivered, peers(KeyOf(c))))
  }

  ghost predicate TableOk(conns: seq<Conn>, delivered: seq<seq<byte>>, peers: Key -> Peer) {
    && |conns| == MAX_CONNS == |delivered| && (forall k :: PeerOk(peers(k)))
    && forall i :: 0 <= i < |conns| ==> SlotOk(conns[i], delivered[i], peers)
  }

  /** Replacing one connection. */
  lemma TableSet(conns: seq<Conn>, delivered: seq<seq<byte>>, peers: Key -> Peer, i: nat, c: Conn, dl: seq<byte>)
    requires TableOk(conns, delivered, peers) && i < MAX_CONNS && SlotOk(c, dl, peers)
    ensures TableOk(conns[i := c], delivered[i := dl], peers)
  {
    hide SlotOk, PeerOk;
  }

  /** The connection is the one tcp_receive hands this segment to. */
  predicate Addressed(c: Conn, s: Segment) { c.inUse && KeyOf(c) == SourceOf(s) }

  predicate ListensFor(c: Conn, s: Segment) { c.inUse && c.state == Listen && c.localPort == s.dstPort }

  /** The connection find_connection picks: the first of this peer, or else the first listener on the port. */
  predicate Picked(conns: seq<Conn>, idx: int, s: Segment) {
    if exists i :: 0 <= i < |conns| && Addressed(conns[i], s) then
      0 <= idx < |conns| && Addressed(conns[idx], s) && forall j :: 0 <= j < idx ==> !Addressed(conns[j], s)
    else if exists i :: 0 <= i < |conns| && ListensFor(conns[i], s) then
      0 <= idx < |conns| && ListensFor(conns[idx], s) && forall j :: 0 <= j < idx ==> !ListensFor(conns[j], s)
    else idx == -1
  }

  predicate FirstFree(conns: seq<Conn>, idx: int) {
    if exists i :: 0 <= i < |conns| && !conns[i].inUse then
      0 <= idx < |conns| && !conns[idx].inUse && forall j :: 0 <= j < idx ==> conns[j].inUse
    else idx == -1
  }

  class Endpoint {
    var conns: seq<Conn>
    ghost var delivered: seq<seq<byte>>   // what the reader of each connection has been given
    ghost const peers: Key -> Peer

    ghost predicate Valid()
      reads this
    {
      TableOk(conns, delivered, peers)
    }

    /** tcp_init: a table of unused connections. */
    constructor (ghost peers: Key -> Peer)
      requires forall k :: PeerOk(peers(k))
      ensures Valid() && this.peers == peers && forall i :: 0 <= i < |conns| ==> !conns[i].inUse
    {
      this.peers := peers;
      conns := seq(MAX_CONNS, i => Blank().(inUse := false, parent := 0));
      delivered := seq(MAX_CONNS, i => []);
    }

    /** find_connection: the connection of this peer, or else a listener on the port. */
    method FindConnection(s: Segment) returns (idx: int)
      requires Valid()
      ensures -1 <= idx < MAX_CONNS && Picked(conns, idx, s)
    {
      hide SlotOk, PeerOk;
      for i := 0 to MAX_CONNS
        invariant forall j :: 0 <= j < i ==> !Addressed(conns[j], s)
      {
        var c := conns[i];
        if c.inUse && c.remoteIp == s.srcIp && c.remotePort == s.srcPort && c.localPort == s.dstPort {
          return i;
        }
      }
      for i := 0 to MAX_CONNS
        invariant forall j :: 0 <= j < i ==> !ListensFor(conns[j], s)
      {
        if conns[i].inUse && conns[i].state == Listen && conns[i].localPort == s.dstPort {
          return i;
        }
      }
      return -1;
    }

    /** tcp_alloc_conn. */
    method Alloc() returns (idx: int)
      requires Valid()
      modifies this
      ensures Valid() && -1 <= idx < MAX_CONNS
      ensures FirstFree(old(conns), idx) && (idx < 0 ==> conns == old(conns) && delivered == old(delivered))
      ensures idx >= 0 ==> conns == old(conns)[idx := Blank()] && delivered == old(delivered)[idx := []]
    {
      hide SlotOk, PeerOk;
      for i := 0 to MAX_CONNS
        invariant conns == old(conns) && delivered == old(delivered)
        invariant forall j :: 0 <= j < i ==> conns[j].inUse
      {
        if !conns[i].inUse {
          BlankSlot(peers);
          TableSet(conns, delivered, peers, i, Blank(), []);
          conns := conns[i := Blank()];
          delivered := delivered[i := []];
          return i;
        }
      }
      return -1;
    }

    /** TCP_LISTEN: a SYN makes a new connection. */
    method OnListen(idx: nat, s: Segment) returns (acks: seq<nat>, born: int)
      requires Valid() && idx < MAX_CONNS && conns[idx].state == Listen && conns[idx].localPort == s.dstPort
      requires Genuine(s, peers(SourceOf(s)))
      modifies this
      ensures Valid()
      ensures Listened(old(conns), conns, idx, s, acks, born) && delivered == Emptied(old(delivered), born)
      ensures UsedKept(old(conns), old(delivered), conns, delivered)
    {
      hide SlotOk, PeerOk;
      acks, born := [], -1;
      if s.syn {
        var n := Alloc();
        if n < 0 {
          return;
        }
        born := n;
        var c := Newborn(s, idx);
        NewSlot(c, s, peers);
        TableSet(conns, delivered, peers, n, c, []);
        assert delivered[n := []] == delivered;
        conns := conns[n := c];
        acks := [c.rcvNxt];
        assert BornAt(old(conns), conns, n, idx, s);
      }
    }

    /** TCP_SYN_RECEIVED: an acknowledgement completes the handshake. */
    method OnSynReceived(idx: nat, s: Segment)
      requires Valid() && idx < MAX_CONNS && conns[idx].inUse && conns[idx].state == SynReceived
      modifies `conns
      ensures Valid() && RingsKept(old(conns), conns)
      ensures conns == if s.ack then Joined(old(conns), idx) else old(conns)
    {
      hide SlotOk, ConnOk, PeerOk;
      KeptRefl(conns);
      if s.ack {
        SlotAt(conns, delivered, peers, idx);
        EstablishSlot(conns[idx], delivered[idx], peers);
        TableSet(conns, delivered, peers, idx, conns[idx].(state := Established), delivered[idx]);
        assert delivered[idx := delivered[idx]] == delivered;
        conns := conns[idx := conns[idx].(state := Established)];
        if conns[idx].parent >= 0 {
          var q := conns[idx].parent;
          var p := conns[q];
          SlotAt(conns, delivered, peers, q);
          if p.queueCount < ACCEPT_QUEUE {
            var p' := p.(queue := p.queue[p.queueTail := idx], queueTail := (p.queueTail + 1) % ACCEPT_QUEUE,
                         queueCount := p.queueCount + 1);
            QueueSlot(p, p', delivered[q], peers);
            TableSet(conns, delivered, peers, q, p', delivered[q]);
            assert delivered[q := delivered[q]] == delivered;
            conns := conns[q := p'];
          }
        }
      }
    }

    /** TCP_SYN_SENT: the peer's SYN and acknowledgement. */
    method OnSynSent(idx: nat, s: Segment) returns (acks: seq<nat>)
      requires Valid() && idx < MAX_CONNS && conns[idx].inUse && conns[idx].state == SynSent
        && Genuine(s, peers(KeyOf(conns[idx])))
      modifies `conns
      ensures Valid() && RingsKept(old(conns), conns)
      ensures if s.syn && s.ack then
          conns == old(conns)[idx := Synced(old(conns)[idx], s)] && acks == [(s.seqNum + 1) % SEQ_SPACE]
              else acks == [] && conns == old(conns)
    {
      hide SlotOk, ConnOk, PeerOk;
      KeptRefl(conns);
      acks := [];
      if s.syn && s.ack {
        var c := conns[idx].(rcvNxt := (s.seqNum + 1) % SEQ_SPACE, state := Established);
        SlotAt(conns, delivered, peers, idx);
        OpenSlot(conns[idx], c, delivered[idx], peers, s);
        TableSet(conns, delivered, peers, idx, c, delivered[idx]);
        assert delivered[idx := delivered[idx]] == delivered;
        conns := conns[idx := c];
        acks := [c.rcvNxt];
      }
    }

    /** TCP_ESTABLISHED: text in order, FIN and RST. */
    method OnEstablished(idx: nat, s: Segment) returns (acks: seq<nat>)
      requires Valid() && idx < MAX_CONNS && conns[idx].inUse && conns[idx].state == Established
        && Genuine(s, peers(KeyOf(conns[idx])))
      modifies `conns
      ensures Valid() && Handled(old(conns), conns, delivered, peers, idx, s)
      ensures acks == Acked(old(conns), conns, idx, s)
      ensures |conns| == MAX_CONNS && Fills(old(conns)[idx], s, conns[idx])
    {
      hide Fills, SlotOk, ConnOk, PeerOk, Genuine, Held, Accepted, Complete, FinInOrder, RingOk, LinksOk, Handled,
           Taken, Fitting;
      var c := conns[idx];
      SlotAt(conns, delivered, peers, idx);
      TakenSize(c, s);
      var taken;
      c, taken := TakeText(c, s);
      acks := if taken then [c.rcvNxt] else [];
      ghost var text := c;
      TextSlot(conns[idx], text, delivered[idx], peers, s);
      if s.fin {
        c := c.(rcvNxt := (s.seqNum + |s.data| + 1) % SEQ_SPACE, state := CloseWait, eof := true);
        acks := acks + [c.rcvNxt];
      }
      if s.rst {
        c := c.(state := Closed, eof := true);
      }
      FillsStill(conns[idx], s, text, c);
      EndSlot(conns[idx], text, c, delivered[idx], peers, s);
      if s.fin {
        FinSlot(conns[idx], c, delivered[idx], peers, s);
      }
      TableSet(conns, delivered, peers, idx, c, delivered[idx]);
      assert delivered[idx := delivered[idx]] == delivered;
      HandledBy(conns, c, delivered, peers, idx, s);
      conns := conns[idx := c];
    }

    /** The other states of tcp_receive: only the state, and the acknowledgement of a FIN, change. */
    method OnClosing(idx: nat, s: Segment) returns (acks: seq<nat>)
      requires Valid() && idx < MAX_CONNS && conns[idx].inUse && s.seqNum < SEQ_SPACE
      requires conns[idx].state != Listen && conns[idx].state != SynSent && conns[idx].state != SynReceived
        && conns[idx].state != Established
      modifies `conns
      ensures Valid() && conns == old(conns)[idx := Closing(old(conns)[idx], s)] && RingsKept(old(conns), conns)
      ensures acks == ClosingAck(old(conns)[idx], s)
    {
      hide SlotOk, ConnOk, PeerOk, Held;
      var c := conns[idx];
      SlotAt(conns, delivered, peers, idx);
      acks := [];
      if c.state == FinWait1 {
        if s.ack {
          c := c.(state := FinWait2);
        }
        if s.fin {
          c := c.(rcvNxt := (s.seqNum + 1) % SEQ_SPACE, state := TimeWait);
          acks := [c.rcvNxt];
        }
      } else if c.state == FinWait2 {
        if s.fin {
          c := c.(rcvNxt := (s.seqNum + 1) % SEQ_SPACE, state := TimeWait);
          acks := [c.rcvNxt];
        }
      } else if c.state == LastAck {
        if s.ack {
          c := c.(state := Closed, inUse := false);
        }
      }
      ClosingSlot(conns[idx], c, delivered[idx], peers);
      TableSet(conns, delivered, peers, idx, c, delivered[idx]);
      assert delivered[idx := delivered[idx]] == delivered;
      conns := conns[idx := c];
    }

    /** tcp_receive: a segment from the network. */
    method Receive(s: Segment) returns (acks: seq<nat>, born: int, ghost idx: int)
      requires Valid() && Genuine(s, peers(SourceOf(s)))
      modifies this
      ensures Valid() && Picked(old(conns), idx, s)
        && Reacts(old(conns), old(delivered), conns, peers, idx, s, acks, born)
      ensures delivered == Emptied(old(delivered), born)
      ensures AllExtend(old(conns), old(delivered), conns, delivered)
    {
      hide SlotOk, ConnOk, PeerOk, Genuine, Held, AllExtend, UsedKept, RingsKept, Handled, Listened, Joined, Synced,
           Closing, Acked, Picked;
      acks, born := [], -1;
      UsedRefl(conns, delivered);
      UsedExtends(conns, delivered, conns, delivered);
      var i := FindConnection(s);
      idx := i;
      if i < 0 {
        return;
      }
      ghost var before, dl := conns, delivered;
      PickedInUse(conns, i, s);
      assert s.seqNum < SEQ_SPACE by { SeqInSpace(s, peers(SourceOf(s))); }
      if conns[i].state == Listen {
        acks, born := OnListen(i, s);
        UsedExtends(before, dl, conns, delivered);
      } else if conns[i].state == SynReceived {
        OnSynReceived(i, s);
        KeptExtends(before, conns, delivered);
      } else if conns[i].state == SynSent {
        acks := OnSynSent(i, s);
        KeptExtends(before, conns, delivered);
      } else if conns[i].state == Established {
        acks := OnEstablished(i, s);
        HandledExtends(before, conns, delivered, peers, i, s);
      } else {
        acks := OnClosing(i, s);
        KeptExtends(before, conns, delivered);
      }
    }

    /** tcp_listen on a connection just allocated. */
    method OpenPassive(port: nat) returns (idx: int)
      requires Valid()
      modifies this
      ensures Valid() && -1 <= idx < MAX_CONNS && delivered == Emptied(old(delivered), idx)
      ensures OpensAs(old(conns), conns, idx, Blank().(localPort := port, state := Listen))
    {
      hide SlotOk, ConnOk, PeerOk;
      idx := Alloc();
      if idx >= 0 {
        var c := Blank().(localPort := port, state := Listen);
        FreshSlot(c, peers);
        TableSet(conns, delivered, peers, idx, c, []);
        assert delivered[idx := []] == delivered;
        conns := conns[idx := c];
      }
    }

    /** tcp_connect on a connection just allocated, up to the point where the caller waits. */
    method OpenActive(ip: nat, port: nat, srcPort: nat) returns (idx: int)
      requires Valid()
      modifies this
      ensures Valid() && -1 <= idx < MAX_CONNS && delivered == Emptied(old(delivered), idx)
      ensures OpensAs(old(conns), conns, idx,
                      Blank().(localPort := srcPort, remoteIp := ip, remotePort := port, state := SynSent))
    {
      hide SlotOk, ConnOk, PeerOk;
      idx := Alloc();
      if idx >= 0 {
        var c := Blank().(localPort := srcPort, remoteIp := ip, remotePort := port, state := SynSent);
        FreshSlot(c, peers);
        TableSet(conns, delivered, peers, idx, c, []);
        assert delivered[idx := []] == delivered;
        conns := conns[idx := c];
      }
    }

    /** The state test of the loop in tcp_recv: the reader would wait. */
    predicate WouldBlock(idx: nat)
      requires idx < |conns|
      reads this
    {
      conns[idx].count == 0 && !conns[idx].eof && conns[idx].state != Closed && conns[idx].state != CloseWait
    }

    /** tcp_recv, once it need not wait: the next bytes of the stream; none means the end. */
    method Recv(idx: nat, len: nat) returns (buf: seq<byte>)
      requires Valid() && idx < MAX_CONNS && conns[idx].inUse && !WouldBlock(idx)
      modifies this
      ensures Valid() && Given(old(conns), old(delivered), conns, delivered, idx, buf)
      ensures |buf| == if len < old(conns[idx]).count then len else old(conns[idx]).count
    {
      hide SlotOk, ConnOk, PeerOk, RingOk, Held;
      var c := conns[idx];
      if c.count == 0 {
        assert delivered[idx] + [] == delivered[idx] && delivered == delivered[idx := delivered[idx]];
        return [];
      }
      SlotAt(conns, delivered, peers, idx);
      var n := if len < c.count then len else c.count;
      buf, c := CopyOut(c, n);
      RecvSlot(conns[idx], c, delivered[idx], buf, peers);
      TableSet(conns, delivered, peers, idx, c, delivered[idx] + buf);
      conns := conns[idx := c];
      delivered := delivered[idx := delivered[idx] + buf];
    }

    /** tcp_close. */
    method Close(idx: nat)
      requires Valid() && idx < MAX_CONNS && conns[idx].inUse
      modifies `conns
      ensures Valid() && RingsKept(old(conns), conns) && conns == old(conns)[idx := Shut(old(conns)[idx])]
    {
      hide SlotOk, ConnOk, PeerOk, Held;
      var c := conns[idx];
      SlotAt(conns, delivered, peers, idx);
      if c.state == Established {
        c := c.(state := FinWait1);
      } else if c.state == CloseWait {
        c := c.(state := LastAck);
      } else if c.state == Listen || c.state == SynSent {
        c := c.(state := Closed, inUse := false);
      }
      ShutSlot(conns[idx], c, delivered[idx], peers);
      TableSet(conns, delivered, peers, idx, c, delivered[idx]);
      assert delivered[idx := delivered[idx]] == delivered;
      conns := conns[idx := c];
    }

    /** What tcp_tick does to connections: it gives up on one, or frees one that has waited long enough. */
    method Tick(idx: nat, expired: bool)
      requires Valid() && idx < MAX_CONNS && conns[idx].inUse && (expired ==> conns[idx].state == TimeWait)
      modifies `conns
      ensures Valid() && RingsKept(old(conns), conns)
      ensures conns == old(conns)[idx := old(conns)[idx].(state := Closed, inUse := !expired)]
    {
      hide SlotOk, ConnOk, PeerOk, Held;
      var c := conns[idx].(state := Closed, inUse := !expired);
      SlotAt(conns, delivered, peers, idx);
      ClosingSlot(conns[idx], c, delivered[idx], peers);
      TableSet(conns, delivered, peers, idx, c, delivered[idx]);
      assert delivered[idx := delivered[idx]] == delivered;
      conns := conns[idx := c];
    }
  }

  /** A slot just opened has delivered nothing yet. */
  function Emptied(delivered: seq<seq<byte>>, born: int): seq<seq<byte>> {
    if 0 <= born < |delivered| then delivered[born := []] else delivered
  }

  /** The connection takes the first free slot, if there is one. */
  predicate OpensAs(conns: seq<Conn>, conns': seq<Conn>, idx: int, c: Conn) {
    FirstFree(conns, idx) && conns' == if 0 <= idx < |conns| then conns[idx := c] else conns
  }

  function Shut(c: Conn): Conn {
    if c.state == Established then c.(state := FinWait1)
    else if c.state == CloseWait then c.(state := LastAck)
    else if c.state == Listen || c.state == SynSent then c.(state := Closed, inUse := false)
    else c
  }

  lemma ShutSlot(c: Conn, c': Conn, dl: seq<byte>, peers: Key -> Peer)
    requires SlotOk(c, dl, peers) && c.inUse && c' == Shut(c)
    ensures SlotOk(c', dl, peers)
  {
    hide ConnOk;
    StateOnly(c, c', dl, peers(KeyOf(c)));
  }

  lemma FreshSlot(c: Conn, peers: Key -> Peer)
    requires (forall k :: PeerOk(peers(k))) && BufferOk(c) && c.count == 0 && LinksOk(c)
      && (c.state == Listen || c.state == SynSent)
    ensures SlotOk(c, [], peers)
  {
    BlankOk(c, peers(KeyOf(c)));
  }

  /** Bytes moved from the ring to the reader. */
  predicate Given(conns: seq<Conn>, delivered: seq<seq<byte>>, conns': seq<Conn>, delivered': seq<seq<byte>>, idx: nat,
                  buf: seq<byte>) {
    && idx < |conns| == |conns'| == |delivered| == |delivered'|
    && delivered' == delivered[idx := delivered[idx] + buf] && conns' == conns[idx := conns'[idx]]
    && Waiting(conns[idx]) == buf + Waiting(conns'[idx])
    && conns'[idx] == conns[idx].(readPos := conns'[idx].readPos, count := conns'[idx].count)
  }

  lemma RecvSlot(c: Conn, c': Conn, dl: seq<byte>, buf: seq<byte>, peers: Key -> Peer)
    requires SlotOk(c, dl, peers) && c.inUse && BufferOk(c') && Waiting(c) == buf + Waiting(c')
    requires c' == c.(readPos := c'.readPos, count := c'.count)
    ensures SlotOk(c', dl + buf, peers)
  {
    hide Waiting, RingOk;
    assert Accepted(c', dl + buf) == Accepted(c, dl);
  }

  lemma UsedRefl(conns: seq<Conn>, delivered: seq<seq<byte>>)
    requires |conns| == |delivered|
    ensures UsedKept(conns, delivered, conns, delivered)
  {
  }

  lemma SeqInSpace(s: Segment, p: Peer)
    requires Genuine(s, p)
    ensures s.seqNum < SEQ_SPACE
  {
  }

  /** The connection a SYN opens. */
  function Newborn(s: Segment, parent: nat): Conn {
    Blank().(localPort := s.dstPort, remoteIp := s.srcIp, remotePort := s.srcPort, rcvNxt := (s.seqNum + 1) % SEQ_SPACE,
             state := SynReceived, parent := parent)
  }

  ghost predicate BornAt(conns: seq<Conn>, conns': seq<Conn>, n: nat, parent: nat, s: Segment) {
    n < |conns| && FirstFree(conns, n) && conns' == conns[n := Newborn(s, parent)]
  }

  /** What a listener does: a SYN takes the first free slot, if there is one. */
  ghost predicate Listened(conns: seq<Conn>, conns': seq<Conn>, idx: nat, s: Segment, acks: seq<nat>, born: int) {
    if s.syn && exists i :: 0 <= i < |conns| && !conns[i].inUse
    then acks == [(s.seqNum + 1) % SEQ_SPACE] && 0 <= born && BornAt(conns, conns', born, idx, s)
    else acks == [] && conns' == conns && born == -1
  }

  /** The handshake is complete: the connection joins its listener's queue, if that has room. */
  function Joined(conns: seq<Conn>, idx: nat): seq<Conn> {
    if idx >= |conns| then conns else
    var open := conns[idx := conns[idx].(state := Established)];
    var q := conns[idx].parent;
    if !(0 <= q < |conns|) || open[q].queueCount >= ACCEPT_QUEUE || open[q].queueTail >= |open[q].queue| then open
    else open[q := open[q].(queue := open[q].queue[open[q].queueTail := idx],
                            queueTail := (open[q].queueTail + 1) % ACCEPT_QUEUE,
                            queueCount := open[q].queueCount + 1)]
  }

  function Synced(c: Conn, s: Segment): Conn { c.(rcvNxt := (s.seqNum + 1) % SEQ_SPACE, state := Established) }

  /**
   * What a segment does to the connection picked for it, state by state; no other
   * connection is touched, but for a new one and a listener's queue.
   */
  ghost predicate Reacts(conns: seq<Conn>, delivered: seq<seq<byte>>, conns': seq<Conn>, peers: Key -> Peer, idx: int,
                         s: Segment,
                         acks: seq<nat>, born: int)
  {
    if 0 <= idx < |conns| && conns[idx].state == Listen
    then Listened(conns, conns', idx, s, acks, born)
    else born == -1 && Moves(conns, delivered, conns', peers, idx, s, acks)
  }

  ghost predicate Moves(conns: seq<Conn>, delivered: seq<seq<byte>>, conns': seq<Conn>, peers: Key -> Peer, idx: int,
                        s: Segment, acks: seq<nat>) {
    if idx < 0 || idx >= |conns| then conns' == conns && acks == []
    else if conns[idx].state == SynReceived then acks == [] && conns' == if s.ack then Joined(conns, idx) else conns
    else if conns[idx].state == SynSent then
      if s.syn && s.ack then conns' == conns[idx := Synced(conns[idx], s)] && acks == [(s.seqNum + 1) % SEQ_SPACE]
      else conns' == conns && acks == []
    else if conns[idx].state == Established then
      Handled(conns, conns', delivered, peers, idx, s) && acks == Acked(conns, conns', idx, s)
    else conns' == conns[idx := Closing(conns[idx], s)] && acks == ClosingAck(conns[idx], s)
  }

  function ClosingAck(c: Conn, s: Segment): seq<nat> {
    if s.fin && (c.state == FinWait1 || c.state == FinWait2) then [(s.seqNum + 1) % SEQ_SPACE] else []
  }

  function Closing(c: Conn, s: Segment): Conn {
    if c.state == FinWait1 then
      if s.fin then c.(rcvNxt := (s.seqNum + 1) % SEQ_SPACE, state := TimeWait)
      else if s.ack then c.(state := FinWait2)
      else c
    else if c.state == FinWait2 then
      if s.fin then c.(rcvNxt := (s.seqNum + 1) % SEQ_SPACE, state := TimeWait) else c
    else if c.state == LastAck && s.ack then c.(state := Closed, inUse := false)
    else c
  }

  /** The copy loop of tcp_receive. */
  method CopyIn(c: Conn, data: seq<byte>, n: nat) returns (c': Conn)
    requires BufferOk(c) && n <= |data| && n <= RX_SIZE - c.count
    ensures BufferOk(c') && Waiting(c') == Waiting(c) + data[..n]
    ensures c' == c.(rx := c'.rx, writePos := c'.writePos, count := c.count + n)
  {
    hide Held, RingOk;
    var rx: seq<byte>, w: nat := c.rx, c.writePos;
    assert w < RX_SIZE by { RingBounds(c.rx, c.readPos, c.writePos, c.count); }
    for k := 0 to n
      invariant |rx| == RX_SIZE && w < RX_SIZE && RingOk(rx, c.readPos, w, c.count + k)
      invariant Held(rx, c.readPos, c.count + k) == Waiting(c) + data[..k]
    {
      Pushed(rx, c.readPos, w, c.count + k, data[k]);
      WrapIsMod(w + 1, RX_SIZE);
      assert data[..k] + [data[k]] == data[..k + 1];
      rx := rx[w := data[k]];
      w := (w + 1) % RX_SIZE;
    }
    c' := c.(rx := rx, writePos := w, count := c.count + n);
  }

  /** The text of a segment, taken when it is the next in order, as far as the ring has room. */
  method TakeText(c: Conn, s: Segment) returns (c': Conn, taken: bool)
    requires BufferOk(c)
    ensures BufferOk(c') && Waiting(c') == Waiting(c) + Taken(c, s) && taken == (s.data != [] && s.seqNum == c.rcvNxt)
    ensures if taken
            then c' == c.(rx := c'.rx, writePos := c'.writePos, count := c.count + Fitting(c, |s.data|),
                          rcvNxt := (c.rcvNxt + Fitting(c, |s.data|)) % SEQ_SPACE)
            else c' == c
    ensures Fills(c, s, c')
  {
    hide Held, RingOk, Fills;
    c', taken := c, |s.data| > 0 && s.seqNum == c.rcvNxt;
    RingBounds(c.rx, c.readPos, c.writePos, c.count);
    assert Waiting(c) + [] == Waiting(c);
    if taken {
      var space := RX_SIZE - c.count;
      var n := if |s.data| < space then |s.data| else space;
      c' := CopyIn(c, s.data, n);
      c' := c'.(rcvNxt := (c.rcvNxt + n) % SEQ_SPACE);
    }
    TakenFills(c, s, c');
  }

  lemma PopStep(rx: seq<byte>, r: nat, w: nat, m: nat, buf: seq<byte>, all: seq<byte>)
    requires |rx| == RX_SIZE && 0 < m && RingOk(rx, r, w, m) && all == buf + Held(rx, r, m)
    ensures r < RX_SIZE && RingOk(rx, (r + 1) % RX_SIZE, w, m - 1)
      && all == (buf + [rx[r]]) + Held(rx, (r + 1) % RX_SIZE, m - 1)
  {
    hide Held;
    Popped(rx, r, w, m);
    WrapIsMod(r + 1, RX_SIZE);
  }

  /** The copy loop of tcp_recv. */
  method CopyOut(c: Conn, n: nat) returns (buf: seq<byte>, c': Conn)
    requires BufferOk(c) && n <= c.count
    ensures BufferOk(c') && |buf| == n && Waiting(c) == buf + Waiting(c')
    ensures c' == c.(readPos := c'.readPos, count := c.count - n)
  {
    hide Held, RingOk;
    ghost var all := Waiting(c);
    buf := [];
    var r: nat := c.readPos;
    assert all == buf + Held(c.rx, r, c.count);
    for k := 0 to n
      invariant |buf| == k && RingOk(c.rx, r, c.writePos, c.count - k)
      invariant all == buf + Held(c.rx, r, c.count - k)
    {
      PopStep(c.rx, r, c.writePos, c.count - k, buf, all);
      buf := buf + [c.rx[r]];
      r := (r + 1) % RX_SIZE;
    }
    c' := c.(readPos := r, count := c.count - n);
  }

  lemma BlankSlot(peers: Key -> Peer)
    requires forall k :: PeerOk(peers(k))
    ensures SlotOk(Blank(), [], peers)
  {
    BlankOk(Blank(), peers(KeyOf(Blank())));
  }

  /** The receive buffers, and who they belong to, are untouched. */
  predicate RingsKept(conns: seq<Conn>, conns': seq<Conn>) {
    |conns'| == |conns| && forall i :: 0 <= i < |conns| ==> SameRing(conns[i], conns'[i])
  }

  predicate SameRing(c: Conn, c': Conn) {
    KeyOf(c') == KeyOf(c) && Waiting(c') == Waiting(c) && c'.count == c.count
  }

  /** Connections in use are untouched. */
  predicate UsedKept(conns: seq<Conn>, delivered: seq<seq<byte>>, conns': seq<Conn>, delivered': seq<seq<byte>>) {
    && |conns'| == |conns| == |delivered| == |delivered'|
    && forall i :: 0 <= i < |conns| && conns[i].inUse ==> conns'[i] == conns[i] && delivered'[i] == delivered[i]
  }

  /** What was accepted stays accepted, and more may follow it. */
  ghost predicate Extends(c: Conn, c': Conn, dl: seq<byte>) {
    KeyOf(c') == KeyOf(c) && Accepted(c, dl) <= Accepted(c', dl)
  }

  /** Every connection that was in use has kept what it had accepted. */
  ghost predicate AllExtend(conns: seq<Conn>, delivered: seq<seq<byte>>, conns': seq<Conn>,
                            delivered': seq<seq<byte>>) {
    && |conns'| == |conns| == |delivered| == |delivered'|
    && forall i :: 0 <= i < |conns| && conns[i].inUse ==>
      delivered'[i] == delivered[i] && Extends(conns[i], conns'[i], delivered[i])
  }

  lemma UsedExtends(conns: seq<Conn>, delivered: seq<seq<byte>>, conns': seq<Conn>, delivered': seq<seq<byte>>)
    requires UsedKept(conns, delivered, conns', delivered')
    ensures AllExtend(conns, delivered, conns', delivered')
  {
    hide Held;
  }

  lemma KeptExtends(conns: seq<Conn>, conns': seq<Conn>, delivered: seq<seq<byte>>)
    requires RingsKept(conns, conns') && |delivered| == |conns|
    ensures AllExtend(conns, delivered, conns', delivered)
  {
    hide Waiting, KeyOf;
    forall i | 0 <= i < |conns| && conns[i].inUse ensures Extends(conns[i], conns'[i], delivered[i]) {
      assert SameRing(conns[i], conns'[i]);
    }
  }

  lemma HandledExtends(conns: seq<Conn>, conns': seq<Conn>, delivered: seq<seq<byte>>, peers: Key -> Peer, idx: nat,
                       s: Segment)
    requires Handled(conns, conns', delivered, peers, idx, s)
    ensures AllExtend(conns, delivered, conns', delivered)
  {
    hide Waiting;
  }

  /** A connection that is picked and does not listen is that of the segment's sender. */
  lemma PickedInUse(conns: seq<Conn>, idx: nat, s: Segment)
    requires Picked(conns, idx, s) && idx < |conns|
    ensures conns[idx].inUse && conns[idx].localPort == s.dstPort
      && (conns[idx].state != Listen ==> KeyOf(conns[idx]) == SourceOf(s))
  {
  }

  lemma ClosingSlot(c: Conn, c': Conn, dl: seq<byte>, peers: Key -> Peer)
    requires SlotOk(c, dl, peers) && c.inUse && c' == c.(rcvNxt := c'.rcvNxt, state := c'.state, inUse := c'.inUse)
      && c'.rcvNxt < SEQ_SPACE
    requires c'.state != Listen && c'.state != SynSent && c'.state != SynReceived && c'.state != Established
    ensures SlotOk(c', dl, peers)
  {
    hide ConnOk;
    StateOnly(c, c', dl, peers(KeyOf(c)));
  }

  lemma KeptRefl(conns: seq<Conn>)
    ensures RingsKept(conns, conns)
  {
  }

  lemma SlotAt(conns: seq<Conn>, delivered: seq<seq<byte>>, peers: Key -> Peer, i: nat)
    requires TableOk(conns, delivered, peers) && i < MAX_CONNS
    ensures SlotOk(conns[i], delivered[i], peers) && LinksOk(conns[i]) && PeerOk(peers(KeyOf(conns[i])))
    ensures conns[i].inUse ==> ConnOk(conns[i], delivered[i], peers(KeyOf(conns[i]))) && BufferOk(conns[i])
  {
  }

  lemma NewSlot(c: Conn, s: Segment, peers: Key -> Peer)
    requires forall k :: PeerOk(peers(k))
    requires BufferOk(c) && c.count == 0 && c.state == SynReceived && LinksOk(c) && KeyOf(c) == SourceOf(s)
    requires Genuine(s, peers(SourceOf(s))) && s.syn && c.rcvNxt == (s.seqNum + 1) % SEQ_SPACE
    ensures SlotOk(c, [], peers)
  {
    BlankOk(c, peers(KeyOf(c)));
  }

  lemma EstablishSlot(c: Conn, dl: seq<byte>, peers: Key -> Peer)
    requires SlotOk(c, dl, peers) && c.inUse && c.state == SynReceived
    ensures SlotOk(c.(state := Established), dl, peers)
  {
    hide ConnOk;
    StateOnly(c, c.(state := Established), dl, peers(KeyOf(c)));
  }

  lemma QueueSlot(c: Conn, c': Conn, dl: seq<byte>, peers: Key -> Peer)
    requires SlotOk(c, dl, peers) && LinksOk(c')
      && c' == c.(queue := c'.queue, queueTail := c'.queueTail, queueCount := c'.queueCount)
    ensures SlotOk(c', dl, peers)
  {
    hide ConnOk;
    if c.inUse {
      StateOnly(c, c', dl, peers(KeyOf(c)));
    }
  }

  lemma OpenSlot(c: Conn, c': Conn, dl: seq<byte>, peers: Key -> Peer, s: Segment)
    requires SlotOk(c, dl, peers) && c.inUse && c.state == SynSent && Genuine(s, peers(KeyOf(c))) && s.syn
      && PeerOk(peers(KeyOf(c)))
    requires c' == c.(rcvNxt := (s.seqNum + 1) % SEQ_SPACE, state := Established)
    ensures SlotOk(c', dl, peers)
  {
    hide ConnOk;
    Opened(c, c', dl, peers(KeyOf(c)), s);
  }

  /** After the text of a segment was taken. */
  lemma TextSlot(c: Conn, c': Conn, dl: seq<byte>, peers: Key -> Peer, s: Segment)
    requires SlotOk(c, dl, peers) && c.inUse && c.state == Established && Genuine(s, peers(KeyOf(c)))
      && PeerOk(peers(KeyOf(c))) && BufferOk(c)
    requires BufferOk(c') && Waiting(c') == Waiting(c) + Taken(c, s)
    requires if s.data != [] && s.seqNum == c.rcvNxt
             then c' == c.(rx := c'.rx, writePos := c'.writePos, count := c.count + Fitting(c, |s.data|),
                           rcvNxt := (c.rcvNxt + Fitting(c, |s.data|)) % SEQ_SPACE)
             else c' == c
    ensures SlotOk(c', dl, peers) && Accepted(c', dl) == Accepted(c, dl) + Taken(c, s)
  {
    hide ConnOk, Waiting;
    var p := peers(KeyOf(c));
    assert Accepted(c', dl) == Accepted(c, dl) + Taken(c, s);
    if s.data != [] && s.seqNum == c.rcvNxt {
      SynSeq(c, dl, p, s);
      var off: nat :| Carries(s, p, off);
      TextAccepted(c, c', dl, p, s, off, Fitting(c, |s.data|));
    }
  }

  /** A repeated SYN carries no text. */
  lemma SynSeq(c: Conn, dl: seq<byte>, p: Peer, s: Segment)
    requires Genuine(s, p) && s.data != []
    ensures !s.syn && exists off: nat :: Carries(s, p, off)
  {
  }

  lemma EndSlot(c: Conn, text: Conn, c': Conn, dl: seq<byte>, peers: Key -> Peer, s: Segment)
    requires SlotOk(text, dl, peers) && text.inUse && text.state == Established && KeyOf(text) == KeyOf(c)
      && BufferOk(text)
    requires c' == text.(rcvNxt := c'.rcvNxt, state := c'.state, eof := c'.eof) && c'.rcvNxt < SEQ_SPACE
    requires (c'.state == Established && c'.rcvNxt == text.rcvNxt) || c'.state == CloseWait || c'.state == Closed
    ensures SlotOk(c', dl, peers) && Accepted(c', dl) == Accepted(text, dl) && KeyOf(c') == KeyOf(c)
  {
    hide ConnOk, Held;
    StateOnly(text, c', dl, peers(KeyOf(c)));
  }

  lemma FinSlot(c: Conn, c': Conn, dl: seq<byte>, peers: Key -> Peer, s: Segment)
    requires SlotOk(c, dl, peers) && c.inUse && c.state == Established && Genuine(s, peers(KeyOf(c)))
      && PeerOk(peers(KeyOf(c)))
    requires SlotOk(c', dl, peers) && c'.inUse && KeyOf(c') == KeyOf(c)
      && Accepted(c', dl) == Accepted(c, dl) + Taken(c, s) && s.fin
    ensures Complete(c', dl, peers(KeyOf(c))) <==> FinInOrder(c, s)
  {
    var p := peers(KeyOf(c));
    assert exists off: nat :: Carries(s, p, off);
    var off: nat :| Carries(s, p, off);
    assert Accepted(c', dl) <= p.stream;
    hide SlotOk;
    FinCompletes(c, c', dl, p, s, off);
  }

  /** The state an established connection is in after a segment, and the byte it then expects. */
  function AfterText(s: Segment): State { if s.rst then Closed else if s.fin then CloseWait else Established }

  function NextSeq(c: Conn, s: Segment): nat {
    if s.fin then (s.seqNum + |s.data| + 1) % SEQ_SPACE else (c.rcvNxt + |Taken(c, s)|) % SEQ_SPACE
  }

  /** What an established connection does with a segment. */
  ghost predicate Handled(conns: seq<Conn>, conns': seq<Conn>, delivered: seq<seq<byte>>, peers: Key -> Peer, idx: nat,
                          s: Segment) {
    && idx < |conns| == |conns'| == |delivered| && conns' == conns[idx := conns'[idx]]
    && var c, c', dl, p := conns[idx], conns'[idx], delivered[idx], peers(KeyOf(conns[idx]));
    && c' == c.(rx := c'.rx, writePos := c'.writePos, count := c'.count, state := AfterText(s), rcvNxt := NextSeq(c, s),
                eof := c.eof || s.fin || s.rst)
    && Accepted(c', dl) == Accepted(c, dl) + Taken(c, s) && Fills(c, s, c')
    && (s.fin ==> (Complete(c', dl, p) <==> FinInOrder(c, s)))
  }

  lemma TakenSize(c: Conn, s: Segment)
    requires BufferOk(c)
    ensures |Taken(c, s)| == if s.data != [] && s.seqNum == c.rcvNxt then Fitting(c, |s.data|) else 0
  {
  }

  lemma HandledBy(conns: seq<Conn>, c': Conn, delivered: seq<seq<byte>>, peers: Key -> Peer, idx: nat, s: Segment)
    requires idx < |conns| == |delivered| && conns[idx].rcvNxt < SEQ_SPACE
    requires c' == conns[idx].(rx := c'.rx, writePos := c'.writePos, count := c'.count, state := AfterText(s),
                               rcvNxt := NextSeq(conns[idx], s), eof := conns[idx].eof || s.fin || s.rst)
    requires Accepted(c', delivered[idx]) == Accepted(conns[idx], delivered[idx]) + Taken(conns[idx], s)
    requires Fills(conns[idx], s, c')
    requires s.fin ==>
      (Complete(c', delivered[idx], peers(KeyOf(conns[idx]))) <==> FinInOrder(conns[idx], s))
    ensures Handled(conns, conns[idx := c'], delivered, peers, idx, s)
  {
    hide Accepted, Taken, Complete, FinInOrder, NextSeq, AfterText, Fills;
  }

  /** The acknowledgements sent: for text taken, and for a FIN. */
  ghost function Acked(conns: seq<Conn>, conns': seq<Conn>, idx: nat, s: Segment): seq<nat> {
    if idx >= |conns| then [] else
    (if s.data != [] && s.seqNum == conns[idx].rcvNxt then [(conns[idx].rcvNxt + |Taken(conns[idx], s)|) % SEQ_SPACE]
      else [])
    + (if s.fin then [(s.seqNum + |s.data| + 1) % SEQ_SPACE] else [])
  }

  // ----- runs -----

  datatype Event =
    | Arrive(s: Segment)
    | Passive(port: nat)
    | Active(ip: nat, port: nat, srcPort: nat)
    | Read(idx: nat, len: nat)
    | CloseBy(idx: nat)
    | TimeOut(idx: nat, expired: bool)

  /** The network delivers what the peers sent, in any order, any number of times, or not at all. */
  ghost predicate Possible(e: Event, peers: Key -> Peer) {
    e.Arrive? ==> Genuine(e.s, peers(SourceOf(e.s)))
  }

  /** What a reader got, and from which connection. */
  datatype Gift = Gift(idx: nat, key: Key, bytes: seq<byte>)

  /** What came of an event: bytes for a reader, acknowledgements sent, and the slot of a new connection, or -1. */
  datatype Entry = Entry(gift: seq<Gift>, acks: seq<nat>, born: int)

  /** The connections, and what the reader of each has been given since it was opened. */
  datatype Moment = Moment(conns: seq<Conn>, delivered: seq<seq<byte>>)

  /** What the readers have got after one more event. */
  function Fed(delivered: seq<seq<byte>>, x: Entry): seq<seq<byte>> {
    if x.gift == [] then Emptied(delivered, x.born)
    else if x.gift[0].idx < |delivered| then delivered[x.gift[0].idx := delivered[x.gift[0].idx] + x.gift[0].bytes]
    else delivered
  }

  /** What the readers have got in all: for each slot, the bytes given since it was last opened. */
  function FedAll(delivered: seq<seq<byte>>, log: seq<Entry>): seq<seq<byte>> {
    if log == [] then delivered else Fed(FedAll(delivered, log[..|log| - 1]), log[|log| - 1])
  }

  predicate Usable(conns: seq<Conn>, idx: nat) { idx < |conns| && conns[idx].inUse }

  /** The reader need not wait. */
  predicate Readable(conns: seq<Conn>, idx: nat) {
    && Usable(conns, idx)
    && (conns[idx].count != 0 || conns[idx].eof || conns[idx].state == Closed || conns[idx].state == CloseWait)
  }

  /**
   * The reader gets what comes next in the peer's stream, as many bytes as asked for or
   * waiting, exactly if it need not wait.
   */
  ghost predicate Served(m: Moment, m': Moment, peers: Key -> Peer, idx: nat, len: nat, gift: seq<Gift>) {
    if Readable(m.conns, idx) && idx < |m.delivered| then
      && |gift| == 1 && gift[0].idx == idx && gift[0].key == KeyOf(m.conns[idx])
      && |gift[0].bytes| == (if len < m.conns[idx].count then len else m.conns[idx].count)
      && m.delivered[idx] + gift[0].bytes <= peers(KeyOf(m.conns[idx])).stream
      && Given(m.conns, m.delivered, m'.conns, m'.delivered, idx, gift[0].bytes)
    else gift == [] && m'.conns == m.conns
  }

  ghost predicate Arrived(m: Moment, m': Moment, peers: Key -> Peer, s: Segment, x: Entry) {
    && x.gift == []
    && exists i :: Picked(m.conns, i, s) && Reacts(m.conns, m.delivered, m'.conns, peers, i, s, x.acks, x.born)
  }

  /** What each event does: the whole of the new state, but for where bytes lie in a ring (see StepDetermined). */
  ghost predicate Step(m: Moment, peers: Key -> Peer, e: Event, x: Entry, m': Moment) {
    && m'.delivered == Fed(m.delivered, x)
    && match e
       case Arrive(s) => Arrived(m, m', peers, s, x)
       case Passive(port) => x.gift == [] && x.acks == []
       && OpensAs(m.conns, m'.conns, x.born, Blank().(localPort := port, state := Listen))
       case Active(ip, port, srcPort) =>
         && x.gift == [] && x.acks == []
         && OpensAs(m.conns, m'.conns, x.born,
                    Blank().(localPort := srcPort, remoteIp := ip, remotePort := port, state := SynSent))
       case Read(idx, len) => x.acks == [] && x.born == -1 && Served(m, m', peers, idx, len, x.gift)
       case CloseBy(idx) =>
         && x == Entry([], [], -1)
         && m'.conns == if Usable(m.conns, idx) then m.conns[idx := Shut(m.conns[idx])] else m.conns
       case TimeOut(idx, expired) =>
         && x == Entry([], [], -1)
         && m'.conns == if Usable(m.conns, idx) && (expired ==> m.conns[idx].state == TimeWait)
                        then m.conns[idx := m.conns[idx].(state := Closed, inUse := !expired)] else m.conns
  }

  /** A moment is a state of the table. */
  ghost predicate Sound(m: Moment, peers: Key -> Peer) { TableOk(m.conns, m.delivered, peers) }

  ghost predicate Trace(peers: Key -> Peer, events: seq<Event>, log: seq<Entry>, ms: seq<Moment>) {
    && |log| <= |events| && |ms| == |log| + 1 && (forall j :: 0 <= j < |ms| ==> Sound(ms[j], peers))
    && forall j :: 0 <= j < |log| ==> Step(ms[j], peers, events[j], log[j], ms[j + 1])
  }

  /** One event; a read that would wait, or an operation on a connection that is gone, does nothing. */
  method Serve(t: Endpoint, e: Event) returns (x: Entry)
    requires t.Valid() && Possible(e, t.peers)
    modifies t
    ensures t.Valid() && Step(Moment(old(t.conns), old(t.delivered)), t.peers, e, x, Moment(t.conns, t.delivered))
  {
    hide TableOk, Genuine, AllExtend, Given, Picked, Reacts, FirstFree;
    x := Entry([], [], -1);
    TableShape(t.conns, t.delivered, t.peers);
    match e
    case Arrive(s) =>
      var acks, born;
      ghost var i;
      acks, born, i := t.Receive(s);
      x := Entry([], acks, born);
    case Passive(port) =>
      var i := t.OpenPassive(port);
      x := Entry([], [], i);
    case Active(ip, port, srcPort) =>
      var i := t.OpenActive(ip, port, srcPort);
      x := Entry([], [], i);
    case Read(idx, len) =>
      if idx < MAX_CONNS && t.conns[idx].inUse && !t.WouldBlock(idx) {
        var key := KeyOf(t.conns[idx]);
        var buf := t.Recv(idx, len);
        x := Entry([Gift(idx, key, buf)], [], -1);
        GivenNext(Moment(old(t.conns), old(t.delivered)), Moment(t.conns, t.delivered), t.peers, idx, buf);
      }
    case CloseBy(idx) =>
      if idx < MAX_CONNS && t.conns[idx].inUse {
        t.Close(idx);
      }
    case TimeOut(idx, expired) =>
      if idx < MAX_CONNS && t.conns[idx].inUse && (expired ==> t.conns[idx].state == TimeWait) {
        t.Tick(idx, expired);
      }
  }

  /** Bytes given to a reader are the next of the peer's stream. */
  lemma GivenNext(m: Moment, m': Moment, peers: Key -> Peer, idx: nat, buf: seq<byte>)
    requires TableOk(m.conns, m.delivered, peers) && Usable(m.conns, idx)
    requires Given(m.conns, m.delivered, m'.conns, m'.delivered, idx, buf)
    ensures m.delivered[idx] + buf <= peers(KeyOf(m.conns[idx])).stream
      && m'.delivered == m.delivered[idx := m.delivered[idx] + buf]
  {
    SlotAt(m.conns, m.delivered, peers, idx);
    hide TableOk, SlotOk, PeerOk;
    var c, dl := m.conns[idx], m.delivered[idx];
    assert dl + buf <= dl + Waiting(c);
  }

  lemma TableShape(conns: seq<Conn>, delivered: seq<seq<byte>>, peers: Key -> Peer)
    requires TableOk(conns, delivered, peers)
    ensures |conns| == MAX_CONNS == |delivered|
  {
  }

  /**
   * Any run. The log and the moments between its entries are a chain of steps from the
   * state before the run to the state after it. Whatever the network does, what each
   * reader got since its connection was opened is a prefix of what the peer sent, at every
   * gift, and the ring holds what comes next.
   */
  method Run(t: Endpoint, events: seq<Event>) returns (log: seq<Entry>, ghost moments: seq<Moment>)
    requires t.Valid() && forall e :: e in events ==> Possible(e, t.peers)
    modifies t
    ensures t.Valid() && |log| == |events| && Trace(t.peers, events, log, moments)
    ensures moments[0] == Moment(old(t.conns), old(t.delivered)) && moments[|log|] == Moment(t.conns, t.delivered)
    ensures t.delivered == FedAll(old(t.delivered), log)
    ensures AllRight(old(t.delivered), log, t.peers) && AllPrefixes(t.conns, t.delivered, t.peers)
  {
    hide TableOk, Possible, Step, AllRight, Fed, AllPrefixes;
    NoneGiven(t.delivered, t.peers);
    log, moments := [], [Moment(t.conns, t.delivered)];
    for k := 0 to |events|
      invariant t.Valid() && |log| == k && Trace(t.peers, events, log, moments)
      invariant moments[0] == Moment(old(t.conns), old(t.delivered)) && moments[k] == Moment(t.conns, t.delivered)
      invariant t.delivered == FedAll(old(t.delivered), log)
      invariant AllRight(old(t.delivered), log, t.peers)
    {
      var x := Serve(t, events[k]);
      TraceMore(t.peers, events, log, moments, x, Moment(t.conns, t.delivered));
      StepGift(moments[k], t.peers, events[k], x, Moment(t.conns, t.delivered));
      GiftsMore(t.peers, log, x, old(t.delivered));
      log, moments := log + [x], moments + [Moment(t.conns, t.delivered)];
    }
    PrefixesHold(t.conns, t.delivered, t.peers);
  }

  /** Every reader has a prefix of its peer's stream, and the ring holds what comes next. */
  ghost predicate AllPrefixes(conns: seq<Conn>, delivered: seq<seq<byte>>, peers: Key -> Peer) {
    |conns| == |delivered| && forall i :: 0 <= i < |conns| && conns[i].inUse ==>
      SeesPrefix(conns[i], delivered[i], peers(KeyOf(conns[i])))
  }

  lemma PrefixesHold(conns: seq<Conn>, delivered: seq<seq<byte>>, peers: Key -> Peer)
    requires TableOk(conns, delivered, peers)
    ensures AllPrefixes(conns, delivered, peers)
  {
    forall i | 0 <= i < |conns| && conns[i].inUse ensures SeesPrefix(conns[i], delivered[i], peers(KeyOf(conns[i]))) {
      SlotAt(conns, delivered, peers, i);
    }
  }

  /** Every gift of the log was right when it was made. */
  ghost predicate AllRight(first: seq<seq<byte>>, log: seq<Entry>, peers: Key -> Peer) {
    forall j :: 0 <= j < |log| ==> GiftRight(FedAll(first, log[..j]), log[j], peers)
  }

  lemma NoneGiven(first: seq<seq<byte>>, peers: Key -> Peer)
    ensures AllRight(first, [], peers)
  {
  }

  /** With what the reader of the connection already has, the gift is a prefix of the peer's stream. */
  ghost predicate GiftRight(delivered: seq<seq<byte>>, x: Entry, peers: Key -> Peer) {
    x.gift != [] ==>
      x.gift[0].idx < |delivered| && delivered[x.gift[0].idx] + x.gift[0].bytes <= peers(x.gift[0].key).stream
  }

  lemma TraceMore(peers: Key -> Peer, events: seq<Event>, log: seq<Entry>, ms: seq<Moment>, x: Entry, m: Moment)
    requires |log| < |events| && Trace(peers, events, log, ms) && Step(ms[|log|], peers, events[|log|], x, m)
      && Sound(m, peers)
    ensures Trace(peers, events, log + [x], ms + [m])
  {
    hide Step, Sound;
  }

  lemma GiftsMore(peers: Key -> Peer, log: seq<Entry>, x: Entry, first: seq<seq<byte>>)
    requires AllRight(first, log, peers) && GiftRight(FedAll(first, log), x, peers)
    ensures AllRight(first, log + [x], peers) && FedAll(first, log + [x]) == Fed(FedAll(first, log), x)
  {
    hide GiftRight, Fed;
    var log' := log + [x];
    assert log'[..|log|] == log;
    forall j | 0 <= j < |log'| ensures GiftRight(FedAll(first, log'[..j]), log'[j], peers) {
      if j < |log| {
        assert log'[..j] == log[..j];
      }
    }
  }

  lemma StepGift(m: Moment, peers: Key -> Peer, e: Event, x: Entry, m': Moment)
    requires Step(m, peers, e, x, m')
    ensures GiftRight(m.delivered, x, peers) && m'.delivered == Fed(m.delivered, x)
  {
    hide Fed, Reacts, Picked, Given;
  }

  /** The property the reader relies on, and where the next byte is expected. */
  ghost predicate SeesPrefix(c: Conn, delivered: seq<byte>, p: Peer) {
    && delivered <= p.stream && delivered + Waiting(c) <= p.stream
    && (c.state == Established ==> c.rcvNxt == (p.iss + 1 + |delivered| + c.count) % SEQ_SPACE)
  }

  // ----- a stream that arrives in order -----

  /** The slot is where segments of this peer go. */
  predicate Owner(conns: seq<Conn>, key: Key, idx: nat) {
    && idx < |conns| && conns[idx].inUse && KeyOf(conns[idx]) == key
    && forall k :: 0 <= k < idx ==> !(conns[k].inUse && KeyOf(conns[k]) == key)
  }

  /** The text an event brings from this peer. */
  function Text(e: Event, key: Key): seq<byte> { if e.Arrive? && SourceOf(e.s) == key then e.s.data else [] }

  /** The text of all segments of this peer, in the order of arrival. */
  function Texts(events: seq<Event>, key: Key): seq<byte> {
    if events == [] then [] else Texts(events[..|events| - 1], key) + Text(events[|events| - 1], key)
  }

  /** The event does not end the connection. */
  predicate KeepsOpen(e: Event, key: Key, idx: nat) {
    match e
    case Arrive(s) => SourceOf(s) == key ==> !s.fin && !s.rst
    case CloseBy(i) => i != idx
    case TimeOut(i, _) => i != idx
    case _ => true
  }

  /** The text is the next of the stream after `n` bytes, and the ring of `c` has room for it. */
  predicate NextText(e: Event, key: Key, iss: nat, n: nat, c: Conn) {
    e.Arrive? && SourceOf(e.s) == key && e.s.data != [] ==>
      e.s.seqNum == (iss + 1 + n) % 0x1_0000_0000 && |Waiting(c)| + |e.s.data| <= 4096
  }

  lemma {:induction false} TextsPrefix(events: seq<Event>, key: Key, n: nat)
    requires n < |events|
    ensures Texts(events[..n + 1], key) == Texts(events[..n], key) + Text(events[n], key)
  {
    assert events[..n + 1][..n] == events[..n];
  }

  lemma OthersRing(conns: seq<Conn>, i: nat, idx: nat)
    requires i < |conns| && idx < |conns| && i != idx
    ensures |Joined(conns, i)| == |conns|
    ensures var c, c' := conns[idx], Joined(conns, i)[idx];
            SameRing(c, c') && c'.state == c.state && c'.inUse == c.inUse && c'.rcvNxt == c.rcvNxt
  {
  }

  lemma TakesAll(c: Conn, s: Segment)
    requires BufferOk(c) && (s.data != [] ==> s.seqNum == c.rcvNxt && |Waiting(c)| + |s.data| <= 4096)
    ensures Taken(c, s) == s.data
  {
    HeldSize(c);
  }

  /** A segment of this peer goes to its slot. */
  lemma PickedOwner(conns: seq<Conn>, i: int, s: Segment, idx: nat)
    requires Picked(conns, i, s) && Owner(conns, SourceOf(s), idx)
    ensures i == idx
  {
    assert Addressed(conns[idx], s);
  }

  lemma PickedOther(conns: seq<Conn>, i: int, s: Segment, idx: nat)
    requires Picked(conns, i, s) && idx < |conns| && KeyOf(conns[idx]) != SourceOf(s) && conns[idx].state != Listen
    ensures i != idx
  {
  }

  /** An open connection, after an event that does not end it, has accepted exactly the text the event brought. */
  lemma TextStep(m: Moment, peers: Key -> Peer, e: Event, x: Entry, m': Moment, key: Key, idx: nat)
    requires Step(m, peers, e, x, m') && Sound(m, peers) && |m'.delivered| == MAX_CONNS == |m'.conns|
    requires Owner(m.conns, key, idx) && m.conns[idx].state == Established && idx < MAX_CONNS && KeepsOpen(e, key, idx)
    requires NextText(e, key, peers(key).iss, |Accepted(m.conns[idx], m.delivered[idx])|, m.conns[idx])
    ensures m'.conns[idx].state == Established && m'.conns[idx].inUse && KeyOf(m'.conns[idx]) == key
    ensures Accepted(m'.conns[idx], m'.delivered[idx])
         == Accepted(m.conns[idx], m.delivered[idx]) + Text(e, key)
  {
    hide SlotOk, ConnOk, PeerOk, Held, Reacts, Picked, FirstFree, TableOk;
    SlotAt(m.conns, m.delivered, peers, idx);
    TableShape(m.conns, m.delivered, peers);
    match e
    case Arrive(s) =>
      var i :| Picked(m.conns, i, s) && Reacts(m.conns, m.delivered, m'.conns, peers, i, s, x.acks, x.born);
      if SourceOf(s) == key {
        PickedOwner(m.conns, i, s, idx);
        OwnText(m, peers, s, x, m', key, idx);
      } else {
        PickedOther(m.conns, i, s, idx);
        OtherText(m, peers, s, x, m', i, idx);
      }
    case Passive(port) => OpensElsewhere(m.conns, m'.conns, x.born, Blank().(localPort := port, state := Listen), idx);
    case Active(ip, port, srcPort) =>
      OpensElsewhere(m.conns, m'.conns, x.born,
                     Blank().(localPort := srcPort, remoteIp := ip, remotePort := port, state := SynSent), idx);
    case Read(i, len) => ReadKeeps(m, peers, i, len, x, m', idx);
    case CloseBy(i) =>
    case TimeOut(i, expired) =>
  }

  lemma ReadKeeps(m: Moment, peers: Key -> Peer, i: nat, len: nat, x: Entry, m': Moment, idx: nat)
    requires Served(m, m', peers, i, len, x.gift) && m'.delivered == Fed(m.delivered, x) && x.born == -1
    requires |m.conns| == |m.delivered| == |m'.conns| == |m'.delivered| && idx < |m.conns|
    ensures var c, c' := m.conns[idx], m'.conns[idx];
            c'.state == c.state && c'.inUse == c.inUse && KeyOf(c') == KeyOf(c)
    ensures Accepted(m'.conns[idx], m'.delivered[idx]) == Accepted(m.conns[idx], m.delivered[idx])
  {
    hide Held;
  }

  lemma OpensElsewhere(conns: seq<Conn>, conns': seq<Conn>, born: int, c: Conn, idx: nat)
    requires OpensAs(conns, conns', born, c) && idx < |conns| && conns[idx].inUse
    ensures born != idx && idx < |conns'| && conns'[idx] == conns[idx]
  {
  }

  lemma OwnText(m: Moment, peers: Key -> Peer, s: Segment, x: Entry, m': Moment, key: Key, idx: nat)
    requires |m.conns| == |m.delivered| == |m'.delivered| && idx < |m.conns| && KeyOf(m.conns[idx]) == key
      && m.conns[idx].inUse && m.conns[idx].state == Established && !s.fin && !s.rst && x.gift == []
    requires Reacts(m.conns, m.delivered, m'.conns, peers, idx, s, x.acks, x.born)
    requires m'.delivered == Fed(m.delivered, x) && ConnOk(m.conns[idx], m.delivered[idx], peers(key))
    requires s.data != [] ==>
      s.seqNum == (peers(key).iss + 1 + |Accepted(m.conns[idx], m.delivered[idx])|) % 0x1_0000_0000
      && |Waiting(m.conns[idx])| + |s.data| <= 4096
    ensures idx < |m'.conns| && m'.conns[idx].state == Established && m'.conns[idx].inUse
      && KeyOf(m'.conns[idx]) == key
    ensures Accepted(m'.conns[idx], m'.delivered[idx]) == Accepted(m.conns[idx], m.delivered[idx]) + s.data
    ensures m'.delivered[idx] == m.delivered[idx]
  {
    hide Waiting, Complete, FinInOrder, Taken, RingOk;
    TakesAll(m.conns[idx], s);
  }

  lemma OtherText(m: Moment, peers: Key -> Peer, s: Segment, x: Entry, m': Moment, i: int, idx: nat)
    requires |m.conns| == |m.delivered| == |m'.delivered| && idx < |m.conns| && i != idx
      && m.conns[idx].inUse && m.conns[idx].state == Established && x.gift == []
    requires Reacts(m.conns, m.delivered, m'.conns, peers, i, s, x.acks, x.born)
    requires m'.delivered == Fed(m.delivered, x)
    ensures idx < |m'.conns| && m'.conns[idx].state == Established && m'.conns[idx].inUse
      && KeyOf(m'.conns[idx]) == KeyOf(m.conns[idx])
    ensures Accepted(m'.conns[idx], m'.delivered[idx]) == Accepted(m.conns[idx], m.delivered[idx])
  {
    hide Held, Taken, Complete, FinInOrder, Joined, Acked, Closing;
    if 0 <= i < |m.conns| && m.conns[i].state == SynReceived {
      OthersRing(m.conns, i, idx);
    }
  }

  /**
   * A run in which the text of one peer arrives in order and the reader keeps up, so that each
   * text finds room: whatever else goes on, every byte is accepted.
   */
  lemma {:induction false} InOrderAccepted(peers: Key -> Peer, events: seq<Event>, log: seq<Entry>, ms: seq<Moment>,
                                           key: Key, idx: nat, n: nat)
    requires Trace(peers, events, log, ms) && n <= |log| && idx < MAX_CONNS
    requires forall j :: 0 <= j < n ==> |ms[j].conns| == MAX_CONNS && Owner(ms[j].conns, key, idx)
    requires |ms[0].conns| == |ms[0].delivered| == MAX_CONNS && Owner(ms[0].conns, key, idx)
      && ms[0].conns[idx].state == Established && Accepted(ms[0].conns[idx], ms[0].delivered[idx]) == []
    requires forall j :: 0 <= j < n ==>
      KeepsOpen(events[j], key, idx)
      && NextText(events[j], key, peers(key).iss, |Texts(events[..j], key)|, ms[j].conns[idx])
    ensures |ms[n].conns| == |ms[n].delivered| == MAX_CONNS && ms[n].conns[idx].state == Established
      && ms[n].conns[idx].inUse && KeyOf(ms[n].conns[idx]) == key
    ensures Accepted(ms[n].conns[idx], ms[n].delivered[idx]) == Texts(events[..n], key)
  {
    hide Step, Owner, KeepsOpen, NextText, Accepted, TableOk, Texts;
    assert Sound(ms[n], peers);
    TableShape(ms[n].conns, ms[n].delivered, peers);
    if n > 0 {
      InOrderAccepted(peers, events, log, ms, key, idx, n - 1);
      TextsPrefix(events, key, n - 1);
      assert Sound(ms[n - 1], peers);
      TextStep(ms[n - 1], peers, events[n - 1], log[n - 1], ms[n], key, idx);
    } else {
      NoTexts(events, key);
      OwnerIs(ms[0].conns, key, idx);
    }
  }

  lemma NoTexts(events: seq<Event>, key: Key)
    ensures Texts(events[..0], key) == []
  {
  }

  lemma OwnerIs(conns: seq<Conn>, key: Key, idx: nat)
    requires Owner(conns, key, idx)
    ensures idx < |conns| && conns[idx].inUse && KeyOf(conns[idx]) == key
  {
  }

  /** So a reader that has emptied the ring when the whole stream has arrived has got the whole stream. */
  lemma WholeStream(peers: Key -> Peer, events: seq<Event>, log: seq<Entry>, ms: seq<Moment>, key: Key, idx: nat)
    requires Trace(peers, events, log, ms) && |log| == |events| && idx < MAX_CONNS
    requires forall j :: 0 <= j < |log| ==> |ms[j].conns| == MAX_CONNS && Owner(ms[j].conns, key, idx)
    requires |ms[0].conns| == |ms[0].delivered| == MAX_CONNS && Owner(ms[0].conns, key, idx)
      && ms[0].conns[idx].state == Established && Accepted(ms[0].conns[idx], ms[0].delivered[idx]) == []
    requires forall j :: 0 <= j < |log| ==>
      KeepsOpen(events[j], key, idx)
      && NextText(events[j], key, peers(key).iss, |Texts(events[..j], key)|, ms[j].conns[idx])
    requires Texts(events, key) == peers(key).stream
    ensures |ms[|log|].conns| == |ms[|log|].delivered| == MAX_CONNS
    ensures var c, dl := ms[|log|].conns[idx], ms[|log|].delivered[idx];
            dl + Waiting(c) == peers(key).stream && (c.count == 0 ==> dl == peers(key).stream)
  {
    hide Step, Owner, KeepsOpen, NextText, Texts, Sound;
    InOrderAccepted(peers, events, log, ms, key, idx, |log|);
    assert events[..|log|] == events;
  }

  // ----- how connections begin and end -----

  lemma ArrivesAt(m: Moment, peers: Key -> Peer, s: Segment, x: Entry, m': Moment, idx: nat)
    requires Step(m, peers, Arrive(s), x, m') && Owner(m.conns, SourceOf(s), idx)
    ensures x.gift == [] && Reacts(m.conns, m.delivered, m'.conns, peers, idx, s, x.acks, x.born)
  {
    hide Reacts;
    var i :| Picked(m.conns, i, s) && Reacts(m.conns, m.delivered, m'.conns, peers, i, s, x.acks, x.born);
    PickedOwner(m.conns, i, s, idx);
  }

  /** A connection closed from here: the peer's acknowledgement, its FIN, and time to wait free the slot. */
  lemma ClosesFirst(m0: Moment, m1: Moment, m2: Moment, m3: Moment, m4: Moment, peers: Key -> Peer, idx: nat,
                    ack: Segment, fin: Segment, x0: Entry, x1: Entry, x2: Entry, x3: Entry)
    requires Step(m0, peers, CloseBy(idx), x0, m1) && Step(m1, peers, Arrive(ack), x1, m2)
      && Step(m2, peers, Arrive(fin), x2, m3) && Step(m3, peers, TimeOut(idx, true), x3, m4)
    requires SourceOf(ack) == SourceOf(fin) && ack.ack && !ack.fin && fin.fin
    requires Owner(m0.conns, SourceOf(fin), idx) && m0.conns[idx].state == Established
    ensures idx < |m1.conns| == |m2.conns| == |m3.conns| == |m4.conns|
    ensures m1.conns[idx].state == FinWait1 && m2.conns[idx].state == FinWait2 && m3.conns[idx].state == TimeWait
    ensures x2.acks == [(fin.seqNum + 1) % 0x1_0000_0000] && !m4.conns[idx].inUse
  {
    hide Reacts, Waiting;
    assert Owner(m1.conns, SourceOf(fin), idx);
    ArrivesAt(m1, peers, ack, x1, m2, idx);
    FinWaits(m1, peers, ack, x1, m2, idx);
    assert Owner(m2.conns, SourceOf(fin), idx);
    ArrivesAt(m2, peers, fin, x2, m3, idx);
    FinWaits(m2, peers, fin, x2, m3, idx);
  }

  /** The two states that wait for a FIN. */
  lemma FinWaits(m: Moment, peers: Key -> Peer, s: Segment, x: Entry, m': Moment, idx: nat)
    requires idx < |m.conns| && Reacts(m.conns, m.delivered, m'.conns, peers, idx, s, x.acks, x.born)
    requires m.conns[idx].state == FinWait1 || m.conns[idx].state == FinWait2
    ensures idx < |m'.conns| == |m.conns| && m'.conns == m.conns[idx := m'.conns[idx]]
    ensures var c, c' := m.conns[idx], m'.conns[idx];
            && c'.inUse == c.inUse && KeyOf(c') == KeyOf(c)
            && (s.fin ==> c'.state == TimeWait && x.acks == [(s.seqNum + 1) % 0x1_0000_0000])
            && (!s.fin && (s.ack || c.state == FinWait2) ==> c'.state == FinWait2)
  {
  }

  /** A connection the peer closes: its FIN ends the stream; closing here and its acknowledgement free the slot. */
  lemma ClosesSecond(m0: Moment, m1: Moment, m2: Moment, m3: Moment, peers: Key -> Peer, idx: nat, fin: Segment,
                     ack: Segment, x0: Entry, x1: Entry, x2: Entry)
    requires Step(m0, peers, Arrive(fin), x0, m1) && Step(m1, peers, CloseBy(idx), x1, m2)
      && Step(m2, peers, Arrive(ack), x2, m3)
    requires SourceOf(ack) == SourceOf(fin) && ack.ack && fin.fin && !fin.rst
    requires Owner(m0.conns, SourceOf(fin), idx) && m0.conns[idx].state == Established
    ensures idx < |m1.conns| == |m2.conns| == |m3.conns|
    ensures m1.conns[idx].state == CloseWait && m1.conns[idx].eof && m2.conns[idx].state == LastAck
    ensures !m3.conns[idx].inUse
  {
    hide Waiting, Complete, FinInOrder, Taken;
    ArrivesAt(m0, peers, fin, x0, m1, idx);
    assert Owner(m1.conns, SourceOf(fin), idx);
    assert Owner(m2.conns, SourceOf(fin), idx);
    ArrivesAt(m2, peers, ack, x2, m3, idx);
  }

  /** The listener on the port, when nobody has the key of the segment. */
  predicate Listener(conns: seq<Conn>, s: Segment, idx: nat) {
    && idx < |conns| && ListensFor(conns[idx], s) && (forall k :: 0 <= k < idx ==> !ListensFor(conns[k], s))
    && forall k :: 0 <= k < |conns| ==> !Addressed(conns[k], s)
  }

  /**
   * The three-way handshake: a SYN takes the first free slot and is answered with the next
   * number; the acknowledgement establishes the connection and queues it for accept.
   */
  lemma Handshake(m0: Moment, m1: Moment, m2: Moment, peers: Key -> Peer, idx: nat, syn: Segment, ack: Segment,
                  x0: Entry, x1: Entry)
    requires Step(m0, peers, Arrive(syn), x0, m1) && Step(m1, peers, Arrive(ack), x1, m2)
    requires SourceOf(ack) == SourceOf(syn) && syn.syn && ack.ack && Listener(m0.conns, syn, idx)
    requires exists i :: 0 <= i < |m0.conns| && !m0.conns[i].inUse
    requires m0.conns[idx].queueCount < 4 && m0.conns[idx].queueTail < 4 == |m0.conns[idx].queue|
    ensures 0 <= x0.born < |m0.conns| == |m1.conns| == |m2.conns| && FirstFree(m0.conns, x0.born) && x0.born != idx
    ensures x0.acks == [(syn.seqNum + 1) % 0x1_0000_0000]
    ensures var c := m2.conns[x0.born];
            && c.inUse && c.state == Established && KeyOf(c) == SourceOf(syn) && Waiting(c) == []
            && c.rcvNxt == (syn.seqNum + 1) % 0x1_0000_0000
    ensures var l, l' := m0.conns[idx], m2.conns[idx];
            l' == l.(queue := l.queue[l.queueTail := x0.born], queueTail := (l.queueTail + 1) % 4,
                     queueCount := l.queueCount + 1)
  {
    var i :| Picked(m0.conns, i, syn) && Reacts(m0.conns, m0.delivered, m1.conns, peers, i, syn, x0.acks, x0.born);
    assert i == idx by { PickedListener(m0.conns, i, syn, idx); }
    var n := x0.born;
    assert m1.conns == m0.conns[n := Newborn(syn, idx)];
    assert Owner(m1.conns, SourceOf(syn), n) by {
      assert KeyOf(m1.conns[n]) == SourceOf(syn);
      forall k | 0 <= k < n ensures !(m1.conns[k].inUse && KeyOf(m1.conns[k]) == SourceOf(syn)) {
        assert !Addressed(m0.conns[k], syn);
      }
    }
    hide Picked;
    ArrivesAt(m1, peers, ack, x1, m2, n);
    assert m2.conns == Joined(m1.conns, n);
  }

  lemma PickedListener(conns: seq<Conn>, i: int, s: Segment, idx: nat)
    requires Picked(conns, i, s) && Listener(conns, s, idx)
    ensures i == idx
  {
  }

  // ----- every run is determined -----

  /** A connection with the bytes it holds in place of its ring. */
  function Plain(c: Conn): Conn { c.(rx := Waiting(c), readPos := 0, writePos := 0) }

  /** The tables differ at most in where bytes lie in the rings. */
  ghost predicate Alike(m: Moment, n: Moment) {
    && m.delivered == n.delivered && |m.conns| == |n.conns|
    && forall i :: 0 <= i < |m.conns| ==> Plain(m.conns[i]) == Plain(n.conns[i])
  }

  lemma PickedAlike(m: Moment, n: Moment, s: Segment, i: int, j: int)
    requires Alike(m, n) && Picked(m.conns, i, s) && Picked(n.conns, j, s)
    ensures i == j
  {
    hide Waiting;
    forall k | 0 <= k < |m.conns|
      ensures Addressed(m.conns[k], s) == Addressed(n.conns[k], s)
        && ListensFor(m.conns[k], s) == ListensFor(n.conns[k], s)
    {
      assert Plain(m.conns[k]) == Plain(n.conns[k]);
    }
  }

  lemma FreeAlike(m: Moment, n: Moment, i: int, j: int)
    requires Alike(m, n) && FirstFree(m.conns, i) && FirstFree(n.conns, j)
    ensures i == j
  {
    hide Waiting;
    forall k | 0 <= k < |m.conns| ensures m.conns[k].inUse == n.conns[k].inUse {
      assert Plain(m.conns[k]) == Plain(n.conns[k]);
    }
  }

  /** The same connection in the same slot of both. */
  lemma PutAlike(m: Moment, n: Moment, i: nat, c: Conn, d: Conn, dl: seq<seq<byte>>)
    requires Alike(m, n) && i < |m.conns| && Plain(c) == Plain(d)
    ensures Alike(Moment(m.conns[i := c], dl), Moment(n.conns[i := d], dl))
  {
    hide Plain;
  }

  lemma PlainHandled(m: Moment, n: Moment, peers: Key -> Peer, m': Moment, n': Moment, i: nat, s: Segment)
    requires Alike(m, n) && i < |m.conns|
    requires Handled(m.conns, m'.conns, m.delivered, peers, i, s)
      && Handled(n.conns, n'.conns, n.delivered, peers, i, s)
    ensures Plain(m'.conns[i]) == Plain(n'.conns[i]) && Acked(m.conns, m'.conns, i, s) == Acked(n.conns, n'.conns, i, s)
  {
    hide Complete, FinInOrder, Held;
    var c, d, c', d', dl := m.conns[i], n.conns[i], m'.conns[i], n'.conns[i], m.delivered[i];
    assert Plain(c) == Plain(d);
    assert Taken(c, s) == Taken(d, s) && NextSeq(c, s) == NextSeq(d, s);
    assert Waiting(c') == (dl + Waiting(c'))[|dl|..] == (dl + Waiting(d'))[|dl|..] == Waiting(d');
    assert |Waiting(c')| == c'.count && |Waiting(d')| == d'.count;
  }

  lemma PlainGiven(m: Moment, n: Moment, m': Moment, n': Moment, i: nat, a: seq<byte>, b: seq<byte>)
    requires Alike(m, n) && |a| == |b|
    requires Given(m.conns, m.delivered, m'.conns, m'.delivered, i, a)
      && Given(n.conns, n.delivered, n'.conns, n'.delivered, i, b)
    ensures a == b && Alike(m', n')
  {
    hide Held;
    var c, d, c', d' := m.conns[i], n.conns[i], m'.conns[i], n'.conns[i];
    assert Plain(c) == Plain(d);
    var w := Waiting(c);
    assert a == w[..|a|] == b && Waiting(c') == w[|a|..] == Waiting(d');
    assert |Waiting(c')| == c'.count && |Waiting(d')| == d'.count;
    PutAlike(m, n, i, c', d', m'.delivered);
    assert m'.conns == m.conns[i := c'] && n'.conns == n.conns[i := d'];
  }

  lemma PlainJoined(m: Moment, n: Moment, i: nat)
    requires Alike(m, n) && i < |m.conns|
    ensures Alike(m.(conns := Joined(m.conns, i)), n.(conns := Joined(n.conns, i)))
  {
    hide Held;
    var q := m.conns[i].parent;
    assert Plain(m.conns[i]) == Plain(n.conns[i]);
    if 0 <= q < |m.conns| {
      assert Plain(m.conns[q]) == Plain(n.conns[q]);
    }
  }

  lemma MovesAlike(m: Moment, n: Moment, peers: Key -> Peer, s: Segment, i: int, acks: seq<nat>, acks2: seq<nat>,
                   m': Moment, n': Moment)
    requires Alike(m, n) && m'.delivered == n'.delivered
    requires Moves(m.conns, m.delivered, m'.conns, peers, i, s, acks)
      && Moves(n.conns, n.delivered, n'.conns, peers, i, s, acks2)
    ensures acks == acks2 && Alike(m', n')
  {
    hide Held, Handled, Joined, Acked;
    if 0 <= i < |m.conns| {
      var c, d := m.conns[i], n.conns[i];
      assert Plain(c) == Plain(d);
      if c.state == SynReceived {
        PlainJoined(m, n, i);
      } else if c.state == SynSent {
        PutAlike(m, n, i, Synced(c, s), Synced(d, s), m'.delivered);
      } else if c.state == Established {
        PlainHandled(m, n, peers, m', n', i, s);
        HandledPut(m.conns, m'.conns, m.delivered, peers, i, s);
        HandledPut(n.conns, n'.conns, n.delivered, peers, i, s);
        PutAlike(m, n, i, m'.conns[i], n'.conns[i], m'.delivered);
      } else {
        PutAlike(m, n, i, Closing(c, s), Closing(d, s), m'.delivered);
      }
    }
  }

  lemma HandledPut(conns: seq<Conn>, conns': seq<Conn>, delivered: seq<seq<byte>>, peers: Key -> Peer, i: nat,
                   s: Segment)
    requires Handled(conns, conns', delivered, peers, i, s)
    ensures i < |conns| == |conns'| && conns' == conns[i := conns'[i]]
  {
    hide Complete, FinInOrder, Held;
  }

  lemma ArrivedAlike(m: Moment, n: Moment, peers: Key -> Peer, s: Segment, x: Entry, y: Entry, m': Moment, n': Moment)
    requires Alike(m, n) && Arrived(m, m', peers, s, x) && Arrived(n, n', peers, s, y)
    requires m'.delivered == Fed(m.delivered, x) && n'.delivered == Fed(n.delivered, y)
    ensures x == y && Alike(m', n')
  {
    hide Picked, Moves, Held, FirstFree;
    var i :| Picked(m.conns, i, s) && Reacts(m.conns, m.delivered, m'.conns, peers, i, s, x.acks, x.born);
    var j :| Picked(n.conns, j, s) && Reacts(n.conns, n.delivered, n'.conns, peers, j, s, y.acks, y.born);
    PickedAlike(m, n, s, i, j);
    if 0 <= i < |m.conns| {
      assert Plain(m.conns[i]) == Plain(n.conns[i]);
    }
    if 0 <= i < |m.conns| && m.conns[i].state == Listen {
      SomeFree(m, n);
      if x.born >= 0 {
        FreeAlike(m, n, x.born, y.born);
        PutAlike(m, n, x.born, Newborn(s, i), Newborn(s, i), m'.delivered);
      }
    } else {
      MovesAlike(m, n, peers, s, i, x.acks, y.acks, m', n');
    }
  }

  lemma SomeFree(m: Moment, n: Moment)
    requires Alike(m, n)
    ensures (exists i :: 0 <= i < |m.conns| && !m.conns[i].inUse) <==>
      (exists i :: 0 <= i < |n.conns| && !n.conns[i].inUse)
  {
    hide Waiting;
    forall k | 0 <= k < |m.conns| ensures m.conns[k].inUse == n.conns[k].inUse {
      assert Plain(m.conns[k]) == Plain(n.conns[k]);
    }
  }

  lemma OpensAlike(m: Moment, n: Moment, i: int, j: int, c: Conn, m': Moment, n': Moment)
    requires Alike(m, n) && OpensAs(m.conns, m'.conns, i, c) && OpensAs(n.conns, n'.conns, j, c)
    ensures i == j && (m'.delivered == n'.delivered ==> Alike(m', n'))
  {
    hide FirstFree, Plain;
    FreeAlike(m, n, i, j);
    if 0 <= i < |m.conns| {
      PutAlike(m, n, i, c, c, m'.delivered);
    }
  }

  /** An event has one outcome: the same entry of the log, and tables that are alike. */
  lemma StepDetermined(m: Moment, n: Moment, peers: Key -> Peer, e: Event, x: Entry, y: Entry, m': Moment, n': Moment)
    requires Alike(m, n) && Step(m, peers, e, x, m') && Step(n, peers, e, y, n')
    ensures x == y && Alike(m', n')
  {
    hide Arrived, Held, OpensAs, Given;
    match e
    case Arrive(s) => ArrivedAlike(m, n, peers, s, x, y, m', n');
    case Passive(port) => OpensAlike(m, n, x.born, y.born, Blank().(localPort := port, state := Listen), m', n');
    case Active(ip, port, srcPort) =>
      OpensAlike(m, n, x.born, y.born,
                 Blank().(localPort := srcPort, remoteIp := ip, remotePort := port, state := SynSent), m', n');
    case Read(i, len) =>
      if i < |m.conns| {
        assert Plain(m.conns[i]) == Plain(n.conns[i]);
      }
      if Readable(m.conns, i) && i < |m.delivered| {
        PlainGiven(m, n, m', n', i, x.gift[0].bytes, y.gift[0].bytes);
        assert x.gift == [x.gift[0]] && y.gift == [y.gift[0]];
      }
    case CloseBy(i) =>
      if i < |m.conns| {
        assert Plain(m.conns[i]) == Plain(n.conns[i]);
        PutAlike(m, n, i, Shut(m.conns[i]), Shut(n.conns[i]), m'.delivered);
      }
    case TimeOut(i, expired) =>
      if i < |m.conns| {
        assert Plain(m.conns[i]) == Plain(n.conns[i]);
        PutAlike(m, n, i, m.conns[i].(state := Closed, inUse := !expired),
                 n.conns[i].(state := Closed, inUse := !expired), m'.delivered);
      }
  }

  /** So the events determine every acknowledgement, every byte given and every connection of a run. */
  lemma {:induction false} RunDetermined(peers: Key -> Peer, events: seq<Event>, log: seq<Entry>, ms: seq<Moment>,
                                         log2: seq<Entry>, ns: seq<Moment>, k: nat)
    requires Trace(peers, events, log, ms) && Trace(peers, events, log2, ns) && Alike(ms[0], ns[0])
    requires k <= |log| && k <= |log2|
    ensures log[..k] == log2[..k] && Alike(ms[k], ns[k])
  {
    hide Step, Alike, Sound;
    if k > 0 {
      RunDetermined(peers, events, log, ms, log2, ns, k - 1);
      StepDetermined(ms[k - 1], ns[k - 1], peers, events[k - 1], log[k - 1], log2[k - 1], ms[k], ns[k]);
      assert log[..k] == log[..k - 1] + [log[k - 1]] && log2[..k] == log2[..k - 1] + [log2[k - 1]];
    }
  }

  // ----- a stream cut short -----

  /** A connection opened from here, with the peer's SYN received and nothing more. */
  method Connected(ghost p: Peer, iss: nat) returns (e: Endpoint)
    requires PeerOk(p) && p.iss == iss
    ensures fresh(e) && e.Valid() && |e.conns| == |e.delivered| == MAX_CONNS && forall k :: e.peers(k) == p
    ensures var c := e.conns[0];
            && c.inUse && c.state == Established && KeyOf(c) == Key(0, 0, 0) && c.rcvNxt == SeqOf(p, 0)
            && Accepted(c, e.delivered[0]) == []
  {
    hide SlotOk, ConnOk, PeerOk, AllExtend, Listened, Closing, Joined, Acked, Handled;
    e := new Endpoint(k => p);
    assert !e.conns[0].inUse;
    var idx := e.OpenActive(0, 0, 0);
    var syn := Segment(0, 0, 0, iss, true, true, false, false, []);
    assert Addressed(e.conns[0], syn);
    assert iss < SEQ_SPACE by { SeqBelow(p); }
    var acks, born;
    ghost var got;
    acks, born, got := e.Receive(syn);
    assert got == 0;
    assert Waiting(e.conns[0]) == [];
  }

  /** The reader of slot 0 has read the first `n` bytes of the stream, and nothing waits. */
  ghost predicate ReadSoFar(e: Endpoint, p: Peer, n: nat)
    reads e
  {
    && e.Valid() && |e.conns| == |e.delivered| == MAX_CONNS && (forall k :: e.peers(k) == p) && n <= |p.stream|
    && Owner(e.conns, Key(0, 0, 0), 0) && e.conns[0].state == Established && Waiting(e.conns[0]) == []
    && e.delivered[0] == p.stream[..n]
  }

  /** A segment with the next text of the stream, and a read. */
  method Exchange(e: Endpoint, ghost p: Peer, iss: nat, n: nat, text: seq<byte>) returns (buf: seq<byte>)
    requires PeerOk(p) && p.iss == iss && ReadSoFar(e, p, n)
    requires n + |text| <= |p.stream| && text == p.stream[n..n + |text|] && |text| <= 4096
    modifies e
    ensures ReadSoFar(e, p, n + |text|) && buf == text
  {
    hide SlotOk, ConnOk, PeerOk, TableOk, AllExtend, Listened, Closing, Joined, Acked, Held, Picked, Reacts, Genuine,
         RingOk;
    if text == [] {
      return [];
    }
    var s := Segment(0, 0, 0, (iss + 1 + n) % 0x1_0000_0000, false, true, false, false, text);
    assert Carries(s, p, n);
    assert Genuine(s, p) by { TextGenuine(s, p, n); }
    ghost var m := Moment(e.conns, e.delivered);
    SlotAt(m.conns, m.delivered, e.peers, 0);
    var acks, born;
    ghost var i;
    acks, born, i := e.Receive(s);
    PickedOwner(m.conns, i, s, 0);
    ghost var x := Entry([], acks, born);
    OwnText(m, e.peers, s, x, Moment(e.conns, e.delivered), Key(0, 0, 0), 0);
    TableShape(e.conns, e.delivered, e.peers);
    SlotAt(e.conns, e.delivered, e.peers, 0);
    HeldSize(e.conns[0]);
    assert Waiting(e.conns[0]) == Accepted(e.conns[0], e.delivered[0])[n..] == text;
    ghost var c := e.conns[0];
    buf := e.Recv(0, 4096);
    SlotAt(e.conns, e.delivered, e.peers, 0);
    HeldSize(e.conns[0]);
    assert Waiting(c) == buf + Waiting(e.conns[0]) && |buf| == |text|;
    assert p.stream[..n] + text == p.stream[..n + |text|];
  }

  lemma TextGenuine(s: Segment, p: Peer, off: nat)
    requires Carries(s, p, off) && s.seqNum < SEQ_SPACE && !s.syn
    ensures Genuine(s, p)
  {
  }

  /** The texts of a stream cut into segments. */
  function Joint(chunks: seq<seq<byte>>): seq<byte> {
    if chunks == [] then [] else Joint(chunks[..|chunks| - 1]) + chunks[|chunks| - 1]
  }

  lemma {:induction false} JointPrefix(chunks: seq<seq<byte>>, k: nat)
    requires k <= |chunks|
    ensures Joint(chunks[..k]) <= Joint(chunks)
    decreases |chunks| - k
  {
    if k < |chunks| {
      JointPrefix(chunks, k + 1);
      assert chunks[..k + 1][..k] == chunks[..k];
    } else {
      assert chunks[..k] == chunks;
    }
  }

  /** A peer sends its stream in segments of any sizes the ring can hold; the reader gets all of it. */
  method Download(iss: nat, chunks: seq<seq<byte>>) returns (got: seq<byte>)
    requires iss < SEQ_SPACE && |Joint(chunks)| < SEQ_SPACE && forall k :: 0 <= k < |chunks| ==> |chunks[k]| <= 4096
    ensures got == Joint(chunks)
  {
    hide TableOk, Genuine, Reacts, Picked;
    ghost var p := Peer(iss, Joint(chunks));
    var e := Connected(p, iss);
    got := [];
    assert e.delivered[0] == [] && Waiting(e.conns[0]) == [];
    for k := 0 to |chunks|
      invariant got == Joint(chunks[..k]) <= p.stream && ReadSoFar(e, p, |got|)
    {
      JointPrefix(chunks, k + 1);
      assert chunks[..k + 1][..k] == chunks[..k];
      var buf := Exchange(e, p, iss, |got|, chunks[k]);
      got := got + buf;
    }
    assert chunks[..|chunks|] == chunks;
  }

  lemma SeqBelow(p: Peer)
    requires PeerOk(p)
    ensures p.iss < SEQ_SPACE
  {
  }

  /**
   * A FIN that overtakes text: the peer sends two bytes, and the segment with the second
   * and the FIN comes first. The reader is told of the end of the stream, and has nothing.
   */
  method FinOvertakes(b: byte, iss: nat) returns (e: Endpoint)
    requires iss < SEQ_SPACE
    ensures e.Valid() && |e.conns| == |e.delivered| == MAX_CONNS && e.conns[0].inUse
    ensures e.conns[0].eof && Accepted(e.conns[0], e.delivered[0]) == []
    ensures !Complete(e.conns[0], e.delivered[0], e.peers(KeyOf(e.conns[0])))
  {
    hide SlotOk, ConnOk, AllExtend, Listened, Closing, Joined, Acked, Waiting;
    ghost var p := Peer(iss, [b, b]);
    e := Connected(p, iss);
    var fin := Segment(0, 0, 0, (iss + 2) % SEQ_SPACE, false, true, true, false, [b]);
    assert Carries(fin, p, 1);
    assert Addressed(e.conns[0], fin);
    var acks, born;
    ghost var got;
    acks, born, got := e.Receive(fin);
    assert got == 0;
  }
}
