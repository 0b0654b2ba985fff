/** The helpers that move a queue pair record over a TCP socket: loops that carry on after short writes, short
    reads and interrupted calls, and the record as the bytes of its C structure on a little-endian host. */
module Tcp {

  import opened Exchange

  type U32 = x: int | 0 <= x < 0x1_0000_0000

  /** struct qp_info; gid holds its 16 bytes. */
  datatype QpInfo = QpInfo(qpNum: U32, lid: U32, psn: U32, gid: seq<Byte>)

  const QP_INFO_SIZE: nat := 32

  function Put32(x: U32): (b: seq<Byte>)
    ensures |b| == 4
  {
    [x % 256, x / 256 % 256, x / 65536 % 256, x / 16777216]
  }

  function Get32(b: seq<Byte>): U32
    requires |b| == 4
  {
    var w: seq<int> := b;
    w[0] + 256 * w[1] + 65536 * w[2] + 16777216 * w[3]
  }

  /** The bytes of the structure: three words, a zero word of padding, and the GID. */
  function Encode(info: QpInfo): (b: seq<Byte>)
    requires |info.gid| == 16
    ensures |b| == QP_INFO_SIZE
  {
    Put32(info.qpNum) + Put32(info.lid) + Put32(info.psn) + Put32(0) + info.gid
  }

  function Decode(b: seq<Byte>): (info: QpInfo)
    requires |b| == QP_INFO_SIZE
    ensures |info.gid| == 16
  {
    QpInfo(Get32(b[0..4]), Get32(b[4..8]), Get32(b[8..12]), b[16..])
  }

  lemma Digit(x: nat, q: nat, m: nat)
    requires m == 256 && q == x / m
    ensures x == x % m + m * q
  {
  }

  lemma WordRoundTrip(x: U32)
    ensures Get32(Put32(x)) == x
  {
    var a, b, c := x / 256, x / 65536, x / 16777216;
    Digit(x, a, 256);
    Digit(a, b, 256);
    Digit(b, c, 256);
  }

  /** The four bytes at an offset are x, least significant byte first. */
  ghost predicate WordAt(b: seq<Byte>, off: nat, x: U32)
    requires off + 4 <= |b|
  {
    var w: seq<int> := b;
    w[off] + 256 * w[off + 1] + 65536 * w[off + 2] + 16777216 * w[off + 3] == x
  }

  /** Where the fields are in the bytes that go over the socket. */
  lemma RecordLayout(info: QpInfo)
    requires |info.gid| == 16
    ensures var b := Encode(info);
      && |b| == 32 && WordAt(b, 0, info.qpNum) && WordAt(b, 4, info.lid) && WordAt(b, 8, info.psn)
      && b[12..16] == [0, 0, 0, 0] && b[16..] == info.gid
  {
    WordRoundTrip(info.qpNum);
    WordRoundTrip(info.lid);
    WordRoundTrip(info.psn);
    var b := Encode(info);
    assert b[0..4] == Put32(info.qpNum);
    assert b[4..8] == Put32(info.lid);
    assert b[8..12] == Put32(info.psn);
    assert b[12..16] == Put32(0);
    hide Put32;
  }

  /** The peer reads back the record that was written. */
  lemma RecordRoundTrip(info: QpInfo)
    requires |info.gid| == 16
    ensures Decode(Encode(info)) == info
  {
    var b := Encode(info);
    assert b[0..4] == Put32(info.qpNum);
    assert b[4..8] == Put32(info.lid);
    assert b[8..12] == Put32(info.psn);
    assert b[16..] == info.gid;
    WordRoundTrip(info.qpNum);
    WordRoundTrip(info.lid);
    WordRoundTrip(info.psn);
  }

  /** A connected stream socket.  inbound is everything the peer sends on it that has not been read yet. */
  class Socket {
    var outbound: seq<Byte>
    var inbound: seq<Byte>
    var failed: bool               // some call failed for another reason than an interruption
    var interrupts: nat            // how many more calls may be interrupted

    constructor (inbound: seq<Byte>, interrupts: nat)
      ensures this.inbound == inbound && outbound == [] && !failed
    {
      this.inbound, this.interrupts, outbound, failed := inbound, interrupts, [], false;
    }

    /** write(2): accepts any positive number of bytes, or fails, or is interrupted. */
    method Write(p: seq<Byte>) returns (n: int, interrupted: bool)
      requires p != []
      modifies this
      ensures inbound == old(inbound) && n <= |p|
      ensures outbound == if n > 0 then old(outbound) + p[..n] else old(outbound)
      ensures interrupted ==> n < 0 && interrupts < old(interrupts)
      ensures failed == (old(failed) || (n <= 0 && !interrupted))
    {
      interrupted := false;
      n :| n <= |p|;
      if n > 0 {
        outbound := outbound + p[..n];
      } else {
        var signal: bool := *;
        if n < 0 && signal && interrupts > 0 {
          interrupted, interrupts := true, interrupts - 1;
        } else {
          failed := true;
        }
      }
    }

    /** read(2) into buf[off..]: delivers any positive number of bytes in order, or 0 when the peer has closed
        the connection, or fails, or is interrupted. */
    method Read(buf: array<Byte>, off: nat) returns (n: int, interrupted: bool)
      requires off < buf.Length
      modifies this, buf
      ensures outbound == old(outbound) && n <= buf.Length - off
      ensures n > 0 ==> n <= |old(inbound)| && inbound == old(inbound)[n..]
      ensures n > 0 ==> buf[..] == old(buf[..])[..off] + old(inbound)[..n] + old(buf[..])[off + n..]
      ensures n <= 0 ==> inbound == old(inbound) && buf[..] == old(buf[..])
      ensures n == 0 ==> inbound == []
      ensures interrupted ==> n < 0 && interrupts < old(interrupts)
      ensures failed == (old(failed) || (n <= 0 && !interrupted))
    {
      interrupted := false;
      n :| n <= buf.Length - off && n <= |inbound| && (n == 0 ==> inbound == []);
      if n > 0 {
        forall k | 0 <= k < n {
          buf[off + k] := inbound[k];
        }
        inbound := inbound[n..];
      } else {
        var signal: bool := *;
        if n < 0 && signal && interrupts > 0 {
          interrupted, interrupts := true, interrupts - 1;
        } else {
          failed := true;
        }
      }
    }
  }

  // ---------- the transfers, and the turns they are ----------

  /** What a process sees of an exchange: where it is, and the two streams. */
  datatype View = View(side: Side, out: seq<Byte>, inn: seq<Byte>)

  /** The process goes through these views by turns of the exchange; room is what the peer's direction can buffer. */
  ghost predicate Turns(own: seq<seq<Byte>>, room: nat, tr: seq<View>) {
    && tr != []
    && forall k :: 0 <= k < |tr| - 1 ==>
         Turn(own, room, tr[k].side, tr[k + 1].side, tr[k].out, tr[k + 1].out, tr[k].inn, tr[k + 1].inn)
  }

  /** By turns from the end of tr to v. */
  ghost predicate Led(own: seq<seq<Byte>>, room: nat, tr: seq<View>, tr': seq<View>, v: View) {
    tr <= tr' && tr' != [] && tr'[|tr'| - 1] == v && Turns(own, room, tr')
  }

  lemma OneTurn(own: seq<seq<Byte>>, room: nat, tr: seq<View>, tr': seq<View>, u: View, v: View)
    requires Led(own, room, tr, tr', u) && Turn(own, room, u.side, v.side, u.out, v.out, u.inn, v.inn)
    ensures Led(own, room, tr, tr' + [v], v)
  {
    hide Turn;
  }

  /** A process that has written p bytes of its record. */
  ghost predicate Writing(own: seq<seq<Byte>>, v: View, data: seq<Byte>, p: nat) {
    v.side.idx < |own| && own[v.side.idx] == data && v.side.writing && v.side.sent == p <= |data|
  }

  lemma OneMoreChunk(stream: seq<Byte>, p: nat, n: nat)
    requires p + n <= |stream|
    ensures stream[..p + n] == stream[..p] + stream[p..][..n] && stream[p + n..] == stream[p..][n..]
  {
  }

  /** Writing the next n bytes of the record. */
  lemma WriteIsTurn(own: seq<seq<Byte>>, room: nat, u: View, w: View, n: nat)
    requires u.side.idx < |own| && u.side.writing && 0 < n && u.side.sent + n <= |own[u.side.idx]|
    requires w == View(u.side.(sent := u.side.sent + n), u.out + own[u.side.idx][u.side.sent..][..n], u.inn)
    requires |w.out| <= room
    ensures Turn(own, room, u.side, w.side, u.out, w.out, u.inn, w.inn)
  {
    var data, p := own[u.side.idx], u.side.sent;
    assert data[p..][..n] == data[p..p + n];
  }

  /** Writes all of data, or fails after a proper part of it.  Every successful call is a turn of an exchange in which
      data is the record to write. */
  method WriteAll(sock: Socket, data: seq<Byte>, ghost own: seq<seq<Byte>>, ghost room: nat, ghost tr: seq<View>)
    returns (rc: int, ghost tr': seq<View>)
    requires !sock.failed && Turns(own, room, tr) && Writing(own, tr[|tr| - 1], data, 0)
    requires tr[|tr| - 1].out == sock.outbound && |sock.outbound| + |data| <= room
    modifies sock
    ensures sock.inbound == old(sock.inbound)
    ensures rc == (if sock.failed then -1 else 0)
    ensures rc == 0 ==> sock.outbound == old(sock.outbound) + data
    ensures rc == -1 ==> exists k: nat :: k < |data| && sock.outbound == old(sock.outbound) + data[..k]
    ensures rc == 0 ==>
              var v := tr[|tr| - 1]; Led(own, room, tr, tr', View(v.side.(sent := |data|), sock.outbound, v.inn))
    ensures rc == -1 ==>
              var v := tr[|tr| - 1];
              exists k: nat :: k < |data| && Led(own, room, tr, tr', View(v.side.(sent := k), sock.outbound, v.inn))
  {
    var p := 0;
    tr' := tr;
    ghost var v := tr[|tr| - 1];
    assert Led(own, room, tr, tr', v);
    assert data[..0] == [];
    hide Led, Turns, Turn;
    while |data| - p > 0
      invariant 0 <= p <= |data| && !sock.failed
      invariant sock.inbound == old(sock.inbound)
      invariant sock.outbound == old(sock.outbound) + data[..p]
      invariant Led(own, room, tr, tr', View(v.side.(sent := p), sock.outbound, v.inn))
      decreases |data| - p, sock.interrupts
    {
      ghost var u := View(v.side.(sent := p), sock.outbound, v.inn);
      var n, interrupted := sock.Write(data[p..]);
      if n <= 0 {
        if n < 0 && interrupted {
          continue;
        }
        return -1, tr';
      }
      OneMoreChunk(data, p, n);
      p := p + n;
      ghost var w := View(v.side.(sent := p), sock.outbound, v.inn);
      WriteIsTurn(own, room, u, w, n);
      OneTurn(own, room, tr, tr', u, w);
      tr' := tr' + [w];
    }
    assert data[..p] == data;
    rc := 0;
  }

  lemma Filled(all: seq<Byte>, head: seq<Byte>, chunk: seq<Byte>, rest: seq<Byte>)
    requires all == head + chunk + rest
    ensures all[..|head| + |chunk|] == head + chunk
  {
  }

  /** Reading the next n bytes of the stream. */
  lemma ReadIsTurn(own: seq<seq<Byte>>, room: nat, u: View, w: View, n: nat)
    requires u.side.idx < |own| && !u.side.writing && |u.side.part| + n <= |own[u.side.idx]|
    requires 0 < n <= |u.inn|
    requires w == View(u.side.(part := u.side.part + u.inn[..n]), u.out, u.inn[n..])
    ensures Turn(own, room, u.side, w.side, u.out, w.out, u.inn, w.inn)
  {
  }

  /** Fills buf with the next bytes of the stream and reads none beyond them, or fails having read fewer.  Every
      successful call is a turn of an exchange in which the peer's record has the size of buf. */
  method ReadAll(sock: Socket, buf: array<Byte>, ghost own: seq<seq<Byte>>, ghost room: nat, ghost tr: seq<View>)
    returns (rc: int, ghost tr': seq<View>)
    requires !sock.failed && Turns(own, room, tr)
    requires var v := tr[|tr| - 1];
      && v.side.idx < |own| && |own[v.side.idx]| == buf.Length && !v.side.writing && v.side.part == []
      && v.inn == sock.inbound
    modifies sock, buf
    ensures sock.outbound == old(sock.outbound)
    ensures rc == (if sock.failed then -1 else 0)
    ensures rc == 0 ==> buf.Length <= |old(sock.inbound)|
    ensures rc == 0 ==>
              buf[..] == old(sock.inbound)[..buf.Length] && sock.inbound == old(sock.inbound)[buf.Length..]
    ensures rc == -1 ==>
              exists k: nat :: k < buf.Length && k <= |old(sock.inbound)| && sock.inbound == old(sock.inbound)[k..]
    ensures rc == 0 ==>
              var v := tr[|tr| - 1]; Led(own, room, tr, tr', View(v.side.(part := buf[..]), v.out, sock.inbound))
    ensures rc == -1 ==>
              var v := tr[|tr| - 1];
              exists k: nat :: k < buf.Length
                && Led(own, room, tr, tr', View(v.side.(part := buf[..k]), v.out, sock.inbound))
  {
    var p := 0;
    tr' := tr;
    ghost var v := tr[|tr| - 1];
    assert Led(own, room, tr, tr', v);
    assert buf[..0] == [];
    hide Led, Turns, Turn;
    while buf.Length - p > 0
      invariant 0 <= p <= buf.Length && !sock.failed && p <= |old(sock.inbound)|
      invariant sock.outbound == old(sock.outbound)
      invariant sock.inbound == old(sock.inbound)[p..]
      invariant buf[..p] == old(sock.inbound)[..p]
      invariant Led(own, room, tr, tr', View(v.side.(part := buf[..p]), v.out, sock.inbound))
      decreases buf.Length - p, sock.interrupts
    {
      ghost var before, was := sock.inbound, buf[..];
      ghost var u := View(v.side.(part := buf[..p]), v.out, sock.inbound);
      var n, interrupted := sock.Read(buf, p);
      if n <= 0 {
        assert buf[..p] == buf[..][..p] == was[..p];
        if n < 0 && interrupted {
          continue;
        }
        return -1, tr';
      }
      Filled(buf[..], was[..p], before[..n], was[p + n..]);
      assert buf[..p + n] == buf[..][..p + n];
      OneMoreChunk(old(sock.inbound), p, n);
      p := p + n;
      ghost var w := View(v.side.(part := buf[..p]), v.out, sock.inbound);
      ReadIsTurn(own, room, u, w, n);
      OneTurn(own, room, tr, tr', u, w);
      tr' := tr' + [w];
    }
    assert buf[..p] == buf[..];
    rc := 0;
  }

  /** Writes the local record and then reads the peer's: turns of an exchange that lead from the beginning of one
      record to the beginning of the next. */
  method ExchangeQpInfo(sock: Socket, local: QpInfo, ghost own: seq<seq<Byte>>, ghost k: nat, ghost got: seq<seq<Byte>>)
    returns (rc: int, remote: QpInfo, ghost room: nat, ghost tr: seq<View>)
    requires !sock.failed && |local.gid| == 16 && k < |own| && own[k] == Encode(local)
    modifies sock
    ensures rc == (if sock.failed then -1 else 0)
    ensures rc == 0 ==>
              && sock.outbound == old(sock.outbound) + Encode(local)
              && QP_INFO_SIZE <= |old(sock.inbound)|
              && sock.inbound == old(sock.inbound)[QP_INFO_SIZE..]
              && forall peer: QpInfo ::
                   |peer.gid| == 16 && old(sock.inbound)[..QP_INFO_SIZE] == Encode(peer) ==> remote == peer
    ensures Turns(own, room, tr)
    ensures tr[0] == View(Side(k, true, 0, [], got), old(sock.outbound), old(sock.inbound))
    ensures rc == 0 ==>
              tr[|tr| - 1] == View(Side(k + 1, true, 0, [], got + [old(sock.inbound)[..QP_INFO_SIZE]]),
                                   sock.outbound, sock.inbound)
  {
    remote := local;
    room := |sock.outbound| + QP_INFO_SIZE;
    tr := [View(Side(k, true, 0, [], got), sock.outbound, sock.inbound)];
    ghost var start := tr;
    rc, tr := WriteAll(sock, Encode(local), own, room, tr);
    if rc < 0 {
      return;
    }
    ghost var u := View(Side(k, true, QP_INFO_SIZE, [], got), sock.outbound, sock.inbound);
    ghost var v := View(Side(k, false, QP_INFO_SIZE, [], got), sock.outbound, sock.inbound);
    OneTurn(own, room, start, tr, u, v);
    tr := tr + [v];
    ghost var half := tr;
    var buf := new Byte[QP_INFO_SIZE];
    rc, tr := ReadAll(sock, buf, own, room, tr);
    if rc < 0 {
      return;
    }
    u := View(v.side.(part := buf[..]), v.out, sock.inbound);
    v := View(Side(k + 1, true, 0, [], got + [buf[..]]), sock.outbound, sock.inbound);
    OneTurn(own, room, half, tr, u, v);
    tr := tr + [v];
    remote := Decode(buf[..]);
    forall peer: QpInfo | |peer.gid| == 16 && buf[..] == Encode(peer)
      ensures remote == peer
    {
      RecordRoundTrip(peer);
    }
  }
}
