/** Whole-buffer transfers over a byte stream socket (`common.c`). */
module Transport {
  import opened ByteStrings

  /** A connected stream socket as one process sees it. The kernel decides how many
      octets each call moves and when a call fails. */
  class Socket {
    /** Octets the peer writes before it closes that this process has not read. */
    var inbound: Bytes
    /** Octets the kernel has accepted from this process, in order. */
    var outbound: Bytes
    /** Whether the kernel has reported an error on this socket. */
    var faulted: bool

    constructor (incoming: Bytes)
      ensures inbound == incoming && outbound == [] && !faulted
    {
      inbound, outbound, faulted := incoming, [], false;
    }

    /** `send`: the number of octets accepted, or a non-positive number on failure. */
    method Send(data: Bytes) returns (sent: int)
      requires |data| > 0
      modifies this`outbound, this`faulted
      ensures sent <= |data|
      ensures outbound == old(outbound) + (if sent > 0 then data[..sent] else [])
      ensures faulted == (old(faulted) || sent <= 0)
    {
      if * {
        sent :| -1 <= sent <= 0;
        faulted := true;
      } else {
        sent :| 1 <= sent <= |data|;
        outbound := outbound + data[..sent];
      }
    }

    /** `recv` into `buffer` at `offset`: the number of octets stored, 0 when the peer has
        closed and nothing is left, or a negative number on failure. */
    method Recv(buffer: array<Byte>, offset: nat, length: nat) returns (received: int)
      requires length > 0 && offset + length <= buffer.Length
      modifies this`inbound, this`faulted, buffer
      ensures received <= length && received <= |old(inbound)|
      ensures received == 0 ==> old(inbound) == []
      ensures faulted == (old(faulted) || received < 0)
      ensures inbound == old(inbound)[if received > 0 then received else 0..]
      ensures buffer[..] ==
              if received > 0
              then old(buffer[..offset]) + old(inbound)[..received] + old(buffer[offset + received..])
              else old(buffer[..])
    {
      if * {
        received, faulted := -1, true;
      } else if inbound == [] {
        received := 0;
      } else {
        received :| 1 <= received <= length && received <= |inbound|;
        forall i | 0 <= i < received {
          buffer[offset + i] := inbound[i];
        }
        inbound := inbound[received..];
      }
    }
  }

  /** Sends all of `buffer`. Success (0) moves exactly `buffer`, in order; failure (-1) has
      moved a strict prefix of it. */
  method SendAll(socket: Socket, buffer: Bytes) returns (rc: int, ghost moved: nat)
    modifies socket`outbound, socket`faulted
    ensures rc == 0 || rc == -1
    ensures moved <= |buffer| && socket.outbound == old(socket.outbound) + buffer[..moved]
    ensures rc == 0 <==> moved == |buffer|
    ensures socket.faulted == (old(socket.faulted) || rc == -1)
  {
    var totalSent := 0;
    moved := 0;
    while totalSent < |buffer|
      invariant totalSent == moved <= |buffer|
      invariant socket.outbound == old(socket.outbound) + buffer[..moved]
      invariant socket.faulted == old(socket.faulted)
      decreases |buffer| - totalSent
    {
      var bytesSent := socket.Send(buffer[totalSent..]);
      if bytesSent <= 0 {
        return -1, moved;
      }
      assert buffer[..moved] + buffer[moved..][..bytesSent] == buffer[..moved + bytesSent];
      totalSent := totalSent + bytesSent;
      moved := totalSent;
    }
    return 0, moved;
  }

  /** Two consecutive `SendAll`, stopping if the first fails. */
  method SendTwo(socket: Socket, first: Bytes, second: Bytes) returns (rc: int, ghost moved: nat)
    modifies socket`outbound, socket`faulted
    ensures rc == 0 || rc == -1
    ensures moved <= |first + second| && socket.outbound == old(socket.outbound) + (first + second)[..moved]
    ensures rc == 0 <==> moved == |first + second|
    ensures socket.faulted == (old(socket.faulted) || rc == -1)
  {
    rc, moved := SendAll(socket, first);
    assert (first + second)[..moved] == first[..moved];
    if rc == 0 {
      ghost var part;
      rc, part := SendAll(socket, second);
      moved := |first| + part;
      assert (first + second)[..moved] == first + second[..part];
    }
  }

  /** Three consecutive `SendAll`, stopping at the first that fails. */
  method SendThree(socket: Socket, first: Bytes, second: Bytes, third: Bytes) returns (rc: int, ghost moved: nat)
    modifies socket`outbound, socket`faulted
    ensures rc == 0 || rc == -1
    ensures moved <= |first + second + third|
    ensures socket.outbound == old(socket.outbound) + (first + second + third)[..moved]
    ensures rc == 0 <==> moved == |first + second + third|
    ensures socket.faulted == (old(socket.faulted) || rc == -1)
  {
    rc, moved := SendTwo(socket, first, second);
    assert (first + second + third)[..moved] == (first + second)[..moved];
    if rc == 0 {
      ghost var part;
      rc, part := SendAll(socket, third);
      moved := moved + part;
      assert (first + second + third)[..moved] == first + second + third[..part];
    }
  }

  /** What a receive of `length` octets into `before` may leave in the buffer, having taken
      `moved` octets of `stream`: those octets in front, the rest of the buffer untouched. */
  ghost predicate Stored(stream: Bytes, moved: nat, before: Bytes, after: Bytes) {
    && moved <= |stream| && moved <= |before|
    && after == stream[..moved] + before[moved..]
  }

  /** Receives exactly `length` octets into the front of `buffer`. Success (0) consumes
      exactly `length` octets of the stream; closure by the peer (1) happens only when the
      whole remaining stream was shorter than `length`; both it and failure (-1) have
      consumed a strict prefix, which is in the buffer, and nothing else. */
  method RecvAll(socket: Socket, buffer: array<Byte>, length: nat) returns (rc: int, ghost moved: nat)
    requires length <= buffer.Length
    modifies socket`inbound, socket`faulted, buffer
    ensures rc == 0 || rc == 1 || rc == -1
    ensures moved <= length && Stored(old(socket.inbound), moved, old(buffer[..]), buffer[..])
    ensures socket.inbound == old(socket.inbound)[moved..]
    ensures rc == 0 <==> moved == length
    ensures rc == 1 ==> moved == |old(socket.inbound)|
    ensures socket.faulted == (old(socket.faulted) || rc == -1)
  {
    var totalReceived := 0;
    moved := 0;
    while totalReceived < length
      invariant totalReceived == moved <= length
      invariant Stored(old(socket.inbound), moved, old(buffer[..]), buffer[..])
      invariant socket.inbound == old(socket.inbound)[moved..]
      invariant socket.faulted == old(socket.faulted)
      decreases length - totalReceived
    {
      ghost var sofar, left := buffer[..], socket.inbound;
      var bytesReceived := socket.Recv(buffer, totalReceived, length - totalReceived);
      if bytesReceived < 0 {
        return -1, moved;
      } else if bytesReceived == 0 {
        return 1, moved;
      }
      StoredExtends(old(socket.inbound), moved, bytesReceived, old(buffer[..]), sofar, buffer[..]);
      totalReceived := totalReceived + bytesReceived;
      moved := totalReceived;
    }
    return 0, moved;
  }

  lemma StoredExtends(stream: Bytes, moved: nat, more: nat, before: Bytes, sofar: Bytes, after: Bytes)
    requires Stored(stream, moved, before, sofar)
    requires moved + more <= |stream| && moved + more <= |before|
    requires after == sofar[..moved] + stream[moved..][..more] + sofar[moved + more..]
    ensures Stored(stream, moved + more, before, after)
  {
    assert stream[..moved] + stream[moved..][..more] == stream[..moved + more];
    assert sofar[moved + more..] == before[moved + more..];
  }
}
