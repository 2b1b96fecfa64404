/** The two pipe loops that every hop runs, on live streams and sockets, left to finish. */
module RelayPipes {
  import opened ByteRelay

  class StreamReader {
    var pending: seq<byte>   // what arrives before the end of the stream

    constructor (pending: seq<byte>)
      ensures this.pending == pending
    {
      this.pending := pending;
    }

    /** Some bytes, as many as the network happens to give; none at the end of the stream. */
    method Read(limit: nat) returns (chunk: seq<byte>)
      requires limit > 0
      modifies this
      ensures chunk + pending == old(pending) && |chunk| <= limit && (chunk == [] <==> old(pending) == [])
    {
      if pending == [] {
        return [];
      }
      var n: nat :| 1 <= n <= |pending| && n <= limit;
      chunk := pending[..n];
      pending := pending[n..];
    }
  }

  class StreamWriter {
    var data: seq<byte>

    constructor ()
      ensures data == []
    {
      data := [];
    }

    method Write(more: seq<byte>)
      modifies this
      ensures data == old(data) + more
    {
      data := data + more;
    }
  }

  class Socket {
    var incoming: seq<Frame>   // what arrives before the disconnect
    var sent: seq<Frame>
    var refused: bool          // closed with code 1003

    constructor (incoming: seq<Frame>)
      ensures this.incoming == incoming && sent == [] && !refused
    {
      this.incoming, sent, refused := incoming, [], false;
    }

    method SendBytes(data: seq<byte>)
      modifies `sent
      ensures sent == old(sent) + [Binary(data)]
    {
      sent := sent + [Binary(data)];
    }
  }

  function Chunked(frames: seq<Frame>): bool {
    forall i :: 0 <= i < |frames| ==> frames[i].Binary? && 1 <= |frames[i].data| <= CHUNK_SIZE
  }

  /** What was sent, is in hand and is still to come, before and after one more chunk. */
  lemma OneMoreChunk(frames: seq<Frame>, chunk: seq<byte>, next: seq<byte>, left: seq<byte>)
    ensures Concat(frames + [Binary(chunk)]) + next + left == Concat(frames) + chunk + (next + left)
  {
    ConcatAppend(frames, Binary(chunk));
    var sent := Concat(frames) + chunk;
    assert sent + next + left == sent + (next + left);
  }

  /** `_pipe_tcp_to_websocket`: the whole stream goes out, in frames of at most one chunk. */
  method PipeTcpToWebSocket(reader: StreamReader, socket: Socket)
    modifies reader, socket`sent
    ensures reader.pending == [] && old(socket.sent) <= socket.sent
    ensures var frames := socket.sent[|old(socket.sent)|..]; Chunked(frames) && Concat(frames) == old(reader.pending)
  {
    ghost var frames: seq<Frame> := [];
    var chunk := reader.Read(CHUNK_SIZE);
    while chunk != []
      invariant socket.sent == old(socket.sent) + frames && Chunked(frames)
      invariant Concat(frames) + chunk + reader.pending == old(reader.pending)
      invariant |chunk| <= CHUNK_SIZE && (chunk == [] ==> reader.pending == [])
      decreases |chunk| + |reader.pending|
    {
      socket.SendBytes(chunk);
      var next := reader.Read(CHUNK_SIZE);
      OneMoreChunk(frames, chunk, next, reader.pending);
      frames := frames + [Binary(chunk)];
      chunk := next;
    }
    assert Concat(frames) + [] + [] == Concat(frames);
    assert socket.sent[|old(socket.sent)|..] == frames;
  }

  /** The frames before the first one that is not binary. */
  function BinaryPrefix(frames: seq<Frame>): seq<Frame> {
    if frames == [] || !frames[0].Binary? then [] else [frames[0]] + BinaryPrefix(frames[1..])
  }

  /** `_pipe_websocket_to_tcp`: the binary frames go out in order, up to the first frame that is
      something else; that one closes the socket. */
  method PipeWebSocketToTcp(socket: Socket, writer: StreamWriter)
    requires !socket.refused
    modifies socket`incoming, socket`refused, writer
    ensures writer.data == old(writer.data) + Concat(BinaryPrefix(old(socket.incoming)))
    ensures socket.refused <==> exists i :: 0 <= i < |old(socket.incoming)| && old(socket.incoming)[i].NotBinary?
  {
    ghost var all := socket.incoming;
    ghost var n := 0;
    while socket.incoming != []
      invariant n <= |all| && socket.incoming == all[n..] && !socket.refused
      invariant forall i :: 0 <= i < n ==> all[i].Binary?
      invariant writer.data + Concat(BinaryPrefix(socket.incoming)) == old(writer.data) + Concat(BinaryPrefix(all))
      decreases |socket.incoming|
    {
      var frame := socket.incoming[0];
      ghost var rest := Concat(BinaryPrefix(socket.incoming[1..]));
      assert socket.incoming[0] == all[n];
      socket.incoming := socket.incoming[1..];
      if !frame.Binary? {
        socket.refused := true;
        assert writer.data + [] == writer.data;
        return;
      }
      assert Concat(BinaryPrefix(all[n..])) == frame.data + rest by {
        assert BinaryPrefix(all[n..])[1..] == BinaryPrefix(all[n..][1..]);
      }
      assert writer.data + (frame.data + rest) == writer.data + frame.data + rest;
      writer.Write(frame.data);
      n := n + 1;
    }
    assert writer.data + [] == writer.data;
  }

  /** One hop after another: what a connector sends, the far end writes, whatever the chunks. */
  method RelayThroughOneHop(reader: StreamReader, writer: StreamWriter)
    requires writer.data == []
    modifies reader, writer
    ensures writer.data == old(reader.pending)
  {
    var near := new Socket([]);
    PipeTcpToWebSocket(reader, near);
    var far := new Socket(near.sent);
    AllBinary(near.sent);
    assert near.sent[0..] == near.sent;
    PipeWebSocketToTcp(far, writer);
  }

  lemma {:induction false} AllBinary(frames: seq<Frame>)
    requires forall i :: 0 <= i < |frames| ==> frames[i].Binary?
    ensures BinaryPrefix(frames) == frames
  {
    if frames != [] {
      AllBinary(frames[1..]);
    }
  }
}
