// The engine's view of a connection, with the sizes of its buffers only, and the
// connection object with its bytes: what the engine does to both keeps them alike.
module EngineTcp {
  import opened TcpStream
  import opened ByteBuffer
  import opened EngineWorker

  /** The view c shows the managed connection t, whose socket is valid. */
  ghost predicate Alike(t: Tcp, c: Connection)
    reads t, t.Footprint(), c
  {
    && t.Valid() && t.managed && t.open && t.state == c.state
    && t.obuf.size == c.output && t.ibuf.size == c.input
  }

  method CloseBoth(t: Tcp, c: Connection)
    requires Alike(t, c)
    modifies t, c`state
    ensures Alike(t, c)
  {
    hide Buffer.Contents, Buffer.Valid;
    t.Close();
    c.Close();
  }

  /** The kernel takes `len` bytes, or refuses with a negative number. */
  method WriteBoth(t: Tcp, c: Connection, len: int)
    requires Alike(t, c) && len <= t.obuf.size
    modifies t, t.obuf, c`state, c`output
    ensures Alike(t, c) && c.output == old(c.output) - if len > 0 then len else 0
  {
    hide Buffer.Contents;
    ghost var before := t.obuf.Contents();
    assert |before| == t.obuf.size;
    var ok := t.IoWrite(len);
    assert |t.obuf.Contents()| == t.obuf.size;
    c.IoWrite(if len < 0 then 0 else len);
  }

  /** The rounds of a read are one gift of bytes, and the loss of the connection if the
      last of them finds it. */
  method ReadBoth(t: Tcp, c: Connection, kernel: seq<Round>) returns (got: bool, ghost rounds: nat)
    requires Alike(t, c) && TcpStream.Plausible(kernel)
    modifies t.Footprint(), c`state, c`input
    ensures Alike(t, c) && rounds <= |kernel|
    ensures c.input == old(c.input) + |BytesOf(kernel[..rounds])|
    ensures c.state == if rounds > 0 && Disconnects(kernel[rounds - 1]) then AfterClose(AfterIo(old(c.state)), true)
                       else AfterIo(old(c.state))
  {
    hide Buffer.Contents, BytesOf, Disconnects, FullRead, Tcp.Exhausted;
    var size := t.ibuf.size;
    assert |t.received| == |t.consumed| + size && |t.obuf.Contents()| == t.obuf.size;
    got, rounds := t.IoRead(kernel);
    assert |t.received| == |t.consumed| + t.ibuf.size && |t.obuf.Contents()| == t.obuf.size;
    c.IoRead(t.ibuf.size - size, t.state != AfterIo(c.state));
  }
}
