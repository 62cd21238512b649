// The connection object: its state, its two buffers and the byte streams through
// them. `committed` and `received` are what went into the buffers, `accepted` and
// `consumed` what the kernel and the application have taken out of them.
module TcpStream {
  import opened Basics
  import opened Text
  import opened ByteBuffer
  import opened StringUtil

  datatype State = Uninitialized | Listening | Accepted | Connecting | Connected | Refused | Closing | Closed

  const RECV_CHUNK: nat := 8192

  /** Where close() leads. A managed connection is only marked, for its worker to find. */
  function AfterClose(s: State, managed: bool): State {
    if !managed then Closed
    else if s == Connecting then Refused
    else if s == Closed then Closed
    else Closing
  }

  /** Any read or write event ends the connecting phase. */
  function AfterIo(s: State): State {
    if s == Connecting then Connected else s
  }

  /** How an attempt to connect goes: no socket, an error, under way, or done at once. */
  datatype Outcome = NoSocket | Failed | Pending | Immediate

  /** What ::recv does: hands over bytes, reports the end of the stream, or fails. */
  datatype RecvResult = Bytes(bytes: seq<Byte>) | EndOfStream | Error(fatal: bool)

  /** One round of the receive loop: would the allocator find memory, and what would ::recv do. */
  datatype Round = Round(mem: bool, result: RecvResult)

  predicate Plausible(kernel: seq<Round>) {
    forall i :: 0 <= i < |kernel| && kernel[i].result.Bytes? ==> 0 < |kernel[i].result.bytes| <= RECV_CHUNK
  }

  function BytesOf(rounds: seq<Round>): seq<Byte> {
    if rounds == [] then []
    else BytesOf(rounds[..|rounds| - 1])
         + if rounds[|rounds| - 1].result.Bytes? then rounds[|rounds| - 1].result.bytes else []
  }

  lemma BytesOfNext(kernel: seq<Round>, i: nat)
    requires i < |kernel|
    ensures BytesOf(kernel[..i + 1])
            == BytesOf(kernel[..i]) + if kernel[i].result.Bytes? then kernel[i].result.bytes else []
  {
    assert kernel[..i + 1][..i] == kernel[..i];
  }

  /** The loop goes on after this round. */
  predicate FullRead(r: Round) {
    r.result.Bytes? && |r.result.bytes| == RECV_CHUNK
  }

  predicate Disconnects(r: Round) {
    r.result.EndOfStream? || (r.result.Error? && r.result.fatal)
  }

  /** Reserve, write, commit: the pattern of every sender and of the receive loop. The
      first k bytes from the reserved place on are committed. When that is more than
      was written the surplus is whatever lies there, and nothing at all is committed
      if it does not lie within the block. */
  method Commit(buf: Buffer, reserve: Size, written: seq<Byte>, k: nat, mem: bool) returns (ok: bool)
    requires buf.Valid() && buf.size + reserve + 15 < SIZE_RANGE && |written| <= reserve && k <= MAX_BLOCK
    modifies buf, buf.data
    ensures buf.Valid() && (buf.data == old(buf.data) || fresh(buf.data))
    ensures ok == Granted(old(buf.capacity), old(buf.size) + reserve, mem)
    ensures buf.capacity == if ok then Max(old(buf.capacity), Pad(old(buf.size) + reserve)) else old(buf.capacity)
    ensures !ok ==> buf.Contents() == old(buf.Contents())
    ensures ok && k <= |written| ==> buf.Contents() == old(buf.Contents()) + written[..k]
    ensures ok && k > |written| ==> Surplus(old(buf.Contents()), buf.Contents(), written, k)
  {
    hide Pad, Wrap, Buffer.Contents, Buffer.Behind;
    ghost var before := buf.Contents();
    assert before + [] == before;
    var tail;
    ok, tail := buf.ReserveBegin(reserve, mem);
    if !ok { return; }
    buf.Fill(written);
    assert k <= |written| ==> buf.Behind(k) == written[..k];
    if k > |written| && buf.Room(k) {
      buf.BehindStarts(|written|, k);
      assert written[..|written|] == written;
    }
    var done := buf.ReserveEnd(k);
  }

  /** Nothing was committed, or k bytes of which the written ones come first. */
  predicate Surplus(before: seq<Byte>, after: seq<Byte>, written: seq<Byte>, k: nat) {
    after == before
    || (|before| <= |after| == |before| + k && after[..|before|] == before && written <= after[|before|..])
  }

  lemma SurplusBehind(front: seq<Byte>, before: seq<Byte>, after: seq<Byte>, written: seq<Byte>, k: nat)
    requires Surplus(before, after, written, k)
    ensures Surplus(front + before, front + after, written, k)
  {
    if after != before {
      assert (front + after)[..|front + before|] == front + before;
      assert (front + after)[|front + before|..] == after[|before|..];
    }
  }

  lemma NoBytes(kernel: seq<Round>)
    ensures BytesOf(kernel[..0]) == []
  {
  }

  lemma FullIsAlive(r: Round)
    ensures Disconnects(r) ==> !FullRead(r)
  {
  }

  class Tcp {
    var state: State
    var managed: bool
    var open: bool
    // a connect callback is set
    var waiting: bool
    const ibuf: Buffer
    const obuf: Buffer
    ghost var committed: seq<Byte>
    ghost var accepted: seq<Byte>
    ghost var received: seq<Byte>
    ghost var consumed: seq<Byte>
    // what the callback of the last connect has been told
    ghost var told: seq<bool>

    ghost function Footprint(): set<object>
      reads this, ibuf, obuf
    {
      {this, ibuf, obuf} + (if ibuf.data == null then {} else {ibuf.data})
      + (if obuf.data == null then {} else {obuf.data})
    }

    /** Nothing is lost, duplicated or reordered on the way out or on the way in, and
        the connect callback is told at most once how it went. */
    ghost predicate Valid()
      reads this, Footprint()
    {
      && ibuf != obuf && ibuf.Valid() && obuf.Valid()
      && (ibuf.data == null || ibuf.data != obuf.data)
      && committed == accepted + obuf.Contents()
      && received == consumed + ibuf.Contents()
      && |told| <= 1 && (waiting ==> told == [] && open && (state == Connecting || managed))
      && (state == Connecting ==> open)
    }

    constructor ()
      ensures Valid() && fresh(Footprint()) && state == Uninitialized && !managed && !open && !waiting
      ensures committed == accepted == received == consumed == [] && told == []
    {
      state, managed, open, waiting, told := Uninitialized, false, false, false, [];
      ibuf := new Buffer();
      obuf := new Buffer();
      committed, accepted, received, consumed := [], [], [], [];
    }

    method Close()
      requires Valid()
      modifies this`state, this`open, this`waiting, this`told
      ensures Valid() && state == AfterClose(old(state), managed) && open == (old(open) && managed)
      ensures state == if !managed || old(state) == State.Closed then State.Closed
                       else if old(state) == Connecting then Refused else Closing
      ensures told == old(told) + if !managed && old(state) == Connecting && old(waiting) then [false] else []
      ensures waiting == (old(waiting) && managed)
    {
      hide Buffer.Contents, Buffer.Valid;
      assert told + [] == told;
      if managed {
        if state == Connecting {
          state := Refused;
        } else if state != Closed {
          state := Closing;
        }
      } else {
        if state == Connecting {
          if waiting {
            told := told + [false];
            waiting := false;
          }
        }
        open := false;
        state := Closed;
      }
    }

    /** Starts to connect, unless there is a socket already. Both buffers are emptied
        first; `cb` says whether a callback is to be told the outcome. */
    method Connect(outcome: Outcome, cb: bool) returns (ok: bool)
      requires Valid()
      modifies this, ibuf, obuf
      ensures Valid() && managed == old(managed) && fresh(Footprint() - old(Footprint()))
      ensures ok == (!old(open) && (outcome.Pending? || outcome.Immediate?))
      ensures old(open) ==> state == old(state) && open && waiting == old(waiting) && told == old(told)
                            && ibuf.Contents() == old(ibuf.Contents()) && obuf.Contents() == old(obuf.Contents())
      ensures !old(open) ==>
                && committed == accepted == received == consumed == []
                && open == (ok || (outcome.Failed? && managed))
                && told == (if outcome.Immediate? && cb then [true] else []) && waiting == (outcome.Pending? && cb)
                && state == match outcome
                            case NoSocket => old(state)
                            case Failed => AfterClose(old(state), managed)
                            case Pending => Connecting
                            case Immediate => Connected
    {
      hide Buffer.Contents, Buffer.Valid;
      if open { return false; }
      ibuf.Free();
      obuf.Free();
      committed, accepted, received, consumed, told := [], [], [], [], [];
      ok := Attempt(outcome, cb);
    }

    method Attempt(outcome: Outcome, cb: bool) returns (ok: bool)
      requires Valid() && !open && told == []
      modifies this`state, this`open, this`waiting, this`told
      ensures Valid() && ok == (outcome.Pending? || outcome.Immediate?) && open == (ok || (outcome.Failed? && managed))
      ensures told == (if outcome.Immediate? && cb then [true] else []) && waiting == (outcome.Pending? && cb)
      ensures state == match outcome
                       case NoSocket => old(state)
                       case Failed => AfterClose(old(state), managed)
                       case Pending => Connecting
                       case Immediate => Connected
    {
      hide Buffer.Contents, Buffer.Valid;
      if outcome.NoSocket? { return false; }
      open := true;
      if outcome.Failed? {
        Close();
        return false;
      }
      if outcome.Pending? {
        state := Connecting;
        waiting := cb;
      } else {
        state := Connected;
        if cb { told := [true]; }
      }
      return true;
    }

    /** The first event of a socket that was connecting. */
    method Settle()
      requires Valid()
      modifies this`state, this`waiting, this`told
      ensures Valid() && state == AfterIo(old(state)) && waiting == (old(waiting) && old(state) != Connecting)
      ensures told == old(told) + if old(state) == Connecting && old(waiting) then [true] else []
    {
      hide Buffer.Contents, Buffer.Valid;
      assert told + [] == told;
      if state == Connecting {
        state := Connected;
        if waiting {
          told := told + [true];
          waiting := false;
        }
      }
    }

    /** Queues data for sending; `mem` says whether the allocator would find memory for it. */
    method Send(data: seq<Byte>, mem: bool) returns (ok: bool)
      requires Valid() && |data| <= MAX_BLOCK
      modifies Footprint()
      ensures Valid() && fresh(Footprint() - old(Footprint()))
      ensures ok == Granted(old(obuf.capacity), old(obuf.size) + |data|, mem)
      ensures old(obuf.size) + |data| + 15 <= MAX_BLOCK ==>
                (ok <==> mem || old(obuf.size) + |data| <= old(obuf.capacity))
      ensures committed == old(committed) + if ok then data else []
      ensures accepted == old(accepted) && received == old(received) && consumed == old(consumed)
      ensures ibuf.Contents() == old(ibuf.Contents())
      ensures state == old(state) && managed == old(managed) && open == old(open)
      ensures waiting == old(waiting) && told == old(told)
      ensures obuf.capacity == if ok then Max(old(obuf.capacity), Pad(old(obuf.size) + |data|)) else old(obuf.capacity)
      ensures obuf.size == old(obuf.size) + if ok then |data| else 0
    {
      hide Buffer.Contents, Pad, Granted;
      GrantedIff(obuf.capacity, obuf.size + |data|, mem);
      ok := Commit(obuf, |data|, data, |data|, mem);
      assert data[..|data|] == data;
      Regroup(accepted, old(obuf.Contents()), if ok then data else []);
      committed := committed + if ok then data else [];
    }

    /** Queues what a callback writes into reserved space: `written` is the space
        after the callback, `s` what the callback returned. */
    method SendReserved(reserve: Size, written: seq<Byte>, s: int, mem: bool) returns (ok: bool)
      requires Valid() && obuf.size + reserve + 15 < SIZE_RANGE
      requires |written| == reserve && s <= MAX_BLOCK
      modifies Footprint()
      ensures Valid() && fresh(Footprint() - old(Footprint()))
      ensures ok == Granted(old(obuf.capacity), old(obuf.size) + reserve, mem)
      ensures !ok || s <= 0 ==> committed == old(committed)
      ensures ok && 0 < s <= reserve ==> committed == old(committed) + written[..s]
      ensures ok && s > reserve ==> Surplus(old(committed), committed, written, s)
      ensures accepted == old(accepted) && received == old(received) && consumed == old(consumed)
      ensures ibuf.Contents() == old(ibuf.Contents())
      ensures obuf.capacity == if ok then Max(old(obuf.capacity), Pad(old(obuf.size) + reserve)) else old(obuf.capacity)
      ensures s <= reserve ==> obuf.size == old(obuf.size) + if ok && s > 0 then s else 0
      ensures managed == old(managed)
      ensures state == if ok && s < 0 then AfterClose(old(state), managed) else old(state)
      ensures open == (old(open) && (managed || !ok || s >= 0))
    {
      hide Buffer.Contents, Buffer.Valid, Pad, Granted, Surplus;
      var k := if s < 0 then 0 else s;
      assert written[..0] == [] && obuf.Contents() + [] == obuf.Contents() && committed + [] == committed;
      ghost var before, sent := obuf.Contents(), committed;
      ok := Commit(obuf, reserve, written, k, mem);
      committed := accepted + obuf.Contents();
      if ok && k <= reserve { Regroup(accepted, before, written[..k]); }
      if ok && k > reserve { SurplusBehind(accepted, before, obuf.Contents(), written, k); }
      if ok && s < 0 { Close(); }
    }

    /** Offers the buffered input to a callback that says it has processed so many
        bytes; a claim to have processed more than there are is ignored. */
    method Recv(processed: Size)
      requires Valid()
      modifies this`consumed, ibuf`head, ibuf`size
      ensures Valid() && Footprint() == old(Footprint())
      ensures var n := if processed <= old(ibuf.size) then processed else 0;
              && consumed == old(consumed) + old(ibuf.Contents())[..n]
              && ibuf.Contents() == old(ibuf.Contents())[n..]
    {
      hide Buffer.Contents;
      ghost var before := ibuf.Contents();
      assert |before| == ibuf.size;
      assert before[..0] == [] && consumed + [] == consumed && before[0..] == before;
      if ibuf.size > 0 {
        var ok := ibuf.TrimHead(processed);
        if ok {
          assert before == before[..processed] + before[processed..];
          consumed := consumed + before[..processed];
        }
      } else if processed == 0 {
        assert before[..processed] == [];
      }
    }

    /** The loop has nothing more to do after so many rounds: the socket has nothing to
        give, the last read was not a full one, or there is no memory for another. */
    ghost predicate Exhausted(kernel: seq<Round>, rounds: nat)
      reads ibuf
    {
      rounds <= |kernel|
      && (rounds == |kernel| || (rounds > 0 && !FullRead(kernel[rounds - 1]))
          || (ibuf.size + RECV_CHUNK < SIZE_RANGE
              && !Granted(ibuf.capacity, ibuf.size + RECV_CHUNK, kernel[rounds].mem)))
    }

    lemma WhatRoundsAre(kernel: seq<Round>, rounds: nat)
      requires ibuf.Valid() && Exhausted(kernel, rounds) && forall i :: 0 <= i < rounds - 1 ==> FullRead(kernel[i])
      ensures rounds > 0 ==> (Disconnects(kernel[rounds - 1]) <==>
                              var r := kernel[rounds - 1].result; r == EndOfStream || r == RecvResult.Error(true))
      ensures (forall i :: 0 <= i < |kernel| ==> kernel[i].mem) && ibuf.size + RECV_CHUNK + 15 <= MAX_BLOCK ==>
                rounds == |kernel|
                || (rounds > 0 && var r := kernel[rounds - 1].result; !(r.Bytes? && |r.bytes| == RECV_CHUNK))
      ensures forall i :: 0 <= i < rounds - 1 ==> kernel[i].result.Bytes? && |kernel[i].result.bytes| == RECV_CHUNK
    {
    }

    /** Reads until a read is short, fails or finds no memory. `kernel` says how each
        round would go; when it is used up the socket has nothing more to give. */
    method IoRead(kernel: seq<Round>) returns (got: bool, ghost rounds: nat)
      requires Valid() && Plausible(kernel)
      modifies Footprint()
      ensures Valid() && fresh(Footprint() - old(Footprint()))
      ensures rounds <= |kernel| && (!old(open) ==> rounds == 0)
      ensures received == old(received) + BytesOf(kernel[..rounds])
      ensures forall i :: 0 <= i < rounds - 1 ==> FullRead(kernel[i])
      ensures got == (BytesOf(kernel[..rounds]) != [])
      ensures committed == old(committed) && accepted == old(accepted) && consumed == old(consumed)
      ensures obuf.Contents() == old(obuf.Contents()) && managed == old(managed)
      ensures old(open) ==> Exhausted(kernel, rounds)
      ensures open == (old(open) && (managed || !(rounds > 0 && Disconnects(kernel[rounds - 1]))))
      ensures rounds > 0 ==> (Disconnects(kernel[rounds - 1]) <==>
                              var r := kernel[rounds - 1].result; r == EndOfStream || r == RecvResult.Error(true))
      ensures old(open) && (forall i :: 0 <= i < |kernel| ==> kernel[i].mem)
              && ibuf.size + RECV_CHUNK + 15 <= MAX_BLOCK ==>
                rounds == |kernel|
                || (rounds > 0 && var r := kernel[rounds - 1].result; !(r.Bytes? && |r.bytes| == RECV_CHUNK))
      ensures forall i :: 0 <= i < rounds - 1 ==> kernel[i].result.Bytes? && |kernel[i].result.bytes| == RECV_CHUNK
      ensures waiting == (old(waiting) && !(old(open) && old(state) == Connecting))
      ensures told == old(told) + if old(open) && old(state) == Connecting && old(waiting) then [true] else []
      ensures var s := if old(open) then AfterIo(old(state)) else old(state);
              state == if rounds > 0 && Disconnects(kernel[rounds - 1]) then AfterClose(s, managed) else s
    {
      hide BytesOf, FullRead, Disconnects, Buffer.Contents, Buffer.Valid, Tcp.Exhausted;
      NoBytes(kernel);
      assert received + [] == received && told + [] == told;
      rounds := 0;
      if !open { return false, 0; }
      Settle();
      var lost;
      got, lost, rounds := ReceiveLoop(kernel);
      WhatRoundsAre(kernel, rounds);
      if lost { Close(); }
    }

    method ReceiveLoop(kernel: seq<Round>) returns (got: bool, lost: bool, ghost rounds: nat)
      requires Valid() && Plausible(kernel)
      modifies this`received, ibuf, ibuf.data
      ensures Valid() && (ibuf.data == old(ibuf.data) || fresh(ibuf.data))
      ensures rounds <= |kernel| && received == old(received) + BytesOf(kernel[..rounds])
      ensures forall i :: 0 <= i < rounds - 1 ==> FullRead(kernel[i])
      ensures got == (BytesOf(kernel[..rounds]) != [])
      ensures lost == (rounds > 0 && Disconnects(kernel[rounds - 1]))
      ensures obuf.Contents() == old(obuf.Contents()) && Exhausted(kernel, rounds)
    {
      hide BytesOf, FullRead, Disconnects, Buffer.Contents, Granted;
      NoBytes(kernel);
      assert received + [] == received;
      got, lost := false, false;
      var i, more := 0, true;
      while more && i < |kernel|
        invariant Valid() && (ibuf.data == old(ibuf.data) || fresh(ibuf.data))
        invariant obuf.Contents() == old(obuf.Contents())
        invariant 0 <= i <= |kernel| && received == old(received) + BytesOf(kernel[..i])
        invariant forall j :: 0 <= j < i - 1 ==> FullRead(kernel[j])
        invariant i > 0 ==> more == FullRead(kernel[i - 1])
        invariant i == 0 ==> more
        invariant got == (BytesOf(kernel[..i]) != [])
        invariant lost == (i > 0 && Disconnects(kernel[i - 1]))
        invariant lost ==> !more
        decreases |kernel| - i
      {
        var r := kernel[i].result;
        var bytes := if r.Bytes? then r.bytes else [];
        BytesOfNext(kernel, i);
        Regroup(old(received), BytesOf(kernel[..i]), bytes);
        var ok := Take(bytes, kernel[i].mem);
        if !ok { break; }
        got := got || r.Bytes?;
        more, lost := FullRead(kernel[i]), Disconnects(kernel[i]);
        FullIsAlive(kernel[i]);
        i := i + 1;
      }
      rounds := i;
    }

    /** One round of the receive loop: what the kernel has written into the reserved space joins the input. */
    method Take(bytes: seq<Byte>, mem: bool) returns (ok: bool)
      requires Valid() && |bytes| <= RECV_CHUNK
      modifies this`received, ibuf, ibuf.data
      ensures Valid() && (ibuf.data == old(ibuf.data) || fresh(ibuf.data))
      ensures received == old(received) + if ok then bytes else []
      ensures obuf.Contents() == old(obuf.Contents())
      ensures !ok ==> ibuf.size + RECV_CHUNK < SIZE_RANGE && !Granted(ibuf.capacity, ibuf.size + RECV_CHUNK, mem)
    {
      hide Pad;
      ok := Commit(ibuf, RECV_CHUNK, bytes, |bytes|, mem);
      assert bytes[..|bytes|] == bytes;
      Regroup(consumed, old(ibuf.Contents()), if ok then bytes else []);
      received := received + if ok then bytes else [];
    }

    /** Offers the whole output buffer to ::send, which takes `len` bytes of it or fails with a negative `len`. */
    method IoWrite(len: int) returns (ok: bool)
      requires Valid() && len <= obuf.size
      modifies this`state, this`waiting, this`told, this`accepted, obuf`head, obuf`size
      ensures waiting == (old(waiting) && !(ok && old(state) == Connecting))
      ensures told == old(told) + if ok && old(state) == Connecting && old(waiting) then [true] else []
      ensures Valid() && Footprint() == old(Footprint())
      ensures ok == open && state == if ok then AfterIo(old(state)) else old(state)
      ensures accepted == old(accepted) + if ok && len > 0 then old(obuf.Contents())[..len] else []
      ensures obuf.Contents() == if ok && len > 0 then old(obuf.Contents())[len..] else old(obuf.Contents())
    {
      hide Buffer.Contents;
      assert accepted + [] == accepted && told + [] == told;
      if !open { return false; }
      Settle();
      if obuf.size > 0 && len > 0 {
        ghost var before := obuf.Contents();
        var done := obuf.TrimHead(len);
        assert done && before == before[..len] + before[len..];
        accepted := accepted + before[..len];
      }
      return true;
    }
  }
}
