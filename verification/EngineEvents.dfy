// What a poll event does in full: which callbacks it makes, in which order, and what it
// leaves in the two buffers; and how a connection is watched once a worker has it.
module EngineEvents {
  import opened Basics
  import opened TcpStream
  import opened NetEngine
  import opened EngineSystem
  import opened EngineOwnership
  import opened EngineStory
  import opened EngineLeases
  import opened EngineRuns

  /** One mark, or none. */
  function MarkIf(b: bool, callback: Callback, thread: nat): seq<Mark> {
    if b then [Mark(callback, thread)] else []
  }

  /** What the kernel takes leaves the output, and the callbacks queue and take what they like. */
  lemma WhatWritingDoes(c: Conn, thread: nat, now: U64, io: Io, rs: Replies)
    ensures var opens := c.state == Connecting;
            var writes := opens ==> rs.open.ok;
            var output := c.output + (if opens then rs.open.sent else 0);
            var drains := writes && output <= io.takes;
            var unread := c.input - (if opens then Min(rs.open.taken, c.input) else 0);
            var d := WriteEvent(c, thread, now, io, rs);
            && d.trace == c.trace + MarkIf(opens, OnOpened, thread) + MarkIf(drains, OnSent, thread)
            && d.output == (if drains then rs.sent.sent else if writes then output - io.takes else output)
            && d.input == unread - (if drains then Min(rs.sent.taken, unread) else 0)
            && d.interest == c.interest && d.writing == c.writing
            && (WriteEnds(c, thread, now, io, rs) <==> !writes || (drains && !rs.sent.ok))
  {
    hide CloseTimes;
    assert c.trace + [] == c.trace;
  }

  lemma WhatReadingDoes(c: Conn, thread: nat, now: U64, io: Io, r: Reply)
    ensures var pending := c.input + io.gives;
            var d := ReadEvent(c, thread, now, io, r);
            && d.trace == c.trace + MarkIf(pending > 0, OnRecv, thread)
            && d.output == c.output + (if pending > 0 then r.sent else 0)
            && d.input == pending - Min(r.taken, pending)
            && d.interest == c.interest && d.writing == c.writing
  {
    hide CloseTimes;
  }

  /** An event that may be written calls cb_net_opened if the connection was connecting,
      and then, unless that answered false, cb_net_sent if the kernel takes all there
      is to send. An event that may be read calls cb_net_recv if there is any input
      then, unless the event ended at a callback that answered false. What the kernel
      takes leaves the output and what it gives joins the input; beyond that the
      buffers change by what the callbacks made queue and take. */
  lemma EventCalls(c: Conn, thread: nat, now: U64, io: Io, rs: Replies)
    ensures var opens := io.writable && c.state == Connecting;
            var writes := io.writable && (opens ==> rs.open.ok);
            var output := c.output + (if opens then rs.open.sent else 0);
            var drains := writes && output <= io.takes;
            var hears := io.readable && (io.writable ==> writes && (drains ==> rs.sent.ok));
            var unread := c.input - (if opens then Min(rs.open.taken, c.input) else 0);
            var left := unread - (if drains then Min(rs.sent.taken, unread) else 0);
            var calls := hears && left + io.gives > 0;
            var d := Handle(c, thread, now, io, rs);
            && d.trace == c.trace + MarkIf(opens, OnOpened, thread) + MarkIf(drains, OnSent, thread)
                          + MarkIf(calls, OnRecv, thread)
            && d.output == (if drains then rs.sent.sent else if writes then output - io.takes else output)
                           + (if calls then rs.recv.sent else 0)
            && d.input == (if calls then left + io.gives - Min(rs.recv.taken, left + io.gives) else left)
            && d.interest == c.interest && d.writing == c.writing
  {
    hide WriteEvent, ReadEvent, WriteEnds;
    assert c.trace + [] == c.trace;
    WhatWritingDoes(c, thread, now, io, rs);
    WhatReadingDoes(c, thread, now, io, rs.recv);
    var d := WriteEvent(c, thread, now, io, rs);
    assert d.trace + [] == d.trace;
    WhatReadingDoes(d, thread, now, io, rs.recv);
  }

  /** From the moment a worker has taken a connection the poller watches it: for writing
      too if it is still connecting, else for reading only. */
  lemma TakenIsWatched(s: System, run: seq<Step>, w: nat)
    requires Initial(s) && Valid(s, run) && Enabled(After(s, run), Take(w))
    ensures var t := After(s, run);
            var id := t.boxes[Inbox(w)][0];
            var c, d := t.members[id].conn, Apply(t, Take(w)).members[id].conn;
            && d.interest == (if c.state == Connecting then ReadWrite else Read)
            && d == c.(interest := d.interest, writing := c.state == Connecting)
  {
    hide Valid, After, Shaped, Balanced, Opens, Going;
    RunInv(s, run);
    var t := After(s, run);
    assert Told(t.members[t.boxes[Inbox(w)][0]], s.workers);
  }
}
