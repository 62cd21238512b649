// The queue that hands messages from one thread to another. A locked region is one
// atomic call.
module MessageQueue {
  import opened Basics

  class MessageQueue<MSG> {
    var queue: seq<MSG>
    ghost var posted: seq<MSG>
    ghost var taken: seq<MSG>

    /** Every message posted is taken once, in the order of posting, or still queued. */
    ghost predicate Valid()
      reads this
    {
      posted == taken + queue
    }

    constructor ()
      ensures Valid() && posted == taken == queue == []
    {
      queue, posted, taken := [], [], [];
    }

    method Post(msg: MSG) returns (ok: bool)
      requires Valid()
      modifies this`queue, this`posted
      ensures ok && Valid() && queue == old(queue) + [msg] && posted == old(posted) + [msg]
    {
      queue := queue + [msg];
      posted := posted + [msg];
      return true;
    }

    /** `meanwhile` is what other threads post while an empty queue is waited for. */
    method Get(meanwhile: seq<MSG>) returns (msg: Option<MSG>)
      requires Valid()
      modifies this
      ensures Valid()
      ensures posted == old(posted) + if old(queue) == [] then meanwhile else []
      ensures msg.None? <==> old(queue) == [] && meanwhile == []
      ensures msg.None? ==> taken == old(taken) && queue == []
      ensures msg.Some? ==> taken == old(taken) + [msg.value] && taken <= posted
                            && [msg.value] + queue == if old(queue) == [] then meanwhile else old(queue)
    {
      if |queue| == 0 {
        queue := meanwhile;
        posted := posted + meanwhile;
        if |queue| == 0 { return None; }
      }
      msg := Some(queue[0]);
      taken := taken + [queue[0]];
      queue := queue[1..];
    }
  }
}
