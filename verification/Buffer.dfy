// The sliding byte buffer: a window of `size` bytes at `head` in an allocated
// block. Every operation is proved against the plain sequence of buffered bytes.
module ByteBuffer {
  import opened Basics
  import opened Text

  /** size_t, and the largest block the allocator can hand out (PTRDIFF_MAX). */
  const SIZE_RANGE: nat := 0x1_0000_0000_0000_0000
  const MAX_BLOCK: nat := 0x7fff_ffff_ffff_ffff

  type Size = n: nat | n < SIZE_RANGE

  /** ((n + 15) >> 4) << 4 in size_t arithmetic. */
  function Pad(n: nat): (p: nat)
    requires n < SIZE_RANGE
    ensures p % 16 == 0 && p < SIZE_RANGE
    ensures n + 15 < SIZE_RANGE ==> n <= p < n + 16
  {
    var m := if n + 15 < SIZE_RANGE then n + 15 else n + 15 - SIZE_RANGE;
    m / 16 * 16
  }

  /** a + b in size_t arithmetic. */
  function Wrap(n: nat): (r: nat)
    requires n < 3 * SIZE_RANGE
    ensures r < SIZE_RANGE
    ensures n < SIZE_RANGE ==> r == n
  {
    if n < SIZE_RANGE then n else if n < 2 * SIZE_RANGE then n - SIZE_RANGE else n - 2 * SIZE_RANGE
  }

  /** What realloc is asked for succeeds if the block is already large enough, or memory and address space allow it. */
  predicate Granted(capacity: nat, n: Size, mem: bool) {
    Pad(n) <= capacity || (mem && Pad(n) <= MAX_BLOCK)
  }

  /** What fits the address space is granted when enough is there already or the allocator has it;
      larger demands are refused, up to those whose padding wraps round to nothing. */
  lemma GrantedIff(capacity: nat, n: Size, mem: bool)
    requires capacity % 16 == 0
    ensures n + 15 <= MAX_BLOCK ==> (Granted(capacity, n, mem) <==> mem || n <= capacity)
    ensures MAX_BLOCK < n + 15 < SIZE_RANGE && capacity <= MAX_BLOCK ==> !Granted(capacity, n, mem)
    ensures SIZE_RANGE <= n + 15 ==> Granted(capacity, n, mem)
  {
  }

  /** A block grown to size + n holds them at the head that is then used, unless size + n or its padding overflows. */
  lemma RoomIff(before: nat, capacity: nat, head: nat, size: nat, n: Size)
    requires head + size <= before <= capacity <= MAX_BLOCK
    requires capacity == Max(before, Pad(Wrap(size + n)))
    ensures var h := if capacity <= Wrap(head + size + n) then 0 else head;
            h + size + n <= capacity <==> size + n + 15 < SIZE_RANGE
  {
  }

  function Largest(demands: seq<nat>): nat {
    if demands == [] then 0 else Max(Largest(demands[..|demands| - 1]), demands[|demands| - 1])
  }

  lemma LargestSnoc(demands: seq<nat>, n: nat)
    ensures Largest(demands + [n]) == Max(Largest(demands), n)
  {
    assert (demands + [n])[..|demands|] == demands;
  }

  lemma Joined(all: seq<Byte>, a: nat, b: nat, c: nat)
    requires a <= b <= c <= |all|
    ensures all[a..c] == all[a..b] + all[b..c]
  {
  }

  lemma Stretches(all: seq<Byte>, a: nat, bytes: seq<Byte>)
    requires a + |bytes| <= |all| && forall i :: 0 <= i < |bytes| ==> all[a + i] == bytes[i]
    ensures forall k :: 0 <= k <= |bytes| ==> all[a..a + k] == bytes[..k]
  {
  }

  class Buffer {
    var data: array?<Byte>
    var capacity: nat
    var head: nat
    var size: nat
    // the rounded sizes asked for and granted since the last free
    ghost var demands: seq<nat>

    ghost predicate Valid()
      reads this
    {
      && head + size <= capacity <= MAX_BLOCK && (size == 0 ==> head == 0)
      && (data == null <==> capacity == 0) && (data != null ==> data.Length == capacity)
      && capacity == Largest(demands) && capacity % 16 == 0
    }

    /** The buffered bytes, first to last. */
    ghost function Contents(): (c: seq<Byte>)
      requires Valid()
      reads this, data
      ensures |c| == size
    {
      if data == null then [] else data[head..head + size]
    }

    /** n bytes may be written behind the buffered ones. */
    ghost predicate Room(n: nat)
      reads this
    {
      head + size + n <= capacity
    }

    /** The k bytes behind the buffered ones. */
    ghost function Behind(k: nat): (c: seq<Byte>)
      requires Valid() && Room(k)
      reads this, data
      ensures |c| == k
    {
      if data == null then [] else data[head + size..head + size + k]
    }

    lemma BehindStarts(n: nat, k: nat)
      requires Valid() && Room(k) && n <= k
      ensures Behind(k)[..n] == Behind(n)
    {
    }

    constructor ()
      ensures Valid() && Contents() == [] && data == null && capacity == 0
    {
      data, capacity, head, size, demands := null, 0, 0, 0, [];
    }

    /** Copy construction; the copy stays empty where the source throws bad_alloc. */
    constructor Copy(o: Buffer, mem: bool)
      requires o.Valid()
      ensures Valid() && (data == null || fresh(data))
      ensures Contents() == if Granted(0, o.size, mem) then o.Contents() else []
    {
      data, capacity, head, size, demands := null, 0, 0, 0, [];
      new;
      var ok := Realloc(o.size, mem);
      if ok { Fetch(o); }
    }

    /** memcpy of the other window to the front of a block that is large enough. */
    method Fetch(o: Buffer)
      requires Valid() && o.Valid() && head == size == 0 && o.size <= capacity
      requires o.data == null || o.data != data
      modifies this`size, data
      ensures Valid() && o.Contents() == old(o.Contents()) && Contents() == o.Contents()
    {
      hide Largest;
      ghost var bytes := o.Contents();
      size := o.size;
      if size > 0 {
        forall i | 0 <= i < o.size { data[i] := o.data[o.head + i]; }
        assert forall i :: 0 <= i < size ==> data[..size][i] == bytes[i];
      }
    }

    constructor Move(o: Buffer)
      requires o.Valid()
      modifies o
      ensures Valid() && Contents() == old(o.Contents()) && data == old(o.data) && capacity == old(o.capacity)
      ensures o.Valid() && o.Contents() == [] && o.data == null
    {
      data, capacity, head, size, demands := o.data, o.capacity, o.head, o.size, o.demands;
      new;
      o.data, o.capacity, o.head, o.size, o.demands := null, 0, 0, 0, [];
    }

    /** Assignment from another buffer, or from itself, which loses the contents. */
    method CopyFrom(o: Buffer, mem: bool) returns (ok: bool)
      requires Valid() && o.Valid() && (o == this || o.data == null || o.data != data)
      modifies this
      ensures Valid() && (data == null || fresh(data))
      ensures o != this ==> ok == Granted(0, o.size, mem) && o.Contents() == old(o.Contents())
      ensures Contents() == if o == this || !ok then [] else o.Contents()
    {
      hide Pad, Largest, Granted;
      Free();
      ok := Realloc(o.size, mem);
      if ok { Fetch(o); }
    }

    method MoveFrom(o: Buffer)
      requires Valid() && o.Valid()
      modifies this, o
      ensures Valid() && Contents() == if o == this then [] else old(o.Contents())
      ensures data == if o == this then null else old(o.data)
      ensures o.Valid() && o.Contents() == [] && o.data == null
    {
      Free();
      if o != this {
        data, capacity, head, size, demands := o.data, o.capacity, o.head, o.size, o.demands;
        o.data, o.capacity, o.head, o.size, o.demands := null, 0, 0, 0, [];
      }
    }

    method Free()
      requires Valid()
      modifies this
      ensures Valid() && Contents() == [] && data == null && capacity == 0
    {
      data, capacity, head, size, demands := null, 0, 0, 0, [];
    }

    /** Makes the block at least n bytes, rounded up; `mem` says whether the allocator would find the memory. */
    method Realloc(n: Size, mem: bool) returns (ok: bool)
      requires Valid()
      modifies this
      ensures Valid() && ok == Granted(old(capacity), n, mem)
      ensures n + 15 <= MAX_BLOCK ==> (ok <==> mem || n <= old(capacity))
      ensures MAX_BLOCK < n + 15 < SIZE_RANGE ==> !ok
      ensures !ok ==> unchanged(this)
      ensures ok ==> capacity == Max(old(capacity), Pad(n)) && demands == old(demands) + [Pad(n)]
      ensures Contents() == old(Contents()) && head == old(head) && size == old(size)
      ensures data == old(data) || fresh(data)
    {
      GrantedIff(capacity, n, mem);
      var padded := Pad(n);
      if capacity < padded {
        if !mem || padded > MAX_BLOCK { return false; }
        data := Grown(padded);
        capacity := padded;
      }
      LargestSnoc(demands, padded);
      demands := demands + [padded];
      return true;
    }

    /** A larger block that starts with the bytes of the present one. */
    method Grown(n: nat) returns (block: array<Byte>)
      requires Valid() && capacity < n
      ensures fresh(block) && block.Length == n
      ensures block[head..head + size] == Contents()
    {
      block := new Byte[n];
      if data != null {
        forall i | 0 <= i < capacity { block[i] := data[i]; }
        assert block[head..head + size] == data[head..head + size];
      }
    }

    /** Makes room for n more bytes and says where they go. There is room exactly when size + n does not overflow. */
    method ReserveBegin(n: Size, mem: bool) returns (ok: bool, tail: nat)
      requires Valid()
      modifies this, data
      ensures Valid() && Contents() == old(Contents()) && size == old(size)
      ensures ok == Granted(old(capacity), Wrap(size + n), mem)
      ensures size + n + 15 <= MAX_BLOCK ==> (ok <==> mem || size + n <= old(capacity))
      ensures !ok ==> unchanged(this) && (data != null ==> unchanged(data))
      ensures ok ==> capacity == Max(old(capacity), Pad(Wrap(size + n)))
      ensures ok ==> tail == head + size && (Room(n) <==> size + n + 15 < SIZE_RANGE)
      ensures data == old(data) || fresh(data)
    {
      hide Pad, Wrap, Granted, Largest, Contents;
      tail := 0;
      ok := Realloc(Wrap(size + n), mem);
      if !ok { return; }
      RoomIff(old(capacity), capacity, head, size, n);
      if capacity <= Wrap(head + size + n) {
        Slide();
      }
      tail := head + size;
    }

    /** memmove of the window to the front of the block. */
    method Slide()
      requires Valid()
      modifies this`head, data
      ensures Valid() && head == 0 && Contents() == old(Contents())
    {
      if data != null {
        forall i | 0 <= i < size { data[i] := data[head + i]; }
        assert data[..size] == old(data[head..head + size]);
      }
      head := 0;
    }

    /** Writes into the reserved space, as a caller does through the pointer it was given. */
    method Fill(bytes: seq<Byte>)
      requires Valid() && Room(|bytes|)
      modifies data
      ensures Valid() && Contents() == old(Contents())
      ensures forall k :: 0 <= k <= |bytes| ==> Behind(k) == bytes[..k]
    {
      hide Largest;
      if bytes != [] {
        forall i | 0 <= i < |bytes| { data[head + size + i] := bytes[i]; }
        assert data[head..head + size] == old(data[head..head + size]);
        ghost var all, a := data[..], head + size;
        assert forall i :: 0 <= i < |bytes| ==> all[a + i] == bytes[i];
        Stretches(all, a, bytes);
      }
    }

    /** The buffered bytes, as a reader sees them through the pointer and size. */
    method Read() returns (bytes: seq<Byte>)
      requires Valid()
      ensures bytes == Contents()
    {
      return if data == null then [] else data[head..head + size];
    }

    /** Takes the next k bytes into the buffer; refused when they do not lie within the block. */
    method ReserveEnd(k: Size) returns (ok: bool)
      requires Valid()
      modifies this`size
      ensures ok == (k == 0 || Wrap(head + old(size) + k) <= capacity)
      ensures head + old(size) + k < SIZE_RANGE ==>
                && Valid() && ok == old(Room(k))
                && Contents() == old(Contents()) + if ok then old(if Room(k) then Behind(k) else []) else []
      ensures !ok ==> unchanged(this)
    {
      hide Largest;
      ghost var bytes := Contents();
      assert bytes + [] == bytes;
      if k > 0 {
        if Wrap(head + size + k) > capacity { return false; }
        if Room(k) && data != null { Joined(data[..], head, head + size, head + size + k); }
        size := Wrap(size + k);
      }
      return true;
    }

    method TrimHead(n: Size) returns (ok: bool)
      requires Valid()
      modifies this`head, this`size
      ensures Valid() && ok == (n <= old(size))
      ensures Contents() == if ok then old(Contents())[n..] else old(Contents())
      ensures !ok ==> unchanged(this)
    {
      if size < n { return false; }
      head := head + n;
      size := size - n;
      if size == 0 { head := 0; }
      return true;
    }

    method TrimTail(n: Size) returns (ok: bool)
      requires Valid()
      modifies this`head, this`size
      ensures Valid() && ok == (n <= old(size))
      ensures Contents() == if ok then old(Contents())[..old(size) - n] else old(Contents())
      ensures !ok ==> unchanged(this)
    {
      if size < n { return false; }
      size := size - n;
      if size == 0 { head := 0; }
      return true;
    }
  }
}
