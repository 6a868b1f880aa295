/**
 * The single-consumer/single-producer ring buffer `xtm_scsp_queue<T>`:
 * a fixed array of `len` slots, a write cursor, a read cursor and a count
 * of live elements. One slot is always left empty, so `write == read`
 * means "empty" and at most `len - 1` elements are live.
 *
 * The model is sequential: each call runs as one atomic step.
 */
module Scsp {
  import opened Unsigned

  function Min(a: nat, b: nat): (m: nat)
    ensures m <= a && m <= b && (m == a || m == b)
  {
    if a <= b then a else b
  }

  /** The cursor k slots ahead of cursor c in a ring of len slots. */
  function Advance(c: nat, k: nat, len: nat): (r: nat)
    requires c < len && k <= len
    ensures r < len
  {
    if c + k < len then c + k else c + k - len
  }

  /** How many slots lie between cursor `from` and cursor `to`, going forward. */
  function Distance(from: nat, to: nat, len: nat): (d: nat)
    requires from < len && to < len
    ensures d < len && Advance(from, d, len) == to
  {
    if from <= to then to - from else to + len - from
  }

  lemma DistanceAdvance(c: nat, k: nat, len: nat)
    requires c < len && k < len
    ensures Distance(c, Advance(c, k, len), len) == k
  {
  }

  /**
   * Seen from the write cursor of a queue holding n live elements, the
   * cursor k slots past the read cursor lies k - n slots ahead (k >= n) or
   * len - n + k slots ahead (k < n, a live element).
   */
  lemma SlotOffset(read: nat, n: nat, k: nat, len: nat)
    requires read < len && n < len && k <= len
    ensures Advance(read, n, len) == Advance(read, k, len) <==> k == n || (n == 0 && k == len)
    ensures k < len ==> Distance(Advance(read, n, len), Advance(read, k, len), len) == if k >= n then k - n else len - n + k
  {
  }

  /** The n elements found from cursor `from` onwards in a ring of |slots| slots. */
  ghost function Window<T>(slots: seq<T>, from: nat, n: nat): (r: seq<T>)
    requires from < |slots| && n <= |slots|
    ensures |r| == n
  {
    if n == 0 then [] else Window(slots, from, n - 1) + [slots[Advance(from, n - 1, |slots|)]]
  }

  lemma {:induction false} WindowAt<T>(slots: seq<T>, from: nat, n: nat, k: nat)
    requires from < |slots| && k < n <= |slots|
    ensures Window(slots, from, n)[k] == slots[Advance(from, k, |slots|)]
  {
    if k < n - 1 {
      WindowAt(slots, from, n - 1, k);
    }
  }

  /** A window is unaffected by a write to a slot outside it. */
  lemma {:induction false} WindowUnaffected<T>(slots: seq<T>, from: nat, n: nat, p: nat, x: T)
    requires from < |slots| && n <= |slots| && p < |slots|
    requires forall k :: 0 <= k < n ==> Advance(from, k, |slots|) != p
    ensures Window(slots[p := x], from, n) == Window(slots, from, n)
  {
    if n > 0 {
      WindowUnaffected(slots, from, n - 1, p, x);
    }
  }

  /** Dropping the first i elements of a window moves its start i slots forward. */
  lemma {:induction false} WindowDrop<T>(slots: seq<T>, from: nat, n: nat, i: nat)
    requires from < |slots| && i <= n < |slots|
    ensures Window(slots, from, n)[i..] == Window(slots, Advance(from, i, |slots|), n - i)
  {
    if n > i {
      WindowDrop(slots, from, n - 1, i);
      assert Advance(Advance(from, i, |slots|), n - 1 - i, |slots|) == Advance(from, n - 1, |slots|);
      assert Window(slots, from, n)[i..] == Window(slots, from, n - 1)[i..] + [slots[Advance(from, n - 1, |slots|)]];
    }
  }

  /**
   * The slots after storing d from cursor w, one element after the other:
   * d[j] goes to the slot j slots ahead of w.
   */
  ghost function Stored<T>(slots: seq<T>, w: nat, d: seq<T>): (r: seq<T>)
    requires w < |slots| && |d| < |slots|
    ensures |r| == |slots|
  {
    if d == [] then slots
    else Stored(slots, w, d[..|d| - 1])[Advance(w, |d| - 1, |slots|) := d[|d| - 1]]
  }

  /** Storing d from cursor w puts d[j] into the slot j slots ahead of w. */
  lemma {:induction false} StoredAt<T>(slots: seq<T>, w: nat, d: seq<T>, j: nat)
    requires w < |slots| && j < |d| < |slots|
    ensures Stored(slots, w, d)[Advance(w, j, |slots|)] == d[j]
  {
    var len, last := |slots|, |d| - 1;
    if j < last {
      StoredAt(slots, w, d[..last], j);
      DistanceAdvance(w, j, len);
      DistanceAdvance(w, last, len);
    }
  }

  /** Storing d from cursor w leaves every slot |d| or more slots ahead of w as it was. */
  lemma {:induction false} StoredElsewhere<T>(slots: seq<T>, w: nat, d: seq<T>, s: nat)
    requires w < |slots| && |d| < |slots| && s < |slots| && Distance(w, s, |slots|) >= |d|
    ensures Stored(slots, w, d)[s] == slots[s]
  {
    if d != [] {
      var len, last := |slots|, |d| - 1;
      StoredElsewhere(slots, w, d[..last], s);
      DistanceAdvance(w, last, len);
    }
  }

  /**
   * Storing d from the cursor n slots past `read` keeps the n elements
   * found from `read` in place and puts d right behind them: the window
   * from `read` grows by d.
   */
  lemma {:induction false} StoredExtendsWindow<T>(slots: seq<T>, read: nat, n: nat, d: seq<T>)
    requires read < |slots| && n + |d| < |slots|
    ensures Window(Stored(slots, Advance(read, n, |slots|), d), read, n + |d|) == Window(slots, read, n) + d
  {
    var len, w := |slots|, Advance(read, n, |slots|);
    if d == [] {
    } else {
      var last := |d| - 1;
      StoredExtendsWindow(slots, read, n, d[..last]);
      var before := Stored(slots, w, d[..last]);
      var p := Advance(w, last, len);
      assert p == Advance(read, n + last, len);
      forall k | 0 <= k < n + last
        ensures Advance(read, k, len) != p
      {
        DistanceAdvance(read, k, len);
        DistanceAdvance(read, n + last, len);
      }
      WindowUnaffected(before, read, n + last, p, d[last]);
      assert d == d[..last] + [d[last]];
    }
  }

  /** (MODULUS + y) % len for a small negative y, when len divides MODULUS. */
  lemma WrappedRemainder(y: int, len: uint32)
    requires IsPow2(len) && -(len as int) <= y < 0
    ensures (MODULUS + y) % len == len + y
  {
    var c := QuotientOfModulus(len);
    assert MODULUS + y == (c - 1) * len + (len + y);
    RemainderUnique(MODULUS + y, len, c - 1, len + y);
  }

  /** A power of two below 2^32 divides 2^32. */
  lemma QuotientOfModulus(len: uint32) returns (c: nat)
    requires IsPow2(len)
    ensures MODULUS == c * len
  {
    ModulusIsPow2();
    Pow2Divides(len, MODULUS);
    c := MODULUS / len;
  }

  /** `(write - read) & (len - 1)`, computed on `unsigned`, is the number of live elements. */
  lemma LiveCount(read: uint32, write: uint32, len: uint32)
    requires IsPow2(len) && read < len && write < len
    ensures And(Sub(write, read), Sub(len, 1)) == Distance(read, write, len)
  {
    SubWraps(len, 1);
    var x := Sub(write, read);
    MaskIsRemainder(x, len);
    MaskedDifference(read, write, len);
  }

  /** (write - read) on `unsigned`, taken modulo len, is the distance from read to write. */
  lemma MaskedDifference(read: uint32, write: uint32, len: uint32)
    requires IsPow2(len) && read < len && write < len
    ensures Sub(write, read) % len == Distance(read, write, len)
  {
    SubWraps(write, read);
    if read <= write {
      RemainderUnique(write - read, len, 0, write - read);
    } else {
      WrappedRemainder(write - read, len);
    }
  }

  /**
   * `(read - write - 1) & (len - 1)`, computed on `unsigned` with its
   * wrap-around, is the number of slots put may still fill.
   */
  lemma FreeSlots(read: uint32, write: uint32, len: uint32)
    requires IsPow2(len) && read < len && write < len
    ensures And(Sub(Sub(read, write), 1), Sub(len, 1)) == len - 1 - Distance(read, write, len)
  {
    SubWraps(len, 1);
    var x := Sub(Sub(read, write), 1);
    MaskIsRemainder(x, len);
    MaskedSpare(read, write, len);
  }

  /** (read - write - 1) on `unsigned`, taken modulo len, is the number of spare slots. */
  lemma MaskedSpare(read: uint32, write: uint32, len: uint32)
    requires IsPow2(len) && read < len && write < len
    ensures Sub(Sub(read, write), 1) % len == len - 1 - Distance(read, write, len)
  {
    SubWraps(read, write);
    var d := Sub(read, write);
    SubWraps(d, 1);
    var x := Sub(d, 1);
    if read > write {
      RemainderUnique(x, len, 0, x);
    } else {
      WrappedRemainder(read - write - 1, len);
    }
  }

  /**
   * Size 0 passes the power-of-two test of init, and put's first cursor
   * step from slot 0, `(0 + 1) & (0 - 1)`, is 1 and not the read cursor 0:
   * put goes on to store into slot 0 of a buffer without slots.
   */
  lemma ZeroSizeSlipsThrough()
    ensures SingleBitTestPasses(0) && !IsPow2(0)
    ensures And(Add(0, 1), Sub(0, 1)) == 1
  {
    assert Sub(0, 1) == MODULUS - 1;
    assert Add(0, 1) == 1;
    assert And(1, MODULUS - 1) == 2 * And(0, (MODULUS - 1) / 2) + 1;
  }

  class ScspQueue<T(0)> {
    /** Next position to be written. */
    var write: uint32
    /** Next position to be read. */
    var read: uint32
    /** Number of slots of the circular buffer. */
    var len: uint32
    /** Number of live elements. */
    var cnt: uint32
    /** The slots (the flexible array member `buffer[]`). */
    const buffer: array<T>

    /** The live elements, oldest first. */
    ghost var Contents: seq<T>
    /** Every element execute has invoked, in invocation order. */
    ghost var Invoked: seq<T>

    ghost predicate Valid()
      reads this, buffer
    {
      buffer.Length == len && IsPow2(len) &&
      write < len && read < len &&
      |Contents| == Distance(read, write, len) &&
      cnt == |Contents| &&
      Contents == Window(buffer[..], read, |Contents|)
    }

    /** The allocation of the queue with room for `size` slots; the header fields are not yet set. */
    constructor (size: uint32)
      ensures fresh(buffer) && buffer.Length == size
      ensures Contents == [] && Invoked == []
    {
      buffer := new T[size];
      Contents := [];
      Invoked := [];
    }

    /** `xtm_scsp_queue_init`: the power-of-two check, then an empty queue of `size` slots. */
    method Init(size: uint32) returns (rc: int)
      requires size == buffer.Length
      modifies this
      ensures rc == 0 || rc == -1
      ensures rc == 0 <==> size == 0 || IsPow2(size)
      ensures rc == -1 ==> unchanged(this)
      ensures rc == 0 ==> write == 0 && read == 0 && len == size && cnt == 0 && Contents == []
      ensures rc == 0 ==> (Valid() <==> size != 0)
      ensures Invoked == old(Invoked)
    {
      SingleBitTest(size);
      if And(size, Sub(size, 1)) != 0 {
        return -1;
      }
      write := 0;
      read := 0;
      len := size;
      cnt := 0;
      Contents := [];
      return 0;
    }

    /**
     * The initialisation the size check evidently intends: size 0 is
     * refused as well, so a queue that initialises always has a power-of-two
     * number of slots, and is a valid empty queue.
     */
    method InitChecked(size: uint32) returns (rc: int)
      requires size == buffer.Length
      modifies this
      ensures rc == 0 || rc == -1
      ensures rc == 0 <==> IsPow2(size)
      ensures rc == -1 ==> unchanged(this)
      ensures rc == 0 ==> Valid() && len == size && Contents == []
      ensures Invoked == old(Invoked)
    {
      if size == 0 {
        return -1;
      }
      rc := Init(size);
    }

    /**
     * `xtm_scsp_queue_free_count`: `(read - write - 1) & (len - 1)` on
     * `unsigned`, which in a valid queue is the number of slots put may
     * still fill.
     */
    function FreeCount(): (r: uint32)
      reads this, buffer
      ensures Valid() ==> r == len - 1 - |Contents|
    {
      SpareSlotsIfValid();
      And(Sub(Sub(read, write), 1), Sub(len, 1))
    }

    lemma SpareSlotsIfValid()
      ensures Valid() ==> And(Sub(Sub(read, write), 1), Sub(len, 1)) == len - 1 - |Contents|
    {
      if Valid() {
        FreeSlots(read, write, len);
      }
    }

    /** The free count is the number of elements put can still accept. */
    lemma FreeCountIsSpareSlots()
      requires Valid()
      ensures FreeCount() == len - 1 - |Contents|
      ensures Contents == [] ==> FreeCount() == len - 1
      ensures FreeCount() == 0 <==> |Contents| == len - 1
    {
      FreeSlots(read, write, len);
    }

    /** The number of live elements, `(write - read) & (len - 1)`, agrees with the count and the contents. */
    lemma LiveCountIsCount()
      requires Valid()
      ensures And(Sub(write, read), Sub(len, 1)) == cnt == |Contents|
      ensures |Contents| <= len - 1
    {
      LiveCount(read, write, len);
    }

    /**
     * The cursor step `(c + 1) & (len - 1)` of put, get and execute moves a
     * cursor one slot forward, from the last slot back to slot 0.
     */
    method Step(c: uint32) returns (next: uint32)
      requires IsPow2(len) && c < len
      ensures next == Advance(c, 1, len)
    {
      AddWraps(c, 1);
      SubWraps(len, 1);
      MaskIsRemainder(c + 1, len);
      if c + 1 == len {
        RemainderUnique(c + 1, len, 1, 0);
      } else {
        RemainderUnique(c + 1, len, 0, c + 1);
      }
      next := And(Add(c, 1), Sub(len, 1));
    }

    /**
     * The copy loop of `xtm_scsp_queue_put`: stores `data[0..i)` into
     * consecutive slots from the write cursor and stops at the end of the
     * batch or when the next cursor would reach the read cursor; `next` is
     * the write cursor after the batch.
     */
    method Fill(data: seq<T>, num: uint32) returns (i: uint32, next: uint32)
      requires Valid() && num <= |data|
      modifies buffer
      ensures i == Min(num, len - 1 - |Contents|)
      ensures next == Advance(write, i, len) == Advance(read, |Contents| + i, len)
      ensures buffer[..] == Stored(old(buffer[..]), write, data[..i])
    {
      ghost var n0 := |Contents|;
      i := 0;
      next := write;
      var newWrite := next;
      var queueRead := read;
      while i < num
        invariant i <= num && n0 + i <= len - 1
        invariant next == newWrite == Advance(write, i, len) == Advance(read, n0 + i, len)
        invariant buffer[..] == Stored(old(buffer[..]), write, data[..i])
      {
        newWrite := Step(newWrite);
        SlotOffset(read, n0, n0 + i + 1, len);
        if newWrite == queueRead {
          break;
        }
        assert data[..i + 1][..i] == data[..i];
        buffer[next] := data[i];
        next := newWrite;
        i := i + 1;
      }
    }

    /**
     * `xtm_scsp_queue_put`: writes `data[0..written)` into consecutive slots
     * from the write cursor, stopping one slot short of the read cursor;
     * `prior` is the count before the batch.
     */
    method Put(data: seq<T>, num: uint32) returns (written: uint32, prior: uint32)
      requires Valid() && num <= |data|
      modifies this, buffer
      ensures Valid() && len == old(len) && read == old(read) && Invoked == old(Invoked)
      ensures written == Min(num, len - 1 - |old(Contents)|)
      ensures Contents == old(Contents) + data[..written]
      ensures prior == old(cnt) && cnt == old(cnt) + written
      ensures write == Advance(old(write), written, len)
      ensures buffer[..] == Stored(old(buffer[..]), old(write), data[..written])
    {
      ghost var n0 := |Contents|;
      var i, queueWrite := Fill(data, num);
      StoredExtendsWindow(old(buffer[..]), read, n0, data[..i]);
      DistanceAdvance(read, n0 + i, len);
      prior := cnt;
      AddWraps(cnt, i);
      cnt := Add(cnt, i);
      write := queueWrite;
      Contents := Contents + data[..i];
      written := i;
    }

    /**
     * The copy loop of `xtm_scsp_queue_get`: copies live elements, oldest
     * first, into `data[0..i)` and stops at the end of the batch or at the
     * write cursor; `next` is the read cursor after the batch.
     */
    method Drain(data: array<T>, num: uint32) returns (i: uint32, next: uint32)
      requires Valid() && num <= data.Length && data != buffer
      modifies data
      ensures i == Min(num, |Contents|)
      ensures next == Advance(read, i, len)
      ensures data[..i] == Contents[..i]
      ensures data[i..] == old(data[i..])
    {
      i := 0;
      next := read;
      var queueWrite := write;
      while i < num
        invariant i <= num && i <= |Contents|
        invariant next == Advance(read, i, len)
        invariant data[..i] == Contents[..i]
        invariant forall j :: i <= j < data.Length ==> data[j] == old(data[j])
      {
        if next == queueWrite {
          break;
        }
        DistanceAdvance(read, i, len);
        WindowAt(buffer[..], read, |Contents|, i);
        data[i] := buffer[next];
        next := Step(next);
        i := i + 1;
      }
    }

    /**
     * `xtm_scsp_queue_get`: copies up to `num` live elements, oldest first,
     * into `data`, stopping at the write cursor; `newCnt` is the count after.
     */
    method Get(data: array<T>, num: uint32) returns (got: uint32, newCnt: uint32)
      requires Valid() && num <= data.Length && data != buffer
      modifies this, data
      ensures Valid() && len == old(len) && write == old(write) && Invoked == old(Invoked)
      ensures got == Min(num, |old(Contents)|)
      ensures data[..got] == old(Contents)[..got]
      ensures data[got..] == old(data[got..])
      ensures Contents == old(Contents)[got..]
      ensures read == Advance(old(read), got, len)
      ensures newCnt == cnt == old(cnt) - got
    {
      var i, newRead := Drain(data, num);
      WindowDrop(buffer[..], read, |Contents|, i);
      SubWraps(cnt, i);
      cnt := Sub(cnt, i);
      newCnt := cnt;
      read := newRead;
      Contents := Contents[i..];
      got := i;
    }

    /**
     * `xtm_scsp_queue_execute`: invokes every live element, oldest first,
     * up to the write cursor; each invocation is recorded in `Invoked`.
     */
    method Execute() returns (invoked: uint32, newCnt: uint32)
      requires Valid()
      modifies this
      ensures Valid() && len == old(len) && write == old(write)
      ensures invoked == |old(Contents)|
      ensures Invoked == old(Invoked) + old(Contents)
      ensures Contents == [] && read == old(write)
      ensures newCnt == cnt == old(cnt) - invoked
    {
      var i: uint32 := 0;
      var newRead := read;
      var queueWrite := write;
      while true
        invariant write == old(write) && read == old(read) && len == old(len) && cnt == old(cnt)
        invariant Contents == old(Contents)
        invariant i <= |Contents|
        invariant newRead == Advance(read, i, len)
        invariant Invoked == old(Invoked) + Contents[..i]
        decreases |Contents| - i
      {
        if newRead == queueWrite {
          break;
        }
        DistanceAdvance(read, i, len);
        WindowAt(buffer[..], read, |Contents|, i);
        // fun(fun_arg) of the slot: recorded, not run
        Invoked := Invoked + [buffer[newRead]];
        newRead := Step(newRead);
        i := i + 1;
      }
      WindowDrop(buffer[..], read, |Contents|, i);
      SubWraps(cnt, i);
      cnt := Sub(cnt, i);
      newCnt := cnt;
      read := newRead;
      Contents := Contents[i..];
      invoked := i;
    }
  }

  /** FIFO round trip: what put stores into an empty queue, get returns in the same order. */
  method PutThenGet<T(0)>(q: ScspQueue<T>, data: seq<T>, out: array<T>) returns (got: uint32)
    requires q.Valid() && q.Contents == [] && |data| < q.len
    requires |data| <= out.Length && out != q.buffer
    modifies q, q.buffer, out
    ensures q.Valid() && q.Contents == [] && q.Invoked == old(q.Invoked)
    ensures got == |data| && out[..got] == data
  {
    var written, prior := q.Put(data, |data|);
    var remaining;
    got, remaining := q.Get(out, |data|);
  }
}
