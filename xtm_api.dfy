/**
 * The queue channel of xtm: a `xtm_queue` couples a ring buffer of
 * messages `{fun, fun_arg}` with a pipe. The producer dispatches messages
 * and writes 8 bytes into the pipe to wake the consumer; the consumer
 * drains the pipe and invokes the queued functions in order.
 *
 * The operating system is a parameter: every system call (malloc, pipe,
 * fcntl, write, read, close) is given an `Attempt` that says whether the
 * call goes through or fails with an errno value. The pipe is a count of
 * pending bytes. `errno` is passed in and handed back.
 */
module Xtm {
  import opened Unsigned
  import opened Scsp

  /** Linux errno values used by the channel. */
  const EINTR: int := 4
  const EAGAIN: int := 11
  const EINVAL: int := 22
  const ENOBUFS: int := 105

  /** `XTM_PIPE_SIZE`: the pipe capacity requested with `F_SETPIPE_SZ`. */
  const PIPE_SIZE: nat := 4096
  /** `sizeof(uint64_t)`: the size of one notification. */
  const NOTIFY_BYTES: nat := 8

  /** A function pointer and a data pointer, by identity. */
  type FunRef = nat
  type ArgRef = nat

  /** `struct msg`: the function to call and its argument. */
  datatype Msg = Msg(fun: FunRef, funArg: ArgRef)

  /** One system call: it goes through, or it fails and sets errno to `code`. */
  datatype Attempt = Proceeds | Fails(code: int)

  /** What the process holds on behalf of one channel. */
  datatype Resource = QueueMemory | RingMemory | ReadEnd | WriteEnd

  const AllResources: set<Resource> := {QueueMemory, RingMemory, ReadEnd, WriteEnd}

  /**
   * The k-th attempt of a retried system call. Once the script is used up
   * the call goes through: interruptions do not go on for ever.
   */
  function AttemptAt(script: seq<Attempt>, k: nat): Attempt {
    if k < |script| then script[k] else Proceeds
  }

  /** The attempt that ends an EINTR retry loop: the first one not interrupted. */
  function Settled(script: seq<Attempt>): (a: Attempt)
    ensures a != Fails(EINTR)
    ensures script == [] ==> a == Proceeds
  {
    if script == [] then Proceeds
    else if script[0] == Fails(EINTR) then Settled(script[1..])
    else script[0]
  }

  /** Skipping interrupted attempts does not change which attempt settles the loop. */
  lemma {:induction false} SettledSkips(script: seq<Attempt>, k: nat)
    requires k <= |script|
    requires forall j :: 0 <= j < k ==> script[j] == Fails(EINTR)
    ensures Settled(script) == Settled(script[k..])
  {
    if k > 0 {
      assert script[1..][k - 1..] == script[k..];
      SettledSkips(script[1..], k - 1);
    }
  }

  /** errno after a retry loop whose settling call went through: EINTR if any attempt was interrupted. */
  function ErrnoAfterRetries(script: seq<Attempt>, errnoIn: int): int {
    if script != [] && script[0] == Fails(EINTR) then EINTR else errnoIn
  }

  /** The errno of a failed system call that went through but found the pipe full or empty. */
  function FailureCode(a: Attempt): int {
    if a.Fails? then a.code else EAGAIN
  }

  /** The system calls of `xtm_create`, in the order it makes them, and the descriptors `pipe` returns. */
  datatype CreateEnv = CreateEnv(
    allocQueue: Attempt,
    allocRing: Attempt,
    pipe: Attempt,
    nonblockRead: Attempt,
    nonblockWrite: Attempt,
    pipeSizeRead: Attempt,
    pipeSizeWrite: Attempt,
    readFd: int,
    writeFd: int)

  function Steps(env: CreateEnv): (s: seq<Attempt>)
    ensures |s| == 7
  {
    [env.allocQueue, env.allocRing, env.pipe, env.nonblockRead, env.nonblockWrite,
     env.pipeSizeRead, env.pipeSizeWrite]
  }

  /**
   * The index of the first system call that fails, or |steps| if none does:
   * every `if (...) goto` of `xtm_create`, and each `||`, stops at the first failure.
   */
  function FirstFailure(steps: seq<Attempt>): (i: nat)
    ensures i <= |steps|
    ensures forall j :: 0 <= j < i ==> steps[j] == Proceeds
    ensures i < |steps| ==> steps[i].Fails?
  {
    if steps == [] || steps[0].Fails? then 0 else 1 + FirstFailure(steps[1..])
  }

  /** The first failure is the one every earlier call went through before. */
  lemma FirstFailureIs(steps: seq<Attempt>, m: nat)
    requires m <= |steps|
    requires forall j :: 0 <= j < m ==> steps[j] == Proceeds
    requires m < |steps| ==> steps[m].Fails?
    ensures FirstFailure(steps) == m
  {
  }

  /** Index in `Steps` of the first fcntl call. */
  const FIRST_FCNTL: nat := 3

  class XtmQueue {
    /** The message ring buffer. */
    const ring: ScspQueue<Msg>
    /** `filedes[0]`, the read end of the pipe. */
    const readFd: int
    /** `filedes[1]`, the write end of the pipe. */
    const writeFd: int
    /** Bytes written into the pipe and not yet read. */
    var pending: nat
    /** What this channel holds, until it is deleted. */
    ghost var Held: set<Resource>

    ghost predicate Valid()
      reads this, ring, ring.buffer
    {
      ring.Valid() && pending <= PIPE_SIZE && Held == AllResources
    }

    constructor (ring: ScspQueue<Msg>, readFd: int, writeFd: int)
      ensures this.ring == ring && this.readFd == readFd && this.writeFd == writeFd
      ensures pending == 0 && Held == AllResources
    {
      this.ring := ring;
      this.readFd := readFd;
      this.writeFd := writeFd;
      pending := 0;
      Held := AllResources;
    }

    /**
     * `xtm_fd`: the descriptor the consumer waits on, the read end of the
     * pipe `xtm_create` obtained.
     */
    function Fd(): (fd: int)
      ensures fd == readFd
    {
      readFd
    }

    /** The descriptor returned by `Fd` is ready to read: a notification is waiting in the pipe. */
    ghost predicate Readable()
      reads this
    {
      pending > 0
    }

    /**
     * `xtm_msg_probe`: -1 with ENOBUFS exactly when the ring has no free
     * slot, that is when it holds len - 1 messages; the queue is not changed.
     */
    method Probe(errnoIn: int) returns (rc: int, errno: int)
      requires Valid()
      ensures rc == -1 <==> |ring.Contents| == ring.len - 1
      ensures rc == 0 || rc == -1
      ensures errno == (if rc == -1 then ENOBUFS else errnoIn)
    {
      ring.FreeCountIsSpareSlots();
      if ring.FreeCount() == 0 {
        return -1, ENOBUFS;
      }
      return 0, errnoIn;
    }

    /**
     * `xtm_msg_notify`: writes one 8-byte value into the pipe, retrying
     * while the write is interrupted; 0 only when all 8 bytes were written.
     * A write that goes through fails with EAGAIN when the pipe is full.
     */
    method Notify(script: seq<Attempt>, errnoIn: int) returns (rc: int, errno: int)
      requires Valid()
      modifies this
      ensures Valid() && Held == old(Held)
      ensures var wrote := Settled(script) == Proceeds && old(pending) + NOTIFY_BYTES <= PIPE_SIZE;
        rc == (if wrote then 0 else -1) &&
        pending == old(pending) + (if wrote then NOTIFY_BYTES else 0)
      ensures rc == 0 ==> errno == ErrnoAfterRetries(script, errnoIn) && Readable()
      ensures rc == -1 ==> errno == FailureCode(Settled(script))
    {
      var k := 0;
      var cnt: int := -1;
      errno := errnoIn;
      while true
        invariant k <= |script|
        invariant forall j :: 0 <= j < k ==> script[j] == Fails(EINTR)
        invariant pending == old(pending) && Held == old(Held)
        invariant errno == (if k == 0 then errnoIn else EINTR)
        decreases |script| - k
        modifies this
      {
        var a := AttemptAt(script, k);
        if a.Fails? {
          cnt, errno := -1, a.code;
        } else if pending + NOTIFY_BYTES <= PIPE_SIZE {
          pending := pending + NOTIFY_BYTES;
          cnt := NOTIFY_BYTES;
        } else {
          cnt, errno := -1, EAGAIN;
        }
        if !(cnt < 0 && errno == EINTR) {
          SettledSkips(script, k);
          break;
        }
        k := k + 1;
      }
      rc := if cnt == NOTIFY_BYTES then 0 else -1;
    }

    /**
     * `xtm_fun_dispatch`: puts `{fun, fun_arg}` into the ring. A full ring
     * fails with ENOBUFS and nothing changes. Otherwise the consumer is
     * notified only when `delayed` is 0 and the ring was empty before.
     */
    method Dispatch(fun: FunRef, funArg: ArgRef, delayed: int, script: seq<Attempt>, errnoIn: int)
      returns (rc: int, errno: int)
      requires Valid()
      modifies this, ring, ring.buffer
      ensures Valid() && ring.Invoked == old(ring.Invoked)
      ensures var full := |old(ring.Contents)| == ring.len - 1;
        var notifies := !full && delayed == 0 && old(ring.cnt) == 0;
        var wrote := notifies && Settled(script) == Proceeds && old(pending) + NOTIFY_BYTES <= PIPE_SIZE;
        ring.Contents == (if full then old(ring.Contents) else old(ring.Contents) + [Msg(fun, funArg)]) &&
        pending == old(pending) + (if wrote then NOTIFY_BYTES else 0) &&
        (wrote ==> Readable()) &&
        rc == (if full || (notifies && !wrote) then -1 else 0) &&
        errno == (if full then ENOBUFS
                  else if !notifies then errnoIn
                  else if wrote then ErrnoAfterRetries(script, errnoIn)
                  else FailureCode(Settled(script)))
    {
      var msg := Msg(fun, funArg);
      ring.LiveCountIsCount();
      var written, cnt := ring.Put([msg], 1);
      if written != 1 {
        return -1, ENOBUFS;
      }
      assert [msg][..written] == [msg];
      if delayed == 0 && cnt == 0 {
        rc, errno := Notify(script, errnoIn);
        return;
      }
      return 0, errnoIn;
    }

    /**
     * `xtm_fun_invoke`: runs every queued message in order and returns the
     * ring's count after the drain, which is 0: the number of messages
     * queued in the meantime, not the number run.
     */
    method Invoke() returns (rc: int)
      requires Valid()
      modifies ring
      ensures Valid() && ring.len == old(ring.len)
      ensures ring.Invoked == old(ring.Invoked) + old(ring.Contents)
      ensures ring.Contents == [] && rc == ToInt(ring.cnt) == 0
    {
      var invoked, cnt := ring.Execute();
      rc := ToInt(cnt);
    }

    /**
     * `xtm_fun_invoke_with_pipe_flushing`: reads up to 4096 bytes from the
     * pipe, retrying while interrupted. A read that fails with anything but
     * EAGAIN (an empty pipe) returns -1; otherwise errno is restored and the
     * queued messages are invoked.
     */
    method InvokeWithPipeFlushing(script: seq<Attempt>, errnoIn: int) returns (rc: int, errno: int)
      requires Valid()
      modifies this, ring
      ensures Valid()
      ensures var a := Settled(script);
        var failed := a.Fails? && a.code != EAGAIN;
        rc == (if failed then -1 else 0) &&
        pending == (if a == Proceeds then 0 else old(pending)) &&
        (a == Proceeds ==> !Readable()) &&
        errno == (if failed then a.code else errnoIn) &&
        ring.Invoked == (if failed then old(ring.Invoked) else old(ring.Invoked) + old(ring.Contents)) &&
        ring.Contents == (if failed then old(ring.Contents) else [])
    {
      var saveErrno := errnoIn;
      var k := 0;
      var readBytes: int := -1;
      errno := errnoIn;
      while true
        invariant k <= |script|
        invariant forall j :: 0 <= j < k ==> script[j] == Fails(EINTR)
        invariant pending == old(pending) && Held == old(Held)
        decreases |script| - k
        modifies this
      {
        var a := AttemptAt(script, k);
        if a.Fails? {
          readBytes, errno := -1, a.code;
        } else if pending == 0 {
          readBytes, errno := -1, EAGAIN;
        } else {
          readBytes := Min(pending, PIPE_SIZE);
          pending := pending - readBytes;
        }
        if !(readBytes < 0 && errno == EINTR) {
          SettledSkips(script, k);
          break;
        }
        k := k + 1;
      }
      if readBytes <= 0 && errno != EAGAIN {
        return -1, errno;
      }
      errno := saveErrno;
      rc := Invoke();
    }

    /**
     * `xtm_fun_invoke_all`: one flushing invoke, then plain invokes while
     * the last result is positive. Negative only when the flushing invoke failed.
     */
    method InvokeAll(script: seq<Attempt>, errnoIn: int) returns (rc: int, errno: int)
      requires Valid()
      modifies this, ring
      ensures Valid()
      ensures var a := Settled(script);
        var failed := a.Fails? && a.code != EAGAIN;
        rc == (if failed then -1 else 0) &&
        pending == (if a == Proceeds then 0 else old(pending)) &&
        (a == Proceeds ==> !Readable()) &&
        errno == (if failed then a.code else errnoIn) &&
        ring.Invoked == (if failed then old(ring.Invoked) else old(ring.Invoked) + old(ring.Contents)) &&
        ring.Contents == (if failed then old(ring.Contents) else [])
    {
      rc, errno := InvokeWithPipeFlushing(script, errnoIn);
      ghost var failed := rc < 0;
      ghost var flushed := pending;
      ghost var invoked, contents := ring.Invoked, ring.Contents;
      // a plain invoke returns 0 here, so no round follows the first
      ghost var rounds := 1;
      while rc > 0
        invariant Valid() && 0 <= rounds <= 1 && (rc > 0 ==> rounds == 1)
        invariant pending == flushed
        invariant failed ==> rc == -1 && ring.Invoked == invoked && ring.Contents == contents
        invariant !failed ==> rc >= 0 && ring.Invoked == invoked && ring.Contents == [] == contents
        decreases rounds
      {
        rc := Invoke();
        rounds := rounds - 1;
      }
    }

    /**
     * `xtm_delete`: closes both pipe ends and frees the ring and the queue
     * whatever the closes return. errno ends as the error of the second
     * close, or else of the first, or else 0; the result is -1 exactly when
     * errno is not 0.
     */
    method Delete(closeRead: Attempt, closeWrite: Attempt, errnoIn: int) returns (rc: int, errno: int)
      requires Held == AllResources
      modifies this
      ensures Held == {}
      ensures errno == (if closeWrite.Fails? then closeWrite.code
                        else if closeRead.Fails? then closeRead.code
                        else 0)
      ensures rc == (if errno == 0 then 0 else -1)
    {
      var err := 0;
      errno := errnoIn;
      if closeRead.Fails? {
        errno := closeRead.code;
        err := errno;
      }
      Held := Held - {ReadEnd};
      if closeWrite.Proceeds? {
        errno := err;
      } else {
        errno := closeWrite.code;
      }
      Held := Held - {WriteEnd};
      Held := Held - {RingMemory};
      Held := Held - {QueueMemory};
      rc := if errno == 0 then 0 else -1;
    }
  }

  /**
   * What is still held after the cleanup chain entered at label `entry`:
   * 3 is `fail_scsp_queue_init`, 2 `fail_alloc_fd`, 1
   * `fail_alloc_scsp_queue` and 0 `fail_alloc_queue`; each label releases
   * what it names and falls through to the next.
   */
  function Unwound(held: set<Resource>, entry: nat): (r: set<Resource>)
    ensures r <= held
    ensures entry >= 3 ==> ReadEnd !in r && WriteEnd !in r
    ensures entry >= 2 ==> RingMemory !in r
    ensures entry >= 1 ==> QueueMemory !in r
  {
    var afterClose := if entry >= 3 then held - {ReadEnd, WriteEnd} else held;
    var afterRing := if entry >= 2 then afterClose - {RingMemory} else afterClose;
    if entry >= 1 then afterRing - {QueueMemory} else afterRing
  }

  /**
   * `xtm_create` with the cleanup label its fcntl failures jump to and with
   * the ring initialisation it uses: as written (`fail_alloc_fd`, size 0
   * accepted) or as intended (`fail_scsp_queue_init`, size 0 refused).
   */
  method Setup(size: uint32, env: CreateEnv, errnoIn: int, intended: bool)
    returns (q: XtmQueue?, errno: int, held: set<Resource>)
    ensures var steps := Steps(env);
      var i := FirstFailure(steps);
      var sizeOk := if intended then IsPow2(size) else size == 0 || IsPow2(size);
      (q != null <==> i == |steps| && sizeOk) &&
      (q == null && i < |steps| ==> errno == steps[i].code) &&
      (q == null && i == |steps| ==> errno == EINVAL) &&
      (q == null ==> held == (if !intended && FIRST_FCNTL <= i < |steps| then {ReadEnd, WriteEnd} else {}))
    ensures q != null ==> (fresh(q) && fresh(q.ring) && errno == errnoIn &&
      held == q.Held == AllResources && q.pending == 0 &&
      q.readFd == env.readFd && q.writeFd == env.writeFd &&
      q.ring.len == size && q.ring.Contents == [] && q.ring.Invoked == [] &&
      (q.Valid() <==> size != 0))
  {
    var steps := Steps(env);
    errno := errnoIn;
    held := {};
    q := null;
    var entry := 4;
    ghost var failedAt := |steps|;
    if env.allocQueue.Fails? {
      errno, entry := env.allocQueue.code, 0;
      failedAt := 0;
    } else {
      held := held + {QueueMemory};
      if env.allocRing.Fails? {
        errno, entry := env.allocRing.code, 1;
        failedAt := 1;
      } else {
        held := held + {RingMemory};
        var ring := new ScspQueue<Msg>(size);
        if env.pipe.Fails? {
          errno, entry := env.pipe.code, 2;
          failedAt := 2;
        } else {
          held := held + {ReadEnd, WriteEnd};
          var fcntlEntry := if intended then 3 else 2;
          if env.nonblockRead.Fails? || env.nonblockWrite.Fails? {
            errno := if env.nonblockRead.Fails? then env.nonblockRead.code else env.nonblockWrite.code;
            entry := fcntlEntry;
            failedAt := if env.nonblockRead.Fails? then 3 else 4;
          } else if env.pipeSizeRead.Fails? || env.pipeSizeWrite.Fails? {
            errno := if env.pipeSizeRead.Fails? then env.pipeSizeRead.code else env.pipeSizeWrite.code;
            entry := fcntlEntry;
            failedAt := if env.pipeSizeRead.Fails? then 5 else 6;
          } else {
            var rc;
            if intended {
              rc := ring.InitChecked(size);
            } else {
              rc := ring.Init(size);
            }
            if rc < 0 {
              errno, entry := EINVAL, 3;
            } else {
              q := new XtmQueue(ring, env.readFd, env.writeFd);
            }
          }
        }
      }
    }
    FirstFailureIs(steps, failedAt);
    if entry < 4 {
      held := Unwound(held, entry);
    }
  }

  /**
   * `xtm_create` as written: NULL with EINVAL for a size that fails the
   * power-of-two test, which size 0 passes; NULL with the failing call's
   * errno otherwise. An fcntl failure returns without closing the pipe.
   */
  method Create(size: uint32, env: CreateEnv, errnoIn: int) returns (q: XtmQueue?, errno: int, held: set<Resource>)
    ensures var steps := Steps(env);
      var i := FirstFailure(steps);
      (q != null <==> i == |steps| && (size == 0 || IsPow2(size))) &&
      (q == null && i < |steps| ==> errno == steps[i].code) &&
      (q == null && i == |steps| ==> errno == EINVAL) &&
      (q == null && i < FIRST_FCNTL ==> held == {}) &&
      (q == null && FIRST_FCNTL <= i < |steps| ==> held == {ReadEnd, WriteEnd}) &&
      (q == null && i == |steps| ==> held == {})
    ensures q != null ==> (fresh(q) && fresh(q.ring) && errno == errnoIn &&
      held == q.Held == AllResources && q.pending == 0 && q.Fd() == env.readFd &&
      q.ring.len == size && q.ring.Contents == [] && q.ring.Invoked == [] &&
      (q.Valid() <==> size != 0))
  {
    q, errno, held := Setup(size, env, errnoIn, false);
  }

  /**
   * `xtm_create` as intended: every failure releases everything acquired
   * before it, and a channel is created exactly for power-of-two sizes, as
   * a valid empty channel.
   */
  method CreateFixed(size: uint32, env: CreateEnv, errnoIn: int) returns (q: XtmQueue?, errno: int, held: set<Resource>)
    ensures var steps := Steps(env);
      var i := FirstFailure(steps);
      (q != null <==> i == |steps| && IsPow2(size)) &&
      (q == null && i < |steps| ==> errno == steps[i].code) &&
      (q == null && i == |steps| ==> errno == EINVAL) &&
      (q == null ==> held == {})
    ensures q != null ==> (fresh(q) && fresh(q.ring) && errno == errnoIn &&
      held == q.Held == AllResources && q.Valid() && q.pending == 0 && q.Fd() == env.readFd &&
      q.ring.len == size && q.ring.Contents == [] && q.ring.Invoked == [])
  {
    q, errno, held := Setup(size, env, errnoIn, true);
  }
}
