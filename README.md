# xtm: a verified model of the ring buffer and the queue channel

xtm passes function calls between two threads. A producer *dispatches* a
message `{fun, fun_arg}` into a single-producer/single-consumer ring
buffer. If the consumer may be asleep, the producer writes 8 bytes into a
pipe to wake it. The consumer drains the pipe and *invokes* the queued
functions in the order they were dispatched.

The model has three modules:

- `Unsigned` (`unsigned.dfy`): C `unsigned` arithmetic. Values are 32 bits
  wide, addition and subtraction wrap modulo 2^32, and bitwise AND is
  defined bit by bit. The lemmas show that the masks `& (len - 1)` compute
  `% len` for a power-of-two `len`, and that `size & (size - 1)` is zero
  exactly for 0 and the powers of two.
- `Scsp` (`scsp_queue.dfy`): the ring buffer `xtm_scsp_queue<T>`. It is a
  class with the fields `write`, `read`, `len` and `cnt`, and a slot array
  `buffer`. The ghost sequence `Contents` holds the live elements, oldest
  first. The ghost sequence `Invoked` records every element `execute` has
  invoked.
  - The invariant `Valid()` ties the fields to `Contents`: the live
    elements sit in the `|Contents|` slots from `read` on, and
    `cnt == |Contents| <= len - 1`.
  - `put`, `get` and `execute` are loops over the array, proved against
    this invariant.
  - The spec functions `Window` (the elements found from a cursor) and
    `Stored` (the slots after a batch write) describe the array contents.
- `Xtm` (`xtm_api.dfy`): the channel API, a class `XtmQueue` that holds a
  ring of `Msg` and a pipe.
  - The pipe is a count of pending bytes: a notification adds 8 and a
    flush reads up to 4096.
  - `errno` is passed in and handed back.
  - Every system call is given an `Attempt` (`Proceeds` or `Fails(code)`).
  - An EINTR retry loop consumes a script of attempts and ends at the
    first attempt that is not interrupted (`Settled`).
  - `xtm_create` takes seven attempts: two mallocs, `pipe`, and four
    `fcntl` calls. It reports the set of resources still held when it
    returns.

The model is sequential: each operation runs as one atomic step. On
concurrency, the code and its documentation disagree in one place. The
header says `xtm_fun_invoke` returns the count of executed functions. The
code returns the ring's count *after* `execute` subtracted the executed
ones, that is, the messages a producer added in the meantime. The model
follows the code: `Invoke` returns 0, and a flushed `InvokeAll` stops after
the first round. No corrected variant is modelled, because the code's value
is the one `xtm_fun_invoke_all` relies on: its `while (rc > 0)` loop runs
another round exactly when messages arrived during the drain, which the
executed count would not tell it. It is the header comment that is off,
not the code.

## Model

| member | source | states |
|---|---|---|
| `Unsigned.SubWraps` | xtm_scsp_queue.h:152 | `a - b` on `unsigned` is `a - b` when `a >= b` and wraps to `2^32 + a - b` otherwise |
| `Unsigned.AddWraps` | xtm_scsp_queue.h:85 | `a + b` on `unsigned` is `a + b` below 2^32 and `a + b - 2^32` from there on |
| `Unsigned.MaskIsRemainder` | xtm_scsp_queue.h:85 | for a power-of-two `n`, `x & (n - 1) == x % n`: the cursor masks compute the slot modulo `len` |
| `Unsigned.SingleBitTest` | xtm_scsp_queue.h:60-62 | `size & (size - 1)` is zero exactly when `size` is 0 or a power of two |
| `Scsp.ZeroSizeSlipsThrough` | xtm_scsp_queue.h:61-88 | size 0 passes the test although it is not a power of two, and put's first step from slot 0 gives cursor 1, not the read cursor, so the store into slot 0 goes ahead |
| `Scsp.LiveCount` | xtm_scsp_queue.h:37-49 | with both cursors below a power-of-two `len`, `(write - read) & (len - 1)` on `unsigned` is the forward distance from `read` to `write` |
| `Scsp.FreeSlots` | xtm_scsp_queue.h:148-153 | `(read - write - 1) & (len - 1)` on `unsigned` is `len - 1` minus the forward distance from `read` to `write` |
| `Scsp.StoredAt` | xtm_scsp_queue.h:84-90 | a batch write puts `data[j]` into the slot `j` slots ahead of the write cursor |
| `Scsp.StoredElsewhere` | xtm_scsp_queue.h:84-90 | a batch of `i` elements leaves every slot `i` or more slots ahead of the write cursor unchanged |
| `Scsp.StoredExtendsWindow` | xtm_scsp_queue.h:84-92 | writing a batch at the slot `n` past `read` keeps the `n` live elements and appends the batch behind them |
| `Scsp.WindowDrop` | xtm_scsp_queue.h:107-114 | dropping the first `i` live elements is the same as moving the read cursor `i` slots forward |
| `Scsp.ScspQueue.Init` | xtm_scsp_queue.h:56-69 | returns -1, changing nothing, exactly when the size fails the test. On success `write = read = cnt = 0`, `len = size`, the queue is empty, and it is a valid queue exactly when `size != 0` |
| `Scsp.ScspQueue.InitChecked` | xtm_scsp_queue.h:58-62 | the intended check: succeeds exactly for powers of two, and then gives a valid empty queue |
| `Scsp.ScspQueue.FreeCount` | xtm_scsp_queue.h:146-153 | on a valid queue, `(read - write - 1) & (len - 1)` in 32-bit unsigned arithmetic is the number of free slots, `len - 1 - |Contents|` |
| `Scsp.ScspQueue.FreeCountIsSpareSlots` | xtm_scsp_queue.h:146-153 | `free_count` is `len - 1 - |Contents|`. It is `len - 1` on an empty queue and 0 exactly when `len - 1` elements are live |
| `Scsp.ScspQueue.LiveCountIsCount` | xtm_scsp_queue.h:45-49 | in a valid queue `(write - read) & (len - 1) == cnt == |Contents| <= len - 1` |
| `Scsp.ScspQueue.Step` | xtm_scsp_queue.h:85 | `(c + 1) & (len - 1)` moves a cursor one slot forward, from the last slot back to 0 |
| `Scsp.ScspQueue.Fill` | xtm_scsp_queue.h:79-90 | the put loop stores `min(num, len - 1 - |Contents|)` elements from the write cursor on and stops before the cursor reaches `read` |
| `Scsp.ScspQueue.Put` | xtm_scsp_queue.h:75-94 | writes `min(num, free)` elements and appends `data[0..written)` to `Contents`. It reports the prior count, raises `cnt` by `written`, and moves `write` forward by `written`. The slots are exactly `Stored(old slots, old write, data[0..written))`. The queue stays valid, and `read` and `len` are unchanged |
| `Scsp.ScspQueue.Drain` | xtm_scsp_queue.h:103-112 | the get loop copies `min(num, |Contents|)` live elements, oldest first, into `data` and leaves the rest of `data` alone |
| `Scsp.ScspQueue.Get` | xtm_scsp_queue.h:99-116 | returns `min(num, |Contents|)`. `data` starts with that many of the oldest elements, and they leave `Contents`. `read` moves forward by that number, `cnt` drops by it and the new count is reported. The queue stays valid and `write` is unchanged |
| `Scsp.ScspQueue.Execute` | xtm_scsp_queue.h:123-141 | invokes every live element once, in FIFO order (`Invoked` grows by the old `Contents`). It empties the queue, sets `read` to the old `write` and returns the number invoked. `cnt` drops by that number and the new count is reported |
| `Scsp.PutThenGet` | xtm_scsp_queue.h:75-116 | what put stores into an empty queue, get returns in the same order, leaving the queue empty |
| `Xtm.SettledSkips` | xtm_api.cc:113-114 | interrupted attempts before the settling one do not change which attempt ends an EINTR retry loop |
| `Xtm.FirstFailure` | xtm_api.cc:42-61 | the index of the first failing system call of `xtm_create`: all earlier ones went through |
| `Xtm.Unwound` | xtm_api.cc:69-77 | entering the cleanup chain at a label releases what that label and every later one names: the pipe ends at `fail_scsp_queue_init`, the ring at `fail_alloc_fd` and the queue at `fail_alloc_scsp_queue` |
| `Xtm.XtmQueue.Fd` | xtm_api.cc:135-139 | the descriptor returned is the read end of the pipe. `Create` and `CreateFixed` state that it is the read end `pipe()` gave; `Notify`, `Dispatch` and the flushing invokes state when it is readable |
| `Xtm.XtmQueue.Probe` | xtm_api.cc:93-101 | returns -1 with ENOBUFS exactly when the ring holds `len - 1` messages. Otherwise it returns 0 with errno untouched, and the queue is unchanged |
| `Xtm.XtmQueue.Notify` | xtm_api.cc:103-116 | retries interrupted writes. It returns 0 and adds 8 pending bytes exactly when the settling write goes through and the pipe has room. Otherwise it returns -1 with that write's errno, or EAGAIN for a full pipe. After a success errno is EINTR if a retry happened, and the descriptor from `Fd` is readable |
| `Xtm.XtmQueue.Dispatch` | xtm_api.cc:118-133 | a full ring gives -1, ENOBUFS and no change. Otherwise `Msg(fun, fun_arg)` is appended, and the pipe is written only when `delayed == 0` and the count before was 0. The result is the notification's, and after a notification that went through the descriptor from `Fd` is readable |
| `Xtm.XtmQueue.Invoke` | xtm_api.cc:141-147 | invokes every queued message in order, empties the ring and returns the count after the drain, 0 |
| `Xtm.XtmQueue.InvokeWithPipeFlushing` | xtm_api.cc:149-161 | if the settling read fails with anything but EAGAIN, it returns -1 with that errno and invokes nothing. Otherwise the pipe is drained, errno is restored, every message is invoked and the result is 0. When the read went through, no bytes are pending and the descriptor from `Fd` is no longer readable |
| `Xtm.XtmQueue.InvokeAll` | xtm_api.h:101-112 | negative (-1) only when the flushing invoke failed, with nothing invoked. Otherwise every queued message is invoked in order and the result is 0. The pipe is drained exactly when its read went through (no bytes pending, the descriptor from `Fd` not readable), and left as it was otherwise |
| `Xtm.XtmQueue.Delete` | xtm_api.cc:80-91 | releases both pipe ends and both allocations whatever `close` returns. errno ends as the second close's error, else the first's, else 0, and the result is -1 exactly when errno is not 0 |
| `Xtm.Setup` | xtm_api.cc:37-78 | `xtm_create` parameterised by where fcntl failures jump and by the size check. NULL exactly when a system call fails or the size check fails, with the failing call's errno or EINVAL |
| `Xtm.Create` | xtm_api.cc:37-78 | as written: a channel exactly when every call goes through and the size is 0 or a power of two. It is an empty channel on the given read end, valid when the size is not 0. On failure errno is the failing call's or EINVAL, and both pipe ends are still held after an fcntl failure |
| `Xtm.CreateFixed` | xtm_api.cc:37-78 | as intended: a valid empty channel exactly when every call goes through and the size is a power of two, and nothing is held after any failure |

## Left out

- Memory ordering and true concurrency: the `__atomic_*` loads, stores and
  read-modify-writes are plain reads and writes, and each queue operation
  is one atomic step. As a consequence the non-flushing invoke always
  returns 0 and `xtm_fun_invoke_all` never takes a second round.
- The callbacks: `fun(fun_arg)` is foreign code. `execute` records the
  message in the ghost `Invoked` trace instead of calling it.
- The operating system: `malloc`, `pipe`, `fcntl`, `read`, `write` and
  `close` are `Attempt` parameters. errno values are Linux's (EINTR 4,
  EAGAIN 11, EINVAL 22, ENOBUFS 105).
- Xtm.XtmQueue.Notify, Xtm.XtmQueue.InvokeWithPipeFlushing: a retry script
  is finite and the call goes through once it is used up. Endless EINTR,
  under which the C loops never return, is not modelled.
- Xtm.XtmQueue.Notify: an 8-byte write to a pipe is atomic (at most
  `PIPE_BUF` bytes), so a short write is not modelled. It writes 8 bytes or
  fails with EAGAIN on a full pipe of 4096 bytes.
- Xtm.XtmQueue.InvokeWithPipeFlushing: a read returning 0 (end of file) is
  not modelled. The write end stays open as long as the channel exists.
- Xtm.Setup: `F_SETPIPE_SZ` is taken to be defined, so the two
  `F_SETPIPE_SZ` calls are always made. A `close` on the cleanup path is
  taken to succeed and to leave errno alone, and `free` never changes
  errno.
- Xtm.XtmQueue.Delete: the memory is not reclaimed. The ghost `Held` set
  records the release, and `close` releases its descriptor even when it
  reports an error (as on Linux).
- Scsp.ScspQueue.Put, Scsp.ScspQueue.Get, Scsp.ScspQueue.Execute require a
  valid queue, which has at least one slot. A queue of size 0, which the
  as-written init accepts, is the subject of the second finding.
- Xtm.XtmQueue.Probe, Xtm.XtmQueue.Notify, Xtm.XtmQueue.Dispatch,
  Xtm.XtmQueue.Invoke, Xtm.XtmQueue.InvokeWithPipeFlushing,
  Xtm.XtmQueue.InvokeAll require a valid channel, whose ring has at least
  one slot, so they do not cover the size-0 channel that the as-written
  `xtm_create` returns. Xtm.XtmQueue.Delete requires only that the
  channel holds all its resources, so it covers that channel too.
- Scsp.ScspQueue.Get: a caller is required to pass a destination array
  distinct from the ring's slots. A buffer aliasing the slots is not
  modelled.
- Function and argument pointers are identities (`nat`). Nothing is done
  with them beyond storing and invoking them.
- test/ppq.c and perf/perf_test.c (the Lua binding, the ping-pong demo and
  the benchmark) are not part of this model.

## Findings

| source | as written | input that shows it | evidently intended | confidence | as-written member | corrected member |
|---|---|---|---|---|---|---|
| xtm_api.cc:55-61 | an `fcntl` failure jumps to `fail_alloc_fd`, which frees both allocations but never closes the pipe | `pipe()` succeeds and `fcntl(filedes[0], F_SETFL, O_NONBLOCK)` fails: NULL is returned with both descriptors still open | jump to `fail_scsp_queue_init`, which closes both ends before freeing | high (not executed) | `Xtm.Create` | `Xtm.CreateFixed` |
| xtm_scsp_queue.h:61 | `size & (size - 1)` is 0 for size 0, so init accepts a queue without slots | `xtm_create(0)` succeeds. The first put computes cursor `(0 + 1) & (0 - 1) == 1`, which is not the read cursor 0, and stores into slot 0 of an empty buffer | refuse size 0 as well (the header requires a power of two) | high (not executed) | `Scsp.ZeroSizeSlipsThrough` | `Scsp.ScspQueue.InitChecked` |
