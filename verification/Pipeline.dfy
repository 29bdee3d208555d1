/**
 * The concurrent copy pipeline: a reader task and a writer task joined by a bounded channel, sharing a
 * buffer pool. Every call a task makes on the pool, the channel, the source or the sink is one step, and
 * the steps of the two tasks interleave in any order.
 */
module Pipeline {
  import opened Common
  import opened BufferPool

  /** A filled buffer: the allocation and its valid bytes. */
  datatype Block = Block(id: nat, data: Bytes)

  datatype Reader =
    | Acquiring
    | Allocating
    | Filling(id: nat)
    | Sending(block: Block)
    | ReaderDropping(id: nat, ok: bool)
    | ReaderEnd(ok: bool)

  /** `Failing` still holds the block whose write failed; `Draining` has dropped the receiver. */
  datatype Writer =
    | Receiving
    | Writing(block: Block, done: nat)
    | Releasing(id: nat)
    | Failing(id: nat)
    | Draining
    | WriterEnd(ok: bool)

  datatype Setup = Setup(source: Bytes, bufSize: nat, initial: nat, capacity: nat)

  datatype State = State(
    pos: nat, readTotal: nat, reader: Reader,
    queue: seq<Block>, closed: bool,
    writer: Writer, writeTotal: nat, output: Bytes,
    pool: Pool)

  datatype Action =
    | Pop | Allocate
    | Read(n: nat) | ReadEof | ReadFail
    | Send | SendClosed | ReaderDrop(acquired: bool)
    | Receive | Write(n: nat) | WriteFail | WriterDrop(acquired: bool)
    | Finish | FlushFail | DrainOne(acquired: bool) | DrainEnd

  ghost predicate ValidSetup(u: Setup) {
    u.bufSize > 0 && u.capacity > 0
  }

  function Init(u: Setup): State {
    State(0, 0, Acquiring, [], false, Receiving, 0, [], NewPool(u.initial))
  }

  predicate Enabled(u: Setup, s: State, a: Action) {
    match a
    case Pop => s.reader.Acquiring?
    case Allocate => s.reader.Allocating?
    case Read(n) => s.reader.Filling? && 1 <= n <= u.bufSize && s.pos + n <= |u.source|
    case ReadEof => s.reader.Filling? && s.pos == |u.source|
    case ReadFail => s.reader.Filling?
    case Send => s.reader.Sending? && !s.closed && |s.queue| < u.capacity
    case SendClosed => s.reader.Sending? && s.closed
    case ReaderDrop(_) => s.reader.ReaderDropping?
    case Receive => s.writer.Receiving? && s.queue != []
    case Write(n) => s.writer.Writing? && 1 <= n && s.writer.done + n <= |s.writer.block.data|
    case WriteFail => s.writer.Writing?
    case WriterDrop(_) => s.writer.Releasing? || s.writer.Failing?
    case Finish => s.writer.Receiving? && s.queue == [] && s.reader.ReaderEnd?
    case FlushFail => s.writer.Receiving? && s.queue == [] && s.reader.ReaderEnd?
    case DrainOne(_) => s.writer.Draining? && s.queue != []
    case DrainEnd => s.writer.Draining? && s.queue == []
  }

  function Next(u: Setup, s: State, a: Action): State
    requires Enabled(u, s, a)
  {
    match a
    case Pop =>
      var (id, pool) := s.pool.Pop();
      s.(reader := if id.Some? then Filling(id.value) else Allocating, pool := pool)
    case Allocate =>
      var (id, pool) := s.pool.Allocate();
      s.(reader := Filling(id), pool := pool)
    case Read(n) =>
      s.(reader := Sending(Block(s.reader.id, u.source[s.pos..s.pos + n])), pos := s.pos + n,
         readTotal := s.readTotal + n)
    case ReadEof => s.(reader := ReaderDropping(s.reader.id, true))
    case ReadFail => s.(reader := ReaderDropping(s.reader.id, false))
    case Send => s.(reader := Acquiring, queue := s.queue + [s.reader.block])
    case SendClosed => s.(reader := ReaderDropping(s.reader.block.id, true))
    case ReaderDrop(acquired) => s.(reader := ReaderEnd(s.reader.ok), pool := s.pool.Drop(s.reader.id, acquired))
    case Receive => s.(writer := Writing(s.queue[0], 0), queue := s.queue[1..])
    case Write(n) =>
      var b, done := s.writer.block, s.writer.done + n;
      var written := s.output + b.data[s.writer.done..done];
      if done == |b.data|
      then s.(writer := Releasing(b.id), output := written, writeTotal := s.writeTotal + |b.data|)
      else s.(writer := Writing(b, done), output := written)
    case WriteFail => s.(writer := Failing(s.writer.block.id))
    case WriterDrop(acquired) =>
      var pool := s.pool.Drop(s.writer.id, acquired);
      if s.writer.Releasing? then s.(writer := Receiving, pool := pool)
      else s.(writer := Draining, closed := true, pool := pool)
    case Finish => s.(writer := WriterEnd(true))
    case FlushFail => s.(writer := Draining, closed := true)
    case DrainOne(acquired) => s.(queue := s.queue[1..], pool := s.pool.Drop(s.queue[0].id, acquired))
    case DrainEnd => s.(writer := WriterEnd(false))
  }

  predicate Finished(s: State) {
    s.reader.ReaderEnd? && s.writer.WriterEnd?
  }

  // ----- The byte stream

  function QueueBytes(queue: seq<Block>): Bytes {
    if queue == [] then [] else queue[0].data + QueueBytes(queue[1..])
  }

  function ReaderBytes(r: Reader): Bytes {
    if r.Sending? then r.block.data else []
  }

  function WriterBytes(w: Writer): Bytes {
    if w.Writing? && w.done <= |w.block.data| then w.block.data[w.done..] else []
  }

  predicate WriterFailed(w: Writer) {
    w.Failing? || w.Draining? || w == WriterEnd(false)
  }

  /** Everything read so far, in order: written, being written, queued, being sent. */
  function InTransit(s: State): Bytes {
    s.output + WriterBytes(s.writer) + QueueBytes(s.queue) + ReaderBytes(s.reader)
  }

  ghost predicate StreamInv(u: Setup, s: State) {
    && s.readTotal == s.pos <= |u.source|
    && s.output <= u.source[..s.pos]
    && (!WriterFailed(s.writer) ==> InTransit(s) == u.source[..s.pos])
    && s.writeTotal + (if s.writer.Writing? then s.writer.done else 0) <= |s.output|
    && (!WriterFailed(s.writer) ==> s.writeTotal + (if s.writer.Writing? then s.writer.done else 0) == |s.output|)
  }

  ghost predicate ControlInv(u: Setup, s: State) {
    && |s.queue| <= u.capacity
    && (s.closed <==> s.writer.Draining? || s.writer == WriterEnd(false))
    && (s.writer == WriterEnd(true) ==> s.reader.ReaderEnd?)
    && (s.writer.WriterEnd? ==> s.queue == [])
    && (s.writer.Writing? ==> s.writer.done < |s.writer.block.data|)
    && (s.reader.Sending? ==> s.reader.block.data != [])
    && (s.reader.Sending? ==> |s.reader.block.data| <= u.bufSize)
    && (forall i | 0 <= i < |s.queue| :: 0 < |s.queue[i].data| <= u.bufSize)
    && ((s.reader == ReaderEnd(true) || (s.reader.ReaderDropping? && s.reader.ok)) ==> s.closed || s.pos == |u.source|)
  }

  lemma {:induction false} QueueBytesAppend(queue: seq<Block>, b: Block)
    ensures QueueBytes(queue + [b]) == QueueBytes(queue) + b.data
  {
    if queue == [] {
      assert [b][1..] == [];
    } else {
      QueueBytesAppend(queue[1..], b);
      assert (queue + [b])[1..] == queue[1..] + [b];
    }
  }

  // ----- Buffer ownership

  /** How often `id` is on the free list. */
  function FreeCount(free: seq<nat>, id: nat): nat {
    if free == [] then 0
    else FreeCount(free[..|free| - 1], id) + if free[|free| - 1] == id then 1 else 0
  }

  function QueueCount(queue: seq<Block>, id: nat): nat {
    if queue == [] then 0 else (if queue[0].id == id then 1 else 0) + QueueCount(queue[1..], id)
  }

  function ReaderBuffer(r: Reader): Option<nat> {
    match r
    case Filling(id) => Some(id)
    case Sending(b) => Some(b.id)
    case ReaderDropping(id, _) => Some(id)
    case _ => None
  }

  function WriterBuffer(w: Writer): Option<nat> {
    match w
    case Writing(b, _) => Some(b.id)
    case Releasing(id) => Some(id)
    case Failing(id) => Some(id)
    case _ => None
  }

  /** The number of places that hold allocation `id`: free, read into, queued, written from, deallocated. */
  function Holders(s: State, id: nat): nat {
    FreeCount(s.pool.free, id) + QueueCount(s.queue, id) + One(ReaderBuffer(s.reader) == Some(id))
    + One(WriterBuffer(s.writer) == Some(id)) + One(id in s.pool.freed)
  }

  /** Each allocation made so far is in exactly one place. */
  ghost predicate OwnershipInv(s: State) {
    forall id: nat :: Holders(s, id) == One(id < s.pool.next)
  }

  /** The number of buffers that are free, read into, queued or written from. */
  function LiveCount(s: State): nat {
    |s.pool.free| + |s.queue| + One(ReaderBuffer(s.reader).Some?) + One(WriterBuffer(s.writer).Some?)
  }

  /** Each allocation made is live or was deallocated. */
  ghost predicate Ledger(s: State) {
    LiveCount(s) + |s.pool.freed| == s.pool.next
  }

  ghost predicate MemoryInv(u: Setup, s: State) {
    && Ledger(s)
    && LiveCount(s) <= Max(u.initial, u.capacity + 2)
    && (s.reader.Allocating? ==> LiveCount(s) <= u.capacity + 1)
  }
}
