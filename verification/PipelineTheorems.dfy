/** What every step of the pipeline keeps, and what every run of it achieves. */
module PipelineTheorems {
  import opened Common
  import opened BufferPool
  import opened Pipeline

  ghost predicate Inv(u: Setup, s: State) {
    StreamInv(u, s) && ControlInv(u, s) && OwnershipInv(s) && MemoryInv(u, s)
  }

  // ----- Initially

  lemma {:induction false} FreshIds(n: nat, id: nat)
    ensures FreeCount(seq(n, i => i), id) == One(id < n)
  {
    if n > 0 {
      FreshIds(n - 1, id);
      assert seq(n, i => i)[..n - 1] == seq(n - 1, i => i);
    }
  }

  lemma InitInv(u: Setup)
    requires ValidSetup(u)
    ensures Inv(u, Init(u))
  {
    forall id: nat ensures Holders(Init(u), id) == One(id < u.initial) {
      FreshIds(u.initial, id);
    }
    assert InTransit(Init(u)) == [] == u.source[..0];
  }

  // ----- Every step

  lemma ControlStep(u: Setup, s: State, a: Action)
    requires ControlInv(u, s) && Enabled(u, s, a)
    ensures ControlInv(u, Next(u, s, a))
  {
  }

  lemma QueueBytesHead(queue: seq<Block>)
    requires queue != []
    ensures QueueBytes(queue) == queue[0].data + QueueBytes(queue[1..])
  {
  }

  lemma ReadStep(u: Setup, s: State, n: nat)
    requires StreamInv(u, s) && Enabled(u, s, Read(n))
    ensures StreamInv(u, Next(u, s, Read(n)))
  {
    hide QueueBytes;
    assert u.source[..s.pos + n] == u.source[..s.pos] + u.source[s.pos..s.pos + n];
    assert InTransit(Next(u, s, Read(n))) == InTransit(s) + u.source[s.pos..s.pos + n];
  }

  lemma WriteStep(u: Setup, s: State, n: nat)
    requires StreamInv(u, s) && ControlInv(u, s) && Enabled(u, s, Write(n))
    ensures StreamInv(u, Next(u, s, Write(n)))
  {
    hide QueueBytes;
    var t := Next(u, s, Write(n));
    var data, done := s.writer.block.data, s.writer.done;
    assert data[done..] == data[done..done + n] + data[done + n..];
    assert t.output + WriterBytes(t.writer) == s.output + WriterBytes(s.writer);
    assert InTransit(t) == InTransit(s);
    assert t.output <= InTransit(t);
  }

  /** Handing a block on, by either task, leaves the bytes in transit as they are. */
  lemma HandOverStep(u: Setup, s: State, a: Action)
    requires StreamInv(u, s) && Enabled(u, s, a) && (a.Send? || a.Receive?)
    ensures StreamInv(u, Next(u, s, a))
  {
    hide QueueBytes;
    var t := Next(u, s, a);
    if a.Send? {
      QueueBytesAppend(s.queue, s.reader.block);
    } else {
      QueueBytesHead(s.queue);
      assert t.writer.block.data[0..] == s.queue[0].data;
    }
    assert InTransit(t) == InTransit(s);
  }

  lemma QuietStep(u: Setup, s: State, a: Action)
    requires StreamInv(u, s) && ControlInv(u, s) && Enabled(u, s, a)
    requires !a.Read? && !a.Write? && !a.Send? && !a.Receive?
    ensures StreamInv(u, Next(u, s, a))
  {
    hide QueueBytes;
    assert WriterFailed(Next(u, s, a).writer) || InTransit(Next(u, s, a)) == InTransit(s);
  }

  /** No step loses, repeats or reorders a byte; after a writer failure the output stays a prefix. */
  lemma StreamStep(u: Setup, s: State, a: Action)
    requires StreamInv(u, s) && ControlInv(u, s) && Enabled(u, s, a)
    ensures StreamInv(u, Next(u, s, a))
  {
    hide StreamInv, ControlInv, Enabled, Next;
    match a {
      case Read(n) => ReadStep(u, s, n);
      case Write(n) => WriteStep(u, s, n);
      case Send => HandOverStep(u, s, a);
      case Receive => HandOverStep(u, s, a);
      case _ => QuietStep(u, s, a);
    }
  }

  lemma FreeCountPush(free: seq<nat>, x: nat, id: nat)
    ensures FreeCount(free + [x], id) == FreeCount(free, id) + One(x == id)
  {
    assert (free + [x])[..|free|] == free;
  }

  lemma {:induction false} QueueCountAppend(queue: seq<Block>, b: Block, id: nat)
    ensures QueueCount(queue + [b], id) == QueueCount(queue, id) + One(b.id == id)
  {
    if queue == [] {
      assert [b][1..] == [];
    } else {
      QueueCountAppend(queue[1..], b, id);
      assert (queue + [b])[1..] == queue[1..] + [b];
    }
  }

  lemma QueueCountHead(queue: seq<Block>, id: nat)
    requires queue != []
    ensures QueueCount(queue, id) == One(queue[0].id == id) + QueueCount(queue[1..], id)
  {
  }

  lemma PopCount(pool: Pool, id: nat)
    ensures FreeCount(pool.free, id) == FreeCount(pool.Pop().1.free, id) + One(pool.Pop().0 == Some(id))
  {
  }

  lemma DropCount(pool: Pool, x: nat, acquired: bool, id: nat)
    requires x == id ==> id !in pool.freed
    ensures FreeCount(pool.Drop(x, acquired).free, id) + One(id in pool.Drop(x, acquired).freed)
         == FreeCount(pool.free, id) + One(id in pool.freed) + One(x == id)
  {
    FreeCountPush(pool.free, x, id);
  }

  /** Every step moves an allocation from one place to one other; only `Allocate` makes a new one. */
  lemma HoldersStep(u: Setup, s: State, a: Action, id: nat)
    requires Holders(s, id) <= 1 && Enabled(u, s, a)
    ensures Holders(Next(u, s, a), id) == Holders(s, id) + One(a.Allocate? && id == s.pool.next)
  {
    hide FreeCount, QueueCount;
    match a {
      case Pop => PopCount(s.pool, id);
      case Send => QueueCountAppend(s.queue, s.reader.block, id);
      case Receive => QueueCountHead(s.queue, id);
      case ReaderDrop(acquired) => DropCount(s.pool, s.reader.id, acquired, id);
      case WriterDrop(acquired) => DropCount(s.pool, s.writer.id, acquired, id);
      case DrainOne(acquired) =>
        QueueCountHead(s.queue, id);
        DropCount(s.pool, s.queue[0].id, acquired, id);
      case _ =>
    }
  }

  lemma OwnershipStep(u: Setup, s: State, a: Action)
    requires OwnershipInv(s) && Enabled(u, s, a)
    ensures OwnershipInv(Next(u, s, a))
  {
    hide Holders;
    forall id: nat ensures Holders(Next(u, s, a), id) == One(id < Next(u, s, a).pool.next) {
      assert Holders(s, id) == One(id < s.pool.next);
      HoldersStep(u, s, a, id);
    }
  }

  /** The allocation a step drops. */
  function Dropped(s: State, a: Action): Option<nat> {
    match a
    case ReaderDrop(_) => ReaderBuffer(s.reader)
    case WriterDrop(_) => WriterBuffer(s.writer)
    case DrainOne(_) => if s.queue != [] then Some(s.queue[0].id) else None
    case _ => None
  }

  /** A drop that does not get the lock gives the allocation back to the system. */
  predicate Deallocates(a: Action) {
    (a.ReaderDrop? || a.WriterDrop? || a.DrainOne?) && !a.acquired
  }

  /** What is dropped was not deallocated before. */
  lemma DroppedIsLive(u: Setup, s: State, a: Action)
    requires OwnershipInv(s) && Dropped(s, a).Some?
    ensures Dropped(s, a).value !in s.pool.freed
  {
    var id := Dropped(s, a).value;
    assert Holders(s, id) <= 1;
    if a.DrainOne? {
      QueueCountHead(s.queue, id);
    }
  }

  lemma LedgerStep(u: Setup, s: State, a: Action)
    requires Ledger(s) && OwnershipInv(s) && Enabled(u, s, a)
    ensures Ledger(Next(u, s, a))
  {
    hide OwnershipInv, LiveCount, Next;
    FreedStep(u, s, a);
    LiveStep(u, s, a);
  }

  lemma LiveStep(u: Setup, s: State, a: Action)
    requires Enabled(u, s, a)
    ensures LiveCount(Next(u, s, a)) == LiveCount(s) + One(a.Allocate?) - One(Deallocates(a))
    ensures Next(u, s, a).pool.next == s.pool.next + One(a.Allocate?)
  {
  }

  lemma FreedStep(u: Setup, s: State, a: Action)
    requires OwnershipInv(s) && Enabled(u, s, a)
    ensures |Next(u, s, a).pool.freed| == |s.pool.freed| + One(Deallocates(a))
  {
    hide OwnershipInv;
    match a {
      case ReaderDrop(acquired) =>
        DroppedIsLive(u, s, a);
        DropFreed(s.pool, s.reader.id, acquired);
      case WriterDrop(acquired) =>
        DroppedIsLive(u, s, a);
        DropFreed(s.pool, s.writer.id, acquired);
      case DrainOne(acquired) =>
        DroppedIsLive(u, s, a);
        DropFreed(s.pool, s.queue[0].id, acquired);
      case _ =>
        assert Next(u, s, a).pool.freed == s.pool.freed;
    }
  }

  lemma DropFreed(pool: Pool, id: nat, acquired: bool)
    requires id !in pool.freed
    ensures |pool.Drop(id, acquired).freed| == |pool.freed| + One(!acquired)
  {
  }

  /**
   * The allocations made and not deallocated are those in use or free, and never exceed the larger of the
   * initial pool and the channel capacity plus two.
   */
  lemma MemoryStep(u: Setup, s: State, a: Action)
    requires MemoryInv(u, s) && ControlInv(u, s) && OwnershipInv(s) && Enabled(u, s, a)
    ensures MemoryInv(u, Next(u, s, a))
  {
    hide OwnershipInv, Ledger;
    LedgerStep(u, s, a);
  }

  lemma StepInv(u: Setup, s: State, a: Action)
    requires Inv(u, s) && Enabled(u, s, a)
    ensures Inv(u, Next(u, s, a))
  {
    hide StreamInv, ControlInv, OwnershipInv, MemoryInv;
    StreamStep(u, s, a);
    ControlStep(u, s, a);
    OwnershipStep(u, s, a);
    MemoryStep(u, s, a);
  }

  // ----- Progress

  /** An enabled step of an unfinished pipeline. */
  lemma NoDeadlock(u: Setup, s: State) returns (a: Action)
    requires ValidSetup(u) && StreamInv(u, s) && ControlInv(u, s) && !Finished(s)
    ensures Enabled(u, s, a)
  {
    hide QueueBytes, StreamInv;
    assert s.pos <= |u.source| by { PosInSource(u, s); }
    match s.writer {
      case Writing(b, done) => a := Write(|b.data| - done);
      case Releasing(_) => a := WriterDrop(true);
      case Failing(_) => a := WriterDrop(true);
      case Draining => a := if s.queue != [] then DrainOne(true) else DrainEnd;
      case Receiving =>
        if s.queue != [] {
          a := Receive;
        } else {
          a := ReaderAction(u, s);
        }
      case WriterEnd(_) => a := ReaderAction(u, s);
    }
  }

  lemma PosInSource(u: Setup, s: State)
    requires StreamInv(u, s)
    ensures s.pos <= |u.source|
  {
  }

  /** With an empty channel the reader can always move, or the writer can see that it ended. */
  function ReaderAction(u: Setup, s: State): (a: Action)
    requires ValidSetup(u) && ControlInv(u, s) && s.pos <= |u.source| && !Finished(s)
    requires s.queue == [] && (s.writer.Receiving? || s.writer.WriterEnd?)
    ensures Enabled(u, s, a)
  {
    match s.reader
    case Acquiring => Pop
    case Allocating => Allocate
    case Filling(_) => if s.pos == |u.source| then ReadEof else Read(1)
    case Sending(_) => if s.closed then SendClosed else Send
    case ReaderDropping(_, _) => ReaderDrop(true)
    case ReaderEnd(_) => Finish
  }

  function ReaderWork(r: Reader): nat {
    match r
    case Acquiring => 6
    case Allocating => 5
    case Filling(_) => 4
    case Sending(b) => |b.data| + 9
    case ReaderDropping(_, _) => 1
    case ReaderEnd(_) => 0
  }

  function QueueWork(queue: seq<Block>): nat {
    if queue == [] then 0 else |queue[0].data| + 2 + QueueWork(queue[1..])
  }

  function WriterWork(w: Writer): nat {
    match w
    case Receiving => 3
    case Writing(b, done) => if done <= |b.data| then 4 + |b.data| - done else 4
    case Releasing(_) => 4
    case Failing(_) => 4
    case Draining => 2
    case WriterEnd(_) => 0
  }

  /** An upper bound on the steps that are left. */
  function Work(u: Setup, s: State): nat
    requires s.pos <= |u.source|
  {
    7 * (|u.source| - s.pos) + ReaderWork(s.reader) + QueueWork(s.queue) + WriterWork(s.writer)
  }

  lemma {:induction false} QueueWorkAppend(queue: seq<Block>, b: Block)
    ensures QueueWork(queue + [b]) == QueueWork(queue) + |b.data| + 2
  {
    if queue == [] {
      assert [b][1..] == [];
    } else {
      QueueWorkAppend(queue[1..], b);
      assert (queue + [b])[1..] == queue[1..] + [b];
    }
  }

  /** Every step uses up work. */
  lemma StepUsesWork(u: Setup, s: State, a: Action)
    requires s.pos <= |u.source| && ControlInv(u, s) && Enabled(u, s, a)
    ensures Next(u, s, a).pos <= |u.source| && Work(u, Next(u, s, a)) < Work(u, s)
  {
    if a.Send? {
      QueueWorkAppend(s.queue, s.reader.block);
    }
  }

  // ----- Runs

  /** `actions` leads from `s` to `t`, each step enabled where it is taken. */
  ghost predicate Run(u: Setup, s: State, actions: seq<Action>, t: State)
    decreases |actions|
  {
    if actions == [] then s == t
    else Enabled(u, s, actions[0]) && Run(u, Next(u, s, actions[0]), actions[1..], t)
  }

  lemma {:induction false} RunKeeps(u: Setup, s: State, actions: seq<Action>, t: State)
    requires Inv(u, s) && Run(u, s, actions, t)
    ensures Inv(u, t)
    ensures |actions| + Work(u, t) <= Work(u, s)
    decreases |actions|
  {
    hide QueueBytes, Enabled, Next;
    if actions != [] {
      StepInv(u, s, actions[0]);
      StepUsesWork(u, s, actions[0]);
      RunKeeps(u, Next(u, s, actions[0]), actions[1..], t);
    }
  }

  /** Every reachable state satisfies the invariants, and no run is longer than the source allows. */
  lemma EveryRun(u: Setup, actions: seq<Action>, t: State)
    requires ValidSetup(u) && Run(u, Init(u), actions, t)
    ensures Inv(u, t)
    ensures |actions| <= 7 * |u.source| + 9
  {
    InitInv(u);
    RunKeeps(u, Init(u), actions, t);
  }

  /** In a reachable state each allocation made is in exactly one place, and those not deallocated are bounded. */
  lemma ExclusiveOwnership(u: Setup, actions: seq<Action>, t: State, id: nat)
    requires ValidSetup(u) && Run(u, Init(u), actions, t)
    ensures FreeCount(t.pool.free, id) + QueueCount(t.queue, id) + One(ReaderBuffer(t.reader) == Some(id))
            + One(WriterBuffer(t.writer) == Some(id)) + One(id in t.pool.freed)
         == One(id < t.pool.next)
    ensures t.pool.next - |t.pool.freed| == LiveCount(t) <= Max(u.initial, u.capacity + 2)
  {
    EveryRun(u, actions, t);
    assert Holders(t, id) == One(id < t.pool.next);
  }

  /**
   * A run that cannot be continued has finished: no buffer is in flight, and the output is a prefix of
   * the source. When both tasks report success, the output is the source and so are both totals.
   */
  lemma MaximalRun(u: Setup, actions: seq<Action>, t: State)
    requires ValidSetup(u) && Run(u, Init(u), actions, t)
    requires forall a :: !Enabled(u, t, a)
    ensures Finished(t) && LiveCount(t) == |t.pool.free|
    ensures t.output <= u.source
    ensures t.reader.ok && t.writer.ok ==>
              t.output == u.source && t.readTotal == |u.source| && t.writeTotal == |u.source|
  {
    EveryRun(u, actions, t);
    if !Finished(t) {
      var a := NoDeadlock(u, t);
      assert false;
    }
    assert InTransit(t) == t.output;
    assert u.source[..|u.source|] == u.source;
  }

  predicate ReaderFailed(r: Reader) {
    r == ReaderEnd(false) || (r.ReaderDropping? && !r.ok)
  }

  /** A task has failed exactly when one of its calls did. */
  lemma {:induction false} FailuresShow(u: Setup, s: State, actions: seq<Action>, t: State)
    requires Run(u, s, actions, t)
    ensures WriterFailed(t.writer) <==> WriterFailed(s.writer) || WriteFail in actions || FlushFail in actions
    ensures ReaderFailed(t.reader) <==> ReaderFailed(s.reader) || ReadFail in actions
    decreases |actions|
  {
    if actions != [] {
      FailureStep(u, s, actions[0]);
      FailuresShow(u, Next(u, s, actions[0]), actions[1..], t);
      assert actions == [actions[0]] + actions[1..];
    }
  }

  lemma FailureStep(u: Setup, s: State, a: Action)
    requires Enabled(u, s, a)
    ensures WriterFailed(Next(u, s, a).writer) <==> WriterFailed(s.writer) || a == WriteFail || a == FlushFail
    ensures ReaderFailed(Next(u, s, a).reader) <==> ReaderFailed(s.reader) || a == ReadFail
  {
  }

  /** In a run that cannot be continued each task reports success exactly when none of its calls failed. */
  lemma VerdictsAreExact(u: Setup, actions: seq<Action>, t: State)
    requires ValidSetup(u) && Run(u, Init(u), actions, t)
    requires forall a :: !Enabled(u, t, a)
    ensures Finished(t)
    ensures t.writer.ok <==> WriteFail !in actions && FlushFail !in actions
    ensures t.reader.ok <==> ReadFail !in actions
  {
    hide Enabled;
    MaximalRun(u, actions, t);
    FailuresShow(u, Init(u), actions, t);
  }

  predicate Failure(a: Action) {
    a.ReadFail? || a.WriteFail? || a.FlushFail?
  }

  ghost predicate NoFailureSoFar(s: State) {
    && !WriterFailed(s.writer) && !s.closed
    && s.reader != ReaderEnd(false) && !(s.reader.ReaderDropping? && !s.reader.ok)
  }

  lemma {:induction false} ErrorFreeRun(u: Setup, s: State, actions: seq<Action>, t: State)
    requires NoFailureSoFar(s) && Run(u, s, actions, t)
    requires forall i | 0 <= i < |actions| :: !Failure(actions[i])
    ensures NoFailureSoFar(t)
    decreases |actions|
  {
    if actions != [] {
      assert !Failure(actions[0]);
      ErrorFreeRun(u, Next(u, s, actions[0]), actions[1..], t);
    }
  }

  /** Without I/O failures every maximal run copies the source, whatever the interleaving and the reads' sizes. */
  lemma ErrorFreeRunsCopy(u: Setup, actions: seq<Action>, t: State)
    requires ValidSetup(u) && Run(u, Init(u), actions, t)
    requires forall a :: !Enabled(u, t, a)
    requires forall i | 0 <= i < |actions| :: !Failure(actions[i])
    ensures t.reader == ReaderEnd(true) && t.writer == WriterEnd(true)
    ensures t.output == u.source && t.readTotal == |u.source| && t.writeTotal == |u.source|
  {
    ErrorFreeRun(u, Init(u), actions, t);
    MaximalRun(u, actions, t);
  }
}
