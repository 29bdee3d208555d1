/** A session: the worker thread, its event channel and live counter, and the UI that polls them. */
module Session {
  import opened Common

  datatype Event =
    | Started(totalBytes: nat)
    | Tick(bytesIn: nat, bytesOut: nat, currentFile: Option<string>, currentDir: Option<string>)
    | Finished(bytesIn: nat, bytesOut: nat, hash: string)
    | Failed(message: string)

  datatype Status = Running | Complete(hash: string) | Broken(message: string)

  /** The fields of `BackupProgress` that events change; `delta` is the numerator of the instant rate. */
  datatype Progress = Progress(
    totalBytes: Option<nat>, bytesIn: nat, bytesOut: nat, lastTick: nat, delta: int, status: Status,
    currentFile: Option<string>, currentDir: Option<string>)

  const FRESH: Progress := Progress(None, 0, 0, 0, 0, Running, None, None)

  predicate IsTerminal(e: Event) {
    e.Finished? || e.Failed?
  }

  function Apply(p: Progress, e: Event): Progress {
    match e
    case Started(total) => p.(totalBytes := Some(total))
    case Tick(bytesIn, bytesOut, file, dir) =>
      p.(delta := bytesIn - p.lastTick, lastTick := bytesIn, bytesIn := bytesIn, bytesOut := bytesOut,
         currentFile := if file.Some? then file else p.currentFile,
         currentDir := if dir.Some? then dir else p.currentDir)
    case Finished(bytesIn, bytesOut, hash) => p.(bytesIn := bytesIn, bytesOut := bytesOut, status := Complete(hash))
    case Failed(message) => p.(status := Broken(message))
  }

  /** Receives until the channel is empty or a terminal event arrived; also the events that are left. */
  function Drain(p: Progress, rx: seq<Event>): (Progress, seq<Event>)
    decreases |rx|
  {
    if rx == [] then (p, [])
    else if IsTerminal(rx[0]) then (Apply(p, rx[0]), rx[1..])
    else Drain(Apply(p, rx[0]), rx[1..])
  }

  function OrElse<T>(a: Option<T>, b: T): T {
    if a.Some? then a.value else b
  }

  function Or<T>(a: Option<T>, b: Option<T>): Option<T> {
    if a.Some? then a else b
  }

  /** The directory of the last tick that names one. */
  function LastDir(events: seq<Event>): Option<string> {
    if events == [] then None
    else Or(LastDir(events[1..]), if events[0].Tick? then events[0].currentDir else None)
  }

  /** The file of the last tick that names one. */
  function LastFile(events: seq<Event>): Option<string> {
    if events == [] then None
    else Or(LastFile(events[1..]), if events[0].Tick? then events[0].currentFile else None)
  }

  /** The total of the last announcement. */
  function LastTotal(events: seq<Event>): Option<nat> {
    if events == [] then None
    else Or(LastTotal(events[1..]), if events[0].Started? then Some(events[0].totalBytes) else None)
  }

  /** The count of the last tick or final event. */
  function LastCount(events: seq<Event>): Option<nat> {
    if events == [] then None
    else Or(LastCount(events[1..]),
            if events[0].Tick? || events[0].Finished? then Some(events[0].bytesIn) else None)
  }

  /** The counts of the ticks, in order. */
  function Ticks(events: seq<Event>): seq<nat> {
    if events == [] then []
    else (if events[0].Tick? then [events[0].bytesIn] else []) + Ticks(events[1..])
  }

  /** What the last event leaves of a status. */
  function EndStatus(events: seq<Event>, before: Status): Status {
    if events != [] && events[|events| - 1].Finished? then Complete(events[|events| - 1].hash)
    else if events != [] && events[|events| - 1].Failed? then Broken(events[|events| - 1].message)
    else before
  }

  /** How many events a drain takes. */
  function Taken(rx: seq<Event>): (n: nat)
    ensures n <= |rx|
  {
    if rx == [] then 0 else if IsTerminal(rx[0]) then 1 else 1 + Taken(rx[1..])
  }

  lemma TakenStep(rx: seq<Event>)
    requires rx != [] && !IsTerminal(rx[0])
    ensures rx[..Taken(rx)] == [rx[0]] + rx[1..][..Taken(rx[1..])]
  {
  }

  /** A drain takes the events up to the first terminal one, and leaves the others. */
  lemma {:induction false} DrainTakes(p: Progress, rx: seq<Event>)
    ensures var n := Taken(rx);
            (&& Drain(p, rx).1 == rx[n..]
             && (n < |rx| ==> n > 0 && IsTerminal(rx[n - 1]))
             && forall i | 0 <= i < n - 1 :: !IsTerminal(rx[i]))
    decreases |rx|
  {
    if rx != [] && !IsTerminal(rx[0]) {
      DrainTakes(Apply(p, rx[0]), rx[1..]);
      assert forall i | 0 < i < |rx| :: rx[i] == rx[1..][i - 1];
    }
  }

  /** It shows the last count, directory, file and total they carry, and the status the last one brings. */
  lemma {:induction false} DrainShowsLast(p: Progress, rx: seq<Event>)
    ensures var q, taken := Drain(p, rx).0, rx[..Taken(rx)];
            (&& q.bytesIn == OrElse(LastCount(taken), p.bytesIn)
             && q.currentDir == Or(LastDir(taken), p.currentDir)
             && q.currentFile == Or(LastFile(taken), p.currentFile)
             && q.totalBytes == Or(LastTotal(taken), p.totalBytes)
             && q.status == EndStatus(taken, p.status))
    decreases |rx|
  {
    if rx != [] {
      if IsTerminal(rx[0]) {
        assert rx[..1][1..] == [];
      } else {
        TakenStep(rx);
        DrainShowsLast(Apply(p, rx[0]), rx[1..]);
      }
    }
  }

  /** The numerator of the rate is the difference of the last two ticks, the one of earlier drains included. */
  lemma {:induction false} DrainRate(p: Progress, rx: seq<Event>)
    ensures var q, ticks := Drain(p, rx).0, [p.lastTick] + Ticks(rx[..Taken(rx)]);
            (&& q.lastTick == ticks[|ticks| - 1]
             && (|ticks| == 1 ==> q.delta == p.delta)
             && (|ticks| > 1 ==> ticks[|ticks| - 2] + q.delta == ticks[|ticks| - 1]))
    decreases |rx|
  {
    if rx != [] {
      if IsTerminal(rx[0]) {
        assert rx[..1][1..] == [];
      } else {
        TakenStep(rx);
        DrainRate(Apply(p, rx[0]), rx[1..]);
      }
    }
  }

  class BackupProgress {
    var totalBytes: Option<nat>
    var bytesIn: nat
    var bytesOut: nat
    var lastTick: nat
    var delta: int
    var status: Status
    var currentFile: Option<string>
    var currentDir: Option<string>
    /** The events `try_recv` returns before it reports an empty channel. */
    var rx: seq<Event>

    ghost function View(): Progress
      reads this
    {
      Progress(totalBytes, bytesIn, bytesOut, lastTick, delta, status, currentFile, currentDir)
    }

    constructor ()
      ensures View() == FRESH && rx == []
    {
      totalBytes, bytesIn, bytesOut, lastTick, delta := None, 0, 0, 0, 0;
      status, currentFile, currentDir, rx := Running, None, None, [];
    }

    /** `poll`, with `live` the value the live counter has at its end. */
    method Poll(live: nat) returns (changed: bool)
      modifies this
      ensures (View(), rx) == (var d := Drain(old(View()), old(rx)); (d.0.(bytesOut := live), d.1))
      ensures changed <==> old(rx) != [] || live != old(bytesOut)
    {
      changed := false;
      ghost var goal := Drain(View(), rx);
      while rx != []
        invariant Drain(View(), rx) == goal
        invariant changed <==> rx != old(rx)
        invariant !changed ==> View() == old(View())
        invariant |rx| <= |old(rx)| && (changed ==> |rx| < |old(rx)|)
        decreases |rx|
      {
        var e := rx[0];
        rx := rx[1..];
        changed := true;
        match e {
          case Started(total) =>
            totalBytes := Some(total);
          case Tick(tickIn, tickOut, file, dir) =>
            delta := tickIn - lastTick;
            lastTick := tickIn;
            bytesIn := tickIn;
            bytesOut := tickOut;
            if file.Some? {
              currentFile := file;
            }
            currentDir := if dir.Some? then dir else currentDir;
          case Finished(finalIn, finalOut, hash) =>
            bytesIn := finalIn;
            bytesOut := finalOut;
            status := Complete(hash);
            break;
          case Failed(message) =>
            status := Broken(message);
            break;
        }
      }
      if live != bytesOut {
        bytesOut := live;
        changed := true;
      }
    }
  }

  // ----- Worker and UI interleaved

  /** Where the UI is inside `poll`. */
  datatype Ui = Idle | Receiving | Loading

  /** `shown` is the `bytes_out` the last completed poll left behind. */
  datatype World = World(
    bytesIn: nat, live: nat, result: Option<Event>,
    queue: seq<Event>, ui: Ui, progress: Progress, shown: nat)

  datatype Step =
    | Consume(n: nat) | Produce(n: nat)
    | SendStarted(total: nat)
    | SendTick(file: Option<string>, dir: Option<string>)
    | SendFinished(hash: string) | SendFailed(message: string)
    | PollStart | PollReceive | PollEmpty | PollEnd

  const START: World := World(0, 0, None, [], Idle, FRESH, 0)

  predicate IsWorkerStep(a: Step) {
    a.Consume? || a.Produce? || a.SendStarted? || a.SendTick? || a.SendFinished? || a.SendFailed?
  }

  /** The worker acts until it has sent its result; the UI may poll at any time. */
  predicate Enabled(w: World, a: Step) {
    && (IsWorkerStep(a) ==> w.result.None?)
    && (a.PollStart? ==> w.ui.Idle?)
    && (a.PollReceive? ==> w.ui.Receiving? && w.queue != [])
    && (a.PollEmpty? ==> w.ui.Receiving? && w.queue == [])
    && (a.PollEnd? ==> w.ui.Loading?)
  }

  function Next(w: World, a: Step): World
    requires Enabled(w, a)
  {
    match a
    case Consume(n) => w.(bytesIn := w.bytesIn + n)
    case Produce(n) => w.(live := w.live + n)
    case SendStarted(total) => w.(queue := w.queue + [Started(total)])
    case SendTick(file, dir) => w.(queue := w.queue + [Tick(w.bytesIn, w.live, file, dir)])
    case SendFinished(hash) =>
      var e := Finished(w.bytesIn, w.live, hash);
      w.(queue := w.queue + [e], result := Some(e))
    case SendFailed(message) => w.(queue := w.queue + [Failed(message)], result := Some(Failed(message)))
    case PollStart => w.(ui := Receiving)
    case PollReceive =>
      w.(queue := w.queue[1..], progress := Apply(w.progress, w.queue[0]),
         ui := if IsTerminal(w.queue[0]) then Loading else Receiving)
    case PollEmpty => w.(ui := Loading)
    case PollEnd => w.(ui := Idle, progress := w.progress.(bytesOut := w.live), shown := w.live)
  }

  /** Queued counts do not decrease, start at `lo` and end at most at `hi`. */
  ghost predicate CountsRise(queue: seq<Event>, lo: nat, hi: nat) {
    if queue == [] then lo <= hi
    else if queue[0].Tick? then lo <= queue[0].bytesIn && CountsRise(queue[1..], queue[0].bytesIn, hi)
    else CountsRise(queue[1..], lo, hi)
  }

  /** The worker's result is the last thing it sends, and is queued until the UI has taken it. */
  ghost predicate ResultLast(w: World) {
    && (forall i | 0 <= i < |w.queue| - 1 :: !IsTerminal(w.queue[i]))
    && (w.queue != [] && IsTerminal(w.queue[|w.queue| - 1]) ==>
          w.result == Some(w.queue[|w.queue| - 1]) && w.progress.status.Running?)
    && (w.result.Some? ==> IsTerminal(w.result.value))
    && (w.result.Some? && !(w.queue != [] && IsTerminal(w.queue[|w.queue| - 1])) ==> w.queue == [] && Delivered(w))
    && (w.result.None? ==> w.progress.status.Running?)
    && (w.result.Some? && w.result.value.Finished? ==>
          w.result.value.bytesIn == w.bytesIn && w.result.value.bytesOut == w.live)
  }

  /** The UI's status is the worker's result. */
  ghost predicate Delivered(w: World)
  {
    w.result.Some? &&
    match w.result.value
    case Finished(bytesIn, bytesOut, hash) =>
      w.progress.status == Complete(hash) && w.progress.bytesIn == bytesIn && w.progress.bytesOut == bytesOut
    case Failed(message) => w.progress.status == Broken(message)
    case _ => false
  }

  ghost predicate Inv(w: World) {
    && CountsRise(w.queue, w.progress.lastTick, w.bytesIn)
    && w.progress.delta >= 0
    && w.shown <= w.live
    && (w.ui.Idle? ==> w.shown == w.progress.bytesOut)
    && ResultLast(w)
  }

  lemma {:induction false} CountsRiseAppend(queue: seq<Event>, lo: nat, hi: nat, hi': nat, e: Event)
    requires CountsRise(queue, lo, hi) && hi <= hi' && (e.Tick? ==> e.bytesIn == hi')
    ensures CountsRise(queue, lo, hi') && CountsRise(queue + [e], lo, hi')
  {
    if queue == [] {
      assert [e][1..] == [];
    } else {
      assert (queue + [e])[1..] == queue[1..] + [e];
      CountsRiseAppend(queue[1..], if queue[0].Tick? then queue[0].bytesIn else lo, hi, hi', e);
    }
  }

  /** Every step of worker or UI keeps the invariant; in particular the rate's subtraction never underflows. */
  lemma StepKeeps(w: World, a: Step)
    requires Inv(w) && Enabled(w, a)
    ensures Inv(Next(w, a))
    ensures Next(w, a).shown >= w.shown
    ensures !w.progress.status.Running? ==> Next(w, a).progress.status == w.progress.status
  {
    hide CountsRise;
    match a {
      case Consume(n) => CountsRiseAppend(w.queue, w.progress.lastTick, w.bytesIn, w.bytesIn + n, Started(0));
      case SendStarted(total) => CountsRiseAppend(w.queue, w.progress.lastTick, w.bytesIn, w.bytesIn, Started(total));
      case SendTick(f, d) =>
        CountsRiseAppend(w.queue, w.progress.lastTick, w.bytesIn, w.bytesIn, Tick(w.bytesIn, w.live, f, d));
      case SendFinished(hash) =>
        CountsRiseAppend(w.queue, w.progress.lastTick, w.bytesIn, w.bytesIn, Finished(w.bytesIn, w.live, hash));
      case SendFailed(message) =>
        CountsRiseAppend(w.queue, w.progress.lastTick, w.bytesIn, w.bytesIn, Failed(message));
      case PollReceive => CountsRiseHead(w.queue, w.progress.lastTick, w.bytesIn);
      case _ =>
    }
  }

  lemma CountsRiseHead(queue: seq<Event>, lo: nat, hi: nat)
    requires queue != [] && CountsRise(queue, lo, hi)
    ensures queue[0].Tick? ==> lo <= queue[0].bytesIn && CountsRise(queue[1..], queue[0].bytesIn, hi)
    ensures !queue[0].Tick? ==> CountsRise(queue[1..], lo, hi)
  {
  }

  ghost predicate Run(w: World, steps: seq<Step>, t: World)
    decreases |steps|
  {
    if steps == [] then w == t else Enabled(w, steps[0]) && Run(Next(w, steps[0]), steps[1..], t)
  }

  /** Along every interleaving the shown output count never decreases and a final status never changes. */
  lemma {:induction false} RunKeeps(w: World, steps: seq<Step>, t: World)
    requires Inv(w) && Run(w, steps, t)
    ensures Inv(t) && t.shown >= w.shown
    ensures !w.progress.status.Running? ==> t.progress.status == w.progress.status
    decreases |steps|
  {
    hide Inv, Next, Enabled;
    if steps != [] {
      StepKeeps(w, steps[0]);
      RunKeeps(Next(w, steps[0]), steps[1..], t);
    }
  }

  /** The bytes the worker's steps consume. */
  function Consumed(steps: seq<Step>): nat {
    if steps == [] then 0 else (if steps[0].Consume? then steps[0].n else 0) + Consumed(steps[1..])
  }

  /** The bytes the worker's steps produce. */
  function Produced(steps: seq<Step>): nat {
    if steps == [] then 0 else (if steps[0].Produce? then steps[0].n else 0) + Produced(steps[1..])
  }

  lemma {:induction false} RunCounts(w: World, steps: seq<Step>, t: World)
    requires Run(w, steps, t)
    ensures t.bytesIn == w.bytesIn + Consumed(steps) && t.live == w.live + Produced(steps)
    ensures t.result != w.result && t.result.Some? ==>
              match t.result.value
              case Finished(_, _, hash) => SendFinished(hash) in steps
              case Failed(message) => SendFailed(message) in steps
              case _ => false
    decreases |steps|
  {
    if steps != [] {
      RunCounts(Next(w, steps[0]), steps[1..], t);
      assert steps == [steps[0]] + steps[1..];
      if w.result.Some? || steps[0].SendFinished? || steps[0].SendFailed? {
        ResultStays(Next(w, steps[0]), steps[1..], t);
      }
    }
  }

  /**
   * In every reachable state: rates are never negative, and a status other than `Running` is the worker's
   * own result: a `Complete` status comes with the hash the worker sent and with the bytes all its steps
   * consumed and produced.
   */
  lemma EverySession(steps: seq<Step>, t: World)
    requires Run(START, steps, t)
    ensures t.progress.delta >= 0 && t.progress.lastTick <= t.bytesIn
    ensures t.progress.status.Complete? ==>
              && t.result == Some(Finished(t.bytesIn, t.live, t.progress.status.hash))
              && t.progress.bytesIn == t.bytesIn && t.progress.bytesOut == t.live
    ensures t.progress.status.Complete? ==>
              && SendFinished(t.progress.status.hash) in steps
              && t.progress.bytesIn == Consumed(steps) && t.progress.bytesOut == Produced(steps)
    ensures t.progress.status.Broken? ==> t.result == Some(Failed(t.progress.status.message))
    ensures t.progress.status.Broken? ==> SendFailed(t.progress.status.message) in steps
    ensures t.ui.Idle? ==> t.shown == t.progress.bytesOut
  {
    assert Inv(START);
    RunKeeps(START, steps, t);
    RunCounts(START, steps, t);
    CountsBound(t.queue, t.progress.lastTick, t.bytesIn);
  }

  lemma {:induction false} CountsBound(queue: seq<Event>, lo: nat, hi: nat)
    requires CountsRise(queue, lo, hi)
    ensures lo <= hi
    ensures forall i, j | 0 <= i <= j < |queue| && queue[i].Tick? && queue[j].Tick? ::
              lo <= queue[i].bytesIn <= queue[j].bytesIn <= hi
    decreases |queue|
  {
    if queue != [] {
      var lo' := if queue[0].Tick? then queue[0].bytesIn else lo;
      CountsBound(queue[1..], lo', hi);
      forall i, j | 0 <= i <= j < |queue| && queue[i].Tick? && queue[j].Tick?
        ensures lo <= queue[i].bytesIn <= queue[j].bytesIn <= hi
      {
        assert j > 0 ==> queue[j] == queue[1..][j - 1];
        assert i > 0 ==> queue[i] == queue[1..][i - 1];
      }
    }
  }

  /** A poll's receive steps, with no send in between, are the drain that `BackupProgress.Poll` computes. */
  lemma {:induction false} ReceivesAreDrain(w: World) returns (steps: seq<Step>, t: World)
    requires w.ui.Receiving?
    ensures Run(w, steps, t) && t.ui.Idle?
    ensures (t.progress, t.queue) == (var d := Drain(w.progress, w.queue); (d.0.(bytesOut := w.live), d.1))
    decreases |w.queue|
  {
    if w.queue == [] || IsTerminal(w.queue[0]) {
      var first := if w.queue == [] then PollEmpty else PollReceive;
      var mid := Next(w, first);
      t := Next(mid, PollEnd);
      steps := [first, PollEnd];
      assert steps[1..] == [PollEnd] && [PollEnd][1..] == [];
      assert Run(t, [], t) && Run(mid, [PollEnd], t);
    } else {
      var mid := Next(w, PollReceive);
      var rest;
      rest, t := ReceivesAreDrain(mid);
      steps := [PollReceive] + rest;
      assert steps[1..] == rest;
    }
  }

  lemma {:induction false} DrainEmpties(p: Progress, rx: seq<Event>)
    requires forall i | 0 <= i < |rx| - 1 :: !IsTerminal(rx[i])
    ensures Drain(p, rx).1 == []
    decreases |rx|
  {
    if |rx| > 1 {
      assert forall i | 0 <= i < |rx[1..]| - 1 :: rx[1..][i] == rx[i + 1];
      DrainEmpties(Apply(p, rx[0]), rx[1..]);
    }
  }

  /** Once the worker has sent its result, the next poll delivers it. */
  lemma NextPollDelivers(w: World) returns (steps: seq<Step>, t: World)
    requires Inv(w) && w.ui.Idle? && w.result.Some?
    ensures Run(w, [PollStart] + steps, t) && t.ui.Idle? && Delivered(t)
  {
    var mid := Next(w, PollStart);
    steps, t := ReceivesAreDrain(mid);
    assert ([PollStart] + steps)[1..] == steps;
    RunKeeps(w, [PollStart] + steps, t);
    DrainEmpties(mid.progress, mid.queue);
    ResultStays(mid, steps, t);
  }

  lemma {:induction false} ResultStays(w: World, steps: seq<Step>, t: World)
    requires Run(w, steps, t) && w.result.Some?
    ensures t.result == w.result
    decreases |steps|
  {
    if steps != [] {
      ResultStays(Next(w, steps[0]), steps[1..], t);
    }
  }
}
