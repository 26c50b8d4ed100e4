/** The micro-batching scheduler (jev_service/batching.py): concurrent requests are queued, collected
  into batches of at most max_batch, run together, and each waiter's future gets its own result. */
module MicroBatcher {
  import opened Common
  import Judger

  /** A queued job and the number of its future. */
  datatype Ticket<J> = Ticket(job: J, fut: nat)

  datatype Future<R> = Pending | Resolved(value: R) | Failed(error: string) | Cancelled

  /** What the run callback gives for one job: a result, or an exception object in its place. */
  datatype Item<R> = Value(value: R) | Exception(error: string)

  datatype Outcome<R> = Raised(error: string) | Returned(items: seq<Item<R>>)

  /** The worker task: waiting for a first job, collecting, or inside the run callback. */
  datatype Worker<J> = Idle | Collecting(batch: seq<Ticket<J>>) | Running(batch: seq<Ticket<J>>)

  /** `submitted` and `finished` record the history: every ticket ever queued, every batch ever run. */
  datatype Server<J, R> = Server(
    queue: seq<Ticket<J>>, worker: Worker<J>, futures: seq<Future<R>>, batchSizes: seq<nat>,
    submitted: seq<Ticket<J>>, finished: seq<seq<Ticket<J>>>)

  datatype Event<J, R> =
    | Submit(job: J)
    | TakeFirst
    | TakeNext
    | Dispatch
    | Finish(outcome: Outcome<R>)
    | Cancel(fut: nat)

  function InHand<J>(w: Worker<J>): seq<Ticket<J>> { if w.Idle? then [] else w.batch }

  /** set_result or set_exception, unless the future is done. */
  function Deliver<R>(f: Future<R>, item: Item<R>): Future<R> {
    if f.Pending? then
      match item
      case Value(v) => Resolved(v)
      case Exception(e) => Failed(e)
    else f
  }

  /** The first n items, delivered in order to the waiters at the same positions of the batch. */
  function DeliverAll<J, R>(futures: seq<Future<R>>, batch: seq<Ticket<J>>, items: seq<Item<R>>, n: nat)
    : (fs: seq<Future<R>>)
    requires n <= |batch| && n <= |items|
    ensures |fs| == |futures|
  {
    if n == 0 then futures
    else
      var fs, f := DeliverAll(futures, batch, items, n - 1), batch[n-1].fut;
      if f < |fs| then fs[f := Deliver(fs[f], items[n-1])] else fs
  }

  /** A failed batch broadcasts its exception to every waiter. */
  function Items<R>(outcome: Outcome<R>, n: nat): (items: seq<Item<R>>)
    ensures |items| <= n
  {
    match outcome
    case Raised(e) => seq(n, i => Exception(e))
    case Returned(items) => if |items| <= n then items else items[..n]
  }

  function HandOut<J, R>(s: Server<J, R>, items: seq<Item<R>>): Server<J, R>
    requires s.worker.Running? && |items| <= |s.worker.batch|
  {
    var batch := s.worker.batch;
    s.(worker := Idle, futures := DeliverAll(s.futures, batch, items, |items|), finished := s.finished + [batch])
  }

  /** One step between two awaits; an event that is not enabled changes nothing. The window's timeout
    may close a batch of any size from 1 to max, so Dispatch is enabled as soon as one job is held. */
  function Step<J, R>(max: nat, s: Server<J, R>, ev: Event<J, R>): Server<J, R> {
    match ev
    case Submit(job) =>
      var t := Ticket(job, |s.futures|);
      s.(queue := s.queue + [t], futures := s.futures + [Pending], submitted := s.submitted + [t])
    case TakeFirst =>
      if s.worker.Idle? && s.queue != [] then
        s.(worker := Collecting([s.queue[0]]), queue := s.queue[1..])
      else s
    case TakeNext =>
      if s.worker.Collecting? && |s.worker.batch| < max && s.queue != [] then
        s.(worker := Collecting(s.worker.batch + [s.queue[0]]), queue := s.queue[1..])
      else s
    case Dispatch =>
      if s.worker.Collecting? then
        s.(worker := Running(s.worker.batch), batchSizes := s.batchSizes + [|s.worker.batch|])
      else s
    case Finish(outcome) =>
      if s.worker.Running? then HandOut(s, Items(outcome, |s.worker.batch|)) else s
    case Cancel(f) =>
      if f < |s.futures| && s.futures[f].Pending? then s.(futures := s.futures[f := Cancelled]) else s
  }

  function Init<J, R>(): Server<J, R> { Server([], Idle, [], [], [], []) }

  function Exec<J, R>(max: nat, evs: seq<Event<J, R>>): Server<J, R> {
    if evs == [] then Init() else Step(max, Exec(max, evs[..|evs|-1]), evs[|evs|-1])
  }

  // ---------------------------------------------------------------- what every step keeps

  function Sizes<T>(bs: seq<seq<T>>): seq<nat> { seq(|bs|, i requires 0 <= i < |bs| => |bs[i]|) }

  /** Tickets carry consecutive future numbers from `base` on. */
  ghost predicate Numbered<J>(ts: seq<Ticket<J>>, base: nat) {
    forall k :: 0 <= k < |ts| ==> ts[k].fut == base + k
  }

  /** Every ticket is, in submission order, in a finished batch, in the worker's hands, or queued. */
  ghost predicate Fifo<J, R>(s: Server<J, R>) {
    && s.submitted == Flatten(s.finished) + InHand(s.worker) + s.queue
    && |s.futures| == |s.submitted|
    && Numbered(s.submitted, 0)
  }

  ghost predicate Batched<J, R>(max: nat, s: Server<J, R>) {
    && (forall b :: b in s.finished ==> 1 <= |b| <= max)
    && (!s.worker.Idle? ==> 1 <= |s.worker.batch| <= max)
    && s.batchSizes == Sizes(s.finished) + if s.worker.Running? then [|s.worker.batch|] else []
  }

  /** Only finished batches have results. */
  ghost predicate Unserved<J, R>(s: Server<J, R>) {
    forall i :: |Flatten(s.finished)| <= i < |s.futures| ==> s.futures[i].Pending? || s.futures[i].Cancelled?
  }

  ghost predicate Inv<J, R>(max: nat, s: Server<J, R>) {
    max >= 1 && Fifo(s) && Batched(max, s) && Unserved(s)
  }

  /** Futures base .. base + |items| receive the items, the others stay. */
  ghost predicate Delivered<R>(fs: seq<Future<R>>, fs': seq<Future<R>>, base: nat, items: seq<Item<R>>) {
    && |fs'| == |fs|
    && forall f :: 0 <= f < |fs| ==>
         fs'[f] == if base <= f < base + |items| then Deliver(fs[f], items[f - base]) else fs[f]
  }

  /** Each ticket of the batch gets the item at its own position; no other future changes. */
  lemma {:induction false} DeliveredAt<J, R>(futures: seq<Future<R>>, batch: seq<Ticket<J>>, items: seq<Item<R>>,
                                             n: nat, base: nat)
    requires n <= |batch| && n <= |items| && base + |batch| <= |futures| && Numbered(batch, base)
    ensures Delivered(futures, DeliverAll(futures, batch, items, n), base, items[..n])
  {
    hide Deliver;
    if n > 0 {
      DeliveredAt(futures, batch, items, n - 1, base);
      assert items[..n-1] == items[..n][..n-1];
    }
  }

  lemma NumberedSlice<J>(ts: seq<Ticket<J>>, lo: nat, hi: nat)
    requires Numbered(ts, 0) && lo <= hi <= |ts|
    ensures Numbered(ts[lo..hi], lo)
  {
  }

  lemma MiddleSlice<T>(x: seq<T>, h: seq<T>, q: seq<T>)
    ensures (x + h + q)[|x|..|x| + |h|] == h && |x| + |h| <= |x + h + q|
  {
  }

  /** The tickets in hand carry the future numbers right after the finished ones. */
  lemma InHandNumbers<J, R>(s: Server<J, R>)
    requires Fifo(s)
    ensures |Flatten(s.finished)| + |InHand(s.worker)| <= |s.futures| == |s.submitted|
    ensures s.submitted[|Flatten(s.finished)|..|Flatten(s.finished)| + |InHand(s.worker)|] == InHand(s.worker)
    ensures Numbered(InHand(s.worker), |Flatten(s.finished)|)
  {
    hide Flatten, InHand, Numbered;
    MiddleSlice(Flatten(s.finished), InHand(s.worker), s.queue);
    NumberedSlice(s.submitted, |Flatten(s.finished)|, |Flatten(s.finished)| + |InHand(s.worker)|);
  }

  /** What handing out a batch's results does. */
  lemma HandOutEffect<J, R>(s: Server<J, R>, items: seq<Item<R>>)
    requires Fifo(s) && s.worker.Running? && |items| <= |s.worker.batch|
    ensures var s', base, batch := HandOut(s, items), |Flatten(s.finished)|, s.worker.batch;
      && base + |batch| <= |s.futures| == |s.submitted|
      && Delivered(s.futures, s'.futures, base, items)
      && s.submitted[base..base + |batch|] == batch
      && Flatten(s'.finished) == Flatten(s.finished) + batch
  {
    InHandNumbers(s);
    FlattenAppend(s.finished, s.worker.batch);
    hide Flatten, Deliver, Fifo;
    DeliveredAt(s.futures, s.worker.batch, items, |items|, |Flatten(s.finished)|);
    assert items[..|items|] == items;
  }

  lemma HandOutKeepsFifo<J, R>(s: Server<J, R>, items: seq<Item<R>>)
    requires Fifo(s) && s.worker.Running? && |items| <= |s.worker.batch|
    ensures Fifo(HandOut(s, items))
  {
    FlattenAppend(s.finished, s.worker.batch);
    hide Flatten, DeliverAll, Numbered;
    assert Flatten(s.finished) + s.worker.batch + [] + s.queue == Flatten(s.finished) + s.worker.batch + s.queue;
  }

  lemma HandOutKeepsInv<J, R>(max: nat, s: Server<J, R>, items: seq<Item<R>>)
    requires Inv(max, s) && s.worker.Running? && |items| <= |s.worker.batch|
    ensures Inv(max, HandOut(s, items))
  {
    HandOutKeepsFifo(s, items);
    HandOutEffect(s, items);
    hide Flatten, DeliverAll, Deliver, Fifo;
    assert Sizes(s.finished + [s.worker.batch]) == Sizes(s.finished) + [|s.worker.batch|];
  }

  lemma TakeKeepsFifo<J, R>(s: Server<J, R>, s': Server<J, R>)
    requires Fifo(s) && s.queue != []
    requires s' == s.(worker := s'.worker, queue := s.queue[1..])
    requires InHand(s'.worker) == InHand(s.worker) + [s.queue[0]]
    ensures Fifo(s')
  {
    hide Flatten, InHand;
    var x, h := Flatten(s.finished), InHand(s.worker);
    assert x + h + s.queue == x + (h + [s.queue[0]]) + s.queue[1..];
  }

  lemma SameBatches<J, R>(max: nat, s: Server<J, R>, s': Server<J, R>)
    requires Batched(max, s) && s'.finished == s.finished && s'.worker == s.worker && s'.batchSizes == s.batchSizes
    ensures Batched(max, s')
  {
  }

  lemma SubmitKeepsInv<J, R>(max: nat, s: Server<J, R>, job: J)
    requires Inv(max, s)
    ensures Inv(max, Step(max, s, Submit(job)))
  {
    hide Flatten, InHand, Batched;
    var s', t := Step(max, s, Submit(job)), Ticket(job, |s.futures|);
    var x := Flatten(s.finished) + InHand(s.worker);
    assert x + (s.queue + [t]) == x + s.queue + [t];
    assert Numbered(s'.submitted, 0);
    hide Numbered;
    assert Batched(max, s') by { SameBatches(max, s, s'); }
  }

  lemma TakeKeepsInv<J, R>(max: nat, s: Server<J, R>, s': Server<J, R>)
    requires Inv(max, s) && s.queue != [] && !s.worker.Running? && |InHand(s.worker)| < max
    requires s' == s.(worker := Collecting(InHand(s.worker) + [s.queue[0]]), queue := s.queue[1..])
    ensures Inv(max, s')
  {
    TakeKeepsFifo(s, s');
    hide Flatten, Fifo;
  }

  lemma CancelKeepsInv<J, R>(max: nat, s: Server<J, R>, f: nat)
    requires Inv(max, s)
    ensures Inv(max, Step(max, s, Event.Cancel(f)))
  {
    hide Flatten, InHand, Batched;
    SameBatches(max, s, Step(max, s, Event.Cancel(f)));
  }

  lemma DispatchKeepsInv<J, R>(max: nat, s: Server<J, R>)
    requires Inv(max, s)
    ensures Inv(max, Step(max, s, Event.Dispatch))
  {
    hide Flatten;
  }

  lemma StepKeepsInv<J, R>(max: nat, s: Server<J, R>, ev: Event<J, R>)
    requires Inv(max, s)
    ensures Inv(max, Step(max, s, ev))
  {
    hide Flatten, Fifo, Unserved;
    match ev
    case Submit(job) =>
      SubmitKeepsInv(max, s, job);
    case TakeFirst =>
      if s.worker.Idle? && s.queue != [] {
        assert [] + [s.queue[0]] == [s.queue[0]];
        TakeKeepsInv(max, s, Step(max, s, ev));
      }
    case TakeNext =>
      if Step(max, s, ev) != s {
        TakeKeepsInv(max, s, Step(max, s, ev));
      }
    case Dispatch =>
      DispatchKeepsInv(max, s);
    case Finish(outcome) =>
      if s.worker.Running? {
        HandOutKeepsInv(max, s, Items(outcome, |s.worker.batch|));
      }
    case Cancel(f) =>
      CancelKeepsInv(max, s, f);
  }

  /** First in, first out, in batches of 1 to max, over every interleaving. */
  lemma {:induction false} Reachable<J, R>(max: nat, evs: seq<Event<J, R>>)
    requires max >= 1
    ensures Inv(max, Exec(max, evs))
  {
    if evs != [] {
      Reachable(max, evs[..|evs|-1]);
      StepKeepsInv(max, Exec(max, evs[..|evs|-1]), evs[|evs|-1]);
    }
  }

  // ---------------------------------------------------------------- the scheduler object

  /** Hands out the results one by one, as far as there are any. */
  method SetResults<J, R>(futures: seq<Future<R>>, batch: seq<Ticket<J>>, items: seq<Item<R>>)
    returns (fs: seq<Future<R>>)
    requires |items| <= |batch|
    ensures fs == DeliverAll(futures, batch, items, |items|)
  {
    fs := futures;
    for i := 0 to |items|
      invariant fs == DeliverAll(futures, batch, items, i)
    {
      var f := batch[i].fut;
      if f < |fs| && fs[f].Pending? {
        fs := fs[f := if items[i].Value? then Resolved(items[i].value) else Failed(items[i].error)];
      }
    }
  }

  class MicroBatcher<J, R> {
    const maxBatch: nat
    var queue: seq<Ticket<J>>
    var worker: Worker<J>
    var futures: seq<Future<R>>
    var batchSizes: seq<nat>
    ghost var submitted: seq<Ticket<J>>
    ghost var finished: seq<seq<Ticket<J>>>

    ghost function View(): Server<J, R>
      reads this
    {
      Server(queue, worker, futures, batchSizes, submitted, finished)
    }

    ghost predicate Valid()
      reads this
    {
      Inv(maxBatch, View())
    }

    constructor (max: int)
      ensures Valid() && View() == Init() && maxBatch == Max(1, max)
    {
      maxBatch := Max(1, max);
      queue, worker, futures, batchSizes, submitted, finished := [], Idle, [], [], [], [];
    }

    method Submit(job: J) returns (fut: nat)
      requires Valid()
      modifies this
      ensures Valid() && View() == Step(maxBatch, old(View()), Event.Submit(job))
      ensures fut == |old(futures)| && futures == old(futures) + [Pending]
      ensures queue == old(queue) + [Ticket(job, fut)] && worker == old(worker)
    {
      hide Inv;
      StepKeepsInv(maxBatch, View(), Event.Submit(job));
      fut := |futures|;
      var ticket := Ticket(job, fut);
      futures := futures + [Pending];
      queue := queue + [ticket];
      submitted := submitted + [ticket];
    }

    /** The worker's first get(). */
    method TakeFirst()
      requires Valid() && worker.Idle? && queue != []
      modifies this
      ensures Valid() && View() == Step(maxBatch, old(View()), Event.TakeFirst)
      ensures worker == Collecting([old(queue)[0]]) && queue == old(queue)[1..] && futures == old(futures)
    {
      hide Inv;
      StepKeepsInv(maxBatch, View(), Event.TakeFirst);
      worker := Collecting([queue[0]]);
      queue := queue[1..];
    }

    /** A further get() within the window. */
    method TakeNext() returns (taken: bool)
      requires Valid() && worker.Collecting?
      modifies this
      ensures Valid() && View() == Step(maxBatch, old(View()), Event.TakeNext)
      ensures taken <==> |old(worker).batch| < maxBatch && old(queue) != []
      ensures taken ==> worker == Collecting(old(worker).batch + [old(queue)[0]]) && queue == old(queue)[1..]
      ensures !taken ==> worker == old(worker) && queue == old(queue)
      ensures futures == old(futures)
    {
      hide Inv;
      StepKeepsInv(maxBatch, View(), Event.TakeNext);
      taken := |worker.batch| < maxBatch && queue != [];
      if taken {
        worker := Collecting(worker.batch + [queue[0]]);
        queue := queue[1..];
      }
    }

    method BeginDispatch() returns (jobs: seq<J>)
      requires Valid() && worker.Collecting?
      modifies this
      ensures Valid() && View() == Step(maxBatch, old(View()), Event.Dispatch)
      ensures worker == Running(old(worker).batch) && queue == old(queue) && futures == old(futures)
      ensures batchSizes == old(batchSizes) + [|jobs|]
      ensures |jobs| == |worker.batch| && forall i :: 0 <= i < |jobs| ==> jobs[i] == worker.batch[i].job
    {
      hide Inv;
      StepKeepsInv(maxBatch, View(), Event.Dispatch);
      batchSizes := batchSizes + [|worker.batch|];
      worker := Running(worker.batch);
      var batch := worker.batch;
      jobs := seq(|batch|, i requires 0 <= i < |batch| => batch[i].job);
    }

    /** The callback came back: hand the results out. */
    method FinishDispatch(outcome: Outcome<R>)
      requires Valid() && worker.Running?
      modifies this
      ensures Valid() && View() == Step(maxBatch, old(View()), Finish(outcome))
      ensures worker == Idle && queue == old(queue) && |futures| == |old(futures)|
    {
      hide Inv;
      StepKeepsInv(maxBatch, View(), Finish(outcome));
      hide Items, DeliverAll;
      var batch := worker.batch;
      futures := SetResults(futures, batch, Items(outcome, |batch|));
      finished := finished + [batch];
      worker := Idle;
    }

    method Cancel(fut: nat)
      requires Valid() && fut < |futures|
      modifies this
      ensures Valid() && View() == Step(maxBatch, old(View()), Event.Cancel(fut))
      ensures futures == if old(futures)[fut].Pending? then old(futures)[fut := Cancelled] else old(futures)
      ensures worker == old(worker) && queue == old(queue)
    {
      hide Inv;
      StepKeepsInv(maxBatch, View(), Event.Cancel(fut));
      if futures[fut].Pending? {
        futures := futures[fut := Cancelled];
      }
    }
  }

  // ---------------------------------------------------------------- what becomes of every future

  /** The k-th waiter of a batch ends with what the callback gave for it, its value or its exception, with the
    exception of the whole batch, or still waits if the list was too short; unless it went away. */
  ghost predicate Ended<R>(f: Future<R>, outcome: Outcome<R>, k: nat) {
    f.Cancelled? ||
    match outcome
    case Raised(error) => f == Failed(error)
    case Returned(items) =>
      if k >= |items| then f == Pending
      else if items[k].Value? then f == Resolved(items[k].value)
      else f == Failed(items[k].error)
  }

  lemma DeliverEnds<R>(f: Future<R>, outcome: Outcome<R>, n: nat, k: nat)
    requires k < n && (f.Pending? || f.Cancelled?)
    ensures var items := Items(outcome, n); Ended(if k < |items| then Deliver(f, items[k]) else f, outcome, k)
  {
  }

  lemma HandOutDelivers<J, R>(s: Server<J, R>, outcome: Outcome<R>, k: nat)
    requires Fifo(s) && Unserved(s) && s.worker.Running? && k < |s.worker.batch|
    ensures var s', i := HandOut(s, Items(outcome, |s.worker.batch|)), |Flatten(s.finished)| + k;
      && i < |s'.futures| && i < |s'.submitted| && i < |Flatten(s'.finished)|
      && s'.submitted[i] == s.worker.batch[k] && Ended(s'.futures[i], outcome, k)
  {
    var batch, base := s.worker.batch, |Flatten(s.finished)|;
    var items := Items(outcome, |batch|);
    HandOutEffect(s, items);
    assert s.submitted[base..base + |batch|][k] == s.submitted[base + k];
    DeliverEnds(s.futures[base + k], outcome, |batch|, k);
    hide Flatten, DeliverAll, Fifo, Unserved, Items, Deliver, Ended;
  }

  /** When the callback comes back, each waiter of the batch ends so. */
  lemma FinishDelivers<J, R>(max: nat, s: Server<J, R>, outcome: Outcome<R>, k: nat)
    requires Inv(max, s) && s.worker.Running? && k < |s.worker.batch|
    ensures var s', i := Step(max, s, Finish(outcome)), |Flatten(s.finished)| + k;
      && i < |s'.futures| && i < |s'.submitted| && i < |Flatten(s'.finished)|
      && s'.submitted[i] == s.worker.batch[k] && Ended(s'.futures[i], outcome, k)
  {
    hide Flatten, HandOut, Fifo, Batched, Unserved, Items, Ended;
    HandOutDelivers(s, outcome, k);
  }

  lemma HandOutStays<J, R>(s: Server<J, R>, items: seq<Item<R>>, i: nat)
    requires Fifo(s) && s.worker.Running? && |items| <= |s.worker.batch| && i < |Flatten(s.finished)|
    ensures var s' := HandOut(s, items);
      && i < |s.futures| && i < |s'.futures| && i < |Flatten(s'.finished)|
      && s'.futures[i] == s.futures[i] && s'.submitted == s.submitted
  {
    HandOutEffect(s, items);
    hide Flatten, DeliverAll, Fifo;
  }

  /** A future of a finished batch changes no more, unless its waiter goes away. */
  lemma FinishedStay<J, R>(max: nat, s: Server<J, R>, ev: Event<J, R>, i: nat)
    requires Inv(max, s) && i < |Flatten(s.finished)|
    ensures var s' := Step(max, s, ev);
      && i < |s.futures| == |s.submitted| && i < |s'.futures| && i < |s'.submitted| && i < |Flatten(s'.finished)|
      && s'.submitted[i] == s.submitted[i]
      && (s'.futures[i] == s.futures[i] || s'.futures[i].Cancelled?)
      && (s.futures[i].Cancelled? ==> s'.futures[i].Cancelled?)
  {
    assert |Flatten(s.finished)| <= |s.submitted|;
    if ev.Finish? && s.worker.Running? {
      HandOutStays(s, Items(ev.outcome, |s.worker.batch|), i);
    }
    hide Flatten, Fifo, Batched, Unserved, HandOut, Items;
  }

  /** In every run the k-th waiter of a batch ends with what the callback gave for it, however the run goes on,
    or is cancelled. */
  lemma {:induction false} WaiterGetsOutcome<J, R>(max: nat, evs: seq<Event<J, R>>, t: nat, k: nat)
    requires max >= 1 && t < |evs| && evs[t].Finish?
    requires Exec(max, evs[..t]).worker.Running? && k < |Exec(max, evs[..t]).worker.batch|
    ensures var before, s := Exec(max, evs[..t]), Exec(max, evs);
      var i := |Flatten(before.finished)| + k;
      && i < |s.futures| && i < |s.submitted| && i < |Flatten(s.finished)|
      && s.submitted[i] == before.worker.batch[k]
      && Ended(s.futures[i], evs[t].outcome, k)
    decreases |evs|
  {
    hide Inv, Step, Flatten;
    var init := evs[..|evs|-1];
    if t == |evs| - 1 {
      Reachable(max, init);
      FinishDelivers(max, Exec(max, init), evs[t].outcome, k);
    } else {
      assert init[..t] == evs[..t];
      WaiterGetsOutcome(max, init, t, k);
      Reachable(max, init);
      FinishedStay(max, Exec(max, init), evs[|evs|-1], |Flatten(Exec(max, evs[..t]).finished)| + k);
    }
  }

  /** Every future of a finished batch belongs to a batch that came back at some moment of the run. */
  lemma {:induction false} FinishedAt<J, R>(max: nat, evs: seq<Event<J, R>>, i: nat) returns (t: nat, k: nat)
    requires max >= 1 && i < |Flatten(Exec(max, evs).finished)|
    ensures t < |evs| && evs[t].Finish?
    ensures var before := Exec(max, evs[..t]);
      before.worker.Running? && k < |before.worker.batch| && i == |Flatten(before.finished)| + k
  {
    var init, ev := evs[..|evs|-1], evs[|evs|-1];
    var s := Exec(max, init);
    if i < |Flatten(s.finished)| {
      t, k := FinishedAt(max, init, i);
      assert init[..t] == evs[..t];
    } else {
      assert ev.Finish? && s.worker.Running?;
      FlattenAppend(s.finished, s.worker.batch);
      t, k := |init|, i - |Flatten(s.finished)|;
    }
  }

  /** Waiter i went away while still waiting, at event t. */
  ghost predicate CancelledAt<J, R>(max: nat, evs: seq<Event<J, R>>, t: nat, i: nat)
    requires t < |evs|
  {
    evs[t] == Event.Cancel(i) && i < |Exec(max, evs[..t]).futures| && Exec(max, evs[..t]).futures[i] == Pending
  }

  lemma {:induction false} FuturesGrow<J, R>(max: nat, evs: seq<Event<J, R>>, t: nat)
    requires t <= |evs|
    ensures |Exec(max, evs[..t]).futures| <= |Exec(max, evs).futures|
    decreases |evs|
  {
    if t < |evs| {
      var init := evs[..|evs|-1];
      FuturesGrow(max, init, t);
      assert init[..t] == evs[..t];
    } else {
      assert evs[..t] == evs;
    }
  }

  lemma CancelStep<J, R>(max: nat, s: Server<J, R>, ev: Event<J, R>, i: nat)
    requires Inv(max, s) && i < |Step(max, s, ev).futures|
    ensures Step(max, s, ev).futures[i].Cancelled? <==>
      i < |s.futures| && (s.futures[i].Cancelled? || (ev == Event.Cancel(i) && s.futures[i] == Pending))
  {
    if ev.Finish? && s.worker.Running? {
      HandOutEffect(s, Items(ev.outcome, |s.worker.batch|));
      hide Flatten, DeliverAll, Fifo, Batched, Items;
    } else {
      hide Flatten;
    }
  }

  /** A future is cancelled exactly when its waiter went away while it was pending. */
  lemma {:induction false} CancelledIff<J, R>(max: nat, evs: seq<Event<J, R>>, i: nat)
    requires max >= 1 && i < |Exec(max, evs).futures|
    ensures Exec(max, evs).futures[i].Cancelled? <==> exists t :: 0 <= t < |evs| && CancelledAt(max, evs, t, i)
  {
    hide Inv, Step;
    var init, ev := evs[..|evs|-1], evs[|evs|-1];
    var s := Exec(max, init);
    Reachable(max, init);
    CancelStep(max, s, ev, i);
    if i < |s.futures| {
      CancelledIff(max, init, i);
    } else {
      forall t | 0 <= t < |init| ensures !CancelledAt(max, init, t, i) {
        FuturesGrow(max, init, t);
      }
    }
    forall t | 0 <= t < |init| ensures CancelledAt(max, init, t, i) <==> CancelledAt(max, evs, t, i) {
      assert init[..t] == evs[..t];
    }
    assert CancelledAt(max, evs, |init|, i) <==> ev == Event.Cancel(i) && i < |s.futures| && s.futures[i] == Pending;
  }

  // ---------------------------------------------------------------- batching is transparent

  /** A result the callback put at a job's position, if a plain value, is what `judge` gives for that job.
    Exception objects may stand anywhere, and the list may be short or long. */
  ghost predicate Own<J(!new), R(!new)>(judge: J -> R, batch: seq<Ticket<J>>, items: seq<Item<R>>) {
    forall k :: 0 <= k < |batch| && k < |items| && items[k].Value? ==> items[k].value == judge(batch[k].job)
  }

  ghost predicate OwnAt<J(!new), R(!new)>(judge: J -> R, s: Server<J, R>, ev: Event<J, R>) {
    ev.Finish? && ev.outcome.Returned? && s.worker.Running? ==> Own(judge, s.worker.batch, ev.outcome.items)
  }

  ghost predicate OwnRun<J(!new), R(!new)>(max: nat, judge: J -> R, evs: seq<Event<J, R>>) {
    forall k :: 0 <= k < |evs| ==> OwnAt(judge, Exec(max, evs[..k]), evs[k])
  }

  /** A callback that returns gives at least one item per job. */
  ghost predicate FullAt<J, R>(s: Server<J, R>, ev: Event<J, R>) {
    ev.Finish? && ev.outcome.Returned? && s.worker.Running? ==> |s.worker.batch| <= |ev.outcome.items|
  }

  ghost predicate FullRun<J(!new), R(!new)>(max: nat, evs: seq<Event<J, R>>) {
    forall k :: 0 <= k < |evs| ==> FullAt(Exec(max, evs[..k]), evs[k])
  }

  /** Every value delivered is the submitter's own. */
  ghost predicate OwnAnswers<J(!new), R(!new)>(judge: J -> R, submitted: seq<Ticket<J>>, futures: seq<Future<R>>) {
    forall i :: 0 <= i < |futures| && futures[i].Resolved? ==>
      i < |submitted| && futures[i].value == judge(submitted[i].job)
  }

  /** No waiter among futures lo .. hi - 1 is left pending. */
  ghost predicate Done<R>(fs: seq<Future<R>>, lo: nat, hi: nat) {
    forall i :: lo <= i < hi && i < |fs| ==> !fs[i].Pending?
  }

  /** Results that are the batch's own keep every answer the submitter's own. */
  lemma DeliverOwn<J(!new), R(!new)>(judge: J -> R, submitted: seq<Ticket<J>>, fs: seq<Future<R>>,
                                     fs': seq<Future<R>>, base: nat, batch: seq<Ticket<J>>, items: seq<Item<R>>)
    requires Delivered(fs, fs', base, items) && OwnAnswers(judge, submitted, fs) && Own(judge, batch, items)
    requires |items| <= |batch| && base + |batch| <= |submitted| && submitted[base..base + |batch|] == batch
    ensures OwnAnswers(judge, submitted, fs')
  {
    forall i | 0 <= i < |fs'| && fs'[i].Resolved?
      ensures i < |submitted| && fs'[i].value == judge(submitted[i].job)
    {
      if base <= i < base + |items| && fs[i].Pending? {
        assert submitted[base..base + |batch|][i - base] == submitted[i];
      }
    }
  }

  lemma DeliverServes<R>(fs: seq<Future<R>>, fs': seq<Future<R>>, base: nat, items: seq<Item<R>>)
    requires Delivered(fs, fs', base, items) && Done(fs, 0, base)
    ensures Done(fs', 0, base + |items|)
  {
  }

  lemma ItemsOwn<J(!new), R(!new)>(judge: J -> R, s: Server<J, R>, outcome: Outcome<R>)
    requires s.worker.Running? && OwnAt(judge, s, Finish(outcome))
    ensures Own(judge, s.worker.batch, Items(outcome, |s.worker.batch|))
  {
  }

  /** A finished batch gives no waiter another one's value, whatever else the callback returned. */
  lemma FinishAnswers<J(!new), R(!new)>(max: nat, judge: J -> R, s: Server<J, R>, outcome: Outcome<R>)
    requires Inv(max, s) && s.worker.Running? && OwnAt(judge, s, Finish(outcome))
    requires OwnAnswers(judge, s.submitted, s.futures)
    ensures var s' := Step(max, s, Finish(outcome)); OwnAnswers(judge, s'.submitted, s'.futures)
  {
    var batch, base := s.worker.batch, |Flatten(s.finished)|;
    var items := Items(outcome, |batch|);
    HandOutEffect(s, items);
    ItemsOwn(judge, s, outcome);
    hide Flatten, DeliverAll, Fifo, Batched, Unserved, OwnAnswers, Delivered, Items, Own, OwnAt;
    DeliverOwn(judge, s.submitted, s.futures, HandOut(s, items).futures, base, batch, items);
  }

  /** If the callback failed or gave an item per job, the whole batch is done. */
  lemma FinishServes<J, R>(max: nat, s: Server<J, R>, outcome: Outcome<R>)
    requires Inv(max, s) && s.worker.Running? && FullAt(s, Finish(outcome))
    requires Done(s.futures, 0, |Flatten(s.finished)|)
    ensures var s' := Step(max, s, Finish(outcome)); Done(s'.futures, 0, |Flatten(s'.finished)|)
  {
    var batch, base := s.worker.batch, |Flatten(s.finished)|;
    var items := Items(outcome, |batch|);
    assert |items| == |batch|;
    HandOutEffect(s, items);
    hide Flatten, DeliverAll, Fifo, Batched, Unserved, Done, Delivered, Items, FullAt;
    DeliverServes(s.futures, HandOut(s, items).futures, base, items);
  }

  lemma StepOwns<J(!new), R(!new)>(max: nat, judge: J -> R, s: Server<J, R>, ev: Event<J, R>)
    requires Inv(max, s) && OwnAt(judge, s, ev) && OwnAnswers(judge, s.submitted, s.futures)
    ensures var s' := Step(max, s, ev); OwnAnswers(judge, s'.submitted, s'.futures)
  {
    if ev.Finish? && s.worker.Running? {
      FinishAnswers(max, judge, s, ev.outcome);
    }
  }

  lemma StepServes<J, R>(max: nat, s: Server<J, R>, ev: Event<J, R>)
    requires Inv(max, s) && FullAt(s, ev) && Done(s.futures, 0, |Flatten(s.finished)|)
    ensures var s' := Step(max, s, ev); Done(s'.futures, 0, |Flatten(s'.finished)|)
  {
    assert |Flatten(s.finished)| <= |s.futures|;
    hide Flatten;
    if ev.Finish? && s.worker.Running? {
      FinishServes(max, s, ev.outcome);
    }
  }

  lemma NothingAnswered<J(!new), R(!new)>(judge: J -> R)
    ensures OwnAnswers<J, R>(judge, [], [])
  {
  }

  /** Every future that gets a value gets what its own submitter's job gives alone. */
  lemma {:induction false} BatchingIsTransparent<J(!new), R(!new)>(max: nat, judge: J -> R, evs: seq<Event<J, R>>)
    requires max >= 1 && OwnRun(max, judge, evs)
    ensures var s := Exec(max, evs); OwnAnswers(judge, s.submitted, s.futures)
  {
    hide Inv, Step, OwnAt, OwnAnswers;
    if evs != [] {
      var init := evs[..|evs|-1];
      forall k | 0 <= k < |init| ensures OwnAt(judge, Exec(max, init[..k]), init[k]) {
        assert init[..k] == evs[..k];
      }
      BatchingIsTransparent(max, judge, init);
      Reachable(max, init);
      StepOwns(max, judge, Exec(max, init), evs[|evs|-1]);
    } else {
      NothingAnswered<J, R>(judge);
    }
  }

  /** No waiter of a finished batch stays pending. */
  lemma {:induction false} FinishedAreServed<J(!new), R(!new)>(max: nat, evs: seq<Event<J, R>>)
    requires max >= 1 && FullRun(max, evs)
    ensures var s := Exec(max, evs); Done(s.futures, 0, |Flatten(s.finished)|)
  {
    hide Inv, Step, FullAt, Flatten;
    if evs != [] {
      var init := evs[..|evs|-1];
      forall k | 0 <= k < |init| ensures FullAt(Exec(max, init[..k]), init[k]) {
        assert init[..k] == evs[..k];
      }
      FinishedAreServed(max, init);
      Reachable(max, init);
      StepServes(max, Exec(max, init), evs[|evs|-1]);
    }
  }

  // ---------------------------------------------------------------- the judging server, end to end

  /** What the production callback returns for a batch. */
  ghost predicate Judged<L, A>(e: Judger.Engine<L, A>, batch: seq<Ticket<Judger.Request>>,
                               items: seq<Item<Judger.Answers<A>>>) {
    && |items| == |batch|
    && forall k :: 0 <= k < |batch| ==> items[k] == Value(Judger.Judge(e, batch[k].job))
  }

  /** The production callback: one flat pass over the batch. */
  method RunJudger<L, A>(e: Judger.Engine<L, A>, batch: seq<Ticket<Judger.Request>>)
    returns (items: seq<Item<Judger.Answers<A>>>)
    requires e.chunk >= 1
    ensures Judged(e, batch, items)
  {
    var jobs := seq(|batch|, i requires 0 <= i < |batch| => batch[i].job);
    var out := Judger.JudgeEntriesMulti(e, jobs);
    items := seq(|out|, i requires 0 <= i < |out| => Value(out[i]));
  }

  type JudgingServer<A> = Server<Judger.Request, Judger.Answers<A>>

  type JudgingEvent<A> = Event<Judger.Request, Judger.Answers<A>>

  ghost predicate JudgedAt<L, A>(e: Judger.Engine<L, A>, s: JudgingServer<A>, ev: JudgingEvent<A>) {
    ev.Finish? && ev.outcome.Returned? && s.worker.Running? ==> Judged(e, s.worker.batch, ev.outcome.items)
  }

  /** A run in which every batch either failed or got what RunJudger returns for it. */
  ghost predicate JudgingRun<L(!new), A(!new)>(e: Judger.Engine<L, A>, max: nat, evs: seq<JudgingEvent<A>>) {
    forall k :: 0 <= k < |evs| ==> JudgedAt(e, Exec(max, evs[..k]), evs[k])
  }

  /** Event t is the callback coming back for the batch that holds waiter i. */
  ghost predicate CameBackAt<J, R>(max: nat, evs: seq<Event<J, R>>, t: nat, i: nat) {
    t < |evs| && evs[t].Finish? &&
    var before := Exec(max, evs[..t]);
    before.worker.Running? && |Flatten(before.finished)| <= i < |Flatten(before.finished)| + |before.worker.batch|
  }

  /** What a request is owed when its batch comes back: its own answers, or the error its batch raised. */
  ghost predicate Answered<L, A>(e: Judger.Engine<L, A>, request: Judger.Request,
                                 outcome: Outcome<Judger.Answers<A>>, f: Future<Judger.Answers<A>>) {
    match outcome
    case Raised(error) => f == Failed(error)
    case Returned(_) => f == Resolved(Judger.Judge(e, request))
  }

  lemma JudgedEnds<L, A>(e: Judger.Engine<L, A>, batch: seq<Ticket<Judger.Request>>, k: nat,
                         outcome: Outcome<Judger.Answers<A>>, f: Future<Judger.Answers<A>>)
    requires k < |batch| && Ended(f, outcome, k) && (outcome.Returned? ==> Judged(e, batch, outcome.items))
    ensures f.Cancelled? || Answered(e, batch[k].job, outcome, f)
  {
    hide Judger.Judge;
  }

  /** Waiter i got that when its batch came back at event t, unless it went away. */
  ghost predicate SettledBy<L, A>(e: Judger.Engine<L, A>, max: nat, evs: seq<JudgingEvent<A>>, i: nat, t: nat) {
    CameBackAt(max, evs, t, i) &&
    var s := Exec(max, evs);
    && i < |s.futures| && i < |s.submitted|
    && (s.futures[i].Cancelled? || Answered(e, s.submitted[i].job, evs[t].outcome, s.futures[i]))
  }

  ghost predicate Settled<L, A>(e: Judger.Engine<L, A>, max: nat, evs: seq<JudgingEvent<A>>, i: nat) {
    exists t: nat :: SettledBy(e, max, evs, i, t)
  }

  lemma JudgingAt<L(!new), A(!new)>(e: Judger.Engine<L, A>, max: nat, evs: seq<JudgingEvent<A>>, t: nat)
    requires JudgingRun(e, max, evs) && t < |evs|
    ensures JudgedAt(e, Exec(max, evs[..t]), evs[t])
  {
  }

  lemma CameBackAs<J, R>(max: nat, evs: seq<Event<J, R>>, t: nat, i: nat) returns (job: J, k: nat)
    requires max >= 1 && CameBackAt(max, evs, t, i)
    ensures var batch, s := Exec(max, evs[..t]).worker.batch, Exec(max, evs);
      && k < |batch| && job == batch[k].job
      && i < |s.futures| && i < |s.submitted| && s.submitted[i].job == job && Ended(s.futures[i], evs[t].outcome, k)
  {
    hide Exec, Flatten, Ended;
    var before := Exec(max, evs[..t]);
    k := i - |Flatten(before.finished)|;
    WaiterGetsOutcome(max, evs, t, k);
    job := before.worker.batch[k].job;
  }

  lemma WaiterIsJudged<L(!new), A(!new)>(e: Judger.Engine<L, A>, max: nat, evs: seq<JudgingEvent<A>>, i: nat, t: nat)
    requires max >= 1 && JudgingRun(e, max, evs) && CameBackAt(max, evs, t, i)
    ensures SettledBy(e, max, evs, i, t)
  {
    JudgingAt(e, max, evs, t);
    var job, k := CameBackAs(max, evs, t, i);
    hide Exec, Flatten, JudgingRun, Ended, Judged, Answered;
    JudgedEnds(e, Exec(max, evs[..t]).worker.batch, k, evs[t].outcome, Exec(max, evs).futures[i]);
  }

  lemma CameBackSomewhen<J, R>(max: nat, evs: seq<Event<J, R>>, i: nat) returns (t: nat)
    requires max >= 1 && i < |Flatten(Exec(max, evs).finished)|
    ensures CameBackAt(max, evs, t, i)
  {
    hide Exec, Flatten;
    var k;
    t, k := FinishedAt(max, evs, i);
  }

  lemma OwnJudgments<L(!new), A(!new)>(e: Judger.Engine<L, A>, max: nat, evs: seq<JudgingEvent<A>>)
    requires max >= 1 && JudgingRun(e, max, evs)
    ensures var s := Exec(max, evs);
      |s.futures| == |s.submitted| && forall i :: 0 <= i < |s.futures| && s.futures[i].Resolved? ==>
        s.futures[i].value == Judger.Judge(e, s.submitted[i].job)
  {
    var judge := (r: Judger.Request) => Judger.Judge(e, r);
    forall k | 0 <= k < |evs| ensures OwnAt(judge, Exec(max, evs[..k]), evs[k]) {
      assert JudgedAt(e, Exec(max, evs[..k]), evs[k]);
      hide Exec;
    }
    BatchingIsTransparent(max, judge, evs);
    Reachable(max, evs);
    hide Exec, Flatten, Judger.Judge, Batched, Unserved;
  }

  /** The batching server answers as one that judges each request on its own. A waiter of a finished batch that
    was not cancelled has the answers to its own request if its batch returned, and the very error its batch
    raised otherwise; every other waiter is pending or cancelled. */
  lemma {:induction false} ServerJudgesEachRequest<L(!new), A(!new)>(
    e: Judger.Engine<L, A>, max: nat, evs: seq<JudgingEvent<A>>)
    requires max >= 1 && JudgingRun(e, max, evs)
    ensures var s := Exec(max, evs);
      && |s.futures| == |s.submitted|
      && (forall i :: 0 <= i < |s.futures| && s.futures[i].Resolved? ==>
           s.futures[i].value == Judger.Judge(e, s.submitted[i].job))
      && (forall i :: 0 <= i < |Flatten(s.finished)| ==> Settled(e, max, evs, i))
      && (forall i :: |Flatten(s.finished)| <= i < |s.futures| ==> s.futures[i].Pending? || s.futures[i].Cancelled?)
  {
    OwnJudgments(e, max, evs);
    Reachable(max, evs);
    hide Exec, Flatten, SettledBy, JudgingRun, Judger.Judge, Batched, Fifo;
    forall i | 0 <= i < |Flatten(Exec(max, evs).finished)| ensures Settled(e, max, evs, i) {
      var t := CameBackSomewhen(max, evs, i);
      WaiterIsJudged(e, max, evs, i, t);
    }
  }

  lemma LeftPending<R>(fs: seq<Future<R>>, fs': seq<Future<R>>, base: nat, items: seq<Item<R>>, n: nat)
    requires Delivered(fs, fs', base, items) && base + n <= |fs| && |items| <= n
    ensures Done(fs', base, base + n) <==> Done(fs, base + |items|, base + n)
  {
    if Done(fs', base, base + n) {
      forall i | base + |items| <= i < base + n ensures !fs[i].Pending? {
        assert fs'[i] == fs[i];
      }
    }
  }

  /** A callback that returns too few results leaves a waiter of the batch pending exactly when one of
    the jobs past the last result was still waited for. */
  lemma ShortResults<J, R>(max: nat, s: Server<J, R>, items: seq<Item<R>>)
    requires Inv(max, s) && s.worker.Running?
    ensures var base, n := |Flatten(s.finished)|, |s.worker.batch|;
      Done(Step(max, s, Finish(Returned(items))).futures, base, base + n)
      <==> Done(s.futures, base + |items|, base + n)
  {
    var batch, base := s.worker.batch, |Flatten(s.finished)|;
    var given := Items(Returned(items), |batch|);
    assert |given| == if |items| <= |batch| then |items| else |batch|;
    HandOutEffect(s, given);
    hide Flatten, DeliverAll, Fifo, Batched, Unserved, Items;
    LeftPending(s.futures, HandOut(s, given).futures, base, given, |batch|);
  }
}
