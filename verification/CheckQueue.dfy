/** `CCheckQueue`: one master adds checks and waits for them; workers, and the master while
    it waits, run them in batches.  Every critical section is one atomic step of a state
    machine, so that every interleaving is a run of it. */
module CheckQueue {
  import opened Wrappers

  /** What a check will answer when it is run. */
  datatype Check = Check(id: nat, passes: bool)

  predicate AllPass(checks: seq<Check>) { forall i | 0 <= i < |checks| :: checks[i].passes }

  lemma AllPassConcat(a: seq<Check>, b: seq<Check>)
    ensures AllPass(a + b) <==> AllPass(a) && AllPass(b)
  {
    assert forall i | 0 <= i < |b| :: (a + b)[|a| + i] == b[i];
    assert forall i | 0 <= i < |a| :: (a + b)[i] == a[i];
  }

  // ---------- the fields behind the mutex ----------

  datatype Shared = Shared(queue: seq<Check>, nIdle: int, nTotal: int, fAllOk: bool, nTodo: int, fQuit: bool,
                           nBatchSize: nat)

  /** What the waiting loop of a critical section ends in. */
  datatype Outcome = Take(batch: seq<Check>, fOk: bool) | Sleep | Return(fRet: bool)

  function BatchSize(s: Shared): int
    requires s.nTotal + s.nIdle + 1 > 0
  {
    Max(1, Min(s.nBatchSize, |s.queue| / (s.nTotal + s.nIdle + 1)))
  }

  /** The last n checks, the very last first. */
  function FromBack(queue: seq<Check>, n: nat): seq<Check>
    requires n <= |queue|
  {
    seq(n, i requires 0 <= i < n => queue[|queue| - 1 - i])
  }

  lemma BatchFits(s: Shared)
    requires s.queue != [] && s.nTotal + s.nIdle >= 0
    ensures 1 <= BatchSize(s) <= |s.queue|
  {
  }

  /** The second half of a critical section: leave, go to sleep or take a batch. */
  function Proceed(s: Shared, fMaster: bool): (r: (Shared, Outcome))
    requires s.nTotal + s.nIdle >= 0
  {
    if s.queue == [] then
      if (fMaster || s.fQuit) && s.nTodo == 0 then
        (s.(nTotal := s.nTotal - 1, fAllOk := if fMaster then true else s.fAllOk), Return(s.fAllOk))
      else
        (s.(nIdle := s.nIdle + 1), Sleep)
    else
      BatchFits(s);
      (s.(queue := s.queue[..|s.queue| - BatchSize(s)]), Take(FromBack(s.queue, BatchSize(s)), s.fAllOk))
  }

  class CCheckQueue {
    var queue: seq<Check>
    var nIdle: int
    var nTotal: int
    var fAllOk: bool
    var nTodo: int
    var fQuit: bool
    const nBatchSize: nat

    ghost function Fields(): Shared
      reads this
    {
      Shared(queue, nIdle, nTotal, fAllOk, nTodo, fQuit, nBatchSize)
    }

    constructor (nBatchSizeIn: nat)
      ensures Fields() == Shared([], 0, 0, true, 0, false, nBatchSizeIn)
    {
      queue, nIdle, nTotal, fAllOk, nTodo, fQuit, nBatchSize := [], 0, 0, true, 0, false, nBatchSizeIn;
    }

    method Add(vChecks: seq<Check>)
      modifies this
      ensures Fields() == old(Fields()).(queue := old(queue) + vChecks, nTodo := old(nTodo) + |vChecks|)
      ensures forall s: State | s.shared == old(Fields()) :: Fields() == AddChecks(s, vChecks).shared
    {
      for i := 0 to |vChecks|
        invariant queue == old(queue) + vChecks[..i] && Fields() == old(Fields()).(queue := queue)
      {
        queue := queue + [vChecks[i]];
      }
      nTodo := nTodo + |vChecks|;
    }

    /** The start of a critical section: report the batch just run, or sign in.  Tells whether
        the master is to be notified. */
    method Report(fMaster: bool, nNow: nat, fOk: bool) returns (notify: bool)
      modifies this
      ensures Fields() == if nNow > 0 then old(Fields()).(fAllOk := old(fAllOk) && fOk, nTodo := old(nTodo) - nNow)
                          else old(Fields()).(nTotal := old(nTotal) + 1)
      ensures notify <==> nNow > 0 && old(nTodo) == nNow && !fMaster
    {
      notify := false;
      if nNow > 0 {
        fAllOk := fAllOk && fOk;
        nTodo := nTodo - nNow;
        if nTodo == 0 && !fMaster { notify := true; }
      } else {
        nTotal := nTotal + 1;
      }
    }

    /** The end of a critical section. */
    method TakeOrLeave(fMaster: bool) returns (r: Outcome)
      requires nTotal + nIdle >= 0
      modifies this
      ensures (Fields(), r) == Proceed(old(Fields()), fMaster)
    {
      if queue == [] {
        if (fMaster || fQuit) && nTodo == 0 {
          nTotal := nTotal - 1;
          var fRet := fAllOk;
          if fMaster { fAllOk := true; }
          return Return(fRet);
        }
        nIdle := nIdle + 1;
        return Sleep;
      }
      BatchFits(Fields());
      var nNow := Max(1, Min(nBatchSize, |queue| / (nTotal + nIdle + 1)));
      var vChecks: seq<Check> := [];
      for i := 0 to nNow
        invariant queue == old(queue)[..|old(queue)| - i] && Fields() == old(Fields()).(queue := queue)
        invariant |vChecks| == i && forall k | 0 <= k < i :: vChecks[k] == old(queue)[|old(queue)| - 1 - k]
      {
        vChecks := vChecks + [queue[|queue| - 1]];
        queue := queue[..|queue| - 1];
      }
      assert vChecks == FromBack(old(queue), nNow);
      r := Take(vChecks, fAllOk);
    }
  }

  /** One turn of the loop of thread t on the object: it runs its batch, if it has one, outside the
      lock, and then goes through a critical section.  This is the step of the state machine, in the
      fields, in the outcome and in the notification of the master. */
  method Turn(q: CCheckQueue, ghost s: State, t: Tid, th: Thread) returns (r: Outcome, notify: bool)
    requires Inv(s) && t in s.threads && th == s.threads[t] && q.Fields() == s.shared
    modifies q
    ensures (q.Fields(), r) == (Section(s, t).0.shared, Section(s, t).1)
    ensures Arrive(s, t).notified <==>
              (s.notified && !(t == Master && th == Asleep)) || (notify && s.threads[Master] == Asleep)
  {
    hide Sum;
    CanEnter(s, t);
    notify := false;
    match th {
      case Out => notify := q.Report(t == Master, 0, true);
      case Asleep => q.nIdle := q.nIdle - 1;
      case Running(batch, fOkIn) =>
        var fOk := RunChecks(batch, fOkIn);
        notify := q.Report(t == Master, |batch|, fOk);
    }
    r := q.TakeOrLeave(t == Master);
  }

  /** Running a batch outside the lock: after a failure the rest is skipped. */
  method RunChecks(vChecks: seq<Check>, fOkIn: bool) returns (fOk: bool)
    ensures fOk <==> fOkIn && AllPass(vChecks)
  {
    fOk := fOkIn;
    for i := 0 to |vChecks|
      invariant fOk <==> fOkIn && AllPass(vChecks[..i])
    {
      AllPassConcat(vChecks[..i], [vChecks[i]]);
      assert vChecks[..i + 1] == vChecks[..i] + [vChecks[i]];
      if fOk { fOk := vChecks[i].passes; }
    }
    assert vChecks[..|vChecks|] == vChecks;
  }

  // ---------- the state machine ----------

  datatype Tid = Master | Worker(n: nat)

  /** Out: not in the loop.  Asleep: waiting on its condition.  Running: outside the lock with
      a batch, and with the verdict it started from. */
  datatype Thread = Out | Asleep | Running(batch: seq<Check>, fOk: bool)

  /** `added` is every check added since `Wait` last returned; `notified` says that a wake-up
      for the sleeping master is under way. */
  datatype State = State(shared: Shared, threads: map<Tid, Thread>, notified: bool, added: seq<Check>)

  /** The start of a critical section of thread t, coming from where it is. */
  function Arrive(s: State, t: Tid): State
    requires t in s.threads
  {
    var sh := s.shared;
    match s.threads[t]
    case Out => s.(shared := sh.(nTotal := sh.nTotal + 1))
    case Asleep => s.(shared := sh.(nIdle := sh.nIdle - 1), notified := s.notified && t != Master)
    case Running(batch, fOk) =>
      s.(shared := sh.(fAllOk := sh.fAllOk && fOk && AllPass(batch), nTodo := sh.nTodo - |batch|),
         notified := s.notified ||
           (sh.nTodo == |batch| && t != Master && Master in s.threads && s.threads[Master] == Asleep))
  }

  /** A whole critical section; a returning master forgets the checks it has waited for. */
  ghost function Section(s: State, t: Tid): (State, Outcome)
    requires CountersOk(s) && t in s.threads
  {
    CanEnter(s, t);
    var a := Arrive(s, t);
    var (shared, outcome) := Proceed(a.shared, t == Master);
    match outcome
    case Take(batch, fOk) => (a.(shared := shared, threads := a.threads[t := Running(batch, fOk)]), outcome)
    case Sleep => (a.(shared := shared, threads := a.threads[t := Asleep]), outcome)
    case Return(fRet) => (a.(shared := shared, threads := a.threads[t := Out],
      added := if t == Master then [] else a.added), outcome)
  }

  function AddChecks(s: State, vChecks: seq<Check>): State {
    s.(shared := s.shared.(queue := s.shared.queue + vChecks, nTodo := s.shared.nTodo + |vChecks|),
      added := s.added + vChecks)
  }

  // ---------- counting threads ----------

  ghost function Sum(threads: map<Tid, Thread>, weight: Thread -> nat): nat {
    if threads == map[] then 0 else
      var t :| t in threads;
      weight(threads[t]) + Sum(threads - {t}, weight)
  }

  lemma {:induction false} SumWithout(threads: map<Tid, Thread>, weight: Thread -> nat, t: Tid)
    requires t in threads
    ensures Sum(threads, weight) == weight(threads[t]) + Sum(threads - {t}, weight)
    decreases |threads|
  {
    var pick :| pick in threads && Sum(threads, weight) == weight(threads[pick]) + Sum(threads - {pick}, weight);
    if pick != t {
      SumWithout(threads - {pick}, weight, t);
      SumWithout(threads - {t}, weight, pick);
      assert threads - {pick} - {t} == threads - {t} - {pick};
    }
  }

  lemma SumUpdate(threads: map<Tid, Thread>, weight: Thread -> nat, t: Tid, th: Thread)
    requires t in threads
    ensures Sum(threads[t := th], weight) == Sum(threads, weight) - weight(threads[t]) + weight(th)
  {
    SumWithout(threads, weight, t);
    SumWithout(threads[t := th], weight, t);
    assert threads[t := th] - {t} == threads - {t};
  }

  lemma {:induction false} SumZero(threads: map<Tid, Thread>, weight: Thread -> nat)
    ensures Sum(threads, weight) == 0 <==> forall t | t in threads :: weight(threads[t]) == 0
    decreases |threads|
  {
    if threads != map[] {
      var t :| t in threads && Sum(threads, weight) == weight(threads[t]) + Sum(threads - {t}, weight);
      SumZero(threads - {t}, weight);
      assert forall u | u in threads && u != t :: (threads - {t})[u] == threads[u];
    }
  }

  function InLoop(th: Thread): nat { if th == Out then 0 else 1 }

  function IsAsleep(th: Thread): nat { if th == Asleep then 1 else 0 }

  function Load(th: Thread): nat { if th.Running? then |th.batch| else 0 }

  // ---------- the invariant ----------

  ghost predicate CountersOk(s: State) {
    && s.shared.nTotal == Sum(s.threads, InLoop)
    && s.shared.nIdle == Sum(s.threads, IsAsleep)
    && s.shared.nTodo == |s.shared.queue| + Sum(s.threads, Load)
    && s.shared.nTodo <= |s.added|
  }

  /** A batch that started from a failure still has that failure in `fAllOk`. */
  ghost predicate BatchesOk(s: State) {
    forall t | t in s.threads && s.threads[t].Running? ::
      s.threads[t].batch != [] && (!s.threads[t].fOk ==> !s.shared.fAllOk)
  }

  ghost predicate AllBatchesPass(s: State) {
    forall t | t in s.threads && s.threads[t].Running? :: AllPass(s.threads[t].batch)
  }

  /** Every added check passes exactly if no failure is recorded or still to be found. */
  ghost predicate VerdictOk(s: State) {
    AllPass(s.added) <==> s.shared.fAllOk && AllPass(s.shared.queue) && AllBatchesPass(s)
  }

  /** A sleeping master has nothing left to take, and is woken once nothing is left to do. */
  ghost predicate MasterOk(s: State) {
    && Master in s.threads && !s.shared.fQuit
    && (s.notified ==> s.threads[Master] == Asleep)
    && (s.threads[Master] == Asleep ==> s.shared.queue == [] && (s.notified <==> s.shared.nTodo == 0))
  }

  ghost predicate Inv(s: State) {
    CountersOk(s) && BatchesOk(s) && VerdictOk(s) && MasterOk(s)
  }

  lemma CanEnter(s: State, t: Tid)
    requires CountersOk(s) && t in s.threads
    ensures Arrive(s, t).shared.nTotal + Arrive(s, t).shared.nIdle >= 0
  {
    SumWithout(s.threads, IsAsleep, t);
  }

  /** Any thread may enter a critical section at any time: on arrival, after a batch, when it
      is woken, and for no reason at all.  Only a master outside `Wait` adds checks. */
  ghost predicate Next(s: State, s': State)
    requires Inv(s)
  {
    || (exists t :: t in s.threads && s' == Section(s, t).0)
    || (exists vChecks: seq<Check> :: s.threads[Master] == Out && s' == AddChecks(s, vChecks))
  }

  /** Before any thread has started. */
  ghost predicate Init(s: State) {
    && s.shared == Shared([], 0, 0, true, 0, false, s.shared.nBatchSize)
    && Master in s.threads && (forall t | t in s.threads :: s.threads[t] == Out)
    && !s.notified && s.added == []
  }

  lemma InitInv(s: State)
    requires Init(s)
    ensures Inv(s)
  {
    SumZero(s.threads, InLoop);
    SumZero(s.threads, IsAsleep);
    SumZero(s.threads, Load);
  }

  lemma AddInv(s: State, vChecks: seq<Check>)
    requires Inv(s) && s.threads[Master] == Out
    ensures Inv(AddChecks(s, vChecks))
  {
    AllPassConcat(s.shared.queue, vChecks);
    AllPassConcat(s.added, vChecks);
  }

  lemma ArriveDeltas(s: State, t: Tid)
    requires t in s.threads
    ensures var (a, was) := (Arrive(s, t), s.threads[t]);
            && a.threads == s.threads && a.added == s.added && a.shared.queue == s.shared.queue
            && a.shared.nTotal == s.shared.nTotal + 1 - InLoop(was)
            && a.shared.nIdle == s.shared.nIdle - IsAsleep(was)
            && a.shared.nTodo == s.shared.nTodo - Load(was)
  {
  }

  lemma ProceedDeltas(sh: Shared, fMaster: bool)
    requires sh.nTotal + sh.nIdle >= 0
    ensures var (after, r) := Proceed(sh, fMaster);
            && after.nTotal == sh.nTotal - (if r.Return? then 1 else 0)
            && after.nIdle == sh.nIdle + (if r.Sleep? then 1 else 0)
            && after.nTodo == sh.nTodo && (r.Return? ==> sh.nTodo == 0)
            && |after.queue| == |sh.queue| - (if r.Take? then |r.batch| else 0)
  {
    hide BatchSize;
    if sh.queue != [] { BatchFits(sh); }
  }

  /** The batch taken: checks from the end of the queue, last first, and as many as the limit allows or
      as leave an equal share to everyone, but at least one. */
  lemma BatchMeans(sh: Shared, fMaster: bool)
    requires sh.queue != [] && sh.nTotal + sh.nIdle >= 0
    ensures var (after, r) := Proceed(sh, fMaster);
            && r.Take? && r.fOk == sh.fAllOk && after == sh.(queue := after.queue)
            && |sh.queue| == |after.queue| + |r.batch|
            && (forall i | 0 <= i < |after.queue| :: after.queue[i] == sh.queue[i])
            && (forall i | 0 <= i < |r.batch| :: r.batch[i] == sh.queue[|sh.queue| - 1 - i])
    ensures var k, sharers := |Proceed(sh, fMaster).1.batch|, sh.nTotal + sh.nIdle + 1;
            && k >= 1 && (k > 1 ==> k <= sh.nBatchSize && k * sharers <= |sh.queue|)
            && (k + 1 <= sh.nBatchSize ==> (k + 1) * sharers > |sh.queue|)
  {
    BatchFits(sh);
    ShareMeans(|sh.queue|, sh.nTotal + sh.nIdle + 1);
    ShareIsMost(|sh.queue|, sh.nTotal + sh.nIdle + 1, BatchSize(sh));
  }

  lemma ShareMeans(n: nat, sharers: int)
    requires sharers > 0
    ensures 0 <= n / sharers && n / sharers * sharers <= n < (n / sharers + 1) * sharers
  {
  }

  lemma ShareIsMost(n: nat, sharers: int, k: nat)
    requires sharers > 0
    ensures if k <= n / sharers then k * sharers <= n else n < k * sharers
    ensures k + 1 > n / sharers ==> (k + 1) * sharers > n
  {
    ShareMeans(n, sharers);
    if k <= n / sharers { Times(k, n / sharers, sharers); } else { Times(n / sharers + 1, k, sharers); }
    if k + 1 > n / sharers { Times(n / sharers + 1, k + 1, sharers); }
  }

  lemma Times(a: nat, b: nat, c: nat)
    requires a <= b
    ensures a * c <= b * c
  {
  }

  lemma SectionCounters(s: State, t: Tid)
    requires Inv(s) && t in s.threads
    ensures CountersOk(Section(s, t).0)
  {
    hide Arrive, Proceed, AllPass, Sum;
    CanEnter(s, t);
    ArriveDeltas(s, t);
    ProceedDeltas(Arrive(s, t).shared, t == Master);
    var th := Section(s, t).0.threads[t];
    SumUpdate(s.threads, InLoop, t, th);
    SumUpdate(s.threads, IsAsleep, t, th);
    SumUpdate(s.threads, Load, t, th);
  }

  lemma SplitQueue(queue: seq<Check>, n: nat)
    requires n <= |queue|
    ensures AllPass(queue) <==> AllPass(queue[..|queue| - n]) && AllPass(FromBack(queue, n))
  {
    var k := |queue| - n;
    if AllPass(queue[..k]) && AllPass(FromBack(queue, n)) {
      forall i | 0 <= i < |queue| ensures queue[i].passes {
        if i >= k { assert FromBack(queue, n)[|queue| - 1 - i] == queue[i]; }
      }
    }
  }

  ghost predicate OthersPass(s: State, t: Tid) {
    forall u | u in s.threads && u != t && s.threads[u].Running? :: AllPass(s.threads[u].batch)
  }

  /** Reporting a batch, or having none to report, leaves the verdict to the other threads. */
  lemma ArriveVerdict(s: State, t: Tid)
    requires Inv(s) && t in s.threads
    ensures var a := Arrive(s, t);
            && (AllPass(s.added) <==> a.shared.fAllOk && AllPass(s.shared.queue) && OthersPass(s, t))
            && (!s.shared.fAllOk ==> !a.shared.fAllOk)
  {
  }

  lemma OneThreadMoves(s: State, t: Tid)
    requires CountersOk(s) && t in s.threads
    ensures var s' := Section(s, t).0;
      s'.threads.Keys == s.threads.Keys && (forall u | u in s.threads && u != t :: s'.threads[u] == s.threads[u]) &&
        Arrive(s, t).added == s.added
  {
  }

  lemma BatchesAfter(s: State, s': State, t: Tid)
    requires t in s.threads && s'.threads.Keys == s.threads.Keys
    requires forall u | u in s.threads && u != t :: s'.threads[u] == s.threads[u]
    ensures AllBatchesPass(s') <==> OthersPass(s, t) && (s'.threads[t].Running? ==> AllPass(s'.threads[t].batch))
  {
  }

  /** The verdict survives a critical section, whatever it reports and whatever it takes. */
  lemma SectionVerdict(s: State, t: Tid)
    requires Inv(s) && t in s.threads
    ensures VerdictOk(Section(s, t).0)
  {
    hide AllBatchesPass, OthersPass, BatchesOk, MasterOk, Sum, AllPass, FromBack;
    var a := Arrive(s, t);
    var (s', outcome) := Section(s, t);
    CanEnter(s, t);
    ArriveVerdict(s, t);
    OneThreadMoves(s, t);
    BatchesAfter(s, s', t);
    if a.shared.queue != [] {
      BatchFits(a.shared);
      SplitQueue(a.shared.queue, BatchSize(a.shared));
    } else if outcome.Return? {
      NothingLeft(s, t);
      EmptyPasses(s);
    }
  }

  lemma EmptyPasses(s: State)
    ensures AllPass([])
    ensures (forall u | u in s.threads && u != Master :: !s.threads[u].Running?) ==> OthersPass(s, Master)
  {
  }

  lemma SectionBatches(s: State, t: Tid)
    requires Inv(s) && t in s.threads
    ensures BatchesOk(Section(s, t).0)
  {
    CanEnter(s, t);
    var a, s' := Arrive(s, t), Section(s, t).0;
    if a.shared.queue != [] { BatchFits(a.shared); }
    if Section(s, t).1.Return? { NothingLeft(s, t); }
    assert forall u | u in s.threads && u != t :: s'.threads[u] == s.threads[u];
  }

  /** When a critical section ends in a return, no other thread holds a batch. */
  lemma NothingLeft(s: State, t: Tid)
    requires Inv(s) && t in s.threads && Section(s, t).1.Return?
    ensures forall u | u in s.threads && u != t :: !s.threads[u].Running?
    ensures t == Master && Section(s, t).0.shared.nTodo == 0
  {
    CanEnter(s, t);
    SumUpdate(s.threads, Load, t, Out);
    var threads' := s.threads[t := Out];
    SumZero(threads', Load);
    forall u | u in s.threads && u != t ensures !s.threads[u].Running? {
      assert threads'[u] == s.threads[u] && Load(threads'[u]) == 0;
    }
  }

  /** The master leaves its critical section exactly when nothing is queued and no worker runs a batch;
      workers never leave. */
  lemma ReturnsIff(s: State, t: Tid)
    requires Inv(s) && t in s.threads
    ensures Section(s, t).1.Return? <==>
      t == Master && s.shared.queue == [] && forall u | u in s.threads && u != t :: !s.threads[u].Running?
  {
    CanEnter(s, t);
    if Section(s, t).1.Return? {
      NothingLeft(s, t);
    } else if t == Master && forall u | u in s.threads && u != t :: !s.threads[u].Running? {
      SumUpdate(s.threads, Load, t, Out);
      SumZero(s.threads[t := Out], Load);
    }
  }

  lemma SectionMaster(s: State, t: Tid)
    requires Inv(s) && t in s.threads
    ensures MasterOk(Section(s, t).0)
  {
    CanEnter(s, t);
    var a := Arrive(s, t);
    if a.shared.queue != [] { BatchFits(a.shared); }
    SumWithout(s.threads, Load, t);
  }

  /** Every step of every thread keeps the invariant. */
  lemma NextInv(s: State, s': State)
    requires Inv(s) && Next(s, s')
    ensures Inv(s')
  {
    if t :| t in s.threads && s' == Section(s, t).0 {
      SectionCounters(s, t);
      SectionVerdict(s, t);
      SectionBatches(s, t);
      SectionMaster(s, t);
    } else {
      var vChecks :| s.threads[Master] == Out && s' == AddChecks(s, vChecks);
      AddInv(s, vChecks);
    }
  }

  // ---------- what every interleaving keeps ----------

  /** A run: states from an initial one on, each reached from the one before by one step. */
  ghost predicate IsRun(run: seq<State>) {
    run != [] && Init(run[0]) && forall i | 0 <= i < |run| - 1 :: Inv(run[i]) ==> Next(run[i], run[i + 1])
  }

  lemma {:induction false} RunInv(run: seq<State>, i: nat)
    requires IsRun(run) && i < |run|
    ensures Inv(run[i])
  {
    if i == 0 { InitInv(run[0]); } else {
      RunInv(run, i - 1);
      NextInv(run[i - 1], run[i]);
    }
  }

  /** `nTodo` counts the queued checks and those in running batches. */
  lemma TodoCounts(run: seq<State>, i: nat)
    requires IsRun(run) && i < |run|
    ensures run[i].shared.nTodo == |run[i].shared.queue| + Sum(run[i].threads, Load)
  {
    RunInv(run, i);
  }

  /** `Wait` returns true exactly when every check added since it last returned passes. */
  lemma WaitIsRight(run: seq<State>, i: nat)
    requires IsRun(run) && i < |run|
    requires Inv(run[i]) && Section(run[i], Master).1.Return?
    ensures Section(run[i], Master).1.fRet <==> AllPass(run[i].added)
  {
    CanEnter(run[i], Master);
    ArriveVerdict(run[i], Master);
    NothingLeft(run[i], Master);
  }

  /** A sleeping master is either being woken, and will then return, or some worker is running
      a batch; the worker whose report brings `nTodo` to zero notifies it. */
  lemma SleepingMasterIsWoken(run: seq<State>, i: nat)
    requires IsRun(run) && i < |run| && Inv(run[i]) && run[i].threads[Master] == Asleep
    ensures run[i].notified ==> Section(run[i], Master).1.Return?
    ensures !run[i].notified ==> exists t | t in run[i].threads :: t != Master && run[i].threads[t].Running?
    ensures forall t | t in run[i].threads && run[i].threads[t].Running? &&
            run[i].shared.nTodo == |run[i].threads[t].batch| ::
              Section(run[i], t).0.notified
  {
    var s := run[i];
    CanEnter(s, Master);
    SumZero(s.threads, Load);
    forall t | t in s.threads && s.threads[t].Running? && s.shared.nTodo == |s.threads[t].batch|
      ensures Section(s, t).0.notified
    {
      CanEnter(s, t);
    }
  }

  /** What `CCheckQueueControl` asserts when it is created after a finished `Wait`, and before
      anything is added: every thread in the loop is asleep and nothing is left over. */
  lemma NextControlMayStart(run: seq<State>, i: nat)
    requires IsRun(run) && i < |run| && Master in run[i].threads
    requires run[i].threads[Master] == Out && run[i].added == []
    ensures run[i].shared.nTotal == run[i].shared.nIdle && run[i].shared.nTodo == 0 && run[i].shared.fAllOk
  {
    RunInv(run, i);
    var s := run[i];
    SumZero(s.threads, Load);
    SameSum(s.threads);
  }

  lemma {:induction false} SameSum(threads: map<Tid, Thread>)
    requires forall t | t in threads :: Load(threads[t]) == 0 && (threads[t].Running? ==> threads[t].batch != [])
    ensures Sum(threads, InLoop) == Sum(threads, IsAsleep)
    decreases |threads|
  {
    if threads != map[] {
      var t :| t in threads;
      SumWithout(threads, InLoop, t);
      SumWithout(threads, IsAsleep, t);
      SameSum(threads - {t});
    }
  }

  /** Work left: a check counts twice while queued and once while in a batch.  Taking and
      reporting batches uses it up, and nothing else changes it while the master waits, so a
      `Wait` ends after finitely many of those steps. */
  ghost function WorkLeft(s: State): nat { 2 * |s.shared.queue| + Sum(s.threads, Load) }

  lemma SectionWork(s: State, t: Tid)
    requires Inv(s) && t in s.threads
    ensures var (s', outcome) := Section(s, t);
            if s.threads[t].Running? || outcome.Take? then WorkLeft(s') < WorkLeft(s) else WorkLeft(s') == WorkLeft(s)
  {
    CanEnter(s, t);
    var a := Arrive(s, t);
    if a.shared.queue != [] { BatchFits(a.shared); }
    SumUpdate(s.threads, Load, t, Section(s, t).0.threads[t]);
    assert s.threads[t].Running? ==> s.threads[t].batch != [];
  }
}
