/** The X owner: a bounded queue of jobs, drained by one thread, whose callers
    block until their own job has run. A transition system over any number of
    callers; a step that is not enabled leaves the state as it is, so every
    sequence of steps is an interleaving. */
module OwnerQueue {
  import opened Words

  const CAPACITY: nat := 256

  datatype Ticket<J> = Ticket(id: nat, caller: nat, job: J)

  datatype Caller<J> = Idle | Sending(job: J) | Waiting(id: nat, job: J)

  /** `queue`, `running` and `closed` are the channel, the job in the worker and
      the done channels closed so far; `submitted` and `finished` are history. */
  datatype State<S, J> = State(
    x: S, queue: seq<Ticket<J>>, running: Option<Ticket<J>>, closed: set<nat>,
    callers: map<nat, Caller<J>>, submitted: seq<Ticket<J>>, finished: seq<Ticket<J>>)
  {
    function CallerOf(c: nat): Caller<J> {
      if c in callers then callers[c] else Idle
    }

    function InWorker(): seq<Ticket<J>> {
      if running.Some? then [running.value] else []
    }
  }

  datatype Step<J> = Call(caller: nat, job: J) | Send(caller: nat) | Take | Finish | Return(caller: nat)

  predicate Enabled<S, J>(s: State<S, J>, step: Step<J>) {
    match step
    case Call(c, _) => s.CallerOf(c).Idle?
    case Send(c) => s.CallerOf(c).Sending? && |s.queue| < CAPACITY
    case Take => s.running.None? && s.queue != []
    case Finish => s.running.Some?
    case Return(c) => s.CallerOf(c).Waiting? && s.CallerOf(c).id in s.closed
  }

  function Do<S, J>(f: (S, J) -> S, s: State<S, J>, step: Step<J>): State<S, J> {
    if !Enabled(s, step) then s
    else match step
      case Call(c, job) => s.(callers := s.callers[c := Sending(job)])
      case Send(c) =>
        var ticket := Ticket(|s.submitted|, c, s.CallerOf(c).job);
        s.(queue := s.queue + [ticket], submitted := s.submitted + [ticket],
           callers := s.callers[c := Waiting(ticket.id, ticket.job)])
      case Take => s.(running := Some(s.queue[0]), queue := s.queue[1..])
      case Finish =>
        var ticket := s.running.value;
        s.(x := f(s.x, ticket.job), running := None, closed := s.closed + {ticket.id},
           finished := s.finished + [ticket])
      case Return(c) => s.(callers := s.callers[c := Idle])
  }

  function Init<S, J>(x: S): State<S, J> {
    State(x, [], None, {}, map[], [], [])
  }

  function Run<S, J>(f: (S, J) -> S, x: S, steps: seq<Step<J>>): State<S, J> {
    if steps == [] then Init(x) else Do(f, Run(f, x, steps[..|steps| - 1]), steps[|steps| - 1])
  }

  function Jobs<J>(tickets: seq<Ticket<J>>): (jobs: seq<J>)
    ensures |jobs| == |tickets| && forall i | 0 <= i < |jobs| :: jobs[i] == tickets[i].job
  {
    seq(|tickets|, i requires 0 <= i < |tickets| => tickets[i].job)
  }

  // ----- the invariant -----

  ghost predicate Numbered<J>(tickets: seq<Ticket<J>>) {
    forall i | 0 <= i < |tickets| :: tickets[i].id == i
  }

  ghost predicate CallersKnown<S, J>(s: State<S, J>) {
    forall c | c in s.callers && s.callers[c].Waiting? ::
      s.callers[c].id < |s.submitted| && s.submitted[s.callers[c].id] == Ticket(s.callers[c].id, c, s.callers[c].job)
  }

  ghost predicate Inv<S, J>(f: (S, J) -> S, x: S, s: State<S, J>) {
    && s.submitted == s.finished + s.InWorker() + s.queue
    && s.x == Fold(f, x, Jobs(s.finished))
    && Numbered(s.submitted)
    && (forall i: nat :: i in s.closed <==> i < |s.finished|)
    && |s.queue| <= CAPACITY
    && CallersKnown(s)
  }

  lemma CallerStepKeepsInv<S, J>(f: (S, J) -> S, x: S, s: State<S, J>, step: Step<J>)
    requires Inv(f, x, s) && Enabled(s, step) && (step.Call? || step.Return?)
    ensures Inv(f, x, Do(f, s, step))
  {
  }

  lemma SendKeepsInv<S, J>(f: (S, J) -> S, x: S, s: State<S, J>, c: nat)
    requires Inv(f, x, s) && Enabled(s, Send(c))
    ensures Inv(f, x, Do(f, s, Send(c)))
  {
    var t := Do(f, s, Send(c));
    Associate(s.finished + s.InWorker(), s.queue, [t.submitted[|s.submitted|]]);
  }

  lemma TakeKeepsInv<S, J>(f: (S, J) -> S, x: S, s: State<S, J>)
    requires Inv(f, x, s) && Enabled(s, Take)
    ensures Inv(f, x, Do(f, s, Take))
  {
    var t := Do(f, s, Take);
    assert t.submitted == t.finished + t.InWorker() + t.queue;
  }

  lemma FinishKeepsInv<S, J>(f: (S, J) -> S, x: S, s: State<S, J>)
    requires Inv(f, x, s) && Enabled(s, Finish)
    ensures Inv(f, x, Do(f, s, Finish))
  {
    var t := Do(f, s, Finish);
    assert s.running.value == s.submitted[|s.finished|];
    assert Jobs(t.finished)[..|s.finished|] == Jobs(s.finished);
    assert t.submitted == t.finished + t.InWorker() + t.queue;
  }

  lemma StepKeepsInv<S, J>(f: (S, J) -> S, x: S, s: State<S, J>, step: Step<J>)
    requires Inv(f, x, s)
    ensures Inv(f, x, Do(f, s, step))
  {
    if Enabled(s, step) {
      match step
      case Send(c) => SendKeepsInv(f, x, s, c);
      case Take => TakeKeepsInv(f, x, s);
      case Finish => FinishKeepsInv(f, x, s);
      case _ => CallerStepKeepsInv(f, x, s, step);
    }
  }

  lemma {:induction false} RunKeepsInv<S, J>(f: (S, J) -> S, x: S, steps: seq<Step<J>>)
    ensures Inv(f, x, Run(f, x, steps))
  {
    if steps == [] {
    } else {
      RunKeepsInv(f, x, steps[..|steps| - 1]);
      StepKeepsInv(f, x, Run(f, x, steps[..|steps| - 1]), steps[|steps| - 1]);
    }
  }

  // ----- theorems over every interleaving -----

  /** Every concurrent run is the sequential run of its jobs in queue order. */
  lemma RunIsSequential<S, J>(f: (S, J) -> S, x: S, steps: seq<Step<J>>)
    ensures var s := Run(f, x, steps);
            s.finished <= s.submitted && s.x == Fold(f, x, Jobs(s.submitted[..|s.finished|]))
  {
    RunKeepsInv(f, x, steps);
    var s := Run(f, x, steps);
    assert s.submitted[..|s.finished|] == s.finished;
  }

  /** The owned state together with the answers given so far, oldest first. */
  function WithAnswers<S, J, A>(f: (S, J) -> S, answer: (S, J) -> A): ((S, seq<A>), J) -> (S, seq<A>) {
    (p: (S, seq<A>), job: J) => (f(p.0, job), p.1 + [answer(p.0, job)])
  }

  lemma {:induction false} AnswersOfSequence<S, J, A>(f: (S, J) -> S, answer: (S, J) -> A, x: S, jobs: seq<J>)
    ensures var p := Fold(WithAnswers(f, answer), (x, []), jobs);
            && p.0 == Fold(f, x, jobs) && |p.1| == |jobs|
            && forall k | 0 <= k < |jobs| :: p.1[k] == answer(Fold(f, x, jobs[..k]), jobs[k])
  {
    if jobs == [] {
    } else {
      var init := jobs[..|jobs| - 1];
      AnswersOfSequence(f, answer, x, init);
      assert forall k | 0 <= k < |init| :: init[..k] == jobs[..k];
    }
  }

  /** Linearizability: in every interleaving each finished job was answered as
      the sequential run in queue order answers it. */
  lemma AnswersAreLinearizable<S, J, A>(f: (S, J) -> S, answer: (S, J) -> A, x: S, steps: seq<Step<J>>)
    ensures var s := Run(WithAnswers(f, answer), (x, []), steps); var jobs := Jobs(s.finished);
            && s.finished <= s.submitted && s.x.0 == Fold(f, x, jobs) && |s.x.1| == |jobs|
            && forall k | 0 <= k < |jobs| :: s.x.1[k] == answer(Fold(f, x, jobs[..k]), jobs[k])
  {
    RunIsSequential(WithAnswers(f, answer), (x, []), steps);
    var s := Run(WithAnswers(f, answer), (x, []), steps);
    assert s.submitted[..|s.finished|] == s.finished;
    AnswersOfSequence(f, answer, x, Jobs(s.finished));
  }

  /** No job is lost, repeated or overtaken, and the queue stays within bounds. */
  lemma JobsAreConserved<S, J>(f: (S, J) -> S, x: S, steps: seq<Step<J>>)
    ensures var s := Run(f, x, steps);
            && s.submitted == s.finished + s.InWorker() + s.queue
            && |s.InWorker()| <= 1 && |s.queue| <= 256
            && forall i, j | 0 <= i < j < |s.submitted| :: s.submitted[i].id != s.submitted[j].id
  {
    RunKeepsInv(f, x, steps);
  }

  /** A caller that has a job to hand over is held up exactly while 256 are queued. */
  lemma HeldUpIffFull<S, J>(f: (S, J) -> S, x: S, steps: seq<Step<J>>, c: nat)
    requires Run(f, x, steps).CallerOf(c).Sending?
    ensures !Enabled(Run(f, x, steps), Send(c)) <==> |Run(f, x, steps).queue| == 256
  {
    RunKeepsInv(f, x, steps);
  }

  /** A call can return exactly when the job it asked for is among the finished. */
  lemma CallReturnsAfterItsJob<S, J>(f: (S, J) -> S, x: S, steps: seq<Step<J>>, c: nat)
    requires Run(f, x, steps).CallerOf(c).Waiting?
    ensures var s := Run(f, x, steps); var w := s.CallerOf(c);
            Enabled(s, Return(c)) <==> Ticket(w.id, c, w.job) in s.finished
  {
    RunKeepsInv(f, x, steps);
    var s := Run(f, x, steps);
    var w := s.CallerOf(c);
    assert s.submitted[w.id] == Ticket(w.id, c, w.job);
    if w.id < |s.finished| {
      assert s.finished[w.id] == s.submitted[w.id];
    }
    forall i | 0 <= i < |s.finished| ensures s.finished[i].id == i {
      assert s.finished[i] == s.submitted[i];
    }
  }

  /** History only grows, so whatever has finished stays ahead of every job
      submitted later: the sequential order respects real time. */
  lemma {:induction false} RealTimeOrder<S, J>(f: (S, J) -> S, x: S, before: seq<Step<J>>, after: seq<Step<J>>)
    ensures Run(f, x, before).finished <= Run(f, x, before + after).finished
    ensures Run(f, x, before).submitted <= Run(f, x, before + after).submitted
    decreases |after|
  {
    if after == [] {
      assert before + after == before;
    } else {
      var n := |after| - 1;
      assert (before + after)[..|before + after| - 1] == before + after[..n];
      RealTimeOrder(f, x, before, after[..n]);
    }
  }

  // ----- progress -----

  function Senders<S, J>(s: State<S, J>): set<nat> {
    set c | c in s.callers && s.callers[c].Sending?
  }

  function Waiters<S, J>(s: State<S, J>): set<nat> {
    set c | c in s.callers && s.callers[c].Waiting?
  }

  /** Steps still owed to the calls in progress. */
  function Work<S, J>(s: State<S, J>): nat {
    4 * |Senders(s)| + 2 * |s.queue| + |s.InWorker()| + |Waiters(s)|
  }

  ghost predicate AllIdle<S, J>(s: State<S, J>) {
    s.queue == [] && s.running.None? && forall c :: s.CallerOf(c).Idle?
  }

  /** Without new calls, each enabled step uses up exactly one unit of work. */
  lemma StepUsesWork<S, J>(f: (S, J) -> S, s: State<S, J>, step: Step<J>)
    requires Enabled(s, step) && !step.Call?
    ensures Work(Do(f, s, step)) == Work(s) - 1
  {
    var t := Do(f, s, step);
    match step {
      case Send(c) =>
        assert Senders(t) == Senders(s) - {c} && c in Senders(s);
        assert Waiters(t) == Waiters(s) + {c} && c !in Waiters(s);
      case Return(c) =>
        assert Senders(t) == Senders(s);
        assert Waiters(t) == Waiters(s) - {c} && c in Waiters(s);
      case Take =>
        assert Senders(t) == Senders(s) && Waiters(t) == Waiters(s);
      case Finish =>
        assert Senders(t) == Senders(s) && Waiters(t) == Waiters(s);
    }
  }

  lemma NoWorkIffIdle<S, J>(s: State<S, J>)
    ensures Work(s) == 0 <==> AllIdle(s)
  {
    if AllIdle(s) {
      forall c | c in s.callers ensures s.callers[c].Idle? {
        assert s.CallerOf(c).Idle?;
      }
      assert Senders(s) == {} && Waiters(s) == {};
    }
    if Work(s) == 0 {
      forall c ensures s.CallerOf(c).Idle? {
        assert c !in Senders(s) && c !in Waiters(s);
      }
    }
  }

  /** No deadlock: while work is owed some step other than a new call is enabled. */
  lemma NoDeadlock<S, J>(f: (S, J) -> S, x: S, steps: seq<Step<J>>)
    ensures var s := Run(f, x, steps);
            (Work(s) == 0 <==> AllIdle(s)) && (Work(s) > 0 ==> exists step :: Enabled(s, step) && !step.Call?)
  {
    RunKeepsInv(f, x, steps);
    var s := Run(f, x, steps);
    NoWorkIffIdle(s);
    if s.running.Some? {
      assert Enabled(s, Finish);
    } else if s.queue != [] {
      assert Enabled(s, Take);
    } else if c :| c in Senders(s) {
      assert Enabled(s, Send(c));
    } else if c :| c in Waiters(s) {
      assert s.submitted == s.finished;
      assert Enabled(s, Return(c));
    } else {
      assert Senders(s) == {} && Waiters(s) == {};
    }
  }

  ghost predicate Busy<S, J>(f: (S, J) -> S, x: S, before: seq<Step<J>>, after: seq<Step<J>>) {
    forall n | 0 <= n < |after| :: Enabled(Run(f, x, before + after[..n]), after[n]) && !after[n].Call?
  }

  lemma BusyBefore<S, J>(f: (S, J) -> S, x: S, before: seq<Step<J>>, after: seq<Step<J>>)
    requires after != [] && Busy(f, x, before, after)
    ensures Busy(f, x, before, after[..|after| - 1])
  {
    var init := after[..|after| - 1];
    forall m | 0 <= m < |init| ensures Enabled(Run(f, x, before + init[..m]), init[m]) && !init[m].Call? {
      assert init[..m] == after[..m];
    }
  }

  /** Every schedule that admits no new calls finishes all calls in progress, in
      exactly as many steps as there is work. */
  lemma {:induction false} EveryCallReturns<S, J>(f: (S, J) -> S, x: S, before: seq<Step<J>>, after: seq<Step<J>>)
    requires Busy(f, x, before, after)
    ensures Work(Run(f, x, before + after)) == Work(Run(f, x, before)) - |after|
    ensures AllIdle(Run(f, x, before + after)) <==> |after| == Work(Run(f, x, before))
    decreases |after|
  {
    NoWorkIffIdle(Run(f, x, before + after));
    if after == [] {
      assert before + after == before;
    } else {
      var n := |after| - 1;
      var init := after[..n];
      BusyBefore(f, x, before, after);
      EveryCallReturns(f, x, before, init);
      assert (before + after)[..|before + after| - 1] == before + init;
      StepUsesWork(f, Run(f, x, before + init), after[n]);
    }
  }

  /** How many jobs finish during `after`. */
  function Finishes<S, J>(f: (S, J) -> S, x: S, before: seq<Step<J>>, after: seq<Step<J>>): nat {
    if after == [] then 0
    else
      var n := |after| - 1;
      Finishes(f, x, before, after[..n]) + if after[n].Finish? && Enabled(Run(f, x, before + after[..n]), Finish) then 1 else 0
  }

  lemma {:induction false} FinishedGrows<S, J>(f: (S, J) -> S, x: S, before: seq<Step<J>>, after: seq<Step<J>>)
    ensures |Run(f, x, before + after).finished| == |Run(f, x, before).finished| + Finishes(f, x, before, after)
    decreases |after|
  {
    if after == [] {
      assert before + after == before;
    } else {
      var n := |after| - 1;
      assert (before + after)[..|before + after| - 1] == before + after[..n];
      FinishedGrows(f, x, before, after[..n]);
    }
  }

  lemma FinishedByNumber<S, J>(f: (S, J) -> S, x: S, steps: seq<Step<J>>, k: nat)
    requires k < |Run(f, x, steps).submitted|
    ensures var s := Run(f, x, steps); s.submitted[k] in s.finished <==> k < |s.finished|
  {
    RunKeepsInv(f, x, steps);
    var s := Run(f, x, steps);
    forall i | 0 <= i < |s.finished| ensures s.finished[i] == s.submitted[i] && s.finished[i].id == i {
      assert s.submitted[i] == s.finished[i];
    }
  }

  /** Bounded waiting under any load: job number `k` of those submitted has finished
      after the schedule `after`, new calls and all, if and only if more jobs
      finished meanwhile than were ahead of it; and those are at most 256. */
  lemma WaitIsBounded<S, J>(f: (S, J) -> S, x: S, before: seq<Step<J>>, after: seq<Step<J>>, k: nat)
    requires k < |Run(f, x, before).submitted|
    ensures var s, t := Run(f, x, before), Run(f, x, before + after);
            && (s.submitted[k] in t.finished <==> Finishes(f, x, before, after) > k - |s.finished|)
            && k - |s.finished| <= 256
  {
    RunKeepsInv(f, x, before);
    RealTimeOrder(f, x, before, after);
    FinishedGrows(f, x, before, after);
    FinishedByNumber(f, x, before + after, k);
  }
}
