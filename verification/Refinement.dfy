/** The request code refines the interleaved machine: the calls of a request are
    steps of its connection that make the same table and the same events, and
    they do so whatever other connections do in between. */
module Refinement {
  import opened Words
  import opened Requests
  import opened Holds
  import opened Dispatching

  ghost function DoAll(s: State, steps: seq<Step>): State
    decreases |steps|
  {
    if steps == [] then s else DoAll(Do(s, steps[0]), steps[1..])
  }

  lemma {:induction false} DoAllConcat(s: State, a: seq<Step>, b: seq<Step>)
    ensures DoAll(s, a + b) == DoAll(DoAll(s, a), b)
    decreases |a|
  {
    if a == [] {
      assert a + b == b;
    } else {
      assert (a + b)[1..] == a[1..] + b;
      DoAllConcat(Do(s, a[0]), a[1..], b);
    }
  }

  /** The transitions among the calls that reached the display. */
  function Events(c: nat, cs: seq<Call>): seq<Event> {
    if cs == [] then []
    else (if cs[0].Transition? && cs[0].ok then [Event(c, cs[0].input, cs[0].press)] else []) + Events(c, cs[1..])
  }

  /** From `s` to `t` only connection `c` moved: it ends at `pc` with the table
      its calls made, and its events were logged in order. */
  ghost predicate Moved(s: State, t: State, c: nat, pc: Pc, cs: seq<Call>) {
    && c in s.conns && c in t.conns
    && t.conns == s.conns[c := t.conns[c]]
    && t.conns[c].pc == pc && t.conns[c].held == Replay(s.conns[c].held, cs)
    && t.log == s.log + Events(c, cs)
  }

  lemma MovedOn(s: State, t: State, u: State, c: nat, p: Pc, q: Pc, a: seq<Call>, b: seq<Call>)
    requires Moved(s, t, c, p, a) && Moved(t, u, c, q, b)
    ensures Moved(s, u, c, q, a + b)
  {
    ReplayConcat(s.conns[c].held, a, b);
    EventsConcat(c, a, b);
    Associate(s.log, Events(c, a), Events(c, b));
    PutTwice(s.conns, c, t.conns[c], u.conns[c]);
  }

  lemma PutTwice<K, V>(m: map<K, V>, k: K, v: V, w: V)
    ensures m[k := v][k := w] == m[k := w]
  {
  }

  lemma DoOne(s: State, step: Step)
    ensures DoAll(s, [step]) == Do(s, step)
  {
    assert [step][1..] == [];
  }

  lemma DoTwo(s: State, first: Step, second: Step)
    ensures DoAll(s, [first, second]) == Do(Do(s, first), second)
  {
    assert [first, second][1..] == [second];
    DoOne(Do(s, first), second);
  }

  lemma {:induction false} EventsConcat(c: nat, a: seq<Call>, b: seq<Call>)
    ensures Events(c, a + b) == Events(c, a) + Events(c, b)
    decreases |a|
  {
    if a == [] {
      assert a + b == b;
    } else {
      assert (a + b)[1..] == a[1..] + b;
      EventsConcat(c, a[1..], b);
    }
  }

  lemma {:induction false} NoEvents(c: nat, cs: seq<Call>)
    requires forall i | 0 <= i < |cs| :: !cs[i].Transition?
    ensures Events(c, cs) == []
  {
    if cs == [] {
    } else {
      NoEvents(c, cs[1..]);
    }
  }

  // ----- the steps of a request -----

  function SendSteps(c: nat, call: Call): seq<Step>
    requires call.Transition?
  {
    [Send(c, call.input, call.press, call.ok)] + if call.ok then [Note(c)] else []
  }

  function UpSteps(c: nat, ok: bool): seq<Step> {
    [Up(c, ok)] + if ok then [Delete(c)] else []
  }

  predicate AllUps(cs: seq<Call>) {
    forall i | 0 <= i < |cs| :: IsUp(cs[i])
  }

  function LoopSteps(c: nat, ups: seq<Call>): seq<Step>
    requires AllUps(ups)
  {
    if ups == [] then [] else UpSteps(c, ups[0].ok) + LoopSteps(c, ups[1..])
  }

  function Inputs(ups: seq<Call>): (todo: seq<Input>)
    requires AllUps(ups)
    ensures UpsOf(ups, todo)
  {
    seq(|ups|, i requires 0 <= i < |ups| && IsUp(ups[i]) => ups[i].input)
  }

  function ReleaseSteps(c: nat, ups: seq<Call>, closing: bool): seq<Step>
    requires AllUps(ups)
  {
    [Begin(c, Inputs(ups), closing)] + LoopSteps(c, ups) + [End(c)]
  }

  /** Only keys, buttons and releases touch the table; their event is the last call. */
  function RequestSteps(c: nat, r: Request, cs: seq<Call>): seq<Step>
    requires r.ReleaseHeld? ==> AllUps(cs)
  {
    if r.ReleaseHeld? then ReleaseSteps(c, cs, false)
    else if cs != [] && cs[|cs| - 1].Transition? then SendSteps(c, cs[|cs| - 1])
    else []
  }

  ghost function ConversationSteps(c: nat, es: seq<Exchange>): seq<Step>
    requires Conversation(es)
  {
    if es == [] then []
    else
      var init, last := es[..|es| - 1], es[|es| - 1];
      ConversationSteps(c, init) + RequestSteps(c, last.request, last.effect.calls)
  }

  /** What serving a connection leaves behind: its conversation and the calls of
      the release that closed it. */
  datatype Served = Served(es: seq<Exchange>, cleanup: seq<Call>)
  {
    function Calls(): seq<Call> {
      AllCalls(es) + cleanup
    }

    ghost predicate Valid() {
      Conversation(es) && exists code :: ReleaseTrace(Replay({}, AllCalls(es)), cleanup, code)
    }
  }

  ghost function ServingSteps(c: nat, v: Served): seq<Step>
    requires v.Valid()
  {
    ConversationSteps(c, v.es) + ReleaseSteps(c, v.cleanup, true)
  }

  // ----- each is a run of the machine -----

  lemma SendRefines(s: State, c: nat, call: Call)
    requires s.At(c, Idle) && call.Transition? && Requestable(call.input)
    ensures Moved(s, DoAll(s, SendSteps(c, call)), c, Idle, [call])
  {
    var first := Send(c, call.input, call.press, call.ok);
    assert [call][1..] == [] && [call][..0] == [];
    if call.ok {
      assert SendSteps(c, call) == [first, Note(c)];
      DoTwo(s, first, Note(c));
      PutTwice(s.conns, c, Do(s, first).conns[c], Do(Do(s, first), Note(c)).conns[c]);
    } else {
      assert SendSteps(c, call) == [first];
      DoOne(s, first);
      assert s.conns == s.conns[c := s.conns[c]];
    }
  }

  lemma UpRefines(s: State, c: nat, todo: seq<Input>, closing: bool, up: Call)
    requires s.At(c, Releasing(todo, closing)) && todo != [] && IsUp(up) && up.input == todo[0]
    ensures Moved(s, DoAll(s, UpSteps(c, up.ok)), c, Releasing(todo[1..], closing), [up])
  {
    var first := Up(c, up.ok);
    assert [up][1..] == [] && [up][..0] == [];
    if up.ok {
      assert UpSteps(c, true) == [first, Delete(c)];
      DoTwo(s, first, Delete(c));
      PutTwice(s.conns, c, Do(s, first).conns[c], Do(Do(s, first), Delete(c)).conns[c]);
    } else {
      assert UpSteps(c, false) == [first];
      DoOne(s, first);
    }
  }

  lemma {:induction false} LoopRefines(s: State, c: nat, todo: seq<Input>, closing: bool, ups: seq<Call>)
    requires s.At(c, Releasing(todo, closing)) && UpsOf(ups, todo)
    ensures Moved(s, DoAll(s, LoopSteps(c, ups)), c, Releasing([], closing), ups)
    decreases |ups|
  {
    if ups == [] {
    } else {
      var first, rest := UpSteps(c, ups[0].ok), LoopSteps(c, ups[1..]);
      UpRefines(s, c, todo, closing, ups[0]);
      var t := DoAll(s, first);
      LoopRefines(t, c, todo[1..], closing, ups[1..]);
      DoAllConcat(s, first, rest);
      assert ups == [ups[0]] + ups[1..];
      MovedOn(s, t, DoAll(t, rest), c, Releasing(todo[1..], closing), Releasing([], closing), [ups[0]], ups[1..]);
    }
  }

  lemma ReleaseOrder(held: set<Input>, ups: seq<Call>, code: Code)
    requires ReleaseTrace(held, ups, code)
    ensures HeldInOrder(Inputs(ups), held)
  {
    var todo := Inputs(ups);
    forall input ensures input in Elements(todo) <==> input in held {
      if input in held {
        var i :| 0 <= i < |ups| && ups[i].input == input;
        assert todo[i] == input;
      }
    }
  }

  /** A release, on request or on closing, is a run of the connection's own steps. */
  lemma ReleaseRefines(s: State, c: nat, ups: seq<Call>, code: Code, closing: bool)
    requires s.At(c, Idle) && ReleaseTrace(s.conns[c].held, ups, code)
    ensures Moved(s, DoAll(s, ReleaseSteps(c, ups, closing)), c, if closing then Closed else Idle, ups)
  {
    ReleaseOrder(s.conns[c].held, ups, code);
    var todo := Inputs(ups);
    var begin, loop, end := Begin(c, todo, closing), LoopSteps(c, ups), End(c);
    var t := Do(s, begin);
    LoopRefines(t, c, todo, closing, ups);
    var u := DoAll(t, loop);
    DoOne(s, begin);
    DoOne(u, end);
    PutTwice(s.conns, c, t.conns[c], u.conns[c]);
    PutTwice(s.conns, c, u.conns[c], Do(u, end).conns[c]);
    DoAllConcat(s, [begin], loop);
    DoAllConcat(s, [begin] + loop, [end]);
  }

  lemma KeyRefines(s: State, c: nat, lookup: Call, sent: Call)
    requires s.At(c, Idle) && lookup.Lookup?
    requires sent.Transition? && Requestable(sent.input)
    ensures Moved(s, DoAll(s, SendSteps(c, sent)), c, Idle, [lookup] + [sent])
  {
    SendRefines(s, c, sent);
    QuietRefines(s, c, [lookup]);
    MovedOn(s, s, DoAll(s, SendSteps(c, sent)), c, Idle, Idle, [lookup], [sent]);
  }

  /** Every request a connection can decode is a run of its own steps. */
  lemma RequestRefines(s: State, c: nat, r: Request, cs: seq<Call>, code: Code)
    requires s.At(c, Idle) && ValidRequest(r) && Trace(r, s.conns[c].held, cs, code)
    ensures Moved(s, DoAll(s, RequestSteps(c, r, cs)), c, Idle, cs)
  {
    match r
    case ReleaseHeld =>
      ReleaseRefines(s, c, cs, code, false);
    case PressButton(button, press) =>
      SendRefines(s, c, cs[0]);
    case PressKey(name, press) =>
      if cs[0].code != 0 {
        assert cs == [cs[0]] + cs[1..] && cs[1] == cs[1..][0];
        KeyRefines(s, c, cs[0], cs[1]);
      } else {
        QuietRefines(s, c, cs);
      }
    case Move(_, _) =>
      QuietRefines(s, c, cs);
    case InspectAll =>
      QuietRefines(s, c, cs);
    case Activate(_) =>
      assert forall k | 0 < k < |cs| :: cs[1..][k - 1] == cs[k];
      QuietRefines(s, c, cs);
    case Fullscreen(_, _) =>
      assert forall k | 0 < k < |cs| :: cs[1..][k - 1] == cs[k];
      QuietRefines(s, c, cs);
  }

  lemma QuietRefines(s: State, c: nat, cs: seq<Call>)
    requires s.At(c, Idle) && forall i | 0 <= i < |cs| :: !cs[i].Transition?
    ensures Moved(s, s, c, Idle, cs)
  {
    NoEvents(c, cs);
    ReplayWithoutTransitions(s.conns[c].held, cs);
  }

  /** A whole conversation is a run of the connection's own steps. */
  lemma {:induction false} ConversationRefines(s: State, c: nat, es: seq<Exchange>)
    requires s.At(c, Idle) && s.conns[c].held == {} && Conversation(es)
    ensures Moved(s, DoAll(s, ConversationSteps(c, es)), c, Idle, AllCalls(es))
    decreases |es|
  {
    if es == [] {
      QuietRefines(s, c, []);
    } else {
      var init, last := es[..|es| - 1], es[|es| - 1];
      var first, rest := ConversationSteps(c, init), RequestSteps(c, last.request, last.effect.calls);
      ConversationRefines(s, c, init);
      var t := DoAll(s, first);
      RequestRefines(t, c, last.request, last.effect.calls, last.effect.out.code);
      DoAllConcat(s, first, rest);
      MovedOn(s, t, DoAll(t, rest), c, Idle, Idle, AllCalls(init), last.effect.calls);
    }
  }

  /** So is everything a connection does between its opening and its end. */
  lemma ServingRefines(s: State, c: nat, v: Served)
    requires s.At(c, Idle) && s.conns[c].held == {} && v.Valid()
    ensures Moved(s, DoAll(s, ServingSteps(c, v)), c, Closed, v.Calls())
  {
    var talk, close := ConversationSteps(c, v.es), ReleaseSteps(c, v.cleanup, true);
    var code :| ReleaseTrace(Replay({}, AllCalls(v.es)), v.cleanup, code);
    ConversationRefines(s, c, v.es);
    var t := DoAll(s, talk);
    ReleaseRefines(t, c, v.cleanup, code, true);
    DoAllConcat(s, talk, close);
    MovedOn(s, t, DoAll(t, close), c, Idle, Closed, AllCalls(v.es), v.cleanup);
  }

  lemma {:induction false} RunContinues(before: seq<Step>, steps: seq<Step>)
    ensures Run(before + steps) == DoAll(Run(before), steps)
    decreases |steps|
  {
    if steps == [] {
      assert before + steps == before;
    } else {
      assert before + steps == before + [steps[0]] + steps[1..];
      assert (before + [steps[0]])[..|before|] == before;
      RunContinues(before + [steps[0]], steps[1..]);
    }
  }

  // ----- among other connections -----

  /** The steps of connection `c` in a schedule. */
  function Own(c: nat, steps: seq<Step>): seq<Step> {
    if steps == [] then []
    else if steps[0].conn == c then [steps[0]] + Own(c, steps[1..])
    else Own(c, steps[1..])
  }

  /** The events of connection `c` in the history. */
  function OwnEvents(c: nat, log: seq<Event>): seq<Event> {
    if log == [] then []
    else
      var last := log[|log| - 1];
      OwnEvents(c, log[..|log| - 1]) + if last.conn == c then [last] else []
  }

  /** Connection `c` is open in both states and cannot tell them apart. */
  ghost predicate Alike(c: nat, s: State, t: State) {
    c in s.conns && c in t.conns && s.conns[c] == t.conns[c] && OwnEvents(c, s.log) == OwnEvents(c, t.log)
  }

  lemma OwnStepIsLocal(s: State, t: State, step: Step)
    requires Alike(step.conn, s, t)
    ensures Alike(step.conn, Do(s, step), Do(t, step))
  {
    var c := step.conn;
    if |Do(s, step).log| > |s.log| {
      assert Do(s, step).log[..|s.log|] == s.log && Do(t, step).log[..|t.log|] == t.log;
    }
  }

  lemma OtherStepIsUnseen(s: State, c: nat, step: Step)
    requires c in s.conns && step.conn != c
    ensures Alike(c, Do(s, step), s)
  {
    if |Do(s, step).log| > |s.log| {
      assert Do(s, step).log[..|s.log|] == s.log;
    }
  }

  /** Projection: whatever the others do in between, an open connection goes
      through exactly what its own steps alone take it through. */
  lemma {:induction false} OthersDoNotInterfere(s: State, t: State, c: nat, steps: seq<Step>)
    requires Alike(c, s, t)
    ensures Alike(c, DoAll(s, steps), DoAll(t, Own(c, steps)))
    decreases |steps|
  {
    if steps == [] {
    } else if steps[0].conn == c {
      OwnStepIsLocal(s, t, steps[0]);
      assert Own(c, steps)[1..] == Own(c, steps[1..]);
      OthersDoNotInterfere(Do(s, steps[0]), Do(t, steps[0]), c, steps[1..]);
    } else {
      OtherStepIsUnseen(s, c, steps[0]);
      OthersDoNotInterfere(Do(s, steps[0]), t, c, steps[1..]);
    }
  }

  lemma {:induction false} OwnConcat(c: nat, a: seq<Step>, b: seq<Step>)
    ensures Own(c, a + b) == Own(c, a) + Own(c, b)
  {
    if a == [] {
      assert a + b == b;
    } else {
      assert (a + b)[1..] == a[1..] + b;
      OwnConcat(c, a[1..], b);
    }
  }

  lemma {:induction false} OwnEventsOfCalls(c: nat, log: seq<Event>, cs: seq<Call>)
    ensures OwnEvents(c, log + Events(c, cs)) == OwnEvents(c, log) + Events(c, cs)
    decreases |cs|
  {
    if cs == [] {
      assert log + Events(c, cs) == log;
    } else if cs[0].Transition? && cs[0].ok {
      var e, rest := Event(c, cs[0].input, cs[0].press), Events(c, cs[1..]);
      assert (log + [e])[..|log|] == log;
      OwnEventsOfCalls(c, log + [e], cs[1..]);
      Associate(log, [e], rest);
      Associate(OwnEvents(c, log), [e], rest);
    } else {
      assert Events(c, cs) == Events(c, cs[1..]);
      OwnEventsOfCalls(c, log, cs[1..]);
    }
  }

  /** From the moment a connection is open, any schedule in which its own steps
      are those of serving it ends with it closed, with the table and the events
      its calls made, whatever the other connections do meanwhile. */
  lemma ServingRefinesAmongOthers(s: State, c: nat, v: Served, steps: seq<Step>)
    requires s.At(c, Idle) && s.conns[c].held == {} && v.Valid()
    requires Own(c, steps) == ServingSteps(c, v)
    ensures DoAll(s, steps).At(c, Closed) && DoAll(s, steps).conns[c].held == Replay({}, v.Calls())
    ensures OwnEvents(c, DoAll(s, steps).log) == OwnEvents(c, s.log) + Events(c, v.Calls())
  {
    ServingRefines(s, c, v);
    OthersDoNotInterfere(s, s, c, steps);
    OwnEventsOfCalls(c, s.log, v.Calls());
  }

  // ----- from opening to closing, in any run -----

  ghost predicate NoOpen(steps: seq<Step>) {
    forall i | 0 <= i < |steps| :: !steps[i].Open?
  }

  lemma NoOpenConcat(a: seq<Step>, b: seq<Step>)
    requires NoOpen(a) && NoOpen(b)
    ensures NoOpen(a + b)
  {
  }

  lemma {:induction false} LoopHasNoOpen(c: nat, ups: seq<Call>)
    requires AllUps(ups)
    ensures NoOpen(LoopSteps(c, ups))
  {
    if ups == [] {
    } else {
      LoopHasNoOpen(c, ups[1..]);
      NoOpenConcat(UpSteps(c, ups[0].ok), LoopSteps(c, ups[1..]));
    }
  }

  lemma RequestHasNoOpen(c: nat, r: Request, cs: seq<Call>)
    requires r.ReleaseHeld? ==> AllUps(cs)
    ensures NoOpen(RequestSteps(c, r, cs))
  {
    if r.ReleaseHeld? {
      LoopHasNoOpen(c, cs);
    }
  }

  lemma {:induction false} ConversationHasNoOpen(c: nat, es: seq<Exchange>)
    requires Conversation(es)
    ensures NoOpen(ConversationSteps(c, es))
  {
    if es == [] {
    } else {
      var init, last := es[..|es| - 1], es[|es| - 1];
      ConversationHasNoOpen(c, init);
      RequestHasNoOpen(c, last.request, last.effect.calls);
      NoOpenConcat(ConversationSteps(c, init), RequestSteps(c, last.request, last.effect.calls));
    }
  }

  lemma ServingHasNoOpen(c: nat, v: Served)
    requires v.Valid()
    ensures NoOpen(ServingSteps(c, v))
  {
    ConversationHasNoOpen(c, v.es);
    LoopHasNoOpen(c, v.cleanup);
    NoOpenConcat(ConversationSteps(c, v.es), ReleaseSteps(c, v.cleanup, true));
  }

  lemma {:induction false} NoEventsBeforeOpen(steps: seq<Step>, c: nat)
    requires c !in Run(steps).conns
    ensures OwnEvents(c, Run(steps).log) == []
  {
    if steps == [] {
    } else {
      var s := Run(steps[..|steps| - 1]);
      NoEventsBeforeOpen(steps[..|steps| - 1], c);
      if |Run(steps).log| > |s.log| {
        assert Run(steps).log[..|s.log|] == s.log;
      }
    }
  }

  /** A connection that is there was opened at some step, fresh and without events. */
  lemma {:induction false} WasOpened(steps: seq<Step>, c: nat) returns (k: nat)
    requires c in Run(steps).conns
    ensures k < |steps| && steps[k] == Open(c)
    ensures Run(steps[..k + 1]).At(c, Idle) && Run(steps[..k + 1]).conns[c].held == {}
    ensures OwnEvents(c, Run(steps[..k + 1]).log) == []
  {
    var n := |steps| - 1;
    if c in Run(steps[..n]).conns {
      k := WasOpened(steps[..n], c);
      assert steps[..n][..k + 1] == steps[..k + 1];
    } else {
      k := n;
      NoEventsBeforeOpen(steps[..n], c);
      assert steps[..n + 1] == steps;
    }
  }

  /** The step that opened `c` is the first of its own steps if no other opens it. */
  lemma OpenedFirst(c: nat, steps: seq<Step>, k: nat, rest: seq<Step>)
    requires k < |steps| && steps[k] == Open(c)
    requires Own(c, steps) == [Open(c)] + rest && NoOpen(rest)
    ensures Own(c, steps[k + 1..]) == rest
  {
    assert steps == steps[..k] + steps[k..] && steps[k..][1..] == steps[k + 1..];
    OwnConcat(c, steps[..k], steps[k..]);
    OnlyOneFits(Own(c, steps[..k]), Open(c), Own(c, steps[k + 1..]), rest);
  }

  lemma OnlyOneFits(a: seq<Step>, open: Step, b: seq<Step>, rest: seq<Step>)
    requires a + ([open] + b) == [open] + rest
    ensures b == rest || open in rest
  {
    if a == [] {
      assert ([open] + b)[1..] == b && ([open] + rest)[1..] == rest;
    } else {
      assert rest[|a| - 1] == ([open] + rest)[|a|] == (a + ([open] + b))[|a|];
    }
  }

  /** Connection `c` took part in the run, and what it did there is what serving
      `v` does. */
  ghost predicate ServedIn(steps: seq<Step>, c: nat, v: Served) {
    c in Run(steps).conns && v.Valid() && Own(c, steps) == [Open(c)] + ServingSteps(c, v)
  }

  lemma OpenedThenServed(steps: seq<Step>, c: nat, v: Served) returns (k: nat)
    requires ServedIn(steps, c, v)
    ensures k <= |steps| && Own(c, steps[k..]) == ServingSteps(c, v)
    ensures Run(steps[..k]).At(c, Idle) && Run(steps[..k]).conns[c].held == {} && OwnEvents(c, Run(steps[..k]).log) == []
  {
    k := WasOpened(steps, c);
    ServingHasNoOpen(c, v);
    OpenedFirst(c, steps, k, ServingSteps(c, v));
    k := k + 1;
  }

  lemma RunSplits(steps: seq<Step>, k: nat)
    requires k <= |steps|
    ensures Run(steps) == DoAll(Run(steps[..k]), steps[k..])
  {
    assert steps[..k] + steps[k..] == steps;
    RunContinues(steps[..k], steps[k..]);
  }

  /** A connection served from its opening to its closing release, in any run of
      the machine and interleaved in any way with any others: it ends closed, with
      the table and the events that its calls made. */
  lemma ConnectionRefines(steps: seq<Step>, c: nat, v: Served)
    requires ServedIn(steps, c, v)
    ensures Run(steps).At(c, Closed) && Run(steps).conns[c].held == Replay({}, v.Calls())
    ensures OwnEvents(c, Run(steps).log) == Events(c, v.Calls())
  {
    var k := OpenedThenServed(steps, c, v);
    RunSplits(steps, k);
    ServingRefinesAmongOthers(Run(steps[..k]), c, v, steps[k..]);
  }

  /** The other way round: wherever a slot is free, a connection can be served
      without a break, and the other connections are untouched. */
  lemma ConnectionCanRun(before: seq<Step>, c: nat, v: Served)
    requires c !in Run(before).conns && |Run(before).Active()| < 10 && v.Valid()
    ensures var s, t := Run(before), Run(before + ([Open(c)] + ServingSteps(c, v)));
            && t.At(c, Closed) && t.conns == s.conns[c := t.conns[c]]
            && t.conns[c].held == Replay({}, v.Calls()) && t.log == s.log + Events(c, v.Calls())
  {
    var s := Run(before);
    var t := Do(s, Open(c));
    DoOne(s, Open(c));
    ServingRefines(t, c, v);
    DoAllConcat(s, [Open(c)], ServingSteps(c, v));
    RunContinues(before, [Open(c)] + ServingSteps(c, v));
    PutTwice(s.conns, c, t.conns[c], DoAll(t, ServingSteps(c, v)).conns[c]);
  }

  lemma HeldAfterServing(v: Served, i: Input)
    requires v.Valid()
    ensures i in Replay({}, v.Calls()) <==> Transition(i, false, false) in v.cleanup
  {
    var code :| ReleaseTrace(Replay({}, AllCalls(v.es)), v.cleanup, code);
    ReplayConcat({}, AllCalls(v.es), v.cleanup);
    ReleaseKeepsOnlyFailures(Replay({}, AllCalls(v.es)), v.cleanup, code);
  }

  lemma StuckIsFailedCleanup(steps: seq<Step>, c: nat, v: Served, i: Input)
    requires ServedIn(steps, c, v)
    ensures Run(steps).At(c, Closed)
    ensures i in Run(steps).conns[c].stuck <==> Transition(i, false, false) in v.cleanup
  {
    ConnectionRefines(steps, c, v);
    RunKeepsInv(steps);
    assert ReleaseOnTrack(Run(steps).conns[c]);
    HeldAfterServing(v, i);
  }

  /** End to end: when every connection that was opened has been served to its
      end, in whatever interleaving, an input is still down only if the closing
      release of some connection tried to lift it and failed. */
  lemma ServedConnectionsLeaveNothingDown(steps: seq<Step>, served: map<nat, Served>, i: Input)
    requires forall c | c in Run(steps).conns :: c in served && ServedIn(steps, c, served[c])
    requires i in Run(steps).down
    ensures exists c | c in served && c in Run(steps).conns :: Transition(i, false, false) in served[c].cleanup
  {
    forall c | c in Run(steps).conns
      ensures Run(steps).At(c, Closed)
      ensures i in Run(steps).conns[c].stuck ==> Transition(i, false, false) in served[c].cleanup
    {
      StuckIsFailedCleanup(steps, c, served[c], i);
    }
    NothingLeftDown(steps);
  }

  // ----- tables are no lower bound of the display -----

  lemma OpenTwo() returns (s: State)
    ensures s == DoAll(START, [Open(0), Open(1)]) && s.log == []
    ensures s.conns == map[0 := Conn(Idle, {}, {}), 1 := Conn(Idle, {}, {})]
  {
    DoTwo(START, Open(0), Open(1));
    assert START.Active() == {};
    var s1 := Do(START, Open(0));
    assert s1.Active() == {0};
    s := Do(s1, Open(1));
  }

  lemma AfterSend(s: State, t: State, c: nat, input: Input, press: bool)
    requires Moved(s, t, c, Idle, [Transition(input, press, true)])
    ensures t.log == s.log + [Event(c, input, press)]
    ensures t.conns[c].held == Apply(s.conns[c].held, input, press)
    ensures forall d | d in s.conns && d != c :: d in t.conns && t.conns[d] == s.conns[d]
  {
    var call := Transition(input, press, true);
    assert [call][1..] == [];
    assert Events(c, [call]) == [Event(c, input, press)] + [] == [Event(c, input, press)];
    assert [] + [call] == [call];
    ReplayStep(s.conns[c].held, [], call);
  }

  lemma LatestUpIsUp(s: State, c: nat, input: Input)
    requires Inv(s) && s.log != [] && s.log[|s.log| - 1] == Event(c, input, false)
    ensures input !in s.down
  {
    assert !Pressed(s.log, input);
  }

  /** Tables are not a lower bound of the display: two connections press the same
      key, one lets go, and the other still holds a key that is up. */
  lemma SharedKeyCanBeLifted(key: Input) returns (steps: seq<Step>)
    requires Requestable(key)
    ensures Run(steps).At(0, Idle) && key in Run(steps).conns[0].held && key !in Run(steps).down
  {
    var s := OpenTwo();
    var down, up := Transition(key, true, true), Transition(key, false, true);
    var first, second, third := SendSteps(0, down), SendSteps(1, down), SendSteps(1, up);
    SendRefines(s, 0, down);
    var t := DoAll(s, first);
    AfterSend(s, t, 0, key, true);
    SendRefines(t, 1, down);
    var u := DoAll(t, second);
    AfterSend(t, u, 1, key, true);
    SendRefines(u, 1, up);
    var v := DoAll(u, third);
    var start := [Open(0), Open(1)];
    steps := start + first + second + third;
    DoAllConcat(START, start, first);
    DoAllConcat(START, start + first, second);
    DoAllConcat(START, start + first + second, third);
    assert [] + steps == steps;
    RunContinues([], steps);
    RunKeepsInv(steps);
    AfterSend(u, v, 1, key, false);
    LatestUpIsUp(v, 1, key);
  }
}
