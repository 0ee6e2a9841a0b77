/** The requests of one connection against a live X server: what each of them
    does, as a function of what the server answers and of the jobs that have read
    the client list so far; and what that means over a whole connection. */
module Live {
  import opened Words
  import opened Fnv
  import opened Generations
  import opened Requests
  import opened Holds
  import opened Dispatching

  const ACTIVE_WINDOW: string := "_NET_ACTIVE_WINDOW"
  const WM_STATE: string := "_NET_WM_STATE"
  const WM_STATE_FULLSCREEN: string := "_NET_WM_STATE_FULLSCREEN"

  /** What the jobs of a connection meet, by the number of the job: every answer the
      X server could give, and, for a job that reads the client list, the
      list-reading jobs that other connections have run on the shared backend
      since the last one of its own. */
  datatype World = World(
    view: nat -> View, others: nat -> seq<Job>, eventOk: nat -> bool, keycodes: nat -> map<string, nat>,
    width: nat -> int, height: nat -> int, netActiveOk: nat -> bool, focusOk: nat -> bool, stateOk: nat -> bool,
    active: nat -> uint32)
  {
    /** 0 stands for a name without a key. */
    function KeycodeOf(t: nat, name: string): nat {
      if name in keycodes(t) then keycodes(t)[name] else 0
    }

    /** The window manager announces all of these atoms. */
    predicate Ready(t: nat, atoms: set<string>) {
      view(t).atomsReady && atoms <= view(t).supported
    }
  }

  /** Where the backend stands: the calls made on it, its counters, and the number
      of the next job of this connection. */
  datatype Point = Point(calls: seq<Call>, gens: Gens, tick: nat)
  {
    function Plus(e: Effect): (q: Point)
      ensures e.calls == [] ==> q.calls == calls
    {
      Point(calls + e.calls, if e.read.None? then gens else Exec(Overtaken(gens, e.read.value.others), e.read.value.job),
            tick + e.ticks)
    }
  }

  /** The counters after jobs of other connections. */
  function Overtaken(g: Gens, others: seq<Job>): Gens {
    Fold(Exec, g, others)
  }

  lemma PlusPlus(p: Point, a: Effect, b: Effect, c: Effect)
    requires c.calls == a.calls + b.calls && c.ticks == a.ticks + b.ticks
    requires if b.read.None? then c.read == a.read else a.read.None? && c.read == b.read
    ensures p.Plus(a).Plus(b) == p.Plus(c)
  {
    Associate(p.calls, a.calls, b.calls);
  }

  // ----- one request -----

  function Nothing(code: Code): Effect {
    Effect([], None, Plain(code), 0)
  }

  function LiveMove(world: World, t: nat, x: int, y: int): Effect {
    if Int32(x) && Int32(y)
    then Effect([Warp(x, y, world.eventOk(t))], None, Plain(Done(world.eventOk(t))), 1)
    else Nothing(BackendUnavailable)
  }

  function LiveKey(world: World, t: nat, name: string, press: bool): Effect {
    var kc := world.KeycodeOf(t, name);
    if kc == 0 then Effect([Lookup(name, 0)], None, Plain(InvalidRequest), 1)
    else
      var ok := world.eventOk(t + 1);
      Effect([Lookup(name, kc), Transition(Key(kc), press, ok)], None, Plain(Done(ok)), 2)
  }

  function LiveButton(world: World, t: nat, button: nat, press: bool): Effect {
    var ok := world.eventOk(t);
    Effect([Transition(Button(button), press, ok)], None, Plain(Done(ok)), 1)
  }

  function LiveGeometry(world: World, t: nat): Effect {
    var ok := world.width(t) > 0 && world.height(t) > 0;
    Effect([Geometry(ok)], None, Plain(Done(ok)), 1)
  }

  /** The windows of the list, issued in the generation that reading it makes. */
  function LiveList(world: World, t: nat, g: Gens): Effect {
    var others, v := world.others(t), world.view(t);
    if !v.Readable() then Effect([List(false)], Some(Reading(others, Inspect(v))), Plain(BackendUnavailable), 1)
    else
      var windows := Snapshot(Exec(Overtaken(g, others), Inspect(v)), v, v.clients.value);
      Effect([List(true)], Some(Reading(others, Inspect(v))), Outcome(Submitted, windows, 0, 0, 0, 0), 1)
  }

  function LiveInspect(world: World, t: nat, g: Gens): Effect {
    var first, list := LiveGeometry(world, t), LiveList(world, t + 1, g);
    if first.out.code != Submitted then first
    else
      Effect(first.calls + list.calls, list.read,
             if list.out.code == Submitted then list.out.(width := world.width(t), height := world.height(t)) else list.out, 2)
  }

  predicate IsWindowRequest(r: Request) {
    r.Activate? || r.Fullscreen?
  }

  /** What follows a recheck that succeeded. */
  function LiveActivation(world: World, t: nat, xid: uint32): Effect {
    if !world.Ready(t, {ACTIVE_WINDOW}) then Effect([], None, Plain(BackendUnavailable), 1)
    else if !world.netActiveOk(t) then Effect([NetActive(xid, false)], None, Plain(BackendUnavailable), 1)
    else if !world.focusOk(t) then Effect([NetActive(xid, true), Focus(xid, false)], None, Plain(BackendUnavailable), 1)
    else if !world.Ready(t + 1, {ACTIVE_WINDOW})
    then Effect([NetActive(xid, true), Focus(xid, true)], None, Plain(BackendUnavailable), 2)
    else
      Effect([NetActive(xid, true), Focus(xid, true), QueryActive], None,
             Outcome(Submitted, [], 0, 0, xid, world.active(t + 1)), 2)
  }

  function LiveState(world: World, t: nat, xid: uint32, add: bool): Effect {
    if !world.Ready(t, {WM_STATE, WM_STATE_FULLSCREEN}) then Effect([], None, Plain(BackendUnavailable), 1)
    else Effect([SetState(xid, add, world.stateOk(t))], None, Plain(Done(world.stateOk(t))), 1)
  }

  /** The answer of a recheck made as job `t`. */
  function VerdictAt(world: World, t: nat, g: Gens, ref: WindowRef): Option<BackendError> {
    Verdict(Overtaken(g, world.others(t)), ref, world.view(t))
  }

  function LiveRecheck(world: World, t: nat, g: Gens, ref: WindowRef): Effect {
    var error := VerdictAt(world, t, g, ref);
    Effect([Recheck(ref, error)], Some(Reading(world.others(t), Check(ref, world.view(t)))),
           Plain(if error.Some? then MapError(error.value) else Submitted), 1)
  }

  /** A recheck, and the rest of the request if it succeeds. */
  function AfterRecheck(world: World, t: nat, g: Gens, ref: WindowRef, rest: Effect): Effect {
    var first := LiveRecheck(world, t, g, ref);
    if first.out.code != Submitted then first
    else Effect(Prefixed(ref, rest.calls), first.read, rest.out, 1 + rest.ticks)
  }

  lemma RecheckThenRest(p: Point, world: World, t: nat, ref: WindowRef, rest: Effect)
    requires VerdictAt(world, t, p.gens, ref).None? && rest.read.None?
    ensures p.Plus(LiveRecheck(world, t, p.gens, ref)).Plus(rest) == p.Plus(AfterRecheck(world, t, p.gens, ref, rest))
  {
    PlusPlus(p, LiveRecheck(world, t, p.gens, ref), rest, AfterRecheck(world, t, p.gens, ref, rest));
  }

  /** One up for each input, as the jobs from `t` on; the X server decides. */
  function UpsFrom(world: World, t: nat, inputs: seq<Input>): (ups: seq<Call>)
    ensures |ups| == |inputs|
  {
    seq(|inputs|, i requires 0 <= i < |inputs| => Transition(inputs[i], false, world.eventOk(t + i)))
  }

  lemma UpsFromMet(world: World, t: nat, inputs: seq<Input>)
    ensures UpsOf(UpsFrom(world, t, inputs), inputs) && MetBy(world, t, UpsFrom(world, t, inputs))
  {
  }

  /** Call number `i` was sent as job `t + i`, and the X server decided its outcome. */
  ghost predicate MetBy(world: World, t: nat, cs: seq<Call>) {
    forall i | 0 <= i < |cs| :: cs[i].Transition? && cs[i].ok == world.eventOk(t + i)
  }

  /** A release whose ups went out as the jobs from `t` on. */
  ghost predicate LiveRelease(world: World, t: nat, held: set<Input>, e: Effect) {
    && ReleaseTrace(held, e.calls, e.out.code) && MetBy(world, t, e.calls)
    && e.read.None? && e.out == Plain(e.out.code) && e.ticks == |e.calls|
  }

  /** What a request other than a release does from `p` on: the world decides. */
  ghost predicate LivesApart(world: World, p: Point, r: Request, e: Effect) {
    match r
    case Move(x, y) => e == LiveMove(world, p.tick, x, y)
    case PressKey(name, press) => e == LiveKey(world, p.tick, name, press)
    case PressButton(button, press) => e == LiveButton(world, p.tick, button, press)
    case InspectAll => e == LiveInspect(world, p.tick, p.gens)
    case Activate(ref) => e == AfterRecheck(world, p.tick, p.gens, ref, LiveActivation(world, p.tick + 1, ref.xid))
    case Fullscreen(ref, add) => e == AfterRecheck(world, p.tick, p.gens, ref, LiveState(world, p.tick + 1, ref.xid, add))
    case ReleaseHeld => false
  }

  /** What a request does from `p` on. Everything but the order of a release is
      decided by the world. */
  ghost predicate Lives(world: World, p: Point, r: Request, held: set<Input>, e: Effect) {
    if r.ReleaseHeld? then LiveRelease(world, p.tick, held, e) else LivesApart(world, p, r, e)
  }

  lemma UpsFromConcat(world: World, t: nat, mid: nat, a: seq<Input>, b: seq<Input>)
    requires mid == t + |a|
    ensures UpsFrom(world, t, a + b) == UpsFrom(world, t, a) + UpsFrom(world, mid, b)
  {
    forall i | 0 <= i < |a + b|
      ensures UpsFrom(world, t, a + b)[i] == (UpsFrom(world, t, a) + UpsFrom(world, mid, b))[i]
    {
      if i >= |a| {
        assert t + i == mid + (i - |a|);
      }
    }
  }

  function ReleaseEffect(world: World, t: nat, inputs: seq<Input>, code: Code): Effect {
    Effect(UpsFrom(world, t, inputs), None, Plain(code), |inputs|)
  }

  /** The two loops of a release, one after the other. */
  lemma LoopsLive(world: World, t: nat, mid: nat, held: set<Input>, ks: seq<Input>, bs: seq<Input>, code: Code, before: seq<Call>)
    requires HeldInOrder(ks + bs, held) && mid == t + |ks|
    requires code == Done(AllLifted(UpsFrom(world, t, ks)) && AllLifted(UpsFrom(world, mid, bs)))
    ensures before + UpsFrom(world, t, ks) + UpsFrom(world, mid, bs) == before + UpsFrom(world, t, ks + bs)
    ensures LiveRelease(world, t, held, ReleaseEffect(world, t, ks + bs, code))
    ensures Replay(held, UpsFrom(world, t, ks + bs)) == Replay(Replay(held, UpsFrom(world, t, ks)), UpsFrom(world, mid, bs))
  {
    UpsFromConcat(world, t, mid, ks, bs);
    UpsFromMet(world, t, ks);
    UpsFromMet(world, mid, bs);
    UpsFromMet(world, t, ks + bs);
    Associate(before, UpsFrom(world, t, ks), UpsFrom(world, mid, bs));
    LoopsAreRelease(held, ks, bs, UpsFrom(world, t, ks), UpsFrom(world, mid, bs), code);
  }

  /** One more turn of a release loop. */
  lemma OneMoreUp(world: World, t: nat, mid: nat, held: set<Input>, inputs: seq<Input>, i: nat, before: seq<Call>)
    requires i < |inputs| && mid == t + i
    ensures var ups, more := UpsFrom(world, t, inputs[..i]), UpsFrom(world, t, inputs[..i + 1]);
            && before + ups + [Transition(inputs[i], false, world.eventOk(mid))] == before + more
            && (AllLifted(more) <==> AllLifted(ups) && world.eventOk(mid))
            && Replay(held, more) == if world.eventOk(mid) then Apply(Replay(held, ups), inputs[i], false) else Replay(held, ups)
  {
    var c, ups := Transition(inputs[i], false, world.eventOk(mid)), UpsFrom(world, t, inputs[..i]);
    assert inputs[..i + 1] == inputs[..i] + [inputs[i]];
    UpsFromConcat(world, t, mid, inputs[..i], [inputs[i]]);
    assert UpsFrom(world, mid, [inputs[i]]) == [c];
    ReplayStep(held, ups, c);
    UpsFromMet(world, t, inputs[..i]);
    UpsConcat(ups, [c], inputs[..i], [inputs[i]]);
    assert AllLifted([c]) <==> [c][0].ok;
    Associate(before, ups, [c]);
  }

  /** The table after a key or button request: its last call counts. */
  function TableAfter(held: set<Input>, cs: seq<Call>): set<Input> {
    if cs == [] then held
    else
      var c := cs[|cs| - 1];
      if c.Transition? && c.ok then Apply(held, c.input, c.press) else held
  }

  lemma LiveReplays(world: World, p: Point, r: Request, held: set<Input>, e: Effect)
    requires LivesApart(world, p, r, e)
    ensures Replay(held, e.calls) == if r.PressKey? || r.PressButton? then TableAfter(held, e.calls) else held
  {
    if r.PressKey? || r.PressButton? {
      ReplayWithoutTransitions(held, e.calls[..|e.calls| - 1]);
    } else {
      if IsWindowRequest(r) {
        WindowCallsAreQuiet(world, p, r, e);
      }
      ReplayWithoutTransitions(held, e.calls);
    }
  }

  lemma WindowCallsAreQuiet(world: World, p: Point, r: Request, e: Effect)
    requires LivesApart(world, p, r, e) && IsWindowRequest(r)
    ensures forall i | 0 <= i < |e.calls| :: !e.calls[i].Transition?
  {
    if VerdictAt(world, p.tick, p.gens, r.window).None? {
      assert forall i | 0 < i < |e.calls| :: e.calls[1..][i - 1] == e.calls[i];
    }
  }

  /** Whatever the world answers, the calls are in the language of the request. */
  lemma LivesInTrace(world: World, p: Point, r: Request, held: set<Input>, e: Effect)
    requires Lives(world, p, r, held, e)
    ensures Trace(r, held, e.calls, e.out.code)
  {
    match r
    case PressKey(name, press) =>
      KeyInTrace(world, p.tick, name, press, held);
    case InspectAll =>
      InspectInTrace(world, p.tick, p.gens, held);
    case Activate(ref) =>
      RecheckedInTrace(world, p.tick, p.gens, r, held, LiveActivation(world, p.tick + 1, ref.xid));
    case Fullscreen(ref, add) =>
      RecheckedInTrace(world, p.tick, p.gens, r, held, LiveState(world, p.tick + 1, ref.xid, add));
    case _ =>
  }

  lemma KeyInTrace(world: World, t: nat, name: string, press: bool, held: set<Input>)
    ensures var e := LiveKey(world, t, name, press); Trace(PressKey(name, press), held, e.calls, e.out.code)
  {
    var e := LiveKey(world, t, name, press);
    assert |e.calls| == 2 ==> e.calls[1..] == [e.calls[1]];
  }

  lemma InspectInTrace(world: World, t: nat, g: Gens, held: set<Input>)
    ensures var e := LiveInspect(world, t, g); Trace(InspectAll, held, e.calls, e.out.code)
  {
    var e := LiveInspect(world, t, g);
    assert |e.calls| == 2 ==> e.calls == [Geometry(true), List(e.out.code == Submitted)];
  }

  lemma RecheckedInTrace(world: World, t: nat, g: Gens, r: Request, held: set<Input>, rest: Effect)
    requires IsWindowRequest(r)
    requires r.Activate? ==> ActivateTrace(r.window.xid, rest.calls, rest.out.code)
    requires r.Fullscreen? ==> StateTrace(r.window.xid, r.add, rest.calls, rest.out.code)
    ensures var e := AfterRecheck(world, t, g, r.window, rest); Trace(r, held, e.calls, e.out.code)
  {
    if VerdictAt(world, t, g, r.window).None? {
      if r.Activate? {
        ActivateTraces(r.window, rest.calls, rest.out.code, held);
      } else {
        FullscreenTraces(r.window, r.add, rest.calls, rest.out.code, held);
      }
    }
  }

  // ----- the same, written out -----

  /** The X server announces the atom to job `t`. */
  predicate Announced(world: World, t: nat, atom: string) {
    world.view(t).atomsReady && atom in world.view(t).supported
  }

  /** The client list can be read by job `t`. */
  predicate Listable(world: World, t: nat) {
    Announced(world, t, "_NET_CLIENT_LIST") && world.view(t).clients.Some?
  }

  /** Pointer, keys and buttons. */
  lemma InputWrittenOut(world: World, p: Point, r: Request, e: Effect)
    requires LivesApart(world, p, r, e)
    ensures r.Move? ==>
              if -0x8000_0000 <= r.x <= 0x7fff_ffff && -0x8000_0000 <= r.y <= 0x7fff_ffff
              then e.calls == [Warp(r.x, r.y, world.eventOk(p.tick))]
                   && e.out.code == if world.eventOk(p.tick) then Submitted else BackendUnavailable
              else e.calls == [] && e.out.code == BackendUnavailable
    ensures r.PressButton? ==>
              && e.calls == [Transition(Button(r.button), r.press, world.eventOk(p.tick))]
              && e.out.code == if world.eventOk(p.tick) then Submitted else BackendUnavailable
    ensures r.PressKey? ==>
              if r.name in world.keycodes(p.tick) && world.keycodes(p.tick)[r.name] != 0
              then && e.calls == [Lookup(r.name, world.keycodes(p.tick)[r.name]),
                                  Transition(Key(world.keycodes(p.tick)[r.name]), r.press, world.eventOk(p.tick + 1))]
                   && e.out.code == if world.eventOk(p.tick + 1) then Submitted else BackendUnavailable
              else e.calls == [Lookup(r.name, 0)] && e.out.code == InvalidRequest
  {
  }

  /** An inspect is Submitted if and only if the screen has a size and the list can
      be read; the reply then has that size and every window of the list, in order,
      with its class, its pid and the generations it leaves behind. */
  lemma InspectWrittenOut(world: World, p: Point, e: Effect)
    requires LivesApart(world, p, InspectAll, e)
    ensures e.out.code in {Submitted, BackendUnavailable}
    ensures e.out.code == Submitted <==> world.width(p.tick) > 0 && world.height(p.tick) > 0 && Listable(world, p.tick + 1)
    ensures e.out.code == Submitted ==>
              var v := world.view(p.tick + 1);
              && e.out.width == world.width(p.tick) && e.out.height == world.height(p.tick)
              && |e.out.windows| == |v.clients.value|
              && forall i | 0 <= i < |v.clients.value| ::
                   var w, id := e.out.windows[i], v.clients.value[i];
                   && w.xid == id && w.class_ == (if id in v.classes then v.classes[id] else "")
                   && w.pid == (if id in v.pids then v.pids[id] else 0)
                   && w.displayGen == p.Plus(e).gens.displayGen && w.observeGen == p.Plus(e).gens.observeGen
    ensures e.out.code != Submitted ==> e.out.windows == []
  {
  }

  /** How a window request starts: with a recheck, whose answer is the verdict on the
      counters that other connections' jobs left. Conflict means exactly that the
      list could be read and the reference was refused. */
  lemma RecheckWrittenOut(world: World, p: Point, r: Request, e: Effect)
    requires LivesApart(world, p, r, e) && IsWindowRequest(r)
    ensures e.calls != []
    ensures e.calls[0] == Recheck(r.window, Verdict(Fold(Exec, p.gens, world.others(p.tick)), r.window, world.view(p.tick)))
    ensures e.out.code == Conflict <==> Listable(world, p.tick) && e.calls[0] != Recheck(r.window, None)
    ensures e.calls[0] != Recheck(r.window, None) ==> |e.calls| == 1 && e.out.code in {Conflict, BackendUnavailable}
  {
    AcceptedIff(Fold(Exec, p.gens, world.others(p.tick)), r.window, world.view(p.tick));
  }

  /** What an accepted activation does: the client message, then the focus, each if
      all before it succeeded, then the question which window is active. */
  lemma ActivateWrittenOut(world: World, p: Point, ref: WindowRef, e: Effect)
    requires LivesApart(world, p, Activate(ref), e)
    requires VerdictAt(world, p.tick, p.gens, ref).None?
    ensures var t := p.tick + 1; var atom := "_NET_ACTIVE_WINDOW";
            if !Announced(world, t, atom) then |e.calls| == 1 && e.out.code == BackendUnavailable
            else
              && |e.calls| >= 2 && e.calls[1] == NetActive(ref.xid, world.netActiveOk(t))
              && if !world.netActiveOk(t) then |e.calls| == 2 && e.out.code == BackendUnavailable
                 else
                   && |e.calls| >= 3 && e.calls[2] == Focus(ref.xid, world.focusOk(t))
                   && if !world.focusOk(t) || !Announced(world, t + 1, atom) then |e.calls| == 3 && e.out.code == BackendUnavailable
                      else |e.calls| == 4 && e.calls[3] == QueryActive && e.out.code == Submitted
    ensures e.out.code == Submitted ==> e.out.requestedActive == ref.xid && e.out.observedActive == world.active(p.tick + 2)
  {
    var rest := LiveActivation(world, p.tick + 1, ref.xid);
    assert forall i | 0 < i < |e.calls| :: e.calls[i] == rest.calls[i - 1];
  }

  /** An accepted fullscreen request sends one state message if both atoms are
      announced, and its outcome is the answer. */
  lemma FullscreenWrittenOut(world: World, p: Point, ref: WindowRef, add: bool, e: Effect)
    requires LivesApart(world, p, Fullscreen(ref, add), e)
    requires VerdictAt(world, p.tick, p.gens, ref).None?
    ensures var t := p.tick + 1;
            if Announced(world, t, "_NET_WM_STATE") && Announced(world, t, "_NET_WM_STATE_FULLSCREEN")
            then && |e.calls| == 2 && e.calls[1] == SetState(ref.xid, add, world.stateOk(t))
                 && e.out.code == if world.stateOk(t) then Submitted else BackendUnavailable
            else |e.calls| == 1 && e.out.code == BackendUnavailable
  {
    var rest := LiveState(world, p.tick + 1, ref.xid, add);
    assert forall i | 0 < i < |e.calls| :: e.calls[i] == rest.calls[i - 1];
  }

  /** A release sends one up for each held input and nothing else, keys first, each
      as a job of its own whose outcome is the X server's; Submitted if and only if
      all of them came up. */
  lemma ReleaseWrittenOut(world: World, p: Point, held: set<Input>, e: Effect)
    requires Lives(world, p, ReleaseHeld, held, e)
    ensures forall i | 0 <= i < |e.calls| :: e.calls[i].Transition? && e.calls[i].input in held && !e.calls[i].press
                                             && e.calls[i].ok == world.eventOk(p.tick + i)
    ensures forall i, j | 0 <= i < j < |e.calls| :: e.calls[i] != e.calls[j] && e.calls[i].input != e.calls[j].input
    ensures forall i, j | 0 <= i < j < |e.calls| :: e.calls[i].input.Button? ==> e.calls[j].input.Button?
    ensures forall input | input in held :: exists i :: 0 <= i < |e.calls| && e.calls[i].input == input
    ensures e.out.code == if forall i | 0 <= i < |e.calls| :: e.calls[i].ok then Submitted else BackendUnavailable
  {
  }

  // ----- a whole connection -----

  /** Where the backend stands after the exchanges, if it stood at `from` before. */
  function Along(from: Point, es: seq<Exchange>): Point {
    if es == [] then from else Along(from, es[..|es| - 1]).Plus(es[|es| - 1].effect)
  }

  function AllJobs(es: seq<Exchange>): seq<Job> {
    if es == [] then [] else AllJobs(es[..|es| - 1]) + es[|es| - 1].effect.Jobs()
  }

  /** Valid requests, each doing what it does where the earlier ones left the
      backend and the table. */
  ghost predicate LiveConversation(world: World, from: Point, es: seq<Exchange>) {
    es == [] || (
      var init, last := es[..|es| - 1], es[|es| - 1];
      && LiveConversation(world, from, init) && ValidRequest(last.request)
      && Lives(world, Along(from, init), last.request, Replay({}, AllCalls(init)), last.effect))
  }

  lemma LiveGrows(world: World, from: Point, es: seq<Exchange>, e: Exchange)
    requires LiveConversation(world, from, es) && ValidRequest(e.request)
    requires Lives(world, Along(from, es), e.request, Replay({}, AllCalls(es)), e.effect)
    ensures LiveConversation(world, from, es + [e]) && Along(from, es + [e]) == Along(from, es).Plus(e.effect)
    ensures Replay({}, AllCalls(es + [e])) == Replay(Replay({}, AllCalls(es)), e.effect.calls)
  {
    assert (es + [e])[..|es|] == es;
    ReplayConcat({}, AllCalls(es), e.effect.calls);
  }

  /** One more line that is a request. */
  lemma OneMoreRequest(world: World, from: Point, ds: seq<Decoded>, outs: seq<Outcome>, es: seq<Exchange>, e: Exchange)
    requires LiveConversation(world, from, es) && Answered(ds, outs, es) && ValidRequest(e.request)
    requires Lives(world, Along(from, es), e.request, Replay({}, AllCalls(es)), e.effect)
    ensures LiveConversation(world, from, es + [e]) && Answered(ds + [Ok(e.request)], outs + [e.effect.out], es + [e])
    ensures Along(from, es + [e]) == Along(from, es).Plus(e.effect)
    ensures Replay({}, AllCalls(es + [e])) == Replay(Replay({}, AllCalls(es)), e.effect.calls)
  {
    LiveGrows(world, from, es, e);
    AnsweredOneMore(ds, outs, es, Ok(e.request), e.effect.out, [e]);
  }

  lemma {:induction false} LiveIsConversation(world: World, from: Point, es: seq<Exchange>)
    requires LiveConversation(world, from, es)
    ensures Conversation(es)
  {
    if es == [] {
    } else {
      var init, last := es[..|es| - 1], es[|es| - 1];
      LiveIsConversation(world, from, init);
      LivesInTrace(world, Along(from, init), last.request, Replay({}, AllCalls(init)), last.effect);
    }
  }

  lemma {:induction false} LivesAt(world: World, from: Point, es: seq<Exchange>, k: nat)
    requires LiveConversation(world, from, es) && k < |es|
    ensures Lives(world, Along(from, es[..k]), es[k].request, Replay({}, AllCalls(es[..k])), es[k].effect)
  {
    var n := |es| - 1;
    if k == n {
    } else {
      LivesAt(world, from, es[..n], k);
      assert es[..n][..k] == es[..k];
    }
  }

  /** The calls are those of the exchanges, in order, and the counters are those of
      all the list-reading jobs, the others' included. */
  lemma {:induction false} AlongAdds(from: Point, es: seq<Exchange>)
    ensures Along(from, es).calls == from.calls + AllCalls(es)
    ensures Along(from, es).gens == Fold(Exec, from.gens, AllJobs(es))
  {
    if es == [] {
    } else {
      var init, last := es[..|es| - 1], es[|es| - 1];
      AlongAdds(from, init);
      Associate(from.calls, AllCalls(init), last.effect.calls);
      JobsOfEffect(Along(from, init), last.effect);
      FoldConcat(Exec, from.gens, AllJobs(init), last.effect.Jobs());
    }
  }

  lemma JobsOfEffect(p: Point, e: Effect)
    ensures p.Plus(e).gens == Fold(Exec, p.gens, e.Jobs())
  {
    if e.read.Some? {
      assert (e.read.value.others + [e.read.value.job])[..|e.read.value.others|] == e.read.value.others;
    }
  }

  lemma {:induction false} AlongConcat(from: Point, a: seq<Exchange>, b: seq<Exchange>)
    ensures Along(from, a + b) == Along(Along(from, a), b)
    decreases |b|
  {
    if b == [] {
      assert a + b == a;
    } else {
      assert (a + b)[..|a + b| - 1] == a + b[..|b| - 1];
      AlongConcat(from, a, b[..|b| - 1]);
    }
  }

  lemma GensBetween(from: Point, es: seq<Exchange>, i: nat, j: nat)
    requires i <= j <= |es|
    ensures Along(from, es[..j]).gens == Fold(Exec, Along(from, es[..i]).gens, AllJobs(es[i..j]))
  {
    assert es[..i] + es[i..j] == es[..j];
    AlongConcat(from, es[..i], es[i..j]);
    AlongAdds(Along(from, es[..i]), es[i..j]);
  }

  /** For a backend that started afresh, the generation counts the changes of the
      sums that all those jobs saw, less those away from a zero sum. */
  lemma GenerationOverConnection(from: Point, es: seq<Exchange>)
    requires from.gens == FRESH
    ensures Along(from, es).gens.observeGen + Missed(Sums(AllJobs(es))) == 1 + Changes(Sums(AllJobs(es)))
  {
    AlongAdds(from, es);
    GenerationCountsChanges(AllJobs(es));
  }

  // ----- references over a connection -----

  /** The list sum that a request saw. */
  function SumOf(e: Effect): Option<uint64> {
    if e.read.Some? && e.read.value.job.view.Readable() then Some(Sum(e.read.value.job.view.clients.value)) else None
  }

  /** The list that effect `y` read has the sum that `x` saw, as has every list read
      by the jobs between them and by other connections before `y`; the window of
      `ref` is in it, with the expected class and pid. */
  ghost predicate StillCurrent(x: Effect, between: seq<Job>, ref: WindowRef, y: Effect) {
    && x.read.Some? && y.read.Some?
    && var issued, v := x.read.value.job.view, y.read.value.job.view;
    && issued.Readable() && v.Readable()
    && Quiet(Sum(issued.clients.value), between + y.Jobs()) && Sum(v.clients.value) == Sum(issued.clients.value)
    && ref.xid in v.clients.value
    && (ref.expectedClass == "" || (ref.xid in v.classes && v.classes[ref.xid] == ref.expectedClass))
    && (ref.expectedPid == 0 || (ref.xid in v.pids && v.pids[ref.xid] == ref.expectedPid))
  }

  lemma WindowRequestReads(world: World, p: Point, r: Request, e: Effect)
    requires LivesApart(world, p, r, e) && IsWindowRequest(r)
    ensures e.read == Some(Reading(world.others(p.tick), Check(r.window, world.view(p.tick))))
    ensures e.calls != [] && e.calls[0] == Recheck(r.window, VerdictAt(world, p.tick, p.gens, r.window))
  {
  }

  /** A window request that got as far as changing a window had its reference accepted. */
  lemma MutationWasAccepted(world: World, p: Point, r: Request, e: Effect, n: nat)
    requires LivesApart(world, p, r, e) && IsWindowRequest(r) && n < |e.calls| && WindowMutation(e.calls[n])
    ensures VerdictAt(world, p.tick, p.gens, r.window).None?
  {
  }

  lemma ListedBy(world: World, p: Point, e: Effect, w: WindowInfo)
    requires LivesApart(world, p, InspectAll, e) && w in e.out.windows
    ensures e.read.Some? && e.read.value.job.view.Readable()
    ensures w.displayGen == p.Plus(e).gens.displayGen && w.observeGen == p.Plus(e).gens.observeGen
    ensures p.Plus(e).gens.listHash == Sum(e.read.value.job.view.clients.value)
  {
  }

  /** On jobs: the ones since the inspect that made `g`, then the reading that
      decides about the reference. */
  lemma RefOverJobs(g: Gens, mid: seq<Job>, reading: Reading, ref: WindowRef)
    requires g.listHash != 0 && CarriesGens(ref, g)
    ensures Verdict(Overtaken(Fold(Exec, g, mid), reading.others), ref, reading.job.view).None?
       <==> var v := reading.job.view;
            && v.Readable() && Sum(v.clients.value) == g.listHash
            && Quiet(g.listHash, mid + (reading.others + [reading.job]))
            && ref.xid in v.clients.value && Matches(ref, v.ClassOf(ref.xid), v.PidOf(ref.xid))
  {
    FoldConcat(Exec, g, mid, reading.others);
    Associate(mid, reading.others, [reading.job]);
    var all := mid + reading.others;
    if Verdict(Fold(Exec, g, all), ref, reading.job.view).None? {
      SameGenerationIsQuiet(g, all);
    }
    if Quiet(g.listHash, all + [reading.job]) {
      assert forall i | 0 <= i < |all| :: all[i] == (all + [reading.job])[i];
      QuietKeepsGens(g, all);
    }
  }

  /** An inspect, any exchanges, and a request by a reference to a listed window. */
  lemma RefAcross(world: World, p: Point, x: Effect, mid: seq<Exchange>, r: Request, y: Effect, w: WindowInfo)
    requires LivesApart(world, p, InspectAll, x) && w in x.out.windows && SumOf(x) != Some(0)
    requires LivesApart(world, Along(p.Plus(x), mid), r, y) && IsWindowRequest(r)
    requires r.window.displayGen == w.displayGen && r.window.observeGen == w.observeGen
    ensures y.calls != [] && (y.calls[0] == Recheck(r.window, None) <==> StillCurrent(x, AllJobs(mid), r.window, y))
  {
    ListedBy(world, p, x, w);
    WindowRequestReads(world, Along(p.Plus(x), mid), r, y);
    AlongAdds(p.Plus(x), mid);
    RefOverJobs(p.Plus(x).gens, AllJobs(mid), y.read.value, r.window);
  }

  lemma AlongAround(from: Point, es: seq<Exchange>, i: nat, j: nat)
    requires i < j <= |es|
    ensures Along(from, es[..j]) == Along(Along(from, es[..i]).Plus(es[i].effect), es[i + 1..j])
  {
    assert es[..i + 1] + es[i + 1..j] == es[..j];
    AlongConcat(from, es[..i + 1], es[i + 1..j]);
    assert es[..i + 1][..i] == es[..i];
  }

  /** The composed result, on the exchanges of one connection, with any requests of
      its own and any jobs of other connections in between: the recheck of a
      reference taken from an inspect reply succeeds if and only if every job since
      that read the client list saw the list sum of that inspect, and the window is
      listed, with the expected class and pid. */
  lemma AcceptedIffStillCurrent(world: World, from: Point, es: seq<Exchange>, i: nat, j: nat, w: WindowInfo)
    requires LiveConversation(world, from, es) && i < j < |es|
    requires es[i].request.InspectAll? && w in es[i].effect.out.windows && SumOf(es[i].effect) != Some(0)
    requires IsWindowRequest(es[j].request)
    requires es[j].request.window.displayGen == w.displayGen && es[j].request.window.observeGen == w.observeGen
    ensures var ref, y := es[j].request.window, es[j].effect;
            y.calls != [] && (y.calls[0] == Recheck(ref, None) <==> StillCurrent(es[i].effect, AllJobs(es[i + 1..j]), ref, y))
  {
    LivesAt(world, from, es, i);
    LivesAt(world, from, es, j);
    AlongAround(from, es, i, j);
    RefAcross(world, Along(from, es[..i]), es[i].effect, es[i + 1..j], es[j].request, es[j].effect, w);
  }

  /** So a window is changed by such a reference only while all that holds. */
  lemma ChangedWindowIsCurrent(world: World, from: Point, es: seq<Exchange>, i: nat, j: nat, w: WindowInfo, n: nat)
    requires LiveConversation(world, from, es) && i < j < |es|
    requires es[i].request.InspectAll? && w in es[i].effect.out.windows && SumOf(es[i].effect) != Some(0)
    requires IsWindowRequest(es[j].request) && n < |es[j].effect.calls| && WindowMutation(es[j].effect.calls[n])
    requires es[j].request.window.displayGen == w.displayGen && es[j].request.window.observeGen == w.observeGen
    ensures StillCurrent(es[i].effect, AllJobs(es[i + 1..j]), es[j].request.window, es[j].effect)
  {
    AcceptedIffStillCurrent(world, from, es, i, j, w);
    LivesAt(world, from, es, j);
    MutationWasAccepted(world, Along(from, es[..j]), es[j].request, es[j].effect, n);
    WindowRequestReads(world, Along(from, es[..j]), es[j].request, es[j].effect);
  }

  lemma RejectedChangesNothing(world: World, p: Point, r: Request, e: Effect)
    requires LivesApart(world, p, r, e) && IsWindowRequest(r) && VerdictAt(world, p.tick, p.gens, r.window).Some?
    ensures e.out.code in {Conflict, BackendUnavailable}
    ensures forall n | 0 <= n < |e.calls| :: !WindowMutation(e.calls[n])
  {
  }

  lemma StaleVerdict(g: Gens, mid: seq<Job>, others: seq<Job>, ref: WindowRef, v: View)
    requires ref.observeGen < g.observeGen
    ensures Verdict(Overtaken(Fold(Exec, g, mid), others), ref, v).Some?
  {
    GenerationNeverDecreases(g, mid);
    GenerationNeverDecreases(Fold(Exec, g, mid), others);
  }

  /** Once the generation has moved past a reference, no later request of the
      connection changes a window by it: it is answered with a conflict, or the
      list could not be read. */
  lemma StaleIsRefusedLater(world: World, from: Point, es: seq<Exchange>, i: nat, j: nat)
    requires LiveConversation(world, from, es) && i <= j < |es|
    requires IsWindowRequest(es[j].request)
    requires es[j].request.window.observeGen < Along(from, es[..i]).gens.observeGen
    ensures es[j].effect.out.code in {Conflict, BackendUnavailable}
    ensures forall n | 0 <= n < |es[j].effect.calls| :: !WindowMutation(es[j].effect.calls[n])
  {
    var q, r := Along(from, es[..j]), es[j].request;
    GensBetween(from, es, i, j);
    StaleVerdict(Along(from, es[..i]).gens, AllJobs(es[i..j]), world.others(q.tick), r.window, world.view(q.tick));
    LivesAt(world, from, es, j);
    RejectedChangesNothing(world, q, r, es[j].effect);
  }

  lemma {:induction false} RequestsGrow(ds: seq<Decoded>, k: nat, l: nat)
    requires k < l <= |ds| && ds[k].Ok?
    ensures |RequestsOf(ds[..k])| < |RequestsOf(ds[..l])|
    decreases l
  {
    assert ds[..l][..l - 1] == ds[..l - 1];
    if k == l - 1 {
    } else {
      RequestsGrow(ds, k, l - 1);
    }
  }

  /** What line `k` did: nothing unless it is a request. */
  function EffectOfLine(ds: seq<Decoded>, es: seq<Exchange>, k: nat): Effect
    requires k < |ds|
  {
    var j := |RequestsOf(ds[..k])|;
    match ds[k]
    case Rejected(code) => Nothing(code)
    case Ok(_) => if j < |es| then es[j].effect else Nothing(BackendUnavailable)
  }

  /** The same on lines: line `k` inspects and its reply lists the
      window `w`, line `l` uses a reference with the generations of `w`, and some
      call of line `l` changes a window. */
  lemma ActivatedWindowIsCurrent(world: World, from: Point, ds: seq<Decoded>, outs: seq<Outcome>,
                                 es: seq<Exchange>, k: nat, l: nat, w: WindowInfo, n: nat)
    returns (i: nat, j: nat)
    requires LiveConversation(world, from, es) && Answered(ds, outs, es) && k < l < |ds|
    requires ds[k] == Ok(InspectAll) && w in outs[k].windows
    requires ds[l].Ok? && IsWindowRequest(ds[l].request)
    requires ds[l].request.window.displayGen == w.displayGen && ds[l].request.window.observeGen == w.observeGen
    requires var e := EffectOfLine(ds, es, l); n < |e.calls| && WindowMutation(e.calls[n])
    requires SumOf(EffectOfLine(ds, es, k)) != Some(0)
    ensures i < j < |es| && es[i].effect == EffectOfLine(ds, es, k) && es[j].effect == EffectOfLine(ds, es, l)
    ensures StillCurrent(es[i].effect, AllJobs(es[i + 1..j]), ds[l].request.window, es[j].effect)
  {
    i, j := |RequestsOf(ds[..k])|, |RequestsOf(ds[..l])|;
    LinesAreAnswered(ds, outs, es, k);
    LinesAreAnswered(ds, outs, es, l);
    RequestsGrow(ds, k, l);
    ChangedWindowIsCurrent(world, from, es, i, j, w, n);
  }
}
