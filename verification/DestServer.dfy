/** The destination server: the live backend, the session tables and the
    request loop of one connection. */
module DestServer {
  import opened Words
  import opened Fnv
  import opened Generations
  import opened Requests
  import opened Holds
  import opened Dispatching
  import opened Live

  /** The live backend. Job number `tick` of the connection meets the X server and
      the other connections as `world` at `tick`, so failures, changes of the display
      and other connections' jobs can come at any point. `calls` records what was
      asked. */
  class DestBackend {
    const world: World
    var tick: nat
    var displayGen: nat
    var observeGen: nat
    var listHash: uint64
    ghost var calls: seq<Call>

    function CurrentGens(): Gens
      reads this
    {
      Gens(displayGen, observeGen, listHash)
    }

    /** All that requests can change. */
    ghost function Here(): Point
      reads this
    {
      Point(calls, CurrentGens(), tick)
    }

    constructor (world: World)
      ensures this.world == world && Here() == Point([], FRESH, 0)
    {
      this.world, tick := world, 0;
      displayGen, observeGen, listHash := 1, 1, 0;
      calls := [];
    }

    /** Stands for the other connections: what their list-reading jobs, run on the
        owner thread before this one, do to the shared counters. */
    method RunOthers(jobs: seq<Job>)
      modifies this`observeGen, this`listHash
      ensures CurrentGens() == Overtaken(old(CurrentGens()), jobs)
    {
      for i := 0 to |jobs|
        invariant CurrentGens() == Fold(Exec, old(CurrentGens()), jobs[..i])
      {
        assert jobs[..i + 1][..i] == jobs[..i];
        var v := jobs[i].view;
        if v.Readable() {
          var sum := HashList(v.clients.value);
          Record(sum);
        }
      }
      assert jobs[..|jobs|] == jobs;
    }

    method Record(sum: uint64)
      modifies this`observeGen, this`listHash
      ensures CurrentGens() == Observe(old(CurrentGens()), sum)
    {
      if listHash != 0 && sum != listHash {
        observeGen := observeGen + 1;
      }
      listHash := sum;
    }

    method KeycodeFor(name: string) returns (code: nat)
      modifies this`tick, this`calls
      ensures calls == old(calls) + [Lookup(name, code)] && tick == old(tick) + 1
      ensures code == world.KeycodeOf(old(tick), name)
    {
      code := world.KeycodeOf(tick, name);
      tick := tick + 1;
      calls := calls + [Lookup(name, code)];
    }

    method WarpMouse(x: int, y: int) returns (error: Option<BackendError>)
      modifies this`tick, this`calls
      ensures if -0x8000_0000 <= x <= 0x7fff_ffff && -0x8000_0000 <= y <= 0x7fff_ffff
              then error == (if world.eventOk(old(tick)) then None else Some(XCallFailed))
                   && calls == old(calls) + [Warp(x, y, error.None?)] && tick == old(tick) + 1
              else error == Some(CoordOutOfRange) && calls == old(calls) && tick == old(tick)
    {
      if !Int32(x) || !Int32(y) { return Some(CoordOutOfRange); }
      var ok := world.eventOk(tick);
      tick := tick + 1;
      calls := calls + [Warp(x, y, ok)];
      error := if ok then None else Some(XCallFailed);
    }

    method Send(input: Input, press: bool) returns (error: Option<BackendError>)
      modifies this`tick, this`calls
      ensures error == if world.eventOk(old(tick)) then None else Some(XCallFailed)
      ensures calls == old(calls) + [Transition(input, press, error.None?)] && tick == old(tick) + 1
    {
      var ok := world.eventOk(tick);
      tick := tick + 1;
      calls := calls + [Transition(input, press, ok)];
      error := if ok then None else Some(XCallFailed);
    }

    method ScreenGeometry() returns (width: int, height: int, error: Option<BackendError>)
      modifies this`tick, this`calls
      ensures Here() == old(Here()).Plus(LiveGeometry(world, old(tick)))
      ensures if world.width(old(tick)) > 0 && world.height(old(tick)) > 0
              then error == None && (width, height) == (world.width(old(tick)), world.height(old(tick)))
              else error == Some(Unavailable)
    {
      width, height := world.width(tick), world.height(tick);
      tick := tick + 1;
      error := None;
      if width <= 0 || height <= 0 {
        width, height, error := 0, 0, Some(Unavailable);
      }
      calls := calls + [Geometry(error.None?)];
    }

    /** The managed windows, each with the generations they were seen in. */
    method ManagedClients() returns (windows: seq<WindowInfo>, error: Option<BackendError>)
      modifies this
      ensures var list := LiveList(world, old(tick), old(CurrentGens()));
              && Here() == old(Here()).Plus(list) && windows == list.out.windows
              && error == if list.out.code == Submitted then None else Some(Unavailable)
    {
      var v, others := world.view(tick), world.others(tick);
      tick := tick + 1;
      RunOthers(others);
      windows, error := ListClients(v);
      calls := calls + [List(error.None?)];
    }

    method ListClients(v: View) returns (windows: seq<WindowInfo>, error: Option<BackendError>)
      modifies this`observeGen, this`listHash
      ensures CurrentGens() == Exec(old(CurrentGens()), Inspect(v))
      ensures if v.Readable() then error == None && windows == Snapshot(CurrentGens(), v, v.clients.value)
              else error == Some(Unavailable) && windows == []
    {
      windows, error := [], Some(Unavailable);
      if v.atomsReady && CLIENT_LIST in v.supported && v.clients.Some? {
        var xids := v.clients.value;
        var sum := HashList(xids);
        Record(sum);
        error := None;
        windows := Describe(CurrentGens(), v, xids);
      }
    }

    static method Describe(g: Gens, v: View, xids: seq<uint32>) returns (windows: seq<WindowInfo>)
      ensures windows == Snapshot(g, v, xids)
    {
      windows := [];
      for i := 0 to |xids|
        invariant |windows| == i && forall j | 0 <= j < i :: windows[j] == Issue(g, v, xids[j])
      {
        windows := windows + [WindowInfo(xids[i], v.ClassOf(xids[i]), v.PidOf(xids[i]), g.displayGen, g.observeGen)];
      }
    }

    /** Whether a window reference still describes the current client list. */
    method Revalidate(ref: WindowRef) returns (error: Option<BackendError>)
      modifies this
      ensures error == VerdictAt(world, old(tick), old(CurrentGens()), ref)
      ensures Here() == old(Here()).Plus(LiveRecheck(world, old(tick), old(CurrentGens()), ref))
    {
      var v, others := world.view(tick), world.others(tick);
      tick := tick + 1;
      RunOthers(others);
      error := Some(Unavailable);
      if v.atomsReady && CLIENT_LIST in v.supported && v.clients.Some? {
        error := Recompare(ref, v);
      }
      calls := calls + [Recheck(ref, error)];
    }

    method Recompare(ref: WindowRef, v: View) returns (error: Option<BackendError>)
      requires v.Readable()
      modifies this`observeGen, this`listHash
      ensures CurrentGens() == Observe(old(CurrentGens()), Sum(v.clients.value))
      ensures error == Verdict(old(CurrentGens()), ref, v)
    {
      var xids := v.clients.value;
      var sum := HashList(xids);
      if listHash != 0 && sum != listHash {
        observeGen := observeGen + 1;
        listHash := sum;
        return Some(RefMismatch);
      }
      listHash := sum;
      if ref.displayGen != displayGen || ref.observeGen != observeGen { return Some(RefMismatch); }
      var found := Find(xids, ref.xid);
      if !found { return Some(RefMismatch); }
      if ref.expectedClass != "" && v.ClassOf(ref.xid) != ref.expectedClass { return Some(RefMismatch); }
      if ref.expectedPid != 0 && v.PidOf(ref.xid) != ref.expectedPid { return Some(RefMismatch); }
      return None;
    }

    static method Find(xids: seq<uint32>, x: uint32) returns (found: bool)
      ensures found <==> x in xids
    {
      found := false;
      for i := 0 to |xids|
        invariant x !in xids[..i]
      {
        if xids[i] == x { return true; }
      }
    }

    method ActivateAlwaysBoth(ref: WindowRef) returns (error: Option<BackendError>)
      modifies this`tick, this`calls
      ensures tick == old(tick) + 1
      ensures if !world.Ready(old(tick), {ACTIVE_WINDOW}) then error == Some(Unavailable) && calls == old(calls)
              else if !world.netActiveOk(old(tick))
              then error == Some(XCallFailed) && calls == old(calls) + [NetActive(ref.xid, false)]
              else error == (if world.focusOk(old(tick)) then None else Some(XCallFailed))
                   && calls == old(calls) + [NetActive(ref.xid, true), Focus(ref.xid, world.focusOk(old(tick)))]
    {
      var v, sent, focused := world.view(tick), world.netActiveOk(tick), world.focusOk(tick);
      tick := tick + 1;
      if !v.atomsReady || ACTIVE_WINDOW !in v.supported { return Some(Unavailable); }
      calls := calls + [NetActive(ref.xid, sent)];
      if !sent { return Some(XCallFailed); }
      calls := calls + [Focus(ref.xid, focused)];
      if !focused { return Some(XCallFailed); }
      return None;
    }

    method SetFullscreen(ref: WindowRef, add: bool) returns (error: Option<BackendError>)
      modifies this`tick, this`calls
      ensures tick == old(tick) + 1
      ensures if !world.Ready(old(tick), {WM_STATE, WM_STATE_FULLSCREEN}) then error == Some(Unavailable) && calls == old(calls)
              else error == (if world.stateOk(old(tick)) then None else Some(XCallFailed))
                   && calls == old(calls) + [SetState(ref.xid, add, world.stateOk(old(tick)))]
    {
      var v, ok := world.view(tick), world.stateOk(tick);
      tick := tick + 1;
      if !v.atomsReady || WM_STATE !in v.supported || WM_STATE_FULLSCREEN !in v.supported {
        return Some(Unavailable);
      }
      calls := calls + [SetState(ref.xid, add, ok)];
      error := if ok then None else Some(XCallFailed);
    }

    method ActiveWindow() returns (xid: uint32, error: Option<BackendError>)
      modifies this`tick, this`calls
      ensures tick == old(tick) + 1 && calls == old(calls) + if error.None? then [QueryActive] else []
      ensures if world.Ready(old(tick), {ACTIVE_WINDOW}) then error == None && xid == world.active(old(tick))
              else error == Some(Unavailable)
    {
      var v, active := world.view(tick), world.active(tick);
      tick := tick + 1;
      if !v.atomsReady || ACTIVE_WINDOW !in v.supported { return 0, Some(Unavailable); }
      calls := calls + [QueryActive];
      return active, None;
    }
  }

  /** The keys and buttons that one connection has pressed. */
  class Session {
    var keys: map<nat, bool>
    var buttons: map<nat, bool>

    function Held(): set<Input>
      reads this
    {
      (set k | k in keys && keys[k] :: Key(k)) + (set b | b in buttons && buttons[b] :: Button(b))
    }

    /** Whether this session holds the key. */
    predicate KeyDown(kc: nat): (down: bool)
      reads this
      ensures down <==> Key(kc) in Held()
    {
      kc in keys && keys[kc]
    }

    /** Whether this session holds the button. */
    predicate ButtonDown(b: nat): (down: bool)
      reads this
      ensures down <==> Button(b) in Held()
    {
      b in buttons && buttons[b]
    }

    constructor ()
      ensures Held() == {}
    {
      keys, buttons := map[], map[];
    }

    method NoteKey(kc: nat, press: bool)
      modifies this`keys
      ensures Held() == Apply(old(Held()), Key(kc), press) && KeyDown(kc) == press
    {
      keys := if press then keys[kc := true] else keys - {kc};
    }

    method NoteButton(button: nat, press: bool)
      modifies this`buttons
      ensures Held() == Apply(old(Held()), Button(button), press) && ButtonDown(button) == press
    {
      buttons := if press then buttons[button := true] else buttons - {button};
    }

    /** The codes of a table that are down, in whatever order the map gives. */
    static method DownCodes(table: map<nat, bool>) returns (codes: seq<nat>)
      ensures forall k :: k in codes <==> k in table && table[k]
      ensures forall i, j | 0 <= i < j < |codes| :: codes[i] != codes[j]
    {
      codes := [];
      var todo := table.Keys;
      while todo != {}
        invariant todo <= table.Keys
        invariant forall k :: k in codes <==> k in table.Keys - todo && table[k]
        invariant forall i, j | 0 <= i < j < |codes| :: codes[i] != codes[j]
        decreases |todo|
      {
        var k :| k in todo;
        todo := todo - {k};
        if table[k] {
          codes := codes + [k];
        }
      }
    }

    /** Everything held, keys first, in the orders the two maps give. */
    method SnapshotHeld() returns (ks: seq<Input>, bs: seq<Input>)
      ensures HeldInOrder(ks + bs, Held())
    {
      var kcs := DownCodes(keys);
      var btns := DownCodes(buttons);
      ks := seq(|kcs|, i requires 0 <= i < |kcs| => Key(kcs[i]));
      bs := seq(|btns|, i requires 0 <= i < |btns| => Button(btns[i]));
      forall input ensures input in ks + bs <==> input in Held() {
        if input in Held() {
          if input.Key? {
            var i :| 0 <= i < |kcs| && kcs[i] == input.code;
            assert ks[i] == input;
          } else {
            var i :| 0 <= i < |btns| && btns[i] == input.code;
            assert bs[i] == input;
          }
        }
      }
    }

    method Forget(input: Input)
      modifies this
      ensures Held() == Apply(old(Held()), input, false)
    {
      if input.Key? { NoteKey(input.code, false); } else { NoteButton(input.code, false); }
    }

    /** One of the two loops of a release: an up for each input; what came up is
        deleted, the first error kept, and the loop goes on. */
    method Lift(b: DestBackend, inputs: seq<Input>) returns (first: Option<BackendError>)
      modifies this, b`tick, b`calls
      ensures var ups := UpsFrom(b.world, old(b.tick), inputs);
              && b.calls == old(b.calls) + ups && b.tick == old(b.tick) + |inputs|
              && Held() == Replay(old(Held()), ups)
              && first == if AllLifted(ups) then None else Some(XCallFailed)
    {
      first := None;
      for i := 0 to |inputs|
        invariant b.tick == old(b.tick) + i
        invariant b.calls == old(b.calls) + UpsFrom(b.world, old(b.tick), inputs[..i])
        invariant Held() == Replay(old(Held()), UpsFrom(b.world, old(b.tick), inputs[..i]))
        invariant first == if AllLifted(UpsFrom(b.world, old(b.tick), inputs[..i])) then None else Some(XCallFailed)
      {
        OneMoreUp(b.world, old(b.tick), b.tick, old(Held()), inputs, i, old(b.calls));
        var error := b.Send(inputs[i], false);
        if error.Some? {
          if first.None? { first := error; }
        } else {
          Forget(inputs[i]);
        }
      }
      assert inputs[..|inputs|] == inputs;
    }

    /** Sends an up for everything held, once each, and forgets what came up. */
    method Release(b: DestBackend?) returns (code: Code, ghost e: Effect)
      modifies this, b
      ensures e.out.code == code && Held() == Replay(old(Held()), e.calls)
      ensures b == null ==> e == Nothing(BackendUnavailable)
      ensures b != null ==> b.CurrentGens() == old(b.CurrentGens())
      ensures b != null ==> b.Here() == old(b.Here()).Plus(e) && LiveRelease(b.world, old(b.tick), old(Held()), e)
    {
      e := Nothing(BackendUnavailable);
      if b == null { return BackendUnavailable, e; }
      code, e := ReleaseOn(b);
    }

    method ReleaseOn(b: DestBackend) returns (code: Code, ghost e: Effect)
      modifies this, b`tick, b`calls
      ensures e.out.code == code && Held() == Replay(old(Held()), e.calls)
      ensures b.Here() == old(b.Here()).Plus(e) && LiveRelease(b.world, old(b.tick), old(Held()), e)
    {
      var ks, bs := SnapshotHeld();
      ghost var mid;
      code, mid := LiftBoth(b, ks, bs);
      LoopsLive(b.world, old(b.tick), mid, old(Held()), ks, bs, code, old(b.calls));
      e := ReleaseEffect(b.world, old(b.tick), ks + bs, code);
    }

    method LiftBoth(b: DestBackend, ks: seq<Input>, bs: seq<Input>) returns (code: Code, ghost mid: nat)
      modifies this, b`tick, b`calls
      ensures mid == old(b.tick) + |ks| && b.tick == mid + |bs|
      ensures var lifted, dropped := UpsFrom(b.world, old(b.tick), ks), UpsFrom(b.world, mid, bs);
              && b.calls == old(b.calls) + lifted + dropped
              && Held() == Replay(Replay(old(Held()), lifted), dropped)
              && code == Done(AllLifted(lifted) && AllLifted(dropped))
    {
      var first := Lift(b, ks);
      mid := b.tick;
      var second := Lift(b, bs);
      if first.None? { first := second; }
      code := if first.Some? then MapError(first.value) else Submitted;
    }
  }

  // ----- dispatch -----

  function HeldBy(sess: Session?): set<Input>
    reads sess
  {
    if sess == null then {} else sess.Held()
  }

  /** Runs one decoded request; `e` is what that did. */
  method Dispatch(req: Request, sess: Session?, b: DestBackend?) returns (out: Outcome, ghost e: Effect)
    modifies sess, b
    ensures out == e.out
    ensures b == null ==> e == Nothing(BackendUnavailable)
    ensures b != null ==> b.Here() == old(b.Here()).Plus(e)
    ensures b != null && sess == null && req.ReleaseHeld? ==> e == Nothing(InvalidRequest)
    ensures b != null && (sess != null || !req.ReleaseHeld?) ==> Lives(b.world, old(b.Here()), req, old(HeldBy(sess)), e)
    ensures sess != null ==> sess.Held() == Replay(old(sess.Held()), e.calls)
  {
    if b == null { return Plain(BackendUnavailable), Nothing(BackendUnavailable); }
    if req.ReleaseHeld? {
      if sess == null { return Plain(InvalidRequest), Nothing(InvalidRequest); }
      var code;
      code, e := sess.Release(b);
      out := Plain(code);
    } else {
      out, e := DispatchOther(req, sess, b);
      LiveReplays(b.world, old(b.Here()), req, old(HeldBy(sess)), e);
    }
  }

  /** The requests that are not a release. */
  method DispatchOther(req: Request, sess: Session?, b: DestBackend) returns (out: Outcome, ghost e: Effect)
    requires !req.ReleaseHeld?
    modifies sess, b
    ensures b.Here() == old(b.Here()).Plus(e) && out == e.out
    ensures LivesApart(b.world, old(b.Here()), req, e)
    ensures HeldBy(sess) == if sess != null && (req.PressKey? || req.PressButton?)
                            then TableAfter(old(HeldBy(sess)), e.calls) else old(HeldBy(sess))
  {
    match req
    case Move(x, y) =>
      out, e := DispatchMove(x, y, b);
    case PressKey(name, press) =>
      out, e := DispatchKey(name, press, sess, b);
    case PressButton(button, press) =>
      out, e := DispatchButton(button, press, sess, b);
    case InspectAll =>
      out, e := DispatchInspect(b);
    case Activate(window) =>
      out, e := DispatchActivate(window, b);
    case Fullscreen(window, add) =>
      out, e := DispatchFullscreen(window, add, b);
  }

  method DispatchMove(x: int, y: int, b: DestBackend) returns (out: Outcome, ghost e: Effect)
    modifies b`tick, b`calls
    ensures b.Here() == old(b.Here()).Plus(e) && out == e.out
    ensures e == LiveMove(b.world, old(b.tick), x, y)
  {
    var error := b.WarpMouse(x, y);
    e := LiveMove(b.world, old(b.tick), x, y);
    out := Plain(if error.Some? then MapError(error.value) else Submitted);
  }

  method DispatchKey(name: string, press: bool, sess: Session?, b: DestBackend) returns (out: Outcome, ghost e: Effect)
    modifies sess, b`tick, b`calls
    ensures b.Here() == old(b.Here()).Plus(e) && out == e.out
    ensures e == LiveKey(b.world, old(b.tick), name, press)
    ensures sess != null ==> sess.Held() == TableAfter(old(sess.Held()), e.calls)
  {
    e := LiveKey(b.world, b.tick, name, press);
    var kc := b.KeycodeFor(name);
    if kc == 0 { return Plain(InvalidRequest), e; }
    var error := b.Send(Key(kc), press);
    TwoCalls(old(b.calls), Lookup(name, kc), Transition(Key(kc), press, error.None?));
    if error.Some? { return Plain(MapError(error.value)), e; }
    if sess != null { sess.NoteKey(kc, press); }
    out := Plain(Submitted);
  }

  lemma TwoCalls(before: seq<Call>, c: Call, d: Call)
    ensures before + [c] + [d] == before + [c, d]
  {
  }

  method DispatchButton(button: nat, press: bool, sess: Session?, b: DestBackend) returns (out: Outcome, ghost e: Effect)
    modifies sess, b`tick, b`calls
    ensures b.Here() == old(b.Here()).Plus(e) && out == e.out
    ensures e == LiveButton(b.world, old(b.tick), button, press)
    ensures sess != null ==> sess.Held() == TableAfter(old(sess.Held()), e.calls)
  {
    e := LiveButton(b.world, b.tick, button, press);
    var error := b.Send(Button(button), press);
    if error.Some? { return Plain(MapError(error.value)), e; }
    if sess != null { sess.NoteButton(button, press); }
    out := Plain(Submitted);
  }

  method DispatchInspect(b: DestBackend) returns (out: Outcome, ghost e: Effect)
    modifies b
    ensures b.Here() == old(b.Here()).Plus(e) && out == e.out
    ensures e == LiveInspect(b.world, old(b.tick), old(b.CurrentGens()))
  {
    e := LiveInspect(b.world, b.tick, b.CurrentGens());
    ghost var first, list := LiveGeometry(b.world, b.tick), LiveList(b.world, b.tick + 1, b.CurrentGens());
    var width, height, error := b.ScreenGeometry();
    if error.Some? { return Plain(MapError(error.value)), e; }
    PlusPlus(old(b.Here()), first, list, e);
    var windows;
    windows, error := b.ManagedClients();
    if error.Some? { return Plain(MapError(error.value)), e; }
    out := Outcome(Submitted, windows, width, height, 0, 0);
  }

  method DispatchActivate(ref: WindowRef, b: DestBackend) returns (out: Outcome, ghost e: Effect)
    modifies b
    ensures b.Here() == old(b.Here()).Plus(e) && out == e.out
    ensures e == AfterRecheck(b.world, old(b.tick), old(b.CurrentGens()), ref, LiveActivation(b.world, old(b.tick) + 1, ref.xid))
  {
    ghost var rest := LiveActivation(b.world, b.tick + 1, ref.xid);
    e := AfterRecheck(b.world, b.tick, b.CurrentGens(), ref, rest);
    var error := b.Revalidate(ref);
    if error.Some? { return Plain(MapError(error.value)), e; }
    RecheckThenRest(old(b.Here()), b.world, old(b.tick), ref, rest);
    out := ActivateRechecked(ref, b);
  }

  method ActivateRechecked(ref: WindowRef, b: DestBackend) returns (out: Outcome)
    modifies b`tick, b`calls
    ensures var rest := LiveActivation(b.world, old(b.tick), ref.xid);
            b.Here() == old(b.Here()).Plus(rest) && out == rest.out
  {
    var error := b.ActivateAlwaysBoth(ref);
    if error.Some? { return Plain(MapError(error.value)); }
    var observed;
    observed, error := b.ActiveWindow();
    if error.Some? { return Plain(MapError(error.value)); }
    ThirdCall(old(b.calls), NetActive(ref.xid, true), Focus(ref.xid, true), QueryActive);
    out := Outcome(Submitted, [], 0, 0, ref.xid, observed);
  }

  lemma ThirdCall(before: seq<Call>, c: Call, d: Call, e: Call)
    ensures before + [c, d] + [e] == before + [c, d, e]
  {
  }

  method DispatchFullscreen(ref: WindowRef, add: bool, b: DestBackend) returns (out: Outcome, ghost e: Effect)
    modifies b
    ensures b.Here() == old(b.Here()).Plus(e) && out == e.out
    ensures e == AfterRecheck(b.world, old(b.tick), old(b.CurrentGens()), ref, LiveState(b.world, old(b.tick) + 1, ref.xid, add))
  {
    ghost var rest := LiveState(b.world, b.tick + 1, ref.xid, add);
    e := AfterRecheck(b.world, b.tick, b.CurrentGens(), ref, rest);
    var error := b.Revalidate(ref);
    if error.Some? { return Plain(MapError(error.value)), e; }
    RecheckThenRest(old(b.Here()), b.world, old(b.tick), ref, rest);
    out := SetRechecked(ref, add, b);
  }

  method SetRechecked(ref: WindowRef, add: bool, b: DestBackend) returns (out: Outcome)
    modifies b`tick, b`calls
    ensures var rest := LiveState(b.world, old(b.tick), ref.xid, add);
            b.Here() == old(b.Here()).Plus(rest) && out == rest.out
  {
    var error := b.SetFullscreen(ref, add);
    out := Plain(if error.Some? then MapError(error.value) else Submitted);
  }

  // ----- lines -----

  /** The line asks for a key that the display does not have. */
  predicate AsksForUnknownKey(doc: Document, world: World, t: nat) {
    Decode(doc).Ok? && Decode(doc).request.PressKey? && world.KeycodeOf(t, Decode(doc).request.name) == 0
  }

  /** One request line: decode and validate it completely, then dispatch it.
      An invalid or unknown line makes no call, except that an unknown key name
      takes its lookup to be found out. */
  method HandleLine(doc: Document, sess: Session?, b: DestBackend?) returns (out: Outcome, ghost e: Effect)
    modifies sess, b
    ensures out == e.out
    ensures b != null ==> b.Here() == old(b.Here()).Plus(e)
    ensures sess != null ==> sess.Held() == Replay(old(sess.Held()), e.calls)
    ensures Decode(doc).Rejected? ==> e == Nothing(Decode(doc).code) && out.code == Decode(doc).code && e.calls == []
    ensures Decode(doc).Ok? ==> ValidRequest(Decode(doc).request)
    ensures Decode(doc).Ok? && b == null ==> e == Nothing(BackendUnavailable)
    ensures Decode(doc) == Ok(ReleaseHeld) && b != null && sess == null ==> e == Nothing(InvalidRequest)
    ensures Decode(doc).Ok? && b != null && (sess != null || Decode(doc) != Ok(ReleaseHeld)) ==>
              Lives(b.world, old(b.Here()), Decode(doc).request, old(HeldBy(sess)), e)
    ensures out.code in {InvalidRequest, NotSubmitted, Conflict} ==>
              (forall i | 0 <= i < |e.calls| :: !Mutating(e.calls[i])) && HeldBy(sess) == old(HeldBy(sess))
    ensures b != null ==> (out.code in {InvalidRequest, NotSubmitted} && e.calls != [] <==> AsksForUnknownKey(doc, b.world, old(b.tick)))
  {
    var decoded := Decode(doc);
    if decoded.Rejected? { return Plain(decoded.code), Nothing(decoded.code); }
    DecodedIsValid(doc);
    ghost var held, from := HeldBy(sess), if b == null then Point([], FRESH, 0) else b.Here();
    out, e := Dispatch(decoded.request, sess, b);
    if b != null && (sess != null || !decoded.request.ReleaseHeld?) {
      LivesInTrace(b.world, from, decoded.request, held, e);
      InvalidIffUnknownKey(decoded.request, held, e.calls, out.code);
      if out.code in {InvalidRequest, NotSubmitted, Conflict} {
        RefusedLeavesNoTrace(doc, held, e.calls, out.code);
      }
    }
  }

  /** Where a connection stands that came to the backend at `from` and has answered
      `docs` with `outs`. */
  ghost predicate Standing(b: DestBackend, sess: Session, from: Point, docs: seq<Document>, outs: seq<Outcome>, es: seq<Exchange>)
    reads b, sess
  {
    && b.Here() == Along(from, es)
    && LiveConversation(b.world, from, es) && sess.Held() == Replay({}, AllCalls(es))
    && Answered(Decodings(docs), outs, es)
  }

  /** The next line of a connection, recorded in its conversation. */
  method ServeLine(b: DestBackend, sess: Session, docs: seq<Document>, outs: seq<Outcome>, ghost from: Point, ghost es: seq<Exchange>)
    returns (out: Outcome, ghost es': seq<Exchange>)
    requires |outs| < |docs| && Standing(b, sess, from, docs[..|outs|], outs, es)
    modifies b, sess
    ensures Standing(b, sess, from, docs[..|outs| + 1], outs + [out], es')
  {
    var k := |outs|;
    ghost var e;
    ghost var d, ds := Decode(docs[k]), Decodings(docs[..k]);
    DecodingsGrow(docs, k);
    out, e := HandleLine(docs[k], sess, b);
    if d.Ok? {
      OneMoreRequest(b.world, from, ds, outs, es, Exchange(d.request, e));
      es' := es + [Exchange(d.request, e)];
    } else {
      AnsweredOneMore(ds, outs, es, d, out, []);
      es' := es + [];
      assert es' == es;
    }
  }

  /** The request loop: lines until there are no more or the reply to line number
      `broken` cannot be written. */
  method ServeLines(b: DestBackend, sess: Session, docs: seq<Document>, broken: nat)
    returns (outs: seq<Outcome>, ghost es: seq<Exchange>)
    requires sess.Held() == {}
    modifies b, sess
    ensures |outs| == if broken < |docs| then broken + 1 else |docs|
    ensures Standing(b, sess, old(b.Here()), docs[..|outs|], outs, es)
  {
    outs, es := [], [];
    while |outs| < |docs|
      invariant |outs| <= |docs| && |outs| <= broken
      invariant Standing(b, sess, old(b.Here()), docs[..|outs|], outs, es)
      decreases |docs| - |outs|
    {
      var out;
      out, es := ServeLine(b, sess, docs, outs, old(b.Here()), es);
      outs := outs + [out];
      if |outs| > broken { break; }
    }
  }

  /** Serves one connection: a new session, its lines, and the release that
      closing performs. Every line up to the end, or to the one whose reply is
      lost, is decoded, dispatched and answered, and the backend's counters go on
      from where they were. The table is at all times what its own calls made of it,
      and in the end only what that release could not lift. */
  method ServeConn(b: DestBackend, docs: seq<Document>, broken: nat)
    returns (sess: Session, outs: seq<Outcome>, ghost es: seq<Exchange>, ghost closing: Effect)
    modifies b
    ensures |outs| == if broken < |docs| then broken + 1 else |docs|
    ensures Answered(Decodings(docs[..|outs|]), outs, es)
    ensures LiveConversation(b.world, old(b.Here()), es) && Conversation(es)
    ensures Lives(b.world, Along(old(b.Here()), es), ReleaseHeld, Replay({}, AllCalls(es)), closing)
    ensures b.Here() == Along(old(b.Here()), es).Plus(closing)
    ensures b.calls == old(b.calls) + AllCalls(es) + closing.calls
    ensures b.CurrentGens() == Fold(Exec, old(b.CurrentGens()), AllJobs(es))
    ensures sess.Held() == Replay({}, AllCalls(es) + closing.calls)
    ensures forall input :: input in sess.Held() <==> Transition(input, false, false) in closing.calls
  {
    sess := new Session();
    outs, es := ServeLines(b, sess, docs, broken);
    var code;
    code, closing := sess.Release(b);
    LiveIsConversation(b.world, old(b.Here()), es);
    AlongAdds(old(b.Here()), es);
    ReplayConcat({}, AllCalls(es), closing.calls);
    ReleaseKeepsOnlyFailures(Replay({}, AllCalls(es)), closing.calls, code);
  }
}
