/** What one destination request may do: the calls it makes on the backend, as a
    language of call sequences, and what follows from membership in it. */
module Dispatching {
  import opened Words
  import opened Generations
  import opened Requests
  import opened Holds

  /** One call on the X side, with its outcome. */
  datatype Call =
    | Lookup(name: string, code: nat)
    | Warp(x: int, y: int, ok: bool)
    | Transition(input: Input, press: bool, ok: bool)
    | Geometry(ok: bool)
    | List(ok: bool)
    | Recheck(ref: WindowRef, error: Option<BackendError>)
    | NetActive(xid: uint32, ok: bool)
    | Focus(xid: uint32, ok: bool)
    | SetState(xid: uint32, add: bool, ok: bool)
    | QueryActive

  predicate WindowMutation(c: Call) {
    c.NetActive? || c.Focus? || c.SetState?
  }

  predicate Mutating(c: Call) {
    c.Warp? || c.Transition? || WindowMutation(c)
  }

  /** The same call, whatever its outcome. */
  predicate Same(c: Call, d: Call) {
    match c
    case Warp(x, y, _) => d.Warp? && d.x == x && d.y == y
    case Transition(input, press, _) => d.Transition? && d.input == input && d.press == press
    case NetActive(xid, _) => d.NetActive? && d.xid == xid
    case Focus(xid, _) => d.Focus? && d.xid == xid
    case SetState(xid, add, _) => d.SetState? && d.xid == xid && d.add == add
    case _ => c == d
  }

  function MapError(e: BackendError): Code {
    if e == RefMismatch then Conflict else BackendUnavailable
  }

  function Done(ok: bool): Code {
    if ok then Submitted else BackendUnavailable
  }

  predicate Int32(x: int) {
    -0x8000_0000 <= x < 0x8000_0000
  }

  // ----- the call sequences of each request -----

  predicate IsUp(c: Call) {
    c.Transition? && !c.press
  }

  predicate AllLifted(cs: seq<Call>) {
    forall i | 0 <= i < |cs| :: IsUp(cs[i]) && cs[i].ok
  }

  /** One up for each input, in order. */
  predicate UpsOf(cs: seq<Call>, todo: seq<Input>) {
    |cs| == |todo| && forall i | 0 <= i < |cs| :: IsUp(cs[i]) && cs[i].input == todo[i]
  }

  /** A release tries one up for each held input, keys first, in some order. */
  ghost predicate ReleaseTrace(held: set<Input>, cs: seq<Call>, code: Code) {
    && (forall i | 0 <= i < |cs| :: IsUp(cs[i]) && cs[i].input in held)
    && (forall i, j | 0 <= i < j < |cs| :: cs[i].input != cs[j].input)
    && (forall i, j | 0 <= i < j < |cs| :: cs[i].input.Button? ==> cs[j].input.Button?)
    && (forall input | input in held :: exists i :: 0 <= i < |cs| && cs[i].input == input)
    && code == Done(AllLifted(cs))
  }

  predicate ActivateTrace(xid: uint32, cs: seq<Call>, code: Code) {
    || (cs == [] && code == BackendUnavailable)
    || (cs == [NetActive(xid, false)] && code == BackendUnavailable)
    || (cs == [NetActive(xid, true), Focus(xid, false)] && code == BackendUnavailable)
    || (cs == [NetActive(xid, true), Focus(xid, true)] && code == BackendUnavailable)
    || (cs == [NetActive(xid, true), Focus(xid, true), QueryActive] && code == Submitted)
  }

  predicate StateTrace(xid: uint32, add: bool, cs: seq<Call>, code: Code) {
    (cs == [] && code == BackendUnavailable) || exists ok :: cs == [SetState(xid, add, ok)] && code == Done(ok)
  }

  predicate Rechecked(ref: WindowRef, cs: seq<Call>, code: Code) {
    && cs != [] && cs[0].Recheck? && cs[0].ref == ref
    && (cs[0].error.Some? ==> |cs| == 1 && code == MapError(cs[0].error.value))
  }

  ghost predicate Trace(r: Request, held: set<Input>, cs: seq<Call>, code: Code) {
    match r
    case Move(x, y) =>
      if Int32(x) && Int32(y) then exists ok :: cs == [Warp(x, y, ok)] && code == Done(ok)
      else cs == [] && code == BackendUnavailable
    case PressKey(name, press) =>
      && cs != [] && cs[0].Lookup? && cs[0].name == name
      && if cs[0].code == 0 then |cs| == 1 && code == InvalidRequest
         else exists ok :: cs[1..] == [Transition(Key(cs[0].code), press, ok)] && code == Done(ok)
    case PressButton(button, press) =>
      exists ok :: cs == [Transition(Button(button), press, ok)] && code == Done(ok)
    case InspectAll =>
      (cs == [Geometry(false)] && code == BackendUnavailable) || exists ok :: cs == [Geometry(true), List(ok)] && code == Done(ok)
    case Activate(ref) =>
      Rechecked(ref, cs, code) && (cs[0].error.None? ==> ActivateTrace(ref.xid, cs[1..], code))
    case Fullscreen(ref, add) =>
      Rechecked(ref, cs, code) && (cs[0].error.None? ==> StateTrace(ref.xid, add, cs[1..], code))
    case ReleaseHeld => ReleaseTrace(held, cs, code)
  }

  /** What a table becomes over a sequence of calls: successful transitions count. */
  function Replay(held: set<Input>, cs: seq<Call>): set<Input>
    decreases |cs|
  {
    if cs == [] then held
    else
      var c := cs[|cs| - 1];
      var before := Replay(held, cs[..|cs| - 1]);
      if c.Transition? && c.ok then Apply(before, c.input, c.press) else before
  }

  lemma {:induction false} ReplayConcat(held: set<Input>, a: seq<Call>, b: seq<Call>)
    ensures Replay(held, a + b) == Replay(Replay(held, a), b)
    decreases |b|
  {
    if b == [] {
      assert a + b == a;
    } else {
      assert (a + b)[..|a + b| - 1] == a + b[..|b| - 1];
      ReplayConcat(held, a, b[..|b| - 1]);
    }
  }

  lemma {:induction false} ReplayWithoutTransitions(held: set<Input>, cs: seq<Call>)
    requires forall i | 0 <= i < |cs| :: !cs[i].Transition?
    ensures Replay(held, cs) == held
    decreases |cs|
  {
    if cs == [] {
    } else {
      ReplayWithoutTransitions(held, cs[..|cs| - 1]);
    }
  }

  // ----- consequences -----

  /** What one line may do: nothing if the decoder rejects it, and what its
      request may do otherwise. */
  ghost predicate LineTrace(doc: Document, held: set<Input>, cs: seq<Call>, code: Code) {
    match Decode(doc)
    case Rejected(rejection) => cs == [] && code == rejection
    case Ok(r) => Trace(r, held, cs, code)
  }

  /** A decoded request is answered InvalidRequest exactly when it is a key whose
      name the lookup does not know, and never NotSubmitted. */
  lemma InvalidIffUnknownKey(r: Request, held: set<Input>, cs: seq<Call>, code: Code)
    requires Trace(r, held, cs, code)
    ensures code == InvalidRequest <==> r.PressKey? && cs == [Lookup(r.name, 0)]
    ensures code != NotSubmitted
  {
    if r.PressKey? && code == InvalidRequest {
      assert cs == [cs[0]];
    }
  }

  lemma ConflictIsRecheckOnly(r: Request, held: set<Input>, cs: seq<Call>)
    requires Trace(r, held, cs, Conflict)
    ensures |cs| == 1 && cs[0].Recheck?
  {
  }

  /** A line that is answered InvalidRequest, NotSubmitted or Conflict made no
      mutating call, and the table is as before. */
  lemma RefusedLeavesNoTrace(doc: Document, held: set<Input>, cs: seq<Call>, code: Code)
    requires LineTrace(doc, held, cs, code)
    requires code in {InvalidRequest, NotSubmitted, Conflict}
    ensures forall i | 0 <= i < |cs| :: !Mutating(cs[i])
    ensures Replay(held, cs) == held
  {
    if Decode(doc).Ok? {
      InvalidIffUnknownKey(Decode(doc).request, held, cs, code);
      if code == Conflict {
        ConflictIsRecheckOnly(Decode(doc).request, held, cs);
      }
    }
    ReplayWithoutTransitions(held, cs);
  }

  /** An invalid or unknown line reaches the backend exactly when it decodes, and
      then it is a key press or release whose name was looked up in vain. */
  lemma InvalidReachesBackendIffUnknownKey(doc: Document, held: set<Input>, cs: seq<Call>, code: Code)
    requires LineTrace(doc, held, cs, code)
    requires code in {InvalidRequest, NotSubmitted}
    ensures cs != [] <==> Decode(doc).Ok?
    ensures Decode(doc).Ok? ==> Decode(doc).request.PressKey? && cs == [Lookup(Decode(doc).request.name, 0)]
  {
    if Decode(doc).Ok? {
      InvalidIffUnknownKey(Decode(doc).request, held, cs, code);
    }
  }

  /** The case exists for every name a key may have. */
  lemma UnknownKeyIsLookedUp(name: string, press: bool, held: set<Input>) returns (doc: Document)
    requires name != "" && '\0' !in name
    ensures Decode(doc) == Ok(PressKey(name, press))
    ensures LineTrace(doc, held, [Lookup(name, 0)], InvalidRequest)
  {
    doc := Object(ToMembers(PressKey(name, press)));
    DecodeOfEncoded(PressKey(name, press), doc.members);
  }

  /** Every mutation of a window follows a successful recheck of the very
      reference of the request, and is on that reference's window. */
  lemma WindowMutationFollowsRecheck(r: Request, held: set<Input>, cs: seq<Call>, code: Code, i: nat)
    requires Trace(r, held, cs, code) && i < |cs| && WindowMutation(cs[i])
    ensures r.Activate? || r.Fullscreen?
    ensures i > 0 && cs[0] == Recheck(r.window, None) && cs[i].xid == r.window.xid
  {
    if r.Activate? || r.Fullscreen? {
      assert i > 0 ==> cs[1..][i - 1] == cs[i];
    }
  }

  /** No mutating call is made twice in one request: nothing is retried. */
  lemma NothingIsRetried(r: Request, held: set<Input>, cs: seq<Call>, code: Code, i: nat, j: nat)
    requires Trace(r, held, cs, code) && i < j < |cs| && Mutating(cs[i])
    ensures !Same(cs[i], cs[j])
  {
    if r.Activate? || r.Fullscreen? {
      assert forall k | 0 < k < |cs| :: cs[1..][k - 1] == cs[k];
    }
  }

  /** Submitted means that every mutating call of the request succeeded. */
  lemma SubmittedMeansAllSucceeded(r: Request, held: set<Input>, cs: seq<Call>, i: nat)
    requires Trace(r, held, cs, Submitted) && i < |cs|
    ensures cs[i].Transition? || cs[i].Warp? || WindowMutation(cs[i]) ==> cs[i].ok
  {
    if r.Activate? || r.Fullscreen? || r.PressKey? {
      assert i > 0 ==> cs[1..][i - 1] == cs[i];
    }
  }

  lemma {:induction false} ReplayOfUps(held: set<Input>, cs: seq<Call>, input: Input)
    requires forall i | 0 <= i < |cs| :: IsUp(cs[i])
    ensures input in Replay(held, cs) <==> input in held && Transition(input, false, true) !in cs
    decreases |cs|
  {
    if cs == [] {
    } else {
      var n := |cs| - 1;
      ReplayOfUps(held, cs[..n], input);
      assert cs == cs[..n] + [cs[n]];
    }
  }

  lemma OneUpEach(held: set<Input>, cs: seq<Call>, code: Code, input: Input)
    requires ReleaseTrace(held, cs, code)
    ensures input in held <==> Transition(input, false, true) in cs || Transition(input, false, false) in cs
    ensures !(Transition(input, false, true) in cs && Transition(input, false, false) in cs)
  {
    if input in held {
      var i :| 0 <= i < |cs| && cs[i].input == input;
      assert cs[i] == Transition(input, false, cs[i].ok);
    }
  }

  /** A release keeps exactly the inputs whose up failed, and reports Submitted
      exactly when the table is then empty. */
  lemma ReleaseKeepsOnlyFailures(held: set<Input>, cs: seq<Call>, code: Code)
    requires ReleaseTrace(held, cs, code)
    ensures forall input :: input in Replay(held, cs) <==> Transition(input, false, false) in cs
    ensures code == Submitted <==> Replay(held, cs) == {}
  {
    forall input ensures input in Replay(held, cs) <==> Transition(input, false, false) in cs {
      ReplayOfUps(held, cs, input);
      OneUpEach(held, cs, code, input);
    }
    if code == Submitted {
      assert forall input :: Transition(input, false, false) !in cs;
      assert Replay(held, cs) == {};
    } else {
      var i :| 0 <= i < |cs| && !cs[i].ok;
      assert cs[i] == Transition(cs[i].input, false, false);
    }
  }

  /** After a successful release the next one sends nothing. */
  lemma SecondReleaseSendsNothing(held: set<Input>, cs: seq<Call>, next: seq<Call>, code: Code)
    requires ReleaseTrace(held, cs, Submitted) && ReleaseTrace(Replay(held, cs), next, code)
    ensures next == [] && code == Submitted
  {
    assert next != [] ==> next[0].input in Replay(held, cs);
    ReleaseKeepsOnlyFailures(held, cs, Submitted);
  }

  /** Trying the ups of a snapshot in order is a release. */
  lemma UpsAreRelease(held: set<Input>, todo: seq<Input>, ups: seq<Call>, code: Code)
    requires HeldInOrder(todo, held) && UpsOf(ups, todo) && code == Done(AllLifted(ups))
    ensures ReleaseTrace(held, ups, code)
  {
    forall input | input in held ensures exists i :: 0 <= i < |ups| && ups[i].input == input {
      assert input in Elements(todo);
      var i :| 0 <= i < |todo| && todo[i] == input;
      assert ups[i].input == input;
    }
    forall i | 0 <= i < |ups| ensures ups[i].input in held {
      assert todo[i] in Elements(todo);
    }
  }

  lemma UpsConcat(a: seq<Call>, b: seq<Call>, ks: seq<Input>, bs: seq<Input>)
    requires UpsOf(a, ks) && UpsOf(b, bs)
    ensures UpsOf(a + b, ks + bs)
    ensures AllLifted(a + b) <==> AllLifted(a) && AllLifted(b)
  {
    if AllLifted(a + b) {
      assert forall i | 0 <= i < |a| :: a[i] == (a + b)[i];
      assert forall i | 0 <= i < |b| :: b[i] == (a + b)[|a| + i];
    }
  }

  /** The two loops of a release, one after the other. */
  lemma LoopsAreRelease(held: set<Input>, ks: seq<Input>, bs: seq<Input>, lifted: seq<Call>, dropped: seq<Call>, code: Code)
    requires HeldInOrder(ks + bs, held) && UpsOf(lifted, ks) && UpsOf(dropped, bs)
    requires code == Done(AllLifted(lifted) && AllLifted(dropped))
    ensures ReleaseTrace(held, lifted + dropped, code)
    ensures Replay(held, lifted + dropped) == Replay(Replay(held, lifted), dropped)
  {
    UpsConcat(lifted, dropped, ks, bs);
    UpsAreRelease(held, ks + bs, lifted + dropped, code);
    ReplayConcat(held, lifted, dropped);
  }

  /** The calls of a request whose recheck succeeded. */
  function Prefixed(ref: WindowRef, tail: seq<Call>): (cs: seq<Call>)
    ensures |cs| == |tail| + 1 && cs[0] == Recheck(ref, None) && cs[1..] == tail
    ensures forall i | 0 < i < |cs| :: cs[i] == tail[i - 1]
  {
    [Recheck(ref, None)] + tail
  }

  lemma ActivateTraces(ref: WindowRef, tail: seq<Call>, code: Code, held: set<Input>)
    requires ActivateTrace(ref.xid, tail, code)
    ensures Trace(Activate(ref), held, Prefixed(ref, tail), code) && Replay(held, Prefixed(ref, tail)) == held
  {
    ReplayWithoutTransitions(held, Prefixed(ref, tail));
  }

  lemma FullscreenTraces(ref: WindowRef, add: bool, tail: seq<Call>, code: Code, held: set<Input>)
    requires StateTrace(ref.xid, add, tail, code)
    ensures Trace(Fullscreen(ref, add), held, Prefixed(ref, tail), code) && Replay(held, Prefixed(ref, tail)) == held
  {
    ReplayWithoutTransitions(held, Prefixed(ref, tail));
  }

  /** The latest successful transition of `input` was a press. */
  predicate LatestIsPress(cs: seq<Call>, input: Input) {
    cs != [] && var c := cs[|cs| - 1];
    if c.Transition? && c.ok && c.input == input then c.press else LatestIsPress(cs[..|cs| - 1], input)
  }

  /** From an empty table, what is held over any calls is what was pressed last. */
  lemma {:induction false} ReplayIsLatestPresses(cs: seq<Call>, input: Input)
    ensures input in Replay({}, cs) <==> LatestIsPress(cs, input)
  {
    if cs == [] {
    } else {
      ReplayIsLatestPresses(cs[..|cs| - 1], input);
    }
  }

  lemma ReplayStep(held: set<Input>, cs: seq<Call>, c: Call)
    ensures Replay(held, cs + [c]) == if c.Transition? && c.ok then Apply(Replay(held, cs), c.input, c.press) else Replay(held, cs)
  {
    assert (cs + [c])[..|cs|] == cs;
  }

  /** A table that starts without keycode 0 and other buttons never gets them. */
  lemma TableStaysRequestable(r: Request, held: set<Input>, cs: seq<Call>, code: Code)
    requires Trace(r, held, cs, code) && ValidRequest(r)
    requires forall input | input in held :: if input.Key? then input.code != 0 else 1 <= input.code <= 3
    ensures forall input | input in Replay(held, cs) :: if input.Key? then input.code != 0 else 1 <= input.code <= 3
  {
    if r.ReleaseHeld? {
      forall input | input in Replay(held, cs) ensures if input.Key? then input.code != 0 else 1 <= input.code <= 3 {
        ReplayOfUps(held, cs, input);
      }
    } else if r.PressKey? || r.PressButton? {
      var n := |cs| - 1;
      ReplayWithoutTransitions(held, cs[..n]);
      assert n == 1 ==> cs[1] == cs[1..][0];
    } else {
      assert r.Activate? || r.Fullscreen? ==> forall k | 0 < k < |cs| :: cs[1..][k - 1] == cs[k];
      ReplayWithoutTransitions(held, cs);
    }
  }

  // ----- whole connections -----

  /** A reply; an inspect carries windows and geometry, an activation two ids. */
  datatype Outcome = Outcome(
    code: Code, windows: seq<WindowInfo>, width: int, height: int, requestedActive: uint32, observedActive: uint32)

  function Plain(code: Code): Outcome {
    Outcome(code, [], 0, 0, 0, 0)
  }

  /** A job that read the client list, and the list-reading jobs that other
      connections ran on the backend before it. */
  datatype Reading = Reading(others: seq<Job>, job: Job)

  /** What serving one request did: the calls it made, its reading of the client
      list if there was one, the reply, and how many jobs it took. */
  datatype Effect = Effect(calls: seq<Call>, read: Option<Reading>, out: Outcome, ticks: nat)
  {
    function Jobs(): seq<Job> {
      if read.None? then [] else read.value.others + [read.value.job]
    }
  }

  /** One request as it was served. */
  datatype Exchange = Exchange(request: Request, effect: Effect)

  function AllCalls(es: seq<Exchange>): seq<Call> {
    if es == [] then [] else AllCalls(es[..|es| - 1]) + es[|es| - 1].effect.calls
  }

  /** Valid requests, each served against the table the earlier ones left. */
  ghost predicate Conversation(es: seq<Exchange>) {
    es == [] || (
      var init, last := es[..|es| - 1], es[|es| - 1];
      Conversation(init) && ValidRequest(last.request) && Trace(last.request, Replay({}, AllCalls(init)), last.effect.calls, last.effect.out.code))
  }

  function Decodings(docs: seq<Document>): (ds: seq<Decoded>)
    ensures |ds| == |docs| && forall k | 0 <= k < |docs| :: ds[k] == Decode(docs[k])
  {
    seq(|docs|, k requires 0 <= k < |docs| => Decode(docs[k]))
  }

  lemma DecodingsGrow(docs: seq<Document>, k: nat)
    requires k < |docs|
    ensures Decodings(docs[..k + 1]) == Decodings(docs[..k]) + [Decode(docs[k])]
  {
  }

  /** The requests among decoded lines, in order. */
  function RequestsOf(ds: seq<Decoded>): seq<Request> {
    if ds == [] then []
    else
      var n := |ds| - 1;
      RequestsOf(ds[..n]) + if ds[n].Ok? then [ds[n].request] else []
  }

  /** How decoded lines are answered: a rejected one with the decoder's code and
      without an exchange; any other with the reply of the exchange of its request. */
  ghost predicate Answered(ds: seq<Decoded>, outs: seq<Outcome>, es: seq<Exchange>)
    decreases |ds|
  {
    |outs| == |ds| &&
    if ds == [] then es == []
    else
      var n, m := |ds| - 1, |es| - 1;
      match ds[n]
      case Rejected(code) => outs[n] == Plain(code) && Answered(ds[..n], outs[..n], es)
      case Ok(r) =>
        es != [] && es[m].request == r && es[m].effect.out == outs[n] && Answered(ds[..n], outs[..n], es[..m])
  }

  /** The exchange of line `k`, if it has one, is the one whose number is how many
      requests came before it. */
  predicate AnsweredLine(ds: seq<Decoded>, outs: seq<Outcome>, es: seq<Exchange>, k: nat)
    requires k < |ds| == |outs|
  {
    match ds[k]
    case Rejected(code) => outs[k] == Plain(code)
    case Ok(r) =>
      var j := |RequestsOf(ds[..k])|;
      j < |es| && es[j].request == r && es[j].effect.out == outs[k]
  }

  /** The exchanges are those of the requests among the lines, in order. */
  lemma {:induction false} ExchangesInOrder(ds: seq<Decoded>, outs: seq<Outcome>, es: seq<Exchange>)
    requires Answered(ds, outs, es)
    ensures |es| == |RequestsOf(ds)| && forall j | 0 <= j < |es| :: es[j].request == RequestsOf(ds)[j]
    decreases |ds|
  {
    if ds == [] {
    } else {
      var n := |ds| - 1;
      ExchangesInOrder(ds[..n], outs[..n], if ds[n].Ok? then es[..|es| - 1] else es);
    }
  }

  /** Each line got the decoder's code, or the reply of its own exchange. */
  lemma {:induction false} LinesAreAnswered(ds: seq<Decoded>, outs: seq<Outcome>, es: seq<Exchange>, k: nat)
    requires Answered(ds, outs, es) && k < |ds|
    ensures AnsweredLine(ds, outs, es, k)
    decreases |ds|
  {
    var n := |ds| - 1;
    var init := if ds[n].Ok? then es[..|es| - 1] else es;
    if k == n {
      ExchangesInOrder(ds[..n], outs[..n], init);
    } else {
      LinesAreAnswered(ds[..n], outs[..n], init, k);
      assert ds[..n][..k] == ds[..k];
    }
  }

  lemma AnsweredOneMore(ds: seq<Decoded>, outs: seq<Outcome>, es: seq<Exchange>, d: Decoded, out: Outcome, more: seq<Exchange>)
    requires Answered(ds, outs, es)
    requires match d
             case Rejected(code) => out == Plain(code) && more == []
             case Ok(r) => |more| == 1 && more[0].request == r && more[0].effect.out == out
    ensures Answered(ds + [d], outs + [out], es + more)
  {
    assert (ds + [d])[..|ds|] == ds && (outs + [out])[..|outs|] == outs;
    assert (es + more)[..|es|] == es;
    assert more == [] ==> es + more == es;
  }

  /** However long the connection, its table holds only what a request can ask for. */
  lemma {:induction false} ConversationStaysRequestable(es: seq<Exchange>)
    requires Conversation(es)
    ensures forall input | input in Replay({}, AllCalls(es)) :: if input.Key? then input.code != 0 else 1 <= input.code <= 3
  {
    if es == [] {
    } else {
      var init, last := es[..|es| - 1], es[|es| - 1];
      ConversationStaysRequestable(init);
      ReplayConcat({}, AllCalls(init), last.effect.calls);
      TableStaysRequestable(last.request, Replay({}, AllCalls(init)), last.effect.calls, last.effect.out.code);
    }
  }
}
