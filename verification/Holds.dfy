/** Who holds what: any number of destination connections, each driven by one
    goroutine and keeping a table of the keys and buttons it has pressed, over
    one display. Sending an event, noting it in the table, and the snapshot,
    send and delete of a release are separate steps; a step that is not enabled
    leaves the state as it is, so every sequence of steps is an interleaving. */
module Holds {

  const MAX_CONNS: nat := 10

  datatype Input = Key(code: nat) | Button(code: nat)

  /** What a decoded request can ask for: no keycode 0, buttons 1 to 3. */
  predicate Requestable(i: Input) {
    if i.Key? then i.code != 0 else 1 <= i.code <= 3
  }

  /** Where a connection is: between requests; after a successful event that is
      not noted yet; in a release with the ups still to try; after a successful
      up that is not deleted yet; or gone. */
  datatype Pc =
    | Idle
    | Sent(input: Input, press: bool)
    | Releasing(todo: seq<Input>, closing: bool)
    | Lifted(input: Input, todo: seq<Input>, closing: bool)
    | Closed

  /** `stuck` collects the ups that failed in the current or last release. */
  datatype Conn = Conn(pc: Pc, held: set<Input>, stuck: set<Input>)

  /** A transition that reached the display. */
  datatype Event = Event(conn: nat, input: Input, press: bool)

  /** `log` is history: every successful event, oldest first. */
  datatype State = State(down: set<Input>, conns: map<nat, Conn>, log: seq<Event>)
  {
    function Active(): set<nat> {
      set c | c in conns && !conns[c].pc.Closed?
    }

    predicate At(c: nat, pc: Pc) {
      c in conns && conns[c].pc == pc
    }
  }

  datatype Step =
    | Open(conn: nat)
    | Send(conn: nat, input: Input, press: bool, ok: bool)
    | Note(conn: nat)
    | Begin(conn: nat, todo: seq<Input>, closing: bool)
    | Up(conn: nat, ok: bool)
    | Delete(conn: nat)
    | End(conn: nat)

  function Elements(todo: seq<Input>): set<Input> {
    set i | i in todo
  }

  ghost predicate Distinct(todo: seq<Input>) {
    forall m, n | 0 <= m < n < |todo| :: todo[m] != todo[n]
  }

  /** A snapshot in some map order: keys first, then buttons, each held one once. */
  ghost predicate HeldInOrder(todo: seq<Input>, held: set<Input>) {
    && Elements(todo) == held && Distinct(todo)
    && forall m, n | 0 <= m < n < |todo| :: todo[m].Button? ==> todo[n].Button?
  }

  ghost predicate Enabled(s: State, step: Step) {
    if step.Open? then step.conn !in s.conns && |s.Active()| < MAX_CONNS
    else step.conn in s.conns && var conn := s.conns[step.conn];
      match step
      case Send(_, i, _, _) => conn.pc.Idle? && Requestable(i)
      case Note(_) => conn.pc.Sent?
      case Begin(_, todo, _) => conn.pc.Idle? && HeldInOrder(todo, conn.held)
      case Up(_, _) => conn.pc.Releasing? && conn.pc.todo != []
      case Delete(_) => conn.pc.Lifted?
      case End(_) => conn.pc.Releasing? && conn.pc.todo == []
      case _ => false
  }

  function Apply(down: set<Input>, i: Input, press: bool): set<Input> {
    if press then down + {i} else down - {i}
  }

  /** An event of connection `c` reaches the display. */
  function Emit(s: State, c: nat, i: Input, press: bool, conn: Conn): State {
    State(Apply(s.down, i, press), s.conns[c := conn], s.log + [Event(c, i, press)])
  }

  ghost function Do(s: State, step: Step): State {
    if !Enabled(s, step) then s
    else if step.Open? then s.(conns := s.conns[step.conn := Conn(Idle, {}, {})])
    else
      var c, conn := step.conn, s.conns[step.conn];
      match step
      case Send(_, i, press, ok) =>
        if ok then Emit(s, c, i, press, conn.(pc := Sent(i, press))) else s
      case Note(_) =>
        s.(conns := s.conns[c := Conn(Idle, Apply(conn.held, conn.pc.input, conn.pc.press), conn.stuck)])
      case Begin(_, todo, closing) =>
        s.(conns := s.conns[c := Conn(Releasing(todo, closing), conn.held, {})])
      case Up(_, ok) =>
        var i, rest := conn.pc.todo[0], conn.pc.todo[1..];
        if ok then Emit(s, c, i, false, conn.(pc := Lifted(i, rest, conn.pc.closing)))
        else s.(conns := s.conns[c := Conn(Releasing(rest, conn.pc.closing), conn.held, conn.stuck + {i})])
      case Delete(_) =>
        s.(conns := s.conns[c := Conn(Releasing(conn.pc.todo, conn.pc.closing), conn.held - {conn.pc.input}, conn.stuck)])
      case End(_) =>
        s.(conns := s.conns[c := conn.(pc := if conn.pc.closing then Closed else Idle)])
  }

  const START: State := State({}, map[], [])

  ghost function Run(steps: seq<Step>): State {
    if steps == [] then START else Do(Run(steps[..|steps| - 1]), steps[|steps| - 1])
  }

  // ----- the history, read as an oracle -----

  /** The latest event on `i`, by anyone, was a press. */
  predicate Pressed(log: seq<Event>, i: Input) {
    log != [] && var last := log[|log| - 1];
    if last.input == i then last.press else Pressed(log[..|log| - 1], i)
  }

  /** The latest event of connection `c` on `i` was a press. */
  predicate PressedBy(log: seq<Event>, c: nat, i: Input) {
    log != [] && var last := log[|log| - 1];
    if last.conn == c && last.input == i then last.press else PressedBy(log[..|log| - 1], c, i)
  }

  lemma {:induction false} PressedBySomeone(log: seq<Event>, i: Input) returns (c: nat)
    requires Pressed(log, i)
    ensures PressedBy(log, c, i)
  {
    var last := log[|log| - 1];
    if last.input == i {
      c := last.conn;
    } else {
      c := PressedBySomeone(log[..|log| - 1], i);
    }
  }

  // ----- the invariant -----

  /** The table as it will be once the step in progress is noted. */
  function Settled(conn: Conn): set<Input> {
    match conn.pc
    case Sent(i, press) => Apply(conn.held, i, press)
    case Lifted(i, _, _) => conn.held - {i}
    case _ => conn.held
  }

  ghost predicate ReleaseOnTrack(conn: Conn) {
    match conn.pc
    case Releasing(todo, _) => Distinct(todo) && conn.held == conn.stuck + Elements(todo) && conn.stuck !! Elements(todo)
    case Lifted(i, todo, _) =>
      && Distinct(todo) && i !in todo && conn.held == conn.stuck + {i} + Elements(todo)
      && conn.stuck !! Elements(todo) && i !in conn.stuck
    case Closed => conn.held == conn.stuck
    case _ => true
  }

  ghost predicate Tidy(conn: Conn) {
    (forall i | i in conn.held :: Requestable(i)) && (conn.pc.Sent? ==> Requestable(conn.pc.input))
  }

  ghost predicate TableIsHistory(s: State, c: nat) {
    forall i :: PressedBy(s.log, c, i) <==> c in s.conns && i in Settled(s.conns[c])
  }

  ghost predicate Inv(s: State) {
    && (forall i :: i in s.down <==> Pressed(s.log, i))
    && (forall c :: TableIsHistory(s, c))
    && (forall c | c in s.conns :: ReleaseOnTrack(s.conns[c]) && Tidy(s.conns[c]))
    && |s.Active()| <= MAX_CONNS
  }

  lemma EmitKeepsHistory(s: State, c: nat, i: Input, press: bool, conn: Conn)
    requires Inv(s) && c in s.conns && Settled(conn) == Apply(Settled(s.conns[c]), i, press)
    ensures var t := Emit(s, c, i, press, conn);
            (forall j :: j in t.down <==> Pressed(t.log, j)) && (forall d :: TableIsHistory(t, d))
  {
    var t := Emit(s, c, i, press, conn);
    assert t.log[..|t.log| - 1] == s.log;
    forall d ensures TableIsHistory(t, d) {
      assert TableIsHistory(s, d);
    }
  }

  lemma QuietKeepsHistory(s: State, t: State, c: nat)
    requires Inv(s) && t.log == s.log && c in t.conns && t.conns == s.conns[c := t.conns[c]]
    requires Settled(t.conns[c]) == if c in s.conns then Settled(s.conns[c]) else {}
    ensures forall d :: TableIsHistory(t, d)
  {
    forall d ensures TableIsHistory(t, d) {
      assert TableIsHistory(s, d);
    }
  }

  lemma StepKeepsInv(s: State, step: Step)
    requires Inv(s)
    ensures Inv(Do(s, step))
  {
    if Enabled(s, step) {
      var t, c := Do(s, step), step.conn;
      if t != s {
        assert t.conns == s.conns[c := t.conns[c]];
        if |t.log| > |s.log| {
          var e := t.log[|s.log|];
          EmitKeepsHistory(s, c, e.input, e.press, t.conns[c]);
        } else {
          QuietKeepsHistory(s, t, c);
        }
        StepKeepsConn(s, step);
        StepKeepsCount(s, step);
      }
    }
  }

  lemma UpKeepsConn(s: State, c: nat, ok: bool)
    requires Inv(s) && Enabled(s, Up(c, ok))
    ensures var conn := Do(s, Up(c, ok)).conns[c]; ReleaseOnTrack(conn) && Tidy(conn)
  {
    assert ReleaseOnTrack(s.conns[c]);
    var todo := s.conns[c].pc.todo;
    assert Elements(todo) == {todo[0]} + Elements(todo[1..]);
  }

  lemma StepKeepsConn(s: State, step: Step)
    requires Inv(s) && Enabled(s, step)
    ensures var conn := Do(s, step).conns[step.conn]; ReleaseOnTrack(conn) && Tidy(conn)
  {
    if step.Up? {
      UpKeepsConn(s, step.conn, step.ok);
    }
  }

  lemma StepKeepsCount(s: State, step: Step)
    requires Inv(s) && Enabled(s, step)
    ensures |Do(s, step).Active()| <= MAX_CONNS
  {
    var t, c := Do(s, step), step.conn;
    if step.Open? {
      assert t.Active() == s.Active() + {c};
    } else {
      assert t.conns == s.conns[c := t.conns[c]] && c in s.Active();
      assert t.Active() == if t.conns[c].pc.Closed? then s.Active() - {c} else s.Active();
    }
  }

  lemma {:induction false} RunKeepsInv(steps: seq<Step>)
    ensures Inv(Run(steps))
  {
    if steps == [] {
    } else {
      RunKeepsInv(steps[..|steps| - 1]);
      StepKeepsInv(Run(steps[..|steps| - 1]), steps[|steps| - 1]);
    }
  }

  // ----- theorems over every interleaving -----

  /** Every key or button that is down is in some connection's table, or lies
      between one connection's successful press and its note. */
  lemma DownIsAccountedFor(steps: seq<Step>, i: Input)
    requires i in Run(steps).down
    ensures exists c | c in Run(steps).conns ::
              var conn := Run(steps).conns[c]; i in conn.held || conn.pc == Sent(i, true)
  {
    RunKeepsInv(steps);
    var s := Run(steps);
    var c := PressedBySomeone(s.log, i);
    assert TableIsHistory(s, c);
  }

  /** Once every connection has closed, only inputs whose own clean-up failed can
      still be down; with no failed clean-up nothing is. */
  lemma NothingLeftDown(steps: seq<Step>)
    requires forall c | c in Run(steps).conns :: Run(steps).conns[c].pc.Closed?
    ensures forall i | i in Run(steps).down :: exists c | c in Run(steps).conns :: i in Run(steps).conns[c].stuck
    ensures (forall c | c in Run(steps).conns :: Run(steps).conns[c].stuck == {}) ==> Run(steps).down == {}
  {
    RunKeepsInv(steps);
    var s := Run(steps);
    forall i | i in s.down ensures exists c | c in s.conns :: i in s.conns[c].stuck {
      DownIsAccountedFor(steps, i);
      var c :| c in s.conns && (i in s.conns[c].held || s.conns[c].pc == Sent(i, true));
      assert ReleaseOnTrack(s.conns[c]);
    }
  }

  /** Between requests, and after it has closed, a connection's table is exactly
      the set of inputs whose latest transition by that connection was a press;
      it never holds keycode 0 or a button outside 1 to 3. */
  lemma TableIsLatestPresses(steps: seq<Step>, c: nat)
    requires c in Run(steps).conns
    requires Run(steps).conns[c].pc.Idle? || Run(steps).conns[c].pc.Closed?
    ensures forall i :: i in Run(steps).conns[c].held <==> PressedBy(Run(steps).log, c, i)
    ensures forall i | i in Run(steps).conns[c].held :: if i.Key? then i.code != 0 else 1 <= i.code <= 3
  {
    RunKeepsInv(steps);
    assert TableIsHistory(Run(steps), c) && Tidy(Run(steps).conns[c]);
  }

  /** Event `n` is the latest one on `i`. */
  ghost predicate LatestOn(log: seq<Event>, n: nat, i: Input) {
    n < |log| && log[n].input == i && forall m | n < m < |log| :: log[m].input != i
  }

  lemma {:induction false} LatestDecides(log: seq<Event>, n: nat, i: Input)
    requires LatestOn(log, n, i)
    ensures Pressed(log, i) <==> log[n].press
    ensures PressedBy(log, log[n].conn, i) <==> log[n].press
  {
    var k := |log| - 1;
    if n == k {
    } else {
      assert log[..k][n] == log[n];
      LatestDecides(log[..k], n, i);
    }
  }

  lemma {:induction false} LatestExists(log: seq<Event>, c: nat, i: Input) returns (n: nat)
    requires PressedBy(log, c, i)
    ensures LatestOn(log, n, i)
  {
    var k := |log| - 1;
    if log[k].input == i {
      n := k;
    } else {
      n := LatestExists(log[..k], c, i);
      assert log[..k][n] == log[n];
    }
  }

  /** The converse of DownIsAccountedFor fails, and exactly through another
      connection: an input that an idle connection holds is up if and only if the
      latest event on it was somebody else's release. */
  lemma HeldIsUpIffLiftedByAnother(steps: seq<Step>, c: nat, i: Input)
    requires Run(steps).At(c, Idle) && i in Run(steps).conns[c].held
    ensures i !in Run(steps).down
       <==> exists n: nat :: LatestOn(Run(steps).log, n, i) && !Run(steps).log[n].press && Run(steps).log[n].conn != c
  {
    RunKeepsInv(steps);
    var log := Run(steps).log;
    assert TableIsHistory(Run(steps), c);
    var n := LatestExists(log, c, i);
    LatestDecides(log, n, i);
    forall m: nat | LatestOn(log, m, i) ensures m == n {
    }
  }

  /** So an input that no other connection has touched is held if and only if it
      is down. */
  lemma UnsharedIsHeldIffDown(steps: seq<Step>, c: nat, i: Input)
    requires Run(steps).At(c, Idle)
    requires forall n | 0 <= n < |Run(steps).log| && Run(steps).log[n].input == i :: Run(steps).log[n].conn == c
    ensures i in Run(steps).conns[c].held <==> i in Run(steps).down
  {
    RunKeepsInv(steps);
    var log := Run(steps).log;
    assert TableIsHistory(Run(steps), c);
    if Pressed(log, i) {
      var d := PressedBySomeone(log, i);
      var n := LatestExists(log, d, i);
      LatestDecides(log, n, i);
    }
    if i in Run(steps).conns[c].held {
      HeldIsUpIffLiftedByAnother(steps, c, i);
    }
  }

  /** At most ten connections are served at a time. */
  lemma AtMostTenConnections(steps: seq<Step>)
    ensures |Run(steps).Active()| <= 10
  {
    RunKeepsInv(steps);
  }
}
