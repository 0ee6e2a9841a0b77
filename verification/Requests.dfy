/** Decoding of destination requests, from the member list of one JSON object.

    The lexer is not modelled: a line that is blank, too long, not one JSON
    object or followed by anything else arrives as `Malformed`. */
module Requests {
  import opened Words
  import opened Generations
  import Fnv

  /** A JSON value. `Other` is an array, an object, or a number that is not an
      integer literal; no field takes one. The literal -0 is the integer 0 for the
      signed fields and arrives as `Other` for the unsigned ones, which refuse it. */
  datatype Json = Null | Bool(b: bool) | Integer(n: int) | Str(s: string) | Other

  type Member = (string, Json)

  datatype Document = Malformed | Object(members: seq<Member>)

  datatype Code = Submitted | NotSubmitted | InvalidRequest | Conflict | BackendUnavailable

  datatype Request =
    | Move(x: int, y: int)
    | PressKey(name: string, press: bool)
    | PressButton(button: nat, press: bool)
    | InspectAll
    | Activate(window: WindowRef)
    | Fullscreen(window: WindowRef, add: bool)
    | ReleaseHeld

  datatype Decoded = Ok(request: Request) | Rejected(code: Code)

  const KNOWN: set<string> :=
    {"op", "x", "y", "name", "press", "button", "displayGen", "observeGen", "xid", "expectedClass", "expectedPID", "add"}

  // ----- the wire structure -----

  /** The fields set by an object: what was null or absent is not in the map. */
  type Wire = map<string, Json>

  /** Whether a field of this name takes the value; null is always taken. */
  predicate Typed(key: string, v: Json) {
    v.Null? ||
    if key in {"x", "y"} then v.Integer? && -0x8000_0000_0000_0000 <= v.n < 0x8000_0000_0000_0000
    else if key in {"button", "displayGen", "observeGen"} then v.Integer? && 0 <= v.n < TWO64
    else if key in {"xid", "expectedPID"} then v.Integer? && 0 <= v.n < 0x1_0000_0000
    else if key in {"press", "add"} then v.Bool?
    else v.Str?
  }

  predicate AllTyped(members: seq<Member>) {
    forall i | 0 <= i < |members| :: Typed(members[i].0, members[i].1)
  }

  /** The decoder fills the structure member by member and stops at a bad type. */
  function Fill(members: seq<Member>): Option<Wire> {
    if members == [] then Some(map[])
    else
      var (key, v) := members[|members| - 1];
      var w := Fill(members[..|members| - 1]);
      if w.None? || !Typed(key, v) then None
      else if v.Null? then w
      else Some(w.value[key := v])
  }

  function Text(w: Wire, key: string): string {
    if key in w && w[key].Str? then w[key].s else ""
  }

  function Number(w: Wire, key: string): int {
    if key in w && w[key].Integer? then w[key].n else 0
  }

  function Flag(w: Wire, key: string): bool {
    key in w && w[key].Bool? && w[key].b
  }

  // ----- scanning the keys -----

  predicate Distinct(members: seq<Member>) {
    forall i, j | 0 <= i < j < |members| :: members[i].0 != members[j].0
  }

  function Keys(members: seq<Member>): set<string> {
    set i | 0 <= i < |members| :: members[i].0
  }

  /** Refuses unknown names and duplicates, and collects the names seen. */
  method ScanTopLevel(members: seq<Member>) returns (bad: bool, seen: set<string>)
    ensures bad <==> !(Distinct(members) && Keys(members) <= KNOWN)
    ensures !bad ==> seen == Keys(members)
  {
    bad, seen := false, {};
    for i := 0 to |members|
      invariant Distinct(members[..i]) && seen == Keys(members[..i]) && seen <= KNOWN
    {
      var key := members[i].0;
      assert Keys(members[..i + 1]) == Keys(members[..i]) + {key};
      if key !in KNOWN {
        assert key in Keys(members);
        return true, seen;
      }
      if key in seen {
        var j :| 0 <= j < i && members[j].0 == key;
        return true, seen;
      }
      forall a, b | 0 <= a < b < i + 1 ensures members[a].0 != members[b].0 {
        if b < i {
          assert members[..i][a].0 != members[..i][b].0;
        } else {
          assert members[..i][a].0 in seen;
        }
      }
      seen := seen + {key};
    }
    assert members[..|members|] == members;
  }

  /** Whether a name outside the allowed ones was seen. */
  method ExtraSeen(seen: set<string>, allowed: seq<string>) returns (extra: bool)
    ensures extra <==> !(seen <= set k | k in allowed)
  {
    var allow: set<string> := {};
    for i := 0 to |allowed|
      invariant allow == set k | k in allowed[..i]
    {
      allow := allow + {allowed[i]};
    }
    assert allowed[..|allowed|] == allowed;
    var rest := seen;
    extra := false;
    while rest != {}
      invariant rest <= seen && seen - rest <= allow
      decreases |rest|
    {
      var k :| k in rest;
      if k !in allow { return true; }
      rest := rest - {k};
    }
  }

  // ----- decoding -----

  const REF_KEYS: set<string> := {"displayGen", "observeGen", "xid", "expectedClass", "expectedPID"}

  predicate HasRef(w: Wire) {
    "displayGen" in w && "observeGen" in w && "xid" in w && Number(w, "xid") != 0
  }

  function RefOf(w: Wire): WindowRef
    requires WireTyped(w)
  {
    WindowRef(Number(w, "displayGen"), Number(w, "observeGen"), Number(w, "xid"), Text(w, "expectedClass"), Number(w, "expectedPID"))
  }

  predicate WireTyped(w: Wire) {
    forall key | key in w :: Typed(key, w[key]) && !w[key].Null?
  }

  lemma {:induction false} FillIsTyped(members: seq<Member>)
    ensures Fill(members).Some? ==> WireTyped(Fill(members).value)
  {
    if members == [] {
    } else {
      FillIsTyped(members[..|members| - 1]);
    }
  }

  function Decode(doc: Document): Decoded {
    if doc.Malformed? || !Distinct(doc.members) || !(Keys(doc.members) <= KNOWN) then Rejected(InvalidRequest)
    else
      var wire := Fill(doc.members);
      if wire.None? then Rejected(InvalidRequest)
      else
        FillIsTyped(doc.members);
        DecodeWire(Keys(doc.members), wire.value)
  }

  function DecodeWire(seen: set<string>, w: Wire): Decoded
    requires WireTyped(w)
  {
    var op := Text(w, "op");
    if op == "move" then
      if !(seen <= {"op", "x", "y"}) || "x" !in w || "y" !in w then Rejected(InvalidRequest)
      else Ok(Move(Number(w, "x"), Number(w, "y")))
    else if op == "key" then
      if !(seen <= {"op", "name", "press"}) || Text(w, "name") == "" || "press" !in w || '\0' in Text(w, "name")
      then Rejected(InvalidRequest)
      else Ok(PressKey(Text(w, "name"), Flag(w, "press")))
    else if op == "button" then
      if !(seen <= {"op", "button", "press"}) || "button" !in w || "press" !in w || !(1 <= Number(w, "button") <= 3)
      then Rejected(InvalidRequest)
      else Ok(PressButton(Number(w, "button"), Flag(w, "press")))
    else if op == "inspect" then
      if !(seen <= {"op"}) then Rejected(InvalidRequest) else Ok(InspectAll)
    else if op == "activate" then
      if !HasRef(w) || !(seen <= {"op"} + REF_KEYS) then Rejected(InvalidRequest) else Ok(Activate(RefOf(w)))
    else if op == "fullscreen" then
      if !HasRef(w) || "add" !in w || !(seen <= {"op", "add"} + REF_KEYS) then Rejected(InvalidRequest)
      else Ok(Fullscreen(RefOf(w), Flag(w, "add")))
    else if op == "release" then
      if !(seen <= {"op"}) then Rejected(InvalidRequest) else Ok(ReleaseHeld)
    else Rejected(NotSubmitted)
  }

  // ----- what the structure holds -----

  predicate Holds(w: Wire, key: string, v: Json) {
    key in w && w[key] == v
  }

  /** With distinct names, filling succeeds exactly when every value has the type
      of its field, and leaves exactly the members that are not null. */
  lemma {:induction false} FillHoldsMembers(members: seq<Member>)
    requires Distinct(members)
    ensures Fill(members).Some? <==> AllTyped(members)
    ensures Fill(members).Some? ==> forall key, v :: Holds(Fill(members).value, key, v) <==> (key, v) in members && !v.Null?
  {
    if members == [] {
    } else {
      var n := |members| - 1;
      var init, last := members[..n], members[n];
      FillHoldsMembers(init);
      assert members == init + [last];
      assert AllTyped(members) <==> AllTyped(init) && Typed(last.0, last.1);
      if Fill(members).Some? {
        forall key, v ensures Holds(Fill(members).value, key, v) <==> (key, v) in members && !v.Null? {
          assert Holds(Fill(init).value, key, v) <==> (key, v) in init && !v.Null?;
        }
      }
    }
  }

  lemma WireByMembers(ms: seq<Member>, ns: seq<Member>)
    requires Distinct(ms) && Distinct(ns)
    requires forall m :: m in ms <==> m in ns
    ensures Fill(ms) == Fill(ns)
  {
    FillHoldsMembers(ms);
    FillHoldsMembers(ns);
    assert AllTyped(ms) == AllTyped(ns) by {
      forall i | 0 <= i < |ns| && AllTyped(ms) ensures Typed(ns[i].0, ns[i].1) {
        assert ns[i] in ms;
      }
      forall i | 0 <= i < |ms| && AllTyped(ns) ensures Typed(ms[i].0, ms[i].1) {
        assert ms[i] in ns;
      }
    }
    if AllTyped(ms) {
      var v, w := Fill(ms).value, Fill(ns).value;
      forall key | key in v ensures key in w && w[key] == v[key] {
        assert Holds(v, key, v[key]);
        assert Holds(w, key, v[key]);
      }
      forall key | key in w ensures key in v {
        assert Holds(w, key, w[key]);
        assert Holds(v, key, w[key]);
      }
      assert v == w;
    }
  }

  // ----- acceptance, exactly -----

  const OPS: set<string> := {"move", "key", "button", "inspect", "activate", "fullscreen", "release"}

  function AllowedKeys(op: string): set<string> {
    if op == "move" then {"op", "x", "y"}
    else if op == "key" then {"op", "name", "press"}
    else if op == "button" then {"op", "button", "press"}
    else if op == "activate" then {"op"} + REF_KEYS
    else if op == "fullscreen" then {"op", "add"} + REF_KEYS
    else {"op"}
  }

  /** The allowed names that must come with a value; class and pid may be left out. */
  function RequiredKeys(op: string): set<string> {
    AllowedKeys(op) - {"expectedClass", "expectedPID"}
  }

  predicate InRange(key: string, v: Json) {
    if key == "name" then v.Str? && v.s != "" && '\0' !in v.s
    else if key == "button" then v.Integer? && 1 <= v.n <= 3
    else if key == "xid" then v.Integer? && v.n != 0
    else true
  }

  ghost predicate Supplies(members: seq<Member>, key: string) {
    exists v :: (key, v) in members && !v.Null? && InRange(key, v)
  }

  ghost predicate IsRequest(members: seq<Member>, op: string) {
    && Distinct(members) && AllTyped(members)
    && op in OPS && ("op", Str(op)) in members
    && Keys(members) <= AllowedKeys(op)
    && forall key | key in RequiredKeys(op) :: Supplies(members, key)
  }

  lemma SuppliesIsHeld(members: seq<Member>, w: Wire, key: string)
    requires Distinct(members) && Fill(members) == Some(w)
    ensures Supplies(members, key) <==> key in w && InRange(key, w[key])
    ensures key in w ==> (key, w[key]) in members
  {
    FillHoldsMembers(members);
    if key in w {
      assert Holds(w, key, w[key]);
    }
    if Supplies(members, key) {
      var v :| (key, v) in members && !v.Null? && InRange(key, v);
      assert Holds(w, key, v);
    }
  }

  lemma OpIsHeld(members: seq<Member>, w: Wire, op: string)
    requires Distinct(members) && Fill(members) == Some(w) && op in OPS
    ensures ("op", Str(op)) in members <==> Text(w, "op") == op
  {
    FillHoldsMembers(members);
    FillIsTyped(members);
    if ("op", Str(op)) in members {
      assert Holds(w, "op", Str(op));
    }
    if Text(w, "op") == op {
      assert Holds(w, "op", Str(op));
    }
  }

  lemma AllSupplied(members: seq<Member>, w: Wire, keys: set<string>)
    requires Distinct(members) && Fill(members) == Some(w)
    ensures (forall key | key in keys :: Supplies(members, key)) <==> (forall key | key in keys :: key in w && InRange(key, w[key]))
  {
    forall key | key in keys ensures Supplies(members, key) <==> key in w && InRange(key, w[key]) {
      SuppliesIsHeld(members, w, key);
    }
  }

  /** For one operation: what the case analysis on the structure tests is that
      only allowed names were seen and every required one is there and in range. */
  lemma CaseTestsKeys(seen: set<string>, w: Wire)
    requires WireTyped(w) && Text(w, "op") in OPS
    ensures DecodeWire(seen, w).Ok? || DecodeWire(seen, w) == Rejected(InvalidRequest)
    ensures DecodeWire(seen, w).Ok?
       <==> seen <= AllowedKeys(Text(w, "op")) && forall key | key in RequiredKeys(Text(w, "op")) :: key in w && InRange(key, w[key])
  {
    var op := Text(w, "op");
    assert "op" in w && InRange("op", w["op"]);
    if forall key | key in RequiredKeys(op) :: key in w && InRange(key, w[key]) {
      if op in {"activate", "fullscreen"} {
        assert "displayGen" in RequiredKeys(op) && "observeGen" in RequiredKeys(op) && "xid" in RequiredKeys(op);
      }
      assert op == "fullscreen" ==> "add" in RequiredKeys(op);
      assert op == "move" ==> "x" in RequiredKeys(op) && "y" in RequiredKeys(op);
      assert op == "key" ==> "name" in RequiredKeys(op) && "press" in RequiredKeys(op);
      assert op == "button" ==> "button" in RequiredKeys(op) && "press" in RequiredKeys(op);
    }
  }

  /** A member list is accepted if and only if its names are distinct, its values
      have the types of their fields, it names an operation, it has no name that
      the operation does not allow, and it supplies every required one in range. */
  lemma AcceptedIffRequest(members: seq<Member>)
    ensures Decode(Object(members)).Ok? <==> exists op :: IsRequest(members, op)
  {
    if Distinct(members) && Keys(members) <= KNOWN && AllTyped(members) {
      FillHoldsMembers(members);
      FillIsTyped(members);
      var w := Fill(members).value;
      var op := Text(w, "op");
      if op in OPS {
        OpIsHeld(members, w, op);
        AllSupplied(members, w, RequiredKeys(op));
        CaseTestsKeys(Keys(members), w);
        assert Decode(Object(members)).Ok? <==> IsRequest(members, op);
      }
      forall p | IsRequest(members, p) ensures p == op {
        OpIsHeld(members, w, p);
      }
    } else {
      if Distinct(members) {
        FillHoldsMembers(members);
      }
    }
  }

  // ----- decoding, member by member -----

  /** Whether a member may occur at all, by the kind of its value: null under any
      known name, and otherwise the kind and range that the name stands for. */
  predicate WellTyped(m: Member) {
    match m.1
    case Null =>
      m.0 in {"op", "x", "y", "name", "press", "button", "displayGen", "observeGen", "xid", "expectedClass", "expectedPID", "add"}
    case Bool(_) => m.0 == "press" || m.0 == "add"
    case Str(_) => m.0 == "op" || m.0 == "name" || m.0 == "expectedClass"
    case Integer(n) =>
      || (m.0 in {"x", "y"} && -0x8000_0000_0000_0000 <= n <= 0x7fff_ffff_ffff_ffff)
      || (m.0 in {"button", "displayGen", "observeGen"} && 0 <= n <= 0xffff_ffff_ffff_ffff)
      || (m.0 in {"xid", "expectedPID"} && 0 <= n <= 0xffff_ffff)
    case Other => false
  }

  lemma KnownAndTyped(m: Member)
    ensures m.0 in KNOWN && Typed(m.0, m.1) <==> WellTyped(m)
  {
  }

  lemma AllWellTyped(members: seq<Member>)
    ensures Keys(members) <= KNOWN && AllTyped(members) <==> forall i | 0 <= i < |members| :: WellTyped(members[i])
  {
    forall i | 0 <= i < |members| ensures members[i].0 in KNOWN && Typed(members[i].0, members[i].1) <==> WellTyped(members[i]) {
      KnownAndTyped(members[i]);
    }
    if Keys(members) <= KNOWN {
      assert forall i | 0 <= i < |members| :: members[i].0 in Keys(members);
    }
  }

  /** NotSubmitted means exactly: an object of distinct, well-typed members that
      names none of the operations. */
  lemma NotSubmittedIffNoOperation(members: seq<Member>)
    ensures Decode(Object(members)) == Rejected(NotSubmitted)
       <==> && Distinct(members) && (forall i | 0 <= i < |members| :: WellTyped(members[i]))
            && forall op | op in {"move", "key", "button", "inspect", "activate", "fullscreen", "release"} :: ("op", Str(op)) !in members
  {
    AllWellTyped(members);
    if Distinct(members) && Keys(members) <= KNOWN {
      FillHoldsMembers(members);
      if AllTyped(members) {
        FillIsTyped(members);
        var w := Fill(members).value;
        forall op | op in OPS ensures ("op", Str(op)) in members <==> Text(w, "op") == op {
          OpIsHeld(members, w, op);
        }
        if Text(w, "op") in OPS {
          CaseTestsKeys(Keys(members), w);
        }
      }
    }
  }

  /** Every other rejection is InvalidRequest: among them all lines that are not one
      object, and all objects with a repeated name or a member that is not well
      typed, be its name unknown or its value of the wrong kind. */
  lemma RejectedAsInvalid(doc: Document)
    ensures Decode(doc).Rejected? ==> Decode(doc).code in {InvalidRequest, NotSubmitted}
    ensures doc.Malformed? || !Distinct(doc.members) || (exists i :: 0 <= i < |doc.members| && !WellTyped(doc.members[i]))
            ==> Decode(doc) == Rejected(InvalidRequest)
  {
    if doc.Object? {
      AllWellTyped(doc.members);
      if Distinct(doc.members) {
        FillHoldsMembers(doc.members);
      }
    }
  }

  /** The name does not occur, or with null only. */
  predicate Absent(members: seq<Member>, key: string) {
    forall i | 0 <= i < |members| :: members[i].0 == key ==> members[i].1.Null?
  }

  predicate OnlyNames(members: seq<Member>, names: set<string>) {
    forall i | 0 <= i < |members| :: members[i].0 in names
  }

  /** The members are those of the reference; an expected class or pid that is left
      out or null is "" or 0, which means that none is expected. */
  predicate DescribesRef(members: seq<Member>, r: WindowRef) {
    && ("displayGen", Integer(r.displayGen)) in members && r.displayGen <= 0xffff_ffff_ffff_ffff
    && ("observeGen", Integer(r.observeGen)) in members && r.observeGen <= 0xffff_ffff_ffff_ffff
    && ("xid", Integer(r.xid)) in members && r.xid != 0
    && (("expectedClass", Str(r.expectedClass)) in members || (Absent(members, "expectedClass") && r.expectedClass == ""))
    && (("expectedPID", Integer(r.expectedPid)) in members || (Absent(members, "expectedPID") && r.expectedPid == 0))
  }

  predicate Describes(members: seq<Member>, r: Request) {
    match r
    case Move(x, y) =>
      && OnlyNames(members, {"op", "x", "y"}) && ("op", Str("move")) in members
      && ("x", Integer(x)) in members && -0x8000_0000_0000_0000 <= x <= 0x7fff_ffff_ffff_ffff
      && ("y", Integer(y)) in members && -0x8000_0000_0000_0000 <= y <= 0x7fff_ffff_ffff_ffff
    case PressKey(name, press) =>
      && OnlyNames(members, {"op", "name", "press"}) && ("op", Str("key")) in members
      && ("name", Str(name)) in members && name != "" && '\0' !in name && ("press", Bool(press)) in members
    case PressButton(button, press) =>
      && OnlyNames(members, {"op", "button", "press"}) && ("op", Str("button")) in members
      && ("button", Integer(button)) in members && 1 <= button <= 3 && ("press", Bool(press)) in members
    case InspectAll => OnlyNames(members, {"op"}) && ("op", Str("inspect")) in members
    case Activate(w) =>
      && OnlyNames(members, {"op", "displayGen", "observeGen", "xid", "expectedClass", "expectedPID"})
      && ("op", Str("activate")) in members && DescribesRef(members, w)
    case Fullscreen(w, add) =>
      && OnlyNames(members, {"op", "displayGen", "observeGen", "xid", "expectedClass", "expectedPID", "add"})
      && ("op", Str("fullscreen")) in members && ("add", Bool(add)) in members && DescribesRef(members, w)
    case ReleaseHeld => OnlyNames(members, {"op"}) && ("op", Str("release")) in members
  }

  lemma HeldIsGiven(members: seq<Member>, w: Wire, key: string)
    requires Distinct(members) && Fill(members) == Some(w)
    ensures key in w ==> (key, w[key]) in members && Typed(key, w[key]) && !w[key].Null?
    ensures key !in w <==> Absent(members, key)
  {
    FillHoldsMembers(members);
    FillIsTyped(members);
    if key in w {
      assert Holds(w, key, w[key]);
      var i :| 0 <= i < |members| && members[i] == (key, w[key]);
    } else {
      forall i | 0 <= i < |members| && members[i].0 == key ensures members[i].1.Null? {
        assert !Holds(w, key, members[i].1) && (key, members[i].1) in members;
      }
    }
  }

  lemma GivenIsHeld(members: seq<Member>, w: Wire, key: string, v: Json)
    requires Distinct(members) && Fill(members) == Some(w) && (key, v) in members && !v.Null?
    ensures key in w && w[key] == v
  {
    FillHoldsMembers(members);
    assert Holds(w, key, v);
  }

  lemma NamesSeen(members: seq<Member>, names: set<string>)
    ensures OnlyNames(members, names) <==> Keys(members) <= names
  {
    if Keys(members) <= names {
      assert forall i | 0 <= i < |members| :: members[i].0 in Keys(members);
    }
  }

  lemma RefIsDescribed(members: seq<Member>, w: Wire)
    requires Distinct(members) && Fill(members) == Some(w) && WireTyped(w) && HasRef(w)
    ensures DescribesRef(members, RefOf(w))
  {
    HeldIsGiven(members, w, "displayGen");
    HeldIsGiven(members, w, "observeGen");
    HeldIsGiven(members, w, "xid");
    HeldIsGiven(members, w, "expectedClass");
    HeldIsGiven(members, w, "expectedPID");
  }

  lemma DecodeIsWire(members: seq<Member>, w: Wire)
    requires Distinct(members) && Keys(members) <= KNOWN && Fill(members) == Some(w)
    ensures WireTyped(w) && Decode(Object(members)) == DecodeWire(Keys(members), w)
  {
    FillIsTyped(members);
  }

  /** What is decoded is what the members say. */
  lemma DecodedIsDescribed(members: seq<Member>)
    requires Decode(Object(members)).Ok?
    ensures Distinct(members) && Describes(members, Decode(Object(members)).request)
  {
    var w, r := Fill(members).value, Decode(Object(members)).request;
    DecodeIsWire(members, w);
    if r.Activate? || r.Fullscreen? {
      WindowFromWire(Keys(members), w, r);
      WindowIsDescribed(members, w, r);
    } else {
      InputIsDescribed(members, w, r);
    }
  }

  lemma InputIsDescribed(members: seq<Member>, w: Wire, r: Request)
    requires Distinct(members) && Fill(members) == Some(w) && WireTyped(w)
    requires DecodeWire(Keys(members), w) == Ok(r) && !r.Activate? && !r.Fullscreen?
    ensures Describes(members, r)
  {
    match r
    case PressKey(_, _) => KeyIsDescribed(members, w, r);
    case PressButton(_, _) => ButtonIsDescribed(members, w, r);
    case Move(_, _) => MoveIsDescribed(members, w, r);
    case _ => PlainIsDescribed(members, w, r);
  }

  lemma WindowFromWire(seen: set<string>, w: Wire, r: Request)
    requires WireTyped(w) && DecodeWire(seen, w) == Ok(r) && (r.Activate? || r.Fullscreen?)
    ensures "op" in w && w["op"] == Str(if r.Activate? then "activate" else "fullscreen")
    ensures HasRef(w) && r.window == RefOf(w) && (r.Fullscreen? ==> "add" in w && w["add"] == Bool(r.add))
    ensures seen <= {"op", "displayGen", "observeGen", "xid", "expectedClass", "expectedPID", "add"}
    ensures r.Activate? ==> seen <= {"op", "displayGen", "observeGen", "xid", "expectedClass", "expectedPID"}
  {
    assert REF_KEYS == {"displayGen", "observeGen", "xid", "expectedClass", "expectedPID"};
  }

  lemma WindowIsDescribed(members: seq<Member>, w: Wire, r: Request)
    requires Distinct(members) && Fill(members) == Some(w) && WireTyped(w) && (r.Activate? || r.Fullscreen?)
    requires "op" in w && w["op"] == Str(if r.Activate? then "activate" else "fullscreen")
    requires HasRef(w) && r.window == RefOf(w) && (r.Fullscreen? ==> "add" in w && w["add"] == Bool(r.add))
    requires Keys(members) <= {"op", "displayGen", "observeGen", "xid", "expectedClass", "expectedPID", "add"}
    requires r.Activate? ==> Keys(members) <= {"op", "displayGen", "observeGen", "xid", "expectedClass", "expectedPID"}
    ensures Describes(members, r)
  {
    HeldIsGiven(members, w, "op");
    HeldIsGiven(members, w, "add");
    RefIsDescribed(members, w);
    NamesSeen(members, {"op", "displayGen", "observeGen", "xid", "expectedClass", "expectedPID"});
    NamesSeen(members, {"op", "displayGen", "observeGen", "xid", "expectedClass", "expectedPID", "add"});
  }

  lemma KeyIsDescribed(members: seq<Member>, w: Wire, r: Request)
    requires Distinct(members) && Fill(members) == Some(w) && WireTyped(w)
    requires DecodeWire(Keys(members), w) == Ok(r) && r.PressKey?
    ensures Describes(members, r)
  {
    HeldIsGiven(members, w, "op");
    HeldIsGiven(members, w, "name");
    HeldIsGiven(members, w, "press");
    NamesSeen(members, {"op", "name", "press"});
  }

  lemma ButtonIsDescribed(members: seq<Member>, w: Wire, r: Request)
    requires Distinct(members) && Fill(members) == Some(w) && WireTyped(w)
    requires DecodeWire(Keys(members), w) == Ok(r) && r.PressButton?
    ensures Describes(members, r)
  {
    HeldIsGiven(members, w, "op");
    HeldIsGiven(members, w, "button");
    HeldIsGiven(members, w, "press");
    NamesSeen(members, {"op", "button", "press"});
  }

  lemma PlainIsDescribed(members: seq<Member>, w: Wire, r: Request)
    requires Distinct(members) && Fill(members) == Some(w) && WireTyped(w)
    requires DecodeWire(Keys(members), w) == Ok(r) && (r.InspectAll? || r.ReleaseHeld?)
    ensures Describes(members, r)
  {
    HeldIsGiven(members, w, "op");
    NamesSeen(members, {"op"});
  }

  lemma MoveIsDescribed(members: seq<Member>, w: Wire, r: Request)
    requires Distinct(members) && Fill(members) == Some(w) && WireTyped(w)
    requires DecodeWire(Keys(members), w) == Ok(r) && r.Move?
    ensures Describes(members, r)
  {
    HeldIsGiven(members, w, "op");
    HeldIsGiven(members, w, "x");
    HeldIsGiven(members, w, "y");
    NamesSeen(members, {"op", "x", "y"});
  }

  predicate NameTyped(members: seq<Member>, key: string) {
    forall i | 0 <= i < |members| :: members[i].0 == key ==> Typed(key, members[i].1)
  }

  lemma GivenIsTyped(members: seq<Member>, key: string, v: Json)
    requires Distinct(members) && (key, v) in members && Typed(key, v)
    ensures NameTyped(members, key)
  {
    var j :| 0 <= j < |members| && members[j] == (key, v);
    forall i | 0 <= i < |members| && members[i].0 == key ensures Typed(key, members[i].1) {
      assert i == j;
    }
  }

  lemma RefIsTyped(members: seq<Member>, r: WindowRef)
    requires Distinct(members) && DescribesRef(members, r)
    ensures forall key | key in REF_KEYS :: NameTyped(members, key)
  {
    GivenIsTyped(members, "displayGen", Integer(r.displayGen));
    GivenIsTyped(members, "observeGen", Integer(r.observeGen));
    GivenIsTyped(members, "xid", Integer(r.xid));
    if !Absent(members, "expectedClass") {
      GivenIsTyped(members, "expectedClass", Str(r.expectedClass));
    }
    if !Absent(members, "expectedPID") {
      GivenIsTyped(members, "expectedPID", Integer(r.expectedPid));
    }
  }

  lemma TypedByNames(members: seq<Member>, names: set<string>)
    requires OnlyNames(members, names) && forall key | key in names :: NameTyped(members, key)
    ensures AllTyped(members) && Keys(members) <= names
  {
    forall i | 0 <= i < |members| ensures Typed(members[i].0, members[i].1) {
      assert NameTyped(members, members[i].0);
    }
  }

  lemma DescribedIsTyped(members: seq<Member>, r: Request)
    requires Distinct(members) && Describes(members, r)
    ensures AllTyped(members)
  {
    match r
    case Move(x, y) =>
      GivenIsTyped(members, "op", Str("move"));
      GivenIsTyped(members, "x", Integer(x));
      GivenIsTyped(members, "y", Integer(y));
      TypedByNames(members, {"op", "x", "y"});
    case PressKey(name, press) =>
      GivenIsTyped(members, "op", Str("key"));
      GivenIsTyped(members, "name", Str(name));
      GivenIsTyped(members, "press", Bool(press));
      TypedByNames(members, {"op", "name", "press"});
    case PressButton(button, press) =>
      GivenIsTyped(members, "op", Str("button"));
      GivenIsTyped(members, "button", Integer(button));
      GivenIsTyped(members, "press", Bool(press));
      TypedByNames(members, {"op", "button", "press"});
    case InspectAll =>
      GivenIsTyped(members, "op", Str("inspect"));
      TypedByNames(members, {"op"});
    case Activate(w) =>
      GivenIsTyped(members, "op", Str("activate"));
      RefIsTyped(members, w);
      TypedByNames(members, {"op"} + REF_KEYS);
    case Fullscreen(w, add) =>
      GivenIsTyped(members, "op", Str("fullscreen"));
      GivenIsTyped(members, "add", Bool(add));
      RefIsTyped(members, w);
      TypedByNames(members, {"op", "add"} + REF_KEYS);
    case ReleaseHeld =>
      GivenIsTyped(members, "op", Str("release"));
      TypedByNames(members, {"op"});
  }

  lemma DescribedRefIsRead(members: seq<Member>, w: Wire, r: WindowRef)
    requires Distinct(members) && Fill(members) == Some(w) && WireTyped(w) && DescribesRef(members, r)
    ensures HasRef(w) && RefOf(w) == r
  {
    GivenIsHeld(members, w, "displayGen", Integer(r.displayGen));
    GivenIsHeld(members, w, "observeGen", Integer(r.observeGen));
    GivenIsHeld(members, w, "xid", Integer(r.xid));
    if ("expectedClass", Str(r.expectedClass)) in members {
      GivenIsHeld(members, w, "expectedClass", Str(r.expectedClass));
    } else {
      HeldIsGiven(members, w, "expectedClass");
    }
    if ("expectedPID", Integer(r.expectedPid)) in members {
      GivenIsHeld(members, w, "expectedPID", Integer(r.expectedPid));
    } else {
      HeldIsGiven(members, w, "expectedPID");
    }
  }

  lemma DescribedWindowIsRead(members: seq<Member>, w: Wire, r: Request)
    requires Distinct(members) && Fill(members) == Some(w) && WireTyped(w)
    requires Describes(members, r) && (r.Activate? || r.Fullscreen?)
    ensures Keys(members) <= KNOWN && DecodeWire(Keys(members), w) == Ok(r)
  {
    DescribedRefIsRead(members, w, r.window);
    if r.Activate? {
      NamesSeen(members, {"op"} + REF_KEYS);
      GivenIsHeld(members, w, "op", Str("activate"));
    } else {
      NamesSeen(members, {"op", "add"} + REF_KEYS);
      GivenIsHeld(members, w, "op", Str("fullscreen"));
      GivenIsHeld(members, w, "add", Bool(r.add));
    }
  }

  lemma DescribedInputIsRead(members: seq<Member>, w: Wire, r: Request)
    requires Distinct(members) && Fill(members) == Some(w) && WireTyped(w)
    requires Describes(members, r) && (r.PressKey? || r.PressButton?)
    ensures Keys(members) <= KNOWN && DecodeWire(Keys(members), w) == Ok(r)
  {
    GivenIsHeld(members, w, "press", Bool(r.press));
    if r.PressKey? {
      NamesSeen(members, {"op", "name", "press"});
      GivenIsHeld(members, w, "op", Str("key"));
      GivenIsHeld(members, w, "name", Str(r.name));
    } else {
      NamesSeen(members, {"op", "button", "press"});
      GivenIsHeld(members, w, "op", Str("button"));
      GivenIsHeld(members, w, "button", Integer(r.button));
    }
  }

  lemma DescribedPlainIsRead(members: seq<Member>, w: Wire, r: Request)
    requires Distinct(members) && Fill(members) == Some(w) && WireTyped(w)
    requires Describes(members, r) && (r.Move? || r.InspectAll? || r.ReleaseHeld?)
    ensures Keys(members) <= KNOWN && DecodeWire(Keys(members), w) == Ok(r)
  {
    if r.Move? {
      NamesSeen(members, {"op", "x", "y"});
      GivenIsHeld(members, w, "op", Str("move"));
      GivenIsHeld(members, w, "x", Integer(r.x));
      GivenIsHeld(members, w, "y", Integer(r.y));
    } else {
      NamesSeen(members, {"op"});
      GivenIsHeld(members, w, "op", Str(if r.InspectAll? then "inspect" else "release"));
    }
  }

  /** What the members say is decoded. */
  lemma DescribedIsDecoded(members: seq<Member>, r: Request)
    requires Distinct(members) && Describes(members, r)
    ensures Decode(Object(members)) == Ok(r)
  {
    DescribedIsTyped(members, r);
    FillHoldsMembers(members);
    FillIsTyped(members);
    var w := Fill(members).value;
    if r.Activate? || r.Fullscreen? {
      DescribedWindowIsRead(members, w, r);
    } else if r.PressKey? || r.PressButton? {
      DescribedInputIsRead(members, w, r);
    } else {
      DescribedPlainIsRead(members, w, r);
    }
    DecodeIsWire(members, w);
  }

  /** Decoding is exactly reading the members: the result is the request `r` if and
      only if the names are distinct and the members are those of `r`, each field
      being the value given for its name. */
  lemma DecodedIff(members: seq<Member>, r: Request)
    ensures Decode(Object(members)) == Ok(r) <==> Distinct(members) && Describes(members, r)
  {
    if Decode(Object(members)) == Ok(r) {
      DecodedIsDescribed(members);
    }
    if Distinct(members) && Describes(members, r) {
      DescribedIsDecoded(members, r);
    }
  }

  // ----- order does not matter -----

  lemma {:induction false} TwoIndices<T>(s: seq<T>, x: T) returns (i: nat, j: nat)
    requires multiset(s)[x] >= 2
    ensures i < j < |s| && s[i] == s[j] == x
  {
    var n := |s| - 1;
    assert s == s[..n] + [s[n]];
    if s[n] == x {
      assert x in multiset(s[..n]);
      i :| 0 <= i < n && s[i] == x;
      j := n;
    } else {
      i, j := TwoIndices(s[..n], x);
    }
  }

  lemma Twice<T>(s: seq<T>, i: nat, j: nat)
    requires i < j < |s| && s[i] == s[j]
    ensures multiset(s)[s[i]] >= 2
  {
    assert s == s[..i] + [s[i]] + s[i + 1..j] + [s[j]] + s[j + 1..];
  }

  lemma DistinctUnderPermutation(ms: seq<Member>, ns: seq<Member>)
    requires multiset(ms) == multiset(ns) && Distinct(ms)
    ensures Distinct(ns)
  {
    forall i, j | 0 <= i < j < |ns| ensures ns[i].0 != ns[j].0 {
      assert ns[i] in multiset(ms) && ns[j] in multiset(ms);
      var k :| 0 <= k < |ms| && ms[k] == ns[i];
      var l :| 0 <= l < |ms| && ms[l] == ns[j];
      if ns[i] == ns[j] {
        Twice(ns, i, j);
        var _, _ := TwoIndices(ms, ns[i]);
      }
    }
  }

  lemma SameMembers(ms: seq<Member>, ns: seq<Member>)
    requires multiset(ms) == multiset(ns)
    ensures forall m :: m in ms <==> m in ns
    ensures Keys(ms) == Keys(ns)
  {
    forall m ensures m in ms <==> m in ns {
      assert m in multiset(ms) <==> m in multiset(ns);
    }
    forall i | 0 <= i < |ms| ensures ms[i].0 in Keys(ns) {
      assert ms[i] in ns;
    }
    forall i | 0 <= i < |ns| ensures ns[i].0 in Keys(ms) {
      assert ns[i] in ms;
    }
  }

  /** Any reordering of the members decodes to the same request or rejection. */
  lemma DecodeIgnoresOrder(ms: seq<Member>, ns: seq<Member>)
    requires multiset(ms) == multiset(ns)
    ensures Decode(Object(ms)) == Decode(Object(ns))
  {
    SameMembers(ms, ns);
    if Distinct(ms) {
      DistinctUnderPermutation(ms, ns);
      WireByMembers(ms, ns);
    } else if Distinct(ns) {
      DistinctUnderPermutation(ns, ms);
    }
  }

  // ----- round trip -----

  predicate ValidRef(r: WindowRef) {
    r.displayGen < TWO64 && r.observeGen < TWO64 && r.xid != 0
  }

  predicate ValidRequest(r: Request) {
    match r
    case Move(x, y) => Typed("x", Integer(x)) && Typed("y", Integer(y))
    case PressKey(name, _) => name != "" && '\0' !in name
    case PressButton(button, _) => 1 <= button <= 3
    case Activate(w) => ValidRef(w)
    case Fullscreen(w, _) => ValidRef(w)
    case _ => true
  }

  function RefMembers(r: WindowRef): seq<Member> {
    [("displayGen", Integer(r.displayGen)), ("observeGen", Integer(r.observeGen)), ("xid", Integer(r.xid)),
     ("expectedClass", Str(r.expectedClass)), ("expectedPID", Integer(r.expectedPid))]
  }

  function ToMembers(r: Request): seq<Member> {
    match r
    case Move(x, y) => [("op", Str("move")), ("x", Integer(x)), ("y", Integer(y))]
    case PressKey(name, press) => [("op", Str("key")), ("name", Str(name)), ("press", Bool(press))]
    case PressButton(button, press) => [("op", Str("button")), ("button", Integer(button)), ("press", Bool(press))]
    case InspectAll => [("op", Str("inspect"))]
    case Activate(w) => [("op", Str("activate"))] + RefMembers(w)
    case Fullscreen(w, add) => [("op", Str("fullscreen")), ("add", Bool(add))] + RefMembers(w)
    case ReleaseHeld => [("op", Str("release"))]
  }

  /** The list describes its own request. */
  lemma EncodedIsDescribed(r: Request)
    requires ValidRequest(r)
    ensures Distinct(ToMembers(r)) && Describes(ToMembers(r), r)
  {
    match r
    case Activate(w) => ActivateShape(w);
    case Fullscreen(w, add) => FullscreenShape(w, add);
    case _ => SmallShape(r);
  }

  lemma ActivateShape(w: WindowRef)
    requires ValidRef(w)
    ensures Distinct(ToMembers(Activate(w))) && Describes(ToMembers(Activate(w)), Activate(w))
  {
    var op := ("op", Str("activate"));
    assert [op] + [] + RefMembers(w) == ToMembers(Activate(w));
    RefShape(op, [], w);
  }

  lemma FullscreenShape(w: WindowRef, add: bool)
    requires ValidRef(w)
    ensures Distinct(ToMembers(Fullscreen(w, add))) && Describes(ToMembers(Fullscreen(w, add)), Fullscreen(w, add))
  {
    var op, state := ("op", Str("fullscreen")), ("add", Bool(add));
    assert [op] + [state] + RefMembers(w) == ToMembers(Fullscreen(w, add));
    RefShape(op, [state], w);
  }

  lemma SmallShape(r: Request)
    requires ValidRequest(r) && !r.Activate? && !r.Fullscreen?
    ensures Distinct(ToMembers(r)) && Describes(ToMembers(r), r)
  {
    var ms := ToMembers(r);
    assert ms[0] in ms && (|ms| == 3 ==> ms[1] in ms && ms[2] in ms);
  }

  lemma RefShape(op: Member, add: seq<Member>, r: WindowRef)
    requires op.0 == "op" && ValidRef(r)
    requires add == [] || (|add| == 1 && add[0].0 == "add")
    ensures var ms := [op] + add + RefMembers(r);
            && Distinct(ms) && DescribesRef(ms, r) && op in ms && (add != [] ==> add[0] in ms)
            && OnlyNames(ms, {"op"} + (if add == [] then {} else {"add"}) + REF_KEYS)
  {
    var rs := RefMembers(r);
    var ms, n := [op] + add + rs, |add| + 1;
    assert Distinct(rs) && Distinct([op] + add);
    assert forall i | n <= i < |ms| :: ms[i] == rs[i - n] && rs[i - n].0 in REF_KEYS;
    assert forall i | 0 <= i < n :: ms[i] == ([op] + add)[i];
    forall i, j | 0 <= i < j < |ms| ensures ms[i].0 != ms[j].0 {
      if j < n {
        assert ([op] + add)[i].0 != ([op] + add)[j].0;
      } else if i >= n {
        assert rs[i - n].0 != rs[j - n].0;
      }
    }
    assert rs[0] in ms && rs[1] in ms && rs[2] in ms && rs[3] in ms && rs[4] in ms;
    assert ms[0] == op && (add != [] ==> ms[1] == add[0]);
  }

  /** Writing a valid request out, in any order, and decoding it gives it back. */
  lemma DecodeOfEncoded(r: Request, members: seq<Member>)
    requires ValidRequest(r) && multiset(members) == multiset(ToMembers(r))
    ensures Decode(Object(members)) == Ok(r)
  {
    DecodeIgnoresOrder(members, ToMembers(r));
    EncodedIsDescribed(r);
    DescribedIsDecoded(ToMembers(r), r);
  }

  /** Whatever is decoded is valid: no window id 0, buttons 1 to 3. */
  lemma DecodedIsValid(doc: Document)
    requires Decode(doc).Ok?
    ensures ValidRequest(Decode(doc).request)
  {
    FillIsTyped(doc.members);
  }

  /** On every reference that a request can carry, the live backend answers as the
      fake does on the same snapshot while the list is unchanged. */
  lemma LiveAgreesOnDecoded(doc: Document, g: Gens, v: View, fake: Fake)
    requires Decode(doc).Ok? && (Decode(doc).request.Activate? || Decode(doc).request.Fullscreen?)
    requires v.atomsReady && v.clients.Some?
    requires g.listHash == Fnv.Sum(v.clients.value)
    requires fake.display == g.displayGen && fake.observe == g.observeGen
    requires fake.managed == Snapshot(g, v, v.clients.value)
    requires fake.AtomOk(CLIENT_LIST) <==> CLIENT_LIST in v.supported
    ensures Verdict(g, Decode(doc).request.window, v) == fake.Revalidate(Decode(doc).request.window)
  {
    DecodedIsValid(doc);
    LiveAgreesWithFake(g, v, Decode(doc).request.window, fake);
  }
}
