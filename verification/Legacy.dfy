/** The legacy line protocol: what its commands leave held on the display. */
module Legacy {
  import opened Words
  import opened Decimal
  import opened Holds

  const MIN_HOLD: int := 20
  const MAX_HOLD: int := 500

  /** The hold of "key <keysym> <hold-ms>". */
  function ParseKeyHold(parts: seq<string>): Option<int> {
    if |parts| != 3 || parts[0] != "key" then None
    else
      var hold := Atoi(parts[2]);
      if !hold.ok || Itoa(hold.value) != parts[2] || hold.value < MIN_HOLD || hold.value > MAX_HOLD then None
      else Some(hold.value)
  }

  /** Only the canonical numerals of 20 to 500 are holds. */
  lemma HoldIsCanonical(parts: seq<string>, n: int)
    ensures ParseKeyHold(parts) == Some(n)
       <==> |parts| == 3 && parts[0] == "key" && 20 <= n <= 500 && parts[2] == Itoa(n)
  {
    if 20 <= n <= 500 {
      AtoiOfItoa(n);
    }
  }

  /** The button a numeral names: converted, reduced to 32 bits for Xlib and to the
      one byte that the XTEST request carries. A malformed numeral names button 0. */
  function ButtonOf(s: string): Input {
    Button(Atoi(s).value % 0x1_0000_0000 % 256)
  }

  lemma ButtonNamed(b: nat)
    requires b < 256
    ensures ButtonOf(Itoa(b)) == Button(b)
  {
    AtoiOfItoa(b);
  }

  // ----- the display -----

  /** The keymap bits of the keycodes from `base` on. */
  function KeyBits(down: set<Input>, base: nat, n: nat): (b: nat)
    ensures b < Pow2(n)
  {
    if n == 0 then 0 else KeyBits(down, base, n - 1) + if Key(base + n - 1) in down then Pow2(n - 1) else 0
  }

  lemma {:induction false} TestKeyBits(down: set<Input>, base: nat, n: nat, j: nat)
    requires j < n
    ensures TestBit(n, KeyBits(down, base, n), j) <==> Key(base + j) in down
  {
    if j == n - 1 {
    } else {
      TestKeyBits(down, base, n - 1, j);
    }
  }

  /** The X server: the keycode of each known keysym, and which codes it has;
      it refuses events on others. */
  datatype Server = Server(keycodes: map<string, nat>, accepts: Input -> bool) {
    function KeycodeFor(name: string): nat {
      if name in keycodes then keycodes[name] else 0
    }

    ghost predicate Sound() {
      && (forall k: nat | accepts(Key(k)) :: 0 < k < 256)
      && (forall name | name in keycodes :: keycodes[name] == 0 || accepts(Key(keycodes[name])))
    }
  }

  /** What a line asks of the X server. */
  datatype Act = Press(input: Input) | Lift(input: Input) | Warp(x: int, y: int)

  function PlayOne(x: Server, down: set<Input>, act: Act): set<Input> {
    match act
    case Press(i) => if x.accepts(i) then down + {i} else down
    case Lift(i) => if x.accepts(i) then down - {i} else down
    case Warp(_, _) => down
  }

  function Play(x: Server, down: set<Input>, acts: seq<Act>): set<Input>
    decreases |acts|
  {
    if acts == [] then down else PlayOne(x, Play(x, down, acts[..|acts| - 1]), acts[|acts| - 1])
  }

  lemma PlayMore(x: Server, down: set<Input>, acts: seq<Act>, act: Act)
    ensures Play(x, down, acts + [act]) == PlayOne(x, Play(x, down, acts), act)
  {
    assert (acts + [act])[..|acts|] == acts;
  }

  class Display {
    const x: Server
    var down: set<Input>
    ghost var asked: seq<Act>

    ghost predicate Valid()
      reads this
    {
      x.Sound() && forall i | i in down :: x.accepts(i)
    }

    constructor (x: Server)
      requires x.Sound()
      ensures Valid() && this.x == x && down == {} && asked == []
    {
      this.x, down, asked := x, {}, [];
    }

    method Send(i: Input, press: bool)
      requires Valid()
      modifies this
      ensures Valid() && down == if x.accepts(i) then Apply(old(down), i, press) else old(down)
      ensures asked == old(asked) + [if press then Press(i) else Lift(i)]
    {
      if x.accepts(i) {
        down := Apply(down, i, press);
      }
      asked := asked + [if press then Press(i) else Lift(i)];
    }

    method MoveMouse(px: int, py: int)
      modifies this`asked
      ensures asked == old(asked) + [Warp(px, py)]
    {
      asked := asked + [Warp(px, py)];
    }

    /** The 32-byte keymap of the server. */
    method QueryKeymap() returns (keymap: array<byte>)
      ensures fresh(keymap) && keymap.Length == 32
      ensures forall i | 0 <= i < 32 :: keymap[i] == KeyBits(down, 8 * i, 8)
    {
      keymap := new byte[32];
      Pow2Table();
      for i := 0 to 32
        invariant forall j | 0 <= j < i :: keymap[j] == KeyBits(down, 8 * j, 8)
      {
        keymap[i] := KeyBits(down, 8 * i, 8);
      }
    }

    /** Sends an up for every key in the keymap and for buttons 1 to 3. */
    method ReleaseAll()
      requires Valid()
      modifies this
      ensures Valid() && asked == old(asked) + Sweep(old(down))
      ensures forall i :: i in down <==> i in old(down) && i.Button? && i != Button(1) && i != Button(2) && i != Button(3)
    {
      var keymap := QueryKeymap();
      Pow2Table();
      for kc := 0 to 256
        invariant Valid() && asked == old(asked) + KeyUps(old(down), kc)
        invariant forall i :: i in down <==> i in old(down) && !(i.Key? && i.code < kc)
        invariant forall i | 0 <= i < 32 :: keymap[i] == KeyBits(old(down), 8 * i, 8)
      {
        var isDown := TestBit(8, keymap[kc / 8], kc % 8);
        TestKeyBits(old(down), 8 * (kc / 8), 8, kc % 8);
        if isDown {
          Send(Key(kc), false);
        }
      }
      Send(Button(1), false);
      Send(Button(2), false);
      Send(Button(3), false);
    }

    /** One line, as fields. Conversion errors of a button are ignored by
        mousedown, mouseup and click, and end modclick. */
    method Dispatch(parts: seq<string>)
      requires Valid()
      modifies this
      ensures Valid() && asked == old(asked) + Acts(x, parts, old(down))
      ensures down == Play(x, old(down), Acts(x, parts, old(down))) == Net(x, parts, old(down))
      ensures |parts| >= 2 && parts[1] in x.keycodes && x.keycodes[parts[1]] != 0 ==>
                && (parts[0] == "keydown" ==> down == old(down) + {Key(x.keycodes[parts[1]])})
                && (parts[0] == "keyup" ==> down == old(down) - {Key(x.keycodes[parts[1]])})
      ensures forall b: nat | b < 256 && |parts| >= 2 && parts[1] == Itoa(b) ::
                && (parts[0] == "mousedown" ==> down == if x.accepts(Button(b)) then old(down) + {Button(b)} else old(down))
                && (parts[0] == "mouseup" || parts[0] == "click" ==> down == old(down) - {Button(b)})
    {
      WriteOut(x, parts, down);
      Obey(parts);
    }

    method Obey(parts: seq<string>)
      requires Valid()
      modifies this
      ensures Valid() && asked == old(asked) + Acts(x, parts, old(down)) && down == Net(x, parts, old(down))
    {
      if parts == [] { return; }
      var op := parts[0];
      if op == "keydown" || op == "keyup" {
        if |parts| < 2 { return; }
        var kc := x.KeycodeFor(parts[1]);
        if kc != 0 { Send(Key(kc), op == "keydown"); }
      } else if op == "key" {
        if ParseKeyHold(parts).None? { return; }
        var kc := x.KeycodeFor(parts[1]);
        if kc != 0 {
          Send(Key(kc), true);
          Send(Key(kc), false);
        }
      } else if op == "mousemove" {
        if |parts| < 3 { return; }
        MoveMouse(Atoi(parts[1]).value, Atoi(parts[2]).value);
      } else if op == "mousedown" || op == "mouseup" {
        if |parts| < 2 { return; }
        Send(ButtonOf(parts[1]), op == "mousedown");
      } else if op == "click" {
        if |parts| < 2 { return; }
        Send(ButtonOf(parts[1]), true);
        Send(ButtonOf(parts[1]), false);
      } else if op == "modclick" {
        if |parts| < 6 { return; }
        var kc := x.KeycodeFor(parts[1]);
        if kc != 0 {
          if !Atoi(parts[2]).ok || !Atoi(parts[3]).ok || !Atoi(parts[4]).ok { return; }
          ModClick(kc, ButtonOf(parts[2]), Atoi(parts[3]).value, Atoi(parts[4]).value);
        }
      } else if op == "releaseall" {
        ReleaseAll();
      }
    }

    method ModClick(kc: nat, button: Input, px: int, py: int)
      requires Valid() && x.accepts(Key(kc))
      modifies this
      ensures Valid() && asked == old(asked) + [Press(Key(kc)), Warp(px, py), Press(button), Lift(button), Lift(Key(kc))]
      ensures down == old(down) - {Key(kc), button}
    {
      Send(Key(kc), true);
      MoveMouse(px, py);
      Send(button, true);
      Send(button, false);
      Send(Key(kc), false);
    }
  }

  // ----- what a line asks -----

  /** The acts of every line but releaseall. */
  function Script(x: Server, parts: seq<string>): seq<Act> {
    if |parts| < 2 then []
    else
      var kc := x.KeycodeFor(parts[1]);
      if parts[0] == "keydown" then (if kc != 0 then [Press(Key(kc))] else [])
      else if parts[0] == "keyup" then (if kc != 0 then [Lift(Key(kc))] else [])
      else if parts[0] == "key" then
        if ParseKeyHold(parts).Some? && kc != 0 then [Press(Key(kc)), Lift(Key(kc))] else []
      else if parts[0] == "mousemove" then
        if |parts| >= 3 then [Warp(Atoi(parts[1]).value, Atoi(parts[2]).value)] else []
      else if parts[0] == "mousedown" then [Press(ButtonOf(parts[1]))]
      else if parts[0] == "mouseup" then [Lift(ButtonOf(parts[1]))]
      else if parts[0] == "click" then [Press(ButtonOf(parts[1])), Lift(ButtonOf(parts[1]))]
      else if parts[0] == "modclick" && |parts| >= 6 && kc != 0
              && Atoi(parts[2]).ok && Atoi(parts[3]).ok && Atoi(parts[4]).ok
      then [Press(Key(kc)), Warp(Atoi(parts[3]).value, Atoi(parts[4]).value),
            Press(ButtonOf(parts[2])), Lift(ButtonOf(parts[2])), Lift(Key(kc))]
      else []
  }

  function KeyUps(down: set<Input>, n: nat): seq<Act> {
    if n == 0 then [] else KeyUps(down, n - 1) + if Key(n - 1) in down then [Lift(Key(n - 1))] else []
  }

  /** Every key that is down, in the order of the keymap, and then three buttons. */
  function Sweep(down: set<Input>): seq<Act> {
    KeyUps(down, 256) + [Lift(Button(1)), Lift(Button(2)), Lift(Button(3))]
  }

  function Acts(x: Server, parts: seq<string>, down: set<Input>): seq<Act> {
    if parts != [] && parts[0] == "releaseall" then Sweep(down) else Script(x, parts)
  }

  /** The key commands, written out, for a keysym with keycode `kc`. */
  lemma KeyCommandsAsk(x: Server, parts: seq<string>, kc: nat, down: set<Input>)
    requires |parts| >= 2 && parts[1] in x.keycodes && x.keycodes[parts[1]] == kc != 0
    ensures parts[0] == "keydown" ==> Acts(x, parts, down) == [Press(Key(kc))]
    ensures parts[0] == "keyup" ==> Acts(x, parts, down) == [Lift(Key(kc))]
    ensures parts[0] == "key" ==>
              Acts(x, parts, down) == if |parts| == 3 && exists n: int :: 20 <= n <= 500 && parts[2] == Itoa(n)
                                      then [Press(Key(kc)), Lift(Key(kc))] else []
  {
    if parts[0] == "key" && |parts| == 3 {
      if n: int :| 20 <= n <= 500 && parts[2] == Itoa(n) {
        HoldIsCanonical(parts, n);
      } else if ParseKeyHold(parts).Some? {
        HoldIsCanonical(parts, ParseKeyHold(parts).value);
      }
    }
  }

  /** The button commands, written out, for the numeral of button `b`. */
  lemma ButtonCommandsAsk(x: Server, parts: seq<string>, b: nat, down: set<Input>)
    requires |parts| >= 2 && b < 256 && parts[1] == Itoa(b)
    ensures parts[0] == "mousedown" ==> Acts(x, parts, down) == [Press(Button(b))]
    ensures parts[0] == "mouseup" ==> Acts(x, parts, down) == [Lift(Button(b))]
    ensures parts[0] == "click" ==> Acts(x, parts, down) == [Press(Button(b)), Lift(Button(b))]
  {
    ButtonNamed(b);
  }

  /** A button that is no numeral is button 0. */
  lemma MalformedButtonIsZero(x: Server, parts: seq<string>, down: set<Input>)
    requires |parts| >= 2 && forall ds: string | ds != "" && AllDigits(ds) :: parts[1] != ds && parts[1] != "+" + ds && parts[1] != "-" + ds
    ensures parts[0] == "mousedown" ==> Acts(x, parts, down) == [Press(Button(0))]
    ensures parts[0] == "mouseup" ==> Acts(x, parts, down) == [Lift(Button(0))]
    ensures parts[0] == "click" ==> Acts(x, parts, down) == [Press(Button(0)), Lift(Button(0))]
  {
    AtoiOfOthers(parts[1]);
  }

  /** The pointer commands, written out. */
  lemma MouseMoveAsks(x: Server, parts: seq<string>, px: int, py: int, down: set<Input>)
    requires |parts| >= 3 && parts[0] == "mousemove" && Atoi(parts[1]).value == px && Atoi(parts[2]).value == py
    ensures Acts(x, parts, down) == [Warp(px, py)]
  {
  }

  lemma ModClickAsks(x: Server, parts: seq<string>, kc: nat, b: nat, px: int, py: int, down: set<Input>)
    requires |parts| >= 6 && parts[0] == "modclick" && parts[1] in x.keycodes && x.keycodes[parts[1]] == kc != 0
    requires Atoi(parts[2]) == Converted(b, true) && b < 256
    requires Atoi(parts[3]) == Converted(px, true) && Atoi(parts[4]) == Converted(py, true)
    ensures Acts(x, parts, down) == [Press(Key(kc)), Warp(px, py), Press(Button(b)), Lift(Button(b)), Lift(Key(kc))]
  {
  }

  /** Everything else asks nothing: other words, missing fields, unknown keysyms. */
  lemma OtherLinesAskNothing(x: Server, parts: seq<string>, down: set<Input>)
    requires |parts| < 2 || parts[0] !in {"keydown", "keyup", "key", "mousemove", "mousedown", "mouseup", "click", "modclick"}
             || (parts[0] in {"keydown", "keyup", "key", "modclick"} && (parts[1] !in x.keycodes || x.keycodes[parts[1]] == 0))
             || (parts[0] == "mousemove" && |parts| < 3) || (parts[0] == "modclick" && |parts| < 6)
    requires parts == [] || parts[0] != "releaseall"
    ensures Acts(x, parts, down) == []
  {
  }

  // ----- net effects -----

  /** What a release sweep leaves: no key, no button 1 to 3, other buttons as they were. */
  function Swept(down: set<Input>): set<Input> {
    set i | i in down && i.Button? && !(1 <= i.code <= 3)
  }

  function Named(x: Server, name: string): set<Input> {
    if x.KeycodeFor(name) != 0 then {Key(x.KeycodeFor(name))} else {}
  }

  /** The input that a keydown or mousedown line presses, if any. */
  function Presses(x: Server, parts: seq<string>): set<Input> {
    if |parts| < 2 then {}
    else if parts[0] == "keydown" then Named(x, parts[1])
    else if parts[0] == "mousedown" && x.accepts(ButtonOf(parts[1])) then {ButtonOf(parts[1])}
    else {}
  }

  /** The inputs that a line leaves up, besides what a sweep takes away. */
  function Lifts(x: Server, parts: seq<string>): set<Input> {
    if |parts| < 2 then {}
    else if parts[0] == "keyup" || (parts[0] == "key" && ParseKeyHold(parts).Some?) then Named(x, parts[1])
    else if parts[0] == "mouseup" || parts[0] == "click" then {ButtonOf(parts[1])}
    else if parts[0] == "modclick" && |parts| >= 6 && Atoi(parts[2]).ok && Atoi(parts[3]).ok && Atoi(parts[4]).ok
            && Named(x, parts[1]) != {}
    then Named(x, parts[1]) + {ButtonOf(parts[2])}
    else {}
  }

  function Net(x: Server, parts: seq<string>, down: set<Input>): set<Input> {
    if |parts| >= 1 && parts[0] == "releaseall" then Swept(down)
    else down + Presses(x, parts) - Lifts(x, parts)
  }

  lemma PlayTwo(x: Server, down: set<Input>, a: Act, b: Act)
    ensures Play(x, down, [a]) == PlayOne(x, down, a)
    ensures Play(x, down, [a, b]) == PlayOne(x, PlayOne(x, down, a), b)
  {
    assert [a][..0] == [] && [a, b][..1] == [a];
  }

  lemma PlayFive(x: Server, down: set<Input>, a: Act, b: Act, c: Act, d: Act, e: Act)
    ensures Play(x, down, [a, b, c, d, e]) == PlayOne(x, PlayOne(x, PlayOne(x, PlayOne(x, PlayOne(x, down, a), b), c), d), e)
  {
    PlayTwo(x, down, a, b);
    assert [a, b] + [c] == [a, b, c] && [a, b, c] + [d] == [a, b, c, d] && [a, b, c, d] + [e] == [a, b, c, d, e];
    PlayMore(x, down, [a, b], c);
    PlayMore(x, down, [a, b, c], d);
    PlayMore(x, down, [a, b, c, d], e);
  }

  lemma {:induction false} PlayKeyUps(x: Server, down: set<Input>, n: nat)
    requires forall i | i in down :: x.accepts(i)
    ensures Play(x, down, KeyUps(down, n)) == set i | i in down && !(i.Key? && i.code < n)
  {
    if n == 0 {
    } else {
      PlayKeyUps(x, down, n - 1);
      if Key(n - 1) in down {
        PlayMore(x, down, KeyUps(down, n - 1), Lift(Key(n - 1)));
      } else {
        assert KeyUps(down, n) == KeyUps(down, n - 1);
      }
    }
  }

  lemma PlaySweep(x: Server, down: set<Input>)
    requires x.Sound() && forall i | i in down :: x.accepts(i)
    ensures Play(x, down, Sweep(down)) == Swept(down)
  {
    var ups := KeyUps(down, 256);
    var one, two, three := Lift(Button(1)), Lift(Button(2)), Lift(Button(3));
    PlayKeyUps(x, down, 256);
    PlayMore(x, down, ups, one);
    PlayMore(x, down, ups + [one], two);
    PlayMore(x, down, ups + [one] + [two], three);
    assert ups + [one] + [two] + [three] == Sweep(down);
  }

  /** Playing the acts of a line has its net effect. */
  lemma ActsHaveNetEffect(x: Server, parts: seq<string>, down: set<Input>)
    requires x.Sound() && forall i | i in down :: x.accepts(i)
    ensures Play(x, down, Acts(x, parts, down)) == Net(x, parts, down)
  {
    var acts := Acts(x, parts, down);
    if parts != [] && parts[0] == "releaseall" {
      PlaySweep(x, down);
    } else if |acts| == 1 {
      assert acts == [acts[0]];
      PlayTwo(x, down, acts[0], acts[0]);
    } else if |acts| == 2 {
      assert acts == [acts[0], acts[1]];
      PlayTwo(x, down, acts[0], acts[1]);
    } else if |acts| == 5 {
      assert acts == [acts[0], acts[1], acts[2], acts[3], acts[4]];
      PlayFive(x, down, acts[0], acts[1], acts[2], acts[3], acts[4]);
    }
  }

  /** What the key commands leave down, written out. */
  lemma KeyLinesLeave(x: Server, parts: seq<string>, down: set<Input>)
    requires |parts| >= 2 && parts[1] in x.keycodes && x.keycodes[parts[1]] != 0
    ensures parts[0] == "keydown" ==> Net(x, parts, down) == down + {Key(x.keycodes[parts[1]])}
    ensures parts[0] == "keyup" ==> Net(x, parts, down) == down - {Key(x.keycodes[parts[1]])}
    ensures parts[0] == "key" ==>
              Net(x, parts, down) == if |parts| == 3 && exists n: int :: 20 <= n <= 500 && parts[2] == Itoa(n)
                                     then down - {Key(x.keycodes[parts[1]])} else down
  {
    KeyCommandsAsk(x, parts, x.keycodes[parts[1]], down);
  }

  /** What the button commands leave down, written out. */
  lemma ButtonLinesLeave(x: Server, parts: seq<string>, b: nat, down: set<Input>)
    requires |parts| >= 2 && b < 256 && parts[1] == Itoa(b)
    ensures parts[0] == "mousedown" ==> Net(x, parts, down) == if x.accepts(Button(b)) then down + {Button(b)} else down
    ensures parts[0] == "mouseup" || parts[0] == "click" ==> Net(x, parts, down) == down - {Button(b)}
  {
    ButtonNamed(b);
  }

  lemma WriteOut(x: Server, parts: seq<string>, down: set<Input>)
    requires x.Sound() && forall i | i in down :: x.accepts(i)
    ensures Play(x, down, Acts(x, parts, down)) == Net(x, parts, down)
    ensures |parts| >= 2 && parts[1] in x.keycodes && x.keycodes[parts[1]] != 0 ==>
              && (parts[0] == "keydown" ==> Net(x, parts, down) == down + {Key(x.keycodes[parts[1]])})
              && (parts[0] == "keyup" ==> Net(x, parts, down) == down - {Key(x.keycodes[parts[1]])})
    ensures forall b: nat | b < 256 && |parts| >= 2 && parts[1] == Itoa(b) ::
              && (parts[0] == "mousedown" ==> Net(x, parts, down) == if x.accepts(Button(b)) then down + {Button(b)} else down)
              && (parts[0] == "mouseup" || parts[0] == "click" ==> Net(x, parts, down) == down - {Button(b)})
  {
    ActsHaveNetEffect(x, parts, down);
    if |parts| >= 2 && parts[1] in x.keycodes && x.keycodes[parts[1]] != 0 {
      KeyLinesLeave(x, parts, down);
    }
    forall b: nat | b < 256 && |parts| >= 2 && parts[1] == Itoa(b)
      ensures parts[0] == "mousedown" ==> Net(x, parts, down) == if x.accepts(Button(b)) then down + {Button(b)} else down
      ensures parts[0] == "mouseup" || parts[0] == "click" ==> Net(x, parts, down) == down - {Button(b)}
    {
      ButtonLinesLeave(x, parts, b, down);
    }
  }

  /** And modclick. */
  lemma ModClickLeaves(x: Server, parts: seq<string>, b: nat, down: set<Input>)
    requires |parts| >= 6 && parts[0] == "modclick" && parts[1] in x.keycodes && x.keycodes[parts[1]] != 0
    requires Atoi(parts[2]) == Converted(b, true) && b < 256 && Atoi(parts[3]).ok && Atoi(parts[4]).ok
    ensures Net(x, parts, down) == down - {Key(x.keycodes[parts[1]]), Button(b)}
  {
  }

  /** Whether a line leaves `i` up, whatever it was before. */
  predicate Takes(x: Server, parts: seq<string>, i: Input) {
    i in Lifts(x, parts) || (|parts| >= 1 && parts[0] == "releaseall" && (i.Key? || 1 <= i.code <= 3))
  }

  /** A line other than keydown and mousedown presses nothing: it ends with a
      subset of what was down before, even on malformed numbers. */
  lemma OnlyDownLinesPress(x: Server, parts: seq<string>, down: set<Input>)
    requires parts == [] || parts[0] !in {"keydown", "mousedown"}
    ensures Net(x, parts, down) <= down
  {
  }

  function NetAll(x: Server, lines: seq<seq<string>>, down: set<Input>): set<Input>
    decreases |lines|
  {
    if lines == [] then down
    else
      var n := |lines| - 1;
      Net(x, lines[n], NetAll(x, lines[..n], down))
  }

  /** `i` was down before the run, or pressed by its line number j - 1, and no
      later line took it. */
  ghost predicate DownSince(x: Server, lines: seq<seq<string>>, down: set<Input>,
                            i: Input, j: nat)
  {
    && j <= |lines|
    && (if j == 0 then i in down else i in Presses(x, lines[j - 1]))
    && forall k | j <= k < |lines| :: !Takes(x, lines[k], i)
  }

  /** One line: pressed by it, or down before and not taken by it. */
  lemma NetOfLine(x: Server, parts: seq<string>, down: set<Input>, i: Input)
    ensures i in Net(x, parts, down) <==> i in Presses(x, parts) || (i in down && !Takes(x, parts, i))
  {
  }

  lemma DownSinceLonger(x: Server, lines: seq<seq<string>>, down: set<Input>, i: Input, j: nat)
    requires lines != [] && j < |lines|
    ensures DownSince(x, lines, down, i, j)
       <==> DownSince(x, lines[..|lines| - 1], down, i, j) && !Takes(x, lines[|lines| - 1], i)
  {
    var n := |lines| - 1;
    assert forall k | 0 <= k < n :: lines[..n][k] == lines[k];
  }

  /** Over any run of lines, exactly that is left down. */
  lemma {:induction false} DownIffPressedAndNotTaken(x: Server, lines: seq<seq<string>>, down: set<Input>, i: Input)
    ensures i in NetAll(x, lines, down) <==> exists j: nat :: DownSince(x, lines, down, i, j)
    decreases |lines|
  {
    if lines == [] {
      assert DownSince(x, lines, down, i, 0) <==> i in down;
    } else {
      var n := |lines| - 1;
      var init := lines[..n];
      DownIffPressedAndNotTaken(x, init, down, i);
      NetOfLine(x, lines[n], NetAll(x, init, down), i);
      if i in Presses(x, lines[n]) {
        assert DownSince(x, lines, down, i, n + 1);
      } else if i in NetAll(x, lines, down) {
        var j: nat :| DownSince(x, init, down, i, j);
        DownSinceLonger(x, lines, down, i, j);
      } else if j: nat :| DownSince(x, lines, down, i, j) {
        DownSinceLonger(x, lines, down, i, j);
      }
    }
  }

  /** After any run, a sweep leaves no key and no button 1 to 3 down, and every
      other button as it was. */
  lemma SweepClears(x: Server, lines: seq<seq<string>>, down: set<Input>, i: Input)
    ensures i in NetAll(x, lines + [["releaseall"]], down)
       <==> i in NetAll(x, lines, down) && i.Button? && !(1 <= i.code <= 3)
  {
    assert (lines + [["releaseall"]])[..|lines|] == lines;
  }
}
