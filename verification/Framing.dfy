/** Framing of the legacy byte stream: lines on the client side, the line scanner
    and the four-byte peek on the server side. */
module Framing {

  const MAX_LINE: nat := 0x10_0000

  function TrimNewlines(s: string): (t: string)
    ensures |t| <= |s| && t == s[..|t|]
  {
    if s != "" && s[|s| - 1] == '\n' then TrimNewlines(s[..|s| - 1]) else s
  }

  /** Trimming takes all newlines at the end and nothing else. */
  lemma {:induction false} TrimTakesNewlines(s: string, n: nat)
    requires n <= |s| && (n == 0 || s[n - 1] != '\n') && forall i | n <= i < |s| :: s[i] == '\n'
    ensures TrimNewlines(s) == s[..n]
    decreases |s|
  {
    if n == |s| {
      assert s[..n] == s;
    } else {
      var init := s[..|s| - 1];
      TrimTakesNewlines(init, n);
      assert init[..n] == s[..n];
    }
  }

  /** What the client accepts as one command, after trimming. */
  predicate Sendable(t: string) {
    '\n' !in t && '\0' !in t && |t| <= MAX_LINE
  }

  class Client {
    var connected: bool
    var wire: string  // bytes the connection has taken

    constructor ()
      ensures connected && wire == ""
    {
      connected, wire := true, "";
    }

    /** The line is one command and the connection takes all of it. */
    predicate Takes(line: string, room: nat): (taken: bool)
      reads this
      ensures taken <==>
              var t := TrimNewlines(line);
              connected && '\n' !in t && '\0' !in t && |t| <= 0x10_0000 && |t| < room
    {
      connected && Sendable(TrimNewlines(line)) && |TrimNewlines(line)| < room
    }

    /** What gets on the wire of a line that is not taken. */
    function Piece(line: string, room: nat): string
      requires !Takes(line, room)
      reads this
    {
      if connected && Sendable(TrimNewlines(line)) then TrimNewlines(line)[..room] else ""
    }

    /** Writes one command and its newline; `room` is how many bytes the
        connection takes this time. Nothing is retried. */
    method WriteLine(line: string, room: nat) returns (ok: bool)
      modifies this`wire
      ensures ok <==> Takes(line, room)
      ensures ok ==> wire == old(wire) + TrimNewlines(line) + "\n"
      ensures !ok ==> wire == old(wire) + Piece(line, room)
      ensures !ok && connected && Sendable(TrimNewlines(line)) ==> wire == old(wire) + TrimNewlines(line)[..room]
      ensures !ok && !(connected && Sendable(TrimNewlines(line))) ==> wire == old(wire)
    {
      if !connected { return false; }
      var trimmed := line;
      while trimmed != "" && trimmed[|trimmed| - 1] == '\n'
        invariant TrimNewlines(trimmed) == TrimNewlines(line)
        decreases |trimmed|
      {
        trimmed := trimmed[..|trimmed| - 1];
      }
      if '\n' in trimmed || '\0' in trimmed { return false; }
      if |trimmed| > MAX_LINE { return false; }
      var payload := trimmed + "\n";
      var n := if |payload| <= room then |payload| else room;
      wire := wire + payload[..n];
      ok := n == |payload|;
      assert payload[..|payload|] == payload;
    }

    /** Calls WriteLine for one line after the other until a call fails; `rooms`
        are the bytes the connection takes at each. What the calls put on the wire
        is one frame for each success and at most a piece of one more, and the
        server's scanner makes of a new wire exactly those lines. */
    method WriteLines(lines: seq<string>, rooms: seq<nat>) returns (done: nat, ghost piece: string)
      requires |rooms| == |lines|
      modifies this`wire
      ensures done <= |lines| && wire == old(wire) + Frames(Trimmed(lines[..done])) + piece
      ensures forall i | 0 <= i < done :: Takes(lines[i], rooms[i])
      ensures done == |lines| ==> piece == ""
      ensures done < |lines| ==> !Takes(lines[done], rooms[done]) && piece == Piece(lines[done], rooms[done])
      ensures old(wire) == "" ==> Scan(wire) == Received(Trimmed(lines[..done]), Scan(piece))
    {
      done, piece := 0, "";
      while done < |lines|
        invariant done <= |lines| && wire == old(wire) + Frames(Trimmed(lines[..done]))
        invariant piece == "" && forall i | 0 <= i < done :: Takes(lines[i], rooms[i])
      {
        ghost var before := wire;
        var ok := WriteLine(lines[done], rooms[done]);
        if !ok {
          piece := wire[|before|..];
          break;
        }
        OneMoreFrame(old(wire), lines, done);
        done := done + 1;
      }
      WireIsScanned(old(wire), Trimmed(lines[..done]), piece);
    }
  }

  function Trimmed(lines: seq<string>): (ts: seq<string>)
    ensures |ts| == |lines| && forall i | 0 <= i < |ts| :: ts[i] == TrimNewlines(lines[i])
  {
    seq(|lines|, i requires 0 <= i < |lines| => TrimNewlines(lines[i]))
  }

  predicate AllSendable(ts: seq<string>) {
    forall i | 0 <= i < |ts| :: Sendable(ts[i])
  }

  // ----- the line scanner -----

  function Newline(s: string): (i: nat)
    ensures i <= |s| && '\n' !in s[..i] && (i < |s| ==> s[i] == '\n')
  {
    if s == "" || s[0] == '\n' then 0 else 1 + Newline(s[1..])
  }

  function StripCr(s: string): string {
    if s != "" && s[|s| - 1] == '\r' then s[..|s| - 1] else s
  }

  /** The lines delivered, and whether a line that is too long ended the scan. */
  datatype Scanned = Scanned(lines: seq<string>, tooLong: bool)

  /** The scanner gives up on a line whose newline is not among the first
      MAX_LINE bytes, the size of its buffer. */
  function Scan(s: string): Scanned
    decreases |s|
  {
    if s == "" then Scanned([], false)
    else
      var i := Newline(s);
      if i >= MAX_LINE then Scanned([], true)
      else if i == |s| then Scanned([StripCr(s)], false)
      else
        var rest := Scan(s[i + 1..]);
        rest.(lines := [StripCr(s[..i])] + rest.lines)
  }

  /** What a sequence of successful writes puts on the wire. */
  function Frames(ts: seq<string>): string {
    if ts == [] then "" else ts[0] + "\n" + Frames(ts[1..])
  }

  lemma {:induction false} FramesGrow(ts: seq<string>, t: string)
    ensures Frames(ts + [t]) == Frames(ts) + t + "\n"
  {
    if ts == [] {
      assert ts + [t] == [t] && [t][1..] == [];
    } else {
      assert (ts + [t])[1..] == ts[1..] + [t];
      FramesGrow(ts[1..], t);
      assert Frames(ts) == ts[0] + "\n" + Frames(ts[1..]);
    }
  }

  lemma OneMoreFrame(before: string, lines: seq<string>, n: nat)
    requires n < |lines|
    ensures before + Frames(Trimmed(lines[..n + 1])) == before + Frames(Trimmed(lines[..n])) + TrimNewlines(lines[n]) + "\n"
  {
    assert Trimmed(lines[..n + 1]) == Trimmed(lines[..n]) + [TrimNewlines(lines[n])];
    FramesGrow(Trimmed(lines[..n]), TrimNewlines(lines[n]));
  }

  /** The lines up to the first one that fills the scanner's buffer, and then what
      was scanned behind them. */
  function Received(ts: seq<string>, more: Scanned): Scanned {
    if ts == [] then more
    else if |ts[0]| >= MAX_LINE then Scanned([], true)
    else
      var rest := Received(ts[1..], more);
      rest.(lines := [StripCr(ts[0])] + rest.lines)
  }

  lemma {:induction false} NewlineAfter(t: string, rest: string)
    requires '\n' !in t
    ensures Newline(t + "\n" + rest) == |t|
  {
    if t == "" {
    } else {
      assert (t + "\n" + rest)[1..] == t[1..] + "\n" + rest;
      NewlineAfter(t[1..], rest);
    }
  }

  /** Cutting the stream gives back one line per write, in order and equal to the
      trimmed input up to a carriage return at its end, until a line of exactly
      the client's maximum, which the scanner refuses; whatever follows the frames
      is then cut as if it stood alone. */
  lemma {:induction false} FramesAreScanned(ts: seq<string>, tail: string)
    requires AllSendable(ts)
    ensures Scan(Frames(ts) + tail) == Received(ts, Scan(tail))
  {
    if ts == [] {
      assert Frames(ts) + tail == tail;
    } else {
      var t, rest := ts[0], Frames(ts[1..]) + tail;
      var s := t + "\n" + rest;
      assert Frames(ts) + tail == s;
      NewlineAfter(t, rest);
      assert s[..|t|] == t && s[|t| + 1..] == rest;
      FramesAreScanned(ts[1..], tail);
    }
  }

  lemma WireIsScanned(before: string, ts: seq<string>, piece: string)
    requires AllSendable(ts)
    ensures before == "" ==> Scan(before + Frames(ts) + piece) == Received(ts, Scan(piece))
  {
    if before == "" {
      assert before + Frames(ts) == Frames(ts);
      FramesAreScanned(ts, piece);
    }
  }

  function Stripped(ts: seq<string>): (ls: seq<string>)
    ensures |ls| == |ts| && forall i | 0 <= i < |ts| :: ls[i] == StripCr(ts[i])
  {
    seq(|ts|, i requires 0 <= i < |ts| => StripCr(ts[i]))
  }

  predicate AllShort(ts: seq<string>) {
    forall i | 0 <= i < |ts| :: |ts[i]| < MAX_LINE
  }

  /** The scanner on one line: it is delivered without its newline and without one
      carriage return before it, if the newline is among the first 1 MiB. */
  lemma ScanLine(t: string, rest: string)
    requires '\n' !in t
    ensures |t| >= 0x10_0000 ==> Scan(t + "\n" + rest) == Scanned([], true)
    ensures |t| < 0x10_0000 ==>
              && Scan(t + "\n" + rest).tooLong == Scan(rest).tooLong
              && Scan(t + "\n" + rest).lines
                 == [if t != "" && t[|t| - 1] == '\r' then t[..|t| - 1] else t] + Scan(rest).lines
  {
    var s := t + "\n" + rest;
    NewlineAfter(t, rest);
    assert s[..|t|] == t && s[|t| + 1..] == rest;
  }

  /** And on what is left at the end without a newline: one more line. */
  lemma ScanLast(t: string)
    requires '\n' !in t
    ensures Scan(t) == if t == "" then Scanned([], false)
                       else if |t| >= 0x10_0000 then Scanned([], true)
                       else Scanned([if t[|t| - 1] == '\r' then t[..|t| - 1] else t], false)
  {
    assert Newline(t) == |t|;
  }

  lemma {:induction false} ReceivedIfShort(ts: seq<string>)
    ensures Received(ts, Scanned([], false)).tooLong <==> !AllShort(ts)
    ensures AllShort(ts) ==> Received(ts, Scanned([], false)).lines == Stripped(ts)
  {
    if ts == [] {
    } else {
      ReceivedIfShort(ts[1..]);
      StrippedFirst(ts);
      assert forall i | 0 < i < |ts| :: ts[i] == ts[1..][i - 1];
      assert AllShort(ts) <==> |ts[0]| < MAX_LINE && AllShort(ts[1..]);
    }
  }

  lemma StrippedFirst(ts: seq<string>)
    requires ts != []
    ensures Stripped(ts) == [StripCr(ts[0])] + Stripped(ts[1..])
  {
  }

  /** So the scanner gives one line for every write if and only if all lines are
      shorter than the maximum, and otherwise reports a line that is too long. */
  lemma AllArriveIffShort(ts: seq<string>)
    requires AllSendable(ts)
    ensures Scan(Frames(ts)) == Scanned(Stripped(ts), false) <==> AllShort(ts)
    ensures Scan(Frames(ts)).tooLong <==> !AllShort(ts)
  {
    assert Frames(ts) + "" == Frames(ts);
    FramesAreScanned(ts, "");
    ReceivedIfShort(ts);
  }

  /** The lines come back unchanged if and only if, besides, none ends with a
      carriage return. */
  lemma UnchangedIffNoCr(ts: seq<string>)
    requires AllSendable(ts)
    ensures Scan(Frames(ts)) == Scanned(ts, false)
       <==> AllShort(ts) && forall i | 0 <= i < |ts| :: ts[i] == "" || ts[i][|ts[i]| - 1] != '\r'
  {
    AllArriveIffShort(ts);
    if Scan(Frames(ts)) == Scanned(ts, false) {
      forall i | 0 <= i < |ts| ensures StripCr(ts[i]) == ts[i] {
        assert Stripped(ts)[i] == ts[i];
      }
    } else if AllShort(ts) {
      assert Stripped(ts) != ts;
      var i :| 0 <= i < |ts| && Stripped(ts)[i] != ts[i];
    }
  }

  /** The case exists: the client takes a line of exactly the maximum, and the
      scanner refuses it. */
  lemma MaximalLineIsRefused() returns (t: string)
    ensures Sendable(t) && |t| == MAX_LINE && Scan(Frames([t])) == Scanned([], true)
  {
    t := seq(MAX_LINE, _ => 'a');
    AllArriveIffShort([t]);
    assert Frames([t]) + "" == Frames([t]);
    FramesAreScanned([t], "");
  }

  // ----- the peek -----

  /** A reader that hands out the peeked bytes before the rest of the stream. */
  class ConnReader {
    var prefix: string
    var rest: string

    ghost function Remaining(): string
      reads this
    {
      prefix + rest
    }

    constructor (prefix: string, rest: string)
      ensures Remaining() == prefix + rest
    {
      this.prefix, this.rest := prefix, rest;
    }

    /** Reads into a buffer of `size`; the underlying reader has `ready` bytes. */
    method Read(size: nat, ready: nat) returns (got: string)
      modifies this
      ensures |got| <= size && got + Remaining() == old(Remaining())
      ensures size > 0 && ready > 0 && old(Remaining()) != "" ==> got != ""
    {
      if |prefix| > 0 {
        var n := if size <= |prefix| then size else |prefix|;
        got, prefix := prefix[..n], prefix[n..];
      } else {
        var m := if size <= ready then size else ready;
        var n := if m <= |rest| then m else |rest|;
        got, rest := rest[..n], rest[n..];
      }
    }

    /** Any sequence of reads returns a prefix of the stream, nothing lost or repeated. */
    method ReadAll(sizes: seq<(nat, nat)>) returns (got: string)
      modifies this
      ensures got + Remaining() == old(Remaining())
    {
      got := "";
      for i := 0 to |sizes|
        invariant got + Remaining() == old(Remaining())
      {
        var more := Read(sizes[i].0, sizes[i].1);
        assert got + (more + Remaining()) == got + more + Remaining();
        got := got + more;
      }
    }
  }

  /** The first four bytes decide; a stream that does not start with "GET " is
      handed back whole, and a shorter one is closed. */
  method Peek(stream: string) returns (reader: ConnReader?, http: bool)
    ensures reader == null <==> |stream| < 4
    ensures reader != null ==> fresh(reader) && reader.Remaining() == stream && (http <==> stream[..4] == "GET ")
  {
    if |stream| < 4 { return null, false; }
    var buf := stream[..4];
    reader := new ConnReader(buf, stream[4..]);
    http := buf == "GET ";
  }
}
