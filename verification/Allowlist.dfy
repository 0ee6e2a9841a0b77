/** Admission of destination peers: the allowlists of user and group ids. */
module Allowlist {
  import opened Words
  import opened Decimal

  datatype Parsed = Ids(ids: seq<uint32>) | EmptyAllowlist | BadAllowlist

  // ----- text -----

  predicate IsSpace(c: char) {
    var n := c as int;
    || 0x09 <= n <= 0x0d || n == 0x20 || n == 0x85 || n == 0xa0 || n == 0x1680 || 0x2000 <= n <= 0x200a
    || n == 0x2028 || n == 0x2029 || n == 0x202f || n == 0x205f || n == 0x3000
  }

  function TrimLeft(s: string): string {
    if s != "" && IsSpace(s[0]) then TrimLeft(s[1..]) else s
  }

  function TrimRight(s: string): string {
    if s != "" && IsSpace(s[|s| - 1]) then TrimRight(s[..|s| - 1]) else s
  }

  function TrimSpace(s: string): string {
    TrimRight(TrimLeft(s))
  }

  /** The fields between commas; the empty text is one empty field. */
  function Split(s: string): (fields: seq<string>)
    ensures fields != []
  {
    if s == "" then [""]
    else
      var rest := Split(s[1..]);
      if s[0] == ',' then [""] + rest else [[s[0]] + rest[0]] + rest[1..]
  }

  // ----- parsing -----

  function ProcessId(id: int): Option<uint32> {
    if 0 <= id < 0x1_0000_0000 then Some(id) else None
  }

  /** The id of a non-blank field: the process's own for the keyword. */
  function FieldId(field: string, keyword: string, own: int): Option<uint32> {
    if field == keyword then ProcessId(own) else ParseUint32(field)
  }

  /** Blank fields are skipped; one bad field spoils the list. */
  function Collect(fields: seq<string>, keyword: string, own: int): Option<seq<uint32>> {
    if fields == [] then Some([])
    else
      var field := TrimSpace(fields[0]);
      var rest := Collect(fields[1..], keyword, own);
      if field == "" then rest
      else
        var id := FieldId(field, keyword, own);
        if id.None? || rest.None? then None else Some([id.value] + rest.value)
  }

  function UidList(spec: string, euid: int): Parsed {
    if TrimSpace(spec) == "" then EmptyAllowlist
    else match Collect(Split(TrimSpace(spec)), "euid", euid)
      case None => BadAllowlist
      case Some(ids) => if ids == [] then EmptyAllowlist else Ids(ids)
  }

  /** A blank text is no restriction; a written one is never empty. */
  function GidList(spec: string, egid: int): Parsed {
    if TrimSpace(spec) == "" then Ids([])
    else match Collect(Split(TrimSpace(spec)), "egid", egid)
      case None => BadAllowlist
      case Some(ids) => if ids == [] then BadAllowlist else Ids(ids)
  }

  lemma {:induction false} CollectConcat(a: seq<string>, b: seq<string>, keyword: string, own: int)
    ensures var x, y := Collect(a, keyword, own), Collect(b, keyword, own);
            Collect(a + b, keyword, own) == if x.Some? && y.Some? then Some(x.value + y.value) else None
  {
    if a == [] {
      assert a + b == b;
      var y := Collect(b, keyword, own);
      assert y.Some? ==> [] + y.value == y.value;
    } else {
      assert (a + b)[1..] == a[1..] + b;
      CollectConcat(a[1..], b, keyword, own);
      var x, y := Collect(a, keyword, own), Collect(b, keyword, own);
      if TrimSpace(a[0]) != "" && x.Some? && y.Some? {
        var id := FieldId(TrimSpace(a[0]), keyword, own).value;
        var rest := Collect(a[1..], keyword, own).value;
        assert [id] + rest + y.value == [id] + (rest + y.value);
      }
    }
  }

  lemma CollectOne(field: string, keyword: string, own: int)
    ensures TrimSpace(field) == "" ==> Collect([field], keyword, own) == Some([])
    ensures TrimSpace(field) != "" ==>
              var id := FieldId(TrimSpace(field), keyword, own);
              Collect([field], keyword, own) == if id.None? then None else Some([id.value])
  {
    assert [field][1..] == [];
    var id := FieldId(TrimSpace(field), keyword, own);
    assert id.Some? ==> [id.value] + [] == [id.value];
  }

  /** The loop both parsers share. */
  method ParseFields(fields: seq<string>, keyword: string, own: int) returns (ok: bool, out: seq<uint32>)
    ensures (if ok then Some(out) else None) == Collect(fields, keyword, own)
  {
    ok, out := true, [];
    for i := 0 to |fields|
      invariant Collect(fields[..i], keyword, own) == Some(out)
    {
      assert fields == fields[..i] + [fields[i]] + fields[i + 1..];
      assert fields[..i + 1] == fields[..i] + [fields[i]];
      CollectConcat(fields[..i], [fields[i]], keyword, own);
      CollectConcat(fields[..i + 1], fields[i + 1..], keyword, own);
      CollectOne(fields[i], keyword, own);
      assert out + [] == out;
      var p := TrimSpace(fields[i]);
      if p == "" { continue; }
      var id := FieldId(p, keyword, own);
      if id.None? { return false, []; }
      out := out + [id.value];
    }
    assert fields[..|fields|] == fields;
  }

  /** Whether a peer may connect: its user is listed, and its group too when
      there is a group list. A peer without credentials may not. */
  method AllowPeer(peer: Option<(uint32, uint32)>, allow: seq<uint32>, gids: seq<uint32>) returns (ok: bool)
    ensures ok <==> peer.Some? && peer.value.0 in allow && (gids == [] || peer.value.1 in gids)
  {
    if |allow| == 0 || peer.None? { return false; }
    var (uid, gid) := peer.value;
    var uidOk := false;
    for i := 0 to |allow|
      invariant !uidOk && uid !in allow[..i]
    {
      if allow[i] == uid {
        uidOk := true;
        break;
      }
    }
    if !uidOk { return false; }
    if |gids| == 0 { return true; }
    for i := 0 to |gids|
      invariant gid !in gids[..i]
    {
      if gids[i] == gid { return true; }
    }
    return false;
  }

  // ----- round trip -----

  function Join(ids: seq<uint32>): string {
    if ids == [] then ""
    else if |ids| == 1 then Numeral(ids[0])
    else Numeral(ids[0]) + "," + Join(ids[1..])
  }

  lemma TrimNothing(s: string)
    requires s != "" && IsDigit(s[0]) && IsDigit(s[|s| - 1])
    ensures TrimSpace(s) == s
  {
  }

  lemma {:induction false} JoinEnds(ids: seq<uint32>)
    requires ids != []
    ensures var s := Join(ids); s != "" && IsDigit(s[0]) && IsDigit(s[|s| - 1])
  {
    if |ids| == 1 {
    } else {
      JoinEnds(ids[1..]);
    }
  }

  lemma {:induction false} SplitNone(x: string)
    requires ',' !in x
    ensures Split(x) == [x]
  {
    if x == "" {
    } else {
      SplitNone(x[1..]);
      assert [x[0]] + x[1..] == x && [x[1..]][1..] == [];
    }
  }

  lemma {:induction false} SplitOne(x: string, y: string)
    requires ',' !in x
    ensures Split(x + "," + y) == [x] + Split(y)
  {
    var s := x + "," + y;
    if x == "" {
      assert s[1..] == y;
    } else {
      assert s[1..] == x[1..] + "," + y;
      SplitOne(x[1..], y);
      assert [x[0]] + x[1..] == x && ([x[1..]] + Split(y))[1..] == Split(y);
    }
  }

  function Numerals(ids: seq<uint32>): (fields: seq<string>)
    ensures |fields| == |ids| && forall i | 0 <= i < |ids| :: fields[i] == Numeral(ids[i])
  {
    if ids == [] then [] else [Numeral(ids[0])] + Numerals(ids[1..])
  }

  lemma {:induction false} SplitOfJoin(ids: seq<uint32>)
    requires ids != []
    ensures Split(Join(ids)) == Numerals(ids)
  {
    assert ',' !in Numeral(ids[0]);
    if |ids| == 1 {
      SplitNone(Numeral(ids[0]));
    } else {
      SplitOne(Numeral(ids[0]), Join(ids[1..]));
      SplitOfJoin(ids[1..]);
    }
  }

  lemma NumeralIsField(id: uint32, keyword: string, own: int)
    requires keyword != "" && !IsDigit(keyword[0])
    ensures TrimSpace(Numeral(id)) == Numeral(id) != "" && FieldId(Numeral(id), keyword, own) == Some(id)
  {
    TrimNothing(Numeral(id));
    ValueOfNumeral(id);
    assert Numeral(id)[0] != keyword[0];
  }

  lemma {:induction false} CollectNumerals(ids: seq<uint32>, keyword: string, own: int)
    requires keyword != "" && !IsDigit(keyword[0])
    ensures Collect(Numerals(ids), keyword, own) == Some(ids)
  {
    if ids == [] {
    } else {
      CollectNumerals(ids[1..], keyword, own);
      NumeralIsField(ids[0], keyword, own);
      CollectFirst(Numeral(ids[0]), Numerals(ids[1..]), keyword, own);
      assert ids == [ids[0]] + ids[1..];
    }
  }

  lemma CollectFirst(field: string, more: seq<string>, keyword: string, own: int)
    requires TrimSpace(field) == field != "" && FieldId(field, keyword, own).Some? && Collect(more, keyword, own).Some?
    ensures Collect([field] + more, keyword, own) == Some([FieldId(field, keyword, own).value] + Collect(more, keyword, own).value)
  {
    assert ([field] + more)[1..] == more;
  }

  /** The comma-joined numerals of any non-empty list of ids parse back to it,
      as users and as groups. */
  lemma JoinedIdsParse(ids: seq<uint32>, euid: int, egid: int)
    requires ids != []
    ensures UidList(Join(ids), euid) == Ids(ids) && GidList(Join(ids), egid) == Ids(ids)
  {
    JoinEnds(ids);
    TrimNothing(Join(ids));
    SplitOfJoin(ids);
    CollectNumerals(ids, "euid", euid);
    CollectNumerals(ids, "egid", egid);
  }

  /** A written group restriction is an error or a non-empty list: it never
      reaches admission as "any group". Only the blank one does. */
  lemma WrittenGroupsRestrict(spec: string, euid: int, egid: int)
    ensures GidList(spec, egid) == Ids([]) <==> TrimSpace(spec) == ""
    ensures UidList(spec, euid).Ids? ==> UidList(spec, euid).ids != []
  {
  }

  // ----- what a written list means -----

  predicate AllSpace(s: string) {
    forall i | 0 <= i < |s| :: IsSpace(s[i])
  }

  lemma {:induction false} TrimLeftSpace(a: string, s: string)
    requires AllSpace(a)
    ensures TrimLeft(a + s) == TrimLeft(s)
  {
    if a == "" {
      assert a + s == s;
    } else {
      assert (a + s)[1..] == a[1..] + s;
      TrimLeftSpace(a[1..], s);
    }
  }

  lemma {:induction false} TrimRightSpace(s: string, b: string)
    requires AllSpace(b)
    ensures TrimRight(s + b) == TrimRight(s)
    decreases |b|
  {
    if b == "" {
      assert s + b == s;
    } else {
      var init := b[..|b| - 1];
      assert (s + b)[..|s + b| - 1] == s + init;
      TrimRightSpace(s, init);
    }
  }

  /** Trimming from the left stops at the first character that is no space. */
  lemma {:induction false} TrimLeftKeeps(s: string, b: string)
    requires AllSpace(b)
    ensures TrimRight(TrimLeft(s + b)) == TrimRight(TrimLeft(s))
  {
    if s == "" {
      assert s + b == b && b + "" == b;
      TrimLeftSpace(b, "");
    } else if IsSpace(s[0]) {
      assert (s + b)[1..] == s[1..] + b;
      TrimLeftKeeps(s[1..], b);
    } else {
      TrimRightSpace(s, b);
    }
  }

  /** Space around a text is ignored. */
  lemma TrimIgnoresSpace(a: string, s: string, b: string)
    requires AllSpace(a) && AllSpace(b)
    ensures TrimSpace(a + s + b) == TrimSpace(s)
  {
    assert a + s + b == a + (s + b);
    TrimLeftSpace(a, s + b);
    TrimLeftKeeps(s, b);
  }

  lemma {:induction false} TrimLeftSplits(s: string) returns (a: string)
    ensures AllSpace(a) && s == a + TrimLeft(s)
  {
    a := "";
    if s != "" && IsSpace(s[0]) {
      var more := TrimLeftSplits(s[1..]);
      a := [s[0]] + more;
    }
  }

  lemma {:induction false} TrimRightSplits(s: string) returns (b: string)
    ensures AllSpace(b) && s == TrimRight(s) + b
  {
    b := "";
    if s != "" && IsSpace(s[|s| - 1]) {
      var more := TrimRightSplits(s[..|s| - 1]);
      b := more + [s[|s| - 1]];
    }
  }

  lemma TrimLeftAlone(x: string)
    ensures TrimSpace(TrimLeft(x)) == TrimSpace(x)
  {
    var a := TrimLeftSplits(x);
    TrimIgnoresSpace(a, TrimLeft(x), "");
    assert a + TrimLeft(x) + "" == x;
  }

  lemma TrimRightAlone(x: string)
    ensures TrimSpace(TrimRight(x)) == TrimSpace(x)
  {
    var b := TrimRightSplits(x);
    TrimIgnoresSpace("", TrimRight(x), b);
    assert "" + TrimRight(x) + b == x;
  }

  lemma NoCommaAround(a: string, t: string, b: string)
    requires AllSpace(a) && AllSpace(b) && ',' !in t
    ensures ',' !in a + t + b
  {
  }

  lemma {:induction false} TrimLeftToComma(x: string, y: string)
    ensures TrimLeft(x + "," + y) == TrimLeft(x) + "," + y
  {
    if x == "" {
    } else if IsSpace(x[0]) {
      assert (x + "," + y)[1..] == x[1..] + "," + y;
      TrimLeftToComma(x[1..], y);
    }
  }

  lemma {:induction false} TrimRightToComma(x: string, y: string)
    ensures TrimRight(x + "," + y) == x + "," + TrimRight(y)
    decreases |y|
  {
    var s := x + "," + y;
    if y == "" {
      assert s[|s| - 1] == ',';
    } else if IsSpace(y[|y| - 1]) {
      assert s[..|s| - 1] == x + "," + y[..|y| - 1];
      TrimRightToComma(x, y[..|y| - 1]);
    }
  }

  /** The fields of a trimmed text: the first trimmed on the left, the last on the right. */
  function LeftTrimmed(fs: seq<string>): seq<string>
    requires fs != []
  {
    [TrimLeft(fs[0])] + fs[1..]
  }

  function RightTrimmed(fs: seq<string>): (gs: seq<string>)
    requires fs != []
    ensures |gs| == |fs|
  {
    if |fs| == 1 then [TrimRight(fs[0])] else [fs[0]] + RightTrimmed(fs[1..])
  }

  lemma TrimLeftOfJoined(fs: seq<string>)
    requires fs != []
    ensures TrimLeft(Joined(fs)) == Joined(LeftTrimmed(fs))
  {
    if |fs| > 1 {
      TrimLeftToComma(fs[0], Joined(fs[1..]));
      assert LeftTrimmed(fs)[1..] == fs[1..];
    }
  }

  lemma {:induction false} TrimRightOfJoined(fs: seq<string>)
    requires fs != []
    ensures TrimRight(Joined(fs)) == Joined(RightTrimmed(fs))
  {
    if |fs| == 1 {
    } else {
      TrimRightToComma(fs[0], Joined(fs[1..]));
      TrimRightOfJoined(fs[1..]);
      assert RightTrimmed(fs)[1..] == RightTrimmed(fs[1..]);
    }
  }

  /** The same fields but for space around them. */
  ghost predicate SameFields(fs: seq<string>, gs: seq<string>) {
    |fs| == |gs| && forall i | 0 <= i < |fs| :: TrimSpace(fs[i]) == TrimSpace(gs[i]) && (',' !in fs[i] ==> ',' !in gs[i])
  }

  lemma LeftTrimmedSame(fs: seq<string>)
    requires fs != []
    ensures SameFields(fs, LeftTrimmed(fs))
  {
    TrimLeftAlone(fs[0]);
    var a := TrimLeftSplits(fs[0]);
    assert ',' in TrimLeft(fs[0]) ==> ',' in a + TrimLeft(fs[0]);
  }

  lemma {:induction false} RightTrimmedSame(fs: seq<string>)
    requires fs != []
    ensures SameFields(fs, RightTrimmed(fs))
  {
    if |fs| == 1 {
      TrimRightAlone(fs[0]);
      var b := TrimRightSplits(fs[0]);
      assert ',' in TrimRight(fs[0]) ==> ',' in TrimRight(fs[0]) + b;
    } else {
      RightTrimmedSame(fs[1..]);
      assert forall i | 0 < i < |fs| :: fs[i] == fs[1..][i - 1] && RightTrimmed(fs)[i] == RightTrimmed(fs[1..])[i - 1];
    }
  }

  lemma {:induction false} CollectByFields(fs: seq<string>, gs: seq<string>, keyword: string, own: int)
    requires SameFields(fs, gs)
    ensures Collect(fs, keyword, own) == Collect(gs, keyword, own)
  {
    if fs == [] {
    } else {
      assert forall i | 0 <= i < |fs| - 1 :: fs[1..][i] == fs[i + 1] && gs[1..][i] == gs[i + 1];
      CollectByFields(fs[1..], gs[1..], keyword, own);
    }
  }

  /** Trimming the whole text first makes no difference: the fields are trimmed. */
  lemma TrimFirstOrNot(fs: seq<string>, keyword: string, own: int)
    requires fs != [] && forall i | 0 <= i < |fs| :: ',' !in fs[i]
    ensures Collect(Split(TrimSpace(Joined(fs))), keyword, own) == Collect(fs, keyword, own)
  {
    var gs := LeftTrimmed(fs);
    var hs := RightTrimmed(gs);
    TrimLeftOfJoined(fs);
    TrimRightOfJoined(gs);
    LeftTrimmedSame(fs);
    RightTrimmedSame(gs);
    CollectByFields(fs, gs, keyword, own);
    CollectByFields(gs, hs, keyword, own);
    SplitOfJoined(hs);
  }

  /** A field of a list, by what is written between the space around it. */
  datatype Entry = Blank | Own | Id(id: uint32) | Wrong(text: string)

  /** The text of an entry; `keyword` stands for the process's own id, and a wrong
      one is neither blank, nor the keyword, nor a 32-bit number in digits. */
  ghost predicate Writes(t: string, e: Entry, keyword: string) {
    match e
    case Blank => t == ""
    case Own => t == keyword
    case Id(n) => t != "" && AllDigits(t) && ValueOf(t) == n
    case Wrong(text) =>
      && t == text && text != "" && TrimSpace(text) == text && text != keyword && ',' !in text
      && !(AllDigits(text) && ValueOf(text) <= 0xffff_ffff)
  }

  ghost predicate WritesField(f: string, e: Entry, keyword: string) {
    exists a, t, b :: AllSpace(a) && AllSpace(b) && Writes(t, e, keyword) && f == a + t + b
  }

  /** The ids that entries stand for, or none if one of them is wrong, or is the
      process's own id and that is no 32-bit number. */
  function Meaning(es: seq<Entry>, own: int): Option<seq<uint32>> {
    if es == [] then Some([])
    else
      var rest := Meaning(es[1..], own);
      match es[0]
      case Blank => rest
      case Wrong(_) => None
      case Own => if rest.Some? && 0 <= own <= 0xffff_ffff then Some([own] + rest.value) else None
      case Id(n) => if rest.Some? then Some([n] + rest.value) else None
  }

  lemma FieldMeans(f: string, e: Entry, keyword: string, own: int)
    requires keyword in {"euid", "egid"} && WritesField(f, e, keyword)
    ensures ',' !in f
    ensures match e
            case Blank => TrimSpace(f) == ""
            case Own => TrimSpace(f) == keyword && FieldId(keyword, keyword, own) == if 0 <= own <= 0xffff_ffff then Some(own) else None
            case Id(n) => TrimSpace(f) != "" && FieldId(TrimSpace(f), keyword, own) == Some(n)
            case Wrong(_) => TrimSpace(f) != "" && FieldId(TrimSpace(f), keyword, own) == None
  {
    var a, t, b :| AllSpace(a) && AllSpace(b) && Writes(t, e, keyword) && f == a + t + b;
    TrimIgnoresSpace(a, t, b);
    if e.Id? {
      assert IsDigit(t[0]) && IsDigit(t[|t| - 1]);
      TrimNothing(t);
      assert IsDigit(TrimSpace(f)[0]);
    } else if e.Own? {
      assert TrimSpace(keyword) == keyword;
    }
    assert ',' !in t;
    NoCommaAround(a, t, b);
  }

  ghost predicate WritesAll(fs: seq<string>, es: seq<Entry>, keyword: string) {
    |fs| == |es| && forall i | 0 <= i < |fs| :: WritesField(fs[i], es[i], keyword)
  }

  lemma {:induction false} CollectMeans(fs: seq<string>, es: seq<Entry>, keyword: string, own: int)
    requires keyword in {"euid", "egid"} && WritesAll(fs, es, keyword)
    ensures Collect(fs, keyword, own) == Meaning(es, own)
  {
    if fs == [] {
    } else {
      FieldMeans(fs[0], es[0], keyword, own);
      assert forall i | 0 <= i < |fs| - 1 :: fs[1..][i] == fs[i + 1] && es[1..][i] == es[i + 1];
      CollectMeans(fs[1..], es[1..], keyword, own);
    }
  }

  function Joined(fs: seq<string>): string
    requires fs != []
  {
    if |fs| == 1 then fs[0] else fs[0] + "," + Joined(fs[1..])
  }

  lemma {:induction false} SplitOfJoined(fs: seq<string>)
    requires fs != [] && forall i | 0 <= i < |fs| :: ',' !in fs[i]
    ensures Split(Joined(fs)) == fs
  {
    if |fs| == 1 {
      SplitNone(fs[0]);
    } else {
      SplitOne(fs[0], Joined(fs[1..]));
      SplitOfJoined(fs[1..]);
    }
  }

  /** Both parsers, on any written list of entries with any space around them: the
      ids in order; the process's own where its keyword stands; blank entries are
      skipped; one wrong entry spoils the list; no entry at all is an empty
      allowlist of users, and of groups an error unless nothing is written. */
  lemma ListsMean(fs: seq<string>, es: seq<Entry>, euid: int, gs: seq<string>, hs: seq<Entry>, egid: int)
    requires fs != [] && WritesAll(fs, es, "euid") && gs != [] && WritesAll(gs, hs, "egid")
    ensures UidList(Joined(fs), euid)
         == match Meaning(es, euid) case None => BadAllowlist case Some(ids) => if ids == [] then EmptyAllowlist else Ids(ids)
    ensures TrimSpace(Joined(gs)) != "" ==>
              GidList(Joined(gs), egid)
              == match Meaning(hs, egid) case None => BadAllowlist case Some(ids) => if ids == [] then BadAllowlist else Ids(ids)
    ensures TrimSpace(Joined(gs)) == "" ==> GidList(Joined(gs), egid) == Ids([])
  {
    ListMeans(fs, es, "euid", euid);
    ListMeans(gs, hs, "egid", egid);
  }

  lemma ListMeans(fs: seq<string>, es: seq<Entry>, keyword: string, own: int)
    requires keyword in {"euid", "egid"} && fs != [] && WritesAll(fs, es, keyword)
    ensures Collect(Split(TrimSpace(Joined(fs))), keyword, own) == Meaning(es, own)
    ensures TrimSpace(Joined(fs)) == "" ==> Meaning(es, own) == Some([])
  {
    forall i | 0 <= i < |fs| ensures ',' !in fs[i] {
      FieldMeans(fs[i], es[i], keyword, own);
    }
    CollectMeans(fs, es, keyword, own);
    TrimFirstOrNot(fs, keyword, own);
    if TrimSpace(Joined(fs)) == "" {
      CollectOne("", keyword, own);
    }
  }
}
