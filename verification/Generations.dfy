/** Window-reference generations: how the destination backend decides that a
    window reference handed out by an inspect still describes the client list.

    The two backend jobs that read the list, inspect and revalidate, update the
    same three numbers; what the rest of the world does in between shows only in
    the views they get. */
module Generations {
  import opened Words
  import opened Fnv

  const CLIENT_LIST: string := "_NET_CLIENT_LIST"

  datatype BackendError = RefMismatch | Unavailable | XCallFailed | CoordOutOfRange

  datatype WindowRef = WindowRef(displayGen: nat, observeGen: nat, xid: uint32, expectedClass: string, expectedPid: uint32)

  datatype WindowInfo = WindowInfo(xid: uint32, class_: string, pid: uint32, displayGen: nat, observeGen: nat)

  /** What the X server says about windows while one job runs. A window without
      a class hint has class "", one without a process property has pid 0. */
  datatype View = View(atomsReady: bool, supported: set<string>, clients: Option<seq<uint32>>,
                       classes: map<uint32, string>, pids: map<uint32, uint32>)
  {
    predicate Readable() {
      atomsReady && CLIENT_LIST in supported && clients.Some?
    }

    function ClassOf(x: uint32): string {
      if x in classes then classes[x] else ""
    }

    function PidOf(x: uint32): uint32 {
      if x in pids then pids[x] else 0
    }
  }

  /** The backend's counters. A list sum of 0 stands for "nothing observed yet". */
  datatype Gens = Gens(displayGen: nat, observeGen: nat, listHash: uint64)

  const FRESH: Gens := Gens(1, 1, 0)

  function Observe(g: Gens, sum: uint64): Gens {
    Gens(g.displayGen, if g.listHash != 0 && sum != g.listHash then g.observeGen + 1 else g.observeGen, sum)
  }

  datatype Job = Inspect(view: View) | Check(ref: WindowRef, view: View)

  /** Both jobs have the same effect on the counters. */
  function Exec(g: Gens, job: Job): Gens {
    if job.view.Readable() then Observe(g, Sum(job.view.clients.value)) else g
  }

  function Issue(g: Gens, v: View, x: uint32): WindowInfo {
    WindowInfo(x, v.ClassOf(x), v.PidOf(x), g.displayGen, g.observeGen)
  }

  function Matches(ref: WindowRef, class_: string, pid: uint32): bool {
    (ref.expectedClass != "" ==> class_ == ref.expectedClass) && (ref.expectedPid != 0 ==> pid == ref.expectedPid)
  }

  /** The answer of a revalidation in state `g`; None is acceptance. */
  function Verdict(g: Gens, ref: WindowRef, v: View): Option<BackendError> {
    if !v.Readable() then Some(Unavailable)
    else if g.listHash != 0 && Sum(v.clients.value) != g.listHash then Some(RefMismatch)
    else if ref.displayGen != g.displayGen || ref.observeGen != g.observeGen then Some(RefMismatch)
    else if ref.xid !in v.clients.value then Some(RefMismatch)
    else if !Matches(ref, v.ClassOf(ref.xid), v.PidOf(ref.xid)) then Some(RefMismatch)
    else None
  }

  /** The verdict written out: accepted if and only if the list can be read and has
      the stored sum (or none was stored), the generations are current, the window
      is listed, and class and pid are the expected ones where any are expected. */
  lemma AcceptedIff(g: Gens, ref: WindowRef, v: View)
    ensures Verdict(g, ref, v).None? <==>
            && v.atomsReady && "_NET_CLIENT_LIST" in v.supported && v.clients.Some?
            && (g.listHash == 0 || g.listHash == Sum(v.clients.value))
            && ref.displayGen == g.displayGen && ref.observeGen == g.observeGen && ref.xid in v.clients.value
            && (ref.expectedClass == "" || (ref.xid in v.classes && v.classes[ref.xid] == ref.expectedClass))
            && (ref.expectedPid == 0 || (ref.xid in v.pids && v.pids[ref.xid] == ref.expectedPid))
    ensures Verdict(g, ref, v) in {None, Some(Unavailable), Some(RefMismatch)}
    ensures Verdict(g, ref, v) == Some(Unavailable) <==>
            !(v.atomsReady && "_NET_CLIENT_LIST" in v.supported && v.clients.Some?)
  {
  }

  function After(jobs: seq<Job>): Gens {
    Fold(Exec, FRESH, jobs)
  }

  // ----- the generation counts changes of the observed sum -----

  /** The sums taken by a run, oldest first. */
  function Sums(jobs: seq<Job>): seq<uint64> {
    if jobs == [] then []
    else
      var last := jobs[|jobs| - 1].view;
      Sums(jobs[..|jobs| - 1]) + if last.Readable() then [Sum(last.clients.value)] else []
  }

  function Changes(sums: seq<uint64>): nat {
    if |sums| < 2 then 0
    else Changes(sums[..|sums| - 1]) + if sums[|sums| - 1] != sums[|sums| - 2] then 1 else 0
  }

  /** Changes away from a list whose sum is 0: the ones the counter misses. */
  function Missed(sums: seq<uint64>): nat {
    if |sums| < 2 then 0
    else Missed(sums[..|sums| - 1]) + if sums[|sums| - 1] != 0 && sums[|sums| - 2] == 0 then 1 else 0
  }

  function Last(sums: seq<uint64>): uint64 {
    if sums == [] then 0 else sums[|sums| - 1]
  }

  /** One more observation, on the counter and on the counts of changes. */
  lemma CountsGrow(g: Gens, sums: seq<uint64>, sum: uint64)
    requires g.listHash == Last(sums) && g.observeGen + Missed(sums) == 1 + Changes(sums)
    ensures Observe(g, sum).observeGen + Missed(sums + [sum]) == 1 + Changes(sums + [sum])
    ensures Observe(g, sum).listHash == Last(sums + [sum])
  {
    assert (sums + [sum])[..|sums|] == sums;
  }

  /** Over every run, the generation is 1 plus the number of adjacent changes of
      the observed sum, less those that left a zero sum. */
  lemma {:induction false} GenerationCountsChanges(jobs: seq<Job>)
    ensures After(jobs).observeGen + Missed(Sums(jobs)) == 1 + Changes(Sums(jobs))
    ensures After(jobs).listHash == Last(Sums(jobs))
    ensures After(jobs).displayGen == 1
  {
    if jobs == [] {
    } else {
      var init, v := jobs[..|jobs| - 1], jobs[|jobs| - 1].view;
      GenerationCountsChanges(init);
      if v.Readable() {
        CountsGrow(After(init), Sums(init), Sum(v.clients.value));
      } else {
        assert Sums(jobs) == Sums(init);
      }
    }
  }

  lemma {:induction false} MissedNothing(sums: seq<uint64>)
    ensures Missed(sums) == 0 <==> forall i | 0 < i < |sums| :: sums[i - 1] == 0 ==> sums[i] == 0
  {
    if |sums| < 2 {
    } else {
      var init := sums[..|sums| - 1];
      MissedNothing(init);
      assert forall i | 0 <= i < |init| :: init[i] == sums[i];
      if Missed(sums) == 0 {
        forall i | 0 < i < |sums| ensures sums[i - 1] == 0 ==> sums[i] == 0 {
          if i < |init| {
            assert init[i - 1] == 0 ==> init[i] == 0;
          }
        }
      } else if Missed(init) == 0 {
        assert sums[|sums| - 2] == 0 && sums[|sums| - 1] != 0;
      } else {
        var i :| 0 < i < |init| && !(init[i - 1] == 0 ==> init[i] == 0);
        assert !(sums[i - 1] == 0 ==> sums[i] == 0);
      }
    }
  }

  /** The generation counts every change exactly when no observed list that sums
      to 0 was followed by one that does not; in particular when none sums to 0. */
  lemma GenerationIsExact(jobs: seq<Job>)
    ensures After(jobs).observeGen == 1 + Changes(Sums(jobs))
       <==> forall i | 0 < i < |Sums(jobs)| :: Sums(jobs)[i - 1] == 0 ==> Sums(jobs)[i] == 0
  {
    GenerationCountsChanges(jobs);
    MissedNothing(Sums(jobs));
  }

  // ----- accepted references -----

  lemma {:induction false} GenerationNeverDecreases(g: Gens, jobs: seq<Job>)
    ensures Fold(Exec, g, jobs).observeGen >= g.observeGen
    ensures Fold(Exec, g, jobs).displayGen == g.displayGen
    decreases |jobs|
  {
    if jobs == [] {
    } else {
      GenerationNeverDecreases(g, jobs[..|jobs| - 1]);
    }
  }

  /** A reference that has fallen behind is rejected in every later state,
      whatever the list then looks like. */
  lemma StaleStaysRejected(before: seq<Job>, after: seq<Job>, ref: WindowRef, v: View)
    requires ref.observeGen < After(before).observeGen
    ensures Verdict(After(before + after), ref, v).Some?
  {
    FoldConcat(Exec, FRESH, before, after);
    GenerationNeverDecreases(After(before), after);
  }

  predicate Quiet(sum: uint64, jobs: seq<Job>) {
    forall i | 0 <= i < |jobs| :: jobs[i].view.Readable() ==> Sum(jobs[i].view.clients.value) == sum
  }

  lemma {:induction false} SameGenerationIsQuiet(g: Gens, jobs: seq<Job>)
    requires g.listHash != 0
    requires Fold(Exec, g, jobs).observeGen == g.observeGen
    ensures Quiet(g.listHash, jobs) && Fold(Exec, g, jobs) == g
    decreases |jobs|
  {
    if jobs == [] {
    } else {
      var init := jobs[..|jobs| - 1];
      GenerationNeverDecreases(g, init);
      SameGenerationIsQuiet(g, init);
      assert forall i | 0 <= i < |init| :: init[i] == jobs[i];
    }
  }

  lemma {:induction false} QuietKeepsGens(g: Gens, jobs: seq<Job>)
    requires Quiet(g.listHash, jobs)
    ensures Fold(Exec, g, jobs) == g
    decreases |jobs|
  {
    if jobs == [] {
    } else {
      QuietKeepsGens(g, jobs[..|jobs| - 1]);
    }
  }

  /** `ref` carries the generations of `g`, as every reference issued in it does. */
  predicate CarriesGens(ref: WindowRef, g: Gens) {
    ref.displayGen == g.displayGen && ref.observeGen == g.observeGen
  }

  /** If a reference of state `g` is accepted after the jobs `mid`, the list had
      the sum it has in `g` at every observation since, and still has it. */
  predicate Vouches(g: Gens, mid: seq<Job>, ref: WindowRef, v: View) {
    CarriesGens(ref, g) && Verdict(Fold(Exec, g, mid), ref, v).None?
    ==> v.Readable() && Sum(v.clients.value) == g.listHash && Quiet(g.listHash, mid)
  }

  /** The main protocol theorem. A reference issued by an inspect and accepted
      any number of jobs later: same sum at issue, at every observation between
      and now; the window is listed now; expected class and pid match. */
  lemma AcceptedRefIsCurrent(before: seq<Job>, issued: View, mid: seq<Job>, ref: WindowRef, v: View)
    requires issued.Readable() && Sum(issued.clients.value) != 0
    requires CarriesGens(ref, After(before + [Inspect(issued)]))
    requires Verdict(After(before + [Inspect(issued)] + mid), ref, v).None?
    ensures v.Readable() && Sum(v.clients.value) == Sum(issued.clients.value)
    ensures Quiet(Sum(issued.clients.value), mid)
    ensures ref.xid in v.clients.value
    ensures ref.expectedClass == "" || (ref.xid in v.classes && v.classes[ref.xid] == ref.expectedClass)
    ensures ref.expectedPid == 0 || (ref.xid in v.pids && v.pids[ref.xid] == ref.expectedPid)
  {
    var g := After(before + [Inspect(issued)]);
    assert (before + [Inspect(issued)])[..|before|] == before;
    FoldConcat(Exec, FRESH, before + [Inspect(issued)], mid);
    SameGenerationIsQuiet(g, mid);
  }

  /** The sentinel, exactly: references of a state vouch for the list over every
      continuation if and only if the stored sum of that state is not 0. */
  lemma VouchesIffNonzero(g: Gens)
    ensures (forall mid, ref, v :: Vouches(g, mid, ref, v)) <==> g.listHash != 0
  {
    if g.listHash != 0 {
      forall mid, ref, v ensures Vouches(g, mid, ref, v) {
        if CarriesGens(ref, g) && Verdict(Fold(Exec, g, mid), ref, v).None? {
          SameGenerationIsQuiet(g, mid);
        }
      }
    } else {
      var _, _ := AcceptedThoughChanged(g, 1);
    }
  }

  lemma AcceptedThoughChanged(g: Gens, x: uint32) returns (ref: WindowRef, v: View)
    requires g.listHash == 0
    ensures CarriesGens(ref, g) && ref.xid == x
    ensures v.Readable() && x in v.clients.value && Sum(v.clients.value) != 0
    ensures Verdict(g, ref, v).None? && !Vouches(g, [], ref, v)
  {
    var xids := NonzeroListWith(x);
    ref := WindowRef(g.displayGen, g.observeGen, x, "", 0);
    v := View(true, {CLIENT_LIST}, Some(xids), map[], map[]);
  }

  /** The family is not empty: an inspect can really store the sum 0, and the
      reference it issues is then accepted against a list with another sum. */
  lemma ZeroSumRefSurvivesChange() returns (issued: View, ref: WindowRef, v: View)
    ensures issued.Readable() && ref.xid in issued.clients.value
    ensures CarriesGens(ref, After([Inspect(issued)]))
    ensures v.Readable() && Sum(v.clients.value) != Sum(issued.clients.value)
    ensures Verdict(After([Inspect(issued)]), ref, v).None?
  {
    var xids: seq<uint32> := [0x53b9_6bd5, 0x3608_8742];
    ZeroSumList(xids);
    issued := View(true, {CLIENT_LIST}, Some(xids), map[], map[]);
    ref, v := AcceptedThoughChanged(After([Inspect(issued)]), xids[0]);
  }

  /** Replacing one window between two observations bumps the generation, so
      every reference issued up to the first one is rejected from then on. */
  lemma ReplacementInvalidates(before: seq<Job>, first: Job, second: Job, after: seq<Job>,
                               i: nat, x: uint32, ref: WindowRef, v: View)
    requires first.view.Readable() && second.view.Readable()
    requires Sum(first.view.clients.value) != 0
    requires i < |first.view.clients.value| && x != first.view.clients.value[i]
    requires second.view.clients.value == first.view.clients.value[i := x]
    requires ref.observeGen <= After(before + [first]).observeGen
    ensures After(before + [first, second]).observeGen == After(before + [first]).observeGen + 1
    ensures Verdict(After(before + [first, second] + after), ref, v).Some?
  {
    assert (before + [first])[..|before|] == before;
    assert (before + [first, second])[..|before| + 1] == before + [first];
    ReplacingOneChangesSum(first.view.clients.value, i, x);
    StaleStaysRejected(before + [first, second], after, ref, v);
  }

  // ----- the recording fake as a specification of the live backend -----

  /** The shipped fake: a fixed snapshot. No `supported` list means every atom. */
  datatype Fake = Fake(managed: seq<WindowInfo>, display: nat, observe: nat, supported: Option<seq<string>>)
  {
    predicate AtomOk(atom: string) {
      supported.Some? ==> atom in supported.value
    }

    function Revalidate(ref: WindowRef): Option<BackendError> {
      if !AtomOk(CLIENT_LIST) then Some(Unavailable)
      else if ref.xid == 0 then Some(RefMismatch)
      else if ref.displayGen != display || ref.observeGen != observe then Some(RefMismatch)
      else FirstMatch(managed, ref)
    }
  }

  /** The first managed window with the id decides. */
  function FirstMatch(managed: seq<WindowInfo>, ref: WindowRef): Option<BackendError> {
    if managed == [] then Some(RefMismatch)
    else if managed[0].xid != ref.xid then FirstMatch(managed[1..], ref)
    else if Matches(ref, managed[0].class_, managed[0].pid) then None
    else Some(RefMismatch)
  }

  function Snapshot(g: Gens, v: View, xids: seq<uint32>): (infos: seq<WindowInfo>)
    ensures |infos| == |xids|
    ensures forall i | 0 <= i < |xids| :: infos[i] == Issue(g, v, xids[i])
  {
    seq(|xids|, i requires 0 <= i < |xids| => Issue(g, v, xids[i]))
  }

  lemma {:induction false} FirstMatchInSnapshot(g: Gens, v: View, xids: seq<uint32>, ref: WindowRef)
    ensures FirstMatch(Snapshot(g, v, xids), ref)
         == if ref.xid in xids && Matches(ref, v.ClassOf(ref.xid), v.PidOf(ref.xid)) then None else Some(RefMismatch)
  {
    if xids == [] {
    } else {
      assert Snapshot(g, v, xids)[1..] == Snapshot(g, v, xids[1..]);
      FirstMatchInSnapshot(g, v, xids[1..], ref);
    }
  }

  /** With an unchanged list the live backend answers as the fake does on the
      same snapshot, exactly unless the reference has the window id 0, is current
      and a window 0 is listed with the expected class and pid: the fake alone
      refuses it, and no decoded request carries it. */
  lemma LiveAgreesWithFake(g: Gens, v: View, ref: WindowRef, fake: Fake)
    requires v.atomsReady && v.clients.Some?
    requires g.listHash == Sum(v.clients.value)
    requires fake.display == g.displayGen && fake.observe == g.observeGen
    requires fake.managed == Snapshot(g, v, v.clients.value)
    requires fake.AtomOk(CLIENT_LIST) <==> CLIENT_LIST in v.supported
    ensures Verdict(g, ref, v) == fake.Revalidate(ref)
       <==> !(ref.xid == 0 && CarriesGens(ref, g) && CLIENT_LIST in v.supported
              && 0 in v.clients.value && Matches(ref, v.ClassOf(0), v.PidOf(0)))
  {
    FirstMatchInSnapshot(g, v, v.clients.value, ref);
  }
}
