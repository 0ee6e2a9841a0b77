/** The generation protocol run through the owner queue: what clients can rely
    on when any number of them inspect and revalidate at the same time. */
module DestRuns {
  import opened Words
  import opened Fnv
  import opened Generations
  import opened OwnerQueue

  datatype Answer = Listed(windows: Option<seq<WindowInfo>>) | Checked(error: Option<BackendError>)

  function AnswerTo(g: Gens, job: Job): Answer {
    match job
    case Inspect(v) =>
      Listed(if v.Readable() then Some(Snapshot(Exec(g, job), v, v.clients.value)) else None)
    case Check(ref, v) => Checked(Verdict(g, ref, v))
  }

  /** The owner's state after a schedule: the counters and the answers given. */
  function Serve(steps: seq<Step<Job>>): State<(Gens, seq<Answer>), Job> {
    Run(WithAnswers(Exec, AnswerTo), (FRESH, []), steps)
  }

  /** The accepted-reference theorem, both ways, on a sequence of jobs. */
  lemma AcceptedInSequence(jobs: seq<Job>, i: nat, j: nat, w: WindowInfo, ref: WindowRef, v: View)
    requires i < j < |jobs| && jobs[i].Inspect? && jobs[i].view.Readable()
    requires w in Snapshot(After(jobs[..i + 1]), jobs[i].view, jobs[i].view.clients.value)
    requires Sum(jobs[i].view.clients.value) != 0
    requires ref.displayGen == w.displayGen && ref.observeGen == w.observeGen
    ensures Verdict(After(jobs[..j]), ref, v).None? <==>
            && v.Readable() && Sum(v.clients.value) == Sum(jobs[i].view.clients.value)
            && Quiet(Sum(jobs[i].view.clients.value), jobs[i + 1..j]) && ref.xid in v.clients.value
            && (ref.expectedClass == "" || (ref.xid in v.classes && v.classes[ref.xid] == ref.expectedClass))
            && (ref.expectedPid == 0 || (ref.xid in v.pids && v.pids[ref.xid] == ref.expectedPid))
  {
    var g, mid := After(jobs[..i + 1]), jobs[i + 1..j];
    AfterOneMore(jobs, i);
    assert jobs[..j] == jobs[..i + 1] + mid;
    FoldConcat(Exec, FRESH, jobs[..i + 1], mid);
    AcceptedIff(Fold(Exec, g, mid), ref, v);
    if Verdict(Fold(Exec, g, mid), ref, v).None? {
      SameGenerationIsQuiet(g, mid);
    }
    if Quiet(g.listHash, mid) {
      QuietKeepsGens(g, mid);
    }
  }

  lemma AfterOneMore(jobs: seq<Job>, i: nat)
    requires i < |jobs|
    ensures After(jobs[..i + 1]) == Exec(After(jobs[..i]), jobs[i])
  {
    assert jobs[..i + 1][..i] == jobs[..i];
  }

  /** Over every interleaving: an inspect was answered with windows if and only if
      the list could be read, and then with all of them, in order, in the generation
      of the jobs up to it. */
  lemma InspectedUnderConcurrency(steps: seq<Step<Job>>, k: nat)
    requires k < |Serve(steps).finished| && Serve(steps).finished[k].job.Inspect?
    ensures var s := Serve(steps); var v, g := s.finished[k].job.view, After(Jobs(s.finished)[..k + 1]);
            && k < |s.x.1| && s.x.1[k].Listed? && (s.x.1[k].windows.Some? <==> v.Readable())
            && (v.Readable() ==>
                  var ws := s.x.1[k].windows.value;
                  && |ws| == |v.clients.value|
                  && forall i | 0 <= i < |ws| ::
                       ws[i].xid == v.clients.value[i] && ws[i].displayGen == g.displayGen && ws[i].observeGen == g.observeGen)
  {
    AnswersAreLinearizable(Exec, AnswerTo, FRESH, steps);
    AfterOneMore(Jobs(Serve(steps).finished), k);
  }

  /** Over every interleaving: if an inspect listed a window, then a later
      revalidation of a reference with its generations was answered with acceptance
      if and only if every job between them that read the client list saw the same
      sum, and the window is in the list, with the expected class and pid. */
  lemma AcceptedUnderConcurrency(steps: seq<Step<Job>>, i: nat, j: nat, w: WindowInfo, ref: WindowRef, v: View)
    requires var s := Serve(steps);
             && i < j < |s.finished| && j < |s.x.1|
             && s.x.1[i].Listed? && s.x.1[i].windows.Some? && w in s.x.1[i].windows.value
             && s.finished[j].job == Check(ref, v)
             && (s.finished[i].job.view.clients.Some? ==> Sum(s.finished[i].job.view.clients.value) != 0)
    requires ref.displayGen == w.displayGen && ref.observeGen == w.observeGen
    ensures Serve(steps).finished[i].job.view.Readable()
    ensures var s := Serve(steps); var issued := s.finished[i].job.view;
            s.x.1[j] == Checked(None) <==>
            && v.Readable() && Sum(v.clients.value) == Sum(issued.clients.value)
            && Quiet(Sum(issued.clients.value), Jobs(s.finished)[i + 1..j]) && ref.xid in v.clients.value
            && (ref.expectedClass == "" || (ref.xid in v.classes && v.classes[ref.xid] == ref.expectedClass))
            && (ref.expectedPid == 0 || (ref.xid in v.pids && v.pids[ref.xid] == ref.expectedPid))
  {
    AnswersAreLinearizable(Exec, AnswerTo, FRESH, steps);
    var jobs := Jobs(Serve(steps).finished);
    AfterOneMore(jobs, i);
    AcceptedInSequence(jobs, i, j, w, ref, v);
  }
}
