/** The task files: research creates them, the planner (`step_task`) claims and
    plans them, the implementer (`step_implement`) settles them. Each agent
    reads a whole file, keeps a copy, and later overwrites the whole file from
    its copy. Agents of different kinds interleave freely; runs of one kind
    exclude each other. */
module TaskQueue {
  import opened Prelude
  import opened ResearchFilter

  const MAX_ESTIMATE_MIN := 30

  /** The fields of the proposal, and those the agents add; a proposal can carry any of them. */
  datatype Task = Task(
    proposal: Proposal,
    claimedAt: Option<int>,
    resultPath: Option<string>,
    branch: Option<string>,
    failed: bool,
    obsolete: bool,
    others: map<string, string>)

  /** File names sort as their numbers do. */
  datatype File = File(name: nat, task: Task)

  datatype Planner =
    | PlannerIdle
    | Picked(name: nat, copy: Task)
    | Claiming(name: nat, copy: Task)
    | Planned(name: nat, copy: Task, path: string)

  datatype Implementer =
    | ImplementerIdle
    | Scanning(todo: seq<nat>)
    | Found(name: nat)
    | Working(name: nat, copy: Task)

  /** `plans` holds the result files: the planner's estimate, if it gave one. */
  datatype System = System(
    files: seq<File>, plans: map<string, Option<int>>, planner: Planner, implementer: Implementer)

  datatype Event =
    | Create(name: nat, task: Task)
    | Pick
    | Claim(at: int)
    | SavePlan(path: string, estimate: Option<int>)
    | PointAtPlan
    | PlannerDies
    | Scan
    | Look
    | Load
    | Fail(reason: string)
    | NoOp(summary: string)
    | Finish(branch: string, others: map<string, string>)
    | Abandon

  predicate Settled(t: Task) { t.branch.Some? || t.failed || t.obsolete }

  /** A planned task within bounds that has no verdict yet. */
  predicate Workable(t: Task) { t.resultPath.Some? && !Settled(t) && WithinBounds(t.proposal) }

  /** The gates of `_find_implementable_task`. */
  predicate Implementable(t: Task, plans: map<string, Option<int>>) {
    && Workable(t)
    && t.resultPath.value in plans
    && var estimate := plans[t.resultPath.value];
       !(estimate.Some? && estimate.value > MAX_ESTIMATE_MIN)
  }

  /** Position of the first file without a claim; the length when there is none. */
  function FirstUnclaimed(files: seq<File>): (i: nat)
    ensures i <= |files|
    ensures i < |files| ==> files[i].task.claimedAt.None?
    ensures forall j :: 0 <= j < i ==> files[j].task.claimedAt.Some?
  {
    if files == [] || files[0].task.claimedAt.None? then 0
    else
      var i := FirstUnclaimed(files[1..]);
      assert forall j :: 1 <= j < |files| ==> files[j] == files[1..][j - 1];
      i + 1
  }

  function FirstImplementable(files: seq<File>, plans: map<string, Option<int>>): (i: nat)
    ensures i <= |files|
    ensures i < |files| ==> Implementable(files[i].task, plans)
    ensures forall j :: 0 <= j < i ==> !Implementable(files[j].task, plans)
  {
    if files == [] || Implementable(files[0].task, plans) then 0
    else
      var i := FirstImplementable(files[1..], plans);
      assert forall j :: 1 <= j < |files| ==> files[j] == files[1..][j - 1];
      i + 1
  }

  /** The search loop of `step_task`. */
  method PickPending(files: seq<File>) returns (pending: Option<nat>)
    ensures pending == if FirstUnclaimed(files) < |files| then Some(FirstUnclaimed(files)) else None
  {
    pending := None;
    for i := 0 to |files|
      invariant pending.None? && forall j :: 0 <= j < i ==> files[j].task.claimedAt.Some?
    {
      if files[i].task.claimedAt.None? {
        return Some(i);
      }
    }
  }

  function Place(files: seq<File>, name: nat): (i: nat)
    ensures i <= |files|
    ensures i < |files| ==> files[i].name == name
    ensures forall j :: 0 <= j < i ==> files[j].name != name
  {
    if files == [] || files[0].name == name then 0
    else
      var i := Place(files[1..], name);
      assert forall j :: 1 <= j < |files| ==> files[j] == files[1..][j - 1];
      i + 1
  }

  /** Overwriting a whole file. */
  function Overwrite(files: seq<File>, name: nat, t: Task): (r: seq<File>)
    ensures |r| == |files|
    ensures forall i :: 0 <= i < |files| ==>
              r[i] == if files[i].name == name then File(name, t) else files[i]
  {
    seq(|files|, i requires 0 <= i < |files| => if files[i].name == name then File(name, t) else files[i])
  }

  /** The names `_find_implementable_task` will go through. */
  function Names(files: seq<File>): (r: seq<nat>)
    ensures |r| == |files| && forall i :: 0 <= i < |files| ==> r[i] == files[i].name
  {
    seq(|files|, i requires 0 <= i < |files| => files[i].name)
  }

  /** The scan has a next file to read. */
  predicate MayLook(s: System) {
    s.implementer.Scanning? && s.implementer.todo != [] && Place(s.files, s.implementer.todo[0]) < |s.files|
  }

  /** The file the scan reads next. */
  function NextFile(s: System): File
    requires MayLook(s)
  {
    s.files[Place(s.files, s.implementer.todo[0])]
  }

  /** `Create` is a proposal that has passed the research filter. `Pick` is the
      planner's search at the moment it reads the file it takes: the files
      before it are claimed, and nobody else claims. */
  predicate Enabled(s: System, e: Event) {
    match e
    case Create(name, t) => Kept(t.proposal) && forall f :: f in s.files ==> f.name < name
    case Pick => s.planner.PlannerIdle? && FirstUnclaimed(s.files) < |s.files|
    case Claim(_) => s.planner.Picked?
    case SavePlan(_, _) => s.planner.Claiming?
    case PointAtPlan => s.planner.Planned?
    case PlannerDies => !s.planner.PlannerIdle?
    case Scan => s.implementer.ImplementerIdle?
    case Look => MayLook(s)
    case Load => s.implementer.Found? && Place(s.files, s.implementer.name) < |s.files|
    case Fail(_) => s.implementer.Working?
    case NoOp(_) => s.implementer.Working?
    case Finish(_, _) => s.implementer.Working?
    case Abandon => !s.implementer.ImplementerIdle?
  }

  /** What a write means: the fields the event sets, everything else untouched. */
  function Edited(t: Task, e: Event, path: string): Task {
    match e
    case Claim(at) => t.(claimedAt := Some(at))
    case PointAtPlan => t.(resultPath := Some(path))
    case Fail(reason) => t.(failed := true, others := t.others["last_error" := reason])
    case NoOp(summary) => t.(obsolete := true, others := t.others["last_agent_summary" := summary])
    case Finish(branch, others) => t.(branch := Some(branch), others := t.others + others)
    case _ => t
  }

  /** What the agents do: overwrite the file with an edited private copy. */
  function Next(s: System, e: Event): System
    requires Enabled(s, e)
  {
    match e
    case Create(name, t) => s.(files := s.files + [File(name, t.(claimedAt := None, resultPath := None))])
    case Pick =>
      var f := s.files[FirstUnclaimed(s.files)];
      s.(planner := Picked(f.name, f.task))
    case Claim(at) =>
      var copy := Edited(s.planner.copy, e, "");
      s.(files := Overwrite(s.files, s.planner.name, copy), planner := Claiming(s.planner.name, copy))
    case SavePlan(path, estimate) =>
      s.(plans := s.plans[path := estimate], planner := Planned(s.planner.name, s.planner.copy, path))
    case PointAtPlan =>
      s.(files := Overwrite(s.files, s.planner.name, Edited(s.planner.copy, e, s.planner.path)), planner := PlannerIdle)
    case PlannerDies => s.(planner := PlannerIdle)
    case Scan => s.(implementer := Scanning(Names(s.files)))
    case Look =>
      s.(implementer := if Implementable(NextFile(s).task, s.plans) then Found(s.implementer.todo[0])
                        else Scanning(s.implementer.todo[1..]))
    case Load =>
      var f := s.files[Place(s.files, s.implementer.name)];
      s.(implementer := Working(f.name, f.task))
    case Abandon => s.(implementer := ImplementerIdle)
    case _ =>
      s.(files := Overwrite(s.files, s.implementer.name, Edited(s.implementer.copy, e, "")),
         implementer := ImplementerIdle)
  }

  // ---------------------------------------------------------------------------
  // The invariant
  // ---------------------------------------------------------------------------

  ghost predicate Sorted(files: seq<File>) {
    forall i, j :: 0 <= i < j < |files| ==> files[i].name < files[j].name
  }

  /** The claimed files come first. */
  ghost predicate ClaimedFirst(files: seq<File>) {
    forall i, j :: 0 <= i < j < |files| && files[j].task.claimedAt.Some? ==> files[i].task.claimedAt.Some?
  }

  ghost predicate PlannedAreClaimed(files: seq<File>) {
    forall f :: f in files && f.task.resultPath.Some? ==> f.task.claimedAt.Some?
  }

  /** A copy is what the file holds. */
  ghost predicate Current(files: seq<File>, name: nat, copy: Task) {
    File(name, copy) in files
  }

  ghost predicate Inv(s: System) {
    && Sorted(s.files) && ClaimedFirst(s.files)
    && PlannedAreClaimed(s.files)
    && (match s.planner
        case PlannerIdle => true
        case Picked(name, copy) =>
          && Current(s.files, name, copy) && copy.claimedAt.None? && copy.resultPath.None?
          && forall f :: f in s.files && f.name < name ==> f.task.claimedAt.Some?
        case Claiming(name, copy) => Current(s.files, name, copy) && copy.claimedAt.Some? && copy.resultPath.None?
        case Planned(name, copy, _) => Current(s.files, name, copy) && copy.claimedAt.Some? && copy.resultPath.None?)
    && (match s.implementer
        case ImplementerIdle => true
        case Scanning(_) => true
        case Found(name) => exists t: Task :: Current(s.files, name, t) && Workable(t)
        case Working(name, copy) => Current(s.files, name, copy) && Workable(copy))
  }

  /** Which file an event overwrites, if any. */
  predicate Writes(e: Event) {
    e.Claim? || e.PointAtPlan? || e.Fail? || e.NoOp? || e.Finish?
  }

  function Target(s: System, e: Event): nat
    requires Enabled(s, e) && Writes(e)
  {
    if e.Claim? || e.PointAtPlan? then s.planner.name else s.implementer.name
  }

  function PlanPath(s: System): string {
    if s.planner.Planned? then s.planner.path else ""
  }

  lemma OneFilePerName(files: seq<File>, f: File, g: File)
    requires Sorted(files) && f in files && g in files && f.name == g.name
    ensures f == g
  {
  }

  /** No lost update: although every write replaces a whole file from a copy
      read earlier, its effect is that of editing the file as it is now. */
  lemma WriteIsEdit(s: System, e: Event)
    requires Inv(s) && Enabled(s, e) && Writes(e)
    ensures |Next(s, e).files| == |s.files|
    ensures forall i :: 0 <= i < |s.files| ==>
              Next(s, e).files[i] == if s.files[i].name == Target(s, e)
                                     then File(s.files[i].name, Edited(s.files[i].task, e, PlanPath(s)))
                                     else s.files[i]
  {
    var copy := if e.Claim? || e.PointAtPlan? then s.planner.copy else s.implementer.copy;
    forall i | 0 <= i < |s.files| && s.files[i].name == Target(s, e)
      ensures s.files[i].task == copy
    {
      OneFilePerName(s.files, s.files[i], File(Target(s, e), copy));
    }
  }

  /** A copy of a file that is not the one overwritten stays current. */
  lemma CurrentElsewhere(files: seq<File>, name: nat, t: Task, other: nat, copy: Task)
    requires Current(files, other, copy) && other != name
    ensures Current(Overwrite(files, name, t), other, copy)
  {
    var i :| 0 <= i < |files| && files[i] == File(other, copy);
    assert Overwrite(files, name, t)[i] == files[i];
  }

  lemma CurrentAfterOwnWrite(files: seq<File>, name: nat, was: Task, t: Task)
    requires Current(files, name, was)
    ensures Current(Overwrite(files, name, t), name, t)
  {
    var i :| 0 <= i < |files| && files[i] == File(name, was);
    assert Overwrite(files, name, t)[i] == File(name, t);
  }

  lemma InvStep(s: System, e: Event)
    requires Inv(s) && Enabled(s, e)
    ensures Inv(Next(s, e))
  {
    if Writes(e) {
      WriteIsEdit(s, e);
      WriteKeepsInv(s, e);
    } else if e.Create? {
      CreateKeepsInv(s, e);
    } else if e.Look? {
      var f := NextFile(s);
      assert Current(s.files, f.name, f.task);
    } else if e.Load? {
      var f := s.files[Place(s.files, s.implementer.name)];
      var t: Task :| Current(s.files, f.name, t) && Workable(t);
      OneFilePerName(s.files, f, File(f.name, t));
    }
  }

  lemma CreateKeepsInv(s: System, e: Event)
    requires Inv(s) && Enabled(s, e) && e.Create?
    ensures Inv(Next(s, e))
  {
    var s' := Next(s, e);
    assert forall f :: f in s.files ==> f in s'.files;
    if s.implementer.Found? {
      var t: Task :| Current(s.files, s.implementer.name, t) && Workable(t);
      assert Current(s'.files, s.implementer.name, t);
    }
  }

  lemma WriteKeepsInv(s: System, e: Event)
    requires Inv(s) && Enabled(s, e) && Writes(e)
    ensures Inv(Next(s, e))
  {
    var s' := Next(s, e);
    WriteIsEdit(s, e);
    if e.Claim? || e.PointAtPlan? {
      CurrentAfterOwnWrite(s.files, s.planner.name, s.planner.copy, Edited(s.planner.copy, e, PlanPath(s)));
      PlannerWriteSparesImplementer(s, e);
    } else {
      ImplementerWriteSparesPlanner(s, e);
    }
    WriteKeepsFiles(s, e);
  }

  /** Overwriting a task keeps the claimed files first if its claim is kept, or
      new while every earlier file is claimed. */
  lemma OverwriteKeepsFiles(files: seq<File>, name: nat, was: Task, t: Task)
    requires Sorted(files) && ClaimedFirst(files) && PlannedAreClaimed(files) && Current(files, name, was)
    requires t.resultPath.Some? ==> t.claimedAt.Some?
    requires t.claimedAt == was.claimedAt
             || (t.claimedAt.Some? && forall f :: f in files && f.name < name ==> f.task.claimedAt.Some?)
    ensures var files' := Overwrite(files, name, t);
            Sorted(files') && ClaimedFirst(files') && PlannedAreClaimed(files')
  {
    var k :| 0 <= k < |files| && files[k] == File(name, was);
    var files' := files[k := File(name, t)];
    assert Overwrite(files, name, t) == files';
    forall i | 0 <= i < k && t.claimedAt.Some? ensures files[i].task.claimedAt.Some? {
      assert files[i] in files;
    }
    forall f | f in files' && f.task.resultPath.Some? ensures f.task.claimedAt.Some? {
      var i :| 0 <= i < |files'| && files'[i] == f;
      assert files[i] in files;
    }
  }

  lemma WriteKeepsFiles(s: System, e: Event)
    requires Inv(s) && Enabled(s, e) && Writes(e)
    ensures Sorted(Next(s, e).files) && ClaimedFirst(Next(s, e).files) && PlannedAreClaimed(Next(s, e).files)
  {
    var copy := if e.Claim? || e.PointAtPlan? then s.planner.copy else s.implementer.copy;
    assert File(Target(s, e), copy) in s.files;
    OverwriteKeepsFiles(s.files, Target(s, e), copy, Edited(copy, e, PlanPath(s)));
  }

  /** The planner only writes files without a result, the implementer only holds files with one. */
  lemma PlannerWriteSparesImplementer(s: System, e: Event)
    requires Inv(s) && Enabled(s, e) && (e.Claim? || e.PointAtPlan?)
    ensures var files := Next(s, e).files;
            match s.implementer
            case ImplementerIdle => true
            case Scanning(_) => true
            case Found(name) => exists t: Task :: Current(files, name, t) && Workable(t)
            case Working(name, copy) => Current(files, name, copy)
  {
    var written := Edited(s.planner.copy, e, PlanPath(s));
    match s.implementer
    case ImplementerIdle =>
    case Scanning(_) =>
    case Found(name) =>
      var t: Task :| Current(s.files, name, t) && Workable(t);
      if name == s.planner.name { OneFilePerName(s.files, File(name, t), File(name, s.planner.copy)); }
      CurrentElsewhere(s.files, s.planner.name, written, name, t);
    case Working(name, copy) =>
      if name == s.planner.name { OneFilePerName(s.files, File(name, copy), File(name, s.planner.copy)); }
      CurrentElsewhere(s.files, s.planner.name, written, name, copy);
  }

  lemma ImplementerWriteSparesPlanner(s: System, e: Event)
    requires Inv(s) && Enabled(s, e) && (e.Fail? || e.NoOp? || e.Finish?)
    ensures !s.planner.PlannerIdle? ==> Current(Next(s, e).files, s.planner.name, s.planner.copy)
  {
    if !s.planner.PlannerIdle? {
      var name, copy := s.implementer.name, s.implementer.copy;
      if name == s.planner.name { OneFilePerName(s.files, File(name, copy), File(name, s.planner.copy)); }
      CurrentElsewhere(s.files, name, Edited(copy, e, ""), s.planner.name, s.planner.copy);
    }
  }

  // ---------------------------------------------------------------------------
  // Runs
  // ---------------------------------------------------------------------------

  const EMPTY := System([], map[], PlannerIdle, ImplementerIdle)

  ghost predicate IsBehaviour(ss: seq<System>, es: seq<Event>) {
    && |ss| == |es| + 1
    && ss[0] == EMPTY
    && forall i :: 0 <= i < |es| ==> Enabled(ss[i], es[i]) && ss[i + 1] == Next(ss[i], es[i])
  }

  lemma {:induction false} InvAlways(ss: seq<System>, es: seq<Event>, n: nat)
    requires IsBehaviour(ss, es) && n < |ss|
    ensures Inv(ss[n])
  {
    if n > 0 {
      InvAlways(ss, es, n - 1);
      InvStep(ss[n - 1], es[n - 1]);
    }
  }

  /** In every reachable state the claimed files are exactly the files before
      the first unclaimed one, in name order. */
  lemma ClaimedFormPrefix(ss: seq<System>, es: seq<Event>, n: nat)
    requires IsBehaviour(ss, es) && n < |ss|
    ensures Sorted(ss[n].files)
    ensures forall i :: 0 <= i < |ss[n].files| ==>
              (ss[n].files[i].task.claimedAt.Some? <==> i < FirstUnclaimed(ss[n].files))
  {
    InvAlways(ss, es, n);
  }

  /** No update is lost in any interleaving: each write of a run does to the
      files what editing the written file's own fields in place would do. */
  lemma NoUpdateIsLost(ss: seq<System>, es: seq<Event>, n: nat)
    requires IsBehaviour(ss, es) && n < |es| && Writes(es[n])
    ensures |ss[n + 1].files| == |ss[n].files|
    ensures forall i :: 0 <= i < |ss[n].files| ==>
              ss[n + 1].files[i] == if ss[n].files[i].name == Target(ss[n], es[n])
                                    then File(ss[n].files[i].name, Edited(ss[n].files[i].task, es[n], PlanPath(ss[n])))
                                    else ss[n].files[i]
  {
    InvAlways(ss, es, n);
    WriteIsEdit(ss[n], es[n]);
  }

  /** How many of the three verdicts a task carries. */
  function Verdicts(t: Task): nat {
    (if t.branch.Some? then 1 else 0) + (if t.failed then 1 else 0) + (if t.obsolete then 1 else 0)
  }

  /** What a later version of a task may differ in: every field is written at
      most once, and a verdict is only ever added to a planned task within
      bounds that has none. */
  ghost predicate Progresses(t: Task, t': Task) {
    && (t.claimedAt.Some? ==> t'.claimedAt == t.claimedAt)
    && (t.resultPath.Some? ==> t'.resultPath == t.resultPath)
    && t'.proposal == t.proposal
    && (Settled(t) ==> t'.branch == t.branch && t'.failed == t.failed && t'.obsolete == t.obsolete)
    && (!Settled(t) ==> Verdicts(t') <= 1)
    && (!Settled(t) && Settled(t') ==> WithinBounds(t.proposal) && t'.resultPath.Some?)
  }

  lemma StepProgresses(s: System, e: Event, i: nat)
    requires Inv(s) && Enabled(s, e) && i < |s.files|
    ensures |s.files| <= |Next(s, e).files| && Next(s, e).files[i].name == s.files[i].name
    ensures Progresses(s.files[i].task, Next(s, e).files[i].task)
  {
    if Writes(e) {
      WriteIsEdit(s, e);
      var copy := if e.Claim? || e.PointAtPlan? then s.planner.copy else s.implementer.copy;
      if s.files[i].name == Target(s, e) {
        OneFilePerName(s.files, s.files[i], File(Target(s, e), copy));
      }
    }
  }

  /** The file at place `i` keeps its place and its name, and its task only progresses. */
  ghost predicate FileProgresses(files: seq<File>, files': seq<File>, i: nat) {
    && i < |files| && i < |files'|
    && files'[i].name == files[i].name && Progresses(files[i].task, files'[i].task)
  }

  lemma FileProgressesChains(files: seq<File>, files': seq<File>, files'': seq<File>, i: nat)
    requires FileProgresses(files, files', i) && FileProgresses(files', files'', i)
    ensures FileProgresses(files, files'', i)
  {
  }

  lemma FileProgressesOnce(ss: seq<System>, es: seq<Event>, n: nat, i: nat)
    requires IsBehaviour(ss, es) && n < |es| && i < |ss[n].files|
    ensures FileProgresses(ss[n].files, ss[n + 1].files, i)
  {
    InvAlways(ss, es, n);
    StepProgresses(ss[n], es[n], i);
  }

  lemma FileStands(files: seq<File>, i: nat)
    requires i < |files|
    ensures FileProgresses(files, files, i)
  {
  }

  /** Along any run every file only progresses: each field is written at most
      once, and a verdict only on a planned task within bounds without one. */
  lemma {:induction false} FieldsAreWrittenOnce(ss: seq<System>, es: seq<Event>, m: nat, n: nat, i: nat)
    requires IsBehaviour(ss, es) && m <= n < |ss| && i < |ss[m].files|
    ensures FileProgresses(ss[m].files, ss[n].files, i)
    decreases n
  {
    if m == n {
      FileStands(ss[m].files, i);
    } else {
      FieldsAreWrittenOnce(ss, es, m, n - 1, i);
      FileProgressesOnce(ss, es, n - 1, i);
      FileProgressesChains(ss[m].files, ss[n - 1].files, ss[n].files, i);
    }
  }

  /** Each task gets at most one of branch, failed and obsolete exactly when the
      research agent's own proposal carried at most one: the canonical keys it
      is overwritten with do not include these three. */
  lemma AtMostOneVerdictIffProposed(ss: seq<System>, es: seq<Event>, c: nat, n: nat, i: nat)
    requires IsBehaviour(ss, es) && c < n < |ss|
    requires es[c].Create? && i == |ss[c].files|
    ensures i < |ss[n].files| && (Verdicts(ss[n].files[i].task) <= 1 <==> Verdicts(es[c].task) <= 1)
  {
    assert ss[c + 1].files[i].task == es[c].task.(claimedAt := None, resultPath := None);
    FieldsAreWrittenOnce(ss, es, c + 1, n, i);
  }

  /** A proposal may carry two verdicts: its task has both from the start. */
  lemma ProposalWithTwoVerdicts() returns (ss: seq<System>, es: seq<Event>)
    ensures IsBehaviour(ss, es) && |es| == 1 && es[0].Create?
    ensures |ss[1].files| == 1 && Verdicts(ss[1].files[0].task) == 2
  {
    SampleIsKept("medium", PATH);
    es := [Create(1, Task(Sample("medium", PATH), None, None, None, true, true, map[]))];
    ss := [EMPTY, Next(EMPTY, es[0])];
  }

  lemma Extend(ss: seq<System>, es: seq<Event>, e: Event) returns (ss': seq<System>, es': seq<Event>)
    requires IsBehaviour(ss, es) && Enabled(ss[|es|], e)
    ensures es' == es + [e] && ss' == ss + [Next(ss[|es|], e)] && IsBehaviour(ss', es')
  {
    ss', es' := ss + [Next(ss[|es|], e)], es + [e];
    forall i | 0 <= i < |es'| ensures Enabled(ss'[i], es'[i]) && ss'[i + 1] == Next(ss'[i], es'[i]) {
      if i < |es| { assert ss'[i] == ss[i] && es'[i] == es[i]; }
    }
  }

  /** The task created by event `c` is in the implementer's hands at `n`. */
  ghost predicate PickedUp(ss: seq<System>, es: seq<Event>, c: int, n: int, t: Task) {
    && 0 <= c < n < |ss| && c < |es| && es[c].Create? && es[c].task == t
    && ss[n].implementer.Working? && ss[n].implementer.name == es[c].name
  }

  /** Some behaviour hands the kept task to the implementer. */
  ghost predicate CanBePickedUp(t: Task) {
    exists ss, es, c, n :: IsBehaviour(ss, es) && PickedUp(ss, es, c, n, t)
  }

  lemma PickedUpIsWorkable(ss: seq<System>, es: seq<Event>, c: nat, n: nat, t: Task)
    requires IsBehaviour(ss, es) && PickedUp(ss, es, c, n, t)
    ensures WithinBounds(t.proposal) && !Settled(t)
  {
    var i := |ss[c].files|;
    FieldsAreWrittenOnce(ss, es, c + 1, n, i);
    InvAlways(ss, es, n);
    OneFilePerName(ss[n].files, ss[n].files[i], File(es[c].name, ss[n].implementer.copy));
  }

  /** The straight way of one task from its creation to the implementer. */
  lemma StraightToImplementer(t: Task) returns (ss: seq<System>, es: seq<Event>)
    requires Kept(t.proposal) && WithinBounds(t.proposal) && !Settled(t)
    ensures IsBehaviour(ss, es) && PickedUp(ss, es, 0, 8, t)
  {
    ss, es := [EMPTY], [];
    ss, es := Extend(ss, es, Create(1, t));
    var created := t.(claimedAt := None, resultPath := None);
    assert ss[1].files == [File(1, created)];
    ss, es := Extend(ss, es, Pick);
    ss, es := Extend(ss, es, Claim(0));
    var claimed := created.(claimedAt := Some(0));
    assert ss[3] == System([File(1, claimed)], map[], Claiming(1, claimed), ImplementerIdle);
    ss, es := PlanAndLoad(ss, es, claimed);
  }

  lemma PlanAndLoad(ss: seq<System>, es: seq<Event>, claimed: Task) returns (ss': seq<System>, es': seq<Event>)
    requires IsBehaviour(ss, es) && |es| == 3
    requires ss[3] == System([File(1, claimed)], map[], Claiming(1, claimed), ImplementerIdle)
    requires WithinBounds(claimed.proposal) && !Settled(claimed)
    ensures IsBehaviour(ss', es') && |es'| == 8 && es <= es'
    ensures ss'[8].implementer.Working? && ss'[8].implementer.name == 1
  {
    var planned := claimed.(resultPath := Some("plan"));
    ss', es' := Extend(ss, es, SavePlan("plan", None));
    ss', es' := Extend(ss', es', PointAtPlan);
    assert ss'[5] == System([File(1, planned)], map["plan" := None], PlannerIdle, ImplementerIdle);
    ss', es' := Extend(ss', es', Scan);
    assert ss'[6].implementer == Scanning([1]);
    ss', es' := Extend(ss', es', Look);
    ss', es' := Extend(ss', es', Load);
  }

  /** A kept proposal can reach the implementer exactly when its priority is not
      high, no target begins with a blank and it carries no verdict: so the
      filter does let through tasks the implementer never picks up. */
  lemma PickedUpExactlyWhen(t: Task)
    requires Kept(t.proposal)
    ensures CanBePickedUp(t) <==>
              && t.proposal.priority != Some("high") && !Settled(t)
              && forall f :: f in t.proposal.targets ==> f != "" && !IsBlank(f[0])
  {
    KeptIsWithinBoundsExactlyWhen(t.proposal);
    if WithinBounds(t.proposal) && !Settled(t) {
      var ss, es := StraightToImplementer(t);
    }
    if CanBePickedUp(t) {
      var ss, es, c, n :| IsBehaviour(ss, es) && PickedUp(ss, es, c, n, t);
      PickedUpIsWorkable(ss, es, c, n, t);
    }
  }

  // ---------------------------------------------------------------------------
  // The implementer's scan
  // ---------------------------------------------------------------------------

  /** Event `k` reads the file of that name and passes it over. */
  ghost predicate PassesOver(ss: seq<System>, es: seq<Event>, k: int, name: nat) {
    && 0 <= k < |es| && k < |ss| && es[k].Look? && MayLook(ss[k])
    && NextFile(ss[k]).name == name && !Implementable(NextFile(ss[k]).task, ss[k].plans)
  }

  /** At some event from `m` up to `n` the file of that name was passed over. */
  ghost predicate PassedOver(ss: seq<System>, es: seq<Event>, m: int, n: int, name: nat) {
    exists k :: m < k < n && PassesOver(ss, es, k, name)
  }

  /** The scan that `m` began has by `n` passed over the first `p` of the files there were. */
  ghost predicate ScannedTo(ss: seq<System>, es: seq<Event>, m: int, n: int, p: int) {
    && 0 <= m < n < |ss| && m < |es| && es[m].Scan? && 0 <= p <= |ss[m].files|
    && forall q :: 0 <= q < p ==> PassedOver(ss, es, m, n, ss[m].files[q].name)
  }

  lemma {:induction false} ScanInOrder(ss: seq<System>, es: seq<Event>, n: nat) returns (m: nat, p: nat)
    requires IsBehaviour(ss, es) && n < |ss| && ss[n].implementer.Scanning?
    ensures ScannedTo(ss, es, m, n, p) && ss[n].implementer.todo == Names(ss[m].files)[p..]
  {
    ScanBefore(ss, es, n);
    if es[n - 1].Scan? {
      m, p := n - 1, 0;
    } else {
      m, p := ScanInOrder(ss, es, n - 1);
      p := ScanGoesOn(ss, es, m, n - 1, p);
    }
  }

  lemma ScanGoesOn(ss: seq<System>, es: seq<Event>, m: nat, n: nat, p: nat) returns (p': nat)
    requires IsBehaviour(ss, es) && n < |es| && ss[n + 1].implementer.Scanning? && !es[n].Scan?
    requires ScannedTo(ss, es, m, n, p) && ss[n].implementer == Scanning(Names(ss[m].files)[p..])
    ensures ScannedTo(ss, es, m, n + 1, p') && ss[n + 1].implementer.todo == Names(ss[m].files)[p'..]
  {
    ScanBefore(ss, es, n + 1);
    if es[n].Look? {
      assert Names(ss[m].files)[p..][1..] == Names(ss[m].files)[p + 1..];
      ScanAdvances(ss, es, m, n, p);
      p' := p + 1;
    } else {
      ScanWaits(ss, es, m, n, p);
      p' := p;
    }
  }

  /** How a scan in progress came about in the last step. */
  lemma ScanBefore(ss: seq<System>, es: seq<Event>, n: nat)
    requires IsBehaviour(ss, es) && n < |ss| && ss[n].implementer.Scanning?
    ensures n > 0
    ensures es[n - 1].Scan? ==> ss[n].implementer.todo == Names(ss[n - 1].files)
    ensures !es[n - 1].Scan? ==> ss[n - 1].implementer.Scanning?
    ensures es[n - 1].Look? ==>
              && MayLook(ss[n - 1]) && ss[n].implementer.todo == ss[n - 1].implementer.todo[1..]
              && PassesOver(ss, es, n - 1, ss[n - 1].implementer.todo[0])
    ensures !es[n - 1].Scan? && !es[n - 1].Look? ==> ss[n].implementer == ss[n - 1].implementer
  {
  }

  lemma ScanAdvances(ss: seq<System>, es: seq<Event>, m: nat, n: nat, p: nat)
    requires ScannedTo(ss, es, m, n, p) && n < |es| && n + 1 < |ss| && p < |ss[m].files|
    requires PassesOver(ss, es, n, ss[m].files[p].name)
    ensures ScannedTo(ss, es, m, n + 1, p + 1)
  {
    ScanWaits(ss, es, m, n, p);
    assert PassedOver(ss, es, m, n + 1, ss[m].files[p].name);
  }

  lemma ScanWaits(ss: seq<System>, es: seq<Event>, m: nat, n: nat, p: nat)
    requires ScannedTo(ss, es, m, n, p) && n + 1 < |ss|
    ensures ScannedTo(ss, es, m, n + 1, p)
  {
    forall q | 0 <= q < p ensures PassedOver(ss, es, m, n + 1, ss[m].files[q].name) {
      var k :| m < k < n && PassesOver(ss, es, k, ss[m].files[q].name);
    }
  }

  /** What a scan finds was implementable when it was read, and every file
      before it in name order was read earlier in the scan and was not. */
  lemma FoundAfterPassingOver(ss: seq<System>, es: seq<Event>, n: nat) returns (m: nat, p: nat)
    requires IsBehaviour(ss, es) && n < |es| && es[n].Look? && ss[n + 1].implementer.Found?
    ensures ScannedTo(ss, es, m, n, p) && p < |ss[m].files|
    ensures ss[n + 1].implementer.name == ss[m].files[p].name == NextFile(ss[n]).name
    ensures Implementable(NextFile(ss[n]).task, ss[n].plans)
  {
    m, p := ScanInOrder(ss, es, n);
  }

  /** If nothing is written meanwhile, that is the first implementable file. */
  lemma QuietScanFindsFirst(ss: seq<System>, es: seq<Event>, n: nat, m: nat, p: nat)
    requires IsBehaviour(ss, es) && n < |es| && es[n].Look? && ss[n + 1].implementer.Found?
    requires ScannedTo(ss, es, m, n, p) && p < |ss[m].files| && ss[n + 1].implementer.name == ss[m].files[p].name
    requires forall k :: m <= k <= n ==> ss[k].files == ss[m].files && ss[k].plans == ss[m].plans
    ensures FirstImplementable(ss[n].files, ss[n].plans) == p
  {
    InvAlways(ss, es, n);
    var files := ss[n].files;
    OneFilePerName(files, files[p], NextFile(ss[n]));
    forall q | 0 <= q < p ensures !Implementable(files[q].task, ss[n].plans) {
      var k :| m < k < n && PassesOver(ss, es, k, files[q].name);
      OneFilePerName(files, files[q], NextFile(ss[k]));
    }
  }

  // ---------------------------------------------------------------------------
  // What every event leaves in the files
  // ---------------------------------------------------------------------------

  /** The file at place `i` is the one the implementer is working on. */
  predicate ImplementersFile(s: System, i: nat)
    requires i < |s.files|
  {
    s.implementer.Working? && s.files[i].name == s.implementer.name
  }

  /** The file at place `i` is the one the planner has in hand. */
  predicate PlannersFile(s: System, i: nat)
    requires i < |s.files|
  {
    !s.planner.PlannerIdle? && s.files[i].name == s.planner.name
  }

  /** In every behaviour the implementer ends with exactly one verdict on its
      file, the one its outcome calls for, and the rest of the file is what it
      held just before. */
  lemma ImplementerWrites(ss: seq<System>, es: seq<Event>, n: nat, i: nat)
    requires IsBehaviour(ss, es) && n < |es| && i < |ss[n].files|
    requires es[n].Fail? || es[n].NoOp? || es[n].Finish?
    ensures i < |ss[n + 1].files| && ss[n + 1].files[i].name == ss[n].files[i].name
    ensures var t, t' := ss[n].files[i].task, ss[n + 1].files[i].task;
            if !ImplementersFile(ss[n], i) then t' == t
            else
              && t.branch == None && !t.failed && !t.obsolete
              && (match es[n]
                  case Fail(reason) =>
                    t' == Task(t.proposal, t.claimedAt, t.resultPath, None, true, false, t.others["last_error" := reason])
                  case NoOp(summary) =>
                    t' == Task(t.proposal, t.claimedAt, t.resultPath, None, false, true,
                               t.others["last_agent_summary" := summary])
                  case Finish(branch, others) =>
                    t' == Task(t.proposal, t.claimedAt, t.resultPath, Some(branch), false, false, t.others + others)
                  case _ => true)
  {
    InvAlways(ss, es, n);
    WriteIsEdit(ss[n], es[n]);
    if ImplementersFile(ss[n], i) {
      OneFilePerName(ss[n].files, ss[n].files[i], File(ss[n].implementer.name, ss[n].implementer.copy));
    }
  }

  /** In every behaviour the planner first claims its file, unclaimed until then,
      and later sets the path it saved the plan under, unset until then. */
  lemma PlannerWrites(ss: seq<System>, es: seq<Event>, n: nat, i: nat)
    requires IsBehaviour(ss, es) && n < |es| && i < |ss[n].files| && (es[n].Claim? || es[n].PointAtPlan?)
    ensures i < |ss[n + 1].files| && ss[n + 1].files[i].name == ss[n].files[i].name
    ensures var t, t' := ss[n].files[i].task, ss[n + 1].files[i].task;
            if !PlannersFile(ss[n], i) then t' == t
            else if es[n].Claim? then
              && t.claimedAt == None && t.resultPath == None
              && t' == Task(t.proposal, Some(es[n].at), None, t.branch, t.failed, t.obsolete, t.others)
            else
              && t.claimedAt != None && t.resultPath == None
              && exists k :: SavedLast(es, k, n)
                   && t' == Task(t.proposal, t.claimedAt, Some(es[k].path), t.branch, t.failed, t.obsolete, t.others)
  {
    InvAlways(ss, es, n);
    WriteIsEdit(ss[n], es[n]);
    if PlannersFile(ss[n], i) {
      OneFilePerName(ss[n].files, ss[n].files[i], File(ss[n].planner.name, ss[n].planner.copy));
    }
    if es[n].PointAtPlan? {
      var k := PlanWasSaved(ss, es, n);
    }
  }

  /** Event `k` is the last plan saved before `n`. */
  ghost predicate SavedLast(es: seq<Event>, k: int, n: int) {
    0 <= k < n <= |es| && es[k].SavePlan? && forall j :: k < j < n ==> !es[j].SavePlan?
  }

  lemma {:induction false} PlanWasSaved(ss: seq<System>, es: seq<Event>, n: nat) returns (k: nat)
    requires IsBehaviour(ss, es) && n < |ss| && ss[n].planner.Planned?
    ensures SavedLast(es, k, n) && es[k].path == ss[n].planner.path
  {
    PlannedBefore(ss, es, n);
    if es[n - 1].SavePlan? {
      k := n - 1;
    } else {
      k := PlanWasSaved(ss, es, n - 1);
    }
  }

  lemma PlannedBefore(ss: seq<System>, es: seq<Event>, n: nat)
    requires IsBehaviour(ss, es) && n < |ss| && ss[n].planner.Planned?
    ensures n > 0
    ensures if es[n - 1].SavePlan? then es[n - 1].path == ss[n].planner.path else ss[n - 1].planner == ss[n].planner
  {
  }

  /** A new task holds what was proposed, unclaimed and unplanned, after all the
      files there were; no other event adds, removes or renames a file, and only
      the five writing events change one. */
  lemma OnlyWritesChangeFiles(ss: seq<System>, es: seq<Event>, n: nat)
    requires IsBehaviour(ss, es) && n < |es| && !Writes(es[n])
    ensures ss[n + 1].files ==
              match es[n]
              case Create(name, t) =>
                ss[n].files + [File(name, Task(t.proposal, None, None, t.branch, t.failed, t.obsolete, t.others))]
              case _ => ss[n].files
  {
  }

  // ---------------------------------------------------------------------------
  // The gates of the implementer
  // ---------------------------------------------------------------------------

  /** A file read by the scan is taken exactly when it has a saved plan of at
      most 30 minutes (or of no stated length), carries no verdict, is not of
      high priority and only targets src/ and tests/. */
  lemma TakenExactlyWhen(ss: seq<System>, es: seq<Event>, n: nat)
    requires IsBehaviour(ss, es) && n < |es| && es[n].Look?
    ensures MayLook(ss[n])
    ensures var t, plans := NextFile(ss[n]).task, ss[n].plans;
            ss[n + 1].implementer == Found(NextFile(ss[n]).name) <==>
              && t.branch == None && !t.failed && !t.obsolete
              && t.proposal.priority != Some("high")
              && |t.proposal.targets| > 0
              && (forall f :: f in t.proposal.targets ==> "src/" <= f || "tests/" <= f)
              && exists path :: t.resultPath == Some(path) && path in plans
                   && (plans[path] == None || exists m :: m <= 30 && plans[path] == Some(m))
  {
    var t, plans := NextFile(ss[n]).task, ss[n].plans;
    if t.resultPath.Some? && t.resultPath.value in plans {
      var estimate := plans[t.resultPath.value];
      assert estimate.Some? ==> estimate == Some(estimate.value);
    }
  }

  predicate IsPending(t: Task) { t.claimedAt.None? }
  predicate IsExecuting(t: Task) { t.claimedAt.Some? && t.resultPath.None? }
  predicate IsCompleted(t: Task) { t.claimedAt.Some? && t.resultPath.Some? }
  predicate IsOpen(t: Task) { t.branch.Some? }
  predicate HasFailed(t: Task) { t.failed }

  /** `_collect_stats` over the task files. */
  method CollectStats(files: seq<File>)
    returns (pending: nat, executing: nat, completed: nat, open: nat, failed: nat)
    ensures pending + executing + completed == |files|
    ensures pending == Count(files, IsPending)
    ensures executing == Count(files, IsExecuting)
    ensures completed == Count(files, IsCompleted)
    ensures open == Count(files, IsOpen)
    ensures failed == Count(files, HasFailed)
  {
    pending, executing, completed, open, failed := 0, 0, 0, 0, 0;
    for i := 0 to |files|
      invariant pending + executing + completed == i
      invariant pending == Count(files[..i], IsPending)
      invariant executing == Count(files[..i], IsExecuting)
      invariant completed == Count(files[..i], IsCompleted)
      invariant open == Count(files[..i], IsOpen)
      invariant failed == Count(files[..i], HasFailed)
    {
      var data := files[i].task;
      assert files[..i + 1][..i] == files[..i] && files[..i + 1][i] == files[i];
      if data.claimedAt.None? {
        pending := pending + 1;
      } else if data.resultPath.None? {
        executing := executing + 1;
      } else {
        completed := completed + 1;
      }
      if data.branch.Some? {
        open := open + 1;
      }
      if data.failed {
        failed := failed + 1;
      }
    }
    assert files[..|files|] == files;
  }

  /** What the five counters count. */
  lemma StatsMean(files: seq<File>)
    ensures Count(files, IsPending) == |set i | 0 <= i < |files| && files[i].task.claimedAt == None|
    ensures Count(files, IsExecuting)
         == |set i | 0 <= i < |files| && files[i].task.claimedAt != None && files[i].task.resultPath == None|
    ensures Count(files, IsCompleted)
         == |set i | 0 <= i < |files| && files[i].task.claimedAt != None && files[i].task.resultPath != None|
    ensures Count(files, IsOpen) == |set i | 0 <= i < |files| && files[i].task.branch != None|
    ensures Count(files, HasFailed) == |set i | 0 <= i < |files| && files[i].task.failed|
  {
    CountMeans(files, IsPending, set i | 0 <= i < |files| && files[i].task.claimedAt == None);
    CountMeans(files, IsExecuting,
               set i | 0 <= i < |files| && files[i].task.claimedAt != None && files[i].task.resultPath == None);
    CountMeans(files, IsCompleted,
               set i | 0 <= i < |files| && files[i].task.claimedAt != None && files[i].task.resultPath != None);
    CountMeans(files, IsOpen, set i | 0 <= i < |files| && files[i].task.branch != None);
    CountMeans(files, HasFailed, set i | 0 <= i < |files| && files[i].task.failed);
  }

  lemma CountMeans(files: seq<File>, p: Task -> bool, places: set<int>)
    requires forall i :: i in places <==> 0 <= i < |files| && p(files[i].task)
    ensures Count(files, p) == |places|
  {
    CountIsCardinality(files, p);
    assert PlacesOf(files, p) == places;
  }

  ghost function PlacesOf(files: seq<File>, p: Task -> bool): set<int> { set i | 0 <= i < |files| && p(files[i].task) }

  lemma {:induction false} CountIsCardinality(files: seq<File>, p: Task -> bool)
    ensures Count(files, p) == |PlacesOf(files, p)|
  {
    if files == [] {
      assert PlacesOf(files, p) == {};
    } else {
      var n := |files| - 1;
      CountIsCardinality(files[..n], p);
      assert PlacesOf(files, p) == PlacesOf(files[..n], p) + if p(files[n].task) then {n} else {};
      assert n !in PlacesOf(files[..n], p);
    }
  }

  /** Number of files whose task satisfies `p`. */
  function Count(files: seq<File>, p: Task -> bool): nat {
    if files == [] then 0
    else Count(files[..|files| - 1], p) + if p(files[|files| - 1].task) then 1 else 0
  }

  /** Where the claimed files come first, the files not pending are those before the first unclaimed one. */
  lemma {:induction false} PendingIsTheRest(files: seq<File>)
    requires ClaimedFirst(files)
    ensures Count(files, IsPending) == |files| - FirstUnclaimed(files)
  {
    if files != [] {
      var n := |files| - 1;
      var before := files[..n];
      PendingIsTheRest(before);
      var i, k := FirstUnclaimed(files), FirstUnclaimed(before);
      assert k < n ==> before[k] == files[k];
      assert i < n ==> before[i] == files[i];
      assert k < n ==> i == k;
    }
  }

  /** In every reachable state the heartbeat's pending count is what the claimed prefix leaves. */
  lemma PendingComplementsPrefix(ss: seq<System>, es: seq<Event>, n: nat)
    requires IsBehaviour(ss, es) && n < |ss|
    ensures Count(ss[n].files, IsPending) == |ss[n].files| - FirstUnclaimed(ss[n].files)
  {
    InvAlways(ss, es, n);
    PendingIsTheRest(ss[n].files);
  }
}
