/** The gated stages of the cron pipeline (test, code-review, qc, deploy) as
    processes that meet only through result envelopes. Every process, whether
    started by cron or by the orchestrator, is a run with a start (where the
    gate is read) and an end (where the envelope is written); runs interleave
    freely. */
module GateChain {

  const HOUR := 3600
  const MAX_AGE := 24 * HOUR

  datatype Stage = Test | CodeReview | Qc | Deploy

  datatype Status = Pass | Fail | Skipped | Error

  datatype Envelope = Envelope(status: Status, generatedAt: int)

  datatype Running = Running(stage: Stage, startedAt: int)

  datatype World = World(clock: int, envelopes: map<Stage, Envelope>, running: map<nat, Running>)

  /** One atomic step of some process.
      `Start`: a run begins and, past the test stage, reads its gate.
      `PytestEnds`: pytest is over; no return code stands for the timeout.
      `Ends`: a judged stage or the deploy script is over, with its status.
      `Raises`: the run dies with an exception that its caller turns into a fail envelope.
      `Killed`: the run dies without a trace. */
  datatype Event =
    | Start(at: int, id: nat, stage: Stage)
    | PytestEnds(at: int, id: nat, returncode: int, timedOut: bool)
    | Ends(at: int, id: nat, status: Status)
    | Raises(at: int, id: nat)
    | Killed(at: int, id: nat)

  function Gate(stage: Stage): Stage
    requires stage != Test
  {
    match stage
    case CodeReview => Test
    case Qc => CodeReview
    case Deploy => Qc
  }

  /** `_is_green_today`. */
  predicate IsGreen(w: World, stage: Stage, now: int) {
    && stage in w.envelopes
    && w.envelopes[stage].status == Pass
    && now - w.envelopes[stage].generatedAt <= MAX_AGE
  }

  predicate MayRun(w: World, stage: Stage, now: int) {
    stage == Test || IsGreen(w, Gate(stage), now)
  }

  predicate Enabled(w: World, e: Event) {
    && w.clock <= e.at
    && match e
       case Start(_, id, _) => id !in w.running
       case PytestEnds(_, id, _, _) => id in w.running && w.running[id].stage == Test
       case Ends(_, id, _) => id in w.running && w.running[id].stage != Test
       case Raises(_, id) => id in w.running
       case Killed(_, id) => id in w.running
  }

  function Write(w: World, at: int, stage: Stage, status: Status): World {
    w.(clock := at, envelopes := w.envelopes[stage := Envelope(status, at)])
  }

  function Next(w: World, e: Event): World
    requires Enabled(w, e)
  {
    match e
    case Start(at, id, stage) =>
      if MayRun(w, stage, at) then w.(clock := at, running := w.running[id := Running(stage, at)])
      else Write(w, at, stage, Skipped)
    case PytestEnds(at, id, returncode, timedOut) =>
      Write(w, at, Test, if !timedOut && returncode == 0 then Pass else Fail).(running := w.running - {id})
    case Ends(at, id, status) =>
      Write(w, at, w.running[id].stage, status).(running := w.running - {id})
    case Raises(at, id) =>
      Write(w, at, w.running[id].stage, Fail).(running := w.running - {id})
    case Killed(at, id) =>
      w.(clock := at, running := w.running - {id})
  }

  const EMPTY := World(0, map[], map[])

  /** Any interleaving of runs, from an empty results directory. */
  ghost predicate IsBehaviour(ws: seq<World>, es: seq<Event>) {
    && |ws| == |es| + 1
    && ws[0] == EMPTY
    && forall i :: 0 <= i < |es| ==> Enabled(ws[i], es[i]) && ws[i + 1] == Next(ws[i], es[i])
  }

  /** Every run of a stage that reaches its end takes at most `d`. */
  ghost predicate DurationsWithin(ws: seq<World>, es: seq<Event>, d: int)
    requires IsBehaviour(ws, es)
  {
    forall i :: 0 <= i < |es| && es[i].Ends? ==> es[i].at - ws[i].running[es[i].id].startedAt <= d
  }

  /** Event `i` is a start whose run got past its gate. */
  ghost predicate Started(ws: seq<World>, es: seq<Event>, i: int, id: nat, stage: Stage, at: int)
    requires IsBehaviour(ws, es)
  {
    0 <= i < |es| && es[i] == Start(at, id, stage) && MayRun(ws[i], stage, at)
  }

  /** A real pytest success. */
  ghost predicate TestPassed(es: seq<Event>, i: int, at: int) {
    0 <= i < |es| && es[i].PytestEnds? && es[i].at == at && !es[i].timedOut && es[i].returncode == 0
  }

  /** A run of the stage got past its gate at event `i` and passed at event `j`. */
  ghost predicate StagePassed(ws: seq<World>, es: seq<Event>, stage: Stage, i: int, j: int)
    requires IsBehaviour(ws, es)
  {
    && 0 <= i < j < |es| && stage != Test
    && es[j].Ends? && es[j].status == Pass
    && Started(ws, es, i, es[j].id, stage, es[i].at)
    && j < |ws| && es[j].id in ws[j].running && ws[j].running[es[j].id] == Running(stage, es[i].at)
  }

  /** Whatever is running was started, past its gate, by an earlier event. */
  lemma {:induction false} RunningWasStarted(ws: seq<World>, es: seq<Event>, n: nat, id: nat)
    requires IsBehaviour(ws, es) && n < |ws| && id in ws[n].running
    ensures exists i :: i < n && Started(ws, es, i, id, ws[n].running[id].stage, ws[n].running[id].startedAt)
  {
    var e := es[n - 1];
    if e.Start? && e.id == id {
      assert Started(ws, es, n - 1, id, e.stage, e.at);
    } else {
      assert id in ws[n - 1].running && ws[n - 1].running[id] == ws[n].running[id];
      RunningWasStarted(ws, es, n - 1, id);
    }
  }

  /** Whatever envelope says pass was written by a real success at its date:
      pytest's, or a judged run's that itself got past its gate. */
  lemma {:induction false} PassWasEarned(ws: seq<World>, es: seq<Event>, n: nat, stage: Stage)
    requires IsBehaviour(ws, es) && n < |ws|
    requires stage in ws[n].envelopes && ws[n].envelopes[stage].status == Pass
    ensures stage == Test ==> exists p :: p < n && TestPassed(es, p, ws[n].envelopes[stage].generatedAt)
    ensures stage != Test ==>
              exists i, j :: j < n && StagePassed(ws, es, stage, i, j) && es[j].at == ws[n].envelopes[stage].generatedAt
  {
    var e, was := es[n - 1], ws[n - 1];
    if e.PytestEnds? && stage == Test {
      assert TestPassed(es, n - 1, e.at);
    } else if e.Ends? && was.running[e.id].stage == stage {
      RunningWasStarted(ws, es, n - 1, e.id);
      var i :| i < n - 1 && Started(ws, es, i, e.id, stage, was.running[e.id].startedAt);
      assert StagePassed(ws, es, stage, i, n - 1);
    } else {
      assert stage in was.envelopes && was.envelopes[stage] == ws[n].envelopes[stage];
      PassWasEarned(ws, es, n - 1, stage);
    }
  }

  /** Event `i` writes the stage's envelope: the end of a run of it, its death
      by exception, or a start its gate turns away. */
  ghost predicate WritesEnvelope(ws: seq<World>, es: seq<Event>, i: int, stage: Stage)
    requires IsBehaviour(ws, es) && 0 <= i < |es|
  {
    match es[i]
    case Start(at, _, s) => s == stage && !MayRun(ws[i], stage, at)
    case PytestEnds(_, _, _, _) => stage == Test
    case Ends(_, id, _) => id in ws[i].running && ws[i].running[id].stage == stage
    case Raises(_, id) => id in ws[i].running && ws[i].running[id].stage == stage
    case Killed(_, _) => false
  }

  /** Event `p` is a real success of the stage. */
  ghost predicate Succeeded(ws: seq<World>, es: seq<Event>, stage: Stage, p: int)
    requires IsBehaviour(ws, es)
  {
    0 <= p < |es| && if stage == Test then TestPassed(es, p, es[p].at) else exists i :: StagePassed(ws, es, stage, i, p)
  }

  /** The success at `p` is the last word on the stage before event `n`. */
  ghost predicate StandsAt(ws: seq<World>, es: seq<Event>, stage: Stage, p: int, n: int)
    requires IsBehaviour(ws, es) && 0 <= n < |ws|
  {
    && 0 <= p < n && Succeeded(ws, es, stage, p)
    && forall i :: p < i < n ==> !WritesEnvelope(ws, es, i, stage)
  }

  /** The envelope's pass, dated as the success at `p`. */
  ghost predicate SaysPassedAt(w: World, stage: Stage, at: int) {
    stage in w.envelopes && w.envelopes[stage] == Envelope(Pass, at)
  }

  /** A success is exactly an event that writes a pass. */
  lemma PassIsSuccess(ws: seq<World>, es: seq<Event>, stage: Stage, n: int)
    requires IsBehaviour(ws, es) && 0 <= n < |es|
    ensures Succeeded(ws, es, stage, n) <==>
              WritesEnvelope(ws, es, n, stage) && SaysPassedAt(ws[n + 1], stage, es[n].at)
  {
    var e := es[n];
    if e.Ends? && stage != Test && ws[n].running[e.id].stage == stage {
      RunningWasStarted(ws, es, n, e.id);
      var i :| i < n && Started(ws, es, i, e.id, stage, ws[n].running[e.id].startedAt);
      assert e.status == Pass ==> StagePassed(ws, es, stage, i, n);
    }
  }

  lemma EnvelopeKept(ws: seq<World>, es: seq<Event>, stage: Stage, n: int)
    requires IsBehaviour(ws, es) && 0 <= n < |es| && !WritesEnvelope(ws, es, n, stage)
    ensures stage in ws[n + 1].envelopes <==> stage in ws[n].envelopes
    ensures stage in ws[n].envelopes ==> ws[n + 1].envelopes[stage] == ws[n].envelopes[stage]
  {
  }

  /** An envelope says pass exactly when a real success at its date is the last word on its stage. */
  lemma {:induction false} PassExactlyWhenSuccessStands(ws: seq<World>, es: seq<Event>, stage: Stage, n: nat, at: int)
    requires IsBehaviour(ws, es) && n < |ws|
    ensures PassMeansSuccess(ws, es, stage, n, at)
  {
    if n > 0 {
      PassExactlyWhenSuccessStands(ws, es, stage, n - 1, at);
      PassMeansSuccessStep(ws, es, stage, n - 1, at);
    }
  }

  ghost predicate PassMeansSuccess(ws: seq<World>, es: seq<Event>, stage: Stage, n: int, at: int)
    requires IsBehaviour(ws, es) && 0 <= n < |ws|
  {
    SaysPassedAt(ws[n], stage, at) <==> SuccessStands(ws, es, stage, n, at)
  }

  lemma PassMeansSuccessStep(ws: seq<World>, es: seq<Event>, stage: Stage, n: nat, at: int)
    requires IsBehaviour(ws, es) && n < |es| && PassMeansSuccess(ws, es, stage, n, at)
    ensures PassMeansSuccess(ws, es, stage, n + 1, at)
  {
    if WritesEnvelope(ws, es, n, stage) {
      SuccessAfterWrite(ws, es, stage, n, at);
    } else {
      SuccessAfterOther(ws, es, stage, n, at);
      EnvelopeKept(ws, es, stage, n);
    }
  }

  ghost predicate SuccessStands(ws: seq<World>, es: seq<Event>, stage: Stage, n: int, at: int)
    requires IsBehaviour(ws, es) && 0 <= n < |ws|
  {
    exists p :: StandsAt(ws, es, stage, p, n) && es[p].at == at
  }

  lemma SuccessAfterWrite(ws: seq<World>, es: seq<Event>, stage: Stage, n: nat, at: int)
    requires IsBehaviour(ws, es) && n < |es| && WritesEnvelope(ws, es, n, stage)
    ensures SaysPassedAt(ws[n + 1], stage, at) <==> SuccessStands(ws, es, stage, n + 1, at)
  {
    PassIsSuccess(ws, es, stage, n);
    var m := n + 1;
    assert forall p :: StandsAt(ws, es, stage, p, m) ==> p == n;
    if SaysPassedAt(ws[n + 1], stage, at) {
      assert es[n].at == at && StandsAt(ws, es, stage, n, n + 1);
    }
  }

  lemma SuccessAfterOther(ws: seq<World>, es: seq<Event>, stage: Stage, n: nat, at: int)
    requires IsBehaviour(ws, es) && n < |es| && !WritesEnvelope(ws, es, n, stage)
    ensures SuccessStands(ws, es, stage, n + 1, at) <==> SuccessStands(ws, es, stage, n, at)
  {
    PassIsSuccess(ws, es, stage, n);
    var m := n + 1;
    assert forall p :: StandsAt(ws, es, stage, p, m) <==> StandsAt(ws, es, stage, p, n);
  }

  /** A gate is open exactly when the last word on its stage is a real success
      at most 24 hours old: a converse of `PassWasEarned`, for every stage. */
  lemma GreenExactlyWhenSuccessStands(ws: seq<World>, es: seq<Event>, stage: Stage, n: nat, t: int)
    requires IsBehaviour(ws, es) && n < |ws|
    ensures IsGreen(ws[n], stage, t) <==> exists p :: StandsAt(ws, es, stage, p, n) && t - es[p].at <= MAX_AGE
  {
    if stage in ws[n].envelopes && ws[n].envelopes[stage].status == Pass {
      PassExactlyWhenSuccessStands(ws, es, stage, n, ws[n].envelopes[stage].generatedAt);
    }
    forall p | StandsAt(ws, es, stage, p, n) ensures SaysPassedAt(ws[n], stage, es[p].at) {
      PassExactlyWhenSuccessStands(ws, es, stage, n, es[p].at);
    }
  }

  /** A deploy starts on green tests exactly when some pytest success at most
      24 hours old was followed by no other end or exception of a test run. */
  lemma DeployOnGreenTestsExactlyWhen(ws: seq<World>, es: seq<Event>, n: nat, id: nat, t: int)
    requires IsBehaviour(ws, es) && Started(ws, es, n, id, Deploy, t)
    ensures IsGreen(ws[n], Test, t) <==>
              exists p, passed :: p < n && TestPassed(es, p, passed) && t - passed <= MAX_AGE
                                  && forall i :: p < i < n ==> !EndsTest(ws[i], es[i])
  {
    GreenExactlyWhenSuccessStands(ws, es, Test, n, t);
    assert forall i :: 0 <= i < n ==> (WritesEnvelope(ws, es, i, Test) <==> EndsTest(ws[i], es[i]));
    if IsGreen(ws[n], Test, t) {
      var p :| StandsAt(ws, es, Test, p, n) && t - es[p].at <= MAX_AGE;
      assert TestPassed(es, p, es[p].at);
    }
    if p, passed :| p < n && TestPassed(es, p, passed) && t - passed <= MAX_AGE
                    && forall i :: p < i < n ==> !EndsTest(ws[i], es[i]) {
      assert StandsAt(ws, es, Test, p, n);
    }
  }

  /** The event ends a test run with an envelope. */
  ghost predicate EndsTest(w: World, e: Event) {
    e.PytestEnds? || (e.Raises? && e.id in w.running && w.running[e.id].stage == Test)
  }

  /** A pytest success at `p`, a code review from `r` to `r'` and a quality
      check from `q` to `q'`, each passed and let in by the one before. */
  ghost predicate IsChain(ws: seq<World>, es: seq<Event>, p: int, r: int, r': int, q: int, q': int)
    requires IsBehaviour(ws, es)
  {
    && 0 <= p < r < r' < q < q' < |es|
    && TestPassed(es, p, es[p].at) && es[r].at - es[p].at <= MAX_AGE
    && StagePassed(ws, es, CodeReview, r, r') && es[q].at - es[r'].at <= MAX_AGE
    && StagePassed(ws, es, Qc, q, q')
  }

  /** The gate chain: a deploy that runs rests on a qc pass, whose run was let
      in by a code-review pass, whose run was let in by a real pytest success,
      each at most 24 hours old when its gate read it. */
  lemma DeployRestsOnChain(ws: seq<World>, es: seq<Event>, n: nat, id: nat, t: int)
    requires IsBehaviour(ws, es) && Started(ws, es, n, id, Deploy, t)
    ensures exists p, r, r', q, q' :: IsChain(ws, es, p, r, r', q, q') && q' < n && t - es[q'].at <= MAX_AGE
  {
    PassWasEarned(ws, es, n, Qc);
    var q, q' :| q' < n && StagePassed(ws, es, Qc, q, q') && es[q'].at == ws[n].envelopes[Qc].generatedAt;
    PassWasEarned(ws, es, q, CodeReview);
    var r, r' :| r' < q && StagePassed(ws, es, CodeReview, r, r') && es[r'].at == ws[q].envelopes[CodeReview].generatedAt;
    PassWasEarned(ws, es, r, Test);
    var p :| p < r && TestPassed(es, p, ws[r].envelopes[Test].generatedAt);
    assert IsChain(ws, es, p, r, r', q, q');
  }

  /** Hence code that deploys passed its tests within the last 72 hours plus
      twice the longest run of a judged stage. */
  lemma DeployIsTested(ws: seq<World>, es: seq<Event>, n: nat, id: nat, t: int, d: int)
    requires IsBehaviour(ws, es) && Started(ws, es, n, id, Deploy, t) && DurationsWithin(ws, es, d)
    ensures exists p, passed :: p < n && TestPassed(es, p, passed) && t - passed <= 259200 + 2 * d
  {
    DeployRestsOnChain(ws, es, n, id, t);
    var p, r, r', q, q' :| IsChain(ws, es, p, r, r', q, q') && q' < n && t - es[q'].at <= MAX_AGE;
    assert es[r'].at - es[r].at <= d && es[q'].at - es[q].at <= d;
    assert TestPassed(es, p, es[p].at);
  }

  lemma Extend(ws: seq<World>, es: seq<Event>, e: Event, d: int) returns (ws': seq<World>, es': seq<Event>)
    requires IsBehaviour(ws, es) && DurationsWithin(ws, es, d)
    requires Enabled(ws[|es|], e)
    requires e.Ends? ==> e.at - ws[|es|].running[e.id].startedAt <= d
    ensures es' == es + [e] && ws' == ws + [Next(ws[|es|], e)]
    ensures IsBehaviour(ws', es') && DurationsWithin(ws', es', d)
  {
    ws', es' := ws + [Next(ws[|es|], e)], es + [e];
    forall i | 0 <= i < |es'| ensures Enabled(ws'[i], es'[i]) && ws'[i + 1] == Next(ws'[i], es'[i]) {
      if i < |es| { assert ws'[i] == ws[i] && es'[i] == es[i]; }
    }
  }

  lemma TestsPassAtStart(d: nat) returns (ws: seq<World>, es: seq<Event>)
    ensures IsBehaviour(ws, es) && DurationsWithin(ws, es, d) && |es| == 2
    ensures es[0] == Start(0, 0, Test) && es[1] == PytestEnds(0, 0, 0, false)
    ensures ws[2] == World(0, map[Test := Envelope(Pass, 0)], map[])
  {
    ws, es := [EMPTY], [];
    ws, es := Extend(ws, es, Start(0, 0, Test), d);
    assert ws[1] == World(0, map[], map[0 := Running(Test, 0)]);
    ws, es := Extend(ws, es, PytestEnds(0, 0, 0, false), d);
  }

  /** Tests pass at 0; a day later a review is let in and the tests turn red. */
  lemma RedAfterReviewStarts(d: nat) returns (ws: seq<World>, es: seq<Event>)
    ensures IsBehaviour(ws, es) && DurationsWithin(ws, es, d) && |es| == 5
    ensures es[1] == PytestEnds(0, 0, 0, false)
    ensures forall i :: 0 <= i < 5 && i != 1 ==> !TestPassed(es, i, es[i].at)
    ensures ws[5] == World(MAX_AGE, map[Test := Envelope(Fail, MAX_AGE)], map[1 := Running(CodeReview, MAX_AGE)])
  {
    ws, es := TestsPassAtStart(d);
    ws, es := Extend(ws, es, Start(MAX_AGE, 1, CodeReview), d);
    ws, es := Extend(ws, es, Start(MAX_AGE, 2, Test), d);
    ws, es := Extend(ws, es, PytestEnds(MAX_AGE, 2, 1, false), d);
  }

  /** The review passes and a day later lets a qc run in, which passes too. */
  lemma QcPassesWhileRed(d: nat) returns (ws: seq<World>, es: seq<Event>)
    ensures IsBehaviour(ws, es) && DurationsWithin(ws, es, d) && |es| == 8
    ensures es[1] == PytestEnds(0, 0, 0, false)
    ensures forall i :: 0 <= i < 8 && i != 1 ==> !TestPassed(es, i, es[i].at)
    ensures ws[8].clock == 2 * MAX_AGE + 2 * d && 4 !in ws[8].running
    ensures ws[8].envelopes == map[Test := Envelope(Fail, MAX_AGE), CodeReview := Envelope(Pass, MAX_AGE + d),
                                   Qc := Envelope(Pass, 2 * MAX_AGE + 2 * d)]
  {
    ws, es := RedAfterReviewStarts(d);
    var start := es;
    ws, es := Extend(ws, es, Ends(MAX_AGE + d, 1, Pass), d);
    ws, es := Extend(ws, es, Start(2 * MAX_AGE + d, 3, Qc), d);
    ws, es := Extend(ws, es, Ends(2 * MAX_AGE + 2 * d, 3, Pass), d);
    assert forall i :: 0 <= i < 5 ==> es[i] == start[i];
  }

  /** The bound is met: the pipeline can deploy exactly 72 hours and two run
      times after its only pytest success, while the test envelope is red. */
  lemma DeployCanBeThatLate(d: nat) returns (ws: seq<World>, es: seq<Event>)
    ensures IsBehaviour(ws, es) && DurationsWithin(ws, es, d)
    ensures |es| == 9 && Started(ws, es, 8, 4, Deploy, 259200 + 2 * d)
    ensures forall i, at :: TestPassed(es, i, at) ==> at == 0
    ensures Test in ws[8].envelopes && ws[8].envelopes[Test].status == Fail
  {
    ws, es := QcPassesWhileRed(d);
    var start := es;
    ws, es := Extend(ws, es, Start(3 * MAX_AGE + 2 * d, 4, Deploy), d);
    forall i, at | TestPassed(es, i, at) ensures at == 0 {
      if i < 8 { assert es[i] == start[i]; }
    }
  }

  // ---------------------------------------------------------------------------
  // What every event leaves in the results directory
  // ---------------------------------------------------------------------------

  /** Which status a finished run or a start that is turned away writes, and for which stage. */
  lemma EnvelopeWritten(ws: seq<World>, es: seq<Event>, n: nat)
    requires IsBehaviour(ws, es) && n < |es|
    ensures var before, after := ws[n].envelopes, ws[n + 1].envelopes;
            match es[n]
            case Start(at, id, stage) =>
              if id in ws[n + 1].running
              then after == before && ws[n + 1].running == ws[n].running[id := Running(stage, at)]
              else after == before[stage := Envelope(Skipped, at)] && ws[n + 1].running == ws[n].running
            case PytestEnds(at, id, returncode, timedOut) =>
              && (returncode == 0 && !timedOut ==> after == before[Test := Envelope(Pass, at)])
              && (returncode != 0 || timedOut ==> after == before[Test := Envelope(Fail, at)])
            case Ends(at, id, status) => id in ws[n].running && after == before[ws[n].running[id].stage := Envelope(status, at)]
            case Raises(at, id) => id in ws[n].running && after == before[ws[n].running[id].stage := Envelope(Fail, at)]
            case Killed(_, _) => after == before
    ensures !es[n].Start? ==> ws[n + 1].running == map id | id in ws[n].running && id != es[n].id :: ws[n].running[id]
  {
  }

  /** A stage other than test starts exactly when the envelope of the stage
      before it says pass and is at most 86400 seconds old. */
  lemma StartsExactlyWhen(ws: seq<World>, es: seq<Event>, n: nat, at: int, id: nat, stage: Stage, before: Stage)
    requires IsBehaviour(ws, es) && n < |es| && es[n] == Start(at, id, stage)
    requires (stage, before) in {(CodeReview, Test), (Qc, CodeReview), (Deploy, Qc)}
    ensures id in ws[n + 1].running <==>
              exists date :: before in ws[n].envelopes && ws[n].envelopes[before] == Envelope(Pass, date) && at <= date + 86400
  {
    if before in ws[n].envelopes {
      var e := ws[n].envelopes[before];
      assert e == Envelope(e.status, e.generatedAt);
    }
  }
}
