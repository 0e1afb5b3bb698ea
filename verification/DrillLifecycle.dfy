/**
 The lifecycle of a restore drill: dump, create, restore, verify, drop. Any step may
 fail, return early, throw or be interrupted; every path ends in the same cleanup.
 */
module DrillLifecycle {
  import opened Text
  import opened DrillVerdict
  import DrillFaults

  /** A call into the outside world: a value, an exception, or a signal that arrives meanwhile. */
  datatype Call<T> = Returned(value: T) | Threw | Interrupted

  /** The server's answer to CREATE or DROP: a success is always real, a failure may be. */
  datatype Answer = Answer(ok: bool, done: bool)

  datatype Source = Source(role: ReadRole, sameDatabase: bool)

  /** Everything the drill does not decide: what each call of one run gives. */
  datatype Plan = Plan(
    tooling: Call<bool>, reach: Call<Source>, route: Call<bool>, manifest: Call<Manifest>, ledger: Call<Ledger>,
    dump: Call<bool>, afterDump: Call<Manifest>, orphans: Call<seq<string>>, sweeps: nat -> Answer,
    create: Answer, fallback: Answer, tables: Call<nat>, restore: Call<bool>, inject: Call<bool>,
    identity: Call<string>, restored: Call<Manifest>, restoredLedger: Call<Ledger>, cleanup: Answer)

  /** What was sent to the server: by creation, by the sweep of orphans, by the cleanup. */
  datatype Statement = Create(name: string) | Sweep(name: string) | Drop(name: string)

  datatype Ending = Finished | Crashed | Signalled

  /** `DROP DATABASE` as far as the server carries it out. */
  function Dropped(server: set<string>, name: string, answer: Answer): set<string> {
    if answer.ok || answer.done then server - {name} else server
  }

  /** `CREATE DATABASE` refuses a name that is taken. */
  function Created(server: set<string>, name: string, answer: Answer): set<string> {
    if answer.ok || answer.done then server + {name} else server
  }

  function CleanupDrops(log: seq<Statement>): nat {
    if log == [] then 0 else CleanupDrops(log[..|log| - 1]) + if log[|log| - 1].Drop? then 1 else 0
  }

  lemma CleanupDropsSnoc(log: seq<Statement>, s: Statement)
    ensures CleanupDrops(log + [s]) == CleanupDrops(log) + if s.Drop? then 1 else 0
  {
    assert (log + [s])[..|log|] == log;
  }

  // ------------------------------------------------------------ what a run comes to know

  /** Where a run stands: what it knows, how it ended, and whether it goes on. */
  datatype Stage = Stage(known: Input, ending: Ending, proceed: bool)

  /** A call that gave no value ends the run. */
  function Cut<T>(known: Input, call: Call<T>): Stage {
    Stage(known, if call.Threw? then Crashed else Signalled, false)
  }

  function Stopped(known: Input): Stage {
    Stage(known, Finished, false)
  }

  /** What is known before anything is done. */
  function Nothing(source: string, migrations: seq<string>, baseline: Option<Baseline>, faultInjected: bool): Input {
    Input(None, true, None, None, None, Some(source), None, None, None, None, None, None, None,
          Some(migrations), Some(Durations(0.0, 0.0, 0.0, 0.0)), baseline, true, faultInjected, [])
  }

  /** The tooling, the source and the role it is read with. */
  function Reached(i: Input, plan: Plan): Stage {
    if !plan.tooling.Returned? then Cut(i, plan.tooling)
    else if !plan.tooling.value then Stopped(i.(toolingAvailable := false))
    else
      var i := i.(toolingAvailable := true);
      match plan.reach
      case Interrupted => Cut(i, plan.reach)
      case Threw => Stopped(i.(sourceReachable := Some(false)))
      case Returned(source) =>
        var i := i.(sourceReachable := Some(true), readRole := Some(source.role));
        if !source.sameDatabase then Stage(i.(dumpRouteMatched := Some(false)), Finished, true)
        else if !plan.route.Returned? then Cut(i, plan.route)
        else Stage(i.(dumpRouteMatched := Some(plan.route.value)), Finished, true)
  }

  /** The source's manifest and ledger, the dump, and the manifest again. */
  function Dumped(i: Input, plan: Plan): Stage {
    if !plan.manifest.Returned? then Cut(i, plan.manifest)
    else
      var i := i.(sourceManifest := Some(plan.manifest.value));
      if !plan.ledger.Returned? then Cut(i, plan.ledger)
      else
        var i := i.(sourceLedger := Some(plan.ledger.value));
        if !plan.ledger.value.present || i.dumpRouteMatched == Some(false) then Stopped(i)
        else if !plan.dump.Returned? then Cut(i, plan.dump)
        else if !plan.dump.value then Stopped(i.(restoreOk := Some(false)))
        else if !plan.afterDump.Returned? then Cut(i, plan.afterDump)
        else Stage(i.(afterDump := Some(plan.afterDump.value)), Finished, true)
  }

  /** The scratch database is created, or the run ends without one. */
  function Housed(i: Input, plan: Plan, scratchName: string, source: string): Stage {
    var i := i.(scratchName := Some(scratchName));
    if !IsSafeScratchTarget(Some(scratchName), Some(source)) then Stopped(i)
    else if plan.orphans.Interrupted? then Cut(i, plan.orphans)
    else if !plan.create.ok && !plan.fallback.ok then Stage(i, Crashed, false)
    else Stage(i, Finished, true)
  }

  /** The restore, and what is read back from it. */
  function Restored(i: Input, plan: Plan, scratchName: string): Stage {
    if !plan.tables.Returned? then Cut(i, plan.tables)
    else
      var i := i.(scratchWasEmpty := Some(plan.tables.value == 0));
      if plan.tables.value != 0 then Stopped(i)
      else if !plan.restore.Returned? then Cut(i, plan.restore)
      else Verified(i.(restoreOk := Some(plan.restore.value)), plan, scratchName)
  }

  function Verified(i: Input, plan: Plan, scratchName: string): Stage {
    if i.faultInjected && !plan.inject.Returned? then Cut(i, plan.inject)
    else if !plan.identity.Returned? then Cut(i, plan.identity)
    else if plan.identity.value != scratchName then Stage(i, Crashed, false)
    else if !plan.restored.Returned? then Cut(i, plan.restored)
    else
      var i := i.(restoredManifest := Some(plan.restored.value));
      if !plan.restoredLedger.Returned? then Cut(i, plan.restoredLedger)
      else Stopped(i.(restoredLedger := Some(plan.restoredLedger.value)))
  }

  function Read(i: Input, plan: Plan): Stage {
    var reached := Reached(i, plan);
    if reached.proceed then Dumped(reached.known, plan) else reached
  }

  /** How far the body comes, and whether a scratch database is left to drop. */
  function Ran(i: Input, plan: Plan, scratchName: string, source: string): (Stage, bool) {
    var read := Read(i, plan);
    if !read.proceed then (read, false)
    else
      var housed := Housed(read.known, plan, scratchName, source);
      if housed.proceed then (Restored(housed.known, plan, scratchName), true) else (housed, false)
  }

  /** What the report is about: the body's knowledge, a crash, and the cleanup. */
  function Final(i: Input, plan: Plan, scratchName: string, source: string): Input {
    var (stage, created) := Ran(i, plan, scratchName, source);
    var known := if stage.ending == Crashed then stage.known.(fatalError := "crashed") else stage.known;
    if created then known.(scratchDropped := plan.cleanup.ok) else known
  }

  class Drill {
    const source: string
    const scratchName: string
    var server: set<string>
    var log: seq<Statement>
    var scratchCreated: bool
    var state: Input

    constructor (source: string, scratchName: string, server: set<string>, migrations: seq<string>,
                 baseline: Option<Baseline>, faultInjected: bool)
      requires source in server
      ensures this.source == source && this.scratchName == scratchName && this.server == server
      ensures Ready() && state == Nothing(source, migrations, baseline, faultInjected)
    {
      this.source, this.scratchName, this.server := source, scratchName, server;
      log, scratchCreated := [], false;
      state := Nothing(source, migrations, baseline, faultInjected);
    }

    /** Nothing done yet. */
    predicate Ready()
      reads this
    {
      && log == [] && !scratchCreated && state.scratchDropped && state.restoreOk.None? && state.fatalError == []
    }

    predicate Safe(name: string) {
      IsSafeScratchTarget(Some(name), Some(source))
    }

    /** Every statement sent names a scratch database, and only the drill's own is created. */
    predicate OnlyScratch(sent: seq<Statement>) {
      forall k | 0 <= k < |sent| :: Safe(sent[k].name) && (!sent[k].Sweep? ==> sent[k].name == scratchName)
    }

    /** What a server can lose to a drill. */
    predicate OnlyScratchLost(before: set<string>, after: set<string>) {
      forall d | d in before :: d in after || Safe(d)
    }

    /** The cleanup has dropped at most once, and not yet while the flag is up. */
    predicate Tidy()
      reads this
    {
      && OnlyScratch(log)
      && CleanupDrops(log) + (if scratchCreated then 1 else 0) <= 1
      && (scratchCreated ==> Safe(scratchName))
    }

    /** Drops a database, the two conditions checked again just before the statement is sent. */
    method DropScratch(name: string, sweep: bool, answer: Answer) returns (dropped: bool)
      requires Tidy() && (sweep || (name == scratchName && !scratchCreated && CleanupDrops(log) == 0))
      modifies this`server, this`log
      ensures Tidy() && OnlyScratchLost(old(server), server) && server <= old(server)
      ensures sweep ==> CleanupDrops(log) == CleanupDrops(old(log))
      ensures dropped ==> name !in server
      ensures !sweep && Safe(name) ==> CleanupDrops(log) == 1
      ensures dropped <==> Safe(name) && answer.ok
      ensures log == old(log) + if !Safe(name) then [] else if sweep then [Sweep(name)] else [Drop(name)]
      ensures server == if Safe(name) then Dropped(old(server), name, answer) else old(server)
    {
      if !IsSafeScratchTarget(Some(name), Some(source)) {
        return false;
      }
      ghost var before := log;
      CleanupDropsSnoc(log, if sweep then Sweep(name) else Drop(name));
      log := log + [if sweep then Sweep(name) else Drop(name)];
      server := Dropped(server, name, answer);
      dropped := answer.ok;
    }

    /** Runs on every way out, and may run again: the flag comes down before the drop. */
    method Cleanup(answer: Answer)
      requires Tidy()
      modifies this
      ensures Tidy() && !scratchCreated && OnlyScratchLost(old(server), server) && server <= old(server)
      ensures state == old(state).(scratchDropped := state.scratchDropped)
      ensures !old(scratchCreated) ==> log == old(log) && server == old(server) && state == old(state)
      ensures old(scratchCreated) ==> CleanupDrops(log) == 1 && state.scratchDropped == answer.ok
      ensures old(scratchCreated) && state.scratchDropped ==> scratchName !in server
    {
      if !scratchCreated {
        return;
      }
      scratchCreated := false;
      var dropped := DropScratch(scratchName, false, answer);
      state := state.(scratchDropped := dropped);
    }

    /** The statements of a sweep: one for every name that may be dropped. */
    function Sweeps(orphans: seq<string>): seq<Statement> {
      if orphans == [] then []
      else
        var last := orphans[|orphans| - 1];
        Sweeps(orphans[..|orphans| - 1]) + if Safe(last) then [Sweep(last)] else []
    }

    /** Drops what earlier runs left behind, each name checked like any other. */
    method SweepOrphans(orphans: seq<string>, answers: nat -> Answer)
      requires Tidy()
      modifies this`server, this`log
      ensures Tidy() && OnlyScratchLost(old(server), server) && server <= old(server)
      ensures CleanupDrops(log) == CleanupDrops(old(log)) && log == old(log) + Sweeps(orphans)
      ensures forall k | 0 <= k < |orphans| && Safe(orphans[k]) && answers(k).ok :: orphans[k] !in server
    {
      for k := 0 to |orphans|
        invariant Tidy() && OnlyScratchLost(old(server), server) && server <= old(server)
        invariant CleanupDrops(log) == CleanupDrops(old(log)) && log == old(log) + Sweeps(orphans[..k])
        invariant forall j | 0 <= j < k && Safe(orphans[j]) && answers(j).ok :: orphans[j] !in server
      {
        assert orphans[..k + 1][..k] == orphans[..k];
        var _ := DropScratch(orphans[k], true, answers(k));
      }
      assert orphans[..|orphans|] == orphans;
    }

    method TryCreate(answer: Answer) returns (created: bool)
      requires Tidy() && Safe(scratchName)
      modifies this`server, this`log
      ensures Tidy() && old(server) <= server <= old(server) + {scratchName}
      ensures CleanupDrops(log) == CleanupDrops(old(log))
      ensures created == answer.ok && (created ==> scratchName in server)
      ensures log == old(log) + [Create(scratchName)] && server == Created(old(server), scratchName, answer)
    {
      CleanupDropsSnoc(log, Create(scratchName));
      log := log + [Create(scratchName)];
      server := Created(server, scratchName, answer);
      created := answer.ok;
    }

    /** Creates the scratch database, with a plain form as fallback. */
    method CreateScratch(create: Answer, fallback: Answer) returns (created: bool)
      requires Tidy() && Safe(scratchName)
      modifies this`server, this`log
      ensures Tidy() && old(server) <= server <= old(server) + {scratchName}
      ensures CleanupDrops(log) == CleanupDrops(old(log))
      ensures created == (create.ok || fallback.ok) && (created ==> scratchName in server)
      ensures log == old(log) + if create.ok then [Create(scratchName)] else [Create(scratchName), Create(scratchName)]
    {
      created := TryCreate(create);
      if !created { created := TryCreate(fallback); }
    }

    /** Up to the manifest after the dump: nothing is sent that could change the server. */
    method ReadSource(plan: Plan) returns (ending: Ending, proceed: bool)
      requires Ready()
      modifies this`state
      ensures Stage(state, ending, proceed) == Read(old(state), plan)
      ensures state.scratchDropped && state.fatalError == [] && state.restoredManifest == old(state).restoredManifest
    {
      proceed := false;
      if !plan.tooling.Returned? { return if plan.tooling.Threw? then Crashed else Signalled, false; }
      state := state.(toolingAvailable := plan.tooling.value);
      if !plan.tooling.value { return Finished, false; }
      if plan.reach.Interrupted? { return Signalled, false; }
      if plan.reach.Threw? {
        state := state.(sourceReachable := Some(false));
        return Finished, false;
      }
      state := state.(sourceReachable := Some(true), readRole := Some(plan.reach.value.role));
      if !plan.reach.value.sameDatabase {
        state := state.(dumpRouteMatched := Some(false));
      } else {
        if !plan.route.Returned? { return if plan.route.Threw? then Crashed else Signalled, false; }
        state := state.(dumpRouteMatched := Some(plan.route.value));
      }
      if !plan.manifest.Returned? { return if plan.manifest.Threw? then Crashed else Signalled, false; }
      state := state.(sourceManifest := Some(plan.manifest.value));
      if !plan.ledger.Returned? { return if plan.ledger.Threw? then Crashed else Signalled, false; }
      state := state.(sourceLedger := Some(plan.ledger.value));
      if !plan.ledger.value.present || state.dumpRouteMatched == Some(false) { return Finished, false; }
      if !plan.dump.Returned? { return if plan.dump.Threw? then Crashed else Signalled, false; }
      if !plan.dump.value {
        state := state.(restoreOk := Some(false));
        return Finished, false;
      }
      if !plan.afterDump.Returned? { return if plan.afterDump.Threw? then Crashed else Signalled, false; }
      state := state.(afterDump := Some(plan.afterDump.value));
      return Finished, true;
    }

    /** Restores into the scratch database and reads it back. */
    method RestoreAndVerify(plan: Plan) returns (ending: Ending)
      modifies this`state
      ensures Stage(state, ending, false) == Restored(old(state), plan, scratchName)
      ensures state.scratchDropped == old(state).scratchDropped && state.fatalError == old(state).fatalError
    {
      if !plan.tables.Returned? { return if plan.tables.Threw? then Crashed else Signalled; }
      state := state.(scratchWasEmpty := Some(plan.tables.value == 0));
      if plan.tables.value != 0 { return Finished; }
      if !plan.restore.Returned? { return if plan.restore.Threw? then Crashed else Signalled; }
      state := state.(restoreOk := Some(plan.restore.value));
      if state.faultInjected && !plan.inject.Returned? { return if plan.inject.Threw? then Crashed else Signalled; }
      if !plan.identity.Returned? { return if plan.identity.Threw? then Crashed else Signalled; }
      if plan.identity.value != scratchName { return Crashed; }
      if !plan.restored.Returned? { return if plan.restored.Threw? then Crashed else Signalled; }
      state := state.(restoredManifest := Some(plan.restored.value));
      if !plan.restoredLedger.Returned? { return if plan.restoredLedger.Threw? then Crashed else Signalled; }
      state := state.(restoredLedger := Some(plan.restoredLedger.value));
      return Finished;
    }

    /** The body of the drill. It never reports and never exits. */
    method Body(plan: Plan) returns (ending: Ending)
      requires Ready() && state.restoredManifest.None?
      modifies this
      ensures Tidy() && OnlyScratchLost(old(server), server)
      ensures state.scratchDropped && state.fatalError == []
      ensures state.restoredManifest.Some? ==> scratchCreated
      ensures scratchCreated ==> CleanupDrops(log) == 0
      ensures var (stage, created) := Ran(old(state), plan, scratchName, source);
              state == stage.known && ending == stage.ending && scratchCreated == created
    {
      hide Read, Restored, IsScratchName;
      var proceed;
      ending, proceed := ReadSource(plan);
      if !proceed { return; }
      state := state.(scratchName := Some(scratchName));
      if !IsSafeScratchTarget(Some(scratchName), Some(source)) { return Finished; }
      if plan.orphans.Interrupted? { return Signalled; }
      if plan.orphans.Returned? { SweepOrphans(plan.orphans.value, plan.sweeps); }
      var created := CreateScratch(plan.create, plan.fallback);
      if !created { return Crashed; }
      scratchCreated := true;
      ending := RestoreAndVerify(plan);
    }

    /** One run: the body, the cleanup on every way out, and a report unless a signal ended it. */
    method RunDrill(plan: Plan) returns (report: Option<Report>)
      requires Ready() && state.restoredManifest.None?
      modifies this
      ensures Tidy() && !scratchCreated
      ensures OnlyScratchLost(old(server), server)
      ensures source in old(server) ==> source in server
      ensures report.None? <==> Ran(old(state), plan, scratchName, source).0.ending == Signalled
      ensures report.Some? ==> report.value == Judge(Some(Final(old(state), plan, scratchName, source)))
      ensures report.Some? && report.value.exitCode == 0 ==> scratchName !in server && CleanupDrops(log) == 1
    {
      var ending := Body(plan);
      if ending == Crashed { state := state.(fatalError := "crashed"); }
      Cleanup(plan.cleanup);
      assert source in old(server) ==> source in server;
      if ending == Signalled { return None; }
      var verdict := EvaluateDrill(Some(state));
      VerdictOkIff(state);
      report := Some(verdict);
    }

    /** A signal after the run finds nothing left to do. */
    method SignalAgain(answer: Answer)
      requires Tidy() && !scratchCreated
      modifies this
      ensures log == old(log) && server == old(server) && state == old(state)
    {
      Cleanup(answer);
    }
  }

  // ------------------------------------------------------------ when a run exits with zero

  predicate Yes(call: Call<bool>) {
    call.Returned? && call.value
  }

  /** Every step of the run gives what it should, and the scratch name may be dropped. */
  ghost predicate AllWell(plan: Plan, scratchName: string, source: string) {
    && Yes(plan.tooling) && plan.reach.Returned? && plan.reach.value.sameDatabase
    && Yes(plan.route) && plan.manifest.Returned? && plan.ledger.Returned? && Yes(plan.dump)
    && plan.afterDump.Returned? && !plan.orphans.Interrupted? && (plan.create.ok || plan.fallback.ok)
    && plan.tables == Returned(0) && Yes(plan.restore) && plan.identity == Returned(scratchName)
    && plan.restored.Returned? && plan.restoredLedger.Returned? && plan.cleanup.ok
    && DrillFaults.SpellsScratch(scratchName) && source != "" && source != scratchName
  }

  /** What such a run has read. */
  function Gathered(plan: Plan, scratchName: string, source: string, migrations: seq<string>,
                    baseline: Option<Baseline>): Input
    requires plan.reach.Returned? && plan.manifest.Returned? && plan.ledger.Returned? && plan.afterDump.Returned?
    requires plan.restored.Returned? && plan.restoredLedger.Returned?
  {
    Input(Some(true), true, Some(true), Some(plan.reach.value.role), Some(scratchName), Some(source), Some(true),
          Some(true), Some(plan.manifest.value), Some(plan.restored.value), Some(plan.afterDump.value),
          Some(plan.ledger.value), Some(plan.restoredLedger.value), Some(migrations),
          Some(Durations(0.0, 0.0, 0.0, 0.0)), baseline, true, false, "")
  }

  lemma WellRunGathers(plan: Plan, scratchName: string, source: string, migrations: seq<string>,
                       baseline: Option<Baseline>)
    requires AllWell(plan, scratchName, source) && plan.ledger.value.present
    ensures var start := Nothing(source, migrations, baseline, false);
            && Final(start, plan, scratchName, source) == Gathered(plan, scratchName, source, migrations, baseline)
            && Ran(start, plan, scratchName, source).0.ending == Finished
  {
    DrillFaults.ScratchSpelled(scratchName);
  }

  // Each stage keeps what it does not read, and goes on only where its calls went well.

  predicate SameRest(i: Input, j: Input) {
    && j.faultInjected == i.faultInjected && j.scratchDropped == i.scratchDropped
    && j.sourceDatabase == i.sourceDatabase
  }

  lemma ReachedWell(i: Input, plan: Plan)
    ensures var s := Reached(i, plan);
            && SameRest(i, s.known) && s.known.restoredLedger == i.restoredLedger
            && (s.proceed ==>
                  && Yes(plan.tooling) && plan.reach.Returned?
                  && s.known.dumpRouteMatched == Some(plan.reach.value.sameDatabase && Yes(plan.route)))
  {
  }

  lemma DumpedWell(i: Input, plan: Plan)
    ensures var s := Dumped(i, plan);
            && SameRest(i, s.known) && s.known.restoredLedger == i.restoredLedger
            && s.known.dumpRouteMatched == i.dumpRouteMatched
            && (s.proceed ==>
                  && plan.manifest.Returned? && plan.ledger.Returned? && plan.ledger.value.present
                  && i.dumpRouteMatched != Some(false) && Yes(plan.dump) && plan.afterDump.Returned?)
  {
  }

  lemma HousedWell(i: Input, plan: Plan, scratchName: string, source: string)
    ensures var s := Housed(i, plan, scratchName, source);
            && SameRest(i, s.known) && s.known.restoredLedger == i.restoredLedger
            && (s.proceed ==>
                  && !plan.orphans.Interrupted? && (plan.create.ok || plan.fallback.ok)
                  && IsSafeScratchTarget(Some(scratchName), Some(source)))
  {
    hide IsSafeScratchTarget;
  }

  lemma RestoredWell(i: Input, plan: Plan, scratchName: string)
    requires i.restoredLedger == None
    ensures var s := Restored(i, plan, scratchName);
            && SameRest(i, s.known)
            && (s.known.restoredLedger.Some? ==>
                  && plan.tables == Returned(0) && plan.restore.Returned?
                  && s.known.restoreOk == Some(plan.restore.value) && plan.identity == Returned(scratchName)
                  && plan.restored.Returned? && plan.restoredLedger.Returned?)
  {
  }

  /** The whole run keeps what was injected, and the cleanup answers for the scratch database. */
  lemma RunKeeps(plan: Plan, scratchName: string, source: string, start: Input)
    requires start.restoredLedger == None
    ensures Final(start, plan, scratchName, source).faultInjected == start.faultInjected
  {
    hide Reached, Dumped, Housed, Restored;
    var reached := Reached(start, plan);
    ReachedWell(start, plan);
    DumpedWell(reached.known, plan);
    var read := Read(start, plan);
    HousedWell(read.known, plan, scratchName, source);
    RestoredWell(Housed(read.known, plan, scratchName, source).known, plan, scratchName);
  }

  /** A run that has read the restored ledger went through every step. */
  lemma ReadToTheEnd(plan: Plan, scratchName: string, source: string, start: Input)
    requires start.restoredLedger == None && Final(start, plan, scratchName, source).restoredLedger.Some?
    ensures var final := Final(start, plan, scratchName, source);
            && plan.restore.Returned? && final.restoreOk == Some(plan.restore.value)
            && final.scratchDropped == plan.cleanup.ok && plan.ledger.Returned? && plan.ledger.value.present
            && (plan.restore.value && plan.cleanup.ok ==> AllWell(plan, scratchName, source))
  {
    DrillFaults.ScratchSpelled(scratchName);
    hide Reached, Dumped, Housed, Restored, DrillFaults.SpellsScratch, IsScratchName;
    var reached := Reached(start, plan);
    ReachedWell(start, plan);
    DumpedWell(reached.known, plan);
    var read := Read(start, plan);
    HousedWell(read.known, plan, scratchName, source);
    RestoredWell(Housed(read.known, plan, scratchName, source).known, plan, scratchName);
  }

  predicate No(call: Call<bool>) {
    call.Returned? && !call.value
  }

  /** The run has shown this fault. */
  ghost predicate Shown(start: Input, plan: Plan, scratchName: string, source: string, fault: Verdict) {
    DrillFaults.Fault(Final(start, plan, scratchName, source), fault, "")
  }

  /** What a run shows when the source cannot be reached as it should. */
  lemma SourceFaults(plan: Plan, scratchName: string, source: string, start: Input)
    ensures No(plan.tooling) ==> Shown(start, plan, scratchName, source, ToolingUnavailable)
    ensures Yes(plan.tooling) && plan.reach.Threw? ==> Shown(start, plan, scratchName, source, UnreachableSource)
    ensures Yes(plan.tooling) && plan.reach.Returned? && (!plan.reach.value.sameDatabase || No(plan.route)) ==>
              Shown(start, plan, scratchName, source, DumpRouteMismatch)
  {
    hide Dumped, Housed, Restored;
    var reached := Reached(start, plan);
    DumpedWell(reached.known, plan);
  }

  /** What it shows when the ledger is missing or the dump fails. */
  lemma DumpFaults(plan: Plan, scratchName: string, source: string, start: Input)
    requires Reached(start, plan).proceed && plan.manifest.Returned? && plan.ledger.Returned?
    ensures !plan.ledger.value.present ==> Shown(start, plan, scratchName, source, UnbaselinedLedger)
    ensures plan.ledger.value.present && plan.reach.Returned? && plan.reach.value.sameDatabase && Yes(plan.route)
            && No(plan.dump) ==>
              Shown(start, plan, scratchName, source, RestoreFailed)
  {
    ReachedWell(start, plan);
    hide Reached, Housed, Restored;
  }

  /** What it shows when the scratch database may not be dropped, is not empty, or the restore fails. */
  lemma RestoreFaults(plan: Plan, scratchName: string, source: string, start: Input)
    requires start.sourceDatabase == Some(source)
    ensures Read(start, plan).proceed && !IsSafeScratchTarget(Some(scratchName), Some(source)) ==>
              Shown(start, plan, scratchName, source, UnsafeScratchTarget)
    ensures Ran(start, plan, scratchName, source).1 && plan.tables.Returned? ==>
              && (plan.tables.value != 0 ==> Shown(start, plan, scratchName, source, ScratchNotEmpty))
              && (plan.tables.value == 0 && No(plan.restore) ==> Shown(start, plan, scratchName, source, RestoreFailed))
  {
    DrillFaults.ScratchSpelled(scratchName);
    var reached := Reached(start, plan);
    ReachedWell(start, plan);
    DumpedWell(reached.known, plan);
    hide Reached, Dumped, DrillFaults.SpellsScratch, IsScratchName;
  }

  /** What it shows when it crashes, and when the scratch database stays behind. */
  lemma EndFaults(plan: Plan, scratchName: string, source: string, start: Input)
    requires start.scratchDropped
    ensures Ran(start, plan, scratchName, source).0.ending == Crashed ==>
              Shown(start, plan, scratchName, source, Unknown)
    ensures Shown(start, plan, scratchName, source, ScratchCleanupFailed)
       <==> Ran(start, plan, scratchName, source).1 && !plan.cleanup.ok
  {
    hide Reached, Dumped, Housed, Restored;
    var reached := Reached(start, plan);
    ReachedWell(start, plan);
    DumpedWell(reached.known, plan);
    HousedWell(Read(start, plan).known, plan, scratchName, source);
  }

  /** Anything else leaves a fault behind, or no report at all. */
  lemma OtherRunsFail(plan: Plan, scratchName: string, source: string, migrations: seq<string>,
                      baseline: Option<Baseline>, faultInjected: bool) returns (fault: Verdict)
    requires !AllWell(plan, scratchName, source) || !plan.ledger.value.present || faultInjected
    requires Ran(Nothing(source, migrations, baseline, faultInjected), plan, scratchName, source).0.ending != Signalled
    ensures DrillFaults.Fault(Final(Nothing(source, migrations, baseline, faultInjected), plan, scratchName, source),
              fault, "")
  {
    var final := Final(Nothing(source, migrations, baseline, faultInjected), plan, scratchName, source);
    if final.restoredLedger == None {
      fault := Unknown;
    } else if faultInjected {
      RunKeeps(plan, scratchName, source, Nothing(source, migrations, baseline, true));
      fault := FaultInjected;
    } else {
      ReadToTheEnd(plan, scratchName, source, Nothing(source, migrations, baseline, faultInjected));
      fault := if !plan.cleanup.ok then ScratchCleanupFailed else RestoreFailed;
    }
  }

  /**
   When a run that is not interrupted exits with zero: every step went well, nothing was
   injected, and what was read shows no fault.
   */
  lemma ExitZeroIff(plan: Plan, scratchName: string, source: string, migrations: seq<string>,
                    baseline: Option<Baseline>, faultInjected: bool)
    requires Ran(Nothing(source, migrations, baseline, faultInjected), plan, scratchName, source).0.ending != Signalled
    ensures var start := Nothing(source, migrations, baseline, faultInjected);
            Judge(Some(Final(start, plan, scratchName, source))).exitCode == 0
            <==> !faultInjected && AllWell(plan, scratchName, source)
                 && forall v: Verdict ::
                      !DrillFaults.HasFault(Gathered(plan, scratchName, source, migrations, baseline), v)
  {
    var final := Final(Nothing(source, migrations, baseline, faultInjected), plan, scratchName, source);
    DrillFaults.ExitCodeIff(final);
    hide Final, Ran, Judge, DrillFaults.Fault, DrillFaults.HasFault;
    if !faultInjected && AllWell(plan, scratchName, source) && plan.ledger.value.present {
      WellRunGathers(plan, scratchName, source, migrations, baseline);
    } else {
      var fault := OtherRunsFail(plan, scratchName, source, migrations, baseline, faultInjected);
      FaultIsShown(final, fault);
      if AllWell(plan, scratchName, source) && !plan.ledger.value.present {
        NoLedgerIsFault(plan, scratchName, source, migrations, baseline);
      }
    }
  }

  lemma FaultIsShown(i: Input, fault: Verdict)
    requires DrillFaults.Fault(i, fault, "")
    ensures DrillFaults.HasFault(i, fault)
  {
    hide DrillFaults.Fault;
  }

  lemma NoLedgerIsFault(plan: Plan, scratchName: string, source: string, migrations: seq<string>,
                        baseline: Option<Baseline>)
    requires AllWell(plan, scratchName, source) && !plan.ledger.value.present
    ensures DrillFaults.HasFault(Gathered(plan, scratchName, source, migrations, baseline), UnbaselinedLedger)
  {
    FaultIsShown(Gathered(plan, scratchName, source, migrations, baseline), UnbaselinedLedger);
  }
}
