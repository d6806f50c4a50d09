/** Reconciliation as the program carries it out on a disk: it plans from what it reads, builds and
    stages in scratch space, publishes in one transaction, and may be interrupted at any point. */
module Reconciliations {
  import opened Paths
  import opened FileTrees
  import opened Texts
  import opened Wrappers
  import opened Installations
  import opened ProductRepair
  import opened ProductPlans
  import opened ProductDisks
  import opened RepairTasks
  import opened Transactions
  import opened InstallTransactions
  import opened TransactionLifecycle

  /** `cacheMatches` is the observation handed to the next inspection. */
  datatype Reconciliation = Reconciliation(committed: bool, cacheMatches: Option<bool>)

  /** An operation returns, throws, or dies with its process. */
  datatype Ended<T> = Returned(value: T) | Failed(error: RepairError) | Died

  // ---- Before anything is written ----

  /** The payload of an operation: downloaded, or recovered from the installation if the download
      ended with one of five exceptions and the operation was not cancelled. A timeout is none of them. */
  method ObtainPayload(d: Installation, mode: PayloadMode, download: Download)
    returns (r: Result<Option<PayloadSnapshot>, RepairError>)
    ensures !mode.Online? ==> r == Success(None)
    ensures mode.Online? && download.Downloaded? ==> r == Success(Some(download.payload))
    ensures mode.Online? && download.Refused? ==>
              var recoverable :=
                && !download.cancelled
                && download.exception in {HttpRequest, Io, InvalidData, Exception.InvalidOperation, OperationCanceled};
              && (r.Success? <==> recoverable && RecoverInstalledPayload(d).Some?)
              && (r.Success? ==> r.value == RecoverInstalledPayload(d))
              && (r.Failure? ==> r.error == if recoverable then PayloadUnavailable else DownloadFailed)
  {
    if !mode.Online? { return Success(None); }
    match download {
      case Downloaded(payload) => return Success(Some(payload));
      case Refused(exception, cancelled) =>
        if cancelled || !FallsBack(exception) { return Failure(DownloadFailed); }
        var recovered := RecoverInstalledPayload(d);
        if recovered.None? { return Failure(PayloadUnavailable); }
        return Success(recovered);
    }
  }

  /** The checks before planning. */
  method CheckOperation(d: Installation, inputs: Inputs, running: bool) returns (r: Result<string, RepairError>)
    ensures r.Success? <==>
              && (d.state.Some? || d.base.executable.Some? || d.retro.executable.Some?) && d.hasToolkit && !running
              && Blank(inputs.expectedDol) == Blank(inputs.expectedRel) && !Blank(d.ResolveToolkitFingerprint())
    ensures r.Success? ==> r.value == d.ResolveToolkitFingerprint()
    ensures r.Failure? ==>
              match r.error
              case NotInstalled => !d.IsPresent()
              case ToolkitMissing => !d.hasToolkit
              case ProductRunning => running
              case HashesIncomplete => Blank(inputs.expectedDol) != Blank(inputs.expectedRel)
              case ToolkitUnidentified => Blank(d.ResolveToolkitFingerprint())
              case _ => false
  {
    if !d.IsPresent() { return Failure(NotInstalled); }
    if !d.hasToolkit { return Failure(ToolkitMissing); }
    if running { return Failure(ProductRunning); }
    if Blank(inputs.expectedDol) != Blank(inputs.expectedRel) { return Failure(HashesIncomplete); }
    var toolkit := d.ResolveToolkitFingerprint();
    if Blank(toolkit) { return Failure(ToolkitUnidentified); }
    return Success(toolkit);
  }

  /** What to rebuild and what to copy again. A base-only operation refuses an installation whose
      Retro Rewind product needs the canonical folder. */
  method Plan(d: Installation, inputs: Inputs, payload: Option<PayloadSnapshot>) returns (r: Result<Decision, RepairError>)
    requires inputs.snapshot.None? <==> inputs.mode.NotApplicable?
    requires inputs.mode.Online? <==> payload.Some?
    requires inputs.snapshot.Some? ==> inputs.canonicalRoot.Some?
    ensures r.Success? ==> r.value == Decide(d, inputs, payload)
    ensures r.Success? <==> (inputs.snapshot.None? ==>
                               && !RetroDrifted(d, inputs)
                               && !ActionRequired(d.CheckRetroCore(d.ResolveToolkitFingerprint(), None, None)))
    ensures r.Failure? ==>
              && inputs.snapshot.None?
              && r.error == if RetroDrifted(d, inputs) then RetroInputsChanged else RetroNeedsRepair
  {
    var toolkit := d.ResolveToolkitFingerprint();
    var rebuildBase := RequiresCompilation(d.CheckBaseCore(toolkit)) || BaseDrifted(d, inputs);
    var rebuildRetro, syncPayload := false, false;
    if inputs.snapshot.None? {
      if RetroDrifted(d, inputs) { return Failure(RetroInputsChanged); }
      if ActionRequired(d.CheckRetroCore(toolkit, None, None)) { return Failure(RetroNeedsRepair); }
    } else {
      rebuildRetro, syncPayload := DecideRetro(d, inputs, payload);
    }
    var syncBaseAssets := !rebuildBase && d.base.executable.Some? && !d.RuntimeAssetsAreValid(d.base, toolkit);
    var syncRetroAssets := !rebuildRetro && d.HasRetroProduct() && !d.RuntimeAssetsAreValid(d.retro, toolkit);
    var rootChanged := inputs.snapshot.Some? && !d.RecordedRootMatches(inputs.canonicalRoot.value);
    return Success(Decision(rebuildBase, rebuildRetro, syncPayload, syncBaseAssets, syncRetroAssets, rootChanged));
  }

  // ---- Building ----

  /** An incremental build that throws `InvalidOperationException` is tried again from clean caches.
      `runs` lists the builds, true for a clean one. */
  method BuildWithCleanRetry(forceClean: bool, first: BuildEnd, second: BuildEnd) returns (finished: bool, runs: seq<bool>)
    ensures finished <==> first.Finished? || (!forceClean && first == Stopped(InvalidOperation) && second.Finished?)
    ensures runs != [] && |runs| <= 2 && runs[0] == forceClean
    ensures |runs| == 2 <==> !forceClean && first == Stopped(InvalidOperation)
    ensures |runs| == 2 ==> runs[1]
  {
    runs := [forceClean];
    if first.Finished? { return true, runs; }
    if forceClean || first.exception != InvalidOperation { return false, runs; }
    runs := runs + [true];
    finished := second.Finished?;
  }

  /** What a build left, compared with what it was asked for. */
  method CheckOutputs(d: Installation, inputs: Inputs, plan: Decision, payload: Option<PayloadSnapshot>, built: Outputs)
    returns (failure: Option<RepairError>)
    requires d.workspaceDol.Some? && d.workspaceRel.Some? && (plan.rebuildRetro ==> inputs.snapshot.Some? && built.retro.Some?)
    ensures failure.None? <==> IsBuilt(d, inputs, plan, payload, built)
    ensures failure == Some(BuildIgnoredPayload) <==>
              && plan.rebuildRetro && BuildProduced(built.retro)
              && !BuildConsumedInputs(d, inputs, payload, built.retro.value.local.value)
    ensures failure.Some? ==> failure.value == BuildIgnoredPayload || failure.value == BuildFailed
  {
    hide BuildConsumedInputs;
    if plan.rebuildRetro && BuildProduced(built.retro)
       && !BuildConsumedInputs(d, inputs, payload, built.retro.value.local.value) {
      return Some(BuildIgnoredPayload);
    }
    if !IsBuilt(d, inputs, plan, payload, built) { return Some(BuildFailed); }
    return None;
  }

  // ---- The operation ----

  class ProductRepairService {
    const disk: Disk
    const reader: Reader
    const site: Site

    constructor (disk: Disk, reader: Reader, site: Site)
      ensures this.disk == disk && this.reader == reader && this.site == site
    {
      this.disk, this.reader, this.site := disk, reader, site;
    }

    function Installed(): (d: Installation)
      reads disk
      ensures d.root == site.root
    {
      ReadInstallation(reader, site.root, disk.files, disk.config)
    }

    /** No transaction is pending, and the operation's own names are new. */
    ghost predicate IsIdle(op: Operation)
      reads disk
    {
      && op.IsFor(site) && disk.journal.None? && WellFormed(disk.files)
      && Under(disk.files, WorkRoot(site, op.transaction)) == {}
    }

    /** An operation about to start. */
    ghost function TaskOf(inputs: Inputs, env: Environment, op: Operation): (task: Task)
      reads disk
      ensures task.Start() == Installed()
    {
      Task(reader, site, disk.files, disk.config, disk.calm, inputs, env, op)
    }

    /** What was to be built has been, and publishing is to begin. */
    ghost predicate IsBetween(task: Task, inputs: Inputs, env: Environment, op: Operation)
      reads disk
    {
      && task == Task(reader, site, task.files, disk.config, disk.calm, inputs, env, op)
      && disk.files == task.Built() && Installed() == task.Prepared() && OnlyWorkspaceChanged(task.Start(), Installed())
    }

    /** One of the two game inputs of the workspace: kept when it is the expected one, else copied. */
    method RefreshInput(input: GameInput, expected: string, copy: Tree, op: Operation) returns (ok: bool)
      requires IsIdle(op)
      modifies disk`files
      ensures IsIdle(op) && OnlyInputChanged(old(Installed()), Installed(), input)
      ensures var source, workspace := InGameData(old(Installed()), input), InWorkspace(old(Installed()), input);
              && (ok <==>
                    && source.Some? && Same(source.value.sha, expected)
                    && Arrives(reader, old(disk.files), InputPath(site.root, input), workspace, expected, copy, source))
              && (ok ==>
                    && disk.files == AfterCopy(old(disk.files), InputPath(site.root, input), workspace, expected, copy)
                    && InWorkspace(Installed(), input) == ProductRepair.Refreshed(workspace, source.value, expected))
    {
      hide Same, TreeAt, OnlyBelow, WellFormed, Under, ReadInstallation, Written, Arrives, AfterCopy, InputPath;
      var d := Installed();
      var source, workspace := InGameData(d, input), InWorkspace(d, input);
      if source.None? || !Same(source.value.sha, expected) { return false; }
      ghost var files0 := disk.files;
      CopyMeaning(reader, files0, InputPath(site.root, input), workspace, expected, copy, source);
      if workspace.Some? && Same(workspace.value.sha, expected) { return true; }
      disk.WriteTree(InputPath(site.root, input), copy);
      WrittenEffect(files0, InputPath(site.root, input), copy);
      InputWrite(reader, site, op, files0, disk.files, disk.config, input);
      StillFresh(files0, disk.files, InputPath(site.root, input), WorkRoot(site, op.transaction));
      return source == InWorkspace(Installed(), input);
    }

    /** Copies the game's own executables into the workspace where they differ. */
    method RefreshWorkspace(inputs: Inputs, env: Environment, op: Operation) returns (ok: bool)
      requires IsIdle(op)
      modifies disk`files
      ensures IsIdle(op) && OnlyWorkspaceChanged(old(Installed()), Installed())
      ensures ok <==> old(TaskOf(inputs, env, op)).InputsArrive()
      ensures ok ==> disk.files == old(TaskOf(inputs, env, op)).Refreshed()
      ensures ok ==> CanRefresh(old(Installed()), inputs)
                     && Installed() == RefreshTranslationAssets(old(Installed()), inputs)
    {
      hide Same, Blank, TreeAt, ReadInstallation, WellFormed, Under, AfterCopy, Arrives, InputPath;
      var d := Installed();
      var (dol, rel) := ExpectedHashes(d, inputs);
      if Blank(dol) || Blank(rel) { return false; }
      ok := RefreshInput(Dol, dol, env.dolCopy, op);
      if !ok { return; }
      ok := RefreshInput(Rel, rel, env.relCopy, op);
    }

    /** Builds what the plan calls for and records what it was built from. A build may leave anything
        in scratch space; what it left is read back and checked. It succeeds exactly when that is what
        was asked for, and any failure has its cause. */
    method Build(inputs: Inputs, plan: Decision, payload: Option<PayloadSnapshot>, env: Environment, op: Operation)
      returns (r: Result<Outputs, RepairError>)
      requires IsIdle(op) && (plan.rebuildBase || plan.rebuildRetro) && (plan.rebuildRetro ==> inputs.snapshot.Some?)
      requires plan == TaskOf(inputs, env, op).Plan() && payload == TaskOf(inputs, env, op).Payload()
      modifies disk`files
      ensures r.Success? <==> old(TaskOf(inputs, env, op)).BuildSucceeds()
      ensures r.Success? ==>
                && r.value == old(TaskOf(inputs, env, op)).Made() && disk.files == old(TaskOf(inputs, env, op)).Built()
                && Installed() == old(TaskOf(inputs, env, op)).Prepared()
      ensures r.Failure? ==> old(TaskOf(inputs, env, op)).ExplainsBuild(r.error)
      ensures IsIdle(op) && OnlyWorkspaceChanged(old(Installed()), Installed())
      ensures r.Success? ==>
                && Prepares(old(Installed()), Installed(), inputs, plan)
                && IsBuilt(Installed(), inputs, plan, payload, r.value)
      ensures r.Failure? ==>
                r.error in {DiskFull, ToolkitModified, GameInputsUnusable, BuildFailed, BuildIgnoredPayload}
                && (r.error.DiskFull? <==> !env.enoughSpace)
    {
      hide Same, Blank, TreeAt, ReadInstallation, ReadProduct, WellFormed, Under, CanRefresh, ProductRepair.RefreshTranslationAssets,
        ToolkitIsVerified, NeedsCleanBuild, Decide, Written, Operation.IsFor, IsBuilt, ReadOutputs, BuildConsumedInputs, BuildProduced,
        Task.Built, Task.Made, Task.Prepared, Task.Refreshed, Task.InputsArrive, Task.Plan, Task.Payload, RecoverInstalledPayload,
        Task.Explains, Task.ExplainsBuild;
      ghost var task := TaskOf(inputs, env, op);
      task.BuildStages();
      task.BuildFailures();
      var d := Installed();
      if !env.enoughSpace { return Failure(DiskFull); }
      if !ToolkitIsVerified(d, d.ResolveToolkitFingerprint()) { return Failure(ToolkitModified); }
      var refreshed := RefreshWorkspace(inputs, env, op);
      if !refreshed { return Failure(GameInputsUnusable); }
      var finished, runs := BuildWithCleanRetry(NeedsCleanBuild(d, inputs, plan, payload), env.firstBuild, env.secondBuild);
      WriteScratch(env.built, op);
      if !finished { return Failure(BuildFailed); }
      var built := ReadOutputs(reader, disk.files, op.Scratch(site), plan);
      var failure := CheckOutputs(Installed(), inputs, plan, payload, built);
      return if failure.Some? then Failure(failure.value) else Success(built);
    }

    method WriteScratch(left: Tree, op: Operation)
      requires IsIdle(op)
      modifies disk`files
      ensures IsIdle(op) && Installed() == old(Installed())
      ensures disk.files == Written(old(disk.files), op.Scratch(site), left)
    {
      hide TreeAt, ReadInstallation, WellFormed, Under, OnlyBelow, Operation.IsFor, Written;
      ghost var files0 := disk.files;
      disk.WriteTree(op.Scratch(site), left);
      WrittenEffect(files0, op.Scratch(site), left);
      ScratchWrite(reader, site, op, files0, disk.files, disk.config);
      StillFresh(files0, disk.files, op.Scratch(site), WorkRoot(site, op.transaction));
    }

    /** Prepares in scratch space what the plan publishes beside its outputs: verified copies of the
        runtime assets, the payload or an empty directory, and the new state document. */
    method Stage(p: Publication, left: Tree, op: Operation) returns (ok: bool)
      requires IsIdle(op) && Installed().toolkitState.Some?
      modifies disk`files
      ensures IsIdle(op) && Installed() == old(Installed())
      ensures disk.files == Written(old(disk.files), op.Scratch(site), left)
      ensures ok <==>
                IsStaged(reader, disk.files, op.Scratch(site), p, Installed().toolkitState.value.runtimeAssets,
                         UpdatedState(Installed(), p.inputs, p.payload, p.plan.rebuildRetro))
    {
      hide IsStaged, UpdatedState, ReadInstallation, WellFormed, Under, Operation.IsFor, Written;
      WriteScratch(left, op);
      var d := Installed();
      ok := IsStaged(reader, disk.files, op.Scratch(site), p, d.toolkitState.value.runtimeAssets,
                     UpdatedState(d, p.inputs, p.payload, p.plan.rebuildRetro));
    }

    /** The transaction of a publication that is staged. */
    method Transact(p: Publication, op: Operation, ghost d: Installation) returns (r: Ended<()>, ghost before: Before)
      requires IsIdle(op) && reader.IsSound() && Installed().toolkitState.Some?
      requires d.root == site.root && p.plan == Decide(d, p.inputs, p.payload) && !p.plan.NothingToDo()
      requires p.inputs.snapshot.Some? ==> p.inputs.canonicalRoot.Some?
      requires Lists(p.plan, p.inputs, p.targets, 11) && CanPublish(Installed(), p.plan, p.payload)
      requires IsStaged(reader, disk.files, op.Scratch(site), p, Installed().toolkitState.value.runtimeAssets,
                        UpdatedState(Installed(), p.inputs, p.payload, p.plan.rebuildRetro))
      modifies disk`files, disk`journal, disk`config
      ensures WellFormed(disk.files) && before.site == site && |before.requests| <= MAXIMUM_ENTRIES
      ensures before.Valid() ==> IsPublication(reader, before, op, p) && Found(reader, before) == old(Installed())
      ensures before.Valid() ==>
                && (r.Returned? ==> IsCommitted(before, disk.files, disk.journal, disk.config))
                && (disk.journal.Some? ==> Safe(before, disk.files, disk.journal, disk.config))
                && (disk.journal.None? && r.Died? && Installed() != old(Installed()) ==> IsNew(before, disk.files, disk.config))
      ensures disk.journal.None? && r.Failed? ==> Installed() == old(Installed())
      ensures !before.Valid() ==> r.Failed? && disk.journal.None?
      ensures !r.Returned? ==> !Unhindered(before, disk.calm) && !CanReplace(site, op, p, old(disk.files), disk.calm)
      ensures r.Failed? ==> r.error == PublicationFailed
    {
      hide IsStaged, UpdatedState, ReadInstallation, WellFormed, Under, Decide, Safe, Framed, AllNew, AllOriginal,
        RequestsAccepted, Lists, Before.Publishable, Operation.IsFor, CanPublish, IsCommitted, CanReplace;
      var requests := RequestsFor(site.root, op.Scratch(site), p.recovered, p.targets);
      var newConfig :=
        if p.inputs.snapshot.Some? then Some(reader.withRoot(disk.config, p.inputs.canonicalRoot.value)) else None;
      before := Before(site, op.transaction, requests, disk.files, disk.config,
                       if newConfig.Some? then newConfig else disk.config);
      RequestsAreReady(before, op, p, d);
      ReplaceableIsUnhindered(before, op, p, d, disk.calm);
      var outcome := ApplyUpdate(disk, site, op.transaction, requests, newConfig, before);
      UpdateIsPublication(reader, before, op, p, disk.files, disk.journal, disk.config, outcome);
      r := match outcome
        case Done => Returned(())
        case Threw(_) => Failed(PublicationFailed)
        case Crashed => Died;
    }

    /** One publication: replaces what was built or resynchronized, the state document and the
        recorded canonical folder, all in one transaction, which may be left to recovery. */
    method PublishProducts(inputs: Inputs, plan: Decision, payload: Option<PayloadSnapshot>, outputs: Outputs,
                           recovered: bool, env: Environment, op: Operation, ghost task: Task)
      returns (r: Ended<()>, ghost before: Before, ghost p: Publication)
      requires IsIdle(op) && reader.IsSound() && Installed().toolkitState.Some? && IsBetween(task, inputs, env, op)
      requires plan == task.Plan() && payload == task.Payload() && outputs == task.Made()
      requires recovered == !env.download.Downloaded? && !plan.NothingToDo()
      requires inputs.snapshot.Some? ==> inputs.canonicalRoot.Some?
      modifies disk`files, disk`journal, disk`config
      ensures WellFormed(disk.files)
      ensures p == Publication(inputs, plan, payload, outputs, p.targets, recovered)
      ensures before.site == site && |before.requests| <= MAXIMUM_ENTRIES
      ensures r.Returned? || disk.journal.Some? ==>
                IsPublication(reader, before, op, p) && Found(reader, before) == old(Installed())
      ensures r.Failed? ==> task.Explains(r.error) && (r.error.PublicationFailed? ==> !Unhindered(before, disk.calm))
      ensures r.Died? ==> !Unhindered(before, disk.calm) && !task.Replaces()
      ensures r.Returned? ==> task.Publishes() && IsCommitted(before, disk.files, disk.journal, disk.config)
      ensures disk.journal.Some? ==> Safe(before, disk.files, disk.journal, disk.config)
      ensures disk.journal.None? && !r.Returned? ==>
                Installed() == old(Installed())
                || (r.Died? && IsPublication(reader, before, op, p) && Found(reader, before) == old(Installed())
                    && IsNew(before, disk.files, disk.config))
    {
      hide IsStaged, UpdatedState, ReadInstallation, WellFormed, Under, Decide, Safe, Framed, AllNew, AllOriginal,
        RequestsAccepted, Lists, Before.Valid, Before.Publishable, Operation.IsFor, RuntimeAssetsArePublishable, IsPublication,
        IsCommitted, IsNew, Unhindered, Written, CanReplace, ReadOutputs, Task.Built, Task.Prepared, Task.Plan, Task.Payload,
        Task.Made, Task.Explains, Task.StagingSucceeds, Task.Replaces;
      p := Publication(inputs, plan, payload, outputs, [], recovered);
      before := Before(site, op.transaction, [], disk.files, disk.config, disk.config);
      var found := Installed();
      SameAssets(task.Start(), found);
      task.PlanMeaning();
      if (plan.syncBaseAssets || plan.syncRetroAssets) && !RuntimeAssetsArePublishable(found) {
        task.PublicationFailureExplains(RuntimeAssetsUnusable);
        return Failed(RuntimeAssetsUnusable), before, p;
      }
      if plan.syncPayload && payload.None? {
        task.PublicationFailureExplains(PayloadUnavailable);
        return Failed(PayloadUnavailable), before, p;
      }
      var targets := CollectTargets(plan, inputs);
      var staging := Publication(inputs, plan, payload, outputs, targets, recovered);
      p := staging;
      var staged := Stage(staging, env.staged, op);
      SameStaging(task, staging);
      if !staged {
        task.PublicationFailureExplains(StagingFailed);
        return Failed(StagingFailed), before, p;
      }
      if env.runningAtPublish {
        task.PublicationFailureExplains(ProductRunning);
        return Failed(ProductRunning), before, p;
      }
      r, before := Transact(staging, op, task.Start());
      if r.Failed? { task.PublicationFailureExplains(PublicationFailed); }
    }

    /** Carries out a plan: builds into scratch space, then publishes. */
    method BuildAndPublish(inputs: Inputs, plan: Decision, payload: Option<PayloadSnapshot>, recovered: bool,
                           env: Environment, op: Operation)
      returns (r: Ended<()>, ghost before: Before, ghost p: Publication)
      requires IsIdle(op) && reader.IsSound() && Accepted(Installed(), inputs, payload)
      requires plan == Decide(Installed(), inputs, payload) && !plan.NothingToDo()
      requires plan == TaskOf(inputs, env, op).Plan() && payload == TaskOf(inputs, env, op).Payload()
      requires recovered == !env.download.Downloaded?
      modifies disk`files, disk`journal, disk`config
      ensures var task := old(TaskOf(inputs, env, op));
              && (r.Failed? ==> task.Explains(r.error))
              && (r.Died? ==> !task.Replaces())
              && (r.Returned? ==> (task.Builds() ==> task.BuildSucceeds()) && task.Publishes())
      ensures WellFormed(disk.files) && before.site == site && p.inputs == inputs && p.payload == payload
      ensures disk.journal.Some? ==>
                IsPending(reader, old(Installed()), before, op, p, disk.files, disk.journal, disk.config)
      ensures r.Returned? ==> IsPublished(reader, old(Installed()), before, Installed(), p)
      ensures r.Died? ==> !Unhindered(before, disk.calm)
      ensures disk.journal.None? ==> KeepsSettings(old(Installed()), Installed())
      ensures disk.journal.None? && !r.Returned? ==>
                OnlyWorkspaceChanged(old(Installed()), Installed())
                || (r.Died? && IsPublished(reader, old(Installed()), before, Installed(), p))
    {
      hide ReadInstallation, WellFormed, Under, Decide, Safe, Before.Valid, Before.Publishable, Operation.IsFor, Accepted,
        IsPublication, IsBuilt, Prepares, Blank, KeepsSettings, SameGround, Task.Explains, Task.Publishes, Task.BuildSucceeds,
        Task.Replaces, Task.Plan, Task.Payload, Task.Built, Task.Made, Task.Prepared, RecoverInstalledPayload;
      ghost var d := Installed();
      ghost var task := TaskOf(inputs, env, op);
      before := Before(site, op.transaction, [], disk.files, disk.config, disk.config);
      var outputs := Outputs(None, None);
      p := Publication(inputs, plan, payload, outputs, [], recovered);
      if plan.rebuildBase || plan.rebuildRetro {
        AcceptedRebuild(d, inputs, payload);
        var built := Build(inputs, plan, payload, env, op);
        if built.Failure? {
          KeptEitherWay(reader, d, before, Installed(), p);
          task.BuildFailureExplains(built.error);
          return Failed(built.error), before, p;
        }
        outputs := built.value;
      } else {
        NothingIsBuilt(d, inputs, plan, payload);
        NothingIsMade(task);
      }
      ghost var found := Installed();
      AcceptedHasToolkitState(d, found, inputs, payload);
      r, before, p := PublishProducts(inputs, plan, payload, outputs, recovered, env, op, task);
      if r.Returned? || disk.journal.Some? || Installed() != found {
        assert MaySettle(reader, d, before, op, p);
        if r.Returned? || disk.journal.None? { NewIsPublished(reader, d, before, op, p, disk.files, disk.config); }
      }
      if disk.journal.None? { KeptEitherWay(reader, d, before, Installed(), p); }
    }

    /** The checks before anything is built, the payload, and the plan. */
    method PlanOperation(inputs: Inputs, env: Environment, op: Operation)
      returns (r: Result<(Option<PayloadSnapshot>, Decision), RepairError>)
      requires inputs.snapshot.None? <==> inputs.mode.NotApplicable?
      ensures r.Success? <==> TaskOf(inputs, env, op).Proceeds()
      ensures r.Success? ==> r.value == (TaskOf(inputs, env, op).Payload(), TaskOf(inputs, env, op).Plan())
      ensures r.Failure? ==> TaskOf(inputs, env, op).Explains(r.error)
    {
      hide ReadInstallation, Decide, Blank, RecoverInstalledPayload, RetroDrifted, Installation.CheckRetroCore,
        Installation.ResolveToolkitFingerprint, Task.StagingSucceeds, Task.Replaces, Task.ExplainsBuild, Task.Builds;
      var d := Installed();
      var checked := CheckOperation(d, inputs, env.running);
      if checked.Failure? { return Failure(checked.error); }
      var obtained := ObtainPayload(d, inputs.mode, env.download);
      if obtained.Failure? { return Failure(obtained.error); }
      var payload := obtained.value;
      if inputs.snapshot.Some? && inputs.canonicalRoot.None? { return Failure(CanonicalRootMissing); }
      var planned := Plan(d, inputs, payload);
      if planned.Failure? { return Failure(planned.error); }
      return Success((payload, planned.value));
    }

    /** Either nothing that inspection looks at has changed, or every product is current: the base
        product, and Retro Rewind if it was asked for or is installed; or a transaction is pending
        that recovery can settle. An operation fails only for a cause, returns only when its plan has
        been carried out, and returns if everything is in order. */
    method ReconcileAsync(inputs: Inputs, env: Environment, op: Operation)
      returns (r: Ended<Reconciliation>, payload: Option<PayloadSnapshot>, ghost before: Before, ghost p: Publication)
      requires inputs.snapshot.None? <==> inputs.mode.NotApplicable?
      requires IsIdle(op) && reader.IsSound()
      modifies disk`files, disk`journal, disk`config
      ensures WellFormed(disk.files) && before.site == site
      ensures disk.journal.Some? ==>
                && IsPending(reader, old(Installed()), before, op, p, disk.files, disk.journal, disk.config)
                && p.inputs == inputs && p.payload == payload
      ensures disk.journal.None? && !r.Returned? ==>
                OnlyWorkspaceChanged(old(Installed()), Installed())
                || (r.Died? && p.inputs == inputs && p.payload == payload
                    && IsPublished(reader, old(Installed()), before, Installed(), p))
      ensures r.Died? ==> !Unhindered(before, disk.calm)
      ensures disk.journal.None? ==> KeepsSettings(old(Installed()), Installed())
      ensures r.Returned? ==>
                && r.value.committed == !Decide(old(Installed()), inputs, payload).NothingToDo()
                && (if r.value.committed
                    then IsPublished(reader, old(Installed()), before, Installed(), p) && p.inputs == inputs && p.payload == payload
                    else Installed() == old(Installed()) && disk.files == old(disk.files))
                && r.value.cacheMatches == ObservedCache(Installed())
                && (inputs.mode.Online? <==> payload.Some?)
                && (inputs.mode.Online? && env.download.Downloaded? ==> payload == Some(env.download.payload))
      ensures r.Failed? ==> old(TaskOf(inputs, env, op)).Explains(r.error)
      ensures r.Died? ==> !old(TaskOf(inputs, env, op)).Replaces()
      ensures r.Returned? ==> old(TaskOf(inputs, env, op)).MayReturn() && payload == old(TaskOf(inputs, env, op)).Payload()
      ensures old(TaskOf(inputs, env, op)).IsInOrder() ==> r.Returned?
      ensures r.Returned? && FaithfulBuilds(old(Installed()), p.outputs) ==>
                var plan := Decide(old(Installed()), inputs, payload);
                && Converged(old(Installed()), Installed(), inputs, plan, r.value.cacheMatches)
                && (CanConverge(old(Installed()), plan) ==> ProductRepair.Settled(Installed(), inputs, payload))
    {
      hide ReadInstallation, WellFormed, Under, Decide, Safe, Before.Valid, Before.Publishable, Operation.IsFor, Converged,
        ProductRepair.Settled, RecoverInstalledPayload, IsPending, KeepsSettings, CanConverge, FaithfulBuilds, ObservedCache,
        Accepted, Task.BuildSucceeds, Task.Publishes, Task.Replaces, Task.Explains, Task.Plan, Task.Payload, Task.Builds;
      ghost var task := TaskOf(inputs, env, op);
      payload := None;
      var d := Installed();
      before := Before(site, op.transaction, [], disk.files, disk.config, disk.config);
      p := Publication(inputs, Decision(false, false, false, false, false, false), None, Outputs(None, None), [], false);
      SettingsStay(d);
      task.PlanMeaning();
      var planned := PlanOperation(inputs, env, op);
      if planned.Failure? { return Failed(planned.error), None, before, p; }
      payload := planned.value.0;
      var plan := planned.value.1;
      if plan.NothingToDo() {
        NothingToDoIsCurrent(d, inputs, payload);
        return Returned(Reconciliation(false, ObservedCache(d))), payload, before, p;
      }

      var published;
      published, before, p := BuildAndPublish(inputs, plan, payload, !env.download.Downloaded?, env, op);
      if published.Failed? {
        if task.IsInOrder() { InOrderExplainsNothing(task, published.error); }
        return Failed(published.error), payload, before, p;
      }
      if published.Died? { return Died, payload, before, p; }
      if FaithfulBuilds(d, p.outputs) {
        PublishedIsCurrent(d, Found(reader, before), Installed(), inputs, payload, p.outputs);
      }
      return Returned(Reconciliation(true, ObservedCache(Installed()))), payload, before, p;
    }
  }

  /** Writing one of the workspace's two inputs changes that input alone. */
  lemma InputWrite(reader: Reader, site: Site, op: Operation, files: Files, files': Files, config: Option<Contents>,
                   input: GameInput)
    requires op.IsFor(site) && OnlyBelow(files, files', InputPath(site.root, input))
    ensures var d, d' := ReadInstallation(reader, site.root, files, config), ReadInstallation(reader, site.root, files', config);
            && OnlyInputChanged(d, d', input)
            && InWorkspace(d', input) == reader.file(TreeAt(files', InputPath(site.root, input)))
    ensures TreeAt(files', WorkRoot(site, op.transaction)) == TreeAt(files, WorkRoot(site, op.transaction))
  {
    hide TreeAt, OnlyBelow, ReadProduct;
    match input
    case Dol => WorkspaceWrite(reader, site, op, files, files', config, WORKSPACE_DOL);
    case Rel => WorkspaceWrite(reader, site, op, files, files', config, WORKSPACE_REL);
  }

  lemma SettingsStay(d: Installation)
    ensures KeepsSettings(d, d)
  {
  }

  lemma AcceptedHasToolkitState(d: Installation, found: Installation, inputs: Inputs, payload: Option<PayloadSnapshot>)
    requires Accepted(d, inputs, payload) && OnlyWorkspaceChanged(d, found)
    ensures found.toolkitState.Some? && (inputs.snapshot.Some? ==> inputs.canonicalRoot.Some?)
  {
  }

  lemma AcceptedRebuild(d: Installation, inputs: Inputs, payload: Option<PayloadSnapshot>)
    ensures Decide(d, inputs, payload).rebuildRetro ==> inputs.snapshot.Some?
  {
    hide NeedsBaseBuild, NeedsRetroBuild;
  }

  lemma NothingIsMade(task: Task)
    requires !task.Builds()
    ensures task.Built() == task.files && task.Prepared() == task.Start() && task.Made() == Outputs(None, None)
  {
    hide ReadInstallation, ReadProduct, Task.Plan;
  }

  lemma NothingIsBuilt(d: Installation, inputs: Inputs, plan: Decision, payload: Option<PayloadSnapshot>)
    requires !plan.rebuildBase && !plan.rebuildRetro
    ensures IsBuilt(d, inputs, plan, payload, Outputs(None, None)) && Prepares(d, d, inputs, plan)
  {
  }

  /** A transaction that, once settled, leaves `d` as a publication of its own plan leaves it, or as
      it was but for the workspace inputs. */
  ghost predicate MaySettle(reader: Reader, d: Installation, before: Before, op: Operation, p: Publication) {
    && IsPublication(reader, before, op, p) && |before.requests| <= MAXIMUM_ENTRIES
    && Accepted(d, p.inputs, p.payload) && p.plan == Decide(d, p.inputs, p.payload)
    && Prepares(d, Found(reader, before), p.inputs, p.plan)
    && IsBuilt(Found(reader, before), p.inputs, p.plan, p.payload, p.outputs)
  }

  /** It was interrupted, or its clean-up was: the journal that recovery will find. */
  ghost predicate IsPending(reader: Reader, d: Installation, before: Before, op: Operation, p: Publication, files: Files,
                            stored: Option<Journal>, config: Option<Contents>)
  {
    stored.Some? && MaySettle(reader, d, before, op, p) && Safe(before, files, stored, config)
  }

  ghost predicate IsPublished(reader: Reader, d: Installation, before: Before, d': Installation, p: Publication) {
    Accepted(d, p.inputs, p.payload) && ProductRepair.Published(d, Found(reader, before), d', p.inputs, p.payload, p.outputs)
  }

  lemma NewIsPublished(reader: Reader, d: Installation, before: Before, op: Operation, p: Publication, files: Files,
                       config: Option<Contents>)
    requires MaySettle(reader, d, before, op, p) && IsNew(before, files, config)
    ensures IsPublished(reader, d, before, ReadInstallation(reader, before.site.root, files, config), p)
  {
    hide ReadInstallation, Framed, AllNew, Decide, Accepted, IsBuilt, Prepares, PublishedInstallation;
    NewReading(reader, before, files, op, p);
  }

  /** No lock or crash, and nothing in the way of the transaction. */
  ghost predicate Unhindered(before: Before, calm: bool) {
    calm && before.Valid() && before.Publishable()
  }

  /** What a publication hands to its transaction. */
  lemma RequestsAreReady(before: Before, op: Operation, p: Publication, d: Installation)
    requires op.IsFor(before.site) && before.id == op.transaction && WellFormed(before.files)
    requires Under(before.files, WorkRoot(before.site, op.transaction)) == {}
    requires d.root == before.site.root && p.plan == Decide(d, p.inputs, p.payload) && !p.plan.NothingToDo()
    requires Lists(p.plan, p.inputs, p.targets, 11)
    requires before.requests == RequestsFor(before.site.root, op.Scratch(before.site), p.recovered, p.targets)
    ensures before.Ready() && |before.requests| <= MAXIMUM_ENTRIES
    ensures before.Valid() ==> Publishing(before, op, p)
  {
    hide Decide, Lists, RequestsAccepted, WellFormed, Under;
    PlanIsWellFormed(d, p.inputs, p.payload, p.targets, op.container, before.site.scope, op.scratch, p.recovered, before.files);
    DecidedIsCoherent(d, p.inputs, p.payload);
  }

  /** Where every target can be replaced, nothing hinders the transaction. */
  lemma ReplaceableIsUnhindered(before: Before, op: Operation, p: Publication, d: Installation, calm: bool)
    requires before.Ready() && before.id == op.transaction && op.IsFor(before.site)
    requires d.root == before.site.root && p.plan == Decide(d, p.inputs, p.payload) && !p.plan.NothingToDo()
    requires Lists(p.plan, p.inputs, p.targets, 11)
    requires before.requests == RequestsFor(before.site.root, op.Scratch(before.site), p.recovered, p.targets)
    ensures CanReplace(before.site, op, p, before.files, calm) ==> Unhindered(before, calm)
  {
    hide Decide, WellFormed, Under, RequestsAccepted;
    PlanIsWellFormed(d, p.inputs, p.payload, p.targets, op.container, before.site.scope, op.scratch, p.recovered, before.files);
    if CanReplace(before.site, op, p, before.files, calm) {
      forall r | r in before.requests
        ensures Exists(before.files, r.prepared, r.kind) && !ExistsAsOtherKind(before.files, r.prepared, r.kind)
        ensures !ExistsAsOtherKind(before.files, r.destination, r.kind) && ParentsAreDirectories(before.files, r.destination)
      {
        var i :| 0 <= i < |before.requests| && before.requests[i] == r;
        assert p.targets[i] in p.targets && CanReplaceTarget(before.site, op, p, before.files, p.targets[i]);
      }
    }
  }

  lemma SameAssets(d: Installation, d': Installation)
    requires OnlyWorkspaceChanged(d, d')
    ensures RuntimeAssetsArePublishable(d') <==> RuntimeAssetsArePublishable(d)
  {
  }

  /** The list of targets makes no difference to what is staged and where it goes. */
  lemma SameStaging(task: Task, p: Publication)
    requires task.Staging() == p.(targets := [])
    ensures task.Replaces() <==> CanReplace(task.site, task.op, p, task.Ready(), task.calm)
    ensures task.StagingSucceeds() <==>
            && task.Prepared().toolkitState.Some?
            && IsStaged(task.reader, task.Ready(), task.op.Scratch(task.site), p, task.Prepared().toolkitState.value.runtimeAssets,
                        UpdatedState(task.Prepared(), p.inputs, p.payload, p.plan.rebuildRetro))
  {
    hide ReadInstallation, ReadProduct, UpdatedState, Decide, TreeAt, Written, Task.Prepared, Task.Built, Task.Made,
      Task.Plan, Task.Payload, Task.Ready, Exists, ParentsAreDirectories, ExistsAsOtherKind, Place, KindOf, Operation.IsFor;
  }

  /** How an update leaves the disk, and what the installation then reads. */
  lemma UpdateIsPublication(reader: Reader, before: Before, op: Operation, p: Publication, files: Files,
                            stored: Option<Journal>, config: Option<Contents>, outcome: Outcome)
    requires before.Valid() ==> IsPublication(reader, before, op, p)
    requires !before.Valid() ==> outcome.Threw? && files == before.files && stored.None? && config == before.config
    requires before.Valid() ==>
               && (outcome.Done? ==> IsCommitted(before, files, stored, config))
               && (outcome.Threw? ==> Undoing(before, files, stored, config))
               && (stored.Some? ==> Safe(before, files, stored, config))
               && (stored.None? ==> TransactionLifecycle.Settled(before, files, config))
    requires WellFormed(before.files)
    ensures WellFormed(files)
    ensures stored.None? && !outcome.Done? ==>
              ReadInstallation(reader, before.site.root, files, config) == Found(reader, before)
              || (outcome.Crashed? && before.Valid() && IsNew(before, files, config))
  {
    hide ReadInstallation, WellFormed, Before.Valid, AllNew, AllOriginal, IsStaged;
    if before.Valid() {
      assert Framed(before, files);
      FramedIsWellFormed(before, files);
      if stored.None? && !outcome.Done? && AllOriginal(before, files) && config == before.config {
        OldReading(reader, before, files, op, p);
      }
    }
  }

  /** The new trees and the new configuration are in place. */
  ghost predicate IsNew(before: Before, files: Files, config: Option<Contents>)
    requires before.Valid()
  {
    Framed(before, files) && AllNew(before, files) && config == before.intended
  }

  lemma StillFresh(files: Files, files': Files, p: Path, work: Path)
    requires OnlyBelow(files, files', p)
    requires TreeAt(files', work) == TreeAt(files, work)
    ensures Under(files, work) == {} ==> Under(files', work) == {}
    ensures WellFormed(files) ==> WellFormed(files')
  {
    EmptyTree(files, work);
    EmptyTree(files', work);
  }

  // ---- Through crashes ----

  lemma SettledReading(reader: Reader, d: Installation, before: Before, op: Operation, p: Publication, files: Files,
                       config: Option<Contents>)
    requires MaySettle(reader, d, before, op, p) && TransactionLifecycle.Settled(before, files, config)
    ensures WellFormed(files)
    ensures var d' := ReadInstallation(reader, before.site.root, files, config);
            OnlyWorkspaceChanged(d, d') || IsPublished(reader, d, before, d', p)
  {
    hide ReadInstallation, WellFormed, Before.Valid, AllNew, AllOriginal, IsStaged, IsPublished, CanPublish;
    FramedIsWellFormed(before, files);
    if AllNew(before, files) && config == before.intended {
      NewIsPublished(reader, d, before, op, p, files, config);
    } else {
      OldReading(reader, before, files, op, p);
    }
  }

  lemma KeptEitherWay(reader: Reader, d: Installation, before: Before, d': Installation, p: Publication)
    requires OnlyWorkspaceChanged(d, d') || IsPublished(reader, d, before, d', p)
    ensures SameGround(d, d') && KeepsSettings(d, d')
  {
    hide Found, Accepted, Decide, ProductRepair.Published;
    if !OnlyWorkspaceChanged(d, d') {
      PublishedGround(d, Found(reader, before), d', p.inputs, p.payload, p.outputs);
      SettingsSurvive(d, Found(reader, before), d', p.inputs, p.payload, p.outputs);
    }
  }

  lemma SameGroundSameFaith(d: Installation, d': Installation, outputs: Outputs, plan: Decision)
    requires SameGround(d, d')
    ensures FaithfulBuilds(d', outputs) <==> FaithfulBuilds(d, outputs)
    ensures CanConverge(d', plan) <==> CanConverge(d, plan)
    ensures CompleteInstallation(d') <==> CompleteInstallation(d)
    ensures WorkspaceAssetsMatch(d') <==> WorkspaceAssetsMatch(d)
  {
    hide Same, Blank;
  }

  /** A publication that went through, with faithful builds, leaves the next operation nothing to do. */
  lemma PublishedIsSettled(reader: Reader, d: Installation, before: Before, d': Installation, p: Publication)
    requires IsPublished(reader, d, before, d', p) && FaithfulBuilds(d, p.outputs) && CanConverge(d, Decide(d, p.inputs, p.payload))
    ensures Decide(d', p.inputs, p.payload).NothingToDo()
  {
    hide Found, Accepted, ProductRepair.Published, CanConverge, FaithfulBuilds, Converged;
    PublishedIsCurrent(d, Found(reader, before), d', p.inputs, p.payload, p.outputs);
  }

  lemma SafeIsFramed(before: Before, files: Files, stored: Option<Journal>, config: Option<Contents>)
    requires before.Valid() && Safe(before, files, stored, config)
    ensures WellFormed(files)
  {
    FramedIsWellFormed(before, files);
  }

  lemma RecoveredIsSettled(before: Before, files: Files, stored: Option<Journal>, config: Option<Contents>)
    requires before.Valid() && stored.None?
    requires Undone(before, files, stored, config) || IsCommitted(before, files, stored, config)
    ensures TransactionLifecycle.Settled(before, files, config)
  {
  }

  /** One restart: recovery runs before anything else, and may be interrupted in turn. */
  method Restart(service: ProductRepairService, ghost d: Installation, ghost before: Before, ghost op: Operation,
                 ghost p: Publication)
    requires before.site == service.site
    requires IsPending(service.reader, d, before, op, p, service.disk.files, service.disk.journal, service.disk.config)
    modifies service.disk`files, service.disk`journal, service.disk`config
    ensures WellFormed(service.disk.files)
    ensures service.disk.journal.Some? ==>
              IsPending(service.reader, d, before, op, p, service.disk.files, service.disk.journal, service.disk.config)
    ensures service.disk.journal.None? ==>
              OnlyWorkspaceChanged(d, service.Installed()) || IsPublished(service.reader, d, before, service.Installed(), p)
  {
    hide ReadInstallation, Safe, Before.Valid, Framed, AllNew, AllOriginal, IsPublished, IsStaged, OnlyWorkspaceChanged,
      Accepted, Decide, Prepares, IsBuilt, WellFormed;
    var disk := service.disk;
    var recovered := InstallTransaction.Recover(disk, service.site, before);
    if disk.journal.None? {
      RecoveredIsSettled(before, disk.files, disk.journal, disk.config);
      SettledReading(service.reader, d, before, op, p, disk.files, disk.config);
    } else {
      SafeIsFramed(before, disk.files, disk.journal, disk.config);
    }
  }

  /** An operation and the restarts after it, until no transaction is pending. */
  method ReconcileAndRecover(service: ProductRepairService, inputs: Inputs, env: Environment, op: Operation, restarts: nat)
    returns (settled: bool, ghost before: Before, ghost p: Publication)
    requires inputs.snapshot.None? <==> inputs.mode.NotApplicable?
    requires service.IsIdle(op) && service.reader.IsSound()
    modifies service.disk`files, service.disk`journal, service.disk`config
    ensures WellFormed(service.disk.files) && (settled <==> service.disk.journal.None?)
    ensures settled ==>
              OnlyWorkspaceChanged(old(service.Installed()), service.Installed())
              || IsPublished(service.reader, old(service.Installed()), before, service.Installed(), p)
    ensures !settled ==>
              IsPending(service.reader, old(service.Installed()), before, op, p, service.disk.files, service.disk.journal,
                        service.disk.config)
  {
    hide ReadInstallation, IsPending, IsPublished, Converged, ProductRepair.Settled, Decide;
    var disk := service.disk;
    ghost var d := service.Installed();
    var ended, payload;
    ended, payload, before, p := service.ReconcileAsync(inputs, env, op);
    var starts := 0;
    while disk.journal.Some? && starts < restarts
      invariant WellFormed(disk.files) && before.site == service.site
      invariant disk.journal.Some? ==>
                  IsPending(service.reader, d, before, op, p, disk.files, disk.journal, disk.config)
      invariant disk.journal.None? ==>
                  OnlyWorkspaceChanged(d, service.Installed()) || IsPublished(service.reader, d, before, service.Installed(), p)
    {
      Restart(service, d, before, op, p);
      starts := starts + 1;
    }
    settled := disk.journal.None?;
  }

  /** The operation once more, after whatever crashed before. The installation then reads as it did,
      or as published, and when the second operation returns everything is current. */
  method ReconcileThroughCrashes(service: ProductRepairService, inputs: Inputs, first: Environment, second: Environment,
                                 op: Operation, restarts: nat)
    returns (r: Option<Ended<Reconciliation>>, payload: Option<PayloadSnapshot>, ghost between: Installation,
             ghost before: Before, ghost p1: Publication, ghost p2: Publication)
    requires inputs.snapshot.None? <==> inputs.mode.NotApplicable?
    requires service.IsIdle(op) && service.reader.IsSound()
    modifies service.disk`files, service.disk`journal, service.disk`config
    ensures r.Some? ==>
              && SameGround(old(service.Installed()), between) && KeepsSettings(old(service.Installed()), between)
              && (OnlyWorkspaceChanged(old(service.Installed()), between)
                  || IsPublished(service.reader, old(service.Installed()), before, between, p1))
    ensures r.Some? && r.value.Returned? && FaithfulBuilds(old(service.Installed()), p2.outputs) ==>
              var plan := Decide(between, inputs, payload);
              && Converged(between, service.Installed(), inputs, plan, r.value.value.cacheMatches)
              && (CanConverge(old(service.Installed()), plan) ==> ProductRepair.Settled(service.Installed(), inputs, payload))
    ensures r.Some? && r.value.Returned? && payload == p1.payload && inputs == p1.inputs
            && IsPublished(service.reader, old(service.Installed()), before, between, p1)
            && FaithfulBuilds(old(service.Installed()), p1.outputs)
            && CanConverge(old(service.Installed()), Decide(old(service.Installed()), inputs, payload)) ==>
              !r.value.value.committed && service.Installed() == between
  {
    hide ReadInstallation, IsPending, IsPublished, Converged, ProductRepair.Settled, Decide, SameGround, KeepsSettings,
      OnlyWorkspaceChanged, FaithfulBuilds, CanConverge, WellFormed, Under, Operation.IsFor;
    ghost var d := service.Installed();
    var settled;
    settled, before, p1 := ReconcileAndRecover(service, inputs, first, op, restarts);
    r, payload, between, p2 := None, None, d, p1;
    var again: Operation := *;
    if !settled || !again.IsFor(service.site) || Under(service.disk.files, WorkRoot(service.site, again.transaction)) != {} {
      return;
    }
    between := service.Installed();
    KeptEitherWay(service.reader, d, before, between, p1);
    var ended;
    ghost var later: Before;
    ended, payload, later, p2 := service.ReconcileAsync(inputs, second, again);
    r := Some(ended);
    SameGroundSameFaith(d, between, p2.outputs, Decide(between, inputs, payload));
    if IsPublished(service.reader, d, before, between, p1) && FaithfulBuilds(d, p1.outputs)
       && CanConverge(d, Decide(d, p1.inputs, p1.payload)) {
      PublishedIsSettled(service.reader, d, before, between, p1);
    }
  }
}
