/** One reconciliation before it is carried out: what it is asked for, the disk it finds, what its
    environment does, and from that what it leaves at each stage and every reason it may fail for. */
module RepairTasks {
  import opened Paths
  import opened FileTrees
  import opened Texts
  import opened Wrappers
  import opened Installations
  import opened ProductRepair
  import opened ProductPlans
  import opened ProductStatuses
  import opened ProductDisks
  import opened Transactions

  datatype RepairError =
    | NotInstalled
    | ToolkitMissing
    | ToolkitUnidentified
    | ProductRunning
    | HashesIncomplete
    | PayloadUnavailable
    | DownloadFailed
    | CanonicalRootMissing
    | RetroInputsChanged
    | RetroNeedsRepair
    | DiskFull
    | ToolkitModified
    | GameInputsUnusable
    | BuildFailed
    | BuildIgnoredPayload
    | RuntimeAssetsUnusable
    | StagingFailed
    | PublicationFailed

  /** The exceptions a download may end with, as its caller tells them apart. */
  datatype Exception = HttpRequest | Io | InvalidData | InvalidOperation | OperationCanceled | Timeout | Unexpected

  datatype Download = Downloaded(payload: PayloadSnapshot) | Refused(exception: Exception, cancelled: bool)

  /** How a run of the build ends. */
  datatype BuildEnd = Finished | Stopped(exception: Exception)

  /** What the program cannot decide: the download, how builds end, running games and free space, and
      what is left by the copies of the two game inputs, by the builds in scratch space, and there
      again when everything to be published has been prepared. */
  datatype Environment = Environment(
    download: Download, firstBuild: BuildEnd, secondBuild: BuildEnd, running: bool, runningAtPublish: bool,
    enoughSpace: bool, dolCopy: Tree, relCopy: Tree, built: Tree, staged: Tree)

  /** The exceptions of a download after which the installed payload may serve. */
  predicate FallsBack(exception: Exception) {
    exception.HttpRequest? || exception.Io? || exception.InvalidData? || exception.InvalidOperation?
    || exception.OperationCanceled?
  }

  predicate MayBeDamaged(status: Status) { status.Broken? || status.Blocked? }

  /** Nothing on record of a damaged product may contribute to the new one. */
  predicate NeedsCleanBuild(d: Installation, inputs: Inputs, plan: Decision, payload: Option<PayloadSnapshot>) {
    || (plan.rebuildBase && MayBeDamaged(d.CheckBaseCore(d.ResolveToolkitFingerprint())))
    || (plan.rebuildRetro && MayBeDamaged(RetroStatus(d, inputs, payload)))
  }

  /** Caches are trusted exactly when no product that is rebuilt is damaged: its executable and
      records are there, and they agree or are another toolkit's; or it was never installed. */
  lemma CleanBuildMeaning(d: Installation, inputs: Inputs, plan: Decision, payload: Option<PayloadSnapshot>)
    ensures var toolkit := d.ResolveToolkitFingerprint();
            NeedsCleanBuild(d, inputs, plan, payload) <==>
              || (plan.rebuildBase
                  && !(BaseIsReadable(d, toolkit) && (d.base.fingerprint.value.toolkit != toolkit || BaseRecordsAgree(d))))
              || (plan.rebuildRetro
                  && if d.retro.executable.None? then IsRecorded(d) else RetroIsBlocked(d, toolkit, inputs.snapshot))
  {
    hide Blank, Same, NameOneFile, RecordsAgree, IsSound, HasTools, Installation.CheckBaseCore, Installation.CheckRetroCore,
      Installation.ResolveToolkitFingerprint;
    BaseStatuses(d, d.ResolveToolkitFingerprint());
    RetroStatuses(d, d.ResolveToolkitFingerprint(), inputs.snapshot, CacheObservation(d, payload));
  }

  /** The two files of the game that are translated. */
  datatype GameInput = Dol | Rel

  function InputPath(root: Path, input: GameInput): Path {
    match input
    case Dol => root + WORKSPACE_DOL
    case Rel => root + WORKSPACE_REL
  }

  function InWorkspace(d: Installation, input: GameInput): Option<Artifact> {
    match input
    case Dol => d.workspaceDol
    case Rel => d.workspaceRel
  }

  function InGameData(d: Installation, input: GameInput): Option<Artifact> {
    match input
    case Dol => d.dol
    case Rel => d.rel
  }

  predicate OnlyInputChanged(d: Installation, d': Installation, input: GameInput) {
    match input
    case Dol => d' == d.(workspaceDol := d'.workspaceDol)
    case Rel => d' == d.(workspaceRel := d'.workspaceRel)
  }

  /** A workspace input that is already the expected one is not copied. */
  predicate IsExpected(workspace: Option<Artifact>, expected: string) {
    workspace.Some? && Same(workspace.value.sha, expected)
  }

  function AfterCopy(files: Files, p: Path, workspace: Option<Artifact>, expected: string, copy: Tree): Files {
    if IsExpected(workspace, expected) then files else Written(files, p, copy)
  }

  /** The input is in the workspace afterwards. */
  predicate Arrives(reader: Reader, files: Files, p: Path, workspace: Option<Artifact>, expected: string, copy: Tree,
                    source: Option<Artifact>)
  {
    IsExpected(workspace, expected) || reader.file(TreeAt(Written(files, p, copy), p)) == source
  }

  lemma CopyMeaning(reader: Reader, files: Files, p: Path, workspace: Option<Artifact>, expected: string, copy: Tree,
                    source: Option<Artifact>)
    ensures IsExpected(workspace, expected) ==>
              AfterCopy(files, p, workspace, expected, copy) == files
              && Arrives(reader, files, p, workspace, expected, copy, source)
    ensures !IsExpected(workspace, expected) ==>
              AfterCopy(files, p, workspace, expected, copy) == Written(files, p, copy)
              && (Arrives(reader, files, p, workspace, expected, copy, source) <==>
                    reader.file(TreeAt(Written(files, p, copy), p)) == source)
  {
    hide Same, Written, TreeAt;
  }

  function ReadOutputs(reader: Reader, files: Files, scratch: Path, plan: Decision): Outputs {
    Outputs(
      if plan.rebuildBase then Some(ReadProduct(reader, files, scratch + BASE_OUTPUT, BASE_EXECUTABLE)) else None,
      if plan.rebuildRetro then Some(ReadProduct(reader, files, scratch + RETRO_OUTPUT, RETRO_EXECUTABLE)) else None)
  }

  /** Every target can be replaced by what is staged for it, and nothing locks or interrupts that. */
  ghost predicate CanReplace(site: Site, op: Operation, p: Publication, files: Files, calm: bool) {
    && calm && op.IsFor(site) && ParentsAreDirectories(files, WorkRoot(site, op.transaction))
    && forall t: Target | Publishes(p.plan, p.inputs, t) :: CanReplaceTarget(site, op, p, files, t)
  }

  ghost predicate CanReplaceTarget(site: Site, op: Operation, p: Publication, files: Files, t: Target) {
    var prepared, destination := op.Scratch(site) + Staged(t, p.recovered), site.root + Place(t);
    && Exists(files, prepared, KindOf(t))
    && !ExistsAsOtherKind(files, destination, KindOf(t)) && ParentsAreDirectories(files, destination)
  }

  datatype Task = Task(
    reader: Reader, site: Site, files: Files, config: Option<Contents>, calm: bool, inputs: Inputs, env: Environment,
    op: Operation)
  {
    ghost function Start(): Installation { ReadInstallation(reader, site.root, files, config) }

    // ---- The checks before planning ----

    ghost predicate IsRefused() { inputs.mode.Online? && env.download.Refused? }

    ghost predicate MayFallBack() { env.download.Refused? && !env.download.cancelled && FallsBack(env.download.exception) }

    /** The payload the operation works with. */
    ghost function Payload(): Option<PayloadSnapshot> {
      if !inputs.mode.Online? then None
      else if env.download.Downloaded? then Some(env.download.payload)
      else if MayFallBack() then RecoverInstalledPayload(Start())
      else None
    }

    ghost predicate Proceeds() {
      Start().IsPresent() && !env.running && Accepted(Start(), inputs, Payload())
    }

    ghost function Plan(): Decision { Decide(Start(), inputs, Payload()) }

    lemma PlanMeaning()
      ensures Plan() == Decide(Start(), inputs, Payload())
      ensures Proceeds() ==> Accepted(Start(), inputs, Payload())
      ensures Proceeds() && inputs.mode.Online? && env.download.Downloaded? ==> Payload() == Some(env.download.payload)
      ensures Proceeds() ==> (inputs.mode.Online? <==> Payload().Some?)
    {
      hide ReadInstallation, Decide, Blank, RetroDrifted, RecoverInstalledPayload, Installation.CheckRetroCore;
    }

    // ---- Building ----

    ghost predicate Builds() { Plan().rebuildBase || Plan().rebuildRetro }

    ghost function DolCopied(): Files {
      AfterCopy(files, InputPath(site.root, Dol), Start().workspaceDol, ExpectedHashes(Start(), inputs).0, env.dolCopy)
    }

    ghost function Refreshed(): Files {
      AfterCopy(DolCopied(), InputPath(site.root, Rel), Start().workspaceRel, ExpectedHashes(Start(), inputs).1, env.relCopy)
    }

    ghost predicate DolArrives() {
      Arrives(reader, files, InputPath(site.root, Dol), Start().workspaceDol, ExpectedHashes(Start(), inputs).0, env.dolCopy,
              Start().dol)
    }

    ghost predicate RelArrives() {
      Arrives(reader, DolCopied(), InputPath(site.root, Rel), Start().workspaceRel, ExpectedHashes(Start(), inputs).1,
              env.relCopy, Start().rel)
    }

    ghost predicate InputsArrive() { CanRefresh(Start(), inputs) && DolArrives() && RelArrives() }

    ghost predicate BuildFinishes() {
      || env.firstBuild.Finished?
      || (env.firstBuild == Stopped(InvalidOperation) && env.secondBuild.Finished?
          && !NeedsCleanBuild(Start(), inputs, Plan(), Payload()))
    }

    /** The installation that is built for. */
    ghost function Prepared(): Installation {
      if Builds() then ReadInstallation(reader, site.root, Refreshed(), config) else Start()
    }

    ghost function Built(): Files {
      if Builds() then Written(Refreshed(), op.Scratch(site), env.built) else files
    }

    ghost function Made(): Outputs { ReadOutputs(reader, Built(), op.Scratch(site), Plan()) }

    ghost predicate BuildSucceeds() {
      && env.enoughSpace && ToolkitIsVerified(Start(), Start().ResolveToolkitFingerprint())
      && InputsArrive() && BuildFinishes() && IsBuilt(Prepared(), inputs, Plan(), Payload(), Made())
    }

    /** What is there once a build has run. */
    lemma BuildStages()
      requires Builds()
      ensures Prepared() == ReadInstallation(reader, site.root, Refreshed(), config)
      ensures Built() == Written(Refreshed(), op.Scratch(site), env.built)
      ensures Made() == ReadOutputs(reader, Built(), op.Scratch(site), Plan())
      ensures Made().retro.Some? <==> Plan().rebuildRetro
    {
      hide ReadInstallation, ReadProduct, Written, Task.Refreshed, Task.Plan;
    }

    ghost predicate ConsumedInputs()
      requires Made().retro.Some? && Made().retro.value.local.Some?
    {
      && Prepared().workspaceDol.Some? && Prepared().workspaceRel.Some? && inputs.snapshot.Some?
      && BuildConsumedInputs(Prepared(), inputs, Payload(), Made().retro.value.local.value)
    }

    // ---- Publishing ----

    ghost function Ready(): Files { Written(Built(), op.Scratch(site), env.staged) }

    ghost function Staging(): Publication {
      Publication(inputs, Plan(), Payload(), Made(), [], !env.download.Downloaded?)
    }

    ghost predicate StagingSucceeds() {
      && Prepared().toolkitState.Some?
      && IsStaged(reader, Ready(), op.Scratch(site), Staging(), Prepared().toolkitState.value.runtimeAssets,
                  UpdatedState(Prepared(), inputs, Payload(), Plan().rebuildRetro))
    }

    ghost predicate Publishes() {
      && (Plan().syncBaseAssets || Plan().syncRetroAssets ==> RuntimeAssetsArePublishable(Start()))
      && StagingSucceeds() && !env.runningAtPublish
    }

    ghost predicate Replaces() { CanReplace(site, op, Staging(), Ready(), calm) }

    // ---- How it ends ----

    /** Nothing but the transaction itself can stop the operation. */
    ghost predicate MayReturn() {
      Proceeds() && (!Plan().NothingToDo() ==> (Builds() ==> BuildSucceeds()) && Publishes())
    }

    /** Nothing stops the operation. */
    ghost predicate IsInOrder() {
      MayReturn() && (!Plan().NothingToDo() ==> Replaces())
    }

    /** What each failure is a failure of. */
    ghost predicate Explains(error: RepairError) {
      var d := Start();
      match error
      case NotInstalled => !d.IsPresent()
      case ToolkitMissing => !d.hasToolkit
      case ToolkitUnidentified => Blank(d.ResolveToolkitFingerprint())
      case ProductRunning => env.running || env.runningAtPublish
      case HashesIncomplete => Blank(inputs.expectedDol) != Blank(inputs.expectedRel)
      case PayloadUnavailable =>
        (IsRefused() && MayFallBack() && RecoverInstalledPayload(d).None?) || (Plan().syncPayload && Payload().None?)
      case DownloadFailed => IsRefused() && !MayFallBack()
      case CanonicalRootMissing => inputs.snapshot.Some? && inputs.canonicalRoot.None?
      case RetroInputsChanged => inputs.snapshot.None? && RetroDrifted(d, inputs)
      case RetroNeedsRepair =>
        inputs.snapshot.None? && ActionRequired(d.CheckRetroCore(d.ResolveToolkitFingerprint(), None, None))
      case DiskFull | ToolkitModified | GameInputsUnusable | BuildFailed | BuildIgnoredPayload => Builds() && ExplainsBuild(error)
      case RuntimeAssetsUnusable => (Plan().syncBaseAssets || Plan().syncRetroAssets) && !RuntimeAssetsArePublishable(d)
      case StagingFailed => !StagingSucceeds()
      case PublicationFailed => !Replaces()
    }

    ghost predicate ExplainsBuild(error: RepairError) {
      match error
      case DiskFull => !env.enoughSpace
      case ToolkitModified => !ToolkitIsVerified(Start(), Start().ResolveToolkitFingerprint())
      case GameInputsUnusable => !InputsArrive()
      case BuildFailed => !BuildFinishes() || !IsBuilt(Prepared(), inputs, Plan(), Payload(), Made())
      case BuildIgnoredPayload => Plan().rebuildRetro && BuildProduced(Made().retro) && !ConsumedInputs()
      case _ => false
    }

    lemma BuildFailures()
      ensures !env.enoughSpace ==> ExplainsBuild(DiskFull)
      ensures !ToolkitIsVerified(Start(), Start().ResolveToolkitFingerprint()) ==> ExplainsBuild(ToolkitModified)
      ensures !InputsArrive() ==> ExplainsBuild(GameInputsUnusable)
      ensures !BuildFinishes() || !IsBuilt(Prepared(), inputs, Plan(), Payload(), Made()) ==> ExplainsBuild(BuildFailed)
      ensures Plan().rebuildRetro && BuildProduced(Made().retro) && !ConsumedInputs() ==> ExplainsBuild(BuildIgnoredPayload)
    {
      hide Task.Made, Task.Prepared, Task.Plan, Task.Payload, Task.Start, Task.InputsArrive, Task.BuildFinishes, IsBuilt,
        ToolkitIsVerified, Task.ConsumedInputs, BuildProduced;
    }

    lemma PublicationFailureExplains(error: RepairError)
      requires match error
               case RuntimeAssetsUnusable => (Plan().syncBaseAssets || Plan().syncRetroAssets) && !RuntimeAssetsArePublishable(Start())
               case PayloadUnavailable => Plan().syncPayload && Payload().None?
               case StagingFailed => !StagingSucceeds()
               case ProductRunning => env.runningAtPublish
               case PublicationFailed => !Replaces()
               case _ => false
      ensures Explains(error)
    {
      hide Task.Plan, Task.Payload, Task.Start, Task.StagingSucceeds, Task.Replaces, RuntimeAssetsArePublishable;
    }

    lemma BuildFailureExplains(error: RepairError)
      requires Builds() && ExplainsBuild(error)
      ensures Explains(error)
    {
      hide Task.Made, Task.Prepared, Task.Plan, Task.Payload, Task.Start, Task.InputsArrive, Task.BuildFinishes, IsBuilt,
        ToolkitIsVerified, Task.ConsumedInputs, BuildProduced, Task.Builds;
    }
  }

  lemma SyncHasPayload(d: Installation, inputs: Inputs, payload: Option<PayloadSnapshot>)
    requires Accepted(d, inputs, payload)
    ensures Decide(d, inputs, payload).syncPayload ==> payload.Some?
  {
    hide NeedsBaseBuild, NeedsRetroBuild, RetroDrifted, Blank;
  }

  lemma NothingRefuses(task: Task, error: RepairError)
    requires task.MayReturn() && !task.Plan().NothingToDo()
    requires error in {NotInstalled, ToolkitMissing, ToolkitUnidentified, ProductRunning, HashesIncomplete, PayloadUnavailable,
                       DownloadFailed, CanonicalRootMissing, RetroInputsChanged, RetroNeedsRepair}
    ensures !task.Explains(error)
  {
    hide Blank, RetroDrifted, RecoverInstalledPayload, Decide, Task.Start, Task.BuildSucceeds, Task.StagingSucceeds,
      Task.Made, Task.Prepared, Installation.CheckRetroCore, Installation.ResolveToolkitFingerprint, Installation.IsPresent;
    SyncHasPayload(task.Start(), task.inputs, task.Payload());
  }

  lemma NothingPrevents(task: Task, error: RepairError)
    requires task.IsInOrder() && !task.Plan().NothingToDo()
    requires error in {DiskFull, ToolkitModified, GameInputsUnusable, BuildFailed, BuildIgnoredPayload, RuntimeAssetsUnusable,
                       StagingFailed, PublicationFailed}
    ensures !task.Explains(error)
  {
    hide Blank, Decide, Accepted, ToolkitIsVerified, RuntimeAssetsArePublishable, BuildConsumedInputs, BuildProduced,
      Task.Start, Task.Made, Task.Prepared, Task.InputsArrive, Task.BuildFinishes, Task.StagingSucceeds, Task.Replaces;
  }

  /** When everything is in order there is nothing to fail for. */
  lemma InOrderExplainsNothing(task: Task, error: RepairError)
    requires task.IsInOrder() && !task.Plan().NothingToDo()
    ensures !task.Explains(error)
  {
    hide Task.Explains, Task.MayReturn, Task.Replaces, Task.Plan;
    match error {
      case NotInstalled | ToolkitMissing | ToolkitUnidentified | ProductRunning | HashesIncomplete | PayloadUnavailable
         | DownloadFailed | CanonicalRootMissing | RetroInputsChanged | RetroNeedsRepair => NothingRefuses(task, error);
      case _ => NothingPrevents(task, error);
    }
  }
}
