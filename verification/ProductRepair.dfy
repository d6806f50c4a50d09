/** Reconciling the installed products with their inputs, against the inspection of `Installations`:
    whatever the planner publishes, inspection must afterwards call current. */
module ProductRepair {
  import opened FileTrees
  import opened Paths
  import opened Texts
  import opened Wrappers
  import opened Installations

  datatype PayloadAction = NoAction | PublishCacheOnly | RebuildRetro

  /** What one reconciliation is asked for. Absent hashes are empty. */
  datatype Inputs = Inputs(
    snapshot: Option<CompileInputs>, mode: PayloadMode, expectedDol: string, expectedRel: string,
    canonicalRoot: Option<Path>)

  /** The products that were built into scratch space, with their fingerprints written. */
  datatype Outputs = Outputs(base: Option<Product>, retro: Option<Product>)

  /** What a reconciliation has to do. */
  datatype Decision = Decision(
    rebuildBase: bool, rebuildRetro: bool, syncPayload: bool, syncBaseAssets: bool, syncRetroAssets: bool,
    rootChanged: bool)
  {
    predicate NothingToDo() {
      !rebuildBase && !rebuildRetro && !syncPayload && !syncBaseAssets && !syncRetroAssets && !rootChanged
    }
  }

  // ---- Planning ----

  function PlanPayload(productMatches: bool, cacheMatches: bool): PayloadAction {
    if !productMatches then RebuildRetro else if cacheMatches then NoAction else PublishCacheOnly
  }

  function PayloadActionFor(d: Installation, payload: Option<PayloadSnapshot>): PayloadAction {
    if payload.None? then NoAction
    else PlanPayload(d.ProductMatchesPayload(payload.value), d.CacheMatchesPayload(payload.value))
  }

  function CacheObservation(d: Installation, payload: Option<PayloadSnapshot>): Option<bool> {
    if payload.None? then None else Some(d.CacheMatchesPayload(payload.value))
  }

  /** The installed payload serves when the service cannot be reached, if it is still the one its
      records name. */
  function RecoverInstalledPayload(d: Installation): Option<PayloadSnapshot> {
    var fingerprint := ReadFingerprint(d.retro);
    if fingerprint.None? || d.state.None? then None
    else if fingerprint.value.payloadMode != DOWNLOADED || d.state.value.payloadMode != DOWNLOADED
            || Blank(fingerprint.value.payloadSha) || fingerprint.value.payloadSha != d.state.value.payloadSha
            || fingerprint.value.payloadLength <= 0 then None
    else if d.payloadCache.None? || d.payloadCache.value.length != fingerprint.value.payloadLength
            || d.payloadCache.value.sha != fingerprint.value.payloadSha then None
    else Some(PayloadSnapshot(d.payloadCache.value.sha, d.payloadCache.value.length))
  }

  predicate BaseDrifted(d: Installation, inputs: Inputs) {
    && !Blank(inputs.expectedDol) && !Blank(inputs.expectedRel)
    && d.base.executable.Some? && !d.ProductUsesGameInputs(d.base, inputs.expectedDol, inputs.expectedRel)
  }

  predicate RetroDrifted(d: Installation, inputs: Inputs) {
    && !Blank(inputs.expectedDol) && !Blank(inputs.expectedRel)
    && d.HasRetroProduct() && !d.ProductUsesGameInputs(d.retro, inputs.expectedDol, inputs.expectedRel)
  }

  predicate ModeChanged(d: Installation, mode: PayloadMode) {
    d.HasRetroProduct() && !d.ResolvePayloadMode().NotApplicable? && d.ResolvePayloadMode() != mode
  }

  predicate NeedsBaseBuild(d: Installation, inputs: Inputs) {
    RequiresCompilation(d.CheckBaseCore(d.ResolveToolkitFingerprint())) || BaseDrifted(d, inputs)
  }

  /** What inspection says of Retro Rewind when the plan is made. */
  function RetroStatus(d: Installation, inputs: Inputs, payload: Option<PayloadSnapshot>): Status {
    d.CheckRetroCore(d.ResolveToolkitFingerprint(), inputs.snapshot, CacheObservation(d, payload))
  }

  predicate NeedsRetroBuild(d: Installation, inputs: Inputs, payload: Option<PayloadSnapshot>) {
    var status := RetroStatus(d, inputs, payload);
    || RetroDrifted(d, inputs) || RequiresCompilation(status) || status.Absent?
    || PayloadActionFor(d, payload).RebuildRetro? || ModeChanged(d, inputs.mode)
  }

  predicate NeedsPayload(d: Installation, inputs: Inputs, payload: Option<PayloadSnapshot>) {
    && inputs.mode.Online?
    && (|| NeedsRetroBuild(d, inputs, payload) || RetroStatus(d, inputs, payload).PayloadChanged?
        || PayloadActionFor(d, payload).PublishCacheOnly?)
  }

  /** The plan, stated without the order in which the program arrives at it. */
  function Decide(d: Installation, inputs: Inputs, payload: Option<PayloadSnapshot>): Decision {
    var toolkit := d.ResolveToolkitFingerprint();
    var rebuildBase := NeedsBaseBuild(d, inputs);
    var rebuildRetro := inputs.snapshot.Some? && NeedsRetroBuild(d, inputs, payload);
    Decision(
      rebuildBase, rebuildRetro,
      inputs.snapshot.Some? && NeedsPayload(d, inputs, payload),
      !rebuildBase && d.base.executable.Some? && !d.RuntimeAssetsAreValid(d.base, toolkit),
      !rebuildRetro && d.HasRetroProduct() && !d.RuntimeAssetsAreValid(d.retro, toolkit),
      inputs.snapshot.Some? && inputs.canonicalRoot.Some? && !d.RecordedRootMatches(inputs.canonicalRoot.value))
  }

  /** The program's own sequence of decisions about the Retro Rewind product. */
  method DecideRetro(d: Installation, inputs: Inputs, payload: Option<PayloadSnapshot>)
    returns (rebuildRetro: bool, syncPayload: bool)
    requires inputs.snapshot.Some? && !inputs.mode.NotApplicable?
    requires inputs.mode.Online? <==> payload.Some?
    ensures rebuildRetro == Decide(d, inputs, payload).rebuildRetro
    ensures syncPayload == Decide(d, inputs, payload).syncPayload
  {
    var toolkit := d.ResolveToolkitFingerprint();
    var retroStatus := d.CheckRetroCore(toolkit, inputs.snapshot, CacheObservation(d, payload));
    var action := PayloadActionFor(d, payload);
    rebuildRetro := RetroDrifted(d, inputs) || RequiresCompilation(retroStatus) || retroStatus.Absent?;
    syncPayload := retroStatus.PayloadChanged?;
    if action.RebuildRetro? {
      rebuildRetro, syncPayload := true, true;
    } else if action.PublishCacheOnly? {
      syncPayload := true;
    }
    var installedMode := d.ResolvePayloadMode();
    if d.HasRetroProduct() && !installedMode.NotApplicable? && installedMode != inputs.mode {
      rebuildRetro := true;
      syncPayload := inputs.mode.Online?;
    }
    if rebuildRetro && inputs.mode.Online? {
      syncPayload := true;
    }
  }

  // ---- Building ----

  /** The two game inputs in the workspace after `RefreshTranslationAssets`. */
  function Refreshed(workspace: Option<Artifact>, source: Artifact, expected: string): Option<Artifact> {
    if workspace.Some? && Same(workspace.value.sha, expected) then workspace else Some(source)
  }

  /** The hashes that the game data must have: the release's, or else those on record. */
  function ExpectedHashes(d: Installation, inputs: Inputs): (string, string) {
    if Blank(inputs.expectedDol) && Blank(inputs.expectedRel)
    then if d.state.Some? && d.state.value.schema == 1 then (d.state.value.dol, d.state.value.rel) else ("", "")
    else (inputs.expectedDol, inputs.expectedRel)
  }

  predicate CanRefresh(d: Installation, inputs: Inputs) {
    var (dol, rel) := ExpectedHashes(d, inputs);
    && !Blank(dol) && !Blank(rel)
    && d.dol.Some? && Same(d.dol.value.sha, dol)
    && d.rel.Some? && Same(d.rel.value.sha, rel)
  }

  /** The game data that is installed can be built from exactly when it is what the release names,
      or, where the release names none, what a readable state document does. */
  lemma RefreshMeaning(d: Installation, inputs: Inputs)
    requires Blank(inputs.expectedDol) == Blank(inputs.expectedRel)
    ensures CanRefresh(d, inputs) <==>
              && d.dol.Some? && d.rel.Some?
              && if !Blank(inputs.expectedDol)
                 then Same(d.dol.value.sha, inputs.expectedDol) && Same(d.rel.value.sha, inputs.expectedRel)
                 else
                   && d.state.Some? && d.state.value.schema == 1
                   && Same(d.dol.value.sha, d.state.value.dol) && Same(d.rel.value.sha, d.state.value.rel)
  {
    hide Blank, Same;
    EmptyIsBlank();
    if d.dol.Some? && d.rel.Some? {
      var (dol, rel) := ExpectedHashes(d, inputs);
      MatchIsNotBlank(d.dol.value.sha, dol);
      MatchIsNotBlank(d.rel.value.sha, rel);
      MatchIsNotBlank(d.dol.value.sha, "");
    }
  }

  lemma MatchIsNotBlank(s: Sha, t: string)
    ensures Same(s, t) ==> !Blank(t)
  {
    if Same(s, t) { SameAsShaIsNotBlank(s, t); }
  }

  function RefreshTranslationAssets(d: Installation, inputs: Inputs): (d': Installation)
    requires CanRefresh(d, inputs)
    ensures d'.workspaceDol.Some? && Same(d'.workspaceDol.value.sha, d.dol.value.sha)
    ensures d'.workspaceRel.Some? && Same(d'.workspaceRel.value.sha, d.rel.value.sha)
    ensures d' == d.(workspaceDol := d'.workspaceDol, workspaceRel := d'.workspaceRel)
  {
    var (dol, rel) := ExpectedHashes(d, inputs);
    d.(workspaceDol := Refreshed(d.workspaceDol, d.dol.value, dol),
       workspaceRel := Refreshed(d.workspaceRel, d.rel.value, rel))
  }

  predicate ToolkitIsVerified(d: Installation, toolkit: string) {
    && d.toolkitState.Some? && d.toolkitState.value.schema == 2
    && !Blank(d.toolkitState.value.toolkit) && d.toolkitState.value.toolkit == toolkit
    && d.compileIdentity == toolkit
  }

  /** Nothing is compiled with a toolkit other than the one on record. */
  lemma VerifiedToolkit(d: Installation)
    ensures ToolkitIsVerified(d, d.ResolveToolkitFingerprint()) <==>
              && d.hasToolkit && d.toolkitState.Some? && d.toolkitState.value.schema == 2
              && !Blank(d.toolkitState.value.toolkit) && d.toolkitState.value.package != ""
              && d.compileIdentity == d.toolkitState.value.toolkit
  {
    assert Blank("");
  }

  function ModeText(mode: PayloadMode): string {
    match mode
    case Online => DOWNLOADED
    case Skipped => SKIPPED
    case NotApplicable => ""
  }

  function BaseFingerprint(d: Installation, toolkit: string, executable: Artifact): Fingerprint
    requires d.workspaceDol.Some? && d.workspaceRel.Some?
  {
    Fingerprint(1, BASE_PROFILE, toolkit, d.workspaceDol.value.sha, d.workspaceRel.value.sha, executable.sha,
                "", "", "", "", 0)
  }

  function RetroFingerprint(d: Installation, toolkit: string, inputs: Inputs, payload: Option<PayloadSnapshot>,
                            executable: Artifact): Fingerprint
    requires d.workspaceDol.Some? && d.workspaceRel.Some? && inputs.snapshot.Some?
  {
    Fingerprint(1, RETRO_PROFILE, toolkit, d.workspaceDol.value.sha, d.workspaceRel.value.sha, executable.sha,
                inputs.snapshot.value.codePul, inputs.snapshot.value.compileInputs, ModeText(inputs.mode),
                if payload.Some? then payload.value.sha else "", if payload.Some? then payload.value.length else 0)
  }

  predicate SameOption(a: Option<string>, b: Option<string>) {
    (a.None? && b.None?) || (a.Some? && b.Some? && Same(a.value, b.value))
  }

  /** What `WriteFingerprint` demands of the build script's own record of a Retro Rewind build. */
  predicate BuildConsumedInputs(d: Installation, inputs: Inputs, payload: Option<PayloadSnapshot>, local: LocalBuild)
    requires d.workspaceDol.Some? && d.workspaceRel.Some? && inputs.snapshot.Some?
  {
    && local.schema == 1
    && Same(local.dol, d.workspaceDol.value.sha) && Same(local.rel, d.workspaceRel.value.sha)
    && SameOption(local.codePul, Some(inputs.snapshot.value.codePul))
    && local.payloadMode == Some(if inputs.mode.Online? then DOWNLOADED else SKIPPED)
    && SameOption(local.payloadSha, if inputs.mode.Online? && payload.Some? then Some(payload.value.sha) else None)
    && SomeOr(local.payloadLength, 0) == if inputs.mode.Online? && payload.Some? then payload.value.length else 0
  }

  /** A record that passes names the game inputs of the workspace, the canonical Code.pul, and the
      payload if one is used and none otherwise. */
  lemma ConsumedMeaning(d: Installation, inputs: Inputs, payload: Option<PayloadSnapshot>, local: LocalBuild)
    requires d.workspaceDol.Some? && d.workspaceRel.Some? && inputs.snapshot.Some?
    requires !inputs.mode.NotApplicable? && (inputs.mode.Online? <==> payload.Some?)
    ensures BuildConsumedInputs(d, inputs, payload, local) <==>
              && local.schema == 1
              && Same(local.dol, d.workspaceDol.value.sha) && Same(local.rel, d.workspaceRel.value.sha)
              && local.codePul.Some? && Same(local.codePul.value, inputs.snapshot.value.codePul)
              && match payload
                 case Some(snapshot) =>
                   && local.payloadMode == Some("downloaded") && local.payloadLength == Some(snapshot.length)
                   && local.payloadSha.Some? && Same(local.payloadSha.value, snapshot.sha)
                 case None =>
                   && local.payloadMode == Some("skipped") && local.payloadSha.None?
                   && (local.payloadLength.None? || local.payloadLength == Some(0))
  {
    hide Same;
  }

  /** The check after every build: a large enough executable, and a record of it. */
  predicate BuildProduced(product: Option<Product>) {
    product.Some? && IsUsable(product.value.executable) && product.value.local.Some?
  }

  // ---- The state document ----

  /** `BuildUpdatedInstallState`. `rebuilt` says whether this operation built Retro Rewind. */
  function UpdatedState(d: Installation, inputs: Inputs, payload: Option<PayloadSnapshot>, rebuilt: bool): InstallState {
    var previous := if d.state.Some? then d.state.value
                    else InstallState(1, Some(d.root), false, "", "", "", "", "", "", 0, None);
    var withInputs := previous.(
      schema := 1, installDir := Some(d.root),
      dol := if Blank(inputs.expectedDol) then previous.dol else inputs.expectedDol,
      rel := if Blank(inputs.expectedRel) then previous.rel else inputs.expectedRel,
      retroInstalled := inputs.snapshot.Some? || d.HasRetroProduct(),
      codePul := if inputs.snapshot.Some? then inputs.snapshot.value.codePul else previous.codePul,
      compileInputs := if inputs.snapshot.Some? then inputs.snapshot.value.compileInputs else previous.compileInputs,
      retroRoot := if inputs.snapshot.Some? && inputs.canonicalRoot.Some? then inputs.canonicalRoot else previous.retroRoot);
    var fingerprint := ReadFingerprint(d.retro);
    if rebuilt then
      if inputs.mode.Online? && payload.Some?
      then withInputs.(payloadMode := DOWNLOADED, payloadSha := payload.value.sha, payloadLength := payload.value.length)
      else withInputs.(payloadMode := SKIPPED, payloadSha := "", payloadLength := 0)
    else if fingerprint.Some? && !Blank(fingerprint.value.payloadMode)
    then withInputs.(payloadMode := fingerprint.value.payloadMode, payloadSha := fingerprint.value.payloadSha,
                     payloadLength := fingerprint.value.payloadLength)
    else withInputs
  }

  /** What the document says afterwards of Retro Rewind: installed if it was asked for or is there;
      its inputs and folder as given, or as they were after a base-only operation. */
  lemma UpdatedStateOfRetro(d: Installation, inputs: Inputs, payload: Option<PayloadSnapshot>, rebuilt: bool)
    ensures var updated := UpdatedState(d, inputs, payload, rebuilt);
            && updated.schema == 1 && updated.installDir == Some(d.root)
            && (updated.retroInstalled <==> inputs.snapshot.Some? || d.retro.executable.Some?)
            && (inputs.snapshot.Some? ==>
                  && CompileInputs(inputs.snapshot.value.codePul, inputs.snapshot.value.compileInputs)
                     == CompileInputs(updated.codePul, updated.compileInputs)
                  && (inputs.canonicalRoot.Some? ==> updated.retroRoot == inputs.canonicalRoot))
            && (inputs.snapshot.None? && d.state.Some? ==>
                  && updated.codePul == d.state.value.codePul && updated.compileInputs == d.state.value.compileInputs
                  && updated.retroRoot == d.state.value.retroRoot)
            && (inputs.snapshot.None? && d.state.None? ==>
                  updated.codePul == updated.compileInputs == "" && updated.retroRoot.None?)
  {
    hide Blank;
  }

  /** And of its payload: what was built in, else what the product's own record says, else what the
      document said before. */
  lemma UpdatedStateOfPayload(d: Installation, inputs: Inputs, payload: Option<PayloadSnapshot>, rebuilt: bool)
    ensures var updated := UpdatedState(d, inputs, payload, rebuilt);
            var recorded := (updated.payloadMode, updated.payloadSha, updated.payloadLength);
            if rebuilt then
              if inputs.mode.Online? && payload.Some?
              then recorded == ("downloaded", payload.value.sha, payload.value.length)
              else recorded == ("skipped", "", 0)
            else if ReadFingerprint(d.retro).Some? && !Blank(ReadFingerprint(d.retro).value.payloadMode) then
              var fingerprint := d.retro.fingerprint.value;
              recorded == (fingerprint.payloadMode, fingerprint.payloadSha, fingerprint.payloadLength)
            else if d.state.Some? then
              recorded == (d.state.value.payloadMode, d.state.value.payloadSha, d.state.value.payloadLength)
            else
              recorded == ("", "", 0)
  {
    hide Blank;
  }

  // ---- What the environment is trusted with ----

  /** A compiler run that does its job: the record names its profile and inputs, and the runtime
      assets are copied from the workspace. The inputs on record of a Retro Rewind build are checked
      when its fingerprint is written, and need no trust. */
  predicate BuildIsFaithful(d: Installation, product: Product, profile: string) {
    && product.local.Some? && product.local.value.profile == profile
    && (profile == BASE_PROFILE ==>
          && product.local.value.schema == 1
          && (d.dol.Some? ==> Same(product.local.value.dol, d.dol.value.sha))
          && (d.rel.Some? ==> Same(product.local.value.rel, d.rel.value.sha)))
    && product.assets == d.workspaceAssets
  }

  predicate FaithfulBuilds(d: Installation, outputs: Outputs) {
    && (outputs.base.Some? ==> BuildIsFaithful(d, outputs.base.value, BASE_PROFILE))
    && (outputs.retro.Some? ==> BuildIsFaithful(d, outputs.retro.value, RETRO_PROFILE))
  }

  /** A build copies the right runtime assets. No build checks that it does. */
  predicate WorkspaceAssetsMatch(d: Installation) {
    d.toolkitState.Some? && d.workspaceAssets == Some(d.toolkitState.value.runtimeAssets)
  }

  /** The two things inspection checks and reconciliation never repairs. */
  predicate CompleteInstallation(d: Installation) {
    d.hasFst && d.toolkitState.Some? && !Blank(d.toolkitState.value.runtimeAssets)
  }

  /** Nothing that a reconciliation leaves as it is stands in its way. */
  predicate CanConverge(d: Installation, plan: Decision) {
    CompleteInstallation(d) && (plan.rebuildBase || plan.rebuildRetro ==> WorkspaceAssetsMatch(d))
  }

  // ---- Publishing ----

  predicate RuntimeAssetsArePublishable(d: Installation) {
    && d.toolkitState.Some? && d.toolkitState.value.schema == 2
    && d.toolkitState.value.toolkit == d.ResolveToolkitFingerprint()
    && !Blank(d.toolkitState.value.runtimeAssets)
    && d.workspaceAssets == Some(d.toolkitState.value.runtimeAssets)
  }

  /** Support files are published again only from a workspace that still holds the recorded ones, for
      the toolkit that is installed. */
  lemma PublishableMeaning(d: Installation)
    ensures RuntimeAssetsArePublishable(d) <==>
              && WorkspaceAssetsMatch(d) && !Blank(d.toolkitState.value.runtimeAssets)
              && d.toolkitState.value.schema == 2
              && (d.ResolveToolkitFingerprint() == d.toolkitState.value.toolkit)
  {
    hide Blank, Installation.ResolveToolkitFingerprint;
  }

  predicate CanPublish(d: Installation, plan: Decision, payload: Option<PayloadSnapshot>) {
    && (plan.syncBaseAssets || plan.syncRetroAssets ==> RuntimeAssetsArePublishable(d))
    && (plan.syncPayload ==> payload.Some?)
  }

  /** The outputs are what the plan calls for: each with a usable executable, the build script's own
      record, the fingerprint that was written beside them, and the user's settings. */
  predicate IsBuilt(d: Installation, inputs: Inputs, plan: Decision, payload: Option<PayloadSnapshot>, outputs: Outputs) {
    var toolkit := d.ResolveToolkitFingerprint();
    && (outputs.base.Some? <==> plan.rebuildBase) && (outputs.retro.Some? <==> plan.rebuildRetro)
    && (plan.rebuildBase || plan.rebuildRetro ==> d.workspaceDol.Some? && d.workspaceRel.Some?)
    && (plan.rebuildBase ==>
          && BuildProduced(outputs.base) && Includes(outputs.base.value.settings, d.base.settings)
          && outputs.base.value.fingerprint == Some(BaseFingerprint(d, toolkit, outputs.base.value.executable.value)))
    && (plan.rebuildRetro ==>
          && inputs.snapshot.Some? && BuildProduced(outputs.retro)
          && Includes(outputs.retro.value.settings, d.retro.settings)
          && BuildConsumedInputs(d, inputs, payload, outputs.retro.value.local.value)
          && outputs.retro.value.fingerprint
             == Some(RetroFingerprint(d, toolkit, inputs, payload, outputs.retro.value.executable.value)))
  }

  /** A base product as a build and its fingerprint are to leave it. */
  ghost predicate IsBaseBuild(d: Installation, product: Product)
    requires d.workspaceDol.Some? && d.workspaceRel.Some?
  {
    && product.executable.Some? && product.executable.value.length >= 65536 && product.local.Some?
    && Includes(product.settings, d.base.settings)
    && product.fingerprint
       == Some(Fingerprint(1, "base", d.ResolveToolkitFingerprint(), d.workspaceDol.value.sha, d.workspaceRel.value.sha,
                           product.executable.value.sha, "", "", "", "", 0))
  }

  /** And a Retro Rewind product. */
  ghost predicate IsRetroBuild(d: Installation, inputs: Inputs, payload: Option<PayloadSnapshot>, product: Product)
    requires d.workspaceDol.Some? && d.workspaceRel.Some? && inputs.snapshot.Some?
  {
    && product.executable.Some? && product.executable.value.length >= 65536 && product.local.Some?
    && Includes(product.settings, d.retro.settings)
    && BuildConsumedInputs(d, inputs, payload, product.local.value)
    && product.fingerprint.Some?
    && var fingerprint := product.fingerprint.value;
    && fingerprint.schema == 1 && fingerprint.profile == "retro-rewind"
    && fingerprint.toolkit == d.ResolveToolkitFingerprint()
    && fingerprint.dol == d.workspaceDol.value.sha && fingerprint.rel == d.workspaceRel.value.sha
    && fingerprint.executable == product.executable.value.sha
    && fingerprint.codePul == inputs.snapshot.value.codePul && fingerprint.compileInputs == inputs.snapshot.value.compileInputs
    && (fingerprint.payloadMode == match inputs.mode case Online => "downloaded" case Skipped => "skipped" case NotApplicable => "")
    && (payload.Some? ==> fingerprint.payloadSha == payload.value.sha && fingerprint.payloadLength == payload.value.length)
    && (payload.None? ==> fingerprint.payloadSha == "" && fingerprint.payloadLength == 0)
  }

  /** What was built passes exactly when each product of the plan, and no other, is as it is to be. */
  lemma BuiltMeaning(d: Installation, inputs: Inputs, plan: Decision, payload: Option<PayloadSnapshot>, outputs: Outputs)
    requires d.workspaceDol.Some? && d.workspaceRel.Some? && (plan.rebuildRetro ==> inputs.snapshot.Some?)
    ensures IsBuilt(d, inputs, plan, payload, outputs) <==>
              && (if plan.rebuildBase then outputs.base.Some? && IsBaseBuild(d, outputs.base.value) else outputs.base.None?)
              && (if plan.rebuildRetro then outputs.retro.Some? && IsRetroBuild(d, inputs, payload, outputs.retro.value)
                  else outputs.retro.None?)
  {
    hide BuildConsumedInputs, Includes, Installation.ResolveToolkitFingerprint;
  }

  function WithAssets(product: Product, sync: bool, runtimeAssets: string): Product {
    if sync then product.(assets := Some(runtimeAssets)) else product
  }

  /** The installation after a publication, field by field. */
  function PublishedInstallation(d: Installation, inputs: Inputs, plan: Decision, payload: Option<PayloadSnapshot>,
                                 baseOutput: Option<Product>, retroOutput: Option<Product>): Installation
    requires d.toolkitState.Some? && CanPublish(d, plan, payload)
  {
    var runtimeAssets := d.toolkitState.value.runtimeAssets;
    d.(base := WithAssets(SomeOr(baseOutput, d.base), plan.syncBaseAssets, runtimeAssets),
       retro := WithAssets(SomeOr(retroOutput, d.retro), plan.syncRetroAssets, runtimeAssets),
       payloadCache := if retroOutput.Some? && inputs.mode.Skipped? then None
                       else if plan.syncPayload then Some(Artifact(payload.value.length, payload.value.sha))
                       else d.payloadCache,
       state := if baseOutput.Some? || retroOutput.Some? || inputs.snapshot.Some?
                then Some(UpdatedState(d, inputs, payload, retroOutput.Some?)) else d.state,
       configuredRoot := if inputs.snapshot.Some? then inputs.canonicalRoot else d.configuredRoot)
  }

  predicate OnlyWorkspaceChanged(d: Installation, d': Installation) {
    d' == d.(workspaceDol := d'.workspaceDol, workspaceRel := d'.workspaceRel)
  }

  // ---- What a reconciliation leaves ----

  /** Inspection agrees, except for what reconciliation never repairs. */
  ghost predicate Converged(d: Installation, d': Installation, inputs: Inputs, plan: Decision, cacheMatches: Option<bool>) {
    var toolkit := d.ResolveToolkitFingerprint();
    var retroStatus := d'.CheckRetro(toolkit, inputs.snapshot, cacheMatches);
    && d'.ResolveToolkitFingerprint() == toolkit
    && (d'.CheckBase(toolkit).Current? <==> CompleteInstallation(d) && (plan.rebuildBase ==> WorkspaceAssetsMatch(d)))
    && (inputs.snapshot.Some? ==>
          (retroStatus.Current? <==> CompleteInstallation(d) && (plan.rebuildRetro ==> WorkspaceAssetsMatch(d))))
    && (inputs.snapshot.None? ==> if d.HasRetroProduct() then retroStatus.Current? else retroStatus.Absent?)
    && (inputs.snapshot.Some? && inputs.canonicalRoot.Some? ==> d'.RecordedRootMatches(inputs.canonicalRoot.value))
  }

  /** A second reconciliation with the same inputs has nothing to do. */
  ghost predicate Settled(d: Installation, inputs: Inputs, payload: Option<PayloadSnapshot>) {
    && Decide(d, inputs, payload).NothingToDo()
    && (inputs.snapshot.None? ==>
          !RetroDrifted(d, inputs) && !ActionRequired(d.CheckRetroCore(d.ResolveToolkitFingerprint(), None, None)))
  }

  /** The checks that come before planning have passed. */
  ghost predicate Accepted(d: Installation, inputs: Inputs, payload: Option<PayloadSnapshot>) {
    var toolkit := d.ResolveToolkitFingerprint();
    && d.hasToolkit && !Blank(toolkit)
    && Blank(inputs.expectedDol) == Blank(inputs.expectedRel)
    && (inputs.snapshot.None? <==> inputs.mode.NotApplicable?)
    && (inputs.mode.Online? <==> payload.Some?)
    && (inputs.snapshot.Some? ==> inputs.canonicalRoot.Some?)
    && (inputs.snapshot.None? ==> !RetroDrifted(d, inputs) && !ActionRequired(d.CheckRetroCore(toolkit, None, None)))
  }

  // ---- Why the result is current ----

  /** The document on record names the game data that is installed. */
  ghost predicate RecordsGameData(d: Installation, installed: InstallState) {
    && d.dol.Some? && Same(d.dol.value.sha, installed.dol)
    && d.rel.Some? && Same(d.rel.value.sha, installed.rel)
  }

  lemma SameAsShaIsNotBlank(s: Sha, t: string)
    requires Same(s, t)
    ensures !Blank(t)
  {
    assert FoldCharacter(s[0]) == Folded(s)[0] == Folded(t)[0] == FoldCharacter(t[0]);
    assert s[0] in s && t[0] in t;
  }

  /** The base product was built by this toolkit from the recorded inputs. */
  ghost predicate BaseFits(d: Installation, toolkit: string) {
    && d.HasUsableToolkit(toolkit) && d.ReadCurrentInstallState().Some? && ReadFingerprint(d.base).Some?
    && ReadFingerprint(d.base).value.toolkit == toolkit
    && d.ProvenanceIsValid(d.base, BASE_PROFILE, ReadFingerprint(d.base).value, d.ReadCurrentInstallState().value)
  }

  lemma BaseStatusMeaning(d: Installation, toolkit: string)
    ensures d.CheckBaseCore(toolkit).Current? <==> BaseFits(d, toolkit)
    ensures RequiresCompilation(d.CheckBaseCore(toolkit)) <==> !BaseFits(d, toolkit)
  {
    hide Blank, Same;
  }

  /** When a product is built: exactly when it no longer fits, or the release, the payload or the
      payload's mode has changed. */
  lemma BuildsMeaning(d: Installation, inputs: Inputs, payload: Option<PayloadSnapshot>)
    ensures var toolkit := d.ResolveToolkitFingerprint(); var plan := Decide(d, inputs, payload);
            && (plan.rebuildBase <==> !BaseFits(d, toolkit) || BaseDrifted(d, inputs))
            && (plan.rebuildRetro <==>
                  inputs.snapshot.Some?
                  && (|| !RetroFits(d, toolkit, inputs.snapshot) || RetroDrifted(d, inputs)
                      || (payload.Some? && !d.ProductMatchesPayload(payload.value)) || ModeChanged(d, inputs.mode)))
  {
    hide Blank, Same, Installation.ProvenanceIsValid, RetroFits, BaseFits, ModeChanged;
    BaseStatusMeaning(d, d.ResolveToolkitFingerprint());
    RetroStatusMeaning(d, d.ResolveToolkitFingerprint(), inputs.snapshot, CacheObservation(d, payload));
  }

  lemma KeptBase(d: Installation, inputs: Inputs)
    requires !NeedsBaseBuild(d, inputs)
    ensures d.CheckBaseCore(d.ResolveToolkitFingerprint()).Current?
    ensures d.hasFst && d.state.Some? && d.state.value.schema == 1 && RecordsGameData(d, d.state.value)
    ensures !Blank(inputs.expectedDol) && !Blank(inputs.expectedRel) ==>
              d.dol.Some? && Same(d.dol.value.sha, inputs.expectedDol) && d.rel.Some? && Same(d.rel.value.sha, inputs.expectedRel)
  {
  }

  /** Whatever was rebuilt, the document written names the installed game data. */
  lemma UpdatedStateRecordsGameData(d: Installation, inputs: Inputs, payload: Option<PayloadSnapshot>, rebuilt: bool)
    requires Blank(inputs.expectedDol) == Blank(inputs.expectedRel)
    requires CanRefresh(d, inputs) || !NeedsBaseBuild(d, inputs)
    ensures RecordsGameData(d, UpdatedState(d, inputs, payload, rebuilt))
  {
    if !CanRefresh(d, inputs) {
      KeptBase(d, inputs);
    }
  }

  lemma ProvenanceTransfers(d: Installation, d': Installation, product: Product, product': Product, profile: string,
                            fingerprint: Fingerprint, installed: InstallState, installed': InstallState)
    requires d.ProvenanceIsValid(product, profile, fingerprint, installed)
    requires d'.dol == d.dol && d'.rel == d.rel && d'.hasFst == d.hasFst
    requires product' == product.(assets := product'.assets)
    requires RecordsGameData(d, installed')
    ensures d'.ProvenanceIsValid(product', profile, fingerprint, installed')
  {
  }

  /** A base product that was kept needs no build afterwards either. */
  lemma KeptBaseStays(d: Installation, d': Installation, inputs: Inputs)
    requires !NeedsBaseBuild(d, inputs)
    requires d'.toolkitState == d.toolkitState && d'.hasToolkit == d.hasToolkit
    requires d'.dol == d.dol && d'.rel == d.rel && d'.hasFst == d.hasFst
    requires d'.base == d.base.(assets := d'.base.assets)
    requires d'.ReadCurrentInstallState().Some? && RecordsGameData(d, d'.state.value)
    ensures !NeedsBaseBuild(d', inputs) && d'.CheckBaseCore(d'.ResolveToolkitFingerprint()).Current?
  {
    KeptBase(d, inputs);
    ProvenanceTransfers(d, d', d.base, d'.base, BASE_PROFILE, ReadFingerprint(d.base).value,
                        d.ReadCurrentInstallState().value, d'.ReadCurrentInstallState().value);
  }

  /** Retro Rewind was built by this toolkit from inputs that are still the recorded and the canonical ones. */
  ghost predicate RetroFits(d: Installation, toolkit: string, canonical: Option<CompileInputs>) {
    && d.HasRetroProduct() && d.HasUsableToolkit(toolkit)
    && d.ReadCurrentInstallState().Some? && ReadFingerprint(d.retro).Some?
    && var installed := d.ReadCurrentInstallState().value;
    && var fingerprint := ReadFingerprint(d.retro).value;
    && fingerprint.toolkit == toolkit
    && d.ProvenanceIsValid(d.retro, RETRO_PROFILE, fingerprint, installed)
    && d.InputProvenanceIsValid(fingerprint, installed)
    && (canonical.Some? ==> Same(canonical.value.codePul, fingerprint.codePul)
                            && Same(canonical.value.compileInputs, fingerprint.compileInputs))
    && (fingerprint.payloadMode == DOWNLOADED ==>
          && !Blank(fingerprint.payloadSha) && fingerprint.payloadLength > 0
          && !Blank(installed.payloadSha) && installed.payloadLength > 0)
  }

  /** The payload cache is what the product was built with, as far as `observed` or the disk tells. */
  ghost predicate CacheFits(d: Installation, observed: Option<bool>) {
    && ReadFingerprint(d.retro).Some?
    && var fingerprint := ReadFingerprint(d.retro).value;
    && (fingerprint.payloadMode == DOWNLOADED ==>
          if observed.Some? then observed.value
          else d.payloadCache.Some? && Same(d.payloadCache.value.sha, fingerprint.payloadSha)
               && d.payloadCache.value.length == fingerprint.payloadLength)
  }

  lemma RetroStatusMeaning(d: Installation, toolkit: string, canonical: Option<CompileInputs>, observed: Option<bool>)
    ensures d.CheckRetroCore(toolkit, canonical, observed).Current?
            <==> RetroFits(d, toolkit, canonical) && CacheFits(d, observed)
    ensures d.CheckRetroCore(toolkit, canonical, observed).PayloadChanged?
            <==> RetroFits(d, toolkit, canonical) && !CacheFits(d, observed)
    ensures var status := d.CheckRetroCore(toolkit, canonical, observed);
            RequiresCompilation(status) || status.Absent? <==> !RetroFits(d, toolkit, canonical)
  {
    hide Blank, Same, Installation.ProvenanceIsValid;
  }

  /** A payload is recovered exactly when the product, the state document and the cache all have the
      same downloaded one, of some length. It is the one in the cache. It calls for neither a build nor a publication of
      the payload if and only if the state document is current; else it calls for a build. */
  lemma RecoveredPayloadIsInstalled(d: Installation)
    ensures RecoverInstalledPayload(d).Some? <==>
              && d.retro.fingerprint.Some? && d.retro.fingerprint.value.schema == 1 && d.state.Some? && d.payloadCache.Some?
              && d.retro.fingerprint.value.payloadMode == d.state.value.payloadMode == "downloaded"
              && d.retro.fingerprint.value.payloadSha == d.state.value.payloadSha == d.payloadCache.value.sha
              && d.retro.fingerprint.value.payloadLength == d.payloadCache.value.length > 0
    ensures RecoverInstalledPayload(d).Some? ==>
              && CacheObservation(d, RecoverInstalledPayload(d)) == Some(true)
              && PayloadActionFor(d, RecoverInstalledPayload(d))
                 == if d.ReadCurrentInstallState().Some? then NoAction else RebuildRetro
  {
    hide Blank;
    if d.payloadCache.Some? { ShaIsNotBlank(d.payloadCache.value.sha); }
  }

  /** A kept product still fits after a publication that rewrote the state document. */
  lemma KeptRetroFits(d: Installation, d': Installation, canonical: Option<CompileInputs>)
    requires RetroFits(d, d.ResolveToolkitFingerprint(), canonical)
    requires d'.toolkitState == d.toolkitState && d'.hasToolkit == d.hasToolkit
    requires d'.dol == d.dol && d'.rel == d.rel && d'.hasFst == d.hasFst
    requires d'.retro == d.retro.(assets := d'.retro.assets)
    requires d'.ReadCurrentInstallState().Some? && RecordsGameData(d, d'.state.value)
    requires var fingerprint := ReadFingerprint(d.retro).value; var installed := d'.state.value;
             && d.InputProvenanceIsValid(fingerprint, installed)
             && (fingerprint.payloadMode == DOWNLOADED ==> !Blank(installed.payloadSha) && installed.payloadLength > 0)
    ensures RetroFits(d', d'.ResolveToolkitFingerprint(), canonical)
  {
    ProvenanceTransfers(d, d', d.retro, d'.retro, RETRO_PROFILE, ReadFingerprint(d.retro).value,
                        d.ReadCurrentInstallState().value, d'.ReadCurrentInstallState().value);
  }

  lemma BuiltProvenance(d: Installation, product: Product, profile: string, fingerprint: Fingerprint, installed: InstallState)
    requires IsUsable(product.executable) && fingerprint.executable == product.executable.value.sha
    requires fingerprint.profile == profile && RecordsGameData(d, installed)
    requires Same(d.dol.value.sha, fingerprint.dol) && Same(d.rel.value.sha, fingerprint.rel)
    requires product.local.Some? && product.local.value.schema == 1 && product.local.value.profile == profile
    requires Same(d.dol.value.sha, product.local.value.dol) && Same(d.rel.value.sha, product.local.value.rel)
    requires profile == RETRO_PROFILE ==> PayloadProvenanceIsValid(product.local.value, fingerprint)
    ensures d.ProvenanceIsValid(product, profile, fingerprint, installed) <==> d.hasFst
  {
    SameAsShaIsNotBlank(d.dol.value.sha, fingerprint.dol);
    SameAsShaIsNotBlank(d.rel.value.sha, fingerprint.rel);
    ShaIsNotBlank(product.executable.value.sha);
  }

  /** The workspace holds the game data of `d`. */
  ghost predicate HoldsGameData(d: Installation, prepared: Installation) {
    && d.dol.Some? && prepared.workspaceDol.Some? && Same(d.dol.value.sha, prepared.workspaceDol.value.sha)
    && d.rel.Some? && prepared.workspaceRel.Some? && Same(d.rel.value.sha, prepared.workspaceRel.value.sha)
  }

  /** The parts of the installation that a reconciliation never writes. */
  ghost predicate SameGround(d: Installation, d': Installation) {
    && d'.root == d.root && d'.toolkitState == d.toolkitState && d'.hasToolkit == d.hasToolkit
    && d'.workspaceAssets == d.workspaceAssets
    && d'.dol == d.dol && d'.rel == d.rel && d'.hasFst == d.hasFst
  }

  lemma BuiltAssets(d: Installation, d': Installation, product: Product, toolkit: string)
    requires ToolkitIsVerified(d, toolkit) && product.assets == d.workspaceAssets && d'.toolkitState == d.toolkitState
    ensures d'.RuntimeAssetsAreValid(product, toolkit)
            <==> !Blank(d.toolkitState.value.runtimeAssets) && WorkspaceAssetsMatch(d)
  {
  }

  /** A base product that was built is current exactly when the installation is complete. */
  lemma BuiltBaseIsCurrent(d: Installation, prepared: Installation, d': Installation, toolkit: string, built: Product)
    requires HoldsGameData(d, prepared) && SameGround(d, d') && d.HasUsableToolkit(toolkit)
    requires BuildProduced(Some(built)) && BuildIsFaithful(d, built, BASE_PROFILE)
    requires d'.base == built.(fingerprint := Some(BaseFingerprint(prepared, toolkit, built.executable.value)))
    requires d'.ReadCurrentInstallState().Some? && RecordsGameData(d, d'.state.value)
    ensures d'.CheckBaseCore(toolkit).Current? <==> d.hasFst
  {
    BuiltProvenance(d', d'.base, BASE_PROFILE, d'.base.fingerprint.value, d'.state.value);
  }

  lemma BuiltRetroProvenance(d: Installation, prepared: Installation, inputs: Inputs, payload: Option<PayloadSnapshot>,
                             toolkit: string, built: Product, installed: InstallState)
    requires inputs.snapshot.Some? && (inputs.mode.Online? <==> payload.Some?) && !inputs.mode.NotApplicable?
    requires HoldsGameData(d, prepared) && RecordsGameData(d, installed)
    requires BuildProduced(Some(built)) && BuildIsFaithful(d, built, RETRO_PROFILE)
    requires BuildConsumedInputs(prepared, inputs, payload, built.local.value)
    ensures var fingerprint := RetroFingerprint(prepared, toolkit, inputs, payload, built.executable.value);
            d.ProvenanceIsValid(built.(fingerprint := Some(fingerprint)), RETRO_PROFILE, fingerprint, installed) <==> d.hasFst
  {
    var fingerprint := RetroFingerprint(prepared, toolkit, inputs, payload, built.executable.value);
    BuiltProvenance(d, built.(fingerprint := Some(fingerprint)), RETRO_PROFILE, fingerprint, installed);
  }

  lemma BuiltInputs(d: Installation, fingerprint: Fingerprint, installed: InstallState, snapshot: CompileInputs)
    requires fingerprint.codePul == installed.codePul == snapshot.codePul
    requires fingerprint.compileInputs == installed.compileInputs == snapshot.compileInputs
    ensures d.InputProvenanceIsValid(fingerprint, installed)
  {
    ShaIsNotBlank(snapshot.codePul);
    ShaIsNotBlank(snapshot.compileInputs);
  }

  /** A Retro Rewind product that was built fits exactly when the installation is complete. */
  lemma BuiltRetroFits(d: Installation, prepared: Installation, d': Installation, inputs: Inputs,
                       payload: Option<PayloadSnapshot>, toolkit: string, built: Product)
    requires inputs.snapshot.Some? && (inputs.mode.Online? <==> payload.Some?) && !inputs.mode.NotApplicable?
    requires HoldsGameData(d, prepared) && SameGround(d, d') && d.HasUsableToolkit(toolkit)
    requires BuildProduced(Some(built)) && BuildIsFaithful(d, built, RETRO_PROFILE)
    requires BuildConsumedInputs(prepared, inputs, payload, built.local.value)
    requires d'.retro == built.(fingerprint := Some(RetroFingerprint(prepared, toolkit, inputs, payload, built.executable.value)))
    requires d'.ReadCurrentInstallState().Some? && RecordsGameData(d, d'.state.value)
    requires d'.state.value.codePul == inputs.snapshot.value.codePul
    requires d'.state.value.compileInputs == inputs.snapshot.value.compileInputs
    requires payload.Some? ==> d'.state.value.payloadSha == payload.value.sha
                               && d'.state.value.payloadLength == payload.value.length
    ensures RetroFits(d', toolkit, inputs.snapshot) <==> d.hasFst
  {
    hide Blank, Same, Installation.ProvenanceIsValid, BuildConsumedInputs;
    BuiltRetroProvenance(d', prepared, inputs, payload, toolkit, built, d'.state.value);
    BuiltInputs(d', d'.retro.fingerprint.value, d'.state.value, inputs.snapshot.value);
    if payload.Some? { ShaIsNotBlank(payload.value.sha); }
  }

  lemma DownloadedIsNotBlank()
    ensures !Blank(DOWNLOADED)
  {
    assert DOWNLOADED[0] in DOWNLOADED;
  }

  /** The inputs named by the document written around a kept product are the product's own. */
  lemma UpdatedStateKeepsInputs(d: Installation, inputs: Inputs, payload: Option<PayloadSnapshot>)
    requires RetroFits(d, d.ResolveToolkitFingerprint(), inputs.snapshot)
    ensures d.InputProvenanceIsValid(ReadFingerprint(d.retro).value, UpdatedState(d, inputs, payload, false))
  {
    var installed := UpdatedState(d, inputs, payload, false);
    if inputs.snapshot.Some? {
      ShaIsNotBlank(inputs.snapshot.value.codePul);
      ShaIsNotBlank(inputs.snapshot.value.compileInputs);
      assert installed.codePul == inputs.snapshot.value.codePul;
      assert installed.compileInputs == inputs.snapshot.value.compileInputs;
    } else {
      assert installed.codePul == d.state.value.codePul;
      assert installed.compileInputs == d.state.value.compileInputs;
    }
  }

  lemma UpdatedStateKeepsPayload(d: Installation, inputs: Inputs, payload: Option<PayloadSnapshot>)
    requires ReadFingerprint(d.retro).Some? && ReadFingerprint(d.retro).value.payloadMode == DOWNLOADED
    ensures var fingerprint := ReadFingerprint(d.retro).value; var installed := UpdatedState(d, inputs, payload, false);
            && installed.payloadMode == DOWNLOADED && installed.payloadSha == fingerprint.payloadSha
            && installed.payloadLength == fingerprint.payloadLength
  {
    DownloadedIsNotBlank();
  }

  /** `d` once the workspace is prepared: refreshed for a build, else untouched. */
  ghost predicate Prepares(d: Installation, prepared: Installation, inputs: Inputs, plan: Decision) {
    if plan.rebuildBase || plan.rebuildRetro
    then
      && ToolkitIsVerified(d, d.ResolveToolkitFingerprint()) && CanRefresh(d, inputs)
      && prepared == RefreshTranslationAssets(d, inputs)
    else prepared == d
  }

  /** What has happened on the way from `d` to `d'` when a publication returns. */
  ghost predicate Published(d: Installation, prepared: Installation, d': Installation, inputs: Inputs,
                            payload: Option<PayloadSnapshot>, outputs: Outputs)
  {
    var plan := Decide(d, inputs, payload);
    && Prepares(d, prepared, inputs, plan) && CanPublish(prepared, plan, payload) && prepared.toolkitState.Some?
    && IsBuilt(prepared, inputs, plan, payload, outputs)
    && d' == PublishedInstallation(prepared, inputs, plan, payload, outputs.base, outputs.retro)
  }

  lemma PublishedGround(d: Installation, prepared: Installation, d': Installation, inputs: Inputs,
                        payload: Option<PayloadSnapshot>, outputs: Outputs)
    requires Published(d, prepared, d', inputs, payload, outputs)
    ensures SameGround(d, d') && d'.ResolveToolkitFingerprint() == d.ResolveToolkitFingerprint()
    ensures !Decide(d, inputs, payload).rebuildBase ==> d'.base == d.base.(assets := d'.base.assets)
    ensures !Decide(d, inputs, payload).rebuildRetro ==> d'.retro == d.retro.(assets := d'.retro.assets)
  {
  }

  /** Neither product loses a setting of the user. */
  ghost predicate KeepsSettings(d: Installation, d': Installation) {
    Includes(d'.base.settings, d.base.settings) && Includes(d'.retro.settings, d.retro.settings)
  }

  /** A rebuild replaces a product's directory, but not the settings in it. */
  lemma SettingsSurvive(d: Installation, prepared: Installation, d': Installation, inputs: Inputs,
                        payload: Option<PayloadSnapshot>, outputs: Outputs)
    requires Published(d, prepared, d', inputs, payload, outputs)
    ensures KeepsSettings(d, d')
  {
    hide Decide, Same, Blank, UpdatedState, BuildConsumedInputs, ToolkitIsVerified, CanRefresh, BuildProduced, CanPublish;
  }

  lemma SameSourcesSameState(d: Installation, prepared: Installation, inputs: Inputs, payload: Option<PayloadSnapshot>,
                             rebuilt: bool)
    requires prepared.root == d.root && prepared.state == d.state && prepared.retro == d.retro
    ensures UpdatedState(prepared, inputs, payload, rebuilt) == UpdatedState(d, inputs, payload, rebuilt)
  {
    hide Blank, ReadFingerprint, SomeOr;
  }

  lemma PreparedStateIsSame(d: Installation, prepared: Installation, inputs: Inputs, payload: Option<PayloadSnapshot>,
                            plan: Decision)
    requires Prepares(d, prepared, inputs, plan)
    ensures UpdatedState(prepared, inputs, payload, plan.rebuildRetro) == UpdatedState(d, inputs, payload, plan.rebuildRetro)
    ensures CanRefresh(d, inputs) || !(plan.rebuildBase || plan.rebuildRetro)
  {
    hide UpdatedState, CanRefresh;
    SameSourcesSameState(d, prepared, inputs, payload, plan.rebuildRetro);
  }

  lemma WrittenState(d: Installation, prepared: Installation, d': Installation, inputs: Inputs,
                     payload: Option<PayloadSnapshot>, outputs: Outputs)
    requires Published(d, prepared, d', inputs, payload, outputs)
    ensures var plan := Decide(d, inputs, payload);
            d'.root == d.root
            && d'.state == (if plan.rebuildBase || plan.rebuildRetro || inputs.snapshot.Some?
                            then Some(UpdatedState(prepared, inputs, payload, plan.rebuildRetro)) else d.state)
  {
    hide UpdatedState, Same, Blank, NeedsBaseBuild, NeedsRetroBuild, NeedsPayload;
  }

  /** The document on record after a publication names the installed game data. */
  lemma PublishedState(d: Installation, prepared: Installation, d': Installation, inputs: Inputs,
                       payload: Option<PayloadSnapshot>, outputs: Outputs)
    requires Accepted(d, inputs, payload) && Published(d, prepared, d', inputs, payload, outputs)
    ensures d'.ReadCurrentInstallState().Some? && RecordsGameData(d, d'.state.value)
    ensures var plan := Decide(d, inputs, payload);
            d'.state == (if plan.rebuildBase || plan.rebuildRetro || inputs.snapshot.Some?
                         then Some(UpdatedState(d, inputs, payload, plan.rebuildRetro)) else d.state)
  {
    hide Same, Blank, NeedsBaseBuild, NeedsRetroBuild, NeedsPayload, CanRefresh, Published, PublishedInstallation;
    var plan := Decide(d, inputs, payload);
    assert Prepares(d, prepared, inputs, plan) by { PublishedIsPrepared(d, prepared, d', inputs, payload, outputs); }
    WrittenState(d, prepared, d', inputs, payload, outputs);
    PreparedStateIsSame(d, prepared, inputs, payload, plan);
    UpdatedStateRecordsGameData(d, inputs, payload, plan.rebuildRetro);
    if !NeedsBaseBuild(d, inputs) { KeptBase(d, inputs); }
  }

  lemma PublishedIsPrepared(d: Installation, prepared: Installation, d': Installation, inputs: Inputs,
                            payload: Option<PayloadSnapshot>, outputs: Outputs)
    requires Published(d, prepared, d', inputs, payload, outputs)
    ensures Prepares(d, prepared, inputs, Decide(d, inputs, payload))
  {
    hide UpdatedState, Same, Blank, NeedsBaseBuild, NeedsRetroBuild, NeedsPayload, CanRefresh;
  }

  lemma PublishedBaseAssets(d: Installation, prepared: Installation, d': Installation, inputs: Inputs,
                            payload: Option<PayloadSnapshot>, outputs: Outputs)
    requires Published(d, prepared, d', inputs, payload, outputs) && FaithfulBuilds(d, outputs)
    ensures d.toolkitState.Some? && d'.base.executable.Some?
    ensures d'.RuntimeAssetsAreValid(d'.base, d.ResolveToolkitFingerprint())
            <==> !Blank(d.toolkitState.value.runtimeAssets)
                 && (Decide(d, inputs, payload).rebuildBase ==> WorkspaceAssetsMatch(d))
  {
    var toolkit := d.ResolveToolkitFingerprint();
    var plan := Decide(d, inputs, payload);
    PublishedGround(d, prepared, d', inputs, payload, outputs);
    if plan.rebuildBase {
      BuiltAssets(d, d', d'.base, toolkit);
    } else {
      KeptBase(d, inputs);
    }
  }

  lemma PublishedRetroAssets(d: Installation, prepared: Installation, d': Installation, inputs: Inputs,
                             payload: Option<PayloadSnapshot>, outputs: Outputs)
    requires Published(d, prepared, d', inputs, payload, outputs) && FaithfulBuilds(d, outputs)
    requires Decide(d, inputs, payload).rebuildRetro || d.HasRetroProduct()
    ensures d.toolkitState.Some?
    ensures d'.RuntimeAssetsAreValid(d'.retro, d.ResolveToolkitFingerprint())
            <==> !Blank(d.toolkitState.value.runtimeAssets)
                 && (Decide(d, inputs, payload).rebuildRetro ==> WorkspaceAssetsMatch(d))
  {
    var toolkit := d.ResolveToolkitFingerprint();
    PublishedGround(d, prepared, d', inputs, payload, outputs);
    if Decide(d, inputs, payload).rebuildRetro {
      BuiltAssets(d, d', d'.retro, toolkit);
    }
  }

  /** The base product after a publication. */
  lemma PublishedBase(d: Installation, prepared: Installation, d': Installation, inputs: Inputs,
                      payload: Option<PayloadSnapshot>, outputs: Outputs)
    requires Accepted(d, inputs, payload) && Published(d, prepared, d', inputs, payload, outputs) && FaithfulBuilds(d, outputs)
    ensures d'.CheckBaseCore(d.ResolveToolkitFingerprint()).Current? <==> d.hasFst
  {
    var toolkit := d.ResolveToolkitFingerprint();
    PublishedGround(d, prepared, d', inputs, payload, outputs);
    PublishedState(d, prepared, d', inputs, payload, outputs);
    if Decide(d, inputs, payload).rebuildBase {
      BuiltBaseIsCurrent(d, prepared, d', toolkit, outputs.base.value);
    } else {
      KeptBase(d, inputs);
      KeptBaseStays(d, d', inputs);
    }
  }

  /** The Retro Rewind product after a publication that was asked for it. */
  lemma PublishedRetro(d: Installation, prepared: Installation, d': Installation, inputs: Inputs,
                       payload: Option<PayloadSnapshot>, outputs: Outputs)
    requires Accepted(d, inputs, payload) && Published(d, prepared, d', inputs, payload, outputs) && FaithfulBuilds(d, outputs)
    requires inputs.snapshot.Some?
    ensures RetroFits(d', d.ResolveToolkitFingerprint(), inputs.snapshot) <==> d.hasFst
  {
    var toolkit := d.ResolveToolkitFingerprint();
    PublishedGround(d, prepared, d', inputs, payload, outputs);
    PublishedState(d, prepared, d', inputs, payload, outputs);
    if NeedsRetroBuild(d, inputs, payload) {
      BuiltRetroFits(d, prepared, d', inputs, payload, toolkit, outputs.retro.value);
    } else {
      RetroStatusMeaning(d, toolkit, inputs.snapshot, CacheObservation(d, payload));
      UpdatedStateKeepsInputs(d, inputs, payload);
      if ReadFingerprint(d.retro).value.payloadMode == DOWNLOADED { UpdatedStateKeepsPayload(d, inputs, payload); }
      KeptRetroFits(d, d', inputs.snapshot);
    }
  }

  /** The Retro Rewind product after a publication that was not asked for it. */
  lemma PublishedUnaskedRetro(d: Installation, prepared: Installation, d': Installation, inputs: Inputs,
                              payload: Option<PayloadSnapshot>, outputs: Outputs)
    requires Accepted(d, inputs, payload) && Published(d, prepared, d', inputs, payload, outputs)
    requires inputs.snapshot.None? && d.HasRetroProduct()
    ensures d.hasFst && RetroFits(d', d.ResolveToolkitFingerprint(), None)
  {
    var toolkit := d.ResolveToolkitFingerprint();
    PublishedGround(d, prepared, d', inputs, payload, outputs);
    PublishedState(d, prepared, d', inputs, payload, outputs);
    RetroStatusMeaning(d, toolkit, None, None);
    if NeedsBaseBuild(d, inputs) {
      UpdatedStateKeepsInputs(d, inputs, payload);
      if ReadFingerprint(d.retro).value.payloadMode == DOWNLOADED { UpdatedStateKeepsPayload(d, inputs, payload); }
    }
    KeptRetroFits(d, d', None);
  }

  /** What the operation knows about the payload cache once it has returned. */
  function ObservedCache(d: Installation): (r: Option<bool>)
    ensures r == None || r == Some(true)
    ensures r.Some? <==> d.retro.executable.Some? && d.ResolvePayloadMode().Online?
  {
    if d.HasRetroProduct() && d.ResolvePayloadMode().Online? then Some(true) else None
  }

  lemma ObservedCacheFits(d: Installation)
    requires d.HasRetroProduct() && ReadFingerprint(d.retro).Some?
    ensures CacheFits(d, ObservedCache(d))
  {
  }

  /** Both products of `d'`, as far as they were built or kept by an operation on `d`. */
  ghost predicate ProductsAgree(d: Installation, d': Installation, inputs: Inputs, plan: Decision) {
    var toolkit := d.ResolveToolkitFingerprint();
    && SameGround(d, d') && d.toolkitState.Some?
    && var identified := !Blank(d.toolkitState.value.runtimeAssets);
    && d'.base.executable.Some?
    && (d'.CheckBaseCore(toolkit).Current? <==> d.hasFst)
    && (d'.RuntimeAssetsAreValid(d'.base, toolkit) <==> identified && (plan.rebuildBase ==> WorkspaceAssetsMatch(d)))
    && (inputs.snapshot.Some? ==>
          && (RetroFits(d', toolkit, inputs.snapshot) <==> d.hasFst)
          && (d'.RuntimeAssetsAreValid(d'.retro, toolkit) <==> identified && (plan.rebuildRetro ==> WorkspaceAssetsMatch(d)))
          && d'.HasRetroProduct() && ReadFingerprint(d'.retro).Some?)
    && (inputs.snapshot.None? && d.HasRetroProduct() ==>
          && RetroFits(d', toolkit, None)
          && d'.RuntimeAssetsAreValid(d'.retro, toolkit) && identified)
    && (inputs.snapshot.None? && !d.HasRetroProduct() ==> d'.CheckRetroCore(toolkit, None, None).Absent?)
  }

  lemma AgreementIsConvergence(d: Installation, d': Installation, inputs: Inputs, plan: Decision)
    requires ProductsAgree(d, d', inputs, plan)
    requires inputs.snapshot.Some? && inputs.canonicalRoot.Some? ==> d'.RecordedRootMatches(inputs.canonicalRoot.value)
    ensures Converged(d, d', inputs, plan, ObservedCache(d'))
  {
    var toolkit := d.ResolveToolkitFingerprint();
    RetroStatusMeaning(d', toolkit, inputs.snapshot, ObservedCache(d'));
    if d'.HasRetroProduct() && ReadFingerprint(d'.retro).Some? { ObservedCacheFits(d'); }
  }

  lemma PublishedProductsAgree(d: Installation, prepared: Installation, d': Installation, inputs: Inputs,
                               payload: Option<PayloadSnapshot>, outputs: Outputs)
    requires Accepted(d, inputs, payload) && Published(d, prepared, d', inputs, payload, outputs) && FaithfulBuilds(d, outputs)
    ensures ProductsAgree(d, d', inputs, Decide(d, inputs, payload))
  {
    PublishedGround(d, prepared, d', inputs, payload, outputs);
    PublishedBaseAssets(d, prepared, d', inputs, payload, outputs);
    PublishedBase(d, prepared, d', inputs, payload, outputs);
    if inputs.snapshot.Some? {
      PublishedRetro(d, prepared, d', inputs, payload, outputs);
      PublishedRetroExists(d, prepared, d', inputs, payload, outputs);
      PublishedRetroAssets(d, prepared, d', inputs, payload, outputs);
    } else if d.HasRetroProduct() {
      PublishedUnaskedRetro(d, prepared, d', inputs, payload, outputs);
      PublishedRetroAssets(d, prepared, d', inputs, payload, outputs);
    } else {
      PublishedState(d, prepared, d', inputs, payload, outputs);
    }
  }

  lemma PublishedRetroExists(d: Installation, prepared: Installation, d': Installation, inputs: Inputs,
                             payload: Option<PayloadSnapshot>, outputs: Outputs)
    requires Published(d, prepared, d', inputs, payload, outputs) && inputs.snapshot.Some?
    ensures d'.HasRetroProduct() && ReadFingerprint(d'.retro).Some?
    ensures !Decide(d, inputs, payload).rebuildRetro ==> d.HasRetroProduct()
  {
    hide Blank, Same, Installation.ProvenanceIsValid;
    if !NeedsRetroBuild(d, inputs, payload) {
      RetroStatusMeaning(d, d.ResolveToolkitFingerprint(), inputs.snapshot, CacheObservation(d, payload));
      PublishedGround(d, prepared, d', inputs, payload, outputs);
    }
  }

  lemma UntouchedProductsAgree(d: Installation, inputs: Inputs, payload: Option<PayloadSnapshot>)
    requires Accepted(d, inputs, payload) && Decide(d, inputs, payload).NothingToDo()
    ensures ProductsAgree(d, d, inputs, Decide(d, inputs, payload))
  {
    KeptBase(d, inputs);
    RetroStatusMeaning(d, d.ResolveToolkitFingerprint(), inputs.snapshot, CacheObservation(d, payload));
  }

  /** The game data is what the release expects, if it expects anything. */
  ghost predicate DataIsExpected(d: Installation, inputs: Inputs) {
    !Blank(inputs.expectedDol) && !Blank(inputs.expectedRel) ==>
      && d.dol.Some? && Same(d.dol.value.sha, inputs.expectedDol)
      && d.rel.Some? && Same(d.rel.value.sha, inputs.expectedRel)
  }

  lemma PublishedDataIsExpected(d: Installation, prepared: Installation, inputs: Inputs, payload: Option<PayloadSnapshot>)
    requires Accepted(d, inputs, payload) && Prepares(d, prepared, inputs, Decide(d, inputs, payload))
    ensures DataIsExpected(d, inputs)
  {
    if !CanRefresh(d, inputs) { KeptBase(d, inputs); }
  }

  lemma CurrentBaseIsSettled(d: Installation, inputs: Inputs)
    requires d.CheckBaseCore(d.ResolveToolkitFingerprint()).Current? && DataIsExpected(d, inputs)
    ensures !NeedsBaseBuild(d, inputs)
  {
  }

  lemma FittingRetroHasNotDrifted(d: Installation, inputs: Inputs)
    requires RetroFits(d, d.ResolveToolkitFingerprint(), inputs.snapshot) && DataIsExpected(d, inputs)
    ensures !RetroDrifted(d, inputs)
  {
  }

  /** The payload of a published Retro Rewind product, built or kept. */
  ghost predicate PayloadAgrees(d: Installation, inputs: Inputs, payload: Option<PayloadSnapshot>) {
    && ReadFingerprint(d.retro).Some? && !ModeChanged(d, inputs.mode)
    && (inputs.mode.Online? ==> payload.Some? && d.ProductMatchesPayload(payload.value) && d.CacheMatchesPayload(payload.value))
    && (inputs.mode.Skipped? ==> ReadFingerprint(d.retro).value.payloadMode != DOWNLOADED)
  }

  lemma BuiltPayload(d: Installation, inputs: Inputs, payload: Option<PayloadSnapshot>, fingerprint: Fingerprint)
    requires (inputs.mode.Online? <==> payload.Some?) && !inputs.mode.NotApplicable?
    requires ReadFingerprint(d.retro) == Some(fingerprint) && d.ReadCurrentInstallState().Some?
    requires fingerprint.payloadMode == ModeText(inputs.mode)
    requires payload.Some? ==>
               && fingerprint.payloadSha == d.state.value.payloadSha == payload.value.sha
               && d.state.value.payloadMode == DOWNLOADED && d.CacheMatchesPayload(payload.value)
    ensures PayloadAgrees(d, inputs, payload)
  {
  }

  lemma KeptPayload(d: Installation, d': Installation, inputs: Inputs, payload: Option<PayloadSnapshot>)
    requires (inputs.mode.Online? <==> payload.Some?) && !inputs.mode.NotApplicable?
    requires ReadFingerprint(d.retro).Some? && !ModeChanged(d, inputs.mode) && d.HasRetroProduct()
    requires payload.Some? ==> d.ProductMatchesPayload(payload.value) && d'.CacheMatchesPayload(payload.value)
    requires d'.retro == d.retro.(assets := d'.retro.assets)
    requires d'.ReadCurrentInstallState() == Some(UpdatedState(d, inputs, payload, false))
    ensures PayloadAgrees(d', inputs, payload)
  {
    if ReadFingerprint(d.retro).value.payloadMode == DOWNLOADED { UpdatedStateKeepsPayload(d, inputs, payload); }
    if ReadFingerprint(d.retro).value.payloadMode == "" { UpdatedStateKeepsMode(d, inputs, payload); }
  }

  lemma UpdatedStateKeepsMode(d: Installation, inputs: Inputs, payload: Option<PayloadSnapshot>)
    requires ReadFingerprint(d.retro).Some? && ReadFingerprint(d.retro).value.payloadMode == ""
    ensures UpdatedState(d, inputs, payload, false).payloadMode == if d.state.Some? then d.state.value.payloadMode else ""
  {
  }

  lemma WrittenPayload(d: Installation, prepared: Installation, d': Installation, inputs: Inputs,
                       payload: Option<PayloadSnapshot>, outputs: Outputs)
    requires Published(d, prepared, d', inputs, payload, outputs) && payload.Some? && inputs.mode.Online? && inputs.snapshot.Some?
    ensures d'.payloadCache == (if NeedsPayload(d, inputs, payload) then Some(Artifact(payload.value.length, payload.value.sha))
                                else d.payloadCache)
  {
    hide Same, Blank, NeedsBaseBuild, NeedsRetroBuild, NeedsPayload, UpdatedState;
  }

  lemma UnneededPayload(d: Installation, inputs: Inputs, payload: Option<PayloadSnapshot>)
    requires payload.Some? && inputs.mode.Online?
    ensures !NeedsPayload(d, inputs, payload) ==> d.CacheMatchesPayload(payload.value)
    ensures !NeedsRetroBuild(d, inputs, payload) ==> d.ProductMatchesPayload(payload.value)
  {
    hide Same, Blank, RetroStatus, RetroDrifted;
  }

  lemma UnneededRetroBuild(d: Installation, inputs: Inputs, payload: Option<PayloadSnapshot>)
    requires !NeedsRetroBuild(d, inputs, payload)
    ensures d.HasRetroProduct() && ReadFingerprint(d.retro).Some? && !ModeChanged(d, inputs.mode)
  {
    RetroStatusMeaning(d, d.ResolveToolkitFingerprint(), inputs.snapshot, CacheObservation(d, payload));
  }

  lemma BuiltRetroRecords(d: Installation, prepared: Installation, d': Installation, inputs: Inputs,
                          payload: Option<PayloadSnapshot>, outputs: Outputs)
    requires Accepted(d, inputs, payload) && Published(d, prepared, d', inputs, payload, outputs) && inputs.snapshot.Some?
    requires NeedsRetroBuild(d, inputs, payload)
    ensures ReadFingerprint(d'.retro).Some?
    ensures ReadFingerprint(d'.retro).value.payloadMode == ModeText(inputs.mode)
    ensures payload.Some? ==> ReadFingerprint(d'.retro).value.payloadSha == payload.value.sha
  {
    hide Same, Blank, NeedsBaseBuild, NeedsRetroBuild, NeedsPayload, UpdatedState;
  }

  lemma RebuiltStateRecords(d: Installation, inputs: Inputs, payload: Option<PayloadSnapshot>)
    requires payload.Some? && inputs.mode.Online?
    ensures var s := UpdatedState(d, inputs, payload, true);
            s.payloadMode == DOWNLOADED && s.payloadSha == payload.value.sha
  {
    hide Blank;
  }

  lemma PublishedPayload(d: Installation, prepared: Installation, d': Installation, inputs: Inputs,
                         payload: Option<PayloadSnapshot>, outputs: Outputs)
    requires Accepted(d, inputs, payload) && Published(d, prepared, d', inputs, payload, outputs) && inputs.snapshot.Some?
    ensures PayloadAgrees(d', inputs, payload)
  {
    hide Same, Blank, NeedsBaseBuild, UpdatedState, Published, PayloadAgrees, RecordsGameData, RetroStatus, RetroDrifted;
    PublishedState(d, prepared, d', inputs, payload, outputs);
    if payload.Some? {
      WrittenPayload(d, prepared, d', inputs, payload, outputs);
      UnneededPayload(d, inputs, payload);
    }
    if NeedsRetroBuild(d, inputs, payload) {
      BuiltRetroRecords(d, prepared, d', inputs, payload, outputs);
      if payload.Some? { RebuiltStateRecords(d, inputs, payload); }
      BuiltPayload(d', inputs, payload, ReadFingerprint(d'.retro).value);
    } else {
      PublishedGround(d, prepared, d', inputs, payload, outputs);
      UnneededRetroBuild(d, inputs, payload);
      KeptPayload(d, d', inputs, payload);
    }
  }

  lemma AgreeingCacheFits(d: Installation, inputs: Inputs, payload: Option<PayloadSnapshot>)
    requires (inputs.mode.Online? <==> payload.Some?) && !inputs.mode.NotApplicable? && PayloadAgrees(d, inputs, payload)
    ensures CacheFits(d, CacheObservation(d, payload)) && PayloadActionFor(d, payload).NoAction?
  {
  }

  lemma AgreeingRetroIsCurrent(d: Installation, inputs: Inputs, payload: Option<PayloadSnapshot>)
    requires (inputs.mode.Online? <==> payload.Some?) && !inputs.mode.NotApplicable? && PayloadAgrees(d, inputs, payload)
    requires RetroFits(d, d.ResolveToolkitFingerprint(), inputs.snapshot)
    ensures RetroStatus(d, inputs, payload).Current? && PayloadActionFor(d, payload).NoAction?
  {
    AgreeingCacheFits(d, inputs, payload);
    RetroStatusMeaning(d, d.ResolveToolkitFingerprint(), inputs.snapshot, CacheObservation(d, payload));
  }

  lemma CurrentRetroIsSettled(d: Installation, inputs: Inputs, payload: Option<PayloadSnapshot>)
    requires RetroStatus(d, inputs, payload).Current? && PayloadActionFor(d, payload).NoAction?
    requires !RetroDrifted(d, inputs) && !ModeChanged(d, inputs.mode)
    ensures !NeedsRetroBuild(d, inputs, payload) && !NeedsPayload(d, inputs, payload)
  {
  }

  lemma AgreeingRetroIsSettled(d: Installation, inputs: Inputs, payload: Option<PayloadSnapshot>)
    requires inputs.snapshot.Some? && (inputs.mode.Online? <==> payload.Some?) && !inputs.mode.NotApplicable?
    requires RetroFits(d, d.ResolveToolkitFingerprint(), inputs.snapshot) && DataIsExpected(d, inputs)
    requires PayloadAgrees(d, inputs, payload)
    ensures !NeedsRetroBuild(d, inputs, payload) && !NeedsPayload(d, inputs, payload)
  {
    AgreeingRetroIsCurrent(d, inputs, payload);
    FittingRetroHasNotDrifted(d, inputs);
    CurrentRetroIsSettled(d, inputs, payload);
  }

  /** The operation compares the payload's hash with the product's record but never its length, so
      an inspection that knows nothing of the operation agrees exactly when the lengths do too. */
  lemma FreshInspectionAgrees(d: Installation, inputs: Inputs, payload: Option<PayloadSnapshot>)
    requires inputs.mode.Online? && PayloadAgrees(d, inputs, payload)
    requires RetroFits(d, d.ResolveToolkitFingerprint(), inputs.snapshot)
    ensures RetroStatus(d, inputs, payload).Current?
    ensures var unaided := d.CheckRetroCore(d.ResolveToolkitFingerprint(), inputs.snapshot, None);
            if payload.value.length == ReadFingerprint(d.retro).value.payloadLength then unaided.Current?
            else unaided.PayloadChanged?
  {
    AgreeingCacheFits(d, inputs, payload);
    RetroStatusMeaning(d, d.ResolveToolkitFingerprint(), inputs.snapshot, CacheObservation(d, payload));
    RetroStatusMeaning(d, d.ResolveToolkitFingerprint(), inputs.snapshot, None);
  }

  /** An installation whose records say that the payload is 2 bytes long, while it is 1. */
  function Misrecorded(root: Path, sha: Sha): Installation {
    var executable := Some(Artifact(MINIMUM_EXECUTABLE, sha));
    var game := Some(Artifact(1, sha));
    Installation(
      root,
      Some(InstallState(1, Some(root), true, sha, sha, sha, sha, DOWNLOADED, sha, 2, Some(root))),
      Some(ToolkitState(2, sha, sha, sha)), true, sha, Some(sha),
      Product(executable, Some(Fingerprint(1, BASE_PROFILE, sha, sha, sha, sha, "", "", "", "", 0)),
              Some(LocalBuild(1, BASE_PROFILE, sha, sha, None, None, None, None)), Some(sha), map[]),
      Product(executable, Some(Fingerprint(1, RETRO_PROFILE, sha, sha, sha, sha, sha, sha, DOWNLOADED, sha, 2)),
              Some(LocalBuild(1, RETRO_PROFILE, sha, sha, Some(sha), Some(DOWNLOADED), Some(sha), Some(2))), Some(sha), map[]),
      game, game, true, game, game, game, Some(root))
  }

  /** A reconciliation finds it current and does nothing, and an inspection finds its payload changed. */
  lemma MisrecordedLength(d: Installation, inputs: Inputs, payload: Option<PayloadSnapshot>, root: Path, sha: Sha)
    requires d == Misrecorded(root, sha)
    requires inputs == Inputs(Some(CompileInputs(sha, sha)), Online, "", "", Some(root))
    requires payload == Some(PayloadSnapshot(sha, 1))
    ensures Accepted(d, inputs, payload) && Decide(d, inputs, payload).NothingToDo()
    ensures d.CheckRetro(sha, inputs.snapshot, ObservedCache(d)).Current?
    ensures d.CheckRetro(sha, inputs.snapshot, None).PayloadChanged?
  {
    hide Blank, Same, Misrecorded, Accepted, Decide, Installation.CheckRetro;
    MisrecordedIsLeft(d, inputs, payload, root, sha);
    MisrecordedStatus(d, inputs, payload, root, sha);
  }

  lemma MisrecordedIsLeft(d: Installation, inputs: Inputs, payload: Option<PayloadSnapshot>, root: Path, sha: Sha)
    requires d == Misrecorded(root, sha)
    requires inputs == Inputs(Some(CompileInputs(sha, sha)), Online, "", "", Some(root))
    requires payload == Some(PayloadSnapshot(sha, 1))
    ensures Accepted(d, inputs, payload) && Decide(d, inputs, payload).NothingToDo()
  {
    hide Blank, Same, RetroFits, BaseFits, Installation.CheckRetroCore, Installation.CheckBaseCore, Misrecorded;
    MisrecordedToolkit(d, root, sha);
    MisrecordedPayload(d, root, sha);
    MisrecordedFits(d, root, sha);
    BuildsMeaning(d, inputs, payload);
    RetroStatusMeaning(d, sha, inputs.snapshot, Some(true));
  }

  lemma MisrecordedStatus(d: Installation, inputs: Inputs, payload: Option<PayloadSnapshot>, root: Path, sha: Sha)
    requires d == Misrecorded(root, sha)
    requires inputs == Inputs(Some(CompileInputs(sha, sha)), Online, "", "", Some(root))
    requires payload == Some(PayloadSnapshot(sha, 1))
    ensures d.CheckRetro(sha, inputs.snapshot, ObservedCache(d)).Current?
    ensures d.CheckRetro(sha, inputs.snapshot, None).PayloadChanged?
  {
    hide Blank, Same, RetroFits, BaseFits, Installation.CheckRetroCore, Installation.RuntimeAssetsAreValid, Misrecorded;
    MisrecordedToolkit(d, root, sha);
    MisrecordedPayload(d, root, sha);
    MisrecordedFits(d, root, sha);
    FreshInspectionAgrees(d, inputs, payload);
  }

  lemma MisrecordedToolkit(d: Installation, root: Path, sha: Sha)
    requires d == Misrecorded(root, sha)
    ensures !Blank(sha) && Blank("") && d.hasToolkit && d.ResolveToolkitFingerprint() == sha
    ensures d.RuntimeAssetsAreValid(d.base, sha) && d.RuntimeAssetsAreValid(d.retro, sha)
  {
    hide Blank;
    ShaIsNotBlank(sha);
    EmptyIsBlank();
  }

  lemma EmptyIsBlank()
    ensures Blank("")
  {
  }

  lemma MisrecordedPayload(d: Installation, root: Path, sha: Sha)
    requires d == Misrecorded(root, sha)
    ensures d.HasRetroProduct() && d.ResolvePayloadMode().Online? && d.RecordedRootMatches(root)
    ensures d.ProductMatchesPayload(PayloadSnapshot(sha, 1)) && d.CacheMatchesPayload(PayloadSnapshot(sha, 1))
    ensures ReadFingerprint(d.retro).Some? && ReadFingerprint(d.retro).value.payloadLength == 2
  {
  }

  lemma UniformProvenance(d: Installation, product: Product, profile: string, fingerprint: Fingerprint,
                          installed: InstallState, sha: Sha)
    requires product.executable == Some(Artifact(MINIMUM_EXECUTABLE, sha)) && product.local.Some?
    requires fingerprint.profile == profile && fingerprint.dol == fingerprint.rel == fingerprint.executable == sha
    requires d.dol.Some? && d.rel.Some? && d.hasFst && d.dol.value.sha == d.rel.value.sha == sha
    requires installed.dol == installed.rel == sha
    requires var local := product.local.value;
             && local.schema == 1 && local.profile == profile && local.dol == local.rel == sha
             && (profile == RETRO_PROFILE ==> PayloadProvenanceIsValid(local, fingerprint))
    ensures d.ProvenanceIsValid(product, profile, fingerprint, installed)
  {
    hide Blank, Same;
    ShaIsNotBlank(sha);
    SameAsItself(sha);
  }

  lemma MisrecordedFits(d: Installation, root: Path, sha: Sha)
    requires d == Misrecorded(root, sha)
    ensures BaseFits(d, sha) && RetroFits(d, sha, Some(CompileInputs(sha, sha)))
  {
    hide Blank, Same, Installation.ProvenanceIsValid;
    ShaIsNotBlank(sha);
    SameAsItself(sha);
    UniformProvenance(d, d.base, BASE_PROFILE, d.base.fingerprint.value, d.state.value, sha);
    UniformProvenance(d, d.retro, RETRO_PROFILE, d.retro.fingerprint.value, d.state.value, sha);
  }

  lemma SameAsItself(s: string)
    ensures Same(s, s)
  {
  }

  lemma AgreementIsSettled(d: Installation, d': Installation, inputs: Inputs, payload: Option<PayloadSnapshot>)
    requires Accepted(d, inputs, payload) && ProductsAgree(d, d', inputs, Decide(d, inputs, payload))
    requires CanConverge(d, Decide(d, inputs, payload))
    requires d'.ResolveToolkitFingerprint() == d.ResolveToolkitFingerprint() && DataIsExpected(d', inputs)
    requires inputs.snapshot.Some? ==> PayloadAgrees(d', inputs, payload) && d'.RecordedRootMatches(inputs.canonicalRoot.value)
    requires inputs.snapshot.None? ==> !ActionRequired(d'.CheckRetroCore(d.ResolveToolkitFingerprint(), None, None))
    ensures Settled(d', inputs, payload)
  {
    CurrentBaseIsSettled(d', inputs);
    if inputs.snapshot.Some? {
      AgreeingRetroIsSettled(d', inputs, payload);
    } else if d'.HasRetroProduct() {
      RetroStatusMeaning(d', d.ResolveToolkitFingerprint(), None, None);
      FittingRetroHasNotDrifted(d', inputs);
    }
  }

  /** A reconciliation that finds nothing to do finds everything current. */
  lemma NothingToDoIsCurrent(d: Installation, inputs: Inputs, payload: Option<PayloadSnapshot>)
    requires Accepted(d, inputs, payload) && Decide(d, inputs, payload).NothingToDo()
    ensures Converged(d, d, inputs, Decide(d, inputs, payload), ObservedCache(d)) && Settled(d, inputs, payload)
  {
    UntouchedProductsAgree(d, inputs, payload);
    AgreementIsConvergence(d, d, inputs, Decide(d, inputs, payload));
  }

  /** A reconciliation that publishes leaves everything current, and nothing for a second one to do. */
  lemma PublishedIsCurrent(d: Installation, prepared: Installation, d': Installation, inputs: Inputs,
                           payload: Option<PayloadSnapshot>, outputs: Outputs)
    requires Accepted(d, inputs, payload) && Published(d, prepared, d', inputs, payload, outputs) && FaithfulBuilds(d, outputs)
    ensures Converged(d, d', inputs, Decide(d, inputs, payload), ObservedCache(d'))
    ensures CanConverge(d, Decide(d, inputs, payload)) ==> Settled(d', inputs, payload)
  {
    hide Blank, Same, Installation.ProvenanceIsValid;
    PublishedProductsAgree(d, prepared, d', inputs, payload, outputs);
    AgreementIsConvergence(d, d', inputs, Decide(d, inputs, payload));
    if CanConverge(d, Decide(d, inputs, payload)) {
      PublishedGround(d, prepared, d', inputs, payload, outputs);
      PublishedDataIsExpected(d, prepared, inputs, payload);
      if inputs.snapshot.Some? {
        PublishedPayload(d, prepared, d', inputs, payload, outputs);
      } else {
        PublishedUnaskedStatus(d, prepared, d', inputs, payload, outputs);
      }
      AgreementIsSettled(d, d', inputs, payload);
    }
  }

  lemma PublishedUnaskedStatus(d: Installation, prepared: Installation, d': Installation, inputs: Inputs,
                               payload: Option<PayloadSnapshot>, outputs: Outputs)
    requires Accepted(d, inputs, payload) && Published(d, prepared, d', inputs, payload, outputs)
    requires inputs.snapshot.None? && ProductsAgree(d, d', inputs, Decide(d, inputs, payload))
    ensures !ActionRequired(d'.CheckRetroCore(d.ResolveToolkitFingerprint(), None, None))
  {
    var toolkit := d.ResolveToolkitFingerprint();
    PublishedGround(d, prepared, d', inputs, payload, outputs);
    if d.HasRetroProduct() {
      RetroStatusMeaning(d, toolkit, None, None);
      RetroStatusMeaning(d', toolkit, None, None);
    }
  }
}
