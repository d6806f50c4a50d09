/** What an installation looks like on disk, and the inspection that gives each product one of nine
    statuses. */
module Installations {
  import opened FileTrees
  import opened Paths
  import opened Texts
  import opened Wrappers

  datatype Status =
    | Absent
    | Current
    | ToolkitChanged
    | CodePulChanged
    | CompileInputsChanged
    | PayloadChanged
    | InputsMissing
    | Blocked
    | Broken

  datatype PayloadMode = NotApplicable | Online | Skipped

  const DOWNLOADED := "downloaded"
  const SKIPPED := "skipped"
  const BASE_PROFILE := "base"
  const RETRO_PROFILE := "retro-rewind"
  const MINIMUM_EXECUTABLE := 64 * 1024

  /** A file, by what inspection can see of it. */
  datatype Artifact = Artifact(length: nat, sha: Sha)

  /** `build-fingerprint.json`. */
  datatype Fingerprint = Fingerprint(
    schema: int, profile: string, toolkit: string, dol: string, rel: string, executable: string,
    codePul: string, compileInputs: string, payloadMode: string, payloadSha: string, payloadLength: int)

  /** `local-build.json`, written by the build script. */
  datatype LocalBuild = LocalBuild(
    schema: int, profile: string, dol: string, rel: string, codePul: Option<string>,
    payloadMode: Option<string>, payloadSha: Option<string>, payloadLength: Option<int>)

  /** A product directory. `assets` is the identity of its copied runtime assets, and `settings` the
      user's own `config` directory. */
  datatype Product = Product(
    executable: Option<Artifact>, fingerprint: Option<Fingerprint>, local: Option<LocalBuild>, assets: Option<string>,
    settings: Tree)

  /** `install-state.json`. */
  datatype InstallState = InstallState(
    schema: int, installDir: Option<Path>, retroInstalled: bool, dol: string, rel: string,
    codePul: string, compileInputs: string, payloadMode: string, payloadSha: string, payloadLength: int,
    retroRoot: Option<Path>)

  /** `toolkit-state.json`. */
  datatype ToolkitState = ToolkitState(schema: int, toolkit: string, package: string, runtimeAssets: string)

  /** The compile inputs of the canonical Retro Rewind folder. */
  datatype CompileInputs = CompileInputs(codePul: Sha, compileInputs: Sha)

  /** A validated payload is never empty. */
  type Positive = n: nat | n > 0 witness 1

  datatype PayloadSnapshot = PayloadSnapshot(sha: Sha, length: Positive)

  function SomeOr<T>(o: Option<T>, default: T): T {
    if o.Some? then o.value else default
  }

  datatype Installation = Installation(
    root: Path,
    state: Option<InstallState>,
    toolkitState: Option<ToolkitState>,
    hasToolkit: bool,
    compileIdentity: string,
    workspaceAssets: Option<string>,
    base: Product,
    retro: Product,
    dol: Option<Artifact>,
    rel: Option<Artifact>,
    hasFst: bool,
    workspaceDol: Option<Artifact>,
    workspaceRel: Option<Artifact>,
    payloadCache: Option<Artifact>,
    configuredRoot: Option<Path>)
  {
    predicate HasRetroProduct() { retro.executable.Some? }

    predicate IsPresent() {
      state.Some? || base.executable.Some? || retro.executable.Some?
    }

    function ResolveToolkitFingerprint(): string {
      if toolkitState.Some? && toolkitState.value.schema == 2 && toolkitState.value.toolkit != ""
         && toolkitState.value.package != "" && hasToolkit
      then toolkitState.value.toolkit
      else ""
    }

    predicate HasUsableToolkit(toolkit: string) {
      hasToolkit && !Blank(toolkit)
    }

    function ReadCurrentInstallState(): Option<InstallState> {
      if state.Some? && state.value.schema == 1 && state.value.installDir == Some(root) then state else None
    }

    predicate ProvenanceIsValid(product: Product, profile: string, fingerprint: Fingerprint, installed: InstallState) {
      && fingerprint.profile == profile
      && !Blank(fingerprint.dol) && !Blank(fingerprint.rel) && !Blank(fingerprint.executable)
      && IsUsable(product.executable)
      && Same(product.executable.value.sha, fingerprint.executable)
      && dol.Some? && rel.Some? && hasFst
      && Same(dol.value.sha, fingerprint.dol) && Same(rel.value.sha, fingerprint.rel)
      && Same(dol.value.sha, installed.dol) && Same(rel.value.sha, installed.rel)
      && product.local.Some? && product.local.value.schema == 1
      && product.local.value.profile == profile
      && Same(product.local.value.dol, fingerprint.dol) && Same(product.local.value.rel, fingerprint.rel)
      && (profile == RETRO_PROFILE ==> PayloadProvenanceIsValid(product.local.value, fingerprint))
    }

    /** Everything about the base product except its copied runtime assets. */
    function CheckBaseCore(toolkit: string): Status {
      if !IsUsable(base.executable) then Broken
      else if !HasUsableToolkit(toolkit) then Blocked
      else if ReadCurrentInstallState().None? then Blocked
      else if ReadFingerprint(base).None? then Blocked
      else if ReadFingerprint(base).value.toolkit != toolkit then ToolkitChanged
      else if ProvenanceIsValid(base, BASE_PROFILE, ReadFingerprint(base).value, ReadCurrentInstallState().value) then Current
      else Blocked
    }

    function CheckBase(toolkit: string): Status {
      var status := CheckBaseCore(toolkit);
      if status.Current? && !RuntimeAssetsAreValid(base, toolkit) then Broken else status
    }

    /** `cacheMatches` is what the operation already knows about the payload cache. */
    function CheckPayloadCache(fingerprint: Fingerprint, installed: InstallState, cacheMatches: Option<bool>): Status {
      if Blank(fingerprint.payloadSha) || fingerprint.payloadLength <= 0
         || Blank(installed.payloadSha) || installed.payloadLength <= 0 then Blocked
      else if cacheMatches == Some(false) then PayloadChanged
      else if cacheMatches == Some(true) then Current
      else if payloadCache.None? then PayloadChanged
      else if !Same(payloadCache.value.sha, fingerprint.payloadSha) || payloadCache.value.length != fingerprint.payloadLength
      then PayloadChanged
      else Current
    }

    predicate InputProvenanceIsValid(fingerprint: Fingerprint, installed: InstallState) {
      && !Blank(fingerprint.codePul) && !Blank(fingerprint.compileInputs)
      && !Blank(installed.codePul) && !Blank(installed.compileInputs)
      && Same(installed.codePul, fingerprint.codePul) && Same(installed.compileInputs, fingerprint.compileInputs)
    }

    /** The caller's own copy of the canonical inputs is readable here, so `InputsMissing` is not
        among the answers. */
    function CheckRetroCore(toolkit: string, canonical: Option<CompileInputs>, cacheMatches: Option<bool>): Status {
      var current := ReadCurrentInstallState();
      var recorded := current.Some? && current.value.retroInstalled;
      if (HasRetroProduct() || recorded) && !HasUsableToolkit(toolkit) then Blocked
      else if !HasRetroProduct() then (if recorded then Broken else Absent)
      else if ReadFingerprint(retro).None? then Blocked
      else
        var fingerprint := ReadFingerprint(retro).value;
        if fingerprint.toolkit != toolkit then ToolkitChanged
        else if current.None? then Blocked
        else if !ProvenanceIsValid(retro, RETRO_PROFILE, fingerprint, current.value) then Blocked
        else if !InputProvenanceIsValid(fingerprint, current.value) then Blocked
        else if canonical.Some? && !Same(canonical.value.codePul, fingerprint.codePul) then CodePulChanged
        else if canonical.Some? && !Same(canonical.value.compileInputs, fingerprint.compileInputs) then CompileInputsChanged
        else if fingerprint.payloadMode == DOWNLOADED then CheckPayloadCache(fingerprint, current.value, cacheMatches)
        else Current
    }

    function CheckRetro(toolkit: string, canonical: Option<CompileInputs>, cacheMatches: Option<bool>): Status {
      var status := CheckRetroCore(toolkit, canonical, cacheMatches);
      if status.Current? && !RuntimeAssetsAreValid(retro, toolkit) then Broken else status
    }

    predicate RuntimeAssetsAreValid(product: Product, toolkit: string) {
      && toolkitState.Some? && toolkitState.value.schema == 2
      && toolkitState.value.toolkit == toolkit
      && !Blank(toolkitState.value.runtimeAssets)
      && product.assets == Some(toolkitState.value.runtimeAssets)
    }

    predicate ProductUsesGameInputs(product: Product, expectedDol: string, expectedRel: string) {
      && ReadFingerprint(product).Some?
      && Same(ReadFingerprint(product).value.dol, expectedDol)
      && Same(ReadFingerprint(product).value.rel, expectedRel)
    }

    function ResolvePayloadMode(): PayloadMode {
      var built := if ReadFingerprint(retro).Some? then ReadFingerprint(retro).value.payloadMode else "";
      var recorded := if built == "" then (if state.Some? then state.value.payloadMode else "") else built;
      if recorded == DOWNLOADED then Online else if recorded == SKIPPED then Skipped else NotApplicable
    }

    predicate ProductMatchesPayload(snapshot: PayloadSnapshot) {
      && ReadFingerprint(retro).Some? && ReadFingerprint(retro).value.payloadMode == DOWNLOADED
      && ReadCurrentInstallState().Some? && ReadCurrentInstallState().value.payloadMode == DOWNLOADED
      && ReadFingerprint(retro).value.payloadSha == snapshot.sha
      && ReadCurrentInstallState().value.payloadSha == snapshot.sha
    }

    predicate CacheMatchesPayload(snapshot: PayloadSnapshot) {
      payloadCache == Some(Artifact(snapshot.length, snapshot.sha))
    }

    predicate RecordedRootMatches(canonical: Path) {
      configuredRoot == Some(canonical) && state.Some? && state.value.retroRoot == Some(canonical)
    }
  }

  predicate IsUsable(executable: Option<Artifact>) {
    executable.Some? && executable.value.length >= MINIMUM_EXECUTABLE
  }

  function ReadFingerprint(product: Product): Option<Fingerprint> {
    if product.fingerprint.Some? && product.fingerprint.value.schema == 1 then product.fingerprint else None
  }

  predicate PayloadProvenanceIsValid(local: LocalBuild, fingerprint: Fingerprint) {
    && local.payloadMode == Some(fingerprint.payloadMode)
    && Same(SomeOr(local.payloadSha, ""), fingerprint.payloadSha)
    && SomeOr(local.payloadLength, 0) == fingerprint.payloadLength
  }

  predicate ActionRequired(status: Status) {
    !status.Current? && !status.Absent?
  }

  /** The statuses that only a new build can resolve. */
  predicate RequiresCompilation(status: Status) {
    status.ToolkitChanged? || status.CodePulChanged? || status.CompileInputsChanged?
    || status.InputsMissing? || status.Blocked? || status.Broken?
  }
}
