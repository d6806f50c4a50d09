/** An installation as it is read off the disk, and what a publishing transaction does to the reading. */
module ProductDisks {
  import opened Paths
  import opened FileTrees
  import opened Wrappers
  import opened Installations
  import opened ProductRepair
  import opened ProductPlans
  import opened Transactions

  // ---- Reading ----

  /** What a reconciliation never writes. */
  datatype Ground = Ground(
    toolkitState: Option<ToolkitState>, hasToolkit: bool, compileIdentity: string, workspaceAssets: Option<string>,
    dol: Option<Artifact>, rel: Option<Artifact>, hasFst: bool)

  /** How the program reads hashes, JSON documents and the configuration. `withRoot` is the
      configuration after `SetRetroRewindRoot`. */
  datatype Reader = Reader(
    ground: seq<Tree> -> Ground,
    file: Tree -> Option<Artifact>,
    fingerprint: Tree -> Option<Fingerprint>,
    local: Tree -> Option<LocalBuild>,
    assets: seq<Tree> -> Option<string>,
    state: Tree -> Option<InstallState>,
    payload: Tree -> Option<Artifact>,
    root: Option<Contents> -> Option<Path>,
    withRoot: (Option<Contents>, Path) -> Contents)
  {
    /** The recorded folder reads back, as `ConfigFiles.PathReadsBack` shows of the text. */
    ghost predicate IsSound() {
      forall config: Option<Contents>, folder: Path :: root(Some(withRoot(config, folder))) == Some(folder)
    }
  }

  const BASE_EXECUTABLE: Component := "WIICOMPILED.EXE"
  const RETRO_EXECUTABLE: Component := "RETROREWIND.EXE"
  const FINGERPRINT: Component := "BUILD-FINGERPRINT.JSON"
  const LOCAL_BUILD: Component := "LOCAL-BUILD.JSON"
  const CONFIG: Component := "CONFIG"

  const BASE: Path := ["BASE"]
  const RETRO: Path := ["RETROREWIND"]
  const STATE: Path := ["INSTALL-STATE.JSON"]
  const PAYLOAD: Path := ["BUILDWORKSPACE", "ASSETS", "OFFLINEPAYLOAD"]
  const WORKSPACE_DOL: Path := ["BUILDWORKSPACE", "ASSETS", "MAIN.DOL"]
  const WORKSPACE_REL: Path := ["BUILDWORKSPACE", "ASSETS", "STATICR.REL"]

  const BASE_OUTPUT: Path := ["BASE-OUTPUT"]
  const RETRO_OUTPUT: Path := ["RETRO-OUTPUT"]
  const BASE_REPAIR: Path := ["RUNTIME-ASSET-REPAIR", "BASE"]
  const RETRO_REPAIR: Path := ["RUNTIME-ASSET-REPAIR", "RETROREWIND"]

  const BUILD_SCRIPTS: seq<Path> := [["BUILDWORKSPACE", "LOCALBUILD.PS1"], ["BUILDWORKSPACE", "NATIVEBUILDFLAGS.PS1"]]

  const BUILD_SOURCES: seq<Path> := [
    ["BUILDWORKSPACE", "PROJECTS"], ["BUILDWORKSPACE", "RUNTIME"], ["BUILDWORKSPACE", "AURORA-MAIN"],
    ["BUILDWORKSPACE", "DEPENDENCIES"]]

  /** The toolkit, its record, the game data, and the scripts and sources that are built from. */
  const GROUND: seq<Path> := [["TOOLKIT"], ["TOOLKIT-STATE.JSON"], ["GAMEASSETS"]] + BUILD_SCRIPTS + BUILD_SOURCES

  function TreesAt(files: Files, base: Path, places: seq<Relative>): seq<Tree> {
    seq(|places|, i requires 0 <= i < |places| => TreeAt(files, base + places[i]))
  }

  function AssetsAt(files: Files, p: Path): seq<Tree> {
    [TreeAt(files, p + [AssetName(Bootstrap)]), TreeAt(files, p + [AssetName(DspCoefficients)]),
     TreeAt(files, p + [AssetName(PipelineCache)])]
  }

  function ReadProduct(reader: Reader, files: Files, p: Path, executable: Component): Product {
    Product(reader.file(TreeAt(files, p + [executable])), reader.fingerprint(TreeAt(files, p + [FINGERPRINT])),
            reader.local(TreeAt(files, p + [LOCAL_BUILD])), reader.assets(AssetsAt(files, p)),
            DirectoryOf(TreeAt(files, p + [CONFIG])))
  }

  /** A directory with what is in it. Nothing else counts as settings. */
  function DirectoryOf(t: Tree): Tree {
    if [] in t && t[[]] == Directory then t else map[]
  }

  function ReadInstallation(reader: Reader, root: Path, files: Files, config: Option<Contents>): Installation {
    var ground := reader.ground(TreesAt(files, root, GROUND));
    Installation(
      root, reader.state(TreeAt(files, root + STATE)),
      ground.toolkitState, ground.hasToolkit, ground.compileIdentity, ground.workspaceAssets,
      ReadProduct(reader, files, root + BASE, BASE_EXECUTABLE), ReadProduct(reader, files, root + RETRO, RETRO_EXECUTABLE),
      ground.dol, ground.rel, ground.hasFst,
      reader.file(TreeAt(files, root + WORKSPACE_DOL)), reader.file(TreeAt(files, root + WORKSPACE_REL)),
      reader.payload(TreeAt(files, root + PAYLOAD)), reader.root(config))
  }

  // ---- One operation ----

  /** The names an operation draws: its transaction, and its scratch directory in or beside the
      installation. */
  datatype Operation = Operation(transaction: Token, container: Path, scratch: Token)
  {
    function Scratch(site: Site): Path { ScratchRoot(container, site.scope, scratch) }

    predicate IsFor(site: Site) {
      && !IsVolumeRoot(site.root) && transaction != ""
      && (container == site.root || container == Parent(site.root))
      && Scratch(site) != site.root && WorkRoot(site, transaction) != site.root
    }
  }

  /** What an operation publishes, and from where. */
  datatype Publication = Publication(
    inputs: Inputs, plan: Decision, payload: Option<PayloadSnapshot>, outputs: Outputs, targets: seq<Target>,
    recovered: bool)

  ghost predicate Publishing(before: Before, op: Operation, p: Publication) {
    && op.IsFor(before.site) && before.id == op.transaction && before.Valid()
    && before.requests == RequestsFor(before.site.root, op.Scratch(before.site), p.recovered, p.targets)
    && Lists(p.plan, p.inputs, p.targets, 11) && IsCoherent(p.plan, p.inputs)
  }

  lemma PlaceIsApart(site: Site, op: Operation, place: Path)
    requires op.IsFor(site) && place[0][0] != '.'
    ensures Disjoint(op.Scratch(site), site.root + place) && Disjoint(WorkRoot(site, op.transaction), site.root + place)
  {
    ScratchIsApart(site.root, op.container, site.scope, op.scratch, place);
    var work, there, n := WorkRoot(site, op.transaction), site.root + place, |site.root| - 1;
    assert site.root == Parent(site.root) + [site.root[n]] && work == Parent(site.root) + [work[n]];
    assert there[n] == site.root[n] && work[n] != site.root[n];
  }

  lemma KeptTree(before: Before, files: Files, p: Path)
    requires before.Valid() && Framed(before, files) && Disjoint(p, before.Work())
    requires forall i | 0 <= i < |before.requests| ::
               Disjoint(p, before.requests[i].prepared) && Disjoint(p, before.requests[i].destination)
    ensures TreeAt(files, p) == TreeAt(before.files, p)
  {
    hide Before.Valid, TreeAt, WellFormed;
    forall r: Relative
      ensures SameOutside(before, files, p + r) && !IsParent(before, p + r)
    {
      KeptNode(before, p, r);
      assert Outside(before, p + r);
    }
    TreeAtExtensional(files, p, before.files, p);
  }

  lemma KeptNode(before: Before, p: Path, r: Relative)
    requires !IsVolumeRoot(before.site.root) && Disjoint(p, before.Work())
    requires forall i | 0 <= i < |before.requests| ::
               Disjoint(p, before.requests[i].prepared) && Disjoint(p, before.requests[i].destination)
    ensures Outside(before, p + r) && !IsParent(before, p + r)
  {
    assert p <= p + r;
    PrefixesCompare(p, before.Work(), p + r);
    forall i | 0 <= i < |before.requests|
      ensures !(before.requests[i].prepared <= p + r) && !(before.requests[i].destination <= p + r)
      ensures !(p + r < before.requests[i].destination)
    {
      PrefixesCompare(p, before.requests[i].prepared, p + r);
      PrefixesCompare(p, before.requests[i].destination, p + r);
    }
  }

  /** Nothing of this publication lands at or around the place. */
  ghost predicate Misses(place: Path, p: Publication) {
    place[0][0] != '.' && forall t: Target | Publishes(p.plan, p.inputs, t) :: Disjoint(place, Place(t))
  }

  lemma PlaceKept(before: Before, files: Files, op: Operation, p: Publication, place: Path)
    requires Publishing(before, op, p) && Framed(before, files) && Misses(place, p)
    ensures TreeAt(files, before.site.root + place) == TreeAt(before.files, before.site.root + place)
  {
    hide Before.Valid, Framed, TreeAt, Publishes;
    var there := before.site.root + place;
    PlaceIsApart(before.site, op, place);
    forall i | 0 <= i < |before.requests|
      ensures Disjoint(there, before.requests[i].prepared) && Disjoint(there, before.requests[i].destination)
    {
      assert p.targets[i] in p.targets;
      DisjointSuffixes(before.site.root, place, Place(p.targets[i]));
      DisjointBelow(there, op.Scratch(before.site), before.requests[i].prepared);
    }
    KeptTree(before, files, there);
  }

  lemma TargetIsNew(before: Before, files: Files, op: Operation, p: Publication, t: Target)
    requires Publishing(before, op, p) && AllNew(before, files) && Publishes(p.plan, p.inputs, t)
    ensures TreeAt(files, before.site.root + Place(t)) == TreeAt(before.files, op.Scratch(before.site) + Staged(t, p.recovered))
  {
    hide Before.Valid, TreeAt, Publishes;
    assert t in p.targets by { assert Rank(t) < 11; }
    var i :| 0 <= i < |p.targets| && p.targets[i] == t;
    assert before.requests[i] == RequestFor(before.site.root, op.Scratch(before.site), p.recovered, t);
  }

  // ---- Where nothing lands ----

  /** A place that no target of any plan overlaps, told by the lengths of its first components. */
  predicate IsElsewhere(place: Path) {
    && place[0][0] != '.' && place[0][0] != 'I' && |place[0]| != 4 && |place[0]| != 11
    && (|place[0]| == 14 ==> |place| >= 2 && (|place[1]| == 6 ==> |place| >= 3 && |place[2]| != 14))
  }

  lemma ElsewhereMisses(place: Path, p: Publication)
    requires IsElsewhere(place)
    ensures Misses(place, p)
  {
    forall t: Target
      ensures Disjoint(place, Place(t))
    {
      match t
      case BaseProduct => ApartAt(place, Place(t), 0);
      case RetroProduct => ApartAt(place, Place(t), 0);
      case BaseAsset(_) => ApartAt(place, Place(t), 0);
      case RetroAsset(_) => ApartAt(place, Place(t), 0);
      case PayloadCache => ElsewherePayload(place);
      case RemovedPayload => ElsewherePayload(place);
      case StateDocument =>
        assert Place(t)[0][0] == 'I';
    }
  }

  lemma ElsewherePayload(place: Path)
    requires IsElsewhere(place)
    ensures Disjoint(place, PAYLOAD)
  {
    if |place[0]| != 14 {
      ApartAt(place, PAYLOAD, 0);
    } else if |place[1]| != 6 {
      ApartAt(place, PAYLOAD, 1);
    } else {
      ApartAt(place, PAYLOAD, 2);
    }
  }

  lemma GroundIsElsewhere(i: nat)
    requires i < |GROUND|
    ensures IsElsewhere(GROUND[i])
  {
    assert i == 0 || i == 1 || i == 2 || i == 3 || i == 4 || i == 5 || i == 6 || i == 7 || i == 8;
  }

  lemma GroundKept(before: Before, files: Files, op: Operation, p: Publication)
    requires Publishing(before, op, p) && Framed(before, files)
    ensures TreesAt(files, before.site.root, GROUND) == TreesAt(before.files, before.site.root, GROUND)
    ensures TreeAt(files, before.site.root + WORKSPACE_DOL) == TreeAt(before.files, before.site.root + WORKSPACE_DOL)
    ensures TreeAt(files, before.site.root + WORKSPACE_REL) == TreeAt(before.files, before.site.root + WORKSPACE_REL)
  {
    hide Publishing, Framed, TreeAt, IsElsewhere, Misses;
    forall i | 0 <= i < |GROUND|
      ensures TreeAt(files, before.site.root + GROUND[i]) == TreeAt(before.files, before.site.root + GROUND[i])
    {
      GroundIsElsewhere(i);
      ElsewhereMisses(GROUND[i], p);
      PlaceKept(before, files, op, p, GROUND[i]);
    }
    WorkspaceIsElsewhere();
    ElsewhereMisses(WORKSPACE_DOL, p);
    ElsewhereMisses(WORKSPACE_REL, p);
    PlaceKept(before, files, op, p, WORKSPACE_DOL);
    PlaceKept(before, files, op, p, WORKSPACE_REL);
  }

  lemma WorkspaceIsElsewhere()
    ensures IsElsewhere(WORKSPACE_DOL) && IsElsewhere(WORKSPACE_REL)
  {
  }

  // ---- Products ----

  lemma ProductMoved(reader: Reader, files: Files, p: Path, files': Files, p': Path, executable: Component)
    requires TreeAt(files, p) == TreeAt(files', p')
    ensures ReadProduct(reader, files, p, executable) == ReadProduct(reader, files', p', executable)
  {
    hide TreeAt;
    SubTree(files, p, files', p', [executable]);
    SubTree(files, p, files', p', [FINGERPRINT]);
    SubTree(files, p, files', p', [LOCAL_BUILD]);
    SubTree(files, p, files', p', [CONFIG]);
    SubTree(files, p, files', p', [AssetName(Bootstrap)]);
    SubTree(files, p, files', p', [AssetName(DspCoefficients)]);
    SubTree(files, p, files', p', [AssetName(PipelineCache)]);
  }

  /** A file of a product that is neither built nor among the copied assets. */
  predicate IsOwnFile(name: Component) {
    |name| != 13 && |name| != 12 && |name| != 25
  }

  lemma OwnFilesMiss(name: Component, p: Publication)
    requires IsOwnFile(name)
    ensures !p.plan.rebuildBase ==> Misses(BASE + [name], p)
    ensures !p.plan.rebuildRetro ==> Misses(RETRO + [name], p)
  {
    forall t: Target
      ensures t.BaseProduct? || Disjoint(BASE + [name], Place(t))
      ensures t.RetroProduct? || Disjoint(RETRO + [name], Place(t))
    {
      OwnFileIsApart(name, t);
    }
  }

  lemma OwnFileIsApart(name: Component, t: Target)
    requires IsOwnFile(name)
    ensures t.BaseProduct? || Disjoint(BASE + [name], Place(t))
    ensures t.RetroProduct? || Disjoint(RETRO + [name], Place(t))
  {
    if !t.BaseProduct? {
      if t.BaseAsset? { ApartAt(BASE + [name], Place(t), 1); } else { ApartAt(BASE + [name], Place(t), 0); }
    }
    if !t.RetroProduct? {
      if t.RetroAsset? { ApartAt(RETRO + [name], Place(t), 1); } else { ApartAt(RETRO + [name], Place(t), 0); }
    }
  }

  lemma AssetsMiss(asset: Asset, p: Publication)
    ensures !p.plan.rebuildBase && !p.plan.syncBaseAssets ==> Misses(BASE + [AssetName(asset)], p)
    ensures !p.plan.rebuildRetro && !p.plan.syncRetroAssets ==> Misses(RETRO + [AssetName(asset)], p)
  {
    forall t: Target
      ensures t.BaseProduct? || t.BaseAsset? || Disjoint(BASE + [AssetName(asset)], Place(t))
      ensures t.RetroProduct? || t.RetroAsset? || Disjoint(RETRO + [AssetName(asset)], Place(t))
    {
      if !t.BaseProduct? && !t.BaseAsset? { ApartAt(BASE + [AssetName(asset)], Place(t), 0); }
      if !t.RetroProduct? && !t.RetroAsset? { ApartAt(RETRO + [AssetName(asset)], Place(t), 0); }
    }
  }

  lemma OwnFilesKept(before: Before, files: Files, op: Operation, p: Publication, name: Component)
    requires Publishing(before, op, p) && Framed(before, files) && IsOwnFile(name)
    ensures !p.plan.rebuildBase ==>
              TreeAt(files, before.site.root + BASE + [name]) == TreeAt(before.files, before.site.root + BASE + [name])
    ensures !p.plan.rebuildRetro ==>
              TreeAt(files, before.site.root + RETRO + [name]) == TreeAt(before.files, before.site.root + RETRO + [name])
  {
    hide Publishing, Framed, TreeAt, Misses, IsOwnFile;
    OwnFilesMiss(name, p);
    var root := before.site.root;
    assert root + (BASE + [name]) == root + BASE + [name] && root + (RETRO + [name]) == root + RETRO + [name];
    if !p.plan.rebuildBase { PlaceKept(before, files, op, p, BASE + [name]); }
    if !p.plan.rebuildRetro { PlaceKept(before, files, op, p, RETRO + [name]); }
  }

  lemma BaseAssetRead(before: Before, files: Files, op: Operation, p: Publication, asset: Asset)
    requires Publishing(before, op, p) && Framed(before, files) && AllNew(before, files) && !p.plan.rebuildBase
    ensures TreeAt(files, before.site.root + BASE + [AssetName(asset)])
            == if p.plan.syncBaseAssets
               then TreeAt(before.files, op.Scratch(before.site) + BASE_REPAIR + [AssetName(asset)])
               else TreeAt(before.files, before.site.root + BASE + [AssetName(asset)])
  {
    hide Publishing, Framed, AllNew, TreeAt, Misses;
    var root, scratch := before.site.root, op.Scratch(before.site);
    assert root + Place(BaseAsset(asset)) == root + BASE + [AssetName(asset)];
    if p.plan.syncBaseAssets {
      assert scratch + Staged(BaseAsset(asset), p.recovered) == scratch + BASE_REPAIR + [AssetName(asset)];
      TargetIsNew(before, files, op, p, BaseAsset(asset));
    } else {
      AssetsMiss(asset, p);
      assert root + (BASE + [AssetName(asset)]) == root + BASE + [AssetName(asset)];
      PlaceKept(before, files, op, p, BASE + [AssetName(asset)]);
    }
  }

  lemma RetroAssetRead(before: Before, files: Files, op: Operation, p: Publication, asset: Asset)
    requires Publishing(before, op, p) && Framed(before, files) && AllNew(before, files) && !p.plan.rebuildRetro
    ensures TreeAt(files, before.site.root + RETRO + [AssetName(asset)])
            == if p.plan.syncRetroAssets
               then TreeAt(before.files, op.Scratch(before.site) + RETRO_REPAIR + [AssetName(asset)])
               else TreeAt(before.files, before.site.root + RETRO + [AssetName(asset)])
  {
    hide Publishing, Framed, AllNew, TreeAt, Misses;
    var root, scratch := before.site.root, op.Scratch(before.site);
    assert root + Place(RetroAsset(asset)) == root + RETRO + [AssetName(asset)];
    if p.plan.syncRetroAssets {
      assert scratch + Staged(RetroAsset(asset), p.recovered)
          == scratch + RETRO_REPAIR + [AssetName(asset)];
      TargetIsNew(before, files, op, p, RetroAsset(asset));
    } else {
      AssetsMiss(asset, p);
      assert root + (RETRO + [AssetName(asset)]) == root + RETRO + [AssetName(asset)];
      PlaceKept(before, files, op, p, RETRO + [AssetName(asset)]);
    }
  }

  // ---- What is staged ----

  /** Everything the plan publishes has been prepared in scratch space as it should be: the products
      that were built, verified copies of the runtime assets, the payload, and the new document. */
  predicate IsStaged(reader: Reader, files: Files, scratch: Path, p: Publication, assets: string, state: InstallState) {
    && (p.outputs.base.Some? <==> p.plan.rebuildBase) && (p.outputs.retro.Some? <==> p.plan.rebuildRetro)
    && (p.plan.rebuildBase ==> ReadProduct(reader, files, scratch + BASE_OUTPUT, BASE_EXECUTABLE) == p.outputs.base.value)
    && (p.plan.rebuildRetro ==> ReadProduct(reader, files, scratch + RETRO_OUTPUT, RETRO_EXECUTABLE) == p.outputs.retro.value)
    && (p.plan.syncBaseAssets ==>
          reader.assets(AssetsAt(files, scratch + BASE_REPAIR)) == Some(assets))
    && (p.plan.syncRetroAssets ==>
          reader.assets(AssetsAt(files, scratch + RETRO_REPAIR)) == Some(assets))
    && (p.plan.syncPayload ==>
          p.payload.Some?
          && reader.payload(TreeAt(files, scratch + Staged(PayloadCache, p.recovered)))
             == Some(Artifact(p.payload.value.length, p.payload.value.sha)))
    && (p.plan.rebuildRetro && p.inputs.mode.Skipped? ==>
          reader.payload(TreeAt(files, scratch + Staged(RemovedPayload, p.recovered))) == None)
    && (Publishes(p.plan, p.inputs, StateDocument) ==>
          reader.state(TreeAt(files, scratch + Staged(StateDocument, p.recovered))) == Some(state))
  }

  /** What is read of a product's settings: all of its `config` directory, if it is one. */
  lemma SettingsMeaning(reader: Reader, files: Files, p: Path, executable: Component)
    ensures Exists(files, p + ["CONFIG"], DirectoryKind) ==>
              ReadProduct(reader, files, p, executable).settings == TreeAt(files, p + ["CONFIG"])
    ensures !Exists(files, p + ["CONFIG"], DirectoryKind) ==> ReadProduct(reader, files, p, executable).settings == map[]
  {
    TreeAtMembers(files, p + ["CONFIG"], []);
    assert p + ["CONFIG"] + [] == p + ["CONFIG"];
  }

  /** Staging is complete exactly when each thing the plan publishes is in its place below the scratch
      directory and reads as it is meant to. */
  lemma StagingMeaning(reader: Reader, files: Files, scratch: Path, p: Publication, assets: string, state: InstallState)
    ensures IsStaged(reader, files, scratch, p, assets, state) <==>
              && (p.outputs.base == if p.plan.rebuildBase
                                    then Some(ReadProduct(reader, files, scratch + ["BASE-OUTPUT"], BASE_EXECUTABLE)) else None)
              && (p.outputs.retro == if p.plan.rebuildRetro
                                     then Some(ReadProduct(reader, files, scratch + ["RETRO-OUTPUT"], RETRO_EXECUTABLE)) else None)
              && forall t: Target | Publishes(p.plan, p.inputs, t) :: StagedAsMeant(reader, files, scratch, p, t, assets, state)
  {
    hide TreeAt, ReadProduct, AssetsAt;
    if p.plan.syncBaseAssets { assert Publishes(p.plan, p.inputs, BaseAsset(Bootstrap)); }
    if p.plan.syncRetroAssets { assert Publishes(p.plan, p.inputs, RetroAsset(Bootstrap)); }
    if p.plan.syncPayload { assert Publishes(p.plan, p.inputs, PayloadCache); }
    if p.plan.rebuildRetro && p.inputs.mode.Skipped? { assert Publishes(p.plan, p.inputs, RemovedPayload); }
    if Publishes(p.plan, p.inputs, StateDocument) {
      assert StagedAsMeant(reader, files, scratch, p, StateDocument, assets, state)
          <==> reader.state(TreeAt(files, scratch + Staged(StateDocument, p.recovered))) == Some(state);
    }
  }

  ghost predicate StagedAsMeant(reader: Reader, files: Files, scratch: Path, p: Publication, t: Target, assets: string,
                                state: InstallState)
  {
    match t
    case BaseProduct | RetroProduct => true
    case BaseAsset(_) => reader.assets(AssetsAt(files, scratch + BASE_REPAIR)) == Some(assets)
    case RetroAsset(_) => reader.assets(AssetsAt(files, scratch + RETRO_REPAIR)) == Some(assets)
    case PayloadCache =>
      && p.payload.Some?
      && reader.payload(TreeAt(files, scratch + Staged(t, p.recovered))) == Some(Artifact(p.payload.value.length, p.payload.value.sha))
    case RemovedPayload => reader.payload(TreeAt(files, scratch + Staged(t, p.recovered))).None?
    case StateDocument => reader.state(TreeAt(files, scratch + Staged(t, p.recovered))) == Some(state)
  }

  lemma BaseRead(reader: Reader, before: Before, files: Files, op: Operation, p: Publication, assets: string, state: InstallState)
    requires Publishing(before, op, p) && Framed(before, files) && AllNew(before, files)
    requires IsStaged(reader, before.files, op.Scratch(before.site), p, assets, state)
    ensures ReadProduct(reader, files, before.site.root + BASE, BASE_EXECUTABLE)
            == WithAssets(SomeOr(p.outputs.base, ReadProduct(reader, before.files, before.site.root + BASE, BASE_EXECUTABLE)),
                          p.plan.syncBaseAssets, assets)
  {
    hide Framed, AllNew, TreeAt;
    var root, scratch := before.site.root, op.Scratch(before.site);
    if p.plan.rebuildBase {
      TargetIsNew(before, files, op, p, BaseProduct);
      ProductMoved(reader, files, root + BASE, before.files, scratch + BASE_OUTPUT, BASE_EXECUTABLE);
    } else {
      BaseAssetRead(before, files, op, p, Bootstrap);
      BaseAssetRead(before, files, op, p, DspCoefficients);
      BaseAssetRead(before, files, op, p, PipelineCache);
      OwnFilesKept(before, files, op, p, BASE_EXECUTABLE);
      OwnFilesKept(before, files, op, p, FINGERPRINT);
      OwnFilesKept(before, files, op, p, LOCAL_BUILD);
      OwnFilesKept(before, files, op, p, CONFIG);
    }
  }

  lemma RetroRead(reader: Reader, before: Before, files: Files, op: Operation, p: Publication, assets: string, state: InstallState)
    requires Publishing(before, op, p) && Framed(before, files) && AllNew(before, files)
    requires IsStaged(reader, before.files, op.Scratch(before.site), p, assets, state)
    ensures ReadProduct(reader, files, before.site.root + RETRO, RETRO_EXECUTABLE)
            == WithAssets(SomeOr(p.outputs.retro, ReadProduct(reader, before.files, before.site.root + RETRO, RETRO_EXECUTABLE)),
                          p.plan.syncRetroAssets, assets)
  {
    hide Framed, AllNew, TreeAt;
    var root, scratch := before.site.root, op.Scratch(before.site);
    if p.plan.rebuildRetro {
      TargetIsNew(before, files, op, p, RetroProduct);
      ProductMoved(reader, files, root + RETRO, before.files, scratch + RETRO_OUTPUT, RETRO_EXECUTABLE);
    } else {
      RetroAssetRead(before, files, op, p, Bootstrap);
      RetroAssetRead(before, files, op, p, DspCoefficients);
      RetroAssetRead(before, files, op, p, PipelineCache);
      OwnFilesKept(before, files, op, p, RETRO_EXECUTABLE);
      OwnFilesKept(before, files, op, p, FINGERPRINT);
      OwnFilesKept(before, files, op, p, LOCAL_BUILD);
      OwnFilesKept(before, files, op, p, CONFIG);
    }
  }

  lemma DocumentsMiss(p: Publication)
    ensures !Publishes(p.plan, p.inputs, StateDocument) ==> Misses(STATE, p)
    ensures !Publishes(p.plan, p.inputs, PayloadCache) && !Publishes(p.plan, p.inputs, RemovedPayload) ==> Misses(PAYLOAD, p)
  {
    forall t: Target
      ensures t.StateDocument? || Disjoint(STATE, Place(t))
      ensures t.PayloadCache? || t.RemovedPayload? || Disjoint(PAYLOAD, Place(t))
    {
      if !t.StateDocument? { ApartAt(STATE, Place(t), 0); }
      if !t.PayloadCache? && !t.RemovedPayload? { ApartAt(PAYLOAD, Place(t), 0); }
    }
  }

  lemma DocumentsRead(reader: Reader, before: Before, files: Files, op: Operation, p: Publication, assets: string, state: InstallState)
    requires Publishing(before, op, p) && Framed(before, files) && AllNew(before, files)
    requires IsStaged(reader, before.files, op.Scratch(before.site), p, assets, state)
    ensures reader.state(TreeAt(files, before.site.root + STATE))
            == if Publishes(p.plan, p.inputs, StateDocument) then Some(state)
               else reader.state(TreeAt(before.files, before.site.root + STATE))
    ensures reader.payload(TreeAt(files, before.site.root + PAYLOAD))
            == if p.plan.rebuildRetro && p.inputs.mode.Skipped? then None
               else if p.plan.syncPayload then Some(Artifact(p.payload.value.length, p.payload.value.sha))
               else reader.payload(TreeAt(before.files, before.site.root + PAYLOAD))
  {
    hide Framed, AllNew, TreeAt, Misses;
    DocumentsMiss(p);
    if Publishes(p.plan, p.inputs, StateDocument) {
      TargetIsNew(before, files, op, p, StateDocument);
    } else {
      PlaceKept(before, files, op, p, STATE);
    }
    if p.plan.rebuildRetro && p.inputs.mode.Skipped? {
      TargetIsNew(before, files, op, p, RemovedPayload);
    } else if p.plan.syncPayload {
      TargetIsNew(before, files, op, p, PayloadCache);
    } else {
      PlaceKept(before, files, op, p, PAYLOAD);
    }
  }

  /** What was read before the transaction. */
  ghost function Found(reader: Reader, before: Before): Installation {
    ReadInstallation(reader, before.site.root, before.files, before.config)
  }

  /** A publication: its entries, and its staging for the installation that it finds. */
  ghost predicate IsPublication(reader: Reader, before: Before, op: Operation, p: Publication) {
    var found := Found(reader, before);
    && Publishing(before, op, p) && found.toolkitState.Some? && CanPublish(found, p.plan, p.payload)
    && IsStaged(reader, before.files, op.Scratch(before.site), p, found.toolkitState.value.runtimeAssets,
                UpdatedState(found, p.inputs, p.payload, p.plan.rebuildRetro))
    && (p.inputs.snapshot.Some? ==> p.inputs.canonicalRoot.Some?)
    && (if p.inputs.snapshot.Some? then reader.root(before.intended) == p.inputs.canonicalRoot
        else before.intended == before.config)
  }

  /** When the new trees and the new configuration are in place, the installation reads, field by
      field, as the publication means it to. */
  lemma NewReading(reader: Reader, before: Before, files: Files, op: Operation, p: Publication)
    requires IsPublication(reader, before, op, p) && Framed(before, files) && AllNew(before, files)
    ensures ReadInstallation(reader, before.site.root, files, before.intended)
            == PublishedInstallation(Found(reader, before), p.inputs, p.plan, p.payload, p.outputs.base, p.outputs.retro)
  {
    hide Framed, AllNew, TreeAt, Before.Valid, ReadProduct, UpdatedState, WithAssets, CanPublish;
    var found := Found(reader, before);
    var assets := found.toolkitState.value.runtimeAssets;
    var state := UpdatedState(found, p.inputs, p.payload, p.plan.rebuildRetro);
    GroundKept(before, files, op, p);
    BaseRead(reader, before, files, op, p, assets, state);
    RetroRead(reader, before, files, op, p, assets, state);
    DocumentsRead(reader, before, files, op, p, assets, state);
  }

  // ---- When nothing was published ----

  lemma TargetIsOld(before: Before, files: Files, op: Operation, p: Publication, t: Target)
    requires Publishing(before, op, p) && AllOriginal(before, files) && Publishes(p.plan, p.inputs, t)
    ensures TreeAt(files, before.site.root + Place(t)) == TreeAt(before.files, before.site.root + Place(t))
  {
    hide Before.Valid, TreeAt, Publishes;
    assert t in p.targets by { assert Rank(t) < 11; }
    var i :| 0 <= i < |p.targets| && p.targets[i] == t;
    assert before.requests[i] == RequestFor(before.site.root, op.Scratch(before.site), p.recovered, t);
  }

  lemma OldAsset(before: Before, files: Files, op: Operation, p: Publication, asset: Asset)
    requires Publishing(before, op, p) && Framed(before, files) && AllOriginal(before, files)
    ensures !p.plan.rebuildBase ==>
              TreeAt(files, before.site.root + BASE + [AssetName(asset)])
              == TreeAt(before.files, before.site.root + BASE + [AssetName(asset)])
    ensures !p.plan.rebuildRetro ==>
              TreeAt(files, before.site.root + RETRO + [AssetName(asset)])
              == TreeAt(before.files, before.site.root + RETRO + [AssetName(asset)])
  {
    hide Publishing, Framed, AllOriginal, TreeAt, Misses;
    var root := before.site.root;
    AssetsMiss(asset, p);
    assert root + (BASE + [AssetName(asset)]) == root + BASE + [AssetName(asset)] == root + Place(BaseAsset(asset));
    assert root + (RETRO + [AssetName(asset)]) == root + RETRO + [AssetName(asset)] == root + Place(RetroAsset(asset));
    if p.plan.syncBaseAssets {
      TargetIsOld(before, files, op, p, BaseAsset(asset));
    } else if !p.plan.rebuildBase {
      PlaceKept(before, files, op, p, BASE + [AssetName(asset)]);
    }
    if p.plan.syncRetroAssets {
      TargetIsOld(before, files, op, p, RetroAsset(asset));
    } else if !p.plan.rebuildRetro {
      PlaceKept(before, files, op, p, RETRO + [AssetName(asset)]);
    }
  }

  lemma OldProducts(reader: Reader, before: Before, files: Files, op: Operation, p: Publication)
    requires Publishing(before, op, p) && Framed(before, files) && AllOriginal(before, files)
    ensures ReadProduct(reader, files, before.site.root + BASE, BASE_EXECUTABLE)
            == ReadProduct(reader, before.files, before.site.root + BASE, BASE_EXECUTABLE)
    ensures ReadProduct(reader, files, before.site.root + RETRO, RETRO_EXECUTABLE)
            == ReadProduct(reader, before.files, before.site.root + RETRO, RETRO_EXECUTABLE)
  {
    hide Publishing, Framed, AllOriginal, TreeAt;
    var root := before.site.root;
    if p.plan.rebuildBase {
      TargetIsOld(before, files, op, p, BaseProduct);
      ProductMoved(reader, files, root + BASE, before.files, root + BASE, BASE_EXECUTABLE);
    }
    if p.plan.rebuildRetro {
      TargetIsOld(before, files, op, p, RetroProduct);
      ProductMoved(reader, files, root + RETRO, before.files, root + RETRO, RETRO_EXECUTABLE);
    }
    OldAsset(before, files, op, p, Bootstrap);
    OldAsset(before, files, op, p, DspCoefficients);
    OldAsset(before, files, op, p, PipelineCache);
    OwnFilesKept(before, files, op, p, BASE_EXECUTABLE);
    OwnFilesKept(before, files, op, p, RETRO_EXECUTABLE);
    OwnFilesKept(before, files, op, p, FINGERPRINT);
    OwnFilesKept(before, files, op, p, LOCAL_BUILD);
    OwnFilesKept(before, files, op, p, CONFIG);
  }

  lemma OldDocuments(before: Before, files: Files, op: Operation, p: Publication)
    requires Publishing(before, op, p) && Framed(before, files) && AllOriginal(before, files)
    ensures TreeAt(files, before.site.root + STATE) == TreeAt(before.files, before.site.root + STATE)
    ensures TreeAt(files, before.site.root + PAYLOAD) == TreeAt(before.files, before.site.root + PAYLOAD)
  {
    hide Publishing, Framed, AllOriginal, TreeAt, Misses;
    DocumentsMiss(p);
    if Publishes(p.plan, p.inputs, StateDocument) {
      TargetIsOld(before, files, op, p, StateDocument);
    } else {
      PlaceKept(before, files, op, p, STATE);
    }
    if Publishes(p.plan, p.inputs, PayloadCache) {
      TargetIsOld(before, files, op, p, PayloadCache);
    } else if Publishes(p.plan, p.inputs, RemovedPayload) {
      TargetIsOld(before, files, op, p, RemovedPayload);
    } else {
      PlaceKept(before, files, op, p, PAYLOAD);
    }
  }

  /** When every original is back, the installation reads as it did before. */
  lemma OldReading(reader: Reader, before: Before, files: Files, op: Operation, p: Publication)
    requires Publishing(before, op, p) && Framed(before, files) && AllOriginal(before, files)
    ensures ReadInstallation(reader, before.site.root, files, before.config) == Found(reader, before)
  {
    hide Publishing, Framed, AllOriginal, TreeAt, ReadProduct;
    GroundKept(before, files, op, p);
    OldProducts(reader, before, files, op, p);
    OldDocuments(before, files, op, p);
  }

  // ---- Writes before the transaction ----

  ghost predicate IsReadPlace(place: Path) {
    || place == STATE || place == PAYLOAD || place in GROUND
    || (|place| == 2 && (place[0] == "BASE" || place[0] == "RETROREWIND"))
  }

  /** A write that misses everything that is read of the installation but the two workspace inputs. */
  lemma WriteKeepsReading(reader: Reader, root: Path, files: Files, files': Files, config: Option<Contents>)
    requires forall place: Path | IsReadPlace(place) :: TreeAt(files', root + place) == TreeAt(files, root + place)
    ensures var d, d' := ReadInstallation(reader, root, files, config), ReadInstallation(reader, root, files', config);
            OnlyWorkspaceChanged(d, d')
  {
    hide TreeAt;
    assert TreesAt(files', root, GROUND) == TreesAt(files, root, GROUND) by {
      forall i | 0 <= i < |GROUND|
        ensures TreeAt(files', root + GROUND[i]) == TreeAt(files, root + GROUND[i])
      {
        assert IsReadPlace(GROUND[i]);
      }
    }
    assert IsReadPlace(STATE) && IsReadPlace(PAYLOAD);
    ProductIsRead(reader, root, files, files', BASE, BASE_EXECUTABLE);
    ProductIsRead(reader, root, files, files', RETRO, RETRO_EXECUTABLE);
  }

  lemma ProductIsRead(reader: Reader, root: Path, files: Files, files': Files, product: Path, executable: Component)
    requires product == BASE || product == RETRO
    requires forall place: Path | IsReadPlace(place) :: TreeAt(files', root + place) == TreeAt(files, root + place)
    ensures ReadProduct(reader, files', root + product, executable) == ReadProduct(reader, files, root + product, executable)
  {
    hide TreeAt;
    forall name: Component
      ensures TreeAt(files', root + product + [name]) == TreeAt(files, root + product + [name])
    {
      assert root + (product + [name]) == root + product + [name];
      assert IsReadPlace(product + [name]);
    }
  }

  lemma ReadPlaceIsVisible(place: Path)
    requires IsReadPlace(place)
    ensures place[0][0] != '.' && Disjoint(place, WORKSPACE_DOL) && Disjoint(place, WORKSPACE_REL)
  {
    if place in GROUND {
      var i :| 0 <= i < |GROUND| && GROUND[i] == place;
      GroundIsOther(i);
    } else if place == PAYLOAD {
      ApartAt(place, WORKSPACE_DOL, 2);
      ApartAt(place, WORKSPACE_REL, 2);
    } else {
      ApartAt(place, WORKSPACE_DOL, 0);
      ApartAt(place, WORKSPACE_REL, 0);
    }
  }

  lemma GroundIsOther(i: nat)
    requires i < |GROUND|
    ensures GROUND[i][0][0] != '.' && Disjoint(GROUND[i], WORKSPACE_DOL) && Disjoint(GROUND[i], WORKSPACE_REL)
  {
    assert i == 0 || i == 1 || i == 2 || i == 3 || i == 4 || i == 5 || i == 6 || i == 7 || i == 8;
    var k := if i < 3 then 0 else 1;
    ApartAt(GROUND[i], WORKSPACE_DOL, k);
    ApartAt(GROUND[i], WORKSPACE_REL, k);
  }

  /** Writing into scratch space changes nothing that is read. */
  lemma ScratchWrite(reader: Reader, site: Site, op: Operation, files: Files, files': Files, config: Option<Contents>)
    requires op.IsFor(site) && OnlyBelow(files, files', op.Scratch(site))
    ensures ReadInstallation(reader, site.root, files', config) == ReadInstallation(reader, site.root, files, config)
    ensures TreeAt(files', WorkRoot(site, op.transaction)) == TreeAt(files, WorkRoot(site, op.transaction))
  {
    hide TreeAt, OnlyBelow, ReadProduct;
    forall place: Path | IsReadPlace(place) || place == WORKSPACE_DOL || place == WORKSPACE_REL
      ensures TreeAt(files', site.root + place) == TreeAt(files, site.root + place)
    {
      if IsReadPlace(place) { ReadPlaceIsVisible(place); }
      PlaceIsApart(site, op, place);
      OnlyBelowKeeps(files, files', op.Scratch(site), site.root + place);
    }
    WriteKeepsReading(reader, site.root, files, files', config);
    ScratchMissesWork(site, op);
    OnlyBelowKeeps(files, files', op.Scratch(site), WorkRoot(site, op.transaction));
  }

  lemma ScratchMissesWork(site: Site, op: Operation)
    requires op.IsFor(site)
    ensures Disjoint(op.Scratch(site), WorkRoot(site, op.transaction))
  {
    var work, scratch, n := WorkRoot(site, op.transaction), op.Scratch(site), |site.root| - 1;
    assert site.root == Parent(site.root) + [site.root[n]] && work == Parent(site.root) + [work[n]];
    if op.container == site.root {
      assert scratch[n] == site.root[n];
    } else {
      assert scratch[n][6] == 'S' && work[n][6] == 'T';
    }
  }

  /** Writing one of the workspace's two inputs changes that input alone. */
  lemma WorkspaceWrite(reader: Reader, site: Site, op: Operation, files: Files, files': Files, config: Option<Contents>,
                       place: Path)
    requires op.IsFor(site) && (place == WORKSPACE_DOL || place == WORKSPACE_REL)
    requires OnlyBelow(files, files', site.root + place)
    ensures var d, d' := ReadInstallation(reader, site.root, files, config), ReadInstallation(reader, site.root, files', config);
            && OnlyWorkspaceChanged(d, d')
            && (place == WORKSPACE_DOL ==> d' == d.(workspaceDol := d'.workspaceDol))
            && (place == WORKSPACE_REL ==> d' == d.(workspaceRel := d'.workspaceRel))
    ensures TreeAt(files', WorkRoot(site, op.transaction)) == TreeAt(files, WorkRoot(site, op.transaction))
  {
    hide TreeAt, OnlyBelow, ReadProduct, IsReadPlace, Operation.IsFor;
    ApartAt(WORKSPACE_DOL, WORKSPACE_REL, 2);
    forall other: Path | IsReadPlace(other) || (other != place && (other == WORKSPACE_DOL || other == WORKSPACE_REL))
      ensures TreeAt(files', site.root + other) == TreeAt(files, site.root + other)
    {
      if IsReadPlace(other) { ReadPlaceIsVisible(other); }
      DisjointSuffixes(site.root, place, other);
      OnlyBelowKeeps(files, files', site.root + place, site.root + other);
    }
    WriteKeepsReading(reader, site.root, files, files', config);
    PlaceIsApart(site, op, place);
    OnlyBelowKeeps(files, files', site.root + place, WorkRoot(site, op.transaction));
  }
}
