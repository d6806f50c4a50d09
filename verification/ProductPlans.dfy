/** The entry list that a reconciliation hands to its publishing transaction. */
module ProductPlans {
  import opened Paths
  import opened FileTrees
  import opened Wrappers
  import opened Installations
  import opened ProductRepair
  import opened Transactions

  /** Something that a publication replaces. */
  datatype Target = BaseProduct | RetroProduct | BaseAsset(asset: Asset) | RetroAsset(asset: Asset)
                  | PayloadCache | RemovedPayload | StateDocument

  /** The runtime assets copied beside every product. */
  datatype Asset = Bootstrap | DspCoefficients | PipelineCache

  function AssetName(asset: Asset): Component {
    match asset
    case Bootstrap => "WII_BOOTSTRAP"
    case DspCoefficients => "DSP_COEF.BIN"
    case PipelineCache => "INITIAL_PIPELINE_CACHE.DB"
  }

  /** Where a target lies below the installation. */
  function Place(target: Target): Path {
    match target
    case BaseProduct => ["BASE"]
    case RetroProduct => ["RETROREWIND"]
    case BaseAsset(asset) => ["BASE", AssetName(asset)]
    case RetroAsset(asset) => ["RETROREWIND", AssetName(asset)]
    case PayloadCache | RemovedPayload => ["BUILDWORKSPACE", "ASSETS", "OFFLINEPAYLOAD"]
    case StateDocument => ["INSTALL-STATE.JSON"]
  }

  /** Where its replacement is staged below the scratch directory. */
  function Staged(target: Target, recovered: bool): Path {
    match target
    case BaseProduct => ["BASE-OUTPUT"]
    case RetroProduct => ["RETRO-OUTPUT"]
    case BaseAsset(asset) => ["RUNTIME-ASSET-REPAIR", "BASE", AssetName(asset)]
    case RetroAsset(asset) => ["RUNTIME-ASSET-REPAIR", "RETROREWIND", AssetName(asset)]
    case PayloadCache => if recovered then ["RETRO-WFC-PAYLOAD-RECOVERED"] else ["RETRO-WFC-PAYLOAD"]
    case RemovedPayload => ["RETRO-WFC-PAYLOAD-REMOVED"]
    case StateDocument => ["INSTALL-STATE.JSON"]
  }

  function KindOf(target: Target): Kind {
    match target
    case BaseProduct | RetroProduct | PayloadCache | RemovedPayload => DirectoryKind
    case BaseAsset(asset) => if asset.Bootstrap? then DirectoryKind else FileKind
    case RetroAsset(asset) => if asset.Bootstrap? then DirectoryKind else FileKind
    case StateDocument => FileKind
  }

  function RequestFor(root: Path, scratch: Path, recovered: bool, target: Target): Request {
    Request(scratch + Staged(target, recovered), root + Place(target), KindOf(target))
  }

  function RequestsFor(root: Path, scratch: Path, recovered: bool, targets: seq<Target>): seq<Request> {
    seq(|targets|, i requires 0 <= i < |targets| => RequestFor(root, scratch, recovered, targets[i]))
  }

  /** The targets of a plan. */
  predicate Publishes(plan: Decision, inputs: Inputs, target: Target) {
    match target
    case BaseProduct => plan.rebuildBase
    case RetroProduct => plan.rebuildRetro
    case BaseAsset(_) => plan.syncBaseAssets
    case RetroAsset(_) => plan.syncRetroAssets
    case PayloadCache => plan.syncPayload
    case RemovedPayload => plan.rebuildRetro && inputs.mode.Skipped?
    case StateDocument => plan.rebuildBase || plan.rebuildRetro || inputs.snapshot.Some?
  }

  /** The position of a target in the order in which the program lists them. */
  function Rank(target: Target): nat {
    match target
    case BaseProduct => 0
    case RetroProduct => 1
    case BaseAsset(asset) => 2 + AssetRank(asset)
    case RetroAsset(asset) => 5 + AssetRank(asset)
    case PayloadCache => 8
    case RemovedPayload => 9
    case StateDocument => 10
  }

  function AssetRank(asset: Asset): nat {
    match asset
    case Bootstrap => 0
    case DspCoefficients => 1
    case PipelineCache => 2
  }

  /** `targets` lists what the plan publishes of rank below `rank`, in order and once each. */
  ghost predicate Lists(plan: Decision, inputs: Inputs, targets: seq<Target>, rank: nat) {
    && (forall t: Target :: t in targets <==> Publishes(plan, inputs, t) && Rank(t) < rank)
    && (forall i, j | 0 <= i < j < |targets| :: Rank(targets[i]) < Rank(targets[j]))
    && |targets| <= rank
  }

  lemma ListsOneMore(plan: Decision, inputs: Inputs, targets: seq<Target>, next: Target)
    requires Lists(plan, inputs, targets, Rank(next))
    ensures Lists(plan, inputs, if Publishes(plan, inputs, next) then targets + [next] else targets, Rank(next) + 1)
  {
  }

  lemma NothingListed(plan: Decision, inputs: Inputs)
    ensures Lists(plan, inputs, [], 0)
  {
  }

  /** Collects the entries in the order in which the program adds them. */
  method CollectTargets(plan: Decision, inputs: Inputs) returns (targets: seq<Target>)
    ensures Lists(plan, inputs, targets, 11)
  {
    NothingListed(plan, inputs);
    hide Lists;
    targets := [];
    ListsOneMore(plan, inputs, targets, BaseProduct);
    if plan.rebuildBase { targets := targets + [BaseProduct]; }
    ListsOneMore(plan, inputs, targets, RetroProduct);
    if plan.rebuildRetro { targets := targets + [RetroProduct]; }
    targets := AddAssets(plan, inputs, targets, plan.syncBaseAssets, BaseAsset(Bootstrap), BaseAsset(DspCoefficients),
                         BaseAsset(PipelineCache));
    targets := AddAssets(plan, inputs, targets, plan.syncRetroAssets, RetroAsset(Bootstrap), RetroAsset(DspCoefficients),
                         RetroAsset(PipelineCache));
    ListsOneMore(plan, inputs, targets, PayloadCache);
    if plan.syncPayload { targets := targets + [PayloadCache]; }
    ListsOneMore(plan, inputs, targets, RemovedPayload);
    if plan.rebuildRetro && inputs.mode.Skipped? { targets := targets + [RemovedPayload]; }
    ListsOneMore(plan, inputs, targets, StateDocument);
    if plan.rebuildBase || plan.rebuildRetro || inputs.snapshot.Some? { targets := targets + [StateDocument]; }
  }

  method AddAssets(plan: Decision, inputs: Inputs, targets: seq<Target>, sync: bool, a: Target, b: Target, c: Target)
    returns (r: seq<Target>)
    requires Lists(plan, inputs, targets, Rank(a)) && Rank(b) == Rank(a) + 1 && Rank(c) == Rank(a) + 2
    requires Publishes(plan, inputs, a) == Publishes(plan, inputs, b) == Publishes(plan, inputs, c) == sync
    ensures Lists(plan, inputs, r, Rank(c) + 1)
  {
    hide Lists, Publishes;
    r := targets;
    ListsOneMore(plan, inputs, r, a);
    if sync { r := r + [a]; }
    ListsOneMore(plan, inputs, r, b);
    if sync { r := r + [b]; }
    ListsOneMore(plan, inputs, r, c);
    if sync { r := r + [c]; }
  }

  /** Two targets that one plan may publish together. */
  predicate Together(a: Target, b: Target) {
    && a != b
    && !(a.BaseProduct? && b.BaseAsset?) && !(a.BaseAsset? && b.BaseProduct?)
    && !(a.RetroProduct? && b.RetroAsset?) && !(a.RetroAsset? && b.RetroProduct?)
    && !(a.PayloadCache? && b.RemovedPayload?) && !(a.RemovedPayload? && b.PayloadCache?)
  }

  lemma ApartAt(p: Path, q: Path, k: nat)
    requires k < |p| && k < |q| && |p[k]| != |q[k]|
    ensures Disjoint(p, q)
  {
    DifferAt(p, q, k);
  }

  function AssetOf(target: Target): Option<Asset> {
    match target
    case BaseAsset(asset) => Some(asset)
    case RetroAsset(asset) => Some(asset)
    case _ => None
  }

  lemma PlacesApart(a: Target, b: Target)
    requires Together(a, b)
    ensures Disjoint(Place(a), Place(b))
  {
    if |Place(a)[0]| != |Place(b)[0]| {
      ApartAt(Place(a), Place(b), 0);
    } else {
      assert AssetOf(a).Some? && AssetOf(b).Some?;
      assert |AssetName(AssetOf(a).value)| != |AssetName(AssetOf(b).value)|;
      ApartAt(Place(a), Place(b), 1);
    }
  }

  lemma StagedApart(a: Target, b: Target, recovered: bool)
    requires a != b
    ensures Disjoint(Staged(a, recovered), Staged(b, recovered))
  {
    var p, q := Staged(a, recovered), Staged(b, recovered);
    if |p[0]| != |q[0]| {
      ApartAt(p, q, 0);
    } else {
      assert AssetOf(a).Some? && AssetOf(b).Some?;
      ApartAt(p, q, if a.BaseAsset? == b.BaseAsset? then 2 else 1);
    }
  }

  // ---- Where the scratch directory may be ----

  /** The scratch directory of one operation, beside the installation or inside it. */
  function ScratchRoot(container: Path, scope: Token, id: Token): Path {
    container + [".MKWC-SCRATCH-" + scope + "-" + id]
  }

  lemma ScratchIsApart(root: Path, container: Path, scope: Token, id: Token, place: Path)
    requires !IsVolumeRoot(root) && (container == root || container == Parent(root))
    requires ScratchRoot(container, scope, id) != root && place[0][0] != '.'
    ensures Disjoint(ScratchRoot(container, scope, id), root + place)
  {
    var scratch, there := ScratchRoot(container, scope, id), root + place;
    var n := |scratch| - 1;
    if container == root {
      assert scratch[n][0] == '.' && there[n] == place[0];
    } else {
      assert root == Parent(root) + [root[n]] && scratch == Parent(root) + [scratch[n]];
      assert there[n] == root[n] && scratch[n] != root[n];
    }
  }

  lemma CommonStart(base: Path, p: Path, q: Path)
    ensures base + p <= base + q ==> p <= q
  {
    if base + p <= base + q {
      assert q[..|p|] == (base + q)[|base|..|base| + |p|] == (base + p)[|base|..] == p;
    }
  }

  lemma DisjointSuffixes(base: Path, p: Path, q: Path)
    requires Disjoint(p, q)
    ensures Disjoint(base + p, base + q)
  {
    CommonStart(base, p, q);
    CommonStart(base, q, p);
  }

  /** A product that is built is not synchronized as well, and a payload is published or removed. */
  predicate IsCoherent(plan: Decision, inputs: Inputs) {
    && !(plan.rebuildBase && plan.syncBaseAssets)
    && !(plan.rebuildRetro && plan.syncRetroAssets)
    && !(plan.syncPayload && plan.rebuildRetro && inputs.mode.Skipped?)
  }

  lemma DecidedIsCoherent(d: Installation, inputs: Inputs, payload: Option<PayloadSnapshot>)
    ensures IsCoherent(Decide(d, inputs, payload), inputs)
  {
    hide NeedsBaseBuild, NeedsRetroBuild;
  }

  /** A coherent plan publishes no two targets that overlap. */
  lemma PlannedTogether(plan: Decision, inputs: Inputs, a: Target, b: Target)
    requires IsCoherent(plan, inputs) && Publishes(plan, inputs, a) && Publishes(plan, inputs, b) && a != b
    ensures Together(a, b)
  {
  }

  /** The publication of any plan: `Begin` never rejects it for a destination outside the
      installation or for overlapping paths, never finds it empty, and recovery can read its
      journal back. Only a missing or mistyped entry can stop it. */
  lemma PlanIsWellFormed(d: Installation, inputs: Inputs, payload: Option<PayloadSnapshot>, targets: seq<Target>,
                         container: Path, scope: Token, id: Token, recovered: bool, files: Files)
    requires !Decide(d, inputs, payload).NothingToDo()
    requires Lists(Decide(d, inputs, payload), inputs, targets, 11)
    requires !IsVolumeRoot(d.root) && (container == d.root || container == Parent(d.root))
    requires ScratchRoot(container, scope, id) != d.root
    ensures var requests := RequestsFor(d.root, ScratchRoot(container, scope, id), recovered, targets);
            && 0 < |requests| <= MAXIMUM_ENTRIES
            && (RequestsAccepted(d.root, files, requests) <==>
                  forall r | r in requests :: Exists(files, r.prepared, r.kind)
                                              && !ExistsAsOtherKind(files, r.prepared, r.kind)
                                              && !ExistsAsOtherKind(files, r.destination, r.kind))
  {
    var scratch := ScratchRoot(container, scope, id);
    var requests := RequestsFor(d.root, scratch, recovered, targets);
    PlanPublishesSomething(d, inputs, payload);
    DecidedIsCoherent(d, inputs, payload);
    forall i | 0 <= i < |requests|
      ensures InScope(d.root, requests[i].destination)
      ensures !PathsOverlap(requests[i].prepared, requests[i].destination)
      ensures forall j | 0 <= j < i :: CompatibleRequests(requests[i], requests[j])
    {
      ContainsIsPrefix(d.root, requests[i].destination);
      PlannedRequest(d.root, container, scope, id, recovered, targets[i], targets[i]);
      forall j | 0 <= j < i
        ensures CompatibleRequests(requests[i], requests[j])
      {
        assert targets[i] in targets && targets[j] in targets;
        PlannedTogether(Decide(d, inputs, payload), inputs, targets[i], targets[j]);
        PlannedRequest(d.root, container, scope, id, recovered, targets[i], targets[j]);
      }
    }
    forall i | 0 <= i < |requests|
      ensures RequestAccepted(d.root, files, requests, i) <==>
                && Exists(files, requests[i].prepared, requests[i].kind)
                && !ExistsAsOtherKind(files, requests[i].prepared, requests[i].kind)
                && !ExistsAsOtherKind(files, requests[i].destination, requests[i].kind)
    {
    }
  }

  lemma PlanPublishesSomething(d: Installation, inputs: Inputs, payload: Option<PayloadSnapshot>)
    requires !Decide(d, inputs, payload).NothingToDo()
    ensures exists t: Target :: Publishes(Decide(d, inputs, payload), inputs, t)
  {
    var plan := Decide(d, inputs, payload);
    if plan.rebuildBase || plan.rebuildRetro || inputs.snapshot.Some? {
      assert Publishes(plan, inputs, StateDocument);
    } else if plan.syncBaseAssets {
      assert Publishes(plan, inputs, BaseAsset(Bootstrap));
    } else {
      assert Publishes(plan, inputs, RetroAsset(Bootstrap));
    }
  }

  lemma PlannedRequest(root: Path, container: Path, scope: Token, id: Token, recovered: bool, a: Target, b: Target)
    requires !IsVolumeRoot(root) && (container == root || container == Parent(root))
    requires ScratchRoot(container, scope, id) != root
    requires a == b || Together(a, b)
    ensures var scratch := ScratchRoot(container, scope, id);
            && !PathsOverlap(RequestFor(root, scratch, recovered, a).prepared, RequestFor(root, scratch, recovered, b).destination)
            && (a != b ==> CompatibleRequests(RequestFor(root, scratch, recovered, a), RequestFor(root, scratch, recovered, b)))
  {
    var scratch := ScratchRoot(container, scope, id);
    var ra, rb := RequestFor(root, scratch, recovered, a), RequestFor(root, scratch, recovered, b);
    ScratchIsApart(root, container, scope, id, Place(a));
    ScratchIsApart(root, container, scope, id, Place(b));
    DisjointBelow(root + Place(b), scratch, ra.prepared);
    DisjointBelow(root + Place(a), scratch, rb.prepared);
    OverlapIsIntersection(ra.prepared, rb.destination);
    if a != b {
      PlacesApart(a, b);
      StagedApart(a, b, recovered);
      DisjointSuffixes(root, Place(a), Place(b));
      DisjointSuffixes(scratch, Staged(a, recovered), Staged(b, recovered));
      OverlapIsIntersection(ra.destination, rb.destination);
      OverlapIsIntersection(ra.prepared, rb.prepared);
      OverlapIsIntersection(ra.destination, rb.prepared);
    }
  }
}
