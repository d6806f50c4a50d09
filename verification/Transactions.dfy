/** The journal of an install transaction, the entries `Begin` accepts, and the states a crash may
    leave behind. `InstallTransactions` holds the operations themselves. */
module Transactions {
  import opened Paths
  import opened FileTrees
  import opened Wrappers
  import BackupNames

  /** Text that may become part of a file name: a transaction id or a scope hash. */
  type Token = s: string | SEPARATOR !in s

  /** One installation: its root and the hash that names its journal and work directory. */
  datatype Site = Site(root: Path, scope: Token)

  datatype JournalState = Prepared | Published | Committed | RolledBack

  datatype Request = Request(prepared: Path, destination: Path, kind: Kind)

  datatype Entry = Entry(prepared: Path, destination: Path, backup: Path, kind: Kind, originalExisted: bool)

  datatype Journal = Journal(
    schema: int,
    transactionId: Token,
    root: Path,
    workRoot: Path,
    state: JournalState,
    entries: seq<Entry>,
    mutationPlanned: bool,
    savedConfig: Option<Contents>)

  datatype Failure =
    | IoFailure
    | NoEntries
    | NoParentDirectory
    | UnfinishedTransaction
    | OutOfScope
    | OverlappingPaths
    | MissingPrepared
    | WrongType
    | InvalidJournal
    | MissingBackup
    | AmbiguousRecovery
    | WrongState
    | RollbackFailed

  const SCHEMA_VERSION := 3
  const MAXIMUM_ENTRIES := 64

  // ---- Where a transaction keeps its files ----

  function WorkRoot(site: Site, id: Token): Path
    requires !IsVolumeRoot(site.root)
  {
    Parent(site.root) + [".MKWC-TRANSACTION-" + site.scope + "-" + id]
  }

  function BackupName(index: nat): Component {
    BackupNames.FourDigitsRoundTrip(index);
    BackupNames.FourDigits(index)
  }

  function BackupPath(workRoot: Path, index: nat): Path {
    workRoot + ["BACKUP", BackupName(index)]
  }

  lemma BackupsDisjoint(workRoot: Path, i: nat, j: nat)
    ensures i != j ==> Disjoint(BackupPath(workRoot, i), BackupPath(workRoot, j))
    ensures workRoot < BackupPath(workRoot, i)
  {
    BackupNames.FourDigitsRoundTrip(i);
    BackupNames.FourDigitsRoundTrip(j);
    var n := |workRoot| + 1;
    assert BackupPath(workRoot, i)[n] == BackupName(i) && BackupPath(workRoot, j)[n] == BackupName(j);
  }

  // ---- What Begin accepts ----

  predicate InScope(root: Path, destination: Path) {
    PathContains(root, destination)
  }

  /** The checks of request `i` against the requests before it. */
  predicate RequestAccepted(root: Path, files: Files, requests: seq<Request>, i: nat)
    requires i < |requests|
  {
    var r := requests[i];
    && InScope(root, r.destination)
    && !PathsOverlap(r.prepared, r.destination)
    && Exists(files, r.prepared, r.kind)
    && !ExistsAsOtherKind(files, r.prepared, r.kind)
    && !ExistsAsOtherKind(files, r.destination, r.kind)
    && forall j | 0 <= j < i :: CompatibleRequests(r, requests[j])
  }

  predicate CompatibleRequests(r: Request, previous: Request) {
    && !PathsOverlap(r.destination, previous.destination)
    && !PathsOverlap(r.prepared, previous.prepared)
    && !PathsOverlap(r.prepared, previous.destination)
    && !PathsOverlap(r.destination, previous.prepared)
  }

  /** Why request `i` is turned down. */
  ghost predicate Rejects(root: Path, files: Files, requests: seq<Request>, i: nat, failure: Failure)
    requires i < |requests|
  {
    var r := requests[i];
    match failure
    case OutOfScope => !InScope(root, r.destination)
    case OverlappingPaths =>
      PathsOverlap(r.prepared, r.destination) || exists j | 0 <= j < i :: !CompatibleRequests(r, requests[j])
    case MissingPrepared => !Exists(files, r.prepared, r.kind)
    case WrongType => ExistsAsOtherKind(files, r.prepared, r.kind) || ExistsAsOtherKind(files, r.destination, r.kind)
    case _ => false
  }

  predicate RequestsAccepted(root: Path, files: Files, requests: seq<Request>) {
    forall i | 0 <= i < |requests| :: RequestAccepted(root, files, requests, i)
  }

  function EntryFor(files: Files, workRoot: Path, request: Request, index: nat): Entry {
    Entry(request.prepared, request.destination, BackupPath(workRoot, index), request.kind,
          Exists(files, request.destination, request.kind))
  }

  function EntriesFor(files: Files, workRoot: Path, requests: seq<Request>): seq<Entry> {
    seq(|requests|, i requires 0 <= i < |requests| => EntryFor(files, workRoot, requests[i], i))
  }

  // ---- The three places of an entry ----

  datatype Role = PreparedRole | DestinationRole | BackupRole

  function SlotPath(e: Entry, role: Role): Path {
    match role
    case PreparedRole => e.prepared
    case DestinationRole => e.destination
    case BackupRole => e.backup
  }

  function SlotTree(files: Files, e: Entry, role: Role): Tree {
    TreeAt(files, SlotPath(e, role))
  }

  ghost predicate SlotsDisjoint(entries: seq<Entry>) {
    forall i, j, v, w | 0 <= i < |entries| && 0 <= j < |entries| && (i, v) != (j, w) ::
      Disjoint(SlotPath(entries[i], v), SlotPath(entries[j], w))
  }

  /** A work directory named by a fresh transaction id. */
  predicate FreshWorkRoot(site: Site, files: Files, workRoot: Path) {
    && Under(files, workRoot) == {}
    && workRoot != site.root
  }

  lemma AcceptedRequestDisjoint(site: Site, files: Files, requests: seq<Request>, i: nat, j: nat)
    requires !IsVolumeRoot(site.root)
    requires RequestsAccepted(site.root, files, requests)
    requires i < |requests| && j < |requests|
    requires forall r | r in requests :: !IsVolumeRoot(r.prepared)
    ensures Disjoint(requests[i].prepared, requests[j].destination)
    ensures i != j ==> Disjoint(requests[i].prepared, requests[j].prepared)
    ensures i != j ==> Disjoint(requests[i].destination, requests[j].destination)
    ensures site.root <= requests[j].destination
  {
    var a, b := requests[i], requests[j];
    assert RequestAccepted(site.root, files, requests, i) && RequestAccepted(site.root, files, requests, j);
    assert a in requests && b in requests;
    ContainsIsPrefix(site.root, a.destination);
    ContainsIsPrefix(site.root, b.destination);
    assert !IsVolumeRoot(a.destination) && !IsVolumeRoot(b.destination);
    OverlapIsIntersection(a.prepared, b.destination);
    OverlapIsIntersection(b.destination, a.prepared);
    OverlapIsIntersection(a.prepared, b.prepared);
    OverlapIsIntersection(b.prepared, a.prepared);
    OverlapIsIntersection(a.destination, b.destination);
    OverlapIsIntersection(b.destination, a.destination);
    if i < j {
      assert CompatibleRequests(b, requests[i]);
    } else if j < i {
      assert CompatibleRequests(a, requests[j]);
    }
  }

  lemma AcceptedRequestOutsideWork(site: Site, files: Files, id: Token, r: Request)
    requires !IsVolumeRoot(site.root)
    requires FreshWorkRoot(site, files, WorkRoot(site, id))
    requires r.prepared in files && site.root <= r.destination && Disjoint(r.prepared, r.destination)
    ensures Disjoint(r.destination, WorkRoot(site, id))
    ensures Disjoint(r.prepared, WorkRoot(site, id))
  {
    var work := WorkRoot(site, id);
    var n := |site.root| - 1;
    assert site.root == Parent(site.root) + [site.root[n]] && work == Parent(site.root) + [work[n]];
    assert site.root[n] != work[n] && r.destination[n] == site.root[n];
    assert r.prepared !in Under(files, work);
    var parent := Parent(site.root);
    assert r.prepared < work ==> r.prepared <= parent;
    assert r.prepared <= parent ==> r.prepared <= r.destination;
  }

  lemma AcceptedSlotsDisjoint(site: Site, files: Files, id: Token, requests: seq<Request>, i: nat, v: Role, j: nat, w: Role)
    requires !IsVolumeRoot(site.root)
    requires RequestsAccepted(site.root, files, requests)
    requires forall r | r in requests :: !IsVolumeRoot(r.prepared)
    requires forall r | r in requests ::
               Disjoint(r.destination, WorkRoot(site, id)) && Disjoint(r.prepared, WorkRoot(site, id))
    requires i < |requests| && j < |requests| && (i, v) != (j, w)
    ensures var entries := EntriesFor(files, WorkRoot(site, id), requests);
            Disjoint(SlotPath(entries[i], v), SlotPath(entries[j], w))
  {
    var work := WorkRoot(site, id);
    var entries := EntriesFor(files, work, requests);
    AcceptedRequestDisjoint(site, files, requests, i, j);
    AcceptedRequestDisjoint(site, files, requests, j, i);
    BackupsDisjoint(work, i, j);
    BackupsDisjoint(work, j, i);
    if v.BackupRole? && !w.BackupRole? {
      DisjointBelow(SlotPath(entries[j], w), work, SlotPath(entries[i], v));
    } else if w.BackupRole? && !v.BackupRole? {
      DisjointBelow(SlotPath(entries[i], v), work, SlotPath(entries[j], w));
    }
  }

  /** Every entry list that Begin accepts, staged outside the root of a volume, has pairwise
      disjoint prepared, destination and backup subtrees. */
  lemma AcceptedEntriesDisjoint(site: Site, files: Files, id: Token, requests: seq<Request>)
    requires !IsVolumeRoot(site.root)
    requires RequestsAccepted(site.root, files, requests)
    requires forall r | r in requests :: !IsVolumeRoot(r.prepared)
    requires FreshWorkRoot(site, files, WorkRoot(site, id))
    ensures SlotsDisjoint(EntriesFor(files, WorkRoot(site, id), requests))
    ensures forall r | r in requests ::
              Disjoint(r.destination, WorkRoot(site, id)) && Disjoint(r.prepared, WorkRoot(site, id))
  {
    var work := WorkRoot(site, id);
    var entries := EntriesFor(files, work, requests);
    forall i | 0 <= i < |requests|
      ensures Disjoint(requests[i].destination, work) && Disjoint(requests[i].prepared, work)
    {
      AcceptedRequestDisjoint(site, files, requests, i, i);
      assert RequestAccepted(site.root, files, requests, i);
      AcceptedRequestOutsideWork(site, files, id, requests[i]);
    }
    forall i, j, v, w | 0 <= i < |entries| && 0 <= j < |entries| && (i, v) != (j, w)
      ensures Disjoint(SlotPath(entries[i], v), SlotPath(entries[j], w))
    {
      AcceptedSlotsDisjoint(site, files, id, requests, i, v, j, w);
    }
  }

  lemma DisjointBelow(a: Path, b: Path, c: Path)
    requires Disjoint(a, b) && b <= c
    ensures Disjoint(a, c) && Disjoint(c, a)
  {
  }

  /** A staged directory that is the root of a volume passes every overlap test, although the
      destination lies inside it. */
  lemma VolumeRootEscapesOverlapTest(root: Path, destination: Path)
    requires !IsVolumeRoot(root) && root <= destination
    ensures var r := Request([destination[0]], destination, DirectoryKind);
            var files := map[r.prepared := Directory];
            RequestsAccepted(root, files, [r]) && !Disjoint(r.prepared, r.destination)
  {
    var r := Request([destination[0]], destination, DirectoryKind);
    ContainsIsPrefix(root, destination);
    OverlapIsIntersection(r.prepared, r.destination);
  }

  // ---- What recovery accepts ----

  predicate EntryIsValid(site: Site, workRoot: Path, e: Entry, index: nat) {
    InScope(site.root, e.destination) && e.backup == BackupPath(workRoot, index)
  }

  predicate JournalIsValid(site: Site, j: Journal)
    requires !IsVolumeRoot(site.root)
  {
    && j.schema == SCHEMA_VERSION && j.transactionId != ""
    && j.root == site.root
    && j.workRoot == WorkRoot(site, j.transactionId)
    && 0 < |j.entries| <= MAXIMUM_ENTRIES
    && forall i | 0 <= i < |j.entries| :: EntryIsValid(site, j.workRoot, j.entries[i], i)
  }

  function NewJournal(site: Site, id: Token, files: Files, requests: seq<Request>): Journal
    requires !IsVolumeRoot(site.root)
  {
    Journal(SCHEMA_VERSION, id, site.root, WorkRoot(site, id), Prepared,
            EntriesFor(files, WorkRoot(site, id), requests), false, None)
  }

  /** Recovery can read back what Begin wrote exactly when there are at most 64 entries, a limit
      that Begin itself does not have. */
  lemma JournalReadableUpToLimit(site: Site, id: Token, files: Files, requests: seq<Request>)
    requires !IsVolumeRoot(site.root)
    requires id != "" && requests != [] && RequestsAccepted(site.root, files, requests)
    ensures JournalIsValid(site, NewJournal(site, id, files, requests)) <==> |requests| <= MAXIMUM_ENTRIES
  {
    var j := NewJournal(site, id, files, requests);
    forall i | 0 <= i < |requests|
      ensures EntryIsValid(site, j.workRoot, j.entries[i], i)
    {
      assert RequestAccepted(site.root, files, requests, i);
    }
  }

  // ---- Well-formed disks ----

  lemma {:induction false} AncestorsExist(files: Files, p: Path, q: Path)
    requires WellFormed(files) && p in files && q < p
    ensures q in files && files[q] == Directory
    decreases |p|
  {
    var above := Parent(p);
    assert Exists(files, above, DirectoryKind);
    if q != above {
      assert q < above;
      AncestorsExist(files, above, q);
    }
  }

  lemma KindHeldOrEmpty(files: Files, p: Path, kind: Kind)
    requires WellFormed(files) && !ExistsAsOtherKind(files, p, kind)
    ensures HoldsKind(TreeAt(files, p), kind)
  {
    assert p + [] == p;
    TreeAtMembers(files, p, []);
    EmptyTree(files, p);
    if p !in files && Under(files, p) != {} {
      var q :| q in Under(files, p);
      assert q != p && p <= q;
      AncestorsExist(files, q, p);
    }
  }

  lemma ParentsOfExisting(files: Files, p: Path, kind: Kind)
    requires WellFormed(files) && TreeAt(files, p) != map[] && HoldsKind(TreeAt(files, p), kind)
    ensures ParentsAreDirectories(files, p)
  {
    assert p + [] == p;
    TreeAtMembers(files, p, []);
    forall q | q in StrictAncestors(p)
      ensures q in files ==> files[q] == Directory
    {
      assert q < p;
      AncestorsExist(files, p, q);
    }
  }

  // ---- The installation before the transaction, and the states after a crash ----

  /** What the transaction started from, and the configuration its caller means to leave. */
  datatype Before = Before(
    site: Site, id: Token, requests: seq<Request>, files: Files, config: Option<Contents>,
    intended: Option<Contents>)
  {
    /** What a transaction finds: a fresh id, and nothing staged in the root of a volume. */
    ghost predicate Ready() {
      && !IsVolumeRoot(site.root)
      && id != ""
      && (forall r | r in requests :: !IsVolumeRoot(r.prepared))
      && FreshWorkRoot(site, files, Work())
      && WellFormed(files)
    }

    /** It also accepts the requests. */
    ghost predicate Valid() {
      Ready() && requests != [] && RequestsAccepted(site.root, files, requests)
    }

    /** No parent of a destination or of the work directory is a file, so publishing can
        succeed. */
    ghost predicate Publishable()
      requires !IsVolumeRoot(site.root)
    {
      ParentsAreDirectories(files, Work()) && forall r | r in requests :: ParentsAreDirectories(files, r.destination)
    }

    ghost function Work(): Path
      requires !IsVolumeRoot(site.root)
    {
      WorkRoot(site, id)
    }

    ghost function Entries(): seq<Entry>
      requires !IsVolumeRoot(site.root)
    {
      EntriesFor(files, Work(), requests)
    }

    /** What destination `i` held before. */
    ghost function Original(i: nat): Tree
      requires i < |requests|
    {
      TreeAt(files, requests[i].destination)
    }

    /** What was staged for destination `i`. */
    ghost function Staged(i: nat): Tree
      requires i < |requests|
    {
      TreeAt(files, requests[i].prepared)
    }
  }

  lemma ValidEntries(before: Before)
    requires before.Valid()
    ensures SlotsDisjoint(before.Entries())
    ensures |before.Entries()| == |before.requests|
    ensures forall i | 0 <= i < |before.requests| ::
              before.Entries()[i].originalExisted == (before.Original(i) != map[])
              && before.Staged(i) != map[]
    ensures forall i | 0 <= i < |before.requests| ::
              HoldsKind(before.Original(i), before.requests[i].kind) && HoldsKind(before.Staged(i), before.requests[i].kind)
    ensures forall i | 0 <= i < |before.requests| ::
              Disjoint(before.requests[i].destination, before.Work())
              && Disjoint(before.requests[i].prepared, before.Work())
              && before.Work() < before.Entries()[i].backup
  {
    AcceptedEntriesDisjoint(before.site, before.files, before.id, before.requests);
    forall i | 0 <= i < |before.requests|
      ensures before.Entries()[i].originalExisted == (before.Original(i) != map[])
      ensures before.Staged(i) != map[]
      ensures HoldsKind(before.Original(i), before.requests[i].kind) && HoldsKind(before.Staged(i), before.requests[i].kind)
      ensures before.Work() < before.Entries()[i].backup
    {
      var r := before.requests[i];
      assert RequestAccepted(before.site.root, before.files, before.requests, i);
      KindHeldOrEmpty(before.files, r.prepared, r.kind);
      KindHeldOrEmpty(before.files, r.destination, r.kind);
      ExistsIsNonEmpty(before.files, r.destination, r.kind);
      ExistsIsNonEmpty(before.files, r.prepared, r.kind);
      BackupsDisjoint(before.Work(), i, i);
    }
  }

  datatype Slots = Slots(prepared: Tree, destination: Tree, backup: Tree)

  function SlotsAt(files: Files, e: Entry): Slots {
    Slots(TreeAt(files, e.prepared), TreeAt(files, e.destination), TreeAt(files, e.backup))
  }

  /** From these trees rolling an entry back restores the original. The backup is authoritative
      while it exists, whatever a crash left at the destination. */
  ghost predicate Recoverable(s: Slots, original: Tree, kind: Kind) {
    && HoldsKind(s.prepared, kind) && HoldsKind(s.destination, kind) && HoldsKind(s.backup, kind)
    && if original != map[]
       then s.backup == original || (s.backup == map[] && s.destination == original)
       else s.backup == map[] && (s.destination == map[] || s.prepared == map[])
  }

  ghost predicate AllRecoverable(before: Before, files: Files)
    requires !IsVolumeRoot(before.site.root)
  {
    forall i | 0 <= i < |before.requests| ::
      Recoverable(SlotsAt(files, before.Entries()[i]), before.Original(i), before.requests[i].kind)
  }

  ghost predicate AllOriginal(before: Before, files: Files) {
    forall i | 0 <= i < |before.requests| :: TreeAt(files, before.requests[i].destination) == before.Original(i)
  }

  ghost predicate AllNew(before: Before, files: Files) {
    forall i | 0 <= i < |before.requests| :: TreeAt(files, before.requests[i].destination) == before.Staged(i)
  }

  ghost predicate Outside(before: Before, p: Path)
    requires !IsVolumeRoot(before.site.root)
  {
    && !(before.Work() <= p)
    && forall i | 0 <= i < |before.requests| ::
         !(before.requests[i].prepared <= p) && !(before.requests[i].destination <= p)
  }

  ghost predicate IsParent(before: Before, p: Path)
    requires !IsVolumeRoot(before.site.root)
  {
    p < before.Work() || exists i :: 0 <= i < |before.requests| && p < before.requests[i].destination
  }

  ghost predicate SameOutside(before: Before, files: Files, p: Path)
    requires !IsVolumeRoot(before.site.root)
  {
    && (p in before.files ==> p in files && files[p] == before.files[p])
    && (p in files && p !in before.files ==> files[p] == Directory && IsParent(before, p))
  }

  /** Nothing outside the transaction changed, except that missing parent directories of its
      destinations and of its work directory may have been made. */
  ghost predicate Framed(before: Before, files: Files)
    requires !IsVolumeRoot(before.site.root)
  {
    WellFormed(files) && forall p: Path | Outside(before, p) :: SameOutside(before, files, p)
  }

  /** The directories that Begin makes for the backups. */
  ghost predicate WorkReady(before: Before, files: Files)
    requires !IsVolumeRoot(before.site.root)
  {
    Exists(files, before.Work(), DirectoryKind) && Exists(files, before.Work() + ["BACKUP"], DirectoryKind)
  }

  ghost predicate JournalOf(before: Before, j: Journal)
    requires !IsVolumeRoot(before.site.root)
  {
    && j.schema == SCHEMA_VERSION && j.transactionId == before.id
    && j.root == before.site.root && j.workRoot == before.Work()
    && j.entries == before.Entries()
  }

  ghost predicate ConfigRecoverable(before: Before, j: Journal, config: Option<Contents>) {
    if j.mutationPlanned then j.savedConfig == before.config else config == before.config
  }

  /** The states an interrupted transaction may leave. Recovery reads nothing else. */
  ghost predicate Safe(before: Before, files: Files, journal: Option<Journal>, config: Option<Contents>)
    requires before.Valid()
  {
    && Framed(before, files)
    && (journal.Some? ==>
          && JournalOf(before, journal.value)
          && HoldsKind(TreeAt(files, before.Work()), DirectoryKind)
          && match journal.value.state
             case Prepared => AllRecoverable(before, files) && ConfigRecoverable(before, journal.value, config)
             case Published => AllRecoverable(before, files) && ConfigRecoverable(before, journal.value, config)
             case Committed => AllNew(before, files) && config == before.intended
             case RolledBack => AllOriginal(before, files) && config == before.config)
  }

  lemma JournalOfIsValid(before: Before, j: Journal)
    requires before.Valid() && JournalOf(before, j)
    ensures JournalIsValid(before.site, j) <==> |before.requests| <= MAXIMUM_ENTRIES
  {
    JournalReadableUpToLimit(before.site, before.id, before.files, before.requests);
    var written := NewJournal(before.site, before.id, before.files, before.requests);
    assert j.entries == written.entries && j.workRoot == written.workRoot;
  }

  // ---- What the operations on one entry leave alone ----

  /** Only the trees of entry `k` differ, and the rest of the disk stays framed. */
  ghost predicate OnlyEntry(before: Before, files: Files, files': Files, k: nat)
    requires before.Valid()
  {
    && (forall i | 0 <= i < |before.requests| && i != k ::
          SlotsAt(files', before.Entries()[i]) == SlotsAt(files, before.Entries()[i]))
    && (Framed(before, files) ==> Framed(before, files'))
    && (HoldsKind(TreeAt(files, before.Work()), DirectoryKind) ==>
          HoldsKind(TreeAt(files', before.Work()), DirectoryKind))
    && (WorkReady(before, files) ==> WorkReady(before, files'))
  }

  lemma OnlyEntryTransitive(before: Before, a: Files, b: Files, c: Files, k: nat)
    requires before.Valid() && OnlyEntry(before, a, b, k) && OnlyEntry(before, b, c, k)
    ensures OnlyEntry(before, a, c, k)
  {
  }

  /** A tree in the work directory keeps the directory itself. */
  lemma WorkHolds(before: Before, files: Files, files': Files)
    requires before.Valid()
    requires HoldsKind(TreeAt(files, before.Work()), DirectoryKind)
    requires before.Work() in files' <==> before.Work() in files
    requires before.Work() in files ==> files'[before.Work()] == files[before.Work()]
    requires before.Work() !in files ==> Under(files', before.Work()) == {}
    ensures HoldsKind(TreeAt(files', before.Work()), DirectoryKind)
  {
    var w := before.Work();
    assert w + [] == w;
    TreeAtMembers(files, w, []);
    TreeAtMembers(files', w, []);
    EmptyTree(files', w);
  }

  /** Making parents of a destination or backup changes no tree of any entry. */
  lemma MadeParentsKeepSlots(entries: seq<Entry>, files: Files, made: set<Path>, k: nat, role: Role, i: nat)
    requires SlotsDisjoint(entries) && k < |entries| && i < |entries|
    requires CanMake(files, made, SlotPath(entries[k], role))
    ensures SlotsAt(WithDirectories(files, made), entries[i]) == SlotsAt(files, entries[i])
  {
    forall v: Role
      ensures SlotTree(WithDirectories(files, made), entries[i], v) == SlotTree(files, entries[i], v)
    {
      MakingParents(files, made, SlotPath(entries[k], role), SlotPath(entries[i], v));
    }
    SameSlots(files, WithDirectories(files, made), entries[i]);
  }

  lemma MadeParentsAreFramed(before: Before, files: Files, made: set<Path>, k: nat, role: Role)
    requires before.Valid() && k < |before.requests| && !role.PreparedRole?
    requires CanMake(files, made, SlotPath(before.Entries()[k], role))
    requires Framed(before, files)
    ensures Framed(before, WithDirectories(files, made))
  {
    hide TreeAt, RequestsAccepted, WellFormed;
    MakingKeepsWellFormed(files, made, StrictAncestors(SlotPath(before.Entries()[k], role)));
  }

  lemma MadeParentsKeepWork(before: Before, files: Files, made: set<Path>, k: nat, role: Role)
    requires before.Valid() && k < |before.requests| && !role.PreparedRole?
    requires CanMake(files, made, SlotPath(before.Entries()[k], role))
    requires HoldsKind(TreeAt(files, before.Work()), DirectoryKind)
    requires role.BackupRole? ==> before.Work() in files
    ensures HoldsKind(TreeAt(WithDirectories(files, made), before.Work()), DirectoryKind)
  {
    hide TreeAt, RequestsAccepted, SlotsDisjoint, WellFormed;
    ValidEntries(before);
    var w, files' := before.Work(), WithDirectories(files, made);
    if w !in files {
      assert w + [] == w;
      TreeAtMembers(files, w, []);
      EmptyTree(files, w);
      forall q | q in made
        ensures !(w <= q)
      {
        assert q < before.requests[k].destination;
      }
      assert Under(files', w) == {};
    }
    WorkHolds(before, files, files');
  }

  /** Making parents of a destination or backup. */
  lemma MadeParents(before: Before, files: Files, made: set<Path>, k: nat, role: Role)
    requires before.Valid() && k < |before.requests| && !role.PreparedRole?
    requires CanMake(files, made, SlotPath(before.Entries()[k], role))
    requires Framed(before, files)
    requires HoldsKind(TreeAt(files, before.Work()), DirectoryKind)
    requires role.BackupRole? ==> before.Work() in files
    ensures var files' := WithDirectories(files, made);
            && OnlyEntry(before, files, files', k)
            && SlotsAt(files', before.Entries()[k]) == SlotsAt(files, before.Entries()[k])
  {
    ValidEntries(before);
    forall i | 0 <= i < |before.requests|
      ensures SlotsAt(WithDirectories(files, made), before.Entries()[i]) == SlotsAt(files, before.Entries()[i])
    {
      MadeParentsKeepSlots(before.Entries(), files, made, k, role, i);
    }
    MadeParentsAreFramed(before, files, made, k, role);
    MadeParentsKeepWork(before, files, made, k, role);
    assert WorkReady(before, files) ==> WorkReady(before, WithDirectories(files, made));
  }

  /** Nothing changed outside the three places of an entry. */
  ghost predicate UntouchedElsewhere(files: Files, files': Files, e: Entry) {
    forall q: Path | !(e.prepared <= q) && !(e.destination <= q) && !(e.backup <= q) ::
      (q in files' <==> q in files) && (q in files ==> files'[q] == files[q])
  }

  lemma WorkOutsideSlots(before: Before, k: nat, role: Role)
    requires before.Valid() && k < |before.requests|
    ensures !(SlotPath(before.Entries()[k], role) <= before.Work())
    ensures !(SlotPath(before.Entries()[k], role) <= before.Work() + ["BACKUP"])
  {
    hide TreeAt, Before.Valid, RequestsAccepted, SlotsDisjoint;
    ValidEntries(before);
    var e, w := before.Entries()[k], before.Work();
    BackupsDisjoint(w, k, k);
    assert |e.backup| == |w| + 2;
    PrefixesCompare(SlotPath(e, role), w, w + ["BACKUP"]);
    assert w <= w + ["BACKUP"];
  }

  lemma SameSlots(files: Files, files': Files, e: Entry)
    requires forall v: Role :: SlotTree(files', e, v) == SlotTree(files, e, v)
    ensures SlotsAt(files', e) == SlotsAt(files, e)
  {
    assert SlotTree(files', e, PreparedRole) == SlotTree(files, e, PreparedRole);
    assert SlotTree(files', e, DestinationRole) == SlotTree(files, e, DestinationRole);
    assert SlotTree(files', e, BackupRole) == SlotTree(files, e, BackupRole);
  }

  lemma LocalFrame(before: Before, files: Files, files': Files, k: nat)
    requires before.Valid() && k < |before.requests| && Framed(before, files) && WellFormed(files')
    requires UntouchedElsewhere(files, files', before.Entries()[k])
    ensures Framed(before, files')
  {
  }

  lemma LocalWork(before: Before, files: Files, files': Files, k: nat)
    requires before.Valid() && k < |before.requests|
    requires HoldsKind(TreeAt(files, before.Work()), DirectoryKind)
    requires UntouchedElsewhere(files, files', before.Entries()[k])
    requires before.Work() in files || Under(files', before.Work()) == {}
    ensures HoldsKind(TreeAt(files', before.Work()), DirectoryKind)
    ensures WorkReady(before, files) ==> WorkReady(before, files')
  {
    WorkOutsideSlots(before, k, PreparedRole);
    WorkOutsideSlots(before, k, DestinationRole);
    WorkOutsideSlots(before, k, BackupRole);
    WorkHolds(before, files, files');
  }

  lemma LocalChange(before: Before, files: Files, files': Files, k: nat)
    requires before.Valid() && k < |before.requests|
    requires Framed(before, files) && WellFormed(files')
    requires HoldsKind(TreeAt(files, before.Work()), DirectoryKind)
    requires UntouchedElsewhere(files, files', before.Entries()[k])
    requires before.Work() in files || Under(files', before.Work()) == {}
    requires forall i, v: Role | 0 <= i < |before.requests| && i != k ::
               SlotTree(files', before.Entries()[i], v) == SlotTree(files, before.Entries()[i], v)
    ensures OnlyEntry(before, files, files', k)
  {
    forall i | 0 <= i < |before.requests| && i != k
      ensures SlotsAt(files', before.Entries()[i]) == SlotsAt(files, before.Entries()[i])
    {
      SameSlots(files, files', before.Entries()[i]);
    }
    LocalFrame(before, files, files', k);
    LocalWork(before, files, files', k);
  }

  lemma OtherSlotKept(before: Before, files: Files, k: nat, from: Role, to: Role, i: nat, v: Role)
    requires before.Valid() && k < |before.requests| && from != to && i < |before.requests|
    requires i != k || (v != from && v != to)
    requires Under(files, SlotPath(before.Entries()[k], to)) == {}
    ensures var e := before.Entries()[k];
            SlotTree(Moved(files, SlotPath(e, from), SlotPath(e, to)), before.Entries()[i], v)
            == SlotTree(files, before.Entries()[i], v)
  {
    ValidEntries(before);
    var e := before.Entries()[k];
    assert Disjoint(SlotPath(before.Entries()[i], v), SlotPath(e, from));
    assert Disjoint(SlotPath(before.Entries()[i], v), SlotPath(e, to));
    assert Disjoint(SlotPath(e, from), SlotPath(e, to));
    MoveEffect(files, SlotPath(e, from), SlotPath(e, to));
  }

  lemma FramedIsWellFormed(before: Before, files: Files)
    requires !IsVolumeRoot(before.site.root) && Framed(before, files)
    ensures WellFormed(files)
  {
  }

  /** A rename between two places of entry `k`. */
  lemma MovedBetween(before: Before, files: Files, k: nat, from: Role, to: Role)
    requires before.Valid() && k < |before.requests| && from != to
    requires Framed(before, files) && before.Work() in files
    requires HoldsKind(TreeAt(files, before.Work()), DirectoryKind)
    requires Under(files, SlotPath(before.Entries()[k], to)) == {}
    requires StrictAncestors(SlotPath(before.Entries()[k], to)) <= files.Keys
    requires ParentsAreDirectories(files, SlotPath(before.Entries()[k], to))
    ensures var e := before.Entries()[k];
            var files' := Moved(files, SlotPath(e, from), SlotPath(e, to));
            && OnlyEntry(before, files, files', k)
            && SlotTree(files', e, to) == SlotTree(files, e, from)
            && SlotTree(files', e, from) == map[]
            && (forall v: Role | v != from && v != to :: SlotTree(files', e, v) == SlotTree(files, e, v))
  {
    hide TreeAt, Moved, Framed, OnlyEntry, StrictAncestors, WellFormed, Under;
    ValidEntries(before);
    var e := before.Entries()[k];
    MoveEffect(files, SlotPath(e, from), SlotPath(e, to));
    forall i, v: Role | 0 <= i < |before.requests| && (i != k || (v != from && v != to))
      ensures SlotTree(Moved(files, SlotPath(e, from), SlotPath(e, to)), before.Entries()[i], v)
              == SlotTree(files, before.Entries()[i], v)
    {
      OtherSlotKept(before, files, k, from, to, i, v);
    }
    FramedIsWellFormed(before, files);
    MovingKeepsWellFormed(files, SlotPath(e, from), SlotPath(e, to));
    LocalChange(before, files, Moved(files, SlotPath(e, from), SlotPath(e, to)), k);
  }

  lemma DeletedKeepsSlots(entries: seq<Entry>, files: Files, doomed: set<Path>, k: nat, i: nat, v: Role)
    requires SlotsDisjoint(entries) && k < |entries| && i < |entries| && (i != k || !v.DestinationRole?)
    requires CanDelete(files, doomed, entries[k].destination)
    ensures SlotTree(files - doomed, entries[i], v) == SlotTree(files, entries[i], v)
  {
    assert Disjoint(SlotPath(entries[i], v), SlotPath(entries[k], DestinationRole));
    DeletedElsewhere(files, doomed, entries[k].destination, SlotPath(entries[i], v));
  }

  lemma WorkStaysEmpty(files: Files, doomed: set<Path>, w: Path)
    requires HoldsKind(TreeAt(files, w), DirectoryKind)
    ensures w in files || Under(files - doomed, w) == {}
  {
    assert w + [] == w;
    TreeAtMembers(files, w, []);
    EmptyTree(files, w);
    assert Under(files - doomed, w) <= Under(files, w);
  }

  ghost predicate PartlyDeleted(before: Before, files: Files, doomed: set<Path>, k: nat)
    requires before.Valid() && k < |before.requests|
  {
    && Framed(before, files)
    && HoldsKind(TreeAt(files, before.Work()), DirectoryKind)
    && CanDelete(files, doomed, before.requests[k].destination)
    && HoldsKind(TreeAt(files, before.requests[k].destination), before.requests[k].kind)
  }

  lemma DeletedOnlyEntry(before: Before, files: Files, files': Files, doomed: set<Path>, k: nat)
    requires before.Valid() && k < |before.requests|
    requires PartlyDeleted(before, files, doomed, k) && files' == files - doomed
    ensures OnlyEntry(before, files, files', k)
  {
    ValidEntries(before);
    var entries := before.Entries();
    forall i, v: Role | 0 <= i < |entries| && i != k
      ensures SlotTree(files', entries[i], v) == SlotTree(files, entries[i], v)
    {
      DeletedKeepsSlots(entries, files, doomed, k, i, v);
    }
    WorkStaysEmpty(files, doomed, before.Work());
    assert UntouchedElsewhere(files, files', entries[k]) by {
      assert forall q | q in doomed :: entries[k].destination <= q;
    }
    DeletingKeepsWellFormed(files, doomed, before.requests[k].destination);
    LocalChange(before, files, files', k);
  }

  /** A delete, complete or not, at the destination of entry `k`. */
  lemma DeletedDestination(before: Before, files: Files, files': Files, doomed: set<Path>, k: nat)
    requires before.Valid() && k < |before.requests|
    requires PartlyDeleted(before, files, doomed, k) && files' == files - doomed
    ensures OnlyEntry(before, files, files', k)
    ensures var s, s' := SlotsAt(files, before.Entries()[k]), SlotsAt(files', before.Entries()[k]);
            && s'.prepared == s.prepared && s'.backup == s.backup
            && HoldsKind(s'.destination, before.requests[k].kind)
            && (doomed == Under(files, before.requests[k].destination) ==> s'.destination == map[])
  {
    hide TreeAt, Under, Framed, OnlyEntry;
    DeletedOnlyEntry(before, files, files', doomed, k);
    ValidEntries(before);
    DeletedKeepsSlots(before.Entries(), files, doomed, k, k, PreparedRole);
    DeletedKeepsSlots(before.Entries(), files, doomed, k, k, BackupRole);
    DeletedTree(files, doomed, before.requests[k].destination, before.requests[k].kind);
  }

  /** Clearing the work directory, completely or not, touches no destination. */
  lemma DeletedWork(before: Before, files: Files, doomed: set<Path>)
    requires before.Valid() && Framed(before, files)
    requires HoldsKind(TreeAt(files, before.Work()), DirectoryKind)
    requires CanDelete(files, doomed, before.Work())
    ensures Framed(before, files - doomed)
    ensures HoldsKind(TreeAt(files - doomed, before.Work()), DirectoryKind)
    ensures doomed == Under(files, before.Work()) ==> TreeAt(files - doomed, before.Work()) == map[]
    ensures forall i | 0 <= i < |before.requests| ::
              TreeAt(files - doomed, before.requests[i].destination) == TreeAt(files, before.requests[i].destination)
  {
    ValidEntries(before);
    var files' := files - doomed;
    DeletedTree(files, doomed, before.Work(), DirectoryKind);
    DeletingKeepsWellFormed(files, doomed, before.Work());
    forall i | 0 <= i < |before.requests|
      ensures TreeAt(files', before.requests[i].destination) == TreeAt(files, before.requests[i].destination)
    {
      DeletedElsewhere(files, doomed, before.Work(), before.requests[i].destination);
    }
    forall p: Path | Outside(before, p)
      ensures SameOutside(before, files', p)
    {
      assert SameOutside(before, files, p);
    }
  }

  /** The slots of an entry after a rename between two of them. */
  lemma MovedSlots(files: Files, files': Files, e: Entry, from: Role, to: Role)
    requires from != to
    requires SlotTree(files', e, to) == SlotTree(files, e, from)
    requires SlotTree(files', e, from) == map[]
    requires forall v: Role | v != from && v != to :: SlotTree(files', e, v) == SlotTree(files, e, v)
    ensures var s, s' := SlotsAt(files, e), SlotsAt(files', e);
            && (from == BackupRole && to == DestinationRole ==> s' == Slots(s.prepared, s.backup, map[]))
            && (from == DestinationRole && to == BackupRole ==> s' == Slots(s.prepared, map[], s.destination))
            && (from == PreparedRole && to == DestinationRole ==> s' == Slots(map[], s.prepared, s.backup))
  {
    assert SlotTree(files', e, PreparedRole) == TreeAt(files', e.prepared);
    assert SlotTree(files', e, DestinationRole) == TreeAt(files', e.destination);
    assert SlotTree(files', e, BackupRole) == TreeAt(files', e.backup);
  }

  lemma OutsideParents(before: Before, files: Files, q: Path)
    requires before.Valid() && Framed(before, files) && Outside(before, q)
    requires q in before.files ==> before.files[q] == Directory
    ensures q in files ==> files[q] == Directory
  {
  }

  lemma AboveOneDestination(before: Before, k: nat, q: Path, i: nat)
    requires before.Valid() && k < |before.requests| && q < before.requests[k].destination && i < |before.requests|
    ensures !(before.requests[i].prepared <= q) && !(before.requests[i].destination <= q)
  {
    hide RequestsAccepted;
    AcceptedRequestDisjoint(before.site, before.files, before.requests, i, k);
  }

  lemma AboveDestination(before: Before, k: nat, q: Path)
    requires before.Valid() && k < |before.requests| && q < before.requests[k].destination
    ensures forall i | 0 <= i < |before.requests| ::
              !(before.requests[i].prepared <= q) && !(before.requests[i].destination <= q)
  {
    hide Before.Valid;
    forall i | 0 <= i < |before.requests|
      ensures !(before.requests[i].prepared <= q) && !(before.requests[i].destination <= q)
    {
      AboveOneDestination(before, k, q, i);
    }
  }

  /** Nothing the transaction does turns a parent of a destination into a file. */
  lemma DestinationParents(before: Before, files: Files, k: nat)
    requires before.Valid() && k < |before.requests| && Framed(before, files)
    requires before.Original(k) != map[] || before.Publishable()
    ensures ParentsAreDirectories(files, before.requests[k].destination)
  {
    ValidEntries(before);
    var d, entries := before.requests[k].destination, before.Entries();
    assert before.requests[k] in before.requests;
    if before.Original(k) != map[] {
      ParentsOfExisting(before.files, d, before.requests[k].kind);
    }
    forall q | q in StrictAncestors(d)
      ensures q in files ==> files[q] == Directory
    {
      assert q < d;
      AboveDestination(before, k, q);
      OutsideParents(before, files, q);
    }
  }

  lemma AboveWork(before: Before, q: Path)
    requires before.Valid() && q < before.Work()
    ensures forall i | 0 <= i < |before.requests| ::
              !(before.requests[i].prepared <= q) && !(before.requests[i].destination <= q)
  {
    ValidEntries(before);
  }

  lemma BackupParents(before: Before, files: Files, k: nat)
    requires before.Valid() && before.Publishable()
    requires k < |before.requests| && Framed(before, files) && WorkReady(before, files)
    ensures ParentsAreDirectories(files, before.Entries()[k].backup)
  {
    hide TreeAt, RequestsAccepted, SlotsDisjoint, Framed;
    ValidEntries(before);
    var b, w := before.Entries()[k].backup, before.Work();
    forall q | q in StrictAncestors(b)
      ensures q in files ==> files[q] == Directory
    {
      assert q < b && |b| == |w| + 2;
      if |q| < |w| {
        assert q == w[..|q|] && q in StrictAncestors(w);
        AboveWork(before, q);
        OutsideParents(before, files, q);
      } else if |q| == |w| {
        assert q == w;
      } else {
        assert q == w + ["BACKUP"];
      }
    }
  }

  lemma WorkOfBackup(before: Before, files: Files, k: nat)
    requires before.Valid() && k < |before.requests|
    requires HoldsKind(TreeAt(files, before.Work()), DirectoryKind)
    requires before.Entries()[k].backup in files
    ensures before.Work() in files
  {
    ValidEntries(before);
    var w := before.Work();
    assert before.Entries()[k].backup in Under(files, w);
    EmptyTree(files, w);
    assert w + [] == w;
    TreeAtMembers(files, w, []);
  }
}
