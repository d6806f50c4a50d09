/** The install transaction, one method for each of its operations. Every primitive may fail or be
    interrupted, so the contracts hold for a crash between any two of them. */
module InstallTransactions {
  import opened Paths
  import opened FileTrees
  import opened Transactions
  import opened Wrappers

  /** How a step ended: it returned, it threw, or the process died. */
  datatype Outcome = Done | Threw(error: Failure) | Crashed

  /** The disk as one installation sees it. Journal and configuration are single files that are
      replaced atomically. While `calm` holds, no step is interrupted and no path is locked. */
  class Disk {
    var files: Files
    var journal: Option<Journal>
    var config: Option<Contents>
    var calm: bool

    constructor (files: Files, config: Option<Contents>, calm: bool)
      ensures this.files == files && journal == None && this.config == config && this.calm == calm
    {
      this.files, journal, this.config, this.calm := files, None, config, calm;
    }

    /** A fault the environment may inject before a step takes effect. */
    method Fault() returns (r: Outcome)
      ensures calm ==> r.Done?
      ensures r.Threw? ==> r.error == IoFailure
    {
      var choice: nat := *;
      r := if calm || choice == 0 then Done else if choice == 1 then Threw(IoFailure) else Crashed;
    }

    /** Makes the parents of `destination`, then renames. The destination must be free. */
    method Move(source: Path, destination: Path, kind: Kind) returns (r: Outcome, made: set<Path>)
      modifies this`files
      ensures CanMake(old(files), made, destination)
      ensures r.Done? ==>
                && var ready := WithDirectories(old(files), made);
                && Exists(ready, source, kind) && Disjoint(source, destination)
                && Under(ready, destination) == {}
                && StrictAncestors(destination) <= ready.Keys && ParentsAreDirectories(ready, destination)
                && files == Moved(ready, source, destination)
      ensures !r.Done? ==> files == WithDirectories(old(files), made)
      ensures r.Threw? ==> r.error == IoFailure
      ensures calm && Exists(old(files), source, kind) && Disjoint(source, destination)
              && Under(old(files), destination) == {} && ParentsAreDirectories(old(files), destination)
              ==> r.Done?
    {
      var depth: int := *;
      if calm { depth := |destination|; }
      var missing := StrictAncestors(destination) - files.Keys;
      made := Makeable(files, StrictAncestors(destination), depth);
      MakeableCanBeMade(files, destination, StrictAncestors(destination), depth);
      files := WithDirectories(files, made);
      r := Fault();
      if r.Done? && !(made == missing && ParentsAreDirectories(files, destination)
                      && Exists(files, source, kind) && Disjoint(source, destination)
                      && Under(files, destination) == {}) {
        assert Under(files, destination) == Under(old(files), destination);
        r := Threw(IoFailure);
      }
      if r.Done? {
        files := Moved(files, source, destination);
      }
    }

    /** Makes a directory and the parents it lacks. */
    method CreateDirectory(p: Path) returns (r: Outcome, made: set<Path>)
      modifies this`files
      ensures CanMakeAll(old(files), made, StrictAncestors(p) + {p})
      ensures files == WithDirectories(old(files), made)
      ensures r.Done? ==> forall q | q in StrictAncestors(p) + {p} :: Exists(files, q, DirectoryKind)
      ensures r.Threw? ==> r.error == IoFailure
      ensures calm && ParentsAreDirectories(old(files), p) && !ExistsAsOtherKind(old(files), p, DirectoryKind)
              ==> r.Done?
    {
      var depth: int := *;
      if calm { depth := |p|; }
      var missing := StrictAncestors(p) + {p} - files.Keys;
      made := Makeable(files, StrictAncestors(p) + {p}, depth);
      MakeableCanBeMade(files, p, StrictAncestors(p) + {p}, depth);
      files := WithDirectories(files, made);
      r := Fault();
      if r.Done? && !(made == missing && ParentsAreDirectories(files, p) && Exists(files, p, DirectoryKind)) {
        r := Threw(IoFailure);
      }
    }

    /** Deletes a file, or a directory with everything in it, possibly only in part. */
    method Delete(p: Path, kind: Kind) returns (r: Outcome, doomed: set<Path>)
      modifies this`files
      ensures CanDelete(old(files), doomed, p) && files == old(files) - doomed
      ensures r.Done? ==> doomed == if Exists(old(files), p, kind) then Under(old(files), p) else {}
      ensures r.Threw? ==> r.error == IoFailure
      ensures calm && !ExistsAsOtherKind(old(files), p, kind) ==> r.Done?
    {
      doomed := {};
      r := Fault();
      if Exists(files, p, kind) {
        var kept: set<Path> := *;
        doomed := set q | q in Under(files, p) && (r.Done? || (q != p && forall x | x in files && q <= x :: x !in kept));
      } else if r.Done? && kind.FileKind? && ExistsAsOtherKind(files, p, kind) {
        r := Threw(IoFailure);
      }
      files := files - doomed;
    }

    /** Leaves at one place what a copy or a build leaves there, complete or not. */
    method WriteTree(p: Path, left: Tree)
      modifies this`files
      ensures files == Written(old(files), p, left)
    {
      files := Written(files, p, left);
    }

    method WriteJournal(j: Journal) returns (r: Outcome)
      modifies this`journal
      ensures journal == if r.Done? then Some(j) else old(journal)
      ensures r.Threw? ==> r.error == IoFailure
      ensures calm ==> r.Done?
    {
      r := Fault();
      if r.Done? { journal := Some(j); }
    }

    method DeleteJournal() returns (r: Outcome)
      modifies this`journal
      ensures journal == if r.Done? then None else old(journal)
      ensures r.Threw? ==> r.error == IoFailure
      ensures calm ==> r.Done?
    {
      r := Fault();
      if r.Done? { journal := None; }
    }

    /** Replaces the runtime configuration, or removes it when there is to be none. */
    method WriteConfig(contents: Option<Contents>) returns (r: Outcome)
      modifies this`config
      ensures config == if r.Done? then contents else old(config)
      ensures r.Threw? ==> r.error == IoFailure
      ensures calm ==> r.Done?
    {
      r := Fault();
      if r.Done? { config := contents; }
    }
  }

  // ---- Rolling back one entry ----

  ghost predicate KindsHold(s: Slots, kind: Kind) {
    HoldsKind(s.prepared, kind) && HoldsKind(s.destination, kind) && HoldsKind(s.backup, kind)
  }

  method RollBackEntry(disk: Disk, e: Entry, ghost before: Before, ghost k: nat) returns (r: Outcome)
    requires before.Valid() && k < |before.requests| && e == before.Entries()[k]
    requires Framed(before, disk.files) && HoldsKind(TreeAt(disk.files, before.Work()), DirectoryKind)
    requires KindsHold(SlotsAt(disk.files, e), e.kind)
    modifies disk`files
    ensures Framed(before, disk.files) && HoldsKind(TreeAt(disk.files, before.Work()), DirectoryKind)
    ensures OnlyEntry(before, old(disk.files), disk.files, k)
    ensures old(Recoverable(SlotsAt(disk.files, e), before.Original(k), e.kind)) ==>
              && Recoverable(SlotsAt(disk.files, e), before.Original(k), e.kind)
              && (r.Done? ==> TreeAt(disk.files, e.destination) == before.Original(k))
              && (r.Threw? ==> r.error == IoFailure)
              && (disk.calm ==> r.Done?)
    ensures r == Threw(MissingBackup) <==>
              old(var s := SlotsAt(disk.files, e); s.backup == map[] && s.destination == map[] && e.originalExisted)
    ensures r == Threw(AmbiguousRecovery) <==>
              old(var s := SlotsAt(disk.files, e);
                  s.backup == map[] && s.destination != map[] && s.prepared != map[] && !e.originalExisted)
  {
    ghost var files0 := disk.files;
    ValidEntries(before);
    ExistsIsNonEmpty(disk.files, e.destination, e.kind);
    ExistsIsNonEmpty(disk.files, e.backup, e.kind);
    ExistsIsNonEmpty(disk.files, e.prepared, e.kind);
    r := Done;
    var destinationExists := Exists(disk.files, e.destination, e.kind);
    if Exists(disk.files, e.backup, e.kind) {
      if destinationExists {
        r := DeleteDestination(disk, e, before, k);
        if !r.Done? { return; }
      }
      ghost var files1 := disk.files;
      r := RestoreBackup(disk, e, before, k);
      OnlyEntryTransitive(before, files0, files1, disk.files, k);
      return;
    }
    if e.originalExisted {
      if !destinationExists { r := Threw(MissingBackup); }
      return;
    }
    if destinationExists && Exists(disk.files, e.prepared, e.kind) {
      r := Threw(AmbiguousRecovery);
      return;
    }
    if destinationExists {
      r := DeleteDestination(disk, e, before, k);
    }
  }

  method DeleteDestination(disk: Disk, e: Entry, ghost before: Before, ghost k: nat) returns (r: Outcome)
    requires before.Valid() && k < |before.requests| && e == before.Entries()[k]
    requires Framed(before, disk.files) && HoldsKind(TreeAt(disk.files, before.Work()), DirectoryKind)
    requires HoldsKind(TreeAt(disk.files, e.destination), e.kind)
    requires Exists(disk.files, e.destination, e.kind)
    modifies disk`files
    ensures Framed(before, disk.files) && HoldsKind(TreeAt(disk.files, before.Work()), DirectoryKind)
    ensures OnlyEntry(before, old(disk.files), disk.files, k)
    ensures var s, s0 := SlotsAt(disk.files, e), old(SlotsAt(disk.files, e));
            && s.prepared == s0.prepared && s.backup == s0.backup && HoldsKind(s.destination, e.kind)
            && (r.Done? ==> s.destination == map[])
    ensures r.Threw? ==> r.error == IoFailure
    ensures disk.calm ==> r.Done?
  {
    ghost var files0 := disk.files;
    var doomed;
    r, doomed := disk.Delete(e.destination, e.kind);
    DeletedDestination(before, files0, disk.files, doomed, k);
  }

  method RestoreBackup(disk: Disk, e: Entry, ghost before: Before, ghost k: nat) returns (r: Outcome)
    requires before.Valid() && k < |before.requests| && e == before.Entries()[k]
    requires Framed(before, disk.files) && HoldsKind(TreeAt(disk.files, before.Work()), DirectoryKind)
    requires KindsHold(SlotsAt(disk.files, e), e.kind)
    requires TreeAt(disk.files, e.backup) != map[] && TreeAt(disk.files, e.destination) == map[]
    modifies disk`files
    ensures Framed(before, disk.files) && HoldsKind(TreeAt(disk.files, before.Work()), DirectoryKind)
    ensures OnlyEntry(before, old(disk.files), disk.files, k)
    ensures var s, s0 := SlotsAt(disk.files, e), old(SlotsAt(disk.files, e));
            s == if r.Done? then Slots(s0.prepared, s0.backup, map[]) else s0
    ensures r.Threw? ==> r.error == IoFailure
    ensures disk.calm && before.Original(k) != map[] ==> r.Done?
  {
    hide TreeAt, Moved, WithDirectories, Framed, OnlyEntry;
    ghost var files0 := disk.files;
    ValidEntries(before);
    EmptyTree(files0, e.destination);
    ExistsIsNonEmpty(files0, e.backup, e.kind);
    if before.Original(k) != map[] { DestinationParents(before, files0, k); }
    assert SlotPath(e, BackupRole) == e.backup && SlotPath(e, DestinationRole) == e.destination;
    var made;
    r, made := disk.Move(e.backup, e.destination, e.kind);
    MadeParents(before, files0, made, k, DestinationRole);
    if r.Done? {
      ghost var ready := WithDirectories(files0, made);
      WorkOfBackup(before, ready, k);
      MovedBetween(before, ready, k, BackupRole, DestinationRole);
      MovedSlots(ready, disk.files, e, BackupRole, DestinationRole);
      OnlyEntryTransitive(before, files0, ready, disk.files, k);
    }
  }

  // ---- Publishing one entry ----

  ghost predicate StagedSlots(before: Before, files: Files, i: nat)
    requires before.Valid() && i < |before.requests|
  {
    SlotsAt(files, before.Entries()[i]) == Slots(before.Staged(i), before.Original(i), map[])
  }

  ghost predicate PublishedSlots(before: Before, files: Files, i: nat)
    requires before.Valid() && i < |before.requests|
  {
    SlotsAt(files, before.Entries()[i]) == Slots(map[], before.Staged(i), before.Original(i))
  }

  /** Moves the original aside and the staged entry in. Wherever this stops, the entry can be
      rolled back. */
  method PublishEntry(disk: Disk, e: Entry, ghost before: Before, ghost k: nat) returns (r: Outcome)
    requires before.Valid() && k < |before.requests| && e == before.Entries()[k]
    requires Framed(before, disk.files) && WorkReady(before, disk.files)
    requires HoldsKind(TreeAt(disk.files, before.Work()), DirectoryKind)
    requires StagedSlots(before, disk.files, k)
    modifies disk`files
    ensures Framed(before, disk.files) && WorkReady(before, disk.files)
    ensures HoldsKind(TreeAt(disk.files, before.Work()), DirectoryKind)
    ensures OnlyEntry(before, old(disk.files), disk.files, k)
    ensures Recoverable(SlotsAt(disk.files, e), before.Original(k), e.kind)
    ensures r.Done? ==> PublishedSlots(before, disk.files, k)
    ensures r.Threw? ==> r.error == IoFailure
    ensures disk.calm && before.Publishable() ==> r.Done?
  {
    ghost var files0 := disk.files;
    ValidEntries(before);
    assert before.requests[k] in before.requests;
    if e.originalExisted {
      r := SetAside(disk, e, before, k);
      if !r.Done? { return; }
    }
    ghost var files1 := disk.files;
    r := MoveIn(disk, e, before, k);
    OnlyEntryTransitive(before, files0, files1, disk.files, k);
  }

  method SetAside(disk: Disk, e: Entry, ghost before: Before, ghost k: nat) returns (r: Outcome)
    requires before.Valid() && k < |before.requests| && e == before.Entries()[k]
    requires Framed(before, disk.files) && WorkReady(before, disk.files)
    requires HoldsKind(TreeAt(disk.files, before.Work()), DirectoryKind)
    requires StagedSlots(before, disk.files, k) && before.Original(k) != map[]
    modifies disk`files
    ensures Framed(before, disk.files) && WorkReady(before, disk.files)
    ensures HoldsKind(TreeAt(disk.files, before.Work()), DirectoryKind)
    ensures OnlyEntry(before, old(disk.files), disk.files, k)
    ensures if r.Done? then SlotsAt(disk.files, e) == Slots(before.Staged(k), map[], before.Original(k))
            else StagedSlots(before, disk.files, k)
    ensures r.Threw? ==> r.error == IoFailure
    ensures disk.calm && before.Publishable() ==> r.Done?
  {
    hide TreeAt, Moved, WithDirectories, Framed;
    ghost var files0 := disk.files;
    ValidEntries(before);
    assert before.requests[k] in before.requests;
    EmptyTree(files0, e.backup);
    ExistsIsNonEmpty(files0, e.destination, e.kind);
    if before.Publishable() { BackupParents(before, files0, k); }
    assert SlotPath(e, BackupRole) == e.backup && SlotPath(e, DestinationRole) == e.destination;
    var made;
    r, made := disk.Move(e.destination, e.backup, e.kind);
    MadeParents(before, files0, made, k, BackupRole);
    if r.Done? {
      ghost var ready := WithDirectories(files0, made);
      MovedBetween(before, ready, k, DestinationRole, BackupRole);
      MovedSlots(ready, disk.files, e, DestinationRole, BackupRole);
      OnlyEntryTransitive(before, files0, ready, disk.files, k);
    }
  }

  method MoveIn(disk: Disk, e: Entry, ghost before: Before, ghost k: nat) returns (r: Outcome)
    requires before.Valid() && k < |before.requests| && e == before.Entries()[k]
    requires Framed(before, disk.files) && WorkReady(before, disk.files)
    requires HoldsKind(TreeAt(disk.files, before.Work()), DirectoryKind)
    requires SlotsAt(disk.files, e) == Slots(before.Staged(k), map[], before.Original(k))
    modifies disk`files
    ensures Framed(before, disk.files) && WorkReady(before, disk.files)
    ensures HoldsKind(TreeAt(disk.files, before.Work()), DirectoryKind)
    ensures OnlyEntry(before, old(disk.files), disk.files, k)
    ensures if r.Done? then PublishedSlots(before, disk.files, k)
            else SlotsAt(disk.files, e) == old(SlotsAt(disk.files, e))
    ensures r.Threw? ==> r.error == IoFailure
    ensures disk.calm && before.Publishable() ==> r.Done?
  {
    hide TreeAt, Moved, WithDirectories, Framed;
    ghost var files0 := disk.files;
    ValidEntries(before);
    assert before.requests[k] in before.requests;
    EmptyTree(files0, e.destination);
    ExistsIsNonEmpty(files0, e.prepared, e.kind);
    if before.Publishable() { DestinationParents(before, files0, k); }
    assert SlotPath(e, PreparedRole) == e.prepared && SlotPath(e, DestinationRole) == e.destination;
    var made;
    r, made := disk.Move(e.prepared, e.destination, e.kind);
    MadeParents(before, files0, made, k, DestinationRole);
    if r.Done? {
      ghost var ready := WithDirectories(files0, made);
      MovedBetween(before, ready, k, PreparedRole, DestinationRole);
      MovedSlots(ready, disk.files, e, PreparedRole, DestinationRole);
      OnlyEntryTransitive(before, files0, ready, disk.files, k);
    }
  }

  // ---- Cleaning up ----

  /** Removes the work directory and then the journal, once the journal says the operation is
      over. */
  method CleanUp(disk: Disk, j: Journal, ghost before: Before) returns (r: Outcome)
    requires before.Valid() && JournalOf(before, j) && disk.journal == Some(j)
    requires j.state.Committed? || j.state.RolledBack?
    requires Safe(before, disk.files, disk.journal, disk.config)
    modifies disk`files, disk`journal
    ensures Framed(before, disk.files)
    ensures disk.journal == if r.Done? then None else Some(j)
    ensures Safe(before, disk.files, Some(j), disk.config)
    ensures r.Done? ==> TreeAt(disk.files, before.Work()) == map[]
    ensures r.Threw? ==> r.error == IoFailure
    ensures disk.calm ==> r.Done?
  {
    ghost var files0 := disk.files;
    ExistsIsNonEmpty(disk.files, before.Work(), DirectoryKind);
    EmptyTree(disk.files, before.Work());
    assert before.Work() + [] == before.Work();
    TreeAtMembers(disk.files, before.Work(), []);
    var doomed;
    r, doomed := disk.Delete(j.workRoot, DirectoryKind);
    DeletedWork(before, files0, doomed);
    if !r.Done? { return; }
    r := disk.DeleteJournal();
  }

  // ---- Making the work directory ----

  /** The work directory as Begin leaves it, complete or not. */
  ghost predicate MadeWork(before: Before, files: Files, complete: bool)
    requires before.Valid()
  {
    && Framed(before, files)
    && (forall i | 0 <= i < |before.requests| :: StagedSlots(before, files, i))
    && (complete ==> WorkReady(before, files) && HoldsKind(TreeAt(files, before.Work()), DirectoryKind))
  }

  /** The directories that `CreateDirectory` makes for the backups. */
  ghost function WorkPlaces(before: Before): set<Path>
    requires !IsVolumeRoot(before.site.root)
  {
    StrictAncestors(before.Work() + ["BACKUP"]) + {before.Work() + ["BACKUP"]}
  }

  lemma MakingWork(before: Before, made: set<Path>, complete: bool)
    requires before.Valid() && CanMakeAll(before.files, made, WorkPlaces(before))
    requires complete ==> forall q | q in WorkPlaces(before) :: Exists(WithDirectories(before.files, made), q, DirectoryKind)
    ensures MadeWork(before, WithDirectories(before.files, made), complete)
  {
    hide TreeAt, Framed, StagedSlots, RequestsAccepted, WellFormed, WithDirectories;
    MakingKeepsWellFormed(before.files, made, WorkPlaces(before));
    forall q | q in made
      ensures q <= before.Work() + ["BACKUP"] && (q < before.Work() || before.Work() <= q)
    {
      WorkPlacesCompare(before, q);
    }
    MadeWorkIsFramed(before, made);
    forall i | 0 <= i < |before.requests|
      ensures StagedSlots(before, WithDirectories(before.files, made), i)
    {
      WorkMissesSlots(before, made, i);
    }
    if complete { WorkIsMade(before, WithDirectories(before.files, made)); }
  }

  lemma WorkPlacesCompare(before: Before, q: Path)
    requires !IsVolumeRoot(before.site.root) && q in WorkPlaces(before)
    ensures q <= before.Work() + ["BACKUP"] && (q < before.Work() || before.Work() <= q)
  {
    PrefixesCompare(q, before.Work(), before.Work() + ["BACKUP"]);
  }

  lemma WorkIsMade(before: Before, files: Files)
    requires !IsVolumeRoot(before.site.root)
    requires forall q | q in WorkPlaces(before) :: Exists(files, q, DirectoryKind)
    ensures WorkReady(before, files) && HoldsKind(TreeAt(files, before.Work()), DirectoryKind)
  {
    var w := before.Work();
    assert (w + ["BACKUP"])[..|w|] == w && w in WorkPlaces(before) && w + ["BACKUP"] in WorkPlaces(before);
    assert w + [] == w;
    TreeAtMembers(files, w, []);
  }

  lemma MadeWorkIsFramed(before: Before, made: set<Path>)
    requires before.Valid() && made !! before.files.Keys && WellFormed(WithDirectories(before.files, made))
    requires forall q | q in made :: q < before.Work() || before.Work() <= q
    ensures Framed(before, WithDirectories(before.files, made))
  {
    hide TreeAt, RequestsAccepted, WellFormed;
  }

  lemma WorkMissesSlots(before: Before, made: set<Path>, i: nat)
    requires before.Valid() && i < |before.requests|
    requires forall q | q in made :: q <= before.Work() + ["BACKUP"]
    ensures StagedSlots(before, WithDirectories(before.files, made), i)
  {
    ValidEntries(before);
    BackupsDisjoint(before.Work(), i, i);
    WorkMissesTrees(before.files, made, before.Work(), before.Entries()[i]);
  }

  lemma WorkMissesTrees(files: Files, made: set<Path>, w: Path, e: Entry)
    requires forall q | q in made :: q <= w + ["BACKUP"]
    requires Disjoint(e.prepared, w) && Disjoint(e.destination, w)
    requires w < e.backup && |e.backup| == |w| + 2
    requires Under(files, w) == {}
    ensures SlotsAt(WithDirectories(files, made), e) == Slots(TreeAt(files, e.prepared), TreeAt(files, e.destination), map[])
  {
    var inner := w + ["BACKUP"];
    assert w <= inner && |e.backup| > |inner|;
    PrefixesCompare(e.prepared, w, inner);
    PrefixesCompare(e.destination, w, inner);
    MissedTree(files, made, inner, e.prepared);
    MissedTree(files, made, inner, e.destination);
    MissedTree(files, made, inner, e.backup);
    assert Under(files, e.backup) <= Under(files, w);
    EmptyTree(files, e.backup);
  }

  lemma MissedTree(files: Files, made: set<Path>, inner: Path, p: Path)
    requires forall q | q in made :: q <= inner
    requires !(p <= inner)
    ensures TreeAt(WithDirectories(files, made), p) == TreeAt(files, p)
  {
  }

  lemma WorkCanBeMade(before: Before)
    requires before.Valid() && before.Publishable()
    ensures ParentsAreDirectories(before.files, before.Work() + ["BACKUP"])
    ensures before.Work() + ["BACKUP"] !in before.files
  {
    var w := before.Work();
    forall q | q in StrictAncestors(w + ["BACKUP"])
      ensures q in before.files ==> before.files[q] == Directory
    {
      if |q| == |w| {
        assert q == w;
        assert w !in Under(before.files, w);
      } else {
        assert q == w[..|q|] && q in StrictAncestors(w);
      }
    }
    assert w <= w + ["BACKUP"] && w + ["BACKUP"] !in Under(before.files, w);
  }
}
