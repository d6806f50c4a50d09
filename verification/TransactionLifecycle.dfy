/** The install transaction as the program drives it: begin, publish, record, commit, dispose, and
    recovery after any number of crashes. */
module TransactionLifecycle {
  import opened Paths
  import opened FileTrees
  import opened Transactions
  import opened InstallTransactions
  import opened Wrappers

  /** The checks of one request against the entries already accepted. */
  method CheckRequest(root: Path, files: Files, requests: seq<Request>, index: nat, normalized: seq<Entry>)
    returns (failure: Option<Failure>)
    requires |normalized| == index < |requests|
    requires forall j | 0 <= j < index ::
               normalized[j].prepared == requests[j].prepared && normalized[j].destination == requests[j].destination
    ensures failure.None? <==> RequestAccepted(root, files, requests, index)
    ensures failure.Some? ==> Rejects(root, files, requests, index, failure.value)
  {
    hide PathsOverlap, PathContains, InScope, Exists, ExistsAsOtherKind;
    var requested := requests[index];
    if !InScope(root, requested.destination) { return Some(OutOfScope); }
    if PathsOverlap(requested.prepared, requested.destination) { return Some(OverlappingPaths); }
    if !Exists(files, requested.prepared, requested.kind) { return Some(MissingPrepared); }
    if ExistsAsOtherKind(files, requested.prepared, requested.kind) { return Some(WrongType); }
    if ExistsAsOtherKind(files, requested.destination, requested.kind) { return Some(WrongType); }
    var previous := 0;
    while previous < |normalized|
      invariant 0 <= previous <= |normalized|
      invariant forall j | 0 <= j < previous :: CompatibleRequests(requested, requests[j])
    {
      var p := normalized[previous];
      if PathsOverlap(requested.destination, p.destination)
         || PathsOverlap(requested.prepared, p.prepared)
         || PathsOverlap(requested.prepared, p.destination)
         || PathsOverlap(requested.destination, p.prepared) {
        assert !CompatibleRequests(requested, requests[previous]);
        return Some(OverlappingPaths);
      }
      previous := previous + 1;
    }
    return None;
  }

  /** The first request that is not accepted gives this reason. */
  ghost predicate IsRejected(root: Path, files: Files, requests: seq<Request>, failure: Failure) {
    exists i | 0 <= i < |requests| ::
      (forall j | 0 <= j < i :: RequestAccepted(root, files, requests, j)) && Rejects(root, files, requests, i, failure)
  }

  /** Checks the requests one by one against those before them, as Begin does, and records where
      each is to be backed up. */
  method NormalizeEntries(root: Path, workRoot: Path, files: Files, requests: seq<Request>)
    returns (r: Result<seq<Entry>, Failure>)
    ensures r.Success? <==> RequestsAccepted(root, files, requests)
    ensures r.Success? ==> r.value == EntriesFor(files, workRoot, requests)
    ensures r.Failure? ==> IsRejected(root, files, requests, r.error)
  {
    hide RequestAccepted, Rejects, BackupPath, Exists;
    var normalized: seq<Entry> := [];
    var index := 0;
    while index < |requests|
      invariant 0 <= index <= |requests| && |normalized| == index
      invariant forall i | 0 <= i < index :: normalized[i] == EntryFor(files, workRoot, requests[i], i)
      invariant forall i | 0 <= i < index :: RequestAccepted(root, files, requests, i)
    {
      var failure := CheckRequest(root, files, requests, index, normalized);
      if failure.Some? { return Failure(failure.value); }
      normalized := normalized + [EntryFor(files, workRoot, requests[index], index)];
      index := index + 1;
    }
    return Success(normalized);
  }

  // ---- States of a transaction in memory and on disk ----

  /** The journal on disk calls for a roll-back. The journal in memory may be a step ahead. */
  ghost predicate RollBackState(
    before: Before, files: Files, journal: Journal, stored: Option<Journal>, config: Option<Contents>)
    requires before.Valid()
  {
    && JournalOf(before, journal) && ConfigRecoverable(before, journal, config)
    && stored.Some? && (stored.value.state.Prepared? || stored.value.state.Published?)
    && Safe(before, files, stored, config)
  }

  /** Nothing has been moved yet. */
  ghost predicate StagedState(before: Before, files: Files, journal: Journal, config: Option<Contents>)
    requires before.Valid()
  {
    && RollBackState(before, files, journal, Some(journal), config)
    && journal.state.Prepared? && !journal.mutationPlanned
    && WorkReady(before, files)
    && forall i | 0 <= i < |before.requests| :: StagedSlots(before, files, i)
  }

  /** Everything staged is in place and the journal says so. */
  ghost predicate PublishedState(before: Before, files: Files, journal: Journal, config: Option<Contents>)
    requires before.Valid()
  {
    && RollBackState(before, files, journal, Some(journal), config)
    && journal.state.Published?
    && AllNew(before, files)
  }

  lemma StagedIsRecoverable(before: Before, files: Files)
    requires before.Valid()
    requires forall i | 0 <= i < |before.requests| :: StagedSlots(before, files, i)
    ensures AllRecoverable(before, files)
  {
    ValidEntries(before);
    forall i | 0 <= i < |before.requests|
      ensures Recoverable(SlotsAt(files, before.Entries()[i]), before.Original(i), before.requests[i].kind)
    {
      assert StagedSlots(before, files, i);
      UntouchedIsRecoverable(before.Staged(i), before.Original(i), before.requests[i].kind);
    }
  }

  lemma UntouchedIsRecoverable(staged: Tree, original: Tree, kind: Kind)
    requires HoldsKind(staged, kind) && HoldsKind(original, kind)
    ensures Recoverable(Slots(staged, original, map[]), original, kind)
  {
  }

  lemma StagedIsOriginal(before: Before, files: Files)
    requires before.Valid()
    requires forall i | 0 <= i < |before.requests| :: StagedSlots(before, files, i)
    ensures AllOriginal(before, files)
  {
    forall i | 0 <= i < |before.requests|
      ensures TreeAt(files, before.requests[i].destination) == before.Original(i)
    {
      assert StagedSlots(before, files, i);
      assert SlotsAt(files, before.Entries()[i]).destination == before.Original(i);
    }
  }

  lemma StartIsStaged(before: Before, files: Files)
    requires before.Valid() && MadeWork(before, files, true)
    ensures StagedState(before, files, NewJournal(before.site, before.id, before.files, before.requests), before.config)
  {
    StagedIsRecoverable(before, files);
  }

  lemma EntryKeepsRecoverable(before: Before, files: Files, files': Files, k: nat)
    requires before.Valid() && k < |before.requests|
    requires AllRecoverable(before, files) && OnlyEntry(before, files, files', k)
    requires Recoverable(SlotsAt(files', before.Entries()[k]), before.Original(k), before.requests[k].kind)
    ensures AllRecoverable(before, files')
  {
  }

  lemma EntryKeepsDestination(before: Before, files: Files, files': Files, k: nat, i: nat)
    requires before.Valid() && k < |before.requests| && i < |before.requests| && i != k
    requires OnlyEntry(before, files, files', k)
    ensures TreeAt(files', before.requests[i].destination) == TreeAt(files, before.requests[i].destination)
    ensures StagedSlots(before, files, i) ==> StagedSlots(before, files', i)
  {
    assert SlotsAt(files', before.Entries()[i]) == SlotsAt(files, before.Entries()[i]);
  }

  ghost predicate Framing(before: Before, files: Files)
    requires before.Valid()
  {
    Framed(before, files) && HoldsKind(TreeAt(files, before.Work()), DirectoryKind)
  }

  /** The first `k` entries are published, the others untouched. */
  ghost predicate PublishedUpTo(before: Before, files: Files, k: nat)
    requires before.Valid() && k <= |before.requests|
  {
    && Framing(before, files) && WorkReady(before, files) && AllRecoverable(before, files)
    && (forall i | 0 <= i < k :: TreeAt(files, before.requests[i].destination) == before.Staged(i))
    && (forall i | k <= i < |before.requests| :: StagedSlots(before, files, i))
  }

  lemma PublishedOneMore(before: Before, files: Files, files': Files, k: nat)
    requires before.Valid() && k < |before.requests| && PublishedUpTo(before, files, k)
    requires OnlyEntry(before, files, files', k) && Framing(before, files') && WorkReady(before, files')
    requires AllRecoverable(before, files') && PublishedSlots(before, files', k)
    ensures PublishedUpTo(before, files', k + 1)
  {
    forall i | 0 <= i < k + 1
      ensures TreeAt(files', before.requests[i].destination) == before.Staged(i)
    {
      if i < k {
        EntryKeepsDestination(before, files, files', k, i);
      } else {
        PublishedDestination(before, files', k);
      }
    }
    forall i | k + 1 <= i < |before.requests|
      ensures StagedSlots(before, files', i)
    {
      assert StagedSlots(before, files, i);
      EntryKeepsDestination(before, files, files', k, i);
    }
  }

  lemma PublishedDestination(before: Before, files: Files, k: nat)
    requires before.Valid() && k < |before.requests| && PublishedSlots(before, files, k)
    ensures TreeAt(files, before.requests[k].destination) == before.Staged(k)
  {
    hide TreeAt, Before.Valid;
  }

  /** The entries from `k` on are restored, the others still recoverable. */
  ghost predicate RestoredFrom(before: Before, files: Files, k: nat)
    requires before.Valid() && k <= |before.requests|
  {
    && Framing(before, files) && AllRecoverable(before, files)
    && (forall i | k <= i < |before.requests| :: TreeAt(files, before.requests[i].destination) == before.Original(i))
  }

  lemma RestoredOneMore(before: Before, files: Files, files': Files, k: nat)
    requires before.Valid() && k < |before.requests| && RestoredFrom(before, files, k + 1)
    requires OnlyEntry(before, files, files', k) && Framing(before, files') && AllRecoverable(before, files')
    requires TreeAt(files', before.requests[k].destination) == before.Original(k)
    ensures RestoredFrom(before, files', k)
  {
    hide TreeAt, Before.Valid, AllRecoverable, Framing;
    forall i | k <= i < |before.requests|
      ensures TreeAt(files', before.requests[i].destination) == before.Original(i)
    {
      if i > k { EntryKeepsDestination(before, files, files', k, i); }
    }
  }

  /** Interrupted before the commit point: the next recovery rolls back. */
  ghost predicate Interrupted(before: Before, files: Files, stored: Option<Journal>, config: Option<Contents>)
    requires before.Valid()
  {
    stored.Some? && !stored.value.state.Committed? && Safe(before, files, stored, config)
  }

  /** Rolled back, with nothing left of the transaction but parents it made. */
  ghost predicate Undone(before: Before, files: Files, stored: Option<Journal>, config: Option<Contents>)
    requires before.Valid()
  {
    && stored.None? && AllOriginal(before, files) && config == before.config
    && Framed(before, files) && TreeAt(files, before.Work()) == map[]
  }

  /** Past the commit point: every destination and the configuration are new. */
  ghost predicate IsCommitted(before: Before, files: Files, stored: Option<Journal>, config: Option<Contents>)
    requires before.Valid()
  {
    && AllNew(before, files) && config == before.intended && Framed(before, files)
    && (stored.Some? ==> stored.value.state.Committed? && Safe(before, files, stored, config))
  }

  class InstallTransaction {
    const disk: Disk
    const site: Site
    var journal: Journal
    var finished: bool

    constructor (disk: Disk, site: Site, journal: Journal)
      ensures this.disk == disk && this.site == site && this.journal == journal && !finished
    {
      this.disk, this.site, this.journal, finished := disk, site, journal, false;
    }

    ghost predicate CanRollBack(before: Before)
      reads this, disk
    {
      && before.Valid() && site == before.site && !finished
      && RollBackState(before, disk.files, journal, disk.journal, disk.config)
    }

    ghost predicate ReadyToPublish(before: Before)
      reads this, disk
    {
      && before.Valid() && site == before.site && !finished && disk.journal == Some(journal)
      && StagedState(before, disk.files, journal, disk.config)
    }

    ghost predicate IsPublished(before: Before)
      reads this, disk
    {
      && before.Valid() && site == before.site && !finished && disk.journal == Some(journal)
      && PublishedState(before, disk.files, journal, disk.config)
    }

    static method Begin(disk: Disk, site: Site, id: Token, requests: seq<Request>,
                        ghost before: Before)
      returns (r: Outcome, t: InstallTransaction?)
      requires before.site == site && before.id == id && before.requests == requests
      requires before.files == disk.files && before.config == disk.config
      requires id != ""
      requires !IsVolumeRoot(site.root) ==> FreshWorkRoot(site, disk.files, WorkRoot(site, id))
      modifies disk`files, disk`journal
      ensures r.Done? <==> t != null
      ensures r.Done? ==>
                && fresh(t) && t.disk == disk && t.site == site && !t.finished
                && !IsVolumeRoot(site.root) && requests != [] && old(disk.journal).None?
                && RequestsAccepted(site.root, old(disk.files), requests)
                && t.journal == NewJournal(site, id, old(disk.files), requests)
                && disk.journal == Some(t.journal)
      ensures before.Valid() ==> Framed(before, disk.files)
      ensures before.Valid() && !r.Done? ==> AllOriginal(before, disk.files)
      ensures before.Valid() && r.Done? ==> t.ReadyToPublish(before)
      ensures !r.Done? ==> disk.journal == old(disk.journal)
      ensures r == Threw(NoEntries) <==> requests == []
      ensures r == Threw(NoParentDirectory) <==> requests != [] && IsVolumeRoot(site.root)
      ensures r == Threw(UnfinishedTransaction) <==>
                requests != [] && !IsVolumeRoot(site.root) && old(disk.journal).Some?
      ensures requests != [] && !IsVolumeRoot(site.root) && old(disk.journal).None? ==>
                if RequestsAccepted(site.root, old(disk.files), requests) then r.Threw? ==> r.error == IoFailure
                else r.Threw? && IsRejected(site.root, old(disk.files), requests, r.error)
      ensures r.Threw? && r.error != IoFailure ==> disk.files == old(disk.files)
      ensures disk.calm && before.Valid() && before.Publishable() && old(disk.journal).None? ==> r.Done?
    {
      t := null;
      if requests == [] { r := Threw(NoEntries); return; }
      if IsVolumeRoot(site.root) { r := Threw(NoParentDirectory); return; }
      if disk.journal.Some? { r := Threw(UnfinishedTransaction); return; }
      var workRoot := WorkRoot(site, id);
      var entries := NormalizeEntries(site.root, workRoot, disk.files, requests);
      if entries.Failure? { r := Threw(entries.error); return; }
      var journal := Journal(SCHEMA_VERSION, id, site.root, workRoot, Prepared, entries.value, false, None);
      r := WriteFirstJournal(disk, journal, before);
      if !r.Done? { return; }
      t := new InstallTransaction(disk, site, journal);
    }

    /** Makes the backup directory, then writes the journal: before it is written there is no
        transaction. */
    static method WriteFirstJournal(disk: Disk, journal: Journal, ghost before: Before) returns (r: Outcome)
      requires !IsVolumeRoot(before.site.root)
      requires journal == NewJournal(before.site, before.id, before.files, before.requests)
      requires before.files == disk.files && before.config == disk.config
      modifies disk`files, disk`journal
      ensures disk.journal == if r.Done? then Some(journal) else old(disk.journal)
      ensures r.Threw? ==> r.error == IoFailure
      ensures before.Valid() ==> Framed(before, disk.files)
      ensures before.Valid() && !r.Done? ==> AllOriginal(before, disk.files)
      ensures before.Valid() && r.Done? ==> StagedState(before, disk.files, journal, disk.config)
      ensures disk.calm && before.Valid() && before.Publishable() ==> r.Done?
    {
      hide TreeAt, WithDirectories, Framed, StagedSlots, StagedState, CanMakeAll, Before.Valid;
      if before.Valid() && before.Publishable() { WorkCanBeMade(before); }
      var made;
      r, made := disk.CreateDirectory(journal.workRoot + ["BACKUP"]);
      if before.Valid() {
        MakingWork(before, made, r.Done?);
        StagedIsOriginal(before, disk.files);
        if r.Done? { StartIsStaged(before, disk.files); }
      }
      if !r.Done? { return; }
      r := disk.WriteJournal(journal);
    }

    /** Moves every old destination aside and every prepared entry in. */
    method PublishEntries(ghost before: Before) returns (r: Outcome)
      requires ReadyToPublish(before)
      modifies disk`files
      ensures Framed(before, disk.files) && HoldsKind(TreeAt(disk.files, before.Work()), DirectoryKind)
      ensures AllRecoverable(before, disk.files)
      ensures r.Done? ==> AllNew(before, disk.files)
      ensures r.Threw? ==> r.error == IoFailure
      ensures disk.calm && before.Publishable() ==> r.Done?
    {
      r := Done;
      var k := 0;
      assert journal.entries == before.Entries();
      StagedIsRecoverable(before, disk.files);
      while k < |journal.entries|
        invariant 0 <= k <= |before.requests| == |journal.entries| && r.Done?
        invariant PublishedUpTo(before, disk.files, k)
      {
        ghost var files0 := disk.files;
        assert StagedSlots(before, files0, k);
        r := PublishEntry(disk, journal.entries[k], before, k);
        EntryKeepsRecoverable(before, files0, disk.files, k);
        if !r.Done? { return; }
        PublishedOneMore(before, files0, disk.files, k);
        k := k + 1;
      }
    }

    /** Restores every destination in reverse order, then the configuration, then records that
        the roll-back is done and removes what is left of the transaction. */
    method RollBack(ghost before: Before) returns (r: Outcome)
      requires before.Valid() && (finished || CanRollBack(before))
      modifies this, disk`files, disk`journal, disk`config
      ensures old(finished) ==>
                r.Done? && finished && disk.files == old(disk.files) && disk.journal == old(disk.journal)
                && disk.config == old(disk.config)
      ensures !old(finished) && |before.requests| > MAXIMUM_ENTRIES ==>
                r == Threw(InvalidJournal) && CanRollBack(before) && disk.files == old(disk.files)
      ensures !old(finished) && |before.requests| <= MAXIMUM_ENTRIES ==>
                && (r.Done? ==> finished && Undone(before, disk.files, disk.journal, disk.config))
                && (r.Threw? ==> r.error == IoFailure)
                && (r.Threw? && !finished ==> CanRollBack(before))
                && (!r.Done? ==> Interrupted(before, disk.files, disk.journal, disk.config))
                && (disk.calm ==> r.Done?)
    {
      if finished { return Done; }
      JournalOfIsValid(before, journal);
      if !JournalIsValid(site, journal) { return Threw(InvalidJournal); }

      r := RollBackEntries(before);
      if !r.Done? { return; }
      if journal.mutationPlanned {
        r := disk.WriteConfig(journal.savedConfig);
        if !r.Done? { return; }
      }
      journal := journal.(state := RolledBack);
      r := disk.WriteJournal(journal);
      if !r.Done? { return; }
      finished := true;
      r := CleanUp(disk, journal, before);
    }

    method RollBackEntries(ghost before: Before) returns (r: Outcome)
      requires CanRollBack(before)
      modifies disk`files
      ensures CanRollBack(before)
      ensures r.Done? ==> AllOriginal(before, disk.files)
      ensures r.Threw? ==> r.error == IoFailure
      ensures disk.calm ==> r.Done?
    {
      r := Done;
      var k := |journal.entries|;
      assert journal.entries == before.Entries();
      while k > 0
        invariant 0 <= k <= |before.requests| == |journal.entries| && r.Done?
        invariant RestoredFrom(before, disk.files, k)
      {
        k := k - 1;
        ghost var files0 := disk.files;
        assert Recoverable(SlotsAt(files0, before.Entries()[k]), before.Original(k), before.requests[k].kind);
        r := RollBackEntry(disk, journal.entries[k], before, k);
        EntryKeepsRecoverable(before, files0, disk.files, k);
        if !r.Done? { return; }
        RestoredOneMore(before, files0, disk.files, k);
      }
    }

    /** Publishes everything, or rolls back what was published. */
    method Publish(ghost before: Before) returns (r: Outcome)
      requires before.Valid() && (!finished && journal.state.Prepared? ==> ReadyToPublish(before))
      modifies this, disk`files, disk`journal, disk`config
      ensures old(finished || !journal.state.Prepared?) ==>
                r == Threw(WrongState) && finished == old(finished) && journal == old(journal)
                && disk.files == old(disk.files) && disk.journal == old(disk.journal) && disk.config == old(disk.config)
      ensures old(!finished && journal.state.Prepared?) ==>
                && (r.Done? ==> IsPublished(before) && !journal.mutationPlanned && disk.config == before.config)
                && (r.Threw? && r.error != RollbackFailed ==>
                      r.error == IoFailure && finished && Undone(before, disk.files, disk.journal, disk.config))
                && (r == Threw(RollbackFailed) ==>
                      && Interrupted(before, disk.files, disk.journal, disk.config)
                      && (!finished ==> CanRollBack(before)))
                && (r.Crashed? ==> Interrupted(before, disk.files, disk.journal, disk.config))
                && (disk.calm && before.Publishable() ==> r.Done?)
    {
      hide Framed, AllRecoverable, AllNew, AllOriginal, WorkReady, StagedSlots, HoldsKind, Before.Publishable;
      if finished || !journal.state.Prepared? { return Threw(WrongState); }
      r := PublishEntries(before);
      if r.Done? {
        journal := journal.(state := Published);
        r := disk.WriteJournal(journal);
      }
      if r.Threw? {
        var undo := RollBack(before);
        if undo.Crashed? { return Crashed; }
        if undo.Threw? { return Threw(RollbackFailed); }
      }
    }

    /** Records the configuration as it was, before the caller changes it. */
    method RecordRuntimeConfigurationMutation(snapshot: Option<Contents>, ghost before: Before) returns (r: Outcome)
      requires before.Valid() && (!finished && journal.state.Published? ==> IsPublished(before))
      requires snapshot == before.config == disk.config
      modifies this, disk`journal
      ensures finished == old(finished)
      ensures old(finished || !journal.state.Published?) ==>
                r == Threw(WrongState) && journal == old(journal) && disk.journal == old(disk.journal)
      ensures old(!finished && journal.state.Published?) ==>
                && (if r.Done? then IsPublished(before) && journal.mutationPlanned && journal.savedConfig == before.config
                    else CanRollBack(before))
                && (r.Threw? ==> r.error == IoFailure)
                && (disk.calm ==> r.Done?)
    {
      if finished || !journal.state.Published? { return Threw(WrongState); }
      journal := journal.(savedConfig := snapshot, mutationPlanned := true);
      r := disk.WriteJournal(journal);
    }

    /** Makes the published paths authoritative. A failing clean-up is left to recovery. */
    method Commit(ghost before: Before) returns (r: Outcome)
      requires before.Valid()
      requires !finished && journal.state.Published? ==> IsPublished(before) && disk.config == before.intended
      modifies this, disk`files, disk`journal
      ensures old(finished || !journal.state.Published?) ==>
                r == Threw(WrongState) && finished == old(finished) && journal == old(journal)
                && disk.files == old(disk.files) && disk.journal == old(disk.journal)
      ensures old(!finished && journal.state.Published?) ==>
                && (r.Done? ==> finished && IsCommitted(before, disk.files, disk.journal, disk.config))
                && (r.Threw? ==> r.error == IoFailure && CanRollBack(before))
                && (r.Crashed? ==> IsCommitted(before, disk.files, disk.journal, disk.config)
                                   || Interrupted(before, disk.files, disk.journal, disk.config))
                && (disk.calm ==> r.Done? && disk.journal.None?)
    {
      if finished || !journal.state.Published? { return Threw(WrongState); }
      journal := journal.(state := Committed);
      r := disk.WriteJournal(journal);
      if !r.Done? { return; }
      finished := true;
      var cleaned := CleanUp(disk, journal, before);
      if cleaned.Crashed? { r := Crashed; }
    }

    method Dispose(ghost before: Before) returns (r: Outcome)
      requires before.Valid() && (finished || CanRollBack(before))
      modifies this, disk`files, disk`journal, disk`config
      ensures old(finished) ==>
                r.Done? && disk.files == old(disk.files) && disk.journal == old(disk.journal)
                && disk.config == old(disk.config)
      ensures !old(finished) && |before.requests| > MAXIMUM_ENTRIES ==>
                r == Threw(InvalidJournal) && CanRollBack(before)
      ensures !old(finished) && |before.requests| <= MAXIMUM_ENTRIES ==>
                && (r.Done? ==> Undone(before, disk.files, disk.journal, disk.config))
                && (!r.Done? ==> Interrupted(before, disk.files, disk.journal, disk.config))
    {
      if finished { return Done; }
      r := RollBack(before);
    }

    /** Recovery at the next start. It reads only the disk, whatever step the crash interrupted,
        and never meets a missing backup or an ambiguous pair. */
    static method Recover(disk: Disk, site: Site, ghost before: Before) returns (r: Outcome)
      requires before.Valid() && site == before.site
      requires disk.journal.Some? ==> Safe(before, disk.files, disk.journal, disk.config)
      modifies disk`files, disk`journal, disk`config
      ensures old(disk.journal).None? || |before.requests| > MAXIMUM_ENTRIES ==>
                && r == (if old(disk.journal).None? then Done else Threw(InvalidJournal))
                && disk.files == old(disk.files) && disk.journal == old(disk.journal)
                && disk.config == old(disk.config)
      ensures old(disk.journal).Some? && |before.requests| <= MAXIMUM_ENTRIES ==>
                && (r.Done? ==> disk.journal.None? && TreeAt(disk.files, before.Work()) == map[])
                && (r.Threw? ==> r.error == IoFailure)
                && (!r.Done? ==> disk.journal.Some?)
                && (disk.calm ==> r.Done?)
                && if old(disk.journal.value.state).Committed?
                   then IsCommitted(before, disk.files, disk.journal, disk.config)
                   else if r.Done? then Undone(before, disk.files, disk.journal, disk.config)
                   else Interrupted(before, disk.files, disk.journal, disk.config)
    {
      if disk.journal.None? { return Done; }
      var journal := disk.journal.value;
      JournalOfIsValid(before, journal);
      if !JournalIsValid(site, journal) { return Threw(InvalidJournal); }
      if journal.state.Committed? || journal.state.RolledBack? {
        r := CleanUp(disk, journal, before);
        return;
      }
      var transaction := new InstallTransaction(disk, site, journal);
      r := transaction.RollBack(before);
    }
  }

  // ---- Whole runs ----

  /** All old or all new, never a mix. */
  ghost predicate Settled(before: Before, files: Files, config: Option<Contents>)
    requires before.Valid()
  {
    && Framed(before, files)
    && ((AllNew(before, files) && config == before.intended) || (AllOriginal(before, files) && config == before.config))
  }

  /** All old, or on the way back to it. */
  ghost predicate Undoing(before: Before, files: Files, stored: Option<Journal>, config: Option<Contents>)
    requires before.Valid()
  {
    if stored.None? then Framed(before, files) && AllOriginal(before, files) && config == before.config
    else Interrupted(before, files, stored, config)
  }

  /** Once the mutation is on record, the configuration may change. */
  lemma ChangedConfig(before: Before, files: Files, journal: Journal, config: Option<Contents>, config': Option<Contents>)
    requires before.Valid() && PublishedState(before, files, journal, config) && journal.mutationPlanned
    ensures PublishedState(before, files, journal, config')
  {
    hide AllRecoverable, Framed, AllNew;
  }

  /** One update: publish, record and change the configuration if there is a new one, commit, and
      dispose on every way out but a crash. */
  method ApplyUpdate(disk: Disk, site: Site, id: Token, requests: seq<Request>, newConfig: Option<Contents>,
                     ghost before: Before) returns (r: Outcome)
    requires before == Before(site, id, requests, disk.files, disk.config,
                              if newConfig.Some? then newConfig else disk.config)
    requires before.Ready() && |requests| <= MAXIMUM_ENTRIES
    modifies disk`files, disk`journal, disk`config
    ensures !before.Valid() || old(disk.journal).Some? ==>
              r.Threw? && disk.files == old(disk.files) && disk.journal == old(disk.journal)
              && disk.config == old(disk.config)
    ensures before.Valid() && old(disk.journal).None? ==>
              && (r.Done? ==> IsCommitted(before, disk.files, disk.journal, disk.config))
              && (r.Threw? ==> Undoing(before, disk.files, disk.journal, disk.config))
              && (disk.journal.Some? ==> Safe(before, disk.files, disk.journal, disk.config))
              && (disk.journal.None? ==> Settled(before, disk.files, disk.config))
              && (disk.calm && before.Publishable() ==> r.Done? && disk.journal.None?)
  {
    hide Safe, Framed, AllNew, AllOriginal, ConfigRecoverable, Before.Publishable;
    var snapshot := disk.config;
    var transaction;
    r, transaction := InstallTransaction.Begin(disk, site, id, requests, before);
    if !r.Done? { return; }
    r := transaction.Publish(before);
    if r.Done? && newConfig.Some? {
      r := transaction.RecordRuntimeConfigurationMutation(snapshot, before);
      if r.Done? {
        r := disk.WriteConfig(newConfig);
        ChangedConfig(before, disk.files, transaction.journal, before.config, disk.config);
      }
    }
    if r.Done? { r := transaction.Commit(before); }
    if r.Crashed? { return; }
    var disposed := transaction.Dispose(before);
    if !disposed.Done? { r := disposed; }
  }

  /** An update followed by any number of restarts, each of which may crash again. Once no journal
      is left the installation is all old or all new; until then it stays recoverable. */
  method UpdateThroughCrashes(disk: Disk, site: Site, id: Token, requests: seq<Request>,
                              newConfig: Option<Contents>, restarts: nat, ghost before: Before)
    returns (settled: bool)
    requires before == Before(site, id, requests, disk.files, disk.config,
                              if newConfig.Some? then newConfig else disk.config)
    requires before.Valid() && |requests| <= MAXIMUM_ENTRIES && disk.journal.None?
    modifies disk`files, disk`journal, disk`config
    ensures settled <==> disk.journal.None?
    ensures settled ==> Settled(before, disk.files, disk.config)
    ensures !settled ==> Safe(before, disk.files, disk.journal, disk.config)
  {
    var r := ApplyUpdate(disk, site, id, requests, newConfig, before);
    settled := disk.journal.None?;
    var starts := 0;
    while !settled && starts < restarts
      invariant settled <==> disk.journal.None?
      invariant settled ==> Settled(before, disk.files, disk.config)
      invariant !settled ==> Safe(before, disk.files, disk.journal, disk.config)
    {
      r := InstallTransaction.Recover(disk, site, before);
      settled := r.Done?;
      starts := starts + 1;
    }
  }

  // ---- More entries than recovery reads ----

  /** One of many files staged in a directory beside an installation. */
  function StagedBeside(root: Path, name: Component, i: nat): Path
    requires !IsVolumeRoot(root)
  {
    Parent(root) + [name, BackupName(i)]
  }

  function AllStagedBeside(root: Path, name: Component, count: nat): (all: set<Path>)
    requires !IsVolumeRoot(root)
    ensures forall p :: p in all <==> exists i: nat | i < count :: p == StagedBeside(root, name, i)
  {
    if count == 0 then {} else AllStagedBeside(root, name, count - 1) + {StagedBeside(root, name, count - 1)}
  }

  /** A disk with nothing but these files and the directories above them. */
  function ManyFiles(root: Path, name: Component, count: nat): Files
    requires !IsVolumeRoot(root)
  {
    map p | p in StrictAncestors(StagedBeside(root, name, 0)) + AllStagedBeside(root, name, count) ::
      if p in AllStagedBeside(root, name, count) then File("") else Directory
  }

  /** Each is to become a file of its own in the installation. */
  function ManyRequests(root: Path, name: Component, count: nat): seq<Request>
    requires !IsVolumeRoot(root)
  {
    seq(count, i requires 0 <= i < count => Request(StagedBeside(root, name, i), root + [BackupName(i)], FileKind))
  }

  lemma StagedBesideApart(root: Path, name: Component, i: nat, j: nat)
    requires !IsVolumeRoot(root) && name != root[|root| - 1]
    ensures Disjoint(StagedBeside(root, name, i), root + [BackupName(j)])
    ensures Disjoint(root + [BackupName(j)], StagedBeside(root, name, i))
    ensures i != j ==> Disjoint(StagedBeside(root, name, i), StagedBeside(root, name, j))
    ensures i != j ==> Disjoint(root + [BackupName(i)], root + [BackupName(j)])
  {
    hide BackupName;
    var n := |root|;
    assert root == Parent(root) + [root[n - 1]];
    DifferAt(StagedBeside(root, name, i), root + [BackupName(j)], n - 1);
    if i != j {
      BackupNamesDiffer(i, j);
      DifferAt(StagedBeside(root, name, i), StagedBeside(root, name, j), n);
      DifferAt(root + [BackupName(i)], root + [BackupName(j)], n);
    }
  }

  lemma BackupNamesDiffer(i: nat, j: nat)
    requires i != j
    ensures BackupName(i) != BackupName(j)
  {
    BackupNames.FourDigitsRoundTrip(i);
    BackupNames.FourDigitsRoundTrip(j);
  }

  lemma ManyFilesAt(root: Path, name: Component, count: nat, p: Path)
    requires !IsVolumeRoot(root) && p in ManyFiles(root, name, count)
    ensures if |p| <= |root| then p == (Parent(root) + [name])[..|p|] && ManyFiles(root, name, count)[p] == Directory
            else p[..|root|] == Parent(root) + [name]
    ensures !IsVolumeRoot(p) ==> Exists(ManyFiles(root, name, count), Parent(p), DirectoryKind)
  {
    var first := StagedBeside(root, name, 0);
    if p in AllStagedBeside(root, name, count) {
      var i: nat :| i < count && p == StagedBeside(root, name, i);
      assert Parent(p) == first[..|root|] && Parent(p) in StrictAncestors(first);
    } else {
      AncestorOfAncestor(first, p);
    }
  }

  lemma ManyIsAccepted(root: Path, name: Component, count: nat, i: nat)
    requires !IsVolumeRoot(root) && name != root[|root| - 1] && i < count
    ensures RequestAccepted(root, ManyFiles(root, name, count), ManyRequests(root, name, count), i)
  {
    hide PathsOverlap, PathContains, ManyFiles;
    var files, requests := ManyFiles(root, name, count), ManyRequests(root, name, count);
    var r := requests[i];
    ContainsIsPrefix(root, r.destination);
    StagedBesideApart(root, name, i, i);
    OverlapIsIntersection(r.prepared, r.destination);
    ManyIsStaged(root, name, count, i);
    forall j | 0 <= j < i
      ensures CompatibleRequests(r, requests[j])
    {
      StagedBesideApart(root, name, i, j);
      StagedBesideApart(root, name, j, i);
      OverlapIsIntersection(r.prepared, requests[j].destination);
      OverlapIsIntersection(r.destination, requests[j].prepared);
      OverlapIsIntersection(r.prepared, requests[j].prepared);
      OverlapIsIntersection(r.destination, requests[j].destination);
    }
  }

  lemma ManyIsStaged(root: Path, name: Component, count: nat, i: nat)
    requires !IsVolumeRoot(root) && name != root[|root| - 1] && i < count
    ensures Exists(ManyFiles(root, name, count), StagedBeside(root, name, i), FileKind)
    ensures root + [BackupName(i)] !in ManyFiles(root, name, count)
  {
    var destination := root + [BackupName(i)];
    assert StagedBeside(root, name, i) in AllStagedBeside(root, name, count);
    assert destination[..|root|] == root;
    if destination in ManyFiles(root, name, count) {
      ManyFilesAt(root, name, count, destination);
    }
  }

  lemma ManyAreFiles(root: Path, name: Component, count: nat, work: Path)
    requires !IsVolumeRoot(root) && |work| == |root| && name != work[|root| - 1]
    ensures var files := ManyFiles(root, name, count);
            && WellFormed(files) && Under(files, work) == {}
            && forall p | p in files && |p| <= |root| :: files[p] == Directory
  {
    hide ManyFiles;
    forall p | p in ManyFiles(root, name, count)
      ensures !(work <= p) && (!IsVolumeRoot(p) ==> Exists(ManyFiles(root, name, count), Parent(p), DirectoryKind))
      ensures |p| <= |root| ==> ManyFiles(root, name, count)[p] == Directory
    {
      ManyFilesAt(root, name, count, p);
    }
  }

  lemma ManyAreAccepted(root: Path, name: Component, count: nat)
    requires !IsVolumeRoot(root) && name != root[|root| - 1]
    ensures RequestsAccepted(root, ManyFiles(root, name, count), ManyRequests(root, name, count))
  {
    hide RequestAccepted, ManyFiles;
    forall i | 0 <= i < count
      ensures RequestAccepted(root, ManyFiles(root, name, count), ManyRequests(root, name, count), i)
    {
      ManyIsAccepted(root, name, count, i);
    }
  }

  lemma ManyAreReady(site: Site, id: Token, name: Component, count: nat)
    requires !IsVolumeRoot(site.root) && id != "" && count > 0 && WorkRoot(site, id) != site.root
    requires name != site.root[|site.root| - 1] && name != WorkRoot(site, id)[|site.root| - 1]
    ensures var before := Before(site, id, ManyRequests(site.root, name, count), ManyFiles(site.root, name, count), None, None);
            before.Valid() && before.Publishable()
  {
    hide ManyFiles, RequestsAccepted, WellFormed, Under;
    ManyAreFiles(site.root, name, count, WorkRoot(site, id));
    ManyAreAccepted(site.root, name, count);
  }

  /** An update of 65 files begins, and can then neither be rolled back nor be recovered from. */
  method UnrecoverableUpdate(site: Site, id: Token) returns (begun: Outcome, recovered: Outcome)
    requires !IsVolumeRoot(site.root) && id != "" && WorkRoot(site, id) != site.root
    ensures begun.Done? && recovered == Threw(InvalidJournal)
  {
    var name := site.root[|site.root| - 1] + WorkRoot(site, id)[|site.root| - 1];
    var count := MAXIMUM_ENTRIES + 1;
    var requests := ManyRequests(site.root, name, count);
    var disk := new Disk(ManyFiles(site.root, name, count), None, true);
    ghost var before := Before(site, id, requests, disk.files, None, None);
    ManyAreReady(site, id, name, count);
    hide Before.Valid, Before.Publishable, ManyFiles, ManyRequests;
    var transaction;
    begun, transaction := InstallTransaction.Begin(disk, site, id, requests, before);
    recovered := InstallTransaction.Recover(disk, site, before);
  }
}
