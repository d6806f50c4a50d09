/** The caches in front of the function registry: a memo per thread, and per target one latched
    pointer and one latched verdict that all threads share. A transition system with any number of
    threads; each step is one atomic load, one store, or work on data of a single thread. */
module DispatchCaches {
  import opened Wrappers
  import opened DispatchTables

  datatype Info = Info(id: nat, isBaseTranslated: bool)

  /** The functions registered so far, the generated dispatch table, and the raw records registered
      besides it. */
  datatype Registry = Registry(resolved: map<Word, Info>, generated: map<Word, Info>, dynamic: map<Word, Info>)
  {
    function Resolve(address: Word): Option<Info> {
      if address in resolved then Some(resolved[address]) else None
    }

    function ResolveRaw(address: Word): Option<Info> {
      if address in generated then Some(generated[address])
      else if address in dynamic then Some(dynamic[address])
      else None
    }

    predicate IsBaseTranslated(address: Word) {
      Resolve(address).Some? && Resolve(address).value.isBaseTranslated
    }
  }

  datatype Cached = Cached(address: Word, info: Option<Info>)

  /** A direct-mapped memo: what each slot holds. */
  type Memo = map<nat, Cached>

  const CACHE_ENTRIES := 512

  function Slot(address: Word): nat {
    (address / 4 * 2654435761) % 0x1_0000_0000 % CACHE_ENTRIES
  }

  /** Any 512 consecutive instructions have a slot each. */
  lemma SlotsAreSpread(a: Word, b: Word)
    requires a % 4 == b % 4 == 0 && a < b < a + 4 * 512
    ensures Slot(a) < 512 && Slot(a) != Slot(b)
  {
    var x, y := a / 4, b / 4;
    WrapsAway(x * 2654435761);
    WrapsAway(y * 2654435761);
    assert (x * 2654435761) % 512 != (y * 2654435761) % 512 by { MultiplierSpreads(x, y - x); }
  }

  /** 337 is the inverse of the multiplier modulo 512. */
  lemma MultiplierSpreads(x: nat, step: nat)
    requires 0 < step < 512
    ensures (x * 2654435761) % 512 != ((x + step) * 2654435761) % 512
  {
    var p, q := x * 2654435761, (x + step) * 2654435761;
    var n := q / 512 - p / 512;
    assert step * 2654435761 == 512 * n + (q % 512 - p % 512);
    assert step == 512 * (337 * n - 1747157913 * step) + 337 * (q % 512 - p % 512);
  }

  lemma WrapsAway(n: nat)
    ensures n % 0x1_0000_0000 % 512 == n % 512
  {
    var q := n / 0x1_0000_0000;
    assert n == 0x1_0000_0000 * q + n % 0x1_0000_0000;
    assert n / 512 == 0x80_0000 * q + n % 0x1_0000_0000 / 512;
  }

  /** What a lookup is made for. A verdict remembers whether the registry was published when it
      was begun. */
  datatype Goal = Plain | Latched | Verdict(publishable: bool)

  datatype Answer =
    | Pointer(address: Word, info: Option<Info>)
    | Raw(address: Word, record: Option<Info>)
    | Active(address: Word, active: bool)

  datatype Pc =
    | Idle
    | PointerStart(address: Word)
    | PointerUnlatched(address: Word)
    | VerdictStart(address: Word)
    | VerdictUnlatched(address: Word)
    | LookupStart(goal: Goal, address: Word)
    | LookupUnpublished(goal: Goal, address: Word)
    | LookupPublished(goal: Goal, address: Word)
    | Found(goal: Goal, address: Word, info: Option<Info>)
    | RawStart(address: Word)
    | RawPublished(address: Word)
    | Returned(answer: Answer)

  /** One thread. `late` says that its operation began after the registry was published. */
  datatype Thread = Thread(pc: Pc, late: bool, memo: Memo, rawMemo: Memo)

  datatype State = State(
    published: bool,
    registry: Registry,
    latches: map<Word, Option<Info>>,
    verdicts: map<Word, bool>,
    threads: seq<Thread>)

  predicate IsInitial(s: State) {
    && !s.published && s.latches == map[] && s.verdicts == map[]
    && forall th | th in s.threads :: th == Thread(Idle, false, map[], map[])
  }

  // ---- Steps ----

  /** Registration changes the registry freely until it is published, once. */
  predicate RegistryStep(s: State, t: State) {
    !s.published && t == s.(registry := t.registry, published := t.published)
  }

  /** The start of `FindByAddressPtr`, of `FindRawByAddressPtr`, of the latched lookup and of the
      latched verdict. */
  predicate Begins(pc: Pc) {
    pc.PointerStart? || pc.VerdictStart? || pc.RawStart? || (pc.LookupStart? && pc.goal.Plain?)
  }

  function ResultOf(goal: Goal, address: Word, info: Option<Info>): Answer {
    if goal.Verdict? then Active(address, info.Some? && info.value.isBaseTranslated) else Pointer(address, info)
  }

  /** One step of a thread: its next state, and the latch and the verdict it stores, if any. */
  predicate ThreadMove(s: State, th: Thread, next: Thread, latch: Option<(Word, Option<Info>)>,
                       verdict: Option<(Word, bool)>)
  {
    match th.pc
    case Idle =>
      Begins(next.pc) && next == th.(pc := next.pc, late := s.published) && latch.None? && verdict.None?
    case PointerStart(address) =>
      && latch.None? && verdict.None?
      && next == th.(pc := if address in s.latches then Returned(Pointer(address, s.latches[address]))
                           else PointerUnlatched(address))
    case PointerUnlatched(address) =>
      && latch.None? && verdict.None?
      && next == th.(pc := LookupStart(if s.published then Latched else Plain, address))
    case VerdictStart(address) =>
      && latch.None? && verdict.None?
      && next == th.(pc := if address in s.verdicts then Returned(Active(address, s.verdicts[address]))
                           else VerdictUnlatched(address))
    case VerdictUnlatched(address) =>
      && latch.None? && verdict.None?
      && next == th.(pc := LookupStart(Verdict(s.published), address))
    case LookupStart(goal, address) =>
      && latch.None? && verdict.None?
      && next == th.(pc := if s.published then LookupPublished(goal, address) else LookupUnpublished(goal, address))
    case LookupUnpublished(goal, address) =>
      && latch.None? && verdict.None?
      && next == th.(pc := Found(goal, address, s.registry.Resolve(address)))
    case LookupPublished(goal, address) =>
      var slot := Slot(address);
      && latch.None? && verdict.None?
      && if slot in th.memo && th.memo[slot].address == address
         then next == th.(pc := Found(goal, address, th.memo[slot].info))
         else next == th.(pc := Found(goal, address, s.registry.Resolve(address)),
                          memo := th.memo[slot := Cached(address, s.registry.Resolve(address))])
    case Found(goal, address, info) =>
      && latch == (if goal.Latched? then Some((address, info)) else None)
      && verdict == (if goal.Verdict? && goal.publishable then Some((address, ResultOf(goal, address, info).active)) else None)
      && next == th.(pc := Returned(ResultOf(goal, address, info)))
    case RawStart(address) =>
      && latch.None? && verdict.None?
      && next == th.(pc := if s.published then RawPublished(address) else Returned(Raw(address, None)))
    case RawPublished(address) =>
      var slot := Slot(address);
      && latch.None? && verdict.None?
      && if slot in th.rawMemo && th.rawMemo[slot].address == address
         then next == th.(pc := Returned(Raw(address, th.rawMemo[slot].info)))
         else next == th.(pc := Returned(Raw(address, s.registry.ResolveRaw(address))),
                          rawMemo := th.rawMemo[slot := Cached(address, s.registry.ResolveRaw(address))])
    case Returned(_) => next == th.(pc := Idle) && latch.None? && verdict.None?
  }

  predicate ThreadStep(s: State, t: State, i: nat, latch: Option<(Word, Option<Info>)>, verdict: Option<(Word, bool)>) {
    && i < |s.threads| == |t.threads|
    && ThreadMove(s, s.threads[i], t.threads[i], latch, verdict)
    && t == s.(threads := s.threads[i := t.threads[i]],
               latches := if latch.Some? then s.latches[latch.value.0 := latch.value.1] else s.latches,
               verdicts := if verdict.Some? then s.verdicts[verdict.value.0 := verdict.value.1] else s.verdicts)
  }

  ghost predicate Step(s: State, t: State) {
    RegistryStep(s, t) || exists i: nat, latch, verdict :: ThreadStep(s, t, i, latch, verdict)
  }

  // ---- What every reachable state keeps ----

  predicate IsCorrect(registry: Registry, answer: Answer) {
    match answer
    case Pointer(address, info) => info == registry.Resolve(address)
    case Raw(address, record) => record == registry.ResolveRaw(address)
    case Active(address, active) => active == registry.IsBaseTranslated(address)
  }

  /** The result of a lookup that may be shown to others, or stored. */
  predicate MustBeFinal(late: bool, goal: Goal) {
    late || goal.Latched? || (goal.Verdict? && goal.publishable)
  }

  predicate PcIsSound(published: bool, registry: Registry, pc: Pc, late: bool) {
    && (late ==> published)
    && match pc
       case LookupStart(goal, _) => MustBeFinal(late, goal) ==> published
       case LookupUnpublished(goal, _) => !MustBeFinal(late, goal)
       case LookupPublished(_, _) => published
       case Found(goal, address, info) => MustBeFinal(late, goal) ==> published && info == registry.Resolve(address)
       case RawPublished(_) => published
       case Returned(answer) => late ==> IsCorrect(registry, answer)
       case _ => true
  }

  ghost predicate MemosAreSound(published: bool, registry: Registry, th: Thread) {
    && (!published ==> th.memo == map[] && th.rawMemo == map[])
    && (forall slot | slot in th.memo :: th.memo[slot].info == registry.Resolve(th.memo[slot].address))
    && (forall slot | slot in th.rawMemo :: th.rawMemo[slot].info == registry.ResolveRaw(th.rawMemo[slot].address))
  }

  ghost predicate ThreadIsSound(published: bool, registry: Registry, th: Thread) {
    PcIsSound(published, registry, th.pc, th.late) && MemosAreSound(published, registry, th)
  }

  /** Every latched pointer and verdict is the answer of the published registry. */
  ghost predicate LatchesAreSound(s: State) {
    && (!s.published ==> s.latches == map[] && s.verdicts == map[])
    && (forall address | address in s.latches :: s.latches[address] == s.registry.Resolve(address))
    && (forall address | address in s.verdicts :: s.verdicts[address] == s.registry.IsBaseTranslated(address))
  }

  ghost predicate Inv(s: State) {
    LatchesAreSound(s) && forall i | 0 <= i < |s.threads| :: ThreadIsSound(s.published, s.registry, s.threads[i])
  }

  lemma InitialInv(s: State)
    requires IsInitial(s)
    ensures Inv(s)
  {
    forall i | 0 <= i < |s.threads|
      ensures ThreadIsSound(s.published, s.registry, s.threads[i])
    {
      assert s.threads[i] in s.threads;
    }
  }

  lemma RegistryStepKeepsInv(s: State, t: State)
    requires Inv(s) && RegistryStep(s, t)
    ensures Inv(t)
  {
    forall i | 0 <= i < |t.threads|
      ensures ThreadIsSound(t.published, t.registry, t.threads[i])
    {
      assert ThreadIsSound(s.published, s.registry, s.threads[i]);
    }
  }

  lemma MoveKeepsMemos(s: State, th: Thread, next: Thread, latch: Option<(Word, Option<Info>)>, verdict: Option<(Word, bool)>)
    requires ThreadIsSound(s.published, s.registry, th) && ThreadMove(s, th, next, latch, verdict)
    ensures MemosAreSound(s.published, s.registry, next)
  {
  }

  lemma MoveKeepsPc(s: State, th: Thread, next: Thread, latch: Option<(Word, Option<Info>)>, verdict: Option<(Word, bool)>)
    requires LatchesAreSound(s) && ThreadIsSound(s.published, s.registry, th) && ThreadMove(s, th, next, latch, verdict)
    ensures PcIsSound(s.published, s.registry, next.pc, next.late)
  {
  }

  lemma MoveStoresFinal(s: State, th: Thread, next: Thread, latch: Option<(Word, Option<Info>)>, verdict: Option<(Word, bool)>)
    requires ThreadIsSound(s.published, s.registry, th) && ThreadMove(s, th, next, latch, verdict)
    ensures latch.Some? ==> s.published && latch.value.1 == s.registry.Resolve(latch.value.0)
    ensures verdict.Some? ==> s.published && verdict.value.1 == s.registry.IsBaseTranslated(verdict.value.0)
  {
  }

  lemma ThreadStepKeepsInv(s: State, t: State, i: nat, latch: Option<(Word, Option<Info>)>, verdict: Option<(Word, bool)>)
    requires Inv(s) && ThreadStep(s, t, i, latch, verdict)
    ensures Inv(t)
  {
    hide ThreadMove, PcIsSound, MemosAreSound;
    MoveKeepsMemos(s, s.threads[i], t.threads[i], latch, verdict);
    MoveKeepsPc(s, s.threads[i], t.threads[i], latch, verdict);
    MoveStoresFinal(s, s.threads[i], t.threads[i], latch, verdict);
  }

  lemma StepKeepsInv(s: State, t: State)
    requires Inv(s) && Step(s, t)
    ensures Inv(t)
  {
    if RegistryStep(s, t) {
      RegistryStepKeepsInv(s, t);
    } else {
      var i: nat, latch, verdict :| ThreadStep(s, t, i, latch, verdict);
      ThreadStepKeepsInv(s, t, i, latch, verdict);
    }
  }

  // ---- Over whole runs ----

  ghost predicate IsRun(run: seq<State>) {
    && run != [] && IsInitial(run[0])
    && forall i | 0 <= i < |run| - 1 :: Step(run[i], run[i + 1])
  }

  lemma {:induction false} RunKeepsInv(run: seq<State>, n: nat)
    requires IsRun(run) && n < |run|
    ensures Inv(run[n])
  {
    if n == 0 {
      InitialInv(run[0]);
    } else {
      RunKeepsInv(run, n - 1);
      assert Step(run[n - 1], run[n - 1 + 1]);
      StepKeepsInv(run[n - 1], run[n]);
    }
  }

  /** Once published, the registry stays what it is. */
  lemma {:induction false} PublicationIsFinal(run: seq<State>, m: nat, n: nat)
    requires IsRun(run) && m <= n < |run| && run[m].published
    ensures run[n].published && run[n].registry == run[m].registry
    decreases n - m
  {
    if m < n {
      assert Step(run[m], run[m + 1]);
      PublicationIsFinal(run, m + 1, n);
    }
  }

  /** An operation that began after publication returns what the registry answers, through
      whatever memo or latch it went. */
  lemma LateAnswersAreFinal(run: seq<State>, n: nat, i: nat)
    requires IsRun(run) && n < |run| && i < |run[n].threads|
    requires run[n].threads[i].late && run[n].threads[i].pc.Returned?
    ensures run[n].published && IsCorrect(run[n].registry, run[n].threads[i].pc.answer)
  {
    RunKeepsInv(run, n);
    assert ThreadIsSound(run[n].published, run[n].registry, run[n].threads[i]);
  }

  /** However many threads race, at any time before or after publication, a latch is unset or
      holds what the published registry answers, then and for ever. */
  lemma LatchesAreFinal(run: seq<State>, m: nat, n: nat, address: Word)
    requires IsRun(run) && m <= n < |run|
    ensures address in run[m].latches ==> run[m].published && run[m].latches[address] == run[n].registry.Resolve(address)
    ensures address in run[m].verdicts ==>
              run[m].published && run[m].verdicts[address] == run[n].registry.IsBaseTranslated(address)
  {
    RunKeepsInv(run, m);
    if run[m].published { PublicationIsFinal(run, m, n); }
  }
}
