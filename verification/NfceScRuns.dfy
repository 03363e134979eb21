/** Every interleaving of NFC-e collector executions, operator calls and expiry sweeps, in any number of
    processes. One action is one database statement, one download or one persisted document. An execution
    or a call may vanish at any point: a crash, a rejected check, or a start that the in-memory set of
    running controls suppresses. */
module NfceScRuns {
  import opened Options
  import opened NsuServer
  import opened NfceScControl

  /** Where an execution or an operator call stands between two database statements. */
  datatype Worker =
    | MainReady(token: int)
    | MainRead(token: int, cursor: nat)
    | MainWaiting(token: int, cursor: nat)
    | MainStoring(token: int, cursor: nat, answer: Answer, done: nat)
    | MainStopping(token: int)
    | RecoveryReady(token: int)
    | RecoveryRead(token: int, cursor: nat, final: nat)
    | RecoveryWaiting(token: int, cursor: nat, final: nat)
    | RecoveryStoring(token: int, cursor: nat, final: nat, docs: seq<nat>, done: nat)
    | RecoveryFinishing(token: int, cursor: nat, final: nat)
    | RecoveryStopping(token: int)
    | RecoveryCrashed
    | BorrowedStop(borrowed: int)
    | RunCall(retry9999: bool)
    | ConfigureCall
    | PauseCall
    | RecoveryCall(inicial: nat, final: nat, cursor: nat, total: nat)
  {
    predicate OwnsMain() {
      MainReady? || MainRead? || MainWaiting? || MainStoring? || MainStopping?
    }

    predicate OwnsRecovery() {
      RecoveryReady? || RecoveryRead? || RecoveryWaiting? || RecoveryStoring? || RecoveryFinishing? || RecoveryStopping?
    }

    predicate Owns() {
      OwnsMain() || OwnsRecovery()
    }
  }

  datatype State = State(row: Row, server: set<nat>, persisted: set<nat>, issued: set<int>, workers: map<nat, Worker>)

  /** A download gives the service's reply, a refusal code, or an exception. */
  datatype Delivery = Replied | Refused(code: CStat) | Thrown

  datatype Action =
    | Publish(nsu: nat)
    | Vanish(id: nat)
    | CallRun(id: nat, now: int)
    | CallConfigure(id: nat)
    | CallPause(id: nat)
    | CallRecovery(id: nat, inicial: int, final: int, now: int)
    | Claim(id: nat, now: int)
    | SweepExpired(id: nat, recovery: bool, now: int)
    | ReadRow(id: nat)
    | Renew(id: nat, now: int)
    | Download(id: nat, delivery: Delivery)
    | Persist(id: nat)
    | PersistFails(id: nat)
    | Commit(id: nat, now: int)
    | StopAfterError(id: nat, certificate: bool, says9999: bool, now: int)

  ghost predicate Initial(s: State) {
    s.row == NEW_ROW && 0 !in s.server && s.issued == {} && s.workers == map[]
  }

  // Steps

  function Put(s: State, id: nat, w: Worker): State {
    s.(workers := s.workers[id := w])
  }

  function Drop(s: State, id: nat): State {
    s.(workers := s.workers - {id})
  }

  /** Issues a lease that no earlier call of newLease returned. */
  function Issue(s: State, now: int): State {
    s.(issued := s.issued + {NewLease(now)})
  }

  predicate Fresh(s: State, now: int) {
    NewLease(now) !in s.issued
  }

  predicate NewCall(s: State, id: nat) {
    id !in s.workers
  }

  predicate RunAccepted(r: Row, now: int) {
    !r.Recovering() && r.status != Processando && (r.erro9999 || Due(r, now))
  }

  predicate RecoveryAccepted(r: Row, inicial: int, final: int, now: int) {
    && !(inicial < 0 || final < 1 || final < inicial)
    && final <= r.ultimoNsu
    && r.status != Processando
    && !r.Recovering()
    && Due(r, now)
  }

  function RecoveryCallFor(r: Row, inicial: nat, final: nat): Worker {
    if Resumes(r, inicial, final)
    then RecoveryCall(inicial, final, r.recAtual.value, r.recTotal)
    else RecoveryCall(inicial, final, Start(inicial), 0)
  }

  /** The updateMany that ends run, configure, pause or reprocessNsus. */
  function ClaimStep(s: State, id: nat, now: int): State
    requires id in s.workers
  {
    match s.workers[id]
    case RunCall(retry) =>
      if CanClaimMain(s.row, retry, now)
      then Put(Issue(s, now).(row := ClaimMain(s.row, retry, now)), id, MainReady(NewLease(now)))
      else Drop(Issue(s, now), id)
    case ConfigureCall => Drop(s.(row := Configure(s.row)), id)
    case PauseCall => Drop(s.(row := PauseRecovery(s.row)), id)
    case RecoveryCall(inicial, final, cursor, total) =>
      if CanClaimRecovery(s.row, now)
      then Put(Issue(s, now).(row := ClaimRecovery(s.row, inicial, final, cursor, total, now)), id,
          RecoveryReady(NewLease(now)))
      else Drop(Issue(s, now), id)
    case _ => s
  }

  function SweepStep(s: State, id: nat, recovery: bool, now: int): State {
    if recovery then
      if CanSweepRecovery(s.row, now)
      then Put(Issue(s, now).(row := SweepRecovery(s.row, now)), id, RecoveryReady(NewLease(now)))
      else Issue(s, now)
    else
      if CanSweepMain(s.row, now)
      then Put(Issue(s, now).(row := SweepMain(s.row, now)), id, MainReady(NewLease(now)))
      else Issue(s, now)
  }

  function ReadStep(s: State, id: nat): State
    requires id in s.workers
  {
    var r := s.row;
    match s.workers[id]
    case MainReady(token) =>
      if r.MainHeld(token) then Put(s, id, MainRead(token, r.ultimoNsu)) else Drop(s, id)
    case RecoveryReady(token) =>
      if !r.Recovering() || r.recLease != Some(token) then Drop(s, id)
      else if r.recFinal.None? || r.recAtual.None? then Put(s, id, RecoveryStopping(token))
      else if r.recAtual.value >= r.recFinal.value
        then Put(s, id, RecoveryFinishing(token, r.recFinal.value, r.recFinal.value))
      else Put(s, id, RecoveryRead(token, r.recAtual.value, r.recFinal.value))
    case RecoveryCrashed =>
      if r.Recovering() && r.recLease.Some? then Put(s, id, BorrowedStop(r.recLease.value)) else Drop(s, id)
    case _ => s
  }

  function RenewStep(s: State, id: nat, now: int): State
    requires id in s.workers
  {
    match s.workers[id]
    case MainRead(token, cursor) =>
      if s.row.MainHeld(token)
      then Put(Issue(s, now).(row := RenewMain(s.row, token, now)), id, MainWaiting(NewLease(now), cursor))
      else Drop(Issue(s, now), id)
    case RecoveryRead(token, cursor, final) =>
      if s.row.RecoveryHeld(token)
      then Put(Issue(s, now).(row := RenewRecovery(s.row, token, now)), id,
          RecoveryWaiting(NewLease(now), cursor, final))
      else Drop(Issue(s, now), id)
    case _ => s
  }

  function DownloadStep(s: State, id: nat, delivery: Delivery): State
    requires id in s.workers
  {
    match s.workers[id]
    case MainWaiting(token, cursor) =>
      (match delivery
       case Thrown => Put(s, id, MainStopping(token))
       case Refused(code) => Put(s, id, MainStoring(token, cursor, Answer(code, []), 0))
       case Replied => Put(s, id, MainStoring(token, cursor, Reply(s.server, cursor), 0)))
    case RecoveryWaiting(token, cursor, final) =>
      (match delivery
       case Thrown => Put(s, id, RecoveryStopping(token))
       case Refused(code) => Put(s, id, RecoveryStopping(token))
       case Replied =>
         var docs := Reply(s.server, cursor).docs;
         if docs == [] || docs[0] > final
         then Put(s, id, RecoveryFinishing(token, cursor, final))
         else Put(s, id, RecoveryStoring(token, cursor, final, docs, 0)))
    case _ => s
  }

  predicate CanPersist(w: Worker) {
    || (w.MainStoring? && w.done < |w.answer.docs|)
    || (w.RecoveryStoring? && w.done < InRange(w.docs, w.final))
  }

  function PersistStep(s: State, id: nat): State
    requires id in s.workers && CanPersist(s.workers[id])
  {
    match s.workers[id]
    case MainStoring(token, cursor, answer, done) =>
      Put(s.(persisted := s.persisted + {answer.docs[done]}), id, MainStoring(token, cursor, answer, done + 1))
    case RecoveryStoring(token, cursor, final, docs, done) =>
      Put(s.(persisted := s.persisted + {docs[done]}), id, RecoveryStoring(token, cursor, final, docs, done + 1))
    case _ => s
  }

  /** In main mode a failed persist stops the execution; in recovery mode the exception leaves the loop. */
  function PersistFailsStep(s: State, id: nat): State
    requires id in s.workers && CanPersist(s.workers[id])
  {
    var w := s.workers[id];
    if w.MainStoring? then Put(s, id, MainStopping(w.token)) else Put(s, id, RecoveryCrashed)
  }

  predicate CanCommit(w: Worker) {
    || (w.MainStoring? && w.done == |w.answer.docs|)
    || (w.RecoveryStoring? && w.done == InRange(w.docs, w.final))
    || w.RecoveryFinishing?
  }

  function CommitStep(s: State, id: nat, now: int): State
    requires id in s.workers && CanCommit(s.workers[id])
  {
    match s.workers[id]
    case MainStoring(token, cursor, answer, done) =>
      var next := MaxNsu(answer.docs, cursor);
      if ShouldContinue(answer) && next <= cursor then Put(s, id, MainStopping(token))
      else
        var after := Issue(s, now).(row := CommitMain(s.row, token, answer, next, now));
        if s.row.MainHeld(token) && ShouldContinue(answer)
        then Put(after, id, MainReady(NewLease(now))) else Drop(after, id)
    case RecoveryStoring(token, cursor, final, docs, done) =>
      var next := MaxNsu(docs[..done], cursor);
      if |docs| == BATCH_SIZE && next <= cursor then Put(s, id, RecoveryStopping(token))
      else
        var after := Issue(s, now).(row := CommitRecovery(s.row, token, docs, final, next, now));
        if s.row.RecoveryHeld(token) && !RecoveryCompleted(docs, final, next)
        then Put(after, id, RecoveryReady(NewLease(now))) else Drop(after, id)
    case RecoveryFinishing(token, cursor, final) =>
      Drop(s.(row := FinishRecovery(s.row, token, cursor, now)), id)
    case _ => s
  }

  function StopStep(s: State, id: nat, certificate: bool, says9999: bool, now: int): State
    requires id in s.workers
  {
    match s.workers[id]
    case MainStopping(token) => Drop(s.(row := StopMain(s.row, token, certificate, says9999, now)), id)
    case RecoveryStopping(token) => Drop(s.(row := StopRecovery(s.row, token, now)), id)
    case BorrowedStop(token) => Drop(s.(row := StopRecovery(s.row, token, now)), id)
    case _ => s
  }

  predicate Enabled(s: State, a: Action) {
    match a
    case Publish(nsu) => Publishes(s.server, nsu)
    case Vanish(id) => id in s.workers
    case CallRun(id, now) => NewCall(s, id) && RunAccepted(s.row, now)
    case CallConfigure(id) => NewCall(s, id) && s.row.status != Processando && !s.row.Recovering()
    case CallPause(id) => NewCall(s, id)
    case CallRecovery(id, inicial, final, now) => NewCall(s, id) && RecoveryAccepted(s.row, inicial, final, now)
    case Claim(id, now) => id in s.workers && Fresh(s, now)
    case SweepExpired(id, _, now) => NewCall(s, id) && Fresh(s, now)
    case ReadRow(id) => id in s.workers
    case Renew(id, now) => id in s.workers && Fresh(s, now)
    case Download(id, delivery) =>
      id in s.workers
        && (delivery.Refused? ==> !delivery.code.NenhumDocumento? && !delivery.code.DocumentosLocalizados?)
    case Persist(id) => id in s.workers && CanPersist(s.workers[id])
    case PersistFails(id) => id in s.workers && CanPersist(s.workers[id])
    case Commit(id, now) => id in s.workers && CanCommit(s.workers[id]) && Fresh(s, now)
    case StopAfterError(id, _, _, _) => id in s.workers
  }

  function Next(s: State, a: Action): State
    requires Enabled(s, a)
  {
    match a
    case Publish(nsu) => s.(server := s.server + {nsu})
    case Vanish(id) => Drop(s, id)
    case CallRun(id, now) => Put(s, id, RunCall(s.row.erro9999))
    case CallConfigure(id) => Put(s, id, ConfigureCall)
    case CallPause(id) => Put(s.(row := Pause(s.row)), id, PauseCall)
    case CallRecovery(id, inicial, final, now) => Put(s, id, RecoveryCallFor(s.row, inicial, final))
    case Claim(id, now) => ClaimStep(s, id, now)
    case SweepExpired(id, recovery, now) => SweepStep(s, id, recovery, now)
    case ReadRow(id) => ReadStep(s, id)
    case Renew(id, now) => RenewStep(s, id, now)
    case Download(id, delivery) => DownloadStep(s, id, delivery)
    case Persist(id) => PersistStep(s, id)
    case PersistFails(id) => PersistFailsStep(s, id)
    case Commit(id, now) => CommitStep(s, id, now)
    case StopAfterError(id, certificate, says9999, now) => StopStep(s, id, certificate, says9999, now)
  }

  /** `t` is reached from `s` by performing the actions in order. */
  ghost predicate Runs(s: State, actions: seq<Action>, t: State)
    decreases |actions|
  {
    if actions == [] then s == t
    else Enabled(s, actions[0]) && Runs(Next(s, actions[0]), actions[1..], t)
  }

  // Invariant

  /** `cursor` and `total` describe how far the recovery of [inicial, final] has come. */
  ghost predicate GoodProgress(server: set<nat>, persisted: set<nat>, ultimoNsu: nat,
      inicial: nat, final: nat, cursor: nat, total: nat) {
    && Start(inicial) <= cursor <= final <= ultimoNsu
    && total == |Between(server, Start(inicial), cursor)|
    && Between(server, Start(inicial), cursor) <= persisted
  }

  /** Everything up to the main cursor is persisted and counted. */
  ghost predicate GoodMain(server: set<nat>, persisted: set<nat>, cursor: nat, total: nat) {
    && 0 !in server
    && IsCursor(server, cursor)
    && total == |Between(server, 0, cursor)|
    && Between(server, 0, cursor) <= persisted
  }

  /** The modes exclude each other, and the lease of the running one was issued. */
  ghost predicate GoodLeases(r: Row, issued: set<int>) {
    && !(r.status == Processando && r.Recovering())
    && (r.status == Processando ==> r.proxima.Some? && r.proxima.value in issued)
    && (r.Recovering() ==> r.recLease.Some? && r.recLease.value in issued)
  }

  ghost predicate GoodInterval(server: set<nat>, persisted: set<nat>, r: Row) {
    && (r.recStatus.Some? ==> r.HasInterval())
    && (r.recInicial.Some? || r.recFinal.Some? || r.recAtual.Some? ==> r.HasInterval())
    && (r.HasInterval() ==>
          GoodProgress(server, persisted, r.ultimoNsu, r.recInicial.value, r.recFinal.value, r.recAtual.value,
              r.recTotal))
    && (r.recStatus == Some(RecConcluido) ==> Between(server, r.recAtual.value, r.recFinal.value) == {})
  }

  ghost predicate GoodRow(s: State) {
    && GoodMain(s.server, s.persisted, s.row.ultimoNsu, s.row.total)
    && GoodLeases(s.row, s.issued)
    && GoodInterval(s.server, s.persisted, s.row)
  }

  /** The first `done` documents of a gapless lot above `cursor` are persisted. */
  ghost predicate GoodLot(server: set<nat>, persisted: set<nat>, cursor: nat, docs: seq<nat>, done: nat) {
    && Consecutive(server, cursor, docs)
    && |docs| <= BATCH_SIZE
    && done <= |docs|
    && forall i | 0 <= i < done :: docs[i] in persisted
  }

  ghost predicate AtRecovery(s: State, token: int, cursor: nat, final: nat) {
    && final <= s.row.ultimoNsu
    && (s.row.RecoveryHeld(token) ==> s.row.recAtual == Some(cursor) && s.row.recFinal == Some(final))
  }

  ghost predicate GoodWorker(s: State, w: Worker) {
    && (w.Owns() ==> w.token in s.issued)
    && match w
       case MainRead(token, cursor) => s.row.MainHeld(token) ==> cursor == s.row.ultimoNsu
       case MainWaiting(token, cursor) => s.row.MainHeld(token) ==> cursor == s.row.ultimoNsu
       case MainStoring(token, cursor, answer, done) =>
         && (s.row.MainHeld(token) ==> cursor == s.row.ultimoNsu)
         && GoodLot(s.server, s.persisted, cursor, answer.docs, done)
       case RecoveryRead(token, cursor, final) => AtRecovery(s, token, cursor, final)
       case RecoveryWaiting(token, cursor, final) => AtRecovery(s, token, cursor, final)
       case RecoveryStoring(token, cursor, final, docs, done) =>
         && AtRecovery(s, token, cursor, final)
         && GoodLot(s.server, s.persisted, cursor, docs, done)
         && docs != [] && docs[0] <= final && done <= InRange(docs, final)
         && (|docs| < BATCH_SIZE ==> Between(s.server, Last(docs, cursor), final) == {})
       case RecoveryFinishing(token, cursor, final) =>
         && AtRecovery(s, token, cursor, final)
         && Between(s.server, cursor, final) == {}
       case RecoveryCall(inicial, final, cursor, total) =>
         GoodProgress(s.server, s.persisted, s.row.ultimoNsu, inicial, final, cursor, total)
       case _ => true
  }

  /** No two executions carry the same lease. */
  ghost predicate DistinctTokens(s: State) {
    forall i, j | i in s.workers && j in s.workers && i != j && s.workers[i].Owns() && s.workers[j].Owns() ::
      s.workers[i].token != s.workers[j].token
  }

  ghost predicate Inv(s: State) {
    && GoodRow(s)
    && DistinctTokens(s)
    && forall i | i in s.workers :: GoodWorker(s, s.workers[i])
  }

  // Framing: what one action must leave alone for the other executions to stay in order

  /** Whoever holds a lease afterwards held it before, and the cursor it read is still stored. */
  ghost predicate KeepsHold(s: State, t: State, w: Worker) {
    && (w.OwnsMain() && t.row.MainHeld(w.token) ==> s.row.MainHeld(w.token) && t.row.ultimoNsu == s.row.ultimoNsu)
    && (w.OwnsRecovery() && t.row.RecoveryHeld(w.token) ==>
          s.row.RecoveryHeld(w.token) && t.row.recAtual == s.row.recAtual && t.row.recFinal == s.row.recFinal)
  }

  ghost predicate Grows(s: State, t: State) {
    && t.server == s.server
    && s.persisted <= t.persisted
    && s.issued <= t.issued
    && s.row.ultimoNsu <= t.row.ultimoNsu
  }

  lemma WorkerIsFramed(s: State, t: State, w: Worker)
    requires GoodWorker(s, w) && Grows(s, t) && KeepsHold(s, t, w)
    ensures GoodWorker(t, w)
  {
  }

  /** The action of worker `id` keeps the invariant if its new row and its new position are in order. */
  lemma StepKeepsInv(s: State, t: State, id: nat)
    requires Inv(s) && Grows(s, t) && GoodRow(t)
    requires forall i | i in t.workers && i != id ::
               i in s.workers && t.workers[i] == s.workers[i] && KeepsHold(s, t, s.workers[i])
    requires id in t.workers ==> GoodWorker(t, t.workers[id])
    requires id in t.workers && t.workers[id].Owns() ==>
               forall i | i in s.workers && i != id && s.workers[i].Owns() :: s.workers[i].token != t.workers[id].token
    ensures Inv(t)
  {
    hide GoodRow, GoodWorker, KeepsHold, Grows;
    forall i | i in t.workers ensures GoodWorker(t, t.workers[i]) {
      if i != id {
        WorkerIsFramed(s, t, s.workers[i]);
      }
    }
  }

  /** An execution that only moves on, under the lease it already carries, keeps the invariant. */
  lemma MoveKeepsInv(s: State, id: nat, w: Worker)
    requires Inv(s) && id in s.workers && GoodWorker(s, w)
    requires w.Owns() ==> s.workers[id].Owns() && w.token == s.workers[id].token
    ensures Inv(Put(s, id, w))
  {
    hide GoodMain, GoodProgress, GoodLot, Between, Consecutive;
    var t := Put(s, id, w);
    forall i | i in t.workers ensures GoodWorker(t, t.workers[i]) {
      WorkerIsFramed(s, t, if i == id then w else s.workers[i]);
    }
  }

  lemma PublishKeepsInv(s: State, nsu: nat)
    requires Inv(s) && Publishes(s.server, nsu)
    ensures Inv(s.(server := s.server + {nsu}))
  {
    var t := s.(server := s.server + {nsu});
    PublishKeepsRow(s, nsu);
    forall i | i in t.workers ensures GoodWorker(t, t.workers[i]) {
      PublishKeepsWorker(s, nsu, s.workers[i]);
    }
  }

  lemma PublishKeepsProgress(s: State, nsu: nat, inicial: nat, final: nat, cursor: nat, total: nat)
    requires GoodRow(s) && Publishes(s.server, nsu)
    requires GoodProgress(s.server, s.persisted, s.row.ultimoNsu, inicial, final, cursor, total)
    ensures GoodProgress(s.server + {nsu}, s.persisted, s.row.ultimoNsu, inicial, final, cursor, total)
  {
    PublishingKeepsIntervals(s.server, nsu, s.row.ultimoNsu, Start(inicial), cursor);
  }

  lemma PublishKeepsRow(s: State, nsu: nat)
    requires GoodRow(s) && Publishes(s.server, nsu)
    ensures GoodRow(s.(server := s.server + {nsu}))
  {
    var r := s.row;
    PublishingKeepsIntervals(s.server, nsu, r.ultimoNsu, 0, r.ultimoNsu);
    if r.HasInterval() {
      PublishKeepsProgress(s, nsu, r.recInicial.value, r.recFinal.value, r.recAtual.value, r.recTotal);
      PublishingKeepsIntervals(s.server, nsu, r.ultimoNsu, r.recAtual.value, r.recFinal.value);
    }
  }

  lemma PublishKeepsWorker(s: State, nsu: nat, w: Worker)
    requires GoodRow(s) && Publishes(s.server, nsu) && GoodWorker(s, w)
    ensures GoodWorker(s.(server := s.server + {nsu}), w)
  {
    match w
    case MainStoring(token, cursor, answer, done) =>
      PublishingKeepsConsecutive(s.server, nsu, cursor, answer.docs);
    case RecoveryStoring(token, cursor, final, docs, done) =>
      PublishingKeepsConsecutive(s.server, nsu, cursor, docs);
      PublishingKeepsIntervals(s.server, nsu, s.row.ultimoNsu, Last(docs, cursor), final);
    case RecoveryFinishing(token, cursor, final) =>
      PublishingKeepsIntervals(s.server, nsu, s.row.ultimoNsu, cursor, final);
    case RecoveryCall(inicial, final, cursor, total) =>
      PublishKeepsProgress(s, nsu, inicial, final, cursor, total);
    case _ =>
  }

  lemma CallKeepsInv(s: State, a: Action)
    requires Inv(s) && Enabled(s, a)
    requires a.CallRun? || a.CallConfigure? || a.CallPause?
    ensures Inv(Next(s, a))
  {
    hide GoodMain, GoodProgress, GoodLot, Between, Consecutive;
    StepKeepsInv(s, Next(s, a), a.id);
  }

  lemma CallRecoveryKeepsInv(s: State, a: Action)
    requires Inv(s) && Enabled(s, a) && a.CallRecovery?
    ensures Inv(Next(s, a))
  {
    hide GoodMain, GoodLot, Consecutive;
    RecoveryCallIsGood(s, a.inicial, a.final, a.now);
    StepKeepsInv(s, Next(s, a), a.id);
  }

  lemma RecoveryCallIsGood(s: State, inicial: nat, final: nat, now: int)
    requires GoodRow(s) && RecoveryAccepted(s.row, inicial, final, now)
    ensures GoodWorker(s, RecoveryCallFor(s.row, inicial, final))
  {
    assert Between(s.server, Start(inicial), Start(inicial)) == {};
  }

  lemma ClaimMainKeepsInv(s: State, id: nat, now: int)
    requires Inv(s) && id in s.workers && s.workers[id].RunCall? && Fresh(s, now)
    ensures Inv(ClaimStep(s, id, now))
  {
    hide GoodMain, GoodProgress, GoodLot, Between, Consecutive;
    StepKeepsInv(s, ClaimStep(s, id, now), id);
  }

  lemma ClaimRecoveryKeepsInv(s: State, id: nat, now: int)
    requires Inv(s) && id in s.workers && s.workers[id].RecoveryCall? && Fresh(s, now)
    ensures Inv(ClaimStep(s, id, now))
  {
    hide GoodMain, GoodProgress, GoodLot, Between, Consecutive;
    StepKeepsInv(s, ClaimStep(s, id, now), id);
  }

  lemma CallEndKeepsInv(s: State, id: nat, now: int)
    requires Inv(s) && id in s.workers && (s.workers[id].ConfigureCall? || s.workers[id].PauseCall?)
    ensures Inv(ClaimStep(s, id, now))
  {
    hide GoodMain, GoodProgress, GoodLot, Between, Consecutive;
    StepKeepsInv(s, ClaimStep(s, id, now), id);
  }

  lemma ClaimKeepsInv(s: State, id: nat, now: int)
    requires Inv(s) && id in s.workers && Fresh(s, now)
    ensures Inv(ClaimStep(s, id, now))
  {
    hide Inv;
    match s.workers[id]
    case RunCall(_) => ClaimMainKeepsInv(s, id, now);
    case RecoveryCall(_, _, _, _) => ClaimRecoveryKeepsInv(s, id, now);
    case ConfigureCall => CallEndKeepsInv(s, id, now);
    case PauseCall => CallEndKeepsInv(s, id, now);
    case _ =>
  }

  lemma SweepKeepsInv(s: State, id: nat, recovery: bool, now: int)
    requires Inv(s) && id !in s.workers && Fresh(s, now)
    ensures Inv(SweepStep(s, id, recovery, now))
  {
    hide GoodMain, GoodProgress, GoodLot, Between, Consecutive;
    StepKeepsInv(s, SweepStep(s, id, recovery, now), id);
  }

  lemma MainReadKeepsInv(s: State, id: nat)
    requires Inv(s) && id in s.workers && s.workers[id].MainReady?
    ensures Inv(ReadStep(s, id))
  {
    hide GoodMain, GoodProgress, GoodLot, Between, Consecutive;
    StepKeepsInv(s, ReadStep(s, id), id);
  }

  lemma RecoveryReadKeepsInv(s: State, id: nat)
    requires Inv(s) && id in s.workers && s.workers[id].RecoveryReady?
    ensures Inv(ReadStep(s, id))
  {
    hide GoodMain, GoodLot, Consecutive;
    StepKeepsInv(s, ReadStep(s, id), id);
  }

  lemma CrashedReadKeepsInv(s: State, id: nat)
    requires Inv(s) && id in s.workers && s.workers[id].RecoveryCrashed?
    ensures Inv(ReadStep(s, id))
  {
    hide GoodMain, GoodProgress, GoodLot, Between, Consecutive;
    StepKeepsInv(s, ReadStep(s, id), id);
  }

  lemma ReadKeepsInv(s: State, id: nat)
    requires Inv(s) && id in s.workers
    ensures Inv(ReadStep(s, id))
  {
    hide Inv;
    match s.workers[id]
    case MainReady(_) => MainReadKeepsInv(s, id);
    case RecoveryReady(_) => RecoveryReadKeepsInv(s, id);
    case RecoveryCrashed => CrashedReadKeepsInv(s, id);
    case _ =>
  }

  lemma MainRenewKeepsInv(s: State, id: nat, now: int)
    requires Inv(s) && id in s.workers && s.workers[id].MainRead? && Fresh(s, now)
    ensures Inv(RenewStep(s, id, now))
  {
    hide GoodMain, GoodProgress, GoodLot, Between, Consecutive;
    StepKeepsInv(s, RenewStep(s, id, now), id);
  }

  lemma RecoveryRenewKeepsInv(s: State, id: nat, now: int)
    requires Inv(s) && id in s.workers && s.workers[id].RecoveryRead? && Fresh(s, now)
    ensures Inv(RenewStep(s, id, now))
  {
    hide GoodMain, GoodProgress, GoodLot, Between, Consecutive;
    StepKeepsInv(s, RenewStep(s, id, now), id);
  }

  lemma RenewKeepsInv(s: State, id: nat, now: int)
    requires Inv(s) && id in s.workers && Fresh(s, now)
    ensures Inv(RenewStep(s, id, now))
  {
    hide Inv;
    match s.workers[id]
    case MainRead(_, _) => MainRenewKeepsInv(s, id, now);
    case RecoveryRead(_, _, _) => RecoveryRenewKeepsInv(s, id, now);
    case _ =>
  }

  lemma MainDownloadKeepsInv(s: State, id: nat, delivery: Delivery)
    requires Inv(s) && id in s.workers && s.workers[id].MainWaiting?
    ensures Inv(DownloadStep(s, id, delivery))
  {
    hide GoodRow, Lot;
    LotIsConsecutive(s.server, s.workers[id].cursor, BATCH_SIZE);
    MoveKeepsInv(s, id, DownloadStep(s, id, delivery).workers[id]);
  }

  lemma RecoveryDownloadKeepsInv(s: State, id: nat, delivery: Delivery)
    requires Inv(s) && id in s.workers && s.workers[id].RecoveryWaiting?
    ensures Inv(DownloadStep(s, id, delivery))
  {
    hide GoodRow, Lot, Consecutive, Reply;
    RecoveryLot(s.server, s.workers[id].cursor, s.workers[id].final);
    MoveKeepsInv(s, id, DownloadStep(s, id, delivery).workers[id]);
  }

  lemma DownloadKeepsInv(s: State, id: nat, delivery: Delivery)
    requires Inv(s) && id in s.workers
    ensures Inv(DownloadStep(s, id, delivery))
  {
    hide Inv;
    match s.workers[id]
    case MainWaiting(_, _) => MainDownloadKeepsInv(s, id, delivery);
    case RecoveryWaiting(_, _, _) => RecoveryDownloadKeepsInv(s, id, delivery);
    case _ =>
  }

  /** A larger store keeps what was said about a smaller one. */
  lemma PersistingKeepsRow(s: State, nsu: nat)
    requires GoodRow(s)
    ensures GoodRow(s.(persisted := s.persisted + {nsu}))
  {
  }

  lemma PersistKeepsInv(s: State, id: nat)
    requires Inv(s) && id in s.workers && CanPersist(s.workers[id])
    ensures Inv(PersistStep(s, id))
  {
    hide GoodMain, GoodProgress, Between, Consecutive, GoodInterval, GoodLeases;
    var w, t := s.workers[id], PersistStep(s, id);
    PersistingKeepsRow(s, if w.MainStoring? then w.answer.docs[w.done] else w.docs[w.done]);
    assert GoodRow(t);
    StepKeepsInv(s, t, id);
  }

  lemma PersistFailsKeepsInv(s: State, id: nat)
    requires Inv(s) && id in s.workers && CanPersist(s.workers[id])
    ensures Inv(PersistFailsStep(s, id))
  {
    hide GoodMain, GoodProgress, GoodLot, Between, Consecutive;
    StepKeepsInv(s, PersistFailsStep(s, id), id);
  }

  lemma StopMainKeepsInv(s: State, id: nat, certificate: bool, says9999: bool, now: int)
    requires Inv(s) && id in s.workers && s.workers[id].MainStopping?
    ensures Inv(StopStep(s, id, certificate, says9999, now))
  {
    hide GoodMain, GoodProgress, GoodLot, Between, Consecutive;
    StepKeepsInv(s, StopStep(s, id, certificate, says9999, now), id);
  }

  lemma StopRecoveryKeepsInv(s: State, id: nat, certificate: bool, says9999: bool, now: int)
    requires Inv(s) && id in s.workers && (s.workers[id].RecoveryStopping? || s.workers[id].BorrowedStop?)
    ensures Inv(StopStep(s, id, certificate, says9999, now))
  {
    hide GoodMain, GoodProgress, GoodLot, Between, Consecutive;
    StepKeepsInv(s, StopStep(s, id, certificate, says9999, now), id);
  }

  lemma StopKeepsInv(s: State, id: nat, certificate: bool, says9999: bool, now: int)
    requires Inv(s) && id in s.workers
    ensures Inv(StopStep(s, id, certificate, says9999, now))
  {
    hide Inv;
    match s.workers[id]
    case MainStopping(_) => StopMainKeepsInv(s, id, certificate, says9999, now);
    case RecoveryStopping(_) => StopRecoveryKeepsInv(s, id, certificate, says9999, now);
    case BorrowedStop(_) => StopRecoveryKeepsInv(s, id, certificate, says9999, now);
    case _ =>
  }

  // Commits

  /** Committing a whole gapless lot above the stored cursor keeps cursor, total and store in step. */
  lemma CommittedLot(s: State, cursor: nat, docs: seq<nat>)
    requires GoodRow(s) && cursor == s.row.ultimoNsu && GoodLot(s.server, s.persisted, cursor, docs, |docs|)
    ensures var next := MaxNsu(docs, cursor);
            && cursor <= next && IsCursor(s.server, next)
            && Between(s.server, 0, next) <= s.persisted
            && |Between(s.server, 0, next)| == s.row.total + |docs|
  {
    MaxNsuIsLast(docs, cursor);
    ConsecutiveCount(s.server, cursor, docs);
    BetweenAdds(s.server, 0, cursor, Last(docs, cursor));
  }

  /** A recovery stays in order when only the main cursor moves on. */
  lemma IntervalOutlivesMain(server: set<nat>, persisted: set<nat>, r: Row, r': Row)
    requires GoodInterval(server, persisted, r) && r.ultimoNsu <= r'.ultimoNsu
    requires r'.recInicial == r.recInicial && r'.recFinal == r.recFinal && r'.recAtual == r.recAtual
    requires r'.recStatus == r.recStatus && r'.recTotal == r.recTotal
    ensures GoodInterval(server, persisted, r')
  {
    hide Between;
  }

  lemma CommitMainKeepsRow(s: State, w: Worker, now: int)
    requires GoodRow(s) && GoodWorker(s, w) && w.MainStoring? && w.done == |w.answer.docs| && s.row.MainHeld(w.token)
    ensures GoodRow(Issue(s, now).(row := CommitMain(s.row, w.token, w.answer, MaxNsu(w.answer.docs, w.cursor), now)))
    ensures w.cursor <= MaxNsu(w.answer.docs, w.cursor)
  {
    hide GoodProgress, GoodLot, Consecutive, Between;
    CommittedLot(s, w.cursor, w.answer.docs);
    var r' := CommitMain(s.row, w.token, w.answer, MaxNsu(w.answer.docs, w.cursor), now);
    IntervalOutlivesMain(s.server, s.persisted, s.row, r');
  }

  lemma CommitMainKeepsInv(s: State, id: nat, now: int)
    requires Inv(s) && id in s.workers && CanCommit(s.workers[id]) && Fresh(s, now) && s.workers[id].MainStoring?
    ensures Inv(CommitStep(s, id, now))
  {
    hide GoodMain, GoodInterval, GoodLot, Consecutive, Between, MaxNsu;
    var w := s.workers[id];
    if s.row.MainHeld(w.token) {
      CommitMainKeepsRow(s, w, now);
    }
    StepKeepsInv(s, CommitStep(s, id, now), id);
  }

  lemma CommitRecoveryKeepsRow(s: State, w: Worker, next: nat, now: int)
    requires GoodRow(s) && GoodWorker(s, w) && w.RecoveryStoring? && s.row.RecoveryHeld(w.token)
    requires w.done == InRange(w.docs, w.final) && next == MaxNsu(w.docs[..w.done], w.cursor)
    ensures GoodRow(Issue(s, now).(row := CommitRecovery(s.row, w.token, w.docs, w.final, next, now)))
    ensures w.cursor < next
    ensures s.row.recAtual.value <= CommitRecovery(s.row, w.token, w.docs, w.final, next, now).recAtual.value
  {
    hide GoodMain, GoodProgress, Between, InRange, MaxNsu, Consecutive, OutOfRange, RecoveryCompleted, Entries;
    ProgressIsInside(s.server, s.persisted, s.row);
    RecoveredLot(s.server, w.cursor, w.final, w.docs);
    RecoveredIsPersisted(s, w, next);
    var stored := if OutOfRange(w.docs, w.final) then w.final else next;
    ProgressGrows(s.server, s.persisted, s.row.ultimoNsu, s.row.recInicial.value, w.final, w.cursor, s.row.recTotal,
        stored);
  }

  lemma ProgressIsInside(server: set<nat>, persisted: set<nat>, r: Row)
    requires GoodInterval(server, persisted, r) && r.HasInterval()
    ensures r.recAtual.value <= r.recFinal.value <= r.ultimoNsu
  {
    hide Between;
  }

  lemma ProgressGrows(server: set<nat>, persisted: set<nat>, ultimoNsu: nat,
      inicial: nat, final: nat, cursor: nat, total: nat, next: nat)
    requires GoodProgress(server, persisted, ultimoNsu, inicial, final, cursor, total)
    requires cursor <= next <= final && Between(server, cursor, next) <= persisted
    ensures GoodProgress(server, persisted, ultimoNsu, inicial, final, next, total + |Between(server, cursor, next)|)
  {
    hide Between;
    BetweenAdds(server, Start(inicial), cursor, next);
  }

  lemma RecoveredIsPersisted(s: State, w: Worker, next: nat)
    requires GoodWorker(s, w) && w.RecoveryStoring?
    requires w.done == InRange(w.docs, w.final)
    ensures Entries(w.docs[..w.done]) <= s.persisted
  {
    hide InRange, Consecutive, Between;
  }

  lemma CommitRecoveryKeepsInv(s: State, id: nat, now: int)
    requires Inv(s) && id in s.workers && CanCommit(s.workers[id]) && Fresh(s, now) && s.workers[id].RecoveryStoring?
    ensures Inv(CommitStep(s, id, now))
  {
    hide GoodMain, GoodInterval, GoodLot, Between, Consecutive, InRange, MaxNsu, OutOfRange, RecoveryCompleted;
    var w, t := s.workers[id], CommitStep(s, id, now);
    if s.row.RecoveryHeld(w.token) {
      CommitRecoveryKeepsRow(s, w, MaxNsu(w.docs[..w.done], w.cursor), now);
    }
    StepKeepsInv(s, t, id);
  }

  lemma FinishKeepsInv(s: State, id: nat, now: int)
    requires Inv(s) && id in s.workers && s.workers[id].RecoveryFinishing?
    ensures Inv(CommitStep(s, id, now))
  {
    hide GoodMain, GoodProgress, GoodLot, Between, Consecutive;
    StepKeepsInv(s, CommitStep(s, id, now), id);
  }

  lemma VanishKeepsInv(s: State, id: nat)
    requires Inv(s)
    ensures Inv(Drop(s, id))
  {
    hide GoodMain, GoodProgress, GoodLot, Between, Consecutive;
    StepKeepsInv(s, Drop(s, id), id);
  }

  /** Every action of every execution, call, sweep or the service keeps the invariant. */
  lemma NextKeepsInv(s: State, a: Action)
    requires Inv(s) && Enabled(s, a)
    ensures Inv(Next(s, a))
  {
    hide Inv;
    match a
    case Publish(nsu) => PublishKeepsInv(s, nsu);
    case Vanish(id) => VanishKeepsInv(s, id);
    case CallRun(_, _) => CallKeepsInv(s, a);
    case CallConfigure(_) => CallKeepsInv(s, a);
    case CallPause(_) => CallKeepsInv(s, a);
    case CallRecovery(_, _, _, _) => CallRecoveryKeepsInv(s, a);
    case Claim(id, now) => ClaimKeepsInv(s, id, now);
    case SweepExpired(id, recovery, now) => SweepKeepsInv(s, id, recovery, now);
    case ReadRow(id) => ReadKeepsInv(s, id);
    case Renew(id, now) => RenewKeepsInv(s, id, now);
    case Download(id, delivery) => DownloadKeepsInv(s, id, delivery);
    case Persist(id) => PersistKeepsInv(s, id);
    case PersistFails(id) => PersistFailsKeepsInv(s, id);
    case Commit(id, now) =>
      if s.workers[id].MainStoring? {
        CommitMainKeepsInv(s, id, now);
      } else if s.workers[id].RecoveryStoring? {
        CommitRecoveryKeepsInv(s, id, now);
      } else {
        FinishKeepsInv(s, id, now);
      }
    case StopAfterError(id, certificate, says9999, now) => StopKeepsInv(s, id, certificate, says9999, now);
  }

  // Results over whole runs

  lemma InitialInv(s: State)
    requires Initial(s)
    ensures Inv(s)
  {
    assert Between(s.server, 0, 0) == {};
  }

  lemma {:induction false} RunKeepsInv(s: State, actions: seq<Action>, t: State)
    requires Inv(s) && Runs(s, actions, t)
    ensures Inv(t)
    decreases |actions|
  {
    if actions != [] {
      NextKeepsInv(s, actions[0]);
      RunKeepsInv(Next(s, actions[0]), actions[1..], t);
    }
  }

  /** Interval recovery is exact: its cursor stays inside the interval, its total is the number of NSUs
      passed, all of them persisted; once concluded, that covers the whole interval. */
  lemma RecoveryIsExact(s: State, actions: seq<Action>, t: State)
    requires Initial(s) && Runs(s, actions, t)
    ensures t.row.recStatus.Some? ==> t.row.HasInterval()
    ensures t.row.HasInterval() ==>
              var start, cursor, final := Start(t.row.recInicial.value), t.row.recAtual.value, t.row.recFinal.value;
              && start <= cursor <= final <= t.row.ultimoNsu
              && t.row.recTotal == |Between(t.server, start, cursor)|
              && Between(t.server, start, cursor) <= t.persisted
              && (t.row.recStatus == Some(RecConcluido) ==>
                    t.row.recTotal == |Between(t.server, start, final)|
                      && Between(t.server, start, final) <= t.persisted)
  {
    InitialInv(s);
    RunKeepsInv(s, actions, t);
    var r := t.row;
    if r.HasInterval() && r.recStatus == Some(RecConcluido) {
      BetweenAdds(t.server, Start(r.recInicial.value), r.recAtual.value, r.recFinal.value);
    }
  }

  /** The main cursor is exact too: everything up to it is persisted and counted once. */
  lemma MainIsExact(s: State, actions: seq<Action>, t: State)
    requires Initial(s) && Runs(s, actions, t)
    ensures IsCursor(t.server, t.row.ultimoNsu)
    ensures t.row.total == |Between(t.server, 0, t.row.ultimoNsu)|
    ensures Between(t.server, 0, t.row.ultimoNsu) <= t.persisted
  {
    InitialInv(s);
    RunKeepsInv(s, actions, t);
  }

  predicate HoldsMain(s: State, i: nat) {
    i in s.workers && s.workers[i].OwnsMain() && s.row.MainHeld(s.workers[i].token)
  }

  predicate HoldsRecovery(s: State, i: nat) {
    i in s.workers && s.workers[i].OwnsRecovery() && s.row.RecoveryHeld(s.workers[i].token)
  }

  /** The modes exclude each other and at most one execution holds the stored lease of either. */
  lemma OneHolder(s: State, actions: seq<Action>, t: State)
    requires Initial(s) && Runs(s, actions, t)
    ensures !(t.row.status == Processando && t.row.Recovering())
    ensures forall i, j | HoldsMain(t, i) && HoldsMain(t, j) :: i == j
    ensures forall i, j | HoldsRecovery(t, i) && HoldsRecovery(t, j) :: i == j
    ensures forall i, j :: !(HoldsMain(t, i) && HoldsRecovery(t, j))
  {
    InitialInv(s);
    RunKeepsInv(s, actions, t);
  }

  /** Without a commit no cursor and no total moves, except that a new recovery request sets those of its own. */
  lemma OnlyCommitsMove(s: State, a: Action)
    requires Enabled(s, a) && !a.Commit?
    ensures var r, r' := s.row, Next(s, a).row;
            && r'.ultimoNsu == r.ultimoNsu && r'.total == r.total && s.persisted <= Next(s, a).persisted
            && (r'.recAtual != r.recAtual || r'.recTotal != r.recTotal ==>
                  a.Claim? && s.workers[a.id].RecoveryCall? && !r.Recovering())
  {
    hide Reply, InRange;
  }

  lemma CommitMoves(s: State, id: nat, now: int)
    requires Inv(s) && id in s.workers && CanCommit(s.workers[id]) && Fresh(s, now)
    ensures var r, r' := s.row, CommitStep(s, id, now).row;
            && r.ultimoNsu <= r'.ultimoNsu && r.total <= r'.total && CommitStep(s, id, now).persisted == s.persisted
            && (r'.ultimoNsu != r.ultimoNsu || r'.total != r.total ==> HoldsMain(s, id))
            && (r'.recAtual != r.recAtual || r'.recTotal != r.recTotal ==>
                  HoldsRecovery(s, id) && r.recAtual.Some? && r'.recAtual.Some?
                  && r.recAtual.value <= r'.recAtual.value && r.recTotal <= r'.recTotal)
  {
    hide GoodMain, GoodProgress, GoodLot, Between, Consecutive, InRange, MaxNsu, OutOfRange, DistinctTokens, NextRun;
    var w := s.workers[id];
    if w.MainStoring? && s.row.MainHeld(w.token) {
      CommitMainKeepsRow(s, w, now);
    } else if w.RecoveryStoring? && s.row.RecoveryHeld(w.token) {
      CommitRecoveryKeepsRow(s, w, MaxNsu(w.docs[..w.done], w.cursor), now);
    }
  }

  /** Only the execution that holds the main lease moves the main cursor or total, and never backwards. */
  lemma OnlyHolderCommitsMain(s: State, a: Action)
    requires Inv(s) && Enabled(s, a)
    ensures var r, r' := s.row, Next(s, a).row;
            && r.ultimoNsu <= r'.ultimoNsu && r.total <= r'.total && s.persisted <= Next(s, a).persisted
            && (r'.ultimoNsu != r.ultimoNsu || r'.total != r.total ==>
                  a.Commit? && HoldsMain(s, a.id))
  {
    hide Inv;
    if a.Commit? {
      hide CommitStep;
      CommitMoves(s, a.id, a.now);
    } else {
      hide Next;
      OnlyCommitsMove(s, a);
    }
  }

  /** Only the execution that holds the recovery lease, or a new recovery request, moves the recovery cursor or
      total. */
  lemma OnlyHolderCommitsRecovery(s: State, a: Action)
    requires Inv(s) && Enabled(s, a)
    ensures var r, r' := s.row, Next(s, a).row;
            r'.recAtual != r.recAtual || r'.recTotal != r.recTotal ==>
              || (a.Commit? && HoldsRecovery(s, a.id)
                  && r.recAtual.Some? && r'.recAtual.Some? && r.recAtual.value <= r'.recAtual.value
                  && r.recTotal <= r'.recTotal)
              || (a.Claim? && s.workers[a.id].RecoveryCall? && !r.Recovering())
  {
    hide Inv;
    if a.Commit? {
      hide CommitStep;
      CommitMoves(s, a.id, a.now);
    } else {
      hide Next;
      OnlyCommitsMove(s, a);
    }
  }

  /** The main cursor never decreases, on any run. */
  lemma {:induction false} CursorNeverDecreases(s: State, actions: seq<Action>, t: State)
    requires Inv(s) && Runs(s, actions, t)
    ensures s.row.ultimoNsu <= t.row.ultimoNsu && s.row.total <= t.row.total && s.persisted <= t.persisted
    decreases |actions|
  {
    if actions != [] {
      OnlyHolderCommitsMain(s, actions[0]);
      NextKeepsInv(s, actions[0]);
      CursorNeverDecreases(Next(s, actions[0]), actions[1..], t);
    }
  }

  /** A run whose states are all in recovery mode, up to the one the last action starts from. */
  ghost predicate RunsInRecovery(s: State, actions: seq<Action>, t: State)
    decreases |actions|
  {
    if actions == [] then s == t
    else s.row.Recovering() && Enabled(s, actions[0]) && RunsInRecovery(Next(s, actions[0]), actions[1..], t)
  }

  /** While a recovery is running, up to and including the step that ends it, nothing moves the main cursor or total. */
  lemma {:induction false} RecoveryLeavesMainAlone(s: State, actions: seq<Action>, t: State)
    requires Inv(s) && RunsInRecovery(s, actions, t)
    ensures t.row.ultimoNsu == s.row.ultimoNsu && t.row.total == s.row.total
    decreases |actions|
  {
    if actions != [] {
      OnlyHolderCommitsMain(s, actions[0]);
      NextKeepsInv(s, actions[0]);
      RecoveryLeavesMainAlone(Next(s, actions[0]), actions[1..], t);
    }
  }

  /** The guard against a full lot that does not advance never fires, in either mode. */
  lemma FullLotsAdvance(s: State, actions: seq<Action>, t: State, id: nat)
    requires Initial(s) && Runs(s, actions, t) && id in t.workers && CanCommit(t.workers[id])
    ensures var w := t.workers[id];
            && (w.MainStoring? && ShouldContinue(w.answer) ==> MaxNsu(w.answer.docs, w.cursor) > w.cursor)
            && (w.RecoveryStoring? ==> MaxNsu(w.docs[..w.done], w.cursor) > w.cursor)
  {
    InitialInv(s);
    RunKeepsInv(s, actions, t);
    var w := t.workers[id];
    if w.MainStoring? {
      MaxNsuIsLast(w.answer.docs, w.cursor);
    } else if w.RecoveryStoring? {
      MaxNsuIsLast(w.docs[..w.done], w.cursor);
    }
  }

  // Runs, put together

  lemma {:induction false} OneMore(s: State, actions: seq<Action>, t: State, a: Action)
    requires Runs(s, actions, t) && Enabled(t, a)
    ensures Runs(s, actions + [a], Next(t, a))
    decreases |actions|
  {
    hide Next, Enabled;
    if actions == [] {
      assert [a][1..] == [];
      assert actions + [a] == [a];
      assert Runs(Next(s, a), [], Next(t, a));
    } else {
      assert (actions + [a])[1..] == actions[1..] + [a];
      OneMore(Next(s, actions[0]), actions[1..], t, a);
    }
  }

  lemma Then(s: State, actions: seq<Action>, t: State, a: Action) returns (more: seq<Action>, u: State)
    requires Runs(s, actions, t) && Enabled(t, a)
    ensures Runs(s, more, u) && u == Next(t, a)
  {
    OneMore(s, actions, t, a);
    more, u := actions + [a], Next(t, a);
  }

  lemma {:induction false} RunsCompose(s: State, first: seq<Action>, t: State, second: seq<Action>, u: State)
    requires Runs(s, first, t) && Runs(t, second, u)
    ensures Runs(s, first + second, u)
    decreases |first|
  {
    hide Next, Enabled;
    if first == [] {
      assert first + second == second;
    } else {
      assert (first + second)[1..] == first[1..] + second;
      RunsCompose(Next(s, first[0]), first[1..], t, second, u);
    }
  }
}
