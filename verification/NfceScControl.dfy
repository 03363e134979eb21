/** The control row of an NFC-e collector (table nfce_sc_sync_controle) and every single-row update the
    service issues on it. An update whose `where` clause does not match leaves the row as it is. */
module NfceScControl {
  import opened Options
  import opened NsuServer

  const EXECUTION_LEASE_MS: int := 5 * 60 * 1000
  const HOUR_MS: int := 60 * 60 * 1000

  datatype Status = Ativo | Pausado | Processando | ErroCertificado | ErroAutorizacao | ErroApi

  datatype RecoveryStatus = EmRecuperacao | RecPausado | RecConcluido | RecErro

  /** `erro9999` stands for a last message that starts with "SEF/SC 9999:". */
  datatype Row = Row(
    status: Status,
    proxima: Option<int>,
    erro9999: bool,
    ultimoNsu: nat,
    total: nat,
    recInicial: Option<nat>,
    recFinal: Option<nat>,
    recAtual: Option<nat>,
    recStatus: Option<RecoveryStatus>,
    recTotal: nat,
    recLease: Option<int>
  ) {
    predicate Recovering() {
      recStatus == Some(EmRecuperacao)
    }

    predicate HasInterval() {
      recInicial.Some? && recFinal.Some? && recAtual.Some?
    }

    /** The row is in main mode and `token` is the lease stored in it. */
    predicate MainHeld(token: int) {
      status == Processando && proxima == Some(token)
    }

    /** The row is in recovery mode and `token` is the lease stored in it. */
    predicate RecoveryHeld(token: int) {
      status != Processando && Recovering() && recLease == Some(token)
    }
  }

  const NEW_ROW: Row := Row(Ativo, None, false, 0, 0, None, None, None, None, 0, None)

  /** Outcome classes of a download: 117, 118, 8002/8004, 280-286, any other code. */
  datatype CStat = NenhumDocumento | DocumentosLocalizados | SemVinculo | CertificadoRecusado
      | OutroCodigo(is9999: bool)

  datatype Answer = Answer(cStat: CStat, docs: seq<nat>)

  /** What the service answers above `cursor` when it does not refuse. */
  function Reply(server: set<nat>, cursor: nat): Answer {
    if Above(server, cursor) == {} then Answer(NenhumDocumento, [])
    else Answer(DocumentosLocalizados, Lot(server, cursor))
  }

  function NewLease(now: int): int {
    now + EXECUTION_LEASE_MS
  }

  function Start(inicial: nat): nat {
    if inicial > 0 then inicial - 1 else 0
  }

  // Operator calls

  function Configure(r: Row): Row {
    r.(status := Ativo, proxima := None, erro9999 := false)
  }

  function Pause(r: Row): Row {
    r.(status := Pausado, proxima := None, erro9999 := false)
  }

  function PauseRecovery(r: Row): Row {
    if r.Recovering() then r.(recStatus := Some(RecPausado), recLease := None) else r
  }

  predicate Due(r: Row, now: int) {
    r.proxima.None? || r.proxima.value <= now
  }

  predicate CanClaimMain(r: Row, retry9999: bool, now: int) {
    r.status != Processando && !r.Recovering() && (retry9999 || Due(r, now))
  }

  function ClaimMain(r: Row, retry9999: bool, now: int): Row {
    if CanClaimMain(r, retry9999, now)
    then r.(status := Processando, proxima := Some(NewLease(now)), erro9999 := false)
    else r
  }

  predicate CanClaimRecovery(r: Row, now: int) {
    r.status != Processando && !r.Recovering() && Due(r, now)
  }

  function ClaimRecovery(r: Row, inicial: nat, final: nat, cursor: nat, total: nat, now: int): Row {
    if CanClaimRecovery(r, now)
    then r.(recInicial := Some(inicial), recFinal := Some(final), recAtual := Some(cursor),
            recStatus := Some(EmRecuperacao), recTotal := total,
            recLease := Some(NewLease(now)), proxima := Some(NewLease(now)))
    else r
  }

  /** A recovery request resumes the stored interval when it names the same bounds and that interval stopped midway. */
  predicate Resumes(r: Row, inicial: nat, final: nat) {
    && r.recInicial == Some(inicial)
    && r.recFinal == Some(final)
    && (r.recStatus == Some(RecPausado) || r.recStatus == Some(RecErro))
    && r.recAtual.Some?
  }

  // Expiry sweep

  predicate CanSweepMain(r: Row, now: int) {
    r.status == Processando && r.proxima.Some? && r.proxima.value <= now
  }

  function SweepMain(r: Row, now: int): Row {
    if CanSweepMain(r, now) then r.(proxima := Some(NewLease(now)), erro9999 := false) else r
  }

  predicate CanSweepRecovery(r: Row, now: int) {
    r.status != Processando && r.Recovering() && r.recLease.Some? && r.recLease.value <= now
  }

  function SweepRecovery(r: Row, now: int): Row {
    if CanSweepRecovery(r, now)
    then r.(recLease := Some(NewLease(now)), proxima := Some(NewLease(now)))
    else r
  }

  // Main worker

  function RenewMain(r: Row, token: int, now: int): Row {
    if r.MainHeld(token) then r.(proxima := Some(NewLease(now))) else r
  }

  predicate ShouldContinue(a: Answer) {
    a.cStat.DocumentosLocalizados? && |a.docs| == BATCH_SIZE
  }

  /** The cursor after the persist loop: the largest NSU seen. */
  function MaxNsu(docs: seq<nat>, cursor: nat): nat {
    if docs == [] then cursor
    else MaxNsu(docs[1..], if docs[0] > cursor then docs[0] else cursor)
  }

  function NextStatus(c: CStat): Status {
    match c
    case SemVinculo => ErroAutorizacao
    case CertificadoRecusado => ErroCertificado
    case OutroCodigo(_) => ErroApi
    case _ => Ativo
  }

  function NextRun(a: Answer, now: int): int {
    if ShouldContinue(a) then NewLease(now)
    else if !a.cStat.NenhumDocumento? && !a.cStat.DocumentosLocalizados? then now + HOUR_MS
    else if a.cStat.NenhumDocumento? || |a.docs| < BATCH_SIZE then now + 12 * HOUR_MS
    else now + HOUR_MS
  }

  function CommitMain(r: Row, token: int, a: Answer, cursor: nat, now: int): Row {
    if r.MainHeld(token)
    then r.(status := if ShouldContinue(a) then Processando else NextStatus(a.cStat),
            ultimoNsu := cursor,
            proxima := Some(NextRun(a, now)),
            total := r.total + |a.docs|,
            erro9999 := a.cStat == OutroCodigo(true))
    else r
  }

  function StopMain(r: Row, token: int, certificate: bool, says9999: bool, now: int): Row {
    if r.MainHeld(token)
    then r.(status := if certificate then ErroCertificado else ErroApi,
            proxima := Some(now + HOUR_MS), erro9999 := says9999)
    else r
  }

  // Recovery worker

  function RenewRecovery(r: Row, token: int, now: int): Row {
    if r.RecoveryHeld(token) then r.(recLease := Some(NewLease(now)), proxima := Some(NewLease(now))) else r
  }

  /** How many leading documents the persist loop accepts before the first one beyond the interval. */
  function InRange(docs: seq<nat>, final: nat): (n: nat)
    ensures n <= |docs|
    ensures forall i | 0 <= i < n :: docs[i] <= final
    ensures n < |docs| ==> final < docs[n]
  {
    if docs == [] || docs[0] > final then 0 else 1 + InRange(docs[1..], final)
  }

  predicate OutOfRange(docs: seq<nat>, final: nat) {
    exists i | 0 <= i < |docs| :: docs[i] > final
  }

  predicate RecoveryCompleted(docs: seq<nat>, final: nat, cursor: nat) {
    OutOfRange(docs, final) || cursor >= final || |docs| < BATCH_SIZE
  }

  function CommitRecovery(r: Row, token: int, docs: seq<nat>, final: nat, cursor: nat, now: int): Row {
    if r.RecoveryHeld(token)
    then
      var completed := RecoveryCompleted(docs, final, cursor);
      r.(recAtual := Some(if OutOfRange(docs, final) then final else cursor),
         recTotal := r.recTotal + InRange(docs, final),
         recStatus := Some(if completed then RecConcluido else EmRecuperacao),
         recLease := if completed then None else Some(NewLease(now)),
         proxima := Some(if completed then now + 12 * HOUR_MS else NewLease(now)))
    else r
  }

  function FinishRecovery(r: Row, token: int, cursor: nat, now: int): Row {
    if r.RecoveryHeld(token)
    then r.(recAtual := Some(cursor), recStatus := Some(RecConcluido), recLease := None,
        proxima := Some(now + 12 * HOUR_MS))
    else r
  }

  function StopRecovery(r: Row, token: int, now: int): Row {
    if r.RecoveryHeld(token)
    then r.(recStatus := Some(RecErro), recLease := None, proxima := Some(now + HOUR_MS))
    else r
  }

  // Cursors over gapless lots

  lemma {:induction false} MaxNsuIsLast(docs: seq<nat>, cursor: nat)
    requires Ascending(docs) && (docs != [] ==> cursor < docs[0])
    ensures MaxNsu(docs, cursor) == Last(docs, cursor)
    decreases |docs|
  {
    if docs != [] {
      MaxNsuIsLast(docs[1..], docs[0]);
    }
  }

  lemma {:induction false} MaxNsuExtends(docs: seq<nat>, nsu: nat, cursor: nat)
    ensures MaxNsu(docs + [nsu], cursor) == if nsu > MaxNsu(docs, cursor) then nsu else MaxNsu(docs, cursor)
    decreases |docs|
  {
    if docs == [] {
      assert (docs + [nsu])[1..] == [];
    } else {
      assert (docs + [nsu])[1..] == docs[1..] + [nsu];
      MaxNsuExtends(docs[1..], nsu, if docs[0] > cursor then docs[0] else cursor);
    }
  }

  lemma InRangeIsWholeOrCut(docs: seq<nat>, final: nat)
    requires Ascending(docs)
    ensures OutOfRange(docs, final) <==> InRange(docs, final) < |docs|
    ensures docs != [] && docs[0] <= final ==> InRange(docs, final) > 0
  {
    var n := InRange(docs, final);
    if n < |docs| {
      assert docs[n] > final;
    }
  }

  /** A short lot says that the service has nothing more; a lot that starts beyond the interval, that the rest of it is
      empty. */
  lemma RecoveryLot(server: set<nat>, cursor: nat, final: nat)
    ensures var docs := Reply(server, cursor).docs;
            && Consecutive(server, cursor, docs) && |docs| <= BATCH_SIZE
            && (|docs| < BATCH_SIZE ==> Between(server, Last(docs, cursor), final) == {})
            && (docs == [] || docs[0] > final ==> Between(server, cursor, final) == {})
  {
    LotIsConsecutive(server, cursor, BATCH_SIZE);
    var docs := Reply(server, cursor).docs;
    if |docs| < BATCH_SIZE {
      assert Between(server, Last(docs, cursor), final) <= Above(server, Last(docs, cursor));
    }
    assert Between(server, cursor, final) <= Above(server, cursor);
    if docs != [] {
      assert docs[0] == Least(Above(server, cursor));
    }
  }

  /** What the recovery persisted of a lot is the whole of the interval up to its new cursor. */
  lemma RecoveredLot(server: set<nat>, cursor: nat, final: nat, docs: seq<nat>)
    requires Consecutive(server, cursor, docs) && cursor <= final && docs != [] && docs[0] <= final
    requires |docs| < BATCH_SIZE ==> Between(server, Last(docs, cursor), final) == {}
    ensures var n := InRange(docs, final);
            var next := MaxNsu(docs[..n], cursor);
            var stored := if OutOfRange(docs, final) then final else next;
            && 0 < n && cursor < next <= stored <= final && next in server
            && |Between(server, cursor, stored)| == n
            && Between(server, cursor, stored) == Entries(docs[..n])
            && (RecoveryCompleted(docs, final, next) ==> Between(server, stored, final) == {})
  {
    hide InRange, OutOfRange, MaxNsu, Entries;
    var n := InRange(docs, final);
    InRangeIsWholeOrCut(docs, final);
    PrefixIsConsecutive(server, cursor, docs, n);
    MaxNsuIsLast(docs[..n], cursor);
    ConsecutiveCount(server, cursor, docs[..n]);
    if n < |docs| {
      CutLot(server, cursor, docs, n, final);
      BetweenAdds(server, cursor, docs[n - 1], final);
    } else {
      assert docs[..n] == docs;
    }
  }

  /** Nothing lies strictly between two neighbours of a gapless lot. */
  lemma CutLot(server: set<nat>, cursor: nat, docs: seq<nat>, n: nat, final: nat)
    requires Consecutive(server, cursor, docs) && 0 < n < |docs| && final < docs[n]
    ensures Between(server, docs[n - 1], final) == {}
  {
    forall x | x in server && docs[n - 1] < x ensures docs[n] <= x {
      if x <= docs[|docs| - 1] {
        var i :| 0 <= i < |docs| && docs[i] == x;
        assert n <= i;
      }
    }
  }

  /** A refused download costs nothing but time: cursor and total stay, and the next attempt is an hour away
      under a status that tells why; without documents it is twelve hours away. */
  lemma RefusalKeepsCursor(r: Row, token: int, code: CStat, now: int)
    requires r.MainHeld(token) && !code.DocumentosLocalizados?
    ensures var after := CommitMain(r, token, Answer(code, []), MaxNsu([], r.ultimoNsu), now);
            && after.ultimoNsu == r.ultimoNsu && after.total == r.total && !after.MainHeld(token)
            && after.proxima == Some(now + if code.NenhumDocumento? then 12 * HOUR_MS else HOUR_MS)
            && (after.status == Ativo <==> code.NenhumDocumento?)
            && (CanClaimMain(after, after.erro9999, now) <==> !r.Recovering() && code == OutroCodigo(true))
  {
  }

  // When a control can be used again

  /** What each result of a download leaves of the main mode: after a full lot the lease goes on; otherwise it is given
      up, the status tells what the service said, and the next run can be started exactly from the end of its wait, or
      at once after a 9999. */
  lemma CommitMeans(r: Row, token: int, a: Answer, cursor: nat, now: int, t: int)
    requires r.MainHeld(token) && !r.Recovering()
    ensures var after := CommitMain(r, token, a, cursor, now);
            var full := a.cStat.DocumentosLocalizados? && |a.docs| == 50;
            var located := a.cStat.DocumentosLocalizados?;
            var wait := if a.cStat.NenhumDocumento? || (located && |a.docs| < 50) then 12 else 1;
            && after.ultimoNsu == cursor && after.total == r.total + |a.docs|
            && (full <==> after.MainHeld(now + 300000)) && (full <==> after.status == Processando)
            && (!full ==>
                  && (after.status == Ativo <==> a.cStat.NenhumDocumento? || located)
                  && (after.status == ErroAutorizacao <==> a.cStat.SemVinculo?)
                  && (after.status == ErroCertificado <==> a.cStat.CertificadoRecusado?)
                  && (after.status == ErroApi <==> a.cStat.OutroCodigo?)
                  && (after.erro9999 <==> a.cStat == OutroCodigo(true))
                  && (CanClaimMain(after, after.erro9999, t) <==> after.erro9999 || t >= now + wait * 3600000)
                  && (CanClaimRecovery(after, t) <==> t >= now + wait * 3600000))
  {
  }

  /** An execution that fails gives up its lease, keeps cursor and total, and the control can be used again from an
      hour later, at once for another run if the message begins like a 9999. */
  lemma StopMainMeans(r: Row, token: int, certificate: bool, says9999: bool, now: int, t: int)
    requires r.MainHeld(token) && !r.Recovering()
    ensures var after := StopMain(r, token, certificate, says9999, now);
            && after.ultimoNsu == r.ultimoNsu && after.total == r.total && !after.MainHeld(token)
            && after.status == (if certificate then ErroCertificado else ErroApi)
            && (CanClaimMain(after, after.erro9999, t) <==> says9999 || t >= now + 3600000)
            && (CanClaimRecovery(after, t) <==> t >= now + 3600000)
  {
  }

  /** A recovery that fails keeps its interval and its progress, and another one can be started from an hour later. */
  lemma StopRecoveryMeans(r: Row, token: int, now: int, t: int)
    requires r.RecoveryHeld(token)
    ensures var after := StopRecovery(r, token, now);
            && after.recInicial == r.recInicial && after.recFinal == r.recFinal && after.recAtual == r.recAtual
            && after.recTotal == r.recTotal && after.recStatus == Some(RecErro) && after.recLease == None
            && after.ultimoNsu == r.ultimoNsu && after.total == r.total && after.status == r.status
            && (CanClaimRecovery(after, t) <==> t >= now + 3600000)
            && (CanClaimMain(after, false, t) <==> t >= now + 3600000)
  {
  }

  /** A recovery that concludes frees the control, for use from twelve hours later. */
  lemma ConclusionMeans(r: Row, token: int, docs: seq<nat>, final: nat, cursor: nat, now: int, t: int)
    requires r.RecoveryHeld(token)
    ensures var after := FinishRecovery(r, token, cursor, now);
            && after.recStatus == Some(RecConcluido) && after.recAtual == Some(cursor) && after.recTotal == r.recTotal
            && after.recLease == None
            && (CanClaimRecovery(after, t) <==> t >= now + 43200000)
    ensures var after := CommitRecovery(r, token, docs, final, cursor, now);
            var completed := (exists d | d in docs :: d > final) || cursor >= final || |docs| < 50;
            && (completed <==> after.recStatus == Some(RecConcluido))
            && (completed ==> after.recLease == None)
            && (completed ==> (CanClaimRecovery(after, t) <==> t >= now + 43200000))
            && (!completed <==> after.RecoveryHeld(now + 300000))
  {
    BeyondMeans(docs, final);
    hide OutOfRange, InRange;
  }

  lemma BeyondMeans(docs: seq<nat>, final: nat)
    ensures OutOfRange(docs, final) <==> exists d | d in docs :: d > final
  {
    if d :| d in docs && d > final {
      var i :| 0 <= i < |docs| && docs[i] == d;
      assert docs[i] > final;
    }
    if i :| 0 <= i < |docs| && docs[i] > final {
      assert docs[i] in docs;
    }
  }

  /** Pausing keeps what either mode has done and gives both leases up; a paused control can be used at once. */
  lemma PauseMeans(r: Row, now: int)
    ensures var after := PauseRecovery(Pause(r));
            && after.ultimoNsu == r.ultimoNsu && after.total == r.total && after.recTotal == r.recTotal
            && after.recInicial == r.recInicial && after.recFinal == r.recFinal && after.recAtual == r.recAtual
            && after.recStatus == (if r.recStatus == Some(EmRecuperacao) then Some(RecPausado) else r.recStatus)
            && after.status == Pausado && CanClaimMain(after, false, now) && CanClaimRecovery(after, now)
            && !after.erro9999 && (r.Recovering() ==> after.recLease == None)
  {
  }

  /** A claim takes the control for five minutes; the sweep takes it over exactly when they have passed. */
  lemma ClaimsAreSwept(r: Row, retry9999: bool, inicial: nat, final: nat, cursor: nat, total: nat, now: int, t: int)
    ensures CanClaimMain(r, retry9999, now) ==>
              var after := ClaimMain(r, retry9999, now);
              && after.MainHeld(now + 300000) && (CanSweepMain(after, t) <==> t >= now + 300000)
              && SweepMain(after, now + 300000).MainHeld(now + 600000) && !after.erro9999
              && after.ultimoNsu == r.ultimoNsu && after.total == r.total && !CanClaimMain(after, true, t)
    ensures CanClaimRecovery(r, now) ==>
              var after := ClaimRecovery(r, inicial, final, cursor, total, now);
              && after.RecoveryHeld(now + 300000) && (CanSweepRecovery(after, t) <==> t >= now + 300000)
              && SweepRecovery(after, now + 300000).RecoveryHeld(now + 600000)
              && after.recAtual == Some(cursor) && after.recTotal == total && !CanClaimMain(after, true, t)
              && after.ultimoNsu == r.ultimoNsu && after.total == r.total
  {
  }

  /** Only the holder of a lease renews it, for five minutes more, and moves nothing else; a sweep takes it over in the
      same way, and what the row said of a 9999 is gone. A recovery's lease is also when the control is next due. */
  lemma RenewalsMean(r: Row, token: int, now: int)
    ensures RenewMain(r, token, now) == if r.MainHeld(token) then r.(proxima := Some(now + 300000)) else r
    ensures RenewRecovery(r, token, now)
            == if r.RecoveryHeld(token) then r.(recLease := Some(now + 300000), proxima := Some(now + 300000)) else r
    ensures SweepMain(r, now)
            == if CanSweepMain(r, now) then r.(proxima := Some(now + 300000), erro9999 := false) else r
    ensures SweepRecovery(r, now)
            == if CanSweepRecovery(r, now) then r.(recLease := Some(now + 300000), proxima := Some(now + 300000))
               else r
  {
  }

  /** A configuration makes the control active and startable at once, whatever it waited for, and keeps all progress. */
  lemma ConfigurationMeans(r: Row, now: int)
    ensures var after := Configure(r);
            && after == r.(status := Ativo, proxima := None, erro9999 := false)
            && (!r.Recovering() ==> CanClaimMain(after, after.erro9999, now) && CanClaimRecovery(after, now))
  {
  }

  /** The service says 117 exactly when it has nothing above the cursor, and otherwise 118 with the lot. */
  lemma ReplyMeans(server: set<nat>, cursor: nat)
    ensures Reply(server, cursor).cStat.NenhumDocumento? <==> forall x | x in server :: x <= cursor
    ensures Reply(server, cursor).cStat.DocumentosLocalizados? <==> exists x | x in server :: x > cursor
    ensures Reply(server, cursor).docs == [] <==> Reply(server, cursor).cStat.NenhumDocumento?
  {
    LotIsConsecutive(server, cursor, BATCH_SIZE);
    if x :| x in server && x > cursor {
      assert x in Above(server, cursor);
    }
  }
}
