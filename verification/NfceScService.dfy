/** The NFC-e collector service on one control row, one call or one uninterrupted execution at a time. The
    row updates are the ones the interleaved runs are made of. */
module NfceScService {
  import opened Options
  import opened NsuServer
  import opened NfceScControl
  import opened NfceScRuns
  import opened NfceScRecovery

  datatype Outcome = Started(lease: int) | AlreadyRunning | Conflict | BadRequest

  class Collector {
    var row: Row
    var persisted: set<nat>
    var downloads: nat

    constructor ()
      ensures row == NEW_ROW && persisted == {} && downloads == 0
    {
      row, persisted, downloads := NEW_ROW, {}, 0;
    }

    /** Refused exactly while one of the modes runs. Otherwise the control can be started at every instant and
        its cursors, totals and stored interval are kept. */
    method SetUp() returns (accepted: bool)
      modifies this`row
      ensures accepted <==> old(row.status) != Processando && !old(row).Recovering()
      ensures !accepted ==> row == old(row)
      ensures accepted ==> row.status == Ativo && forall now :: Due(row, now) && RunAccepted(row, now)
      ensures accepted ==> forall token :: !row.MainHeld(token) && !row.RecoveryHeld(token)
      ensures row.ultimoNsu == old(row.ultimoNsu) && row.total == old(row.total)
      ensures row.recInicial == old(row.recInicial) && row.recFinal == old(row.recFinal)
      ensures row.recAtual == old(row.recAtual)
      ensures row.recStatus == old(row.recStatus) && row.recTotal == old(row.recTotal)
      ensures row.recLease == old(row.recLease)
      ensures row == if accepted then Configure(old(row)) else old(row)
    {
      accepted := row.status != Processando && !row.Recovering();
      if accepted {
        row := Configure(row);
      }
    }

    /** Pausing frees both leases, whichever mode was running. */
    method PauseAll()
      modifies this`row
      ensures row == PauseRecovery(Pause(old(row)))
      ensures forall token :: !row.MainHeld(token) && !row.RecoveryHeld(token)
    {
      row := Pause(row);
      row := PauseRecovery(row);
    }

    method Run(now: int) returns (outcome: Outcome)
      modifies this`row
      ensures outcome.Started? <==> RunAccepted(old(row), now)
      ensures outcome.Started? ==> row == ClaimMain(old(row), old(row).erro9999, now) && row.MainHeld(outcome.lease)
      ensures outcome.Started? ==> outcome.lease == now + 300000
      ensures !outcome.Started? ==> row == old(row)
      ensures outcome.Conflict? <==> old(row).recStatus == Some(EmRecuperacao)
      ensures outcome.AlreadyRunning? <==>
                old(row).recStatus != Some(EmRecuperacao) && old(row).status == Processando
      ensures outcome.BadRequest? <==>
                && old(row).recStatus != Some(EmRecuperacao) && old(row).status != Processando
                && !old(row).erro9999 && old(row).proxima.Some? && old(row).proxima.value > now
    {
      if row.Recovering() {
        return Conflict;
      }
      if row.status == Processando {
        return AlreadyRunning;
      }
      if !row.erro9999 && row.proxima.Some? && row.proxima.value > now {
        return BadRequest;
      }
      row := ClaimMain(row, row.erro9999, now);
      outcome := Started(NewLease(now));
    }

    method ReprocessNsus(inicial: int, final: int, now: int) returns (outcome: Outcome)
      modifies this`row
      ensures outcome.Started? <==> RecoveryAccepted(old(row), inicial, final, now)
      ensures outcome.Started? ==>
                var call := RecoveryCallFor(old(row), inicial, final);
                row == ClaimRecovery(old(row), inicial, final, call.cursor, call.total, now)
                  && row.RecoveryHeld(outcome.lease)
      ensures outcome.Started? ==>
                && inicial >= 0 && final >= 0 && row.recInicial == Some(inicial) && row.recFinal == Some(final)
                && (if Unfinished(old(row), inicial, final)
                    then row.recAtual == old(row.recAtual) && row.recTotal == old(row.recTotal)
                    else row.recAtual == Some(if inicial == 0 then 0 else inicial - 1) && row.recTotal == 0)
                && row.ultimoNsu == old(row.ultimoNsu) && row.total == old(row.total)
      ensures !outcome.Started? ==> row == old(row)
      ensures var valid := 0 <= inicial <= final && 1 <= final <= old(row).ultimoNsu;
              var recovering := old(row).recStatus == Some(EmRecuperacao);
              var running := old(row).status == Processando;
              var same := old(row).recInicial == Some(inicial) && old(row).recFinal == Some(final);
              && (outcome.Conflict? <==> valid && (running || (recovering && !same)))
              && (outcome.AlreadyRunning? <==> valid && !running && recovering && same)
              && (outcome.BadRequest? <==>
                    !valid || (!running && !recovering && old(row).proxima.Some? && old(row).proxima.value > now))
    {
      if inicial < 0 || final < 1 || final < inicial {
        return BadRequest;
      }
      if final > row.ultimoNsu {
        return BadRequest;
      }
      if row.status == Processando {
        return Conflict;
      }
      if row.Recovering() {
        if row.recInicial == Some(inicial) && row.recFinal == Some(final) {
          return AlreadyRunning;
        }
        return Conflict;
      }
      if row.proxima.Some? && row.proxima.value > now {
        return BadRequest;
      }
      StoppedMeans(row, inicial, final);
      var cursor, total := Start(inicial), 0;
      if Resumes(row, inicial, final) {
        cursor, total := row.recAtual.value, row.recTotal;
      }
      row := ClaimRecovery(row, inicial, final, cursor, total, now);
      outcome := Started(NewLease(now));
    }

    /** The persist loop of the main mode. */
    method StoreAll(docs: seq<nat>, from: nat) returns (cursor: nat)
      modifies this`persisted
      ensures persisted == old(persisted) + Entries(docs)
      ensures cursor == MaxNsu(docs, from)
    {
      cursor := from;
      for i := 0 to |docs|
        invariant persisted == old(persisted) + Entries(docs[..i])
        invariant cursor == MaxNsu(docs[..i], from)
      {
        MaxNsuExtends(docs[..i], docs[i], from);
        assert docs[..i + 1] == docs[..i] + [docs[i]];
        assert Entries(docs[..i + 1]) == Entries(docs[..i]) + {docs[i]};
        persisted := persisted + {docs[i]};
        if docs[i] > cursor {
          cursor := docs[i];
        }
      }
      assert docs[..|docs|] == docs;
    }

    /** One turn of the main loop: renew, download, persist, commit. `None` ends the execution. */
    method ProcessBatch(server: set<nat>, leaseUntil: int, now: int, later: int) returns (next: Option<int>)
      requires row.MainHeld(leaseUntil)
      modifies this
      ensures var docs := Reply(server, old(row.ultimoNsu)).docs;
              && downloads == old(downloads) + 1
              && persisted == old(persisted) + Entries(docs)
              && row.total == old(row.total) + |docs|
              && row.ultimoNsu == MaxNsu(docs, old(row.ultimoNsu))
              && (next.Some? <==> |docs| == BATCH_SIZE)
              && (if next.Some? then row.MainHeld(next.value)
                  else row.status == Ativo && row.proxima == Some(later + 12 * HOUR_MS))
      ensures row.recAtual == old(row.recAtual) && row.recTotal == old(row.recTotal)
    {
      var control := row;
      row := RenewMain(row, leaseUntil, now);
      var renewed := NewLease(now);
      var result := Reply(server, control.ultimoNsu);
      downloads := downloads + 1;
      var cursor := StoreAll(result.docs, control.ultimoNsu);
      if ShouldContinue(result) && cursor <= control.ultimoNsu {
        LotStep(server, control.ultimoNsu, control.ultimoNsu);
        assert false;
      }
      LotIsConsecutive(server, control.ultimoNsu, BATCH_SIZE);
      row := CommitMain(row, renewed, result, cursor, later);
      next := if ShouldContinue(result) then Some(NewLease(later)) else None;
    }

    /** An undisturbed execution downloads floor(k / 50) + 1 times for k waiting documents, persists exactly
        those, counts each once and leaves nothing above the cursor. */
    method ProcessAllAvailableBatches(server: set<nat>, initialLease: int, clock: nat -> int)
      modifies this
      ensures !old(row).MainHeld(initialLease) ==>
                row == old(row) && persisted == old(persisted) && downloads == old(downloads)
      ensures old(row).MainHeld(initialLease) ==>
                var waiting := Above(server, old(row.ultimoNsu));
                && downloads == old(downloads) + |waiting| / BATCH_SIZE + 1
                && persisted == old(persisted) + waiting
                && row.total == old(row.total) + |waiting|
                && Above(server, row.ultimoNsu) == {} && row.ultimoNsu in server + {old(row.ultimoNsu)}
                && row.status == Ativo && row.recAtual == old(row.recAtual) && row.recTotal == old(row.recTotal)
    {
      if !row.MainHeld(initialLease) {
        return;
      }
      var leaseUntil, full := initialLease, 0;
      ghost var origin := row.ultimoNsu;
      assert Between(server, origin, origin) == {};
      while true
        invariant row.MainHeld(leaseUntil)
        invariant Advanced(server, origin, row.ultimoNsu, old(persisted), persisted, BATCH_SIZE * full)
        invariant row.total == old(row.total) + BATCH_SIZE * full && downloads == old(downloads) + full
        invariant row.recAtual == old(row.recAtual) && row.recTotal == old(row.recTotal)
        decreases |Above(server, row.ultimoNsu)|
      {
        Advance(server, origin, row.ultimoNsu, old(persisted), persisted, BATCH_SIZE * full);
        var next := ProcessBatch(server, leaseUntil, clock(2 * full), clock(2 * full + 1));
        if next.None? {
          return;
        }
        leaseUntil, full := next.value, full + 1;
      }
    }

    /** The persist loop of the recovery mode, which stops at the first document beyond the interval. */
    method StoreInRange(docs: seq<nat>, from: nat, final: nat) returns (cursor: nat, count: nat)
      modifies this`persisted
      ensures count == InRange(docs, final)
      ensures persisted == old(persisted) + Entries(docs[..count])
      ensures cursor == MaxNsu(docs[..count], from)
    {
      cursor, count := from, 0;
      while count < |docs| && docs[count] <= final
        invariant count <= InRange(docs, final)
        invariant persisted == old(persisted) + Entries(docs[..count])
        invariant cursor == MaxNsu(docs[..count], from)
      {
        MaxNsuExtends(docs[..count], docs[count], from);
        assert docs[..count + 1] == docs[..count] + [docs[count]];
        assert Entries(docs[..count + 1]) == Entries(docs[..count]) + {docs[count]};
        persisted := persisted + {docs[count]};
        if docs[count] > cursor {
          cursor := docs[count];
        }
        count := count + 1;
      }
    }

    /** One turn of the recovery loop. `None` ends the execution. */
    method RecoverBatch(server: set<nat>, leaseUntil: int, now: int, later: int) returns (next: Option<int>)
      requires row.RecoveryHeld(leaseUntil) && row.recFinal.Some? && row.recAtual.Some?
      modifies this
      ensures var cursor, final := old(row).recAtual.value, old(row).recFinal.value;
              var turn := RecoveryTurn(server, cursor, final);
              && downloads == old(downloads) + (if cursor >= final then 0 else 1)
              && persisted == old(persisted) + Entries(turn.stored)
              && row.recTotal == old(row.recTotal) + |turn.stored|
              && row.recAtual == Some(turn.cursor) && row.recFinal == Some(final)
              && (next.Some? <==> !turn.completed)
              && (if next.Some? then row.RecoveryHeld(next.value)
                  else row.recStatus == Some(RecConcluido) && row.proxima == Some(later + 12 * HOUR_MS))
      ensures row.ultimoNsu == old(row.ultimoNsu) && row.total == old(row.total) && row.status == old(row.status)
      ensures row.recInicial == old(row.recInicial)
    {
      hide Between, Above, Lot, Consecutive, InRange, MaxNsu, OutOfRange;
      var control := row;
      var final, requestCursor := control.recFinal.value, control.recAtual.value;
      if requestCursor >= final {
        row := FinishRecovery(row, leaseUntil, final, later);
        return None;
      }
      row := RenewRecovery(row, leaseUntil, now);
      var renewed := NewLease(now);
      var docs := Reply(server, requestCursor).docs;
      downloads := downloads + 1;
      if docs == [] || docs[0] > final {
        row := FinishRecovery(row, renewed, requestCursor, later);
        return None;
      }
      var cursor, count := StoreInRange(docs, requestCursor, final);
      RecoveryLot(server, requestCursor, final);
      RecoveredLot(server, requestCursor, final, docs);
      if |docs| == BATCH_SIZE && cursor <= requestCursor {
        assert false;
      }
      row := CommitRecovery(row, renewed, docs, final, cursor, later);
      next := if RecoveryCompleted(docs, final, cursor) then None else Some(NewLease(later));
    }

    /** An undisturbed recovery concludes with every NSU of the interval persisted and counted once, leaves the
        main cursor and total alone, and needs one download per fifty documents: one more unless the last
        full lot ends exactly at the end of the interval. */
    method ProcessNsuRecovery(server: set<nat>, initialLease: int, clock: nat -> int)
      requires row.RecoveryHeld(initialLease) ==> row.recFinal.Some? && row.recAtual.Some?
      modifies this
      ensures !old(row).RecoveryHeld(initialLease) ==>
                row == old(row) && persisted == old(persisted) && downloads == old(downloads)
      ensures old(row).RecoveryHeld(initialLease) ==>
                var cursor, final := old(row).recAtual.value, old(row).recFinal.value;
                var wanted := Between(server, cursor, final);
                && persisted == old(persisted) + wanted
                && row.recTotal == old(row.recTotal) + |wanted|
                && downloads == old(downloads) + RecoveryDownloads(server, cursor, final)
                && row.recStatus == Some(RecConcluido)
                && row.recAtual.Some? && Between(server, row.recAtual.value, final) == {}
                && row.ultimoNsu == old(row.ultimoNsu) && row.total == old(row.total)
    {
      if !row.RecoveryHeld(initialLease) {
        return;
      }
      var leaseUntil, full := initialLease, 0;
      ghost var origin, final := row.recAtual.value, row.recFinal.value;
      assert Between(server, origin, origin) == {};
      while true
        invariant row.RecoveryHeld(leaseUntil) && row.recFinal == Some(final) && row.recAtual.Some?
        invariant if full == 0 then row.recAtual.value == origin else row.recAtual.value < final
        invariant Advanced(server, origin, row.recAtual.value, old(persisted), persisted, BATCH_SIZE * full)
        invariant row.recTotal == old(row.recTotal) + BATCH_SIZE * full && downloads == old(downloads) + full
        invariant row.ultimoNsu == old(row.ultimoNsu) && row.total == old(row.total)
        decreases final - row.recAtual.value
      {
        RecoverFurther(server, origin, row.recAtual.value, final, old(persisted), persisted, full);
        var next := RecoverBatch(server, leaseUntil, clock(2 * full), clock(2 * full + 1));
        if next.None? {
          return;
        }
        leaseUntil, full := next.value, full + 1;
      }
    }
  }

  /** What one turn of the recovery loop persists, the cursor it stores and whether it concludes. */
  datatype Turn = Turn(stored: seq<nat>, cursor: nat, completed: bool)

  function RecoveryTurn(server: set<nat>, cursor: nat, final: nat): Turn {
    var docs := Reply(server, cursor).docs;
    if cursor >= final then Turn([], final, true)
    else if docs == [] || docs[0] > final then Turn([], cursor, true)
    else CutTurn(docs, cursor, final)
  }

  function CutTurn(docs: seq<nat>, cursor: nat, final: nat): Turn {
    var n := InRange(docs, final);
    var next := MaxNsu(docs[..n], cursor);
    Turn(docs[..n], if OutOfRange(docs, final) then final else next, RecoveryCompleted(docs, final, next))
  }

  function RecoveryDownloads(server: set<nat>, cursor: nat, final: nat): nat {
    var k := |Between(server, cursor, final)|;
    if cursor >= final then 0
    else if final in server && k % BATCH_SIZE == 0 then k / BATCH_SIZE
    else k / BATCH_SIZE + 1
  }

  /** A turn that downloads documents of the interval. */
  lemma StoredTurn(server: set<nat>, cursor: nat, final: nat, docs: seq<nat>)
    requires Consecutive(server, cursor, docs) && cursor < final && docs != [] && docs[0] <= final
    requires |docs| <= BATCH_SIZE && (|docs| < BATCH_SIZE ==> Between(server, Last(docs, cursor), final) == {})
    ensures var turn := CutTurn(docs, cursor, final);
            && cursor < turn.cursor <= final
            && Between(server, cursor, turn.cursor) == Entries(turn.stored)
            && |Between(server, cursor, turn.cursor)| == |turn.stored|
            && 0 < |turn.stored| <= BATCH_SIZE
            && (turn.completed ==>
                  Between(server, turn.cursor, final) == {} && (|turn.stored| == BATCH_SIZE ==> final in server))
            && (!turn.completed ==> turn.cursor < final && turn.cursor in server && |turn.stored| == BATCH_SIZE)
  {
    RecoveredLot(server, cursor, final, docs);
    InRangeIsWholeOrCut(docs, final);
  }

  /** How `turn`, taken at `cursor`, relates to a recovery that started at `origin`. */
  ghost predicate Furthers(server: set<nat>, origin: nat, cursor: nat, final: nat, before: set<nat>,
      persisted: set<nat>, full: nat, turn: Turn) {
    if turn.completed then
      && persisted + Entries(turn.stored) == before + Between(server, origin, final)
      && |Between(server, origin, final)| == BATCH_SIZE * full + |turn.stored|
      && Between(server, turn.cursor, final) == {}
      && RecoveryDownloads(server, origin, final) == full + (if cursor >= final then 0 else 1)
    else
      && Advanced(server, origin, turn.cursor, before, persisted + Entries(turn.stored), BATCH_SIZE * (full + 1))
      && cursor < turn.cursor < final && |turn.stored| == BATCH_SIZE
  }

  /** A turn keeps track of how far the recovery has come; the one that concludes settles the whole interval. */
  lemma RecoverFurther(server: set<nat>, origin: nat, cursor: nat, final: nat, before: set<nat>, persisted: set<nat>,
      full: nat)
    requires Advanced(server, origin, cursor, before, persisted, BATCH_SIZE * full)
    requires if full == 0 then cursor == origin else cursor < final
    ensures Furthers(server, origin, cursor, final, before, persisted, full, RecoveryTurn(server, cursor, final))
  {
    var docs := Reply(server, cursor).docs;
    if cursor >= final {
      assert Between(server, origin, final) == {};
    } else if docs == [] || docs[0] > final {
      NothingInRange(server, origin, cursor, final, full);
    } else {
      RecoveryLot(server, cursor, final);
      StoredFurther(server, origin, cursor, final, before, persisted, full, docs);
    }
  }

  lemma StoredFurther(server: set<nat>, origin: nat, cursor: nat, final: nat, before: set<nat>, persisted: set<nat>,
      full: nat, docs: seq<nat>)
    requires Advanced(server, origin, cursor, before, persisted, BATCH_SIZE * full)
    requires Consecutive(server, cursor, docs) && cursor < final && docs != [] && docs[0] <= final
    requires |docs| <= BATCH_SIZE && (|docs| < BATCH_SIZE ==> Between(server, Last(docs, cursor), final) == {})
    ensures Furthers(server, origin, cursor, final, before, persisted, full, CutTurn(docs, cursor, final))
  {
    StoredTurn(server, cursor, final, docs);
    var turn := CutTurn(docs, cursor, final);
    BetweenAdds(server, origin, cursor, turn.cursor);
    if turn.completed {
      BetweenAdds(server, origin, turn.cursor, final);
      LastDownload(server, origin, final, full, |turn.stored|);
    }
  }

  lemma NothingInRange(server: set<nat>, origin: nat, cursor: nat, final: nat, full: nat)
    requires origin <= cursor < final && |Between(server, origin, cursor)| == BATCH_SIZE * full
    requires var docs := Reply(server, cursor).docs; docs == [] || docs[0] > final
    ensures Between(server, cursor, final) == {} && Between(server, origin, final) == Between(server, origin, cursor)
    ensures RecoveryDownloads(server, origin, final) == full + 1
  {
    RecoveryLot(server, cursor, final);
    BetweenAdds(server, origin, cursor, final);
    assert final !in server by {
      assert final !in Between(server, cursor, final);
    }
  }

  lemma LastDownload(server: set<nat>, origin: nat, final: nat, full: nat, last: nat)
    requires origin < final && |Between(server, origin, final)| == BATCH_SIZE * full + last
    requires 0 < last <= BATCH_SIZE && (last == BATCH_SIZE ==> final in server)
    ensures RecoveryDownloads(server, origin, final) == full + 1
  {
  }

  lemma Advance(server: set<nat>, origin: nat, cursor: nat, before: set<nat>, persisted: set<nat>, count: nat)
    requires Advanced(server, origin, cursor, before, persisted, count)
    ensures var docs := Reply(server, cursor).docs;
            var next := MaxNsu(docs, cursor);
            && Advanced(server, origin, next, before, persisted + Entries(docs), count + |docs|)
            && |docs| <= BATCH_SIZE
            && (docs != [] ==> |Above(server, next)| < |Above(server, cursor)|)
            && (|docs| < BATCH_SIZE ==>
                  && Above(server, next) == {}
                  && persisted + Entries(docs) == before + Above(server, origin)
                  && |Above(server, origin)| == count + |docs|)
  {
    hide Reply, Between, Above, MaxNsu, Entries;
    LotStep(server, origin, cursor);
    AboveSplits(server, origin, MaxNsu(Reply(server, cursor).docs, cursor));
  }

  /** One download above `cursor`, seen from where the execution started. */
  lemma LotStep(server: set<nat>, origin: nat, cursor: nat)
    requires origin <= cursor
    ensures var docs := Reply(server, cursor).docs;
            var next := MaxNsu(docs, cursor);
            && cursor <= next && (if docs == [] then next == cursor else cursor < next && next in server)
            && Between(server, origin, next) == Between(server, origin, cursor) + Entries(docs)
            && |Between(server, origin, next)| == |Between(server, origin, cursor)| + |docs|
            && |docs| <= BATCH_SIZE && |Above(server, next)| == |Above(server, cursor)| - |docs|
            && (|docs| < BATCH_SIZE ==> Above(server, next) == {})
  {
    var docs := Lot(server, cursor);
    LotIsConsecutive(server, cursor, BATCH_SIZE);
    LotConsumes(server, cursor);
    MaxNsuIsLast(docs, cursor);
    LastIsAhead(server, cursor, docs);
    ConsecutiveCount(server, cursor, docs);
    BetweenAdds(server, origin, cursor, Last(docs, cursor));
  }
}
