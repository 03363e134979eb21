/** The NF-e collector service on one control row, one call or one uninterrupted execution at a time. */
module NfeScService {
  import opened Options
  import opened NsuServer
  import opened NfeScControl

  datatype Outcome = Started(lease: int) | AlreadyRunning | Conflict | BadRequest

  class Collector {
    var row: Row
    var ledger: set<nat>
    var persisted: set<nat>
    var downloads: nat

    constructor ()
      ensures row == NEW_ROW && ledger == {} && persisted == {} && downloads == 0
    {
      row, ledger, persisted, downloads := NEW_ROW, {}, {}, 0;
    }

    method PauseControl()
      modifies this`row
      ensures row == Pause(old(row))
      ensures forall token :: !row.Held(token)
    {
      row := Pause(row);
    }

    /** A paused control is refused here even when it is due: only configuring it makes it runnable again. */
    method Run(now: int) returns (outcome: Outcome)
      modifies this`row
      ensures outcome.Started? <==> RunAccepted(old(row), now) && (old(row).proxima.None? ==> old(row).status == Ativo)
      ensures outcome.Started? ==> row == Claim(old(row), now) && row.Held(outcome.lease)
      ensures outcome.Started? ==> outcome.lease == now + 300000
      ensures outcome.AlreadyRunning? <==> old(row).status == Processando
      ensures outcome.BadRequest? <==>
                old(row).status != Processando && old(row).proxima.Some? && old(row).proxima.value > now
      ensures outcome.Conflict? <==>
                old(row).status != Processando && old(row).status != Ativo && old(row).proxima == None
      ensures !outcome.Started? ==> row == old(row)
    {
      if row.status == Processando {
        return AlreadyRunning;
      }
      if row.proxima.Some? && row.proxima.value > now {
        return BadRequest;
      }
      if !CanClaim(row, now) {
        return Conflict;
      }
      row := Claim(row, now);
      outcome := Started(NewLease(now));
    }

    /** The loop over one lot: persist, then ledger entry and cursor in one transaction. It stops before the
        first NSU that is not above the cursor; what comes before stays committed. */
    method StoreLot(docs: seq<nat>, leaseUntil: int) returns (done: nat)
      requires row.Held(leaseUntil)
      modifies this
      ensures done <= |docs| && Ascending(docs[..done]) && (done > 0 ==> old(row.ultimoNsu) < docs[0])
      ensures done < |docs| ==> docs[done] <= Last(docs[..done], old(row.ultimoNsu))
      ensures ledger == old(ledger) + Entries(docs[..done]) && persisted == old(persisted) + Entries(docs[..done])
      ensures row == old(row).(ultimoNsu := Last(docs[..done], old(row.ultimoNsu)), total := old(row.total) + done)
      ensures downloads == old(downloads)
    {
      var cursor := row.ultimoNsu;
      done := 0;
      assert Entries(docs[..0]) == {};
      while done < |docs|
        invariant done <= |docs|
        invariant Ascending(docs[..done]) && (done > 0 ==> old(row.ultimoNsu) < docs[0])
        invariant cursor == Last(docs[..done], old(row.ultimoNsu))
        invariant ledger == old(ledger) + Entries(docs[..done]) && persisted == old(persisted) + Entries(docs[..done])
        invariant row == old(row).(ultimoNsu := cursor, total := old(row.total) + done)
        invariant downloads == old(downloads)
      {
        if docs[done] <= cursor {
          return;
        }
        assert docs[..done + 1] == docs[..done] + [docs[done]];
        assert Entries(docs[..done + 1]) == Entries(docs[..done]) + {docs[done]};
        persisted := persisted + {docs[done]};
        ledger := ledger + {docs[done]};
        row := CommitDocument(row, leaseUntil, docs[done]);
        cursor := docs[done];
        done := done + 1;
      }
    }

    /** One turn of the collector loop. `None` ends the execution. */
    method ProcessBatch(server: set<nat>, leaseUntil: int, now: int, later: int) returns (next: Option<int>)
      requires row.Held(leaseUntil)
      modifies this
      ensures var docs := Lot(server, old(row.ultimoNsu));
              && downloads == old(downloads) + 1
              && ledger == old(ledger) + Entries(docs) && persisted == old(persisted) + Entries(docs)
              && row.ultimoNsu == Last(docs, old(row.ultimoNsu))
              && row.total == old(row.total) + |docs|
              && (next.Some? <==> |docs| == BATCH_SIZE)
              && (if next.Some? then row.Held(next.value)
                else row.status == Ativo && row.proxima == Some(later + 12 * HOUR_MS))
    {
      var control := row;
      row := Renew(row, leaseUntil, now);
      var renewed := NewLease(now);
      downloads := downloads + 1;
      if Above(server, control.ultimoNsu) == {} {
        assert Lot(server, control.ultimoNsu) == [];
        row := Complete(row, renewed, C117, later);
        return None;
      }
      var docs := Lot(server, control.ultimoNsu);
      LotIsConsecutive(server, control.ultimoNsu, BATCH_SIZE);
      var done := StoreLot(docs, renewed);
      if done < |docs| {
        assert false;
      }
      assert docs[..done] == docs;
      if |docs| == BATCH_SIZE {
        row := Renew(row, renewed, later);
        return Some(NewLease(later));
      }
      row := Complete(row, renewed, C118, later);
      next := None;
    }

    /** An undisturbed execution downloads floor(k / 50) + 1 times for k waiting documents, records exactly
        those in the ledger, counts each once and leaves nothing above the cursor. */
    method ProcessAllAvailableBatches(server: set<nat>, initialLease: int, clock: nat -> int)
      modifies this
      ensures !old(row).Held(initialLease) ==>
                row == old(row) && ledger == old(ledger) && persisted == old(persisted) && downloads == old(downloads)
      ensures old(row).Held(initialLease) ==>
                var waiting := Above(server, old(row.ultimoNsu));
                && downloads == old(downloads) + |waiting| / BATCH_SIZE + 1
                && ledger == old(ledger) + waiting && persisted == old(persisted) + waiting
                && row.total == old(row.total) + |waiting|
                && Above(server, row.ultimoNsu) == {} && row.ultimoNsu in server + {old(row.ultimoNsu)}
                && row.status == Ativo
    {
      if !row.Held(initialLease) {
        return;
      }
      hide Lot, Above, Between, Entries, Advanced, Consecutive, Last;
      var leaseUntil, full := initialLease, 0;
      ghost var origin := row.ultimoNsu;
      NothingYet(server, origin, ledger);
      NothingYet(server, origin, persisted);
      while true
        invariant row.Held(leaseUntil)
        invariant Advanced(server, origin, row.ultimoNsu, old(ledger), ledger, BATCH_SIZE * full)
        invariant Advanced(server, origin, row.ultimoNsu, old(persisted), persisted, BATCH_SIZE * full)
        invariant row.total == old(row.total) + BATCH_SIZE * full && downloads == old(downloads) + full
        decreases |Above(server, row.ultimoNsu)|
      {
        NextLot(server, origin, row.ultimoNsu, old(ledger), ledger, BATCH_SIZE * full);
        NextLot(server, origin, row.ultimoNsu, old(persisted), persisted, BATCH_SIZE * full);
        var next := ProcessBatch(server, leaseUntil, clock(2 * full), clock(2 * full + 1));
        if next.None? {
          return;
        }
        leaseUntil, full := next.value, full + 1;
      }
    }
  }

  lemma NothingYet(server: set<nat>, origin: nat, held: set<nat>)
    ensures Advanced(server, origin, origin, held, held, 0)
  {
    assert Between(server, origin, origin) == {};
  }

  /** One download above `cursor`, seen from where the execution started. */
  lemma NextLot(server: set<nat>, origin: nat, cursor: nat, before: set<nat>, held: set<nat>, count: nat)
    requires Advanced(server, origin, cursor, before, held, count)
    ensures var docs := Lot(server, cursor);
            var next := Last(docs, cursor);
            && Advanced(server, origin, next, before, held + Entries(docs), count + |docs|)
            && next in server + {origin}
            && |docs| <= BATCH_SIZE
            && (docs != [] ==> |Above(server, next)| < |Above(server, cursor)|)
            && (|docs| < BATCH_SIZE ==>
                  && Above(server, next) == {}
                  && held + Entries(docs) == before + Above(server, origin)
                  && |Above(server, origin)| == count + |docs|)
  {
    hide Lot, Above, Between, Entries, Consecutive;
    var docs := Lot(server, cursor);
    LotIsConsecutive(server, cursor, BATCH_SIZE);
    LotConsumes(server, cursor);
    LastIsAhead(server, cursor, docs);
    AdvanceBy(server, origin, cursor, before, held, count, docs);
  }
}
