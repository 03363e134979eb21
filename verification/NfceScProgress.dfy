/** What the runs of the NFC-e collector can always achieve: there are no dead ends. From every state in order some
    run brings the main mode to the end of what is published, and every valid interval can be recovered. */
module NfceScProgress {
  import opened Options
  import opened NsuServer
  import opened NfceScControl
  import opened NfceScRuns

  /** An instant from which no lease was issued yet, not before `from`. */
  lemma {:induction false} FreshInstant(issued: set<int>, from: int) returns (now: int)
    ensures now >= from && forall t | t >= now :: NewLease(t) !in issued
    decreases |issued|
  {
    if lease :| lease in issued {
      var later := FreshInstant(issued - {lease}, from);
      now := if later <= lease then lease + 1 else later;
    } else {
      now := from;
    }
  }

  ghost predicate AllFresh(s: State, now: int) {
    forall t | t >= now :: Fresh(s, t)
  }

  // One turn of the main loop

  /** Execution `id` is at the top of the main loop and holds the lease. */
  predicate MainAtTop(s: State, id: nat) {
    id in s.workers && s.workers[id].MainReady? && s.row.MainHeld(s.workers[id].token)
  }

  /** It has the answer to its download. */
  ghost predicate MainAnswered(s: State, id: nat, done: nat) {
    && id in s.workers && s.workers[id].MainStoring? && s.workers[id].done == done
    && s.row.MainHeld(s.workers[id].token) && s.workers[id].cursor == s.row.ultimoNsu
    && s.workers[id].answer == Reply(s.server, s.row.ultimoNsu)
  }

  /** Only the execution, the leases and the row's due date change. */
  ghost predicate OnlyMoves(s: State, t: State, id: nat) {
    && t.server == s.server && t.persisted == s.persisted && s.issued <= t.issued
    && t.row.ultimoNsu == s.row.ultimoNsu && t.row.total == s.row.total && !t.row.Recovering()
    && forall i | i != id :: (i in t.workers <==> i in s.workers) && (i in s.workers ==> t.workers[i] == s.workers[i])
  }

  lemma MainAsks(s: State, id: nat, now: int) returns (actions: seq<Action>, t: State)
    requires MainAtTop(s, id) && Fresh(s, now)
    ensures Runs(s, actions, t) && t.issued == s.issued + {NewLease(now)}
    ensures t.server == s.server && t.persisted == s.persisted
    ensures t.row == s.row.(proxima := Some(NewLease(now)))
    ensures t.workers == s.workers[id := MainWaiting(NewLease(now), s.row.ultimoNsu)]
  {
    assert Runs(s, [], s);
    hide Runs;
    actions, t := Then(s, [], s, ReadRow(id));
    actions, t := Then(s, actions, t, Renew(id, now));
  }

  lemma MainDownloads(s: State, id: nat, now: int) returns (actions: seq<Action>, t: State)
    requires MainAtTop(s, id) && AllFresh(s, now) && !s.row.Recovering()
    ensures Runs(s, actions, t) && OnlyMoves(s, t, id) && AllFresh(t, now + 1)
    ensures MainAnswered(t, id, 0) && s.server == t.server
  {
    assert Fresh(s, now);
    hide Runs, Reply;
    actions, t := MainAsks(s, id, now);
    actions, t := Then(s, actions, t, Download(id, Replied));
    forall x | x >= now + 1 ensures Fresh(t, x) {
      assert Fresh(s, x);
    }
  }

  /** The execution with its whole lot persisted. */
  function Answered(s: State, id: nat): Worker
    requires id in s.workers && s.workers[id].MainStoring?
  {
    MainStoring(s.workers[id].token, s.workers[id].cursor, s.workers[id].answer, |s.workers[id].answer.docs|)
  }

  lemma {:induction false} MainPersists(s: State, id: nat, done: nat) returns (actions: seq<Action>, t: State)
    requires MainAnswered(s, id, done) && done <= |s.workers[id].answer.docs|
    ensures Runs(s, actions, t) && t.row == s.row && t.server == s.server && t.issued == s.issued
    ensures var docs := s.workers[id].answer.docs;
            && t.persisted == s.persisted + Entries(docs[done..])
            && t.workers == s.workers[id := Answered(s, id)]
    decreases |s.workers[id].answer.docs| - done
  {
    var docs := s.workers[id].answer.docs;
    if done == |docs| {
      actions, t := [], s;
      assert s.workers == s.workers[id := Answered(s, id)] && docs[done..] == [] && Entries([]) == {};
    } else {
      hide Runs, Reply, Entries;
      var one, mid := OneIsPersisted(s, id, done);
      var more;
      more, t := MainPersists(mid, id, done + 1);
      RunsCompose(s, one, mid, more, t);
      actions := one + more;
      EntriesSplit(docs, done);
      assert t.workers == s.workers[id := Answered(s, id)];
    }
  }

  lemma OneIsPersisted(s: State, id: nat, done: nat) returns (actions: seq<Action>, t: State)
    requires MainAnswered(s, id, done) && done < |s.workers[id].answer.docs|
    ensures Runs(s, actions, t)
    ensures t.persisted == s.persisted + {s.workers[id].answer.docs[done]} && MainAnswered(t, id, done + 1)
    ensures t.row == s.row && t.server == s.server && t.issued == s.issued && Answered(t, id) == Answered(s, id)
    ensures t.workers == s.workers[id := t.workers[id]]
  {
    assert Runs(s, [], s);
    hide Reply, Runs;
    actions, t := Then(s, [], s, Persist(id));
  }

  lemma EntriesSplit(docs: seq<nat>, done: nat)
    requires done < |docs|
    ensures Entries(docs[done..]) == {docs[done]} + Entries(docs[done + 1..])
  {
    var rest := docs[done..];
    assert rest[0] == docs[done] && rest[1..] == docs[done + 1..];
    forall x | x in Entries(rest) ensures x in {docs[done]} + Entries(docs[done + 1..]) {
      var i :| 0 <= i < |rest| && rest[i] == x;
      assert i > 0 ==> docs[done + 1..][i - 1] == x;
    }
    forall x | x in Entries(docs[done + 1..]) ensures x in Entries(rest) {
      var i :| 0 <= i < |docs[done + 1..]| && docs[done + 1..][i] == x;
      assert rest[i + 1] == x;
    }
  }

  /** After one turn everything the service answered is persisted and counted; after a full lot the execution is at the
      top again, after a shorter one nothing is waiting and it is gone. */
  ghost predicate TurnDone(s: State, t: State, id: nat) {
    var docs := Lot(s.server, s.row.ultimoNsu);
    && t.server == s.server && t.persisted == s.persisted + Entries(docs) && !t.row.Recovering()
    && t.row.ultimoNsu == Last(docs, s.row.ultimoNsu) && t.row.total == s.row.total + |docs|
    && (forall i | i != id :: (i in t.workers <==> i in s.workers) && (i in s.workers ==> t.workers[i] == s.workers[i]))
    && (if |docs| == BATCH_SIZE then MainAtTop(t, id) else id !in t.workers && t.row.status == Ativo)
  }

  lemma MainCommits(s: State, id: nat, now: int)
    requires MainAnswered(s, id, |Lot(s.server, s.row.ultimoNsu)|) && Fresh(s, now) && !s.row.Recovering()
    ensures Enabled(s, Commit(id, now))
    ensures var t, docs := Next(s, Commit(id, now)), Lot(s.server, s.row.ultimoNsu);
            && t.persisted == s.persisted && t.server == s.server
            && t.row.ultimoNsu == Last(docs, s.row.ultimoNsu) && t.row.total == s.row.total + |docs|
            && !t.row.Recovering() && t.issued == s.issued + {NewLease(now)}
            && (forall i | i != id ::
                  (i in t.workers <==> i in s.workers) && (i in s.workers ==> t.workers[i] == s.workers[i]))
            && (if |docs| == BATCH_SIZE then MainAtTop(t, id) else id !in t.workers && t.row.status == Ativo)
  {
    var cursor := s.row.ultimoNsu;
    var docs := Lot(s.server, cursor);
    ReplyIsLot(s.server, cursor);
    CommittedLot(s.server, cursor);
    hide Lot, Above, MaxNsu, Reply;
  }

  lemma CommittedLot(server: set<nat>, cursor: nat)
    ensures var docs := Lot(server, cursor);
            && |docs| <= BATCH_SIZE && MaxNsu(docs, cursor) == Last(docs, cursor)
            && (docs != [] ==> Last(docs, cursor) > cursor)
            && (|docs| == BATCH_SIZE ==> Reply(server, cursor).cStat == DocumentosLocalizados)
            && (Reply(server, cursor).cStat == NenhumDocumento || Reply(server, cursor).cStat == DocumentosLocalizados)
  {
    var docs := Lot(server, cursor);
    LotIsConsecutive(server, cursor, BATCH_SIZE);
    if docs != [] {
      assert cursor < docs[0];
    }
    MaxNsuIsLast(docs, cursor);
    LastIsAhead(server, cursor, docs);
  }

  lemma MainTurn(s: State, id: nat, now: int) returns (actions: seq<Action>, t: State)
    requires MainAtTop(s, id) && AllFresh(s, now) && !s.row.Recovering()
    ensures Runs(s, actions, t) && TurnDone(s, t, id) && AllFresh(t, now + 2)
  {
    hide Runs, Reply, Lot, Entries, Next, Enabled;
    var first, downloaded := MainDownloads(s, id, now);
    var second, stored := MainPersists(downloaded, id, 0);
    ReplyIsLot(s.server, s.row.ultimoNsu);
    assert Fresh(downloaded, now + 1);
    MainCommits(stored, id, now + 1);
    var third, committed := Then(downloaded, second, stored, Commit(id, now + 1));
    RunsCompose(s, first, downloaded, third, committed);
    actions, t := first + third, committed;
    assert downloaded.workers[id].answer.docs[0..] == downloaded.workers[id].answer.docs;
    forall x | x >= now + 2 ensures Fresh(t, x) {
      assert Fresh(downloaded, x);
    }
  }

  lemma ReplyIsLot(server: set<nat>, cursor: nat)
    ensures Reply(server, cursor).docs == Lot(server, cursor)
  {
  }

  // The main mode, to its end

  /** Everything published is stored and counted, and execution `id` is gone. */
  ghost predicate CaughtUp(s: State, t: State, id: nat) {
    && t.server == s.server && Above(t.server, t.row.ultimoNsu) == {} && s.row.ultimoNsu <= t.row.ultimoNsu
    && t.persisted == s.persisted + Above(s.server, s.row.ultimoNsu)
    && t.row.total == s.row.total + |Above(s.server, s.row.ultimoNsu)|
    && t.row.status == Ativo && id !in t.workers
  }

  /** An execution at the top of the main loop can bring everything in. */
  lemma {:induction false} MainCanFinish(s: State, id: nat, now: int) returns (actions: seq<Action>, t: State)
    requires MainAtTop(s, id) && AllFresh(s, now) && !s.row.Recovering()
    ensures Runs(s, actions, t) && CaughtUp(s, t, id)
    decreases |Above(s.server, s.row.ultimoNsu)|
  {
    hide Runs, AllFresh, Lot, Entries, Above;
    var turn, mid := MainTurn(s, id, now);
    var docs := Lot(s.server, s.row.ultimoNsu);
    LotTakes(s.server, s.row.ultimoNsu);
    if |docs| == BATCH_SIZE {
      var rest, end := MainCanFinish(mid, id, now + 2);
      RunsCompose(s, turn, mid, rest, end);
      actions, t := turn + rest, end;
    } else {
      actions, t := turn, mid;
    }
  }

  /** What a lot takes from what is waiting, and what it leaves. */
  lemma LotTakes(server: set<nat>, cursor: nat)
    ensures var docs := Lot(server, cursor);
            var next := Last(docs, cursor);
            && |docs| <= BATCH_SIZE && cursor <= next
            && Above(server, cursor) == Entries(docs) + Above(server, next)
            && |Above(server, cursor)| == |docs| + |Above(server, next)|
            && (|docs| < BATCH_SIZE ==> Above(server, next) == {})
  {
    LotIsConsecutive(server, cursor, BATCH_SIZE);
    var docs := Lot(server, cursor);
    LastIsAhead(server, cursor, docs);
    ConsecutiveCount(server, cursor, docs);
    AboveSplits(server, cursor, Last(docs, cursor));
  }

  lemma {:induction false} NewId(workers: map<nat, Worker>, from: nat) returns (id: nat)
    ensures id !in workers && id >= from
    decreases |workers.Keys|
  {
    if i: nat :| i in workers {
      var other := NewId(workers - {i}, if from <= i then i + 1 else from);
      id := other;
    } else {
      id := from;
    }
  }

  /** Nothing holds either lease, and the control can be started at once. */
  predicate AtRest(r: Row) {
    r.status == Pausado && r.proxima == None && !r.Recovering()
  }

  /** Two more actions pause the control, whatever it is doing. */
  lemma CanBePaused(s: State, id: nat, now: int) returns (actions: seq<Action>, t: State)
    requires id !in s.workers && Fresh(s, now)
    ensures Runs(s, actions, t) && AtRest(t.row) && id !in t.workers
    ensures t == s.(row := t.row) && t.row == PauseRecovery(Pause(s.row))
  {
    assert Runs(s, [], s);
    hide Runs;
    actions, t := Then(s, [], s, CallPause(id));
    actions, t := Then(s, actions, t, Claim(id, now));
    assert t.workers == s.workers;
  }

  /** And two more configure it. */
  lemma CanBeConfigured(s: State, id: nat, now: int) returns (actions: seq<Action>, t: State)
    requires id !in s.workers && Fresh(s, now) && AtRest(s.row)
    ensures Runs(s, actions, t) && t.row.status == Ativo && t.row.proxima == None && id !in t.workers
    ensures t == s.(row := s.row.(status := Ativo, erro9999 := false))
  {
    assert Runs(s, [], s);
    hide Runs;
    actions, t := Then(s, [], s, CallConfigure(id));
    actions, t := Then(s, actions, t, Claim(id, now));
    assert t.workers == s.workers;
  }

  /** And two more start an execution of the main mode. */
  lemma CanBeStarted(s: State, id: nat, now: int) returns (actions: seq<Action>, t: State)
    requires id !in s.workers && Fresh(s, now) && s.row.status != Processando && !s.row.Recovering()
    requires s.row.proxima.None? || s.row.proxima.value <= now || s.row.erro9999
    ensures Runs(s, actions, t) && MainAtTop(t, id) && !t.row.Recovering()
    ensures t.server == s.server && t.persisted == s.persisted && t.issued == s.issued + {NewLease(now)}
    ensures t.row.ultimoNsu == s.row.ultimoNsu && t.row.total == s.row.total
  {
    assert Runs(s, [], s);
    hide Runs;
    actions, t := Then(s, [], s, CallRun(id, now));
    actions, t := Then(s, actions, t, Claim(id, now));
  }

  /** There is no dead end: from every state in order some run stores and counts everything that is published, whatever
      mode was running, whoever holds a lease and however many executions are under way. */
  lemma NoDeadEnd(s: State) returns (actions: seq<Action>, t: State)
    requires Inv(s)
    ensures Runs(s, actions, t) && t.server == s.server
    ensures t.server <= t.persisted && t.row.total == |t.server| && t.row.status == Ativo
  {
    hide Runs, Inv;
    var now := FreshInstant(s.issued, 0);
    var id := NewId(s.workers, 0);
    assert Fresh(s, now);
    var pause, paused := CanBePaused(s, id, now);
    var configure, configured := CanBeConfigured(paused, id, now);
    var start, started := CanBeStarted(configured, id, now);
    assert AllFresh(started, now + 1) by {
      forall x | x >= now + 1 ensures Fresh(started, x) {
        assert NewLease(x) !in s.issued;
      }
    }
    var rest, end := MainCanFinish(started, id, now + 1);
    RunsCompose(s, pause, paused, configure, configured);
    RunsCompose(s, pause + configure, configured, start, started);
    RunsCompose(s, pause + configure + start, started, rest, end);
    actions, t := pause + configure + start + rest, end;
    RunKeepsInv(s, actions, t);
    NothingLeft(t);
  }

  lemma NothingLeft(s: State)
    requires Inv(s) && Above(s.server, s.row.ultimoNsu) == {}
    ensures s.server <= s.persisted && s.row.total == |s.server|
  {
    forall x | x in s.server ensures x in Between(s.server, 0, s.row.ultimoNsu) {
      assert x !in Above(s.server, s.row.ultimoNsu);
    }
    assert Between(s.server, 0, s.row.ultimoNsu) == s.server;
  }

  /** An expired lease of the main mode is taken over, by one sweep, and the work goes on to its end. */
  lemma ExpiredMainIsFinished(s: State, id: nat, now: int) returns (actions: seq<Action>, t: State)
    requires Inv(s) && id !in s.workers && AllFresh(s, now)
    requires s.row.status == Processando && s.row.proxima.Some? && s.row.proxima.value <= now
    ensures Runs(s, actions, t) && CaughtUp(s, t, id)
  {
    assert Runs(s, [], s) && Fresh(s, now) && !s.row.Recovering();
    hide Runs, Inv;
    var sweep, swept := Then(s, [], s, SweepExpired(id, false, now));
    assert AllFresh(swept, now + 1) by {
      forall x | x >= now + 1 ensures Fresh(swept, x) {
        assert Fresh(s, x);
      }
    }
    var rest, end := MainCanFinish(swept, id, now + 1);
    RunsCompose(s, sweep, swept, rest, end);
    actions, t := sweep + rest, end;
  }

  // Failures of the main mode

  /** The lease is given up, cursor, total and store are kept, and the execution is gone. */
  ghost predicate GivenUp(s: State, t: State, id: nat) {
    && t.server == s.server && t.persisted == s.persisted && id !in t.workers
    && t.row.ultimoNsu == s.row.ultimoNsu && t.row.total == s.row.total && t.row.status != Processando
    && (forall i | i != id :: (i in t.workers <==> i in s.workers) && (i in s.workers ==> t.workers[i] == s.workers[i]))
  }

  /** A download that fails ends the execution, and the control waits an hour under the status of an error. */
  lemma FailedDownloadStops(s: State, id: nat, now: int, certificate: bool, says9999: bool, later: int)
    returns (actions: seq<Action>, t: State)
    requires MainAtTop(s, id) && Fresh(s, now)
    ensures Runs(s, actions, t) && GivenUp(s, t, id) && t.row.proxima == Some(later + HOUR_MS)
    ensures t.row.status == (if certificate then ErroCertificado else ErroApi) && t.row.erro9999 == says9999
  {
    hide Runs, Reply;
    actions, t := MainAsks(s, id, now);
    actions, t := Then(s, actions, t, Download(id, Thrown));
    StoppingStops(t, id, certificate, says9999, later);
    hide Next;
    actions, t := Then(s, actions, t, StopAfterError(id, certificate, says9999, later));
  }

  lemma StoppingStops(s: State, id: nat, certificate: bool, says9999: bool, later: int)
    requires id in s.workers && s.workers[id].MainStopping? && s.row.MainHeld(s.workers[id].token)
    ensures Enabled(s, StopAfterError(id, certificate, says9999, later))
    ensures var t := Next(s, StopAfterError(id, certificate, says9999, later));
            && GivenUp(s, t, id) && t.row.proxima == Some(later + HOUR_MS) && t.row.erro9999 == says9999
            && t.row.status == if certificate then ErroCertificado else ErroApi
  {
  }

  /** A refused one does too, under the status that the refusal calls for. */
  lemma RefusedDownloadStops(s: State, id: nat, now: int, code: CStat, later: int)
    returns (actions: seq<Action>, t: State)
    requires MainAtTop(s, id) && AllFresh(s, now) && later > now
    requires !code.NenhumDocumento? && !code.DocumentosLocalizados?
    ensures Runs(s, actions, t) && GivenUp(s, t, id) && t.row.proxima == Some(later + HOUR_MS)
    ensures t.row.status == (if code == SemVinculo then ErroAutorizacao
                             else if code == CertificadoRecusado then ErroCertificado else ErroApi)
    ensures t.row.erro9999 <==> code == OutroCodigo(true)
  {
    assert Fresh(s, now) && Fresh(s, later);
    hide Runs, Reply;
    actions, t := MainAsks(s, id, now);
    actions, t := Then(s, actions, t, Download(id, Refused(code)));
    RefusalIsCommitted(t, id, code, later);
    hide Next;
    actions, t := Then(s, actions, t, Commit(id, later));
  }

  lemma RefusalIsCommitted(s: State, id: nat, code: CStat, later: int)
    requires id in s.workers && s.workers[id].MainStoring? && s.row.MainHeld(s.workers[id].token) && Fresh(s, later)
    requires s.workers[id] == MainStoring(s.workers[id].token, s.row.ultimoNsu, Answer(code, []), 0)
    requires !code.NenhumDocumento? && !code.DocumentosLocalizados?
    ensures Enabled(s, Commit(id, later))
    ensures var t := Next(s, Commit(id, later));
            && GivenUp(s, t, id) && t.row.proxima == Some(later + HOUR_MS)
            && (t.row.erro9999 <==> code == OutroCodigo(true))
            && t.row.status == (if code == SemVinculo then ErroAutorizacao
                                else if code == CertificadoRecusado then ErroCertificado else ErroApi)
  {
  }

  /** So does a document that cannot be stored; what was stored before it stays, to be downloaded again. */
  lemma FailedPersistStops(s: State, id: nat, done: nat, certificate: bool, says9999: bool, later: int)
    returns (actions: seq<Action>, t: State)
    requires MainAnswered(s, id, done) && done < |s.workers[id].answer.docs|
    ensures Runs(s, actions, t) && GivenUp(s, t, id) && t.row.proxima == Some(later + HOUR_MS)
    ensures t.row.status == (if certificate then ErroCertificado else ErroApi) && t.row.erro9999 == says9999
  {
    assert Runs(s, [], s);
    hide Runs, Reply;
    actions, t := Then(s, [], s, PersistFails(id));
    StoppingStops(t, id, certificate, says9999, later);
    hide Next;
    actions, t := Then(s, actions, t, StopAfterError(id, certificate, says9999, later));
  }

  /** An execution of the main mode whose lease is no longer the stored one stops at its next look at the row and
      changes nothing there. */
  lemma LoserOfMainStops(s: State, id: nat, now: int)
    requires id in s.workers && s.workers[id].OwnsMain() && !s.row.MainHeld(s.workers[id].token) && Fresh(s, now)
    ensures s.workers[id].MainReady? ==> Next(s, ReadRow(id)) == Drop(s, id)
    ensures s.workers[id].MainRead? ==> Next(s, Renew(id, now)) == Drop(Issue(s, now), id)
    ensures s.workers[id].MainStopping? ==> Next(s, StopAfterError(id, false, false, now)) == Drop(s, id)
    ensures s.workers[id].MainStoring? && CanCommit(s.workers[id]) ==> Next(s, Commit(id, now)).row == s.row
  {
    hide MaxNsu;
  }

  // What the runs admit

  /** A call begins only past the checks of its service method: a run or a recovery on a control that is idle and due,
      the run also at once after a 9999; a configuration on one that is idle. Publishing adds one document, above all
      others. A download refuses with a code that is neither 117 nor 118. */
  lemma CallsAreChecked(s: State, id: nat, inicial: int, final: int, now: int, nsu: nat, code: CStat)
    ensures var idle := s.row.status != Processando && s.row.recStatus != Some(EmRecuperacao);
            var due := s.row.proxima.None? || s.row.proxima.value <= now;
            && (Enabled(s, CallRun(id, now)) <==> id !in s.workers && idle && (s.row.erro9999 || due))
            && (Enabled(s, CallConfigure(id)) <==> id !in s.workers && idle)
            && (Enabled(s, CallRecovery(id, inicial, final, now)) <==>
                  id !in s.workers && idle && due && 0 <= inicial <= final && 1 <= final <= s.row.ultimoNsu)
    ensures Enabled(s, Publish(nsu)) <==> nsu > 0 && forall x | x in s.server :: x < nsu
    ensures Enabled(s, Publish(nsu)) ==> Next(s, Publish(nsu)) == s.(server := s.server + {nsu})
    ensures Enabled(s, Download(id, Refused(code))) ==> code != NenhumDocumento && code != DocumentosLocalizados
  {
  }
}
