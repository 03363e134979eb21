/** What the runs of the NF-e collector can always achieve: there are no dead ends. From every state in order some run
    records everything that is published, and what each failure leaves behind. */
module NfeScProgress {
  import opened Options
  import opened NsuServer
  import opened NfeScControl
  import opened NfeScRuns

  /** The execution is at the top of its loop and holds the lease. */
  predicate AtTop(s: State) {
    s.worker.Some? && s.worker.value.Ready? && s.row.Held(s.worker.value.token)
  }

  /** It waits for the answer to a download above the cursor. */
  predicate Asking(s: State) {
    && s.worker.Some? && s.worker.value.Waiting? && s.row.Held(s.worker.value.token)
    && s.worker.value.cursor == s.row.ultimoNsu
  }

  /** It has a lot of which `done` documents are recorded, and none is half done. */
  predicate InLot(s: State, origin: nat, docs: seq<nat>, done: nat) {
    && s.worker.Some? && s.worker.value.Storing? && s.row.Held(s.worker.value.token)
    && s.worker.value == Storing(s.worker.value.token, origin, docs, done, false)
  }

  predicate SameStores(s: State, t: State) {
    && t.server == s.server && t.persisted == s.persisted && t.ledger == s.ledger && t.calls == s.calls
    && t.row.ultimoNsu == s.row.ultimoNsu && t.row.total == s.row.total
  }

  lemma Asks(s: State, now: int) returns (actions: seq<Action>, t: State)
    requires AtTop(s)
    ensures Runs(s, actions, t) && SameStores(s, t) && Asking(t) && t.row == s.row.(proxima := Some(NewLease(now)))
  {
    assert Runs(s, [], s);
    hide Runs;
    actions, t := Then(s, [], s, ReadRow);
    actions, t := Then(s, actions, t, Renewal(now));
  }

  /** Filing and recording the next document of the lot. */
  lemma OneIsRecorded(s: State, origin: nat, docs: seq<nat>, done: nat) returns (actions: seq<Action>, t: State)
    requires InLot(s, origin, docs, done) && done < |docs| && Ascending(docs) && (docs != [] ==> origin < docs[0])
    ensures Runs(s, actions, t) && InLot(t, origin, docs, done + 1)
    ensures t.server == s.server && t.calls == s.calls && t.persisted == s.persisted + {docs[done]}
    ensures t.ledger == s.ledger + {docs[done]}
    ensures t.row == s.row.(ultimoNsu := docs[done], total := s.row.total + 1)
  {
    assert Runs(s, [], s);
    hide Runs;
    actions, t := Then(s, [], s, FileDocument);
    actions, t := Then(s, actions, t, RecordDocument);
  }

  lemma EntriesSplit(docs: seq<nat>, done: nat)
    requires done < |docs|
    ensures Entries(docs[done..]) == {docs[done]} + Entries(docs[done + 1..])
  {
    var rest := docs[done..];
    assert rest[0] == docs[done] && rest[1..] == docs[done + 1..];
    forall x | x in Entries(rest) ensures x in {docs[done]} + Entries(docs[done + 1..]) {
      var i :| 0 <= i < |rest| && rest[i] == x;
      assert i > 0 ==> docs[done + 1..][i - 1] == x;
    }
    forall x | x in Entries(docs[done + 1..]) ensures x in Entries(rest) {
      var i :| 0 <= i < |docs[done + 1..]| && docs[done + 1..][i] == x;
      assert rest[i + 1] == x;
    }
  }

  lemma {:induction false} LotIsRecorded(s: State, origin: nat, docs: seq<nat>, done: nat)
    returns (actions: seq<Action>, t: State)
    requires InLot(s, origin, docs, done) && done <= |docs| && Ascending(docs) && (docs != [] ==> origin < docs[0])
    requires s.row.ultimoNsu == Last(docs[..done], origin)
    ensures Runs(s, actions, t) && InLot(t, origin, docs, |docs|) && t.server == s.server && t.calls == s.calls
    ensures t.persisted == s.persisted + Entries(docs[done..]) && t.ledger == s.ledger + Entries(docs[done..])
    ensures t.row == s.row.(ultimoNsu := Last(docs, origin), total := s.row.total + |docs| - done)
    decreases |docs| - done
  {
    if done == |docs| {
      actions, t := [], s;
      assert docs[done..] == [] && docs[..done] == docs;
    } else {
      hide Runs, Entries, Ascending;
      var one, mid := OneIsRecorded(s, origin, docs, done);
      var more;
      more, t := LotIsRecorded(mid, origin, docs, done + 1);
      RunsCompose(s, one, mid, more, t);
      actions := one + more;
      EntriesSplit(docs, done);
    }
  }

  /** After one turn everything the service answered is recorded and counted; after a full lot the execution is at the
      top again, after a shorter one it is gone and the control rests for twelve hours. */
  ghost predicate TurnDone(s: State, t: State, now: int) {
    var docs := Lot(s.server, s.row.ultimoNsu);
    && t.server == s.server && t.calls == s.calls
    && t.persisted == s.persisted + Entries(docs) && t.ledger == s.ledger + Entries(docs)
    && t.row.ultimoNsu == Last(docs, s.row.ultimoNsu) && t.row.total == s.row.total + |docs|
    && (if |docs| == BATCH_SIZE then AtTop(t)
        else t.worker == None && t.row.status == Ativo && t.row.proxima == Some(now + 12 * HOUR_MS))
  }

  /** Nothing is waiting: 117. */
  lemma EmptyTurn(s: State, now: int) returns (actions: seq<Action>, t: State)
    requires Asking(s) && Above(s.server, s.row.ultimoNsu) == {}
    ensures Runs(s, actions, t) && SameStores(s, t) && t.worker == None
    ensures t.row.status == Ativo && t.row.proxima == Some(now + 12 * HOUR_MS)
  {
    assert Runs(s, [], s);
    hide Runs, Above, Lot;
    actions, t := Then(s, [], s, Download(Replied));
    actions, t := Then(s, actions, t, EndLot(now));
  }

  lemma LotIsUsable(server: set<nat>, cursor: nat)
    requires Above(server, cursor) != {}
    ensures 0 < |Lot(server, cursor)| <= BATCH_SIZE
  {
    LotIsConsecutive(server, cursor, BATCH_SIZE);
  }

  lemma LotArrives(s: State) returns (actions: seq<Action>, t: State)
    requires Asking(s) && Above(s.server, s.row.ultimoNsu) != {}
    ensures Runs(s, actions, t) && SameStores(s, t) && t.row == s.row
    ensures InLot(t, s.row.ultimoNsu, Lot(s.server, s.row.ultimoNsu), 0)
  {
    assert Runs(s, [], s);
    LotIsUsable(s.server, s.row.ultimoNsu);
    hide Runs, Above, Lot;
    actions, t := Then(s, [], s, Download(Replied));
  }

  /** The lot ends: on to the next one after a full lot, to rest after a shorter one. */
  lemma LotEnds(s: State, origin: nat, docs: seq<nat>, now: int) returns (actions: seq<Action>, t: State)
    requires InLot(s, origin, docs, |docs|) && Last(docs, origin) > origin
    ensures Runs(s, actions, t) && SameStores(s, t)
    ensures if |docs| == BATCH_SIZE then AtTop(t)
            else t.worker == None && t.row.status == Ativo && t.row.proxima == Some(now + 12 * HOUR_MS)
  {
    assert Runs(s, [], s);
    hide Runs;
    actions, t := Then(s, [], s, EndLot(now));
  }

  lemma NoEntries()
    ensures Entries([]) == {}
  {
  }

  lemma Turn(s: State, now: int, later: int) returns (actions: seq<Action>, t: State)
    requires AtTop(s)
    ensures Runs(s, actions, t) && TurnDone(s, t, later)
  {
    hide Runs, Entries;
    var first, asking := Asks(s, now);
    var docs := Lot(s.server, s.row.ultimoNsu);
    if Above(s.server, s.row.ultimoNsu) == {} {
      var second, done := EmptyTurn(asking, later);
      RunsCompose(s, first, asking, second, done);
      actions, t := first + second, done;
      NoEntries();
    } else {
      LotIsConsecutive(s.server, s.row.ultimoNsu, BATCH_SIZE);
      LastIsAhead(s.server, s.row.ultimoNsu, docs);
      hide Lot, Above;
      var second, arrived := LotArrives(asking);
      var third, recorded := LotIsRecorded(arrived, s.row.ultimoNsu, docs, 0);
      var fourth, ended := LotEnds(recorded, s.row.ultimoNsu, docs, later);
      RunsCompose(s, first, asking, second, arrived);
      RunsCompose(s, first + second, arrived, third, recorded);
      RunsCompose(s, first + second + third, recorded, fourth, ended);
      actions, t := first + second + third + fourth, ended;
      assert docs[0..] == docs;
    }
  }

  // The execution, to its end

  /** Everything published is recorded and counted, and the execution is gone. */
  ghost predicate CaughtUp(s: State, t: State) {
    && t.server == s.server && t.calls == s.calls && Above(t.server, t.row.ultimoNsu) == {}
    && t.ledger == s.ledger + Above(s.server, s.row.ultimoNsu)
    && t.persisted == s.persisted + Above(s.server, s.row.ultimoNsu)
    && t.row.total == s.row.total + |Above(s.server, s.row.ultimoNsu)|
    && t.row.status == Ativo && t.worker == None
  }

  lemma LotTakes(server: set<nat>, cursor: nat)
    ensures var docs := Lot(server, cursor);
            var next := Last(docs, cursor);
            && |docs| <= BATCH_SIZE && cursor <= next
            && Above(server, cursor) == Entries(docs) + Above(server, next)
            && |Above(server, cursor)| == |docs| + |Above(server, next)|
            && (|docs| < BATCH_SIZE ==> Above(server, next) == {})
  {
    LotIsConsecutive(server, cursor, BATCH_SIZE);
    var docs := Lot(server, cursor);
    LastIsAhead(server, cursor, docs);
    ConsecutiveCount(server, cursor, docs);
    AboveSplits(server, cursor, Last(docs, cursor));
  }

  /** An execution at the top of its loop can bring everything in. */
  lemma {:induction false} CanFinish(s: State, now: int) returns (actions: seq<Action>, t: State)
    requires AtTop(s)
    ensures Runs(s, actions, t) && CaughtUp(s, t)
    decreases |Above(s.server, s.row.ultimoNsu)|
  {
    hide Runs, Lot, Entries, Above;
    var turn, mid := Turn(s, now, now + 1);
    LotTakes(s.server, s.row.ultimoNsu);
    if |Lot(s.server, s.row.ultimoNsu)| == BATCH_SIZE {
      var rest, end := CanFinish(mid, now + 2);
      RunsCompose(s, turn, mid, rest, end);
      actions, t := turn + rest, end;
    } else {
      actions, t := turn, mid;
    }
  }

  lemma {:induction false} NewId(calls: map<nat, Call>, from: nat) returns (id: nat)
    ensures id !in calls && id >= from
    decreases |calls.Keys|
  {
    if i: nat :| i in calls {
      id := NewId(calls - {i}, if from <= i then i + 1 else from);
    } else {
      id := from;
    }
  }

  /** The control can be paused whatever it is doing, and then what is still under way ends without touching it. */
  lemma CanBeFreed(s: State) returns (actions: seq<Action>, t: State)
    ensures Runs(s, actions, t) && SameStores(s, t) && t.worker == None
    ensures t.row == s.row.(status := Pausado, proxima := None)
  {
    assert Runs(s, [], s);
    hide Runs;
    actions, t := Then(s, [], s, CallPause);
    if t.worker.Some? {
      actions, t := Then(s, actions, t, Crash);
      actions, t := Then(s, actions, t, ReadRow);
    }
  }

  /** A paused control is configured and started by two calls. */
  lemma CanBeStarted(s: State, id: nat, now: int) returns (actions: seq<Action>, t: State)
    requires id !in s.calls && s.worker == None && s.row.status == Pausado && s.row.proxima == None
    ensures Runs(s, actions, t) && SameStores(s, t) && AtTop(t)
  {
    hide Runs;
    var configured;
    actions, configured := CanBeConfigured(s, id);
    var more;
    more, t := CanBeRun(configured, id, now);
    RunsCompose(s, actions, configured, more, t);
    actions := actions + more;
  }

  lemma CanBeConfigured(s: State, id: nat) returns (actions: seq<Action>, t: State)
    requires id !in s.calls && s.row.status != Processando
    ensures Runs(s, actions, t) && t == s.(row := s.row.(status := Ativo))
  {
    assert Runs(s, [], s);
    hide Runs;
    actions, t := Then(s, [], s, CallConfigure(id));
    actions, t := Then(s, actions, t, FinishCall(id, 0));
    assert t.calls == s.calls;
  }

  lemma CanBeRun(s: State, id: nat, now: int) returns (actions: seq<Action>, t: State)
    requires id !in s.calls && s.worker == None && s.row.status == Ativo
    requires s.row.proxima.None? || s.row.proxima.value <= now
    ensures Runs(s, actions, t) && SameStores(s, t) && AtTop(t)
    ensures t.row == s.row.(status := Processando, proxima := Some(now + 300000))
  {
    assert Runs(s, [], s);
    hide Runs;
    actions, t := Then(s, [], s, CallRun(id, now));
    actions, t := Then(s, actions, t, FinishCall(id, now));
    actions, t := Then(s, actions, t, FinishCall(id, now));
    assert t.calls == s.calls;
  }

  /** There is no dead end: from every state in order some run records and counts exactly what is published. */
  lemma NoDeadEnd(s: State) returns (actions: seq<Action>, t: State)
    requires Inv(s)
    ensures Runs(s, actions, t) && t.server == s.server
    ensures t.ledger == t.server && t.server <= t.persisted && t.row.total == |t.server| && t.row.status == Ativo
  {
    hide Runs, Inv;
    var id := NewId(s.calls, 0);
    var free, freed := CanBeFreed(s);
    var start, started := CanBeStarted(freed, id, 0);
    var rest, end := CanFinish(started, 1);
    RunsCompose(s, free, freed, start, started);
    RunsCompose(s, free + start, started, rest, end);
    actions, t := free + start + rest, end;
    RunKeepsInv(s, actions, t);
    NothingLeft(t);
  }

  lemma NothingLeft(s: State)
    requires Inv(s) && Above(s.server, s.row.ultimoNsu) == {}
    ensures s.ledger == s.server && s.server <= s.persisted && s.row.total == |s.server|
  {
    forall x | x in s.server ensures x in Between(s.server, 0, s.row.ultimoNsu) {
      assert x !in Above(s.server, s.row.ultimoNsu);
    }
    assert Between(s.server, 0, s.row.ultimoNsu) == s.server;
  }

  /** An expired lease is taken over by the sweep, when its execution is gone, and the work goes on to its end. */
  lemma ExpiredIsFinished(s: State, id: nat, now: int) returns (actions: seq<Action>, t: State)
    requires id !in s.calls && s.worker == None
    requires s.row.status == Processando && s.row.proxima.Some? && s.row.proxima.value <= now
    ensures Runs(s, actions, t) && CaughtUp(s, t)
  {
    assert Runs(s, [], s);
    hide Runs;
    var sweep, swept := Then(s, [], s, Sweep(id, now));
    sweep, swept := Then(s, sweep, swept, FinishCall(id, now));
    assert swept.calls == s.calls;
    var rest, end := CanFinish(swept, now);
    RunsCompose(s, sweep, swept, rest, end);
    actions, t := sweep + rest, end;
  }

  // Failures

  /** The lease is given up, everything recorded stays, the execution is gone, and the control waits an hour in
      error. */
  predicate StoppedInError(s: State, t: State, later: int) {
    SameStores(s, t) && t.worker == None && t.row.status == ErroApi && t.row.proxima == Some(later + HOUR_MS)
  }

  lemma StoppingStops(s: State, later: int)
    requires s.worker.Some? && s.worker.value.Stopping? && s.row.Held(s.worker.value.token)
    ensures Enabled(s, StopAfterError(later)) && StoppedInError(s, Next(s, StopAfterError(later)), later)
  {
  }

  /** A download that fails. */
  lemma FailedDownloadStops(s: State, later: int) returns (actions: seq<Action>, t: State)
    requires Asking(s)
    ensures Runs(s, actions, t) && StoppedInError(s, t, later)
  {
    assert Runs(s, [], s);
    hide Runs, Above, Lot;
    actions, t := Then(s, [], s, Download(Thrown));
    StoppingStops(t, later);
    actions, t := Then(s, actions, t, StopAfterError(later));
  }

  /** A download that is refused ends the execution under the status and with the wait that the refusal calls for. */
  lemma RefusedDownloadCompletes(s: State, code: CStat, later: int) returns (actions: seq<Action>, t: State)
    requires Asking(s) && code != C117 && code != C118
    ensures Runs(s, actions, t) && SameStores(s, t) && t.worker == None
    ensures t.row == Complete(s.row, s.worker.value.token, code, later)
  {
    assert Runs(s, [], s);
    hide Runs, Above, Lot;
    actions, t := Then(s, [], s, Download(Refused(code)));
    actions, t := Then(s, actions, t, EndLot(later));
  }

  /** A document that cannot be stored; what was recorded before it stays. */
  lemma FailedDocumentStops(s: State, origin: nat, docs: seq<nat>, done: nat, later: int)
    returns (actions: seq<Action>, t: State)
    requires InLot(s, origin, docs, done) && done < |docs|
    ensures Runs(s, actions, t) && StoppedInError(s, t, later)
  {
    assert Runs(s, [], s);
    hide Runs;
    actions, t := Then(s, [], s, FailDocument);
    StoppingStops(t, later);
    actions, t := Then(s, actions, t, StopAfterError(later));
  }

  /** An unexpected failure anywhere: the handler reads the row and stops whatever lease it finds. */
  lemma CrashStops(s: State, later: int) returns (actions: seq<Action>, t: State)
    requires s.worker.Some? && s.row.status == Processando && s.row.proxima.Some?
    ensures Runs(s, actions, t) && StoppedInError(s, t, later)
  {
    assert Runs(s, [], s);
    hide Runs;
    actions, t := Then(s, [], s, Crash);
    actions, t := Then(s, actions, t, ReadRow);
    StoppingStops(t, later);
    actions, t := Then(s, actions, t, StopAfterError(later));
  }

  /** A crash whose handler fails too leaves the row as it is and only takes the execution away; so does a restart,
      which takes the calls as well. */
  lemma AbandonedLeavesRow(s: State)
    requires s.worker.Some?
    ensures Next(Next(s, Crash), Abandon) == s.(worker := None)
    ensures Next(s, Restart) == s.(worker := None, calls := map[])
  {
  }

  /** An execution whose lease is no longer the stored one stops at its next look at the row and changes nothing there,
      except that a document it has filed is still entered in the ledger; a start for a control with an execution does
      nothing, and neither does a call whose control cannot be claimed. */
  lemma LosersStop(s: State, now: int, id: nat)
    requires s.worker.Some?
    ensures s.worker.value.Ready? && !s.row.Held(s.worker.value.token) ==> Next(s, ReadRow) == s.(worker := None)
    ensures s.worker.value.Read? && !s.row.Held(s.worker.value.token) ==> Next(s, Renewal(now)) == s.(worker := None)
    ensures s.worker.value.Stopping? && !s.row.Held(s.worker.value.token) ==>
              Next(s, StopAfterError(now)) == s.(worker := None)
    ensures s.worker.value.Completing? && !s.row.Held(s.worker.value.token) ==>
              Next(s, EndLot(now)) == s.(worker := None)
    ensures s.worker.value.Storing? && s.worker.value.filed && s.worker.value.done < |s.worker.value.docs|
            && !s.row.Held(s.worker.value.token) ==>
              Next(s, RecordDocument)
              == s.(worker := None, ledger := s.ledger + {s.worker.value.docs[s.worker.value.done]})
    ensures s.worker.value.Storing? && s.worker.value.done == |s.worker.value.docs| && !s.row.Held(s.worker.value.token)
            && Last(s.worker.value.docs, s.worker.value.origin) > s.worker.value.origin ==>
              Next(s, EndLot(now)) == s.(worker := None)
    ensures id in s.calls && s.calls[id].Starting? ==> Next(s, FinishCall(id, now)) == s.(calls := s.calls - {id})
    ensures id in s.calls && s.calls[id].RunCall? && !CanClaim(s.row, now) ==>
              Next(s, FinishCall(id, now)) == s.(calls := s.calls - {id})
    ensures id in s.calls ==> Next(s, Vanish(id)) == s.(calls := s.calls - {id})
  {
  }

  // What the runs admit

  /** A call begins only past the checks of its service method, and a sweep only for an expired lease. Publishing adds
      one document, above all others. A download refuses with a code that is neither 117 nor 118. */
  lemma CallsAreChecked(s: State, id: nat, now: int, nsu: nat, code: CStat)
    ensures var due := s.row.proxima.None? || s.row.proxima.value <= now;
            && (Enabled(s, CallRun(id, now)) <==> id !in s.calls && s.row.status != Processando && due)
            && (Enabled(s, CallConfigure(id)) <==> id !in s.calls && s.row.status != Processando)
            && (Enabled(s, Sweep(id, now)) <==>
                  id !in s.calls && s.row.status == Processando && s.row.proxima.Some? && s.row.proxima.value <= now)
    ensures Enabled(s, Publish(nsu)) <==> nsu > 0 && forall x | x in s.server :: x < nsu
    ensures Enabled(s, Publish(nsu)) ==> Next(s, Publish(nsu)) == s.(server := s.server + {nsu})
    ensures Enabled(s, Download(Refused(code))) ==> code != C117 && code != C118
  {
  }
}
