/** What the runs of an NFC-e recovery can always achieve: every valid interval can be recovered to its end. */
module NfceScRecoveryProgress {
  import opened Options
  import opened NsuServer
  import opened NfceScControl
  import opened NfceScRuns
  import opened NfceScProgress

  /** Execution `id` is at the top of the recovery loop and holds the lease, with this much done. */
  predicate RecoveryAtTop(s: State, id: nat, cursor: nat, final: nat) {
    && id in s.workers && s.workers[id].RecoveryReady? && s.row.RecoveryHeld(s.workers[id].token)
    && s.row.recAtual == Some(cursor) && s.row.recFinal == Some(final)
  }

  /** It has downloaded a lot that reaches into the interval. */
  predicate RecoveryAnswered(s: State, id: nat, cursor: nat, final: nat, docs: seq<nat>, done: nat) {
    && id in s.workers && s.workers[id].RecoveryStoring?
    && s.workers[id] == RecoveryStoring(s.workers[id].token, cursor, final, docs, done)
    && s.row.RecoveryHeld(s.workers[id].token)
    && s.row.recAtual == Some(cursor) && s.row.recFinal == Some(final)
  }

  /** Nothing moves but the execution, its lease and the due date. */
  ghost predicate OnlyRenews(s: State, t: State, id: nat) {
    && t.server == s.server && t.persisted == s.persisted && KeepsTheRest(s, t, id)
    && t.row.recTotal == s.row.recTotal
  }

  /** The main mode, the bounds and the other executions are as they were. */
  ghost predicate KeepsTheRest(s: State, t: State, id: nat) {
    && t.row.ultimoNsu == s.row.ultimoNsu && t.row.total == s.row.total && t.row.status == s.row.status
    && t.row.recInicial == s.row.recInicial && t.row.recFinal == s.row.recFinal
    && forall i | i != id :: (i in t.workers <==> i in s.workers) && (i in s.workers ==> t.workers[i] == s.workers[i])
  }

  /** The recovery has ended: everything between `cursor` and `final` is stored and counted. */
  ghost predicate Recovered(s: State, t: State, id: nat, cursor: nat, final: nat) {
    && t.server == s.server && KeepsTheRest(s, t, id) && id !in t.workers
    && t.row.recStatus == Some(RecConcluido) && t.row.recLease == None
    && t.persisted == s.persisted + Between(s.server, cursor, final)
    && t.row.recTotal == s.row.recTotal + |Between(s.server, cursor, final)|
  }

  lemma NothingBetween(server: set<nat>, cursor: nat, final: nat)
    requires cursor >= final
    ensures Between(server, cursor, final) == {}
  {
  }

  /** A recovery that has nothing left is finished. */
  lemma EmptyIsFinished(s: State, id: nat, cursor: nat, final: nat, now: int) returns (actions: seq<Action>, t: State)
    requires RecoveryAtTop(s, id, cursor, final) && cursor >= final && Fresh(s, now)
    ensures Runs(s, actions, t) && Recovered(s, t, id, cursor, final)
  {
    assert Runs(s, [], s);
    NothingBetween(s.server, cursor, final);
    hide Runs, Between;
    actions, t := Then(s, [], s, ReadRow(id));
    actions, t := Then(s, actions, t, Commit(id, now));
  }

  lemma RecoveryAsks(s: State, id: nat, cursor: nat, final: nat, now: int) returns (actions: seq<Action>, t: State)
    requires RecoveryAtTop(s, id, cursor, final) && cursor < final && Fresh(s, now)
    ensures Runs(s, actions, t) && OnlyRenews(s, t, id) && t.row.recAtual == Some(cursor)
    ensures id in t.workers && t.workers[id] == RecoveryWaiting(NewLease(now), cursor, final)
    ensures t.row.RecoveryHeld(NewLease(now)) && t.issued == s.issued + {NewLease(now)}
  {
    assert Runs(s, [], s);
    hide Runs;
    actions, t := Then(s, [], s, ReadRow(id));
    actions, t := Then(s, actions, t, Renew(id, now));
  }

  /** A download either shows that the rest of the interval is empty, which finishes the recovery too, or brings a lot
      that reaches into it. */
  lemma RecoveryDownloads(s: State, id: nat, cursor: nat, final: nat, now: int)
    returns (actions: seq<Action>, t: State)
    requires RecoveryAtTop(s, id, cursor, final) && cursor < final && AllFresh(s, now)
    ensures Runs(s, actions, t) && OnlyRenews(s, t, id) && AllFresh(t, now + 1)
    ensures var docs := Reply(s.server, cursor).docs;
            if docs == [] || docs[0] > final
            then id in t.workers && t.workers[id].RecoveryFinishing?
                 && t.workers[id] == RecoveryFinishing(t.workers[id].token, cursor, final)
                 && t.row.RecoveryHeld(t.workers[id].token)
            else RecoveryAnswered(t, id, cursor, final, docs, 0)
  {
    assert Fresh(s, now);
    hide Runs, Reply;
    actions, t := RecoveryAsks(s, id, cursor, final, now);
    actions, t := Then(s, actions, t, Download(id, Replied));
    forall x | x >= now + 1 ensures Fresh(t, x) {
      assert Fresh(s, x);
    }
  }

  lemma {:induction false} RecoveryPersists(s: State, id: nat, cursor: nat, final: nat, docs: seq<nat>, done: nat)
    returns (actions: seq<Action>, t: State)
    requires RecoveryAnswered(s, id, cursor, final, docs, done) && done <= InRange(docs, final)
    ensures Runs(s, actions, t) && t.row == s.row && t.server == s.server && t.issued == s.issued
    ensures t.persisted == s.persisted + Entries(docs[done..InRange(docs, final)])
    ensures RecoveryAnswered(t, id, cursor, final, docs, InRange(docs, final)) && KeepsTheRest(s, t, id)
    decreases InRange(docs, final) - done
  {
    var n := InRange(docs, final);
    if done == n {
      actions, t := [], s;
      assert docs[done..n] == [] && Entries([]) == {};
    } else {
      assert Runs(s, [], s);
      hide Runs, InRange, Entries;
      var one, mid := Then(s, [], s, Persist(id));
      var more;
      more, t := RecoveryPersists(mid, id, cursor, final, docs, done + 1);
      RunsCompose(s, one, mid, more, t);
      actions := one + more;
      EntriesSplit(docs[..n], done);
      assert docs[..n][done..] == docs[done..n] && docs[..n][done + 1..] == docs[done + 1..n];
    }
  }

  /** What a lot that reaches into the interval contributes. */
  lemma LotOfInterval(server: set<nat>, cursor: nat, final: nat)
    requires cursor < final && Reply(server, cursor).docs != [] && Reply(server, cursor).docs[0] <= final
    ensures var docs := Reply(server, cursor).docs;
            var n := InRange(docs, final);
            var next := MaxNsu(docs[..n], cursor);
            var stored := if OutOfRange(docs, final) then final else next;
            && 0 < n <= |docs| && cursor < next && cursor < stored <= final
            && Entries(docs[..n]) == Between(server, cursor, stored) && n == |Between(server, cursor, stored)|
            && (RecoveryCompleted(docs, final, next) ==> Between(server, stored, final) == {})
            && Between(server, cursor, final) == Between(server, cursor, stored) + Between(server, stored, final)
            && |Between(server, cursor, final)| == n + |Between(server, stored, final)|
  {
    hide InRange, MaxNsu, OutOfRange, RecoveryCompleted, Between, Entries, Consecutive;
    var docs := Reply(server, cursor).docs;
    RecoveryLot(server, cursor, final);
    RecoveredLot(server, cursor, final, docs);
    var n := InRange(docs, final);
    var stored := if OutOfRange(docs, final) then final else MaxNsu(docs[..n], cursor);
    BetweenAdds(server, cursor, stored, final);
    InRangeIsBounded(docs, final);
  }

  lemma InRangeIsBounded(docs: seq<nat>, final: nat)
    ensures InRange(docs, final) <= |docs|
  {
  }

  /** The lot is committed: either the recovery ends, or it is at the top again, further on. */
  lemma RecoveryCommits(s: State, id: nat, cursor: nat, final: nat, docs: seq<nat>, now: int)
    requires RecoveryAnswered(s, id, cursor, final, docs, InRange(docs, final)) && Fresh(s, now)
    requires MaxNsu(docs[..InRange(docs, final)], cursor) > cursor
    ensures Enabled(s, Commit(id, now))
    ensures var t := Next(s, Commit(id, now));
            var n := InRange(docs, final);
            var next := MaxNsu(docs[..n], cursor);
            var stored := if OutOfRange(docs, final) then final else next;
            && t.server == s.server && t.persisted == s.persisted && KeepsTheRest(s, t, id)
            && t.row.recTotal == s.row.recTotal + n && t.issued == s.issued + {NewLease(now)}
            && (if RecoveryCompleted(docs, final, next)
                then t.row.recStatus == Some(RecConcluido) && t.row.recLease == None && id !in t.workers
                else RecoveryAtTop(t, id, stored, final))
  {
    hide InRange, MaxNsu, OutOfRange, RecoveryCompleted;
  }

  /** An execution at the top of the recovery loop can bring in the rest of its interval. */
  lemma {:induction false} RecoveryCanFinish(s: State, id: nat, cursor: nat, final: nat, now: int)
    returns (actions: seq<Action>, t: State)
    requires RecoveryAtTop(s, id, cursor, final) && AllFresh(s, now)
    ensures Runs(s, actions, t) && Recovered(s, t, id, cursor, final)
    decreases if cursor < final then final - cursor else 0
  {
    hide Runs, Reply, Next, Enabled, InRange, MaxNsu, OutOfRange, RecoveryCompleted, Between, Entries;
    if cursor >= final {
      assert Fresh(s, now);
      actions, t := EmptyIsFinished(s, id, cursor, final, now);
    } else {
      var docs := Reply(s.server, cursor).docs;
      var first, downloaded := RecoveryDownloads(s, id, cursor, final, now);
      if docs == [] || docs[0] > final {
        var last, end := RestIsEmpty(downloaded, id, cursor, final, now + 1);
        RunsCompose(s, first, downloaded, last, end);
        actions, t := first + last, end;
      } else {
        var rest;
        rest, t := RecoveryGoesOn(downloaded, id, cursor, final, now + 1);
        RunsCompose(s, first, downloaded, rest, t);
        actions := first + rest;
      }
    }
  }

  lemma RestIsEmpty(s: State, id: nat, cursor: nat, final: nat, now: int) returns (actions: seq<Action>, t: State)
    requires id in s.workers && s.workers[id].RecoveryFinishing?
    requires s.workers[id] == RecoveryFinishing(s.workers[id].token, cursor, final)
    requires s.row.RecoveryHeld(s.workers[id].token) && AllFresh(s, now)
    requires Reply(s.server, cursor).docs == [] || Reply(s.server, cursor).docs[0] > final
    ensures Runs(s, actions, t) && Recovered(s, t, id, cursor, final)
  {
    assert Runs(s, [], s) && Fresh(s, now);
    RecoveryLot(s.server, cursor, final);
    hide Runs, Between, Reply;
    actions, t := Then(s, [], s, Commit(id, now));
  }

  lemma LaterIsFresh(s: State, t: State, now: int)
    requires AllFresh(s, now) && t.issued == s.issued + {NewLease(now)}
    ensures AllFresh(t, now + 1)
  {
    forall x | x >= now + 1 ensures Fresh(t, x) {
      assert Fresh(s, x);
    }
  }

  /** What a lot that reaches into the interval leads to: the end of the recovery, or the top of the loop, further
      on. */
  ghost predicate LotDone(s: State, t: State, id: nat, cursor: nat, final: nat, stored: nat) {
    && t.server == s.server && KeepsTheRest(s, t, id) && cursor < stored <= final
    && t.persisted == s.persisted + Between(s.server, cursor, stored)
    && t.row.recTotal == s.row.recTotal + |Between(s.server, cursor, stored)|
    && Between(s.server, cursor, final) == Between(s.server, cursor, stored) + Between(s.server, stored, final)
    && |Between(s.server, cursor, final)| == |Between(s.server, cursor, stored)| + |Between(s.server, stored, final)|
    && (RecoveryAtTop(t, id, stored, final)
        || (Between(s.server, stored, final) == {} && t.row.recStatus == Some(RecConcluido) && t.row.recLease == None
            && id !in t.workers))
  }

  lemma LotIsBroughtIn(s: State, id: nat, cursor: nat, final: nat, now: int)
    returns (actions: seq<Action>, t: State, further: nat)
    requires cursor < final && AllFresh(s, now)
    requires Reply(s.server, cursor).docs != [] && Reply(s.server, cursor).docs[0] <= final
    requires RecoveryAnswered(s, id, cursor, final, Reply(s.server, cursor).docs, 0)
    ensures Runs(s, actions, t) && LotDone(s, t, id, cursor, final, further) && AllFresh(t, now + 1)
  {
    hide Runs, Reply, Next, Enabled, InRange, MaxNsu, OutOfRange, RecoveryCompleted, Between, Entries;
    var docs := Reply(s.server, cursor).docs;
    var n := InRange(docs, final);
    LotOfInterval(s.server, cursor, final);
    var second, stored := RecoveryPersists(s, id, cursor, final, docs, 0);
    assert docs[0..n] == docs[..n] && Fresh(s, now);
    RecoveryCommits(stored, id, cursor, final, docs, now);
    actions, t := Then(s, second, stored, Commit(id, now));
    further := if OutOfRange(docs, final) then final else MaxNsu(docs[..n], cursor);
    LaterIsFresh(s, t, now);
  }

  lemma {:induction false} RecoveryGoesOn(s: State, id: nat, cursor: nat, final: nat, now: int)
    returns (actions: seq<Action>, t: State)
    requires cursor < final && AllFresh(s, now)
    requires Reply(s.server, cursor).docs != [] && Reply(s.server, cursor).docs[0] <= final
    requires RecoveryAnswered(s, id, cursor, final, Reply(s.server, cursor).docs, 0)
    ensures Runs(s, actions, t) && Recovered(s, t, id, cursor, final)
    decreases final - cursor, 0
  {
    hide Runs, Reply, AllFresh, Between, RecoveryAnswered;
    var first, committed, further := LotIsBroughtIn(s, id, cursor, final, now);
    if RecoveryAtTop(committed, id, further, final) {
      var rest;
      rest, t := RecoveryCanFinish(committed, id, further, final, now + 1);
      RunsCompose(s, first, committed, rest, t);
      actions := first + rest;
    } else {
      actions, t := first, committed;
    }
  }

  // Beginning a recovery, and taking one over

  /** Two actions start the recovery of a valid interval on a control that is free. */
  lemma RecoveryCanBeStarted(s: State, id: nat, inicial: nat, final: nat, now: int)
    returns (actions: seq<Action>, t: State, cursor: nat)
    requires id !in s.workers && Fresh(s, now) && s.row.status != Processando && !s.row.Recovering()
    requires inicial <= final && 1 <= final <= s.row.ultimoNsu && (s.row.proxima.None? || s.row.proxima.value <= now)
    ensures Runs(s, actions, t) && RecoveryAtTop(t, id, cursor, final) && t.row.recInicial == Some(inicial)
    ensures t.server == s.server && t.persisted == s.persisted && t.issued == s.issued + {NewLease(now)}
    ensures t.row.ultimoNsu == s.row.ultimoNsu && t.row.total == s.row.total
  {
    assert Runs(s, [], s);
    hide Runs;
    actions, t := Then(s, [], s, CallRecovery(id, inicial, final, now));
    cursor := t.workers[id].cursor;
    actions, t := Then(s, actions, t, Claim(id, now));
  }

  /** Every valid interval can be recovered: from every state in order, whatever is under way, some run concludes the
      recovery of [inicial, final], with every document of the interval stored and counted, and the main mode as it
      was. */
  lemma NoIntervalIsLost(s: State, inicial: nat, final: nat) returns (actions: seq<Action>, t: State)
    requires Inv(s) && inicial <= final && 1 <= final <= s.row.ultimoNsu
    ensures Runs(s, actions, t) && t.server == s.server
    ensures t.row.recInicial == Some(inicial) && t.row.recFinal == Some(final)
    ensures t.row.recStatus == Some(RecConcluido) && t.row.ultimoNsu == s.row.ultimoNsu && t.row.total == s.row.total
    ensures Between(t.server, Start(inicial), final) <= t.persisted
    ensures t.row.recTotal == |Between(t.server, Start(inicial), final)|
  {
    hide Runs, Inv;
    var now := FreshInstant(s.issued, 0);
    var id := NewId(s.workers, 0);
    assert Fresh(s, now);
    var pause, paused := CanBePaused(s, id, now);
    var start, started, cursor := RecoveryCanBeStarted(paused, id, inicial, final, now);
    assert AllFresh(started, now + 1) by {
      forall x | x >= now + 1 ensures Fresh(started, x) {
        assert NewLease(x) !in s.issued;
      }
    }
    var rest, end := RecoveryCanFinish(started, id, cursor, final, now + 1);
    RunsCompose(s, pause, paused, start, started);
    RunsCompose(s, pause + start, started, rest, end);
    actions, t := pause + start + rest, end;
    RunKeepsInv(s, actions, t);
    ConcludedIsWhole(t);
  }

  lemma ConcludedIsWhole(s: State)
    requires Inv(s) && s.row.recStatus == Some(RecConcluido) && s.row.recInicial.Some? && s.row.recFinal.Some?
    ensures var start, final := Start(s.row.recInicial.value), s.row.recFinal.value;
            Between(s.server, start, final) <= s.persisted && s.row.recTotal == |Between(s.server, start, final)|
  {
    BetweenAdds(s.server, Start(s.row.recInicial.value), s.row.recAtual.value, s.row.recFinal.value);
  }

  /** An expired lease of a recovery is taken over, by one sweep, and the work goes on where it stood. */
  lemma ExpiredRecoveryIsFinished(s: State, id: nat, now: int) returns (actions: seq<Action>, t: State)
    requires Inv(s) && id !in s.workers && AllFresh(s, now) && s.row.Recovering()
    requires s.row.recLease.Some? && s.row.recLease.value <= now && s.row.recAtual.Some? && s.row.recFinal.Some?
    ensures Runs(s, actions, t) && Recovered(s, t, id, s.row.recAtual.value, s.row.recFinal.value)
  {
    assert Runs(s, [], s) && Fresh(s, now) && s.row.status != Processando;
    hide Runs, Inv, Between;
    var sweep, swept := Then(s, [], s, SweepExpired(id, true, now));
    assert AllFresh(swept, now + 1) by {
      forall x | x >= now + 1 ensures Fresh(swept, x) {
        assert Fresh(s, x);
      }
    }
    var rest, end := RecoveryCanFinish(swept, id, s.row.recAtual.value, s.row.recFinal.value, now + 1);
    RunsCompose(s, sweep, swept, rest, end);
    actions, t := sweep + rest, end;
  }

  // Failures of a recovery

  /** The recovery stands in error where it was, without a lease, to be resumed an hour later. */
  ghost predicate StoppedMidway(s: State, t: State, id: nat, later: int) {
    && t.server == s.server && t.persisted == s.persisted && KeepsTheRest(s, t, id) && id !in t.workers
    && t.row.recAtual == s.row.recAtual && t.row.recTotal == s.row.recTotal
    && t.row.recStatus == Some(RecErro) && t.row.recLease == None && t.row.proxima == Some(later + HOUR_MS)
  }

  /** A download that fails or is refused stops it. */
  lemma FailedRecoveryStops(s: State, id: nat, cursor: nat, final: nat, now: int, delivery: Delivery, later: int)
    returns (actions: seq<Action>, t: State)
    requires RecoveryAtTop(s, id, cursor, final) && cursor < final && Fresh(s, now)
    requires delivery.Thrown?
             || (delivery.Refused? && !delivery.code.NenhumDocumento? && !delivery.code.DocumentosLocalizados?)
    ensures Runs(s, actions, t) && StoppedMidway(s, t, id, later)
  {
    hide Runs, Reply;
    actions, t := RecoveryAsks(s, id, cursor, final, now);
    actions, t := Then(s, actions, t, Download(id, delivery));
    actions, t := Then(s, actions, t, StopAfterError(id, false, false, later));
  }

  /** So does a document that cannot be stored: the execution then reads the row again to find the lease to stop. */
  lemma CrashedRecoveryStops(s: State, id: nat, cursor: nat, final: nat, docs: seq<nat>, done: nat, later: int)
    returns (actions: seq<Action>, t: State)
    requires RecoveryAnswered(s, id, cursor, final, docs, done) && done < InRange(docs, final)
    ensures Runs(s, actions, t) && StoppedMidway(s, t, id, later)
  {
    assert Runs(s, [], s);
    hide Runs, InRange;
    actions, t := Then(s, [], s, PersistFails(id));
    actions, t := CrashLooksForLease(s, actions, t, id);
    BorrowedStopStops(t, id, later);
    hide Next;
    actions, t := Then(s, actions, t, StopAfterError(id, false, false, later));
  }

  lemma CrashLooksForLease(s: State, actions: seq<Action>, t: State, id: nat)
    returns (more: seq<Action>, u: State)
    requires Runs(s, actions, t) && id in t.workers && t.workers[id].RecoveryCrashed?
    requires t.row.Recovering() && t.row.recLease.Some?
    ensures Runs(s, more, u) && u == Put(t, id, BorrowedStop(t.row.recLease.value))
  {
    hide Runs;
    more, u := Then(s, actions, t, ReadRow(id));
  }

  lemma BorrowedStopStops(s: State, id: nat, later: int)
    requires id in s.workers && s.workers[id].BorrowedStop? && s.row.RecoveryHeld(s.workers[id].borrowed)
    ensures Enabled(s, StopAfterError(id, false, false, later))
    ensures StoppedMidway(s, Next(s, StopAfterError(id, false, false, later)), id, later)
  {
  }

  /** A row without bounds would end a recovery in error as well, and an execution whose lease is no longer the stored
      one stops at its next look at the row and changes nothing there. */
  lemma LoserOfRecoveryStops(s: State, id: nat, now: int)
    requires id in s.workers && s.workers[id].OwnsRecovery() && Fresh(s, now)
    ensures s.workers[id].RecoveryReady? && s.row.RecoveryHeld(s.workers[id].token)
            && (s.row.recFinal.None? || s.row.recAtual.None?) ==>
              Next(s, ReadRow(id)) == Put(s, id, RecoveryStopping(s.workers[id].token))
    ensures !s.row.RecoveryHeld(s.workers[id].token) && s.row.status != Processando ==>
              && (s.workers[id].RecoveryReady? ==> Next(s, ReadRow(id)) == Drop(s, id))
              && (s.workers[id].RecoveryRead? ==> Next(s, Renew(id, now)) == Drop(Issue(s, now), id))
              && (s.workers[id].RecoveryStopping? ==>
                    Next(s, StopAfterError(id, false, false, now)) == Drop(s, id))
              && (CanCommit(s.workers[id]) ==> Next(s, Commit(id, now)).row == s.row)
  {
    hide MaxNsu, InRange, OutOfRange, RecoveryCompleted;
  }
}
