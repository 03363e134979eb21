/** Where a requested recovery begins: a request that names the stored interval goes on where that one stopped, by
    a pause or by an error, and any other starts at its own beginning. */
module NfceScRecovery {
  import opened Options
  import opened NsuServer
  import opened NfceScControl
  import opened NfceScRuns

  /** The row has an interval with these bounds that is running or stopped midway. */
  predicate Unfinished(r: Row, inicial: nat, final: nat) {
    && r.recInicial == Some(inicial) && r.recFinal == Some(final) && r.recAtual.Some?
    && r.recStatus.Some? && r.recStatus != Some(RecConcluido)
  }

  lemma StoppedMeans(r: Row, inicial: nat, final: nat)
    requires !r.Recovering()
    ensures Resumes(r, inicial, final) <==> Unfinished(r, inicial, final)
  {
    if r.recStatus.Some? {
      match r.recStatus.value
      case EmRecuperacao =>
      case RecPausado =>
      case RecConcluido =>
      case RecErro =>
    }
  }

  // One request: read at one moment, written at a later one

  predicate Touches(a: Action, id: nat) {
    (a.Claim? && a.id == id) || (a.Vanish? && a.id == id)
  }

  /** Whatever the other executions do, the request is neither written nor lost. */
  ghost predicate RunsAround(s: State, actions: seq<Action>, t: State, id: nat)
    decreases |actions|
  {
    if actions == [] then s == t
    else Enabled(s, actions[0]) && !Touches(actions[0], id) && RunsAround(Next(s, actions[0]), actions[1..], t, id)
  }

  lemma RequestWaits(s: State, a: Action, id: nat)
    requires Enabled(s, a) && !Touches(a, id) && id in s.workers && s.workers[id].RecoveryCall?
    ensures id in Next(s, a).workers && Next(s, a).workers[id] == s.workers[id]
  {
    hide Reply, InRange, MaxNsu;
  }

  lemma {:induction false} RequestWaitsOverRuns(s: State, actions: seq<Action>, t: State, id: nat)
    requires RunsAround(s, actions, t, id) && id in s.workers && s.workers[id].RecoveryCall?
    ensures id in t.workers && t.workers[id] == s.workers[id]
    decreases |actions|
  {
    hide Next;
    if actions != [] {
      RequestWaits(s, actions[0], id);
      RequestWaitsOverRuns(Next(s, actions[0]), actions[1..], t, id);
    }
  }

  /** A request that is written, whatever happened since it read the row, goes on with cursor and total as it read
      them if it named an unfinished interval, and otherwise starts just below its first NSU with total zero. The
      stored cursor falls back exactly when the interval was carried on in between. */
  lemma RequestGoesOnWhereItRead(s: State, id: nat, inicial: nat, final: nat, now: int, actions: seq<Action>, t: State,
      later: int)
    requires Enabled(s, CallRecovery(id, inicial, final, now))
    requires RunsAround(Next(s, CallRecovery(id, inicial, final, now)), actions, t, id) && Fresh(t, later)
    requires t.row.status != Processando && !t.row.Recovering() && Due(t.row, later)
    ensures Enabled(t, Claim(id, later))
    ensures var r := Next(t, Claim(id, later)).row;
            && r.recInicial == Some(inicial) && r.recFinal == Some(final) && r.recStatus == Some(EmRecuperacao)
            && r.ultimoNsu == t.row.ultimoNsu && r.total == t.row.total
            && (if Unfinished(s.row, inicial, final)
                then r.recAtual == s.row.recAtual && r.recTotal == s.row.recTotal
                else r.recAtual == Some(if inicial == 0 then 0 else inicial - 1) && r.recTotal == 0)
            && (Unfinished(s.row, inicial, final) && t.row.recAtual.Some? ==>
                  (r.recAtual.value < t.row.recAtual.value <==> s.row.recAtual.value < t.row.recAtual.value))
  {
    RequestWaitsOverRuns(Next(s, CallRecovery(id, inicial, final, now)), actions, t, id);
    StoppedMeans(s.row, inicial, final);
  }

  // All requests: no progress is lost

  /** A lot of a recovery is committed between the reading and the writing of a request. */
  ghost predicate Overtakes(s: State, a: Action) {
    && a.Commit? && a.id in s.workers && s.workers[a.id].OwnsRecovery()
    && exists i | i in s.workers :: s.workers[i].RecoveryCall?
  }

  /** Every request on the way has read what is stored. */
  ghost predicate RequestsAreCurrent(s: State, inicial: nat, final: nat) {
    forall i | i in s.workers && s.workers[i].RecoveryCall? ::
      && s.workers[i].inicial == inicial && s.workers[i].final == final
      && Some(s.workers[i].cursor) == s.row.recAtual && s.workers[i].total == s.row.recTotal
  }

  /** The interval is not concluded before the last step, every request names it, and none is overtaken. */
  ghost predicate RunsOneInterval(s: State, actions: seq<Action>, t: State, inicial: nat, final: nat)
    decreases |actions|
  {
    if actions == [] then s == t
    else
      && Enabled(s, actions[0]) && s.row.recStatus != Some(RecConcluido) && !Overtakes(s, actions[0])
      && (actions[0].CallRecovery? ==> actions[0].inicial == inicial && actions[0].final == final)
      && RunsOneInterval(Next(s, actions[0]), actions[1..], t, inicial, final)
  }

  ghost predicate NamesInterval(r: Row, inicial: nat, final: nat) {
    r.recInicial == Some(inicial) && r.recFinal == Some(final) && r.recAtual.Some? && r.recStatus.Some?
  }

  lemma BoundsStay(s: State, a: Action, inicial: nat, final: nat)
    requires Enabled(s, a) && NamesInterval(s.row, inicial, final) && RequestsAreCurrent(s, inicial, final)
    ensures NamesInterval(Next(s, a).row, inicial, final)
  {
    hide Reply, InRange, MaxNsu, OutOfRange, RecoveryCompleted;
  }

  lemma RequestsStayCurrent(s: State, a: Action, inicial: nat, final: nat)
    requires Enabled(s, a) && Unfinished(s.row, inicial, final) && RequestsAreCurrent(s, inicial, final)
    requires !Overtakes(s, a) && (a.CallRecovery? ==> a.inicial == inicial && a.final == final)
    ensures RequestsAreCurrent(Next(s, a), inicial, final)
  {
    hide Reply, InRange, MaxNsu, OutOfRange, RecoveryCompleted;
    if a.CallRecovery? {
      StoppedMeans(s.row, inicial, final);
    }
  }

  lemma ProgressIsKept(s: State, a: Action, inicial: nat, final: nat)
    requires Inv(s) && Enabled(s, a) && Unfinished(s.row, inicial, final) && RequestsAreCurrent(s, inicial, final)
    ensures var r, r' := s.row, Next(s, a).row;
            r'.recAtual.Some? && r.recAtual.value <= r'.recAtual.value && r.recTotal <= r'.recTotal
  {
    hide Inv, RequestsAreCurrent;
    BoundsStay(s, a, inicial, final);
    if a.Claim? && s.workers[a.id].RecoveryCall? {
      ClaimGoesOn(s, a, inicial, final);
    } else {
      hide Next;
      OnlyHolderCommitsRecovery(s, a);
    }
  }

  lemma ClaimGoesOn(s: State, a: Action, inicial: nat, final: nat)
    requires a.Claim? && Enabled(s, a) && s.workers[a.id].RecoveryCall? && RequestsAreCurrent(s, inicial, final)
    ensures Next(s, a).row.recAtual == s.row.recAtual && Next(s, a).row.recTotal == s.row.recTotal
  {
  }

  /** Over any run in which all requests name the stored interval and none is overtaken, its cursor and total never
      decrease, whatever pauses, errors, crashes, expiries and resumptions interleave, until it is concluded. */
  lemma {:induction false} ProgressIsNeverLost(s: State, actions: seq<Action>, t: State, inicial: nat, final: nat)
    requires Inv(s) && NamesInterval(s.row, inicial, final) && RequestsAreCurrent(s, inicial, final)
    requires RunsOneInterval(s, actions, t, inicial, final)
    ensures NamesInterval(t.row, inicial, final)
    ensures s.row.recAtual.value <= t.row.recAtual.value && s.row.recTotal <= t.row.recTotal
    decreases |actions|
  {
    hide Inv, Next, RequestsAreCurrent, Overtakes;
    if actions != [] {
      NextKeepsInv(s, actions[0]);
      BoundsStay(s, actions[0], inicial, final);
      RequestsStayCurrent(s, actions[0], inicial, final);
      ProgressIsKept(s, actions[0], inicial, final);
      ProgressIsNeverLost(Next(s, actions[0]), actions[1..], t, inicial, final);
    }
  }

  // An overtaken request

  /** Document 1 is stored, and the recovery of [1, 1] was paused before it began. */
  const PAUSED: State :=
    State(Row(Ativo, None, false, 1, 1, Some(1), Some(1), Some(0), Some(RecPausado), 0, None), {1}, {1}, {}, map[])

  lemma PausedIsInOrder()
    ensures Inv(PAUSED)
  {
    assert Between({1}, 0, 1) == {1} && Between({1}, 0, 0) == {};
  }

  lemma LotOfOne()
    ensures Lot({1}, 0) == [1] && Above({1}, 0) == {1} && InRange([1], 1) == 1 && MaxNsu([1], 0) == 1
  {
    LotIsConsecutive({1}, 0, BATCH_SIZE);
    LotConsumes({1}, 0);
    assert Above({1}, 0) == {1};
    assert [1][1..] == [];
  }

  const REQUEST: Worker := RecoveryCall(1, 1, 0, 0)

  /** The paused control with its recovery running under the lease `lease`, the first request at `w` and the second one
      still to be written. */
  function Running(lease: int, issued: set<int>, w: Worker): State {
    PAUSED.(row := PAUSED.row.(recStatus := Some(EmRecuperacao), recLease := Some(lease), proxima := Some(lease)),
        issued := issued, workers := map[0 := w, 1 := REQUEST])
  }

  lemma FirstAsks()
    ensures Enabled(PAUSED, CallRecovery(0, 1, 1, 0))
    ensures Next(PAUSED, CallRecovery(0, 1, 1, 0)) == PAUSED.(workers := map[0 := REQUEST])
  {
  }

  lemma SecondAsks()
    ensures var s := PAUSED.(workers := map[0 := REQUEST]);
            && Enabled(s, CallRecovery(1, 1, 1, 0))
            && Next(s, CallRecovery(1, 1, 1, 0)) == PAUSED.(workers := map[0 := REQUEST, 1 := REQUEST])
  {
  }

  lemma FirstIsWritten()
    ensures var s := PAUSED.(workers := map[0 := REQUEST, 1 := REQUEST]);
            && Enabled(s, Claim(0, 0))
            && Next(s, Claim(0, 0)) == Running(NewLease(0), {NewLease(0)}, RecoveryReady(NewLease(0)))
  {
  }

  lemma FirstReads()
    ensures var s := Running(NewLease(0), {NewLease(0)}, RecoveryReady(NewLease(0)));
            && Enabled(s, ReadRow(0))
            && Next(s, ReadRow(0)) == Running(NewLease(0), {NewLease(0)}, RecoveryRead(NewLease(0), 0, 1))
  {
  }

  lemma FirstRenews()
    ensures var s := Running(NewLease(0), {NewLease(0)}, RecoveryRead(NewLease(0), 0, 1));
            && Enabled(s, Renew(0, 1))
            && Next(s, Renew(0, 1))
               == Running(NewLease(1), {NewLease(0), NewLease(1)}, RecoveryWaiting(NewLease(1), 0, 1))
  {
  }

  lemma FirstDownloads()
    ensures var s := Running(NewLease(1), {NewLease(0), NewLease(1)}, RecoveryWaiting(NewLease(1), 0, 1));
            && Enabled(s, Download(0, Replied))
            && Next(s, Download(0, Replied))
               == Running(NewLease(1), {NewLease(0), NewLease(1)}, RecoveryStoring(NewLease(1), 0, 1, [1], 0))
  {
    LotOfOne();
    hide Lot, Above;
  }

  lemma FirstPersists()
    ensures var s := Running(NewLease(1), {NewLease(0), NewLease(1)}, RecoveryStoring(NewLease(1), 0, 1, [1], 0));
            && Enabled(s, Persist(0))
            && Next(s, Persist(0))
               == Running(NewLease(1), {NewLease(0), NewLease(1)}, RecoveryStoring(NewLease(1), 0, 1, [1], 1))
  {
    LotOfOne();
    hide InRange;
    assert PAUSED.persisted + {1} == PAUSED.persisted;
  }

  lemma FirstCommits()
    ensures var s := Running(NewLease(1), {NewLease(0), NewLease(1)}, RecoveryStoring(NewLease(1), 0, 1, [1], 1));
            && Enabled(s, Commit(0, 2))
            && var t := Next(s, Commit(0, 2));
               t.workers == map[1 := REQUEST] && t.issued == {NewLease(0), NewLease(1), NewLease(2)}
               && t.row == PAUSED.row.(recAtual := Some(1), recTotal := 1, recStatus := Some(RecConcluido),
                    proxima := Some(2 + 12 * HOUR_MS))
  {
    LotOfOne();
    assert [1][..1] == [1];
    hide InRange, MaxNsu;
  }

  /** The first concludes the interval, and the second, when its time has come, takes the cursor back to where it
      read it. */
  lemma OvertakenRequestFallsBack() returns (actions: seq<Action>, t: State, later: int)
    ensures Runs(PAUSED, actions, t) && Enabled(t, Claim(1, later))
    ensures t.row.recAtual == Some(1) && t.row.recStatus == Some(RecConcluido)
    ensures Next(t, Claim(1, later)).row.recAtual == Some(0)
  {
    hide Runs, Next, Enabled;
    actions, t := AsFarAsCommitted();
    later := 2 + 12 * HOUR_MS;
    SecondIsWritten(t, later);
  }

  lemma AsFarAsCommitted() returns (actions: seq<Action>, t: State)
    ensures Runs(PAUSED, actions, t)
    ensures t.workers == map[1 := REQUEST] && t.issued == {NewLease(0), NewLease(1), NewLease(2)}
    ensures t.row == PAUSED.row.(recAtual := Some(1), recTotal := 1, recStatus := Some(RecConcluido),
              proxima := Some(2 + 12 * HOUR_MS))
  {
    assert Runs(PAUSED, [], PAUSED);
    hide Runs, Next, Enabled, Running;
    FirstAsks();
    actions, t := Then(PAUSED, [], PAUSED, CallRecovery(0, 1, 1, 0));
    SecondAsks();
    actions, t := Then(PAUSED, actions, t, CallRecovery(1, 1, 1, 0));
    FirstIsWritten();
    actions, t := Then(PAUSED, actions, t, Claim(0, 0));
    FirstReads();
    actions, t := Then(PAUSED, actions, t, ReadRow(0));
    FirstRenews();
    actions, t := Then(PAUSED, actions, t, Renew(0, 1));
    FirstDownloads();
    actions, t := Then(PAUSED, actions, t, Download(0, Replied));
    FirstPersists();
    actions, t := Then(PAUSED, actions, t, Persist(0));
    FirstCommits();
    actions, t := Then(PAUSED, actions, t, Commit(0, 2));
  }

  lemma SecondIsWritten(t: State, later: int)
    requires t.workers == map[1 := REQUEST] && t.issued == {NewLease(0), NewLease(1), NewLease(2)}
    requires t.row == PAUSED.row.(recAtual := Some(1), recTotal := 1, recStatus := Some(RecConcluido),
               proxima := Some(later))
    requires later == 2 + 12 * HOUR_MS
    ensures Enabled(t, Claim(1, later)) && Next(t, Claim(1, later)).row.recAtual == Some(0)
  {
  }
}
