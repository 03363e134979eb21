/** Every interleaving of the NF-e collector of one control inside one server process: operator calls, the
    expiry sweep, process restarts and the one background execution that the in-memory set of running
    controls admits. One action is one database statement, one transaction or one download. */
module NfeScRuns {
  import opened Options
  import opened NsuServer
  import opened NfeScControl

  datatype Worker =
    | Ready(token: int)
    | Read(token: int, cursor: nat)
    | Waiting(token: int, cursor: nat)
    | Storing(token: int, origin: nat, docs: seq<nat>, done: nat, filed: bool)
    | Completing(token: int, cStat: CStat)
    | Stopping(token: int)
    | Crashed

  /** An operator call, or a claimed or expired lease on its way to a background execution. */
  datatype Call = RunCall | ConfigureCall | Starting(token: int)

  datatype State = State(
    row: Row,
    server: set<nat>,
    ledger: set<nat>,
    persisted: set<nat>,
    worker: Option<Worker>,
    calls: map<nat, Call>)

  datatype Delivery = Replied | Refused(code: CStat) | Thrown

  datatype Action =
    | Publish(nsu: nat)
    | Restart
    | Vanish(id: nat)
    | CallPause
    | CallConfigure(id: nat)
    | CallRun(id: nat, now: int)
    | Sweep(id: nat, now: int)
    | FinishCall(id: nat, now: int)
    | ReadRow
    | Renewal(now: int)
    | Download(delivery: Delivery)
    | FileDocument
    | RecordDocument
    | FailDocument
    | EndLot(now: int)
    | StopAfterError(now: int)
    | Crash
    | Abandon

  ghost predicate Initial(s: State) {
    s.row == NEW_ROW && 0 !in s.server && s.ledger == {} && s.worker == None && s.calls == map[]
  }

  function Become(s: State, w: Worker): State {
    s.(worker := Some(w))
  }

  function Quit(s: State): State {
    s.(worker := None)
  }

  /** A call that claimed the control, or the sweep, starts an execution unless one is already running. */
  function FinishCallStep(s: State, id: nat, now: int): State
    requires id in s.calls
  {
    match s.calls[id]
    case RunCall =>
      if CanClaim(s.row, now)
      then s.(row := Claim(s.row, now), calls := s.calls[id := Starting(NewLease(now))])
      else s.(calls := s.calls - {id})
    case ConfigureCall => s.(row := Configure(s.row), calls := s.calls - {id})
    case Starting(token) =>
      var t := s.(calls := s.calls - {id});
      if s.worker.Some? then t else Become(t, Ready(token))
  }

  function ReadStep(s: State, w: Worker): State {
    match w
    case Ready(token) => if s.row.Held(token) then Become(s, Read(token, s.row.ultimoNsu)) else Quit(s)
    case Crashed =>
      if s.row.status == Processando && s.row.proxima.Some? then Become(s, Stopping(s.row.proxima.value)) else Quit(s)
    case _ => s
  }

  function RenewStep(s: State, w: Worker, now: int): State {
    match w
    case Read(token, cursor) =>
      if s.row.Held(token)
      then Become(s.(row := Renew(s.row, token, now)), Waiting(NewLease(now), cursor))
      else Quit(s)
    case _ => s
  }

  function DownloadStep(s: State, w: Worker, delivery: Delivery): State {
    match w
    case Waiting(token, cursor) =>
      (match delivery
       case Thrown => Become(s, Stopping(token))
       case Refused(code) => Become(s, Completing(token, code))
       case Replied =>
         if Above(s.server, cursor) == {} then Become(s, Completing(token, C117))
         else
           var docs := Lot(s.server, cursor);
           if docs == [] || |docs| > BATCH_SIZE then Become(s, Stopping(token))
           else Become(s, Storing(token, cursor, docs, 0, false)))
    case _ => s
  }

  /** Persists the XML of the next document, unless its NSU is out of order. */
  function FileStep(s: State, w: Worker): State {
    match w
    case Storing(token, origin, docs, done, false) =>
      if done >= |docs| then s
      else if docs[done] <= (if done == 0 then origin else docs[done - 1]) then Become(s, Stopping(token))
      else Become(s.(persisted := s.persisted + {docs[done]}), Storing(token, origin, docs, done, true))
    case _ => s
  }

  /** The transaction: the ledger entry is written even when the cursor update no longer matches. */
  function RecordStep(s: State, w: Worker): State {
    match w
    case Storing(token, origin, docs, done, true) =>
      if done >= |docs| then s
      else
        var t := s.(ledger := s.ledger + {docs[done]}, row := CommitDocument(s.row, token, docs[done]));
        if s.row.Held(token) then Become(t, Storing(token, origin, docs, done + 1, false)) else Quit(t)
    case _ => s
  }

  function FailStep(s: State, w: Worker): State {
    match w
    case Storing(token, _, docs, done, _) => if done < |docs| then Become(s, Stopping(token)) else s
    case _ => s
  }

  function EndLotStep(s: State, w: Worker, now: int): State {
    match w
    case Storing(token, origin, docs, done, _) =>
      if done != |docs| then s
      else if |docs| == BATCH_SIZE then
        if Last(docs, origin) <= origin then Become(s, Stopping(token))
        else if s.row.Held(token) then Become(s.(row := Renew(s.row, token, now)), Ready(NewLease(now)))
        else Quit(s)
      else Quit(s.(row := Complete(s.row, token, C118, now)))
    case Completing(token, code) => Quit(s.(row := Complete(s.row, token, code, now)))
    case _ => s
  }

  function StopStep(s: State, w: Worker, now: int): State {
    match w
    case Stopping(token) => Quit(s.(row := Stop(s.row, token, now)))
    case _ => s
  }

  predicate Enabled(s: State, a: Action) {
    match a
    case Publish(nsu) => Publishes(s.server, nsu)
    case Restart => true
    case Vanish(id) => id in s.calls
    case CallPause => true
    case CallConfigure(id) => id !in s.calls && s.row.status != Processando
    case CallRun(id, now) => id !in s.calls && RunAccepted(s.row, now)
    case Sweep(id, now) => id !in s.calls && s.row.status == Processando && s.row.proxima.Some?
      && s.row.proxima.value <= now
    case FinishCall(id, now) => id in s.calls
    case Download(delivery) => s.worker.Some? && (delivery.Refused? ==> delivery.code != C117 && delivery.code != C118)
    case _ => s.worker.Some?
  }

  function Next(s: State, a: Action): State
    requires Enabled(s, a)
  {
    match a
    case Publish(nsu) => s.(server := s.server + {nsu})
    case Restart => s.(worker := None, calls := map[])
    case Vanish(id) => s.(calls := s.calls - {id})
    case CallPause => s.(row := Pause(s.row))
    case CallConfigure(id) => s.(calls := s.calls[id := ConfigureCall])
    case CallRun(id, now) => s.(calls := s.calls[id := RunCall])
    case Sweep(id, now) => s.(calls := s.calls[id := Starting(s.row.proxima.value)])
    case FinishCall(id, now) => FinishCallStep(s, id, now)
    case ReadRow => ReadStep(s, s.worker.value)
    case Renewal(now) => RenewStep(s, s.worker.value, now)
    case Download(delivery) => DownloadStep(s, s.worker.value, delivery)
    case FileDocument => FileStep(s, s.worker.value)
    case RecordDocument => RecordStep(s, s.worker.value)
    case FailDocument => FailStep(s, s.worker.value)
    case EndLot(now) => EndLotStep(s, s.worker.value, now)
    case StopAfterError(now) => StopStep(s, s.worker.value, now)
    case Crash => Become(s, Crashed)
    case Abandon => if s.worker.value.Crashed? || s.worker.value.Stopping? then Quit(s) else s
  }

  ghost predicate Runs(s: State, actions: seq<Action>, t: State)
    decreases |actions|
  {
    if actions == [] then s == t
    else Enabled(s, actions[0]) && Runs(Next(s, actions[0]), actions[1..], t)
  }

  // Invariant

  /** The ledger is everything up to the cursor, plus at most the single next NSU. */
  ghost predicate LedgerInStep(server: set<nat>, ledger: set<nat>, cursor: nat) {
    && Between(server, 0, cursor) <= ledger
    && forall x | x in ledger :: x in Between(server, 0, cursor) || IsLeast(Above(server, cursor), x)
  }

  ghost predicate GoodWorker(s: State, w: Worker) {
    match w
    case Read(_, cursor) => cursor == s.row.ultimoNsu
    case Waiting(_, cursor) => cursor == s.row.ultimoNsu
    case Storing(_, origin, docs, done, filed) =>
      && Consecutive(s.server, origin, docs) && 0 < |docs| <= BATCH_SIZE && done <= |docs|
      && s.row.ultimoNsu == Last(docs[..done], origin)
      && (filed ==> done < |docs| && docs[done] in s.persisted)
    case _ => true
  }

  ghost predicate Inv(s: State) {
    && 0 !in s.server
    && IsCursor(s.server, s.row.ultimoNsu)
    && s.row.total == |Between(s.server, 0, s.row.ultimoNsu)|
    && LedgerInStep(s.server, s.ledger, s.row.ultimoNsu)
    && s.ledger <= s.persisted
    && (s.worker.Some? ==> GoodWorker(s, s.worker.value))
  }

  lemma PublishKeepsInv(s: State, nsu: nat)
    requires Inv(s) && Publishes(s.server, nsu)
    ensures Inv(s.(server := s.server + {nsu}))
  {
    var cursor, grown := s.row.ultimoNsu, s.server + {nsu};
    PublishingKeepsIntervals(s.server, nsu, cursor, 0, cursor);
    forall x | x in s.ledger ensures x in Between(grown, 0, cursor) || IsLeast(Above(grown, cursor), x) {
      if IsLeast(Above(s.server, cursor), x) {
        assert Above(grown, cursor) <= Above(s.server, cursor) + {nsu};
      }
    }
    match s.worker
    case Some(Storing(_, origin, docs, _, _)) => PublishingKeepsConsecutive(s.server, nsu, origin, docs);
    case _ =>
  }

  /** In a gapless lot the entry after the cursor is the least NSU above it. */
  lemma NextEntryIsLeast(server: set<nat>, origin: nat, docs: seq<nat>, done: nat)
    requires Consecutive(server, origin, docs) && done < |docs|
    ensures IsLeast(Above(server, Last(docs[..done], origin)), docs[done])
    ensures docs[done] > Last(docs[..done], origin)
  {
    var cursor := Last(docs[..done], origin);
    forall x | x in Above(server, cursor) ensures docs[done] <= x {
      if x <= docs[|docs| - 1] {
        assert origin <= cursor;
        var i :| 0 <= i < |docs| && docs[i] == x;
        assert done <= i;
      }
    }
  }

  /** Recording the least NSU above the cursor keeps the ledger in step, whether the cursor follows or not. */
  lemma RecordKeepsLedger(server: set<nat>, ledger: set<nat>, cursor: nat, nsu: nat)
    requires LedgerInStep(server, ledger, cursor) && IsLeast(Above(server, cursor), nsu)
    ensures LedgerInStep(server, ledger + {nsu}, cursor)
    ensures LedgerInStep(server, ledger + {nsu}, nsu)
    ensures |Between(server, 0, nsu)| == |Between(server, 0, cursor)| + 1
  {
    assert Between(server, cursor, nsu) == {nsu} by {
      assert Between(server, cursor, nsu) <= Above(server, cursor);
    }
    BetweenAdds(server, 0, cursor, nsu);
  }

  lemma RecordKeepsInv(s: State)
    requires Inv(s) && s.worker.Some?
    ensures Inv(RecordStep(s, s.worker.value))
  {
    hide Between, LedgerInStep, Consecutive;
    match s.worker.value
    case Storing(token, origin, docs, done, true) =>
      NextEntryIsLeast(s.server, origin, docs, done);
      RecordKeepsLedger(s.server, s.ledger, s.row.ultimoNsu, docs[done]);
      assert docs[..done + 1] == docs[..done] + [docs[done]];
    case _ =>
  }

  lemma DownloadKeepsInv(s: State, delivery: Delivery)
    requires Inv(s) && s.worker.Some?
    ensures Inv(DownloadStep(s, s.worker.value, delivery))
  {
    match s.worker.value
    case Waiting(token, cursor) => LotIsConsecutive(s.server, cursor, BATCH_SIZE);
    case _ =>
  }

  /** Whatever changes neither cursor, total, ledger, service nor store only has to leave the worker in order. */
  lemma SameCountsKeepInv(s: State, t: State)
    requires Inv(s) && t.server == s.server && t.ledger == s.ledger && s.persisted <= t.persisted
    requires t.row.ultimoNsu == s.row.ultimoNsu && t.row.total == s.row.total
    requires t.worker.Some? ==> GoodWorker(t, t.worker.value)
    ensures Inv(t)
  {
    hide Between, LedgerInStep, GoodWorker;
  }

  lemma CallsKeepInv(s: State, a: Action)
    requires Inv(s) && Enabled(s, a)
    requires a.Restart? || a.Vanish? || a.CallPause? || a.CallConfigure? || a.CallRun? || a.Sweep? || a.FinishCall?
    ensures Inv(Next(s, a))
  {
    hide Between, LedgerInStep, Consecutive;
    SameCountsKeepInv(s, Next(s, a));
  }

  lemma ReadAndRenewKeepInv(s: State, a: Action)
    requires Inv(s) && Enabled(s, a) && (a.ReadRow? || a.Renewal?)
    ensures Inv(Next(s, a))
  {
    hide Between, LedgerInStep, Consecutive;
    SameCountsKeepInv(s, Next(s, a));
  }

  lemma LotStepsKeepInv(s: State, a: Action)
    requires Inv(s) && Enabled(s, a) && (a.FileDocument? || a.FailDocument?)
    ensures Inv(Next(s, a))
  {
    hide Between, LedgerInStep, Consecutive;
    SameCountsKeepInv(s, Next(s, a));
  }

  lemma EndsKeepInv(s: State, a: Action)
    requires Inv(s) && Enabled(s, a) && (a.EndLot? || a.StopAfterError? || a.Crash? || a.Abandon?)
    ensures Inv(Next(s, a))
  {
    hide Between, LedgerInStep, Consecutive;
    SameCountsKeepInv(s, Next(s, a));
  }

  lemma NextKeepsInv(s: State, a: Action)
    requires Inv(s) && Enabled(s, a)
    ensures Inv(Next(s, a))
  {
    hide Inv;
    match a
    case Publish(nsu) => PublishKeepsInv(s, nsu);
    case Download(delivery) => DownloadKeepsInv(s, delivery);
    case RecordDocument => RecordKeepsInv(s);
    case ReadRow => ReadAndRenewKeepInv(s, a);
    case Renewal(_) => ReadAndRenewKeepInv(s, a);
    case FileDocument => LotStepsKeepInv(s, a);
    case FailDocument => LotStepsKeepInv(s, a);
    case EndLot(_) => EndsKeepInv(s, a);
    case StopAfterError(_) => EndsKeepInv(s, a);
    case Crash => EndsKeepInv(s, a);
    case Abandon => EndsKeepInv(s, a);
    case _ => CallsKeepInv(s, a);
  }

  // Results over whole runs

  lemma {:induction false} RunKeepsInv(s: State, actions: seq<Action>, t: State)
    requires Inv(s) && Runs(s, actions, t)
    ensures Inv(t)
    decreases |actions|
  {
    if actions != [] {
      NextKeepsInv(s, actions[0]);
      RunKeepsInv(Next(s, actions[0]), actions[1..], t);
    }
  }

  lemma InitialInv(s: State)
    requires Initial(s)
    ensures Inv(s)
  {
    assert Between(s.server, 0, 0) == {};
  }

  /** The collector skips nothing and counts nothing twice: its ledger is exactly the NSUs up to the cursor,
      possibly with the one that follows, every entry has its document persisted, and the total is the number passed. */
  lemma LedgerIsExact(s: State, actions: seq<Action>, t: State)
    requires Initial(s) && Runs(s, actions, t)
    ensures var passed := Between(t.server, 0, t.row.ultimoNsu);
            && IsCursor(t.server, t.row.ultimoNsu)
            && (t.ledger == passed || exists next ::
                IsLeast(Above(t.server, t.row.ultimoNsu), next) && t.ledger == passed + {next})
            && t.row.total == |passed|
            && t.ledger <= t.persisted
  {
    InitialInv(s);
    RunKeepsInv(s, actions, t);
    var passed := Between(t.server, 0, t.row.ultimoNsu);
    if t.ledger != passed {
      var next :| next in t.ledger && next !in passed;
      assert t.ledger == passed + {next};
    }
  }

  /** One action moves the cursor to the next NSU or not at all, and only under the stored lease. */
  lemma CursorMovesToNextOnly(s: State, a: Action)
    requires Inv(s) && Enabled(s, a)
    ensures var r, r' := s.row, Next(s, a).row;
            && ((r'.ultimoNsu == r.ultimoNsu && r'.total == r.total)
                || (a.RecordDocument? && s.worker.value.Storing? && r.Held(s.worker.value.token)
                    && IsLeast(Above(s.server, r.ultimoNsu), r'.ultimoNsu) && r'.total == r.total + 1))
            && s.ledger <= Next(s, a).ledger
  {
    if a.RecordDocument? {
      match s.worker.value
      case Storing(_, origin, docs, done, true) => NextEntryIsLeast(s.server, origin, docs, done);
      case _ =>
    }
  }

  lemma {:induction false} CursorNeverDecreases(s: State, actions: seq<Action>, t: State)
    requires Inv(s) && Runs(s, actions, t)
    ensures s.row.ultimoNsu <= t.row.ultimoNsu && s.ledger <= t.ledger
    decreases |actions|
  {
    if actions != [] {
      CursorMovesToNextOnly(s, actions[0]);
      NextKeepsInv(s, actions[0]);
      CursorNeverDecreases(Next(s, actions[0]), actions[1..], t);
    }
  }

  /** The guards against an empty or oversized lot, an NSU out of order and a full lot that does not advance never
      fire. */
  lemma LotsAreInOrder(s: State, actions: seq<Action>, t: State)
    requires Initial(s) && Runs(s, actions, t) && t.worker.Some?
    ensures match t.worker.value
            case Waiting(_, cursor) => Above(t.server, cursor) != {} ==> 0 < |Lot(t.server, cursor)| <= BATCH_SIZE
            case Storing(_, origin, docs, done, _) =>
              && (done < |docs| ==> docs[done] > (if done == 0 then origin else docs[done - 1]))
              && Last(docs, origin) > origin
            case _ => true
  {
    InitialInv(s);
    RunKeepsInv(s, actions, t);
    if t.worker.value.Waiting? {
      LotIsConsecutive(t.server, t.worker.value.cursor, BATCH_SIZE);
    }
  }

  // A control that only the operator can revive

  /** Neither active nor running, and without a date: paused, or refused for good with code 632. */
  predicate Dormant(r: Row) {
    r.status != Ativo && r.status != Processando && r.proxima.None?
  }

  /** Pausing, or completing under the stored lease with code 632. */
  predicate MakesDormant(s: State, a: Action) {
    || a.CallPause?
    || (a.EndLot? && s.worker.Some? && s.worker.value.Completing? && s.worker.value.cStat == C632
        && s.row.Held(s.worker.value.token))
  }

  lemma WhatMakesDormant(s: State, a: Action)
    requires Enabled(s, a) && !Dormant(s.row)
    ensures MakesDormant(s, a) ==> Dormant(Next(s, a).row)
    ensures Dormant(Next(s, a).row) ==> MakesDormant(s, a)
  {
    hide Lot, Above;
  }

  predicate Configures(s: State, a: Action) {
    a.FinishCall? && a.id in s.calls && s.calls[a.id].ConfigureCall?
  }

  lemma DormantStays(s: State, a: Action)
    requires Enabled(s, a) && Dormant(s.row) && !Configures(s, a)
    ensures Dormant(Next(s, a).row) && Next(s, a).row.ultimoNsu == s.row.ultimoNsu
            && Next(s, a).row.total == s.row.total
  {
  }

  ghost predicate RunsUnconfigured(s: State, actions: seq<Action>, t: State)
    decreases |actions|
  {
    if actions == [] then s == t
    else Enabled(s, actions[0]) && !Configures(s, actions[0]) && RunsUnconfigured(Next(s, actions[0]), actions[1..], t)
  }

  lemma {:induction false} DormantStaysOverRuns(s: State, actions: seq<Action>, t: State)
    requires Dormant(s.row) && RunsUnconfigured(s, actions, t)
    ensures Dormant(t.row) && t.row.ultimoNsu == s.row.ultimoNsu && t.row.total == s.row.total
    decreases |actions|
  {
    if actions != [] {
      DormantStays(s, actions[0]);
      DormantStaysOverRuns(Next(s, actions[0]), actions[1..], t);
    }
  }

  /** A paused control, or one refused with code 632, stays as it is, with its cursor and total, until it is
      configured again: no start, sweep, restart or execution still under way brings it back. */
  lemma DormantUntilConfigured(s: State, a: Action, actions: seq<Action>, t: State)
    requires Enabled(s, a) && MakesDormant(s, a) && RunsUnconfigured(Next(s, a), actions, t)
    ensures Dormant(t.row) && t.row.ultimoNsu == s.row.ultimoNsu && t.row.total == s.row.total
    ensures forall now :: !CanClaim(t.row, now) && CanClaim(Configure(t.row), now)
  {
    DormantStaysOverRuns(Next(s, a), actions, t);
  }

  // Runs, put together

  lemma {:induction false} OneMore(s: State, actions: seq<Action>, t: State, a: Action)
    requires Runs(s, actions, t) && Enabled(t, a)
    ensures Runs(s, actions + [a], Next(t, a))
    decreases |actions|
  {
    hide Next, Enabled;
    if actions == [] {
      assert [a][1..] == [];
      assert actions + [a] == [a];
      assert Runs(Next(s, a), [], Next(t, a));
    } else {
      assert (actions + [a])[1..] == actions[1..] + [a];
      OneMore(Next(s, actions[0]), actions[1..], t, a);
    }
  }

  lemma Then(s: State, actions: seq<Action>, t: State, a: Action) returns (more: seq<Action>, u: State)
    requires Runs(s, actions, t) && Enabled(t, a)
    ensures Runs(s, more, u) && u == Next(t, a)
  {
    OneMore(s, actions, t, a);
    more, u := actions + [a], Next(t, a);
  }

  lemma {:induction false} RunsCompose(s: State, first: seq<Action>, t: State, second: seq<Action>, u: State)
    requires Runs(s, first, t) && Runs(t, second, u)
    ensures Runs(s, first + second, u)
    decreases |first|
  {
    hide Next, Enabled;
    if first == [] {
      assert first + second == second;
    } else {
      assert (first + second)[1..] == first[1..] + second;
      RunsCompose(Next(s, first[0]), first[1..], t, second, u);
    }
  }
}
