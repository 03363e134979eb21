/** Changing the filter of an NFC-e control. The filter decides which NSUs the service hands out; the configuration
    call changes it and keeps the cursor. Executions that were paused go on for a while with the filter they read. */
module NfceScFilter {
  import opened NsuServer
  import opened NfceScControl
  import opened NfceScRuns

  /** The control after a change of its filter: `s.server` is what the new filter selects, `earlier` what the former one
      does, and the executions in `former` have read the former one. */
  datatype Control = Control(s: State, earlier: set<nat>, former: set<nat>)

  datatype Step = Plain(a: Action) | Published(nsu: nat, selected: bool, earlier: bool)

  /** The configuration is written, whatever is under way. */
  function Configured(s: State, selected: set<nat>): Control {
    Control(s.(row := Configure(s.row), server := selected), s.server, s.workers.Keys)
  }

  predicate StartsRecovery(s: State, a: Action) {
    a.Claim? && a.id in s.workers && s.workers[a.id].RecoveryCall?
  }

  /** Everything but a recovery and a further change of the filter. */
  predicate Allowed(c: Control, step: Step) {
    match step
    case Plain(a) => !a.Publish? && Enabled(c.s, a) && !StartsRecovery(c.s, a)
    case Published(nsu, selected, earlier) =>
      (selected ==> Publishes(c.s.server, nsu)) && (earlier ==> Publishes(c.earlier, nsu))
  }

  /** An execution at the top of its loop reads the row, and with it the filter. */
  predicate ReadsFilter(s: State, a: Action) {
    a.ReadRow? && a.id in s.workers && (s.workers[a.id].MainReady? || s.workers[a.id].RecoveryReady?)
  }

  /** The collector as the acting execution sees it. */
  function Seen(c: Control, a: Action): State {
    if a.Download? && a.id in c.former then c.s.(server := c.earlier) else c.s
  }

  function After(c: Control, step: Step): Control
    requires Allowed(c, step)
  {
    match step
    case Plain(a) =>
      Control(Next(Seen(c, a), a).(server := c.s.server), c.earlier,
          if ReadsFilter(c.s, a) then c.former - {a.id} else c.former)
    case Published(nsu, selected, earlier) =>
      Control(if selected then c.s.(server := c.s.server + {nsu}) else c.s,
          if earlier then c.earlier + {nsu} else c.earlier, c.former)
  }

  ghost predicate Leads(c: Control, steps: seq<Step>, t: Control)
    decreases |steps|
  {
    if steps == [] then c == t else Allowed(c, steps[0]) && Leads(After(c, steps[0]), steps[1..], t)
  }

  // What is under way

  /** An execution with the new filter works above `floor`. */
  predicate WorkerAbove(w: Worker, floor: nat) {
    match w
    case MainRead(_, cursor) => cursor >= floor
    case MainWaiting(_, cursor) => cursor >= floor
    case MainStoring(_, cursor, answer, _) => cursor >= floor && forall d | d in answer.docs :: d > floor
    case RecoveryReady(_) => false
    case RecoveryRead(_, _, _) => false
    case RecoveryWaiting(_, _, _) => false
    case RecoveryStoring(_, _, _, _, _) => false
    case _ => true
  }

  predicate KnownBelow(docs: seq<nat>, persisted: set<nat>, floor: nat) {
    forall d | d in docs :: d > floor || d in persisted
  }

  predicate TakenAway(s: State, token: int) {
    token in s.issued && !s.row.MainHeld(token)
  }

  /** One with the former filter has lost the control, and up to `floor` it holds nothing new. */
  predicate FormerWorker(s: State, w: Worker, floor: nat) {
    match w
    case MainRead(token, _) => TakenAway(s, token)
    case MainWaiting(token, _) => TakenAway(s, token)
    case MainStoring(token, _, answer, _) => TakenAway(s, token) && KnownBelow(answer.docs, s.persisted, floor)
    case RecoveryStoring(_, _, _, docs, _) => KnownBelow(docs, s.persisted, floor)
    case _ => true
  }

  predicate GoodWorker(c: Control, i: nat, floor: nat)
    requires i in c.s.workers
  {
    if i in c.former then FormerWorker(c.s, c.s.workers[i], floor) else WorkerAbove(c.s.workers[i], floor)
  }

  ghost predicate Kept(c: Control, floor: nat) {
    && floor <= c.s.row.ultimoNsu && !c.s.row.Recovering()
    && 0 !in c.earlier && IsCursor(c.earlier, floor) && Between(c.earlier, 0, floor) <= c.s.persisted
    && forall i | i in c.s.workers :: GoodWorker(c, i, floor)
  }

  lemma ConfiguredIsKept(s: State, selected: set<nat>)
    requires Inv(s) && !s.row.Recovering()
    ensures Kept(Configured(s, selected), s.row.ultimoNsu)
  {
    var c, floor := Configured(s, selected), s.row.ultimoNsu;
    forall i | i in c.s.workers ensures GoodWorker(c, i, floor) {
      var w := s.workers[i];
      assert NfceScRuns.GoodWorker(s, w);
      if w.MainStoring? {
        LotIsKnownBelow(s.server, s.persisted, w.cursor, w.answer.docs, floor);
      } else if w.RecoveryStoring? {
        LotIsKnownBelow(s.server, s.persisted, w.cursor, w.docs, floor);
      }
    }
  }

  lemma LotIsKnownBelow(server: set<nat>, persisted: set<nat>, cursor: nat, docs: seq<nat>, floor: nat)
    requires Consecutive(server, cursor, docs) && Between(server, 0, floor) <= persisted
    ensures KnownBelow(docs, persisted, floor)
  {
    forall d | d in docs ensures d > floor || d in persisted {
      assert d > floor || d in Between(server, 0, floor);
    }
  }

  // Every step keeps it

  lemma {:induction false} MaxNsuNeverBelow(docs: seq<nat>, cursor: nat)
    ensures MaxNsu(docs, cursor) >= cursor
    decreases |docs|
  {
    if docs != [] {
      MaxNsuNeverBelow(docs[1..], if docs[0] > cursor then docs[0] else cursor);
    }
  }

  /** What another execution does to the rest: it issues leases, persists, and never gives one back. */
  ghost predicate LeavesOthers(s: State, t: State) {
    && s.persisted <= t.persisted && s.issued <= t.issued
    && forall token | TakenAway(s, token) :: TakenAway(t, token)
  }

  lemma OthersAreKept(c: Control, t: Control, floor: nat, i: nat)
    requires i in c.s.workers && i in t.s.workers && c.s.workers[i] == t.s.workers[i] && GoodWorker(c, i, floor)
    requires LeavesOthers(c.s, t.s) && (i in t.former <==> i in c.former)
    ensures GoodWorker(t, i, floor)
  {
  }

  /** A step of one execution or call keeps it if it keeps the cursor up and its own position in order. */
  lemma StepOf(c: Control, t: Control, floor: nat, id: nat)
    requires Kept(c, floor) && LeavesOthers(c.s, t.s) && t.earlier == c.earlier
    requires t.s.row.ultimoNsu >= floor && !t.s.row.Recovering()
    requires forall i | i in t.s.workers && i != id ::
               i in c.s.workers && t.s.workers[i] == c.s.workers[i] && (i in t.former <==> i in c.former)
    requires id in t.s.workers ==> GoodWorker(t, id, floor)
    ensures Kept(t, floor)
  {
    hide GoodWorker;
    forall i | i in t.s.workers ensures GoodWorker(t, i, floor) {
      if i != id {
        OthersAreKept(c, t, floor, i);
      }
    }
  }

  lemma DownloadIsKept(c: Control, id: nat, delivery: Delivery, floor: nat)
    requires Kept(c, floor) && Allowed(c, Plain(Download(id, delivery)))
    ensures var t := After(c, Plain(Download(id, delivery)));
            Kept(t, floor) && t.s.persisted == c.s.persisted
  {
    hide Reply, Consecutive;
    var t, w := After(c, Plain(Download(id, delivery))), c.s.workers[id];
    assert GoodWorker(c, id, floor);
    if w.MainWaiting? || w.RecoveryWaiting? {
      RecoveryLot(c.earlier, w.cursor, floor);
      LotIsKnownBelow(c.earlier, c.s.persisted, w.cursor, Reply(c.earlier, w.cursor).docs, floor);
      RepliesAbove(c.s.server, w.cursor);
    }
    StepOf(c, t, floor, id);
  }

  lemma RepliesAbove(server: set<nat>, cursor: nat)
    ensures forall d | d in Reply(server, cursor).docs :: d > cursor
  {
    LotIsConsecutive(server, cursor, BATCH_SIZE);
  }

  lemma CommitIsKept(c: Control, id: nat, now: int, floor: nat)
    requires Kept(c, floor) && Allowed(c, Plain(Commit(id, now)))
    ensures var t := After(c, Plain(Commit(id, now)));
            Kept(t, floor) && t.s.persisted == c.s.persisted
  {
    hide MaxNsu, ShouldContinue, Between;
    var t := After(c, Plain(Commit(id, now)));
    assert GoodWorker(c, id, floor);
    if c.s.workers[id].MainStoring? {
      MaxNsuNeverBelow(c.s.workers[id].answer.docs, c.s.workers[id].cursor);
    }
    StepOf(c, t, floor, id);
  }

  lemma PersistIsKept(c: Control, id: nat, floor: nat)
    requires Kept(c, floor) && Allowed(c, Plain(Persist(id)))
    ensures var t := After(c, Plain(Persist(id)));
            Kept(t, floor) && forall x | x <= floor :: x in t.s.persisted <==> x in c.s.persisted
  {
    hide InRange, Between;
    var t, w := After(c, Plain(Persist(id))), c.s.workers[id];
    assert GoodWorker(c, id, floor);
    if w.MainStoring? {
      assert w.answer.docs[w.done] in w.answer.docs;
    } else {
      assert w.docs[w.done] in w.docs;
    }
    StepOf(c, t, floor, id);
  }

  lemma LeaseIsKept(c: Control, a: Action, floor: nat)
    requires Kept(c, floor) && Allowed(c, Plain(a)) && (a.Claim? || a.SweepExpired?)
    ensures Kept(After(c, Plain(a)), floor) && After(c, Plain(a)).s.persisted == c.s.persisted
  {
    hide MaxNsu, Between, InRange;
    if a.id in c.s.workers {
      assert GoodWorker(c, a.id, floor);
    }
    StepOf(c, After(c, Plain(a)), floor, a.id);
  }

  lemma TurnIsKept(c: Control, a: Action, floor: nat)
    requires Kept(c, floor) && Allowed(c, Plain(a)) && (a.ReadRow? || a.Renew?)
    ensures Kept(After(c, Plain(a)), floor) && After(c, Plain(a)).s.persisted == c.s.persisted
  {
    hide MaxNsu, Between, InRange;
    if a.id in c.s.workers {
      assert GoodWorker(c, a.id, floor);
    }
    StepOf(c, After(c, Plain(a)), floor, a.id);
  }

  lemma CallIsKept(c: Control, a: Action, floor: nat)
    requires Kept(c, floor) && Allowed(c, Plain(a))
    requires a.CallRun? || a.CallConfigure? || a.CallPause? || a.CallRecovery?
    ensures Kept(After(c, Plain(a)), floor) && After(c, Plain(a)).s.persisted == c.s.persisted
  {
    hide MaxNsu, Between, InRange;
    StepOf(c, After(c, Plain(a)), floor, a.id);
  }

  lemma EndIsKept(c: Control, a: Action, floor: nat)
    requires Kept(c, floor) && Allowed(c, Plain(a)) && (a.Vanish? || a.PersistFails? || a.StopAfterError?)
    ensures Kept(After(c, Plain(a)), floor) && After(c, Plain(a)).s.persisted == c.s.persisted
  {
    hide MaxNsu, Between, InRange;
    if a.id in c.s.workers {
      assert GoodWorker(c, a.id, floor);
    }
    StepOf(c, After(c, Plain(a)), floor, a.id);
  }

  lemma PublishedIsKept(c: Control, step: Step, floor: nat)
    requires Kept(c, floor) && Allowed(c, step) && step.Published?
    ensures Kept(After(c, step), floor) && After(c, step).s.persisted == c.s.persisted
  {
    var t := After(c, step);
    if step.earlier {
      PublishingKeepsIntervals(c.earlier, step.nsu, floor, 0, floor);
    }
    forall i | i in t.s.workers ensures GoodWorker(t, i, floor) {
      OthersAreKept(c, t, floor, i);
    }
  }

  lemma StepIsKept(c: Control, step: Step, floor: nat)
    requires Kept(c, floor) && Allowed(c, step)
    ensures Kept(After(c, step), floor)
    ensures forall x | x <= floor :: x in After(c, step).s.persisted <==> x in c.s.persisted
  {
    hide Kept, After, Enabled, StartsRecovery, Publishes;
    match step
    case Plain(Download(id, delivery)) => DownloadIsKept(c, id, delivery, floor);
    case Plain(Commit(id, now)) => CommitIsKept(c, id, now, floor);
    case Plain(Persist(id)) => PersistIsKept(c, id, floor);
    case Plain(Claim(_, _)) => LeaseIsKept(c, step.a, floor);
    case Plain(SweepExpired(_, _, _)) => LeaseIsKept(c, step.a, floor);
    case Plain(ReadRow(_)) => TurnIsKept(c, step.a, floor);
    case Plain(Renew(_, _)) => TurnIsKept(c, step.a, floor);
    case Plain(Vanish(_)) => EndIsKept(c, step.a, floor);
    case Plain(PersistFails(_)) => EndIsKept(c, step.a, floor);
    case Plain(StopAfterError(_, _, _, _)) => EndIsKept(c, step.a, floor);
    case Plain(a) => CallIsKept(c, a, floor);
    case Published(_, _, _) => PublishedIsKept(c, step, floor);
  }

  lemma {:induction false} RunIsKept(c: Control, steps: seq<Step>, t: Control, floor: nat)
    requires Kept(c, floor) && Leads(c, steps, t)
    ensures forall x | x <= floor :: x in t.s.persisted <==> x in c.s.persisted
    decreases |steps|
  {
    hide Kept, After, Allowed;
    if steps != [] {
      StepIsKept(c, steps[0], floor);
      RunIsKept(After(c, steps[0]), steps[1..], t, floor);
    }
  }

  /** Of what the new filter selects at or below the cursor, the main mode never fetches anything, and no execution
      that was under way adds to it: after any run without a recovery it is all there if and only if it was all there
      when the filter was changed. */
  lemma FilterChangeSkipsExactly(s: State, selected: set<nat>, steps: seq<Step>, t: Control)
    requires Inv(s) && !s.row.Recovering() && Leads(Configured(s, selected), steps, t)
    ensures var below := Between(selected, 0, s.row.ultimoNsu);
            && below * t.s.persisted == below * s.persisted
            && (below <= t.s.persisted <==> below <= s.persisted)
  {
    ConfiguredIsKept(s, selected);
    RunIsKept(Configured(s, selected), steps, t, s.row.ultimoNsu);
  }

  // What the steps are

  /** Writing the configuration makes the control active and due, with the new filter, keeps cursor and total, and
      leaves what is under way with the former filter. */
  lemma ConfigurationWrites(s: State, selected: set<nat>)
    ensures var c := Configured(s, selected);
            && c.s.server == selected && c.earlier == s.server && c.former == s.workers.Keys
            && c.s.workers == s.workers && c.s.persisted == s.persisted && c.s.issued == s.issued
            && c.s.row.status == Ativo && c.s.row.proxima.None? && c.s.row.ultimoNsu == s.row.ultimoNsu
            && c.s.row.total == s.row.total
  {
  }

  /** A document is published under the new filter, the former one or both; and an action is the one of the ordinary
      runs, for an execution that has read the new filter on what that selects, for one that has not on what the former
      one does. Only reading the row makes an execution change its filter. */
  lemma StepsMean(c: Control, nsu: nat, selected: bool, earlier: bool, a: Action)
    ensures Allowed(c, Published(nsu, selected, earlier)) ==>
              var t := After(c, Published(nsu, selected, earlier));
              && t.s == c.s.(server := t.s.server) && t.former == c.former
              && t.s.server == c.s.server + (if selected then {nsu} else {})
              && t.earlier == c.earlier + (if earlier then {nsu} else {})
    ensures Allowed(c, Plain(a)) ==>
              var t := After(c, Plain(a));
              && t.earlier == c.earlier && t.s.server == c.s.server
              && (!(a.Download? && a.id in c.former) ==> t.s == Next(c.s, a).(server := c.s.server))
              && (a.Download? && a.id in c.former ==>
                    t.s == Next(c.s.(server := c.earlier), a).(server := c.s.server))
              && (a.ReadRow? && (c.s.workers[a.id].MainReady? || c.s.workers[a.id].RecoveryReady?) ==>
                    t.former == c.former - {a.id})
              && (!a.ReadRow? ==> t.former == c.former)
    ensures Enabled(c.s, a) && !a.Publish? ==>
              (Allowed(c, Plain(a)) <==> !(a.Claim? && c.s.workers[a.id].RecoveryCall?))
  {
  }
}
