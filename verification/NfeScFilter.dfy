/** Changing the filter of an NF-e control. The filter decides which NSUs the service hands out. The configuration
    call lets it change only while the cursor is zero, but it checks that before it writes, and an execution that
    was paused still has the documents of the filter it read. */
module NfeScFilter {
  import opened Options
  import opened NsuServer
  import opened NfeScControl
  import opened NfeScRuns

  datatype IndAtor = Emitente | Destinatario | EmitenteOuDestinatario | EmitenteEDestinatario

  /** The control with what the service selects under each filter, the filter of its row, the filter that the
      execution has read, and the configuration calls that have passed their checks. */
  datatype Control = Control(s: State, services: IndAtor -> set<nat>, filter: IndAtor, reading: IndAtor,
      requests: map<nat, IndAtor>)

  datatype Step =
    | Plain(a: Action)
    | Published(nsu: nat, to: set<IndAtor>)
    | AskFilter(id: nat, filter: IndAtor)
    | DropRequest(id: nat)
    | ApplyFilter(id: nat)

  /** The collector as it looks to somebody who works with one filter. */
  function Seen(c: Control, filter: IndAtor): State {
    c.s.(server := c.services(filter))
  }

  /** The execution works with a row that it has read. */
  predicate HasRead(s: State) {
    s.worker.Some? && (s.worker.value.Read? || s.worker.value.Waiting? || s.worker.value.Storing?)
  }

  /** No claim issues the lease that an execution still carries. */
  predicate LeaseIsNew(s: State, a: Action) {
    a.FinishCall? && HasRead(s) ==> NewLease(a.now) != s.worker.value.token
  }

  predicate Allowed(c: Control, step: Step) {
    match step
    case Plain(a) => !a.Publish? && !a.CallConfigure? && Enabled(c.s, a) && LeaseIsNew(c.s, a)
    case Published(nsu, to) => forall f | f in to :: Publishes(c.services(f), nsu)
    case AskFilter(id, filter) =>
      id !in c.requests && c.s.row.status != Processando && (c.s.row.ultimoNsu == 0 || filter == c.filter)
    case DropRequest(id) => id in c.requests
    case ApplyFilter(id) => id in c.requests
  }

  function After(c: Control, step: Step): Control
    requires Allowed(c, step)
  {
    match step
    case Plain(a) =>
      var anew := a.ReadRow? && c.s.worker.Some? && c.s.worker.value.Ready?;
      c.(s := Next(Seen(c, c.reading), a), reading := if anew then c.filter else c.reading,
         requests := if a.Restart? then map[] else c.requests)
    case Published(nsu, to) => c.(services := f => if f in to then c.services(f) + {nsu} else c.services(f))
    case AskFilter(id, filter) => c.(requests := c.requests[id := filter])
    case DropRequest(id) => c.(requests := c.requests - {id})
    case ApplyFilter(id) =>
      c.(s := c.s.(row := Configure(c.s.row)), filter := c.requests[id], requests := c.requests - {id})
  }

  ghost predicate Leads(c: Control, steps: seq<Step>, t: Control)
    decreases |steps|
  {
    if steps == [] then c == t else Allowed(c, steps[0]) && Leads(After(c, steps[0]), steps[1..], t)
  }

  predicate Changes(c: Control, step: Step) {
    step.ApplyFilter? && step.id in c.requests && c.requests[step.id] != c.filter
  }

  /** `t` is reached without another change of the filter. */
  ghost predicate LeadsUnchanged(c: Control, steps: seq<Step>, t: Control)
    decreases |steps|
  {
    if steps == [] then c == t
    else Allowed(c, steps[0]) && !Changes(c, steps[0]) && LeadsUnchanged(After(c, steps[0]), steps[1..], t)
  }

  // What is to be kept, and what a change leaves behind

  /** Cursor, total and ledger, with `more` entries, belong to the NSUs of `filter`. */
  ghost predicate InStepWith(c: Control, filter: IndAtor, more: set<nat>) {
    && IsCursor(c.services(filter), c.s.row.ultimoNsu)
    && c.s.row.total == |Between(c.services(filter), 0, c.s.row.ultimoNsu)|
    && LedgerInStep(c.services(filter), c.s.ledger + more, c.s.row.ultimoNsu)
  }

  ghost predicate InStep(c: Control) {
    InStepWith(c, c.filter, {})
  }

  /** The execution works with another filter. */
  predicate Stale(c: Control, filter: IndAtor) {
    HasRead(c.s) && c.reading != filter
  }

  /** The entry that such an execution will still write: it only learns from the transaction that writes it that the
      control was taken from it. */
  function Pending(c: Control, filter: IndAtor): set<nat> {
    if !Stale(c, filter) then {}
    else
      match c.s.worker.value
      case Waiting(_, cursor) =>
        var waiting := Above(c.services(c.reading), cursor);
        if waiting == {} then {} else {Least(waiting)}
      case Storing(_, _, docs, done, _) => if done < |docs| then {docs[done]} else {}
      case _ => {}
  }

  /** The execution waits for the answer to a download under another filter, which has nothing for it yet. */
  predicate WaitsForNothing(c: Control, filter: IndAtor) {
    Stale(c, filter) && c.s.worker.value.Waiting? && Above(c.services(c.reading), c.s.worker.value.cursor) == {}
  }

  /** The control is in step with `filter`, and what is pending under another one will not change that. */
  ghost predicate Fits(c: Control, filter: IndAtor) {
    InStepWith(c, filter, Pending(c, filter)) && !WaitsForNothing(c, filter)
  }

  /** What holds whatever filters are applied: the execution is in order for the filter it has read, and if that is
      not the filter of the row, the control was taken from it. */
  ghost predicate Base(c: Control) {
    && (forall f :: 0 !in c.services(f))
    && c.s.ledger <= c.s.persisted
    && (c.s.row.ultimoNsu == 0 ==> c.s.row.total == 0)
    && (c.s.worker.Some? ==> GoodWorker(Seen(c, c.reading), c.s.worker.value))
    && (Stale(c, c.filter) ==> !c.s.row.Held(c.s.worker.value.token))
  }

  ghost predicate Starts(c: Control) {
    && c.s.row == NEW_ROW && c.s.ledger == {} && c.s.worker.None? && c.s.calls == map[] && c.requests == map[]
    && forall f :: 0 !in c.services(f)
  }

  // Every step keeps the base

  /** An execution in order stays in order, whatever the ledger. */
  lemma StepKeepsWorker(s: State, a: Action)
    requires Enabled(s, a) && !a.Publish?
    requires s.worker.Some? ==> GoodWorker(s, s.worker.value)
    ensures Next(s, a).worker.Some? ==> GoodWorker(Next(s, a), Next(s, a).worker.value)
  {
    hide Consecutive, Above, Lot;
    if a.Download? && s.worker.value.Waiting? {
      LotIsConsecutive(s.server, s.worker.value.cursor, BATCH_SIZE);
    }
    if a.RecordDocument? && s.worker.value.Storing? {
      var docs, done := s.worker.value.docs, s.worker.value.done;
      assert done < |docs| ==> docs[..done + 1] == docs[..done] + [docs[done]];
    }
  }

  lemma StepKeepsCounts(s: State, a: Action)
    requires Enabled(s, a) && !a.Publish? && s.ledger <= s.persisted && (s.row.ultimoNsu == 0 ==> s.row.total == 0)
    requires s.worker.Some? ==> GoodWorker(s, s.worker.value)
    ensures Next(s, a).ledger <= Next(s, a).persisted
    ensures Next(s, a).row.ultimoNsu == 0 ==> Next(s, a).row.total == 0
    ensures s.row.ultimoNsu <= Next(s, a).row.ultimoNsu
  {
    hide Above, Lot;
    if a.RecordDocument? {
      match s.worker.value
      case Storing(_, origin, docs, done, true) => NextEntryIsLeast(s.server, origin, docs, done);
      case _ =>
    }
  }

  lemma StaleStaysOut(c: Control, a: Action)
    requires Base(c) && Allowed(c, Plain(a)) && Stale(After(c, Plain(a)), c.filter)
    ensures Stale(c, c.filter)
    ensures var w, w' := c.s.worker.value, After(c, Plain(a)).s.worker.value;
            w'.token == w.token && !After(c, Plain(a)).s.row.Held(w'.token)
  {
    hide Above, Lot, Between;
  }

  lemma StepKeepsBase(c: Control, step: Step)
    requires Base(c) && Allowed(c, step)
    ensures Base(After(c, step))
  {
    match step
    case Plain(a) =>
      hide Next, GoodWorker;
      StepKeepsWorker(Seen(c, c.reading), a);
      StepKeepsCounts(Seen(c, c.reading), a);
      if After(c, step).s.worker.Some? {
        ReadingIsFree(c, a);
      }
      if Stale(After(c, step), c.filter) {
        StaleStaysOut(c, a);
      }
    case Published(nsu, to) =>
      if c.s.worker.Some? && c.s.worker.value.Storing? && c.reading in to {
        PublishingKeepsConsecutive(c.services(c.reading), nsu, c.s.worker.value.origin, c.s.worker.value.docs);
      }
    case _ =>
  }

  /** An execution that has just read the row has downloaded nothing yet. */
  lemma ReadingIsFree(c: Control, a: Action)
    requires Allowed(c, Plain(a)) && Next(Seen(c, c.reading), a).worker.Some?
    requires GoodWorker(Next(Seen(c, c.reading), a), Next(Seen(c, c.reading), a).worker.value)
    ensures var t := After(c, Plain(a)); GoodWorker(Seen(t, t.reading), t.s.worker.value)
  {
  }

  lemma {:induction false} RunKeepsBase(c: Control, steps: seq<Step>, t: Control)
    requires Base(c) && Leads(c, steps, t)
    ensures Base(t)
    decreases |steps|
  {
    hide Base, After;
    if steps != [] {
      StepKeepsBase(c, steps[0]);
      RunKeepsBase(After(c, steps[0]), steps[1..], t);
    }
  }

  lemma StartIsGood(c: Control)
    requires Starts(c)
    ensures Base(c) && Fits(c, c.filter)
  {
    assert Between(c.services(c.filter), 0, 0) == {};
  }

  // A control that fits stays in step

  /** A control whose execution has read the current filter, or nothing yet, is an ordinary one. */
  lemma OrdinaryControl(c: Control)
    requires Base(c) && !Stale(c, c.filter)
    ensures Fits(c, c.filter) <==> Inv(Seen(c, c.filter))
    ensures InStep(c) <==> Inv(Seen(c, c.filter))
  {
    hide LedgerInStep, Between, IsCursor;
    assert c.s.ledger + {} == c.s.ledger;
  }

  /** The pending entry lies above the cursor. */
  lemma PendingIsAhead(c: Control, filter: IndAtor, x: nat)
    requires Base(c) && x in Pending(c, filter)
    ensures x > c.s.row.ultimoNsu
  {
    match c.s.worker.value
    case Storing(_, origin, docs, done, _) => NextEntryIsLeast(c.services(c.reading), origin, docs, done);
    case _ =>
  }

  lemma FittingIsInStep(c: Control)
    requires Base(c) && Fits(c, c.filter)
    ensures InStep(c)
  {
    hide Base, Pending;
    forall x | x in Between(c.services(c.filter), 0, c.s.row.ultimoNsu) ensures x in c.s.ledger {
      if x in Pending(c, c.filter) {
        PendingIsAhead(c, c.filter, x);
      }
    }
  }

  /** What an action does to a control does not depend on the service while nothing is being downloaded. */
  lemma ServiceDoesNotMatter(c: Control, a: Action)
    requires Allowed(c, Plain(a)) && !Stale(c, c.filter)
    ensures After(c, Plain(a)).s.(server := {}) == Next(Seen(c, c.filter), a).(server := {})
    ensures Next(Seen(c, c.filter), a).server == c.services(c.filter)
  {
    hide Above, Lot;
  }

  lemma OrdinaryStepFits(c: Control, a: Action)
    requires Base(c) && Fits(c, c.filter) && Allowed(c, Plain(a)) && !Stale(c, c.filter)
    ensures Fits(After(c, Plain(a)), c.filter)
  {
    hide Base, Fits, Inv, Next, Stale;
    StepKeepsBase(c, Plain(a));
    OrdinaryControl(c);
    NextKeepsInv(Seen(c, c.filter), a);
    ServiceDoesNotMatter(c, a);
    var t := After(c, Plain(a));
    assert Seen(t, t.filter) == Next(Seen(c, c.filter), a);
    assert !Stale(t, t.filter) by {
      if Stale(t, c.filter) {
        StaleStaysOut(c, a);
      }
    }
    OrdinaryControl(t);
  }

  /** The first entry of a lot is the least NSU above the cursor. */
  lemma LotStartsWithLeast(server: set<nat>, cursor: nat)
    requires Above(server, cursor) != {}
    ensures var docs := Lot(server, cursor);
            0 < |docs| <= BATCH_SIZE && Consecutive(server, cursor, docs) && docs[0] == Least(Above(server, cursor))
  {
    LotIsConsecutive(server, cursor, BATCH_SIZE);
    NextEntryIsLeast(server, cursor, Lot(server, cursor), 0);
  }

  /** Until its entry is written or the execution ends, what is pending stays pending. */
  lemma StaleStep(c: Control, a: Action)
    requires Base(c) && Allowed(c, Plain(a)) && Stale(c, c.filter) && !WaitsForNothing(c, c.filter)
    ensures var t := After(c, Plain(a));
            && t.s.row.ultimoNsu == c.s.row.ultimoNsu && t.s.row.total == c.s.row.total
            && c.s.ledger <= t.s.ledger
            && t.s.ledger + Pending(t, t.filter) <= c.s.ledger + Pending(c, c.filter)
            && !WaitsForNothing(t, t.filter)
  {
    hide Above, Lot, Consecutive;
    if a.Download? && c.s.worker.value.Waiting? {
      LotStartsWithLeast(c.services(c.reading), c.s.worker.value.cursor);
    }
  }

  lemma FewerStayInStep(server: set<nat>, fewer: set<nat>, more: set<nat>, cursor: nat)
    requires LedgerInStep(server, more, cursor) && fewer <= more && Between(server, 0, cursor) <= fewer
    ensures LedgerInStep(server, fewer, cursor)
  {
  }

  lemma StaleStepFits(c: Control, a: Action)
    requires Base(c) && Fits(c, c.filter) && Allowed(c, Plain(a)) && Stale(c, c.filter)
    ensures Fits(After(c, Plain(a)), c.filter)
  {
    hide Base, Pending, Next, Stale, LedgerInStep, WaitsForNothing;
    var t := After(c, Plain(a));
    StaleStep(c, a);
    FittingIsInStep(c);
    assert Between(c.services(c.filter), 0, c.s.row.ultimoNsu) <= c.s.ledger by {
      assert c.s.ledger + {} == c.s.ledger;
      LedgerHasPassed(c.services(c.filter), c.s.ledger, c.s.row.ultimoNsu);
    }
    FewerStayInStep(c.services(c.filter), t.s.ledger + Pending(t, t.filter), c.s.ledger + Pending(c, c.filter),
        c.s.row.ultimoNsu);
  }

  lemma LedgerHasPassed(server: set<nat>, ledger: set<nat>, cursor: nat)
    requires LedgerInStep(server, ledger, cursor)
    ensures Between(server, 0, cursor) <= ledger
  {
  }

  lemma GrownLedgerInStep(server: set<nat>, nsu: nat, ledger: set<nat>, cursor: nat)
    requires Publishes(server, nsu) && IsCursor(server, cursor) && LedgerInStep(server, ledger, cursor)
    ensures LedgerInStep(server + {nsu}, ledger, cursor)
    ensures Between(server + {nsu}, 0, cursor) == Between(server, 0, cursor)
  {
    var grown := server + {nsu};
    PublishingKeepsIntervals(server, nsu, cursor, 0, cursor);
    forall x | x in ledger ensures x in Between(grown, 0, cursor) || IsLeast(Above(grown, cursor), x) {
      if IsLeast(Above(server, cursor), x) {
        assert Above(grown, cursor) <= Above(server, cursor) + {nsu};
      }
    }
  }

  lemma PublishingKeepsLeast(server: set<nat>, nsu: nat, cursor: nat)
    requires Publishes(server, nsu) && Above(server, cursor) != {}
    ensures Above(server + {nsu}, cursor) != {}
    ensures Least(Above(server + {nsu}, cursor)) == Least(Above(server, cursor))
  {
    var least := Least(Above(server, cursor));
    forall x | x in Above(server + {nsu}, cursor) ensures least <= x {
      assert x == nsu || x in Above(server, cursor);
    }
    assert least in Above(server, cursor) && least in Above(server + {nsu}, cursor);
  }

  lemma PublishingFits(c: Control, nsu: nat, to: set<IndAtor>)
    requires Base(c) && Fits(c, c.filter) && Allowed(c, Published(nsu, to))
    ensures Fits(After(c, Published(nsu, to)), c.filter)
  {
    var t := After(c, Published(nsu, to));
    assert Pending(t, c.filter) == Pending(c, c.filter) && !WaitsForNothing(t, c.filter) by {
      if c.reading in to && Stale(c, c.filter) && c.s.worker.value.Waiting? {
        PublishingKeepsLeast(c.services(c.reading), nsu, c.s.worker.value.cursor);
      }
    }
    hide Base, Pending, LedgerInStep, WaitsForNothing;
    if c.filter in to {
      GrownLedgerInStep(c.services(c.filter), nsu, c.s.ledger + Pending(c, c.filter), c.s.row.ultimoNsu);
    }
  }

  /** Applying the filter that the row has, like any other configuration, leaves everything pending as it is. */
  lemma ApplyingFits(c: Control, id: nat)
    requires id in c.requests
    ensures Fits(After(c, ApplyFilter(id)), c.requests[id]) <==> Fits(c, c.requests[id])
  {
    hide LedgerInStep;
  }

  lemma StepFits(c: Control, step: Step)
    requires Base(c) && Fits(c, c.filter) && Allowed(c, step) && !Changes(c, step)
    ensures Fits(After(c, step), After(c, step).filter)
  {
    hide Base, Stale;
    match step
    case Plain(a) => if Stale(c, c.filter) { StaleStepFits(c, a); } else { OrdinaryStepFits(c, a); }
    case Published(nsu, to) => PublishingFits(c, nsu, to);
    case ApplyFilter(id) => ApplyingFits(c, id);
    case _ => AskingFits(c, step);
  }

  lemma AskingFits(c: Control, step: Step)
    requires Fits(c, c.filter) && Allowed(c, step) && (step.AskFilter? || step.DropRequest?)
    ensures Fits(After(c, step), c.filter)
  {
    hide LedgerInStep;
  }

  lemma {:induction false} FittingStaysInStep(c: Control, steps: seq<Step>, t: Control)
    requires Base(c) && Fits(c, c.filter) && LeadsUnchanged(c, steps, t)
    ensures InStep(t)
    decreases |steps|
  {
    hide Base, Fits, InStep, After, Changes;
    if steps == [] {
      FittingIsInStep(c);
    } else {
      StepKeepsBase(c, steps[0]);
      StepFits(c, steps[0]);
      FittingStaysInStep(After(c, steps[0]), steps[1..], t);
    }
  }

  // One that does not fit gets out of step

  ghost predicate StaysInStep(c: Control) {
    forall steps, t | LeadsUnchanged(c, steps, t) :: InStep(t)
  }

  lemma Sooner(c: Control, step: Step)
    requires Allowed(c, step) && !Changes(c, step) && !StaysInStep(After(c, step))
    ensures !StaysInStep(c)
  {
    hide InStep, After, Changes;
    var steps, t :| LeadsUnchanged(After(c, step), steps, t) && !InStep(t);
    assert ([step] + steps)[1..] == steps;
    assert LeadsUnchanged(c, [step] + steps, t);
  }

  lemma OutOfStep(c: Control)
    requires !InStep(c)
    ensures !StaysInStep(c)
  {
    assert LeadsUnchanged(c, [], c);
  }

  /** The transaction writes the pending entry and only then finds that the control was taken away. */
  lemma EntryIsWritten(c: Control)
    requires Base(c) && Stale(c, c.filter) && !InStepWith(c, c.filter, Pending(c, c.filter))
    requires c.s.worker.value.Storing? && c.s.worker.value.filed
    ensures !StaysInStep(c)
  {
    hide StaysInStep, LedgerInStep, IsCursor, Between;
    var t := After(c, Plain(RecordDocument));
    assert t.s.ledger + {} == c.s.ledger + Pending(c, c.filter);
    OutOfStep(t);
    Sooner(c, Plain(RecordDocument));
  }

  lemma EntryIsFiled(c: Control)
    requires Base(c) && Stale(c, c.filter) && !InStepWith(c, c.filter, Pending(c, c.filter))
    requires c.s.worker.value.Storing? && !c.s.worker.value.filed && c.s.worker.value.done < |c.s.worker.value.docs|
    ensures !StaysInStep(c)
  {
    hide StaysInStep, LedgerInStep, IsCursor, Between;
    var t := After(c, Plain(FileDocument));
    StepKeepsBase(c, Plain(FileDocument));
    assert t.s.worker.value == c.s.worker.value.(filed := true);
    EntryIsWritten(t);
    Sooner(c, Plain(FileDocument));
  }

  lemma LotArrives(c: Control)
    requires Base(c) && Stale(c, c.filter) && !InStepWith(c, c.filter, Pending(c, c.filter))
    requires c.s.worker.value.Waiting? && !WaitsForNothing(c, c.filter)
    ensures !StaysInStep(c)
  {
    hide StaysInStep, LedgerInStep, IsCursor, Between, Lot, Above, Consecutive;
    var t := After(c, Plain(Download(Replied)));
    StepKeepsBase(c, Plain(Download(Replied)));
    LotStartsWithLeast(c.services(c.reading), c.s.worker.value.cursor);
    assert Pending(t, t.filter) == Pending(c, c.filter);
    EntryIsFiled(t);
    Sooner(c, Plain(Download(Replied)));
  }

  lemma {:induction false} HigherThan(s: set<nat>) returns (n: nat)
    ensures n > 0 && forall x | x in s :: x < n
    decreases |s|
  {
    if s == {} {
      n := 1;
    } else {
      var x :| x in s;
      var m := HigherThan(s - {x});
      n := if m <= x then x + 1 else m;
      assert s == (s - {x}) + {x};
    }
  }

  /** Something is published under the filter of the execution alone. */
  lemma EntryIsPublished(c: Control)
    requires Base(c) && InStep(c) && WaitsForNothing(c, c.filter)
    ensures !StaysInStep(c)
  {
    hide StaysInStep;
    var n := HigherThan(c.services(c.reading) + c.services(c.filter) + {c.s.row.ultimoNsu});
    var step := Published(n, {c.reading});
    var t := After(c, step);
    StepKeepsBase(c, step);
    assert t.services(c.filter) == c.services(c.filter);
    assert n in Above(t.services(c.reading), c.s.worker.value.cursor);
    assert Pending(t, t.filter) == {n};
    assert !InStepWith(t, t.filter, {n}) by {
      assert n in t.s.ledger + {n} && n !in t.services(t.filter);
    }
    LotArrives(t);
    Sooner(c, step);
  }

  /** Whatever happens, short of another change of the filter, the control stays in step with its filter if and only
      if it is in step now, also with the entry that a paused execution of another filter still has to write. */
  lemma StaysInStepExactly(c: Control)
    requires Base(c)
    ensures StaysInStep(c) <==> Fits(c, c.filter)
  {
    hide Base, LedgerInStep, Stale;
    if Fits(c, c.filter) {
      forall steps, t | LeadsUnchanged(c, steps, t) ensures InStep(t) {
        FittingStaysInStep(c, steps, t);
      }
    } else {
      NotFitting(c);
    }
  }

  lemma NotFitting(c: Control)
    requires Base(c) && !Fits(c, c.filter)
    ensures !StaysInStep(c)
  {
    hide Base, LedgerInStep, StaysInStep, IsCursor, Between;
    if !InStep(c) {
      OutOfStep(c);
    } else if WaitsForNothing(c, c.filter) {
      EntryIsPublished(c);
    } else {
      assert Stale(c, c.filter) && Pending(c, c.filter) != {};
      if c.s.worker.value.Waiting? {
        LotArrives(c);
      } else if c.s.worker.value.filed {
        EntryIsWritten(c);
      } else {
        EntryIsFiled(c);
      }
    }
  }

  /** What applying a filter does, on every control that a run reaches: read off the control before it. */
  lemma ApplyingKeepsLedgerExactly(start: Control, steps: seq<Step>, c: Control, id: nat)
    requires Starts(start) && Leads(start, steps, c) && id in c.requests
    ensures StaysInStep(After(c, ApplyFilter(id))) <==> Fits(c, c.requests[id])
  {
    hide Base, Fits, StaysInStep;
    StartIsGood(start);
    RunKeepsBase(start, steps, c);
    StepKeepsBase(c, ApplyFilter(id));
    StaysInStepExactly(After(c, ApplyFilter(id)));
    ApplyingFits(c, id);
  }

  /** At cursor zero, where the guard lets another filter through, that means: what the ledger holds and what is
      pending is the first NSU of the new filter, and no download under the old one is waiting for its first. */
  lemma GuardKeepsLedgerExactly(start: Control, steps: seq<Step>, c: Control, id: nat)
    requires Starts(start) && Leads(start, steps, c) && id in c.requests && c.s.row.ultimoNsu == 0
    ensures StaysInStep(After(c, ApplyFilter(id))) <==>
              var filter := c.requests[id];
              && (forall x | x in c.s.ledger + Pending(c, filter) :: IsLeast(Above(c.services(filter), 0), x))
              && !WaitsForNothing(c, filter)
  {
    hide StaysInStep, Pending, WaitsForNothing, Above;
    ApplyingKeepsLedgerExactly(start, steps, c, id);
    StartIsGood(start);
    RunKeepsBase(start, steps, c);
    assert Between(c.services(c.requests[id]), 0, 0) == {};
  }

  /** Above zero a newly selected NSU at or below the cursor that the ledger does not have is missing from then on. */
  lemma WithoutGuardEntriesAreMissing(start: Control, steps: seq<Step>, c: Control, id: nat, missed: nat)
    requires Starts(start) && Leads(start, steps, c) && id in c.requests
    requires missed in c.services(c.requests[id]) && 0 < missed <= c.s.row.ultimoNsu && missed !in c.s.ledger
    ensures !StaysInStep(After(c, ApplyFilter(id)))
  {
    hide StaysInStep, Pending;
    ApplyingKeepsLedgerExactly(start, steps, c, id);
    assert missed in Between(c.services(c.requests[id]), 0, c.s.row.ultimoNsu);
    StartIsGood(start);
    RunKeepsBase(start, steps, c);
    if missed in Pending(c, c.requests[id]) {
      PendingIsAhead(c, c.requests[id], missed);
    }
  }

  /** A run in which every filter that is applied fits. */
  ghost predicate LeadsFitting(c: Control, steps: seq<Step>, t: Control)
    decreases |steps|
  {
    if steps == [] then c == t
    else
      && Allowed(c, steps[0])
      && (steps[0].ApplyFilter? ==> Fits(c, c.requests[steps[0].id]))
      && LeadsFitting(After(c, steps[0]), steps[1..], t)
  }

  /** Over such a run the ledger is exact for the filter of the row at every moment, however often it changes. */
  lemma {:induction false} FittingRunsAreInStep(c: Control, steps: seq<Step>, t: Control)
    requires Base(c) && Fits(c, c.filter) && LeadsFitting(c, steps, t)
    ensures InStep(t)
    decreases |steps|
  {
    hide Base, Fits, InStep;
    if steps == [] {
      FittingIsInStep(c);
    } else {
      StepKeepsBase(c, steps[0]);
      if steps[0].ApplyFilter? {
        ApplyingFits(c, steps[0].id);
      } else {
        StepFits(c, steps[0]);
      }
      FittingRunsAreInStep(After(c, steps[0]), steps[1..], t);
    }
  }

  // Two runs in which the guard does not help

  lemma {:induction false} OneMore(c: Control, steps: seq<Step>, t: Control, step: Step)
    requires Leads(c, steps, t) && Allowed(t, step)
    ensures Leads(c, steps + [step], After(t, step))
    decreases |steps|
  {
    hide After, Allowed;
    if steps == [] {
      assert [step][1..] == [];
      assert steps + [step] == [step];
      assert Leads(After(c, step), [], After(t, step));
    } else {
      assert (steps + [step])[1..] == steps[1..] + [step];
      OneMore(After(c, steps[0]), steps[1..], t, step);
    }
  }

  /** A new control, whose service has document 1 for the issuer and document 2 for the recipient. */
  ghost predicate TwoServices(c: Control) {
    && Starts(c) && c.filter == c.reading == Emitente
    && c.services(Emitente) == {1} && c.services(Destinatario) == {2}
  }

  /** An execution that holds the lot [1] under the issuer's filter, in a control with cursor zero. */
  predicate HoldsLot(c: Control) {
    && c.s.row == Row(Processando, Some(NewLease(0)), 0, 0) && IssuersControl(c)
    && c.s.worker == Some(Storing(NewLease(0), 0, [1], 0, false))
  }

  lemma LotOfOne()
    ensures Lot({1}, 0) == [1] && Above({1}, 0) != {}
  {
    LotIsConsecutive({1}, 0, BATCH_SIZE);
    LotConsumes({1}, 0);
    assert Above({1}, 0) == {1};
  }

  predicate IssuersControl(c: Control) {
    && c.s.ledger == {} && c.s.calls == map[] && c.filter == c.reading == Emitente
    && c.services(Emitente) == {1} && c.services(Destinatario) == {2}
  }

  lemma ControlIsClaimed(start: Control, steps: seq<Step>, c: Control) returns (more: seq<Step>, t: Control)
    requires Leads(start, steps, c) && c.s.row == NEW_ROW && c.s.worker.None? && IssuersControl(c)
    ensures Leads(start, more, t) && t.requests == c.requests && IssuersControl(t)
    ensures t.s.row == Row(Processando, Some(NewLease(0)), 0, 0) && t.s.worker == Some(Ready(NewLease(0)))
  {
    hide Leads;
    more, t := Then(start, steps, c, Plain(CallRun(0, 0)));
    more, t := Then(start, more, t, Plain(FinishCall(0, 0)));
    more, t := Then(start, more, t, Plain(FinishCall(0, 0)));
  }

  lemma LotIsHeld(start: Control, steps: seq<Step>, c: Control) returns (more: seq<Step>, t: Control)
    requires Leads(start, steps, c) && c.s.row == NEW_ROW && c.s.worker.None? && IssuersControl(c)
    ensures Leads(start, more, t) && HoldsLot(t) && t.requests == c.requests
  {
    hide Lot, Above, Leads;
    LotOfOne();
    more, t := ControlIsClaimed(start, steps, c);
    more, t := Then(start, more, t, Plain(ReadRow));
    more, t := Then(start, more, t, Plain(Renewal(0)));
    more, t := Then(start, more, t, Plain(Download(Replied)));
  }

  lemma Then(start: Control, steps: seq<Step>, c: Control, step: Step) returns (more: seq<Step>, t: Control)
    requires Leads(start, steps, c) && Allowed(c, step)
    ensures Leads(start, more, t) && t == After(c, step)
  {
    OneMore(start, steps, c, step);
    more, t := steps + [step], After(c, step);
  }

  /** A control is paused while its execution holds a lot, and another filter is applied. The cursor is still zero
      and the ledger empty, so the guard lets it through; the execution then writes an entry of the old filter. */
  lemma PausedExecutionLeavesItsEntry(start: Control) returns (steps: seq<Step>, c: Control)
    requires TwoServices(start)
    ensures Leads(start, steps, c) && 0 in c.requests && c.requests[0] == Destinatario
    ensures c.s.row == Row(Pausado, None, 0, 0) && c.s.ledger == {}
    ensures !StaysInStep(After(c, ApplyFilter(0)))
  {
    hide StaysInStep;
    assert Leads(start, [], start);
    hide Leads;
    steps, c := LotIsHeld(start, [], start);
    steps, c := Then(start, steps, c, Plain(CallPause));
    steps, c := Then(start, steps, c, AskFilter(0, Destinatario));
    GuardKeepsLedgerExactly(start, steps, c, 0);
    assert 1 in c.s.ledger + Pending(c, Destinatario) && !IsLeast(Above(c.services(Destinatario), 0), 1);
  }

  /** The guard is checked at cursor zero, an execution moves the cursor, and only then the filter is written. */
  lemma GuardIsOvertaken(start: Control) returns (steps: seq<Step>, c: Control)
    requires TwoServices(start)
    ensures Leads(start, steps, c) && 0 in c.requests && c.requests[0] == Destinatario
    ensures c.filter == Emitente && c.s.row.ultimoNsu == 1
    ensures !StaysInStep(After(c, ApplyFilter(0)))
  {
    hide StaysInStep, Leads;
    steps, c := Then(start, [], start, AskFilter(0, Destinatario));
    steps, c := LotIsHeld(start, steps, c);
    steps, c := Then(start, steps, c, Plain(FileDocument));
    steps, c := Then(start, steps, c, Plain(RecordDocument));
    ApplyingKeepsLedgerExactly(start, steps, c, 0);
  }

  // What the steps are

  /** The guard: a configuration passes its checks only while the control does not run, and with another filter only at
      cursor zero. What passed is remembered until it is written or lost; a restart loses everything. Writing it makes
      the control active, with that filter, and keeps cursor, total, ledger and what is under way. */
  lemma ConfigurationMeans(c: Control, id: nat, filter: IndAtor)
    ensures Allowed(c, AskFilter(id, filter)) <==>
              && id !in c.requests && c.s.row.status != Processando && (filter != c.filter ==> c.s.row.ultimoNsu == 0)
    ensures Allowed(c, AskFilter(id, filter)) ==>
              After(c, AskFilter(id, filter)) == c.(requests := c.requests[id := filter])
    ensures id in c.requests ==> After(c, DropRequest(id)) == c.(requests := c.requests - {id})
    ensures Allowed(c, Plain(Restart)) && After(c, Plain(Restart)).requests == map[]
    ensures id in c.requests ==>
              var t := After(c, ApplyFilter(id));
              && t.filter == c.requests[id] && t.reading == c.reading && t.requests == c.requests - {id}
              && t.services == c.services && t.s == c.s.(row := t.s.row) && t.s.row.status == Ativo
              && t.s.row == c.s.row.(status := Ativo)
  {
  }

  /** Any other action is the one of the ordinary runs on what the filter of the execution selects; only an execution at
      the top of its loop takes the filter of the row. */
  lemma ActionsMean(c: Control, a: Action)
    requires Allowed(c, Plain(a))
    ensures !a.CallConfigure? && !a.Publish?
    ensures var t := After(c, Plain(a));
            && t.s == Next(Seen(c, c.reading), a) && t.filter == c.filter && t.services == c.services
            && (!a.Restart? ==> t.requests == c.requests)
            && (a.ReadRow? && c.s.worker.value.Ready? ==> t.reading == c.filter)
            && (!(a.ReadRow? && c.s.worker.value.Ready?) ==> t.reading == c.reading)
  {
  }

  /** A document is published under the filters it falls under. */
  lemma PublishingMeans(c: Control, nsu: nat, to: set<IndAtor>, f: IndAtor)
    requires Allowed(c, Published(nsu, to))
    ensures var t := After(c, Published(nsu, to));
            && t == c.(services := t.services)
            && t.services(f) == (if f in to then c.services(f) + {nsu} else c.services(f))
            && (f in to ==> forall x | x in c.services(f) :: x < nsu)
  {
  }
}
