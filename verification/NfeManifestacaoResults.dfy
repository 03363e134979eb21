/** What becomes of single attempts over whole runs, and what the discipline does not cover. */
module NfeManifestacaoResults {
  import opened Options
  import opened NfeManifestacao
  import opened NfeManifestacaoRuns

  // Rows that nothing changes any more

  /** The attempt has a result, and no answer to it is outstanding. */
  predicate Settled(s: State, i: nat) {
    i < |s.attempts| && !Pendente(s.attempts[i].status) && i !in s.inFlight
  }

  lemma {:induction false} MarkingLeavesOthers(attempts: seq<Attempt>, ids: seq<nat>, now: int, i: nat)
    requires (forall k | 0 <= k < |ids| :: ids[k] < |attempts|) && i < |attempts|
    requires i !in ids || attempts[i].status == Indeterminado
    ensures StaleMarked(attempts, ids, now)[i] == attempts[i]
    decreases |ids|
  {
    hide UpdateFits;
    if ids != [] {
      var a := attempts[ids[0]];
      MarkingLeavesOthers(
        if a.status == Enviando && a.enviadoEm <= now - STALE_ATTEMPT_MS then Updated(attempts, ids[0], Indeterminado)
          else attempts,
        ids[1..], now, i);
    }
  }

  lemma {:induction false} ConfirmingLeavesOthers(attempts: seq<Attempt>, ids: seq<nat>, events: seq<Imported>, i: nat)
    requires (forall k | 0 <= k < |ids| :: ids[k] < |attempts|) && i < |attempts| && i !in ids
    ensures Confirmed(attempts, ids, events)[i] == attempts[i]
    decreases |ids|
  {
    hide UpdateFits, Official;
    if ids != [] {
      var official := Official(events, attempts[ids[0]]);
      if official.None? {
        ConfirmingLeavesOthers(attempts, ids[1..], events, i);
      } else if UpdateFits(attempts, ids[0], official.value) {
        ConfirmingLeavesOthers(Updated(attempts, ids[0], official.value), ids[1..], events, i);
      }
    }
  }

  lemma ReconcilingLeavesSettled(attempts: seq<Attempt>, documento: nat, cliente: nat, events: seq<Imported>, now: int,
      i: nat)
    requires i < |attempts| && !Pendente(attempts[i].status)
    ensures Reconciled(attempts, documento, cliente, events, now)[i] == attempts[i]
  {
    hide StaleMarked, Confirmed, PendingIds;
    var ids := PendingIds(attempts, documento, cliente);
    MarkingLeavesOthers(attempts, ids, now, i);
    ConfirmingLeavesOthers(StaleMarked(attempts, ids, now), ids, events, i);
  }

  lemma NextKeepsSettled(s: State, step: Step, i: nat)
    requires Settled(s, i)
    ensures Settled(Next(s, step), i) && Next(s, step).attempts[i] == s.attempts[i]
  {
    hide Decide, SendsAutomatically, IndexesHold, Reconciled, UpdateFits, ManualStatus, AutomaticStatus,
        NfeManifestacaoRuns.A.After;
    if step.Reconciliar? {
      ReconcilingLeavesSettled(s.attempts, step.documento, step.cliente, step.events, step.now, i);
      assert |Reconciled(s.attempts, step.documento, step.cliente, step.events, step.now)| == |s.attempts| by {
        ReconciledLength(s.attempts, step.documento, step.cliente, step.events, step.now);
      }
    }
  }

  lemma ReconciledLength(attempts: seq<Attempt>, documento: nat, cliente: nat, events: seq<Imported>, now: int)
    ensures |Reconciled(attempts, documento, cliente, events, now)| == |attempts|
  {
  }

  /** Once an attempt has a result and its answer has come in or is lost, its row never changes again. */
  lemma {:induction false} SettledIsFinal(s: State, steps: seq<Step>, i: nat)
    requires Settled(s, i)
    ensures Settled(Run(s, steps), i) && Run(s, steps).attempts[i] == s.attempts[i]
    decreases |steps|
  {
    hide Settled, Next;
    if steps != [] {
      NextKeepsSettled(s, steps[0], i);
      SettledIsFinal(Next(s, steps[0]), steps[1..], i);
      assert Settled(s, i);
      SettledExists(s, i);
    }
  }

  lemma SettledExists(s: State, i: nat)
    requires Settled(s, i)
    ensures i < |s.attempts|
  {
  }

  /** A reconciliation accepts an attempt only on the word of an imported event of the same type and number. */
  lemma {:induction false} AcceptedOnOfficialWord(attempts: seq<Attempt>, ids: seq<nat>, events: seq<Imported>, i: nat)
    requires (forall k | 0 <= k < |ids| :: ids[k] < |attempts|) && i < |attempts|
    ensures var after := Confirmed(attempts, ids, events)[i];
            after == attempts[i]
              || (Aceita(after.status) && exists k | 0 <= k < |events| ::
                  Confirms(events[k], attempts[i]) && events[k].status == after.status)
    decreases |ids|
  {
    hide UpdateFits;
    if ids != [] {
      var official := Official(events, attempts[ids[0]]);
      if official.None? {
        AcceptedOnOfficialWord(attempts, ids[1..], events, i);
      } else if UpdateFits(attempts, ids[0], official.value) {
        AcceptedOnOfficialWord(Updated(attempts, ids[0], official.value), ids[1..], events, i);
      }
    }
  }

  // Exactly when a reconciliation does all it could

  /** Every pending attempt of the client that an imported event confirms ends up accepted as the event says. */
  ghost predicate ReconcilesFully(attempts: seq<Attempt>, documento: nat, cliente: nat, events: seq<Imported>,
      now: int) {
    forall k | 0 <= k < |PendingIds(attempts, documento, cliente)| ::
      var i := PendingIds(attempts, documento, cliente)[k];
      var official := Official(events, attempts[i]);
      official.Some? ==> i < |Reconciled(attempts, documento, cliente, events, now)|
                         && Reconciled(attempts, documento, cliente, events, now)[i].status == official.value
  }

  predicate ScienceConfirmed(events: seq<Imported>) {
    exists k | 0 <= k < |events| ::
        events[k].tipo == Ciencia && Aceita(events[k].status) && (events[k].nSeq == None || events[k].nSeq == Some(1))
  }

  /** Another Science attempt of the same document is in the list too, or holds the document's one place. */
  predicate Rivals(attempts: seq<Attempt>, ids: seq<nat>, i: nat, j: nat)
    requires i < |attempts| && j < |attempts|
  {
    && i != j && attempts[i].tipo == Ciencia && attempts[j].tipo == Ciencia
    && attempts[i].documento == attempts[j].documento
    && (j in ids || Ativa(attempts[j].status))
  }

  predicate Contested(attempts: seq<Attempt>, ids: seq<nat>) {
    exists i, j | 0 <= i < |attempts| && 0 <= j < |attempts| :: i in ids && Rivals(attempts, ids, i, j)
  }

  lemma AcceptanceFits(attempts: seq<Attempt>, i: nat, status: Status)
    requires i < |attempts| && IndexesHold(attempts) && Aceita(status)
    requires attempts[i].tipo == Ciencia ==>
               forall j | 0 <= j < |attempts| && j != i && attempts[j].tipo == Ciencia
                 && attempts[j].documento == attempts[i].documento ::
                 !Ativa(attempts[j].status)
    ensures UpdateFits(attempts, i, status)
  {
    var after := attempts[i := attempts[i].(status := status)];
    forall j, k | 0 <= j < k < |after| ensures !Clash(after[j], after[k]) {
      assert !Clash(attempts[j], attempts[k]);
    }
  }

  lemma {:induction false} OfficialIgnoresStatus(events: seq<Imported>, a: Attempt, status: Status)
    ensures Official(events, a.(status := status)) == Official(events, a)
  {
    if events != [] {
      OfficialIgnoresStatus(events[1..], a, status);
    }
  }

  /** Nobody in the list who is confirmed has a rival. */
  ghost predicate Uncontested(attempts: seq<Attempt>, ids: seq<nat>, events: seq<Imported>)
    requires forall k | 0 <= k < |ids| :: ids[k] < |attempts|
  {
    forall k, j | 0 <= k < |ids| && 0 <= j < |attempts| && Official(events, attempts[ids[k]]).Some? ::
        !Rivals(attempts, ids, ids[k], j)
  }

  lemma UncontestedGoesOn(attempts: seq<Attempt>, ids: seq<nat>, events: seq<Imported>, status: Status)
    requires (forall k | 0 <= k < |ids| :: ids[k] < |attempts|) && ids != [] && Uncontested(attempts, ids, events)
    ensures Uncontested(attempts, ids[1..], events)
    ensures Official(events, attempts[ids[0]]).Some? ==>
              Uncontested(attempts[ids[0] := attempts[ids[0]].(status := status)], ids[1..], events)
  {
    hide Official;
    var rest, i := ids[1..], ids[0];
    var after := attempts[i := attempts[i].(status := status)];
    OfficialIgnoresStatus(events, attempts[i], status);
    forall k, j | 0 <= k < |rest| && 0 <= j < |attempts| && Official(events, attempts[rest[k]]).Some?
      ensures !Rivals(attempts, rest, rest[k], j)
      ensures Official(events, attempts[i]).Some? ==> !Rivals(after, rest, rest[k], j)
    {
      assert rest[k] == ids[k + 1];
      assert !Rivals(attempts, ids, ids[k + 1], j);
    }
  }

  lemma {:induction false} UncontestedIsConfirmed(attempts: seq<Attempt>, ids: seq<nat>, events: seq<Imported>, k: nat)
    requires (forall j | 0 <= j < |ids| :: ids[j] < |attempts|) && IndexesHold(attempts)
    requires Uncontested(attempts, ids, events)
    requires k < |ids| && Official(events, attempts[ids[k]]).Some?
    ensures Confirmed(attempts, ids, events)[ids[k]].status == Official(events, attempts[ids[k]]).value
    decreases |ids|
  {
    hide Official, IndexesHold, UpdateFits;
    var i, rest := ids[0], ids[1..];
    var official := Official(events, attempts[i]);
    if official.None? {
      UncontestedGoesOn(attempts, ids, events, Enviando);
      UncontestedIsConfirmed(attempts, rest, events, k - 1);
    } else {
      forall j | 0 <= j < |attempts| && j != i && attempts[i].tipo == attempts[j].tipo == Ciencia
        && attempts[j].documento == attempts[i].documento
        ensures !Ativa(attempts[j].status)
      {
        assert !Rivals(attempts, ids, ids[0], j);
      }
      AcceptanceFits(attempts, i, official.value);
      UncontestedGoesOn(attempts, ids, events, official.value);
      var next := Updated(attempts, i, official.value);
      FitsIsTaken(attempts, i, official.value);
      OfficialIgnoresStatus(events, attempts[i], official.value);
      if ids[k] in rest {
        var m :| 0 <= m < |rest| && rest[m] == ids[k];
        UncontestedIsConfirmed(next, rest, events, m);
      } else {
        ConfirmingLeavesOthers(next, rest, events, i);
      }
    }
  }

  lemma FitsIsTaken(attempts: seq<Attempt>, i: nat, status: Status)
    requires i < |attempts| && UpdateFits(attempts, i, status)
    ensures Updated(attempts, i, status) == attempts[i := attempts[i].(status := status)]
    ensures IndexesHold(Updated(attempts, i, status))
  {
  }

  lemma {:induction false} OfficialExists(events: seq<Imported>, a: Attempt)
    requires a.tipo == Ciencia && a.nSeq == 1
    ensures Official(events, a).Some? <==> ScienceConfirmed(events)
  {
    if ScienceConfirmed(events) {
      var k :| 0 <= k < |events| && events[k].tipo == Ciencia && Aceita(events[k].status)
        && (events[k].nSeq == None || events[k].nSeq == Some(1));
      assert Confirms(events[k], a);
    }
  }

  lemma ContestedFails(attempts: seq<Attempt>, ids: seq<nat>, events: seq<Imported>, i: nat, j: nat)
    requires (forall k | 0 <= k < |ids| :: ids[k] < |attempts|) && IndexesHold(attempts) && AllLive(attempts, ids)
    requires SequencesInRange(attempts)
    requires i < |attempts| && j < |attempts| && i in ids && Rivals(attempts, ids, i, j) && ScienceConfirmed(events)
    ensures !Aceita(Confirmed(attempts, ids, events)[i].status)
            || (j in ids && !Aceita(Confirmed(attempts, ids, events)[j].status))
  {
    hide Official, Confirmed;
    var after := Confirmed(attempts, ids, events);
    ConfirmingSettles(attempts, ids, events);
    if j !in ids {
      ConfirmingLeavesOthers(attempts, ids, events, j);
    }
    assert !Clash(after[if i < j then i else j], after[if i < j then j else i]);
  }

  lemma MarkingKeepsIdentity(attempts: seq<Attempt>, ids: seq<nat>, events: seq<Imported>, now: int, i: nat)
    requires IndexesHold(attempts) && AllLive(attempts, ids) && i < |attempts|
    ensures Official(events, StaleMarked(attempts, ids, now)[i]) == Official(events, attempts[i])
  {
    hide Official, StaleMarked, IndexesHold;
    StaleMarkingSettles(attempts, ids, ids, now);
    OfficialIgnoresStatus(events, attempts[i], StaleMarked(attempts, ids, now)[i].status);
  }

  /** A reconciliation accepts everything the imported events confirm, unless they confirm Science and one of
      the client's pending Science attempts has a rival once stale attempts are marked. Then, and only then,
      something confirmed is left unconfirmed. */
  lemma ReconcilesFullyExactly(attempts: seq<Attempt>, documento: nat, cliente: nat, events: seq<Imported>, now: int)
    requires IndexesHold(attempts) && SequencesInRange(attempts)
    ensures var ids := PendingIds(attempts, documento, cliente);
            ReconcilesFully(attempts, documento, cliente, events, now) <==>
              !(ScienceConfirmed(events) && Contested(StaleMarked(attempts, ids, now), ids))
  {
    hide Official, StaleMarked, Confirmed, PendingIds, IndexesHold, SequencesInRange, Rivals, ScienceConfirmed;
    var ids := PendingIds(attempts, documento, cliente);
    var marked := StaleMarked(attempts, ids, now);
    StaleMarkingSettles(attempts, ids, ids, now);
    WeakenedKeepsSequences(attempts, marked);
    forall i | 0 <= i < |attempts| ensures Official(events, marked[i]) == Official(events, attempts[i]) {
      MarkingKeepsIdentity(attempts, ids, events, now, i);
    }
    if ScienceConfirmed(events) && Contested(marked, ids) {
      var i, j :| 0 <= i < |marked| && 0 <= j < |marked| && i in ids && Rivals(marked, ids, i, j);
      ContestedFails(marked, ids, events, i, j);
      RivalsAreConfirmed(marked, ids, events, i, j);
    } else {
      NotContestedMeans(marked, ids, events);
      forall k | 0 <= k < |ids| && Official(events, marked[ids[k]]).Some?
        ensures Confirmed(marked, ids, events)[ids[k]].status == Official(events, marked[ids[k]]).value
      {
        UncontestedIsConfirmed(marked, ids, events, k);
      }
    }
  }

  lemma WeakenedKeepsSequences(before: seq<Attempt>, after: seq<Attempt>)
    requires Weakened(before, after) && SequencesInRange(before)
    ensures SequencesInRange(after)
  {
  }

  lemma RivalsAreConfirmed(attempts: seq<Attempt>, ids: seq<nat>, events: seq<Imported>, i: nat, j: nat)
    requires i < |attempts| && j < |attempts| && Rivals(attempts, ids, i, j) && ScienceConfirmed(events)
             && SequencesInRange(attempts)
    ensures Official(events, attempts[i]).Some? && Official(events, attempts[j]).Some?
  {
    hide Official, ScienceConfirmed;
    OfficialExists(events, attempts[i]);
    OfficialExists(events, attempts[j]);
  }

  lemma NotContestedMeans(attempts: seq<Attempt>, ids: seq<nat>, events: seq<Imported>)
    requires (forall k | 0 <= k < |ids| :: ids[k] < |attempts|) && SequencesInRange(attempts)
    requires !(ScienceConfirmed(events) && Contested(attempts, ids))
    ensures Uncontested(attempts, ids, events)
  {
    hide Official, ScienceConfirmed;
    forall k, j | 0 <= k < |ids| && 0 <= j < |attempts| && Official(events, attempts[ids[k]]).Some?
      ensures !Rivals(attempts, ids, ids[k], j)
    {
      assert ids[k] in ids;
      if Rivals(attempts, ids, ids[k], j) {
        OfficialExists(events, attempts[ids[k]]);
      }
    }
  }

  // A late answer

  lemma RejectionAlwaysFits(attempts: seq<Attempt>, i: nat)
    requires i < |attempts| && IndexesHold(attempts)
    ensures UpdateFits(attempts, i, Rejeitada) && UpdateFits(attempts, i, Indeterminado)
  {
    forall status | status in {Rejeitada, Indeterminado} ensures UpdateFits(attempts, i, status) {
      var after := attempts[i := attempts[i].(status := status)];
      forall j, k | 0 <= j < k < |after| ensures !Clash(after[j], after[k]) {
        assert !Clash(attempts[j], attempts[k]);
      }
    }
  }

  lemma RejectionIsRecorded(s: State, id: nat)
    requires Inv(s) && id in s.inFlight
    ensures Next(s, Responder(id, Retorno(500, "", ""), false)).attempts
                == s.attempts[id := s.attempts[id].(status := Rejeitada)]
  {
    RejectionAlwaysFits(s.attempts, id);
  }

  ghost predicate Untouched(s: State, steps: seq<Step>, id: nat)
    requires id < |s.attempts|
  {
    id < |Run(s, steps).attempts| && Run(s, steps).attempts[id] == s.attempts[id]
  }

  /** Exactly when an acceptance is safe: on every later run the row of an accepted attempt stays as it is, if and
      only if no answer to it is outstanding. An answer that is outstanding, manual or automatic, has the last word,
      even over the official confirmation the acceptance rests on. */
  lemma AcceptanceIsFinalExactly(s: State, id: nat)
    requires Inv(s) && id < |s.attempts| && Aceita(s.attempts[id].status)
    ensures (forall steps :: Untouched(s, steps, id)) <==> id !in s.inFlight
  {
    hide Inv, Next;
    if id in s.inFlight {
      RejectionIsRecorded(s, id);
      var steps := [Responder(id, Retorno(500, "", ""), false)];
      assert steps[1..] == [];
      assert Run(s, steps) == Run(Next(s, steps[0]), []) == Next(s, steps[0]);
      assert !Untouched(s, steps, id);
    } else {
      forall steps ensures Untouched(s, steps, id) {
        SettledIsFinal(s, steps, id);
      }
    }
  }

  // A confirmed resend can block its document for good

  /** The document has one Science attempt that is accepted and one whose result is unknown, and nothing is
      outstanding for either. */
  predicate Blocked(s: State, accepted: nat, unknown: nat) {
    && accepted < |s.attempts| && unknown < |s.attempts| && accepted != unknown
    && accepted !in s.inFlight && unknown !in s.inFlight
    && s.attempts[accepted].documento == s.attempts[unknown].documento
    && s.attempts[accepted].tipo == s.attempts[unknown].tipo == Ciencia
    && Aceita(s.attempts[accepted].status) && s.attempts[unknown].status == Indeterminado
  }

  lemma SecondAcceptanceIsRefused(attempts: seq<Attempt>, accepted: nat, unknown: nat, status: Status)
    requires accepted < |attempts| && unknown < |attempts| && accepted != unknown && Aceita(status)
    requires attempts[accepted].documento == attempts[unknown].documento
    requires attempts[accepted].tipo == attempts[unknown].tipo == Ciencia && Aceita(attempts[accepted].status)
    ensures !UpdateFits(attempts, unknown, status)
  {
    var after := attempts[unknown := attempts[unknown].(status := status)];
    var low, high := if accepted < unknown then accepted else unknown, if accepted < unknown then unknown else accepted;
    assert Clash(after[low], after[high]);
  }

  lemma {:induction false} ConfirmingLeavesBlocked(attempts: seq<Attempt>, ids: seq<nat>, events: seq<Imported>,
      accepted: nat, unknown: nat)
    requires (forall k | 0 <= k < |ids| :: ids[k] < |attempts|) && accepted !in ids
    requires accepted < |attempts| && unknown < |attempts| && accepted != unknown
    requires attempts[accepted].documento == attempts[unknown].documento
    requires attempts[accepted].tipo == attempts[unknown].tipo == Ciencia && Aceita(attempts[accepted].status)
    ensures Confirmed(attempts, ids, events)[unknown] == attempts[unknown]
    decreases |ids|
  {
    hide UpdateFits;
    if ids != [] {
      var official := Official(events, attempts[ids[0]]);
      if official.None? {
        ConfirmingLeavesBlocked(attempts, ids[1..], events, accepted, unknown);
      } else if UpdateFits(attempts, ids[0], official.value) {
        if ids[0] == unknown {
          SecondAcceptanceIsRefused(attempts, accepted, unknown, official.value);
        } else {
          ConfirmingLeavesBlocked(Updated(attempts, ids[0], official.value), ids[1..], events, accepted, unknown);
        }
      }
    }
  }

  lemma ReconcilingLeavesBlocked(s: State, documento: nat, cliente: nat, events: seq<Imported>, now: int,
      accepted: nat, unknown: nat)
    requires Blocked(s, accepted, unknown)
    ensures Reconciled(s.attempts, documento, cliente, events, now)[unknown] == s.attempts[unknown]
    ensures Reconciled(s.attempts, documento, cliente, events, now)[accepted] == s.attempts[accepted]
  {
    hide StaleMarked, Confirmed, PendingIds;
    var ids := PendingIds(s.attempts, documento, cliente);
    MarkingLeavesOthers(s.attempts, ids, now, unknown);
    MarkingLeavesOthers(s.attempts, ids, now, accepted);
    ConfirmingLeavesBlocked(StaleMarked(s.attempts, ids, now), ids, events, accepted, unknown);
    ConfirmingLeavesOthers(StaleMarked(s.attempts, ids, now), ids, events, accepted);
  }

  lemma BlockedSendsNothing(s: State, step: Step, accepted: nat, unknown: nat)
    requires Inv(s) && Blocked(s, accepted, unknown) && |Next(s, step).attempts| > |s.attempts|
    ensures Next(s, step).attempts[|s.attempts|].documento != s.attempts[accepted].documento
  {
    hide Inv, Next;
    SendDiscipline(s, step);
    var a := Next(s, step).attempts[|s.attempts|];
    if a.documento == s.attempts[accepted].documento {
      BlockedIsSeen(s, step.events, accepted, unknown);
      assert false;
    }
  }

  lemma BlockedIsSeen(s: State, events: seq<Imported>, accepted: nat, unknown: nat)
    requires Blocked(s, accepted, unknown)
    ensures var documento := s.attempts[accepted].documento;
            SomeAttempt(s.attempts, documento, ANY_TYPE, {Indeterminado})
              && SomeItem(s.attempts, events, documento, ANY_TYPE, ACCEPTED)
  {
    assert s.attempts[unknown].tipo in ANY_TYPE;
  }

  lemma NextKeepsBlocked(s: State, step: Step, accepted: nat, unknown: nat)
    requires Inv(s) && Blocked(s, accepted, unknown)
    ensures Blocked(Next(s, step), accepted, unknown)
    ensures |Next(s, step).attempts| >= |s.attempts|
    ensures forall k | 0 <= k < |s.attempts| :: Next(s, step).attempts[k].documento == s.attempts[k].documento
    ensures Next(s, step).attempts[accepted] == s.attempts[accepted]
  {
    hide Decide, SendsAutomatically, Inv, Reconciled, UpdateFits, ManualStatus, AutomaticStatus,
        NfeManifestacaoRuns.A.After, IndexesHold;
    if step.Reconciliar? {
      InvGives(s);
      ReconcilingSettles(s.attempts, step.documento, step.cliente, step.events, step.now);
      ReconcilingLeavesBlocked(s, step.documento, step.cliente, step.events, step.now, accepted, unknown);
    }
  }

  /** From then on, whatever is imported, reconciled, answered or authorised, nothing is ever sent for that
      document again: no Science, and no conclusive manifestation either. */
  lemma {:induction false} BlockedForever(s: State, steps: seq<Step>, accepted: nat, unknown: nat)
    requires Inv(s) && Blocked(s, accepted, unknown)
    ensures Blocked(Run(s, steps), accepted, unknown) && |Run(s, steps).attempts| >= |s.attempts|
    ensures forall k | |s.attempts| <= k < |Run(s, steps).attempts| ::
              Run(s, steps).attempts[k].documento != s.attempts[accepted].documento
    ensures forall k | 0 <= k < |s.attempts| :: Run(s, steps).attempts[k].documento == s.attempts[k].documento
    decreases |steps|
  {
    hide Inv, Next;
    if steps != [] {
      var next := Next(s, steps[0]);
      NextKeepsInv(s, steps[0]);
      NextKeepsBlocked(s, steps[0], accepted, unknown);
      BlockedForever(next, steps[1..], accepted, unknown);
      if |next.attempts| > |s.attempts| {
        BlockedSendsNothing(s, steps[0], accepted, unknown);
        OneRowAtATime(s, steps[0]);
      }
    }
  }

  lemma OneRowAtATime(s: State, step: Step)
    requires Inv(s) && |Next(s, step).attempts| > |s.attempts|
    ensures |Next(s, step).attempts| == |s.attempts| + 1
  {
    hide Inv, Next, MaySend;
    SendDiscipline(s, step);
  }

  /** A Science request that passes every check that does not look at earlier attempts. */
  predicate PlainScience(p: Pedido, s: Situacao) {
    p.tipo == Ciencia && Preliminary(p, s) == None && !s.canceladaOuDenegada
  }

  lemma FirstScienceGoesOut(p: Pedido, s: Situacao)
    requires PlainScience(p, s) && !p.reenvioConfirmado
    ensures Decide([], [], p, s) == Enviar(1)
  {
  }

  lemma LostAnswerIsUnknown(a: Attempt, rest: seq<Attempt>)
    requires |rest| <= 1 && a.status == Enviando && IndexesHold(rest + [a])
    ensures Answered(rest + [a], |rest|, false, Erro(true, true), false) == rest + [a.(status := Indeterminado)]
  {
    RejectionAlwaysFits(rest + [a], |rest|);
  }

  lemma ResendGoesOut(a: Attempt, p: Pedido, s: Situacao)
    requires PlainScience(p, s) && p.reenvioConfirmado
    requires a.documento == p.documento && a.requestId != p.requestId && a.tipo == Ciencia && a.status == Indeterminado
    ensures Decide([a], [], p, s) == Enviar(1)
  {
    assert SomeAttempt([a], p.documento, SCIENCE, {Indeterminado}) by { assert [a][0] == a; }
    MaxSeqOfOne(a, p.documento);
    assert FindRequest([a], p.requestId) == None;
  }

  lemma MaxSeqOfOne(a: Attempt, documento: nat)
    requires !Aceita(a.status)
    ensures forall t: Tipo :: MaxSeq([a], documento, t, false) == 0
  {
    forall t: Tipo ensures MaxSeq([a], documento, t, false) == 0 {
      assert [a] == [] + [a];
      MaxSeqAppend([], a, documento, t, false);
    }
  }

  lemma TwoUnknown(a: Attempt, b: Attempt)
    requires a.documento == b.documento && a.escopo == b.escopo && a.status == b.status == Indeterminado
    ensures PendingIds([a, b], a.documento, a.escopo.cliente) == [0, 1]
  {
    assert [a, b][..1] == [a];
    assert [a][..0] == [];
    assert PendingIds([a], a.documento, a.escopo.cliente) == [0];
  }

  lemma OnlyOneIsConfirmed(a: Attempt, b: Attempt, event: Imported, now: int)
    requires a.documento == b.documento && a.escopo == b.escopo && a.status == b.status == Indeterminado
    requires a.tipo == b.tipo == Ciencia && a.nSeq == b.nSeq == 1 && a.requestId != b.requestId
    requires event.tipo == Ciencia && Aceita(event.status) && (event.nSeq == None || event.nSeq == Some(1))
    ensures Reconciled([a, b], a.documento, a.escopo.cliente, [event], now) == [a.(status := event.status), b]
  {
    hide PendingIds;
    TwoUnknown(a, b);
    var ids := [0, 1];
    assert StaleMarked([a, b], ids, now) == [a, b] by {
      assert ids[1..] == [1] && [1][1..] == [];
    }
    var next := [a.(status := event.status), b];
    assert next == [a, b][0 := a.(status := event.status)];
    assert Confirms([event][0], a) && Confirms([event][0], b);
    assert UpdateFits([a, b], 0, event.status);
    SecondAcceptanceIsRefused(next, 0, 1, event.status);
    assert ids[1..] == [1];
    assert Confirmed(next, [1], [event]) == next;
  }

  /** The way there: a Science whose answer is lost, its confirmed resend whose answer is lost as well, and one
      imported event that confirms both. */
  function LostTwice(p: Pedido, again: Pedido, s: Situacao, event: Imported, now: int): seq<Step> {
    [Registrar(p, s, []), Responder(0, Erro(true, true), false), Registrar(again, s, []),
        Responder(1, Erro(true, true), false),
     Reconciliar(p.documento, p.cliente, [event], now)]
  }

  /** One registration that goes out and whose answer is lost leaves one more unknown attempt. */
  lemma OneLostAnswer(rest: seq<Attempt>, p: Pedido, s: Situacao)
    requires |rest| <= 1 && Decide(rest, [], p, s) == Enviar(1) && IndexesHold(rest + [NewAttempt(p, s, 1)])
    ensures Next(Next(State(rest, map[], map[]), Registrar(p, s, [])), Responder(|rest|, Erro(true, true), false))
            == State(rest + [NewAttempt(p, s, 1).(status := Indeterminado)], map[], map[])
  {
    hide Decide, Answered, IndexesHold;
    var a := NewAttempt(p, s, 1);
    var sent := State(rest + [a], map[|rest| := false], map[]);
    assert Next(State(rest, map[], map[]), Registrar(p, s, [])) == sent;
    LostAnswerIsUnknown(a, rest);
    assert map[|rest| := false] - {|rest|} == map[];
  }

  lemma ResendCanBlock(p: Pedido, again: Pedido, s: Situacao, event: Imported, now: int)
    requires PlainScience(p, s) && PlainScience(again, s) && !p.reenvioConfirmado && again.reenvioConfirmado
    requires p.documento == again.documento && p.cliente == again.cliente && p.requestId != again.requestId
    requires event.tipo == Ciencia && Aceita(event.status) && (event.nSeq == None || event.nSeq == Some(1))
    ensures Blocked(Run(INITIAL, LostTwice(p, again, s, event, now)), 0, 1)
  {
    hide Decide, Reconciled, LostTwice, Next, Run;
    var a, b := NewAttempt(p, s, 1).(status := Indeterminado), NewAttempt(again, s, 1).(status := Indeterminado);
    LostTwiceUnfolds(p, again, s, event, now);
    FirstScienceGoesOut(p, s);
    OneLostAnswer([], p, s);
    assert [] + [a] == [a];
    ResendGoesOut(a, again, s);
    OneLostAnswer([a], again, s);
    assert [a] + [b] == [a, b];
    OnlyOneIsConfirmed(a, b, event, now);
    LastStep(State([a, b], map[], map[]), p.documento, p.cliente, [event], now);
  }

  lemma LastStep(s: State, documento: nat, cliente: nat, events: seq<Imported>, now: int)
    ensures Next(s, Reconciliar(documento, cliente, events, now))
            == s.(attempts := Reconciled(s.attempts, documento, cliente, events, now))
  {
  }

  lemma LostTwiceUnfolds(p: Pedido, again: Pedido, s: Situacao, event: Imported, now: int)
    ensures Run(INITIAL, LostTwice(p, again, s, event, now))
            == Next(Next(Next(Next(Next(INITIAL, Registrar(p, s, [])), Responder(0, Erro(true, true), false)),
                                   Registrar(again, s, [])), Responder(1, Erro(true, true), false)),
                    Reconciliar(p.documento, p.cliente, [event], now))
  {
    hide Next;
    FiveSteps(INITIAL, Registrar(p, s, []), Responder(0, Erro(true, true), false), Registrar(again, s, []),
              Responder(1, Erro(true, true), false), Reconciliar(p.documento, p.cliente, [event], now));
  }

  lemma FiveSteps(s: State, a: Step, b: Step, c: Step, d: Step, e: Step)
    ensures Run(s, [a, b, c, d, e]) == Next(Next(Next(Next(Next(s, a), b), c), d), e)
  {
    hide Next;
    assert [a, b, c, d, e][1..] == [b, c, d, e] && [b, c, d, e][1..] == [c, d, e];
    assert [c, d, e][1..] == [d, e] && [d, e][1..] == [e] && [e][1..] == [];
    var s3 := Next(Next(Next(s, a), b), c);
    assert Run(s, [a, b, c, d, e]) == Run(Next(s, a), [b, c, d, e]);
    assert Run(Next(s, a), [b, c, d, e]) == Run(Next(Next(s, a), b), [c, d, e]);
    assert Run(Next(Next(s, a), b), [c, d, e]) == Run(s3, [d, e]);
    assert Run(s3, [d, e]) == Run(Next(s3, d), [e]);
    assert Run(Next(s3, d), [e]) == Run(Next(Next(s3, d), e), []);
  }
}
