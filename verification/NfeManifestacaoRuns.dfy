/** Every run of manual and automatic registrations, late and missing answers, reconciliations and changes of
    the authorisation. Imported events are arbitrary: each step is given whatever the distribution has brought. */
module NfeManifestacaoRuns {
  import opened Options
  import opened NfeManifestacao
  import A = NfeAutomacao

  /** `inFlight` holds the attempts whose request may still be answered, and whether they were automatic;
      `contas` the automation row and trail of each client, establishment and environment. */
  datatype State = State(attempts: seq<Attempt>, inFlight: map<nat, bool>, contas: map<Escopo, A.Conta>)

  datatype Step =
    | Registrar(pedido: Pedido, situacao: Situacao, events: seq<Imported>)
    | RegistrarAutomatica(documento: nat, cliente: nat, requestId: nat, situacao: Situacao, events: seq<Imported>)
    | Responder(id: nat, resposta: Resposta, followUpFails: bool)
    | Interromper(id: nat)
    | Reconciliar(documento: nat, cliente: nat, events: seq<Imported>, now: int)
    | Automatizar(escopo: Escopo, op: A.Operacao)

  function ContaOf(s: State, escopo: Escopo): A.Conta {
    if escopo in s.contas then s.contas[escopo] else A.Conta(None, [])
  }

  function Create(s: State, a: Attempt, automatic: bool): State {
    if IndexesHold(s.attempts + [a])
    then s.(attempts := s.attempts + [a], inFlight := s.inFlight[|s.attempts| := automatic])
    else s
  }

  function Next(s: State, step: Step): State {
    match step
    case Registrar(p, situacao, events) =>
      var decision := Decide(s.attempts, events, p, situacao);
      if decision.Enviar? then Create(s, NewAttempt(p, situacao, decision.nSeq), false) else s
    case RegistrarAutomatica(documento, cliente, requestId, situacao, events) =>
      if SendsAutomatically(s.attempts, events, documento, situacao, ContaOf(s, ScopeFound(cliente, situacao)))
      then Create(s, AutomaticAttempt(documento, cliente, requestId, situacao), true) else s
    case Responder(id, resposta, followUpFails) =>
      if id in s.inFlight && id < |s.attempts|
      then s.(attempts := Answered(s.attempts, id, s.inFlight[id], resposta, followUpFails),
          inFlight := s.inFlight - {id})
      else s
    case Interromper(id) => s.(inFlight := s.inFlight - {id})
    case Reconciliar(documento, cliente, events, now) =>
      s.(attempts := Reconciled(s.attempts, documento, cliente, events, now))
    case Automatizar(escopo, op) => s.(contas := s.contas[escopo := A.After(ContaOf(s, escopo), op)])
  }

  function Run(s: State, steps: seq<Step>): State
    decreases |steps|
  {
    if steps == [] then s else Run(Next(s, steps[0]), steps[1..])
  }

  const INITIAL: State := State([], map[], map[])

  // The invariant

  ghost predicate OneInTransmission(attempts: seq<Attempt>) {
    forall i, j | 0 <= i < j < |attempts| ::
      attempts[i].documento == attempts[j].documento ==>
          attempts[i].status != Enviando || attempts[j].status != Enviando
  }

  ghost predicate SequencesInRange(attempts: seq<Attempt>) {
    forall i | 0 <= i < |attempts| ::
        1 <= attempts[i].nSeq <= 2 && (attempts[i].tipo == Ciencia ==> attempts[i].nSeq == 1)
  }

  /** Pending attempts count here as if they were accepted: a late answer or a reconciliation may make them so. */
  ghost predicate ConclusiveBounded(attempts: seq<Attempt>) {
    forall documento: nat :: ConclusiveSum(attempts, documento, true) <= MAX_CONCLUSIVE
  }

  ghost predicate InFlightIsLive(s: State) {
    forall id | id in s.inFlight :: id < |s.attempts| && Viva(s.attempts[id].status)
  }

  ghost predicate Inv(s: State) {
    && IndexesHold(s.attempts) && OneInTransmission(s.attempts) && SequencesInRange(s.attempts)
    && ConclusiveBounded(s.attempts) && InFlightIsLive(s)
    && forall escopo | escopo in s.contas :: A.Good(s.contas[escopo])
  }

  // Highest sequence numbers

  lemma {:induction false} MaxSeqIsMax(attempts: seq<Attempt>, documento: nat, tipo: Tipo, pendingToo: bool)
    ensures var m := MaxSeq(attempts, documento, tipo, pendingToo);
            && (forall k | 0 <= k < |attempts| && Counts(attempts[k], documento, tipo, pendingToo) ::
                attempts[k].nSeq <= m)
            && (m > 0 ==> exists k | 0 <= k < |attempts| ::
                Counts(attempts[k], documento, tipo, pendingToo) && attempts[k].nSeq == m)
  {
    if attempts != [] {
      var n := |attempts| - 1;
      var front := attempts[..n];
      MaxSeqIsMax(front, documento, tipo, pendingToo);
      var m := MaxSeq(front, documento, tipo, pendingToo);
      if m > 0 {
        var k :| 0 <= k < |front| && Counts(front[k], documento, tipo, pendingToo) && front[k].nSeq == m;
        assert attempts[k] == front[k];
      }
      forall k | 0 <= k < |attempts| && Counts(attempts[k], documento, tipo, pendingToo)
        ensures attempts[k].nSeq <= MaxSeq(attempts, documento, tipo, pendingToo)
      {
        if k < n {
          assert front[k] == attempts[k];
        }
      }
    }
  }

  lemma MaxSeqAppend(attempts: seq<Attempt>, a: Attempt, documento: nat, tipo: Tipo, pendingToo: bool)
    ensures MaxSeq(attempts + [a], documento, tipo, pendingToo)
            == if Counts(a, documento, tipo, pendingToo)
               then Max(MaxSeq(attempts, documento, tipo, pendingToo), a.nSeq)
               else MaxSeq(attempts, documento, tipo, pendingToo)
  {
    assert (attempts + [a])[..|attempts|] == attempts;
  }

  /** Rows are only ever rewritten in their status, and no row comes to life or back into transmission. */
  ghost predicate Weakened(before: seq<Attempt>, after: seq<Attempt>) {
    && |after| == |before|
    && forall k | 0 <= k < |before| ::
         && after[k] == before[k].(status := after[k].status)
         && (Viva(after[k].status) ==> Viva(before[k].status))
         && (after[k].status == Enviando ==> before[k].status == Enviando)
  }

  lemma WeakenedBounds(before: seq<Attempt>, after: seq<Attempt>, documento: nat, tipo: Tipo)
    requires Weakened(before, after)
    ensures MaxSeq(after, documento, tipo, true) <= MaxSeq(before, documento, tipo, true)
  {
    MaxSeqIsMax(before, documento, tipo, true);
    MaxSeqIsMax(after, documento, tipo, true);
    var m := MaxSeq(after, documento, tipo, true);
    if m > 0 {
      var k :| 0 <= k < |after| && Counts(after[k], documento, tipo, true) && after[k].nSeq == m;
      assert Counts(before[k], documento, tipo, true);
    }
  }

  lemma WeakenedKeepsTable(before: seq<Attempt>, after: seq<Attempt>)
    requires Weakened(before, after)
    requires OneInTransmission(before) && SequencesInRange(before) && ConclusiveBounded(before)
    ensures OneInTransmission(after) && SequencesInRange(after) && ConclusiveBounded(after)
  {
    hide Counts, MaxSeq;
    forall documento: nat ensures ConclusiveSum(after, documento, true) <= MAX_CONCLUSIVE {
      WeakenedBounds(before, after, documento, Confirmacao);
      WeakenedBounds(before, after, documento, Desconhecimento);
      WeakenedBounds(before, after, documento, NaoRealizada);
      assert ConclusiveSum(before, documento, true) <= MAX_CONCLUSIVE;
    }
  }

  // Answers and reconciliation only weaken the table

  lemma UpdateWeakens(attempts: seq<Attempt>, i: nat, status: Status)
    requires i < |attempts| && IndexesHold(attempts) && Viva(attempts[i].status) && status != Enviando
    ensures Weakened(attempts, Updated(attempts, i, status)) && IndexesHold(Updated(attempts, i, status))
    ensures Viva(status) ==> Viva(Updated(attempts, i, status)[i].status)
    ensures forall k | 0 <= k < |attempts| && k != i :: Updated(attempts, i, status)[k] == attempts[k]
  {
    hide Clash;
  }

  lemma AnswerWeakens(attempts: seq<Attempt>, i: nat, automatic: bool, r: Resposta, followUpFails: bool)
    requires i < |attempts| && IndexesHold(attempts) && Viva(attempts[i].status)
    ensures var after := Answered(attempts, i, automatic, r, followUpFails);
            && Weakened(attempts, after) && IndexesHold(after)
            && forall k | 0 <= k < |attempts| && k != i :: after[k] == attempts[k]
  {
    hide Clash, IndexesHold, Updated, UpdateFits;
    UpdateWeakens(attempts, i, Indeterminado);
    if !automatic {
      UpdateWeakens(attempts, i, ManualStatus(r));
    } else {
      var status := AutomaticStatus(r);
      UpdateWeakens(attempts, i, status);
      if status == Registrada {
        UpdateWeakens(Updated(attempts, i, status), i, Indeterminado);
      }
    }
  }

  ghost predicate AllLive(attempts: seq<Attempt>, ids: seq<nat>) {
    forall k | 0 <= k < |ids| :: ids[k] < |attempts| && Viva(attempts[ids[k]].status)
  }

  /** What holds between the table before and after a part of the reconciliation. */
  ghost predicate Settles(before: seq<Attempt>, after: seq<Attempt>) {
    Weakened(before, after) && IndexesHold(after) && forall k | 0 <= k < |before| ::
        Viva(before[k].status) ==> Viva(after[k].status)
  }

  lemma SettlesTransitively(a: seq<Attempt>, b: seq<Attempt>, c: seq<Attempt>)
    requires Settles(a, b) && Settles(b, c)
    ensures Settles(a, c)
  {
    hide IndexesHold;
  }

  lemma UpdateSettles(attempts: seq<Attempt>, ids: seq<nat>, i: nat, status: Status)
    requires IndexesHold(attempts) && AllLive(attempts, ids) && i in ids && (status == Indeterminado || Aceita(status))
    ensures i < |attempts| && Settles(attempts, Updated(attempts, i, status))
            && AllLive(Updated(attempts, i, status), ids)
  {
    hide IndexesHold, Updated, UpdateFits;
    UpdateWeakens(attempts, i, status);
  }

  lemma {:induction false} StaleMarkingSettles(attempts: seq<Attempt>, ids: seq<nat>, all: seq<nat>, now: int)
    requires IndexesHold(attempts) && AllLive(attempts, ids) && AllLive(attempts, all)
    ensures Settles(attempts, StaleMarked(attempts, ids, now)) && AllLive(StaleMarked(attempts, ids, now), all)
    decreases |ids|
  {
    hide IndexesHold, Updated, UpdateFits;
    if ids != [] {
      var a := attempts[ids[0]];
      if a.status == Enviando && a.enviadoEm <= now - STALE_ATTEMPT_MS {
        var next := Updated(attempts, ids[0], Indeterminado);
        UpdateSettles(attempts, ids, ids[0], Indeterminado);
        KeepsLive(attempts, next, all);
        StaleMarkingSettles(next, ids[1..], all, now);
        SettlesTransitively(attempts, next, StaleMarked(next, ids[1..], now));
      } else {
        StaleMarkingSettles(attempts, ids[1..], all, now);
      }
    }
  }

  lemma KeepsLive(before: seq<Attempt>, after: seq<Attempt>, ids: seq<nat>)
    requires Settles(before, after) && AllLive(before, ids)
    ensures AllLive(after, ids)
  {
  }

  lemma {:induction false} ConfirmingSettles(attempts: seq<Attempt>, ids: seq<nat>, events: seq<Imported>)
    requires IndexesHold(attempts) && AllLive(attempts, ids)
    ensures Settles(attempts, Confirmed(attempts, ids, events))
    decreases |ids|
  {
    hide IndexesHold, Updated, UpdateFits, Official;
    if ids != [] {
      var official := Official(events, attempts[ids[0]]);
      if official.None? {
        ConfirmingSettles(attempts, ids[1..], events);
      } else if UpdateFits(attempts, ids[0], official.value) {
        var next := Updated(attempts, ids[0], official.value);
        UpdateSettles(attempts, ids, ids[0], official.value);
        ConfirmingSettles(next, ids[1..], events);
        SettlesTransitively(attempts, next, Confirmed(next, ids[1..], events));
      }
    }
  }

  lemma ReconcilingSettles(attempts: seq<Attempt>, documento: nat, cliente: nat, events: seq<Imported>, now: int)
    requires IndexesHold(attempts)
    ensures Settles(attempts, Reconciled(attempts, documento, cliente, events, now))
  {
    hide IndexesHold, PendingIds, StaleMarked, Confirmed;
    var ids := PendingIds(attempts, documento, cliente);
    StaleMarkingSettles(attempts, ids, ids, now);
    var marked := StaleMarked(attempts, ids, now);
    ConfirmingSettles(marked, ids, events);
    SettlesTransitively(attempts, marked, Confirmed(marked, ids, events));
  }

  // What a send presupposes

  lemma {:induction false} NoImportedMeansNone(events: seq<Imported>, tipo: Tipo)
    ensures MaxImported(events, tipo) == 0 <==> forall k | 0 <= k < |events| ::
              !(events[k].tipo == tipo && Aceita(events[k].status))
  {
    if events != [] {
      var n := |events| - 1;
      var front := events[..n];
      NoImportedMeansNone(front, tipo);
      assert forall k | 0 <= k < n :: front[k] == events[k];
      assert events[n] == events[|events| - 1];
    }
  }

  lemma NoSeqMeansNone(attempts: seq<Attempt>, documento: nat, tipo: Tipo)
    requires SequencesInRange(attempts)
    ensures MaxSeq(attempts, documento, tipo, false) == 0 ==> !SomeAttempt(attempts, documento, {tipo}, ACCEPTED)
  {
    MaxSeqIsMax(attempts, documento, tipo, false);
    if SomeAttempt(attempts, documento, {tipo}, ACCEPTED) {
      var k :| 0 <= k < |attempts| && attempts[k].documento == documento && attempts[k].tipo in {tipo}
        && attempts[k].status in ACCEPTED;
      assert Counts(attempts[k], documento, tipo, false);
    }
  }

  lemma NothingConclusive(attempts: seq<Attempt>, events: seq<Imported>, documento: nat)
    requires SequencesInRange(attempts) && AcceptedFinalCount(attempts, events, documento) == 0
    ensures !SomeItem(attempts, events, documento, FINALS, ACCEPTED)
  {
    hide MaxSeq, MaxImported;
    NoSeqMeansNone(attempts, documento, Confirmacao);
    NoSeqMeansNone(attempts, documento, Desconhecimento);
    NoSeqMeansNone(attempts, documento, NaoRealizada);
    NoImportedMeansNone(events, Confirmacao);
    NoImportedMeansNone(events, Desconhecimento);
    NoImportedMeansNone(events, NaoRealizada);
  }

  /** The check on exhausted sequence numbers never refuses anything: the checks before it do. */
  lemma SequenceNeverExhausted(attempts: seq<Attempt>, events: seq<Imported>, p: Pedido, s: Situacao)
    ensures Decide(attempts, events, p, s) != Recusar(SequenciaEsgotada)
    ensures Decide(attempts, events, p, s).Enviar? ==>
              var n := Decide(attempts, events, p, s).nSeq; 1 <= n <= 2 && (p.tipo == Ciencia ==> n == 1)
  {
    hide MaxSeq, MaxImported, SomeEvent, SomeAttempt;
    if p.tipo == Ciencia && !SomeItem(attempts, events, p.documento, SCIENCE, ACCEPTED) {
      NoAcceptedScience(attempts, events, p.documento);
    }
  }

  lemma NoAcceptedScience(attempts: seq<Attempt>, events: seq<Imported>, documento: nat)
    requires !SomeItem(attempts, events, documento, SCIENCE, ACCEPTED)
    ensures LastSeq(attempts, events, documento, Ciencia) == 0
  {
    MaxSeqIsMax(attempts, documento, Ciencia, false);
    NoImportedMeansNone(events, Ciencia);
    assert Ciencia in SCIENCE;
  }

  /** What a new attempt, manual or automatic, presupposes about its document. */
  ghost predicate MaySend(attempts: seq<Attempt>, events: seq<Imported>, documento: nat, requestId: nat, tipo: Tipo,
      resend: bool) {
    && (forall k | 0 <= k < |attempts| :: attempts[k].requestId != requestId)
    && !SomeAttempt(attempts, documento, ANY_TYPE, {Enviando})
    && !SomeEvent(events, ANY_TYPE, {Indeterminado})
    && (SomeAttempt(attempts, documento, ANY_TYPE, {Indeterminado}) ==>
          resend && tipo == Ciencia && !SomeAttempt(attempts, documento, FINALS, {Indeterminado})
            && !SomeEvent(events, SCIENCE, ANY_STATUS))
    && (tipo == Ciencia ==> !SomeItem(attempts, events, documento, ANY_TYPE, ACCEPTED))
    && (Final(tipo) ==> AcceptedFinalCount(attempts, events, documento) < MAX_CONCLUSIVE)
  }

  lemma UnconfirmedMeans(attempts: seq<Attempt>, events: seq<Imported>, p: Pedido)
    requires Unconfirmed(attempts, events, p) == None
    ensures !SomeAttempt(attempts, p.documento, ANY_TYPE, {Enviando})
    ensures !SomeEvent(events, ANY_TYPE, {Indeterminado})
    ensures SomeAttempt(attempts, p.documento, ANY_TYPE, {Indeterminado}) ==>
              p.reenvioConfirmado && p.tipo == Ciencia
              && !SomeAttempt(attempts, p.documento, FINALS, {Indeterminado}) && !SomeEvent(events, SCIENCE, ANY_STATUS)
  {
    hide SomeAttempt;
    EventsAreEither(events);
  }

  lemma EventsAreEither(events: seq<Imported>)
    ensures SomeEvent(events, ANY_TYPE, {Indeterminado}) ==>
              SomeEvent(events, FINALS, {Indeterminado}) || SomeEvent(events, SCIENCE, ANY_STATUS)
  {
  }

  lemma AnyTypeIsEither(attempts: seq<Attempt>, events: seq<Imported>, documento: nat, statuses: set<Status>)
    requires !SomeItem(attempts, events, documento, SCIENCE, statuses)
    requires !SomeItem(attempts, events, documento, FINALS, statuses)
    ensures !SomeItem(attempts, events, documento, ANY_TYPE, statuses)
  {
  }

  /** A manual registration that goes out keeps the discipline. */
  lemma ManualSendsInOrder(attempts: seq<Attempt>, events: seq<Imported>, p: Pedido, s: Situacao)
    requires SequencesInRange(attempts) && Decide(attempts, events, p, s).Enviar?
    ensures MaySend(attempts, events, p.documento, p.requestId, p.tipo, p.reenvioConfirmado)
  {
    hide SomeAttempt, SomeEvent, MaxSeq, MaxImported, AcceptedFinalCount, LastSeq;
    UnconfirmedMeans(attempts, events, p);
    if p.tipo == Ciencia {
      NothingConclusive(attempts, events, p.documento);
      AnyTypeIsEither(attempts, events, p.documento, ACCEPTED);
    }
  }

  /** So does an automatic one, which moreover repeats nothing that was ever pending and needs the authorisation. */
  lemma AutomaticSendsInOrder(attempts: seq<Attempt>, events: seq<Imported>, documento: nat, requestId: nat,
      s: Situacao, conta: A.Conta)
    requires SendsAutomatically(attempts, events, documento, s, conta)
    requires forall k | 0 <= k < |attempts| :: attempts[k].requestId != requestId
    ensures MaySend(attempts, events, documento, requestId, Ciencia, false)
    ensures !SomeAttempt(attempts, documento, ANY_TYPE, PENDING)
  {
    hide LatestScience;
    PendingIsEither(attempts, events, documento);
  }

  lemma PendingIsEither(attempts: seq<Attempt>, events: seq<Imported>, documento: nat)
    ensures SomeAttempt(attempts, documento, ANY_TYPE, {Indeterminado})
            || SomeAttempt(attempts, documento, ANY_TYPE, {Enviando}) ==>
              SomeAttempt(attempts, documento, ANY_TYPE, PENDING)
    ensures SomeEvent(events, ANY_TYPE, {Indeterminado}) ==> SomeEvent(events, ANY_TYPE, PENDING)
  {
  }

  lemma EveryTypeCounts(t: Tipo)
    ensures t in ANY_TYPE
  {
    match t
    case Ciencia =>
    case Confirmacao =>
    case Desconhecimento =>
    case NaoRealizada =>
  }

  // Creating an attempt keeps the table in order

  lemma PendingGone(attempts: seq<Attempt>, documento: nat, tipo: Tipo)
    requires !SomeAttempt(attempts, documento, ANY_TYPE, {Enviando})
    requires !SomeAttempt(attempts, documento, ANY_TYPE, {Indeterminado})
    ensures MaxSeq(attempts, documento, tipo, true) == MaxSeq(attempts, documento, tipo, false)
  {
    MaxSeqIsMax(attempts, documento, tipo, true);
    MaxSeqIsMax(attempts, documento, tipo, false);
    assert forall k | 0 <= k < |attempts| ::
      Counts(attempts[k], documento, tipo, true) ==> Counts(attempts[k], documento, tipo, false) by {
      forall k | 0 <= k < |attempts| && Counts(attempts[k], documento, tipo, true)
        ensures Counts(attempts[k], documento, tipo, false)
      {
        assert attempts[k].tipo in ANY_TYPE;
      }
    }
  }

  lemma ConclusiveStaysBounded(attempts: seq<Attempt>, events: seq<Imported>, a: Attempt, resend: bool, documento: nat)
    requires ConclusiveBounded(attempts) && MaySend(attempts, events, a.documento, a.requestId, a.tipo, resend)
    requires Final(a.tipo) ==> a.nSeq == LastSeq(attempts, events, a.documento, a.tipo) + 1
    ensures ConclusiveSum(attempts + [a], documento, true) <= MAX_CONCLUSIVE
  {
    hide SomeAttempt, SomeEvent, MaxSeq, MaxImported;
    assert ConclusiveSum(attempts, documento, true) <= MAX_CONCLUSIVE;
    MaxSeqAppend(attempts, a, documento, Confirmacao, true);
    MaxSeqAppend(attempts, a, documento, Desconhecimento, true);
    MaxSeqAppend(attempts, a, documento, NaoRealizada, true);
    if a.documento == documento && Final(a.tipo) {
      PendingGone(attempts, documento, Confirmacao);
      PendingGone(attempts, documento, Desconhecimento);
      PendingGone(attempts, documento, NaoRealizada);
    }
  }

  /** In a run of single steps the indexes never refuse a manual registration that the checks let through. */
  lemma CreateNeverClashes(attempts: seq<Attempt>, events: seq<Imported>, a: Attempt, resend: bool)
    requires IndexesHold(attempts) && MaySend(attempts, events, a.documento, a.requestId, a.tipo, resend)
    ensures IndexesHold(attempts + [a])
  {
    hide AcceptedFinalCount;
    forall i, j | 0 <= i < j < |attempts + [a]| ensures !Clash((attempts + [a])[i], (attempts + [a])[j]) {
      if j == |attempts| {
        DoesNotClash(attempts, events, a, resend, i);
      } else {
        assert !Clash(attempts[i], attempts[j]);
      }
    }
  }

  lemma DoesNotClash(attempts: seq<Attempt>, events: seq<Imported>, a: Attempt, resend: bool, i: nat)
    requires MaySend(attempts, events, a.documento, a.requestId, a.tipo, resend) && i < |attempts|
    ensures !Clash(attempts[i], a)
  {
    hide AcceptedFinalCount, SomeEvent;
    EveryTypeCounts(attempts[i].tipo);
  }

  lemma CreateKeepsInv(s: State, events: seq<Imported>, a: Attempt, automatic: bool, resend: bool)
    requires Inv(s) && MaySend(s.attempts, events, a.documento, a.requestId, a.tipo, resend)
    requires a.status == Enviando && 1 <= a.nSeq <= 2 && (a.tipo == Ciencia ==> a.nSeq == 1)
    requires Final(a.tipo) ==> a.nSeq == LastSeq(s.attempts, events, a.documento, a.tipo) + 1
    ensures Inv(Create(s, a, automatic)) && Create(s, a, automatic).attempts == s.attempts + [a]
  {
    hide AcceptedFinalCount, IndexesHold, ConclusiveSum, LastSeq, A.Good;
    CreateNeverClashes(s.attempts, events, a, resend);
    forall documento: nat ensures ConclusiveSum(s.attempts + [a], documento, true) <= MAX_CONCLUSIVE {
      ConclusiveStaysBounded(s.attempts, events, a, resend, documento);
    }
    NobodyElseTransmits(s.attempts, events, a, resend);
  }

  lemma NobodyElseTransmits(attempts: seq<Attempt>, events: seq<Imported>, a: Attempt, resend: bool)
    requires OneInTransmission(attempts) && MaySend(attempts, events, a.documento, a.requestId, a.tipo, resend)
    ensures OneInTransmission(attempts + [a])
  {
    hide AcceptedFinalCount, SomeEvent;
    forall i | 0 <= i < |attempts| && attempts[i].documento == a.documento ensures attempts[i].status != Enviando {
      EveryTypeCounts(attempts[i].tipo);
    }
  }

  // Every step keeps the invariant

  lemma ManualKeepsInv(s: State, p: Pedido, situacao: Situacao, events: seq<Imported>)
    requires Inv(s)
    ensures Inv(Next(s, Registrar(p, situacao, events)))
  {
    hide Create, Inv, MaySend, MaxSeq, MaxImported, SomeAttempt, SomeEvent;
    InvGives(s);
    SequenceNeverExhausted(s.attempts, events, p, situacao);
    if Decide(s.attempts, events, p, situacao).Enviar? {
      ManualSendsInOrder(s.attempts, events, p, situacao);
      CreateKeepsInv(s, events, NewAttempt(p, situacao, Decide(s.attempts, events, p, situacao).nSeq), false,
          p.reenvioConfirmado);
    }
  }

  lemma InvGives(s: State)
    requires Inv(s)
    ensures IndexesHold(s.attempts) && SequencesInRange(s.attempts) && OneInTransmission(s.attempts)
  {
  }

  lemma UsedIdIsRefused(s: State, a: Attempt, automatic: bool, k: nat)
    requires k < |s.attempts| && s.attempts[k].requestId == a.requestId
    ensures Create(s, a, automatic) == s
  {
    var grown := s.attempts + [a];
    assert Clash(grown[k], grown[|s.attempts|]);
  }

  lemma AutomaticKeepsInv(s: State, step: Step)
    requires Inv(s) && step.RegistrarAutomatica?
    ensures Inv(Next(s, step))
  {
    hide Create, Inv, MaySend, SendsAutomatically;
    var conta := ContaOf(s, ScopeFound(step.cliente, step.situacao));
    if SendsAutomatically(s.attempts, step.events, step.documento, step.situacao, conta) {
      var a := AutomaticAttempt(step.documento, step.cliente, step.requestId, step.situacao);
      if k :| 0 <= k < |s.attempts| && s.attempts[k].requestId == step.requestId {
        UsedIdIsRefused(s, a, true, k);
      } else {
        AutomaticSendsInOrder(s.attempts, step.events, step.documento, step.requestId, step.situacao, conta);
        CreateKeepsInv(s, step.events, a, true, false);
      }
    }
  }

  lemma AnswerKeepsInv(s: State, id: nat, r: Resposta, followUpFails: bool)
    requires Inv(s)
    ensures Inv(Next(s, Responder(id, r, followUpFails)))
  {
    hide IndexesHold, Answered, OneInTransmission, SequencesInRange, ConclusiveBounded, A.Good;
    if id in s.inFlight {
      AnswerWeakens(s.attempts, id, s.inFlight[id], r, followUpFails);
      WeakenedKeepsTable(s.attempts, Answered(s.attempts, id, s.inFlight[id], r, followUpFails));
    }
  }

  lemma ReconciliationKeepsInv(s: State, documento: nat, cliente: nat, events: seq<Imported>, now: int)
    requires Inv(s)
    ensures Inv(Next(s, Reconciliar(documento, cliente, events, now)))
  {
    hide IndexesHold, Reconciled, OneInTransmission, SequencesInRange, ConclusiveBounded, A.Good;
    ReconcilingSettles(s.attempts, documento, cliente, events, now);
    WeakenedKeepsTable(s.attempts, Reconciled(s.attempts, documento, cliente, events, now));
  }

  lemma AutomationKeepsInv(s: State, escopo: Escopo, op: A.Operacao)
    requires Inv(s)
    ensures Inv(Next(s, Automatizar(escopo, op)))
  {
    hide IndexesHold, OneInTransmission, SequencesInRange, ConclusiveBounded, A.Good, A.After;
    A.NoRowIsGood();
    A.StepKeepsGood(ContaOf(s, escopo), op);
  }

  lemma NextKeepsInv(s: State, step: Step)
    requires Inv(s)
    ensures Inv(Next(s, step))
  {
    match step
    case Registrar(p, situacao, events) => ManualKeepsInv(s, p, situacao, events);
    case RegistrarAutomatica(_, _, _, _, _) => AutomaticKeepsInv(s, step);
    case Responder(id, r, followUpFails) => AnswerKeepsInv(s, id, r, followUpFails);
    case Interromper(_) =>
    case Reconciliar(documento, cliente, events, now) => ReconciliationKeepsInv(s, documento, cliente, events, now);
    case Automatizar(escopo, op) => AutomationKeepsInv(s, escopo, op);
  }

  lemma {:induction false} RunKeepsInv(s: State, steps: seq<Step>)
    requires Inv(s)
    ensures Inv(Run(s, steps))
    decreases |steps|
  {
    hide Inv, Next;
    if steps != [] {
      NextKeepsInv(s, steps[0]);
      RunKeepsInv(Next(s, steps[0]), steps[1..]);
    }
  }

  lemma InitialIsGood()
    ensures Inv(INITIAL)
  {
  }

  // Main results

  /** On every run the highest accepted sequence numbers of the three conclusive types add up to at most two for
      every document, and so they do when everything still unconfirmed turns out to be accepted. */
  lemma ConclusiveManifestationsAreBounded(steps: seq<Step>, documento: nat)
    ensures var attempts := Run(INITIAL, steps).attempts;
            && ConclusiveSum(attempts, documento, false) <= ConclusiveSum(attempts, documento, true) <= MAX_CONCLUSIVE
            && SequencesInRange(attempts)
  {
    hide Next;
    InitialIsGood();
    RunKeepsInv(INITIAL, steps);
    var attempts := Run(INITIAL, steps).attempts;
    AcceptedAtMostLive(attempts, documento, Confirmacao);
    AcceptedAtMostLive(attempts, documento, Desconhecimento);
    AcceptedAtMostLive(attempts, documento, NaoRealizada);
  }

  lemma AcceptedAtMostLive(attempts: seq<Attempt>, documento: nat, tipo: Tipo)
    ensures MaxSeq(attempts, documento, tipo, false) <= MaxSeq(attempts, documento, tipo, true)
  {
    MaxSeqIsMax(attempts, documento, tipo, true);
    MaxSeqIsMax(attempts, documento, tipo, false);
  }

  /** On every run at most one attempt of a document is in transmission, at most one of its Science attempts is
      in transmission or accepted, and no request id was sent twice. */
  lemma TableStaysInOrder(steps: seq<Step>)
    ensures var attempts := Run(INITIAL, steps).attempts;
            && OneInTransmission(attempts)
            && (forall i, j | 0 <= i < j < |attempts| :: attempts[i].requestId != attempts[j].requestId)
            && (forall i, j | 0 <= i < j < |attempts| ::
                  attempts[i].documento == attempts[j].documento && attempts[i].tipo == attempts[j].tipo == Ciencia ==>
                    !Ativa(attempts[i].status) || !Ativa(attempts[j].status))
  {
    hide Next;
    InitialIsGood();
    RunKeepsInv(INITIAL, steps);
    var attempts := Run(INITIAL, steps).attempts;
    assert forall i, j | 0 <= i < j < |attempts| :: !Clash(attempts[i], attempts[j]);
  }

  predicate IsResend(step: Step) {
    step.Registrar? && step.pedido.reenvioConfirmado
  }

  /** Whatever is sent, manually or automatically, is one new row in transmission whose document was free for
      it; an automatic one is Science under an authorisation in force. */
  lemma SendDiscipline(s: State, step: Step)
    requires Inv(s) && |Next(s, step).attempts| > |s.attempts|
    ensures step.Registrar? || step.RegistrarAutomatica?
    ensures |Next(s, step).attempts| == |s.attempts| + 1 && Next(s, step).attempts[..|s.attempts|] == s.attempts
    ensures var a := Next(s, step).attempts[|s.attempts|];
            && a.status == Enviando
            && MaySend(s.attempts, step.events, a.documento, a.requestId, a.tipo, IsResend(step))
            && (step.RegistrarAutomatica? ==>
                  && a.tipo == Ciencia && !SomeAttempt(s.attempts, a.documento, ANY_TYPE, PENDING)
                  && a.escopo.cliente == step.cliente
                  && a.escopo in s.contas && Authorised(s.contas[a.escopo]) && A.Good(s.contas[a.escopo]))
  {
    hide Inv, MaySend, SendsAutomatically, SomeAttempt, Decide, Reconciled, Answered, IndexesHold, A.Good, A.After;
    InvGives(s);
    match step
    case Registrar(p, situacao, events) =>
      ManualSendsInOrder(s.attempts, events, p, situacao);
    case RegistrarAutomatica(documento, cliente, requestId, situacao, events) =>
      if k :| 0 <= k < |s.attempts| && s.attempts[k].requestId == requestId {
        UsedIdIsRefused(s, AutomaticAttempt(documento, cliente, requestId, situacao), true, k);
      } else {
        AutomaticSendsInOrder(s.attempts, events, documento, requestId, situacao,
            ContaOf(s, ScopeFound(cliente, situacao)));
        AuthorisedIsStored(s, step);
      }
    case Reconciliar(documento, cliente, events, now) =>
      ReconcilingSettles(s.attempts, documento, cliente, events, now);
      assert false;
    case _ =>
  }

  lemma AuthorisedIsStored(s: State, step: Step)
    requires Inv(s) && step.RegistrarAutomatica?
    requires SendsAutomatically(s.attempts, step.events, step.documento, step.situacao,
               ContaOf(s, ScopeFound(step.cliente, step.situacao)))
    ensures var escopo := ScopeFound(step.cliente, step.situacao);
            escopo in s.contas && Authorised(s.contas[escopo]) && A.Good(s.contas[escopo])
  {
    hide IndexesHold, LatestScience;
  }

  /** What an authorisation in force amounts to: it was expressly granted under the current term, and the
      trail's last word is that grant. */
  lemma AuthorisedMeans(conta: A.Conta)
    requires A.Good(conta) && Authorised(conta)
    ensures A.Granted(conta.auditoria) && conta.config.value.autorizadaEm.Some? && conta.config.value.revogadaEm == None
    ensures conta.config.value.versaoTermo == Some(A.NFE_AUTOMATION_TERM_VERSION)
  {
  }

  /** Asking again with a request id that was used sends nothing. */
  lemma RepeatedRequestSendsNothing(s: State, p: Pedido, situacao: Situacao, events: seq<Imported>, k: nat)
    requires k < |s.attempts| && s.attempts[k].requestId == p.requestId
    ensures Next(s, Registrar(p, situacao, events)) == s
  {
    hide Unconfirmed, Exhausted;
  }

  // Exactly when a manual registration goes out

  /** The conditions under which a manual registration is due, without any order among them. */
  ghost predicate SendIsDue(attempts: seq<Attempt>, events: seq<Imported>, p: Pedido, s: Situacao) {
    && s.clienteReal && s.encontrada && s.elegivel && s.identidadeValida && s.certificado
    && p.confirmacaoExpressa && (p.tipo == NaoRealizada ==> p.justificativa)
    && MaySend(attempts, events, p.documento, p.requestId, p.tipo, p.reenvioConfirmado)
    && (p.reenvioConfirmado ==>
          && p.tipo == Ciencia && SomeAttempt(attempts, p.documento, SCIENCE, {Indeterminado})
          && !SomeEvent(events, SCIENCE, ANY_STATUS))
    && (p.tipo == Ciencia ==> !s.canceladaOuDenegada)
    && (Final(p.tipo) ==>
          && WithinDays(s, 90)
          && (SomeItem(attempts, events, p.documento, FINALS, ACCEPTED) ==> p.retificar))
  }

  lemma SomethingConclusive(attempts: seq<Attempt>, events: seq<Imported>, documento: nat)
    requires SequencesInRange(attempts)
    ensures AcceptedFinalCount(attempts, events, documento) > 0 <==>
              SomeItem(attempts, events, documento, FINALS, ACCEPTED)
  {
    hide MaxSeq, MaxImported, SomeAttempt, SomeEvent;
    if AcceptedFinalCount(attempts, events, documento) == 0 {
      NothingConclusive(attempts, events, documento);
    } else {
      var tipo := if LastSeq(attempts, events, documento, Confirmacao) > 0 then Confirmacao
                  else if LastSeq(attempts, events, documento, Desconhecimento) > 0 then Desconhecimento
                  else NaoRealizada;
      SeqComesFromSomewhere(attempts, events, documento, tipo);
    }
  }

  lemma SeqComesFromSomewhere(attempts: seq<Attempt>, events: seq<Imported>, documento: nat, tipo: Tipo)
    requires LastSeq(attempts, events, documento, tipo) > 0 && tipo in FINALS
    ensures SomeItem(attempts, events, documento, FINALS, ACCEPTED)
  {
    MaxSeqIsMax(attempts, documento, tipo, false);
    NoImportedMeansNone(events, tipo);
  }

  lemma FewerTypes(attempts: seq<Attempt>, events: seq<Imported>, documento: nat, tipos: set<Tipo>,
      statuses: set<Status>)
    requires tipos <= ANY_TYPE
    ensures SomeAttempt(attempts, documento, tipos, statuses) ==> SomeAttempt(attempts, documento, ANY_TYPE, statuses)
    ensures SomeEvent(events, tipos, statuses) ==> SomeEvent(events, ANY_TYPE, statuses)
  {
  }

  lemma UnclearScienceIsScience(events: seq<Imported>)
    ensures SomeEvent(events, SCIENCE, {Indeterminado}) ==> SomeEvent(events, SCIENCE, ANY_STATUS)
  {
  }

  lemma DueMeansConfirmed(attempts: seq<Attempt>, events: seq<Imported>, p: Pedido, s: Situacao)
    requires SendIsDue(attempts, events, p, s)
    ensures Unconfirmed(attempts, events, p) == None
  {
    hide SomeAttempt, SomeEvent, AcceptedFinalCount;
    FewerTypes(attempts, events, p.documento, FINALS, {Indeterminado});
    FewerTypes(attempts, events, p.documento, SCIENCE, {Indeterminado});
  }

  lemma DueMeansNotExhausted(attempts: seq<Attempt>, events: seq<Imported>, p: Pedido, s: Situacao)
    requires SequencesInRange(attempts) && SendIsDue(attempts, events, p, s)
    ensures Exhausted(attempts, events, p, s) == None || Exhausted(attempts, events, p, s) == Some(SequenciaEsgotada)
  {
    hide SomeAttempt, SomeEvent, MaxSeq, MaxImported, AcceptedFinalCount, LastSeq;
    SomethingConclusive(attempts, events, p.documento);
    FewerTypes(attempts, events, p.documento, FINALS, ACCEPTED);
    FewerTypes(attempts, events, p.documento, SCIENCE, ACCEPTED);
  }

  /** A manual registration goes out if and only if it is due, whatever the order of the checks. */
  lemma SendsExactlyWhenDue(attempts: seq<Attempt>, events: seq<Imported>, p: Pedido, s: Situacao)
    requires SequencesInRange(attempts)
    ensures Decide(attempts, events, p, s).Enviar? <==> SendIsDue(attempts, events, p, s)
  {
    hide SomeAttempt, SomeEvent, MaxSeq, MaxImported, AcceptedFinalCount, LastSeq;
    SequenceNeverExhausted(attempts, events, p, s);
    SomethingConclusive(attempts, events, p.documento);
    FewerTypes(attempts, events, p.documento, FINALS, ACCEPTED);
    FewerTypes(attempts, events, p.documento, SCIENCE, ACCEPTED);
    if Decide(attempts, events, p, s).Enviar? {
      ManualSendsInOrder(attempts, events, p, s);
      UnclearScienceIsScience(events);
    }
    if SendIsDue(attempts, events, p, s) {
      DueMeansConfirmed(attempts, events, p, s);
      DueMeansNotExhausted(attempts, events, p, s);
      assert FindRequest(attempts, p.requestId) == None;
    }
  }
}
