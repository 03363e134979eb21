/** What the checks, the answers and the reconciliation of a manifestation amount to, read off the attempts and
    events themselves. */
module NfeManifestacaoMeaning {
  import opened Options
  import opened NfeManifestacao
  import opened NfeManifestacaoRuns
  import opened NfeManifestacaoResults
  import A = NfeAutomacao

  // Answers

  /** The lot was processed (128) over HTTP 200 and the event registered, linked (135) or without link (136). */
  predicate Registers(r: Resposta, event: string) {
    r == Retorno(200, "128", event)
  }

  /** Which answer leaves which status on the manual path. */
  lemma ManualAnswersMean(r: Resposta)
    ensures ManualStatus(r) == Registrada <==> Registers(r, "135")
    ensures ManualStatus(r) == RegistradaSemVinculo <==> Registers(r, "136")
    ensures ManualStatus(r) == Indeterminado <==>
              || (r.Erro? && (r.requestMayHaveBeenSent || !r.doCliente))
              || (r.Retorno? && r.eventCStat == "573")
    ensures ManualStatus(r) == FalhaLocal <==> r == Erro(true, false)
    ensures ManualStatus(r) == Rejeitada <==>
              r.Retorno? && r.eventCStat != "573" && !Registers(r, "135") && !Registers(r, "136")
  {
  }

  /** And on the automatic one. */
  lemma AutomaticAnswersMean(r: Resposta)
    ensures AutomaticStatus(r) == Registrada <==> Registers(r, "135")
    ensures AutomaticStatus(r) == RegistradaSemVinculo <==> Registers(r, "136")
    ensures AutomaticStatus(r) == Indeterminado <==> r.Erro? && (r.requestMayHaveBeenSent || !r.doCliente)
    ensures AutomaticStatus(r) == FalhaLocal <==> r == Erro(true, false)
    ensures AutomaticStatus(r) == Rejeitada <==> r.Retorno? && !Registers(r, "135") && !Registers(r, "136")
  {
  }

  /** No other Science of the document is in transmission or accepted. */
  ghost predicate NoOtherScience(attempts: seq<Attempt>, i: nat)
    requires i < |attempts|
  {
    forall j | 0 <= j < |attempts| && j != i && attempts[j].documento == attempts[i].documento
      && attempts[j].tipo == Ciencia ::
      attempts[j].status !in {Enviando, Registrada, RegistradaSemVinculo}
  }

  lemma ScienceFitsExactly(attempts: seq<Attempt>, i: nat, status: Status)
    requires i < |attempts| && IndexesHold(attempts) && attempts[i].tipo == Ciencia && Aceita(status)
    ensures UpdateFits(attempts, i, status) <==> NoOtherScience(attempts, i)
    ensures attempts[i].status == Enviando ==> NoOtherScience(attempts, i)
  {
    forall j | 0 <= j < |attempts| && j != i ensures !Clash(attempts[j], attempts[i]) {
      assert if j < i then !Clash(attempts[j], attempts[i]) else !Clash(attempts[i], attempts[j]);
    }
    if NoOtherScience(attempts, i) {
      AcceptanceFits(attempts, i, status);
    }
    if UpdateFits(attempts, i, status) {
      var after := attempts[i := attempts[i].(status := status)];
      forall j | 0 <= j < |attempts| && j != i && attempts[j].documento == attempts[i].documento
        && attempts[j].tipo == Ciencia
        ensures !Ativa(attempts[j].status)
      {
        assert !Clash(after[if j < i then j else i], after[if j < i then i else j]);
        assert after[j] == attempts[j];
      }
    }
  }

  /** The status that a registered Science gets. */
  function Registered(event: string): Status {
    if event == "135" then Registrada else RegistradaSemVinculo
  }

  /** A Science whose answer says that it is registered is accepted exactly if the document has no other one in
      transmission or accepted; while it is itself in transmission it always is. */
  lemma RegisteredScienceIsAccepted(s: State, id: nat, event: string, followUpFails: bool)
    requires Inv(s) && id in s.inFlight && id < |s.attempts|
    requires s.attempts[id].tipo == Ciencia && Pendente(s.attempts[id].status)
    requires (event == "135" && !(s.inFlight[id] && followUpFails)) || event == "136"
    ensures var t := Next(s, Responder(id, Retorno(200, "128", event), followUpFails));
            && id !in t.inFlight && |t.attempts| == |s.attempts|
            && t.attempts[id] == s.attempts[id].(status := t.attempts[id].status)
            && (t.attempts[id].status == Registered(event) <==> NoOtherScience(s.attempts, id))
    ensures s.attempts[id].status == Enviando ==> NoOtherScience(s.attempts, id)
  {
    hide IndexesHold, UpdateFits, NoOtherScience;
    InvGives(s);
    ManualAnswersMean(Retorno(200, "128", event));
    AutomaticAnswersMean(Retorno(200, "128", event));
    ScienceFitsExactly(s.attempts, id, Registered(event));
  }

  /** An accepted Science that no answer is outstanding for. */
  predicate ScienceHeld(s: State, id: nat) {
    id < |s.attempts| && id !in s.inFlight && s.attempts[id].tipo == Ciencia && Aceita(s.attempts[id].status)
  }

  lemma HeldSendsNoScience(s: State, step: Step, id: nat)
    requires Inv(s) && ScienceHeld(s, id) && |Next(s, step).attempts| > |s.attempts|
    ensures |Next(s, step).attempts| == |s.attempts| + 1
    ensures var a := Next(s, step).attempts[|s.attempts|];
            !(a.tipo == Ciencia && a.documento == s.attempts[id].documento)
  {
    hide Inv, Next, AcceptedFinalCount, SomeEvent;
    SendDiscipline(s, step);
    assert s.attempts[id].tipo in ANY_TYPE && s.attempts[id].status in ACCEPTED;
  }

  lemma RowsStay(s: State, step: Step)
    requires Inv(s)
    ensures |s.attempts| <= |Next(s, step).attempts|
    ensures forall k | 0 <= k < |s.attempts| ::
              Next(s, step).attempts[k] == s.attempts[k].(status := Next(s, step).attempts[k].status)
  {
    hide Decide, SendsAutomatically, IndexesHold, Reconciled, Answered, OneInTransmission, ConclusiveBounded,
        SequencesInRange;
    match step
    case Responder(id, r, followUpFails) =>
      if id in s.inFlight {
        AnswerWeakens(s.attempts, id, s.inFlight[id], r, followUpFails);
      }
    case Reconciliar(documento, cliente, events, now) =>
      ReconcilingSettles(s.attempts, documento, cliente, events, now);
    case _ =>
  }

  /** Once a Science is accepted and its answer is in, its row stays and no Science goes out for its document any
      more, on any run. */
  lemma {:induction false} NoScienceAfterwards(s: State, id: nat, steps: seq<Step>)
    requires Inv(s) && ScienceHeld(s, id)
    ensures |s.attempts| <= |Run(s, steps).attempts| && Run(s, steps).attempts[id] == s.attempts[id]
    ensures forall k | |s.attempts| <= k < |Run(s, steps).attempts| ::
              !(Run(s, steps).attempts[k].tipo == Ciencia
                && Run(s, steps).attempts[k].documento == s.attempts[id].documento)
    ensures forall k | 0 <= k < |s.attempts| ::
              Run(s, steps).attempts[k].tipo == s.attempts[k].tipo
              && Run(s, steps).attempts[k].documento == s.attempts[k].documento
    decreases |steps|
  {
    hide Inv, Next;
    if steps != [] {
      var next := Next(s, steps[0]);
      NextKeepsInv(s, steps[0]);
      RowsStay(s, steps[0]);
      NextKeepsSettled(s, steps[0], id);
      if |next.attempts| > |s.attempts| {
        HeldSendsNoScience(s, steps[0], id);
      }
      NoScienceAfterwards(next, id, steps[1..]);
    }
  }

  // What is known of a document

  /** An attempt of the document, or an imported event, has this type and status. */
  ghost predicate Known(attempts: seq<Attempt>, events: seq<Imported>, documento: nat, tipo: Tipo, status: Status) {
    || (exists k | 0 <= k < |attempts| ::
          attempts[k].documento == documento && attempts[k].tipo == tipo && attempts[k].status == status)
    || (exists k | 0 <= k < |events| :: events[k].tipo == tipo && events[k].status == status)
  }

  ghost predicate AnythingPending(attempts: seq<Attempt>, events: seq<Imported>, documento: nat) {
    exists t ::
      Known(attempts, events, documento, t, Enviando) || Known(attempts, events, documento, t, Indeterminado)
  }

  ghost predicate KnownAccepted(attempts: seq<Attempt>, events: seq<Imported>, documento: nat, tipo: Tipo) {
    || Known(attempts, events, documento, tipo, Registrada)
    || Known(attempts, events, documento, tipo, RegistradaSemVinculo)
  }

  ghost predicate ConclusiveAccepted(attempts: seq<Attempt>, events: seq<Imported>, documento: nat) {
    exists t | t != Ciencia :: KnownAccepted(attempts, events, documento, t)
  }

  lemma SomeItemIsKnown(attempts: seq<Attempt>, events: seq<Imported>, documento: nat, tipos: set<Tipo>,
      statuses: set<Status>)
    ensures SomeItem(attempts, events, documento, tipos, statuses) <==>
              exists t, st :: t in tipos && st in statuses && Known(attempts, events, documento, t, st)
  {
    if SomeAttempt(attempts, documento, tipos, statuses) {
      var i :| 0 <= i < |attempts| && attempts[i].documento == documento && attempts[i].tipo in tipos
        && attempts[i].status in statuses;
      assert Known(attempts, events, documento, attempts[i].tipo, attempts[i].status);
    }
    if SomeEvent(events, tipos, statuses) {
      var i :| 0 <= i < |events| && events[i].tipo in tipos && events[i].status in statuses;
      assert Known(attempts, events, documento, events[i].tipo, events[i].status);
    }
  }

  lemma FinalTypes(t: Tipo)
    ensures t in FINALS <==> t != Ciencia
    ensures t in ANY_TYPE && (t in SCIENCE <==> t == Ciencia)
  {
    EveryTypeCounts(t);
  }

  // The latest Science

  /** Event i is the latest Science of all, the first of several of the same instant, and no attempt is later. */
  ghost predicate LatestIsEvent(attempts: seq<Attempt>, events: seq<Imported>, documento: nat, i: nat)
    requires i < |events|
  {
    && events[i].tipo == Ciencia
    && (forall j | 0 <= j < |events| && events[j].tipo == Ciencia ::
        events[j].createdAt < events[i].createdAt || (events[j].createdAt == events[i].createdAt && i <= j))
    && (forall k | 0 <= k < |attempts| && attempts[k].documento == documento && attempts[k].tipo == Ciencia ::
        attempts[k].enviadoEm <= events[i].createdAt)
  }

  /** Attempt i is, and every event is earlier. */
  ghost predicate LatestIsAttempt(attempts: seq<Attempt>, events: seq<Imported>, documento: nat, i: nat)
    requires i < |attempts|
  {
    && attempts[i].documento == documento && attempts[i].tipo == Ciencia
    && (forall j | 0 <= j < |attempts| && attempts[j].documento == documento && attempts[j].tipo == Ciencia ::
        attempts[j].enviadoEm < attempts[i].enviadoEm || (attempts[j].enviadoEm == attempts[i].enviadoEm && i <= j))
    && (forall k | 0 <= k < |events| && events[k].tipo == Ciencia :: events[k].createdAt < attempts[i].enviadoEm)
  }

  ghost predicate NoScience(attempts: seq<Attempt>, events: seq<Imported>, documento: nat) {
    && (forall k | 0 <= k < |attempts| :: !(attempts[k].documento == documento && attempts[k].tipo == Ciencia))
    && (forall k | 0 <= k < |events| :: events[k].tipo != Ciencia)
  }

  /** The latest Science has this status. */
  ghost predicate LatestHas(attempts: seq<Attempt>, events: seq<Imported>, documento: nat, status: Status) {
    || (exists i | 0 <= i < |events| ::
          LatestIsEvent(attempts, events, documento, i) && events[i].status == status)
    || (exists i | 0 <= i < |attempts| ::
          LatestIsAttempt(attempts, events, documento, i) && attempts[i].status == status)
  }

  lemma {:induction false} LatestEventIs(events: seq<Imported>, documento: nat) returns (i: nat)
    ensures LatestEvent(events).None? ==> NoScience([], events, documento)
    ensures LatestEvent(events).Some? ==>
              i < |events| && LatestIsEvent([], events, documento, i)
              && LatestEvent(events).value == Dated(events[i].createdAt, events[i].status)
    decreases |events|
  {
    i := 0;
    if events != [] {
      var n := |events| - 1;
      var front := events[..n];
      i := LatestEventIs(front, documento);
      assert forall k | 0 <= k < n :: front[k] == events[k];
      if events[n].tipo == Ciencia
        && (LatestEvent(front).None? || LatestEvent(front).value.at < events[n].createdAt) {
        i := n;
      }
    }
  }

  lemma {:induction false} LatestScienceIs(attempts: seq<Attempt>, events: seq<Imported>, documento: nat)
    returns (event: bool, i: nat)
    ensures LatestScience(attempts, events, documento).None? ==> NoScience(attempts, events, documento)
    ensures LatestScience(attempts, events, documento).Some? ==>
              var d := LatestScience(attempts, events, documento).value;
              if event
              then i < |events| && LatestIsEvent(attempts, events, documento, i)
                   && d == Dated(events[i].createdAt, events[i].status)
              else i < |attempts| && LatestIsAttempt(attempts, events, documento, i)
                   && d == Dated(attempts[i].enviadoEm, attempts[i].status)
    decreases |attempts|
  {
    if attempts == [] {
      event := true;
      i := LatestEventIs(events, documento);
    } else {
      var n := |attempts| - 1;
      var front := attempts[..n];
      event, i := LatestScienceIs(front, events, documento);
      assert forall k | 0 <= k < n :: front[k] == attempts[k];
      var rest := LatestScience(front, events, documento);
      if attempts[n].documento == documento && attempts[n].tipo == Ciencia
        && (rest.None? || rest.value.at < attempts[n].enviadoEm) {
        event, i := false, n;
      }
    }
  }

  /** There is only one latest Science. */
  lemma LatestIsUnique(attempts: seq<Attempt>, events: seq<Imported>, documento: nat, status: Status, other: Status)
    requires LatestHas(attempts, events, documento, status) && LatestHas(attempts, events, documento, other)
    ensures status == other && !NoScience(attempts, events, documento)
  {
  }

  lemma LatestScienceMeans(attempts: seq<Attempt>, events: seq<Imported>, documento: nat)
    ensures LatestScience(attempts, events, documento).None? <==> NoScience(attempts, events, documento)
    ensures forall status ::
              LatestScience(attempts, events, documento).Some?
              && LatestScience(attempts, events, documento).value.status == status <==>
              LatestHas(attempts, events, documento, status)
  {
    var event, i := LatestScienceIs(attempts, events, documento);
    var latest := LatestScience(attempts, events, documento);
    if latest.Some? {
      assert LatestHas(attempts, events, documento, latest.value.status);
      forall status | LatestHas(attempts, events, documento, status) ensures status == latest.value.status {
        LatestIsUnique(attempts, events, documento, status, latest.value.status);
      }
    }
    forall status | LatestHas(attempts, events, documento, status)
      ensures !NoScience(attempts, events, documento)
    {
      LatestIsUnique(attempts, events, documento, status, status);
    }
  }

  // Automatic Science

  /** Neither a result is awaited nor is anything accepted. */
  ghost predicate Untouched(attempts: seq<Attempt>, events: seq<Imported>, documento: nat) {
    && !AnythingPending(attempts, events, documento) && !ConclusiveAccepted(attempts, events, documento)
    && !KnownAccepted(attempts, events, documento, Ciencia)
  }

  predicate InForce(conta: A.Conta) {
    match conta.config
    case None => false
    case Some(c) => c.cienciaAutomatica && c.autorizacaoAtiva
  }

  predicate TenDays(s: Situacao) {
    s.autorizadaEm.Some? && s.now - s.autorizadaEm.value <= 10 * 24 * 3600 * 1000
  }

  lemma ItemsMean(attempts: seq<Attempt>, events: seq<Imported>, documento: nat)
    ensures SomeItem(attempts, events, documento, ANY_TYPE, PENDING) <==>
              AnythingPending(attempts, events, documento)
    ensures SomeItem(attempts, events, documento, FINALS, ACCEPTED) <==>
              ConclusiveAccepted(attempts, events, documento)
    ensures SomeItem(attempts, events, documento, SCIENCE, {Registrada}) <==>
              Known(attempts, events, documento, Ciencia, Registrada)
    ensures SomeItem(attempts, events, documento, SCIENCE, {RegistradaSemVinculo}) <==>
              Known(attempts, events, documento, Ciencia, RegistradaSemVinculo)
  {
    hide SomeItem, Known;
    forall t: Tipo ensures (t in FINALS <==> t != Ciencia) && t in ANY_TYPE && (t in SCIENCE <==> t == Ciencia) {
      FinalTypes(t);
    }
    SomeItemIsKnown(attempts, events, documento, ANY_TYPE, PENDING);
    SomeItemIsKnown(attempts, events, documento, FINALS, ACCEPTED);
    if ConclusiveAccepted(attempts, events, documento) {
      var t :| t != Ciencia && KnownAccepted(attempts, events, documento, t);
      assert t in FINALS && Registrada in ACCEPTED && RegistradaSemVinculo in ACCEPTED;
    }
    if t, st :| t in FINALS && st in ACCEPTED && Known(attempts, events, documento, t, st) {
      assert KnownAccepted(attempts, events, documento, t);
    }
    SomeItemIsKnown(attempts, events, documento, SCIENCE, {Registrada});
    SomeItemIsKnown(attempts, events, documento, SCIENCE, {RegistradaSemVinculo});
  }

  /** What preparing a recovery task comes to, case by case. */
  lemma PreparationMeans(attempts: seq<Attempt>, events: seq<Imported>, documento: nat, s: Situacao, conta: A.Conta)
    ensures var o := Prepare(attempts, events, documento, s, conta);
            var pending, conclusive := AnythingPending(attempts, events, documento),
                                       ConclusiveAccepted(attempts, events, documento);
            var linked, unlinked := Known(attempts, events, documento, Ciencia, Registrada),
                                    Known(attempts, events, documento, Ciencia, RegistradaSemVinculo);
            var free := Untouched(attempts, events, documento);
            && (o == ResultadoPendente <==> pending)
            && (o == JaAceita <==> !pending && (linked || conclusive))
            && (o == AguardaEvento <==> !pending && !linked && !conclusive && unlinked)
            && (o == SemAutorizacao <==> free && !InForce(conta))
            && (o == SemCliente <==> free && InForce(conta) && !s.clienteReal)
            && (o == NaoAchada <==> free && InForce(conta) && s.clienteReal && !s.encontrada)
            && (o == Inelegivel <==> free && InForce(conta) && s.clienteReal && s.encontrada && !s.elegivel)
            && (o == CertificadoAusente <==>
                  free && InForce(conta) && s.clienteReal && s.encontrada && s.elegivel && !s.certificado)
            && (o == PrazoExcedido <==>
                  free && InForce(conta) && s.clienteReal && s.encontrada && s.elegivel && s.certificado && !TenDays(s))
            && (forall status :: o == CienciaAnterior(status) <==>
                  && free && InForce(conta) && s.clienteReal && s.encontrada && s.elegivel && s.certificado
                  && TenDays(s) && LatestHas(attempts, events, documento, status) && status != FalhaLocal)
  {
    hide Known, LatestHas, LatestScience, SomeItem, ConclusiveAccepted, AnythingPending;
    ItemsMean(attempts, events, documento);
    LatestScienceMeans(attempts, events, documento);
  }

  /** Exactly when automatic Science goes out. */
  lemma AutomaticSendsExactly(attempts: seq<Attempt>, events: seq<Imported>, documento: nat, s: Situacao,
      conta: A.Conta)
    ensures SendsAutomatically(attempts, events, documento, s, conta) <==>
              && s.clienteReal && s.encontrada && s.elegivel && s.certificado && TenDays(s) && InForce(conta)
              && Untouched(attempts, events, documento)
              && (NoScience(attempts, events, documento) || LatestHas(attempts, events, documento, FalhaLocal))
  {
    hide Known, LatestHas, LatestScience, SomeItem, ConclusiveAccepted, AnythingPending, NoScience;
    ItemsMean(attempts, events, documento);
    LatestScienceMeans(attempts, events, documento);
  }

  // Manual registration

  /** The source's checks, in its order. */
  function Rank(m: Recusa): nat {
    match m
    case SemClienteReal => 0
    case SemAutorizacaoExpressa => 1
    case SemJustificativa => 2
    case NaoEncontrada => 3
    case NaoElegivel => 4
    case SemIdentidade => 5
    case SemCertificado => 6
    case RequestIdDeOutroDocumento => 7
    case ReenvioSoDeCiencia => 8
    case NadaIndeterminado => 9
    case CienciaImportada => 10
    case OutroIndeterminado => 11
    case ImportadoIndeterminado => 12
    case EmAndamento => 13
    case CienciaDuplicada => 14
    case LimiteConclusiva => 15
    case RetificacaoNaoMarcada => 16
    case CienciaDeCancelada => 17
    case ForaDoPrazo => 18
    case SequenciaEsgotada => 19
  }

  ghost predicate AttemptIs(attempts: seq<Attempt>, documento: nat, tipo: Tipo, status: Status) {
    Known(attempts, [], documento, tipo, status)
  }

  ghost predicate EventIs(events: seq<Imported>, tipo: Tipo, status: Status) {
    exists k | 0 <= k < |events| :: events[k].tipo == tipo && events[k].status == status
  }

  /** What each refusal says about the request and what is stored. */
  ghost predicate Grounds(m: Recusa, attempts: seq<Attempt>, events: seq<Imported>, p: Pedido, s: Situacao) {
    match m
    case SemClienteReal => !s.clienteReal
    case SemAutorizacaoExpressa => !p.confirmacaoExpressa
    case SemJustificativa => p.tipo == NaoRealizada && !p.justificativa
    case NaoEncontrada => !s.encontrada
    case NaoElegivel => !s.elegivel
    case SemIdentidade => !s.identidadeValida
    case SemCertificado => !s.certificado
    case RequestIdDeOutroDocumento =>
      exists k | 0 <= k < |attempts| :: attempts[k].requestId == p.requestId
        && !(attempts[k].documento == p.documento && attempts[k].escopo.cliente == p.cliente)
    case ReenvioSoDeCiencia => p.reenvioConfirmado && p.tipo != Ciencia
    case NadaIndeterminado => p.reenvioConfirmado && !Known(attempts, events, p.documento, Ciencia, Indeterminado)
    case CienciaImportada => p.reenvioConfirmado && exists k | 0 <= k < |events| :: events[k].tipo == Ciencia
    case OutroIndeterminado => exists t | t != Ciencia :: Known(attempts, events, p.documento, t, Indeterminado)
    case ImportadoIndeterminado => !p.reenvioConfirmado && exists t :: EventIs(events, t, Indeterminado)
    case EmAndamento =>
      exists t ::
        || AttemptIs(attempts, p.documento, t, Enviando)
        || (AttemptIs(attempts, p.documento, t, Indeterminado) && !(p.reenvioConfirmado && t == Ciencia))
    case CienciaDuplicada =>
      p.tipo == Ciencia && (ConclusiveAccepted(attempts, events, p.documento)
        || KnownAccepted(attempts, events, p.documento, Ciencia))
    case LimiteConclusiva => p.tipo != Ciencia && AcceptedFinalCount(attempts, events, p.documento) >= 2
    case RetificacaoNaoMarcada =>
      p.tipo != Ciencia && ConclusiveAccepted(attempts, events, p.documento) && !p.retificar
    case CienciaDeCancelada => p.tipo == Ciencia && s.canceladaOuDenegada
    case ForaDoPrazo =>
      p.tipo != Ciencia
        && (s.autorizadaEm.None? || s.now - s.autorizadaEm.value > 90 * 24 * 3600 * 1000)
    case SequenciaEsgotada => false
  }

  /** `m` is the first of the checks from `low` on that fails. */
  ghost predicate First(m: Recusa, low: nat, attempts: seq<Attempt>, events: seq<Imported>, p: Pedido, s: Situacao) {
    && low <= Rank(m) && Grounds(m, attempts, events, p, s)
    && forall n: Recusa | low <= Rank(n) < Rank(m) :: !Grounds(n, attempts, events, p, s)
  }

  /** None of the checks from `low` to `high` fails. */
  ghost predicate Clear(low: nat, high: nat, attempts: seq<Attempt>, events: seq<Imported>, p: Pedido, s: Situacao) {
    forall n: Recusa | low <= Rank(n) < high :: !Grounds(n, attempts, events, p, s)
  }

  lemma PreliminaryMeans(attempts: seq<Attempt>, events: seq<Imported>, p: Pedido, s: Situacao)
    ensures forall m :: Preliminary(p, s) == Some(m) <==> Rank(m) < 7 && First(m, 0, attempts, events, p, s)
    ensures Preliminary(p, s).None? <==> Clear(0, 7, attempts, events, p, s)
  {
    hide Known;
  }

  lemma EventsMean(events: seq<Imported>)
    ensures SomeEvent(events, SCIENCE, ANY_STATUS) <==> exists k | 0 <= k < |events| :: events[k].tipo == Ciencia
    ensures SomeEvent(events, ANY_TYPE, {Indeterminado}) <==> exists t :: EventIs(events, t, Indeterminado)
  {
    forall k | 0 <= k < |events| ensures events[k].status in ANY_STATUS && events[k].tipo in ANY_TYPE {
      FinalTypes(events[k].tipo);
      StatusIsOne(events[k].status);
    }
    if SomeEvent(events, ANY_TYPE, {Indeterminado}) {
      var k :| 0 <= k < |events| && events[k].status == Indeterminado;
      assert EventIs(events, events[k].tipo, Indeterminado);
    }
  }

  lemma StatusIsOne(status: Status)
    ensures status in ANY_STATUS
  {
    match status
    case Enviando =>
    case Registrada =>
    case RegistradaSemVinculo =>
    case Rejeitada =>
    case FalhaLocal =>
    case Indeterminado =>
  }

  lemma UnknownMeans(attempts: seq<Attempt>, events: seq<Imported>, documento: nat)
    ensures SomeItem(attempts, events, documento, SCIENCE, {Indeterminado}) <==>
              Known(attempts, events, documento, Ciencia, Indeterminado)
    ensures SomeItem(attempts, events, documento, FINALS, {Indeterminado}) <==>
              exists t | t != Ciencia :: Known(attempts, events, documento, t, Indeterminado)
  {
    hide Known, SomeItem;
    forall t: Tipo ensures t in FINALS <==> t != Ciencia {
      FinalTypes(t);
    }
    SomeItemIsKnown(attempts, events, documento, SCIENCE, {Indeterminado});
    SomeItemIsKnown(attempts, events, documento, FINALS, {Indeterminado});
  }

  lemma InProgressMeans(attempts: seq<Attempt>, documento: nat, resend: bool)
    ensures InProgress(attempts, documento, resend) <==>
              exists t ::
                || AttemptIs(attempts, documento, t, Enviando)
                || (AttemptIs(attempts, documento, t, Indeterminado) && !(resend && t == Ciencia))
  {
    hide Known, SomeAttempt;
    forall t: Tipo ensures (t in FINALS <==> t != Ciencia) && t in ANY_TYPE {
      FinalTypes(t);
    }
    AttemptsMean(attempts, documento, ANY_TYPE, Enviando);
    AttemptsMean(attempts, documento, if resend then FINALS else ANY_TYPE, Indeterminado);
  }

  lemma AttemptsMean(attempts: seq<Attempt>, documento: nat, tipos: set<Tipo>, status: Status)
    ensures SomeAttempt(attempts, documento, tipos, {status}) <==>
              exists t :: t in tipos && AttemptIs(attempts, documento, t, status)
  {
    SomeItemIsKnown(attempts, [], documento, tipos, {status});
  }

  lemma UnconfirmedMeans(attempts: seq<Attempt>, events: seq<Imported>, p: Pedido, s: Situacao)
    ensures forall m :: Unconfirmed(attempts, events, p) == Some(m) <==>
              Rank(m) < 14 && First(m, 8, attempts, events, p, s)
    ensures Unconfirmed(attempts, events, p).None? <==> Clear(8, 14, attempts, events, p, s)
  {
    FirstUnconfirmed(attempts, events, p, s);
    hide Unconfirmed, Grounds;
    var unconfirmed := Unconfirmed(attempts, events, p);
    if unconfirmed.Some? {
      forall m | First(m, 8, attempts, events, p, s) ensures m == unconfirmed.value {
        FirstIsUnique(m, unconfirmed.value, 8, attempts, events, p, s);
      }
    }
  }

  lemma FirstUnconfirmed(attempts: seq<Attempt>, events: seq<Imported>, p: Pedido, s: Situacao)
    ensures match Unconfirmed(attempts, events, p)
            case Some(m) => Rank(m) < 14 && First(m, 8, attempts, events, p, s)
            case None => Clear(8, 14, attempts, events, p, s)
  {
    hide Known, SomeItem, SomeEvent, InProgress, EventIs, AttemptIs;
    EventsMean(events);
    UnknownMeans(attempts, events, p.documento);
    InProgressMeans(attempts, p.documento, p.reenvioConfirmado);
  }

  lemma ExhaustedMeans(attempts: seq<Attempt>, events: seq<Imported>, p: Pedido, s: Situacao)
    requires SequencesInRange(attempts)
    ensures forall m :: Exhausted(attempts, events, p, s) == Some(m) <==> First(m, 14, attempts, events, p, s)
    ensures Exhausted(attempts, events, p, s).None? <==> Clear(14, 20, attempts, events, p, s)
  {
    hide Known, SomeItem, AcceptedFinalCount, LastSeq, ConclusiveAccepted;
    AcceptedMeans(attempts, events, p.documento);
    SequenceIsLeft(attempts, events, p, s);
    var exhausted := Exhausted(attempts, events, p, s);
    if exhausted.Some? {
      assert First(exhausted.value, 14, attempts, events, p, s);
      forall m | First(m, 14, attempts, events, p, s) ensures m == exhausted.value {
        FirstIsUnique(m, exhausted.value, 14, attempts, events, p, s);
      }
    }
  }

  lemma FirstIsUnique(m: Recusa, n: Recusa, low: nat, attempts: seq<Attempt>, events: seq<Imported>, p: Pedido,
      s: Situacao)
    requires First(m, low, attempts, events, p, s) && First(n, low, attempts, events, p, s)
    ensures m == n
  {
    hide Grounds;
  }

  lemma AcceptedMeans(attempts: seq<Attempt>, events: seq<Imported>, documento: nat)
    requires SequencesInRange(attempts)
    ensures AcceptedFinalCount(attempts, events, documento) > 0 <==> ConclusiveAccepted(attempts, events, documento)
    ensures SomeItem(attempts, events, documento, SCIENCE, ACCEPTED) <==>
              KnownAccepted(attempts, events, documento, Ciencia)
  {
    hide Known, SomeItem, AcceptedFinalCount, ConclusiveAccepted;
    SomethingConclusive(attempts, events, documento);
    ItemsMean(attempts, events, documento);
    SomeItemIsKnown(attempts, events, documento, SCIENCE, ACCEPTED);
    assert Registrada in ACCEPTED && RegistradaSemVinculo in ACCEPTED && Ciencia in SCIENCE;
  }

  /** After the other checks the sequence number is in range. */
  lemma SequenceIsLeft(attempts: seq<Attempt>, events: seq<Imported>, p: Pedido, s: Situacao)
    requires SequencesInRange(attempts)
    ensures Exhausted(attempts, events, p, s) != Some(SequenciaEsgotada)
  {
    hide MaxSeq, MaxImported, SomeEvent, SomeAttempt;
    if p.tipo == Ciencia && !SomeItem(attempts, events, p.documento, SCIENCE, ACCEPTED) {
      NoAcceptedScience(attempts, events, p.documento);
    }
  }

  ghost predicate IdIsUsed(attempts: seq<Attempt>, requestId: nat) {
    exists k | 0 <= k < |attempts| :: attempts[k].requestId == requestId
  }

  /** A manual registration is refused with the first of its checks that fails; a request id that was used for the
      same document and client gives the earlier attempt back; anything else goes out, with the sequence number
      after the highest accepted one of its type. */
  lemma DecisionMeans(attempts: seq<Attempt>, events: seq<Imported>, p: Pedido, s: Situacao)
    requires IndexesHold(attempts) && SequencesInRange(attempts)
    ensures forall m :: Decide(attempts, events, p, s) == Recusar(m) <==>
              First(m, 0, attempts, events, p, s) && (Rank(m) > 7 ==> !IdIsUsed(attempts, p.requestId))
    ensures forall k: nat :: Decide(attempts, events, p, s) == Repetir(k) <==>
              k < |attempts| && attempts[k].requestId == p.requestId && Clear(0, 8, attempts, events, p, s)
    ensures forall n: nat :: Decide(attempts, events, p, s) == Enviar(n) <==>
              && !IdIsUsed(attempts, p.requestId) && Clear(0, 20, attempts, events, p, s)
              && n == LastSeq(attempts, events, p.documento, p.tipo) + 1
  {
    hide Preliminary, Unconfirmed, Exhausted, Known, Grounds;
    PreliminaryMeans(attempts, events, p, s);
    UnconfirmedMeans(attempts, events, p, s);
    ExhaustedMeans(attempts, events, p, s);
    IdMeans(attempts, events, p, s);
    RanksAreBelow();
  }

  lemma RanksAreBelow()
    ensures forall m: Recusa :: Rank(m) < 20
    ensures forall m: Recusa :: Rank(m) == 7 <==> m == RequestIdDeOutroDocumento
  {
  }

  lemma IdMeans(attempts: seq<Attempt>, events: seq<Imported>, p: Pedido, s: Situacao)
    requires IndexesHold(attempts)
    ensures FindRequest(attempts, p.requestId).Some? <==> IdIsUsed(attempts, p.requestId)
    ensures FindRequest(attempts, p.requestId).Some? ==>
              var k := FindRequest(attempts, p.requestId).value;
              && (Grounds(RequestIdDeOutroDocumento, attempts, events, p, s) <==>
                    attempts[k].documento != p.documento || attempts[k].escopo.cliente != p.cliente)
              && forall i | 0 <= i < |attempts| && attempts[i].requestId == p.requestId :: i == k
    ensures Grounds(RequestIdDeOutroDocumento, attempts, events, p, s) ==> IdIsUsed(attempts, p.requestId)
  {
    hide FindRequest;
    var found := FindRequest(attempts, p.requestId);
    if found.Some? {
      forall i | 0 <= i < |attempts| && attempts[i].requestId == p.requestId ensures i == found.value {
      }
    }
  }

  // Reconciliation

  lemma {:induction false} PendingIdsMean(attempts: seq<Attempt>, documento: nat, cliente: nat)
    ensures forall i: nat :: i in PendingIds(attempts, documento, cliente) <==>
              && i < |attempts| && attempts[i].documento == documento && attempts[i].escopo.cliente == cliente
              && (attempts[i].status == Enviando || attempts[i].status == Indeterminado)
    decreases |attempts|
  {
    if attempts != [] {
      var n := |attempts| - 1;
      PendingIdsMean(attempts[..n], documento, cliente);
      assert forall i | 0 <= i < n :: attempts[..n][i] == attempts[i];
    }
  }

  /** An attempt still in transmission ten minutes after it was sent. */
  predicate LostHope(a: Attempt, now: int) {
    a.status == Enviando && now - a.enviadoEm >= 10 * 60 * 1000
  }

  /** Exactly those of the list become indeterminate. */
  lemma {:induction false} StaleMarkedExactly(attempts: seq<Attempt>, ids: seq<nat>, now: int, i: nat)
    requires IndexesHold(attempts) && AllLive(attempts, ids) && i < |attempts|
    ensures StaleMarked(attempts, ids, now)[i]
            == if i in ids && LostHope(attempts[i], now) then attempts[i].(status := Indeterminado) else attempts[i]
    decreases |ids|
  {
    hide IndexesHold, UpdateFits;
    if ids != [] {
      var a := attempts[ids[0]];
      if LostHope(a, now) {
        RejectionAlwaysFits(attempts, ids[0]);
        UpdateSettles(attempts, ids, ids[0], Indeterminado);
        StaleMarkedExactly(Updated(attempts, ids[0], Indeterminado), ids[1..], now, i);
      } else {
        StaleMarkedExactly(attempts, ids[1..], now, i);
      }
    }
  }

  /** The event officially confirms the attempt: same type, registered, with its number, or with none for Science. */
  predicate Tells(e: Imported, a: Attempt, status: Status) {
    && e.tipo == a.tipo && e.status == status && (status == Registrada || status == RegistradaSemVinculo)
    && match e.nSeq
       case Some(n) => n == a.nSeq
       case None => a.tipo == Ciencia
  }

  /** What a reconciliation makes of one attempt: nothing unless it is pending, of the document and of the client;
      without an event that confirms it, it at most loses hope; and it is only accepted as such an event says. */
  lemma ReconciliationMeans(attempts: seq<Attempt>, documento: nat, cliente: nat, events: seq<Imported>, now: int,
      i: nat)
    requires IndexesHold(attempts) && i < |attempts|
    ensures |Reconciled(attempts, documento, cliente, events, now)| == |attempts|
    ensures var a, after := attempts[i], Reconciled(attempts, documento, cliente, events, now)[i];
            var asked :=
              a.documento == documento && a.escopo.cliente == cliente && a.status in {Enviando, Indeterminado};
            var waited := if asked && LostHope(a, now) then a.(status := Indeterminado) else a;
            && (!asked ==> after == a)
            && (after == waited
                || (asked && after == a.(status := after.status)
                    && exists k | 0 <= k < |events| :: Tells(events[k], a, after.status)))
  {
    hide IndexesHold, PendingIds, StaleMarked, Confirmed, UpdateFits;
    var ids := PendingIds(attempts, documento, cliente);
    PendingIdsMean(attempts, documento, cliente);
    StaleMarkingSettles(attempts, ids, ids, now);
    StaleMarkedExactly(attempts, ids, now, i);
    var marked := StaleMarked(attempts, ids, now);
    AcceptedOnOfficialWord(marked, ids, events, i);
    if i !in ids {
      ConfirmingLeavesOthers(marked, ids, events, i);
    }
    ReconcilingSettles(attempts, documento, cliente, events, now);
    var after := Confirmed(marked, ids, events)[i];
    if after != marked[i] {
      var k :| 0 <= k < |events| && Confirms(events[k], marked[i]) && events[k].status == after.status;
      assert Tells(events[k], attempts[i], after.status);
    }
  }

  /** The official word on an attempt is that of the first event that confirms it. */
  lemma {:induction false} OfficialIsFirst(events: seq<Imported>, a: Attempt, status: Status)
    ensures Official(events, a) == Some(status) <==>
              exists k | 0 <= k < |events| ::
                Tells(events[k], a, status) && forall j | 0 <= j < k :: !Tells(events[j], a, events[j].status)
    decreases |events|
  {
    hide Official;
    if events != [] {
      OfficialIsFirst(events[1..], a, status);
      OfficialUnfolds(events, a);
      assert forall k | 0 < k < |events| :: events[1..][k - 1] == events[k];
    }
  }

  lemma OfficialUnfolds(events: seq<Imported>, a: Attempt)
    requires events != []
    ensures Official(events, a)
            == if Tells(events[0], a, events[0].status) then Some(events[0].status) else Official(events[1..], a)
  {
  }

  // Sequence numbers

  /** The number of an event; one where it is missing. */
  function NumberOf(e: Imported): nat {
    match e.nSeq
    case Some(n) => n
    case None => 1
  }

  ghost predicate AcceptedAttempt(a: Attempt, documento: nat, tipo: Tipo) {
    a.documento == documento && a.tipo == tipo && (a.status == Registrada || a.status == RegistradaSemVinculo)
  }

  ghost predicate AcceptedEvent(e: Imported, tipo: Tipo) {
    e.tipo == tipo && (e.status == Registrada || e.status == RegistradaSemVinculo)
  }

  lemma {:induction false} ImportedNumberIsHighest(events: seq<Imported>, tipo: Tipo)
    ensures var n := MaxImported(events, tipo);
            && (forall k | 0 <= k < |events| && AcceptedEvent(events[k], tipo) :: NumberOf(events[k]) <= n)
            && (n > 0 ==> exists k | 0 <= k < |events| ::
                  AcceptedEvent(events[k], tipo) && NumberOf(events[k]) == n)
    decreases |events|
  {
    if events != [] {
      var k := |events| - 1;
      var front := events[..k];
      ImportedNumberIsHighest(front, tipo);
      assert forall j | 0 <= j < k :: front[j] == events[j];
      var n := MaxImported(front, tipo);
      if n > 0 {
        var j :| 0 <= j < |front| && AcceptedEvent(front[j], tipo) && NumberOf(front[j]) == n;
        assert AcceptedEvent(events[j], tipo);
      }
    }
  }

  /** The last number of a type is the highest of its accepted attempts and events, zero if there is none; together
      those of the three conclusive types are what counts towards the limit. */
  lemma LastNumberIsHighest(attempts: seq<Attempt>, events: seq<Imported>, documento: nat, tipo: Tipo)
    ensures var n := LastSeq(attempts, events, documento, tipo);
            && (forall k | 0 <= k < |attempts| && AcceptedAttempt(attempts[k], documento, tipo) ::
                  attempts[k].nSeq <= n)
            && (forall k | 0 <= k < |events| && AcceptedEvent(events[k], tipo) :: NumberOf(events[k]) <= n)
            && (n > 0 ==>
                  || (exists k | 0 <= k < |attempts| ::
                        AcceptedAttempt(attempts[k], documento, tipo) && attempts[k].nSeq == n)
                  || (exists k | 0 <= k < |events| :: AcceptedEvent(events[k], tipo) && NumberOf(events[k]) == n))
    ensures AcceptedFinalCount(attempts, events, documento)
            == LastSeq(attempts, events, documento, Confirmacao) + LastSeq(attempts, events, documento, Desconhecimento)
               + LastSeq(attempts, events, documento, NaoRealizada)
  {
    MaxSeqIsMax(attempts, documento, tipo, false);
    ImportedNumberIsHighest(events, tipo);
    forall k | 0 <= k < |attempts|
      ensures AcceptedAttempt(attempts[k], documento, tipo) <==> Counts(attempts[k], documento, tipo, false)
    {
    }
    hide Counts, MaxSeq, MaxImported;
  }

  // The other steps

  /** A lost answer, and a change of the authorisation, in the runs: the one only gives up waiting, the other only moves
      the row and trail of its client, establishment and environment, as the automation settings say. */
  lemma OtherStepsMean(s: State, id: nat, escopo: Escopo, op: A.Operacao)
    ensures var t := Next(s, Interromper(id));
            id !in t.inFlight && t == s.(inFlight := t.inFlight)
              && forall i | i in s.inFlight && i != id :: i in t.inFlight && t.inFlight[i] == s.inFlight[i]
    ensures var t := Next(s, Automatizar(escopo, op));
            && t == s.(contas := t.contas) && escopo in t.contas
            && t.contas[escopo] == A.After(if escopo in s.contas then s.contas[escopo] else A.Conta(None, []), op)
            && forall e | e in s.contas && e != escopo :: e in t.contas && t.contas[e] == s.contas[e]
  {
  }
}
