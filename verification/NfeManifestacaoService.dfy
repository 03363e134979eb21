/** The service itself: the attempts table, the requests that wait for their answers, and the methods that
    check, create, answer and reconcile. Each call is one step of NfeManifestacaoRuns. */
module NfeManifestacaoService {
  import opened Options
  import opened NfeManifestacao
  import opened NfeManifestacaoRuns
  import A = NfeAutomacao

  datatype Resultado = Enviado(id: nat) | Anterior(id: nat) | Recusado(motivo: Recusa)

  /** reduce over the accepted imported events of one type. */
  method HighestImported(events: seq<Imported>, tipo: Tipo) returns (highest: nat)
    ensures highest == MaxImported(events, tipo)
  {
    highest := 0;
    for k := 0 to |events|
      invariant highest == MaxImported(events[..k], tipo)
    {
      assert events[..k + 1][..k] == events[..k];
      var e := events[k];
      if e.tipo == tipo && Aceita(e.status) {
        var n := if e.nSeq.Some? then e.nSeq.value else 1;
        if highest < n {
          highest := n;
        }
      }
    }
    assert events[..|events|] == events;
  }

  /** reduce over the accepted attempts of one document and type. */
  method HighestAttempt(attempts: seq<Attempt>, documento: nat, tipo: Tipo) returns (highest: nat)
    ensures highest == MaxSeq(attempts, documento, tipo, false)
  {
    highest := 0;
    for k := 0 to |attempts|
      invariant highest == MaxSeq(attempts[..k], documento, tipo, false)
    {
      assert attempts[..k + 1][..k] == attempts[..k];
      var a := attempts[k];
      if a.documento == documento && a.tipo == tipo && Aceita(a.status) && highest < a.nSeq {
        highest := a.nSeq;
      }
    }
    assert attempts[..|attempts|] == attempts;
  }

  class ManifestacaoService {
    var attempts: seq<Attempt>
    var inFlight: map<nat, bool>
    var contas: map<Escopo, A.Conta>

    ghost function Contents(): State
      reads this
    {
      State(attempts, inFlight, contas)
    }

    constructor ()
      ensures Contents() == INITIAL
    {
      attempts, inFlight, contas := [], map[], map[];
    }

    method SequenceSoFar(events: seq<Imported>, documento: nat, tipo: Tipo) returns (n: nat)
      ensures n == LastSeq(attempts, events, documento, tipo)
    {
      var app := HighestAttempt(attempts, documento, tipo);
      var imported := HighestImported(events, tipo);
      n := if app < imported then imported else app;
    }

    method CountAcceptedFinals(events: seq<Imported>, documento: nat) returns (total: nat)
      ensures total == AcceptedFinalCount(attempts, events, documento)
    {
      hide LastSeq;
      var codes := [Confirmacao, Desconhecimento, NaoRealizada];
      var first := SequenceSoFar(events, documento, codes[0]);
      var second := SequenceSoFar(events, documento, codes[1]);
      var third := SequenceSoFar(events, documento, codes[2]);
      total := first + second + third;
    }

    method Insert(a: Attempt, automatic: bool) returns (ok: bool)
      modifies this
      ensures Contents() == Create(old(Contents()), a, automatic)
      ensures ok == IndexesHold(old(attempts) + [a]) && (ok ==> |attempts| == |old(attempts)| + 1)
    {
      hide Clash;
      ok := IndexesHold(attempts + [a]);
      if ok {
        inFlight := inFlight[|attempts| := automatic];
        attempts := attempts + [a];
      }
    }

    method Registrar(p: Pedido, s: Situacao, events: seq<Imported>) returns (r: Resultado)
      modifies this
      ensures Contents() == Next(old(Contents()), NfeManifestacaoRuns.Registrar(p, s, events))
      ensures match Decide(old(attempts), events, p, s)
              case Recusar(motivo) => r == Recusado(motivo)
              case Repetir(anterior) => r == Anterior(anterior)
              case Enviar(nSeq) =>
                if IndexesHold(old(attempts) + [NewAttempt(p, s, nSeq)]) then r == Enviado(|old(attempts)|)
                  else r == Recusado(EmAndamento)
    {
      hide LastSeq, AcceptedFinalCount, SomeAttempt, SomeEvent, IndexesHold;
      var refused := Preliminary(p, s);
      if refused.Some? {
        return Recusado(refused.value);
      }
      var prior := FindRequest(attempts, p.requestId);
      if prior.Some? {
        if attempts[prior.value].documento != p.documento || attempts[prior.value].escopo.cliente != p.cliente {
          return Recusado(RequestIdDeOutroDocumento);
        }
        return Anterior(prior.value);
      }
      refused := Unconfirmed(attempts, events, p);
      if refused.Some? {
        return Recusado(refused.value);
      }
      var acceptedFinalCount := CountAcceptedFinals(events, p.documento);
      if p.tipo == Ciencia && (acceptedFinalCount > 0 || SomeItem(attempts, events, p.documento, SCIENCE, ACCEPTED)) {
        return Recusado(CienciaDuplicada);
      }
      if Final(p.tipo) && acceptedFinalCount >= MAX_CONCLUSIVE {
        return Recusado(LimiteConclusiva);
      }
      if Final(p.tipo) && acceptedFinalCount > 0 && !p.retificar {
        return Recusado(RetificacaoNaoMarcada);
      }
      if p.tipo == Ciencia && s.canceladaOuDenegada {
        return Recusado(CienciaDeCancelada);
      }
      if Final(p.tipo) && !WithinDays(s, 90) {
        return Recusado(ForaDoPrazo);
      }
      var sequence := SequenceSoFar(events, p.documento, p.tipo);
      sequence := sequence + 1;
      if sequence > 2 {
        return Recusado(SequenciaEsgotada);
      }
      var created := Insert(NewAttempt(p, s, sequence), false);
      r := if created then Enviado(|attempts| - 1) else Recusado(EmAndamento);
    }

    /** Preparing a recovery task and, if it comes to that, its own Science, with the authorisation read again
        just before it is created. `sent` is the attempt when one was created. */
    method RegisterAutomaticScience(documento: nat, cliente: nat, requestId: nat, s: Situacao, events: seq<Imported>)
      returns (outcome: Preparo, sent: Option<nat>)
      modifies this
      ensures Contents() == Next(old(Contents()), RegistrarAutomatica(documento, cliente, requestId, s, events))
      ensures outcome == Prepare(old(attempts), events, documento, s, ContaOf(old(Contents()), ScopeFound(cliente, s)))
      ensures var a := AutomaticAttempt(documento, cliente, requestId, s);
              sent == if outcome.Envia? && IndexesHold(old(attempts) + [a]) then Some(|old(attempts)|) else None
    {
      hide SomeAttempt, SomeEvent, IndexesHold, LatestScience;
      sent := None;
      if SomeItem(attempts, events, documento, ANY_TYPE, PENDING) {
        return ResultadoPendente, None;
      }
      var acceptedScience := SomeItem(attempts, events, documento, SCIENCE, {Registrada});
      var acceptedConclusive := SomeItem(attempts, events, documento, FINALS, ACCEPTED);
      var scienceWithoutLink := SomeItem(attempts, events, documento, SCIENCE, {RegistradaSemVinculo});
      if scienceWithoutLink && !acceptedScience && !acceptedConclusive {
        return AguardaEvento, None;
      }
      if acceptedScience || acceptedConclusive {
        return JaAceita, None;
      }
      var escopo := ScopeFound(cliente, s);
      var conta := if escopo in contas then contas[escopo] else A.Conta(None, []);
      if conta.config.None? || !conta.config.value.autorizacaoAtiva || !conta.config.value.cienciaAutomatica {
        return SemAutorizacao, None;
      }
      if !s.clienteReal {
        return SemCliente, None;
      }
      if !s.encontrada {
        return NaoAchada, None;
      }
      if !s.elegivel {
        return Inelegivel, None;
      }
      if !s.certificado {
        return CertificadoAusente, None;
      }
      if !WithinDays(s, 10) {
        return PrazoExcedido, None;
      }
      var priorScience := LatestScience(attempts, events, documento);
      if priorScience.Some? && priorScience.value.status != FalhaLocal {
        return CienciaAnterior(priorScience.value.status), None;
      }
      outcome := Envia;
      var created := Insert(AutomaticAttempt(documento, cliente, requestId, s), true);
      if created {
        sent := Some(|attempts| - 1);
      }
    }

    method SetStatus(id: nat, status: Status) returns (ok: bool)
      requires id < |attempts|
      modifies this`attempts
      ensures ok == UpdateFits(old(attempts), id, status)
      ensures attempts == Updated(old(attempts), id, status)
    {
      hide IndexesHold;
      ok := IndexesHold(attempts[id := attempts[id].(status := status)]);
      if ok {
        attempts := attempts[id := attempts[id].(status := status)];
      }
    }

    /** The answer to an attempt, or the error instead of it, arrives. */
    method Answer(id: nat, resposta: Resposta, followUpFails: bool)
      requires id in inFlight && id < |attempts|
      modifies this
      ensures Contents() == Next(old(Contents()), Responder(id, resposta, followUpFails))
    {
      hide UpdateFits, ManualStatus, AutomaticStatus;
      var automatic := inFlight[id];
      inFlight := inFlight - {id};
      if !automatic {
        var ok := SetStatus(id, ManualStatus(resposta));
        return;
      }
      var status := AutomaticStatus(resposta);
      var ok := SetStatus(id, status);
      if !ok || (status == Registrada && followUpFails) {
        var marked := SetStatus(id, Indeterminado);
      }
    }

    /** `ok` is false when the database refuses an update; what was reconciled before it stays reconciled. */
    method ReconcileImportedManifestations(documento: nat, cliente: nat, events: seq<Imported>,
        now: int) returns (ok: bool)
      modifies this`attempts
      ensures Contents() == Next(old(Contents()), Reconciliar(documento, cliente, events, now))
    {
      hide PendingIds, UpdateFits, Official;
      var ids := PendingIds(attempts, documento, cliente);
      ghost var marked := StaleMarked(attempts, ids, now);
      for k := 0 to |ids|
        invariant |attempts| == |old(attempts)|
        invariant StaleMarked(attempts, ids[k..], now) == marked
      {
        assert ids[k..][1..] == ids[k + 1..];
        var a := attempts[ids[k]];
        if a.status == Enviando && a.enviadoEm <= now - STALE_ATTEMPT_MS {
          var stale := SetStatus(ids[k], Indeterminado);
        }
      }
      assert attempts == marked;
      for k := 0 to |ids|
        invariant |attempts| == |old(attempts)|
        invariant Confirmed(attempts, ids[k..], events) == Confirmed(marked, ids, events)
      {
        assert ids[k..][1..] == ids[k + 1..];
        var official := Official(events, attempts[ids[k]]);
        if official.Some? {
          var accepted := SetStatus(ids[k], official.value);
          if !accepted {
            return false;
          }
        }
      }
      return true;
    }
  }
}
