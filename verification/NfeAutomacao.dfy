/** The authorisation to register Science of an NF-e automatically: one configuration row per client,
    establishment and environment, and the audit trail written beside it. */
module NfeAutomacao {
  import opened Options

  const NFE_AUTOMATION_TERM_VERSION := "2026-10-v1"

  datatype Config = Config(
    cienciaAutomatica: bool, recuperacaoXmlAutomatica: bool, autorizacaoAtiva: bool,
    usuarioAutorizou: Option<nat>, autorizadaEm: Option<int>, versaoTermo: Option<string>,
    revogadaPor: Option<nat>, revogadaEm: Option<int>)

  datatype Acao = AutorizacaoConcedida | AutorizacaoRevogada | ConfiguracaoAtualizada | ConfiguracaoCriada

  datatype Auditoria = Auditoria(
    usuario: Option<nat>, acao: Acao, cienciaAutomatica: bool, recuperacaoXml: bool, autorizacaoAtiva: bool,
        versaoTermo: Option<string>)

  /** The row, if there is one, and its audit trail in order. */
  datatype Conta = Conta(config: Option<Config>, auditoria: seq<Auditoria>)

  datatype UpdateDto = UpdateDto(
    cienciaAutomatica: bool, recuperacaoXmlAutomatica: bool, confirmacaoExpressa: bool, versaoTermo: Option<string>)

  /** An update with a missing user leaves the column alone. */
  function Keep(usuario: Option<nat>, stored: Option<nat>): Option<nat> {
    if usuario.Some? then usuario else stored
  }

  predicate UpdateAccepted(dto: UpdateDto) {
    dto.cienciaAutomatica ==> dto.confirmacaoExpressa && dto.versaoTermo == Some(NFE_AUTOMATION_TERM_VERSION)
  }

  predicate Active(previous: Option<Config>) {
    previous.Some? && previous.value.autorizacaoAtiva
  }

  function UpdateAction(previous: Option<Config>, dto: UpdateDto): Acao {
    if dto.cienciaAutomatica && !Active(previous) then AutorizacaoConcedida
    else if Active(previous) && !dto.cienciaAutomatica then AutorizacaoRevogada
    else if previous.Some? then ConfiguracaoAtualizada else ConfiguracaoCriada
  }

  function UpdatedConfig(previous: Option<Config>, dto: UpdateDto, usuario: Option<nat>, now: int): Config {
    match previous
    case None =>
      Config(dto.cienciaAutomatica, dto.recuperacaoXmlAutomatica, dto.cienciaAutomatica,
             if dto.cienciaAutomatica then usuario else None,
             if dto.cienciaAutomatica then Some(now) else None,
             if dto.cienciaAutomatica then Some(NFE_AUTOMATION_TERM_VERSION) else None, None, None)
    case Some(c) =>
      var saved := c.(cienciaAutomatica := dto.cienciaAutomatica,
          recuperacaoXmlAutomatica := dto.recuperacaoXmlAutomatica);
      if dto.cienciaAutomatica then
        saved.(autorizacaoAtiva := true, usuarioAutorizou := Keep(usuario, c.usuarioAutorizou),
            autorizadaEm := Some(now),
               versaoTermo := Some(NFE_AUTOMATION_TERM_VERSION), revogadaPor := None, revogadaEm := None)
      else if c.autorizacaoAtiva then
        saved.(autorizacaoAtiva := false, revogadaPor := Keep(usuario, c.revogadaPor), revogadaEm := Some(now))
      else saved
  }

  /** The three operations on the row. */
  datatype Operacao =
    | UpdateSettings(dto: UpdateDto, usuario: Option<nat>, at: int)
    | Revoke(usuarioRevogou: Option<nat>, at: int)
    | ScheduleManualScienceRecovery

  function After(conta: Conta, op: Operacao): Conta {
    match op
    case UpdateSettings(dto, usuario, at) =>
      if !UpdateAccepted(dto) then conta
      else
        var saved := UpdatedConfig(conta.config, dto, usuario, at);
        var entry := Auditoria(usuario, UpdateAction(conta.config, dto), saved.cienciaAutomatica,
                               saved.recuperacaoXmlAutomatica, saved.autorizacaoAtiva, saved.versaoTermo);
        Conta(Some(saved), conta.auditoria + [entry])
    case Revoke(usuario, at) =>
      (match conta.config
       case None => conta
       case Some(c) =>
         var saved := c.(cienciaAutomatica := false, autorizacaoAtiva := false,
             revogadaPor := Keep(usuario, c.revogadaPor), revogadaEm := Some(at));
         var entry := Auditoria(usuario, AutorizacaoRevogada, false, saved.recuperacaoXmlAutomatica, false,
                                saved.versaoTermo);
         Conta(Some(saved), conta.auditoria + [entry]))
    case ScheduleManualScienceRecovery =>
      conta.(config := Some(match conta.config
                            case None => Config(false, true, false, None, None, None, None, None)
                            case Some(c) => c.(recuperacaoXmlAutomatica := true)))
  }

  function Run(conta: Conta, ops: seq<Operacao>): Conta
    decreases |ops|
  {
    if ops == [] then conta else Run(After(conta, ops[0]), ops[1..])
  }

  // What the trail says

  /** Whether the trail, read from its beginning, leaves the authorisation granted. */
  predicate Granted(auditoria: seq<Auditoria>) {
    if auditoria == [] then false
    else match auditoria[|auditoria| - 1].acao
         case AutorizacaoConcedida => true
         case AutorizacaoRevogada => false
         case _ => Granted(auditoria[..|auditoria| - 1])
  }

  /** Every entry records whether the authorisation was in force after it, and a grant is only recorded when
      there was none. */
  ghost predicate TrailIsFaithful(auditoria: seq<Auditoria>) {
    forall k | 0 <= k < |auditoria| :: EntryIsFaithful(auditoria, k)
  }

  predicate EntryIsFaithful(auditoria: seq<Auditoria>, k: nat)
    requires k < |auditoria|
  {
    && auditoria[k].autorizacaoAtiva == Granted(auditoria[..k + 1])
    && auditoria[k].cienciaAutomatica == auditoria[k].autorizacaoAtiva
    && (auditoria[k].acao == AutorizacaoConcedida ==> !Granted(auditoria[..k]))
    && (auditoria[k].autorizacaoAtiva ==> auditoria[k].versaoTermo == Some(NFE_AUTOMATION_TERM_VERSION))
  }

  ghost predicate Good(conta: Conta) {
    && TrailIsFaithful(conta.auditoria)
    && match conta.config
       case None => conta.auditoria == []
       case Some(c) =>
         && c.autorizacaoAtiva == c.cienciaAutomatica == Granted(conta.auditoria)
         && (c.autorizacaoAtiva ==> c.autorizadaEm.Some? && c.versaoTermo == Some(NFE_AUTOMATION_TERM_VERSION)
                                    && c.revogadaPor == None && c.revogadaEm == None)
         && (!c.autorizacaoAtiva && c.autorizadaEm.Some? ==> c.revogadaEm.Some?)
  }

  lemma GrantedAfter(auditoria: seq<Auditoria>, entry: Auditoria)
    ensures Granted(auditoria + [entry]) ==
            match entry.acao
            case AutorizacaoConcedida => true
            case AutorizacaoRevogada => false
            case _ => Granted(auditoria)
  {
    assert (auditoria + [entry])[..|auditoria|] == auditoria;
  }

  lemma TrailGrows(auditoria: seq<Auditoria>, entry: Auditoria)
    requires TrailIsFaithful(auditoria)
    requires entry.autorizacaoAtiva == Granted(auditoria + [entry]) && entry.cienciaAutomatica == entry.autorizacaoAtiva
    requires entry.acao == AutorizacaoConcedida ==> !Granted(auditoria)
    requires entry.autorizacaoAtiva ==> entry.versaoTermo == Some(NFE_AUTOMATION_TERM_VERSION)
    ensures TrailIsFaithful(auditoria + [entry])
  {
    hide Granted;
    var grown := auditoria + [entry];
    forall k | 0 <= k < |grown| ensures EntryIsFaithful(grown, k) {
      if k < |auditoria| {
        assert grown[..k] == auditoria[..k] && grown[..k + 1] == auditoria[..k + 1];
        assert EntryIsFaithful(auditoria, k);
      } else {
        assert grown[..k] == auditoria && grown[..k + 1] == grown;
      }
    }
  }

  lemma StepKeepsGood(conta: Conta, op: Operacao)
    requires Good(conta)
    ensures Good(After(conta, op))
  {
    hide Granted, TrailIsFaithful;
    var next := After(conta, op);
    if |next.auditoria| > |conta.auditoria| {
      var entry := next.auditoria[|conta.auditoria|];
      assert next.auditoria == conta.auditoria + [entry];
      GrantedAfter(conta.auditoria, entry);
      EmptyTrail();
      TrailGrows(conta.auditoria, entry);
    }
    if conta.config.None? {
      EmptyTrail();
    }
  }

  lemma EmptyTrail()
    ensures !Granted([])
  {
  }

  lemma NoRowIsGood()
    ensures Good(Conta(None, []))
  {
  }

  /** In every run of updates, revocations and manual Science registrations, row and trail agree. */
  lemma {:induction false} RunKeepsGood(conta: Conta, ops: seq<Operacao>)
    requires Good(conta)
    ensures Good(Run(conta, ops)) && conta.auditoria <= Run(conta, ops).auditoria
    decreases |ops|
  {
    if ops != [] {
      StepKeepsGood(conta, ops[0]);
      RunKeepsGood(After(conta, ops[0]), ops[1..]);
    }
  }

  /** The authorisation never changes silently: an operation that switches it on or off adds exactly the
      matching entry, and only an update that expressly accepts the current term switches it on. */
  lemma NoSilentChange(conta: Conta, op: Operacao)
    requires Good(conta) && Active(After(conta, op).config) != Active(conta.config)
    ensures |After(conta, op).auditoria| == |conta.auditoria| + 1
    ensures var entry := After(conta, op).auditoria[|conta.auditoria|];
            entry.acao == if Active(conta.config) then AutorizacaoRevogada else AutorizacaoConcedida
    ensures !Active(conta.config) ==>
              op.UpdateSettings? && op.dto.confirmacaoExpressa
                && op.dto.versaoTermo == Some(NFE_AUTOMATION_TERM_VERSION)
  {
  }

  // What the operations leave in the row

  /** An update is refused exactly when it asks for automatic Science without express acceptance of the current term.
      Accepted, it takes effect: Science, recovery and the authorisation are as asked; a grant is dated, under the
      current term, and clears the revocation; withdrawing one in force dates the revocation and keeps the grant. */
  lemma UpdateTakesEffect(conta: Conta, dto: UpdateDto, usuario: Option<nat>, at: int)
    requires Good(conta)
    ensures UpdateAccepted(dto) <==>
              !dto.cienciaAutomatica || (dto.confirmacaoExpressa && dto.versaoTermo == Some("2026-10-v1"))
    ensures !UpdateAccepted(dto) ==> After(conta, UpdateSettings(dto, usuario, at)) == conta
    ensures UpdateAccepted(dto) ==>
              var next := After(conta, UpdateSettings(dto, usuario, at)).config;
              var before := if conta.config.Some? then conta.config.value
                            else Config(false, false, false, None, None, None, None, None);
              && next.Some? && next.value.cienciaAutomatica == next.value.autorizacaoAtiva == dto.cienciaAutomatica
              && next.value.recuperacaoXmlAutomatica == dto.recuperacaoXmlAutomatica
              && (if dto.cienciaAutomatica
                  then next.value.autorizadaEm == Some(at) && next.value.versaoTermo == Some("2026-10-v1")
                       && next.value.revogadaPor == None && next.value.revogadaEm == None
                       && next.value.usuarioAutorizou == (if usuario.Some? then usuario else before.usuarioAutorizou)
                  else next.value.autorizadaEm == before.autorizadaEm
                       && next.value.versaoTermo == before.versaoTermo
                       && next.value.usuarioAutorizou == before.usuarioAutorizou
                       && next.value.revogadaEm == (if before.autorizacaoAtiva then Some(at) else before.revogadaEm)
                       && next.value.revogadaPor
                            == (if before.autorizacaoAtiva && usuario.Some? then usuario else before.revogadaPor))
  {
    hide Granted, TrailIsFaithful;
  }

  /** And it is recorded: who, what was decided, and what the row says since. */
  lemma UpdateIsRecorded(conta: Conta, dto: UpdateDto, usuario: Option<nat>, at: int)
    requires UpdateAccepted(dto)
    ensures var next := After(conta, UpdateSettings(dto, usuario, at));
            var active := conta.config.Some? && conta.config.value.autorizacaoAtiva;
            && next.config.Some? && |next.auditoria| == |conta.auditoria| + 1
            && next.auditoria[..|conta.auditoria|] == conta.auditoria
            && var entry, saved := next.auditoria[|conta.auditoria|], next.config.value;
               && entry.usuario == usuario && entry.cienciaAutomatica == saved.cienciaAutomatica
               && entry.recuperacaoXml == saved.recuperacaoXmlAutomatica
               && entry.autorizacaoAtiva == saved.autorizacaoAtiva && entry.versaoTermo == saved.versaoTermo
               && (entry.acao == AutorizacaoConcedida <==> dto.cienciaAutomatica && !active)
               && (entry.acao == AutorizacaoRevogada <==> !dto.cienciaAutomatica && active)
               && (entry.acao == ConfiguracaoCriada <==> !dto.cienciaAutomatica && conta.config == None)
  {
  }

  /** A revocation switches an existing row off, dates it, keeps recovery and the grant, and is recorded. */
  lemma RevocationTakesEffect(conta: Conta, usuario: Option<nat>, at: int)
    ensures var next := After(conta, Revoke(usuario, at));
            match conta.config
            case None => next == conta
            case Some(c) =>
              && next.config.Some? && |next.auditoria| == |conta.auditoria| + 1
              && next.auditoria[..|conta.auditoria|] == conta.auditoria
              && next.config.value == c.(cienciaAutomatica := false, autorizacaoAtiva := false, revogadaEm := Some(at),
                   revogadaPor := if usuario.Some? then usuario else c.revogadaPor)
              && next.auditoria[|conta.auditoria|]
                   == Auditoria(usuario, AutorizacaoRevogada, false, c.recuperacaoXmlAutomatica, false, c.versaoTermo)
  {
  }

  // The service

  class AutomationSettings {
    var config: Option<Config>
    var auditoria: seq<Auditoria>

    ghost function Contents(): Conta
      reads this
    {
      Conta(config, auditoria)
    }

    constructor ()
      ensures Contents() == Conta(None, [])
    {
      config, auditoria := None, [];
    }

    method UpdateAutomationSettings(dto: UpdateDto, usuario: Option<nat>, now: int) returns (ok: bool)
      modifies this
      ensures ok == UpdateAccepted(dto) && Contents() == After(old(Contents()), UpdateSettings(dto, usuario, now))
    {
      if dto.cienciaAutomatica && (!dto.confirmacaoExpressa || dto.versaoTermo != Some(NFE_AUTOMATION_TERM_VERSION)) {
        return false;
      }
      var previous := config;
      var grants := dto.cienciaAutomatica;
      var revokes := previous.Some? && previous.value.autorizacaoAtiva && !grants;
      var saved: Config;
      if previous.None? {
        saved := Config(dto.cienciaAutomatica, dto.recuperacaoXmlAutomatica, grants, None, None, None, None, None);
        if grants {
          saved := saved.(usuarioAutorizou := usuario, autorizadaEm := Some(now),
              versaoTermo := Some(NFE_AUTOMATION_TERM_VERSION));
        }
      } else {
        saved := previous.value.(cienciaAutomatica := dto.cienciaAutomatica,
            recuperacaoXmlAutomatica := dto.recuperacaoXmlAutomatica);
        if grants {
          saved := saved.(autorizacaoAtiva := true, usuarioAutorizou := Keep(usuario, saved.usuarioAutorizou),
              autorizadaEm := Some(now),
                          versaoTermo := Some(NFE_AUTOMATION_TERM_VERSION), revogadaPor := None, revogadaEm := None);
        }
        if revokes {
          saved := saved.(autorizacaoAtiva := false, revogadaPor := Keep(usuario, saved.revogadaPor),
              revogadaEm := Some(now));
        }
      }
      config := Some(saved);
      auditoria := auditoria + [Auditoria(usuario, UpdateAction(previous, dto), saved.cienciaAutomatica,
                                          saved.recuperacaoXmlAutomatica, saved.autorizacaoAtiva, saved.versaoTermo)];
      return true;
    }

    method RevokeAutomationAuthorization(usuario: Option<nat>, now: int) returns (found: bool)
      modifies this
      ensures found == old(config).Some? && Contents() == After(old(Contents()), Revoke(usuario, now))
    {
      if config.None? {
        return false;
      }
      var saved := config.value.(cienciaAutomatica := false, autorizacaoAtiva := false,
                                 revogadaPor := Keep(usuario, config.value.revogadaPor), revogadaEm := Some(now));
      config := Some(saved);
      auditoria := auditoria
          + [Auditoria(usuario, AutorizacaoRevogada, false, saved.recuperacaoXmlAutomatica, false, saved.versaoTermo)];
      return true;
    }

    /** Recovery is on afterwards; the authorisation and the trail are what they were, and a row made for it
        authorises nothing. */
    method ScheduleManualRecovery()
      modifies this
      ensures config.Some? && config.value.recuperacaoXmlAutomatica && auditoria == old(auditoria)
      ensures Active(config) == Active(old(config))
      ensures config.value.cienciaAutomatica == (old(config).Some? && old(config).value.cienciaAutomatica)
      ensures old(config).Some? ==>
                config.value.(recuperacaoXmlAutomatica := old(config).value.recuperacaoXmlAutomatica)
                    == old(config).value
      ensures Good(old(Contents())) ==> Good(Contents())
      ensures Contents() == After(old(Contents()), ScheduleManualScienceRecovery)
    {
      ghost var before := Contents();
      config := Some(if config.None? then Config(false, true, false, None, None, None, None, None)
                     else config.value.(recuperacaoXmlAutomatica := true));
      if Good(before) {
        StepKeepsGood(before, ScheduleManualScienceRecovery);
      }
    }
  }
}
