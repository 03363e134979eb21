/** The CT-e listing: which stored documents count as copies of one another, which copy is shown, and the
    single pass that collapses the copies by means of a map from keys to slots. */
module CteListing {
  import opened Options
  import opened Texts

  /** A date as the service uses it: its instant and its ISO text. */
  datatype Moment = Moment(ms: int, iso: string)

  datatype Ambiente = Producao | Homologacao

  datatype Documento = Documento(
    ambiente: Ambiente,
    chaveAcesso: string,
    hashResumo: Option<string>,
    hashXmlCompleto: Option<string>,
    modelo: Option<string>,
    xmlCompletoDisponivel: bool,
    xmlCompletoPath: Option<string>,
    resumoDisponivel: bool,
    xmlResumoPath: Option<string>,
    numeroNfe: Option<string>,
    serie: Option<string>,
    dataEmissao: Option<Moment>,
    dataAutorizacao: Option<Moment>,
    cnpjEmitente: Option<string>,
    razaoSocialEmitente: Option<string>,
    cnpjDestinatario: Option<string>,
    razaoSocialDestinatario: Option<string>,
    valorTotal: Option<string>,
    updatedAt: Option<Moment>,
    createdAt: Option<Moment>)

  // Keys

  function Text(value: Option<string>): string {
    Trim(value.GetOr(""))
  }

  /** Something is left of `s` once colons and surrounding blanks are removed. */
  predicate HasContent(s: string) {
    exists i | 0 <= i < |s| :: s[i] != ':' && !IsSpace(s[i])
  }

  function Join(parts: seq<string>): string {
    if parts == [] then "" else if |parts| == 1 then parts[0] else parts[0] + ":" + Join(parts[1..])
  }

  function AddKey(keys: seq<string>, key: string): seq<string> {
    if key in keys then keys else keys + [key]
  }

  function AddKeyIf(keys: seq<string>, condition: bool, key: string): seq<string> {
    if condition then AddKey(keys, key) else keys
  }

  function SnapshotParts(d: Documento): seq<string> {
    [Text(d.modelo), Text(d.numeroNfe), Text(d.serie),
     if d.dataEmissao.Some? then d.dataEmissao.value.iso else "",
     Text(d.cnpjEmitente), Text(d.cnpjDestinatario), d.valorTotal.GetOr("")]
  }

  function AmbienteText(a: Ambiente): string {
    match a
    case Producao => "producao"
    case Homologacao => "homologacao"
  }

  /** The keys of a document, in the order in which they are looked up. The ambiente is never blank. */
  function Keys(d: Documento): seq<string> {
    var ambiente := AmbienteText(d.ambiente);
    var chave, resumo, completo := Text(Some(d.chaveAcesso)), Text(d.hashResumo), Text(d.hashXmlCompleto);
    var k1 := AddKeyIf([], chave != "", "chave:" + (ambiente + ":" + chave));
    var k2 := AddKeyIf(k1, chave != "", "chave-global:" + chave);
    var k3 := AddKeyIf(k2, resumo != "", "hash:" + (ambiente + ":" + resumo));
    var k4 := AddKeyIf(k3, resumo != "", "hash-global:" + resumo);
    var k5 := AddKeyIf(k4, completo != "", "hash:" + (ambiente + ":" + completo));
    var k6 := AddKeyIf(k5, completo != "", "hash-global:" + completo);
    var snapshot := Join([ambiente] + SnapshotParts(d));
    var k7 := AddKeyIf(k6, HasContent(snapshot), "snapshot:" + snapshot);
    var globalSnapshot := Join(SnapshotParts(d));
    AddKeyIf(k7, HasContent(globalSnapshot), "snapshot-global:" + globalSnapshot)
  }

  predicate Shares(a: Documento, b: Documento) {
    exists k | k in Keys(a) :: k in Keys(b)
  }

  // Preference

  predicate Filled(value: Option<string>) {
    value.GetOr("") != ""
  }

  function One(b: bool): nat {
    if b then 1 else 0
  }

  function CountTrue(flags: seq<bool>): nat {
    if flags == [] then 0 else One(flags[0]) + CountTrue(flags[1..])
  }

  function Flags(d: Documento): seq<bool> {
    [d.xmlCompletoDisponivel, Filled(d.xmlCompletoPath), d.resumoDisponivel, Filled(d.xmlResumoPath),
     Filled(d.numeroNfe), Filled(d.serie), d.dataEmissao.Some?, d.dataAutorizacao.Some?, Filled(d.cnpjEmitente),
     Filled(d.razaoSocialEmitente), Filled(d.cnpjDestinatario), Filled(d.razaoSocialDestinatario), d.valorTotal.Some?]
  }

  function Score(d: Documento): nat {
    CountTrue(Flags(d))
  }

  function Timestamp(value: Option<Moment>): int {
    if value.Some? then value.value.ms else 0
  }

  predicate Preferred(candidate: Documento, current: Documento) {
    var scoreDiff := Score(candidate) - Score(current);
    var updatedDiff := Timestamp(candidate.updatedAt) - Timestamp(current.updatedAt);
    if scoreDiff != 0 then scoreDiff > 0
    else if updatedDiff != 0 then updatedDiff > 0
    else Timestamp(candidate.createdAt) > Timestamp(current.createdAt)
  }

  // What preference means

  datatype Campo =
    | XmlCompleto | XmlCompletoPath | Resumo | XmlResumoPath | Numero | Serie | Emissao | Autorizacao | Emitente
    | NomeEmitente | Destinatario | NomeDestinatario | Valor

  const CAMPOS: seq<Campo> := [XmlCompleto, XmlCompletoPath, Resumo, XmlResumoPath, Numero, Serie, Emissao, Autorizacao,
      Emitente, NomeEmitente, Destinatario, NomeDestinatario, Valor]

  predicate HasText(value: Option<string>) {
    value.Some? && |value.value| > 0
  }

  /** The document has something in this field. */
  predicate Has(d: Documento, c: Campo) {
    match c
    case XmlCompleto => d.xmlCompletoDisponivel
    case XmlCompletoPath => HasText(d.xmlCompletoPath)
    case Resumo => d.resumoDisponivel
    case XmlResumoPath => HasText(d.xmlResumoPath)
    case Numero => HasText(d.numeroNfe)
    case Serie => HasText(d.serie)
    case Emissao => d.dataEmissao.Some?
    case Autorizacao => d.dataAutorizacao.Some?
    case Emitente => HasText(d.cnpjEmitente)
    case NomeEmitente => HasText(d.razaoSocialEmitente)
    case Destinatario => HasText(d.cnpjDestinatario)
    case NomeDestinatario => HasText(d.razaoSocialDestinatario)
    case Valor => d.valorTotal.Some?
  }

  function Campos(d: Documento): set<Campo> {
    set c: Campo | Has(d, c)
  }

  function CamposAmong(d: Documento, cs: seq<Campo>): set<Campo> {
    set c | c in cs && Has(d, c)
  }

  lemma {:induction false} CountIsSize(d: Documento, cs: seq<Campo>, flags: seq<bool>)
    requires forall i, j | 0 <= i < j < |cs| :: cs[i] != cs[j]
    requires |flags| == |cs| && forall i | 0 <= i < |cs| :: flags[i] == Has(d, cs[i])
    ensures CountTrue(flags) == |CamposAmong(d, cs)|
    decreases |cs|
  {
    hide Has;
    if cs != [] {
      CountIsSize(d, cs[1..], flags[1..]);
      var rest := CamposAmong(d, cs[1..]);
      assert cs[0] !in rest;
      assert CamposAmong(d, cs) == if flags[0] then rest + {cs[0]} else rest;
    }
  }

  lemma ScoreIsSize(d: Documento)
    ensures Score(d) == |Campos(d)|
  {
    hide Has, CountTrue, Flags;
    FlagsAreFields(d);
    CountIsSize(d, CAMPOS, Flags(d));
    forall c: Campo ensures c in CAMPOS {
      CampoIsListed(c);
    }
    assert CamposAmong(d, CAMPOS) == Campos(d);
  }

  lemma FilledMeans(value: Option<string>)
    ensures Filled(value) <==> HasText(value)
  {
  }

  lemma FirstFlags(d: Documento)
    ensures forall i | 0 <= i < 4 :: Flags(d)[i] == Has(d, CAMPOS[i])
  {
    hide Filled, HasText;
    FilledMeans(d.xmlCompletoPath);
    FilledMeans(d.xmlResumoPath);
    assert Flags(d)[0] == Has(d, CAMPOS[0]);
    assert Flags(d)[1] == Has(d, CAMPOS[1]);
    assert Flags(d)[2] == Has(d, CAMPOS[2]);
    assert Flags(d)[3] == Has(d, CAMPOS[3]);
  }

  lemma MiddleFlags(d: Documento)
    ensures forall i | 4 <= i < 8 :: Flags(d)[i] == Has(d, CAMPOS[i])
  {
    hide Filled, HasText;
    FilledMeans(d.numeroNfe);
    FilledMeans(d.serie);
    assert Flags(d)[4] == Has(d, CAMPOS[4]);
    assert Flags(d)[5] == Has(d, CAMPOS[5]);
    assert Flags(d)[6] == Has(d, CAMPOS[6]);
    assert Flags(d)[7] == Has(d, CAMPOS[7]);
  }

  lemma LastFlags(d: Documento)
    ensures forall i | 8 <= i < 13 :: Flags(d)[i] == Has(d, CAMPOS[i])
  {
    hide Filled, HasText;
    FilledMeans(d.cnpjEmitente);
    FilledMeans(d.razaoSocialEmitente);
    FilledMeans(d.cnpjDestinatario);
    FilledMeans(d.razaoSocialDestinatario);
    assert Flags(d)[8] == Has(d, CAMPOS[8]);
    assert Flags(d)[9] == Has(d, CAMPOS[9]);
    assert Flags(d)[10] == Has(d, CAMPOS[10]);
    assert Flags(d)[11] == Has(d, CAMPOS[11]);
    assert Flags(d)[12] == Has(d, CAMPOS[12]);
  }

  lemma FlagsAreFields(d: Documento)
    ensures |Flags(d)| == |CAMPOS|
    ensures forall i | 0 <= i < |CAMPOS| :: Flags(d)[i] == Has(d, CAMPOS[i])
  {
    hide Has, Filled;
    FirstFlags(d);
    MiddleFlags(d);
    LastFlags(d);
  }

  lemma CampoIsListed(c: Campo)
    ensures c in CAMPOS
  {
    match c
    case XmlCompleto => assert CAMPOS[0] == c;
    case XmlCompletoPath => assert CAMPOS[1] == c;
    case Resumo => assert CAMPOS[2] == c;
    case XmlResumoPath => assert CAMPOS[3] == c;
    case Numero => assert CAMPOS[4] == c;
    case Serie => assert CAMPOS[5] == c;
    case Emissao => assert CAMPOS[6] == c;
    case Autorizacao => assert CAMPOS[7] == c;
    case Emitente => assert CAMPOS[8] == c;
    case NomeEmitente => assert CAMPOS[9] == c;
    case Destinatario => assert CAMPOS[10] == c;
    case NomeDestinatario => assert CAMPOS[11] == c;
    case Valor => assert CAMPOS[12] == c;
  }

  /** Last updated; a missing date counts as the beginning of time. */
  function Instant(value: Option<Moment>): int {
    match value
    case None => 0
    case Some(moment) => moment.ms
  }

  /** A copy is preferred to another exactly when it has more fields filled, or as many and the later update, or as
      many, the same update and the later creation. In particular one that has every field another has, and one more,
      always is. */
  lemma PreferenceMeans(a: Documento, b: Documento)
    ensures Preferred(a, b) <==>
              || |Campos(a)| > |Campos(b)|
              || (|Campos(a)| == |Campos(b)| && Instant(a.updatedAt) > Instant(b.updatedAt))
              || (|Campos(a)| == |Campos(b)| && Instant(a.updatedAt) == Instant(b.updatedAt)
                  && Instant(a.createdAt) > Instant(b.createdAt))
    ensures Campos(a) > Campos(b) ==> Preferred(a, b) && !Preferred(b, a)
  {
    hide Score, Campos;
    ScoreIsSize(a);
    ScoreIsSize(b);
    if Campos(a) > Campos(b) {
      SizeGrows(Campos(b), Campos(a));
    }
  }

  lemma SizeGrows(fewer: set<Campo>, more: set<Campo>)
    requires fewer < more
    ensures |fewer| < |more|
  {
    assert more == fewer + (more - fewer);
    assert |more| == |fewer| + |more - fewer|;
    assert more - fewer != {};
  }

  // The final order: newest issue date first, then newest creation, then newest update

  predicate Before(left: Documento, right: Documento) {
    var emissao := Timestamp(right.dataEmissao) - Timestamp(left.dataEmissao);
    var created := Timestamp(right.createdAt) - Timestamp(left.createdAt);
    if emissao != 0 then emissao < 0
    else if created != 0 then created < 0
    else Timestamp(right.updatedAt) - Timestamp(left.updatedAt) < 0
  }

  function Insert(d: Documento, sorted: seq<Documento>): seq<Documento> {
    if sorted == [] || !Before(sorted[0], d) then [d] + sorted else [sorted[0]] + Insert(d, sorted[1..])
  }

  /** Stable: of two documents that compare equal the one that came first stays first. */
  function SortForListing(documents: seq<Documento>): seq<Documento> {
    if documents == [] then [] else Insert(documents[0], SortForListing(documents[1..]))
  }

  predicate InListingOrder(documents: seq<Documento>) {
    forall i, j | 0 <= i < j < |documents| :: !Before(documents[j], documents[i])
  }

  /** Issued later, or at the same time and created later, or that too and updated later. */
  predicate Newer(a: Documento, b: Documento) {
    || Instant(a.dataEmissao) > Instant(b.dataEmissao)
    || (Instant(a.dataEmissao) == Instant(b.dataEmissao)
        && (Instant(a.createdAt) > Instant(b.createdAt)
            || (Instant(a.createdAt) == Instant(b.createdAt) && Instant(a.updatedAt) > Instant(b.updatedAt))))
  }

  /** In listing order no document comes before a newer one. */
  lemma ListingOrderMeans(documents: seq<Documento>)
    ensures InListingOrder(documents) <==>
              forall i, j | 0 <= i < j < |documents| :: !Newer(documents[j], documents[i])
  {
    forall a, b ensures Before(a, b) <==> Newer(a, b) {
    }
    hide Before, Newer;
  }

  lemma BeforeIsTransitive(a: Documento, b: Documento, c: Documento)
    ensures !Before(c, b) && !Before(b, a) ==> !Before(c, a)
    ensures Before(a, b) ==> !Before(b, a)
  {
  }

  lemma InFrontKeepsOrder(d: Documento, rest: seq<Documento>)
    requires InListingOrder(rest) && forall j | 0 <= j < |rest| :: !Before(rest[j], d)
    ensures InListingOrder([d] + rest)
  {
    hide Before;
  }

  lemma {:induction false} InsertKeepsOrder(d: Documento, sorted: seq<Documento>)
    requires InListingOrder(sorted)
    ensures InListingOrder(Insert(d, sorted))
    ensures multiset(Insert(d, sorted)) == multiset([d]) + multiset(sorted)
    decreases |sorted|
  {
    hide Before, InListingOrder;
    if sorted == [] || !Before(sorted[0], d) {
      FirstIsNewest(sorted, d);
      InFrontKeepsOrder(d, sorted);
    } else {
      TailIsOrdered(sorted);
      InsertKeepsOrder(d, sorted[1..]);
      var rest := Insert(d, sorted[1..]);
      assert sorted == [sorted[0]] + sorted[1..];
      forall j | 0 <= j < |rest| ensures !Before(rest[j], sorted[0]) {
        assert rest[j] in multiset(rest);
        assert rest[j] == d || rest[j] in sorted[1..];
        BeforeIsTransitive(sorted[0], d, d);
      }
      InFrontKeepsOrder(sorted[0], rest);
    }
  }

  lemma FirstIsNewest(sorted: seq<Documento>, d: Documento)
    requires InListingOrder(sorted) && (sorted == [] || !Before(sorted[0], d))
    ensures forall j | 0 <= j < |sorted| :: !Before(sorted[j], d)
  {
    hide Before;
    forall j | 0 <= j < |sorted| ensures !Before(sorted[j], d) {
      if j > 0 {
        BeforeIsTransitive(d, sorted[0], sorted[j]);
      }
    }
  }

  lemma TailIsOrdered(sorted: seq<Documento>)
    requires InListingOrder(sorted) && sorted != []
    ensures InListingOrder(sorted[1..]) && forall x | x in sorted[1..] :: !Before(x, sorted[0])
  {
    hide Before;
  }

  /** Equal under the three dates of the listing. */
  predicate Ties(a: Documento, b: Documento) {
    && Timestamp(a.dataEmissao) == Timestamp(b.dataEmissao)
    && Timestamp(a.createdAt) == Timestamp(b.createdAt)
    && Timestamp(a.updatedAt) == Timestamp(b.updatedAt)
  }

  /** The documents that tie with `d`, in their order. */
  function TiedWith(documents: seq<Documento>, d: Documento): seq<Documento> {
    if documents == [] then []
    else (if Ties(documents[0], d) then [documents[0]] else []) + TiedWith(documents[1..], d)
  }

  lemma {:induction false} InsertIsStable(x: Documento, sorted: seq<Documento>, d: Documento)
    ensures TiedWith(Insert(x, sorted), d) == (if Ties(x, d) then [x] else []) + TiedWith(sorted, d)
    decreases |sorted|
  {
    if sorted == [] || !Before(sorted[0], x) {
      assert ([x] + sorted)[1..] == sorted;
    } else {
      assert ([sorted[0]] + Insert(x, sorted[1..]))[1..] == Insert(x, sorted[1..]);
      InsertIsStable(x, sorted[1..], d);
    }
  }

  /** The listing is the ordered permutation in which documents with equal dates keep their order. */
  lemma {:induction false} SortIsOrderedPermutation(documents: seq<Documento>)
    ensures InListingOrder(SortForListing(documents))
    ensures multiset(SortForListing(documents)) == multiset(documents)
    ensures forall d :: TiedWith(SortForListing(documents), d) == TiedWith(documents, d)
    decreases |documents|
  {
    hide Before, InListingOrder, Ties;
    if documents == [] {
      NothingIsOrdered();
    } else {
      SortIsOrderedPermutation(documents[1..]);
      InsertKeepsOrder(documents[0], SortForListing(documents[1..]));
      forall d ensures TiedWith(SortForListing(documents), d) == TiedWith(documents, d) {
        InsertIsStable(documents[0], SortForListing(documents[1..]), d);
      }
      assert documents == [documents[0]] + documents[1..];
    }
  }

  lemma NothingIsOrdered()
    ensures InListingOrder([])
  {
  }
}
