/** What it means for two CT-e documents to share a key. */
module CteKeys {
  import opened Options
  import opened Texts
  import opened CteListing

  function Chave(d: Documento): string {
    Text(Some(d.chaveAcesso))
  }

  function Hashes(d: Documento): set<string> {
    {Text(d.hashResumo), Text(d.hashXmlCompleto)} - {""}
  }

  /** The data of a document apart from its ambiente, its key and its hashes, as one text. */
  function Snapshot(d: Documento): string {
    Join(SnapshotParts(d))
  }

  /** The two documents are copies of one another: the same access key, a hash in common, or the same data.
      Data without any content only counts within one ambiente. */
  predicate Copies(a: Documento, b: Documento) {
    || (Chave(a) != "" && Chave(a) == Chave(b))
    || Hashes(a) * Hashes(b) != {}
    || (Snapshot(a) == Snapshot(b) && (a.ambiente == b.ambiente || HasContent(Snapshot(a))))
  }

  // What the texts are

  /** The text of a field is its value without the blanks around it, empty if there is no value. */
  lemma TextMeans(value: Option<string>)
    ensures value.None? ==> Text(value) == ""
    ensures value.Some? ==> IsTrimmed(Text(value), value.value)
  {
    hide IsSpace;
    TrimMeans(value.GetOr(""));
    assert Trim("") == "";
  }

  /** Nothing but colons and blanks is no content. */
  lemma ContentMeans(s: string)
    ensures !HasContent(s) <==> forall c | c in s :: c == ':' || IsSpace(c)
  {
    hide IsSpace;
    if !HasContent(s) {
      forall c | c in s ensures c == ':' || IsSpace(c) {
        var i :| 0 <= i < |s| && s[i] == c;
      }
    }
  }

  function Colons(s: string): nat {
    if s == "" then 0 else One(s[0] == ':') + Colons(s[1..])
  }

  lemma {:induction false} ColonsAdd(s: string, t: string)
    ensures Colons(s + t) == Colons(s) + Colons(t)
    decreases |s|
  {
    if s == "" {
      assert s + t == t;
    } else {
      assert (s + t)[1..] == s[1..] + t;
      ColonsAdd(s[1..], t);
    }
  }

  lemma FirstPartIsTold(x: string, rest: string, y: string, rest': string)
    requires x + ":" + rest == y + ":" + rest' && Colons(x) == Colons(y)
    ensures x == y && rest == rest'
  {
    var all := x + ":" + rest;
    if |x| < |y| {
      LongerHasMore(x, rest, y, rest');
    } else if |y| < |x| {
      LongerHasMore(y, rest', x, rest);
    }
    assert x == all[..|x|] == y;
    assert rest == all[|x| + 1..] == rest';
  }

  lemma LongerHasMore(x: string, rest: string, y: string, rest': string)
    requires x + ":" + rest == y + ":" + rest' && |x| < |y|
    ensures Colons(x) < Colons(y)
  {
    var all := x + ":" + rest;
    var more := y[|x| + 1..];
    assert y == all[..|y|] && x == all[..|x|] && all[|x|] == ':';
    assert y == x + (":" + more);
    OneMoreColon(more);
    hide Colons;
    ColonsAdd(x, ":" + more);
  }

  lemma OneMoreColon(s: string)
    ensures Colons(":" + s) == 1 + Colons(s)
  {
    assert (":" + s)[1..] == s;
  }

  lemma {:induction false} JoinedPartsAreTold(xs: seq<string>, ys: seq<string>)
    requires |xs| == |ys| && forall i | 0 <= i < |xs| :: Colons(xs[i]) == Colons(ys[i])
    ensures Join(xs) == Join(ys) <==> xs == ys
    decreases |xs|
  {
    hide Colons;
    if |xs| > 1 {
      JoinedPartsAreTold(xs[1..], ys[1..]);
      assert xs == [xs[0]] + xs[1..] && ys == [ys[0]] + ys[1..];
      if Join(xs) == Join(ys) {
        FirstPartIsTold(xs[0], Join(xs[1..]), ys[0], Join(ys[1..]));
      }
    }
  }

  /** The two documents have the same model, number, series, issue date, parties and value. */
  predicate SameData(a: Documento, b: Documento) {
    && Text(a.modelo) == Text(b.modelo) && Text(a.numeroNfe) == Text(b.numeroNfe) && Text(a.serie) == Text(b.serie)
    && (match (a.dataEmissao, b.dataEmissao)
        case (None, None) => true
        case (Some(m), Some(n)) => m.iso == n.iso
        case (Some(m), None) => m.iso == ""
        case (None, Some(n)) => n.iso == "")
    && Text(a.cnpjEmitente) == Text(b.cnpjEmitente) && Text(a.cnpjDestinatario) == Text(b.cnpjDestinatario)
    && a.valorTotal.GetOr("") == b.valorTotal.GetOr("")
  }

  /** As many colons in each field. */
  predicate SameColons(a: Documento, b: Documento) {
    forall i | 0 <= i < 7 :: Colons(SnapshotParts(a)[i]) == Colons(SnapshotParts(b)[i])
  }

  /** When the fields of two documents have equally many colons, their snapshots are equal exactly when their data
      is. */
  lemma SnapshotMeans(a: Documento, b: Documento)
    requires SameColons(a, b)
    ensures Snapshot(a) == Snapshot(b) <==> SameData(a, b)
  {
    hide Text, Join, Colons;
    var xs, ys := SnapshotParts(a), SnapshotParts(b);
    JoinedPartsAreTold(xs, ys);
    if SameData(a, b) {
      assert xs == ys;
    }
    if xs == ys {
      forall i | 0 <= i < 7 ensures xs[i] == ys[i] {
      }
      assert xs[0] == ys[0] && xs[1] == ys[1] && xs[2] == ys[2] && xs[3] == ys[3] && xs[4] == ys[4] && xs[5] == ys[5]
        && xs[6] == ys[6];
    }
  }

  /** With a colon in a field they can be equal although the data differs: number 1:2 and series 3 read like number 1
      and series 2:3. */
  lemma SnapshotsCanCollide(d: Documento)
    requires d.numeroNfe == Some("1:2") && d.serie == Some("3")
    ensures var other := d.(numeroNfe := Some("1"), serie := Some("2:3"));
            Snapshot(d) == Snapshot(other) && !SameData(d, other) && Shares(d, other)
  {
    var other := d.(numeroNfe := Some("1"), serie := Some("2:3"));
    PlainText("1:2");
    PlainText("3");
    PlainText("1");
    PlainText("2:3");
    hide Text, Keys, Shares, HasContent, Join, IsSpace;
    TwoParts(SnapshotParts(d), SnapshotParts(other));
    SharesExactly(d, other);
  }

  lemma TwoParts(xs: seq<string>, ys: seq<string>)
    requires |xs| == |ys| == 7 && xs[0] == ys[0] && xs[3..] == ys[3..]
    requires xs[1] == "1:2" && xs[2] == "3" && ys[1] == "1" && ys[2] == "2:3"
    ensures Join(xs) == Join(ys)
  {
    JoinOfParts(xs);
    JoinOfParts(ys);
    hide Join;
    var rest := Join(xs[3..]);
    assert "1:2" + (":" + ("3" + (":" + rest))) == "1" + (":" + ("2:3" + (":" + rest)));
  }

  lemma PlainText(s: string)
    requires s != "" && !IsSpace(s[0]) && !IsSpace(s[|s| - 1])
    ensures Text(Some(s)) == s
  {
  }

  lemma JoinOfParts(xs: seq<string>)
    requires |xs| == 7
    ensures Join(xs) == xs[0] + (":" + (xs[1] + (":" + (xs[2] + (":" + Join(xs[3..]))))))
  {
    assert xs[1..][1..] == xs[2..] && xs[2..][1..] == xs[3..];
    var two, three := Join(xs[2..]), Join(xs[3..]);
    assert two == xs[2] + ":" + three && Join(xs[1..]) == xs[1] + ":" + two && Join(xs) == xs[0] + ":" + Join(xs[1..]);
    hide Join;
    assert two == xs[2] + (":" + three);
    assert xs[1] + ":" + two == xs[1] + (":" + two);
  }

  // The keys, one by one

  datatype Kind = ByChave | ByChaveGlobal | ByHash | ByHashGlobal | BySnapshot | BySnapshotGlobal

  function Prefix(kind: Kind): string {
    match kind
    case ByChave => "chave:"
    case ByChaveGlobal => "chave-global:"
    case ByHash => "hash:"
    case ByHashGlobal => "hash-global:"
    case BySnapshot => "snapshot:"
    case BySnapshotGlobal => "snapshot-global:"
  }

  /** `text` follows the prefix in one of the document's keys of that kind. */
  predicate HasKey(d: Documento, kind: Kind, text: string) {
    match kind
    case ByChave => Chave(d) != "" && text == AmbienteText(d.ambiente) + ":" + Chave(d)
    case ByChaveGlobal => Chave(d) != "" && text == Chave(d)
    case ByHash => exists h | h in Hashes(d) :: text == AmbienteText(d.ambiente) + ":" + h
    case ByHashGlobal => text in Hashes(d)
    case BySnapshot => text == AmbienteText(d.ambiente) + ":" + Snapshot(d)
    case BySnapshotGlobal => HasContent(Snapshot(d)) && text == Snapshot(d)
  }

  lemma SnapshotKey(d: Documento)
    ensures Join([AmbienteText(d.ambiente)] + SnapshotParts(d)) == AmbienteText(d.ambiente) + ":" + Snapshot(d)
    ensures HasContent(AmbienteText(d.ambiente) + ":" + Snapshot(d))
  {
    var parts := [AmbienteText(d.ambiente)] + SnapshotParts(d);
    assert parts[1..] == SnapshotParts(d);
    var joined := AmbienteText(d.ambiente) + ":" + Snapshot(d);
    assert joined[0] == AmbienteText(d.ambiente)[0];
  }

  lemma AddedKey(keys: seq<string>, condition: bool, key: string, k: string)
    ensures k in AddKeyIf(keys, condition, key) <==> k in keys || (condition && k == key)
  {
  }

  /** Every key of a document is one of these, and each of these is a key. */
  lemma KeysAre(d: Documento, k: string)
    ensures k in Keys(d) <==>
              || (Chave(d) != "" && (k == "chave:" + (AmbienteText(d.ambiente) + ":" + Chave(d))
                || k == "chave-global:" + Chave(d)))
              || (Text(d.hashResumo) != ""
                && (k == "hash:" + (AmbienteText(d.ambiente) + ":" + Text(d.hashResumo))
                  || k == "hash-global:" + Text(d.hashResumo)))
              || (Text(d.hashXmlCompleto) != ""
                && (k == "hash:" + (AmbienteText(d.ambiente) + ":" + Text(d.hashXmlCompleto))
                  || k == "hash-global:" + Text(d.hashXmlCompleto)))
              || k == "snapshot:" + (AmbienteText(d.ambiente) + ":" + Snapshot(d))
              || (HasContent(Snapshot(d)) && k == "snapshot-global:" + Snapshot(d))
  {
    hide Text, HasContent, Join, AmbienteText, AddKeyIf;
    SnapshotKey(d);
    var ambiente := AmbienteText(d.ambiente);
    var chave, resumo, completo := Text(Some(d.chaveAcesso)), Text(d.hashResumo), Text(d.hashXmlCompleto);
    var k1 := AddKeyIf([], chave != "", "chave:" + (ambiente + ":" + chave));
    var k2 := AddKeyIf(k1, chave != "", "chave-global:" + chave);
    var k3 := AddKeyIf(k2, resumo != "", "hash:" + (ambiente + ":" + resumo));
    var k4 := AddKeyIf(k3, resumo != "", "hash-global:" + resumo);
    var k5 := AddKeyIf(k4, completo != "", "hash:" + (ambiente + ":" + completo));
    var k6 := AddKeyIf(k5, completo != "", "hash-global:" + completo);
    var snapshot := Join([ambiente] + SnapshotParts(d));
    var k7 := AddKeyIf(k6, HasContent(snapshot), "snapshot:" + snapshot);
    AddedKey([], chave != "", "chave:" + (ambiente + ":" + chave), k);
    AddedKey(k1, chave != "", "chave-global:" + chave, k);
    AddedKey(k2, resumo != "", "hash:" + (ambiente + ":" + resumo), k);
    AddedKey(k3, resumo != "", "hash-global:" + resumo, k);
    AddedKey(k4, completo != "", "hash:" + (ambiente + ":" + completo), k);
    AddedKey(k5, completo != "", "hash-global:" + completo, k);
    AddedKey(k6, HasContent(snapshot), "snapshot:" + snapshot, k);
    AddedKey(k7, HasContent(Snapshot(d)), "snapshot-global:" + Snapshot(d), k);
  }

  lemma KeyHasKind(d: Documento, k: string) returns (kind: Kind, text: string)
    requires k in Keys(d)
    ensures k == Prefix(kind) + text && HasKey(d, kind, text)
  {
    hide Keys, Text, HasContent, Join, AmbienteText;
    KeysAre(d, k);
    var ambiente := AmbienteText(d.ambiente);
    if Chave(d) != "" && k == "chave:" + (ambiente + ":" + Chave(d)) {
      kind, text := ByChave, ambiente + ":" + Chave(d);
    } else if Chave(d) != "" && k == "chave-global:" + Chave(d) {
      kind, text := ByChaveGlobal, Chave(d);
    } else if k == "snapshot:" + (ambiente + ":" + Snapshot(d)) {
      kind, text := BySnapshot, ambiente + ":" + Snapshot(d);
    } else if HasContent(Snapshot(d)) && k == "snapshot-global:" + Snapshot(d) {
      kind, text := BySnapshotGlobal, Snapshot(d);
    } else {
      var h :| h in Hashes(d) && (k == "hash:" + (ambiente + ":" + h) || k == "hash-global:" + h);
      if k == "hash:" + (ambiente + ":" + h) {
        kind, text := ByHash, ambiente + ":" + h;
      } else {
        kind, text := ByHashGlobal, h;
      }
    }
  }

  lemma HasKeyIsKey(d: Documento, kind: Kind, text: string)
    requires HasKey(d, kind, text)
    ensures Prefix(kind) + text in Keys(d)
  {
    hide Keys, Text, HasContent, Join, AmbienteText;
    KeysAre(d, Prefix(kind) + text);
  }

  /** The text of a key tells its kind and what follows. */
  lemma KeysDecode(kind: Kind, text: string, kind': Kind, text': string)
    requires Prefix(kind) + text == Prefix(kind') + text'
    ensures kind == kind' && text == text'
  {
    var k := Prefix(kind) + text;
    assert k[0] == Prefix(kind)[0] == Prefix(kind')[0];
    assert k[4] == Prefix(kind)[4] == Prefix(kind')[4];
    if k[0] == 'c' {
      assert k[5] == Prefix(kind)[5] == Prefix(kind')[5];
    } else if k[0] == 's' {
      assert k[8] == Prefix(kind)[8] == Prefix(kind')[8];
    }
    assert text == k[|Prefix(kind)|..] == text';
  }

  lemma AmbienteDecodes(a: Ambiente, text: string, b: Ambiente, text': string)
    requires AmbienteText(a) + ":" + text == AmbienteText(b) + ":" + text'
    ensures a == b && text == text'
  {
    var k := AmbienteText(a) + ":" + text;
    assert k[0] == AmbienteText(a)[0] == AmbienteText(b)[0];
    assert text == k[|AmbienteText(a)| + 1..] == text';
  }

  lemma CommonKeyMeansCopies(a: Documento, b: Documento, kind: Kind, text: string)
    requires HasKey(a, kind, text) && HasKey(b, kind, text)
    ensures Copies(a, b)
  {
    hide Text, HasContent, Join, AmbienteText;
    match kind
    case ByChave => AmbienteDecodes(a.ambiente, Chave(a), b.ambiente, Chave(b));
    case ByHash =>
      var g :| g in Hashes(a) && text == AmbienteText(a.ambiente) + ":" + g;
      var h :| h in Hashes(b) && text == AmbienteText(b.ambiente) + ":" + h;
      AmbienteDecodes(a.ambiente, g, b.ambiente, h);
      assert g in Hashes(a) * Hashes(b);
    case ByHashGlobal => assert text in Hashes(a) * Hashes(b);
    case BySnapshot => AmbienteDecodes(a.ambiente, Snapshot(a), b.ambiente, Snapshot(b));
    case _ =>
  }

  lemma Meet(a: Documento, b: Documento, kind: Kind, text: string)
    requires HasKey(a, kind, text) && HasKey(b, kind, text)
    ensures Shares(a, b)
  {
    hide Keys, HasKey;
    HasKeyIsKey(a, kind, text);
    HasKeyIsKey(b, kind, text);
    assert Prefix(kind) + text in Keys(a) && Prefix(kind) + text in Keys(b);
  }

  /** Two documents share a key exactly when they are copies: the keys that carry the ambiente only add pairs of
      the same ambiente whose data has no content. */
  lemma SharesExactly(a: Documento, b: Documento)
    ensures Shares(a, b) <==> Copies(a, b)
  {
    hide Keys, Text, HasContent, Join, AmbienteText;
    if Shares(a, b) {
      var k :| k in Keys(a) && k in Keys(b);
      var kind, text := KeyHasKind(a, k);
      var kind', text' := KeyHasKind(b, k);
      KeysDecode(kind, text, kind', text');
      CommonKeyMeansCopies(a, b, kind, text);
    }
    if Chave(a) != "" && Chave(a) == Chave(b) {
      Meet(a, b, ByChaveGlobal, Chave(a));
    }
    if Hashes(a) * Hashes(b) != {} {
      var h :| h in Hashes(a) * Hashes(b);
      Meet(a, b, ByHashGlobal, h);
    }
    if Snapshot(a) == Snapshot(b) && a.ambiente == b.ambiente {
      Meet(a, b, BySnapshot, AmbienteText(a.ambiente) + ":" + Snapshot(a));
    }
    if Snapshot(a) == Snapshot(b) && HasContent(Snapshot(a)) {
      Meet(a, b, BySnapshotGlobal, Snapshot(a));
    }
  }

  /** Nothing but ambiente, keys and hashes is filled in. */
  predicate Blank(d: Documento) {
    forall part | part in SnapshotParts(d) :: part == ""
  }

  /** Documents of one ambiente that carry no data are folded together, whatever their access keys. */
  lemma BlankDocumentsCollapse(a: Documento, b: Documento)
    requires Blank(a) && Blank(b) && a.ambiente == b.ambiente
    ensures Shares(a, b)
  {
    hide Keys, Text, HasContent, AmbienteText;
    SharesExactly(a, b);
    var pa, pb := SnapshotParts(a), SnapshotParts(b);
    forall i | 0 <= i < 7 ensures pa[i] == pb[i] {
      assert pa[i] in pa && pb[i] in pb;
    }
    assert pa == pb;
  }

  /** Being copies is not transitive: a third document has the key of one and a hash of the other. */
  lemma CopiesAreNotTransitive(a: Documento, b: Documento, c: Documento)
    requires Chave(c) == Chave(a) != "" && Chave(b) != Chave(a)
    requires Hashes(c) * Hashes(b) != {} && Hashes(b) * Hashes(a) == {} && Snapshot(b) != Snapshot(a)
    ensures Shares(c, a) && Shares(c, b) && !Shares(b, a)
  {
    hide Shares, Chave, Hashes, Snapshot, HasContent;
    SharesExactly(c, a);
    SharesExactly(c, b);
    SharesExactly(b, a);
  }
}
