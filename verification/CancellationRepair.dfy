/** The repair of stale cancellations: NFS-e documents that look cancelled although no cancellation event
    carries their own access key, and cancellation events linked to the wrong document. */
module CancellationRepair {
  import opened Options
  import opened Texts

  const BATCH_SIZE: nat := 200

  /** `dataCancelamento` is None when the column is null. */
  datatype Documento = Documento(ambiente: string, chaveAcesso: string, status: Option<string>,
      dataCancelamento: Option<int>)

  /** `documento` is the foreign key; `chaveAcesso` is the event's own key. */
  datatype Evento = Evento(documento: nat, chaveAcesso: string, tipoEvento: Option<string>, descricao: Option<string>)

  datatype Db = Db(docs: map<nat, Documento>, eventos: map<nat, Evento>)

  // What counts as a cancellation event

  function Lower(s: string): string {
    if s == "" then "" else [if 'A' <= s[0] <= 'Z' then s[0] - 'A' + 'a' else s[0]] + Lower(s[1..])
  }

  predicate Contains(s: string, part: string) {
    exists i | 0 <= i <= |s| :: part <= s[i..]
  }

  /** A combining diacritical mark. */
  predicate IsMark(c: char) {
    '\U{0300}' <= c <= '\U{036F}'
  }

  function WithoutMarks(s: string): string {
    if s == "" then "" else (if IsMark(s[0]) then "" else [s[0]]) + WithoutMarks(s[1..])
  }

  /** The text in its decomposed form, without marks, in lower case, and trimmed. */
  function NormalizeSearchText(s: string): string {
    Trim(Lower(WithoutMarks(s)))
  }

  predicate IsEventoCancelamento(e: Evento) {
    var tipo, descricao := NormalizeSearchText(e.tipoEvento.GetOr("")), NormalizeSearchText(e.descricao.GetOr(""));
    || tipo == "e101101"
    || Contains(tipo, "cancelamento") || Contains(tipo, "cancelada")
    || Contains(descricao, "cancelamento") || Contains(descricao, "cancelada")
  }

  /** `text` is `word`, written in lower case, in any casing. */
  predicate IsWord(text: string, word: string) {
    |text| == |word| && forall i | 0 <= i < |text| ::
        text[i] == word[i] || ('a' <= word[i] <= 'z' && text[i] as int + 32 == word[i] as int)
  }

  /** `text` is any text, then `word` in any casing, then any text. */
  ghost predicate Mentions(text: string, word: string) {
    exists before: string, middle: string, after: string ::
      text == before + middle + after && IsWord(middle, word)
  }

  /** Letters, all lower case, and digits. */
  predicate IsPlain(word: string) {
    forall i | 0 <= i < |word| :: 'a' <= word[i] <= 'z' || '0' <= word[i] <= '9'
  }

  lemma {:induction false} LoweredAt(s: string)
    ensures |Lower(s)| == |s|
    ensures forall i | 0 <= i < |s| ::
              Lower(s)[i] == if 'A' <= s[i] <= 'Z' then (s[i] as int + 32) as char else s[i]
    decreases |s|
  {
    if s != "" {
      LoweredAt(s[1..]);
    }
  }

  lemma LoweredIsWord(text: string, word: string)
    requires IsPlain(word)
    ensures Lower(text) == word <==> IsWord(text, word)
  {
    LoweredAt(text);
    hide Lower;
    if IsWord(text, word) {
      assert Lower(text) == word;
    }
  }

  lemma {:induction false} LowerSlices(s: string, i: nat, j: nat)
    requires i <= j <= |s|
    ensures |Lower(s)| == |s| && Lower(s[i..j]) == Lower(s)[i..j]
  {
    LoweredAt(s);
    LoweredAt(s[i..j]);
  }

  lemma LoweredContains(text: string, word: string)
    requires IsPlain(word)
    ensures Contains(Lower(text), word) <==> Mentions(text, word)
  {
    LoweredAt(text);
    hide Lower, IsWord;
    if Contains(Lower(text), word) {
      var i :| 0 <= i <= |Lower(text)| && word <= Lower(text)[i..];
      var j := i + |word|;
      LowerSlices(text, i, j);
      LoweredIsWord(text[i..j], word);
      assert Lower(text)[i..j] == word;
      assert text == text[..i] + text[i..j] + text[j..];
    }
    if Mentions(text, word) {
      var before: string, middle: string, after: string :|
        text == before + middle + after && IsWord(middle, word);
      var i, j := |before|, |before| + |middle|;
      LowerSlices(text, i, j);
      assert text[i..j] == middle;
      LoweredIsWord(middle, word);
      assert word <= Lower(text)[i..];
    }
  }

  lemma {:induction false} MarksAddUp(s: string, t: string)
    ensures WithoutMarks(s + t) == WithoutMarks(s) + WithoutMarks(t)
    decreases |s|
  {
    if s == "" {
      assert s + t == t;
    } else {
      assert (s + t)[1..] == s[1..] + t;
      MarksAddUp(s[1..], t);
    }
  }

  /** Marks are left out wherever they stand, and nothing else is. */
  lemma MarksAreLeftOut(s: string, c: char, t: string)
    ensures WithoutMarks(s + [c] + t) == WithoutMarks(s) + (if IsMark(c) then "" else [c]) + WithoutMarks(t)
    ensures WithoutMarks("") == ""
  {
    hide IsMark;
    MarksAddUp(s + [c], t);
    MarksAddUp(s, [c]);
    assert [c][1..] == "";
  }

  /** Apart from marks and from blanks around it, the text is `word` in any casing. */
  ghost predicate SaysWord(value: Option<string>, word: string) {
    value.Some? && exists middle: string :: IsTrimmed(middle, WithoutMarks(value.value)) && IsWord(middle, word)
  }

  /** Apart from marks, the text contains "cancelamento" or "cancelada" in any casing. */
  ghost predicate SpeaksOfCancellation(value: Option<string>) {
    value.Some?
    && (Mentions(WithoutMarks(value.value), "cancelamento") || Mentions(WithoutMarks(value.value), "cancelada"))
  }

  /** Exactly which events count: those of type e101101, and those whose type or description, if there is one, mentions
      a cancellation. */
  lemma CancellationEventsAre(e: Evento)
    ensures IsEventoCancelamento(e) <==>
              || SaysWord(e.tipoEvento, "e101101")
              || SpeaksOfCancellation(e.tipoEvento) || SpeaksOfCancellation(e.descricao)
  {
    hide NormalizeSearchText, Contains, SaysWord, SpeaksOfCancellation;
    WordsAreFound(e.tipoEvento);
    WordsAreFound(e.descricao);
  }

  lemma WordsAreFound(value: Option<string>)
    ensures var text := NormalizeSearchText(value.GetOr(""));
            && (text == "e101101" <==> SaysWord(value, "e101101"))
            && (Contains(text, "cancelamento") || Contains(text, "cancelada") <==> SpeaksOfCancellation(value))
  {
    var text := WithoutMarks(value.GetOr(""));
    PlainHasNoBlanks("cancelamento");
    PlainHasNoBlanks("cancelada");
    hide Lower, IsWord, Mentions, Contains, Trim, WithoutMarks, IsSpace;
    TrimmedWord(text, "e101101");
    TrimmedContains(Lower(text), "cancelamento");
    TrimmedContains(Lower(text), "cancelada");
    LoweredContains(text, "cancelamento");
    LoweredContains(text, "cancelada");
    if value.None? {
      NothingIsSaid();
    }
  }

  lemma NothingIsSaid()
    ensures NormalizeSearchText("") == "" && !Contains("", "cancelamento") && !Contains("", "cancelada")
  {
  }

  lemma PlainHasNoBlanks(word: string)
    requires IsPlain(word)
    ensures forall c | c in word :: !IsSpace(c)
  {
  }

  lemma {:induction false} LowerAdds(s: string, t: string)
    ensures Lower(s + t) == Lower(s) + Lower(t)
    decreases |s|
  {
    if s == "" {
      assert s + t == t;
    } else {
      assert (s + t)[1..] == s[1..] + t;
      LowerAdds(s[1..], t);
    }
  }

  /** Lowering changes no blank and makes none. */
  lemma LowerKeepsBlanks(s: string)
    ensures |Lower(s)| == |s| && (Blanks(s) ==> Blanks(Lower(s)))
    ensures s != "" ==> (IsSpace(Lower(s)[0]) <==> IsSpace(s[0]))
    ensures s != "" ==> (IsSpace(Lower(s)[|s| - 1]) <==> IsSpace(s[|s| - 1]))
  {
    LoweredAt(s);
    forall i | 0 <= i < |s| ensures IsSpace(Lower(s)[i]) <==> IsSpace(s[i]) {
    }
    hide Lower, IsSpace;
    if Blanks(s) {
      forall c | c in Lower(s) ensures IsSpace(c) {
        var i :| 0 <= i < |s| && Lower(s)[i] == c;
        assert s[i] in s;
      }
    }
  }

  lemma LowerTrims(s: string, middle: string)
    requires IsTrimmed(middle, s)
    ensures IsTrimmed(Lower(middle), Lower(s))
  {
    hide Lower, IsSpace, Blanks;
    LowerKeepsBlanks(middle);
    var before: string, after: string :| Blanks(before) && Blanks(after) && s == before + middle + after;
    LowerKeepsBlanks(before);
    LowerKeepsBlanks(after);
    LowerAdds(before + middle, after);
    LowerAdds(before, middle);
  }

  lemma TrimmedWord(text: string, word: string)
    requires IsPlain(word)
    ensures Trim(Lower(text)) == word <==> exists middle: string :: IsTrimmed(middle, text) && IsWord(middle, word)
  {
    TrimMeans(text);
    LowerTrims(text, Trim(text));
    TrimmedIsUnique(Lower(Trim(text)), Lower(text));
    LoweredIsWord(Trim(text), word);
    hide Lower, IsWord, IsTrimmed, Trim;
    if middle: string :| IsTrimmed(middle, text) && IsWord(middle, word) {
      TrimmedIsUnique(middle, text);
    }
  }

  /** A word without blanks is not lost by trimming. */
  lemma TrimmedContains(s: string, word: string)
    requires word != "" && forall c | c in word :: !IsSpace(c)
    ensures Contains(Trim(s), word) <==> Contains(s, word)
  {
    hide IsSpace, Trim, Contains;
    TrimMeans(s);
    var before: string, after: string :| Blanks(before) && Blanks(after) && s == before + Trim(s) + after;
    if Contains(Trim(s), word) {
      ContainedAround(before, Trim(s), after, word);
    }
    if Contains(s, word) {
      ContainedWithin(before, Trim(s), after, word);
    }
  }

  lemma ContainedAround(before: string, t: string, after: string, word: string)
    requires Contains(t, word)
    ensures Contains(before + t + after, word)
  {
    var s := before + t + after;
    var i :| 0 <= i <= |t| && word <= t[i..];
    assert s[|before| + i..] == t[i..] + after;
    assert word <= s[|before| + i..];
  }

  lemma ContainedWithin(before: string, t: string, after: string, word: string)
    requires Contains(before + t + after, word) && Blanks(before) && Blanks(after)
    requires word != "" && forall c | c in word :: !IsSpace(c)
    ensures Contains(t, word)
  {
    hide IsSpace, Blanks;
    var s := before + t + after;
    var i := OccurrenceOf(s, word);
    hide Contains;
    EndsAreNoBlanks(s, i, word);
    assert s == before + (t + after);
    NotBefore(before, t + after, i);
    NotAfter(before + t, after, i + |word| - 1);
    SliceOfMiddle(before, t, after, i, |word|);
    SliceIsContained(t, i - |before|, word);
  }

  lemma OccurrenceOf(s: string, word: string) returns (i: nat)
    requires Contains(s, word)
    ensures i + |word| <= |s| && s[i..i + |word|] == word
  {
    i :| 0 <= i <= |s| && word <= s[i..];
    assert s[i..][..|word|] == s[i..i + |word|];
  }

  lemma EndsAreNoBlanks(s: string, i: nat, word: string)
    requires i + |word| <= |s| && s[i..i + |word|] == word && word != "" && forall c | c in word :: !IsSpace(c)
    ensures !IsSpace(s[i]) && !IsSpace(s[i + |word| - 1])
  {
    hide IsSpace;
    assert s[i] == word[0] && s[i + |word| - 1] == word[|word| - 1];
    assert word[0] in word && word[|word| - 1] in word;
  }

  lemma SliceOfMiddle(before: string, t: string, after: string, i: nat, n: nat)
    requires |before| <= i && i + n <= |before| + |t|
    ensures (before + t + after)[i..i + n] == t[i - |before|..i - |before| + n]
  {
  }

  lemma SliceIsContained(t: string, i: nat, word: string)
    requires i + |word| <= |t| && t[i..i + |word|] == word
    ensures Contains(t, word)
  {
    assert word <= t[i..];
  }

  lemma NotBefore(before: string, rest: string, i: nat)
    requires Blanks(before) && i < |before + rest| && !IsSpace((before + rest)[i])
    ensures i >= |before|
  {
    hide IsSpace;
  }

  lemma NotAfter(rest: string, after: string, i: nat)
    requires Blanks(after) && i < |rest + after| && !IsSpace((rest + after)[i])
    ensures i < |rest|
  {
    hide IsSpace;
  }

  // Reading one document

  predicate IsCancelada(d: Documento) {
    d.status == Some("cancelada")
  }

  predicate Linked(db: Db, id: nat, e: nat) {
    e in db.eventos && db.eventos[e].documento == id
  }

  predicate OwnCancel(db: Db, id: nat, e: nat)
    requires id in db.docs
  {
    Linked(db, id, e) && db.eventos[e].chaveAcesso == db.docs[id].chaveAcesso && IsEventoCancelamento(db.eventos[e])
  }

  predicate OrphanCancel(db: Db, id: nat, e: nat)
    requires id in db.docs
  {
    Linked(db, id, e) && db.eventos[e].chaveAcesso != db.docs[id].chaveAcesso && IsEventoCancelamento(db.eventos[e])
  }

  predicate HasOwnCancel(db: Db, id: nat)
    requires id in db.docs
  {
    exists e | e in db.eventos :: OwnCancel(db, id, e)
  }

  predicate LooksCancelled(db: Db, id: nat)
    requires id in db.docs
  {
    || IsCancelada(db.docs[id])
    || db.docs[id].dataCancelamento.Some?
    || exists e | e in db.eventos :: OwnCancel(db, id, e) || OrphanCancel(db, id, e)
  }

  /** The document shows the signature of the bug: it looks cancelled, without evidence of its own. */
  predicate NeedsRepair(db: Db, id: nat)
    requires id in db.docs
  {
    LooksCancelled(db, id) && !HasOwnCancel(db, id) && !IsCancelada(db.docs[id])
  }

  function OrphansOf(db: Db, id: nat): set<nat>
    requires id in db.docs
  {
    set e | e in db.eventos && OrphanCancel(db, id, e)
  }

  // Ownership of an access key

  predicate OwnsKey(docs: map<nat, Documento>, id: nat, ambiente: string, chave: string) {
    id in docs && docs[id].ambiente == ambiente && docs[id].chaveAcesso == chave
  }

  /** The unique index on (ambiente, chaveAcesso). */
  ghost predicate Unique(docs: map<nat, Documento>) {
    forall i, j | i in docs && j in docs && docs[i].ambiente == docs[j].ambiente
      && docs[i].chaveAcesso == docs[j].chaveAcesso :: i == j
  }

  ghost predicate WellFormed(db: Db) {
    Unique(db.docs) && forall e | e in db.eventos :: db.eventos[e].documento in db.docs
  }

  function Owner(docs: map<nat, Documento>, ambiente: string, chave: string): (owner: Option<nat>)
    requires Unique(docs)
    ensures owner.Some? ==> OwnsKey(docs, owner.value, ambiente, chave)
    ensures owner.None? ==> forall id :: !OwnsKey(docs, id, ambiente, chave)
  {
    if exists id | id in docs :: OwnsKey(docs, id, ambiente, chave) then
      var id :| id in docs && OwnsKey(docs, id, ambiente, chave);
      Some(id)
    else None
  }

  // The repair, described in one piece

  /** Event e is, in `db`, an orphan cancellation event of one of the documents in `repaired`. */
  predicate OrphanIn(db: Db, repaired: set<nat>, e: nat)
    requires repaired <= db.docs.Keys
  {
    e in db.eventos && db.eventos[e].documento in repaired && OrphanCancel(db, db.eventos[e].documento, e)
  }

  function OwnerOfEvent(db: Db, e: nat): Option<nat>
    requires WellFormed(db) && e in db.eventos
  {
    Owner(db.docs, db.docs[db.eventos[e].documento].ambiente, db.eventos[e].chaveAcesso)
  }

  /** `db` with exactly the documents in `repaired` repaired. */
  function Apply(db: Db, repaired: set<nat>): Db
    requires WellFormed(db) && repaired <= db.docs.Keys
  {
    Db(map id | id in db.docs :: if id in repaired then db.docs[id].(dataCancelamento := None) else db.docs[id],
       map e | e in db.eventos && !(OrphanIn(db, repaired, e) && OwnerOfEvent(db, e).None?) ::
         if OrphanIn(db, repaired, e) then db.eventos[e].(documento := OwnerOfEvent(db, e).value) else db.eventos[e])
  }

  // Repairing documents one after the other adds up to the description above

  /** Where an event stands after `repaired` was repaired. */
  lemma EventAfter(db: Db, repaired: set<nat>, e: nat)
    requires WellFormed(db) && repaired <= db.docs.Keys && e in db.eventos
    ensures var after := Apply(db, repaired);
            if !OrphanIn(db, repaired, e) then e in after.eventos && after.eventos[e] == db.eventos[e]
            else match OwnerOfEvent(db, e)
                 case None => e !in after.eventos
                 case Some(owner) =>
                   && e in after.eventos && after.eventos[e] == db.eventos[e].(documento := owner)
                   && owner != db.eventos[e].documento && owner in db.docs
                   && db.eventos[e].chaveAcesso == db.docs[owner].chaveAcesso
  {
    hide IsEventoCancelamento;
  }

  lemma ApplyIsWellFormed(db: Db, repaired: set<nat>)
    requires WellFormed(db) && repaired <= db.docs.Keys
    ensures WellFormed(Apply(db, repaired)) && Apply(db, repaired).docs.Keys == db.docs.Keys
    ensures forall id | id in db.docs ::
              var d, d' := db.docs[id], Apply(db, repaired).docs[id];
              d'.ambiente == d.ambiente && d'.chaveAcesso == d.chaveAcesso && d'.status == d.status
    ensures forall id | id in db.docs && id !in repaired :: Apply(db, repaired).docs[id] == db.docs[id]
  {
    hide IsEventoCancelamento;
    forall e | e in Apply(db, repaired).eventos ensures Apply(db, repaired).eventos[e].documento in db.docs {
      EventAfter(db, repaired, e);
    }
  }

  /** Relinked events always carry the key of the document they are linked to, so a document that was not
      repaired keeps its orphans and gains none. */
  lemma OrphansStay(db: Db, repaired: set<nat>, id: nat, e: nat)
    requires WellFormed(db) && repaired <= db.docs.Keys && id in db.docs && id !in repaired
    ensures OrphanCancel(Apply(db, repaired), id, e) <==> OrphanCancel(db, id, e)
    ensures OrphanCancel(db, id, e) ==> Apply(db, repaired).eventos[e] == db.eventos[e]
  {
    hide IsEventoCancelamento, Apply;
    ApplyIsWellFormed(db, repaired);
    if e in db.eventos {
      EventAfter(db, repaired, e);
    } else {
      NoNewEvents(db, repaired, e);
    }
  }

  lemma NoNewEvents(db: Db, repaired: set<nat>, e: nat)
    requires WellFormed(db) && repaired <= db.docs.Keys && e !in db.eventos
    ensures e !in Apply(db, repaired).eventos
  {
  }

  lemma RelinkKeepsKind(e: Evento, owner: nat)
    ensures IsEventoCancelamento(e.(documento := owner)) == IsEventoCancelamento(e)
  {
  }

  /** An event is the document's own evidence afterwards when it was before, or when it was relinked to it. */
  lemma OwnEvidenceAfter(db: Db, repaired: set<nat>, id: nat, e: nat)
    requires WellFormed(db) && repaired <= db.docs.Keys && id in db.docs
    ensures OwnCancel(Apply(db, repaired), id, e) <==>
              OwnCancel(db, id, e) || (OrphanIn(db, repaired, e) && OwnerOfEvent(db, e) == Some(id))
  {
    hide IsEventoCancelamento, Apply;
    ApplyIsWellFormed(db, repaired);
    if e in db.eventos {
      RelinkKeepsKind(db.eventos[e], id);
      EventAfter(db, repaired, e);
    } else {
      NoNewEvents(db, repaired, e);
    }
  }

  /** The relinked and deleted events of one document, on top of what was repaired before. */
  function RepairEvents(db: Db, orphans: set<nat>, ambiente: string): map<nat, Evento>
    requires Unique(db.docs) && orphans <= db.eventos.Keys
  {
    map e | e in db.eventos && !(e in orphans && Owner(db.docs, ambiente, db.eventos[e].chaveAcesso).None?) ::
      if e in orphans
      then db.eventos[e].(documento := Owner(db.docs, ambiente, db.eventos[e].chaveAcesso).value)
      else db.eventos[e]
  }

  lemma OwnerDependsOnKeys(docs: map<nat, Documento>, others: map<nat, Documento>, ambiente: string, chave: string)
    requires Unique(docs) && Unique(others) && docs.Keys == others.Keys
    requires forall id | id in docs ::
               docs[id].ambiente == others[id].ambiente && docs[id].chaveAcesso == others[id].chaveAcesso
    ensures Owner(docs, ambiente, chave) == Owner(others, ambiente, chave)
  {
    hide Owner;
    var o, p := Owner(docs, ambiente, chave), Owner(others, ambiente, chave);
    if o.Some? {
      assert OwnsKey(others, o.value, ambiente, chave);
    }
    if p.Some? {
      assert OwnsKey(docs, p.value, ambiente, chave);
    }
  }

  /** One more repaired document, read earlier in the state after `read`, changed now in the state after `repaired`. */
  lemma OneMoreRepair(db: Db, read: set<nat>, repaired: set<nat>, id: nat)
    requires WellFormed(db) && read <= repaired <= db.docs.Keys && id in db.docs && id !in repaired
    ensures var now := Apply(db, repaired);
            var orphans := OrphansOf(Apply(db, read), id);
            && Unique(now.docs) && orphans <= now.eventos.Keys
            && orphans == OrphansOf(db, id)
            && Apply(db, repaired + {id})
               == Db(now.docs[id := now.docs[id].(dataCancelamento := None)],
                   RepairEvents(now, orphans, db.docs[id].ambiente))
  {
    hide IsEventoCancelamento, Owner, Apply, OrphanCancel, OrphanIn, RepairEvents;
    ApplyIsWellFormed(db, read);
    ApplyIsWellFormed(db, repaired);
    OrphansAgree(db, read, id);
    OrphansAgree(db, repaired, id);
    OneMoreEvents(db, repaired, id, OrphansOf(db, id));
    OneMoreDocument(db, repaired, id);
  }

  lemma OneMoreEvents(db: Db, repaired: set<nat>, id: nat, orphans: set<nat>)
    requires WellFormed(db) && repaired <= db.docs.Keys && id in db.docs && id !in repaired
    requires orphans == OrphansOf(db, id) && orphans <= Apply(db, repaired).eventos.Keys
    requires Unique(Apply(db, repaired).docs)
    ensures Apply(db, repaired + {id}).eventos == RepairEvents(Apply(db, repaired), orphans, db.docs[id].ambiente)
  {
    hide IsEventoCancelamento, Owner, Apply, RepairEvents;
    var next, events :=
        Apply(db, repaired + {id}).eventos, RepairEvents(Apply(db, repaired), orphans, db.docs[id].ambiente);
    forall e ensures e in next <==> e in events
    ensures e in next && e in events ==> next[e] == events[e]
    {
      OneMoreEvent(db, repaired, id, orphans, e);
    }
  }

  lemma OneMoreDocument(db: Db, repaired: set<nat>, id: nat)
    requires WellFormed(db) && repaired <= db.docs.Keys && id in db.docs && id !in repaired
    ensures id in Apply(db, repaired).docs
    ensures var now := Apply(db, repaired).docs;
            Apply(db, repaired + {id}).docs == now[id := now[id].(dataCancelamento := None)]
  {
    hide IsEventoCancelamento, Owner, OrphanIn;
  }

  lemma OrphansAgree(db: Db, repaired: set<nat>, id: nat)
    requires WellFormed(db) && repaired <= db.docs.Keys && id in db.docs && id !in repaired
    ensures id in Apply(db, repaired).docs
    ensures OrphansOf(Apply(db, repaired), id) == OrphansOf(db, id)
    ensures OrphansOf(db, id) <= Apply(db, repaired).eventos.Keys
    ensures forall e | e in OrphansOf(db, id) :: Apply(db, repaired).eventos[e] == db.eventos[e]
  {
    hide IsEventoCancelamento, Apply;
    ApplyIsWellFormed(db, repaired);
    forall e
      ensures OrphanCancel(Apply(db, repaired), id, e) <==> OrphanCancel(db, id, e)
      ensures OrphanCancel(db, id, e) ==> Apply(db, repaired).eventos[e] == db.eventos[e]
    {
      OrphansStay(db, repaired, id, e);
    }
  }

  lemma OneMoreEvent(db: Db, repaired: set<nat>, id: nat, orphans: set<nat>, e: nat)
    requires WellFormed(db) && repaired <= db.docs.Keys && id in db.docs && id !in repaired
    requires orphans == OrphansOf(db, id) && orphans <= Apply(db, repaired).eventos.Keys
    requires Unique(Apply(db, repaired).docs)
    ensures var next, events :=
              Apply(db, repaired + {id}).eventos, RepairEvents(Apply(db, repaired), orphans, db.docs[id].ambiente);
            && (e in next <==> e in events)
            && (e in next && e in events ==> next[e] == events[e])
  {
    hide IsEventoCancelamento, Owner, Apply;
    ApplyIsWellFormed(db, repaired);
    if e in db.eventos {
      EventAfter(db, repaired, e);
      EventAfter(db, repaired + {id}, e);
      OwnerDependsOnKeys(db.docs, Apply(db, repaired).docs, db.docs[id].ambiente, db.eventos[e].chaveAcesso);
    } else {
      NoNewEvents(db, repaired, e);
      NoNewEvents(db, repaired + {id}, e);
    }
  }

  /** Repairing one orphan on top of others moves it to its owner or takes it away. */
  lemma OneMoreOrphan(db: Db, done: set<nat>, e: nat, ambiente: string)
    requires Unique(db.docs) && done <= db.eventos.Keys && e in db.eventos && e !in done
    ensures e in RepairEvents(db, done, ambiente) && RepairEvents(db, done, ambiente)[e] == db.eventos[e]
    ensures RepairEvents(db, done + {e}, ambiente)
            == match Owner(db.docs, ambiente, db.eventos[e].chaveAcesso)
               case Some(owner) => RepairEvents(db, done, ambiente)[e := db.eventos[e].(documento := owner)]
               case None => RepairEvents(db, done, ambiente) - {e}
  {
    hide Owner, Unique;
    var before, after := RepairEvents(db, done, ambiente), RepairEvents(db, done + {e}, ambiente);
    match Owner(db.docs, ambiente, db.eventos[e].chaveAcesso)
    case Some(owner) =>
      assert after == before[e := db.eventos[e].(documento := owner)];
    case None =>
      assert after == before - {e};
  }

  lemma NoOrphans(db: Db, ambiente: string)
    requires Unique(db.docs)
    ensures RepairEvents(db, {}, ambiente) == db.eventos
  {
    hide Owner, Unique;
  }

  /** Ownership does not look at the cancellation date. */
  lemma DateDoesNotMatter(db: Db, id: nat, orphans: set<nat>, ambiente: string)
    requires Unique(db.docs) && id in db.docs && orphans <= db.eventos.Keys
    ensures var docs := db.docs[id := db.docs[id].(dataCancelamento := None)];
            Unique(docs) && RepairEvents(Db(docs, db.eventos), orphans, ambiente) == RepairEvents(db, orphans, ambiente)
  {
    hide Owner;
    var docs := db.docs[id := db.docs[id].(dataCancelamento := None)];
    forall e | e in db.eventos
      ensures Owner(docs, ambiente, db.eventos[e].chaveAcesso) == Owner(db.docs, ambiente, db.eventos[e].chaveAcesso)
    {
      OwnerDependsOnKeys(db.docs, docs, ambiente, db.eventos[e].chaveAcesso);
    }
  }

  lemma NothingRepaired(db: Db)
    requires WellFormed(db)
    ensures Apply(db, {}) == db
  {
  }

  /** The orphans of a document read earlier are still there and still carry another key than its own. */
  lemma OrphansHaveOtherKeys(db: Db, read: set<nat>, repaired: set<nat>, id: nat)
    requires WellFormed(db) && read <= repaired <= db.docs.Keys && id in db.docs && id !in repaired
    ensures id in Apply(db, read).docs && Apply(db, read).docs[id] == db.docs[id]
    ensures id in Apply(db, repaired).docs && Apply(db, repaired).docs[id] == db.docs[id]
    ensures forall e | e in OrphansOf(Apply(db, read), id) ::
              e in Apply(db, repaired).eventos && Apply(db, repaired).eventos[e].chaveAcesso != db.docs[id].chaveAcesso
  {
    hide IsEventoCancelamento, Apply;
    ApplyIsWellFormed(db, read);
    ApplyIsWellFormed(db, repaired);
    OrphansAgree(db, read, id);
    OrphansAgree(db, repaired, id);
  }
}
