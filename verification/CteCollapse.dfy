/** The duplicate collapse of the CT-e listing: a single pass over the documents, one slot per output, and a
    map from keys to slots. `slotOf[i]` is the slot the document at position i was folded into. */
module CteCollapse {
  import opened Options
  import opened CteListing

  type KeyMap = map<string, nat>

  /** The first slot that one of the keys, in order, is mapped to. */
  function FindSlot(keys: seq<string>, m: KeyMap): (found: Option<nat>)
    ensures found.Some? ==> exists k :: k in keys && k in m && m[k] == found.value
    ensures found.None? ==> forall k | k in keys :: k !in m
  {
    if keys == [] then None
    else if keys[0] in m then Some(m[keys[0]])
    else FindSlot(keys[1..], m)
  }

  function MapAll(keys: seq<string>, slot: nat, m: KeyMap): (r: KeyMap)
    ensures forall k :: k in r <==> k in keys || k in m
    ensures forall k | k in r :: r[k] == if k in keys then slot else m[k]
  {
    if keys == [] then m else MapAll(keys[1..], slot, m[keys[0] := slot])
  }

  // What the slots are

  /** Every document is in a slot and every slot shows one of its documents. */
  ghost predicate Assigned(slotOf: seq<nat>, best: seq<nat>) {
    && (forall i | 0 <= i < |slotOf| :: slotOf[i] < |best|)
    && (forall s | 0 <= s < |best| :: best[s] < |slotOf| && slotOf[best[s]] == s)
  }

  ghost predicate FirstOfSlot(slotOf: seq<nat>, i: nat)
    requires i < |slotOf|
  {
    forall j | 0 <= j < i :: slotOf[j] != slotOf[i]
  }

  /** A document that shares no key with any earlier one opens a slot; any other shares one with an earlier
      document of its slot. */
  ghost predicate Linked(docs: seq<Documento>, slotOf: seq<nat>, i: nat)
    requires |slotOf| == |docs| && i < |docs|
  {
    if FirstOfSlot(slotOf, i) then forall j | 0 <= j < i :: !Shares(docs[i], docs[j])
    else exists j | 0 <= j < i :: slotOf[j] == slotOf[i] && Shares(docs[i], docs[j])
  }

  /** `b` is the earliest of the documents of a slot to which no other one is preferred. */
  ghost predicate EarliestBest(docs: seq<Documento>, slotOf: seq<nat>, b: nat)
    requires |slotOf| == |docs| && b < |docs|
  {
    forall i | 0 <= i < |docs| && slotOf[i] == slotOf[b] ::
        !Preferred(docs[i], docs[b]) && (i < b ==> Preferred(docs[b], docs[i]))
  }

  ghost predicate GoodSlots(docs: seq<Documento>, slotOf: seq<nat>, best: seq<nat>) {
    && |slotOf| == |docs|
    && Assigned(slotOf, best)
    && (forall i | 0 <= i < |docs| :: Linked(docs, slotOf, i))
    && (forall s | 0 <= s < |best| :: EarliestBest(docs, slotOf, best[s]))
  }

  /** Every key seen is mapped, and leads to a slot with a document that has it. */
  ghost predicate GoodMap(docs: seq<Documento>, slotOf: seq<nat>, m: KeyMap)
    requires |slotOf| == |docs|
  {
    && (forall k | k in m :: exists i | 0 <= i < |docs| :: slotOf[i] == m[k] && k in Keys(docs[i]))
    && (forall i, k | 0 <= i < |docs| && k in Keys(docs[i]) :: k in m)
  }

  ghost predicate SharingIsTransitive(docs: seq<Documento>) {
    forall a, b, c | 0 <= a < |docs| && 0 <= b < |docs| && 0 <= c < |docs| && Shares(docs[a], docs[b])
      && Shares(docs[b], docs[c]) ::
      Shares(docs[a], docs[c])
  }

  /** The keys of every document lead to its own slot. */
  ghost predicate Separated(docs: seq<Documento>, slotOf: seq<nat>, m: KeyMap)
    requires |slotOf| == |docs|
  {
    forall i, k | 0 <= i < |docs| && k in Keys(docs[i]) :: k in m && m[k] == slotOf[i]
  }

  // One more document

  lemma BetterThanBest(challenger: Documento, best: Documento, other: Documento)
    requires !Preferred(other, best) && Preferred(challenger, best)
    ensures Preferred(challenger, other) && !Preferred(other, challenger)
  {
  }

  lemma StillLinked(docs: seq<Documento>, slotOf: seq<nat>, d: Documento, s: nat, i: nat)
    requires |slotOf| == |docs| && i < |docs| && Linked(docs, slotOf, i)
    ensures Linked(docs + [d], slotOf + [s], i)
  {
    hide Keys;
    if FirstOfSlot(slotOf, i) {
      assert FirstOfSlot(slotOf + [s], i);
      forall j | 0 <= j < i ensures !Shares((docs + [d])[i], (docs + [d])[j]) {
        assert !Shares(docs[i], docs[j]);
      }
    } else {
      var j :| 0 <= j < i && slotOf[j] == slotOf[i] && Shares(docs[i], docs[j]);
      assert (slotOf + [s])[j] == (slotOf + [s])[i] && Shares((docs + [d])[i], (docs + [d])[j]);
    }
  }

  /** A newcomer that is not preferred to what a slot shows, or goes elsewhere, changes nothing there. */
  lemma StillBest(docs: seq<Documento>, slotOf: seq<nat>, d: Documento, s: nat, b: nat)
    requires |slotOf| == |docs| && b < |docs| && EarliestBest(docs, slotOf, b)
    requires slotOf[b] == s ==> !Preferred(d, docs[b])
    ensures EarliestBest(docs + [d], slotOf + [s], b)
  {
    hide Preferred;
    var docs', slotOf' := docs + [d], slotOf + [s];
    forall i | 0 <= i < |docs'| && slotOf'[i] == slotOf'[b]
      ensures !Preferred(docs'[i], docs'[b]) && (i < b ==> Preferred(docs'[b], docs'[i]))
    {
      if i < |docs| {
        assert slotOf[i] == slotOf[b];
      }
    }
  }

  lemma NowBest(docs: seq<Documento>, slotOf: seq<nat>, d: Documento, s: nat, b: nat)
    requires |slotOf| == |docs| && b < |docs| && EarliestBest(docs, slotOf, b) && slotOf[b] == s
    requires Preferred(d, docs[b])
    ensures EarliestBest(docs + [d], slotOf + [s], |docs|)
  {
    var docs', slotOf' := docs + [d], slotOf + [s];
    forall i | 0 <= i < |docs'| && slotOf'[i] == slotOf'[|docs|]
      ensures !Preferred(docs'[i], docs'[|docs|]) && (i < |docs| ==> Preferred(docs'[|docs|], docs'[i]))
    {
      NotPreferredToItself(d);
      hide Preferred;
      if i < |docs| {
        assert slotOf[i] == slotOf[b];
        BetterThanBest(d, docs[b], docs[i]);
      }
    }
  }

  lemma NotPreferredToItself(d: Documento)
    ensures !Preferred(d, d)
  {
  }

  lemma OpenSlot(docs: seq<Documento>, slotOf: seq<nat>, best: seq<nat>, d: Documento)
    requires GoodSlots(docs, slotOf, best) && forall j | 0 <= j < |docs| :: !Shares(d, docs[j])
    ensures GoodSlots(docs + [d], slotOf + [|best|], best + [|docs|])
  {
    NotPreferredToItself(d);
    hide Keys, Preferred;
    var docs', slotOf', best' := docs + [d], slotOf + [|best|], best + [|docs|];
    forall i | 0 <= i < |docs'| ensures Linked(docs', slotOf', i) {
      if i < |docs| {
        StillLinked(docs, slotOf, d, |best|, i);
      } else {
        assert FirstOfSlot(slotOf', i);
      }
    }
    forall s | 0 <= s < |best'| ensures EarliestBest(docs', slotOf', best'[s]) {
      if s < |best| {
        StillBest(docs, slotOf, d, |best|, best[s]);
      }
    }
  }

  /** A document that shares a key with a member joins its slot, and is shown if it is preferred to what was. */
  lemma JoinSlot(docs: seq<Documento>, slotOf: seq<nat>, best: seq<nat>, d: Documento, s: nat, j: nat)
    requires GoodSlots(docs, slotOf, best) && s < |best| && j < |docs| && slotOf[j] == s && Shares(d, docs[j])
    ensures var shown := if Preferred(d, docs[best[s]]) then best[s := |docs|] else best;
            GoodSlots(docs + [d], slotOf + [s], shown)
  {
    hide Keys, Preferred;
    var docs', slotOf' := docs + [d], slotOf + [s];
    var shown := if Preferred(d, docs[best[s]]) then best[s := |docs|] else best;
    forall i | 0 <= i < |docs'| ensures Linked(docs', slotOf', i) {
      if i < |docs| {
        StillLinked(docs, slotOf, d, s, i);
      } else {
        assert slotOf'[j] == slotOf'[i] && Shares(docs'[i], docs'[j]);
      }
    }
    forall t | 0 <= t < |shown| ensures EarliestBest(docs', slotOf', shown[t]) {
      if t == s && Preferred(d, docs[best[s]]) {
        NowBest(docs, slotOf, d, s, best[s]);
      } else {
        StillBest(docs, slotOf, d, s, best[t]);
      }
    }
  }

  lemma MapKeepsGood(docs: seq<Documento>, slotOf: seq<nat>, m: KeyMap, d: Documento, s: nat, shown: Documento,
      m': KeyMap)
    requires |slotOf| == |docs| && GoodMap(docs, slotOf, m)
    requires shown == d || exists i | 0 <= i < |docs| :: slotOf[i] == s && docs[i] == shown
    requires forall k :: k in m' <==> k in Keys(shown) || k in Keys(d) || k in m
    requires forall k | k in m' :: m'[k] == if k in Keys(shown) || k in Keys(d) then s else m[k]
    ensures GoodMap(docs + [d], slotOf + [s], m')
  {
    hide Keys;
    var docs', slotOf' := docs + [d], slotOf + [s];
    assert docs'[|docs|] == d && slotOf'[|docs|] == s;
    forall k | k in m' ensures exists i | 0 <= i < |docs'| :: slotOf'[i] == m'[k] && k in Keys(docs'[i]) {
      if k in Keys(d) {
      } else if k in Keys(shown) {
        var i :| 0 <= i < |docs| && slotOf[i] == s && docs[i] == shown;
        assert slotOf'[i] == s && docs'[i] == shown;
      } else {
        var i :| 0 <= i < |docs| && slotOf[i] == m[k] && k in Keys(docs[i]);
        assert slotOf'[i] == m'[k] && docs'[i] == docs[i];
      }
    }
  }

  lemma Meets(a: Documento, b: Documento, k: string)
    requires k in Keys(a) && k in Keys(b)
    ensures Shares(a, b) && Shares(b, a)
  {
    hide Keys;
  }

  lemma MembersShare(docs: seq<Documento>, i: nat, j: nat, through: Documento, k: string, l: string)
    requires i < |docs| && j < |docs| && through in docs && SharingIsTransitive(docs)
    requires k in Keys(through) && k in Keys(docs[i]) && l in Keys(through) && l in Keys(docs[j])
    ensures exists x :: x in Keys(docs[i]) && x in Keys(docs[j])
  {
    hide Keys;
    Meets(docs[i], through, k);
    Meets(through, docs[j], l);
    var t :| 0 <= t < |docs| && docs[t] == through;
    assert Shares(docs[i], docs[t]) && Shares(docs[t], docs[j]);
  }

  lemma OpenKeepsSeparated(all: seq<Documento>, n: nat, slotOf: seq<nat>, m: KeyMap, s: nat, m': KeyMap)
    requires n < |all| && |slotOf| == n && Separated(all[..n], slotOf, m)
    requires forall k | k in Keys(all[n]) :: k !in m
    requires m' == MapAll(Keys(all[n]), s, m)
    ensures Separated(all[..n] + [all[n]], slotOf + [s], m')
  {
    hide Keys, MapAll;
    var docs' := all[..n] + [all[n]];
    forall i, k | 0 <= i < |docs'| && k in Keys(docs'[i]) ensures k in m' && m'[k] == (slotOf + [s])[i] {
      if i < n {
        assert docs'[i] == all[..n][i];
      }
    }
  }

  lemma JoinKeepsSeparated(all: seq<Documento>, n: nat, slotOf: seq<nat>, m: KeyMap, s: nat, j: nat, l: string,
      shown: Documento, m': KeyMap)
    requires n < |all| && |slotOf| == n && Separated(all[..n], slotOf, m) && SharingIsTransitive(all)
    requires j < n && slotOf[j] == s && l in Keys(all[n]) && l in Keys(all[j])
    requires shown == all[n] || exists i | 0 <= i < n :: slotOf[i] == s && all[i] == shown
    requires forall k :: k in m' <==> k in Keys(shown) || k in Keys(all[n]) || k in m
    requires forall k | k in m' :: m'[k] == if k in Keys(shown) || k in Keys(all[n]) then s else m[k]
    ensures Separated(all[..n] + [all[n]], slotOf + [s], m')
  {
    hide Keys;
    var docs' := all[..n] + [all[n]];
    forall i, k | 0 <= i < |docs'| && k in Keys(docs'[i]) ensures k in m' && m'[k] == (slotOf + [s])[i] {
      if i < n {
        assert docs'[i] == all[..n][i] == all[i] && all[..n][j] == all[j];
        if k in Keys(all[n]) {
          MembersShare(all, i, j, all[n], k, l);
          var x :| x in Keys(all[i]) && x in Keys(all[j]);
          assert m[x] == slotOf[i] && m[x] == slotOf[j];
        } else if k in Keys(shown) {
          var b :| 0 <= b < n && slotOf[b] == s && all[b] == shown;
          assert all[..n][b] == shown;
          assert m[k] == slotOf[b] && m[k] == slotOf[i];
        }
      }
    }
  }

  // The pass

  function Shown(docs: seq<Documento>, best: seq<nat>): (r: seq<Documento>)
    requires forall s | 0 <= s < |best| :: best[s] < |docs|
    ensures |r| == |best|
    ensures forall s | 0 <= s < |best| :: r[s] == docs[best[s]]
  {
    if best == [] then [] else [docs[best[0]]] + Shown(docs, best[1..])
  }

  /** Two documents are in the same slot exactly when they are the same or share a key. */
  ghost predicate SlotsAreClasses(docs: seq<Documento>, slotOf: seq<nat>)
    requires |slotOf| == |docs|
  {
    forall i, j | 0 <= i < |docs| && 0 <= j < |docs| :: slotOf[i] == slotOf[j] <==> i == j || Shares(docs[i], docs[j])
  }

  /** The pass after the first n documents. */
  ghost predicate Folded(docs: seq<Documento>, n: nat, slotOf: seq<nat>, best: seq<nat>, m: KeyMap) {
    && n <= |docs|
    && GoodSlots(docs[..n], slotOf, best)
    && GoodMap(docs[..n], slotOf, m)
    && (SharingIsTransitive(docs) ==> Separated(docs[..n], slotOf, m))
  }

  lemma NothingFolded(docs: seq<Documento>)
    ensures Folded(docs, 0, [], [], map[])
  {
  }

  lemma NoEarlierCopy(docs: seq<Documento>, slotOf: seq<nat>, m: KeyMap, d: Documento)
    requires |slotOf| == |docs| && GoodMap(docs, slotOf, m) && forall k | k in Keys(d) :: k !in m
    ensures forall j | 0 <= j < |docs| :: !Shares(d, docs[j])
  {
    hide Keys;
  }

  lemma FoldOpen(docs: seq<Documento>, n: nat, slotOf: seq<nat>, best: seq<nat>, m: KeyMap)
    requires n < |docs| && Folded(docs, n, slotOf, best, m) && forall k | k in Keys(docs[n]) :: k !in m
    ensures Folded(docs, n + 1, slotOf + [|best|], best + [n], MapAll(Keys(docs[n]), |best|, m))
  {
    hide Keys, Preferred, MapAll;
    var m' := MapAll(Keys(docs[n]), |best|, m);
    assert docs[..n + 1] == docs[..n] + [docs[n]];
    NoEarlierCopy(docs[..n], slotOf, m, docs[n]);
    OpenSlot(docs[..n], slotOf, best, docs[n]);
    MapKeepsGood(docs[..n], slotOf, m, docs[n], |best|, docs[n], m');
    if SharingIsTransitive(docs) {
      OpenKeepsSeparated(docs, n, slotOf, m, |best|, m');
    }
  }

  lemma FoldJoin(docs: seq<Documento>, n: nat, slotOf: seq<nat>, best: seq<nat>, m: KeyMap, s: nat, l: string)
    requires n < |docs| && Folded(docs, n, slotOf, best, m)
    requires l in Keys(docs[n]) && l in m && m[l] == s
    ensures s < |best| && best[s] < n
    ensures var b := if Preferred(docs[n], docs[best[s]]) then n else best[s];
            Folded(docs, n + 1, slotOf + [s], best[s := b], MapAll(Keys(docs[b]), s, MapAll(Keys(docs[n]), s, m)))
  {
    hide Keys, Preferred, MapAll, GoodMap, Separated, Linked, EarliestBest, SharingIsTransitive, Shares;
    var j := MemberWithKey(docs[..n], slotOf, m, l);
    Meets(docs[n], docs[j], l);
    JoinSlot(docs[..n], slotOf, best, docs[n], s, j);
    assert docs[..n + 1] == docs[..n] + [docs[n]] && docs[..n][best[s]] == docs[best[s]];
    var b := if Preferred(docs[n], docs[best[s]]) then n else best[s];
    assert best[s := best[s]] == best;
    FoldMap(docs, n, slotOf, m, s, j, l, b, MapAll(Keys(docs[b]), s, MapAll(Keys(docs[n]), s, m)));
  }

  lemma MemberWithKey(docs: seq<Documento>, slotOf: seq<nat>, m: KeyMap, k: string) returns (j: nat)
    requires |slotOf| == |docs| && GoodMap(docs, slotOf, m) && k in m
    ensures j < |docs| && slotOf[j] == m[k] && k in Keys(docs[j])
  {
    hide Keys;
    j :| 0 <= j < |docs| && slotOf[j] == m[k] && k in Keys(docs[j]);
  }

  lemma FoldMap(docs: seq<Documento>, n: nat, slotOf: seq<nat>, m: KeyMap, s: nat, j: nat, l: string, b: nat,
      m': KeyMap)
    requires n < |docs| && |slotOf| == n && GoodMap(docs[..n], slotOf, m)
    requires SharingIsTransitive(docs) ==> Separated(docs[..n], slotOf, m)
    requires j < n && slotOf[j] == s && l in Keys(docs[n]) && l in Keys(docs[j])
    requires b == n || (b < n && slotOf[b] == s)
    requires m' == MapAll(Keys(docs[b]), s, MapAll(Keys(docs[n]), s, m))
    ensures GoodMap(docs[..n] + [docs[n]], slotOf + [s], m')
    ensures SharingIsTransitive(docs) ==> Separated(docs[..n] + [docs[n]], slotOf + [s], m')
  {
    hide Keys, MapAll;
    assert b < n ==> docs[..n][b] == docs[b];
    MapKeepsGood(docs[..n], slotOf, m, docs[n], s, docs[b], m');
    if SharingIsTransitive(docs) {
      JoinKeepsSeparated(docs, n, slotOf, m, s, j, l, docs[b], m');
    }
  }

  method DeduplicateDocumentosForList(documents: seq<Documento>)
    returns (items: seq<Documento>, duplicatesRemoved: int, ghost slotOf: seq<nat>, ghost best: seq<nat>)
    ensures GoodSlots(documents, slotOf, best)
    ensures items == SortForListing(Shown(documents, best))
    ensures duplicatesRemoved == |documents| - |best| && |items| == |best|
    ensures SharingIsTransitive(documents) <==> SlotsAreClasses(documents, slotOf)
  {
    hide Keys, Preferred, Before, MapAll, FindSlot, GoodMap, Separated, Linked, EarliestBest, SharingIsTransitive,
        Shares;
    var selected: seq<Documento>, keyToIndex: KeyMap := [], map[];
    slotOf, best := [], [];
    NothingFolded(documents);
    for n := 0 to |documents|
      invariant Folded(documents, n, slotOf, best, keyToIndex)
      invariant |selected| == |best| && forall s | 0 <= s < |best| :: selected[s] == documents[best[s]]
    {
      var document := documents[n];
      var candidateKeys := Keys(document);
      var existing := FindSlot(candidateKeys, keyToIndex);
      if existing.None? {
        FoldOpen(documents, n, slotOf, best, keyToIndex);
        keyToIndex := MapAll(candidateKeys, |selected|, keyToIndex);
        selected := selected + [document];
        slotOf, best := slotOf + [|best|], best + [n];
      } else {
        var slot := existing.value;
        ghost var l :| l in candidateKeys && l in keyToIndex && keyToIndex[l] == slot;
        FoldJoin(documents, n, slotOf, best, keyToIndex, slot, l);
        var current := selected[slot];
        best := best[slot := if Preferred(document, current) then n else best[slot]];
        if Preferred(document, current) {
          selected := selected[slot := document];
        }
        keyToIndex := MapAll(candidateKeys, slot, keyToIndex);
        keyToIndex := MapAll(Keys(selected[slot]), slot, keyToIndex);
        slotOf := slotOf + [slot];
      }
    }
    assert documents[..|documents|] == documents;
    items := SortForListing(selected);
    SortIsOrderedPermutation(selected);
    assert selected == Shown(documents, best);
    assert |items| == |multiset(items)|;
    duplicatesRemoved := |documents| - |items|;
    if SharingIsTransitive(documents) {
      SeparatedSlotsAreClasses(documents, slotOf, keyToIndex);
    }
    if SlotsAreClasses(documents, slotOf) {
      ClassesAreTransitive(documents, slotOf);
    }
  }

  /** Slots can only be the classes when sharing is transitive. */
  lemma ClassesAreTransitive(docs: seq<Documento>, slotOf: seq<nat>)
    requires |slotOf| == |docs| && SlotsAreClasses(docs, slotOf)
    ensures SharingIsTransitive(docs)
  {
    hide Keys, Shares;
    forall a, b, c | 0 <= a < |docs| && 0 <= b < |docs| && 0 <= c < |docs| && Shares(docs[a], docs[b])
      && Shares(docs[b], docs[c])
      ensures Shares(docs[a], docs[c])
    {
      SharesItself(docs[a], docs[b]);
      assert slotOf[a] == slotOf[b] && slotOf[b] == slotOf[c];
    }
  }

  lemma SharesItself(a: Documento, b: Documento)
    requires Shares(a, b)
    ensures Shares(a, a)
  {
    hide Keys;
  }

  lemma SeparatedSlotsAreClasses(docs: seq<Documento>, slotOf: seq<nat>, m: KeyMap)
    requires |slotOf| == |docs| && SharingIsTransitive(docs) && Separated(docs, slotOf, m)
    requires forall i | 0 <= i < |docs| :: Linked(docs, slotOf, i)
    ensures SlotsAreClasses(docs, slotOf)
  {
    hide Keys;
    forall i, j | 0 <= i < |docs| && 0 <= j < |docs|
      ensures slotOf[i] == slotOf[j] <==> i == j || Shares(docs[i], docs[j])
    {
      if slotOf[i] == slotOf[j] && i != j {
        if i < j {
          SameSlotShares(docs, slotOf, i, j);
        } else {
          SameSlotShares(docs, slotOf, j, i);
        }
      } else if Shares(docs[i], docs[j]) {
        var k :| k in Keys(docs[i]) && k in Keys(docs[j]);
        assert m[k] == slotOf[i] && m[k] == slotOf[j];
      }
    }
  }

  lemma {:induction false} SharesFirst(docs: seq<Documento>, slotOf: seq<nat>, i: nat) returns (f: nat)
    requires |slotOf| == |docs| && SharingIsTransitive(docs) && i < |docs|
    requires forall i | 0 <= i < |docs| :: Linked(docs, slotOf, i)
    ensures f <= i && slotOf[f] == slotOf[i] && FirstOfSlot(slotOf, f)
    ensures f != i ==> Shares(docs[i], docs[f])
    decreases i
  {
    hide Keys;
    if FirstOfSlot(slotOf, i) {
      f := i;
    } else {
      assert Linked(docs, slotOf, i);
      var j :| 0 <= j < i && slotOf[j] == slotOf[i] && Shares(docs[i], docs[j]);
      f := SharesFirst(docs, slotOf, j);
    }
  }

  lemma SharesIsSymmetric(a: Documento, b: Documento)
    requires Shares(a, b)
    ensures Shares(b, a)
  {
    hide Keys;
    var k :| k in Keys(a) && k in Keys(b);
    Meets(a, b, k);
  }

  lemma SameSlotShares(docs: seq<Documento>, slotOf: seq<nat>, i: nat, j: nat)
    requires |slotOf| == |docs| && SharingIsTransitive(docs) && i < j < |docs| && slotOf[i] == slotOf[j]
    requires forall i | 0 <= i < |docs| :: Linked(docs, slotOf, i)
    ensures Shares(docs[i], docs[j]) && Shares(docs[j], docs[i])
  {
    hide Keys;
    var f := SharesFirst(docs, slotOf, i);
    var g := SharesFirst(docs, slotOf, j);
    assert f == g;
    SharesIsSymmetric(docs[j], docs[f]);
    if f != i {
      assert Shares(docs[i], docs[j]);
    }
    SharesIsSymmetric(docs[i], docs[j]);
  }

  // What the slots mean for the outputs

  /** The output of a slot has as many fields filled as any document folded into it; of those with as many the one
      updated last, of these the one created last, and of these the first. No folded document has strictly more. */
  lemma RichestIsShown(docs: seq<Documento>, slotOf: seq<nat>, best: seq<nat>, i: nat)
    requires GoodSlots(docs, slotOf, best) && i < |docs|
    ensures slotOf[i] < |best| && best[slotOf[i]] < |docs|
    ensures var shown, d := docs[best[slotOf[i]]], docs[i];
            && |Campos(shown)| >= |Campos(d)| && !(Campos(d) > Campos(shown))
            && (|Campos(shown)| == |Campos(d)| ==> Instant(shown.updatedAt) >= Instant(d.updatedAt))
            && (|Campos(shown)| == |Campos(d)| && Instant(shown.updatedAt) == Instant(d.updatedAt) ==>
                  Instant(shown.createdAt) >= Instant(d.createdAt)
                  && (Instant(shown.createdAt) == Instant(d.createdAt) ==> best[slotOf[i]] <= i))
  {
    hide Preferred, Campos, Shares, Linked;
    assert EarliestBest(docs, slotOf, best[slotOf[i]]);
    PreferenceMeans(docs[i], docs[best[slotOf[i]]]);
    PreferenceMeans(docs[best[slotOf[i]]], docs[i]);
  }

  ghost predicate Chain(docs: seq<Documento>, slotOf: seq<nat>, path: seq<nat>)
    requires |slotOf| == |docs|
  {
    && path != []
    && (forall p | 0 <= p < |path| :: path[p] < |docs|)
    && (forall p | 0 <= p < |path| :: slotOf[path[p]] == slotOf[path[0]])
    && (forall p | 0 < p < |path| :: Shares(docs[path[p - 1]], docs[path[p]]))
  }

  lemma {:induction false} ChainToFirst(docs: seq<Documento>, slotOf: seq<nat>, i: nat) returns (path: seq<nat>)
    requires |slotOf| == |docs| && i < |docs|
    requires forall i | 0 <= i < |docs| :: Linked(docs, slotOf, i)
    ensures Chain(docs, slotOf, path) && path[0] == i && FirstOfSlot(slotOf, path[|path| - 1])
    ensures forall p | 0 <= p < |path| :: path[p] <= i
    decreases i
  {
    hide Keys;
    if FirstOfSlot(slotOf, i) {
      path := [i];
    } else {
      assert Linked(docs, slotOf, i);
      var j :| 0 <= j < i && slotOf[j] == slotOf[i] && Shares(docs[i], docs[j]);
      var rest := ChainToFirst(docs, slotOf, j);
      path := [i] + rest;
      forall p | 0 < p < |path| ensures Shares(docs[path[p - 1]], docs[path[p]]) {
        assert p == 1 || Shares(docs[rest[p - 2]], docs[rest[p - 1]]);
      }
    }
  }

  /** Documents folded into one output are connected by a chain of shared keys inside it. */
  lemma SlotIsConnected(docs: seq<Documento>, slotOf: seq<nat>, best: seq<nat>, i: nat, j: nat) returns (path: seq<nat>)
    requires GoodSlots(docs, slotOf, best) && i < |docs| && j < |docs| && slotOf[i] == slotOf[j]
    ensures Chain(docs, slotOf, path) && path[0] == i && path[|path| - 1] == j
    ensures forall p | 0 <= p < |path| :: path[p] <= i || path[p] <= j
  {
    hide Keys, Preferred;
    var left := ChainToFirst(docs, slotOf, i);
    var right := ChainToFirst(docs, slotOf, j);
    assert left[|left| - 1] == right[|right| - 1];
    var back := seq(|right|, p requires 0 <= p < |right| => right[|right| - 1 - p]);
    path := left + back[1..];
    forall p | 0 < p < |path| ensures Shares(docs[path[p - 1]], docs[path[p]]) {
      if p < |left| {
        assert Shares(docs[left[p - 1]], docs[left[p]]);
      } else {
        var q := |right| - 1 - (p - |left|);
        assert path[p] == back[p - |left| + 1] == right[q - 1];
        assert path[p - 1] == right[q];
        assert Shares(docs[right[q - 1]], docs[right[q]]);
        SharesIsSymmetric(docs[path[p]], docs[path[p - 1]]);
      }
    }
  }

  /** A chain of shared keys from i to j through the documents before position n. */
  ghost predicate Bridge(docs: seq<Documento>, n: nat, path: seq<nat>, i: nat, j: nat)
    requires n <= |docs|
  {
    && path != [] && path[0] == i && path[|path| - 1] == j
    && (forall p | 0 <= p < |path| :: path[p] < n)
    && (forall p | 0 < p < |path| :: Shares(docs[path[p - 1]], docs[path[p]]))
  }

  ghost predicate Joined(docs: seq<Documento>, n: nat, i: nat, j: nat)
    requires n <= |docs|
  {
    exists path :: Bridge(docs, n, path, i, j)
  }

  /** Any two earlier documents that a newcomer shares a key with are already joined among the earlier ones: no
      document comes late to join what was apart. */
  ghost predicate NobodyJoinsLate(docs: seq<Documento>) {
    forall n, i, j | 0 <= n < |docs| && 0 <= i < n && 0 <= j < n && Shares(docs[n], docs[i])
      && Shares(docs[n], docs[j]) ::
      Joined(docs, n, i, j)
  }

  ghost predicate CopiesTogether(docs: seq<Documento>, slotOf: seq<nat>, n: nat)
    requires |slotOf| == |docs| && n <= |docs|
  {
    forall i, j | 0 <= i < n && 0 <= j < n && Shares(docs[i], docs[j]) :: slotOf[i] == slotOf[j]
  }

  lemma {:induction false} BridgeStaysInSlot(docs: seq<Documento>, slotOf: seq<nat>, n: nat, path: seq<nat>, i: nat,
      j: nat)
    requires |slotOf| == |docs| && n <= |docs| && CopiesTogether(docs, slotOf, n) && Bridge(docs, n, path, i, j)
    ensures slotOf[i] == slotOf[j]
    decreases |path|
  {
    hide Shares;
    if |path| > 1 {
      assert Shares(docs[path[0]], docs[path[1]]);
      BridgeStaysInSlot(docs, slotOf, n, path[1..], path[1], j);
    }
  }

  /** The earlier copies of a newcomer are all in the slot it joins. */
  lemma NewcomerIsTogether(docs: seq<Documento>, slotOf: seq<nat>, n: nat, j: nat)
    requires |slotOf| == |docs| && j < n < |docs| && CopiesTogether(docs, slotOf, n) && NobodyJoinsLate(docs)
    requires Linked(docs, slotOf, n) && Shares(docs[n], docs[j])
    ensures slotOf[n] == slotOf[j]
  {
    hide Shares;
    var e :| 0 <= e < n && slotOf[e] == slotOf[n] && Shares(docs[n], docs[e]);
    assert Joined(docs, n, e, j);
    var path :| Bridge(docs, n, path, e, j);
    BridgeStaysInSlot(docs, slotOf, n, path, e, j);
  }

  lemma {:induction false} TogetherUpTo(docs: seq<Documento>, slotOf: seq<nat>, n: nat)
    requires |slotOf| == |docs| && n <= |docs| && NobodyJoinsLate(docs)
    requires forall i | 0 <= i < |docs| :: Linked(docs, slotOf, i)
    ensures CopiesTogether(docs, slotOf, n)
  {
    hide Shares, Linked, NobodyJoinsLate;
    if n > 0 {
      TogetherUpTo(docs, slotOf, n - 1);
      forall i, j | 0 <= i < n && 0 <= j < n && Shares(docs[i], docs[j]) ensures slotOf[i] == slotOf[j] {
        if i == n - 1 && j < i {
          NewcomerIsTogether(docs, slotOf, i, j);
        } else if j == n - 1 && i < j {
          SharesIsSymmetric(docs[i], docs[j]);
          NewcomerIsTogether(docs, slotOf, j, i);
        }
      }
    }
  }

  /** Exactly when copies always meet: all documents that share a key end up in one slot if and only if no document
      of the list comes late to join documents that were apart. */
  lemma CopiesMeetExactly(docs: seq<Documento>, slotOf: seq<nat>, best: seq<nat>)
    requires GoodSlots(docs, slotOf, best)
    ensures CopiesTogether(docs, slotOf, |docs|) <==> NobodyJoinsLate(docs)
  {
    hide Shares, EarliestBest, Linked;
    if NobodyJoinsLate(docs) {
      TogetherUpTo(docs, slotOf, |docs|);
    }
    if CopiesTogether(docs, slotOf, |docs|) {
      forall n, i, j | 0 <= n < |docs| && 0 <= i < n && 0 <= j < n && Shares(docs[n], docs[i])
        && Shares(docs[n], docs[j])
        ensures Joined(docs, n, i, j)
      {
        var path := SlotIsConnected(docs, slotOf, best, i, j);
        assert Bridge(docs, n, path, i, j);
      }
    }
  }

  /** Then no two outputs share a key. */
  lemma TogetherOutputsShareNothing(docs: seq<Documento>, slotOf: seq<nat>, best: seq<nat>)
    requires GoodSlots(docs, slotOf, best) && NobodyJoinsLate(docs)
    ensures forall s, t | 0 <= s < t < |best| :: !Shares(Shown(docs, best)[s], Shown(docs, best)[t])
  {
    hide Shares, EarliestBest, Linked, NobodyJoinsLate;
    CopiesMeetExactly(docs, slotOf, best);
    forall s, t | 0 <= s < t < |best| ensures !Shares(Shown(docs, best)[s], Shown(docs, best)[t]) {
      assert slotOf[best[s]] == s && slotOf[best[t]] == t;
    }
  }

  /** When sharing is transitive the outputs pairwise share no key and every document has exactly one output of its
      class. */
  lemma OneOutputPerClass(docs: seq<Documento>, slotOf: seq<nat>, best: seq<nat>)
    requires GoodSlots(docs, slotOf, best) && SlotsAreClasses(docs, slotOf)
    ensures forall s, t | 0 <= s < t < |best| :: !Shares(Shown(docs, best)[s], Shown(docs, best)[t])
    ensures forall i | 0 <= i < |docs| :: ShownOnce(docs, best, i)
  {
    hide Keys, Preferred;
    forall s, t | 0 <= s < t < |best| ensures !Shares(Shown(docs, best)[s], Shown(docs, best)[t]) {
      assert slotOf[best[s]] == s && slotOf[best[t]] == t;
    }
    forall i | 0 <= i < |docs| ensures ShownOnce(docs, best, i) {
      assert SameClass(docs, i, best[slotOf[i]]);
      forall t | 0 <= t < |best| && SameClass(docs, i, best[t]) ensures t == slotOf[i] {
        assert slotOf[best[t]] == t;
      }
    }
  }

  /** Exactly one output is document i itself or shares a key with it. */
  ghost predicate ShownOnce(docs: seq<Documento>, best: seq<nat>, i: nat)
    requires i < |docs| && forall s | 0 <= s < |best| :: best[s] < |docs|
  {
    && (exists s | 0 <= s < |best| :: SameClass(docs, i, best[s]))
    && (forall s, t | 0 <= s < |best| && 0 <= t < |best| && SameClass(docs, i, best[s])
        && SameClass(docs, i, best[t]) :: s == t)
  }

  ghost predicate SameClass(docs: seq<Documento>, i: nat, j: nat)
    requires i < |docs| && j < |docs|
  {
    i == j || Shares(docs[i], docs[j])
  }

  /** Without transitivity outputs can share a key: the third document is a copy of two that are no copies of one
      another, and preferred to both. Whichever of them it is folded with, it shares a key with the other output. */
  lemma OutputsCanShare(docs: seq<Documento>, slotOf: seq<nat>, best: seq<nat>)
    requires |docs| == 3 && GoodSlots(docs, slotOf, best)
    requires Shares(docs[2], docs[0]) && Shares(docs[2], docs[1]) && !Shares(docs[1], docs[0])
    requires Preferred(docs[2], docs[0]) && Preferred(docs[2], docs[1])
    ensures !SharingIsTransitive(docs)
    ensures exists s, t | 0 <= s < |best| && 0 <= t < |best| && s != t :: Shares(docs[best[s]], docs[best[t]])
  {
    hide Keys, Preferred, Shares, EarliestBest;
    SharesIsSymmetric(docs[2], docs[1]);
    assert !SharingIsTransitive(docs) by {
      assert Shares(docs[1], docs[2]) && Shares(docs[2], docs[0]);
    }
    SlotsOfThree(docs, slotOf);
    var s, other := slotOf[2], if slotOf[2] == slotOf[0] then 1 else 0;
    PreferredIsShown(docs, slotOf, best[s]);
    assert slotOf[best[slotOf[other]]] == slotOf[other] != s;
    assert Shares(docs[best[s]], docs[best[slotOf[other]]]);
  }

  lemma SlotsOfThree(docs: seq<Documento>, slotOf: seq<nat>)
    requires |docs| == |slotOf| == 3 && Linked(docs, slotOf, 1) && Linked(docs, slotOf, 2)
    requires Shares(docs[2], docs[0]) && !Shares(docs[1], docs[0])
    ensures slotOf[1] != slotOf[0] && (slotOf[2] == slotOf[0] || slotOf[2] == slotOf[1])
  {
    hide Shares;
  }

  lemma PreferredIsShown(docs: seq<Documento>, slotOf: seq<nat>, b: nat)
    requires |docs| == |slotOf| == 3 && b < 3 && EarliestBest(docs, slotOf, b) && slotOf[b] == slotOf[2]
    requires Preferred(docs[2], docs[0]) && Preferred(docs[2], docs[1])
    ensures b == 2
  {
    hide Preferred;
  }
}
