/**
 Reconciling the images of a product with a wanted list, under unique indexes that are
 checked at every row write: at most one MAIN image for a product, no key twice.
 */
module Images {
  import opened Base

  datatype Kind = Main | Gallery | Detail

  /** A row belongs to the product itself (no sku) or to one of its variants. */
  datatype Row = Row(spu: nat, sku: Option<nat>, key: string, kind: Kind, sort: int)

  datatype Ref = Ref(key: string, kind: Kind, sort: int)

  type Table = map<nat, Row>

  predicate Own(r: Row, spu: nat) { r.spu == spu && r.sku.None? }

  function RefOf(r: Row): Ref { Ref(r.key, r.kind, r.sort) }

  /** The two rows can stand beside each other under the three unique indexes. */
  predicate Compatible(a: Row, b: Row) {
    && (a.sku.None? && b.sku.None? && a.spu == b.spu ==>
          a.key != b.key && !(a.kind == Main && b.kind == Main))
    && (a.sku.Some? && a.sku == b.sku ==> a.key != b.key)
  }

  ghost predicate Clean(t: Table) {
    forall i, j :: i in t && j in t && i != j ==> Compatible(t[i], t[j])
  }

  /** The request schema: keys distinct, exactly one MAIN. */
  ghost predicate ValidRefs(refs: seq<Ref>) {
    && (forall m, n :: 0 <= m < n < |refs| ==> refs[m].key != refs[n].key)
    && (exists m :: 0 <= m < |refs| && refs[m].kind == Main)
    && (forall m, n :: 0 <= m < n < |refs| ==> !(refs[m].kind == Main && refs[n].kind == Main))
  }

  predicate Wants(refs: seq<Ref>, key: string) {
    exists m :: 0 <= m < |refs| && refs[m].key == key
  }

  ghost function Wanted(refs: seq<Ref>, key: string): (m: nat)
    requires Wants(refs, key)
    ensures m < |refs| && refs[m].key == key
  {
    var m :| 0 <= m < |refs| && refs[m].key == key;
    m
  }

  // ---------- The table after each part of the reconciliation ----------

  /** Rows of the product that are not wanted go first. */
  function Pruned(t: Table, spu: nat, refs: seq<Ref>): Table {
    map id | id in t && (Own(t[id], spu) ==> Wants(refs, t[id].key)) :: t[id]
  }

  /** Rows that are not to be MAIN take their wanted type and place; the old MAIN steps down here. */
  ghost function Settled(r: Row, spu: nat, refs: seq<Ref>): Row {
    if Own(r, spu) && Wants(refs, r.key) && refs[Wanted(refs, r.key)].kind != Main
    then r.(kind := refs[Wanted(refs, r.key)].kind, sort := refs[Wanted(refs, r.key)].sort)
    else r
  }

  ghost function Demoted(t: Table, spu: nat, refs: seq<Ref>): Table {
    map id | id in t :: Settled(t[id], spu, refs)
  }

  ghost predicate Grouped(t: Table, spu: nat, refs: seq<Ref>) {
    forall id :: id in t && Own(t[id], spu) ==> Wants(refs, t[id].key)
  }

  /** Every row of the product that should not be MAIN is not MAIN and is as wanted. */
  ghost predicate SettledAll(t: Table, spu: nat, refs: seq<Ref>) {
    && Grouped(t, spu, refs)
    && forall id :: id in t && Own(t[id], spu) && refs[Wanted(refs, t[id].key)].kind != Main ==>
         RefOf(t[id]) == refs[Wanted(refs, t[id].key)]
  }

  /** Changing the type of a row to anything but MAIN can break no index. */
  lemma StepDownIsClean(t: Table, id: nat, kind: Kind, sort: int)
    requires Clean(t) && id in t && kind != Main
    ensures Clean(t[id := t[id].(kind := kind, sort := sort)])
  {
    var n := t[id := t[id].(kind := kind, sort := sort)];
    forall i, j | i in n && j in n && i != j ensures Compatible(n[i], n[j]) {
      assert Compatible(t[i], t[j]);
    }
  }

  lemma RemovalIsClean(t: Table, id: nat)
    requires Clean(t)
    ensures Clean(t - {id})
  {
    var n := t - {id};
    forall i, j | i in n && j in n && i != j ensures Compatible(n[i], n[j]) {
      assert Compatible(t[i], t[j]);
    }
  }

  /** A wanted image whose key has no row may be inserted once the others have stepped down. */
  lemma InsertionIsClean(t: Table, spu: nat, refs: seq<Ref>, m: nat, id: nat)
    requires Clean(t) && ValidRefs(refs) && SettledAll(t, spu, refs) && m < |refs| && id !in t
    requires forall i :: i in t && Own(t[i], spu) ==> t[i].key != refs[m].key
    ensures Clean(t[id := Row(spu, None, refs[m].key, refs[m].kind, refs[m].sort)])
  {
    var n := t[id := Row(spu, None, refs[m].key, refs[m].kind, refs[m].sort)];
    forall i | i in t && Own(t[i], spu) ensures refs[m].kind == Main ==> t[i].kind != Main {
      var w := Wanted(refs, t[i].key);
      assert w != m;
    }
    forall i, j | i in n && j in n && i != j ensures Compatible(n[i], n[j]) {
      if i != id && j != id { assert Compatible(t[i], t[j]); }
    }
  }

  /** The wanted MAIN may step up once the others have stepped down. */
  lemma PromotionIsClean(t: Table, spu: nat, refs: seq<Ref>, id: nat, m: nat)
    requires Clean(t) && ValidRefs(refs) && SettledAll(t, spu, refs)
    requires m < |refs| && refs[m].kind == Main && id in t && Own(t[id], spu) && t[id].key == refs[m].key
    ensures Clean(t[id := t[id].(kind := Main, sort := refs[m].sort)])
  {
    var n := t[id := t[id].(kind := Main, sort := refs[m].sort)];
    forall i | i in t && Own(t[i], spu) && i != id ensures t[i].kind != Main {
      assert Compatible(t[i], t[id]);
      assert Wanted(refs, t[i].key) != m;
    }
    forall i, j | i in n && j in n && i != j ensures Compatible(n[i], n[j]) {
      assert Compatible(t[i], t[j]);
    }
  }

  lemma WantedIsUnique(refs: seq<Ref>, m: nat)
    requires ValidRefs(refs) && m < |refs|
    ensures Wants(refs, refs[m].key) && Wanted(refs, refs[m].key) == m
  {}

  ghost predicate Below(t: Table, n: nat) {
    forall id :: id in t ==> id < n
  }

  /** The rows of others, and the identities of the kept rows. */
  ghost predicate Preserved(before: Table, after: Table, spu: nat) {
    && (forall id :: id in before && !Own(before[id], spu) ==> id in after && after[id] == before[id])
    && (forall id :: id in before && id in after ==>
          after[id] == before[id].(kind := after[id].kind, sort := after[id].sort))
  }

  ghost predicate HasRow(t: Table, spu: nat, key: string) {
    exists id :: id in t && Own(t[id], spu) && t[id].key == key
  }

  /** The product shows exactly the wanted images. */
  ghost predicate Exactly(t: Table, spu: nat, refs: seq<Ref>) {
    && (forall id :: id in t && Own(t[id], spu) ==> RefOf(t[id]) in refs)
    && (forall m :: 0 <= m < |refs| ==> exists id :: id in t && Own(t[id], spu) && RefOf(t[id]) == refs[m])
  }

  /** Exactly the rows of the product, by key. */
  ghost predicate Indexed(t: Table, spu: nat, existing: map<string, nat>) {
    && (forall k :: k in existing ==> existing[k] in t && Own(t[existing[k]], spu) && t[existing[k]].key == k)
    && (forall id :: id in t && Own(t[id], spu) ==> t[id].key in existing && existing[t[id].key] == id)
  }

  ghost predicate KeptIndexed(t: Table, spu: nat, refs: seq<Ref>, existing: map<string, nat>) {
    && KeptRows(t, spu, refs, existing)
    && (forall id :: id in t && Own(t[id], spu) ==> t[id].key in existing && existing[t[id].key] == id)
  }

  ghost function SettledUpTo(r: Row, spu: nat, refs: seq<Ref>, m: nat): Row {
    if Own(r, spu) && Wants(refs, r.key) && Wanted(refs, r.key) < m then Settled(r, spu, refs) else r
  }

  ghost predicate DemotedUpTo(before: Table, t: Table, spu: nat, refs: seq<Ref>, m: nat) {
    t.Keys == before.Keys && forall id :: id in t ==> t[id] == SettledUpTo(before[id], spu, refs, m)
  }

  lemma DemoteStep(before: Table, t: Table, spu: nat, refs: seq<Ref>, existing: map<string, nat>, m: nat)
    requires ValidRefs(refs) && KeptIndexed(before, spu, refs, existing) && m < |refs|
    requires DemotedUpTo(before, t, spu, refs, m) && refs[m].key in existing && refs[m].kind != Main
    ensures Wants(refs, refs[m].key) && existing[refs[m].key] in t
    ensures var id := existing[refs[m].key];
            DemotedUpTo(before, t[id := t[id].(kind := refs[m].kind, sort := refs[m].sort)], spu, refs, m + 1)
  {
    assert Wants(refs, refs[m].key);
    var id := existing[refs[m].key];
    var n := t[id := t[id].(kind := refs[m].kind, sort := refs[m].sort)];
    forall i | i in n ensures n[i] == SettledUpTo(before[i], spu, refs, m + 1) {
      SettledNext(before[i], spu, refs, m);
    }
  }

  lemma NoDemoteStep(before: Table, t: Table, spu: nat, refs: seq<Ref>, existing: map<string, nat>, m: nat)
    requires ValidRefs(refs) && KeptIndexed(before, spu, refs, existing) && m < |refs|
    requires DemotedUpTo(before, t, spu, refs, m) && (refs[m].key !in existing || refs[m].kind == Main)
    ensures DemotedUpTo(before, t, spu, refs, m + 1)
  {
    forall i | i in t ensures t[i] == SettledUpTo(before[i], spu, refs, m + 1) {
      SettledNext(before[i], spu, refs, m);
    }
  }

  lemma DemotedInTheEnd(before: Table, t: Table, spu: nat, refs: seq<Ref>)
    requires DemotedUpTo(before, t, spu, refs, |refs|)
    ensures t == Demoted(before, spu, refs)
  {}

  /** Turn m of the loop concerns the rows with its key only. */
  lemma SettledNext(r: Row, spu: nat, refs: seq<Ref>, m: nat)
    requires ValidRefs(refs) && m < |refs|
    ensures SettledUpTo(r, spu, refs, m + 1) ==
              if Own(r, spu) && r.key == refs[m].key && refs[m].kind != Main
              then r.(kind := refs[m].kind, sort := refs[m].sort)
              else SettledUpTo(r, spu, refs, m)
  {
    WantedIsUnique(refs, m);
  }

  ghost predicate Right(r: Row, refs: seq<Ref>) {
    Wants(refs, r.key) && RefOf(r) == refs[Wanted(refs, r.key)]
  }

  lemma InsertionKeepsRows(t: Table, spu: nat, id: nat, row: Row)
    requires id !in t && Own(row, spu)
    ensures HasRow(t[id := row], spu, row.key)
    ensures forall k :: HasRow(t, spu, k) ==> HasRow(t[id := row], spu, k)
  {
    var n := t[id := row];
    assert n[id] == row;
    forall k | HasRow(t, spu, k) ensures HasRow(n, spu, k) {
      var i :| i in t && Own(t[i], spu) && t[i].key == k;
      assert n[i] == t[i];
    }
  }

  lemma OnlyOneRowForKey(t: Table, spu: nat, id: nat)
    requires Clean(t) && id in t && Own(t[id], spu)
    ensures forall i :: i in t && Own(t[i], spu) && i != id ==> t[i].key != t[id].key
  {
    forall i | i in t && Own(t[i], spu) && i != id ensures t[i].key != t[id].key {
      assert Compatible(t[i], t[id]);
    }
  }

  ghost predicate PromotedUpTo(t: Table, spu: nat, refs: seq<Ref>, existing: map<string, nat>, m: nat) {
    forall id :: id in t && Own(t[id], spu) && Wants(refs, t[id].key) ==>
      (t[id].key in existing && Wanted(refs, t[id].key) >= m) || Right(t[id], refs)
  }

  lemma PromotionStep(t: Table, spu: nat, refs: seq<Ref>, existing: map<string, nat>, id: nat, m: nat)
    requires ValidRefs(refs) && SettledAll(t, spu, refs) && PromotedUpTo(t, spu, refs, existing, m)
    requires m < |refs| && refs[m].kind == Main && id in t && Own(t[id], spu) && t[id].key == refs[m].key
    requires forall i :: i in t && Own(t[i], spu) && i != id ==> t[i].key != t[id].key
    ensures var n := t[id := t[id].(kind := Main, sort := refs[m].sort)];
            SettledAll(n, spu, refs) && PromotedUpTo(n, spu, refs, existing, m + 1)
  {
    var n := t[id := t[id].(kind := Main, sort := refs[m].sort)];
    WantedIsUnique(refs, m);
    forall i | i in n && Own(n[i], spu) && Wants(refs, n[i].key)
      ensures (n[i].key in existing && Wanted(refs, n[i].key) >= m + 1) || Right(n[i], refs)
    {
      assert refs[Wanted(refs, n[i].key)].key == n[i].key;
    }
  }

  /** The wanted keys that had a row still have it. */
  ghost predicate KeptRows(t: Table, spu: nat, refs: seq<Ref>, existing: map<string, nat>) {
    forall k :: k in existing && Wants(refs, k) ==> existing[k] in t && Own(t[existing[k]], spu) && t[existing[k]].key == k
  }

  lemma PromoteTurn(before: Table, t: Table, spu: nat, refs: seq<Ref>, existing: map<string, nat>, m: nat)
    requires ValidRefs(refs) && KeptRows(before, spu, refs, existing) && Promoting(before, t, spu, refs, existing, m)
    requires m < |refs| && refs[m].key in existing && refs[m].kind == Main
    ensures existing[refs[m].key] in t
    ensures var id := existing[refs[m].key];
            var n := t[id := t[id].(kind := Main, sort := refs[m].sort)];
            Clean(n) && Promoting(before, n, spu, refs, existing, m + 1)
  {
    assert Wants(refs, refs[m].key);
    var id := existing[refs[m].key];
    PromotionIsClean(t, spu, refs, id, m);
    OnlyOneRowForKey(t, spu, id);
    PromotionStep(t, spu, refs, existing, id, m);
  }

  /** What every turn of the last loop keeps. */
  ghost predicate Promoting(before: Table, t: Table, spu: nat, refs: seq<Ref>, existing: map<string, nat>, m: nat) {
    && Clean(t) && t.Keys == before.Keys && SettledAll(t, spu, refs) && Preserved(before, t, spu)
    && PromotedUpTo(t, spu, refs, existing, m)
  }

  lemma PromotedInTheEnd(before: Table, t: Table, spu: nat, refs: seq<Ref>, existing: map<string, nat>)
    requires Promoting(before, t, spu, refs, existing, |refs|)
    ensures forall id :: id in t && Own(t[id], spu) ==> Right(t[id], refs)
  {}

  /** A turn of the last loop that writes nothing. */
  lemma NoPromotionStep(t: Table, spu: nat, refs: seq<Ref>, existing: map<string, nat>, m: nat)
    requires ValidRefs(refs) && SettledAll(t, spu, refs) && PromotedUpTo(t, spu, refs, existing, m)
    requires m < |refs| && (refs[m].key !in existing || refs[m].kind != Main)
    ensures PromotedUpTo(t, spu, refs, existing, m + 1)
  {
    WantedIsUnique(refs, m);
  }

  lemma PrunedRows(t: Table, spu: nat, refs: seq<Ref>, existing: map<string, nat>)
    requires Indexed(t, spu, existing)
    ensures var n := Pruned(t, spu, refs);
            KeptIndexed(n, spu, refs, existing) && Grouped(n, spu, refs) && Preserved(t, n, spu)
  {}

  lemma DemotedRows(t: Table, spu: nat, refs: seq<Ref>, existing: map<string, nat>)
    requires KeptIndexed(t, spu, refs, existing) && Grouped(t, spu, refs)
    ensures var n := Demoted(t, spu, refs);
            KeptIndexed(n, spu, refs, existing) && SettledAll(n, spu, refs) && Preserved(t, n, spu)
  {}

  /** Every wanted image has a row, and every row of the product is as wanted. */
  ghost predicate AllRight(t: Table, spu: nat, refs: seq<Ref>) {
    && (forall id :: id in t && Own(t[id], spu) ==> Right(t[id], refs))
    && (forall m :: 0 <= m < |refs| ==> HasRow(t, spu, refs[m].key))
  }

  lemma ShowsExactly(t: Table, spu: nat, refs: seq<Ref>)
    requires ValidRefs(refs) && AllRight(t, spu, refs)
    ensures Exactly(t, spu, refs)
  {
    forall m | 0 <= m < |refs| ensures exists id :: id in t && Own(t[id], spu) && RefOf(t[id]) == refs[m] {
      var id :| id in t && Own(t[id], spu) && t[id].key == refs[m].key;
      WantedIsUnique(refs, m);
      assert Right(t[id], refs);
    }
  }

  /** Rows found by key are rows there are. */
  lemma IndexedRows(t: Table, spu: nat, existing: map<string, nat>)
    requires Indexed(t, spu, existing)
    ensures forall k :: k in existing <==> HasRow(t, spu, k)
  {}

  lemma HasRowsStay(a: Table, b: Table, spu: nat)
    requires a.Keys <= b.Keys && Preserved(a, b, spu)
    ensures forall k :: HasRow(a, spu, k) ==> HasRow(b, spu, k)
  {
    forall k | HasRow(a, spu, k) ensures HasRow(b, spu, k) {
      var id :| id in a && Own(a[id], spu) && a[id].key == k;
      assert id in b && Own(b[id], spu) && b[id].key == k;
    }
  }

  /** The rows after steps 1 and 2 and after step 3: kept rows by key, new rows for the other keys. */
  lemma EveryRefHasARow(demoted: Table, filled: Table, spu: nat, refs: seq<Ref>, existing: map<string, nat>, next: nat)
    requires KeptIndexed(demoted, spu, refs, existing)
    requires Filled(demoted, filled, spu, refs, existing, next)
    ensures forall m :: 0 <= m < |refs| ==> HasRow(filled, spu, refs[m].key)
  {
    forall m | 0 <= m < |refs| ensures HasRow(filled, spu, refs[m].key) {
      assert Wants(refs, refs[m].key);
      if refs[m].key in existing {
        assert existing[refs[m].key] in demoted && existing[refs[m].key] in filled;
      }
    }
  }

  /** What step 3 does: rows for the keys that had none, each as wanted. */
  ghost predicate Filled(demoted: Table, filled: Table, spu: nat, refs: seq<Ref>, existing: map<string, nat>, next: nat) {
    && (forall id :: id in demoted ==> id in filled && filled[id] == demoted[id])
    && (forall id :: id in filled && id !in demoted ==>
          id >= next && Own(filled[id], spu) && filled[id].key !in existing && Right(filled[id], refs))
    && (forall m :: 0 <= m < |refs| && refs[m].key !in existing ==> HasRow(filled, spu, refs[m].key))
  }

  /** The same after m turns of the loop. */
  ghost predicate FilledUpTo(demoted: Table, t: Table, spu: nat, refs: seq<Ref>, existing: map<string, nat>, next: nat, m: nat)
    requires m <= |refs|
  {
    && (forall id :: id in demoted ==> id in t && t[id] == demoted[id])
    && (forall id :: id in t && id !in demoted ==>
          id >= next && Own(t[id], spu) && t[id].key !in existing && Right(t[id], refs) && Wanted(refs, t[id].key) < m)
    && (forall n :: 0 <= n < m && refs[n].key !in existing ==> HasRow(t, spu, refs[n].key))
  }

  lemma NoRowForKeyYet(demoted: Table, t: Table, spu: nat, refs: seq<Ref>, existing: map<string, nat>, next: nat, m: nat)
    requires ValidRefs(refs) && m < |refs|
    requires FilledUpTo(demoted, t, spu, refs, existing, next, m) && refs[m].key !in existing
    requires forall i :: i in demoted && Own(demoted[i], spu) ==> demoted[i].key in existing
    ensures forall i :: i in t && Own(t[i], spu) ==> t[i].key != refs[m].key
  {
    WantedIsUnique(refs, m);
    forall i | i in t && Own(t[i], spu) ensures t[i].key != refs[m].key {
      if i in demoted { assert t[i] == demoted[i]; }
    }
  }

  lemma FilledNext(demoted: Table, t: Table, spu: nat, refs: seq<Ref>, existing: map<string, nat>, next: nat, m: nat, id: nat)
    requires ValidRefs(refs) && m < |refs|
    requires FilledUpTo(demoted, t, spu, refs, existing, next, m) && refs[m].key !in existing
    requires id !in t && id >= next
    ensures FilledUpTo(demoted, t[id := Row(spu, None, refs[m].key, refs[m].kind, refs[m].sort)],
                       spu, refs, existing, next, m + 1)
  {
    WantedIsUnique(refs, m);
    InsertionKeepsRows(t, spu, id, Row(spu, None, refs[m].key, refs[m].kind, refs[m].sort));
  }

  lemma FillStep(demoted: Table, t: Table, spu: nat, refs: seq<Ref>, existing: map<string, nat>, next: nat, m: nat, id: nat)
    requires Clean(t) && ValidRefs(refs) && SettledAll(t, spu, refs) && m < |refs|
    requires FilledUpTo(demoted, t, spu, refs, existing, next, m) && refs[m].key !in existing
    requires forall i :: i in demoted && Own(demoted[i], spu) ==> demoted[i].key in existing
    requires id !in t && id >= next
    ensures var n := t[id := Row(spu, None, refs[m].key, refs[m].kind, refs[m].sort)];
            Clean(n) && SettledAll(n, spu, refs) && FilledUpTo(demoted, n, spu, refs, existing, next, m + 1)
  {
    WantedIsUnique(refs, m);
    NoRowForKeyYet(demoted, t, spu, refs, existing, next, m);
    InsertionIsClean(t, spu, refs, m, id);
    FilledNext(demoted, t, spu, refs, existing, next, m, id);
  }

  lemma ReadyToPromote(demoted: Table, filled: Table, spu: nat, refs: seq<Ref>, existing: map<string, nat>, next: nat)
    requires KeptIndexed(demoted, spu, refs, existing) && Filled(demoted, filled, spu, refs, existing, next)
    ensures PromotedUpTo(filled, spu, refs, existing, 0)
    ensures KeptRows(filled, spu, refs, existing)
  {
    forall id | id in filled && Own(filled[id], spu) && Wants(refs, filled[id].key)
      ensures filled[id].key in existing || Right(filled[id], refs)
    {
      if id in demoted { assert filled[id] == demoted[id]; }
    }
  }

  lemma GrownByFilling(demoted: Table, filled: Table, after: Table, spu: nat, refs: seq<Ref>, existing: map<string, nat>, next: nat)
    requires Filled(demoted, filled, spu, refs, existing, next)
    requires after.Keys == filled.Keys && Preserved(filled, after, spu)
    ensures Grown(demoted, after, spu, next)
  {}

  lemma Completes(demoted: Table, filled: Table, after: Table, spu: nat, refs: seq<Ref>, existing: map<string, nat>, next: nat)
    requires KeptIndexed(demoted, spu, refs, existing) && Filled(demoted, filled, spu, refs, existing, next)
    requires after.Keys == filled.Keys && Preserved(filled, after, spu)
    requires forall id :: id in after && Own(after[id], spu) ==> Right(after[id], refs)
    ensures AllRight(after, spu, refs) && Grown(demoted, after, spu, next)
  {
    EveryRefHasARow(demoted, filled, spu, refs, existing, next);
    HasRowsStay(filled, after, spu);
    GrownByFilling(demoted, filled, after, spu, refs, existing, next);
  }

  /** What steps 1 and 2 leave of the table before. */
  ghost predicate Trimmed(before: Table, demoted: Table, spu: nat, refs: seq<Ref>) {
    && Preserved(before, demoted, spu) && demoted.Keys <= before.Keys
    && forall id :: id in before && Own(before[id], spu) ==> (id in demoted <==> Wants(refs, before[id].key))
  }

  lemma Trims(before: Table, spu: nat, refs: seq<Ref>)
    ensures Trimmed(before, Demoted(Pruned(before, spu, refs), spu, refs), spu, refs)
  {}

  /** What steps 3 and 4 do to it: rows are added above the ids in use, and none is lost. */
  ghost predicate Grown(demoted: Table, after: Table, spu: nat, next: nat) {
    && Preserved(demoted, after, spu) && demoted.Keys <= after.Keys
    && forall id :: id in after && id !in demoted ==> id >= next
  }

  lemma Keeps(before: Table, demoted: Table, after: Table, spu: nat, refs: seq<Ref>, next: nat)
    requires Trimmed(before, demoted, spu, refs) && Below(before, next) && Grown(demoted, after, spu, next)
    ensures Preserved(before, after, spu)
    ensures forall id :: id in before && Own(before[id], spu) ==> (id in after <==> Wants(refs, before[id].key))
  {
    forall id | id in before ensures id in after <==> id in demoted {}
  }

  predicate Named(t: Table, key: string) {
    exists id :: id in t && t[id].key == key
  }

  class ProductImages {
    var rows: Table
    var nextId: nat

    ghost predicate Valid()
      reads this
    {
      Clean(rows) && Below(rows, nextId)
    }

    constructor ()
      ensures Valid() && rows == map[]
    {
      rows, nextId := map[], 0;
    }

    /** One row write: the database refuses it unless the indexes hold right after it. */
    method Put(id: nat, row: Row)
      requires Clean(rows[id := row])
      modifies this`rows
      ensures rows == old(rows)[id := row]
    {
      rows := rows[id := row];
    }

    method Delete(id: nat)
      requires Clean(rows - {id})
      modifies this`rows
      ensures rows == old(rows) - {id}
    {
      rows := rows - {id};
    }

    /** existing: the product's rows by key. */
    method IndexByKey(spu: nat) returns (existing: map<string, nat>)
      requires Clean(rows)
      ensures Indexed(rows, spu, existing)
    {
      existing := map[];
      var todo := rows.Keys;
      while todo != {}
        invariant todo <= rows.Keys
        invariant forall k :: k in existing ==> existing[k] in rows - todo && Own(rows[existing[k]], spu) && rows[existing[k]].key == k
        invariant forall id :: id in rows - todo && Own(rows[id], spu) ==> rows[id].key in existing && existing[rows[id].key] == id
        decreases todo
      {
        var id :| id in todo;
        todo := todo - {id};
        if Own(rows[id], spu) {
          assert forall k :: k in existing ==> Compatible(rows[existing[k]], rows[id]);
          existing := existing[rows[id].key := id];
        }
      }
    }

    /** Step 1. */
    method DeleteMissing(spu: nat, refs: seq<Ref>, existing: map<string, nat>) returns (removed: set<string>)
      requires Clean(rows) && Indexed(rows, spu, existing)
      modifies this`rows
      ensures Clean(rows) && rows == Pruned(old(rows), spu, refs)
      ensures removed == set k | k in existing && !Wants(refs, k)
    {
      removed := set k | k in existing && !Wants(refs, k);
      var todo := removed;
      while todo != {}
        invariant todo <= removed && Clean(rows)
        invariant forall id :: id in rows ==> id in old(rows) && rows[id] == old(rows)[id]
        invariant forall id :: id in old(rows) && id !in rows ==> Own(old(rows)[id], spu) && old(rows)[id].key in removed
        invariant forall k :: k in removed && k !in todo ==> existing[k] !in rows
        decreases todo
      {
        var k :| k in todo;
        RemovalIsClean(rows, existing[k]);
        Delete(existing[k]);
        todo := todo - {k};
      }
      assert rows.Keys == Pruned(old(rows), spu, refs).Keys;
    }

    /** Step 2. */
    method DemoteOthers(spu: nat, refs: seq<Ref>, existing: map<string, nat>)
      requires Clean(rows) && ValidRefs(refs) && KeptIndexed(rows, spu, refs, existing)
      modifies this`rows
      ensures Clean(rows) && rows == Demoted(old(rows), spu, refs)
    {
      for m := 0 to |refs|
        invariant Clean(rows) && DemotedUpTo(old(rows), rows, spu, refs, m)
      {
        if refs[m].key in existing && refs[m].kind != Main {
          var id := existing[refs[m].key];
          DemoteStep(old(rows), rows, spu, refs, existing, m);
          StepDownIsClean(rows, id, refs[m].kind, refs[m].sort);
          Put(id, rows[id].(kind := refs[m].kind, sort := refs[m].sort));
        } else {
          NoDemoteStep(old(rows), rows, spu, refs, existing, m);
        }
      }
      DemotedInTheEnd(old(rows), rows, spu, refs);
    }

    /** Step 3. */
    method InsertNew(spu: nat, refs: seq<Ref>, existing: map<string, nat>)
      requires Valid() && ValidRefs(refs) && SettledAll(rows, spu, refs)
      requires forall id :: id in rows && Own(rows[id], spu) ==> rows[id].key in existing
      modifies this
      ensures Valid() && SettledAll(rows, spu, refs)
      ensures Filled(old(rows), rows, spu, refs, existing, old(nextId))
    {
      for m := 0 to |refs|
        invariant Valid() && SettledAll(rows, spu, refs) && nextId >= old(nextId)
        invariant FilledUpTo(old(rows), rows, spu, refs, existing, old(nextId), m)
      {
        if refs[m].key !in existing {
          FillStep(old(rows), rows, spu, refs, existing, old(nextId), m, nextId);
          Put(nextId, Row(spu, None, refs[m].key, refs[m].kind, refs[m].sort));
          nextId := nextId + 1;
        }
      }
    }

    /** Step 4. */
    method PromoteMain(spu: nat, refs: seq<Ref>, existing: map<string, nat>)
      requires Clean(rows) && ValidRefs(refs) && SettledAll(rows, spu, refs)
      requires KeptRows(rows, spu, refs, existing)
      requires PromotedUpTo(rows, spu, refs, existing, 0)
      modifies this`rows
      ensures Clean(rows) && rows.Keys == old(rows).Keys && Preserved(old(rows), rows, spu)
      ensures forall id :: id in rows && Own(rows[id], spu) ==> Right(rows[id], refs)
    {
      for m := 0 to |refs|
        invariant Promoting(old(rows), rows, spu, refs, existing, m)
      {
        if refs[m].key in existing && refs[m].kind == Main {
          var id := existing[refs[m].key];
          PromoteTurn(old(rows), rows, spu, refs, existing, m);
          Put(id, rows[id].(kind := Main, sort := refs[m].sort));
        } else {
          NoPromotionStep(rows, spu, refs, existing, m);
        }
      }
      PromotedInTheEnd(old(rows), rows, spu, refs, existing);
    }

    /** Steps 1 and 2: afterwards nothing stands in the way of the new MAIN. */
    method RemoveAndDemote(spu: nat, refs: seq<Ref>, existing: map<string, nat>) returns (removed: set<string>)
      requires Valid() && ValidRefs(refs) && Indexed(rows, spu, existing)
      modifies this`rows
      ensures Valid() && SettledAll(rows, spu, refs) && KeptIndexed(rows, spu, refs, existing)
      ensures Trimmed(old(rows), rows, spu, refs)
      ensures forall k :: k in removed <==> HasRow(old(rows), spu, k) && !Wants(refs, k)
    {
      IndexedRows(rows, spu, existing);
      PrunedRows(rows, spu, refs, existing);
      Trims(rows, spu, refs);
      removed := DeleteMissing(spu, refs, existing);
      DemotedRows(rows, spu, refs, existing);
      DemoteOthers(spu, refs, existing);
    }

    /** Steps 3 and 4. */
    method InsertAndPromote(spu: nat, refs: seq<Ref>, existing: map<string, nat>)
      requires Valid() && ValidRefs(refs) && SettledAll(rows, spu, refs) && KeptIndexed(rows, spu, refs, existing)
      modifies this
      ensures Valid() && AllRight(rows, spu, refs)
      ensures Grown(old(rows), rows, spu, old(nextId))
    {
      ghost var demoted := rows;
      ghost var next := nextId;
      InsertNew(spu, refs, existing);
      ghost var filled := rows;
      ReadyToPromote(demoted, filled, spu, refs, existing, next);
      PromoteMain(spu, refs, existing);
      Completes(demoted, filled, rows, spu, refs, existing, next);
    }

    /**
     reconcile_spu_images. No row write along the way violates an index; afterwards the product has
     exactly the wanted images, rows whose key stayed are the same rows, rows of others are untouched,
     and what is returned for collection is what was there and is no longer wanted.
     */
    method ReconcileSpu(spu: nat, refs: seq<Ref>) returns (removed: set<string>)
      requires Valid() && ValidRefs(refs)
      modifies this
      ensures Valid() && Exactly(rows, spu, refs)
      ensures Preserved(old(rows), rows, spu)
      ensures forall id :: id in old(rows) && Own(old(rows)[id], spu) ==>
                (id in rows <==> Wants(refs, old(rows)[id].key))
      ensures forall k :: k in removed <==> HasRow(old(rows), spu, k) && !Wants(refs, k)
    {
      ghost var before := rows;
      var existing := IndexByKey(spu);
      removed := RemoveAndDemote(spu, refs, existing);
      ghost var demoted := rows;
      ghost var next := nextId;
      InsertAndPromote(spu, refs, existing);
      ShowsExactly(rows, spu, refs);
      Keeps(before, demoted, rows, spu, refs, next);
    }

    /**
     gc_orphan_objects, after the commit: of the keys handed over, exactly those that no row of any
     product or variant names any more leave the store, save those whose deletion fails.
     */
    method CollectOrphans(keys: set<string>, stored: set<string>, failing: set<string>) returns (left: set<string>)
      ensures forall k :: k in left <==> k in stored && !(k in keys && k !in failing && !Named(rows, k))
      ensures forall id :: id in rows && rows[id].key in stored ==> rows[id].key in left
    {
      left := stored;
      var todo := keys - set id | id in rows && rows[id].key in keys :: rows[id].key;
      ghost var orphans := todo;
      assert forall k :: k in orphans <==> k in keys && !Named(rows, k);
      while todo != {}
        invariant todo <= orphans
        invariant left == stored - (set k | k in orphans && k !in todo && k !in failing)
        decreases todo
      {
        var k :| k in todo;
        todo := todo - {k};
        if k !in failing { left := left - {k}; }
      }
    }
  }
}
