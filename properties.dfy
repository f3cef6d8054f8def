/**
 Properties that relate several transactions of module Catalog: row
 counts, a lookup after an add or an update, repeated adds, and the
 interplay of the program's id check with the database's foreign keys.
 */
module Properties {
  import opened Records
  import opened Catalog

  /** A committed add puts exactly one more row in its table. */
  lemma InsertedCount<T>(before: map<int, T>, after: map<int, T>, id: int, row: T)
    requires Inserted(before, after, id, row)
    ensures |after| == |before| + 1
  {
  }

  /** A committed delete leaves exactly one row fewer in its table. */
  lemma DeletedCount<T>(before: map<int, T>, after: map<int, T>, id: int)
    requires Deleted(before, after, id)
    ensures |after| == |before| - 1
  {
  }

  /** Row counts of the four tables after any `add_gibi`: one more comic
      when it commits, and no change at all when it rolls back. */
  lemma AddGibiRowCounts(s: Store, id: int, titulo: string, ano: int,
                         editoraId: int, autorId: int, categoriaId: int)
    requires id !in s.gibis
    ensures var r := AddGibi(s, id, titulo, ano, editoraId, autorId, categoriaId);
            && |r.store.gibis| == |s.gibis| + (if r.outcome.Committed? then 1 else 0)
            && |r.store.autores| == |s.autores|
            && |r.store.editoras| == |s.editoras|
            && |r.store.categorias| == |s.categorias|
  {
  }

  /** Row counts of the four tables after any `delete_gibi`: one comic
      fewer when the id exists, and no change at all when it does not. */
  lemma DeleteGibiRowCounts(s: Store, gibiId: int)
    ensures var r := DeleteGibi(s, gibiId);
            && |r.store.gibis| == |s.gibis| - (if gibiId in s.gibis then 1 else 0)
            && |r.store.autores| == |s.autores|
            && |r.store.editoras| == |s.editoras|
            && |r.store.categorias| == |s.categorias|
  {
  }

  /** Adding a comic whose title no comic had yet, and then looking that
      title up, finds the new comic with the year and the three references
      it was given. */
  lemma AddGibiThenGetGibi(s: Store, id: int, titulo: string, ano: int,
                           editoraId: int, autorId: int, categoriaId: int)
    requires id !in s.gibis
    requires forall k :: k in s.gibis ==> s.gibis[k].titulo != titulo
    requires AddGibi(s, id, titulo, ano, editoraId, autorId, categoriaId).outcome.Committed?
    ensures GetGibi(AddGibi(s, id, titulo, ano, editoraId, autorId, categoriaId).store, titulo)
            == Some((id, Gibi(titulo, ano, editoraId, autorId, categoriaId)))
  {
  }

  /** Renaming a comic to a title no other comic has, and then looking that
      title up, finds the same comic with only its title changed. */
  lemma UpdateGibiThenGetGibi(s: Store, gibiId: int, novoTitulo: string)
    requires forall k :: k in s.gibis && k != gibiId ==> s.gibis[k].titulo != novoTitulo
    requires UpdateGibi(s, gibiId, novoTitulo).outcome.Committed?
    ensures GetGibi(UpdateGibi(s, gibiId, novoTitulo).store, novoTitulo)
            == Some((gibiId, s.gibis[gibiId].(titulo := novoTitulo)))
  {
  }

  /** Once a comic is deleted, a second delete or an update of the same id
      finds nothing and changes nothing. */
  lemma DeleteGibiThenNotFound(s: Store, gibiId: int, novoTitulo: string)
    requires DeleteGibi(s, gibiId).outcome.Committed?
    ensures var after := DeleteGibi(s, gibiId).store;
            && DeleteGibi(after, gibiId) == Step(after, RolledBack(NotFound))
            && (Truthy(novoTitulo) ==> UpdateGibi(after, gibiId, novoTitulo) == Step(after, RolledBack(NotFound)))
  {
  }

  /** Keys assigned by AUTO_INCREMENT start at 1, so on such a store the
      program's check that no id is 0 refuses nothing the foreign keys would
      accept: `add_gibi` commits exactly when the title is not empty, the
      year is not 0 and the three references exist. */
  lemma IdCheckSubsumedByForeignKeys(s: Store, id: int, titulo: string, ano: int,
                                     editoraId: int, autorId: int, categoriaId: int)
    requires id !in s.gibis
    requires forall k :: k in s.editoras ==> k >= 1
    requires forall k :: k in s.autores ==> k >= 1
    requires forall k :: k in s.categorias ==> k >= 1
    ensures AddGibi(s, id, titulo, ano, editoraId, autorId, categoriaId).outcome.Committed?
            <==> Truthy(titulo) && TruthyInt(ano) && Resolves(s, Gibi(titulo, ano, editoraId, autorId, categoriaId))
  {
  }

  /** `add_editora` called once for each (nome, cidade) pair in turn, the
      store handing out consecutive keys from `next` on to the rows it commits. */
  function AddEditoraEach(s: Store, next: int, calls: seq<(string, string)>): (r: Store)
    requires forall k :: k in s.editoras ==> k < next
    decreases |calls|
  {
    if calls == [] then s
    else
      var step := AddEditora(s, next, calls[0].0, calls[0].1);
      AddEditoraEach(step.store, if step.outcome.Committed? then next + 1 else next, calls[1..])
  }

  /** N `add_editora` calls with non-empty names and cities add exactly N
      rows, and change no row that was there before and no other table. */
  lemma {:induction false} AddEditoraEachKeeps(s: Store, next: int, calls: seq<(string, string)>)
    requires forall k :: k in s.editoras ==> k < next
    requires forall i :: 0 <= i < |calls| ==> Truthy(calls[i].0) && Truthy(calls[i].1)
    ensures var r := AddEditoraEach(s, next, calls);
            && |r.editoras| == |s.editoras| + |calls|
            && r == s.(editoras := r.editoras)
            && (forall k :: k in s.editoras ==> k in r.editoras && r.editoras[k] == s.editoras[k])
    decreases |calls|
  {
    if calls != [] {
      var row := Editora(calls[0].0, calls[0].1);
      var mid := AddEditora(s, next, calls[0].0, calls[0].1).store;
      InsertedCount(s.editoras, mid.editoras, next, row);
      AddEditoraEachKeeps(mid, next + 1, calls[1..]);
    }
  }

  /** After those N calls, the i-th call's row is there, under the key
      `next + i`, holding the name and city it was created with. */
  lemma {:induction false} AddEditoraEachAt(s: Store, next: int, calls: seq<(string, string)>, i: int)
    requires forall k :: k in s.editoras ==> k < next
    requires forall j :: 0 <= j < |calls| ==> Truthy(calls[j].0) && Truthy(calls[j].1)
    requires 0 <= i < |calls|
    ensures var r := AddEditoraEach(s, next, calls);
            next + i in r.editoras && r.editoras[next + i] == Editora(calls[i].0, calls[i].1)
    decreases |calls|
  {
    var row := Editora(calls[0].0, calls[0].1);
    var mid := s.(editoras := s.editoras[next := row]);
    assert AddEditora(s, next, calls[0].0, calls[0].1) == Step(mid, Committed);
    assert AddEditoraEach(s, next, calls) == AddEditoraEach(mid, next + 1, calls[1..]);
    assert forall j :: 0 <= j < |calls| - 1 ==> calls[1..][j] == calls[j + 1];
    if i == 0 {
      AddEditoraEachKeeps(mid, next + 1, calls[1..]);
    } else {
      AddEditoraEachAt(mid, next + 1, calls[1..], i - 1);
      assert calls[1..][i - 1] == calls[i];
    }
  }
}
