/**
 The persistence layer as a specification: the four tables as one value,
 and each persistence function as a transaction from one such value to the
 next. A transaction either commits its single change or rolls back and
 leaves every table exactly as it was.

 The writing functions return the outcome only so that contracts can speak
 of it; the program's writing functions return nothing and swallow their
 errors. The lookup `get_gibi` is a read and changes no table.
 */
module Catalog {
  import opened Records

  /** The four tables, each a map from primary key to row. */
  datatype Store = Store(
    gibis: map<int, Gibi>,
    autores: map<int, Autor>,
    editoras: map<int, Editora>,
    categorias: map<int, Categoria>)

  /** Why a transaction was rolled back. The first two are the program's
      ValueErrors; the third is the error the database raises at commit. */
  datatype Reason = MissingField | NotFound | ForeignKeyViolation

  datatype Outcome = Committed | RolledBack(reason: Reason)

  /** The store after a transaction, and how the transaction ended. */
  datatype Step = Step(store: Store, outcome: Outcome)

  const Empty: Store := Store(map[], map[], map[], map[])

  /** The three foreign keys of g name existing rows. */
  predicate Resolves(s: Store, g: Gibi) {
    g.editoraId in s.editoras && g.autorId in s.autores && g.categoriaId in s.categorias
  }

  /** Every comic's foreign keys name existing rows: what the database enforces. */
  ghost predicate ReferentialIntegrity(s: Store) {
    forall id :: id in s.gibis ==> Resolves(s, s.gibis[id])
  }

  /** `after` is `before` with exactly one new row, `row`, under the fresh key `id`. */
  ghost predicate Inserted<T>(before: map<int, T>, after: map<int, T>, id: int, row: T) {
    && id !in before
    && after.Keys == before.Keys + {id}
    && after[id] == row
    && forall k :: k in before ==> after[k] == before[k]
  }

  /** `after` is `before` without the row under `id`, which existed. */
  ghost predicate Deleted<T>(before: map<int, T>, after: map<int, T>, id: int) {
    && id in before
    && after.Keys == before.Keys - {id}
    && forall k :: k in after ==> after[k] == before[k]
  }

  /** `after` is `before` with the title of row `id`, which existed, set to `titulo`;
      the year, the foreign keys and every other row are as they were. */
  ghost predicate Retitled(before: map<int, Gibi>, after: map<int, Gibi>, id: int, titulo: string) {
    && id in before
    && after.Keys == before.Keys
    && after[id].titulo == titulo
    && after[id].ano == before[id].ano
    && after[id].editoraId == before[id].editoraId
    && after[id].autorId == before[id].autorId
    && after[id].categoriaId == before[id].categoriaId
    && forall k :: k in before && k != id ==> after[k] == before[k]
  }

  /** `add_editora(nome, cidade)`; `id` is the key the store assigns to the new row. */
  function AddEditora(s: Store, id: int, nome: string, cidade: string): (r: Step)
    requires id !in s.editoras
    ensures r.outcome.Committed? <==> Truthy(nome) && Truthy(cidade)
    ensures r.outcome.RolledBack? ==> r.store == s && r.outcome.reason == MissingField
    ensures r.outcome.Committed? ==>
              && Inserted(s.editoras, r.store.editoras, id, Editora(nome, cidade))
              && r.store == s.(editoras := r.store.editoras)
    ensures ReferentialIntegrity(s) ==> ReferentialIntegrity(r.store)
  {
    if !Truthy(nome) || !Truthy(cidade) then
      Step(s, RolledBack(MissingField))
    else
      Step(s.(editoras := s.editoras[id := Editora(nome, cidade)]), Committed)
  }

  /** `add_autor(nome, pais_origem)`; `id` is the key the store assigns to the new row. */
  function AddAutor(s: Store, id: int, nome: string, paisOrigem: string): (r: Step)
    requires id !in s.autores
    ensures r.outcome.Committed? <==> Truthy(nome) && Truthy(paisOrigem)
    ensures r.outcome.RolledBack? ==> r.store == s && r.outcome.reason == MissingField
    ensures r.outcome.Committed? ==>
              && Inserted(s.autores, r.store.autores, id, Autor(nome, paisOrigem))
              && r.store == s.(autores := r.store.autores)
    ensures ReferentialIntegrity(s) ==> ReferentialIntegrity(r.store)
  {
    if !Truthy(nome) || !Truthy(paisOrigem) then
      Step(s, RolledBack(MissingField))
    else
      Step(s.(autores := s.autores[id := Autor(nome, paisOrigem)]), Committed)
  }

  /** `add_categoria(nome)`; `id` is the key the store assigns to the new row. */
  function AddCategoria(s: Store, id: int, nome: string): (r: Step)
    requires id !in s.categorias
    ensures r.outcome.Committed? <==> Truthy(nome)
    ensures r.outcome.RolledBack? ==> r.store == s && r.outcome.reason == MissingField
    ensures r.outcome.Committed? ==>
              && Inserted(s.categorias, r.store.categorias, id, Categoria(nome))
              && r.store == s.(categorias := r.store.categorias)
    ensures ReferentialIntegrity(s) ==> ReferentialIntegrity(r.store)
  {
    if !Truthy(nome) then
      Step(s, RolledBack(MissingField))
    else
      Step(s.(categorias := s.categorias[id := Categoria(nome)]), Committed)
  }

  /** `add_gibi(titulo, ano, editora_id, autor_id, categoria_id)`; `id` is the key
      the store assigns. The program checks only that no argument is falsy; the
      foreign keys are checked by the database when the transaction commits. */
  function AddGibi(s: Store, id: int, titulo: string, ano: int,
                   editoraId: int, autorId: int, categoriaId: int): (r: Step)
    requires id !in s.gibis
    ensures (!Truthy(titulo) || !TruthyInt(ano) || !TruthyInt(editoraId)
             || !TruthyInt(autorId) || !TruthyInt(categoriaId))
            ==> r == Step(s, RolledBack(MissingField))
    ensures r.outcome.Committed? <==>
              && Truthy(titulo) && TruthyInt(ano)
              && TruthyInt(editoraId) && TruthyInt(autorId) && TruthyInt(categoriaId)
              && editoraId in s.editoras && autorId in s.autores && categoriaId in s.categorias
    ensures (&& Truthy(titulo) && TruthyInt(ano)
             && TruthyInt(editoraId) && TruthyInt(autorId) && TruthyInt(categoriaId)
             && !Resolves(s, Gibi(titulo, ano, editoraId, autorId, categoriaId)))
            ==> r == Step(s, RolledBack(ForeignKeyViolation))
    ensures r.outcome.RolledBack? ==> r.store == s
    ensures r.outcome.Committed? ==>
              && Inserted(s.gibis, r.store.gibis, id, Gibi(titulo, ano, editoraId, autorId, categoriaId))
              && r.store == s.(gibis := r.store.gibis)
    ensures ReferentialIntegrity(s) ==> ReferentialIntegrity(r.store)
  {
    var row := Gibi(titulo, ano, editoraId, autorId, categoriaId);
    if !Truthy(titulo) || !TruthyInt(ano) || !TruthyInt(editoraId)
       || !TruthyInt(autorId) || !TruthyInt(categoriaId) then
      Step(s, RolledBack(MissingField))
    else if !Resolves(s, row) then
      Step(s, RolledBack(ForeignKeyViolation))
    else
      Step(s.(gibis := s.gibis[id := row]), Committed)
  }

  /** `r` is an answer `get_gibi(titulo)` may give: some row with that title
      together with its key, or nothing when no row has that title. */
  ghost predicate Answers(s: Store, titulo: string, r: Option<(int, Gibi)>) {
    match r
    case None => forall id :: id in s.gibis ==> s.gibis[id].titulo != titulo
    case Some(found) => found.0 in s.gibis && s.gibis[found.0] == found.1 && found.1.titulo == titulo
  }

  /** `get_gibi(titulo)`: the query has no ORDER BY, so which matching row
      comes first is left open. */
  ghost function GetGibi(s: Store, titulo: string): (r: Option<(int, Gibi)>)
    ensures Answers(s, titulo, r)
    ensures r.None? <==> forall id :: id in s.gibis ==> s.gibis[id].titulo != titulo
  {
    if exists id :: id in s.gibis && s.gibis[id].titulo == titulo then
      var id :| id in s.gibis && s.gibis[id].titulo == titulo;
      Some((id, s.gibis[id]))
    else
      None
  }

  /** `update_gibi(gibi_id, novo_titulo)`: the title is checked before the
      row is looked up, so an empty title is refused even for an unknown id. */
  function UpdateGibi(s: Store, gibiId: int, novoTitulo: string): (r: Step)
    ensures !Truthy(novoTitulo) ==> r == Step(s, RolledBack(MissingField))
    ensures Truthy(novoTitulo) && gibiId !in s.gibis ==> r == Step(s, RolledBack(NotFound))
    ensures r.outcome.Committed? <==> Truthy(novoTitulo) && gibiId in s.gibis
    ensures r.outcome.Committed? ==>
              && Retitled(s.gibis, r.store.gibis, gibiId, novoTitulo)
              && r.store == s.(gibis := r.store.gibis)
    ensures ReferentialIntegrity(s) ==> ReferentialIntegrity(r.store)
  {
    if !Truthy(novoTitulo) then
      Step(s, RolledBack(MissingField))
    else if gibiId !in s.gibis then
      Step(s, RolledBack(NotFound))
    else
      Step(s.(gibis := s.gibis[gibiId := s.gibis[gibiId].(titulo := novoTitulo)]), Committed)
  }

  /** `delete_gibi(gibi_id)`: no argument check; an unknown id is refused. */
  function DeleteGibi(s: Store, gibiId: int): (r: Step)
    ensures r.outcome.Committed? <==> gibiId in s.gibis
    ensures r.outcome.RolledBack? ==> r == Step(s, RolledBack(NotFound))
    ensures r.outcome.Committed? ==>
              && Deleted(s.gibis, r.store.gibis, gibiId)
              && r.store == s.(gibis := r.store.gibis)
    ensures ReferentialIntegrity(s) ==> ReferentialIntegrity(r.store)
  {
    if gibiId in s.gibis then
      Step(s.(gibis := s.gibis - {gibiId}), Committed)
    else
      Step(s, RolledBack(NotFound))
  }
}
