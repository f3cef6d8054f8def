/**
 The shared database session of the program, as an object whose four
 tables the persistence functions change in place. Each writing method
 does what the function of the same name in the program does: it adds,
 changes or deletes one row and commits, or it rolls back, restoring every
 table. Each writing method is proved to be the transaction of the same name
 in module Catalog. GetGibi changes nothing and gives an answer that
 Catalog.Answers allows.
 */
module Persistence {
  import opened Records
  import opened Catalog

  /** Every key of a table lies in [1, next): the table's AUTO_INCREMENT
      counter is above every key it has handed out, and it starts at 1. */
  ghost predicate KeysBelow<T>(table: map<int, T>, next: int) {
    1 <= next && forall k :: k in table ==> 1 <= k < next
  }

  class Session {
    var gibis: map<int, Gibi>
    var autores: map<int, Autor>
    var editoras: map<int, Editora>
    var categorias: map<int, Categoria>

    // the AUTO_INCREMENT counter of each table: the key its next row gets
    var nextGibiId: int
    var nextAutorId: int
    var nextEditoraId: int
    var nextCategoriaId: int

    /** The committed contents of the four tables. */
    function Tables(): (r: Store)
      reads this
    {
      Store(gibis, autores, editoras, categorias)
    }

    ghost predicate Valid()
      reads this
    {
      && ReferentialIntegrity(Tables())
      && KeysBelow(gibis, nextGibiId)
      && KeysBelow(autores, nextAutorId)
      && KeysBelow(editoras, nextEditoraId)
      && KeysBelow(categorias, nextCategoriaId)
    }

    /** A session on a freshly created, empty database. */
    constructor ()
      ensures Valid() && Tables() == Empty
      ensures nextGibiId == nextAutorId == nextEditoraId == nextCategoriaId == 1
    {
      gibis, autores, editoras, categorias := map[], map[], map[], map[];
      nextGibiId, nextAutorId, nextEditoraId, nextCategoriaId := 1, 1, 1, 1;
    }

    /** `add_editora`: the in-place form of the transaction Catalog.AddEditora. */
    method AddEditora(nome: string, cidade: string) returns (outcome: Outcome)
      requires Valid()
      modifies this
      ensures Valid()
      ensures Step(Tables(), outcome) == Catalog.AddEditora(old(Tables()), old(nextEditoraId), nome, cidade)
      ensures nextEditoraId == if outcome.Committed? then old(nextEditoraId) + 1 else old(nextEditoraId)
      ensures nextGibiId == old(nextGibiId) && nextAutorId == old(nextAutorId)
      ensures nextCategoriaId == old(nextCategoriaId)
    {
      if !Truthy(nome) || !Truthy(cidade) {
        // ValueError before anything was added: the rollback has nothing to undo
        return RolledBack(MissingField);
      }
      editoras := editoras[nextEditoraId := Editora(nome, cidade)];
      nextEditoraId := nextEditoraId + 1;
      outcome := Committed;
    }

    /** `add_autor`: the in-place form of the transaction Catalog.AddAutor. */
    method AddAutor(nome: string, paisOrigem: string) returns (outcome: Outcome)
      requires Valid()
      modifies this
      ensures Valid()
      ensures Step(Tables(), outcome) == Catalog.AddAutor(old(Tables()), old(nextAutorId), nome, paisOrigem)
      ensures nextAutorId == if outcome.Committed? then old(nextAutorId) + 1 else old(nextAutorId)
      ensures nextGibiId == old(nextGibiId) && nextEditoraId == old(nextEditoraId)
      ensures nextCategoriaId == old(nextCategoriaId)
    {
      if !Truthy(nome) || !Truthy(paisOrigem) {
        return RolledBack(MissingField);
      }
      autores := autores[nextAutorId := Autor(nome, paisOrigem)];
      nextAutorId := nextAutorId + 1;
      outcome := Committed;
    }

    /** `add_categoria`: the in-place form of the transaction Catalog.AddCategoria. */
    method AddCategoria(nome: string) returns (outcome: Outcome)
      requires Valid()
      modifies this
      ensures Valid()
      ensures Step(Tables(), outcome) == Catalog.AddCategoria(old(Tables()), old(nextCategoriaId), nome)
      ensures nextCategoriaId == if outcome.Committed? then old(nextCategoriaId) + 1 else old(nextCategoriaId)
      ensures nextGibiId == old(nextGibiId) && nextAutorId == old(nextAutorId)
      ensures nextEditoraId == old(nextEditoraId)
    {
      if !Truthy(nome) {
        return RolledBack(MissingField);
      }
      categorias := categorias[nextCategoriaId := Categoria(nome)];
      nextCategoriaId := nextCategoriaId + 1;
      outcome := Committed;
    }

    /** `add_gibi`: the in-place form of the transaction Catalog.AddGibi. */
    method AddGibi(titulo: string, ano: int, editoraId: int, autorId: int, categoriaId: int)
      returns (outcome: Outcome)
      requires Valid()
      modifies this
      ensures Valid()
      ensures Step(Tables(), outcome)
              == Catalog.AddGibi(old(Tables()), old(nextGibiId), titulo, ano, editoraId, autorId, categoriaId)
      ensures nextGibiId == if outcome.Committed? then old(nextGibiId) + 1 else old(nextGibiId)
      ensures nextAutorId == old(nextAutorId) && nextEditoraId == old(nextEditoraId)
      ensures nextCategoriaId == old(nextCategoriaId)
    {
      if !Truthy(titulo) || !TruthyInt(ano) || !TruthyInt(editoraId)
         || !TruthyInt(autorId) || !TruthyInt(categoriaId) {
        return RolledBack(MissingField);
      }
      var saved := gibis;
      // session.add: the row is pending in the transaction
      gibis := gibis[nextGibiId := Gibi(titulo, ano, editoraId, autorId, categoriaId)];
      // session.commit: the database checks the three foreign keys
      if editoraId !in editoras || autorId !in autores || categoriaId !in categorias {
        gibis := saved;  // session.rollback
        return RolledBack(ForeignKeyViolation);
      }
      nextGibiId := nextGibiId + 1;
      outcome := Committed;
    }

    /** `get_gibi(titulo)`: the executable form of Catalog.GetGibi; a read,
        so the method may change nothing. */
    method GetGibi(titulo: string) returns (found: Option<(int, Gibi)>)
      ensures Answers(Tables(), titulo, found)
      ensures found.None? <==> forall id :: id in gibis ==> gibis[id].titulo != titulo
    {
      if exists id :: id in gibis && gibis[id].titulo == titulo {
        var id :| id in gibis && gibis[id].titulo == titulo;
        found := Some((id, gibis[id]));
      } else {
        found := None;
      }
    }

    /** `update_gibi`: the in-place form of the transaction Catalog.UpdateGibi. */
    method UpdateGibi(gibiId: int, novoTitulo: string) returns (outcome: Outcome)
      requires Valid()
      modifies this
      ensures Valid()
      ensures Step(Tables(), outcome) == Catalog.UpdateGibi(old(Tables()), gibiId, novoTitulo)
      ensures nextGibiId == old(nextGibiId) && nextAutorId == old(nextAutorId)
      ensures nextEditoraId == old(nextEditoraId) && nextCategoriaId == old(nextCategoriaId)
    {
      if !Truthy(novoTitulo) {
        return RolledBack(MissingField);
      }
      if gibiId !in gibis {
        return RolledBack(NotFound);
      }
      // gibi.titulo = novo_titulo on the loaded row, then commit
      gibis := gibis[gibiId := gibis[gibiId].(titulo := novoTitulo)];
      outcome := Committed;
    }

    /** `delete_gibi`: the in-place form of the transaction Catalog.DeleteGibi. */
    method DeleteGibi(gibiId: int) returns (outcome: Outcome)
      requires Valid()
      modifies this
      ensures Valid()
      ensures Step(Tables(), outcome) == Catalog.DeleteGibi(old(Tables()), gibiId)
      ensures nextGibiId == old(nextGibiId) && nextAutorId == old(nextAutorId)
      ensures nextEditoraId == old(nextEditoraId) && nextCategoriaId == old(nextCategoriaId)
    {
      if gibiId !in gibis {
        return RolledBack(NotFound);
      }
      gibis := gibis - {gibiId};
      outcome := Committed;
    }
  }
}
