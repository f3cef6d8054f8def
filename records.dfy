/**
 The rows of the four tables of the comic catalogue (gibis, autores,
 editoras, categorias) and the truthiness test the persistence functions
 apply to their arguments.

 A row does not carry its own primary key: a table is a map from the
 primary key to the row, so "the id of a row" is its key in that map.
 */
module Records {

  datatype Option<T> = None | Some(value: T)

  /** A comic. The three ids are foreign keys into editoras, autores and categorias. */
  datatype Gibi = Gibi(titulo: string, ano: int, editoraId: int, autorId: int, categoriaId: int)

  /** An author and the country they come from. */
  datatype Autor = Autor(nome: string, paisOrigem: string)

  /** A publisher and its city. */
  datatype Editora = Editora(nome: string, cidade: string)

  /** A category of comics. */
  datatype Categoria = Categoria(nome: string)

  /** Python's `not s` is false for a string exactly when s is not empty;
      a string of blanks is therefore accepted as a value. */
  predicate Truthy(s: string) {
    s != ""
  }

  /** Python's `not n` is false for an int exactly when n is not 0;
      negative numbers are accepted. */
  predicate TruthyInt(n: int) {
    n != 0
  }
}
