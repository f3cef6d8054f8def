# Comic catalogue persistence layer, in Dafny

This project models the persistence layer of a small desktop application.
The application keeps a catalogue of comics (`gibis`), authors (`autores`),
publishers (`editoras`) and categories (`categorias`) in four relational
tables. The layer consists of seven functions in `main.py`:

- `add_editora`, `add_autor`, `add_categoria` and `add_gibi` insert a row.
- `get_gibi` looks up a comic by title.
- `update_gibi` changes a comic's title.
- `delete_gibi` deletes a comic.

Each function that writes is one transaction. The four add functions check
their arguments, and `update_gibi` its new title, with Python truthiness, so
an empty string or the integer 0 is refused. `update_gibi` does not check
its id this way: an id of 0 goes on to the lookup and is refused there as
not found. `delete_gibi` checks no argument.
The transaction then adds, changes or deletes a single row and commits.
Otherwise it raises internally, rolls back, and every table stays exactly
as it was.

The files:

- `records.dfy` (module `Records`): the four row types and the truthiness
  test. A table maps each primary key to its row.
- `catalog.dfy` (module `Catalog`): the specification. The four tables form
  one `Store` value. Each of the six functions that write is a function
  from a store to a `Step`, which holds the new store and an `Outcome`
  (`Committed` or `RolledBack` with a reason). Each such function's
  contract states:
  - when the transaction commits, as an if-and-only-if;
  - that a rollback leaves the store unchanged;
  - the exact single-row change it makes to its own table;
  - that the other three tables stay the same;
  - that every comic's foreign keys still name existing rows.

  `GetGibi` is the read-only exception: a ghost function from a store to
  an optional (key, row) pair, whose contract says which answers are
  allowed.
- `session.dfy` (module `Persistence`): the program's shared database session.
  It is a class with four map fields and one AUTO_INCREMENT counter per
  table. Its methods change the fields in place, as the program changes its
  session. Each of the six writing methods is proved to make the transition
  of the function with the same name in `Catalog`, using the key its counter
  gives out, and to keep the class invariant: referential integrity holds,
  and every key lies between 1 and the counter. `GetGibi` is not proved
  equal to `Catalog.GetGibi`, a ghost function that makes its own choice
  among matching rows; it is proved to give an answer that
  `Catalog.Answers` allows, the same predicate `Catalog.GetGibi` satisfies,
  and it changes nothing.
- `properties.dfy` (module `Properties`): facts that relate several calls.
  These are row counts, a lookup after an add or an update, N successive
  adds, and how the program's id check relates to the database's
  foreign-key check.

Rules the model follows from the code:

- Only the empty string is refused; a title, name or city made only of
  spaces is accepted (`Records.Truthy`).
- `add_gibi` refuses a year or an id equal to 0, because `not 0` is true in
  Python. Negative numbers are accepted.
- The application never checks the foreign keys of `add_gibi`. The
  database checks them at commit. A reference to a missing row makes the
  commit fail, and the transaction rolls back with `ForeignKeyViolation`.
- `update_gibi` checks the new title before it looks up the id. So an empty
  title is reported as `MissingField` even when the id does not exist.
- The six functions that write return `None` and swallow their errors.
  `get_gibi` has no `try`: it returns the row or `None`. The model
  returns an `Outcome` only so that the contracts can describe what
  happened. The effect on the tables is unchanged.
- `main.py` has no read-all operation, so the model has none.

## Model

| member | source | states |
|---|---|---|
| Catalog.AddEditora | main.py:58-67 | commits iff nome and cidade are both non-empty. On commit: exactly one new publisher row with those values under a fresh key, and no other row or table changes. On rollback (MissingField): the store is unchanged. Referential integrity is preserved |
| Catalog.AddAutor | main.py:69-78 | commits iff nome and pais_origem are both non-empty. On commit: exactly one new author row with those values under a fresh key, and nothing else changes. On rollback: the store is unchanged |
| Catalog.AddCategoria | main.py:80-89 | commits iff nome is non-empty. On commit: exactly one new category row under a fresh key, and nothing else changes. On rollback: the store is unchanged |
| Catalog.AddGibi | main.py:91-100 | any empty title or zero year or id rolls back with MissingField and leaves the store unchanged. Otherwise a reference to a missing row rolls back with ForeignKeyViolation and leaves the store unchanged. It commits iff all five values are truthy and the three referenced rows exist (the foreign keys of lines 17-19). On commit: exactly one new comic row with the five values under a fresh key, other tables unchanged. Referential integrity is preserved |
| Catalog.GetGibi | main.py:102-103 | returns some comic row with exactly that title, together with its key. Returns nothing iff no comic has that title |
| Catalog.UpdateGibi | main.py:105-117 | an empty title rolls back with MissingField and leaves the store unchanged, whether or not the id exists. A non-empty title and an unknown id roll back with NotFound. Otherwise only that row's title changes: its year, foreign keys and key, every other row, and the other tables stay the same |
| Catalog.DeleteGibi | main.py:119-129 | commits iff the id exists. On commit: exactly that comic row is removed and nothing else changes. An unknown id rolls back with NotFound and leaves the store unchanged |
| Persistence.Session.constructor | main.py:52-55 | a session on a freshly created database: four empty tables, every AUTO_INCREMENT counter at 1, and the class invariant holds |
| Persistence.Session.AddEditora | main.py:58-67 | the session's tables afterwards, and the outcome, are those of Catalog.AddEditora with the key the counter gives out. The counter advances only on commit. The invariant is kept |
| Persistence.Session.AddAutor | main.py:69-78 | the tables afterwards, and the outcome, are those of Catalog.AddAutor with the counter's key. The invariant is kept |
| Persistence.Session.AddCategoria | main.py:80-89 | the tables afterwards, and the outcome, are those of Catalog.AddCategoria with the counter's key. The invariant is kept |
| Persistence.Session.AddGibi | main.py:91-100 | adds the row and then checks the foreign keys at commit, restoring the table when the check fails. The result equals Catalog.AddGibi with the counter's key. The invariant, including referential integrity, is kept |
| Persistence.Session.GetGibi | main.py:102-103 | changes nothing (it has no modifies clause). The answer is a row with the given title and its key, or nothing iff no row has that title |
| Persistence.Session.UpdateGibi | main.py:105-117 | assigns the new title to the loaded row in place. The result equals Catalog.UpdateGibi, and the invariant is kept |
| Persistence.Session.DeleteGibi | main.py:119-129 | the result equals Catalog.DeleteGibi, and the invariant is kept |
| Properties.InsertedCount | main.py:62-64 | a one-row insert under a fresh key raises the table's row count by exactly one |
| Properties.DeletedCount | main.py:121-124 | deleting one existing row lowers the table's row count by exactly one |
| Properties.AddGibiRowCounts | main.py:91-100 | after add_gibi, the comics table has one more row if the transaction committed and the same count otherwise. The other three tables keep their counts |
| Properties.DeleteGibiRowCounts | main.py:119-129 | after delete_gibi, the comics table has one row fewer if the id existed and the same count otherwise. The other tables keep their counts |
| Properties.AddGibiThenGetGibi | main.py:91-103 | suppose a comic is added under a title no comic had, and the add commits. Looking that title up then returns exactly the new row, with its key, year and three references |
| Properties.UpdateGibiThenGetGibi | main.py:102-117 | suppose a comic is renamed to a title no other comic has. Looking that title up then returns that comic, with only its title changed |
| Properties.DeleteGibiThenNotFound | main.py:105-129 | after a committed delete, deleting or renaming the same id again rolls back with NotFound and changes nothing |
| Properties.IdCheckSubsumedByForeignKeys | main.py:91-99 | suppose every key is at least 1, as AUTO_INCREMENT assigns them. Then add_gibi commits iff the title is non-empty, the year is non-zero and the three references exist. The program's zero-id check refuses nothing that the foreign keys would accept |
| Properties.AddEditoraEachKeeps | main.py:58-67 | N add_editora calls with non-empty values add exactly N publisher rows. Every earlier row and every other table stays the same |
| Properties.AddEditoraEachAt | main.py:58-67 | after N such calls, the row of the i-th call is under key next + i and holds the name and city it was created with |

## Left out

- The graphical interface (`GibiApp`, main.py:133-288) and the program's start-up (main.py:291-295) are not modelled. They are widget layout and dialogs. Converting field text to integers with `int()` in those handlers belongs to them, and so does reporting success after a persistence call that failed silently.
- The database connection, the engine and `create_all` (main.py:7-9, 52-55) are not modelled. The constructor of `Session` stands for a freshly created, empty database.
- The ORM's `relationship`/`back_populates` navigation (main.py:21-23, 32, 41, 49) is not modelled. The foreign-key ids are enough to state every property.
- The console messages printed after a rollback are not modelled. The program does not distinguish `ValueError` from `SQLAlchemyError` in behaviour: both lead to the same rollback. The model's `Reason` is a label for contracts only.
- Database failures other than the foreign-key check are not modelled: lost connections, column length limits, and values outside the range of a MySQL `INT` column. In the six functions that write, any such failure would roll back
  like the modelled one. In `get_gibi` it would be raised to the caller, and
  nothing is rolled back.
- The arguments have fixed types (`string`, `int`). The program could be handed `None` or values of other types, which Python truthiness would also judge. Only the types the interface passes are modelled.
- Catalog.GetGibi: the model compares titles for exact equality. The database's collation may compare titles ignoring case, accents or trailing spaces. Also, which matching row comes "first" is left open, because the query has no ORDER BY.
- Persistence.Session.GetGibi: the same gap as `Catalog.GetGibi`, because it answers through `Catalog.Answers`. Titles are compared for exact equality, although the database's collation may ignore case, accents or trailing spaces. Which matching row it returns is left open.
- Persistence.Session.AddGibi: the model advances the AUTO_INCREMENT counter only on commit. MySQL may also use up a key in a transaction that rolls back. Only freshness and positivity of keys are modelled, not the exact numbering.
- The row objects that the ORM updates in place are modelled as values in the table maps. Object identity and the session's identity map are not modelled.
