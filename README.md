# beerbase record handling, modelled in Dafny

beerbase is a small catalogue service for beer records. This project models
the three pieces of it that hold record-handling logic, and proves what they
do:

- **The `Beer` record** (`datatypes.dfy`, module `Datatypes`). It has seven
  fields. `to_dict` and `from_dict` convert between a record and a flat dict.
  The dataclass checks no types, so every field holds a dynamically typed
  `Value` (module `PyValues`): None, an int, a float or a string. The seed
  record holds floats and ints. Records read from CSV hold raw strings, or
  None for a blank `abv`/`ibu`.
- **The in-memory handlers** (`stream.dfy`, module `Stream`). Class
  `StreamModule` holds the module-level list `beers` and the module-level
  record `beer`. Its methods `GetBeer` and `DeleteBeer` model `get_beer` and
  `delete_beer`, with their responses and status codes. Both are modelled
  as the code is written:
  - `get_beer` tests the module-level `beer` rather than the loop element.
    It appends one copy of that record's dict per element of `beers`.
  - `delete_beer` calls `list.remove` inside a `for` loop. `list.remove`
    drops the first field-wise equal element. Python's list iterator still
    advances its index, so the element after a removed one is never visited.
    The function `Sweep` states this loop and `DeleteBeer`'s loop follows it
    step by step.
- **The database handler** (`database.dfy`, module `Database`). Class
  `DatabaseHandler` holds the session as the sequence of records added to it
  and a count of commits.
  - `LoadCsv` models `load_csv` over rows already split into cells. It skips
    the header. `BuildRecord` turns each row into a dict and rewrites a blank
    `abv` and then a blank `ibu` to None in place. It then calls `from_dict`.
    `LoadCsv` adds each record to the session and commits once at the end.
  - `GetBeers` models `get_beers`: a conjunctive filter on `beer_id` and
    `name`, in storage order. A failing query raises RuntimeError.

What the code does, modelled as written:

- `get_beers` filters on `beer_id` AND `name`: a record is returned only
  when both match. `get_beer` reads only `beer_id`, and compares it against
  the module-level record, not against the list elements.
- `load_csv` keeps every cell as the raw string. Only a blank `abv` or `ibu`
  becomes None. No cell is converted to a number, so a record loaded from
  CSV holds its `beer_id` as a string.
- `delete_beer` removes every visited element whose id matches. With unique
  ids that is exactly one record. Of two adjacent matches the second is
  skipped and survives (`Stream.SweepSkipsFollower`).
- In `load_csv` a row with fewer than seven cells raises: KeyError for 0 or
  1 cells, TypeError from `Beer(**d)` for 2 to 6 cells. A row longer than
  seven cells raises IndexError. The records added before the failing row
  stay in the session, and no commit happens.

## Model

| member | source | states |
|---|---|---|
| `PyValues.Strip` | src/beerbase/database.py:41-44 | `s.strip()` is the slice `s[a:a+n]` whose cut-off prefix and suffix are all whitespace, and which itself neither starts nor ends with a whitespace character |
| `PyValues.StripEmptyIffBlank` | src/beerbase/database.py:41-44 | `not s.strip()` holds exactly when the cell is empty or made only of whitespace |
| `Datatypes.GetAttr` | src/beerbase/datatypes.py:34-40 | a record has an instance attribute (`vars(b)`) exactly for each of the seven declared field names |
| `Datatypes.ToDict` | src/beerbase/datatypes.py:42-53 | the dict's keys are exactly the seven field names |
| `Datatypes.FromDict` | src/beerbase/datatypes.py:55-59 | `Beer(**d)` succeeds exactly when the keys of `d` are the seven field names; a missing or extra key is a TypeError |
| `Datatypes.FieldOrderIsFields` | src/beerbase/datatypes.py:34-40 | the declared field order, which is also the `header` list `load_csv` uses (`Database.Header`), names each of the seven constructor fields exactly once |
| `Datatypes.ToDictIsAttributes` | src/beerbase/datatypes.py:45-53 | each dict entry equals the same-named instance attribute; the dict has an entry for exactly the record's instance attributes (`vars(b)`), so nothing is converted or dropped |
| `Datatypes.RoundTrip` | src/beerbase/datatypes.py:42-59 | `from_dict(to_dict(b)) == b` for every record |
| `Datatypes.ReverseRoundTrip` | src/beerbase/datatypes.py:42-59 | `to_dict(from_dict(d)) == d` for every dict whose keys are exactly the seven field names |
| `Datatypes.ToDictInjective` | src/beerbase/datatypes.py:30-53 | two records are equal (dataclass field-wise equality) exactly when their dicts are equal |
| `Stream.SeedBeer` | src/beerbase/stream.py:8 | the seed record has `beer_id` 2519 |
| `Stream.IndexOf` | src/beerbase/stream.py:71 | the position `list.remove` targets holds the element, and no earlier element equals it |
| `Stream.Remove` | src/beerbase/stream.py:71 | `list.remove(x)` drops the element at the first position holding `x` and keeps everything before and after it in order; exactly one copy of `x` leaves the list |
| `Stream.Sweep` | src/beerbase/stream.py:68-72 | the delete loop with Python's advancing list iterator: when it reports a removal the list is shorter; when it reports none the list is unchanged |
| `Stream.SweepFoundIffPresent` | src/beerbase/stream.py:68-83 | the delete loop reports a removal exactly when some element has the requested id, even though it skips elements |
| `Stream.SweepNeverAdds` | src/beerbase/stream.py:68-72 | the delete loop never adds elements: what remains is a sub-multiset of the list |
| `Stream.SweepOnlyRemovesMatches` | src/beerbase/stream.py:68-72 | every element the delete loop removes has the requested id |
| `Stream.SweepLengthDrop` | src/beerbase/stream.py:68-72 | the length drops by exactly the number of elements removed |
| `Stream.SweepNoMatch` | src/beerbase/stream.py:68-83 | when no element has the id, the list is unchanged and nothing is reported removed (the 400 outcome) |
| `Stream.RemoveUniqueAt` | src/beerbase/stream.py:71 | with unique ids, removing the element at position k removes that position |
| `Stream.SweepUnique` | src/beerbase/stream.py:68-72 | with unique ids, deleting a present id removes exactly that element and keeps the others in order |
| `Stream.SecondDeleteFindsNothing` | src/beerbase/stream.py:68-83 | with unique ids, a second delete of the same id reports nothing removed (the 400 outcome) |
| `Stream.SweepSkipsFollower` | src/beerbase/stream.py:69-71 | of two adjacent records with the requested id (equal or not), the second is skipped and survives |
| `Stream.StreamModule.constructor` | src/beerbase/stream.py:7-9 | `beers` holds exactly the seed record (id 2519), and `beer` names it |
| `Stream.StreamModule.GetBeer` | src/beerbase/stream.py:12-50 | code 200 exactly when the module-level record's id equals `beer_id` and `beers` is non-empty; the response is then one copy of that record's dict per element; otherwise "No such beer found." with 400; no argument except `beer_id` is read, and nothing changes |
| `Stream.StreamModule.DeleteBeer` | src/beerbase/stream.py:53-85 | `beers` becomes the result of the skipping delete loop; the answer is "Beer successfully deleted." with 200 when something was removed, else "No such beer found." with 400 |
| `Database.Comprehension` | src/beerbase/database.py:40 | after `n` steps the dict binds `header[i]` to `row[i]` for each `i < n`, and holds no other key |
| `Database.RowDict` | src/beerbase/database.py:37-40 | the comprehension succeeds exactly when the row has at most seven cells; a longer row raises IndexError |
| `Database.RowDictKeys` | src/beerbase/database.py:37-44 | `abv` is present exactly from one cell on and `ibu` from two cells on; both start as their raw cells; the keys are the seven fields exactly when the row has seven cells |
| `Database.FromRowDict` | src/beerbase/database.py:40-45 | `from_dict` on the coerced dict of a row of 2 to 7 cells gives the record or the TypeError that `RecordOf` states |
| `Database.RecordOf` | src/beerbase/database.py:40-45 | a data row yields a record exactly when it has seven cells |
| `Database.RecordBindsHeader` | src/beerbase/database.py:37-45 | in a record built from a row, the field named `header[i]` holds cell `i`: coerced for `abv`/`ibu`, as is for the other five |
| `Database.Coerce` | src/beerbase/database.py:41-44 | a cell becomes None or stays the same string; an empty cell never stays an empty string |
| `Database.CoerceIsStripTest` | src/beerbase/database.py:41-44 | a cell becomes None exactly when its `strip()` is empty; any other cell is kept verbatim as a string |
| `Database.CoerceInPlace` | src/beerbase/database.py:41-44 | the in-place `if not d[key].strip(): d[key] = None` step leaves the dict with `key` bound to the coerced cell and every other entry unchanged |
| `Database.Load` | src/beerbase/database.py:39-46 | the row loop adds at most one record per row, and it fails exactly when it stops before adding a record for every row |
| `Database.LoadCharacterised` | src/beerbase/database.py:39-46 | the row loop adds, in file order, the records of the rows before the first failing row; it fails exactly when such a row exists, with that row's exception |
| `Database.LoadSucceedsIffWellFormed` | src/beerbase/database.py:39-47 | a load succeeds exactly when every data row has seven cells; it then adds one record per data row, in file order |
| `Database.LoadedRowIsFound` | src/beerbase/database.py:39-53 | after a successful load, every row's record is found again by `get_beers` with the row's own id and name |
| `Database.Matching` | src/beerbase/database.py:52 | the query result is no longer than the stored records, and every record in it matches both `beer_id` and `name` |
| `Database.MatchingMembers` | src/beerbase/database.py:52 | the query returns a record exactly when it is stored and both its `beer_id` and its `name` match (conjunctive) |
| `Database.MatchingKeepsOrder` | src/beerbase/database.py:52-53 | the query keeps storage order: filtering a concatenation is the concatenation of the filtered parts |
| `Database.MatchingUniqueAtMostOne` | src/beerbase/database.py:52 | with unique ids the query returns at most one record |
| `Database.DatabaseHandler.constructor` | src/beerbase/database.py:30-31 | the handler starts on the given session, with no commits |
| `Database.DatabaseHandler.BuildRecord` | src/beerbase/database.py:40-45 | the in-place dict steps give `RecordOf(row)`: IndexError for more than seven cells, KeyError `abv` for none, KeyError `ibu` for one, TypeError for two to six, otherwise the record with blank `abv`/`ibu` as None |
| `Database.DatabaseHandler.LoadCsv` | src/beerbase/database.py:33-47 | an empty file fails on the header with no change; otherwise the header is skipped, the session gains the records of the data rows before the first failing one, in file order, and one commit happens exactly when no row failed |
| `Database.DatabaseHandler.GetBeers` | src/beerbase/database.py:49-56 | without a query failure, returns exactly the stored records matching both `beer_id` and `name`, in storage order; a failure at any row raises RuntimeError and returns no partial list |

## Left out

- The `Database` singleton (src/beerbase/database.py:14-26): engine and session creation, the `Singleton` metaclass (`utils` is not part of this model) and the ValueError for a missing path. The handler is given its session as a sequence of records.
- File opening and `csv.reader` tokenisation, including quoting and escapes: `LoadCsv` receives rows already split into cells.
- SQL semantics. The query is modelled as an equality filter over the records added to the session. Pending and committed records are not told apart: the session's autoflush shows added records to queries anyway. Commit failures, rollbacks and duplicate-key errors raised by the database are not modelled.
- Database.DatabaseHandler.GetBeers: how the database library's query fails is a parameter (`failAt`, the row whose fetch raises). The model does not say when a real query fails.
- The exception branches of `get_beer` and `delete_beer` (src/beerbase/stream.py:38-44, 73-79): nothing inside their loops raises, so those branches are unreachable.
- Floating point. Floats are represented by the exact value of their literal and are only copied and compared. Python's `0.0 == -0.0`, `nan != nan` and `1 == 1.0` are not modelled: two values are equal exactly when they are the same kind and the same value.
- src/beerbase/server.py (HTTP routing, templates, argument parsing), src/beerbase/version.py (a constant) and src/tests/test_beer.py (it calls names that database.py does not define).
- `Beer.__str__` and the empty `Serializable` base methods.
- Column types of the database table. The session hands back records exactly as they were added, so a record loaded from CSV keeps `beer_id` as a string and `get_beers` with an int id never finds it; a real store may convert column values on flush, which is not modelled.
