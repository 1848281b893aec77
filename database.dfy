/** The database handler: bulk loading of CSV rows into the session and the
    lookup of records by id and name. The session is modelled as the sequence
    of records added to it, plus a count of commits. */
module Database {
  import opened PyValues
  import opened Datatypes

  /** The fixed column list that CSV positions are bound to. */
  const Header: seq<string> := FieldOrder

  const QueryFailed: string := "Could not retrieve beer(s) from database."

  /** The first `n` steps of `{header[i]: row[i] for i in range(len(row))}`. */
  function Comprehension(row: seq<string>, n: nat): (d: Dict)
    requires n <= |row| && n <= |Header|
    ensures d.Keys == set i | 0 <= i < n :: Header[i]
    ensures forall i :: 0 <= i < n ==> Header[i] in d && d[Header[i]] == PyStr(row[i])
  {
    if n == 0 then map[] else Comprehension(row, n - 1)[Header[n - 1] := PyStr(row[n - 1])]
  }

  /** The whole comprehension: position `i` is bound to `header[i]`, and a row
      longer than the header raises IndexError. */
  function RowDict(row: seq<string>): (r: Result<Dict>)
    ensures r.Ok? <==> |row| <= |Header|
    ensures r.Err? ==> r.error == IndexError
  {
    if |row| > |Header| then Err(IndexError) else Ok(Comprehension(row, |row|))
  }

  /** Which keys the dict of a row of a given length holds, and the full
      dict of a seven-cell row. */
  lemma RowDictKeys(row: seq<string>)
    requires |row| <= |Header|
    ensures "abv" in RowDict(row).value <==> |row| >= 1
    ensures |row| >= 1 ==> RowDict(row).value["abv"] == PyStr(row[0])
    ensures "ibu" in RowDict(row).value <==> |row| >= 2
    ensures |row| >= 2 ==> RowDict(row).value["ibu"] == PyStr(row[1])
    ensures RowDict(row).value.Keys == Fields <==> |row| == |Header|
    ensures |row| == |Header| ==> RowDict(row).value == map[
      "abv" := PyStr(row[0]), "ibu" := PyStr(row[1]), "beer_id" := PyStr(row[2]),
      "name" := PyStr(row[3]), "style" := PyStr(row[4]), "brewery_id" := PyStr(row[5]),
      "size" := PyStr(row[6])]
  {
    var d := RowDict(row).value;
    assert Header == ["abv", "ibu", "beer_id", "name", "style", "brewery_id", "size"];
    if |row| >= 1 {
      assert Header[0] in d;
    }
    if |row| >= 2 {
      assert Header[1] in d;
    }
    if |row| < |Header| {
      assert forall i :: 0 <= i < |row| ==> Header[i] != "size";
    }
    if |row| == |Header| {
      assert Header[2] in d && Header[3] in d && Header[4] in d;
      assert Header[5] in d && Header[6] in d;
      assert d.Keys == Fields;
    }
  }

  /** `Beer.from_dict` on a row's dict once `abv` and `ibu` are coerced. */
  lemma FromRowDict(row: seq<string>)
    requires 2 <= |row| <= |Header|
    ensures FromDict(RowDict(row).value["abv" := Coerce(row[0])]["ibu" := Coerce(row[1])]) == RecordOf(row)
  {
    RowDictKeys(row);
    var d := RowDict(row).value["abv" := Coerce(row[0])]["ibu" := Coerce(row[1])];
    assert d.Keys == RowDict(row).value.Keys;
  }

  /** The stored form of an `abv` or `ibu` cell: None when it is empty or all
      whitespace, otherwise the cell's text unchanged. */
  function Coerce(cell: string): (v: Value)
    ensures v == PyNone || v == PyStr(cell)
    ensures v != PyStr("")
  {
    if Blank(cell) then PyNone else PyStr(cell)
  }

  /** What one data row becomes: a record, or the exception the row raises.
      Only `abv` and `ibu` are rewritten; every other field is the raw cell. */
  function RecordOf(row: seq<string>): (r: Result<Beer>)
    ensures r.Ok? <==> |row| == 7
  {
    if |row| > 7 then Err(IndexError)
    else if |row| == 0 then Err(KeyError("abv"))
    else if |row| == 1 then Err(KeyError("ibu"))
    else if |row| < 7 then Err(TypeError)
    else Ok(Beer(Coerce(row[0]), Coerce(row[1]), PyStr(row[2]), PyStr(row[3]),
                 PyStr(row[4]), PyStr(row[5]), PyStr(row[6])))
  }

  /** In a record built from a row, the field named `header[i]` holds the
      row's `i`-th cell: as is, or coerced for `abv` and `ibu`. */
  lemma {:induction false} RecordBindsHeader(row: seq<string>, i: nat)
    requires |row| == 7 && i < 7
    ensures Header[i] in ToDict(RecordOf(row).value)
    ensures ToDict(RecordOf(row).value)[Header[i]] ==
            if i < 2 then Coerce(row[i]) else PyStr(row[i])
  {
    var d := ToDict(RecordOf(row).value);
    if i == 0 { assert d["abv"] == Coerce(row[0]); }
    else if i == 1 { assert d["ibu"] == Coerce(row[1]); }
    else if i == 2 { assert d["beer_id"] == PyStr(row[2]); }
    else if i == 3 { assert d["name"] == PyStr(row[3]); }
    else if i == 4 { assert d["style"] == PyStr(row[4]); }
    else if i == 5 { assert d["brewery_id"] == PyStr(row[5]); }
    else { assert d["size"] == PyStr(row[6]); }
  }

  /** A coerced cell is None exactly when `cell.strip()` is empty, and is the
      cell's own text otherwise: no numeric conversion happens. */
  lemma CoerceIsStripTest(cell: string)
    ensures Coerce(cell) == PyNone <==> Strip(cell) == []
    ensures Strip(cell) != [] ==> Coerce(cell) == PyStr(cell)
  {
    StripEmptyIffBlank(cell);
  }

  /** `if not d[key].strip(): d[key] = None` leaves `d[key]` coerced. */
  lemma CoerceInPlace(d: Dict, key: string, cell: string, d': Dict)
    requires key in d && d[key] == PyStr(cell)
    requires d' == if Strip(cell) == [] then d[key := PyNone] else d
    ensures d' == d[key := Coerce(cell)]
  {
    CoerceIsStripTest(cell);
  }

  /** The effect of the row loop of `load_csv` on the data rows: the records
      added before the first failing row, and that row's exception if any. */
  datatype LoadResult = LoadResult(added: seq<Beer>, failure: Option<Error>)

  function Load(rows: seq<seq<string>>): (r: LoadResult)
    ensures |r.added| <= |rows|
    ensures r.failure.None? <==> |r.added| == |rows|
  {
    if rows == [] then LoadResult([], None)
    else match RecordOf(rows[0])
      case Err(e) => LoadResult([], Some(e))
      case Ok(b) =>
        var rest := Load(rows[1..]);
        LoadResult([b] + rest.added, rest.failure)
  }

  /** The loop adds, in file order, the records of the rows before the first
      failing row; it fails exactly when such a row exists, with that row's
      exception. */
  lemma {:induction false} LoadCharacterised(rows: seq<seq<string>>)
    ensures forall j :: 0 <= j < |Load(rows).added| ==> RecordOf(rows[j]) == Ok(Load(rows).added[j])
    ensures Load(rows).failure.Some? ==>
      RecordOf(rows[|Load(rows).added|]) == Err(Load(rows).failure.value)
  {
    if rows != [] && RecordOf(rows[0]).Ok? {
      LoadCharacterised(rows[1..]);
      var r := Load(rows);
      forall j | 0 <= j < |r.added|
        ensures RecordOf(rows[j]) == Ok(r.added[j])
      {
        if j > 0 {
          assert rows[1..][j - 1] == rows[j];
        }
      }
    }
  }

  /** One step of the row loop: a good row adds its record in front of the
      rest; a bad row stops the load with its exception. */
  lemma LoadStep(rows: seq<seq<string>>, i: nat)
    requires i < |rows|
    ensures RecordOf(rows[i]).Ok? ==>
      Load(rows[i..]) == LoadResult([RecordOf(rows[i]).value] + Load(rows[i + 1..]).added,
                                    Load(rows[i + 1..]).failure)
    ensures RecordOf(rows[i]).Err? ==>
      Load(rows[i..]) == LoadResult([], Some(RecordOf(rows[i]).error))
  {
    assert rows[i..][0] == rows[i];
    assert rows[i..][1..] == rows[i + 1..];
  }

  /** A load succeeds exactly when every data row has seven fields, and then
      adds one record per row, in file order. */
  lemma {:induction false} LoadSucceedsIffWellFormed(rows: seq<seq<string>>)
    ensures Load(rows).failure.None? <==> forall j :: 0 <= j < |rows| ==> |rows[j]| == 7
    ensures Load(rows).failure.None? ==>
      |Load(rows).added| == |rows| &&
      forall j :: 0 <= j < |rows| ==> Load(rows).added[j] == RecordOf(rows[j]).value
  {
    LoadCharacterised(rows);
    var r := Load(rows);
    if r.failure.Some? {
      assert |rows[|r.added|]| != 7;
    }
  }

  /** Every well-formed row of a successful load can be looked up again by
      its own id and name. */
  lemma {:induction false} LoadedRowIsFound(rows: seq<seq<string>>, j: nat)
    requires Load(rows).failure.None? && j < |rows|
    ensures |rows[j]| == 7
    ensures RecordOf(rows[j]).value in Matching(Load(rows).added, PyStr(rows[j][2]), PyStr(rows[j][3]))
  {
    LoadSucceedsIffWellFormed(rows);
    var added := Load(rows).added;
    MatchingMembers(added, PyStr(rows[j][2]), PyStr(rows[j][3]), added[j]);
  }

  /** `session.query(Beer).filter_by(beer_id=..., name=...)`: the stored
      records whose `beer_id` and `name` both equal the arguments, in storage
      order. */
  function Matching(s: seq<Beer>, beerId: Value, name: Value): (r: seq<Beer>)
    ensures |r| <= |s|
    ensures forall k :: 0 <= k < |r| ==> r[k].beerId == beerId && r[k].name == name
  {
    if s == [] then []
    else (if s[0].beerId == beerId && s[0].name == name then [s[0]] else [])
         + Matching(s[1..], beerId, name)
  }

  /** The filter is conjunctive: a record is returned exactly when it is
      stored and both its id and its name match. */
  lemma {:induction false} MatchingMembers(s: seq<Beer>, beerId: Value, name: Value, x: Beer)
    ensures x in Matching(s, beerId, name) <==> x in s && x.beerId == beerId && x.name == name
  {
    if s != [] {
      MatchingMembers(s[1..], beerId, name, x);
      assert s == [s[0]] + s[1..];
    }
  }

  /** Storage order is kept: filtering a concatenation filters each part. */
  lemma {:induction false} MatchingKeepsOrder(s: seq<Beer>, t: seq<Beer>, beerId: Value, name: Value)
    ensures Matching(s + t, beerId, name) == Matching(s, beerId, name) + Matching(t, beerId, name)
  {
    if s == [] {
      assert s + t == t;
    } else {
      assert (s + t)[0] == s[0];
      assert (s + t)[1..] == s[1..] + t;
      MatchingKeepsOrder(s[1..], t, beerId, name);
    }
  }

  /** With unique ids at most one record is returned. */
  lemma {:induction false} MatchingUniqueAtMostOne(s: seq<Beer>, beerId: Value, name: Value)
    requires UniqueIds(s)
    ensures |Matching(s, beerId, name)| <= 1
  {
    if s != [] {
      assert UniqueIds(s[1..]) by {
        forall i, j | 0 <= i < j < |s| - 1 ensures s[1..][i].beerId != s[1..][j].beerId {
          assert s[1..][i] == s[i + 1] && s[1..][j] == s[j + 1];
        }
      }
      MatchingUniqueAtMostOne(s[1..], beerId, name);
      if s[0].beerId == beerId && Matching(s[1..], beerId, name) != [] {
        var x := Matching(s[1..], beerId, name)[0];
        MatchingMembers(s[1..], beerId, name, x);
      }
    }
  }

  /** `Database_handler` with the session it holds. */
  class DatabaseHandler {
    var records: seq<Beer>
    var commits: nat

    /** A handler over a session that already holds `session`. */
    constructor (session: seq<Beer>)
      ensures records == session && commits == 0
    {
      records := session;
      commits := 0;
    }

    /** The body of the row loop of `load_csv`: build the dict, replace a
        blank `abv` and then a blank `ibu` by None in place, then call
        `Beer.from_dict`. */
    method BuildRecord(row: seq<string>) returns (r: Result<Beer>)
      ensures r == RecordOf(row)
    {
      var built := RowDict(row);
      if built.Err? {
        return Err(built.error);
      }
      var beerDict := built.value;
      RowDictKeys(row);
      if "abv" !in beerDict {
        return Err(KeyError("abv"));
      }
      ghost var parsed := beerDict;
      if Strip(beerDict["abv"].s) == [] {
        beerDict := beerDict["abv" := PyNone];
      }
      CoerceInPlace(parsed, "abv", row[0], beerDict);
      if "ibu" !in beerDict {
        return Err(KeyError("ibu"));
      }
      ghost var coercedAbv := beerDict;
      if Strip(beerDict["ibu"].s) == [] {
        beerDict := beerDict["ibu" := PyNone];
      }
      CoerceInPlace(coercedAbv, "ibu", row[1], beerDict);
      FromRowDict(row);
      r := FromDict(beerDict);
    }

    /** `load_csv` over the file's rows, already split into cells: skip the
        header, add one record per data row to the session, then commit
        once. An exception stops the load without a commit; the records added
        before it stay in the session. An empty file fails on the header. */
    method LoadCsv(file: seq<seq<string>>) returns (outcome: Outcome)
      modifies this
      ensures file == [] ==> outcome == Fail(StopIteration) && records == old(records)
      ensures file != [] ==> records == old(records) + Load(file[1..]).added
      ensures file != [] ==> (outcome == Pass <==> Load(file[1..]).failure.None?)
      ensures file != [] && outcome.Fail? ==> Load(file[1..]).failure == Some(outcome.error)
      ensures commits == old(commits) + (if outcome == Pass then 1 else 0)
    {
      if file == [] {
        return Fail(StopIteration);
      }
      ghost var added: seq<Beer> := [];
      var i := 1;
      while i < |file|
        invariant 1 <= i <= |file|
        invariant records == old(records) + added
        invariant commits == old(commits)
        invariant Load(file[1..]).added == added + Load(file[i..]).added
        invariant Load(file[1..]).failure == Load(file[i..]).failure
      {
        var beer := BuildRecord(file[i]);
        if beer.Err? {
          return Fail(beer.error);
        }
        LoadStep(file, i);
        records := records + [beer.value];
        added := added + [beer.value];
        i := i + 1;
      }
      assert file[i..] == [];
      commits := commits + 1;
      return Pass;
    }

    /** `get_beers`: collect the query's rows into a list. The query is the
        database library's; `failAt` stands for it raising while the row at
        that position is fetched (a position past the last row means the
        end-of-rows check itself failed). Any such failure discards the
        partial list and raises RuntimeError. */
    method GetBeers(beer_id: Value, name: Value, failAt: Option<nat>) returns (r: Result<seq<Beer>>)
      ensures failAt.Some? && failAt.value <= |Matching(records, beer_id, name)| ==>
        r == Err(RuntimeError(QueryFailed))
      ensures !(failAt.Some? && failAt.value <= |Matching(records, beer_id, name)|) ==>
        r.Ok? && forall x :: x in r.value <==> x in records && x.beerId == beer_id && x.name == name
      ensures r.Ok? ==> r.value == Matching(records, beer_id, name)
    {
      var rows := Matching(records, beer_id, name);
      var beers: seq<Beer> := [];
      var i := 0;
      while failAt != Some(i) && i < |rows|
        invariant 0 <= i <= |rows|
        invariant beers == rows[..i]
        invariant forall j :: 0 <= j < i ==> failAt != Some(j)
      {
        beers := beers + [rows[i]];
        i := i + 1;
      }
      if failAt == Some(i) {
        return Err(RuntimeError(QueryFailed));
      }
      forall x ensures x in rows <==> x in records && x.beerId == beer_id && x.name == name {
        MatchingMembers(records, beer_id, name, x);
      }
      assert beers == rows;
      return Ok(beers);
    }
  }
}
