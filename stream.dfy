/** The in-memory catalogue behind the `/beer` and `/beer/delete` endpoints:
    a module-level list of records and the two handlers that read and shrink
    it, each answering with a response and an HTTP status code. */
module Stream {
  import opened PyValues
  import opened Datatypes

  const NotFound: string := "No such beer found."
  const Deleted: string := "Beer successfully deleted."

  /** The record the module is seeded with. */
  function SeedBeer(): (b: Beer)
    ensures b.beerId == PyInt(2519)
  {
    Beer(PyFloat(0.07), PyFloat(82.0), PyInt(2519), PyStr("Bimini Twist"),
         PyStr("American IPA"), PyInt(67), PyFloat(12.0))
  }

  /** The first element of a handler's answer: a message, or a list of dicts. */
  datatype Response = Message(text: string) | Listing(items: seq<Dict>)

  /** The position of the first element equal to `x`. */
  function IndexOf(s: seq<Beer>, x: Beer): (k: nat)
    requires x in s
    ensures k < |s| && s[k] == x && x !in s[..k]
  {
    if s[0] == x then 0 else 1 + IndexOf(s[1..], x)
  }

  /** `list.remove(x)`: drop the first element equal to `x` (field-wise record
      equality, the position `IndexOf` gives) and keep the others in order; the
      callers only remove elements the list holds. */
  function Remove(s: seq<Beer>, x: Beer): (r: seq<Beer>)
    requires x in s
    ensures |r| == |s| - 1
    ensures r[..IndexOf(s, x)] == s[..IndexOf(s, x)]
    ensures r[IndexOf(s, x)..] == s[IndexOf(s, x) + 1..]
    ensures multiset(r) == multiset(s) - multiset{x}
  {
    var k := IndexOf(s, x);
    assert s == s[..k] + [x] + s[k + 1..];
    s[..k] + s[k + 1..]
  }

  /** The `for item in beers` loop of `delete_beer` from iterator position `i`
      on. Python's list iterator reads `s[i]` while `i < len(s)` and advances
      `i` by one each step, even after the body removed an element, so the
      element after a removed one is never visited. Gives the final list and
      whether any element was removed. */
  function Sweep(s: seq<Beer>, i: nat, id: Value): (r: (seq<Beer>, bool))
    ensures r.1 ==> |r.0| < |s|
    ensures !r.1 ==> r.0 == s
    decreases |s| + 1 - i
  {
    if i >= |s| then (s, false)
    else if s[i].beerId == id then (Sweep(Remove(s, s[i]), i + 1, id).0, true)
    else Sweep(s, i + 1, id)
  }

  /** The loop removes something exactly when some element from position `i`
      on has the requested id. */
  lemma {:induction false} SweepFoundIffPresent(s: seq<Beer>, i: nat, id: Value)
    ensures Sweep(s, i, id).1 <==> exists k :: i <= k < |s| && s[k].beerId == id
    decreases |s| + 1 - i
  {
    if i < |s| && s[i].beerId != id {
      SweepFoundIffPresent(s, i + 1, id);
    }
  }

  /** The loop never adds elements: what remains is part of what was there. */
  lemma {:induction false} SweepNeverAdds(s: seq<Beer>, i: nat, id: Value)
    ensures multiset(Sweep(s, i, id).0) <= multiset(s)
    decreases |s| + 1 - i
  {
    if i < |s| {
      if s[i].beerId == id {
        var s' := Remove(s, s[i]);
        SweepNeverAdds(s', i + 1, id);
        assert multiset(s') <= multiset(s);
      } else {
        SweepNeverAdds(s, i + 1, id);
      }
    }
  }

  /** Every element the loop drops had the requested id. */
  lemma {:induction false} SweepOnlyRemovesMatches(s: seq<Beer>, i: nat, id: Value)
    ensures forall x :: x in multiset(s) - multiset(Sweep(s, i, id).0) ==> x.beerId == id
    decreases |s| + 1 - i
  {
    if i < |s| {
      if s[i].beerId == id {
        var s' := Remove(s, s[i]);
        SweepOnlyRemovesMatches(s', i + 1, id);
        var r := Sweep(s', i + 1, id).0;
        forall x | x in multiset(s) - multiset(r)
          ensures x.beerId == id
        {
          if x != s[i] {
            assert (multiset(s) - multiset(r))[x] <= (multiset(s') - multiset(r))[x];
          }
        }
      } else {
        SweepOnlyRemovesMatches(s, i + 1, id);
      }
    }
  }

  /** The length drops by exactly the number of elements removed. */
  lemma SweepLengthDrop(s: seq<Beer>, id: Value)
    ensures |Sweep(s, 0, id).0| == |s| - |multiset(s) - multiset(Sweep(s, 0, id).0)|
  {
    var r := Sweep(s, 0, id).0;
    SweepNeverAdds(s, 0, id);
    assert multiset(s) == multiset(r) + (multiset(s) - multiset(r));
  }

  /** From a position where no later element has the id, the loop changes
      nothing. */
  lemma {:induction false} SweepNoMatch(s: seq<Beer>, i: nat, id: Value)
    requires forall k :: i <= k < |s| ==> s[k].beerId != id
    ensures Sweep(s, i, id) == (s, false)
    decreases |s| + 1 - i
  {
    if i < |s| {
      SweepNoMatch(s, i + 1, id);
    }
  }

  /** With unique ids, deleting the id held at position `k` removes exactly
      that element and keeps the others in order. */
  lemma {:induction false} SweepUnique(s: seq<Beer>, k: nat, id: Value)
    requires UniqueIds(s)
    requires k < |s| && s[k].beerId == id
    ensures Sweep(s, 0, id) == (s[..k] + s[k + 1..], true)
  {
    SweepWalksTo(s, 0, k, id);
  }

  lemma {:induction false} SweepWalksTo(s: seq<Beer>, i: nat, k: nat, id: Value)
    requires UniqueIds(s)
    requires i <= k < |s| && s[k].beerId == id
    ensures Sweep(s, i, id) == (s[..k] + s[k + 1..], true)
    decreases k - i
  {
    if i < k {
      assert s[i].beerId != s[k].beerId;
      SweepWalksTo(s, i + 1, k, id);
    } else {
      RemoveUniqueAt(s, k);
      AfterRemovalNoMatch(s, k, id, s[..k] + s[k + 1..]);
      SweepNoMatch(s[..k] + s[k + 1..], k + 1, id);
    }
  }

  /** With unique ids, `remove(s[k])` removes position `k`. */
  lemma RemoveUniqueAt(s: seq<Beer>, k: nat)
    requires UniqueIds(s) && k < |s|
    ensures Remove(s, s[k]) == s[..k] + s[k + 1..]
  {
  }

  lemma AfterRemovalNoMatch(s: seq<Beer>, k: nat, id: Value, r: seq<Beer>)
    requires UniqueIds(s) && k < |s| && s[k].beerId == id
    requires r == s[..k] + s[k + 1..]
    ensures forall m :: k + 1 <= m < |r| ==> r[m].beerId != id
  {
    forall m | k + 1 <= m < |r|
      ensures r[m].beerId != id
    {
      assert r[m] == s[m + 1];
      assert s[k].beerId != s[m + 1].beerId;
    }
  }

  /** With unique ids, a second delete of an id that was present finds
      nothing. */
  lemma {:induction false} SecondDeleteFindsNothing(s: seq<Beer>, k: nat, id: Value)
    requires UniqueIds(s)
    requires k < |s| && s[k].beerId == id
    ensures !Sweep(Sweep(s, 0, id).0, 0, id).1
  {
    SweepUnique(s, k, id);
    var r := s[..k] + s[k + 1..];
    forall m | 0 <= m < |r|
      ensures r[m].beerId != id
    {
      if m < k {
        assert r[m] == s[m];
        assert s[m].beerId != s[k].beerId;
      } else {
        assert r[m] == s[m + 1];
        assert s[k].beerId != s[m + 1].beerId;
      }
    }
    SweepNoMatch(r, 0, id);
  }

  /** Two adjacent records with the requested id: the iterator skips the
      second, which survives the delete. */
  lemma SweepSkipsFollower(a: Beer, b: Beer, id: Value)
    requires a.beerId == id && b.beerId == id
    ensures Sweep([a, b], 0, id) == ([b], true)
  {
    assert Remove([a, b], a) == [b];
  }

  /** The module's state: the `beers` list and the module-level `beer` that
      `get_beer` compares against. */
  class StreamModule {
    var beers: seq<Beer>
    var beer: Beer

    /** Module import: `beers` holds the seed record, which `beer` names. */
    constructor ()
      ensures beers == [SeedBeer()] && beer == SeedBeer()
      ensures |beers| == 1 && beers[0].beerId == PyInt(2519)
    {
      beers := [SeedBeer()];
      beer := SeedBeer();
    }

    /** `get_beer`: for every element of `beers` it tests the module-level
        `beer`, not the element, against `beer_id`, and appends that record's
        dict. Only `beer_id` is read; the other arguments are accepted and
        ignored. Nothing is changed. */
    method GetBeer(abv: Value, ibu: Value, beer_id: Value, name: Value,
                   style: Value, brewery_id: Value, size: Value)
      returns (response: Response, code: int)
      ensures code == 200 <==> beer.beerId == beer_id && |beers| > 0
      ensures code == 200 ==>
        response.Listing? && |response.items| == |beers| &&
        forall k :: 0 <= k < |beers| ==> response.items[k] == ToDict(beer)
      ensures code != 200 ==> code == 400 && response == Message(NotFound)
    {
      var acc: Option<seq<Dict>> := None;
      code := 200;
      var i := 0;
      while i < |beers|
        invariant 0 <= i <= |beers|
        invariant acc.None? <==> i == 0 || beer.beerId != beer_id
        invariant acc.Some? ==>
          |acc.value| == i && forall k :: 0 <= k < i ==> acc.value[k] == ToDict(beer)
      {
        if beer.beerId == beer_id {
          if acc.None? {
            acc := Some([]);
          }
          acc := Some(acc.value + [ToDict(beer)]);
        }
        i := i + 1;
      }
      if acc.None? {
        response := Message(NotFound);
        code := 400;
      } else {
        response := Listing(acc.value);
      }
    }

    /** `delete_beer`: walk the list with an advancing index, removing each
        visited element whose id matches. */
    method DeleteBeer(beer_id: Value) returns (response: string, code: int)
      modifies this
      ensures beers == Sweep(old(beers), 0, beer_id).0
      ensures beer == old(beer)
      ensures Sweep(old(beers), 0, beer_id).1 ==> response == Deleted && code == 200
      ensures !Sweep(old(beers), 0, beer_id).1 ==> response == NotFound && code == 400
    {
      var acc: Option<string> := None;
      code := 200;
      var i := 0;
      while i < |beers|
        invariant i <= |beers| + 1
        invariant beer == old(beer)
        invariant Sweep(beers, i, beer_id).0 == Sweep(old(beers), 0, beer_id).0
        invariant (acc.Some? || Sweep(beers, i, beer_id).1) == Sweep(old(beers), 0, beer_id).1
        invariant acc.Some? ==> acc.value == Deleted
        decreases |beers| + 1 - i
      {
        var item := beers[i];
        i := i + 1;
        if item.beerId == beer_id {
          beers := Remove(beers, item);
          acc := Some(Deleted);
        }
      }
      if acc.None? {
        response := NotFound;
        code := 400;
      } else {
        response := acc.value;
      }
    }
  }
}
