/**
 * The fixed catalogue of emergency calls and the choice of the next call
 * (app/page.tsx, `allCalls` and `startNextCall`).
 */
module Calls {
  import opened Options

  /** The four answers a player can give to a call. */
  datatype Dispatch = Police | Fire | Ems | Prank

  /** One recorded call: its id, its audio clip and the answer it expects. */
  datatype CallScenario = CallScenario(id: int, audioFile: string, correctDispatch: Dispatch)

  /** The catalogue, in the source's order. */
  const AllCalls: seq<CallScenario> := [
    CallScenario(1, "police-call-1.mp3", Police),
    CallScenario(2, "police-call-2.mp3", Police),
    CallScenario(3, "fire-call-1.mp3", Fire),
    CallScenario(4, "fire-call-2.mp3", Fire),
    CallScenario(5, "ems-call-1.mp3", Ems),
    CallScenario(6, "ems-call-2.mp3", Ems),
    CallScenario(7, "prank-call-1.mp3", Prank),
    CallScenario(8, "prank-call-2.mp3", Prank)
  ]

  /** `c` is one of the catalogue's calls. */
  predicate InCatalogue(c: CallScenario) {
    exists i :: 0 <= i < |AllCalls| && AllCalls[i] == c
  }

  /** No two calls of `calls` share an id. */
  predicate UniqueIds(calls: seq<CallScenario>) {
    forall i, j :: 0 <= i < j < |calls| ==> calls[i].id != calls[j].id
  }

  /** Whether `c` survives the filter `call.id !== current?.id`; with no current call every id survives. */
  predicate Keeps(excluded: Option<int>, c: CallScenario) {
    excluded.None? || c.id != excluded.value
  }

  /** `calls.filter(call => call.id !== excluded)`: keeps, in order, exactly the calls whose id differs. */
  function Filter(calls: seq<CallScenario>, excluded: Option<int>): (r: seq<CallScenario>)
    ensures |r| <= |calls|
    ensures forall c :: c in r <==> c in calls && Keeps(excluded, c)
  {
    if calls == [] then []
    else if Keeps(excluded, calls[0]) then [calls[0]] + Filter(calls[1..], excluded)
    else Filter(calls[1..], excluded)
  }

  /** With nothing excluded the filter is the identity. */
  lemma {:induction false} FilterNothing(calls: seq<CallScenario>)
    ensures Filter(calls, None) == calls
  {
    if calls != [] {
      FilterNothing(calls[1..]);
    }
  }

  /** Excluding the id of the member at `k` of a list with unique ids removes exactly that member. */
  lemma {:induction false} FilterRemovesAt(calls: seq<CallScenario>, k: int)
    requires UniqueIds(calls)
    requires 0 <= k < |calls|
    ensures Filter(calls, Some(calls[k].id)) == calls[..k] + calls[k + 1..]
  {
    if k == 0 {
      FilterRemovesFirst(calls);
    } else {
      var tail := calls[1..];
      UniqueTail(calls);
      FilterRemovesAt(tail, k - 1);
      assert tail[k - 1] == calls[k];
      assert Keeps(Some(calls[k].id), calls[0]);
      SplitAround(calls, k);
    }
  }

  /** Excluding the first call's id from a list with unique ids removes just that call. */
  lemma FilterRemovesFirst(calls: seq<CallScenario>)
    requires UniqueIds(calls) && calls != []
    ensures Filter(calls, Some(calls[0].id)) == calls[1..]
  {
    var id := calls[0].id;
    forall c | c in calls[1..] ensures Keeps(Some(id), c) {
      var j :| 0 <= j < |calls[1..]| && calls[1..][j] == c;
      assert calls[j + 1] == c;
    }
    FilterKeepsAll(calls[1..], Some(id));
  }

  /** Cutting out index `k > 0` is keeping the head and cutting out index `k - 1` of the tail. */
  lemma SplitAround(calls: seq<CallScenario>, k: int)
    requires 0 < k < |calls|
    ensures calls[..k] + calls[k + 1..] == [calls[0]] + (calls[1..][..k - 1] + calls[1..][k..])
  {
    assert calls[..k] == [calls[0]] + calls[1..][..k - 1];
    assert calls[k + 1..] == calls[1..][k..];
  }

  /** Unique ids stay unique when the first call is dropped. */
  lemma UniqueTail(calls: seq<CallScenario>)
    requires UniqueIds(calls) && calls != []
    ensures UniqueIds(calls[1..])
  {
    forall i, j | 0 <= i < j < |calls[1..]| ensures calls[1..][i].id != calls[1..][j].id {
      assert calls[1..][i] == calls[i + 1] && calls[1..][j] == calls[j + 1];
    }
  }

  /** A filter that every element passes keeps the whole list. */
  lemma {:induction false} FilterKeepsAll(calls: seq<CallScenario>, excluded: Option<int>)
    requires forall c :: c in calls ==> Keeps(excluded, c)
    ensures Filter(calls, excluded) == calls
  {
    if calls != [] {
      assert calls[0] in calls;
      forall c | c in calls[1..] ensures Keeps(excluded, c) {
        var j :| 0 <= j < |calls[1..]| && calls[1..][j] == c;
        assert calls[j + 1] == c;
      }
      FilterKeepsAll(calls[1..], excluded);
    }
  }

  /** The catalogue's ids 1..8 are distinct. */
  lemma CatalogueIdsUnique()
    ensures UniqueIds(AllCalls)
    ensures forall i :: 0 <= i < |AllCalls| ==> AllCalls[i].id == i + 1
  {
  }

  /** The id that `filter` by the current call excludes: none when there is no current call. */
  function ExcludedId(current: Option<CallScenario>): Option<int> {
    if current.None? then None else Some(current.value.id)
  }

  /**
   * `availableCalls` of `startNextCall`. The catalogue's ids are 1..8 in order, so the call with
   * id `k` sits at index `k - 1` and the filter by the current call's id cuts out that one entry;
   * AvailableIsFilter proves this equal to the filter itself.
   */
  function Available(current: Option<CallScenario>): (r: seq<CallScenario>)
    ensures forall c :: c in r <==> InCatalogue(c) && (current.None? || c.id != current.value.id)
    ensures current.None? ==> r == AllCalls
    ensures current.Some? && InCatalogue(current.value) ==> |r| == |AllCalls| - 1
    ensures |r| >= |AllCalls| - 1
  {
    AvailableIsFilter(current);
    FilterMembers(current);
    CatalogueIdsUnique();
    if current.Some? && 1 <= current.value.id <= |AllCalls| then
      AllCalls[..current.value.id - 1] + AllCalls[current.value.id..]
    else AllCalls
  }

  /** The filter by the current call keeps exactly the catalogue calls with another id. */
  lemma FilterMembers(current: Option<CallScenario>)
    ensures forall c :: c in Filter(AllCalls, ExcludedId(current)) <==>
      InCatalogue(c) && (current.None? || c.id != current.value.id)
  {
    forall c ensures c in AllCalls <==> InCatalogue(c) {
      if c in AllCalls {
        var i :| 0 <= i < |AllCalls| && AllCalls[i] == c;
      }
    }
  }

  /** The cut of Available is exactly `allCalls.filter(call => call.id !== currentCall?.id)`. */
  lemma AvailableIsFilter(current: Option<CallScenario>)
    ensures Filter(AllCalls, ExcludedId(current)) ==
      if current.Some? && 1 <= current.value.id <= |AllCalls| then
        AllCalls[..current.value.id - 1] + AllCalls[current.value.id..]
      else AllCalls
  {
    CatalogueIdsUnique();
    if current.None? {
      FilterNothing(AllCalls);
    } else if 1 <= current.value.id <= |AllCalls| {
      var k := current.value.id - 1;
      assert AllCalls[k].id == current.value.id;
      FilterRemovesAt(AllCalls, k);
    } else {
      forall c | c in AllCalls ensures Keeps(ExcludedId(current), c) {
        var j :| 0 <= j < |AllCalls| && AllCalls[j] == c;
      }
      FilterKeepsAll(AllCalls, ExcludedId(current));
    }
  }

  /**
   * `availableCalls[Math.floor(Math.random() * availableCalls.length)]`, with the random draw
   * given as the index `pick`: a catalogue call other than the current one.
   */
  function PickNext(current: Option<CallScenario>, pick: nat): (r: CallScenario)
    requires pick < |Available(current)|
    ensures InCatalogue(r)
    ensures current.Some? ==> r.id != current.value.id
  {
    Available(current)[pick]
  }
}
