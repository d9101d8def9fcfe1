/** The locations page: fetch every recording once, bucket the list by city
    (a falsy city goes to the "未知位置" bucket), and pick one of four
    displays. Buckets are kept in first-appearance order; JavaScript's own
    key-enumeration order is not modelled. */
module LocationsPage {
  import opened Records

  /** One bucket: its key and its recordings, in fetched order. */
  datatype Group = Group(key: string, items: seq<Recording>)

  const FetchErrorMessage: string := "获取地点数据失败，请重试"

  /** The bucket a recording belongs to. */
  function LocationKey(r: Recording): (key: string)
  {
    CityLabel(r.city)
  }

  /** Reference definition of a bucket: the recordings with that key, in the
      order they were fetched. */
  function OfKey(data: seq<Recording>, key: string): (r: seq<Recording>)
    ensures forall x :: x in r <==> x in data && LocationKey(x) == key
    ensures |r| <= |data|
    decreases |data|
  {
    if data == [] then []
    else
      var last := data[|data| - 1];
      OfKey(data[..|data| - 1], key) + (if LocationKey(last) == key then [last] else [])
  }

  predicate DistinctKeys(groups: seq<Group>)
  {
    forall i, j :: 0 <= i < j < |groups| ==> groups[i].key != groups[j].key
  }

  function TotalSize(groups: seq<Group>): (n: nat)
    decreases |groups|
  {
    if groups == [] then 0
    else TotalSize(groups[..|groups| - 1]) + |groups[|groups| - 1].items|
  }

  /** Growing one bucket by one grows the total by one. */
  lemma {:induction false} TotalSizeGrow(groups: seq<Group>, i: nat, g: Group)
    requires i < |groups| && |g.items| == |groups[i].items| + 1
    ensures TotalSize(groups[i := g]) == TotalSize(groups) + 1
    decreases |groups|
  {
    var n := |groups| - 1;
    var u := groups[i := g];
    assert u[..n] == if i == n then groups[..n] else groups[..n][i := g];
    if i < n {
      TotalSizeGrow(groups[..n], i, g);
    }
  }

  /** Where the `locationGroups[locationKey]` lookup finds its bucket;
      `|groups|` when the key has none yet. */
  function FindKey(groups: seq<Group>, key: string): (i: nat)
    ensures i <= |groups|
    ensures i < |groups| ==> groups[i].key == key
    ensures forall j :: 0 <= j < i ==> groups[j].key != key
  {
    if groups == [] then 0
    else if groups[0].key == key then 0
    else 1 + FindKey(groups[1..], key)
  }

  /** One pass of the `forEach` body: append to the record's bucket, opening
      the bucket at the end when its key is new. */
  function AddToGroups(groups: seq<Group>, rec: Recording): (r: seq<Group>)
    requires DistinctKeys(groups)
    ensures |groups| <= |r| <= |groups| + 1
    ensures DistinctKeys(r)
    ensures TotalSize(r) == TotalSize(groups) + 1
    ensures forall j :: 0 <= j < |groups| ==>
      && r[j].key == groups[j].key
      && r[j].items == groups[j].items + (if groups[j].key == LocationKey(rec) then [rec] else [])
    ensures |r| == |groups| + 1 <==> forall j :: 0 <= j < |groups| ==> groups[j].key != LocationKey(rec)
    ensures |r| == |groups| + 1 ==> r[|groups|] == Group(LocationKey(rec), [rec])
  {
    var key := LocationKey(rec);
    var i := FindKey(groups, key);
    if i < |groups| then
      var g := groups[i].(items := groups[i].items + [rec]);
      TotalSizeGrow(groups, i, g);
      groups[i := g]
    else
      var r := groups + [Group(key, [rec])];
      assert r[..|groups|] == groups;
      r
  }

  /** The grouping loop in `fetchRecordings`, one recording after another. */
  function GroupByLocation(data: seq<Recording>): (groups: seq<Group>)
    ensures DistinctKeys(groups)
    ensures TotalSize(groups) == |data|
    decreases |data|
  {
    if data == [] then []
    else AddToGroups(GroupByLocation(data[..|data| - 1]), data[|data| - 1])
  }

  /** The groups form a partition of `data` by key: each bucket is exactly
      the key's recordings in fetched order, no bucket is empty, and every
      recording's key has a bucket. */
  ghost predicate IsPartition(groups: seq<Group>, data: seq<Recording>)
  {
    DistinctKeys(groups) && BucketsMatch(groups, data) && Covers(groups, data)
  }

  /** Each bucket is exactly its key's recordings in fetched order, and is
      not empty. */
  ghost predicate BucketsMatch(groups: seq<Group>, data: seq<Recording>)
  {
    forall j :: 0 <= j < |groups| ==> groups[j].items == OfKey(data, groups[j].key) && groups[j].items != []
  }

  /** Every recording's key has a bucket. */
  ghost predicate Covers(groups: seq<Group>, data: seq<Recording>)
  {
    forall p :: 0 <= p < |data| ==> exists j :: 0 <= j < |groups| && groups[j].key == LocationKey(data[p])
  }

  /** Appending a recording extends its key's bucket and no other. */
  lemma OfKeySnoc(init: seq<Recording>, last: Recording, key: string)
    ensures OfKey(init + [last], key) == OfKey(init, key) + (if LocationKey(last) == key then [last] else [])
  {
    assert (init + [last])[..|init|] == init;
  }

  lemma OfKeyAbsent(data: seq<Recording>, key: string)
    requires forall p :: 0 <= p < |data| ==> LocationKey(data[p]) != key
    ensures OfKey(data, key) == []
  {
  }

  /** One step of the loop keeps every key covered. */
  lemma AddKeepsCoverage(g: seq<Group>, init: seq<Recording>, last: Recording)
    requires DistinctKeys(g) && Covers(g, init)
    ensures Covers(AddToGroups(g, last), init + [last])
  {
    var data := init + [last];
    var r := AddToGroups(g, last);
    var key := LocationKey(last);
    forall p | 0 <= p < |data|
      ensures exists j :: 0 <= j < |r| && r[j].key == LocationKey(data[p])
    {
      if p < |init| {
        assert data[p] == init[p];
        var j :| 0 <= j < |g| && g[j].key == LocationKey(init[p]);
        assert r[j].key == g[j].key;
      } else if |r| == |g| {
        var j :| 0 <= j < |g| && g[j].key == key;
        assert r[j].key == g[j].key;
      } else {
        assert r[|g|].key == key;
      }
    }
  }

  /** One step of the loop keeps every bucket equal to its reference. */
  lemma AddKeepsBuckets(g: seq<Group>, init: seq<Recording>, last: Recording)
    requires IsPartition(g, init)
    ensures BucketsMatch(AddToGroups(g, last), init + [last])
  {
    var data := init + [last];
    var r := AddToGroups(g, last);
    var key := LocationKey(last);
    forall j | 0 <= j < |r| ensures r[j].items == OfKey(data, r[j].key) && r[j].items != [] {
      OfKeySnoc(init, last, r[j].key);
      if j >= |g| {
        assert r[j] == Group(key, [last]);
        forall p | 0 <= p < |init| ensures LocationKey(init[p]) != key {
          var i :| 0 <= i < |g| && g[i].key == LocationKey(init[p]);
        }
        OfKeyAbsent(init, key);
      }
    }
  }

  /** One step of the loop turns a partition of a prefix into a partition
      of the prefix extended by one recording. */
  lemma AddKeepsPartition(g: seq<Group>, init: seq<Recording>, last: Recording)
    requires IsPartition(g, init)
    ensures IsPartition(AddToGroups(g, last), init + [last])
  {
    AddKeepsCoverage(g, init, last);
    AddKeepsBuckets(g, init, last);
  }

  lemma {:induction false} GroupingIsPartition(data: seq<Recording>)
    ensures IsPartition(GroupByLocation(data), data)
    decreases |data|
  {
    if data != [] {
      var init, last := data[..|data| - 1], data[|data| - 1];
      assert data == init + [last];
      GroupingIsPartition(init);
      AddKeepsPartition(GroupByLocation(init), init, last);
      assert GroupByLocation(data) == AddToGroups(GroupByLocation(init), last);
    }
  }

  /** In a partition a recording lies in exactly one bucket: the one with
      its key. */
  lemma PartitionPlacesOnce(groups: seq<Group>, data: seq<Recording>, p: nat)
    requires IsPartition(groups, data) && p < |data|
    ensures exists j :: 0 <= j < |groups| && data[p] in groups[j].items
    ensures forall j :: 0 <= j < |groups| && data[p] in groups[j].items ==>
      groups[j].key == LocationKey(data[p])
    ensures forall i, j ::
      (0 <= i < |groups| && 0 <= j < |groups| &&
       data[p] in groups[i].items && data[p] in groups[j].items) ==> i == j
  {
    var x := data[p];
    var j :| 0 <= j < |groups| && groups[j].key == LocationKey(x);
    assert x in OfKey(data, groups[j].key);
    forall i | 0 <= i < |groups| && x in groups[i].items
      ensures groups[i].key == LocationKey(x)
    {
      assert x in OfKey(data, groups[i].key);
    }
  }

  /** No recordings, no buckets; some recordings, some buckets. */
  lemma EmptyIffNoGroups(data: seq<Recording>)
    ensures GroupByLocation(data) == [] <==> data == []
  {
  }

  datatype LocationsState = LocationsState(
    recordings: seq<Recording>,
    isLoading: bool,
    error: Option<string>,
    locations: seq<Group>)

  /** State on mount: loading, no error, nothing fetched. */
  const Initial: LocationsState := LocationsState([], true, None, [])

  /** `setIsLoading(true)` before the request. */
  function BeginFetch(s: LocationsState): (r: LocationsState)
    ensures r.isLoading
    ensures r.recordings == s.recordings && r.error == s.error && r.locations == s.locations
  {
    s.(isLoading := true)
  }

  /** The request settles: on success store the list, its buckets and clear
      the error; on failure set the fixed message and keep the rest; in both
      cases loading ends. */
  function Settle(s: LocationsState, outcome: Fetch): (r: LocationsState)
    ensures !r.isLoading
    ensures outcome.Fetched? ==>
      && r.recordings == outcome.data
      && IsPartition(r.locations, outcome.data)
      && r.error == None
    ensures outcome.FetchFailed? ==>
      r == s.(isLoading := false, error := Some(FetchErrorMessage))
  {
    match outcome
    case Fetched(data) =>
      GroupingIsPartition(data);
      LocationsState(data, false, None, GroupByLocation(data))
    case FetchFailed =>
      s.(isLoading := false, error := Some(FetchErrorMessage))
  }

  datatype LocationsView = Spinner | ErrorBox(message: string) | NoLocations | GroupCards(groups: seq<Group>)

  /** The render branch: loading, then a truthy error, then no buckets, then
      the bucket cards. */
  function SelectView(s: LocationsState): (v: LocationsView)
    ensures v == Spinner <==> s.isLoading
    ensures v.ErrorBox? <==> !s.isLoading && StringTruthy(s.error)
    ensures v.ErrorBox? ==> v.message == s.error.value
    ensures v == NoLocations <==> !s.isLoading && !StringTruthy(s.error) && s.locations == []
    ensures v.GroupCards? ==> v.groups == s.locations && v.groups != []
  {
    if s.isLoading then Spinner
    else if StringTruthy(s.error) then ErrorBox(s.error.value)
    else if |s.locations| == 0 then NoLocations
    else GroupCards(s.locations)
  }

  /** What the page shows once its one request has settled. */
  function AfterMount(outcome: Fetch): (v: LocationsView)
  {
    SelectView(Settle(BeginFetch(Initial), outcome))
  }

  /** The page shows a spinner until the request settles; then an empty
      list shows the empty state, a non-empty one its buckets, and a failure
      the fixed message. */
  lemma MountLifecycle(outcome: Fetch)
    ensures SelectView(Initial) == Spinner
    ensures outcome == Fetched([]) ==> AfterMount(outcome) == NoLocations
    ensures outcome.Fetched? && outcome.data != [] ==>
      AfterMount(outcome) == GroupCards(GroupByLocation(outcome.data))
    ensures outcome.FetchFailed? ==> AfterMount(outcome) == ErrorBox(FetchErrorMessage)
  {
    if outcome.Fetched? {
      EmptyIffNoGroups(outcome.data);
      assert Settle(BeginFetch(Initial), outcome).locations == GroupByLocation(outcome.data);
    }
  }

  // ---------------------------------------------------------------------
  // The grouping loop as written indexes a plain object literal. A key that
  // names a member inherited from `Object.prototype` reads as truthy before
  // the record's own bucket exists, so no array is created and the `push`
  // that follows throws a TypeError, which the page reports as a failed
  // fetch.

  /** Member names every plain object inherits. */
  const InheritedNames: set<string> := {
    "constructor", "__proto__", "hasOwnProperty", "isPrototypeOf",
    "propertyIsEnumerable", "toLocaleString", "toString", "valueOf",
    "__defineGetter__", "__defineSetter__", "__lookupGetter__", "__lookupSetter__"}

  /** One `forEach` step with the object's lookup semantics; `None` is the
      thrown TypeError. */
  function AddAsWritten(groups: seq<Group>, rec: Recording): (r: Option<seq<Group>>)
    requires DistinctKeys(groups)
    ensures r.None? <==>
      && (forall j :: 0 <= j < |groups| ==> groups[j].key != LocationKey(rec))
      && LocationKey(rec) in InheritedNames
    ensures r.Some? ==> r.value == AddToGroups(groups, rec)
  {
    var key := LocationKey(rec);
    if exists j :: 0 <= j < |groups| && groups[j].key == key then Some(AddToGroups(groups, rec))
    else if key in InheritedNames then None
    else Some(AddToGroups(groups, rec))
  }

  /** The grouping loop as written; `None` is the thrown TypeError. When it
      does not throw, it builds the corrected buckets. */
  function GroupAsWritten(data: seq<Recording>): (r: Option<seq<Group>>)
    ensures r.Some? ==> DistinctKeys(r.value)
    ensures r.Some? ==> r.value == GroupByLocation(data)
    decreases |data|
  {
    if data == [] then Some([])
    else
      match GroupAsWritten(data[..|data| - 1])
      case None => None
      case Some(groups) => AddAsWritten(groups, data[|data| - 1])
  }

  /** The settle step as written: an exception thrown while grouping lands in
      the same `catch` as a failed request, after the list was stored. */
  function SettleAsWritten(s: LocationsState, outcome: Fetch): (r: LocationsState)
    ensures !r.isLoading
    ensures outcome.FetchFailed? ==> r == Settle(s, outcome)
    ensures outcome.Fetched? && GroupAsWritten(outcome.data).Some? ==> r == Settle(s, outcome)
    ensures outcome.Fetched? && GroupAsWritten(outcome.data).None? ==>
      r == s.(recordings := outcome.data, isLoading := false, error := Some(FetchErrorMessage))
  {
    match outcome
    case Fetched(data) =>
      (match GroupAsWritten(data)
       case Some(groups) => LocationsState(data, false, None, groups)
       case None => s.(recordings := data, isLoading := false, error := Some(FetchErrorMessage)))
    case FetchFailed =>
      s.(isLoading := false, error := Some(FetchErrorMessage))
  }

  /** A single recording whose city is "toString" makes the page as written
      show the fetch-failure message, while the intended grouping files it
      under its own key. */
  lemma InheritedKeyCounterexample(rec: Recording)
    requires rec.city == Some("toString")
    ensures SelectView(SettleAsWritten(BeginFetch(Initial), Fetched([rec]))) == ErrorBox(FetchErrorMessage)
    ensures AfterMount(Fetched([rec])) == GroupCards([Group("toString", [rec])])
  {
    assert [rec][..0] == [];
    assert LocationKey(rec) == "toString";
    assert "toString" in InheritedNames;
    assert GroupAsWritten([rec]) == None;
    assert GroupByLocation([rec]) == [Group("toString", [rec])];
  }

  /** Every bucket's key is the key of some fetched recording: its first
      item's. */
  lemma BucketKeyOccurs(data: seq<Recording>, j: nat) returns (p: nat)
    requires j < |GroupByLocation(data)|
    ensures p < |data| && LocationKey(data[p]) == GroupByLocation(data)[j].key
  {
    var g := GroupByLocation(data);
    GroupingIsPartition(data);
    var x := g[j].items[0];
    assert x in OfKey(data, g[j].key);
    p :| 0 <= p < |data| && data[p] == x;
  }

  /** A key has no bucket exactly when no fetched recording has that key. */
  lemma NoBucketIffAbsent(data: seq<Recording>, key: string)
    ensures var g := GroupByLocation(data);
      (forall j :: 0 <= j < |g| ==> g[j].key != key) <==>
      (forall p :: 0 <= p < |data| ==> LocationKey(data[p]) != key)
  {
    var g := GroupByLocation(data);
    if forall p :: 0 <= p < |data| ==> LocationKey(data[p]) != key {
      forall j | 0 <= j < |g| ensures g[j].key != key {
        var p := BucketKeyOccurs(data, j);
      }
    } else {
      var p :| 0 <= p < |data| && LocationKey(data[p]) == key;
      GroupingIsPartition(data);
      var j :| 0 <= j < |g| && g[j].key == LocationKey(data[p]);
    }
  }

  /** One step of the loop as written: a throw stays a throw, and after a
      clean prefix the step throws exactly when the new key is an inherited
      name that no earlier recording had. */
  lemma AsWrittenStep(init: seq<Recording>, last: Recording)
    ensures var r := GroupAsWritten(init + [last]);
      && (GroupAsWritten(init).None? ==> r.None?)
      && (GroupAsWritten(init).Some? ==>
            (r.None? <==>
               && (forall p :: 0 <= p < |init| ==> LocationKey(init[p]) != LocationKey(last))
               && LocationKey(last) in InheritedNames))
  {
    var data := init + [last];
    assert data[..|data| - 1] == init;
    assert data[|data| - 1] == last;
    if GroupAsWritten(init).Some? {
      assert GroupAsWritten(data) == AddAsWritten(GroupByLocation(init), last);
      NoBucketIffAbsent(init, LocationKey(last));
    }
  }

  /** The loop as written throws exactly when some fetched recording's key is
      an inherited member name: the first such recording finds no bucket of
      its own, since every earlier key was an ordinary one. */
  lemma {:induction false} ThrowsIffInherited(data: seq<Recording>)
    ensures GroupAsWritten(data).None? <==>
      exists p :: 0 <= p < |data| && LocationKey(data[p]) in InheritedNames
    decreases |data|
  {
    if data != [] {
      var init, last := data[..|data| - 1], data[|data| - 1];
      assert data == init + [last];
      ThrowsIffInherited(init);
      AsWrittenStep(init, last);
      if exists p :: 0 <= p < |data| && LocationKey(data[p]) in InheritedNames {
        var p :| 0 <= p < |data| && LocationKey(data[p]) in InheritedNames;
        if p < |init| {
          assert init[p] == data[p];
        } else if GroupAsWritten(init).Some? {
          forall q | 0 <= q < |init| ensures LocationKey(init[q]) != LocationKey(last) {
            assert init[q] == data[q];
          }
        }
      } else {
        assert LocationKey(data[|init|]) !in InheritedNames;
        forall q | 0 <= q < |init| ensures LocationKey(init[q]) !in InheritedNames {
          assert init[q] == data[q];
        }
      }
    }
  }

  /** When no key is an inherited member name, the page as written and the
      corrected grouping agree. */
  lemma {:induction false} AsWrittenAgrees(data: seq<Recording>)
    requires forall p :: 0 <= p < |data| ==> LocationKey(data[p]) !in InheritedNames
    ensures GroupAsWritten(data) == Some(GroupByLocation(data))
    decreases |data|
  {
    if data != [] {
      var init := data[..|data| - 1];
      assert forall p :: 0 <= p < |init| ==> init[p] == data[p];
      AsWrittenAgrees(init);
    }
  }
}
