/** The backend's in-memory recording store and its four route handlers
    (create, list, get, delete). The module-level dictionary is modelled as a
    map together with the order in which keys were first inserted, because
    listing returns the dictionary's values in insertion order. The id
    generator, the two clock readings, the speech-to-text service and the
    reverse geocoder are parameters. */
module RecordingStore {
  import opened Records

  /** The body of a create request: base64 audio plus optional metadata. */
  datatype CreateRequest = CreateRequest(
    audioData: string,
    timestamp: Option<Timestamp>,
    latitude: Option<real>,
    longitude: Option<real>,
    city: Option<string>)

  /** An HTTP error raised by a handler. */
  datatype HttpError = HttpError(status: int, detail: string)

  datatype Response<T> = Ok(value: T) | Err(error: HttpError)

  const NotFound: HttpError := HttpError(404, "Recording not found")
  const DeletedMessage: string := "Recording deleted successfully"

  /** The dictionary and its key insertion order. */
  datatype Store = Store(order: seq<string>, db: map<string, Recording>)

  const Empty: Store := Store([], map[])

  predicate Distinct(xs: seq<string>)
  {
    forall i, j :: 0 <= i < j < |xs| ==> xs[i] != xs[j]
  }

  /** The order lists every key exactly once, and every record is filed under
      its own id. */
  ghost predicate Valid(s: Store)
  {
    && Distinct(s.order)
    && (forall k :: k in s.order <==> k in s.db)
    && (forall k :: k in s.db ==> s.db[k].id == k)
  }

  /** The module-level dictionary starts empty, which is a valid store. */
  lemma EmptyValid()
    ensures Valid(Empty) && List(Empty) == []
  {
  }

  /** A sequence without repeats is exactly as long as the set of its
      elements. */
  lemma {:induction false} DistinctCard(xs: seq<string>)
    requires Distinct(xs)
    ensures |set k | k in xs| == |xs|
  {
    if xs != [] {
      var rest := xs[1..];
      assert Distinct(rest) by {
        forall i, j | 0 <= i < j < |rest| ensures rest[i] != rest[j] {
          assert rest[i] == xs[i + 1] && rest[j] == xs[j + 1];
        }
      }
      DistinctCard(rest);
      assert xs[0] !in rest by {
        forall i | 0 <= i < |rest| ensures rest[i] != xs[0] {
          assert rest[i] == xs[i + 1];
        }
      }
      assert (set k | k in xs) == (set k | k in rest) + {xs[0]} by {
        forall k ensures k in xs <==> k in rest || k == xs[0] {
          if k in xs {
            var i :| 0 <= i < |xs| && xs[i] == k;
            if i > 0 { assert rest[i - 1] == k; }
          }
          if k in rest {
            var i :| 0 <= i < |rest| && rest[i] == k;
            assert xs[i + 1] == k;
          }
        }
      }
    }
  }

  /** The number of keys in a valid store equals the length of its order. */
  lemma OrderLength(s: Store)
    requires Valid(s)
    ensures |s.db| == |s.order|
  {
    DistinctCard(s.order);
    assert s.db.Keys == set k | k in s.order;
  }

  /** `create_recording`: assign `freshId`, default the timestamp to `now`,
      transcribe the audio, geocode only when both coordinates are truthy,
      prefer a truthy geocoded city over the client's, stamp `createdAt`, and
      store the record under its id. Returns the new store and the record. */
  function Create(
    s: Store,
    req: CreateRequest,
    freshId: string,
    now: Timestamp,
    createdAt: Timestamp,
    transcribe: string -> string,
    geocode: (real, real) -> Option<string>): (r: (Store, Recording))
    requires Valid(s)
    ensures Valid(r.0)
    ensures r.1.id == freshId && r.1.createdAt == createdAt
    ensures r.1.text == transcribe(req.audioData)
    ensures r.1.latitude == req.latitude && r.1.longitude == req.longitude
    ensures req.timestamp.Some? ==> r.1.timestamp == req.timestamp.value
    ensures req.timestamp.None? ==> r.1.timestamp == now
    ensures !HasCoordinates(req.latitude, req.longitude) ==> r.1.city == req.city
    ensures HasCoordinates(req.latitude, req.longitude) ==>
      var found := geocode(req.latitude.value, req.longitude.value);
      r.1.city == if StringTruthy(found) then found else req.city
    ensures r.0.db == s.db[freshId := r.1]
    ensures freshId in s.db ==> r.0.order == s.order
    ensures freshId !in s.db ==> r.0.order == s.order + [freshId]
  {
    var stamp := if req.timestamp.Some? then req.timestamp.value else now;
    var text := transcribe(req.audioData);
    var found :=
      if HasCoordinates(req.latitude, req.longitude)
      then geocode(req.latitude.value, req.longitude.value)
      else None;
    var city := if StringTruthy(found) then found else req.city;
    var rec := Recording(freshId, text, stamp, req.latitude, req.longitude, city, createdAt);
    var order := if freshId in s.db then s.order else s.order + [freshId];
    var s' := Store(order, s.db[freshId := rec]);
    assert Distinct(order) by {
      if freshId !in s.db {
        assert freshId !in s.order;
      }
    }
    (s', rec)
  }

  /** `list_recordings`: every stored record, in key insertion order. */
  function List(s: Store): (r: seq<Recording>)
    requires Valid(s)
    ensures |r| == |s.order| == |s.db|
    ensures forall i :: 0 <= i < |r| ==> s.order[i] in s.db && r[i] == s.db[s.order[i]]
    ensures forall x :: x in r <==> x in s.db.Values
  {
    OrderLength(s);
    var r := seq(|s.order|, i requires 0 <= i < |s.order| => s.db[s.order[i]]);
    assert forall x :: x in s.db.Values ==> x in r by {
      forall x | x in s.db.Values ensures x in r {
        var k :| k in s.db && s.db[k] == x;
        var i :| 0 <= i < |s.order| && s.order[i] == k;
        assert r[i] == x;
      }
    }
    r
  }

  /** `get_recording`: the stored record, or 404 when the id is missing. */
  function Get(s: Store, id: string): (r: Response<Recording>)
    ensures id in s.db ==> r == Ok(s.db[id])
    ensures id !in s.db ==> r == Err(NotFound)
  {
    if id !in s.db then Err(NotFound) else Ok(s.db[id])
  }

  /** The order with `id` removed. */
  function Without(xs: seq<string>, id: string): (r: seq<string>)
    ensures forall k :: k in r <==> k in xs && k != id
    ensures Distinct(xs) ==> Distinct(r)
  {
    if xs == [] then []
    else if xs[0] == id then Without(xs[1..], id)
    else
      var tail := Without(xs[1..], id);
      assert Distinct(xs) ==> xs[0] !in xs[1..];
      [xs[0]] + tail
  }

  /** `delete_recording`: remove the key and answer with the fixed message,
      or answer 404 and leave the store unchanged. */
  function Delete(s: Store, id: string): (r: (Store, Response<string>))
    requires Valid(s)
    ensures Valid(r.0)
    ensures id !in s.db ==> r.0 == s && r.1 == Err(NotFound)
    ensures id in s.db ==> r.0.db == s.db - {id} && r.1 == Ok(DeletedMessage)
    ensures id in s.db ==> r.0.order == Without(s.order, id)
  {
    if id !in s.db then (s, Err(NotFound))
    else (Store(Without(s.order, id), s.db - {id}), Ok(DeletedMessage))
  }

  /** Creating under an id that is not yet stored adds exactly one entry:
      the store grows by one and every other entry keeps its value. */
  lemma CreateFresh(
    s: Store, req: CreateRequest, freshId: string, now: Timestamp, createdAt: Timestamp,
    transcribe: string -> string, geocode: (real, real) -> Option<string>)
    requires Valid(s) && freshId !in s.db
    ensures var s' := Create(s, req, freshId, now, createdAt, transcribe, geocode).0;
      && |s'.db| == |s.db| + 1
      && s'.db.Keys == s.db.Keys + {freshId}
      && (forall k :: k in s.db ==> s'.db[k] == s.db[k])
  {
    var s' := Create(s, req, freshId, now, createdAt, transcribe, geocode).0;
    assert s'.db.Keys == s.db.Keys + {freshId};
  }

  /** A fresh record is listed last, after the records listed before. */
  lemma ListAfterCreate(
    s: Store, req: CreateRequest, freshId: string, now: Timestamp, createdAt: Timestamp,
    transcribe: string -> string, geocode: (real, real) -> Option<string>)
    requires Valid(s) && freshId !in s.db
    ensures var r := Create(s, req, freshId, now, createdAt, transcribe, geocode);
      List(r.0) == List(s) + [r.1]
  {
    var r := Create(s, req, freshId, now, createdAt, transcribe, geocode);
    var s', rec := r.0, r.1;
    var a, b := List(s), List(s');
    assert |b| == |a| + 1;
    forall i | 0 <= i < |b| ensures b[i] == (a + [rec])[i] {
      if i < |a| {
        assert s'.order[i] == s.order[i];
        assert s.order[i] != freshId;
      }
    }
  }

  /** A geocoder is only consulted when both coordinates are truthy: without
      them, the outcome of create does not depend on which geocoder is used. */
  lemma GeocoderNotConsulted(
    s: Store, req: CreateRequest, freshId: string, now: Timestamp, createdAt: Timestamp,
    transcribe: string -> string, g1: (real, real) -> Option<string>, g2: (real, real) -> Option<string>)
    requires Valid(s)
    requires !HasCoordinates(req.latitude, req.longitude)
    ensures Create(s, req, freshId, now, createdAt, transcribe, g1)
         == Create(s, req, freshId, now, createdAt, transcribe, g2)
  {
  }

  /** Reading back right after a create returns the created record. */
  lemma GetAfterCreate(
    s: Store, req: CreateRequest, freshId: string, now: Timestamp, createdAt: Timestamp,
    transcribe: string -> string, geocode: (real, real) -> Option<string>)
    requires Valid(s)
    ensures var (s', rec) := Create(s, req, freshId, now, createdAt, transcribe, geocode);
      Get(s', freshId) == Ok(rec) && rec.id == freshId
  {
  }

  /** Deleting a stored id removes exactly that record: the list shrinks by
      one, keeps every other record, and a following get answers 404. */
  lemma DeleteThenGet(s: Store, id: string)
    requires Valid(s) && id in s.db
    ensures var s' := Delete(s, id).0;
      && Get(s', id) == Err(NotFound)
      && |List(s')| == |List(s)| - 1
      && (forall k :: k in s.db && k != id ==> Get(s', k) == Get(s, k))
      && (forall x :: x in List(s') <==> x in List(s) && x.id != id)
  {
    var s' := Delete(s, id).0;
    assert s'.db.Keys == s.db.Keys - {id};
    forall x ensures x in List(s') <==> x in List(s) && x.id != id {
      if x in s'.db.Values {
        var k :| k in s'.db && s'.db[k] == x;
        assert x in s.db.Values && x.id == k;
      }
      if x in s.db.Values && x.id != id {
        var k :| k in s.db && s.db[k] == x;
        assert k != id;
        assert s'.db[k] == x;
      }
    }
  }

  /** Every stored record is listed under the id it was created with. */
  lemma ListedIdsAreKeys(s: Store)
    requires Valid(s)
    ensures forall x :: x in List(s) ==> Get(s, x.id) == Ok(x)
  {
  }
}
