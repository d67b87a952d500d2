/**
  The part of the S3 object store the handler talks to: `getObject` and
  `putObject` on one service holding every bucket. The service keeps a log of
  the requests it received and whether each succeeded; whether a request
  fails for a reason outside the model (permissions, quota, the network) is
  decided by a fault oracle that sees the request and its position in the log.
 */
module S3 {

  type Bytes = seq<bv8>

  datatype Option<T> = None | Some(value: T)

  datatype ObjectId = ObjectId(bucket: string, key: string)

  /** What the store keeps under a key: the body and the metadata of the put. */
  datatype StoredObject = StoredObject(body: Bytes, contentType: string, contentEncoding: string)

  /** The parameters of one `putObject` call. */
  datatype PutRequest = PutRequest(bucket: string, key: string, body: Bytes, contentType: string, contentEncoding: string)
  {
    function Id(): ObjectId { ObjectId(bucket, key) }
    function Stored(): StoredObject { StoredObject(body, contentType, contentEncoding) }
  }

  datatype Request = Get(id: ObjectId) | Put(put: PutRequest)

  /** One request the service received, and whether it succeeded. */
  datatype Entry = Entry(request: Request, ok: bool)

  datatype GetError = ServiceFault | NoSuchKey

  datatype GetResult = Body(bytes: Bytes) | GetFailed(error: GetError)

  /** The abstract state of the service: its objects and its request log. */
  datatype Store = Store(objects: map<ObjectId, StoredObject>, log: seq<Entry>)

  /** `fault(n, r)`: the service fails `r` when it is the `n`-th request it receives. */
  type FaultOracle = (nat, Request) -> bool

  /** The effect of one logged request on the objects: only a successful put changes them. */
  function Apply(objects: map<ObjectId, StoredObject>, e: Entry): map<ObjectId, StoredObject> {
    if e.ok && e.request.Put? then objects[e.request.put.Id() := e.request.put.Stored()] else objects
  }

  /** The objects after the requests of `log` were applied, in order, to `objects`. */
  function Replay(objects: map<ObjectId, StoredObject>, log: seq<Entry>): map<ObjectId, StoredObject>
    decreases |log|
  {
    if log == [] then objects else Apply(Replay(objects, log[..|log| - 1]), log[|log| - 1])
  }

  /** `e` is a successful put under `id`. */
  predicate WritesTo(e: Entry, id: ObjectId) {
    e.ok && e.request.Put? && e.request.put.Id() == id
  }

  /** What the last successful put under `id` in `log` stored, if any put to `id` succeeded. */
  function LastWrite(log: seq<Entry>, id: ObjectId): Option<StoredObject>
    decreases |log|
  {
    if log == [] then None
    else
      var e := log[|log| - 1];
      if WritesTo(e, id) then Some(e.request.put.Stored())
      else LastWrite(log[..|log| - 1], id)
  }

  /**
    Overwrite semantics: after a run of requests, a key holds what the last
    successful put under it stored, and a key no put succeeded under holds
    what it held before (or is still absent).
   */
  lemma {:induction false} LastWriteWins(objects: map<ObjectId, StoredObject>, log: seq<Entry>, id: ObjectId)
    ensures LastWrite(log, id).Some? ==> id in Replay(objects, log) && Replay(objects, log)[id] == LastWrite(log, id).value
    ensures LastWrite(log, id).None? ==> (id in Replay(objects, log) <==> id in objects)
    ensures LastWrite(log, id).None? && id in objects ==> Replay(objects, log)[id] == objects[id]
    decreases |log|
  {
    if log != [] {
      LastWriteWins(objects, log[..|log| - 1], id);
    }
  }

  /** `LastWrite` names a successful put under `id`, and no later put under `id` succeeded. */
  lemma {:induction false} LastWriteIsLatest(log: seq<Entry>, id: ObjectId)
    requires LastWrite(log, id).Some?
    ensures exists k :: 0 <= k < |log| && WritesTo(log[k], id)
                        && log[k].request.put.Stored() == LastWrite(log, id).value
                        && forall j :: k < j < |log| ==> !WritesTo(log[j], id)
    decreases |log|
  {
    var n := |log| - 1;
    if !WritesTo(log[n], id) {
      var init := log[..n];
      LastWriteIsLatest(init, id);
      var k :| 0 <= k < |init| && WritesTo(init[k], id)
               && init[k].request.put.Stored() == LastWrite(init, id).value
               && forall j :: k < j < |init| ==> !WritesTo(init[j], id);
      assert log[k] == init[k];
      assert forall j :: k < j < |log| ==> !WritesTo(log[j], id) by {
        forall j | k < j < |log| ensures !WritesTo(log[j], id) {
          if j < n { assert log[j] == init[j]; }
        }
      }
    }
  }

  lemma {:induction false} ReplayConcat(objects: map<ObjectId, StoredObject>, a: seq<Entry>, b: seq<Entry>)
    ensures Replay(objects, a + b) == Replay(Replay(objects, a), b)
    decreases |b|
  {
    if b == [] {
      assert a + b == a;
    } else {
      assert (a + b)[..|a + b| - 1] == a + b[..|b| - 1];
      ReplayConcat(objects, a, b[..|b| - 1]);
    }
  }

  /**
    `after` is a later state of the store than `before`: its log extends the
    earlier one, and its objects are the earlier objects with the new part of
    the log applied.
   */
  ghost predicate Follows(before: Store, after: Store) {
    && |before.log| <= |after.log|
    && after.log[..|before.log|] == before.log
    && after.objects == Replay(before.objects, after.log[|before.log|..])
  }

  lemma FollowsTransitive(s1: Store, s2: Store, s3: Store)
    requires Follows(s1, s2) && Follows(s2, s3)
    ensures Follows(s1, s3)
  {
    var a, b := s2.log[|s1.log|..], s3.log[|s2.log|..];
    assert s3.log[|s1.log|..] == a + b;
    ReplayConcat(s1.objects, a, b);
  }

  /** The state after a request was received and handled. */
  function Record(st: Store, e: Entry): (r: Store)
    ensures r.log == st.log + [e]
    ensures e.ok && e.request.Put? ==> r.objects == st.objects[e.request.put.Id() := e.request.put.Stored()]
    ensures !(e.ok && e.request.Put?) ==> r.objects == st.objects
  {
    Store(Apply(st.objects, e), st.log + [e])
  }

  /** Handling a request is a step of the store's evolution. */
  lemma RecordFollows(st: Store, e: Entry)
    ensures Follows(st, Record(st, e))
  {
    var r := Record(st, e);
    assert r.log[|st.log|..] == [e];
    assert [e][..0] == [];
  }

  /**
    `getObject`: fails when the oracle faults the request or when no object
    is stored under the id; otherwise returns the stored body. The objects do
    not change.
   */
  function GetStep(fault: FaultOracle, st: Store, id: ObjectId): (r: (Store, GetResult))
    ensures r.0.objects == st.objects
    ensures r.0.log == st.log + [Entry(Get(id), r.1.Body?)]
    ensures r.1.Body? <==> !fault(|st.log|, Get(id)) && id in st.objects
    ensures r.1.Body? ==> r.1.bytes == st.objects[id].body
  {
    var result :=
      if fault(|st.log|, Get(id)) then GetFailed(ServiceFault)
      else if id !in st.objects then GetFailed(NoSuchKey)
      else Body(st.objects[id].body);
    (Record(st, Entry(Get(id), result.Body?)), result)
  }

  /**
    `putObject`: unless the oracle faults it, stores the request's body and
    metadata under its id, replacing whatever was there; no other object
    changes either way.
   */
  function PutStep(fault: FaultOracle, st: Store, p: PutRequest): (r: (Store, bool))
    ensures r.0.log == st.log + [Entry(Put(p), r.1)]
    ensures r.1 <==> !fault(|st.log|, Put(p))
    ensures r.1 ==> r.0.objects == st.objects[p.Id() := p.Stored()]
    ensures !r.1 ==> r.0.objects == st.objects
  {
    var ok := !fault(|st.log|, Put(p));
    (Record(st, Entry(Put(p), ok)), ok)
  }

  /** The client object the handler shares across calls (`new S3()`), with the service behind it. */
  class S3Client {
    var objects: map<ObjectId, StoredObject>
    var log: seq<Entry>
    const fault: FaultOracle

    constructor (objects: map<ObjectId, StoredObject>, fault: FaultOracle)
      ensures this.objects == objects && log == [] && this.fault == fault
    {
      this.objects := objects;
      this.log := [];
      this.fault := fault;
    }

    function State(): Store
      reads this
    {
      Store(objects, log)
    }

    method GetObject(id: ObjectId) returns (r: GetResult)
      modifies this
      ensures (State(), r) == GetStep(fault, old(State()), id)
    {
      var step := GetStep(fault, State(), id);
      objects, log, r := step.0.objects, step.0.log, step.1;
    }

    method PutObject(p: PutRequest) returns (ok: bool)
      modifies this
      ensures (State(), ok) == PutStep(fault, old(State()), p)
    {
      var step := PutStep(fault, State(), p);
      objects, log, ok := step.0.objects, step.0.log, step.1;
    }
  }
}
