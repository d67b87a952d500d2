/**
  What the handler promises, proved about the specification functions of
  module SharpLambda. The methods of that module are proved equal to these
  functions, so every lemma here is also a statement about `Handler`.
 */
module SharpLambdaProperties {
  import opened S3
  import opened PosixPath
  import opened Naming
  import opened SharpLambda

  // ---------------------------------------------------------------------------
  // What one record uploads.

  /** The ladder has five widths, in increasing order, so no width repeats. */
  lemma WidthsAscending()
    ensures |WIDTHS| == 5
    ensures forall a, b :: 0 <= a < b < |WIDTHS| ==> WIDTHS[a] < WIDTHS[b]
  {
  }

  /** `put` uploads the derivative of width `w`: the gzipped render, as WebP, under the derivative key. */
  predicate UploadsDerivative(codecs: Codecs, env: map<string, string>, key: string, src: Bytes, w: nat, put: PutRequest) {
    && codecs.render(src, w).Some?
    && codecs.gzip(codecs.render(src, w).value).Some?
    && put == UploadRequest(env, DerivativeKey(key, w), codecs.gzip(codecs.render(src, w).value).value, WEBP_TYPE)
  }

  /** `put` uploads the re-encoded original, not gzipped, under the input key and as "image/" + its format. */
  predicate UploadsOriginal(codecs: Codecs, env: map<string, string>, key: string, src: Bytes, put: PutRequest) {
    && codecs.reencode(src).Some?
    && put == UploadRequest(env, key, codecs.reencode(src).value.data, ImageType(codecs.reencode(src).value.format))
  }

  /**
    The ladder for widths `ws` uploads the derivatives of a prefix of `ws`,
    one per width and in order; it stops short exactly when a render or gzip
    fails, and then at the first width whose derivative is broken.
   */
  lemma {:induction false} PlanWidthsShape(codecs: Codecs, env: map<string, string>, key: string, src: Bytes, ws: seq<nat>)
    ensures var plan := PlanWidths(codecs, env, key, src, ws);
            && |plan.puts| <= |ws|
            && (plan.stop.None? <==> |plan.puts| == |ws|)
            && (forall k :: 0 <= k < |plan.puts| ==> UploadsDerivative(codecs, env, key, src, ws[k], plan.puts[k]))
            && (plan.stop.Some? ==>
                  && Derivative(codecs, key, src, ws[|plan.puts|]).Broken?
                  && plan.stop.value == Derivative(codecs, key, src, ws[|plan.puts|]).fault)
    decreases |ws|
  {
    if ws != [] && Derivative(codecs, key, src, ws[0]).Rendered? {
      var rest := PlanWidths(codecs, env, key, src, ws[1..]);
      PlanWidthsShape(codecs, env, key, src, ws[1..]);
      var plan := PlanWidths(codecs, env, key, src, ws);
      assert plan.puts[1..] == rest.puts;
      forall k | 0 <= k < |plan.puts|
        ensures UploadsDerivative(codecs, env, key, src, ws[k], plan.puts[k])
      {
        if k > 0 {
          assert plan.puts[k] == rest.puts[k - 1] && ws[k] == ws[1..][k - 1];
        }
      }
      if plan.stop.Some? {
        assert ws[|plan.puts|] == ws[1..][|rest.puts|];
      }
    }
  }

  /**
    The uploads of one downloaded record for the ladder `widths`: the
    derivatives in ladder order, then the original, all to the target bucket
    and all declaring gzip. The record completes exactly when all of them are
    planned; otherwise the plan stops at the first render or gzip failure,
    or, after the whole ladder, at a failed re-encode.
   */
  lemma PlanRecordShape(codecs: Codecs, env: map<string, string>, key: string, src: Bytes, widths: seq<nat>)
    ensures var plan := PlanRecord(codecs, env, key, src, widths);
            && |plan.puts| <= |widths| + 1
            && (plan.stop.None? <==> |plan.puts| == |widths| + 1)
            && (forall k :: 0 <= k < |plan.puts| && k < |widths| ==> UploadsDerivative(codecs, env, key, src, widths[k], plan.puts[k]))
            && (|plan.puts| == |widths| + 1 ==> UploadsOriginal(codecs, env, key, src, plan.puts[|widths|]))
            && (plan.stop.Some? && |plan.puts| < |widths| ==>
                  && Derivative(codecs, key, src, widths[|plan.puts|]).Broken?
                  && plan.stop.value == Derivative(codecs, key, src, widths[|plan.puts|]).fault)
            && (plan.stop.Some? && |plan.puts| == |widths| ==>
                  codecs.reencode(src).None? && plan.stop.value == ReencodeFailed(key))
            && (forall k :: 0 <= k < |plan.puts| ==>
                  plan.puts[k].bucket == TargetBucket(env) && plan.puts[k].contentEncoding == GZIP_ENCODING)
  {
    var ladder := PlanWidths(codecs, env, key, src, widths);
    PlanWidthsShape(codecs, env, key, src, widths);
    var plan := PlanRecord(codecs, env, key, src, widths);
    if ladder.stop.None? && codecs.reencode(src).Some? {
      forall k | 0 <= k < |widths|
        ensures UploadsDerivative(codecs, env, key, src, widths[k], plan.puts[k])
      {
        assert plan.puts[k] == ladder.puts[k];
      }
    }
  }

  /** With a ladder of distinct widths, a record's uploads go to pairwise different keys. */
  lemma PlanRecordKeysDistinct(codecs: Codecs, env: map<string, string>, key: string, src: Bytes, widths: seq<nat>)
    requires forall a, b :: 0 <= a < b < |widths| ==> widths[a] != widths[b]
    ensures var puts := PlanRecord(codecs, env, key, src, widths).puts;
            forall a, b :: 0 <= a < b < |puts| ==> puts[a].key != puts[b].key
  {
    var puts := PlanRecord(codecs, env, key, src, widths).puts;
    PlanRecordShape(codecs, env, key, src, widths);
    forall a, b | 0 <= a < b < |puts|
      ensures puts[a].key != puts[b].key
    {
      if b < |widths| {
        DerivativeKeysDistinct(key, widths[a], widths[b]);
      } else {
        assert puts[a].key == DerivativeKey(key, widths[a]) && puts[b].key == key;
      }
    }
  }

  /**
    The handler's own ladder: a record that is not stopped by a codec
    failure plans exactly six uploads, the derivatives of widths 200, 400,
    800, 1600 and 3200 and then the original, to six different keys.
   */
  lemma RecordPlansSixUploads(codecs: Codecs, env: map<string, string>, key: string, src: Bytes)
    ensures var plan := PlanRecord(codecs, env, key, src, WIDTHS);
            && (plan.stop.None? <==> |plan.puts| == 6)
            && (|plan.puts| == 6 ==>
                  && UploadsDerivative(codecs, env, key, src, 200, plan.puts[0])
                  && UploadsDerivative(codecs, env, key, src, 400, plan.puts[1])
                  && UploadsDerivative(codecs, env, key, src, 800, plan.puts[2])
                  && UploadsDerivative(codecs, env, key, src, 1600, plan.puts[3])
                  && UploadsDerivative(codecs, env, key, src, 3200, plan.puts[4])
                  && UploadsOriginal(codecs, env, key, src, plan.puts[5]))
            && (forall a, b :: 0 <= a < b < |plan.puts| ==> plan.puts[a].key != plan.puts[b].key)
  {
    WidthsAscending();
    PlanRecordShape(codecs, env, key, src, WIDTHS);
    PlanRecordKeysDistinct(codecs, env, key, src, WIDTHS);
  }

  // ---------------------------------------------------------------------------
  // What the service sees.

  /** The log entries of `puts`, each accepted by the service, in order. */
  function Accepted(puts: seq<PutRequest>): seq<Entry> {
    seq(|puts|, k requires 0 <= k < |puts| => Entry(Put(puts[k]), true))
  }

  /** Sending puts of which none fails: the service has received them all, in order, and accepted them. */
  lemma {:induction false} PutAllAccepted(fault: FaultOracle, st: Store, puts: seq<PutRequest>)
    ensures var (st1, failed) := PutAll(fault, st, puts);
            failed.None? ==> st1.log == st.log + Accepted(puts)
    decreases |puts|
  {
    if puts != [] {
      var (s1, ok) := PutStep(fault, st, puts[0]);
      if ok {
        PutAllAccepted(fault, s1, puts[1..]);
        assert Accepted(puts) == [Entry(Put(puts[0]), true)] + Accepted(puts[1..]);
      }
    }
  }

  /**
    Sending puts of which one fails: the service has received the ones
    before it, and accepted them, then the failed one, and nothing after it;
    the failure names the failed put's key.
   */
  lemma {:induction false} PutAllStopsAtFailure(fault: FaultOracle, st: Store, puts: seq<PutRequest>)
    ensures var (st1, failed) := PutAll(fault, st, puts);
            var n := |st1.log| - |st.log| - 1;
            failed.Some? ==>
              && 0 <= n < |puts|
              && st1.log == st.log + Accepted(puts[..n]) + [Entry(Put(puts[n]), false)]
              && failed.value == UploadFailed(puts[n].key)
    decreases |puts|
  {
    if puts != [] {
      var (s1, ok) := PutStep(fault, st, puts[0]);
      if ok {
        PutAllStopsAtFailure(fault, s1, puts[1..]);
        var (st1, failed) := PutAll(fault, s1, puts[1..]);
        if failed.Some? {
          var n := |st1.log| - |st.log| - 1;
          assert puts[1..][n - 1] == puts[n];
          assert Accepted(puts[..n]) == [Entry(Put(puts[0]), true)] + Accepted(puts[1..][..n - 1]);
        }
      } else {
        assert Accepted(puts[..0]) == [];
      }
    }
  }

  /**
    One record: a failed download is the only request the record makes and
    changes no object; a record that completes has been downloaded and then
    had all six uploads of its plan accepted, in plan order.
   */
  lemma RecordTrace(codecs: Codecs, env: map<string, string>, fault: FaultOracle, st: Store, record: EventRecord)
    ensures var (st1, failed) := HandleRecord(codecs, env, fault, st, record);
            failed == Some(DownloadFailed(record.Source())) <==>
              (fault(|st.log|, Get(record.Source())) || record.Source() !in st.objects)
    ensures var (st1, failed) := HandleRecord(codecs, env, fault, st, record);
            failed == Some(DownloadFailed(record.Source())) ==>
              st1 == Store(st.objects, st.log + [Entry(Get(record.Source()), false)])
    ensures var (st1, failed) := HandleRecord(codecs, env, fault, st, record);
            failed.None? ==>
              && record.Source() in st.objects
              && var plan := PlanRecord(codecs, env, record.key, st.objects[record.Source()].body, WIDTHS);
                 && |plan.puts| == |WIDTHS| + 1
                 && st1.log == st.log + [Entry(Get(record.Source()), true)] + Accepted(plan.puts)
  {
    var (s1, fetched) := GetStep(fault, st, record.Source());
    if fetched.Body? {
      var plan := PlanRecord(codecs, env, record.key, fetched.bytes, WIDTHS);
      PutAllAccepted(fault, s1, plan.puts);
      PutAllNeverDownloadFails(fault, s1, plan.puts);
      PlanRecordShape(codecs, env, record.key, fetched.bytes, WIDTHS);
      PlanStopIsNotDownload(codecs, env, record.key, fetched.bytes, WIDTHS, record.Source());
    }
  }

  /** Sending puts reports only upload failures. */
  lemma {:induction false} PutAllNeverDownloadFails(fault: FaultOracle, st: Store, puts: seq<PutRequest>)
    ensures PutAll(fault, st, puts).1.None? || PutAll(fault, st, puts).1.value.UploadFailed?
    decreases |puts|
  {
    if puts != [] {
      var (s1, ok) := PutStep(fault, st, puts[0]);
      if ok {
        PutAllNeverDownloadFails(fault, s1, puts[1..]);
      }
    }
  }

  /** A record's plan stops, if at all, at a codec failure, never at a download failure. */
  lemma PlanStopIsNotDownload(codecs: Codecs, env: map<string, string>, key: string, src: Bytes, widths: seq<nat>, source: ObjectId)
    ensures PlanRecord(codecs, env, key, src, widths).stop != Some(DownloadFailed(source))
  {
    PlanWidthsShape(codecs, env, key, src, widths);
  }

  // ---------------------------------------------------------------------------
  // The store evolves only by the handler's requests.

  lemma PutStepFollows(fault: FaultOracle, st: Store, p: PutRequest)
    ensures Follows(st, PutStep(fault, st, p).0)
  {
    RecordFollows(st, Entry(Put(p), !fault(|st.log|, Put(p))));
  }

  lemma {:induction false} PutAllFollows(fault: FaultOracle, st: Store, puts: seq<PutRequest>)
    ensures Follows(st, PutAll(fault, st, puts).0)
    decreases |puts|
  {
    if puts == [] {
      RecordFollowsNothing(st);
    } else {
      var (s1, ok) := PutStep(fault, st, puts[0]);
      PutStepFollows(fault, st, puts[0]);
      if ok {
        PutAllFollows(fault, s1, puts[1..]);
        FollowsTransitive(st, s1, PutAll(fault, s1, puts[1..]).0);
      }
    }
  }

  lemma RecordFollowsNothing(st: Store)
    ensures Follows(st, st)
  {
    assert st.log[|st.log|..] == [];
  }

  lemma HandleRecordFollows(codecs: Codecs, env: map<string, string>, fault: FaultOracle, st: Store, record: EventRecord)
    ensures Follows(st, HandleRecord(codecs, env, fault, st, record).0)
  {
    var (s1, fetched) := GetStep(fault, st, record.Source());
    RecordFollows(st, Entry(Get(record.Source()), fetched.Body?));
    if fetched.Body? {
      var plan := PlanRecord(codecs, env, record.key, fetched.bytes, WIDTHS);
      PutAllFollows(fault, s1, plan.puts);
      FollowsTransitive(st, s1, PutAll(fault, s1, plan.puts).0);
    }
  }

  /** Every state the handler leaves is the earlier state with the handler's requests applied in order. */
  lemma {:induction false} HandleEventFollows(codecs: Codecs, env: map<string, string>, fault: FaultOracle, st: Store, records: seq<EventRecord>)
    ensures Follows(st, HandleEvent(codecs, env, fault, st, records).0)
    decreases |records|
  {
    if records == [] {
      RecordFollowsNothing(st);
    } else {
      var (s1, failed) := HandleRecord(codecs, env, fault, st, records[0]);
      HandleRecordFollows(codecs, env, fault, st, records[0]);
      if failed.None? {
        HandleEventFollows(codecs, env, fault, s1, records[1..]);
        FollowsTransitive(st, s1, HandleEvent(codecs, env, fault, s1, records[1..]).0);
      }
    }
  }

  /**
    Overwrite semantics across a whole invocation: afterwards each key holds
    what the last accepted upload to it stored (so of two records with the
    same stem, the later one's derivatives win), and a key no upload reached
    holds what it held before.
   */
  lemma HandlerOverwrites(codecs: Codecs, env: map<string, string>, fault: FaultOracle, st: Store, records: seq<EventRecord>, id: ObjectId)
    ensures Follows(st, HandleEvent(codecs, env, fault, st, records).0)
    ensures var after := HandleEvent(codecs, env, fault, st, records).0;
            var requests := after.log[|st.log|..];
            && (LastWrite(requests, id).Some? ==> id in after.objects && after.objects[id] == LastWrite(requests, id).value)
            && (LastWrite(requests, id).None? ==> (id in after.objects <==> id in st.objects))
            && (LastWrite(requests, id).None? && id in st.objects ==> after.objects[id] == st.objects[id])
  {
    var after := HandleEvent(codecs, env, fault, st, records).0;
    HandleEventFollows(codecs, env, fault, st, records);
    LastWriteWins(st.objects, after.log[|st.log|..], id);
  }

  // ---------------------------------------------------------------------------
  // Records are handled one after another.

  /**
    An event split in two: when the first part is rejected the second is
    never looked at; when it completes, the second part starts from the
    state the first left.
   */
  lemma {:induction false} HandleEventConcat(codecs: Codecs, env: map<string, string>, fault: FaultOracle, st: Store, a: seq<EventRecord>, b: seq<EventRecord>)
    ensures HandleEvent(codecs, env, fault, st, a).1.Rejected? ==>
              HandleEvent(codecs, env, fault, st, a + b) == HandleEvent(codecs, env, fault, st, a)
    ensures HandleEvent(codecs, env, fault, st, a).1.Completed? ==>
              HandleEvent(codecs, env, fault, st, a + b) == HandleEvent(codecs, env, fault, HandleEvent(codecs, env, fault, st, a).0, b)
    decreases |a|
  {
    if a == [] {
      assert a + b == b;
    } else {
      assert (a + b)[0] == a[0] && (a + b)[1..] == a[1..] + b;
      var (s1, failed) := HandleRecord(codecs, env, fault, st, a[0]);
      if failed.None? {
        HandleEventConcat(codecs, env, fault, s1, a[1..], b);
      }
    }
  }

  /** The first record that fails rejects the invocation with its own fault, after its own requests. */
  lemma FirstFailureRejects(codecs: Codecs, env: map<string, string>, fault: FaultOracle, st: Store, a: seq<EventRecord>, r: EventRecord, b: seq<EventRecord>)
    requires HandleEvent(codecs, env, fault, st, a).1.Completed?
    requires HandleRecord(codecs, env, fault, HandleEvent(codecs, env, fault, st, a).0, r).1.Some?
    ensures var mid := HandleEvent(codecs, env, fault, st, a).0;
            var (st1, failed) := HandleRecord(codecs, env, fault, mid, r);
            HandleEvent(codecs, env, fault, st, a + [r] + b) == (st1, Rejected(failed.value))
  {
    var mid := HandleEvent(codecs, env, fault, st, a).0;
    var rest := [r] + b;
    HandleEventConcat(codecs, env, fault, st, a, rest);
    InsertRecord(a, r, b);
    RecordFailsFirst(codecs, env, fault, mid, r, b);
  }

  lemma InsertRecord(a: seq<EventRecord>, r: EventRecord, b: seq<EventRecord>)
    ensures a + [r] + b == a + ([r] + b)
  {
  }

  /** An event whose first record fails is rejected by it, whatever follows. */
  lemma RecordFailsFirst(codecs: Codecs, env: map<string, string>, fault: FaultOracle, st: Store, r: EventRecord, b: seq<EventRecord>)
    requires HandleRecord(codecs, env, fault, st, r).1.Some?
    ensures var (st1, failed) := HandleRecord(codecs, env, fault, st, r);
            HandleEvent(codecs, env, fault, st, [r] + b) == (st1, Rejected(failed.value))
  {
    assert ([r] + b)[0] == r;
  }
}
