/**
  The image-derivative handler. For each record of an S3 "object created"
  event, in order, it downloads the object, writes a gzipped WebP rendition
  for every width of the ladder to the target bucket, and then writes the
  decoded original back under its own key. The first failure rejects the
  whole invocation.

  The image library (decode, resize, WebP encode, re-encode) and gzip are
  given as the functions of a `Codecs` value; the S3 service is the
  `S3Client` of module S3.
 */
module SharpLambda {
  import opened S3
  import opened PosixPath
  import opened Naming

  /** One record of the event: `record.s3.bucket.name` and `record.s3.object.key`. */
  datatype EventRecord = EventRecord(bucket: string, key: string)
  {
    function Source(): ObjectId { ObjectId(bucket, key) }
  }

  /** The re-encoded original together with the format the image library detected. */
  datatype Encoded = Encoded(data: Bytes, format: string)

  /**
    The opaque transformations, each of which may fail:
    `render(src, w)` is `sharp(src).clone().toFormat("webp").resize(w).toBuffer()`,
    `reencode(src)` is `sharp(src).toBuffer({ resolveWithObject: true })`,
    `gzip(b)` is zlib's `gzip`.
   */
  datatype Codecs = Codecs(
    render: (Bytes, nat) -> Option<Bytes>,
    reencode: Bytes -> Option<Encoded>,
    gzip: Bytes -> Option<Bytes>)

  /** Which step rejected the invocation. */
  datatype Fault =
    | DownloadFailed(source: ObjectId)
    | RenderFailed(key: string, width: nat)
    | GzipFailed(key: string, width: nat)
    | ReencodeFailed(key: string)
    | UploadFailed(key: string)

  /** How the handler's promise settles. */
  datatype Outcome = Completed | Rejected(fault: Fault)

  /**
    The puts one record asks for when S3 accepts them all, in order, and the
    codec failure (if any) that ends the record before the last of them.
   */
  datatype Plan = Plan(puts: seq<PutRequest>, stop: Option<Fault>)

  const TARGET_BUCKET_VARIABLE: string := "TARGET_BUCKET"

  /** The encoding every upload declares, whether or not its body is compressed. */
  const GZIP_ENCODING: string := "gzip"

  /**
    `process.env.TARGET_BUCKET || ""`. JavaScript's `||` also replaces an
    empty value by "", which is the same string: the result is simply the
    variable's value, or "" when it is unset.
   */
  function TargetBucket(env: map<string, string>): (bucket: string)
    ensures TARGET_BUCKET_VARIABLE in env ==> bucket == env[TARGET_BUCKET_VARIABLE]
    ensures TARGET_BUCKET_VARIABLE !in env ==> bucket == ""
  {
    if TARGET_BUCKET_VARIABLE in env && env[TARGET_BUCKET_VARIABLE] != "" then env[TARGET_BUCKET_VARIABLE] else ""
  }

  /** The request `upload(key, body, type)` sends. */
  function UploadRequest(env: map<string, string>, key: string, body: Bytes, contentType: string): PutRequest {
    PutRequest(TargetBucket(env), key, body, contentType, GZIP_ENCODING)
  }

  /** The derivative of one width: its key and gzipped body, or the codec failure that stops the record. */
  datatype Rendition = Rendered(key: string, body: Bytes) | Broken(fault: Fault)

  /**
    The derivative of width `width`: the render at that width, gzipped,
    named by the derivative key. Either codec may fail.
   */
  function Derivative(codecs: Codecs, key: string, src: Bytes, width: nat): (r: Rendition)
    ensures r.Rendered? <==> codecs.render(src, width).Some? && codecs.gzip(codecs.render(src, width).value).Some?
    ensures r.Rendered? ==> r.body == codecs.gzip(codecs.render(src, width).value).value
    ensures r.Rendered? ==> r.key != key && NoSeparator(r.key)
    ensures r.Broken? ==> r.fault == if codecs.render(src, width).None? then RenderFailed(key, width) else GzipFailed(key, width)
  {
    match codecs.render(src, width)
    case None => Broken(RenderFailed(key, width))
    case Some(rendition) =>
      match codecs.gzip(rendition)
      case None => Broken(GzipFailed(key, width))
      case Some(zipped) => Rendered(DerivativeKey(key, width), zipped)
  }

  /** The derivative puts for the widths `ws`, in order, up to the first width whose render or gzip fails. */
  function PlanWidths(codecs: Codecs, env: map<string, string>, key: string, src: Bytes, ws: seq<nat>): (plan: Plan)
    ensures |plan.puts| <= |ws|
    ensures plan.stop.None? <==> |plan.puts| == |ws|
    decreases |ws|
  {
    if ws == [] then Plan([], None)
    else
      match Derivative(codecs, key, src, ws[0])
      case Broken(fault) => Plan([], Some(fault))
      case Rendered(outputKey, zipped) =>
        var rest := PlanWidths(codecs, env, key, src, ws[1..]);
        Plan([UploadRequest(env, outputKey, zipped, WEBP_TYPE)] + rest.puts, rest.stop)
  }

  /** The puts of one record whose object `src` was downloaded: the ladder `widths`, then the original. */
  function PlanRecord(codecs: Codecs, env: map<string, string>, key: string, src: Bytes, widths: seq<nat>): (plan: Plan)
    ensures |plan.puts| <= |widths| + 1
    ensures plan.stop.None? <==> |plan.puts| == |widths| + 1
  {
    var derivatives := PlanWidths(codecs, env, key, src, widths);
    if derivatives.stop.Some? then derivatives
    else
      match codecs.reencode(src)
      case None => Plan(derivatives.puts, Some(ReencodeFailed(key)))
      case Some(original) => Plan(derivatives.puts + [UploadRequest(env, key, original.data, ImageType(original.format))], None)
  }

  /** Sends `puts` in order, stopping at the first one S3 fails. */
  function PutAll(fault: FaultOracle, st: Store, puts: seq<PutRequest>): (r: (Store, Option<Fault>))
    ensures |st.log| <= |r.0.log| <= |st.log| + |puts|
    ensures r.1.None? ==> |r.0.log| == |st.log| + |puts|
    decreases |puts|
  {
    if puts == [] then (st, None)
    else
      var (st1, ok) := PutStep(fault, st, puts[0]);
      if !ok then (st1, Some(UploadFailed(puts[0].key)))
      else PutAll(fault, st1, puts[1..])
  }

  /**
    Sends the puts of `plan` and reports the first failure: a put S3 fails,
    or else the codec failure that ended the plan.
   */
  function SendPlan(fault: FaultOracle, st: Store, plan: Plan): (r: (Store, Option<Fault>))
    ensures plan.stop.Some? ==> r.1.Some?
    ensures |st.log| <= |r.0.log| <= |st.log| + |plan.puts|
    ensures r.1.None? ==> |r.0.log| == |st.log| + |plan.puts|
  {
    var (st1, failed) := PutAll(fault, st, plan.puts);
    (st1, if failed.Some? then failed else plan.stop)
  }

  /** A completed record sends its download and then one upload per width and one for the original. */
  const REQUESTS_PER_RECORD: nat := 7

  /** One iteration of the record loop: download, then the record's puts. */
  function HandleRecord(codecs: Codecs, env: map<string, string>, fault: FaultOracle, st: Store, record: EventRecord): (r: (Store, Option<Fault>))
    ensures |st.log| < |r.0.log| <= |st.log| + REQUESTS_PER_RECORD
    ensures r.1.None? ==> |r.0.log| == |st.log| + REQUESTS_PER_RECORD
  {
    var (st1, fetched) := GetStep(fault, st, record.Source());
    if fetched.GetFailed? then (st1, Some(DownloadFailed(record.Source())))
    else SendPlan(fault, st1, PlanRecord(codecs, env, record.key, fetched.bytes, WIDTHS))
  }

  /** The whole handler: the records in event order, rejecting at the first failure. */
  function HandleEvent(codecs: Codecs, env: map<string, string>, fault: FaultOracle, st: Store, records: seq<EventRecord>): (r: (Store, Outcome))
    ensures |st.log| <= |r.0.log| <= |st.log| + REQUESTS_PER_RECORD * |records|
    ensures r.1.Completed? ==> |r.0.log| == |st.log| + REQUESTS_PER_RECORD * |records|
    ensures r.1.Rejected? ==> |st.log| < |r.0.log|
    decreases |records|
  {
    if records == [] then (st, Completed)
    else
      var (st1, failed) := HandleRecord(codecs, env, fault, st, records[0]);
      if failed.Some? then (st1, Rejected(failed.value))
      else HandleEvent(codecs, env, fault, st1, records[1..])
  }

  // ---------------------------------------------------------------------------
  // The handler as the program runs it.

  /** `upload(key, body, type)`. */
  method Upload(s3: S3Client, env: map<string, string>, key: string, body: Bytes, contentType: string) returns (ok: bool)
    modifies s3
    ensures (s3.State(), ok) == PutStep(s3.fault, old(s3.State()), UploadRequest(env, key, body, contentType))
  {
    ok := s3.PutObject(UploadRequest(env, key, body, contentType));
  }

  /** `download(record)`. */
  method Download(s3: S3Client, record: EventRecord) returns (r: GetResult)
    modifies s3
    ensures (s3.State(), r) == GetStep(s3.fault, old(s3.State()), record.Source())
  {
    r := s3.GetObject(record.Source());
  }

  /**
    `handler(event)`: the records in order; the first record that fails
    rejects the invocation and leaves the records after it untouched.
   */
  method Handler(s3: S3Client, env: map<string, string>, codecs: Codecs, event: seq<EventRecord>) returns (outcome: Outcome)
    modifies s3
    ensures (s3.State(), outcome) == HandleEvent(codecs, env, s3.fault, old(s3.State()), event)
  {
    var i := 0;
    while i < |event|
      invariant 0 <= i <= |event|
      invariant HandleEvent(codecs, env, s3.fault, old(s3.State()), event) == HandleEvent(codecs, env, s3.fault, s3.State(), event[i..])
    {
      EventStep(codecs, env, s3.fault, s3.State(), event, i);
      var failed := HandleOneRecord(s3, env, codecs, event[i]);
      if failed.Some? {
        outcome := Rejected(failed.value);
        return;
      }
      i := i + 1;
    }
    outcome := Completed;
  }

  /** One pass of the handler's record loop: download, the width ladder, then the original. */
  method HandleOneRecord(s3: S3Client, env: map<string, string>, codecs: Codecs, record: EventRecord) returns (failed: Option<Fault>)
    modifies s3
    ensures (s3.State(), failed) == HandleRecord(codecs, env, s3.fault, old(s3.State()), record)
  {
    ghost var before := s3.State();
    var inputKey := record.key;
    var fetched := Download(s3, record);
    if fetched.GetFailed? {
      return Some(DownloadFailed(record.Source()));
    }
    var input := fetched.bytes;
    ghost var downloaded := s3.State();
    failed := UploadDerivatives(s3, env, codecs, inputKey, input, WIDTHS);
    PlanRecordAfterLadder(codecs, env, s3.fault, downloaded, inputKey, input, WIDTHS);
    if failed.Some? {
      return;
    }
    var original := codecs.reencode(input);
    if original.None? {
      return Some(ReencodeFailed(inputKey));
    }
    var ok := Upload(s3, env, inputKey, original.value.data, ImageType(original.value.format));
    failed := if ok then None else Some(UploadFailed(inputKey));
  }

  /**
    The inner loop of `handler`: the derivative of each width of the ladder,
    in order, stopping at the first render, gzip or upload that fails.
   */
  method UploadDerivatives(s3: S3Client, env: map<string, string>, codecs: Codecs, inputKey: string, input: Bytes, widths: seq<nat>)
    returns (failed: Option<Fault>)
    modifies s3
    ensures (s3.State(), failed) == SendPlan(s3.fault, old(s3.State()), PlanWidths(codecs, env, inputKey, input, widths))
  {
    ghost var goal := SendPlan(s3.fault, s3.State(), PlanWidths(codecs, env, inputKey, input, widths));
    assert widths[0..] == widths;
    var j := 0;
    while j < |widths|
      invariant 0 <= j <= |widths|
      invariant goal == SendPlan(s3.fault, s3.State(), PlanWidths(codecs, env, inputKey, input, widths[j..]))
    {
      failed := UploadWidth(s3, env, codecs, inputKey, input, widths, j);
      if failed.Some? {
        return;
      }
      j := j + 1;
    }
    assert widths[j..] == [];
    failed := None;
  }

  /**
    One pass of the width loop, for width `widths[j]`: a failure ends the
    ladder with that failure; otherwise what is left is the ladder from the
    next width on.
   */
  method UploadWidth(s3: S3Client, env: map<string, string>, codecs: Codecs, inputKey: string, input: Bytes, widths: seq<nat>, j: nat)
    returns (failed: Option<Fault>)
    requires j < |widths|
    modifies s3
    ensures failed.Some? ==>
              SendPlan(s3.fault, old(s3.State()), PlanWidths(codecs, env, inputKey, input, widths[j..])) == (s3.State(), failed)
    ensures failed.None? ==>
              SendPlan(s3.fault, old(s3.State()), PlanWidths(codecs, env, inputKey, input, widths[j..]))
              == SendPlan(s3.fault, s3.State(), PlanWidths(codecs, env, inputKey, input, widths[j + 1..]))
  {
    ghost var st := s3.State();
    var derivative := RenderDerivative(codecs, inputKey, input, widths[j]);
    if derivative.Broken? {
      LadderBroken(codecs, env, s3.fault, st, inputKey, input, widths, j);
      return Some(derivative.fault);
    }
    var ok := Upload(s3, env, derivative.key, derivative.body, WEBP_TYPE);
    LadderPut(codecs, env, s3.fault, st, s3.State(), ok, inputKey, input, widths, j);
    failed := if ok then None else Some(UploadFailed(derivative.key));
  }

  /** The body of the width loop before its upload: name the derivative, render it, gzip it. */
  method RenderDerivative(codecs: Codecs, inputKey: string, input: Bytes, width: nat) returns (r: Rendition)
    ensures r == Derivative(codecs, inputKey, input, width)
  {
    var outputKey := DerivativeKey(inputKey, width);
    var rendition := codecs.render(input, width);
    if rendition.None? {
      return Broken(RenderFailed(inputKey, width));
    }
    var zipped := codecs.gzip(rendition.value);
    if zipped.None? {
      return Broken(GzipFailed(inputKey, width));
    }
    return Rendered(outputKey, zipped.value);
  }

  // ---------------------------------------------------------------------------
  // Steps of the handler's proof.

  /** The event loop's step: record `i` either rejects the event or hands over to record `i + 1`. */
  lemma EventStep(codecs: Codecs, env: map<string, string>, fault: FaultOracle, st: Store, event: seq<EventRecord>, i: nat)
    requires i < |event|
    ensures var (st1, failed) := HandleRecord(codecs, env, fault, st, event[i]);
            HandleEvent(codecs, env, fault, st, event[i..])
            == if failed.Some? then (st1, Rejected(failed.value)) else HandleEvent(codecs, env, fault, st1, event[i + 1..])
  {
    assert event[i..][0] == event[i] && event[i..][1..] == event[i + 1..];
  }

  /** A render or gzip failure at width `ws[j]` ends the ladder there, with nothing more sent. */
  lemma LadderBroken(codecs: Codecs, env: map<string, string>, fault: FaultOracle, st: Store, key: string, src: Bytes, ws: seq<nat>, j: nat)
    requires j < |ws| && Derivative(codecs, key, src, ws[j]).Broken?
    ensures SendPlan(fault, st, PlanWidths(codecs, env, key, src, ws[j..])) == (st, Some(Derivative(codecs, key, src, ws[j]).fault))
  {
    assert ws[j..][0] == ws[j];
  }

  /**
    The derivative of width `ws[j]` is put from state `st`, giving `(st1, ok)`:
    a failed put ends the ladder, an accepted one leaves the rest of the
    ladder to do from `st1`.
   */
  lemma LadderPut(codecs: Codecs, env: map<string, string>, fault: FaultOracle, st: Store, st1: Store, ok: bool,
                  key: string, src: Bytes, ws: seq<nat>, j: nat)
    requires j < |ws| && Derivative(codecs, key, src, ws[j]).Rendered?
    requires (st1, ok) == PutStep(fault, st, UploadRequest(env, Derivative(codecs, key, src, ws[j]).key, Derivative(codecs, key, src, ws[j]).body, WEBP_TYPE))
    ensures SendPlan(fault, st, PlanWidths(codecs, env, key, src, ws[j..]))
            == if ok then SendPlan(fault, st1, PlanWidths(codecs, env, key, src, ws[j + 1..]))
               else (st1, Some(UploadFailed(Derivative(codecs, key, src, ws[j]).key)))
  {
    assert ws[j..][0] == ws[j] && ws[j..][1..] == ws[j + 1..];
    var plan := PlanWidths(codecs, env, key, src, ws[j..]);
    var rest := PlanWidths(codecs, env, key, src, ws[j + 1..]);
    assert plan.puts[1..] == rest.puts;
  }

  /**
    After the ladder: a failure there is the record's failure; otherwise the
    record goes on with the original, whose upload is the record's last put.
   */
  lemma PlanRecordAfterLadder(codecs: Codecs, env: map<string, string>, fault: FaultOracle, st: Store, key: string, src: Bytes, widths: seq<nat>)
    ensures var ladder := SendPlan(fault, st, PlanWidths(codecs, env, key, src, widths));
            ladder.1.Some? ==> SendPlan(fault, st, PlanRecord(codecs, env, key, src, widths)) == ladder
    ensures var ladder := SendPlan(fault, st, PlanWidths(codecs, env, key, src, widths));
            ladder.1.None? && codecs.reencode(src).None? ==>
              SendPlan(fault, st, PlanRecord(codecs, env, key, src, widths)) == (ladder.0, Some(ReencodeFailed(key)))
    ensures var ladder := SendPlan(fault, st, PlanWidths(codecs, env, key, src, widths));
            ladder.1.None? && codecs.reencode(src).Some? ==>
              var original := codecs.reencode(src).value;
              var (st1, ok) := PutStep(fault, ladder.0, UploadRequest(env, key, original.data, ImageType(original.format)));
              SendPlan(fault, st, PlanRecord(codecs, env, key, src, widths)) == (st1, if ok then None else Some(UploadFailed(key)))
  {
    var derivatives := PlanWidths(codecs, env, key, src, widths);
    if derivatives.stop.None? && codecs.reencode(src).Some? {
      var original := codecs.reencode(src).value;
      var p := UploadRequest(env, key, original.data, ImageType(original.format));
      PutAllConcat(fault, st, derivatives.puts, [p]);
      var mid := PutAll(fault, st, derivatives.puts).0;
      assert [p][1..] == [];
      assert PutAll(fault, mid, [p]) == (PutStep(fault, mid, p).0, if PutStep(fault, mid, p).1 then None else Some(UploadFailed(key)));
    }
  }

  // ---------------------------------------------------------------------------
  // Sending a sequence of puts.

  lemma {:induction false} PutAllConcat(fault: FaultOracle, st: Store, a: seq<PutRequest>, b: seq<PutRequest>)
    ensures PutAll(fault, st, a).1.Some? ==> PutAll(fault, st, a + b) == PutAll(fault, st, a)
    ensures PutAll(fault, st, a).1.None? ==> PutAll(fault, st, a + b) == PutAll(fault, PutAll(fault, st, a).0, b)
    decreases |a|
  {
    if a == [] {
      assert a + b == b;
    } else {
      assert (a + b)[0] == a[0] && (a + b)[1..] == a[1..] + b;
      var (st1, ok) := PutStep(fault, st, a[0]);
      if ok {
        PutAllConcat(fault, st1, a[1..], b);
      }
    }
  }
}
