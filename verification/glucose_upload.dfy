/**
 * The blood-glucose upload record builder (`prepareDataForUpload`): one pass over
 * the batch that skips non-quantity samples, gates values to [0, 1000] mg/dL,
 * tags each record "cbg" or "smbg", adds at most one out-of-range annotation,
 * marks user-entered smbg readings as manual, and lifts the Dexcom receiver
 * display time out of the metadata before the rest becomes the payload.
 */
module GlucoseUpload {
  import opened Options
  import opened GlucoseType
  import opened Dates

  /** The metadata values a HealthKit sample can carry that the builder looks at. */
  datatype MetaValue =
    | BoolValue(flag: bool)
    | DateValue(date: Date)
    | TextValue(text: string)
    | NumberValue(number: real)

  type Metadata = map<string, MetaValue>

  /** The fields common to every upload type (guid, device id, time, origin), copied verbatim. */
  datatype Identity = Identity(guid: string, deviceId: string, time: Date, origin: string)

  datatype Sample =
    | QuantitySample(identity: Identity, sourceName: string, bundleId: string,
                     mgdl: real, metadata: Option<Metadata>)
    | OtherSample(identity: Identity)

  datatype Annotation = Annotation(code: string, value: string, threshold: int)

  datatype UploadRecord = UploadRecord(
    typeTag: string,
    identity: Identity,
    units: string,
    value: real,
    annotations: Option<seq<Annotation>>,
    subType: Option<string>,
    deviceTime: Option<string>,
    payload: Option<Metadata>)

  const Units: string := "mg/dL"
  const MinValue: real := 0.0
  const MaxValue: real := 1000.0
  const LowThreshold: int := 40
  const HighThreshold: int := 400
  const OutOfRangeCode: string := "bg/out-of-range"
  const WasUserEnteredKey: string := "HKWasUserEntered"
  const ReceiverDisplayTimeKey: string := "Receiver Display Time"
  const ManualSubType: string := "manual"

  const LowAnnotation: Annotation := Annotation(OutOfRangeCode, "low", LowThreshold)
  const HighAnnotation: Annotation := Annotation(OutOfRangeCode, "high", HighThreshold)

  /** What the service accepts: a value inside the gate, the fixed unit and a known type. */
  predicate Uploadable(r: UploadRecord) {
    && MinValue <= r.value <= MaxValue
    && r.units == Units
    && (r.typeTag == "cbg" || r.typeTag == "smbg")
  }

  /** The low/high annotation: never both, and none inside [40, 400]. */
  function OutOfRangeAnnotations(value: real): (r: Option<seq<Annotation>>)
    ensures r == Some([LowAnnotation]) <==> value < LowThreshold as real
    ensures r == Some([HighAnnotation]) <==> value > HighThreshold as real
    ensures r == None <==> LowThreshold as real <= value <= HighThreshold as real
  {
    if value < LowThreshold as real then Some([LowAnnotation])
    else if value > HighThreshold as real then Some([HighAnnotation])
    else None
  }

  /** "manual" only for smbg whose metadata holds the user-entered flag as a Bool true. */
  function ManualMark(t: BgType, md: Metadata): (r: Option<string>)
    ensures r.Some? ==> r.value == ManualSubType && t.Tag() == "smbg"
    ensures r.Some? <==> t == Smbg && WasUserEnteredKey in md && md[WasUserEnteredKey] == BoolValue(true)
  {
    if t == Smbg && WasUserEnteredKey in md && md[WasUserEnteredKey].BoolValue? && md[WasUserEnteredKey].flag
    then Some(ManualSubType)
    else None
  }

  /** The receiver display time, when the metadata holds it as a Date. */
  function ReceiverTime(md: Metadata): (r: Option<Date>)
    ensures r.Some? <==> ReceiverDisplayTimeKey in md && md[ReceiverDisplayTimeKey].DateValue?
    ensures r.Some? ==> md[ReceiverDisplayTimeKey] == DateValue(r.value)
  {
    if ReceiverDisplayTimeKey in md && md[ReceiverDisplayTimeKey].DateValue?
    then Some(md[ReceiverDisplayTimeKey].date)
    else None
  }

  /** The metadata left for the payload: the receiver time is removed only when it was consumed. */
  function Residual(md: Metadata): (rest: Metadata)
    ensures ReceiverTime(md).Some? ==> ReceiverDisplayTimeKey !in rest
    ensures ReceiverTime(md).None? ==> rest == md
    ensures forall k | k in md && k != ReceiverDisplayTimeKey :: k in rest && rest[k] == md[k]
    ensures rest.Keys <= md.Keys
  {
    if ReceiverTime(md).Some? then md - {ReceiverDisplayTimeKey} else md
  }

  /** Residual metadata becomes the payload; an empty remainder is left off the record. */
  function Payload(rest: Metadata): (p: Option<Metadata>)
    ensures p.Some? <==> |rest| > 0
    ensures p.Some? ==> p.value == rest
  {
    if |rest| == 0 then None else Some(rest)
  }

  /**
   * One loop iteration of the builder. `format` is the ISO-8601 formatter
   * (UTC, no zone suffix) that renders the receiver display time.
   */
  function PrepareSample(s: Sample, format: Date -> string): (r: Option<UploadRecord>)
    ensures r.Some? <==> s.QuantitySample? && MinValue <= s.mgdl <= MaxValue
    ensures r.Some? ==> Uploadable(r.value)
    ensures r.Some? ==>
              && r.value.value == s.mgdl
              && r.value.identity == s.identity
              && r.value.typeTag == DetermineTypeOfBG(s.sourceName, s.bundleId).Tag()
              && r.value.annotations == OutOfRangeAnnotations(s.mgdl)
    ensures r.Some? && r.value.subType.Some? ==>
              r.value.typeTag == "smbg" && r.value.subType == Some(ManualSubType)
    ensures r.Some? && s.metadata.None? ==>
              r.value.subType.None? && r.value.deviceTime.None? && r.value.payload.None?
    ensures r.Some? && s.metadata.Some? ==>
              var md := s.metadata.value;
              && r.value.subType == ManualMark(DetermineTypeOfBG(s.sourceName, s.bundleId), md)
              && r.value.payload == Payload(Residual(md))
              && (r.value.deviceTime.Some? <==> ReceiverTime(md).Some?)
              && (r.value.deviceTime.Some? ==> r.value.deviceTime.value == format(ReceiverTime(md).value))
              && (r.value.payload.Some? ==> r.value.payload.value.Keys <= md.Keys)
              && (r.value.deviceTime.Some? && r.value.payload.Some? ==>
                    ReceiverDisplayTimeKey !in r.value.payload.value)
  {
    match s
    case OtherSample(_) => None
    case QuantitySample(id, source, bundle, v, metadata) =>
      if v < MinValue || v > MaxValue then None
      else
        var t := DetermineTypeOfBG(source, bundle);
        var base := UploadRecord(t.Tag(), id, Units, v, OutOfRangeAnnotations(v), None, None, None);
        match metadata
        case None => Some(base)
        case Some(md) =>
          var deviceTime := match ReceiverTime(md)
                            case Some(d) => Some(format(d))
                            case None => None;
          Some(base.(subType := ManualMark(t, md),
                     deviceTime := deviceTime,
                     payload := Payload(Residual(md))))
  }

  /** `filterSamples`: the blood-glucose type filters nothing out. */
  function FilterSamples(sortedSamples: seq<Sample>): (r: seq<Sample>)
    ensures r == sortedSamples
  {
    sortedSamples
  }

  /** The batch as a left fold: the records of all but the last sample, then the last one's. */
  function Uploads(samples: seq<Sample>, format: Date -> string): (r: seq<UploadRecord>)
    ensures |r| <= |samples|
    ensures forall k | 0 <= k < |r| :: Uploadable(r[k])
  {
    if |samples| == 0 then []
    else Uploads(samples[..|samples| - 1], format) + PrepareSample(samples[|samples| - 1], format).ToSeq()
  }

  /** `prepareDataForUpload` over the (unfiltered) batch. */
  method PrepareDataForUpload(samples: seq<Sample>, format: Date -> string) returns (records: seq<UploadRecord>)
    ensures records == Uploads(FilterSamples(samples), format)
    ensures |records| <= |samples|
    ensures forall k | 0 <= k < |records| :: Uploadable(records[k])
  {
    var filtered := FilterSamples(samples);
    records := [];
    var i := 0;
    while i < |filtered|
      invariant 0 <= i <= |filtered|
      invariant records == Uploads(filtered[..i], format)
    {
      assert filtered[..i + 1][..i] == filtered[..i];
      assert Uploads(filtered[..i + 1], format) == Uploads(filtered[..i], format) + PrepareSample(filtered[i], format).ToSeq();
      records := records + PrepareSample(filtered[i], format).ToSeq();
      i := i + 1;
    }
    assert filtered[..i] == filtered;
  }

  /** Samples are handled independently: the batch's records are the concatenation of its parts'. */
  lemma {:induction false} UploadsAppend(a: seq<Sample>, b: seq<Sample>, format: Date -> string)
    ensures Uploads(a + b, format) == Uploads(a, format) + Uploads(b, format)
    decreases |b|
  {
    if |b| == 0 {
      assert a + b == a;
    } else {
      var b' := b[..|b| - 1];
      assert (a + b)[..|a + b| - 1] == a + b';
      assert (a + b)[|a + b| - 1] == b[|b| - 1];
      UploadsAppend(a, b', format);
    }
  }

  /** A non-quantity sample in the middle of a batch is dropped without affecting its neighbours. */
  lemma MalformedSampleIsIsolated(a: seq<Sample>, id: Identity, b: seq<Sample>, format: Date -> string)
    ensures Uploads(a + [OtherSample(id)] + b, format) == Uploads(a, format) + Uploads(b, format)
  {
    var bad := [OtherSample(id)];
    assert Uploads(bad, format) == [] by {
      assert bad[..0] == [];
      assert PrepareSample(bad[0], format).None?;
    }
    UploadsAppend(a, bad, format);
    UploadsAppend(a + bad, b, format);
  }

  /** The positions of the accepted samples, in increasing order. */
  ghost function AcceptedIndices(samples: seq<Sample>, format: Date -> string): (idx: seq<nat>)
    ensures forall k | 0 <= k < |idx| :: idx[k] < |samples|
    ensures forall k, l | 0 <= k < l < |idx| :: idx[k] < idx[l]
  {
    if |samples| == 0 then []
    else
      var n := |samples| - 1;
      AcceptedIndices(samples[..n], format) + (if PrepareSample(samples[n], format).Some? then [n] else [])
  }

  /** Record k is the record of the k-th accepted sample. */
  lemma {:induction false} UploadsFollowAcceptedIndices(samples: seq<Sample>, format: Date -> string)
    ensures var idx := AcceptedIndices(samples, format);
            var r := Uploads(samples, format);
            && |idx| == |r|
            && forall k | 0 <= k < |idx| :: PrepareSample(samples[idx[k]], format) == Some(r[k])
  {
    if |samples| > 0 {
      var n := |samples| - 1;
      var front := samples[..n];
      UploadsFollowAcceptedIndices(front, format);
      var idx0, r0 := AcceptedIndices(front, format), Uploads(front, format);
      var idx, r := AcceptedIndices(samples, format), Uploads(samples, format);
      var last := PrepareSample(samples[n], format);
      assert idx == idx0 + (if last.Some? then [n] else []);
      assert r == r0 + last.ToSeq();
      forall k | 0 <= k < |idx|
        ensures PrepareSample(samples[idx[k]], format) == Some(r[k])
      {
        if k < |idx0| {
          assert idx[k] == idx0[k] && r[k] == r0[k];
          assert samples[idx0[k]] == front[idx0[k]];
        }
      }
    }
  }

  /** A sample's position is among the accepted ones exactly when it passes the gate. */
  lemma {:induction false} AcceptedIndicesExact(samples: seq<Sample>, format: Date -> string)
    ensures forall i | 0 <= i < |samples| ::
              PrepareSample(samples[i], format).Some? <==> i in AcceptedIndices(samples, format)
  {
    if |samples| > 0 {
      var n := |samples| - 1;
      var front := samples[..n];
      AcceptedIndicesExact(front, format);
      var idx0, idx := AcceptedIndices(front, format), AcceptedIndices(samples, format);
      assert idx == idx0 + (if PrepareSample(samples[n], format).Some? then [n] else []);
      forall i | 0 <= i < |samples|
        ensures PrepareSample(samples[i], format).Some? <==> i in idx
      {
        if i < n {
          assert samples[i] == front[i];
          assert i in idx <==> i in idx0;
        }
      }
    }
  }

  /**
   * The output is the accepted samples' records in input order: record k comes from
   * the k-th accepted sample, positions strictly increase, and every sample that
   * passes the gate is represented.
   */
  lemma UploadsIsOrderedSubsequence(samples: seq<Sample>, format: Date -> string)
    ensures var idx := AcceptedIndices(samples, format);
            var r := Uploads(samples, format);
            && |idx| == |r|
            && (forall k | 0 <= k < |idx| :: idx[k] < |samples| && PrepareSample(samples[idx[k]], format) == Some(r[k]))
            && (forall k, l | 0 <= k < l < |idx| :: idx[k] < idx[l])
            && (forall i | 0 <= i < |samples| :: PrepareSample(samples[i], format).Some? <==> i in idx)
  {
    UploadsFollowAcceptedIndices(samples, format);
    AcceptedIndicesExact(samples, format);
  }

  /** The gate and the annotation thresholds at their boundaries. */
  lemma GateAndThresholdBoundaries(id: Identity, format: Date -> string)
    ensures PrepareSample(QuantitySample(id, "Meter", "com.acme.meter", -1.0, None), format).None?
    ensures PrepareSample(QuantitySample(id, "Meter", "com.acme.meter", 1000.1, None), format).None?
    ensures PrepareSample(QuantitySample(id, "Meter", "com.acme.meter", 0.0, None), format).Some?
    ensures PrepareSample(QuantitySample(id, "Meter", "com.acme.meter", 1000.0, None), format).Some?
    ensures OutOfRangeAnnotations(39.9) == Some([LowAnnotation])
    ensures OutOfRangeAnnotations(40.0).None? && OutOfRangeAnnotations(400.0).None?
    ensures OutOfRangeAnnotations(400.1) == Some([HighAnnotation])
  {
  }

  /** A user-entered reading from a continuous source never becomes "manual". */
  lemma ContinuousReadingIsNeverManual(id: Identity, bundleId: string, v: real, md: Metadata, format: Date -> string)
    requires MinValue <= v <= MaxValue
    requires md == map[WasUserEnteredKey := BoolValue(true)]
    ensures var r := PrepareSample(QuantitySample(id, "Loop", bundleId, v, Some(md)), format);
            r.Some? && r.value.typeTag == "cbg" && r.value.subType.None?
  {
  }

  /** A user-entered reading that no cbg rule claims is marked "manual". */
  lemma UserEnteredSmbgIsManual(id: Identity, src: string, bundleId: string, v: real, md: Metadata, format: Date -> string)
    requires MinValue <= v <= MaxValue
    requires DetermineTypeOfBG(src, bundleId) == Smbg
    requires WasUserEnteredKey in md && md[WasUserEnteredKey] == BoolValue(true)
    ensures var r := PrepareSample(QuantitySample(id, src, bundleId, v, Some(md)), format);
            r.Some? && r.value.typeTag == "smbg" && r.value.subType == Some(ManualSubType)
  {
  }

  /** Every metadata entry other than a consumed receiver time reaches the payload unchanged. */
  lemma OtherMetadataReachesPayload(s: Sample, format: Date -> string, k: string)
    requires s.QuantitySample? && MinValue <= s.mgdl <= MaxValue && s.metadata.Some?
    requires k in s.metadata.value && k != ReceiverDisplayTimeKey
    ensures var r := PrepareSample(s, format).value;
            r.payload.Some? && k in r.payload.value && r.payload.value[k] == s.metadata.value[k]
  {
    var md := s.metadata.value;
    assert k in Residual(md);
  }

  /** A Date under the receiver key moves to deviceTime and leaves only the other keys as payload. */
  lemma ReceiverTimeIsScrubbed(id: Identity, src: string, bundleId: string, v: real, d: Date, format: Date -> string)
    requires MinValue <= v <= MaxValue
    ensures var md := map[ReceiverDisplayTimeKey := DateValue(d), "foo" := TextValue("bar")];
            var r := PrepareSample(QuantitySample(id, src, bundleId, v, Some(md)), format);
            && r.Some?
            && r.value.deviceTime == Some(format(d))
            && r.value.payload == Some(map["foo" := TextValue("bar")])
  {
    var md := map[ReceiverDisplayTimeKey := DateValue(d), "foo" := TextValue("bar")];
    assert Residual(md) == map["foo" := TextValue("bar")];
  }

  /** A value under the receiver key that is not a Date is neither consumed nor removed. */
  lemma NonDateReceiverTimeStays(id: Identity, src: string, bundleId: string, v: real, md: Metadata, format: Date -> string)
    requires MinValue <= v <= MaxValue
    requires ReceiverDisplayTimeKey in md && !md[ReceiverDisplayTimeKey].DateValue?
    ensures var r := PrepareSample(QuantitySample(id, src, bundleId, v, Some(md)), format);
            && r.Some?
            && r.value.deviceTime.None?
            && r.value.payload == Some(md)
  {
  }
}
