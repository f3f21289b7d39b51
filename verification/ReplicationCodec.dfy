/**
 The messages brokers exchange for replication. A decoder accepts exactly the
 encodings of messages within the length limits, followed by anything, and
 returns that message.
 */
module ReplicationCodec {
  import opened Bytes
  import opened Wrappers
  import opened Wire

  datatype ReplicaAppend = ReplicaAppend(topic: seq<byte>, partition: int32, baseOffset: int64,
                                         leaderHighWatermark: int64, records: seq<byte>)

  datatype ReplicaFetch = ReplicaFetch(topic: seq<byte>, partition: int32, offset: int64, maxBytes: int32)

  datatype ReplicaFetchResult = ReplicaFetchResult(errorCode: int16, leaderHighWatermark: int64,
                                                   logEndOffset: int64, records: seq<byte>)

  datatype ReplicaAppendReply = ReplicaAppendReply(errorCode: int16, logEndOffset: int64)

  const MAX_BYTES: nat := 0x8000_0000

  // ---- Layouts ----------------------------------------------------------------

  function AppendBytes(r: ReplicaAppend): seq<byte> {
    StringBytes(r.topic)
    + (PutBe(r.partition, 4)
       + (PutBe(r.baseOffset, 8) + (PutBe(r.leaderHighWatermark, 8) + BytesBytes(r.records))))
  }

  function FetchBytes(r: ReplicaFetch): seq<byte> {
    StringBytes(r.topic) + (PutBe(r.partition, 4) + (PutBe(r.offset, 8) + PutBe(r.maxBytes, 4)))
  }

  function FetchResultBytes(r: ReplicaFetchResult): seq<byte> {
    PutBe(r.errorCode, 2) + (PutBe(r.leaderHighWatermark, 8) + (PutBe(r.logEndOffset, 8) + BytesBytes(r.records)))
  }

  function AppendReplyBytes(r: ReplicaAppendReply): seq<byte> {
    PutBe(r.errorCode, 2) + PutBe(r.logEndOffset, 8)
  }

  /** Where everything is in a message. */
  lemma AppendFields(r: ReplicaAppend)
    ensures var s, k := AppendBytes(r), |r.topic|;
            && |s| == 26 + k + |r.records|
            && s[..2] == PutBe(k, 2) && s[2..2 + k] == r.topic && s[2 + k..6 + k] == PutBe(r.partition, 4)
            && s[6 + k..14 + k] == PutBe(r.baseOffset, 8) && s[14 + k..22 + k] == PutBe(r.leaderHighWatermark, 8)
            && s[22 + k..26 + k] == PutBe(|r.records|, 4) && s[26 + k..] == r.records
  {
    hide PutBe;
  }

  lemma FetchFields(r: ReplicaFetch)
    ensures var s, k := FetchBytes(r), |r.topic|;
            && |s| == 18 + k
            && s[..2] == PutBe(k, 2) && s[2..2 + k] == r.topic && s[2 + k..6 + k] == PutBe(r.partition, 4)
            && s[6 + k..14 + k] == PutBe(r.offset, 8) && s[14 + k..] == PutBe(r.maxBytes, 4)
  {
    hide PutBe;
  }

  lemma FetchResultFields(r: ReplicaFetchResult)
    ensures var s := FetchResultBytes(r);
            && |s| == 22 + |r.records|
            && s[..2] == PutBe(r.errorCode, 2) && s[2..10] == PutBe(r.leaderHighWatermark, 8)
            && s[10..18] == PutBe(r.logEndOffset, 8) && s[18..22] == PutBe(|r.records|, 4) && s[22..] == r.records
  {
    hide PutBe;
  }

  // ---- Grammars ---------------------------------------------------------------

  function TakeInt16(s: seq<byte>): Parse<int16> {
    var v :- TakeInt(s, 2);
    InRange(s);
    Ok((v.0, v.1))
  }

  function TakeInt32(s: seq<byte>): Parse<int32> {
    var v :- TakeInt(s, 4);
    InRange(s);
    Ok((v.0, v.1))
  }

  function TakeInt64(s: seq<byte>): Parse<int64> {
    var v :- TakeInt(s, 8);
    InRange(s);
    Ok((v.0, v.1))
  }

  lemma InRange(s: seq<byte>)
    ensures |s| >= 2 ==> -0x8000 <= GetBe(s[..2]) < 0x8000
    ensures |s| >= 4 ==> -0x8000_0000 <= GetBe(s[..4]) < 0x8000_0000
    ensures |s| >= 8 ==> -0x8000_0000_0000_0000 <= GetBe(s[..8]) < 0x8000_0000_0000_0000
  {
    Widths();
    if |s| >= 2 { GetBeFits(s[..2]); }
    if |s| >= 4 { GetBeFits(s[..4]); }
    if |s| >= 8 { GetBeFits(s[..8]); }
  }

  function TakeAppend(s: seq<byte>): Parse<ReplicaAppend> {
    var topic :- TakeString(s);
    var partition :- TakeInt32(topic.1);
    var base :- TakeInt64(partition.1);
    var high :- TakeInt64(base.1);
    var records :- TakeBytes(high.1);
    Ok((ReplicaAppend(topic.0, partition.0, base.0, high.0, records.0), records.1))
  }

  function TakeFetch(s: seq<byte>): Parse<ReplicaFetch> {
    var topic :- TakeString(s);
    var partition :- TakeInt32(topic.1);
    var offset :- TakeInt64(partition.1);
    var limit :- TakeInt32(offset.1);
    Ok((ReplicaFetch(topic.0, partition.0, offset.0, limit.0), limit.1))
  }

  function TakeFetchResult(s: seq<byte>): Parse<ReplicaFetchResult> {
    var code :- TakeInt16(s);
    var high :- TakeInt64(code.1);
    var end :- TakeInt64(high.1);
    var records :- TakeBytes(end.1);
    Ok((ReplicaFetchResult(code.0, high.0, end.0, records.0), records.1))
  }

  function TakeAppendReply(s: seq<byte>): Parse<ReplicaAppendReply> {
    var code :- TakeInt16(s);
    var end :- TakeInt64(code.1);
    Ok((ReplicaAppendReply(code.0, end.0), end.1))
  }

  // ---- Exactness --------------------------------------------------------------

  lemma Int16Exact(s: seq<byte>, v: int16, rest: seq<byte>)
    ensures TakeInt16(s) == Ok((v, rest)) <==> s == PutBe(v, 2) + rest
  {
    Widths();
    IntExact(s, 2, v, rest);
  }

  lemma Int32Exact(s: seq<byte>, v: int32, rest: seq<byte>)
    ensures TakeInt32(s) == Ok((v, rest)) <==> s == PutBe(v, 4) + rest
  {
    Widths();
    IntExact(s, 4, v, rest);
  }

  lemma Int64Exact(s: seq<byte>, v: int64, rest: seq<byte>)
    ensures TakeInt64(s) == Ok((v, rest)) <==> s == PutBe(v, 8) + rest
  {
    Widths();
    IntExact(s, 8, v, rest);
  }

  /** Replica append: exactly its encodings, within the limits, decode. */
  lemma AppendExact(s: seq<byte>, r: ReplicaAppend, rest: seq<byte>)
    ensures TakeAppend(s) == Ok((r, rest))
       <==> |r.topic| <= MAX_STRING && |r.records| < MAX_BYTES && s == AppendBytes(r) + rest
  {
    hide PutBe, TakeString, TakeInt32, TakeInt64, TakeBytes, StringBytes, BytesBytes;
    var s4 := BytesBytes(r.records) + rest;
    var s3 := PutBe(r.leaderHighWatermark, 8) + s4;
    var s2 := PutBe(r.baseOffset, 8) + s3;
    var s1 := PutBe(r.partition, 4) + s2;
    assert AppendBytes(r) + rest == StringBytes(r.topic) + s1;
    StringExact(s, r.topic, s1);
    Int32Exact(s1, r.partition, s2);
    Int64Exact(s2, r.baseOffset, s3);
    Int64Exact(s3, r.leaderHighWatermark, s4);
    BytesExact(s4, r.records, rest);
    if TakeAppend(s) == Ok((r, rest)) {
      var t1 := TakeString(s).value.1;
      var t2 := TakeInt32(t1).value.1;
      var t3 := TakeInt64(t2).value.1;
      var t4 := TakeInt64(t3).value.1;
      BytesExact(t4, r.records, rest);
      Int64Exact(t3, r.leaderHighWatermark, t4);
      Int64Exact(t2, r.baseOffset, t3);
      Int32Exact(t1, r.partition, t2);
      StringExact(s, r.topic, t1);
    }
  }

  lemma FetchExact(s: seq<byte>, r: ReplicaFetch, rest: seq<byte>)
    ensures TakeFetch(s) == Ok((r, rest)) <==> |r.topic| <= MAX_STRING && s == FetchBytes(r) + rest
  {
    hide PutBe, TakeString, TakeInt32, TakeInt64, StringBytes;
    var s3 := PutBe(r.maxBytes, 4) + rest;
    var s2 := PutBe(r.offset, 8) + s3;
    var s1 := PutBe(r.partition, 4) + s2;
    assert FetchBytes(r) + rest == StringBytes(r.topic) + s1;
    StringExact(s, r.topic, s1);
    Int32Exact(s1, r.partition, s2);
    Int64Exact(s2, r.offset, s3);
    Int32Exact(s3, r.maxBytes, rest);
    if TakeFetch(s) == Ok((r, rest)) {
      var t1 := TakeString(s).value.1;
      var t2 := TakeInt32(t1).value.1;
      var t3 := TakeInt64(t2).value.1;
      Int32Exact(t3, r.maxBytes, rest);
      Int64Exact(t2, r.offset, t3);
      Int32Exact(t1, r.partition, t2);
      StringExact(s, r.topic, t1);
    }
  }

  lemma FetchResultExact(s: seq<byte>, r: ReplicaFetchResult, rest: seq<byte>)
    ensures TakeFetchResult(s) == Ok((r, rest)) <==> |r.records| < MAX_BYTES && s == FetchResultBytes(r) + rest
  {
    hide PutBe, TakeInt16, TakeInt64, TakeBytes, BytesBytes;
    var s3 := BytesBytes(r.records) + rest;
    var s2 := PutBe(r.logEndOffset, 8) + s3;
    var s1 := PutBe(r.leaderHighWatermark, 8) + s2;
    assert FetchResultBytes(r) + rest == PutBe(r.errorCode, 2) + s1;
    Int16Exact(s, r.errorCode, s1);
    Int64Exact(s1, r.leaderHighWatermark, s2);
    Int64Exact(s2, r.logEndOffset, s3);
    BytesExact(s3, r.records, rest);
    if TakeFetchResult(s) == Ok((r, rest)) {
      var t1 := TakeInt16(s).value.1;
      var t2 := TakeInt64(t1).value.1;
      var t3 := TakeInt64(t2).value.1;
      BytesExact(t3, r.records, rest);
      Int64Exact(t2, r.logEndOffset, t3);
      Int64Exact(t1, r.leaderHighWatermark, t2);
      Int16Exact(s, r.errorCode, t1);
    }
  }

  lemma AppendReplyExact(s: seq<byte>, r: ReplicaAppendReply, rest: seq<byte>)
    ensures TakeAppendReply(s) == Ok((r, rest)) <==> s == AppendReplyBytes(r) + rest
  {
    hide PutBe, TakeInt16, TakeInt64;
    var s1 := PutBe(r.logEndOffset, 8) + rest;
    assert AppendReplyBytes(r) + rest == PutBe(r.errorCode, 2) + s1;
    Int16Exact(s, r.errorCode, s1);
    Int64Exact(s1, r.logEndOffset, rest);
    if TakeAppendReply(s) == Ok((r, rest)) {
      var t1 := TakeInt16(s).value.1;
      Int64Exact(t1, r.logEndOffset, rest);
      Int16Exact(s, r.errorCode, t1);
    }
  }

  /** What is sent decodes to itself with no byte left over, exactly when the records' length
   fits a signed 32-bit field; the encoder does not check that. */
  lemma AppendRoundTrip(r: ReplicaAppend)
    requires |r.topic| <= MAX_STRING
    ensures TakeAppend(AppendBytes(r)) == Ok((r, [])) <==> |r.records| < MAX_BYTES
  {
    AppendExact(AppendBytes(r), r, []);
    assert AppendBytes(r) + [] == AppendBytes(r);
  }

  lemma FetchRoundTrip(r: ReplicaFetch)
    requires |r.topic| <= MAX_STRING
    ensures TakeFetch(FetchBytes(r)) == Ok((r, []))
  {
    FetchExact(FetchBytes(r), r, []);
    assert FetchBytes(r) + [] == FetchBytes(r);
  }

  lemma FetchResultRoundTrip(r: ReplicaFetchResult)
    ensures TakeFetchResult(FetchResultBytes(r)) == Ok((r, [])) <==> |r.records| < MAX_BYTES
  {
    FetchResultExact(FetchResultBytes(r), r, []);
    assert FetchResultBytes(r) + [] == FetchResultBytes(r);
  }

  // ---- Encoders and decoders --------------------------------------------------

  /** The value of a parse; what follows it is ignored. */
  ghost function Decoded<T>(p: Parse<T>): Result<T, WireError> {
    if p.Ok? then Ok(p.value.0) else Err(p.error)
  }

  method EncodeReplicaAppend(request: ReplicaAppend) returns (r: Result<seq<byte>, WireError>)
    ensures r == if |request.topic| > MAX_STRING then Err(StringTooLarge) else Ok(AppendBytes(request))
  {
    hide PutBe, StringBytes, BytesBytes;
    var writer := new WireWriter();
    var _ :- writer.WriteString(request.topic);
    writer.WriteInt(request.partition, 4);
    writer.WriteInt(request.baseOffset, 8);
    writer.WriteInt(request.leaderHighWatermark, 8);
    writer.WriteBytes(request.records);
    assert writer.data == AppendBytes(request);
    return Ok(writer.data);
  }

  method DecodeReplicaAppend(payload: seq<byte>) returns (r: Result<ReplicaAppend, WireError>)
    ensures r == Decoded(TakeAppend(payload))
  {
    hide TakeString, TakeInt, TakeBytes;
    var reader := new WireReader(payload);
    var topic :- reader.ReadString();
    var partition :- ReadInt32(reader);
    var base :- ReadInt64(reader);
    var high :- ReadInt64(reader);
    var records :- reader.ReadBytes();
    return Ok(ReplicaAppend(topic, partition, base, high, records));
  }

  method EncodeReplicaFetch(request: ReplicaFetch) returns (r: Result<seq<byte>, WireError>)
    ensures r == if |request.topic| > MAX_STRING then Err(StringTooLarge) else Ok(FetchBytes(request))
  {
    hide PutBe, StringBytes;
    var writer := new WireWriter();
    var _ :- writer.WriteString(request.topic);
    writer.WriteInt(request.partition, 4);
    writer.WriteInt(request.offset, 8);
    writer.WriteInt(request.maxBytes, 4);
    assert writer.data == FetchBytes(request);
    return Ok(writer.data);
  }

  method DecodeReplicaFetch(payload: seq<byte>) returns (r: Result<ReplicaFetch, WireError>)
    ensures r == Decoded(TakeFetch(payload))
  {
    hide TakeString, TakeInt;
    var reader := new WireReader(payload);
    var topic :- reader.ReadString();
    var partition :- ReadInt32(reader);
    var offset :- ReadInt64(reader);
    var limit :- ReadInt32(reader);
    return Ok(ReplicaFetch(topic, partition, offset, limit));
  }

  method EncodeReplicaFetchResponse(result: ReplicaFetchResult) returns (payload: seq<byte>)
    ensures payload == FetchResultBytes(result)
  {
    hide PutBe, BytesBytes;
    var writer := new WireWriter();
    writer.WriteInt(result.errorCode, 2);
    writer.WriteInt(result.leaderHighWatermark, 8);
    writer.WriteInt(result.logEndOffset, 8);
    writer.WriteBytes(result.records);
    return writer.data;
  }

  method DecodeReplicaFetchResponse(payload: seq<byte>) returns (r: Result<ReplicaFetchResult, WireError>)
    ensures r == Decoded(TakeFetchResult(payload))
  {
    hide TakeInt, TakeBytes;
    var reader := new WireReader(payload);
    var code :- ReadInt16(reader);
    var high :- ReadInt64(reader);
    var end :- ReadInt64(reader);
    var records :- reader.ReadBytes();
    return Ok(ReplicaFetchResult(code, high, end, records));
  }

  method EncodeReplicaAppendResponse(errorCode: int16, logEndOffset: int64) returns (payload: seq<byte>)
    ensures payload == AppendReplyBytes(ReplicaAppendReply(errorCode, logEndOffset))
  {
    hide PutBe;
    var writer := new WireWriter();
    writer.WriteInt(errorCode, 2);
    writer.WriteInt(logEndOffset, 8);
    return writer.data;
  }

  /** The leader keeps only the error code. */
  method DecodeReplicaAppendResponse(payload: seq<byte>) returns (r: Result<int16, WireError>)
    ensures var p := TakeAppendReply(payload); r == if p.Ok? then Ok(p.value.0.errorCode) else Err(p.error)
  {
    hide TakeInt;
    var reader := new WireReader(payload);
    var code :- ReadInt16(reader);
    var _ :- ReadInt64(reader);
    return Ok(code);
  }

  method ReadInt16(reader: WireReader) returns (r: Result<int16, WireError>)
    requires reader.Valid()
    modifies reader
    ensures reader.Valid() && reader.Reads(TakeInt16(old(reader.Unread())), r)
  {
    InRange(reader.Unread());
    var v :- reader.ReadInt(2);
    return Ok(v);
  }

  method ReadInt32(reader: WireReader) returns (r: Result<int32, WireError>)
    requires reader.Valid()
    modifies reader
    ensures reader.Valid() && reader.Reads(TakeInt32(old(reader.Unread())), r)
  {
    InRange(reader.Unread());
    var v :- reader.ReadInt(4);
    return Ok(v);
  }

  method ReadInt64(reader: WireReader) returns (r: Result<int64, WireError>)
    requires reader.Valid()
    modifies reader
    ensures reader.Valid() && reader.Reads(TakeInt64(old(reader.Unread())), r)
  {
    InRange(reader.Unread());
    var v :- reader.ReadInt(8);
    return Ok(v);
  }
}
