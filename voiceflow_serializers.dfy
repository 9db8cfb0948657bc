/** KBChatRequestSerializer: a message of at most 4000 characters and an optional chunk limit in 1..20. */
module VoiceflowSerializers {
  import opened Wrappers
  import opened Text
  import opened JsonData
  import opened DrfFields

  const MaxMessage: nat := 4000
  const DefaultChunkLimit: int := 6

  datatype KbChatRequest = KbChatRequest(message: string, chunkLimit: int)

  /** The chunk_limit field: absent means the default, which is not validated. */
  function ChunkLimit(v: Option<Json>): (r: Result<int, FieldError>)
    ensures v.None? ==> r == Success(DefaultChunkLimit)
    ensures r.Success? ==> 1 <= r.value <= 20
    ensures v.Some? ==> r == IntegerField(v.value, Some(1), Some(20))
  {
    if v.None? then Success(DefaultChunkLimit) else IntegerField(v.value, Some(1), Some(20))
  }

  function Errors(message: Result<string, FieldError>, chunk: Result<int, FieldError>): map<string, FieldError> {
    var m := if message.Failure? then map["message" := message.error] else map[];
    if chunk.Failure? then m["chunk_limit" := chunk.error] else m
  }

  /** The message field as the serializer accepts it: a string, not blank, at most 4000 characters once trimmed, no null character. */
  predicate GoodMessage(fields: map<string, Json>) {
    "message" in fields && fields["message"].JStr? && AcceptableText(fields["message"].s, Some(MaxMessage))
  }

  /**
   * is_valid() on a request body: both fields are validated and their
   * errors reported together; a body that is not an object is refused as a
   * whole ("No data provided" for null).
   */
  function ValidateKbChat(body: Json): (r: Result<KbChatRequest, map<string, FieldError>>)
    ensures body == JNull ==> r == Failure(map["non_field_errors" := Null])
    ensures !body.JObj? && body != JNull ==> r == Failure(map["non_field_errors" := Invalid])
    ensures r.Success? ==> body.JObj? && "message" in body.fields
    ensures r.Success? ==> |r.value.message| <= MaxMessage && r.value.message != [] && NoOuterSpace(r.value.message)
    ensures r.Success? ==> 1 <= r.value.chunkLimit <= 20
    ensures r.Success? && "chunk_limit" !in body.fields ==> r.value.chunkLimit == DefaultChunkLimit
    ensures r.Success? && body.fields["message"].JStr? ==> r.value.message == Strip(body.fields["message"].s)
    ensures body.JObj? && GoodMessage(body.fields) && "chunk_limit" !in body.fields ==>
      r == Success(KbChatRequest(Strip(body.fields["message"].s), DefaultChunkLimit))
    ensures body.JObj? && GoodMessage(body.fields) && "chunk_limit" in body.fields && body.fields["chunk_limit"].JInt?
      && 1 <= body.fields["chunk_limit"].i <= 20
      ==> r == Success(KbChatRequest(Strip(body.fields["message"].s), body.fields["chunk_limit"].i))
    ensures body.JObj? && "message" in body.fields && body.fields["message"].JStr? && !GoodMessage(body.fields) ==>
      r.Failure? && "message" in r.error
    ensures body.JObj? && "message" !in body.fields ==> r.Failure? && "message" in r.error && r.error["message"] == Required
  {
    if body == JNull then Failure(map["non_field_errors" := Null])
    else if !body.JObj? then Failure(map["non_field_errors" := Invalid])
    else
      var message := CharField(Field(body.fields, "message"), Some(MaxMessage));
      var chunk := ChunkLimit(Field(body.fields, "chunk_limit"));
      if message.Success? && chunk.Success? then Success(KbChatRequest(message.value, chunk.value))
      else Failure(Errors(message, chunk))
  }

  /** A supplied chunk limit outside 1..20 is refused, whatever the message. */
  lemma ChunkLimitBounds(fields: map<string, Json>, n: int)
    requires "chunk_limit" in fields && fields["chunk_limit"] == JInt(n)
    ensures ValidateKbChat(JObj(fields)).Success? ==> 1 <= n <= 20
    ensures n < 1 ==> ValidateKbChat(JObj(fields)).Failure? && "chunk_limit" in ValidateKbChat(JObj(fields)).error && ValidateKbChat(JObj(fields)).error["chunk_limit"] == MinValue(1)
    ensures n > 20 ==> ValidateKbChat(JObj(fields)).Failure? && "chunk_limit" in ValidateKbChat(JObj(fields)).error && ValidateKbChat(JObj(fields)).error["chunk_limit"] == MaxValue(20)
  {
  }

  /** A chunk limit sent as a numeral string reads as the number itself. */
  lemma ChunkLimitFromString(n: int)
    requires |IntToString(n)| <= 1000
    ensures ChunkLimit(Some(JStr(IntToString(n)))) == ChunkLimit(Some(JInt(n)))
  {
    NumeralReadsAsInt(n);
  }
}
