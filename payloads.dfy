/** interact_payload: the request body sent to the Voiceflow interact endpoint. */
module Payloads {
  import opened JsonData

  /** {"type": "text", "payload": data.get("message", "")}. */
  function TextRequest(data: map<string, Json>): Json {
    JObj(map["type" := JStr("text"), "payload" := GetOr(data, "message", JStr(""))])
  }

  const LaunchRequest: Json := JObj(map["type" := JStr("launch")])

  /**
   * The request type defaults to "text" only when the key is absent; a
   * "choice" passes data["request"] (or {}) through, any other type passes
   * it through when present and otherwise sends a text request.
   */
  function InteractPayload(data: map<string, Json>): (r: map<string, Json>)
    ensures r.Keys == {"request"}
  {
    var kind := GetOr(data, "type", JStr("text"));
    if kind == JStr("launch") then map["request" := LaunchRequest]
    else if kind == JStr("text") then map["request" := TextRequest(data)]
    else if kind == JStr("choice") then map["request" := GetOr(data, "request", JObj(map[]))]
    else if "request" in data then map["request" := data["request"]]
    else map["request" := TextRequest(data)]
  }

  /** A missing type is read as "text". */
  lemma MissingTypeIsText(data: map<string, Json>)
    requires "type" !in data
    ensures InteractPayload(data) == InteractPayload(data["type" := JStr("text")])
    ensures InteractPayload(data)["request"] == TextRequest(data)
  {
    var data' := data["type" := JStr("text")];
    assert GetOr(data', "message", JStr("")) == GetOr(data, "message", JStr(""));
  }

  /** "launch" gives the fixed launch request whatever else the body holds. */
  lemma LaunchIgnoresRest(d1: map<string, Json>, d2: map<string, Json>)
    requires "type" in d1 && d1["type"] == JStr("launch")
    requires "type" in d2 && d2["type"] == JStr("launch")
    ensures InteractPayload(d1) == InteractPayload(d2) == map["request" := LaunchRequest]
  {
  }

  /** "text" sends the message, or "" when there is none. */
  lemma TextSendsMessage(data: map<string, Json>)
    requires GetOr(data, "type", JStr("text")) == JStr("text")
    ensures InteractPayload(data)["request"] ==
      JObj(map["type" := JStr("text"), "payload" := if "message" in data then data["message"] else JStr("")])
  {
  }

  /** "choice" passes the request through, or {} when there is none. */
  lemma ChoicePassesRequest(data: map<string, Json>)
    requires "type" in data && data["type"] == JStr("choice")
    ensures InteractPayload(data)["request"] == if "request" in data then data["request"] else JObj(map[])
  {
  }

  /** Any other type, null included, passes the request through if present, else sends a text request. */
  lemma OtherTypePassesRequest(data: map<string, Json>)
    requires "type" in data && data["type"] !in {JStr("launch"), JStr("text"), JStr("choice")}
    ensures InteractPayload(data)["request"] == if "request" in data then data["request"] else TextRequest(data)
  {
  }

  /** An explicit null type is not the same as a missing one. */
  lemma NullTypeIsNotMissing()
    ensures var req := JObj(map["type" := JStr("intent")]);
      && InteractPayload(map["type" := JNull, "request" := req]) == map["request" := req]
      && InteractPayload(map["request" := req]) == map["request" := TextRequest(map[])]
  {
    var req := JObj(map["type" := JStr("intent")]);
    var d := map["request" := req];
    assert GetOr(d, "message", JStr("")) == GetOr(map[], "message", JStr(""));
  }
}
