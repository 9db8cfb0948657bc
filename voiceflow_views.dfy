/**
 * The Voiceflow endpoint: optionally reset the conversation, set the
 * session variables on launch or reset, then always interact, and answer
 * with the parsed traces. Calls to the Voiceflow service are recorded as
 * an ordered list of effects; what the interact call returns or raises is
 * an input.
 */
module VoiceflowViews {
  import opened Wrappers
  import opened JsonData
  import DrfFields
  import opened Mappings
  import opened KbFilters
  import opened Payloads
  import opened TraceParser

  const Fallback: string := "Entschuldige, ich konnte keine Antwort erhalten."

  /** The calls made to the Voiceflow service, for the given user id string. */
  datatype Effect =
    | ResetState(user: string)
    | SetVariables(user: string, variables: map<string, string>)
    | Interact(user: string, payload: map<string, Json>)

  /** What vf_interact does: return the decoded trace list, or raise with an error text. */
  datatype Outcome = Replied(traces: Json) | Raised(error: string)

  datatype VfResponse =
    | Flow(messages: seq<Json>, choices: seq<Json>, audio: Json) // 200
    | BadGateway(error: string)                                 // 502 {"error": …}
    | ServerError                                               // uncaught, 500

  datatype PostResult = PostResult(effects: seq<Effect>, response: VfResponse)

  /**
   * _flow_response: the parsed traces, with the fallback message when there
   * are none, so the answer always holds a message (ParsedReplyAnswered).
   */
  function FlowResponse(p: Parsed): (r: VfResponse)
    ensures r.Flow? && r.messages != []
    ensures r.choices == p.choices && r.audio == p.audio
    ensures p.messages != [] ==> r.messages == p.messages
    ensures p.messages == [] ==> r.messages == [JStr(Fallback)]
  {
    Flow(if p.messages == [] then [JStr(Fallback)] else p.messages, p.choices, p.audio)
  }

  /**
   * _handle_interaction: any exception of the interaction or of parsing its
   * reply is a 502, and the interaction never ends in an uncaught error.
   */
  function HandleInteraction(outcome: Outcome): (r: VfResponse)
    ensures !r.ServerError?
    ensures r.Flow? <==> outcome.Replied? && ParseTraceList(outcome.traces).Success?
    ensures outcome.Raised? ==> r == BadGateway(outcome.error)
    ensures outcome.Replied? && ParseTraceList(outcome.traces).Failure?
      ==> r == BadGateway(ParseTraceList(outcome.traces).error)
    ensures r.Flow? ==> r == FlowResponse(ParseTraceList(outcome.traces).value)
  {
    match outcome
    case Raised(e) => BadGateway(e)
    case Replied(traces) =>
      match ParseTraceList(traces)
      case Failure(e) => BadGateway(e)
      case Success(p) => FlowResponse(p)
  }

  /**
   * _set_user_variables: at most one call, made exactly when the variables
   * can be built; when building them raises, nothing is sent and nothing is
   * reported.
   */
  function SetUserVariables(user: string, t: Tables, profile: Profile): (effects: seq<Effect>)
    ensures |effects| <= 1
    ensures effects != [] <==> BuildVariables(t, profile).Some?
    ensures forall k :: 0 <= k < |effects| ==> effects[k].SetVariables? && effects[k].user == user
  {
    var vars := BuildVariables(t, profile);
    if vars.None? then [] else [SetVariables(user, vars.value)]
  }

  /** Whether the body asks for a reset, or for launch or reset. */
  predicate WantsReset(data: map<string, Json>) {
    Truthy(Get(data, "reset"))
  }

  predicate WantsVariables(data: map<string, Json>) {
    Get(data, "type") == JStr("launch") || WantsReset(data)
  }

  /**
   * VoiceflowAPIView.post for the authenticated user `userId`. A body that
   * is not an object fails at data.get before any call is made.
   */
  function Post(userId: int, body: Json, t: Tables, profile: Profile, outcome: Outcome): PostResult {
    if !body.JObj? then PostResult([], ServerError)
    else
      PostResult(PostEffects(DrfFields.IntToString(userId), body.fields, t, profile), HandleInteraction(outcome))
  }

  /** The calls post makes for a body object, in order: reset, variables, interact. */
  function PostEffects(user: string, data: map<string, Json>, t: Tables, profile: Profile): seq<Effect> {
    var reset := if WantsReset(data) then [ResetState(user)] else [];
    var variables := if WantsVariables(data) then SetUserVariables(user, t, profile) else [];
    reset + variables + [Interact(user, InteractPayload(data))]
  }

  // -----------------------------------------------------------------------
  // Properties

  function CountInteract(effects: seq<Effect>): nat {
    if effects == [] then 0
    else CountInteract(effects[..|effects| - 1]) + (if effects[|effects| - 1].Interact? then 1 else 0)
  }

  lemma {:induction false} CountInteractAppend(a: seq<Effect>, b: seq<Effect>)
    ensures CountInteract(a + b) == CountInteract(a) + CountInteract(b)
    decreases |b|
  {
    if b == [] {
      assert a + b == a;
    } else {
      assert (a + b)[..|a + b| - 1] == a + b[..|b| - 1];
      CountInteractAppend(a, b[..|b| - 1]);
    }
  }

  /**
   * The interaction is always attempted, exactly once and as the last
   * effect, with the user's id and the built payload.
   */
  lemma InteractionLast(userId: int, data: map<string, Json>, t: Tables, profile: Profile, outcome: Outcome)
    ensures var effects := Post(userId, JObj(data), t, profile, outcome).effects;
      && effects != []
      && effects[|effects| - 1] == Interact(DrfFields.IntToString(userId), InteractPayload(data))
      && CountInteract(effects) == 1
  {
    EffectsEndInInteraction(DrfFields.IntToString(userId), data, t, profile);
  }

  lemma {:induction false} EffectsEndInInteraction(user: string, data: map<string, Json>, t: Tables, profile: Profile)
    ensures var effects := PostEffects(user, data, t, profile);
      && effects != []
      && effects[|effects| - 1] == Interact(user, InteractPayload(data))
      && CountInteract(effects) == 1
  {
    var reset := if WantsReset(data) then [ResetState(user)] else [];
    var variables := if WantsVariables(data) then SetUserVariables(user, t, profile) else [];
    assert forall k :: 0 <= k < |variables| ==> variables[k].SetVariables?;
    OneInteractLast(reset, variables, Interact(user, InteractPayload(data)));
  }

  /** Calls that are no interaction, then one interaction: it is the only one, and the last. */
  lemma {:induction false} OneInteractLast(reset: seq<Effect>, variables: seq<Effect>, last: Effect)
    requires |reset| <= 1 && |variables| <= 1 && last.Interact?
    requires forall k :: 0 <= k < |reset| ==> !reset[k].Interact?
    requires forall k :: 0 <= k < |variables| ==> !variables[k].Interact?
    ensures var effects := reset + variables + [last];
      effects[|effects| - 1] == last && CountInteract(effects) == 1
  {
    CountInteractAppend(reset, variables);
    CountInteractAppend(reset + variables, [last]);
    if reset != [] {
      assert reset[..0] == [];
    }
    if variables != [] {
      assert variables[..0] == [];
    }
    assert [last][..0] == [];
  }

  /** The reset comes first, and only when the body asks for one. */
  lemma ResetFirst(userId: int, data: map<string, Json>, t: Tables, profile: Profile, outcome: Outcome)
    ensures var effects := Post(userId, JObj(data), t, profile, outcome).effects;
      effects[0] == ResetState(DrfFields.IntToString(userId)) <==> WantsReset(data)
  {
  }

  /** The variables are sent iff the type is "launch" or a reset is asked for, and building them succeeds. */
  lemma VariablesSentIff(userId: int, data: map<string, Json>, t: Tables, profile: Profile, outcome: Outcome)
    ensures var effects := Post(userId, JObj(data), t, profile, outcome).effects;
      (exists k :: 0 <= k < |effects| && effects[k].SetVariables?) <==>
        WantsVariables(data) && BuildVariables(t, profile).Some?
  {
    EffectsSetVariablesIff(DrfFields.IntToString(userId), data, t, profile);
  }

  lemma {:induction false} EffectsSetVariablesIff(user: string, data: map<string, Json>, t: Tables, profile: Profile)
    ensures var effects := PostEffects(user, data, t, profile);
      (exists k :: 0 <= k < |effects| && effects[k].SetVariables?) <==>
        WantsVariables(data) && BuildVariables(t, profile).Some?
  {
    var effects := PostEffects(user, data, t, profile);
    if WantsVariables(data) && BuildVariables(t, profile).Some? {
      var k := if WantsReset(data) then 1 else 0;
      assert effects[k].SetVariables?;
    }
  }

  /**
   * The response depends only on what the interaction returned: a reset,
   * the variables, and a failure while building or sending them do not
   * change it.
   */
  lemma ResponseIsInteraction(userId: int, data: map<string, Json>, t: Tables, profile: Profile, outcome: Outcome)
    ensures Post(userId, JObj(data), t, profile, outcome).response == HandleInteraction(outcome)
  {
  }

  /** Every message of a 200 answer is truthy: a parsed non-empty text, or the fallback. */
  lemma FlowMessagesTruthy(outcome: Outcome)
    ensures var r := HandleInteraction(outcome);
      r.Flow? ==> r.messages != [] && forall k :: 0 <= k < |r.messages| ==> Truthy(r.messages[k])
  {
    if outcome.Replied? && ParseTraceList(outcome.traces).Success? {
      var steps := Steps(TraceItems(outcome.traces).value).value;
      MessagesShape(steps);
    }
  }

  /**
   * At the endpoint, a reply whose traces parse is answered with 200: the
   * parsed choices and audio unchanged, the parsed messages, or the single
   * fallback message when none were parsed.
   */
  lemma ParsedReplyAnswered(userId: int, data: map<string, Json>, t: Tables, profile: Profile, traces: Json)
    requires ParseTraceList(traces).Success?
    ensures var p := ParseTraceList(traces).value;
      var r := Post(userId, JObj(data), t, profile, Replied(traces)).response;
      && r.Flow?
      && r.choices == p.choices
      && r.audio == p.audio
      && r.messages == (if p.messages == [] then [JStr(Fallback)] else p.messages)
  {
  }

  /** An empty reply answers with the single fallback message, no choices and no audio. */
  lemma EmptyReplyFallsBack()
    ensures HandleInteraction(Replied(JArr([]))) == Flow([JStr(Fallback)], [], JNull)
  {
    assert Steps([]) == Success([]);
  }
}
