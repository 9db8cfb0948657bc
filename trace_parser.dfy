/**
 * The Voiceflow trace parser: the text, buttons and voice of each trace,
 * and parse_traces, which folds them over the trace list. A value of the
 * wrong JSON type where the parser calls dict.get, iterates or joins makes
 * Python raise; here that is a Failure carrying a short description.
 */
module TraceParser {
  import opened Wrappers
  import opened Text
  import opened JsonData

  /** What one trace contributes: its text (None when null), its buttons and its voice. */
  datatype Step = Step(text: Json, buttons: seq<Json>, voice: Json)

  /** parse_traces' result: messages, choices and audio (JNull for None). */
  datatype Parsed = Parsed(messages: seq<Json>, choices: seq<Json>, audio: Json)

  /** `x.get(…) or default` applied to a dictionary, then used as a dictionary. */
  function ObjectOr(d: map<string, Json>, key: string): (r: Result<map<string, Json>, string>)
    ensures !Truthy(Get(d, key)) ==> r == Success(map[])
    ensures r.Success? && Truthy(Get(d, key)) ==> d[key] == JObj(r.value)
  {
    var v := GetOrElse(d, key, JObj(map[]));
    if v.JObj? then Success(v.fields) else Failure("'" + key + "' is not an object")
  }

  /** `x.get(…) or []` iterated over as the elements of a list. */
  function ListOr(d: map<string, Json>, key: string): (r: Result<seq<Json>, string>)
    ensures !Truthy(Get(d, key)) ==> r == Success([])
    ensures r.Success? && Truthy(Get(d, key)) ==> d[key] == JArr(r.value)
  {
    var v := GetOrElse(d, key, JArr([]));
    if v.JArr? then Success(v.items) else Failure("'" + key + "' is not a list")
  }

  /** A slate child the comprehension can read: an object whose text, when truthy, is a string. */
  predicate ChildOk(c: Json) {
    c.JObj? && (Truthy(Get(c.fields, "text")) ==> Get(c.fields, "text").JStr?)
  }

  /**
   * The truthy "text" values of the children of one slate block, in order
   * (ChildTextsAppend, ChildTextsOfOne); a failure when a child cannot be read.
   */
  function ChildTexts(children: seq<Json>): (r: Result<seq<string>, string>)
    ensures r.Success? <==> forall k :: 0 <= k < |children| ==> ChildOk(children[k])
    ensures r.Success? ==> forall k :: 0 <= k < |r.value| ==> r.value[k] != []
    ensures r.Success? ==> |r.value| <= |children|
  {
    if children == [] then Success([])
    else
      var init := ChildTexts(children[..|children| - 1]);
      var c := children[|children| - 1];
      assert forall k :: 0 <= k < |children| - 1 ==> children[..|children| - 1][k] == children[k];
      if init.Failure? then init
      else if !c.JObj? then Failure("slate child is not an object")
      else
        var t := Get(c.fields, "text");
        if !Truthy(t) then init
        else if t.JStr? then Success(init.value + [t.s])
        else Failure("slate text is not a string")
  }

  /** A slate block the comprehension can read: an object whose children, if any, can all be read. */
  predicate BlockOk(b: Json) {
    b.JObj? && ListOr(b.fields, "children").Success? && ChildTexts(ListOr(b.fields, "children").value).Success?
  }

  /** The child texts of all blocks, block after block (BlockTextsAppend, BlockTextsOfOne). */
  function BlockTexts(blocks: seq<Json>): (r: Result<seq<string>, string>)
    ensures r.Success? <==> forall k :: 0 <= k < |blocks| ==> BlockOk(blocks[k])
    ensures r.Success? ==> forall k :: 0 <= k < |r.value| ==> r.value[k] != []
  {
    if blocks == [] then Success([])
    else
      var init := BlockTexts(blocks[..|blocks| - 1]);
      var b := blocks[|blocks| - 1];
      assert forall k :: 0 <= k < |blocks| - 1 ==> blocks[..|blocks| - 1][k] == blocks[k];
      if init.Failure? then init
      else if !b.JObj? then Failure("slate block is not an object")
      else
        var children := ListOr(b.fields, "children");
        if children.Failure? then Failure(children.error)
        else
          var texts := ChildTexts(children.value);
          if texts.Failure? then texts else Success(init.value + texts.value)
  }

  /** `parts` in _slate_text: the child texts of the slate's content blocks. */
  function SlateParts(payload: map<string, Json>): (r: Result<seq<string>, string>)
    ensures !Truthy(Get(payload, "slate")) ==> r == Success([])
    ensures r.Success? ==> forall k :: 0 <= k < |r.value| ==> r.value[k] != []
  {
    var slate := ObjectOr(payload, "slate");
    if slate.Failure? then Failure(slate.error)
    else
      var content := ListOr(slate.value, "content");
      if content.Failure? then Failure(content.error)
      else BlockTexts(content.value)
  }

  /**
   * _slate_text: the parts joined by line feeds and stripped; None when that
   * leaves nothing, which is when the joined parts are all whitespace.
   */
  function SlateText(payload: map<string, Json>): (r: Result<Option<string>, string>)
    ensures r.Success? <==> SlateParts(payload).Success?
    ensures r.Success? ==> (r.value.None? <==> AllSpace(Join("\n", SlateParts(payload).value)))
    ensures r.Success? && r.value.Some? ==> r.value.value == Strip(Join("\n", SlateParts(payload).value))
    ensures r.Success? && r.value.Some? ==> r.value.value != [] && NoOuterSpace(r.value.value)
    ensures SlateParts(payload) == Success([]) ==> r == Success(None)
  {
    var parts := SlateParts(payload);
    if parts.Failure? then Failure(parts.error)
    else
      var s := Strip(Join("\n", parts.value));
      Success(if s == [] then None else Some(s))
  }

  /** _message_text. */
  function MessageText(payload: map<string, Json>): Json {
    Get(payload, "message")
  }

  /** extract_text: the slate text, or else the message field (SlateBeforeMessage, MessageOnlyWithoutSlate). */
  function ExtractText(payload: map<string, Json>): Result<Json, string> {
    var slate := SlateText(payload);
    if slate.Failure? then Failure(slate.error)
    else if slate.value.Some? then Success(JStr(slate.value.value))
    else Success(MessageText(payload))
  }

  /** list.extend(v): a list adds its items, a string its characters. */
  function Extension(v: Json): Result<seq<Json>, string> {
    match v
    case JArr(xs) => Success(xs)
    case JStr(s) => Success(seq(|s|, k requires 0 <= k < |s| => JStr([s[k]])))
    case _ => Failure("buttons are not a list")
  }

  /**
   * extract_buttons: nothing unless the trace type is "choice"; then the
   * payload's buttons, [] when they are falsy. A payload that is not an
   * object, or buttons that are neither a list nor a string, make it fail.
   */
  function ExtractButtons(item: map<string, Json>): (r: Result<seq<Json>, string>)
    ensures Get(item, "type") != JStr("choice") ==> r == Success([])
    ensures Get(item, "type") == JStr("choice") && ObjectOr(item, "payload").Failure? ==> r.Failure?
    ensures Get(item, "type") == JStr("choice") && ObjectOr(item, "payload").Success?
      ==> (!Truthy(Get(ObjectOr(item, "payload").value, "buttons")) ==> r == Success([]))
    ensures Get(item, "type") == JStr("choice") && ObjectOr(item, "payload").Success?
      ==> (Get(ObjectOr(item, "payload").value, "buttons").JArr? ==> r == Success(Get(ObjectOr(item, "payload").value, "buttons").items))
    ensures Get(item, "type") == JStr("choice") && ObjectOr(item, "payload").Success?
      ==> (Truthy(Get(ObjectOr(item, "payload").value, "buttons")) ==> r == Extension(Get(ObjectOr(item, "payload").value, "buttons")))
  {
    if Get(item, "type") != JStr("choice") then Success([])
    else
      var p := ObjectOr(item, "payload");
      if p.Failure? then Failure(p.error) else Extension(GetOrElse(p.value, "buttons", JArr([])))
  }

  /** extract_voice. */
  function ExtractVoice(payload: map<string, Json>): Json {
    Get(payload, "voice")
  }

  /** One iteration of parse_traces: the item must be an object; a missing or null payload reads as {}. */
  function TraceStep(item: Json): Result<Step, string> {
    if !item.JObj? then Failure("trace is not an object")
    else
      var p := ObjectOr(item.fields, "payload");
      if p.Failure? then Failure(p.error)
      else
        var text := ExtractText(p.value);
        var buttons := ExtractButtons(item.fields);
        if text.Failure? then Failure(text.error)
        else if buttons.Failure? then Failure(buttons.error)
        else Success(Step(text.value, buttons.value, ExtractVoice(p.value)))
  }

  /**
   * The steps of all items as `read` reads each one, or the failure of the
   * first item that fails. The loop lemmas below hold for any reading.
   */
  function StepsBy(read: Json -> Result<Step, string>, items: seq<Json>): (r: Result<seq<Step>, string>)
    ensures r.Success? ==> |r.value| == |items|
  {
    if items == [] then Success([])
    else
      var init := StepsBy(read, items[..|items| - 1]);
      var last := read(items[|items| - 1]);
      if init.Failure? then init
      else if last.Failure? then Failure(last.error)
      else Success(init.value + [last.value])
  }

  /** The steps of all traces, or the failure of the first trace that fails. */
  function Steps(items: seq<Json>): (r: Result<seq<Step>, string>)
    ensures r.Success? ==> |r.value| == |items|
  {
    StepsBy(TraceStep, items)
  }

  /** The truthy texts, in trace order. */
  function MessagesOf(steps: seq<Step>): seq<Json> {
    if steps == [] then []
    else
      var t := steps[|steps| - 1].text;
      MessagesOf(steps[..|steps| - 1]) + (if Truthy(t) then [t] else [])
  }

  /** All buttons, trace after trace. */
  function ChoicesOf(steps: seq<Step>): seq<Json> {
    if steps == [] then [] else ChoicesOf(steps[..|steps| - 1]) + steps[|steps| - 1].buttons
  }

  /** The first truthy voice; if there is none, the last voice; None for no traces. */
  function FirstTruthy(vs: seq<Json>): Json {
    if vs == [] then JNull
    else if Truthy(vs[0]) || |vs| == 1 then vs[0]
    else FirstTruthy(vs[1..])
  }

  /** The voices of the steps, in order. */
  function Voices(steps: seq<Step>): seq<Json> {
    seq(|steps|, k requires 0 <= k < |steps| => steps[k].voice)
  }

  /** What the loop of parse_traces returns for a list of items when each item is read by `read`. */
  function ParseItemsBy(read: Json -> Result<Step, string>, items: seq<Json>): Result<Parsed, string> {
    var steps := StepsBy(read, items);
    if steps.Failure? then Failure(steps.error)
    else Success(Parsed(MessagesOf(steps.value), ChoicesOf(steps.value), FirstTruthy(Voices(steps.value))))
  }

  /** What parse_traces returns for a list of items. */
  function ParseItems(items: seq<Json>): Result<Parsed, string> {
    ParseItemsBy(TraceStep, items)
  }

  /**
   * `for item in traces` over the decoded response: a list gives its items,
   * an empty string or object gives none; any other value either is not
   * iterable or yields strings, on which item.get fails.
   */
  function TraceItems(traces: Json): (r: Result<seq<Json>, string>)
    ensures traces.JArr? ==> r == Success(traces.items)
    ensures r.Success? && !traces.JArr? ==> r.value == []
  {
    match traces
    case JArr(xs) => Success(xs)
    case JStr(s) => if s == [] then Success([]) else Failure("trace is not an object")
    case JObj(m) => if m == map[] then Success([]) else Failure("trace is not an object")
    case _ => Failure("traces are not iterable")
  }

  /** parse_traces on the decoded response. */
  function ParseTraceList(traces: Json): Result<Parsed, string> {
    var items := TraceItems(traces);
    if items.Failure? then Failure(items.error) else ParseItems(items.value)
  }

  // -----------------------------------------------------------------------
  // The loop

  /** `audio = audio or voice`, as the loop does it, agrees with FirstTruthy. */
  lemma {:induction false} FirstTruthySnoc(vs: seq<Json>, v: Json)
    ensures FirstTruthy(vs + [v]) == if Truthy(FirstTruthy(vs)) then FirstTruthy(vs) else v
  {
    if vs != [] {
      assert (vs + [v])[0] == vs[0];
      if !Truthy(vs[0]) && |vs| > 1 {
        assert (vs + [v])[1..] == vs[1..] + [v];
        FirstTruthySnoc(vs[1..], v);
      } else if !Truthy(vs[0]) {
        assert (vs + [v])[1..] == [v];
      }
    }
  }

  lemma StepsSnoc(read: Json -> Result<Step, string>, before: seq<Json>, after: seq<Json>, x: Json)
    requires after == before + [x]
    ensures StepsBy(read, after) == if StepsBy(read, before).Failure? then StepsBy(read, before)
      else if read(x).Failure? then Failure(read(x).error)
      else Success(StepsBy(read, before).value + [read(x).value])
  {
    assert after[..|after| - 1] == before;
  }

  /** One more successful trace extends each output the way the loop body does. */
  lemma ParseStep(read: Json -> Result<Step, string>, before: seq<Json>, after: seq<Json>, x: Json, done: seq<Step>)
    requires after == before + [x]
    requires StepsBy(read, before) == Success(done) && read(x).Success?
    ensures var st := read(x).value;
      && StepsBy(read, after) == Success(done + [st])
      && MessagesOf(done + [st]) == MessagesOf(done) + (if Truthy(st.text) then [st.text] else [])
      && ChoicesOf(done + [st]) == ChoicesOf(done) + st.buttons
      && FirstTruthy(Voices(done + [st])) == if Truthy(FirstTruthy(Voices(done))) then FirstTruthy(Voices(done)) else st.voice
  {
    StepsSnoc(read, before, after, x);
    var st := read(x).value;
    var s1 := done + [st];
    assert s1[..|s1| - 1] == done;
    assert Voices(s1) == Voices(done) + [st.voice];
    FirstTruthySnoc(Voices(done), st.voice);
  }

  /** A failing trace makes the whole list fail with its error. */
  lemma ParseFails(read: Json -> Result<Step, string>, items: seq<Json>, i: nat)
    requires i < |items| && StepsBy(read, items[..i]).Success? && read(items[i]).Failure?
    ensures StepsBy(read, items) == Failure(read(items[i]).error)
  {
    assert items[..i + 1] == items[..i] + [items[i]];
    StepsSnoc(read, items[..i], items[..i + 1], items[i]);
    StepsFailurePersists(read, items, i + 1);
  }

  /**
   * parse_traces: messages gathers the truthy texts, choices extends by each
   * trace's buttons and audio keeps the first truthy voice; a response that
   * is not a list yields no items or fails as iterating it would.
   */
  method ParseTraces(traces: Json) returns (r: Result<Parsed, string>)
    ensures r == ParseTraceList(traces)
  {
    var got := TraceItems(traces);
    if got.Failure? {
      return Failure(got.error);
    }
    r := ParseItemList(TraceStep, got.value);
  }

  /**
   * The loop of parse_traces over the items of the list; `read` is what the
   * loop body does with one item (TraceStep in parse_traces).
   */
  method ParseItemList(read: Json -> Result<Step, string>, items: seq<Json>) returns (r: Result<Parsed, string>)
    ensures r == ParseItemsBy(read, items)
  {
    var msgs: seq<Json> := [];
    var choices: seq<Json> := [];
    var audio := JNull;
    ghost var done: seq<Step> := [];
    assert items[..0] == [];
    for i := 0 to |items|
      invariant StepsBy(read, items[..i]) == Success(done)
      invariant msgs == MessagesOf(done)
      invariant choices == ChoicesOf(done)
      invariant audio == FirstTruthy(Voices(done))
    {
      var step := read(items[i]);
      if step.Failure? {
        ParseFails(read, items, i);
        return Failure(step.error);
      }
      assert items[..i + 1] == items[..i] + [items[i]];
      ParseStep(read, items[..i], items[..i + 1], items[i], done);
      var st := step.value;
      msgs := msgs + if Truthy(st.text) then [st.text] else [];
      choices := choices + st.buttons;
      audio := if Truthy(audio) then audio else st.voice;
      done := done + [st];
    }
    assert items[..|items|] == items;
    r := Success(Parsed(msgs, choices, audio));
  }

  /** Once a prefix fails, every longer prefix fails with the same error. */
  lemma {:induction false} StepsFailurePersists(read: Json -> Result<Step, string>, items: seq<Json>, n: nat)
    requires n <= |items| && StepsBy(read, items[..n]).Failure?
    ensures StepsBy(read, items) == StepsBy(read, items[..n])
    decreases |items| - n
  {
    if n < |items| {
      assert items[..n + 1] == items[..n] + [items[n]];
      StepsSnoc(read, items[..n], items[..n + 1], items[n]);
      StepsFailurePersists(read, items, n + 1);
    } else {
      assert items[..n] == items;
    }
  }

  // -----------------------------------------------------------------------
  // Properties

  /** Every message is a truthy text, and there is at most one per trace. */
  lemma {:induction false} MessagesShape(steps: seq<Step>)
    ensures |MessagesOf(steps)| <= |steps|
    ensures forall k :: 0 <= k < |MessagesOf(steps)| ==> Truthy(MessagesOf(steps)[k])
  {
    if steps != [] {
      MessagesShape(steps[..|steps| - 1]);
    }
  }

  /** Messages and choices of consecutive traces come out in trace order. */
  lemma {:induction false} OutputsAppend(a: seq<Step>, b: seq<Step>)
    ensures MessagesOf(a + b) == MessagesOf(a) + MessagesOf(b)
    ensures ChoicesOf(a + b) == ChoicesOf(a) + ChoicesOf(b)
    decreases |b|
  {
    if b == [] {
      assert a + b == a;
    } else {
      OutputsAppend(a, b[..|b| - 1]);
      OutputsAppendStep(a, b);
    }
  }

  /** The step of OutputsAppend: the last trace of b is the last trace of a + b. */
  lemma {:induction false} OutputsAppendStep(a: seq<Step>, b: seq<Step>)
    requires b != []
    requires MessagesOf(a + b[..|b| - 1]) == MessagesOf(a) + MessagesOf(b[..|b| - 1])
    requires ChoicesOf(a + b[..|b| - 1]) == ChoicesOf(a) + ChoicesOf(b[..|b| - 1])
    ensures MessagesOf(a + b) == MessagesOf(a) + MessagesOf(b)
    ensures ChoicesOf(a + b) == ChoicesOf(a) + ChoicesOf(b)
  {
    var ab, init, x := a + b, b[..|b| - 1], b[|b| - 1];
    assert ab[..|ab| - 1] == a + init && ab[|ab| - 1] == x;
    var tx := if Truthy(x.text) then [x.text] else [];
    assert MessagesOf(ab) == MessagesOf(a + init) + tx;
    assert MessagesOf(b) == MessagesOf(init) + tx;
    assert ChoicesOf(ab) == ChoicesOf(a + init) + x.buttons;
    assert ChoicesOf(b) == ChoicesOf(init) + x.buttons;
    var ma, mi := MessagesOf(a), MessagesOf(init);
    AppendAssoc(ma, mi, tx);
    var ca, ci := ChoicesOf(a), ChoicesOf(init);
    AppendAssoc(ca, ci, x.buttons);
  }

  /** A single trace's messages and choices are its own text, if truthy, and its buttons. */
  lemma OutputsOfOne(s: Step)
    ensures MessagesOf([s]) == (if Truthy(s.text) then [s.text] else [])
    ensures ChoicesOf([s]) == s.buttons
  {
    assert [s][..0] == [];
  }

  /** The voice at i wins when it is truthy and every earlier voice is falsy; later voices are ignored. */
  lemma {:induction false} AudioIsFirstTruthy(vs: seq<Json>, i: nat)
    requires i < |vs| && Truthy(vs[i])
    requires forall k :: 0 <= k < i ==> !Truthy(vs[k])
    ensures FirstTruthy(vs) == vs[i]
  {
    if i > 0 {
      AudioIsFirstTruthy(vs[1..], i - 1);
    }
  }

  /** The audio is falsy exactly when no voice is truthy. */
  lemma {:induction false} AudioFalsy(vs: seq<Json>)
    ensures !Truthy(FirstTruthy(vs)) <==> forall k :: 0 <= k < |vs| ==> !Truthy(vs[k])
  {
    if |vs| > 1 && !Truthy(vs[0]) {
      AudioFalsy(vs[1..]);
      assert forall k :: 1 <= k < |vs| ==> vs[k] == vs[1..][k - 1];
    }
  }

  /** A trace whose payload is missing or null is read exactly as one with an empty payload. */
  lemma MissingPayloadIsEmpty(item: map<string, Json>)
    requires !Truthy(Get(item, "payload"))
    ensures TraceStep(JObj(item)) == TraceStep(JObj(item["payload" := JObj(map[])]))
  {
    var item' := item["payload" := JObj(map[])];
    assert Get(item', "type") == Get(item, "type");
    assert !Truthy(Get(item', "payload"));
    assert ObjectOr(item', "payload") == ObjectOr(item, "payload") == Success(map[]);
    assert ExtractButtons(item') == ExtractButtons(item);
  }

  /**
   * What `choices.extend` receives from a choice trace with truthy buttons:
   * a list gives its items, a string one button per character, and any
   * other value fails (Python cannot iterate it).
   */
  lemma ButtonsExtension(item: map<string, Json>)
    requires Get(item, "type") == JStr("choice") && ObjectOr(item, "payload").Success?
    requires Truthy(Get(ObjectOr(item, "payload").value, "buttons"))
    ensures var b := Get(ObjectOr(item, "payload").value, "buttons");
      var r := ExtractButtons(item);
      && (b.JArr? ==> r == Success(b.items))
      && (b.JStr? ==> r.Success? && |r.value| == |b.s| && forall k :: 0 <= k < |b.s| ==> r.value[k] == JStr([b.s[k]]))
      && (!b.JArr? && !b.JStr? ==> r.Failure?)
  {
  }

  /**
   * One trace's step: a non-object trace fails; otherwise the step succeeds
   * exactly when the payload is readable and both text and buttons can be
   * extracted, and then it holds the extracted text, the buttons and the
   * payload's voice.
   */
  lemma TraceStepParts(item: Json)
    ensures !item.JObj? ==> TraceStep(item).Failure?
    ensures item.JObj? ==> var p := ObjectOr(item.fields, "payload");
      && (TraceStep(item).Success? <==>
            p.Success? && ExtractText(p.value).Success? && ExtractButtons(item.fields).Success?)
      && (TraceStep(item).Success? ==>
            TraceStep(item).value == Step(ExtractText(p.value).value, ExtractButtons(item.fields).value, Get(p.value, "voice")))
  {
  }

  /** The slate text wins over the message field, which is used only when the slate yields nothing. */
  lemma SlateBeforeMessage(slate: map<string, Json>, message: Json)
    requires SlateText(map["slate" := JObj(slate)]).Success?
    ensures var p := map["slate" := JObj(slate), "message" := message];
      ExtractText(p) == Success(
        if SlateText(map["slate" := JObj(slate)]).value.Some?
        then JStr(SlateText(map["slate" := JObj(slate)]).value.value) else message)
  {
    var p := map["slate" := JObj(slate), "message" := message];
    assert Get(p, "slate") == Get(map["slate" := JObj(slate)], "slate");
    assert SlateText(p) == SlateText(map["slate" := JObj(slate)]);
  }

  /** The message field is read only when the slate yields no text; otherwise it is ignored. */
  lemma MessageOnlyWithoutSlate(payload: map<string, Json>, message: Json)
    requires SlateText(payload).Success?
    ensures ExtractText(payload["message" := message]) ==
      if SlateText(payload).value.Some? then ExtractText(payload) else Success(message)
  {
    var p := payload["message" := message];
    assert SlateText(p) == SlateText(payload) by {
      assert Get(p, "slate") == Get(payload, "slate");
      assert ObjectOr(p, "slate") == ObjectOr(payload, "slate");
      assert SlateParts(p) == SlateParts(payload);
    }
    assert MessageText(p) == message;
  }

  /** The child texts of consecutive children come out in order. */
  lemma {:induction false} ChildTextsAppend(a: seq<Json>, b: seq<Json>)
    requires ChildTexts(a).Success? && ChildTexts(b).Success?
    ensures ChildTexts(a + b) == Success(ChildTexts(a).value + ChildTexts(b).value)
    decreases |b|
  {
    if b == [] {
      assert a + b == a;
      assert ChildTexts(a).value + [] == ChildTexts(a).value;
    } else {
      var b0, c := b[..|b| - 1], b[|b| - 1];
      assert (a + b)[..|a + b| - 1] == a + b0 && (a + b)[|a + b| - 1] == c;
      ChildTextsAppend(a, b0);
      var ta, tb0 := ChildTexts(a).value, ChildTexts(b0).value;
      var t := Get(c.fields, "text");
      if Truthy(t) {
        AppendAssoc(ta, tb0, [t.s]);
      }
    }
  }

  /** One child contributes its text when that is truthy, and nothing otherwise. */
  lemma ChildTextsOfOne(c: Json)
    requires ChildOk(c)
    ensures var t := Get(c.fields, "text");
      ChildTexts([c]) == Success(if Truthy(t) then [t.s] else [])
  {
    assert [c][..0] == [];
    var t := Get(c.fields, "text");
    if Truthy(t) {
      assert [] + [t.s] == [t.s];
    }
  }

  /** The texts of consecutive blocks come out in order. */
  lemma {:induction false} BlockTextsAppend(a: seq<Json>, b: seq<Json>)
    requires BlockTexts(a).Success? && BlockTexts(b).Success?
    ensures BlockTexts(a + b) == Success(BlockTexts(a).value + BlockTexts(b).value)
    decreases |b|
  {
    if b == [] {
      assert a + b == a;
      assert BlockTexts(a).value + [] == BlockTexts(a).value;
    } else {
      var b0, x := b[..|b| - 1], b[|b| - 1];
      assert (a + b)[..|a + b| - 1] == a + b0 && (a + b)[|a + b| - 1] == x;
      BlockTextsAppend(a, b0);
      var ta, tb0 := BlockTexts(a).value, BlockTexts(b0).value;
      AppendAssoc(ta, tb0, ChildTexts(ListOr(x.fields, "children").value).value);
    }
  }

  /** One block contributes the texts of its children. */
  lemma BlockTextsOfOne(b: Json)
    requires BlockOk(b)
    ensures BlockTexts([b]) == ChildTexts(ListOr(b.fields, "children").value)
  {
    assert [b][..0] == [];
    assert [] + ChildTexts(ListOr(b.fields, "children").value).value == ChildTexts(ListOr(b.fields, "children").value).value;
  }

  /** A concrete slate (an example): the child texts of two blocks, empty ones skipped, joined by line feeds. */
  lemma SlateJoinsChildren()
    ensures SlateText(map["slate" := JObj(map["content" := JArr([ExampleBlock1(), ExampleBlock2()])])]) == Success(Some("Hallo\nWelt"))
  {
    ExampleBlockTexts();
    var blocks := [ExampleBlock1(), ExampleBlock2()];
    var slate := map["content" := JArr(blocks)];
    var payload := map["slate" := JObj(slate)];
    assert ObjectOr(payload, "slate") == Success(slate);
    assert ListOr(slate, "content") == Success(blocks);
    assert SlateParts(payload) == Success(["Hallo", "Welt"]);
    var joined := "Hallo\nWelt";
    assert Join("\n", ["Hallo", "Welt"]) == joined;
    assert joined[0] == 'H' && joined[|joined| - 1] == 't';
    assert !IsSpace('H') && !IsSpace('t');
    assert NoOuterSpace(joined);
  }

  function ExampleBlock1(): Json {
    JObj(map["children" := JArr([JObj(map["text" := JStr("Hallo")]), JObj(map["text" := JStr("")])])])
  }

  function ExampleBlock2(): Json {
    JObj(map["children" := JArr([JObj(map["text" := JStr("Welt")])])])
  }

  /** The children of the example blocks (an example): the empty text is dropped. */
  lemma ExampleChildTexts()
    ensures ChildTexts([JObj(map["text" := JStr("Hallo")]), JObj(map["text" := JStr("")])]) == Success(["Hallo"])
    ensures ChildTexts([JObj(map["text" := JStr("Welt")])]) == Success(["Welt"])
  {
    var c1 := JObj(map["text" := JStr("Hallo")]);
    var c2 := JObj(map["text" := JStr("")]);
    var c3 := JObj(map["text" := JStr("Welt")]);
    assert Get(c1.fields, "text") == JStr("Hallo");
    assert Get(c2.fields, "text") == JStr("");
    assert Get(c3.fields, "text") == JStr("Welt");
    assert [c1, c2][..1] == [c1];
    assert [c1][..0] == [];
    assert [c3][..0] == [];
    assert [] + ["Hallo"] == ["Hallo"];
    assert [] + ["Welt"] == ["Welt"];
  }

  /** The example blocks (an example): their texts in block order. */
  lemma ExampleBlockTexts()
    ensures BlockTexts([ExampleBlock1(), ExampleBlock2()]) == Success(["Hallo", "Welt"])
  {
    ExampleChildTexts();
    var block1, block2 := ExampleBlock1(), ExampleBlock2();
    assert ListOr(block1.fields, "children") == Success(block1.fields["children"].items);
    assert ListOr(block2.fields, "children") == Success(block2.fields["children"].items);
    assert [block1, block2][..1] == [block1];
    assert [block1][..0] == [];
    assert [] + ["Hallo"] == ["Hallo"];
    assert BlockTexts([block1]) == Success(["Hallo"]);
    assert ["Hallo"] + ["Welt"] == ["Hallo", "Welt"];
  }
}
