/**
 * The service behind the optimize request (`optimizeCvForJob` in
 * server/cvService.js): build the prompt, ask the text-generation model,
 * clean and decode its reply, check for the rewritten CV, name the generated
 * PDF after the clock, and render the rewritten CV into it.
 *
 * The model call is a parameter `ai` (it may throw, or return something that is
 * not text), `JSON.parse` is a parameter `parse` (it may fail), and the clock
 * reading `Date.now()` is a parameter `now`.
 */
module Service {
  import opened Wrappers
  import opened Strings
  import Render

  // ---------- values ----------

  /** A value `JSON.parse` can produce. */
  datatype Json =
    | JNull
    | JBool(b: bool)
    | JNum(n: real)
    | JStr(s: string)
    | JArr(items: seq<Json>)
    | JObj(fields: map<string, Json>)

  /** JavaScript truthiness of a decoded value (`JSON.parse` never produces NaN). */
  predicate Truthy(j: Json) {
    match j
    case JNull => false
    case JBool(b) => b
    case JNum(n) => n != 0.0
    case JStr(s) => s != []
    case JArr(_) => true
    case JObj(_) => true
  }

  /**
   * Reading an own property of a decoded value other than `null`, for a key
   * that no prototype defines (such as "improved_cv_full_text"); `None` is
   * `undefined`. Keys like "length" or "toString" are not modelled.
   */
  function Property(j: Json, key: string): (v: Option<Json>)
    requires j != JNull
    ensures v.Some? <==> j.JObj? && key in j.fields
    ensures v.Some? ==> v.value == j.fields[key]
  {
    match j
    case JObj(fields) => if key in fields then Some(fields[key]) else None
    case _ => None
  }

  /** What the model call hands back. */
  datatype AiReply =
    | AiThrew          // the call rejected
    | NotText          // it resolved to `undefined`, `null` or another non-string
    | Reply(text: string)

  /** The errors `optimizeCvForJob` can throw, each with its own message. */
  datatype ServiceError =
    | AiUnavailable
    | InvalidText
    | ParseFailed
    | NullAnalysis           // a reply that decodes to `null`: reading a property of it throws a TypeError
    | MissingImprovedText
    | ImprovedTextNotString  // a truthy non-string CV text: the renderer's `split` call throws a TypeError

  function Message(e: ServiceError): string {
    match e
    case AiUnavailable => "AI service is temporarily unavailable. Please try again later."
    case InvalidText => "Did not receive a valid text response from AI service."
    case ParseFailed => "Failed to parse JSON from Gemini"
    case NullAnalysis => "Cannot read properties of null (reading 'improved_cv_full_text')"
    case MissingImprovedText => "Gemini response did not contain 'improved_cv_full_text'"
    case ImprovedTextNotString => "contentText.split is not a function"
  }

  /** Every error carries a message of its own, and none is empty. */
  lemma MessagesDistinct(e1: ServiceError, e2: ServiceError)
    ensures Message(e1) != []
    ensures Message(e1) == Message(e2) <==> e1 == e2
  {
    // the messages already differ in length
    MessageLength(e1);
    MessageLength(e2);
    assert e1 != e2 ==> |Message(e1)| != |Message(e2)|;
  }

  /** The length of each message. */
  lemma MessageLength(e: ServiceError)
    ensures |Message(e)| == match e
      case AiUnavailable => 62
      case InvalidText => 54
      case ParseFailed => 32
      case NullAnalysis => 64
      case MissingImprovedText => 55
      case ImprovedTextNotString => 35
  {
  }

  const ImprovedKey: string := "improved_cv_full_text"

  // ---------- the prompt ----------

  const PromptIntro: string :=
    "\n" +
    "You are an expert CV/resume writer and job matching specialist.\n" +
    "\n" +
    "You will receive:\n" +
    "1) A CV as a PDF file encoded in base64.\n" +
    "2) A job description as plain text.\n" +
    "\n" +
    "Your goals:\n" +
    "- Do NOT invent or fabricate experience, skills, degrees, or dates that are not clearly supported by the CV.\n" +
    "- You may only rephrase, reorganize, highlight, or slightly expand on what is already present in the CV.\n" +
    "- Keep the improved CV concise and focused (roughly one page of content).\n" +
    "\n" +
    "Your tasks:\n" +
    "1. Decode and read the CV.\n" +
    "2. Read the job description carefully.\n" +
    "3. Analyze how well the CV fits this specific job.\n" +
    "4. Suggest concrete and realistic improvements based ONLY on the existing information.\n" +
    "5. Emphasize the most relevant skills and experience for this specific job.\n" +
    "6. Rewrite the CV content so it:\n" +
    "   - stays faithful to the real facts in the original CV,\n" +
    "   - is clearly structured,\n" +
    "   - is not too long (approximately one page),\n" +
    "   - uses clear, professional language.\n" +
    "7. Provide a precise match score as a number from 0 to 100.\n" +
    "8. Provide short, clear, actionable recommendations (not long paragraphs).\n" +
    "\n" +
    "Base64 CV:\n"

  const PromptMiddle: string :=
    "\n" +
    "\n" +
    "Job Description:\n"

  const PromptOutro: string :=
    "\n" +
    "\n" +
    "Return ONLY a valid JSON object with the following structure:\n" +
    "\n" +
    "{\n" +
    "  \"match_score\": 0-100,\n" +
    "  \"key_skills_to_highlight\": [\"skill 1\", \"skill 2\"],\n" +
    "  \"suggested_changes\": [\"concise change 1\", \"concise change 2\"],\n" +
    "  \"missing_qualifications\": [\"missing 1\", \"missing 2\"],\n" +
    "  \"specific_recommendations\": [\"short recommendation 1\", \"short recommendation 2\"],\n" +
    "  \"improved_cv_full_text\": \"concise improved CV content suitable for one page, based only on real facts from the original CV\"\n" +
    "}\n" +
    "\n" +
    "Rules:\n" +
    "- \"match_score\" must be a number (0-100), not a string and not a percentage with %.\n" +
    "- Do NOT add fake jobs, fake skills, fake tools, fake degrees, or fake dates.\n" +
    "- If you are not sure about some detail, do NOT guess it and do NOT invent it.\n" +
    "- You may reorder, rephrase, and slightly condense or expand, but always stay faithful to the original CV.\n" +
    "- \"improved_cv_full_text\" must be professional, focused, and roughly one page of content.\n" +
    "- Recommendations must be short, actionable bullet-style suggestions.\n" +
    "- Return ONLY JSON. Do NOT include markdown, explanations, or extra text.\n"

  /** Splices the two inputs between three fixed pieces of text. */
  function Splice(intro: string, a: string, middle: string, b: string, outro: string): string {
    intro + a + middle + b + outro
  }

  /** The two inputs sit verbatim, in order, between the fixed pieces, which are kept whole. */
  lemma SpliceSpec(intro: string, a: string, middle: string, b: string, outro: string)
    ensures var p := Splice(intro, a, middle, b, outro);
      && |p| == |intro| + |a| + |middle| + |b| + |outro|
      && IsSubstringAt(p, a, |intro|)
      && IsSubstringAt(p, b, |intro| + |a| + |middle|)
      && StartsWith(p, intro) && EndsWith(p, outro)
  {
    var p := Splice(intro, a, middle, b, outro);
    assert p[..|intro|] == intro;
    assert p[|intro|..|intro| + |a|] == a;
    var k := |intro| + |a| + |middle|;
    assert p[k..k + |b|] == b;
    assert p[|p| - |outro|..] == outro;
  }

  /** The prompt: fixed instructions with the encoded CV and the job description spliced in. */
  function Prompt(cvBase64: string, jobDescription: string): string {
    Splice(PromptIntro, cvBase64, PromptMiddle, jobDescription, PromptOutro)
  }

  /** Both spliced inputs occur in the result. */
  lemma SpliceContains(intro: string, a: string, middle: string, b: string, outro: string)
    ensures Contains(Splice(intro, a, middle, b, outro), a)
    ensures Contains(Splice(intro, a, middle, b, outro), b)
  {
    var p := Splice(intro, a, middle, b, outro);
    SpliceSpec(intro, a, middle, b, outro);
    assert IsSubstringAt(p, a, |intro|);
    assert IsSubstringAt(p, b, |intro| + |a| + |middle|);
  }

  /** The prompt holds the encoded CV and the job description verbatim. */
  lemma PromptEmbedsInputs(cvBase64: string, jobDescription: string)
    ensures Contains(Prompt(cvBase64, jobDescription), cvBase64)
    ensures Contains(Prompt(cvBase64, jobDescription), jobDescription)
  {
    SpliceContains(PromptIntro, cvBase64, PromptMiddle, jobDescription, PromptOutro);
  }

  // ---------- cleaning the reply ----------

  const Fence: string := "```"
  const JsonFence: string := "```json"

  /**
   * The cleaning chain applied to the trimmed reply: drop a leading "```json"
   * in any letter case, then a leading "```", then a trailing "```", then trim.
   */
  function StripFences(reply: string): string {
    var a := if StartsWithIgnoringCase(reply, JsonFence) then reply[|JsonFence|..] else reply;
    var b := if StartsWith(a, Fence) then a[|Fence|..] else a;
    var c := if EndsWith(b, Fence) then b[..|b| - |Fence|] else b;
    Trim(c)
  }

  /** The text handed to `JSON.parse` for a raw reply. */
  function Cleaned(raw: string): string {
    StripFences(Trim(raw))
  }

  /** Only a text opening with a fence can open with "```json" in any letter case. */
  lemma FenceBeforeJsonTag(t: string)
    requires !StartsWith(t, Fence)
    ensures !StartsWithIgnoringCase(t, JsonFence)
  {
    if |t| >= |JsonFence| {
      assert t[..3] != Fence;
      var i :| 0 <= i < 3 && t[i] != Fence[i];
      assert LowerAscii(t[i]) != LowerAscii(JsonFence[i]);
    }
  }

  /** A reply that, once trimmed, neither starts nor ends with a fence reaches the decoder as trimmed. */
  lemma CleanUnfenced(raw: string)
    requires !StartsWith(Trim(raw), Fence) && !EndsWith(Trim(raw), Fence)
    ensures Cleaned(raw) == Trim(raw)
  {
    FenceBeforeJsonTag(Trim(raw));
    TrimIdempotent(raw);
  }

  /**
   * A reply that, once trimmed, is a JSON text fenced by "```json" (the tag in
   * any letter case) and "```", with white space around the text, decodes that
   * text alone.
   */
  lemma JsonFencedReply(raw: string, tag: string, w1: string, json: string, w2: string)
    requires Trim(raw) == Fence + tag + w1 + json + w2 + Fence
    requires AllSpace(w1) && AllSpace(w2)
    requires |tag| == 4 && forall i :: 0 <= i < 4 ==> LowerAscii(tag[i]) == "json"[i]
    requires json != [] && !IsSpace(json[0]) && !IsSpace(json[|json| - 1]) && json[0] != '`'
    ensures Cleaned(raw) == json
  {
    JsonFenceSteps(tag, w1, json, w2);
  }

  lemma JsonFenceSteps(tag: string, w1: string, json: string, w2: string)
    requires AllSpace(w1) && AllSpace(w2)
    requires |tag| == 4 && forall i :: 0 <= i < 4 ==> LowerAscii(tag[i]) == "json"[i]
    requires json != [] && !IsSpace(json[0]) && !IsSpace(json[|json| - 1]) && json[0] != '`'
    ensures StripFences(Fence + tag + w1 + json + w2 + Fence) == json
  {
    var m := Fence + tag + w1 + json + w2 + Fence;
    var a := m[|JsonFence|..];
    assert StartsWithIgnoringCase(m, JsonFence) && a == w1 + json + w2 + Fence by {
      JsonTagStripped(tag, w1 + json + w2 + Fence);
      assert m == Fence + tag + (w1 + json + w2 + Fence);
    }
    assert !StartsWith(a, Fence) by {
      if w1 != [] {
        assert a[0] == w1[0];
      } else {
        assert a[0] == json[0];
      }
    }
    UnfenceEnd(w1, json, w2);
  }

  /** A fence and any letter case of "json" open a text as the pattern "```json" does, and go. */
  lemma JsonTagStripped(tag: string, rest: string)
    requires |tag| == 4 && forall i :: 0 <= i < 4 ==> LowerAscii(tag[i]) == "json"[i]
    ensures StartsWithIgnoringCase(Fence + tag + rest, JsonFence)
    ensures (Fence + tag + rest)[|JsonFence|..] == rest
  {
    var m := Fence + tag + rest;
    assert m[..3] == Fence && m[3..7] == tag;
    forall i | 0 <= i < 7 ensures LowerAscii(m[i]) == LowerAscii(JsonFence[i]) {
      if i >= 3 {
        assert m[i] == tag[i - 3];
      }
    }
  }

  /**
   * A reply cut off before its closing fence still loses its opening
   * "```json": the leading and the trailing fence are removed independently.
   */
  lemma JsonOpenOnly(raw: string, tag: string, w1: string, json: string)
    requires Trim(raw) == Fence + tag + w1 + json
    requires AllSpace(w1)
    requires |tag| == 4 && forall i :: 0 <= i < 4 ==> LowerAscii(tag[i]) == "json"[i]
    requires json != [] && !IsSpace(json[0]) && !IsSpace(json[|json| - 1]) && json[0] != '`'
    requires !EndsWith(json, Fence)
    ensures Cleaned(raw) == json
  {
    JsonOpenSteps(tag, w1, json);
  }

  lemma JsonOpenSteps(tag: string, w1: string, json: string)
    requires AllSpace(w1)
    requires |tag| == 4 && forall i :: 0 <= i < 4 ==> LowerAscii(tag[i]) == "json"[i]
    requires json != [] && !IsSpace(json[0]) && !IsSpace(json[|json| - 1]) && json[0] != '`'
    requires !EndsWith(json, Fence)
    ensures StripFences(Fence + tag + w1 + json) == json
  {
    var m := Fence + tag + w1 + json;
    var a := m[|JsonFence|..];
    assert StartsWithIgnoringCase(m, JsonFence) && a == w1 + json by {
      JsonTagStripped(tag, w1 + json);
      assert m == Fence + tag + (w1 + json);
    }
    assert !StartsWith(a, Fence) && !EndsWith(a, Fence) by {
      NoFenceAtEnds(w1, json);
    }
    assert Trim(a) == json by {
      TrimAround(w1, json, []);
      assert w1 + json + [] == a;
    }
    TagOnlyStripped(m);
  }

  /** A text opening with "```json" and ending in no fence loses only the tag, then is trimmed. */
  lemma TagOnlyStripped(m: string)
    requires StartsWithIgnoringCase(m, JsonFence)
    requires !StartsWith(m[|JsonFence|..], Fence) && !EndsWith(m[|JsonFence|..], Fence)
    ensures StripFences(m) == Trim(m[|JsonFence|..])
  {
  }

  /** White space before a text that opens with no backquote and ends in no fence: no fence at either end. */
  lemma NoFenceAtEnds(w1: string, json: string)
    requires AllSpace(w1)
    requires json != [] && json[0] != '`' && !EndsWith(json, Fence)
    ensures !StartsWith(w1 + json, Fence) && !EndsWith(w1 + json, Fence)
  {
    var a := w1 + json;
    if w1 != [] {
      assert a[0] == w1[0] && IsSpace(w1[0]);
    } else {
      assert a[0] == json[0];
    }
    if |a| >= 3 {
      if |json| >= 3 {
        assert a[|a| - 3..] == json[|json| - 3..];
      } else {
        var k := |a| - |json|;
        assert a[k] == json[0];
        assert a[|a| - 3..][k - (|a| - 3)] == a[k];
        assert Fence[k - (|a| - 3)] == '`';
      }
    }
  }

  /**
   * A reply with only a closing fence loses that fence: the leading and the
   * trailing fence are removed independently.
   */
  lemma CloseOnly(raw: string, json: string, w2: string)
    requires Trim(raw) == json + w2 + Fence
    requires AllSpace(w2)
    requires json != [] && !IsSpace(json[0]) && !IsSpace(json[|json| - 1]) && json[0] != '`'
    ensures Cleaned(raw) == json
  {
    var t := Trim(raw);
    assert !StartsWith(t, Fence) by {
      assert t[0] == json[0];
    }
    FenceBeforeJsonTag(t);
    assert EndsWith(t, Fence) && t[..|t| - 3] == [] + json + w2 by {
      assert t[|t| - 3..] == Fence;
    }
    TrimAround([], json, w2);
  }

  /** A text closed by a fence loses the fence and then its surrounding white space. */
  lemma UnfenceEnd(w1: string, body: string, w2: string)
    requires AllSpace(w1) && AllSpace(w2)
    requires body != [] && !IsSpace(body[0]) && !IsSpace(body[|body| - 1])
    ensures var a := w1 + body + w2 + Fence;
      EndsWith(a, Fence) && Trim(a[..|a| - |Fence|]) == body
  {
    var a := w1 + body + w2 + Fence;
    assert a[|a| - 3..] == Fence;
    assert a[..|a| - 3] == w1 + body + w2;
    TrimAround(w1, body, w2);
  }

  /**
   * A reply that, once trimmed, is fenced without the "json" tag decodes what
   * lies between the fences, trimmed: another language tag stays at the front
   * of the text.
   */
  lemma PlainFencedReply(raw: string, w1: string, body: string, w2: string)
    requires Trim(raw) == Fence + w1 + body + w2 + Fence
    requires AllSpace(w1) && AllSpace(w2)
    requires body != [] && !IsSpace(body[0]) && !IsSpace(body[|body| - 1])
    requires w1 != [] || !StartsWithIgnoringCase(body, "json")
    ensures Cleaned(raw) == body
  {
    PlainFenceSteps(w1, body, w2);
  }

  lemma PlainFenceSteps(w1: string, body: string, w2: string)
    requires AllSpace(w1) && AllSpace(w2)
    requires body != [] && !IsSpace(body[0]) && !IsSpace(body[|body| - 1])
    requires w1 != [] || !StartsWithIgnoringCase(body, "json")
    ensures StripFences(Fence + w1 + body + w2 + Fence) == body
  {
    var m := Fence + w1 + body + w2 + Fence;
    NotJsonTagged(w1, body, w2);
    assert StartsWith(m, Fence) && m[|Fence|..] == w1 + body + w2 + Fence by {
      assert m[..3] == Fence;
    }
    UnfenceEnd(w1, body, w2);
    UntaggedStripped(m);
  }

  /** A fence followed by a tag that does not open with "json" does not match "```json". */
  lemma NotJsonTagged(w1: string, body: string, w2: string)
    requires AllSpace(w1) && AllSpace(w2)
    requires body != [] && !IsSpace(body[0])
    requires w1 != [] || !StartsWithIgnoringCase(body, "json")
    ensures !StartsWithIgnoringCase(Fence + w1 + body + w2 + Fence, JsonFence)
  {
    var m := Fence + w1 + body + w2 + Fence;
    // a position within the tag where the text and "json" part ways
    var k := TagMismatch(w1, body, w2);
    assert LowerAscii(m[3 + k]) != LowerAscii(JsonFence[3 + k]);
  }

  /** A text opening with a fence but not with "```json" loses that fence, then a closing one, then is trimmed. */
  lemma UntaggedStripped(m: string)
    requires !StartsWithIgnoringCase(m, JsonFence) && StartsWith(m, Fence)
    requires EndsWith(m[|Fence|..], Fence)
    ensures StripFences(m) == Trim(m[|Fence|..][..|m| - 2 * |Fence|])
  {
  }

  /**
   * An offset `k < 4` after the opening fence at which `w1 + body + w2 + Fence`
   * differs, letter case aside, from the "json" tag.
   */
  lemma TagMismatch(w1: string, body: string, w2: string) returns (k: nat)
    requires AllSpace(w1) && AllSpace(w2)
    requires body != [] && !IsSpace(body[0])
    requires w1 != [] || !StartsWithIgnoringCase(body, "json")
    ensures k < 4 && k < |w1 + body + w2 + Fence|
    ensures LowerAscii((w1 + body + w2 + Fence)[k]) != LowerAscii("json"[k])
  {
    var t := w1 + body + w2 + Fence;
    if w1 != [] {
      k := 0;
      assert t[0] == w1[0] && IsSpace(w1[0]);
    } else if |body| >= 4 {
      k :| 0 <= k < 4 && LowerAscii(body[k]) != LowerAscii("json"[k]);
      assert t[k] == body[k];
    } else {
      k := |body|;
      if w2 != [] {
        assert t[k] == w2[0] && IsSpace(w2[0]);
      } else {
        assert t[k] == '`';
      }
    }
  }

  /** "```python" is not stripped: the tag stays in the text handed to the decoder. */
  lemma PythonTagKept()
    ensures Cleaned("```python\n{}\n```") == "python\n{}"
  {
    var raw := "```python\n{}\n```";
    var body := "python\n{}";
    assert raw == Fence + [] + body + "\n" + Fence;
    TrimmedUnchanged(raw);
    PlainFencedReply(raw, [], body, "\n");
  }

  /** The usual reply shape, a JSON text between a "```json" line and a "```" line, decodes the text alone. */
  lemma UsualFencedReply(json: string)
    requires json != [] && !IsSpace(json[0]) && !IsSpace(json[|json| - 1]) && json[0] != '`'
    ensures Cleaned("```json\n" + json + "\n```") == json
  {
    var raw := "```json\n" + json + "\n```";
    assert raw == Fence + "json" + "\n" + json + "\n" + Fence by {
      assert "```json\n" == Fence + "json" + "\n";
      assert "\n```" == "\n" + Fence;
    }
    assert raw[0] == '`' && raw[|raw| - 1] == '`';
    TrimmedUnchanged(raw);
    JsonFencedReply(raw, "json", "\n", json, "\n");
  }

  /** A JSON text that is already trimmed and unfenced reaches the decoder unchanged. */
  lemma BareReply(json: string)
    requires json != [] && !IsSpace(json[0]) && !IsSpace(json[|json| - 1]) && json[0] != '`'
    requires !EndsWith(json, Fence)
    ensures Cleaned(json) == json
  {
    TrimmedUnchanged(json);
    assert !StartsWith(json, Fence) by {
      assert |json| < |Fence| || json[0] != Fence[0];
    }
    CleanUnfenced(json);
  }

  /** Two non-empty replies that clean to the same text are judged alike. */
  lemma JudgedByCleanedText(raw1: string, raw2: string, parse: string -> Option<Json>)
    requires raw1 != [] && raw2 != [] && Cleaned(raw1) == Cleaned(raw2)
    ensures ValidateReply(Reply(raw1), parse) == ValidateReply(Reply(raw2), parse)
  {
  }

  /** Wrapping a JSON text in a "```json" fence does not change how the reply is judged. */
  lemma FencedJsonJudgedAlike(json: string, parse: string -> Option<Json>)
    requires json != [] && !IsSpace(json[0]) && !IsSpace(json[|json| - 1])
    requires json[0] != '`' && !EndsWith(json, Fence)
    ensures ValidateReply(Reply("```json\n" + json + "\n```"), parse) == ValidateReply(Reply(json), parse)
  {
    UsualFencedReply(json);
    BareReply(json);
    JudgedByCleanedText("```json\n" + json + "\n```", json, parse);
  }

  /** A reply of white space only is truthy, so it reaches the decoder, as the empty text. */
  lemma BlankReplyDecodesEmpty(raw: string, parse: string -> Option<Json>)
    requires raw != [] && AllSpace(raw)
    ensures Cleaned(raw) == []
    ensures parse([]).None? ==> ValidateReply(Reply(raw), parse) == Failure(ParseFailed)
  {
    TrimEmptyIffAllSpace(raw);
  }

  /** A decoded reply with the rewritten CV it carries. */
  datatype Validated = Validated(analysis: Json, improvedText: Json)

  /** The checks between the model call and the renderer, in the order the service makes them. */
  function ValidateReply(reply: AiReply, parse: string -> Option<Json>): (r: Result<Validated, ServiceError>)
    ensures r.Success? ==>
      && reply.Reply?
      && parse(Cleaned(reply.text)) == Some(r.value.analysis)
      && r.value.analysis.JObj?
      && ImprovedKey in r.value.analysis.fields
      && r.value.analysis.fields[ImprovedKey] == r.value.improvedText
      && Truthy(r.value.improvedText)
    ensures (&& reply.Reply? && reply.text != []
             && parse(Cleaned(reply.text)).Some?
             && parse(Cleaned(reply.text)).value.JObj?
             && ImprovedKey in parse(Cleaned(reply.text)).value.fields
             && Truthy(parse(Cleaned(reply.text)).value.fields[ImprovedKey])) ==> r.Success?
    ensures r == Failure(AiUnavailable) <==> reply.AiThrew?
    ensures r == Failure(InvalidText) <==> reply.NotText? || reply == Reply([])
    ensures r == Failure(ParseFailed) <==> reply.Reply? && reply.text != [] && parse(Cleaned(reply.text)).None?
    ensures r == Failure(NullAnalysis) <==>
      reply.Reply? && reply.text != [] && parse(Cleaned(reply.text)) == Some(JNull)
    ensures r == Failure(MissingImprovedText) <==>
      && reply.Reply? && reply.text != []
      && parse(Cleaned(reply.text)).Some?
      && parse(Cleaned(reply.text)).value != JNull
      && !(&& parse(Cleaned(reply.text)).value.JObj?
           && ImprovedKey in parse(Cleaned(reply.text)).value.fields
           && Truthy(parse(Cleaned(reply.text)).value.fields[ImprovedKey]))
  {
    match reply
    case AiThrew => Failure(AiUnavailable)
    case NotText => Failure(InvalidText)
    case Reply(raw) =>
      if raw == [] then Failure(InvalidText)
      else
        match parse(Cleaned(raw))
        case None => Failure(ParseFailed)
        case Some(analysis) =>
          if analysis == JNull then Failure(NullAnalysis)
          else
            var improved := Property(analysis, ImprovedKey);
            if improved.None? || !Truthy(improved.value) then Failure(MissingImprovedText)
            else Success(Validated(analysis, improved.value))
  }

  // ---------- the generated file name ----------

  const NamePrefix: string := "cv-improved-for-job-"
  const NameSuffix: string := ".pdf"

  predicate IsDigit(c: char) {
    '0' <= c <= '9'
  }

  /** The character of a decimal digit. */
  function DigitChar(d: nat): (c: char)
    requires d < 10
    ensures IsDigit(c) && c as int - '0' as int == d
  {
    ('0' as int + d) as char
  }

  /** The decimal digits of `n`, as `Number.prototype.toString` writes a millisecond timestamp. */
  function Decimal(n: nat): (s: string)
    ensures s != []
    ensures forall i :: 0 <= i < |s| ==> IsDigit(s[i])
  {
    if n < 10 then [DigitChar(n)]
    else Decimal(n / 10) + [DigitChar(n % 10)]
  }

  /** The number a string of decimal digits denotes. */
  function DecimalValue(s: string): nat {
    if s == [] then 0
    else
      var d := s[|s| - 1] as int - '0' as int;
      DecimalValue(s[..|s| - 1]) * 10 + (if 0 <= d then d else 0)
  }

  /** The name the service gives the PDF it generates at time `now`. */
  function GeneratedName(now: nat): string {
    NamePrefix + Decimal(now) + NameSuffix
  }

  /** The timestamp a generated name was made from. */
  function TimestampOf(name: string): nat
    requires |name| >= |NamePrefix| + |NameSuffix|
  {
    DecimalValue(name[|NamePrefix|..|name| - |NameSuffix|])
  }

  /** `DecimalValue` reads back what `Decimal` writes. */
  lemma {:induction false} DecimalRoundTrip(n: nat)
    ensures DecimalValue(Decimal(n)) == n
  {
    var s := Decimal(n);
    if n >= 10 {
      assert s[..|s| - 1] == Decimal(n / 10);
      DecimalRoundTrip(n / 10);
    }
  }

  /** The clock reading can be recovered from the generated name, so distinct readings give distinct names. */
  lemma GeneratedNameRoundTrip(now: nat, other: nat)
    ensures TimestampOf(GeneratedName(now)) == now
    ensures GeneratedName(now) == GeneratedName(other) ==> now == other
  {
    var name := GeneratedName(now);
    assert name[|NamePrefix|..|name| - |NameSuffix|] == Decimal(now);
    DecimalRoundTrip(now);
    var name2 := GeneratedName(other);
    assert name2[|NamePrefix|..|name2| - |NameSuffix|] == Decimal(other);
    DecimalRoundTrip(other);
  }

  /** The only '.' in a generated name is the one that opens ".pdf". */
  lemma OneDotInGeneratedName(now: nat)
    ensures forall k :: 0 <= k < |GeneratedName(now)| && k != |NamePrefix| + |Decimal(now)| ==>
      GeneratedName(now)[k] != '.'
  {
    var name := GeneratedName(now);
    var d := Decimal(now);
    var p := |NamePrefix| + |d|;
    assert '.' !in NamePrefix;
    forall k | 0 <= k < |name| && k != p
      ensures name[k] != '.'
    {
      if k < |NamePrefix| {
        assert name[k] == NamePrefix[k];
        assert NamePrefix[k] in NamePrefix;
      } else if k < p {
        assert name[k] == d[k - |NamePrefix|];
      } else {
        assert name[k] == NameSuffix[k - p];
      }
    }
  }

  /** A generated name never holds "..". */
  lemma GeneratedNameHasNoDotDot(now: nat)
    ensures !Contains(GeneratedName(now), "..")
  {
    var name := GeneratedName(now);
    var dot := |NamePrefix| + |Decimal(now)|;
    OneDotInGeneratedName(now);
    forall i | 0 <= i <= |name| - 2
      ensures !IsSubstringAt(name, "..", i)
    {
      // of two neighbouring positions, one is not the dot of ".pdf"
      var j := if i == dot then i + 1 else i;
      assert name[j] != '.';
      assert name[i..i + 2][j - i] == name[j];
      assert ".."[j - i] == '.';
    }
  }

  // ---------- the whole service ----------

  /** What the service returns, together with the document it wrote. */
  datatype ServiceOutput = ServiceOutput(analysis: Json, pdfFilename: string, document: seq<Render.Action>)

  /**
   * What follows validation: a failed check is thrown on unchanged, and no PDF
   * is produced; otherwise the PDF is named after the clock and holds the
   * rendered CV text, which must be a string.
   */
  function Conclude(v: Result<Validated, ServiceError>, now: nat): (r: Result<ServiceOutput, ServiceError>)
    ensures v.Failure? ==> r == Failure(v.error)
    ensures r.Success? <==> v.Success? && v.value.improvedText.JStr?
    ensures v.Success? && !v.value.improvedText.JStr? ==> r == Failure(ImprovedTextNotString)
    ensures r.Success? ==>
      && r.value.analysis == v.value.analysis
      && r.value.document == Render.Rendered(v.value.improvedText.s)
      && r.value.pdfFilename == GeneratedName(now)
  {
    match v
    case Failure(e) => Failure(e)
    case Success(v) =>
      var name := GeneratedName(now);
      match v.improvedText
      case JStr(text) => Success(ServiceOutput(v.analysis, name, Render.Rendered(text)))
      case _ => Failure(ImprovedTextNotString)
  }

  /**
   * `optimizeCvForJob`: the encoded CV and the job description go into the
   * prompt, the model's reply is validated, and the rewritten CV is rendered.
   */
  function OptimizeCvForJob(cvBase64: string, jobDescription: string, ai: string -> AiReply,
                            parse: string -> Option<Json>, now: nat): Result<ServiceOutput, ServiceError>
  {
    Answer(ai(Prompt(cvBase64, jobDescription)), parse, now)
  }

  /** What the service makes of the model's reply. */
  function Answer(reply: AiReply, parse: string -> Option<Json>, now: nat): Result<ServiceOutput, ServiceError> {
    Conclude(ValidateReply(reply, parse), now)
  }

  /**
   * The service succeeds exactly when the model answers with non-empty text
   * that cleans to an object whose CV text is a non-empty string; it then
   * hands back the decoded object, the name made from the clock, and the
   * rendering of that CV text.
   */
  lemma AnswerOutcome(reply: AiReply, parse: string -> Option<Json>, now: nat)
    ensures var r := Answer(reply, parse, now);
      && (r.Success? <==>
            && reply.Reply? && reply.text != []
            && parse(Cleaned(reply.text)).Some?
            && parse(Cleaned(reply.text)).value.JObj?
            && ImprovedKey in parse(Cleaned(reply.text)).value.fields
            && parse(Cleaned(reply.text)).value.fields[ImprovedKey].JStr?
            && parse(Cleaned(reply.text)).value.fields[ImprovedKey].s != [])
      && (r.Success? ==>
            && r.value.analysis == parse(Cleaned(reply.text)).value
            && r.value.pdfFilename == GeneratedName(now)
            && r.value.document == Render.Rendered(parse(Cleaned(reply.text)).value.fields[ImprovedKey].s))
  {
    var v := ValidateReply(reply, parse);
    if v.Success? {
      assert v.value.improvedText == parse(Cleaned(reply.text)).value.fields[ImprovedKey];
    }
  }
}
