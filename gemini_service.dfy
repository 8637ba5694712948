/**
 * The question provider of services/geminiService.ts: the validator that turns the text the
 * generative service answers with into a QuizQuestion (parseGeminiResponse), the decision
 * logic of fetchQuizQuestion (mock question, rejection or parsed question) and the block of
 * previously asked questions placed in the prompt.
 *
 * The network call and JSON.parse are foreign code: the service's answer is a parameter
 * (ApiOutcome) and JSON.parse is a parameter `jsonParse` that either yields a JSON value or
 * fails (None, where JSON.parse throws).
 */
module GeminiService {
  import opened QuizTypes

  /** A value as JSON.parse builds it; a number keeps its literal text (its value is never inspected). */
  datatype Json =
    | JNull
    | JBool(b: bool)
    | JNumber(literal: string)
    | JString(s: string)
    | JArray(elems: seq<Json>)
    | JObject(fields: map<string, Json>)

  // ---------------------------------------------------------------------------------------
  // Whitespace and trimming
  // ---------------------------------------------------------------------------------------

  /** The white space and line terminators of ECMAScript: what `trim()` removes and `\s` matches. */
  predicate IsSpace(c: char)
  {
    c in SpaceChars
  }

  const SpaceChars: set<char> := {
    '\t', '\n', '\U{B}', '\U{C}', '\r', ' ', '\U{A0}', '\U{1680}',
    '\U{2000}', '\U{2001}', '\U{2002}', '\U{2003}', '\U{2004}', '\U{2005}', '\U{2006}',
    '\U{2007}', '\U{2008}', '\U{2009}', '\U{200A}',
    '\U{2028}', '\U{2029}', '\U{202F}', '\U{205F}', '\U{3000}', '\U{FEFF}'}

  /** The regular-expression class `\w`. */
  predicate IsWordChar(c: char)
  {
    ('a' <= c <= 'z') || ('A' <= c <= 'Z') || ('0' <= c <= '9') || c == '_'
  }

  predicate AllSpace(s: string)
  {
    forall i :: 0 <= i < |s| ==> IsSpace(s[i])
  }

  predicate AllWord(s: string)
  {
    forall i :: 0 <= i < |s| ==> IsWordChar(s[i])
  }

  /** Number of white-space characters at the start of `s`. */
  function LeadingSpaces(s: string): (n: nat)
    ensures n <= |s|
    ensures forall i :: 0 <= i < n ==> IsSpace(s[i])
    ensures n < |s| ==> !IsSpace(s[n])
  {
    if s == [] || !IsSpace(s[0]) then 0
    else 1 + LeadingSpaces(s[1..])
  }

  /** Number of white-space characters at the end of `s`. */
  function TrailingSpaces(s: string): (n: nat)
    ensures n <= |s|
    ensures forall i :: |s| - n <= i < |s| ==> IsSpace(s[i])
    ensures n < |s| ==> !IsSpace(s[|s| - n - 1])
  {
    if s == [] || !IsSpace(s[|s| - 1]) then 0
    else 1 + TrailingSpaces(s[..|s| - 1])
  }

  /** Number of `\w` characters at the start of `s`: what the greedy `(\w*)` takes. */
  function WordPrefix(s: string): (n: nat)
    ensures n <= |s|
    ensures forall i :: 0 <= i < n ==> IsWordChar(s[i])
    ensures n < |s| ==> !IsWordChar(s[n])
  {
    if s == [] || !IsWordChar(s[0]) then 0
    else 1 + WordPrefix(s[1..])
  }

  /** `String.prototype.trim`: the result never starts or ends with white space, and is empty exactly when `s` is all white space. */
  function Trim(s: string): (r: string)
    ensures r == [] || (!IsSpace(r[0]) && !IsSpace(r[|r| - 1]))
    ensures |r| <= |s|
  {
    var t := s[LeadingSpaces(s)..];
    assert t != [] ==> !IsSpace(t[0]);
    t[..|t| - TrailingSpaces(t)]
  }

  /** Trimming leaves nothing exactly when the text is all white space. */
  lemma TrimEmpty(s: string)
    ensures Trim(s) == [] <==> AllSpace(s)
  {
    var k := LeadingSpaces(s);
    if k < |s| {
      var t := s[k..];
      assert !IsSpace(t[0]);
      assert TrailingSpaces(t) < |t|;
    }
  }

  lemma {:induction false} LeadingSpacesAppend(lead: string, rest: string)
    requires AllSpace(lead)
    ensures LeadingSpaces(lead + rest) == |lead| + LeadingSpaces(rest)
  {
    if lead != [] {
      assert (lead + rest)[1..] == lead[1..] + rest;
      LeadingSpacesAppend(lead[1..], rest);
    } else {
      assert lead + rest == rest;
    }
  }

  lemma {:induction false} TrailingSpacesAppend(rest: string, trail: string)
    requires AllSpace(trail)
    ensures TrailingSpaces(rest + trail) == TrailingSpaces(rest) + |trail|
  {
    if trail != [] {
      var s := rest + trail;
      assert s[..|s| - 1] == rest + trail[..|trail| - 1];
      TrailingSpacesAppend(rest, trail[..|trail| - 1]);
    } else {
      assert rest + trail == rest;
    }
  }

  lemma {:induction false} WordPrefixAppend(tag: string, rest: string)
    requires AllWord(tag)
    requires rest == [] || !IsWordChar(rest[0])
    ensures WordPrefix(tag + rest) == |tag|
  {
    if tag != [] {
      assert (tag + rest)[1..] == tag[1..] + rest;
      WordPrefixAppend(tag[1..], rest);
    } else {
      assert tag + rest == rest;
    }
  }

  /** Trimming a string padded with white space on both sides gives back the core, when the core has no white space at its ends. */
  lemma TrimPadded(lead: string, core: string, trail: string)
    requires AllSpace(lead) && AllSpace(trail)
    requires core == [] || (!IsSpace(core[0]) && !IsSpace(core[|core| - 1]))
    ensures Trim(lead + core + trail) == core
  {
    var s := lead + core + trail;
    assert s == lead + (core + trail);
    LeadingSpacesAppend(lead, core + trail);
    if core == [] {
      assert core + trail == trail;
      assert LeadingSpaces(trail) == |trail|;
      assert s[LeadingSpaces(s)..] == [];
    } else {
      assert LeadingSpaces(core + trail) == 0;
      var t := s[|lead|..];
      assert t == core + trail;
      TrailingSpacesAppend(core, trail);
      assert t[..|t| - TrailingSpaces(t)] == core;
    }
  }

  /** A text with no white space at its ends is left alone by trimming. */
  lemma TrimmedUnchanged(s: string)
    requires s == [] || (!IsSpace(s[0]) && !IsSpace(s[|s| - 1]))
    ensures Trim(s) == s
  {
    TrimPadded([], s, []);
    assert [] + s + [] == s;
  }

  /** Trimming twice changes nothing more. */
  lemma TrimIdempotent(s: string)
    ensures Trim(Trim(s)) == Trim(s)
  {
    TrimmedUnchanged(Trim(s));
  }

  // ---------------------------------------------------------------------------------------
  // The Markdown fence
  // ---------------------------------------------------------------------------------------

  const Fence: string := "```"

  /**
   * Group 2 of the pattern ^```(\w*)?\s*\n?(.*?)\n?\s*```$ with the `s` flag, when the pattern
   * matches the whole of `t`. The greedy `(\w*)` takes the longest run of word characters after
   * the opening fence and `\s*` the white space after it; the lazy group then stops before the
   * white space that precedes the closing fence.
   */
  function FenceContent(t: string): (r: Option<string>)
    ensures r.Some? <==> IsFenced(t)
    ensures r.Some? && r.value != [] ==> !IsSpace(r.value[0]) && !IsSpace(r.value[|r.value| - 1])
  {
    if IsFenced(t) then Some(FenceGroup(t[3..|t| - 3])) else None
  }

  /** The whole of `t` is matched by the fence pattern: it opens and closes with three backquotes that do not overlap. */
  predicate IsFenced(t: string)
  {
    |t| >= 6 && t[..3] == Fence && t[|t| - 3..] == Fence
  }

  /** What the lazy group captures from the text between the two fences: the tag is skipped and the white space on both sides of the group dropped. */
  function FenceGroup(body: string): (r: string)
    ensures r != [] ==> !IsSpace(r[0]) && !IsSpace(r[|r| - 1])
  {
    Trim(body[WordPrefix(body)..])
  }

  /** The text handed to JSON.parse: the trimmed response, or the trimmed inside of its fence when there is one with non-empty content. */
  function JsonText(responseText: string): (r: string)
    ensures r == [] || (!IsSpace(r[0]) && !IsSpace(r[|r| - 1]))
    ensures |r| <= |responseText|
  {
    var t := Trim(responseText);
    match FenceContent(t)
    case Some(inner) => if inner != [] then Trim(inner) else t
    case None => t
  }

  /** A response that, once trimmed, is not wrapped in fences is parsed as it stands after trimming. */
  lemma UnfencedParsedAsIs(responseText: string)
    requires !IsFenced(Trim(responseText))
    ensures JsonText(responseText) == Trim(responseText)
  {
  }

  lemma SplitFences(body: string)
    ensures IsFenced(Fence + body + Fence)
    ensures (Fence + body + Fence)[3..|body| + 3] == body
  {
    var t := Fence + body + Fence;
    assert t[..3] == Fence;
    assert t[|t| - 3..] == Fence;
  }

  lemma SkipTag(tag: string, rest: string)
    requires AllWord(tag)
    requires rest == [] || !IsWordChar(rest[0])
    ensures FenceGroup(tag + rest) == Trim(rest)
  {
    WordPrefixAppend(tag, rest);
    assert (tag + rest)[|tag|..] == rest;
  }

  /** Between the fences, an optional tag and white space are skipped, and the white space before the closing fence is dropped. */
  lemma FenceGroupOf(tag: string, ws1: string, payload: string, ws2: string)
    requires AllSpace(ws1) && AllSpace(ws2) && AllWord(tag)
    requires payload != [] && !IsSpace(payload[0]) && !IsSpace(payload[|payload| - 1])
    requires ws1 != [] || !IsWordChar(payload[0])
    ensures FenceGroup(tag + ws1 + payload + ws2) == payload
  {
    var rest := ws1 + payload + ws2;
    assert tag + ws1 + payload + ws2 == tag + rest;
    if ws1 != [] {
      assert rest[0] == ws1[0];
      SpaceIsNotWord(ws1[0]);
    } else {
      assert rest[0] == payload[0];
    }
    SkipTag(tag, rest);
    TrimPadded(ws1, payload, ws2);
  }

  lemma SpaceIsNotWord(c: char)
    requires IsSpace(c)
    ensures !IsWordChar(c)
  {
  }

  /** A trimmed, fenced response with a non-empty group is parsed as that group. */
  lemma JsonTextOfFenced(pad1: string, body: string, pad2: string)
    requires AllSpace(pad1) && AllSpace(pad2)
    requires FenceGroup(body) != []
    ensures JsonText(pad1 + (Fence + body + Fence) + pad2) == FenceGroup(body)
  {
    var text := pad1 + (Fence + body + Fence) + pad2;
    var g := FenceGroup(body);
    TrimFenced(pad1, body, pad2);
    FenceContentOfFenced(body);
    JsonTextFromParts(text, g);
  }

  lemma JsonTextFromParts(text: string, g: string)
    requires FenceContent(Trim(text)) == Some(g) && g != [] && Trim(g) == g
    ensures JsonText(text) == g
  {
  }

  lemma TrimFenced(pad1: string, body: string, pad2: string)
    requires AllSpace(pad1) && AllSpace(pad2)
    ensures Trim(pad1 + (Fence + body + Fence) + pad2) == Fence + body + Fence
  {
    var core := Fence + body + Fence;
    assert core[0] == '`' && core[|core| - 1] == '`';
    TrimPadded(pad1, core, pad2);
  }

  lemma FenceContentOfFenced(body: string)
    ensures FenceContent(Fence + body + Fence) == Some(FenceGroup(body))
  {
    SplitFences(body);
  }

  /**
   * A payload wrapped in a fence with an optional language tag, white space around it and
   * around the whole, is unwrapped to exactly the payload.
   */
  lemma FenceUnwrapped(pad1: string, tag: string, ws1: string, payload: string, ws2: string, pad2: string)
    requires AllSpace(pad1) && AllSpace(ws1) && AllSpace(ws2) && AllSpace(pad2) && AllWord(tag)
    requires payload != [] && !IsSpace(payload[0]) && !IsSpace(payload[|payload| - 1])
    requires ws1 != [] || !IsWordChar(payload[0])
    ensures JsonText(pad1 + (Fence + (tag + ws1 + payload + ws2) + Fence) + pad2) == payload
  {
    FenceGroupOf(tag, ws1, payload, ws2);
    JsonTextOfFenced(pad1, tag + ws1 + payload + ws2, pad2);
  }

  /** A fence holding only a tag and white space captures nothing, so the trimmed text is parsed unchanged, fences included. */
  lemma EmptyFenceParsedAsIs(pad1: string, tag: string, ws: string, pad2: string)
    requires AllSpace(pad1) && AllSpace(ws) && AllSpace(pad2) && AllWord(tag)
    ensures JsonText(pad1 + (Fence + (tag + ws) + Fence) + pad2) == Fence + (tag + ws) + Fence
  {
    var body := tag + ws;
    TrimFenced(pad1, body, pad2);
    FenceContentOfFenced(body);
    EmptyGroupOfTag(tag, ws);
    JsonTextOfEmptyGroup(pad1 + (Fence + body + Fence) + pad2);
  }

  lemma EmptyGroupOfTag(tag: string, ws: string)
    requires AllWord(tag) && AllSpace(ws)
    ensures FenceGroup(tag + ws) == []
  {
    if ws != [] {
      SpaceIsNotWord(ws[0]);
    }
    SkipTag(tag, ws);
    TrimEmpty(ws);
  }

  lemma JsonTextOfEmptyGroup(text: string)
    requires FenceContent(Trim(text)) == Some([])
    ensures JsonText(text) == Trim(text)
  {
  }

  // ---------------------------------------------------------------------------------------
  // Structural validation
  // ---------------------------------------------------------------------------------------

  /**
   * The shape parseGeminiResponse accepts: an object whose `question` is a string, whose
   * `options` is an array of exactly four strings, and whose `correctAnswer` is a string
   * found among the options.
   */
  predicate HasQuizShape(v: Json)
  {
    v.JObject? &&
    "question" in v.fields && v.fields["question"].JString? &&
    "options" in v.fields && v.fields["options"].JArray? &&
    |v.fields["options"].elems| == 4 &&
    AllStrings(v.fields["options"].elems) &&
    "correctAnswer" in v.fields && v.fields["correctAnswer"].JString? &&
    JString(v.fields["correctAnswer"].s) in v.fields["options"].elems
  }

  predicate AllStrings(elems: seq<Json>)
  {
    forall e :: e in elems ==> e.JString?
  }

  /** The strings inside an array of JSON strings, in order. */
  function StringsOf(elems: seq<Json>): (r: seq<string>)
    requires AllStrings(elems)
    ensures |r| == |elems|
    ensures forall i :: 0 <= i < |r| ==> elems[i] == JString(r[i])
  {
    if elems == [] then [] else [elems[0].s] + StringsOf(elems[1..])
  }

  /** `q` holds the question text, the options in order and the answer of the JSON object `v`. */
  predicate CopiedFrom(q: QuizQuestion, v: Json)
  {
    v.JObject? &&
    "question" in v.fields && v.fields["question"] == JString(q.question) &&
    "correctAnswer" in v.fields && v.fields["correctAnswer"] == JString(q.correctAnswer) &&
    "options" in v.fields && v.fields["options"].JArray? &&
    |v.fields["options"].elems| == |q.options| &&
    forall i :: 0 <= i < |q.options| ==> v.fields["options"].elems[i] == JString(q.options[i])
  }

  /** The structural check and construction of parseGeminiResponse, on an already parsed value. */
  function ValidateQuestion(v: Json, category: Category, difficulty: Difficulty): (r: Option<QuizQuestion>)
    ensures r.Some? <==> HasQuizShape(v)
    ensures r.Some? ==> WellFormedQuestion(r.value)
    ensures r.Some? ==> r.value.category == category && r.value.difficulty == difficulty
    ensures r.Some? ==> CopiedFrom(r.value, v)
  {
    match v
    case JObject(m) =>
      if "question" in m && "options" in m && "correctAnswer" in m then
        match (m["question"], m["options"], m["correctAnswer"])
        case (JString(q), JArray(opts), JString(ans)) =>
          if |opts| == 4 && AllStrings(opts) && JString(ans) in opts then
            var options := StringsOf(opts);
            assert ans in options by {
              var j :| 0 <= j < |opts| && opts[j] == JString(ans);
              assert options[j] == ans;
            }
            Some(QuizQuestion(q, options, ans, category, difficulty))
          else None
        case _ => None
      else None
    case _ => None
  }

  /** The JSON object a well-formed question is written as. */
  function ToJson(q: QuizQuestion): Json
  {
    JObject(map[
      "question" := JString(q.question),
      "options" := JArray(seq(|q.options|, i requires 0 <= i < |q.options| => JString(q.options[i]))),
      "correctAnswer" := JString(q.correctAnswer)])
  }

  /** Validating the JSON form of a well-formed question gives the question back. */
  lemma ValidateRoundTrip(q: QuizQuestion)
    requires WellFormedQuestion(q)
    ensures ValidateQuestion(ToJson(q), q.category, q.difficulty) == Some(q)
  {
    var v := ToJson(q);
    var elems := v.fields["options"].elems;
    var j :| 0 <= j < |q.options| && q.options[j] == q.correctAnswer;
    assert elems[j] == JString(q.correctAnswer);
    assert HasQuizShape(v);
    var r := ValidateQuestion(v, q.category, q.difficulty);
    assert r.value.options == q.options;
  }

  /** parseGeminiResponse: strip the fence, parse, validate; null (None) on any failure. */
  function ParseGeminiResponse(responseText: string, category: Category, difficulty: Difficulty,
                               jsonParse: string -> Option<Json>): (r: Option<QuizQuestion>)
    ensures r.Some? <==>
      jsonParse(JsonText(responseText)).Some? && HasQuizShape(jsonParse(JsonText(responseText)).value)
    ensures r.Some? ==> WellFormedQuestion(r.value)
    ensures r.Some? ==> r.value.category == category && r.value.difficulty == difficulty
    ensures r.Some? ==> CopiedFrom(r.value, jsonParse(JsonText(responseText)).value)
  {
    match jsonParse(JsonText(responseText))
    case None => None
    case Some(v) => ValidateQuestion(v, category, difficulty)
  }

  // ---------------------------------------------------------------------------------------
  // fetchQuizQuestion
  // ---------------------------------------------------------------------------------------

  /** What a `catch` clause receives: an Error object with its message, or any other value shown as text. */
  datatype Thrown = ErrorObject(message: string) | OtherThrown(shown: string)

  /** What the call to the generative service ends with: the text of its answer, or a thrown value. */
  datatype ApiOutcome = ApiResponse(text: string) | ApiFailure(thrown: Thrown)

  /** The settled promise of fetchQuizQuestion: a question, or a rejection with an Error message. */
  datatype FetchResult = Resolved(question: QuizQuestion) | Rejected(message: string)

  const MockOptions: seq<string> := ["3", "4", "5", "6"]
  const MockAnswer: string := "4"
  const ApiErrorSuffix: string := " (API Error)"
  const InvalidKeyMarker: string := "API key not valid"
  const QuotaMarker: string := "Quota"
  /** "ไม่สามารถประมวลผลคำถามจาก AI ได้ โปรดลองอีกครั้ง", written in words so that facts about its characters stay cheap to prove. */
  const ParseFailureMessage: string := "ไม่สามารถ" + "ประมวลผล" + "คำถามจาก" + " AI ได้ " + "โปรดลอง" + "อีกครั้ง"
  const FetchFailurePrefix: string := "ไม่สามารถดึงคำถามได้: "

  /** `s.includes(sub)`. */
  predicate Contains(s: string, sub: string)
  {
    exists i :: 0 <= i <= |s| - |sub| && OccursAt(s, sub, i)
  }

  predicate OccursAt(s: string, sub: string, i: int)
  {
    0 <= i <= |s| - |sub| && s[i..i + |sub|] == sub
  }

  predicate Lacks(s: string, c: char)
  {
    forall i :: 0 <= i < |s| ==> s[i] != c
  }

  /** A string that lacks one of the characters of `sub` does not contain `sub`. */
  lemma MissingCharNotContained(s: string, sub: string, j: nat)
    requires j < |sub|
    requires Lacks(s, sub[j])
    ensures !Contains(s, sub)
  {
    forall i | 0 <= i <= |s| - |sub|
      ensures !OccursAt(s, sub, i)
    {
      assert s[i..i + |sub|][j] == s[i + j];
    }
  }

  /** `!API_KEY` is false exactly for a defined, non-empty key. */
  predicate ApiKeyConfigured(apiKey: Option<string>)
  {
    apiKey.Some? && apiKey.value != ""
  }

  /** The built-in sample question; its text comes from the localisation table, which is not part of this model. */
  function MockQuestion(text: string, category: Category, difficulty: Difficulty): (q: QuizQuestion)
    ensures WellFormedQuestion(q)
    ensures q.question == text && q.category == category && q.difficulty == difficulty
  {
    var q := QuizQuestion(text, MockOptions, MockAnswer, category, difficulty);
    assert q.options[1] == MockAnswer;
    q
  }

  /** The `catch` block of fetchQuizQuestion: a key or quota error gives the sample question, anything else a prefixed rejection. */
  function Recover(t: Thrown, mockText: string, category: Category, difficulty: Difficulty): (r: FetchResult)
    ensures r.Resolved? <==>
      t.ErrorObject? && (Contains(t.message, InvalidKeyMarker) || Contains(t.message, QuotaMarker))
    ensures r.Resolved? ==> r.question == MockQuestion(mockText + ApiErrorSuffix, category, difficulty)
    ensures r.Rejected? ==>
      FetchFailurePrefix <= r.message &&
      r.message[|FetchFailurePrefix|..] == (match t case ErrorObject(m) => m case OtherThrown(s) => s)
  {
    match t
    case ErrorObject(m) =>
      if Contains(m, InvalidKeyMarker) || Contains(m, QuotaMarker) then
        Resolved(MockQuestion(mockText + ApiErrorSuffix, category, difficulty))
      else
        Rejected(FetchFailurePrefix + m)
    case OtherThrown(s) => Rejected(FetchFailurePrefix + s)
  }

  /**
   * The decision logic of fetchQuizQuestion. `apiKey` is the configured key, `mockText` the
   * localised sample question text, `api` what the service call ends with (used only when a
   * key is configured) and `jsonParse` stands for JSON.parse.
   */
  function FetchQuizQuestion(category: Category, difficulty: Difficulty, apiKey: Option<string>,
                             mockText: string, api: ApiOutcome, jsonParse: string -> Option<Json>): (r: FetchResult)
    ensures r.Resolved? ==> WellFormedQuestion(r.question)
    ensures r.Resolved? ==> r.question.category == category && r.question.difficulty == difficulty
    ensures !ApiKeyConfigured(apiKey) ==> r == Resolved(MockQuestion(mockText, category, difficulty))
    ensures ApiKeyConfigured(apiKey) && api.ApiResponse? &&
            ParseGeminiResponse(api.text, category, difficulty, jsonParse).Some? ==>
      r == Resolved(ParseGeminiResponse(api.text, category, difficulty, jsonParse).value)
    ensures ApiKeyConfigured(apiKey) && api.ApiFailure? ==> r == Recover(api.thrown, mockText, category, difficulty)
    ensures r.Resolved? ==>
      r.question == MockQuestion(mockText, category, difficulty) ||
      r.question == MockQuestion(mockText + ApiErrorSuffix, category, difficulty) ||
      (api.ApiResponse? && ParseGeminiResponse(api.text, category, difficulty, jsonParse) == Some(r.question))
    ensures r.Rejected? ==> FetchFailurePrefix <= r.message
  {
    if !ApiKeyConfigured(apiKey) then
      Resolved(MockQuestion(mockText, category, difficulty))
    else
      match api
      case ApiResponse(text) =>
        (match ParseGeminiResponse(text, category, difficulty, jsonParse)
         case Some(q) => Resolved(q)
         case None => Recover(ErrorObject(ParseFailureMessage), mockText, category, difficulty))
      case ApiFailure(t) => Recover(t, mockText, category, difficulty)
  }

  /** The parse-failure message is Thai text with "AI" in it: it has no 'k' and no 'Q'. */
  lemma ParseFailureMessageIsPlain()
    ensures Lacks(ParseFailureMessage, 'k') && Lacks(ParseFailureMessage, 'Q')
  {
    assert Lacks("ไม่สามารถ", 'k') && Lacks("ไม่สามารถ", 'Q');
    assert Lacks("ประมวลผล", 'k') && Lacks("ประมวลผล", 'Q');
    assert Lacks("คำถามจาก", 'k') && Lacks("คำถามจาก", 'Q');
    assert Lacks(" AI ได้ ", 'k') && Lacks(" AI ได้ ", 'Q');
    assert Lacks("โปรดลอง", 'k') && Lacks("โปรดลอง", 'Q');
    assert Lacks("อีกครั้ง", 'k') && Lacks("อีกครั้ง", 'Q');
  }

  /** With a key configured, a response that fails validation makes fetchQuizQuestion reject rather than return a question. */
  lemma ParseFailureRejects(category: Category, difficulty: Difficulty, apiKey: Option<string>,
                            mockText: string, text: string, jsonParse: string -> Option<Json>)
    requires ApiKeyConfigured(apiKey)
    requires ParseGeminiResponse(text, category, difficulty, jsonParse).None?
    ensures FetchQuizQuestion(category, difficulty, apiKey, mockText, ApiResponse(text), jsonParse)
            == Rejected(FetchFailurePrefix + ParseFailureMessage)
  {
    ParseFailureMessageIsPlain();
    MissingCharNotContained(ParseFailureMessage, InvalidKeyMarker, 4);
    MissingCharNotContained(ParseFailureMessage, QuotaMarker, 0);
  }

  /** A key or quota error from the service yields the sample question marked " (API Error)". */
  lemma KeyOrQuotaErrorServesMock(category: Category, difficulty: Difficulty, apiKey: Option<string>,
                                  mockText: string, message: string, jsonParse: string -> Option<Json>)
    requires ApiKeyConfigured(apiKey)
    requires Contains(message, InvalidKeyMarker) || Contains(message, QuotaMarker)
    ensures var r := FetchQuizQuestion(category, difficulty, apiKey, mockText, ApiFailure(ErrorObject(message)), jsonParse);
            r.Resolved? && r.question.question == mockText + ApiErrorSuffix &&
            r.question.options == ["3", "4", "5", "6"] && r.question.correctAnswer == "4"
  {
  }

  // ---------------------------------------------------------------------------------------
  // Previous questions in the prompt
  // ---------------------------------------------------------------------------------------

  /** `Array.prototype.join(sep)`. */
  function Join(items: seq<string>, sep: string): string
  {
    if |items| == 0 then ""
    else if |items| == 1 then items[0]
    else items[0] + sep + Join(items[1..], sep)
  }

  /** One "- " line per question, each ended by a newline. */
  function Bullets(items: seq<string>): string
  {
    if items == [] then "" else "- " + items[0] + "\n" + Bullets(items[1..])
  }

  /** The block of previously asked questions in the prompt; `header` is its localised heading line. */
  function PreviousQuestionsText(previous: seq<string>, header: string): (r: string)
    ensures r == [] <==> previous == []
  {
    if |previous| > 0 then "\n" + header + "\n- " + Join(previous, "\n- ") + "\n" else ""
  }

  lemma {:induction false} JoinedBullets(items: seq<string>)
    requires items != []
    ensures "- " + Join(items, "\n- ") + "\n" == Bullets(items)
  {
    if |items| == 1 {
      assert Bullets(items[1..]) == "";
    } else {
      JoinedBullets(items[1..]);
      calc {
        "- " + Join(items, "\n- ") + "\n";
        "- " + (items[0] + "\n- " + Join(items[1..], "\n- ")) + "\n";
        { assert "\n- " == "\n" + "- "; }
        "- " + items[0] + "\n" + ("- " + Join(items[1..], "\n- ") + "\n");
        "- " + items[0] + "\n" + Bullets(items[1..]);
      }
    }
  }

  /** A non-empty history is listed in full, one "- " line per question, after the heading. */
  lemma PreviousQuestionsListed(previous: seq<string>, header: string)
    requires previous != []
    ensures PreviousQuestionsText(previous, header) == "\n" + header + "\n" + Bullets(previous)
  {
    JoinedBullets(previous);
    assert "\n" + header + "\n- " + Join(previous, "\n- ") + "\n"
        == "\n" + header + "\n" + ("- " + Join(previous, "\n- ") + "\n");
  }
}
