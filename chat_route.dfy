/** The chat endpoint: the model's answer when an AI key is configured and the call works, the
    keyword-driven demo reply otherwise. */
module ChatRoute {
  import opened Js

  const DefaultReply := "멍! 무슨 말인지 잘 모르겠지만 사랑해! 💕 (데모 모드)"
  const GreetingReply := "안녕! 나 여기서 잘 지내고 있어! 꼬리 흔들흔들~ 🐕"
  const LoveReply := "나도 정말 많이 사랑해! 꿈에서 만나자! 💖"
  const MissReply := "울지마! 난 항상 네 곁에 있어. 눈 감으면 내가 보일 거야! ✨"
  const TreatReply := "여기 간식 진짜 많아! 친구들이랑 나눠 먹고 있어! 🍖"

  /** The reply when the model's answer has no text. */
  const NoTextReply := "멍... (말을 이해하지 못했어요)"

  /** The request's `message` as `message.includes` sees it: a string, an array (given by its
      string elements, since no other element can equal a keyword), or any other value, which has
      no `includes` method. */
  datatype Message = Text(text: string) | List(strings: seq<string>) | Other

  /** `message.includes(keyword)`: `String.prototype.includes` (an occurrence anywhere) on a
      string, `Array.prototype.includes` (an element equal to the keyword) on an array. */
  predicate Mentions(message: Message, keyword: string): (b: bool)
    requires !message.Other?
    ensures message.Text? && keyword == "" ==> b
    ensures message.List? ==> (b <==> keyword in message.strings)
  {
    match message
    case Text(text) => Includes(text, keyword)
    case List(strings) => keyword in strings
  }

  /** The demo reply: the `if`/`else if` chain over the keywords. */
  function MockReply(message: Message): (reply: string)
    requires !message.Other?
    ensures Mentions(message, "안녕") ==> reply == GreetingReply
    ensures !Mentions(message, "안녕") && Mentions(message, "사랑해") ==> reply == LoveReply
    ensures !Mentions(message, "안녕") && !Mentions(message, "사랑해") && Mentions(message, "보고싶어") ==>
      reply == MissReply
    ensures (!Mentions(message, "안녕") && !Mentions(message, "사랑해") && !Mentions(message, "보고싶어")
      && Mentions(message, "간식")) ==> reply == TreatReply
    ensures reply == DefaultReply <==>
      !Mentions(message, "안녕") && !Mentions(message, "사랑해") && !Mentions(message, "보고싶어")
      && !Mentions(message, "간식")
  {
    if Mentions(message, "안녕") then GreetingReply
    else if Mentions(message, "사랑해") then LoveReply
    else if Mentions(message, "보고싶어") then MissReply
    else if Mentions(message, "간식") then TreatReply
    else DefaultReply
  }

  /** The keywords with their replies, in the order they are tried. */
  const Keywords: seq<(string, string)> :=
    [("안녕", GreetingReply), ("사랑해", LoveReply), ("보고싶어", MissReply), ("간식", TreatReply)]

  /** A reference rule: the reply of the first keyword of `table` that the message contains. */
  function FirstMatch(message: Message, table: seq<(string, string)>, fallback: string): string
    requires !message.Other?
  {
    if table == [] then fallback
    else if Mentions(message, table[0].0) then table[0].1
    else FirstMatch(message, table[1..], fallback)
  }

  /** The demo reply is the first matching keyword's, in the table's order. */
  lemma MockReplyIsFirstMatch(message: Message)
    requires !message.Other?
    ensures MockReply(message) == FirstMatch(message, Keywords, DefaultReply)
  {
    var t := Keywords;
    var t1, t2, t3 := t[1..], t[2..], t[3..];
    assert t1[1..] == t2 && t2[1..] == t3 && t3[1..] == [];
    assert t[0] == ("안녕", GreetingReply) && t1[0] == ("사랑해", LoveReply);
    assert t2[0] == ("보고싶어", MissReply) && t3[0] == ("간식", TreatReply);
    assert FirstMatch(message, t3[1..], DefaultReply) == DefaultReply;
    assert FirstMatch(message, t3, DefaultReply) == if Mentions(message, "간식") then TreatReply else DefaultReply;
    assert FirstMatch(message, t2, DefaultReply) ==
      if Mentions(message, "보고싶어") then MissReply else FirstMatch(message, t3, DefaultReply);
    assert FirstMatch(message, t1, DefaultReply) ==
      if Mentions(message, "사랑해") then LoveReply else FirstMatch(message, t2, DefaultReply);
    assert FirstMatch(message, t, DefaultReply) ==
      if Mentions(message, "안녕") then GreetingReply else FirstMatch(message, t1, DefaultReply);
  }

  /** A greeting that also says 사랑해 is answered as a greeting. */
  lemma GreetingFirst()
    ensures MockReply(Text("안녕, 사랑해")) == GreetingReply
  {
    assert StartsWith("안녕, 사랑해", "안녕");
  }

  /** An array message is answered by whole elements: `["안녕"]` gets the greeting, while
      `["안녕하세요"]`, which only contains the keyword inside an element, gets the default. */
  lemma ListMessage()
    ensures MockReply(List(["안녕"])) == GreetingReply
    ensures MockReply(List(["안녕하세요"])) == DefaultReply
  {
    assert "안녕" != "안녕하세요" && "사랑해" != "안녕하세요";
    assert "보고싶어" != "안녕하세요" && "간식" != "안녕하세요";
  }

  /** The demo reply is one of five fixed texts. */
  lemma MockReplyIsFixed(message: Message)
    requires !message.Other?
    ensures MockReply(message) in {DefaultReply, GreetingReply, LoveReply, MissReply, TreatReply}
  {
  }

  /** The model's answer, as far as the reply reads it. `None` is a missing property. */
  datatype Part = Part(text: Option<string>)
  datatype Content = Content(parts: Option<seq<Part>>)
  datatype Candidate = Candidate(content: Option<Content>)
  datatype AiData = AiData(hasError: bool, candidates: Option<seq<Candidate>>)

  /** `data.candidates?.[0]?.content?.parts?.[0]?.text`. */
  function CandidateText(data: AiData): (text: Option<string>)
    ensures text.Some? ==> data.candidates.Some? && data.candidates.value != []
    ensures text.Some? ==> data.candidates.value[0].content.Some?
  {
    if data.candidates.None? || data.candidates.value == [] then None
    else
      var content := data.candidates.value[0].content;
      if content.None? || content.value.parts.None? || content.value.parts.value == [] then None
      else content.value.parts.value[0].text
  }

  /** The reply built from an answer: its first text, unless that is missing or empty. */
  function AiReply(data: AiData): (reply: string)
    ensures CandidateText(data).Some? && CandidateText(data).value != "" ==> reply == CandidateText(data).value
    ensures CandidateText(data).None? || CandidateText(data).value == "" ==> reply == NoTextReply
    ensures reply != ""
  {
    var text := CandidateText(data);
    if text.Some? && text.value != "" then text.value else NoTextReply
  }

  /** The AI path: no key configured, a call that throws (network or JSON failure), or an answer. */
  datatype AiCall = NoKey | CallFailed | Answered(data: AiData)

  /** The body `request.json()` yields: its `message`, or a body that does not parse or cannot be
      destructured (such as `null`). */
  datatype Request = Parsed(message: Message) | BadJson

  datatype Response = Reply(text: string) | ServerError

  /** `POST`: an answer without `error` is replied; every other path falls back to the demo reply,
      which needs a string or array message; anything that throws gives the 500 response. */
  function Post(request: Request, call: AiCall): (r: Response)
    ensures request.BadJson? ==> r == ServerError
    ensures request.Parsed? && call.Answered? && !call.data.hasError ==> r == Reply(AiReply(call.data))
    ensures request.Parsed? && (call.NoKey? || call.CallFailed? || call.data.hasError) ==>
      r == (if !request.message.Other? then Reply(MockReply(request.message)) else ServerError)
  {
    match request
    case BadJson => ServerError
    case Parsed(message) =>
      if call.Answered? && !call.data.hasError then Reply(AiReply(call.data))
      else if !message.Other? then Reply(MockReply(message))
      else ServerError
  }

  /** Without a key, or when the call fails, a string or array message always gets a demo reply. */
  lemma FallbackIsMock(message: Message, call: AiCall)
    requires !message.Other?
    requires call.NoKey? || call.CallFailed? || call.data.hasError
    ensures Post(Parsed(message), call).Reply?
    ensures Post(Parsed(message), call).text in {DefaultReply, GreetingReply, LoveReply, MissReply, TreatReply}
  {
    MockReplyIsFixed(message);
  }
}
