/**
 * The tutor page (src/app/tutor/page.tsx): the chat transcript, the quick quiz and the
 * flashcards kept from the last tutor response, and the handlers that change them.
 *
 * Each handler is specified by a pure transition on `PageState`; the class `Tutor` holds
 * the same state in fields and its methods are proved to perform those transitions.
 */
module TutorPage {
  import opened Wrappers
  import opened Text
  import TutorRag

  type QuizItem = TutorRag.QuizItem
  type Card = TutorRag.Card

  /** The page's language selector ("en" or "ur"). */
  datatype Language = English | Urdu

  datatype Role = User | Assistant

  /** One bubble of the chat transcript. */
  datatype ChatLine = ChatLine(role: Role, text: string)

  /**
   * The JSON body of the tutor endpoint as the page reads it: an object with an `error`
   * field, or a tutor reply whose list fields may be missing.  `Rejected` is a request
   * whose `fetch` or `rsp.json()` rejects, which ends `askTutor` with nothing read.
   */
  datatype Answer =
    | Rejected
    | Failure(error: string)
    | Reply(explanation: string, quiz: Option<seq<QuizItem>>,
            flashcards: Option<seq<Card>>, followups: Option<seq<string>>)

  /** The component state that the handlers change. */
  datatype PageState = PageState(
    language: Language,
    input: string,
    messages: seq<ChatLine>,
    quiz: seq<QuizItem>,
    currentQ: nat,
    answer: string,
    feedback: string,
    cards: seq<Card>,
    cardIdx: nat,
    showBack: bool)

  /** The state when the page opens. */
  const Initial: PageState := PageState(English, "", [], [], 0, "", "", [], 0, false)

  /** The quiz and card positions point into their lists, and are 0 for an empty list. */
  predicate Consistent(s: PageState) {
    (if s.quiz == [] then s.currentQ == 0 else s.currentQ < |s.quiz|) &&
    (if s.cards == [] then s.cardIdx == 0 else s.cardIdx < |s.cards|)
  }

  // ---------------------------------------------------------------------------------------
  // Wrap-around navigation

  /** `(i + 1) % n`: the following position, back to the first after the last. */
  function NextIndex(i: nat, n: nat): (r: nat)
    requires i < n
    ensures r < n
    ensures r == if i + 1 < n then i + 1 else 0
  {
    (i + 1) % n
  }

  /** `(i - 1 + n) % n`: the preceding position, on to the last before the first. */
  function PrevIndex(i: nat, n: nat): (r: nat)
    requires i < n
    ensures r < n
    ensures r == if i == 0 then n - 1 else i - 1
  {
    (i - 1 + n) % n
  }

  /** Stepping forward and then back returns to the same position. */
  lemma PrevUndoesNext(i: nat, n: nat)
    requires i < n
    ensures PrevIndex(NextIndex(i, n), n) == i
  {
    var j := NextIndex(i, n);
  }

  /** Stepping back and then forward returns to the same position. */
  lemma NextUndoesPrev(i: nat, n: nat)
    requires i < n
    ensures NextIndex(PrevIndex(i, n), n) == i
  {
    var j := PrevIndex(i, n);
  }

  // ---------------------------------------------------------------------------------------
  // Answer checking

  /** `(x ?? "").trim().toLowerCase()`. */
  function Normalize(s: string): (r: string)
    ensures |r| <= |s|
  {
    Lower(Trim(s))
  }

  /** The quiz comparison: equal after trimming and lower-casing both sides. */
  predicate AnswerMatches(given: string, expected: string) {
    Normalize(given) == Normalize(expected)
  }

  /** Surrounding whitespace in the typed answer never changes the verdict. */
  lemma AnswerIgnoresSpace(given: string, expected: string)
    ensures AnswerMatches(Trim(given), expected) == AnswerMatches(given, expected)
  {
    TrimIdempotent(given);
  }

  /** Letter case in the typed answer never changes the verdict. */
  lemma AnswerIgnoresCase(given: string, expected: string)
    ensures AnswerMatches(Lower(given), expected) == AnswerMatches(given, expected)
  {
    TrimLower(given);
    LowerIdempotent(Trim(given));
  }

  const UrduPraise: string := "شاباش! بالکل درست۔"
  const EnglishPraise: string := "Great job! That’s correct."
  const UrduHint: string := "ابھی نہیں — ایک چھوٹا اشارہ: آدھا، دس فیصد یا ایک فیصد سوچیں۔"
  const EnglishHint: string := "Not yet — tiny hint: think halves, tens, or ones."

  /** The feedback line for a verdict, in the selected language. */
  function FeedbackLine(language: Language, correct: bool): (r: string)
    ensures r != ""
  {
    match (language, correct)
    case (Urdu, true) => UrduPraise
    case (Urdu, false) => UrduHint
    case (English, true) => EnglishPraise
    case (English, false) => EnglishHint
  }

  /** In either language the two feedback lines differ, so the line tells the verdict. */
  lemma FeedbackTellsVerdict(language: Language)
    ensures FeedbackLine(language, true) != FeedbackLine(language, false)
  {
    assert |UrduPraise| != |UrduHint|;
    assert |EnglishPraise| != |EnglishHint|;
  }

  // ---------------------------------------------------------------------------------------
  // The assistant's reply

  const TryPrefix: string := "\n\nTry: "

  /** The explanation, followed by the first follow-up suggestion when there is one. */
  function ReplyText(explanation: string, followups: Option<seq<string>>): (r: string)
    ensures explanation <= r
    ensures followups.Some? && followups.value != [] ==>
              r[|explanation|..] == TryPrefix + followups.value[0]
    ensures |r| == |explanation| <==> followups.None? || followups.value == []
  {
    explanation + (if followups.Some? && followups.value != [] then TryPrefix + followups.value[0] else "")
  }

  /** What the assistant bubble shows for a response. */
  function AssistantText(resp: Answer): string
    requires !resp.Rejected?
  {
    match resp
    case Failure(e) => "Error: " + e
    case Reply(explanation, _, _, followups) => ReplyText(explanation, followups)
  }

  // ---------------------------------------------------------------------------------------
  // Transitions

  /**
   * `askTutor(text)` once the response has arrived: the user's message and the assistant's
   * answer are appended and the input box is cleared; a reply replaces the quiz and the
   * cards and resets their positions, an error leaves them as they were.  A rejected
   * request stops after the user's message: no assistant line follows.
   */
  function Asked(s: PageState, text: string, resp: Answer): (r: PageState)
    ensures Consistent(s) ==> Consistent(r)
    ensures r.input == "" && r.language == s.language
    ensures |r.messages| == |s.messages| + (if resp.Rejected? then 1 else 2)
    ensures r.messages[..|s.messages|] == s.messages
    ensures r.messages[|s.messages|] == ChatLine(User, text)
    ensures !resp.Rejected? ==> r.messages[|s.messages| + 1] == ChatLine(Assistant, AssistantText(resp))
    ensures !resp.Reply? ==> r == s.(input := r.input, messages := r.messages)
    ensures resp.Reply? ==>
              r.quiz == resp.quiz.GetOr([]) && r.cards == resp.flashcards.GetOr([]) &&
              r.currentQ == 0 && r.cardIdx == 0 && !r.showBack &&
              r.answer == "" && r.feedback == ""
  {
    Answered(s.(messages := s.messages + [ChatLine(User, text)], input := ""), resp)
  }

  /**
   * A request that rejects leaves the user's message in the transcript and the input
   * cleared, and nothing else: no assistant line, and the quiz and the cards as they were.
   */
  lemma RejectedKeepsUserLine(s: PageState, text: string)
    ensures Asked(s, text, Rejected) == s.(input := "", messages := s.messages + [ChatLine(User, text)])
  {
  }

  /** The effect of the endpoint's body on the page. */
  function Answered(s: PageState, resp: Answer): (r: PageState)
    ensures Consistent(s) ==> Consistent(r)
  {
    match resp
    case Rejected => s
    case Failure(e) =>
      s.(messages := s.messages + [ChatLine(Assistant, "Error: " + e)])
    case Reply(explanation, quiz, flashcards, followups) =>
      s.(messages := s.messages + [ChatLine(Assistant, ReplyText(explanation, followups))],
         quiz := quiz.GetOr([]), currentQ := 0, feedback := "", answer := "",
         cards := flashcards.GetOr([]), cardIdx := 0, showBack := false)
  }

  /** The Send button and the Enter key: only non-blank input is sent, and it is sent trimmed. */
  function Sent(s: PageState, resp: Answer): (r: PageState)
    ensures Consistent(s) ==> Consistent(r)
    ensures Trim(s.input) == "" <==> r == s
    ensures Trim(s.input) != "" ==>
              |r.messages| == |s.messages| + (if resp.Rejected? then 1 else 2) &&
              IsTrimmed(r.messages[|s.messages|].text) &&
              r.messages[|s.messages|].text != ""
    ensures Trim(s.input) != "" ==> r == Asked(s, Trim(s.input), resp)
  {
    var t := Trim(s.input);
    if t == "" then s else Asked(s, t, resp)
  }

  /** `checkAnswer`: on a non-empty quiz only `feedback` changes, to the line for the verdict. */
  function Checked(s: PageState): (r: PageState)
    requires Consistent(s)
    ensures Consistent(r)
    ensures s.quiz == [] ==> r == s
    ensures r == s.(feedback := r.feedback)
    ensures s.quiz != [] ==>
              r.feedback == FeedbackLine(s.language, AnswerMatches(s.answer, s.quiz[s.currentQ].a))
  {
    if s.quiz == [] then s
    else s.(feedback := FeedbackLine(s.language, AnswerMatches(s.answer, s.quiz[s.currentQ].a)))
  }

  /** `nextQuestion`: on a non-empty quiz, the following question with a blank answer and feedback. */
  function Advanced(s: PageState): (r: PageState)
    requires Consistent(s)
    ensures Consistent(r)
    ensures s.quiz == [] ==> r == s
    ensures s.quiz != [] ==>
              r == s.(currentQ := NextIndex(s.currentQ, |s.quiz|), answer := "", feedback := "")
  {
    if s.quiz == [] then s
    else s.(currentQ := NextIndex(s.currentQ, |s.quiz|), answer := "", feedback := "")
  }

  /** `nextQuestion` pressed `k` times. */
  function AdvancedTimes(s: PageState, k: nat): (r: PageState)
    requires Consistent(s)
    ensures Consistent(r)
  {
    if k == 0 then s else Advanced(AdvancedTimes(s, k - 1))
  }

  /**
   * After `k` presses, `k` at most the quiz length, the quiz is `k` questions further on,
   * counted round the end of the list, and nothing else moved.
   */
  lemma {:induction false} AdvancedTimesAt(s: PageState, k: nat)
    requires Consistent(s) && s.quiz != [] && k <= |s.quiz|
    ensures AdvancedTimes(s, k).currentQ ==
              if s.currentQ + k < |s.quiz| then s.currentQ + k else s.currentQ + k - |s.quiz|
    ensures AdvancedTimes(s, k).quiz == s.quiz && AdvancedTimes(s, k).cards == s.cards
  {
    if k > 0 {
      AdvancedTimesAt(s, k - 1);
    }
  }

  /** Pressing Next once per question comes back to the question the child started on. */
  lemma AdvancingCycles(s: PageState)
    requires Consistent(s) && s.quiz != []
    ensures AdvancedTimes(s, |s.quiz|).currentQ == s.currentQ
  {
    AdvancedTimesAt(s, |s.quiz|);
  }

  /** The card's Prev button: the preceding card, front side up. */
  function CardBack(s: PageState): (r: PageState)
    requires Consistent(s) && s.cards != []
    ensures Consistent(r) && !r.showBack
    ensures r == s.(cardIdx := PrevIndex(s.cardIdx, |s.cards|), showBack := false)
  {
    s.(cardIdx := PrevIndex(s.cardIdx, |s.cards|), showBack := false)
  }

  /** The card's Next button: the following card, front side up. */
  function CardForward(s: PageState): (r: PageState)
    requires Consistent(s) && s.cards != []
    ensures Consistent(r) && !r.showBack
    ensures r == s.(cardIdx := NextIndex(s.cardIdx, |s.cards|), showBack := false)
  {
    s.(cardIdx := NextIndex(s.cardIdx, |s.cards|), showBack := false)
  }

  /** Clicking the card turns it over. */
  function Flipped(s: PageState): (r: PageState)
    ensures r.showBack != s.showBack
    ensures r == s.(showBack := r.showBack)
  {
    s.(showBack := !s.showBack)
  }

  /** Next then Prev shows the same card again, front side up. */
  lemma CardBackUndoesForward(s: PageState)
    requires Consistent(s) && s.cards != []
    ensures CardBack(CardForward(s)) == s.(showBack := false)
  {
    PrevUndoesNext(s.cardIdx, |s.cards|);
  }

  /** Turning a card over twice shows the side it showed before. */
  lemma FlipTwice(s: PageState)
    ensures Flipped(Flipped(s)) == s
  {
  }

  /** A reply with no quiz and no cards hides both blocks. */
  lemma ReplyWithoutListsClears(s: PageState, text: string, explanation: string)
    ensures Asked(s, text, Reply(explanation, None, None, None)).quiz == []
    ensures Asked(s, text, Reply(explanation, None, None, None)).cards == []
    ensures AssistantText(Reply(explanation, None, None, None)) == explanation
  {
  }

  /** The endpoint's reply as the page reads it: every list present. */
  function BodyOf(r: TutorRag.TutorReply): Answer {
    Reply(r.explanation, Some(r.quiz), Some(r.flashcards), Some(r.followups))
  }

  /**
   * Whatever the endpoint replies, the page shows its quiz and its cards from the start, and
   * the explanation followed by the first suggestion when there is one.
   */
  lemma ReplyOnPage(s: PageState, text: string, reply: TutorRag.TutorReply)
    ensures var r := Asked(s, text, BodyOf(reply));
            && r.quiz == reply.quiz && r.cards == reply.flashcards && r.currentQ == 0 && r.cardIdx == 0
            && r.messages[|s.messages| + 1].text ==
                 reply.explanation + (if reply.followups == [] then "" else TryPrefix + reply.followups[0])
  {
  }

  /**
   * When the endpoint found no notes, the page hides the quiz and the cards and shows the
   * encouragement followed by its one suggestion.
   */
  lemma EncouragementOnPage(s: PageState, text: string, language: string)
    ensures var r := Asked(s, text, BodyOf(TutorRag.Encourage(language)));
            var e := TutorRag.Encourage(language);
            && r.quiz == [] && r.cards == []
            && r.messages[|s.messages| + 1].text == e.explanation + TryPrefix + e.followups[0]
  {
    var e := TutorRag.Encourage(language);
    assert e.quiz == [] && e.flashcards == [] && |e.followups| == 1;
    ReplyOnPage(s, text, e);
  }

  // ---------------------------------------------------------------------------------------
  // The component

  /** The page component: its state fields and its event handlers. */
  class Tutor {
    var language: Language
    var input: string
    var messages: seq<ChatLine>
    var quiz: seq<QuizItem>
    var currentQ: nat
    var answer: string
    var feedback: string
    var cards: seq<Card>
    var cardIdx: nat
    var showBack: bool

    function State(): PageState
      reads this
    {
      PageState(language, input, messages, quiz, currentQ, answer, feedback, cards, cardIdx, showBack)
    }

    predicate Valid()
      reads this
    {
      Consistent(State())
    }

    constructor()
      ensures Valid() && State() == Initial
    {
      language, input, messages := English, "", [];
      quiz, currentQ, answer, feedback := [], 0, "", "";
      cards, cardIdx, showBack := [], 0, false;
    }

    /** The language selector. */
    method SelectLanguage(l: Language)
      requires Valid()
      modifies this
      ensures Valid() && State() == old(State()).(language := l)
    {
      language := l;
    }

    /** Typing in the chat input box. */
    method TypeInput(text: string)
      requires Valid()
      modifies this
      ensures Valid() && State() == old(State()).(input := text)
    {
      input := text;
    }

    /** Typing in the quiz answer box. */
    method TypeAnswer(text: string)
      requires Valid()
      modifies this
      ensures Valid() && State() == old(State()).(answer := text)
    {
      answer := text;
    }

    /** `askTutor(text)`, with `resp` the body the tutor endpoint sent back. */
    method AskTutor(text: string, resp: Answer)
      requires Valid()
      modifies this
      ensures Valid() && State() == Asked(old(State()), text, resp)
    {
      messages := messages + [ChatLine(User, text)];
      input := "";
      Receive(resp);
    }

    /** The part of `askTutor` that runs once the endpoint's body has arrived. */
    method Receive(resp: Answer)
      requires Valid()
      modifies this
      ensures Valid() && State() == Answered(old(State()), resp)
    {
      if resp.Rejected? {
        return;
      }
      if resp.Failure? {
        messages := messages + [ChatLine(Assistant, "Error: " + resp.error)];
        return;
      }
      quiz := resp.quiz.GetOr([]);
      currentQ := 0;
      feedback := "";
      answer := "";
      cards := resp.flashcards.GetOr([]);
      cardIdx := 0;
      showBack := false;
      var reply := ReplyText(resp.explanation, resp.followups);
      messages := messages + [ChatLine(Assistant, reply)];
    }

    /** The Send button and the Enter key of the chat input. */
    method Send(resp: Answer)
      requires Valid()
      modifies this
      ensures Valid() && State() == Sent(old(State()), resp)
    {
      var text := Trim(input);
      if text != "" {
        AskTutor(text, resp);
      }
    }

    /** The quiz's Check button and the Enter key of the answer box. */
    method CheckAnswer()
      requires Valid()
      modifies this
      ensures Valid() && State() == Checked(old(State()))
    {
      if quiz == [] {
        return;
      }
      ghost var before := State();
      var correct := AnswerMatches(answer, quiz[currentQ].a);
      feedback := FeedbackLine(language, correct);
      assert State() == before.(feedback := feedback);
    }

    /** The quiz's Next button. */
    method NextQuestion()
      requires Valid()
      modifies this
      ensures Valid() && State() == Advanced(old(State()))
    {
      if quiz == [] {
        return;
      }
      currentQ := (currentQ + 1) % |quiz|;
      answer := "";
      feedback := "";
    }

    /** The card's Prev button; it is shown only while there is a card. */
    method PrevCard()
      requires Valid() && cards != []
      modifies this
      ensures Valid() && State() == CardBack(old(State()))
    {
      cardIdx := (cardIdx - 1 + |cards|) % |cards|;
      showBack := false;
    }

    /** The card's Next button; it is shown only while there is a card. */
    method NextCard()
      requires Valid() && cards != []
      modifies this
      ensures Valid() && State() == CardForward(old(State()))
    {
      cardIdx := (cardIdx + 1) % |cards|;
      showBack := false;
    }

    /** Clicking the card. */
    method FlipCard()
      requires Valid() && cards != []
      modifies this
      ensures Valid() && State() == Flipped(old(State()))
    {
      showBack := !showBack;
    }
  }
}
