/**
 * The retrieval tutor's endpoint (src/app/api/tutor-rag/route.ts): the
 * percentage answerer, the fallback reply scanned out of the retrieved notes
 * when the language model is unavailable, the prompt handed to the model,
 * and the branch logic of the POST handler.  The search and the completion
 * call are parameters: opaque operations that may fail.
 */
module TutorRag {
  import opened Wrappers
  import opened Text
  import opened Seqs

  // ---------------------------------------------------------------------
  // Shapes of the reply

  datatype Card = Card(front: string, back: string)
  datatype QuizItem = QuizItem(q: string, a: string)
  datatype TutorReply = TutorReply(intent: string, explanation: string, hints: seq<string>,
                                   quiz: seq<QuizItem>, flashcards: seq<Card>, followups: seq<string>)
  datatype Message = Message(role: string, content: string)

  // ---------------------------------------------------------------------
  // Scanning helpers shared by the scanners below

  /** The end of the run of digits that starts at `i`. */
  function DigitRunEnd(s: string, i: nat): (e: nat)
    requires i <= |s|
    ensures i <= e <= |s|
    ensures forall k :: i <= k < e ==> IsDigit(s[k])
    ensures e < |s| ==> !IsDigit(s[e])
    decreases |s| - i
  {
    if i < |s| && IsDigit(s[i]) then DigitRunEnd(s, i + 1) else i
  }

  /** The end of the run of `\s` characters that starts at `i`. */
  function SpaceRunEnd(s: string, i: nat): (e: nat)
    requires i <= |s|
    ensures i <= e <= |s|
    decreases |s| - i
  {
    if i < |s| && IsSpace(s[i]) then SpaceRunEnd(s, i + 1) else i
  }

  /** A run of blanks stops at a character that is not one; in particular not at a '\n'. */
  lemma {:induction false} SpaceRunEndStops(s: string, i: nat)
    requires i <= |s|
    ensures SpaceRunEnd(s, i) < |s| ==> !IsSpace(s[SpaceRunEnd(s, i)]) && s[SpaceRunEnd(s, i)] != '\n'
    decreases |s| - i
  {
    if i < |s| && IsSpace(s[i]) {
      SpaceRunEndStops(s, i + 1);
    }
  }

  /** The first '\n' at or after `i`, or the end of `s`. */
  function NewlineFrom(s: string, i: nat): (e: nat)
    requires i <= |s|
    ensures i <= e <= |s|
    ensures e < |s| ==> s[e] == '\n'
    ensures forall k :: i <= k < e ==> s[k] != '\n'
    decreases |s| - i
  {
    if i < |s| && s[i] != '\n' then NewlineFrom(s, i + 1) else i
  }

  /** A run of digits ends exactly where the first non-digit after it stands. */
  lemma {:induction false} DigitRunEndAt(s: string, i: nat, j: nat)
    requires i <= j <= |s|
    requires forall k :: i <= k < j ==> IsDigit(s[k])
    requires j < |s| ==> !IsDigit(s[j])
    ensures DigitRunEnd(s, i) == j
    decreases j - i
  {
    if i < j {
      DigitRunEndAt(s, i + 1, j);
    }
  }

  // ---------------------------------------------------------------------
  // percentOfQuestionToAnswer

  /** The value of the digits after a decimal point: `0.d1d2…` as an exact rational. */
  function Fraction(d: string): (x: real)
    requires AllDigits(d)
    ensures 0.0 <= x <= 1.0
  {
    if d == "" then 0.0 else (DigitValue(d[0]) as real + Fraction(d[1..])) / 10.0
  }

  /**
   * `parseFloat` on a numeral `\d+(\.\d+)?`: the whole part plus the
   * fraction, read as an exact rational.
   */
  function ParseDecimal(t: string): (x: real)
    ensures x >= 0.0
  {
    var k := DigitRunEnd(t, 0);
    var whole := DigitsValue(t[..k]) as real;
    if k < |t| && t[k] == '.' then
      var f := DigitRunEnd(t, k + 1);
      whole + Fraction(t[k + 1..f])
    else whole
  }

  /** `Number.isInteger`. */
  predicate IsWhole(x: real) {
    x == x.Floor as real
  }

  /**
   * The number of hundredths `toFixed(2)` prints for a non-negative value:
   * the nearest one, the larger on a tie.
   */
  function Hundredths(x: real): (n: nat)
    requires x >= 0.0
    ensures n as real / 100.0 - 0.005 <= x < n as real / 100.0 + 0.005
  {
    (x * 100.0 + 0.5).Floor
  }

  /** Two decimal digits, the tens first. */
  function TwoDigits(r: nat): (d: string)
    requires r < 100
    ensures |d| == 2 && AllDigits(d)
  {
    [DigitChar(r / 10), DigitChar(r % 10)]
  }

  /**
   * `String(x)` for a whole value, `x.toFixed(2)` otherwise.
   */
  function FormatAnswer(x: real): string
    requires x >= 0.0
  {
    if IsWhole(x) then NatToString(x.Floor)
    else
      var n := Hundredths(x);
      NatToString(n / 100) + "." + TwoDigits(n % 100)
  }

  /** A numeral without a point reads back as its digits' value. */
  lemma ParseWhole(w: string)
    requires AllDigits(w)
    ensures ParseDecimal(w) == DigitsValue(w) as real
  {
    DigitRunEndAt(w, 0, |w|);
    assert w[..|w|] == w;
  }

  /** A numeral with two decimals reads back as its whole part plus hundredths. */
  lemma ParseWithCents(w: string, r: nat)
    requires AllDigits(w) && r < 100
    ensures ParseDecimal(w + "." + TwoDigits(r)) == DigitsValue(w) as real + r as real / 100.0
  {
    var d := TwoDigits(r);
    var s := w + "." + d;
    DigitRunEndAt(s, 0, |w|);
    DigitRunEndAt(s, |w| + 1, |s|);
    assert s[..|w|] == w;
    assert s[|w| + 1..|s|] == d;
    var hi, lo := r / 10, r % 10;
    assert d[1..] == [DigitChar(lo)] && d[1..][1..] == [];
    assert Fraction(d[1..]) == lo as real / 10.0;
    assert Fraction(d) == (hi as real + lo as real / 10.0) / 10.0;
    assert r as real == hi as real * 10.0 + lo as real;
  }

  /**
   * The printed answer reads back as the exact value when that is whole, and
   * otherwise as the value rounded to hundredths, printed with two decimals.
   */
  lemma FormatAnswerRoundTrip(x: real)
    requires x >= 0.0
    ensures IsWhole(x) ==> AllDigits(FormatAnswer(x)) && ParseDecimal(FormatAnswer(x)) == x
    ensures !IsWhole(x) ==>
      var s := FormatAnswer(x);
      && |s| >= 4 && s[|s| - 3] == '.' && AllDigits(s[..|s| - 3]) && AllDigits(s[|s| - 2..])
      && ParseDecimal(s) == Hundredths(x) as real / 100.0
  {
    var s := FormatAnswer(x);
    if IsWhole(x) {
      ParseWhole(s);
    } else {
      var n := Hundredths(x);
      var w := NatToString(n / 100);
      ParseWithCents(w, n % 100);
      assert s[..|s| - 3] == w;
      assert s[|s| - 2..] == TwoDigits(n % 100);
      assert n == 100 * (n / 100) + n % 100;
    }
  }

  /**
   * The leftmost position in `[p, n]` at which `attempt` succeeds, with what
   * it found: how a regular expression engine looks for a match, and how a
   * lazy quantifier looks for the shortest way to go on.
   */
  function Leftmost<T>(attempt: nat -> Option<T>, p: nat, n: nat): (r: Option<(nat, T)>)
    ensures r.Some? ==>
      && p <= r.value.0 <= n && attempt(r.value.0) == Some(r.value.1)
      && (forall j :: p <= j < r.value.0 ==> attempt(j).None?)
    ensures r.None? ==> forall j :: p <= j <= n ==> attempt(j).None?
    decreases n + 1 - p
  {
    if p > n then None
    else
      match attempt(p)
      case Some(v) => Some((p, v))
      case None => Leftmost(attempt, p + 1, n)
  }

  /** The two numerals the percentage pattern captures. */
  datatype PercentMatch = PercentMatch(pct: string, num: string)

  /** `\d+(?:\.\d+)?` at `i`, greedy: where the numeral ends, if one starts there. */
  function NumberEnd(s: string, i: nat): (e: Option<nat>)
    requires i <= |s|
    ensures e.None? <==> !(i < |s| && IsDigit(s[i]))
    ensures e.Some? ==> i < e.value <= |s|
    ensures e.Some? ==> var d := DigitRunEnd(s, i);
      // digits, except for the '.' at `d` when a fraction follows it
      && (forall k :: i <= k < e.value && k != d ==> IsDigit(s[k]))
      && (e.value == d || (d + 1 < e.value && s[d] == '.'))
      // greedy: no digit can follow, and the fraction is taken whenever one is there
      && (e.value == |s| || !IsDigit(s[e.value]))
      && (e.value == d <==> !(d + 1 < |s| && s[d] == '.' && IsDigit(s[d + 1])))
  {
    if i < |s| && IsDigit(s[i]) then
      var d := DigitRunEnd(s, i);
      if d + 1 < |s| && s[d] == '.' && IsDigit(s[d + 1]) then Some(DigitRunEnd(s, d + 1)) else Some(d)
    else None
  }

  predicate IsO(c: char) { c == 'o' || c == 'O' }
  predicate IsF(c: char) { c == 'f' || c == 'F' }

  /**
   * `(\d+(?:\.\d+)?)\s*%\s*of\s*(\d+(?:\.\d+)?)` with the `i` flag, tried at
   * `p`.  Backtracking never helps this pattern: each greedy run is followed
   * by a character the run cannot contain, so the greedy reading is the match.
   */
  function MatchAt(s: string, p: nat): (m: Option<PercentMatch>)
    requires p <= |s|
  {
    match NumberEnd(s, p)
    case None => None
    case Some(e1) =>
      var w1 := SpaceRunEnd(s, e1);
      if !(w1 < |s| && s[w1] == '%') then None
      else
        var w2 := SpaceRunEnd(s, w1 + 1);
        if !(w2 + 1 < |s| && IsO(s[w2]) && IsF(s[w2 + 1])) then None
        else
          var w3 := SpaceRunEnd(s, w2 + 2);
          match NumberEnd(s, w3)
          case None => None
          case Some(e2) => Some(PercentMatch(s[p..e1], s[w3..e2]))
  }

  function MatchAttempt(s: string): nat -> Option<PercentMatch> {
    (i: nat) => if i <= |s| then MatchAt(s, i) else None
  }

  /** `q.match(...)` without the `g` flag: the leftmost match and where it starts. */
  function FirstMatch(q: string): Option<(nat, PercentMatch)> {
    Leftmost(MatchAttempt(q), 0, |q|)
  }

  /** p/100·n for the captured "p% of n", exactly. */
  function PercentValue(m: PercentMatch): (x: real)
    ensures x >= 0.0
  {
    var p := ParseDecimal(m.pct);
    var n := ParseDecimal(m.num);
    assert p / 100.0 * n >= 0.0 by {
      assert p / 100.0 >= 0.0;
    }
    p / 100.0 * n
  }

  /** `percentOfQuestionToAnswer`: p/100·n for the first "p% of n" in `q`, printed. */
  function PercentOfQuestionToAnswer(q: string): Option<string> {
    match FirstMatch(q)
    case None => None
    case Some((_, m)) => Some(FormatAnswer(PercentValue(m)))
  }

  /**
   * There is an answer exactly when "p% of n" occurs somewhere; it is computed
   * from the leftmost occurrence and reads back as p/100·n when that is whole,
   * and otherwise as p/100·n to within half a hundredth.
   */
  lemma PercentAnswerMeaning(q: string)
    ensures PercentOfQuestionToAnswer(q).None? <==> forall i :: 0 <= i <= |q| ==> MatchAt(q, i).None?
    ensures PercentOfQuestionToAnswer(q).Some? ==>
      var (start, m) := FirstMatch(q).value;
      var x := PercentValue(m);
      var v := ParseDecimal(PercentOfQuestionToAnswer(q).value);
      && start <= |q| && MatchAt(q, start) == Some(m)
      && (forall j :: 0 <= j < start ==> MatchAt(q, j).None?)
      && (IsWhole(x) ==> v == x)
      && (!IsWhole(x) ==> v - 0.005 <= x < v + 0.005)
  {
    var f := MatchAttempt(q);
    match FirstMatch(q)
    case None =>
      forall i | 0 <= i <= |q|
        ensures MatchAt(q, i).None?
      {
        assert f(i).None?;
      }
    case Some((start, m)) =>
      assert f(start) == Some(m);
      forall j | 0 <= j < start
        ensures MatchAt(q, j).None?
      {
        assert f(j).None?;
      }
      FormatAnswerRoundTrip(PercentValue(m));
  }

  /** The numeral `t` read back: its digits' value. */
  lemma ParseTwoDigitNumeral(t: string)
    requires |t| == 2 && AllDigits(t)
    ensures ParseDecimal(t) == (10 * DigitValue(t[0]) + DigitValue(t[1])) as real
  {
    ParseWhole(t);
    var h := t[..1];
    assert h[..0] == [] && h[0] == t[0];
    assert DigitsValue(h) == DigitValue(t[0]);
  }

  /** The answer to a question of the form "dd% of dd" with nothing after it. */
  lemma PercentOfTwoDigits(q: string)
    requires |q| == 9 && q[2..7] == "% of "
    requires IsDigit(q[0]) && IsDigit(q[1]) && IsDigit(q[7]) && IsDigit(q[8])
    ensures PercentOfQuestionToAnswer(q) == Some(FormatAnswer(PercentValue(PercentMatch(q[..2], q[7..]))))
  {
    assert q[2] == '%' && q[3] == ' ' && q[4] == 'o' && q[5] == 'f' && q[6] == ' ';
    DigitRunEndAt(q, 0, 2);
    DigitRunEndAt(q, 7, 9);
    assert NumberEnd(q, 0) == Some(2);
    assert NumberEnd(q, 7) == Some(9);
    assert SpaceRunEnd(q, 2) == 2;
    assert SpaceRunEnd(q, 4) == 4;
    assert SpaceRunEnd(q, 3) == 4;
    assert SpaceRunEnd(q, 7) == 7;
    assert SpaceRunEnd(q, 6) == 7;
    var m := PercentMatch(q[..2], q[7..]);
    assert q[0..2] == m.pct && q[7..9] == m.num;
    assert IsO(q[4]) && IsF(q[5]);
    assert MatchAt(q, 0) == Some(m);
    assert MatchAttempt(q)(0) == Some(m);
    assert FirstMatch(q) == Some((0, m));
  }

  /** "20% of 50" is answered "10". */
  lemma PercentWholeExample(q: string)
    requires q == "20% of 50"
    ensures PercentOfQuestionToAnswer(q) == Some("10")
  {
    PercentOfTwoDigits(q);
    var m := PercentMatch(q[..2], q[7..]);
    ExampleNumerals(q);
    TwentyPercentOfFifty(m);
    FormatTen();
  }

  lemma ExampleNumerals(q: string)
    requires q == "20% of 50"
    ensures ParseDecimal(q[..2]) == 20.0 && ParseDecimal(q[7..]) == 50.0
  {
    ParseTwoDigitNumeral(q[..2]);
    ParseTwoDigitNumeral(q[7..]);
  }

  lemma TwentyPercentOfFifty(m: PercentMatch)
    requires ParseDecimal(m.pct) == 20.0 && ParseDecimal(m.num) == 50.0
    ensures PercentValue(m) == 10.0
  {
  }

  lemma FormatTen()
    ensures FormatAnswer(10.0) == "10"
  {
    assert IsWhole(10.0) && 10.0.Floor == 10;
    assert NatToString(1) == "1";
  }

  /** 33% of 50 is not whole, so it is printed with two decimals: "16.50". */
  lemma FormatFractionExample()
    ensures FormatAnswer(33.0 / 100.0 * 50.0) == "16.50"
  {
    assert 33.0 / 100.0 * 50.0 == 16.5;
    assert !IsWhole(16.5) by {
      assert 16.5.Floor == 16;
    }
    assert Hundredths(16.5) == 1650;
    assert 1650 / 100 == 16 && 1650 % 100 == 50;
    assert NatToString(1) == "1";
    assert NatToString(16) == "16";
    assert TwoDigits(50) == "50";
  }

  // ---------------------------------------------------------------------
  // The flashcard scanner: /Q:\s*(.+?)\s*A:\s*(.+?)(?:\n|$)/gis

  predicate IsQ(c: char) { c == 'Q' || c == 'q' }
  predicate IsA(c: char) { c == 'A' || c == 'a' }

  /** A question marker `Q:` (either case) at `p`. */
  predicate QMarkerAt(s: string, p: nat) {
    p + 1 < |s| && IsQ(s[p]) && s[p + 1] == ':'
  }

  /** An answer marker `A:` (either case) at `p`. */
  predicate AMarkerAt(s: string, p: nat) {
    p + 1 < |s| && IsA(s[p]) && s[p + 1] == ':'
  }

  /** The raw captures of one flashcard match and the index just after it. */
  datatype QaMatch = QaMatch(front: string, back: string, end: nat)

  /**
   * `\s*A:\s*(.+?)(?:\n|$)` tried at `e`: the raw answer and the end of the
   * match.  The lazy answer stops before the first '\n' (which the match then
   * consumes) or at the end of the text; when only blanks follow `A:`, the
   * answer is the last of them.
   */
  function AnswerFrom(s: string, e: nat): (r: Option<(string, nat)>)
    requires e <= |s|
    ensures r.Some? ==> e < r.value.1 <= |s|
  {
    var a := SpaceRunEnd(s, e);
    if !AMarkerAt(s, a) then None
    else
      var w := SpaceRunEnd(s, a + 2);
      if w < |s| then
        var n := NewlineFrom(s, w + 1);
        Some((s[w..n], if n < |s| then n + 1 else n))
      else if w > a + 2 then Some((s[w - 1..w], w))
      else None
  }

  function AnswerAttempt(s: string): nat -> Option<(string, nat)> {
    (e: nat) => if e <= |s| then AnswerFrom(s, e) else None
  }

  /**
   * The flashcard pattern tried at `p`.  The question starts after the
   * blanks that follow `Q:` and ends at the first place an answer can follow;
   * only when there is none does the engine give back the last of those
   * blanks, which then is the whole question.
   */
  function QaMatchAt(s: string, p: nat): (m: Option<QaMatch>)
    requires p <= |s|
    ensures m.Some? ==> QMarkerAt(s, p) && p < m.value.end <= |s|
  {
    if !QMarkerAt(s, p) then None
    else
      var w := SpaceRunEnd(s, p + 2);
      match Leftmost(AnswerAttempt(s), w + 1, |s|)
      case Some((e, (back, end))) => Some(QaMatch(s[w..e], back, end))
      case None =>
        if w > p + 2 && AnswerFrom(s, w).Some? then
          Some(QaMatch(s[w - 1..w], AnswerFrom(s, w).value.0, AnswerFrom(s, w).value.1))
        else None
  }

  function QaAttempt(s: string): nat -> Option<QaMatch> {
    (p: nat) => if p <= |s| then QaMatchAt(s, p) else None
  }

  /** `qaRegex.exec(text)` with `lastIndex == from`: the leftmost match at or after `from`. */
  function NextQa(s: string, from: nat): (m: Option<QaMatch>)
    requires from <= |s|
    ensures m.Some? ==> from < m.value.end <= |s|
  {
    match Leftmost(QaAttempt(s), from, |s|)
    case None => None
    case Some((p, m)) => assert QaAttempt(s)(p) == QaMatchAt(s, p); Some(m)
  }

  /**
   * `exec` from `lastIndex == from` gives the match at the first position at or after
   * `from` where the pattern matches, and none only when it matches nowhere from there.
   */
  lemma NextQaLeftmost(s: string, from: nat)
    requires from <= |s|
    ensures NextQa(s, from).Some? ==>
      exists p :: from <= p <= |s| && QaMatchAt(s, p) == NextQa(s, from) &&
                  forall j :: from <= j < p ==> QaMatchAt(s, j).None?
    ensures NextQa(s, from).None? ==> forall p :: from <= p <= |s| ==> QaMatchAt(s, p).None?
  {
    match Leftmost(QaAttempt(s), from, |s|)
    case None =>
      assert forall p :: from <= p <= |s| ==> QaAttempt(s)(p) == QaMatchAt(s, p);
    case Some((p, m)) =>
      assert forall j :: from <= j <= p ==> QaAttempt(s)(j) == QaMatchAt(s, j);
  }

  function CardOf(m: QaMatch): Card {
    Card(Trim(m.front), Trim(m.back))
  }

  /** Every flashcard the global regex finds from `from` on, in order of appearance. */
  function AllCards(s: string, from: nat): seq<Card>
    requires from <= |s|
    decreases |s| - from
  {
    match NextQa(s, from)
    case None => []
    case Some(m) => [CardOf(m)] + AllCards(s, m.end)
  }

  /**
   * The state of the flashcard loop: `m` is the match at `pos`, and the cards
   * collected so far followed by every card from `pos` on are all the cards.
   */
  ghost predicate CardsScanned(s: string, pos: nat, cards: seq<Card>, m: Option<QaMatch>) {
    && pos <= |s| && m == NextQa(s, pos) && |cards| <= 6
    && cards + AllCards(s, pos) == AllCards(s, 0)
  }

  /** One turn of the flashcard loop: the next match contributes its card. */
  lemma CardsStep(s: string, pos: nat, cards: seq<Card>, m: Option<QaMatch>)
    requires CardsScanned(s, pos, cards, m) && m.Some? && |cards| < 6
    ensures pos < m.value.end
    ensures CardsScanned(s, m.value.end, cards + [CardOf(m.value)], NextQa(s, m.value.end))
  {
    Advance(cards, AllCards(s, pos), CardOf(m.value), AllCards(s, m.value.end), AllCards(s, 0));
  }

  /** The flashcard loop stops: either six cards or no further match. */
  lemma CardsDone(s: string, pos: nat, cards: seq<Card>, m: Option<QaMatch>)
    requires CardsScanned(s, pos, cards, m) && (m.None? || |cards| >= 6)
    ensures cards == Take(AllCards(s, 0), 6)
  {
    if m.None? {
      AppendNil(cards, AllCards(s, 0));
    } else {
      assert AllCards(s, 0)[..6] == cards;
    }
  }

  /** The `while` loop of `fallbackFromChunks`: the first six flashcards. */
  method ExtractFlashcards(text: string) returns (cards: seq<Card>)
    ensures cards == Take(AllCards(text, 0), 6)
  {
    cards := [];
    var pos := 0;
    var m := NextQa(text, pos);
    while m.Some? && |cards| < 6
      invariant CardsScanned(text, pos, cards, m) == true
      decreases |text| - pos
    {
      CardsStep(text, pos, cards, m);
      cards := cards + [CardOf(m.value)];
      pos := m.value.end;
      m := NextQa(text, pos);
    }
    CardsDone(text, pos, cards, m);
  }

  /** Every flashcard has its front and back trimmed. */
  lemma {:induction false} CardsTrimmed(s: string, from: nat)
    requires from <= |s|
    ensures forall c <- AllCards(s, from) :: IsTrimmed(c.front) && IsTrimmed(c.back)
    decreases |s| - from
  {
    match NextQa(s, from)
    case None =>
    case Some(m) =>
      CardsTrimmed(s, m.end);
  }

  /** A match at `p` needs an answer marker `A:` somewhere after the question marker. */
  lemma MatchHasAnswerMarker(s: string, p: nat) returns (q: nat)
    requires p <= |s| && QaMatchAt(s, p).Some?
    ensures p < q && AMarkerAt(s, q)
  {
    var w := SpaceRunEnd(s, p + 2);
    var found := Leftmost(AnswerAttempt(s), w + 1, |s|);
    var e := if found.Some? then found.value.0 else w;
    assert AnswerFrom(s, e).Some? by {
      if found.Some? {
        assert AnswerAttempt(s)(e) == AnswerFrom(s, e);
      }
    }
    q := SpaceRunEnd(s, e);
  }

  /**
   * Text in which no `A:` marker follows a `Q:` marker at or after `from`
   * yields no flashcard; in particular text with no `Q:` marker at all.
   */
  lemma NoQuestionNoCards(s: string, from: nat)
    requires from <= |s|
    requires forall p, q :: from <= p < q < |s| && QMarkerAt(s, p) ==> !AMarkerAt(s, q)
    ensures AllCards(s, from) == []
  {
    forall p | from <= p <= |s|
      ensures QaAttempt(s)(p).None?
    {
      assert QaAttempt(s)(p) == QaMatchAt(s, p);
      if QaMatchAt(s, p).Some? {
        var q := MatchHasAnswerMarker(s, p);
        assert false;
      }
    }
  }

  /**
   * The answer runs up to the first newline, which the match consumes, or to
   * the end of the text; only an answer made of the last blank of the text
   * can be a newline itself.
   */
  lemma AnswerEndsAtNewline(s: string, e: nat)
    requires e <= |s| && AnswerFrom(s, e).Some?
    ensures var (back, end) := AnswerFrom(s, e).value;
      || (|back| == 1 && end == |s|)
      || ((forall k :: 0 <= k < |back| ==> back[k] != '\n') && (end == |s| || s[end - 1] == '\n'))
  {
    var a := SpaceRunEnd(s, e);
    var w := SpaceRunEnd(s, a + 2);
    if w < |s| {
      SpaceRunEndStops(s, a + 2);
      var n := NewlineFrom(s, w + 1);
      assert forall k :: 0 <= k < n - w ==> s[w..n][k] == s[w + k];
    }
  }


  /** The one match in "Q: 2+2?\nA: 4": the question up to the line break, the answer after `A: `. */
  lemma CardExampleMatch(s: string)
    requires s == "Q: 2+2?\nA: 4"
    ensures AllCards(s, 0) == [CardOf(QaMatch(s[3..7], s[11..12], 12))]
  {
    var ans := AnswerAttempt(s);
    assert SpaceRunEnd(s, 2) == 3;
    assert ans(4).None? && ans(5).None? && ans(6).None? by {
      assert SpaceRunEnd(s, 4) == 4 && SpaceRunEnd(s, 5) == 5 && SpaceRunEnd(s, 6) == 6;
    }
    assert ans(7) == Some((s[11..12], 12)) by {
      assert SpaceRunEnd(s, 8) == 8;
      assert SpaceRunEnd(s, 7) == 8;
      assert SpaceRunEnd(s, 11) == 11;
      assert SpaceRunEnd(s, 10) == 11;
      assert NewlineFrom(s, 12) == 12;
    }
    assert Leftmost(ans, 7, 12) == Some((7, (s[11..12], 12)));
    assert Leftmost(ans, 6, 12) == Leftmost(ans, 7, 12);
    assert Leftmost(ans, 5, 12) == Leftmost(ans, 6, 12);
    assert Leftmost(ans, 4, 12) == Leftmost(ans, 5, 12);
    var m := QaMatch(s[3..7], s[11..12], 12);
    assert QaMatchAt(s, 0) == Some(m);
    assert QaAttempt(s)(0) == Some(m);
    assert NextQa(s, 0) == Some(m);
    assert QaAttempt(s)(12) == None;
    assert Leftmost(QaAttempt(s), 12, 12) == None;
    assert AllCards(s, 12) == [];
  }

  /** Two cards on two lines: each line gives its question and its answer, in order. */
  lemma TwoCardExample(s: string)
    requires s == "Q: What is 2+2? A: 4" + "\n" + "Q: Capital of France? A: Paris"
    ensures AllCards(s, 0) == [Card("What is 2+2?", "4"), Card("Capital of France?", "Paris")]
  {
    var m1 := FirstLineMatch(s, "Q: Capital of France? A: Paris");
    var m2 := LastLineMatch("Q: What is 2+2? A: 4" + "\n", s, m1.end);
    CardsOfTwoMatches(s, m1, m2);
  }

  /** The example's first line, whatever follows its '\n', is the first match, up to and with the '\n'. */
  lemma FirstLineMatch(s: string, rest: string) returns (m: QaMatch)
    requires s == "Q: What is 2+2? A: 4" + "\n" + rest
    ensures m == QaMatch("What is 2+2?", "4", 21) && NextQa(s, 0) == Some(m)
    ensures CardOf(m) == Card("What is 2+2?", "4")
  {
    var line, q, a := "Q: What is 2+2? A: 4", "What is 2+2?", "4";
    m := QaMatch(q, a, 21);
    assert s == "" + line + ("\n" + rest) by {
      AppendAssoc(line, "\n", rest);
      assert "" + line == line;
    }
    FirstLineParts();
    QaMatchOfLine("", line, q, a, "\n" + rest, s, 21);
    NextQaAt(s, 0, m);
    CardOfTrimmed(m);
  }

  /** The example's second line, as the last line after any `pre`, is the match at its `Q` and the last one. */
  lemma LastLineMatch(pre: string, s: string, from: nat) returns (m: QaMatch)
    requires s == pre + "Q: Capital of France? A: Paris" && from == |pre|
    ensures m == QaMatch("Capital of France?", "Paris", |s|)
    ensures NextQa(s, from) == Some(m) && NextQa(s, m.end) == None
    ensures CardOf(m) == Card("Capital of France?", "Paris")
  {
    var line, q, a := "Q: Capital of France? A: Paris", "Capital of France?", "Paris";
    m := QaMatch(q, a, |s|);
    assert s == pre + line + "";
    LastLineParts();
    QaMatchOfLine(pre, line, q, a, "", s, |s|);
    NextQaAt(s, |pre|, m);
    NoMatchAtEnd(s);
    CardOfTrimmed(m);
  }

  /** The example's lines, cut into marker, question, marker and answer. */
  lemma FirstLineParts()
    ensures "Q: What is 2+2? A: 4" == "Q: " + "What is 2+2?" + " A: " + "4"
  {
  }

  lemma LastLineParts()
    ensures "Q: Capital of France? A: Paris" == "Q: " + "Capital of France?" + " A: " + "Paris"
  {
  }

  /** A match right at `from` is the next one. */
  lemma NextQaAt(s: string, from: nat, m: QaMatch)
    requires from <= |s| && QaMatchAt(s, from) == Some(m)
    ensures NextQa(s, from) == Some(m)
  {
    assert QaAttempt(s)(from) == Some(m);
  }

  /** No flashcard starts at the end of the text. */
  lemma NoMatchAtEnd(s: string)
    ensures NextQa(s, |s|) == None
  {
    assert QaAttempt(s)(|s|) == None;
  }

  /** Two matches in a row and nothing after them give exactly their two cards. */
  lemma CardsOfTwoMatches(s: string, m1: QaMatch, m2: QaMatch)
    requires NextQa(s, 0) == Some(m1) && NextQa(s, m1.end) == Some(m2) && NextQa(s, m2.end) == None
    ensures AllCards(s, 0) == [CardOf(m1), CardOf(m2)]
  {
    assert AllCards(s, m2.end) == [];
  }

  /** Captures with no blank at either end become the card as they are. */
  lemma CardOfTrimmed(m: QaMatch)
    requires IsTrimmed(m.front) && IsTrimmed(m.back)
    ensures CardOf(m) == Card(m.front, m.back)
  {
    TrimOfTrimmed(m.front);
    TrimOfTrimmed(m.back);
  }

  /** A run of blanks from `e` stops at the latest at a character `hi` that is not a blank. */
  lemma {:induction false} SpaceRunEndAtMost(s: string, e: nat, hi: nat)
    requires e <= hi < |s| && !IsSpace(s[hi])
    ensures SpaceRunEnd(s, e) <= hi
    decreases hi - e
  {
    if e < hi && IsSpace(s[e]) {
      SpaceRunEndAtMost(s, e + 1, hi);
    }
  }

  /** The search finds `q` when `attempt` succeeds there and at no earlier position. */
  lemma LeftmostIs<T>(attempt: nat -> Option<T>, p: nat, n: nat, q: nat)
    requires p <= q <= n && attempt(q).Some?
    requires forall j :: p <= j < q ==> attempt(j).None?
    ensures Leftmost(attempt, p, n) == Some((q, attempt(q).value))
  {
  }

  /**
   * One card written on its own line, `Q: <question> A: <answer>` after any
   * text `pre`: the match at the `Q` has the question and the answer as its
   * captures and ends after the line break that follows, if any.
   */
  lemma QaMatchOfLine(pre: string, line: string, q: string, a: string, tail: string, s: string, end: nat)
    requires s == pre + line + tail && line == "Q: " + q + " A: " + a
    requires q != "" && IsTrimmed(q) && ':' !in q
    requires a != "" && !IsSpace(a[0]) && '\n' !in a
    requires tail == "" || tail[0] == '\n'
    requires end == |s| - |tail| + (if |tail| == 0 then 0 else 1)
    ensures QaMatchAt(s, |pre|) == Some(QaMatch(q, a, end))
  {
    assert s == pre + "Q: " + q + " A: " + a + tail by {
      Regroup(pre, "Q: " + q + " A: ", a);
      Regroup(pre, "Q: " + q, " A: ");
      Regroup(pre, "Q: ", q);
    }
    CardLayout(pre, q, a, tail, s);
    CardLineAt(s, |pre|, q, a, tail, end);
  }

  /** The same, with the line's parts given as slices of `s` from `p`. */
  lemma CardLineAt(s: string, p: nat, q: string, a: string, tail: string, end: nat)
    requires |s| == p + 3 + |q| + 4 + |a| + |tail|
    requires s[p..p + 3] == "Q: " && s[p + 3..p + 3 + |q|] == q
    requires s[p + 3 + |q|..p + 3 + |q| + 4] == " A: "
    requires s[p + 3 + |q| + 4..p + 3 + |q| + 4 + |a|] == a && s[p + 3 + |q| + 4 + |a|..] == tail
    requires q != "" && IsTrimmed(q) && ':' !in q
    requires a != "" && !IsSpace(a[0]) && '\n' !in a
    requires tail == "" || tail[0] == '\n'
    requires end == |s| - |tail| + (if |tail| == 0 then 0 else 1)
    ensures QaMatchAt(s, p) == Some(QaMatch(q, a, end))
  {
    var eA := p + 3 + |q|;
    var n := eA + 4 + |a|;
    NoneOfIn(s, p + 3, eA, q, ':');
    NoneOfIn(s, eA + 4, n, a, '\n');
    assert s[p + 3] == q[0] && s[eA - 1] == q[|q| - 1] && s[eA + 4] == a[0];
    assert n < |s| ==> s[n] == tail[0];
    assert |tail| == 0 <==> n == |s|;
    QaMatchLaidOut(s, p, eA, n, q, a, end);
  }

  /**
   * The match at `p` over a line laid out as `Q: `, a question from `p + 3`
   * to `eA`, ` A: `, and an answer up to `n`, where a '\n' or the end follows.
   */
  lemma QaMatchLaidOut(s: string, p: nat, eA: nat, n: nat, q: string, a: string, end: nat)
    requires p + 3 < eA && eA + 4 < n <= |s|
    requires s[p..p + 3] == "Q: " && s[eA..eA + 4] == " A: "
    requires !IsSpace(s[p + 3]) && !IsSpace(s[eA - 1]) && !IsSpace(s[eA + 4])
    requires forall k :: p + 3 <= k < eA ==> s[k] != ':'
    requires forall k :: eA + 4 <= k < n ==> s[k] != '\n'
    requires n == |s| || s[n] == '\n'
    requires q == s[p + 3..eA] && a == s[eA + 4..n] && end == if n < |s| then n + 1 else n
    ensures QaMatchAt(s, p) == Some(QaMatch(q, a, end))
  {
    assert s[p] == 'Q' && s[p + 1] == ':' && s[p + 2] == ' ' && s[eA] == ' ';
    NoAnswerInQuestion(s, p, eA);
    AnswerAfterMarker(s, eA, n);
    assert SpaceRunEnd(s, p + 2) == p + 3 by {
      assert SpaceRunEnd(s, p + 3) == p + 3;
    }
    LeftmostIs(AnswerAttempt(s), p + 4, |s|, eA);
  }

  /** A slice equal to a sequence without `c` holds no `c`. */
  lemma NoneOfIn(s: string, i: nat, j: nat, x: string, c: char)
    requires i <= j <= |s| && s[i..j] == x && c !in x
    ensures forall k :: i <= k < j ==> s[k] != c
  {
    assert forall k :: i <= k < j ==> s[k] == x[k - i];
  }

  /** Where the parts of a card line stand in the text. */
  lemma CardLayout(pre: string, q: string, a: string, tail: string, s: string)
    requires s == pre + "Q: " + q + " A: " + a + tail
    ensures var p := |pre|; var eA := p + 3 + |q|; var n := eA + 4 + |a|;
      && |s| == n + |tail|
      && s[p..p + 3] == "Q: " && s[p + 3..eA] == q && s[eA..eA + 4] == " A: "
      && s[eA + 4..n] == a && s[n..] == tail
  {
    var p := |pre|;
    var eA := p + 3 + |q|;
    var n := eA + 4 + |a|;
    var x := pre + "Q: ";
    var y := x + q;
    var z := y + " A: ";
    var u := z + a;
    assert s == u + tail;
    assert s[..n] == u && s[n..] == tail;
    assert u[..eA + 4] == z && u[eA + 4..] == a;
    assert z[..eA] == y && z[eA..] == " A: ";
    assert y[..p + 3] == x && y[p + 3..] == q;
    assert x[p..] == "Q: ";
  }

  /** Inside a question holding no ':' and ending in a non-blank, no answer can start. */
  lemma NoAnswerInQuestion(s: string, p: nat, eA: nat)
    requires p + 3 < eA < |s| && !IsSpace(s[eA - 1]) && s[eA] != ':'
    requires forall i :: p + 3 <= i < eA ==> s[i] != ':'
    ensures forall e :: p + 4 <= e < eA ==> AnswerAttempt(s)(e).None?
  {
    forall e | p + 4 <= e < eA
      ensures AnswerFrom(s, e).None?
    {
      SpaceRunEndAtMost(s, e, eA - 1);
    }
  }

  /** At " A: " followed by a non-blank, the answer runs up to the next '\n' or the end. */
  lemma AnswerAfterMarker(s: string, eA: nat, n: nat)
    requires eA + 4 < n <= |s| && s[eA..eA + 4] == " A: " && !IsSpace(s[eA + 4])
    requires forall k :: eA + 4 <= k < n ==> s[k] != '\n'
    requires n == |s| || s[n] == '\n'
    ensures AnswerFrom(s, eA) == Some((s[eA + 4..n], if n < |s| then n + 1 else n))
  {
    assert s[eA] == ' ' && s[eA + 1] == 'A' && s[eA + 2] == ':' && s[eA + 3] == ' ';
    assert SpaceRunEnd(s, eA) == eA + 1 by {
      assert SpaceRunEnd(s, eA + 1) == eA + 1;
    }
    assert SpaceRunEnd(s, eA + 3) == eA + 4 by {
      assert SpaceRunEnd(s, eA + 4) == eA + 4;
    }
  }

  /** Trimming leaves the example's question and answer as they are. */
  lemma CardOfExample(m: QaMatch)
    requires m.front == "2+2?" && m.back == "4"
    ensures CardOf(m) == Card("2+2?", "4")
  {
    QuestionOfExampleTrimmed();
    AnswerOfExampleTrimmed();
  }

  lemma QuestionOfExampleTrimmed()
    ensures Trim("2+2?") == "2+2?"
  {
    TrimOfTrimmed("2+2?");
  }

  lemma AnswerOfExampleTrimmed()
    ensures Trim("4") == "4"
  {
    TrimOfTrimmed("4");
  }

  /** A question, a line break and an answer: the question crosses no marker, the line break is skipped. */
  lemma CardExample(s: string)
    requires s == "Q: 2+2?\nA: 4"
    ensures AllCards(s, 0) == [Card("2+2?", "4")]
  {
    var m := QaMatch(s[3..7], s[11..12], 12);
    assert m.front == "2+2?" && m.back == "4";
    CardOfExample(m);
    CardExampleMatch(s);
  }

  // ---------------------------------------------------------------------
  // The quiz line filter

  /** Drops the one '\r' that `\r?\n` takes together with the newline. */
  function DropCR(x: string): string {
    if x != "" && x[|x| - 1] == '\r' then x[..|x| - 1] else x
  }

  /** `text.split(/\r?\n/)`: no line holds a newline. */
  function SplitLines(s: string): (ls: seq<string>)
    ensures |ls| >= 1
    ensures forall l <- ls :: '\n' !in l
    decreases |s|
  {
    var k := NewlineFrom(s, 0);
    if k == |s| then [s]
    else
      assert forall c <- DropCR(s[..k]) :: c in s[..k];
      [DropCR(s[..k])] + SplitLines(s[k + 1..])
  }

  /** A line terminator `/\r?\n/` matches. */
  predicate IsLineBreak(sep: string) {
    sep == "\n" || sep == "\r\n"
  }

  /**
   * `s` is the lines `ls` with the terminators `seps` put back between them,
   * and each terminator takes the '\r' before its newline: a bare "\n" never
   * follows a line ending in '\r'.
   */
  ghost predicate LinesRejoin(ls: seq<string>, seps: seq<string>, s: string) {
    && |seps| + 1 == |ls|
    && (forall sep <- seps :: IsLineBreak(sep))
    && Interleave(ls, seps) == s
    && (forall i :: 0 <= i < |seps| && seps[i] == "\n" ==> ls[i] == "" || ls[i][|ls[i]| - 1] != '\r')
  }

  /** The line split round trip: the matched terminators, put back, give the text again. */
  lemma {:induction false} SplitLinesRoundTrip(s: string) returns (seps: seq<string>)
    ensures LinesRejoin(SplitLines(s), seps, s)
    decreases |s|
  {
    var k := NewlineFrom(s, 0);
    if k == |s| {
      assert SplitLines(s) == [s];
      seps := [];
    } else {
      var more := SplitLinesRoundTrip(s[k + 1..]);
      seps := SplitLinesStep(s, k, more);
    }
  }

  /** The first line and its terminator in front of the rest's round trip. */
  lemma SplitLinesStep(s: string, k: nat, more: seq<string>) returns (seps: seq<string>)
    requires k == NewlineFrom(s, 0) < |s|
    requires LinesRejoin(SplitLines(s[k + 1..]), more, s[k + 1..])
    ensures LinesRejoin(SplitLines(s), seps, s)
  {
    var line, rest := DropCR(s[..k]), s[k + 1..];
    var sep := LineBreakAt(s, k);
    seps := [sep] + more;
    SplitLinesCons(s, k);
    LinesRejoinCons(line, sep, SplitLines(rest), more, rest);
  }

  /** Splitting at the first newline `k`: the first line, then the lines of the rest. */
  lemma SplitLinesCons(s: string, k: nat)
    requires k == NewlineFrom(s, 0) < |s|
    ensures SplitLines(s) == [DropCR(s[..k])] + SplitLines(s[k + 1..])
  {
  }

  /** The terminator at the newline `k`: the line before it, without its '\r', then the terminator, is `s[..k + 1]`, and the rest follows. */
  lemma LineBreakAt(s: string, k: nat) returns (sep: string)
    requires k < |s| && s[k] == '\n'
    ensures IsLineBreak(sep) && DropCR(s[..k]) + sep == s[..k + 1]
    ensures DropCR(s[..k]) + sep + s[k + 1..] == s
    ensures sep == "\n" ==> DropCR(s[..k]) == "" || DropCR(s[..k])[|DropCR(s[..k])| - 1] != '\r'
  {
    if k > 0 && s[k - 1] == '\r' {
      sep := "\r\n";
      assert s[..k + 1] == s[..k - 1] + "\r\n";
    } else {
      sep := "\n";
      assert s[..k + 1] == s[..k] + "\n";
    }
    assert s[..k + 1] + s[k + 1..] == s;
  }

  /** One more line and terminator in front keep the round-trip facts. */
  lemma LinesRejoinCons(l: string, sep: string, ls: seq<string>, seps: seq<string>, t: string)
    requires LinesRejoin(ls, seps, t)
    requires IsLineBreak(sep) && (sep == "\n" ==> l == "" || l[|l| - 1] != '\r')
    ensures LinesRejoin([l] + ls, [sep] + seps, l + sep + t)
  {
    InterleaveCons(l, sep, ls, seps);
    var seps' := [sep] + seps;
    assert forall i :: 1 <= i < |seps'| ==> seps'[i] == seps[i - 1];
  }

  /** `/[?]\s*$/`: a '?' followed by nothing but blanks. */
  predicate EndsWithQuestionMark(l: string) {
    var t := TrimEnd(l);
    t != "" && t[|t| - 1] == '?'
  }

  /** `/% of/i`. */
  predicate ContainsPercentOf(l: string) {
    exists i :: 0 <= i && i + 4 <= |l| && l[i] == '%' && l[i + 1] == ' ' && IsO(l[i + 2]) && IsF(l[i + 3])
  }

  predicate IsQuizCandidate(l: string) {
    EndsWithQuestionMark(l) && ContainsPercentOf(l)
  }

  /** `\n`, `\r`, U+2028 and U+2029: the characters `.` does not match without the `s` flag. */
  predicate IsLineTerminator(c: char) {
    c == '\n' || c == '\r' || c == '\U{2028}' || c == '\U{2029}'
  }

  /** `=.*$` can match at `j`: an '=' with no line terminator after it up to the end. */
  predicate TailAt(l: string, j: nat) {
    j < |l| && l[j] == '=' && forall m :: j < m < |l| ==> !IsLineTerminator(l[m])
  }

  /** The leftmost position from `i` on where `=.*$` matches, or `|l|` when there is none. */
  function EqualsTailFrom(l: string, i: nat): (k: nat)
    requires i <= |l|
    ensures i <= k <= |l|
    ensures k < |l| ==> TailAt(l, k)
    ensures forall j :: i <= j < k ==> !TailAt(l, j)
    decreases |l| - i
  {
    if i == |l| then i
    else if TailAt(l, i) then i
    else EqualsTailFrom(l, i + 1)
  }

  /**
   * `l.replace(/=.*$/, "")`: the line cut where the first match of `=.*$` starts, or the
   * whole line when there is none.
   */
  function StripEquals(l: string): (r: string)
    ensures r <= l
    ensures |r| < |l| ==> TailAt(l, |r|)
    ensures forall j :: 0 <= j < |r| ==> !TailAt(l, j)
    ensures '=' !in l ==> r == l
  {
    l[..EqualsTailFrom(l, 0)]
  }

  /** The trailing "= ?" of a quiz line is cut off, the blank before it kept. */
  lemma StripEqualsExample()
    ensures StripEquals("20% of 50 = ?") == "20% of 50 "
  {
    var l := "20% of 50 = ?";
    assert TailAt(l, 10);
    assert forall j :: 0 <= j < 10 ==> l[j] != '=';
  }

  /**
   * One line through the filter: a trimmed candidate with an answer becomes
   * a quiz item holding the whole trimmed line as the question.
   */
  function QuizOf(line: string): Option<QuizItem> {
    var l := Trim(line);
    if IsQuizCandidate(l) then
      match PercentOfQuestionToAnswer(StripEquals(l))
      case None => None
      case Some(a) => Some(QuizItem(l, a))
    else None
  }

  /** The quiz items of `lines`, uncapped, in order. */
  function QuizItems(lines: seq<string>): seq<QuizItem> {
    FilterMap(lines, QuizOf)
  }

  /** The state of the quiz loop: the items of the first `k` lines, fewer than five. */
  ghost predicate QuizScanned(lines: seq<string>, k: nat, quiz: seq<QuizItem>) {
    k <= |lines| && quiz == FilterMap(lines[..k], QuizOf) && |quiz| < 5
  }

  /** One turn of the quiz loop: line `k` adds its item, if any; the fifth item ends the loop. */
  lemma QuizStep(lines: seq<string>, k: nat, quiz: seq<QuizItem>)
    ensures QuizScanned(lines, k, quiz) && k < |lines| && QuizOf(lines[k]).None? ==>
              QuizScanned(lines, k + 1, quiz)
    ensures QuizScanned(lines, k, quiz) && k < |lines| && QuizOf(lines[k]).Some? ==>
              var more := quiz + [QuizOf(lines[k]).value];
              && (|more| < 5 ==> QuizScanned(lines, k + 1, more))
              && (|more| >= 5 ==> more == Take(QuizItems(lines), 5))
  {
    if QuizScanned(lines, k, quiz) && k < |lines| {
      FilterMapStep(lines, QuizOf, k);
      if QuizOf(lines[k]).Some? && |quiz| + 1 >= 5 {
        FilterMapTake(lines, QuizOf, k + 1, 5);
      }
    }
  }

  /** The quiz loop ran out of lines: every item found is among the first five. */
  lemma QuizDone(lines: seq<string>, k: nat, quiz: seq<QuizItem>)
    ensures QuizScanned(lines, k, quiz) && k >= |lines| ==> quiz == Take(QuizItems(lines), 5)
  {
    if QuizScanned(lines, k, quiz) && k >= |lines| {
      FilterMapTake(lines, QuizOf, k, 5);
    }
  }

  /** The quiz of `fallbackFromChunks`: the lines of the text through the `for` loop. */
  method ExtractQuiz(text: string) returns (quiz: seq<QuizItem>)
    ensures quiz == Take(QuizItems(SplitLines(text)), 5)
  {
    quiz := QuizFromLines(SplitLines(text));
  }

  /** The `for` loop of `fallbackFromChunks`: stops once five items are collected. */
  method QuizFromLines(lines: seq<string>) returns (quiz: seq<QuizItem>)
    ensures quiz == Take(QuizItems(lines), 5)
  {
    quiz := [];
    var k := 0;
    while k < |lines|
      invariant QuizScanned(lines, k, quiz)
    {
      QuizStep(lines, k, quiz);
      var item := QuizOf(lines[k]);
      if item.Some? {
        quiz := quiz + [item.value];
        if |quiz| >= 5 {
          return;
        }
      }
      k := k + 1;
    }
    QuizDone(lines, k, quiz);
  }



  /**
   * Every quiz item comes from a line of the text, trimmed and kept whole as
   * its question; that line is a candidate, and the answer is computed on it
   * with the `=` tail cut off.
   */
  lemma QuizItemsSound(lines: seq<string>)
    ensures forall it <- QuizItems(lines) ::
      && IsTrimmed(it.q) && IsQuizCandidate(it.q)
      && PercentOfQuestionToAnswer(StripEquals(it.q)) == Some(it.a)
      && exists l <- lines :: Trim(l) == it.q
  {
    FilterMapSound(lines, QuizOf);
    forall it <- QuizItems(lines)
      ensures && IsTrimmed(it.q) && IsQuizCandidate(it.q)
              && PercentOfQuestionToAnswer(StripEquals(it.q)) == Some(it.a)
              && exists l <- lines :: Trim(l) == it.q
    {
      var l :| l in lines && QuizOf(l) == Some(it);
      QuizOfSound(l, it);
    }
  }

  /** What one line contributes: its trimmed self, a candidate, with the answer to it. */
  lemma QuizOfSound(line: string, it: QuizItem)
    requires QuizOf(line) == Some(it)
    ensures it.q == Trim(line) && IsTrimmed(it.q) && IsQuizCandidate(it.q)
    ensures PercentOfQuestionToAnswer(StripEquals(it.q)) == Some(it.a)
  {
  }

  /** A line without '%' is never a candidate. */
  lemma NoPercentNotCandidate(line: string)
    requires '%' !in line
    ensures QuizOf(line).None?
  {
    NoPercentAfterTrim(line);
  }

  lemma NoPercentAfterTrim(line: string)
    requires '%' !in line
    ensures !ContainsPercentOf(Trim(line))
  {
    TrimKeepsAbsent(line, '%');
  }

  /** Lines without '%' give no quiz. */
  lemma NoPercentNoQuiz(lines: seq<string>)
    requires forall l <- lines :: '%' !in l
    ensures QuizItems(lines) == []
  {
    forall l <- lines
      ensures QuizOf(l).None?
    {
      NoPercentNotCandidate(l);
    }
    FilterMapNone(lines, QuizOf);
  }

  /** "What is red?" is never selected. */
  lemma RedIsNotAQuestion(l: string)
    requires l == "What is red?"
    ensures QuizItems([l]) == []
  {
    assert '%' !in l;
    NoPercentNoQuiz([l]);
  }

  // ---------------------------------------------------------------------
  // fallbackFromChunks

  const UrduExplanation: string := "چلو آسان طریقے سے سمجھیں: فیصد کا مطلب سو میں سے ہے۔ مثال: 10% یعنی ہر سو میں دس۔"
  const EnglishExplanation: string := "Let’s learn it simply: Percent means out of 100. For example, 10% means 10 out of every 100."
  const UrduHints: seq<string> := ["10% کے لیے عدد کو 10 پر تقسیم کریں۔", "5% = 10% کا آدھا؛ 1% = 100 پر تقسیم۔"]
  const EnglishHints: seq<string> := ["10% = divide by 10.", "5% is half of 10%; 1% = divide by 100."]
  const UrduFollowups: seq<string> := ["مزید مثالیں آزمائیں؟", "ننھی سی پزل کھیلیں؟"]
  const EnglishFollowups: seq<string> := ["Try more examples?", "Want a tiny puzzle?"]

  /** The notes as one text, separated by blank lines. */
  function NotesText(notes: seq<string>): string {
    Join(notes, "\n\n")
  }

  /** The reply assembled from the notes alone, as `fallbackFromChunks` returns it. */
  function Fallback(notes: seq<string>, language: string): TutorReply {
    var text := NotesText(notes);
    var ur := language == "ur";
    TutorReply("explain",
               if ur then UrduExplanation else EnglishExplanation,
               if ur then UrduHints else EnglishHints,
               Take(QuizItems(SplitLines(text)), 5),
               Take(AllCards(text, 0), 6),
               if ur then UrduFollowups else EnglishFollowups)
  }

  method FallbackFromChunks(notes: seq<string>, language: string) returns (r: TutorReply)
    ensures r == Fallback(notes, language)
  {
    var text := NotesText(notes);
    var flashcards := ExtractFlashcards(text);
    var quiz := ExtractQuiz(text);
    var ur := language == "ur";
    r := TutorReply("explain",
                    if ur then UrduExplanation else EnglishExplanation,
                    if ur then UrduHints else EnglishHints,
                    quiz, flashcards,
                    if ur then UrduFollowups else EnglishFollowups);
  }

  /**
   * The fallback always explains, with exactly two hints and two followups
   * chosen by the language alone; at most five quiz items, each from a
   * candidate line, and at most six trimmed flashcards.
   */
  lemma FallbackShape(notes: seq<string>, other: seq<string>, language: string)
    ensures var r := Fallback(notes, language);
      && r.intent == "explain" && |r.hints| == 2 && |r.followups| == 2
      && r.explanation == Fallback(other, language).explanation
      && r.hints == Fallback(other, language).hints
      && r.followups == Fallback(other, language).followups
      && (language == "ur" <==> r.explanation == UrduExplanation)
      && |r.quiz| <= 5 && (forall it <- r.quiz :: IsQuizCandidate(it.q))
      && |r.flashcards| <= 6 && (forall c <- r.flashcards :: IsTrimmed(c.front) && IsTrimmed(c.back))
  {
    ExplanationsDiffer();
    var text := NotesText(notes);
    QuizItemsSound(SplitLines(text));
    CardsTrimmed(text, 0);
  }

  /** The two explanations can be told apart: they differ in length. */
  lemma ExplanationsDiffer()
    ensures UrduExplanation != EnglishExplanation
  {
    assert |UrduExplanation| == 81 && |EnglishExplanation| == 92;
  }

  // ---------------------------------------------------------------------
  // buildPrompt

  /** The system policy, line by line. */
  const PolicyLines: seq<string> := [
    "",
    "You are \"EdKids RAG Tutor\", a K-5, kid-safe teacher. Rules:",
    "- Short sentences, simple words, warm & cheerful.",
    "- Bilingual: use requested language (\"en\" or \"ur\").",
    "- Stay age-appropriate; refuse adult topics and gently redirect.",
    "- Use the retrieved notes ONLY (they are kid-safe content).",
    "- Return JSON only with this shape:",
    "",
    "{",
    "  \"intent\": \"explain\" | \"practice\" | \"encourage\",",
    "  \"explanation_kid\": \"one or two short paragraphs\",",
    "  \"hints\": [\"short hint 1\",\"short hint 2\"],",
    "  \"quiz\": [{ \"q\": \"question text\", \"a\": \"answer\" }],",
    "  \"flashcards\": [{ \"front\": \"text\", \"back\": \"text\" }],",
    "  \"followups\": [\"small next step 1\",\"small next step 2\"]",
    "}",
    ""
  ]

  const Policy: string := Join(PolicyLines, "\n")

  /** `[Chunk i+1]` followed by the note on the next line. */
  function NoteBlock(i: nat, note: string): string {
    "[Chunk " + NatToString(i + 1) + "]\n" + note
  }

  function NoteBlocks(notes: seq<string>): (bs: seq<string>)
    ensures |bs| == |notes|
    ensures forall i :: 0 <= i < |notes| ==> bs[i] == NoteBlock(i, notes[i])
  {
    seq(|notes|, i requires 0 <= i < |notes| => NoteBlock(i, notes[i]))
  }

  /** What the child's words are followed by in the user message. */
  const Instructions: string := "\"\nUse the notes to help. Generate explanation, 2 tiny hints, 3 quiz Q&A, and 3 flashcards."

  /** `buildPrompt`: the policy, the language and grade, the labelled notes and the child's words. */
  function BuildPrompt(notes: seq<string>, language: string, grade: string, child: string): seq<Message> {
    [ Message("system", Policy),
      Message("system", "Language=" + language + ", Grade=" + grade),
      Message("system", "Retrieved notes:\n" + Join(NoteBlocks(notes), "\n\n")),
      Message("user", "Child said: \"" + child + Instructions) ]
  }

  /** Reads a note block back: its chunk number and the note. */
  function ParseNoteBlock(b: string): Option<(nat, string)> {
    var h := "[Chunk ";
    if |b| < |h| || b[..|h|] != h then None
    else
      var e := DigitRunEnd(b, |h|);
      if e == |h| || e + 1 >= |b| || b[e] != ']' || b[e + 1] != '\n' then None
      else Some((DigitsValue(b[|h|..e]), b[e + 2..]))
  }

  /** Each block reads back as its 1-based position and its note. */
  lemma NoteBlockRoundTrip(i: nat, note: string)
    ensures ParseNoteBlock(NoteBlock(i, note)) == Some((i + 1, note))
  {
    var h := "[Chunk ";
    var d := NatToString(i + 1);
    var b := NoteBlock(i, note);
    assert b == h + d + "]\n" + note;
    assert b[..|h|] == h;
    DigitRunEndAt(b, |h|, |h| + |d|);
    assert b[|h|..|h| + |d|] == d;
    assert b[|h| + |d| + 2..] == note;
  }

  /**
   * The prompt is four messages: three system messages (the policy, the
   * language and grade, the notes) and the child's words; the notes message
   * holds the blocks joined by blank lines, the i-th labelled with i+1.
   */
  lemma PromptShape(notes: seq<string>, language: string, grade: string, child: string)
    ensures var ms := BuildPrompt(notes, language, grade, child);
      && |ms| == 4
      && ms[0].role == "system" && ms[1].role == "system" && ms[2].role == "system" && ms[3].role == "user"
      && ms[0].content == Policy
      && ms[2].content == "Retrieved notes:\n" + Join(NoteBlocks(notes), "\n\n")
      && (forall i :: 0 <= i < |notes| ==> ParseNoteBlock(NoteBlocks(notes)[i]) == Some((i + 1, notes[i])))
  {
    forall i | 0 <= i < |notes|
      ensures ParseNoteBlock(NoteBlocks(notes)[i]) == Some((i + 1, notes[i]))
    {
      NoteBlockRoundTrip(i, notes[i]);
    }
  }

  // ---------------------------------------------------------------------
  // POST

  /** The request body; a missing field is `None`. */
  datatype Request = Request(subject: Option<string>, language: Option<string>,
                             grade: Option<string>, input: Option<string>)

  /** A JSON reply built here, the model's own JSON, or an error with its status. */
  datatype Response = Reply(reply: TutorReply) | ModelJson(content: string) | ServerError(status: nat, message: string)

  /** `hybridSearch(query, subject, k)`: the notes found, or the message of what it threw. */
  type Search = (string, Option<string>, nat) -> Result<seq<string>, Option<string>>

  /**
   * The completion step: the model's JSON content, or `None` when the HTTP
   * call fails, is not ok, has no content or the content does not parse.
   */
  type Complete = seq<Message> -> Option<string>

  const SearchLimit: nat := 6

  function LanguageOf(r: Request): string { r.language.GetOr("en") }
  function GradeOf(r: Request): string { r.grade.GetOr("3") }
  function ChildOf(r: Request): string {
    match r.input
    case None => ""
    case Some(t) => Trim(t)
  }

  /** `child || "basics"`: the query is never empty and never padded. */
  function QueryOf(r: Request): (q: string)
    ensures q != "" && IsTrimmed(q)
    ensures q == "basics" <==> ChildOf(r) == "" || ChildOf(r) == "basics"
  {
    if ChildOf(r) == "" then "basics" else ChildOf(r)
  }

  const UrduEncouragement: string := "ہم اس موضوع کے نوٹس نہیں ڈھونڈ سکے۔ آؤ ایک آسان قدم سے شروع کریں!"
  const EnglishEncouragement: string := "I couldn't find notes yet. Let's start with a simple step!"
  const UrduEncourageFollowup: string := "کیا تم ضرب یا فیصد سیکھنا چاہتے ہو؟"
  const EnglishEncourageFollowup: string := "Would you like multiplication or percentages?"

  /** The reply when nothing was retrieved. */
  function Encourage(language: string): TutorReply {
    if language == "ur" then
      TutorReply("encourage", UrduEncouragement, [], [], [], [UrduEncourageFollowup])
    else
      TutorReply("encourage", EnglishEncouragement, [], [], [], [EnglishEncourageFollowup])
  }

  /** The POST handler. */
  function Post(body: Result<Request, Option<string>>, search: Search, complete: Complete): Response {
    match body
    case Failure(msg) => ServerError(500, msg.GetOr("Error"))
    case Success(r) =>
      match search(QueryOf(r), r.subject, SearchLimit)
      case Failure(msg) => ServerError(500, msg.GetOr("Error"))
      case Success(notes) =>
        if notes == [] then Reply(Encourage(LanguageOf(r)))
        else
          match complete(BuildPrompt(notes, LanguageOf(r), GradeOf(r), ChildOf(r)))
          case Some(content) => ModelJson(content)
          case None => Reply(Fallback(notes, LanguageOf(r)))
  }

  /**
   * When the search finds nothing, POST encourages the child, in the
   * request's language, without consulting the completion: no hints, no
   * quiz, no flashcards and a single followup.
   */
  lemma PostWhenNothingFound(r: Request, search: Search, complete: Complete, other: Complete)
    requires search(QueryOf(r), r.subject, SearchLimit) == Success([])
    ensures var res := Post(Success(r), search, complete);
      && res == Reply(Encourage(LanguageOf(r)))
      && res == Post(Success(r), search, other)
      && res.reply.intent == "encourage"
      && res.reply.hints == [] && res.reply.quiz == [] && res.reply.flashcards == []
      && |res.reply.followups| == 1
  {
  }

  /**
   * When the search finds notes, POST passes on the model's JSON when the
   * completion gives one, and otherwise explains from the same notes in the
   * request's language; it never encourages.
   */
  lemma PostWhenNotesFound(r: Request, search: Search, complete: Complete)
    requires search(QueryOf(r), r.subject, SearchLimit).Success?
    requires search(QueryOf(r), r.subject, SearchLimit).value != []
    ensures var notes := search(QueryOf(r), r.subject, SearchLimit).value;
      var res := Post(Success(r), search, complete);
      var prompt := BuildPrompt(notes, LanguageOf(r), GradeOf(r), ChildOf(r));
      && (res.ModelJson? <==> complete(prompt).Some?)
      && (complete(prompt).Some? ==> res == ModelJson(complete(prompt).value))
      && (complete(prompt).None? ==> res == Reply(Fallback(notes, LanguageOf(r))) && res.reply.intent == "explain")
  {
  }

  /**
   * The defaults: an absent language is English, an absent grade is "3",
   * and blank input searches for "basics"; every failure is a 500.
   */
  lemma PostDefaults(r: Request, body: Result<Request, Option<string>>, search: Search, complete: Complete)
    ensures r.language.None? ==> LanguageOf(r) == "en"
    ensures r.grade.None? ==> GradeOf(r) == "3"
    ensures (r.input.None? || (r.input.Some? && AllSpace(r.input.value))) ==> QueryOf(r) == "basics"
    ensures Post(body, search, complete).ServerError? ==> Post(body, search, complete).status == 500
    ensures Post(body, search, complete).ServerError? <==>
      body.Failure? || search(QueryOf(body.value), body.value.subject, SearchLimit).Failure?
  {
    if r.input.Some? && AllSpace(r.input.value) {
      TrimEmptyIff(r.input.value);
    }
  }
}
