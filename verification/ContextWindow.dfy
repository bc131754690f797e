/**
 Fitting a conversation into a model's context: whole-turn fitting of a request,
 and the history policies. Both shorten one message list in place.
*/
module ContextWindow {
  import opened Wrappers
  import opened Text

  datatype Role = System | User | Assistant | Tool

  datatype Part = TextPart(text: string) | ImageUrl(url: string)

  datatype Content = Words(text: string) | Parts(parts: seq<Part>)

  /** `rest` stands for the fields no decision here looks at. */
  datatype Message = Message(role: Role, content: Option<Content>, rest: string)

  // ----- token estimates ------------------------------------------------------------

  const U128_MAX: nat := 0xFFFF_FFFF_FFFF_FFFF_FFFF_FFFF_FFFF_FFFF

  function Min(a: nat, b: nat): nat {
    if a < b then a else b
  }

  function Clamp(n: nat, low: nat, high: nat): nat {
    if n < low then low else if n > high then high else n
  }

  function SaturatingSub(a: nat, b: nat): nat {
    if a < b then 0 else a - b
  }

  function TokensFromBytes(bytes: nat, bytesPerTokenMilli: nat): nat {
    var ratio := Clamp(bytesPerTokenMilli, 1_000, 3_000);
    Min(Min(Min(bytes * 1_000, U128_MAX) + (ratio - 1), U128_MAX) / ratio, USIZE_MAX)
  }

  /** Rounding up a division by `d`. */
  function CeilingDiv(n: nat, d: nat): (q: nat)
    requires d > 0
    ensures d * q >= n
    ensures q > 0 ==> d * (q - 1) < n
  {
    var q := (n + (d - 1)) / d;
    assert n + (d - 1) == d * q + (n + (d - 1)) % d;
    q
  }

  lemma MulOrder(r: nat, a: int, b: int)
    requires r * a < r * b
    ensures a < b
  {
  }

  lemma AtLeastOneByteAToken(bytes: nat, ratio: nat, tokens: nat)
    requires 1_000 <= ratio && (tokens > 0 ==> ratio * (tokens - 1) < bytes * 1_000)
    ensures tokens <= bytes
  {
    assert ratio * bytes >= 1_000 * bytes;
    if tokens > 0 {
      MulOrder(ratio, tokens - 1, bytes);
    }
  }

  /** The estimate is the exact ceiling, below every saturation point, and at most one token a byte. */
  lemma TokensAreExactCeiling(bytes: nat, bytesPerTokenMilli: nat)
    requires bytes <= USIZE_MAX
    ensures
      var ratio, tokens := Clamp(bytesPerTokenMilli, 1_000, 3_000), TokensFromBytes(bytes, bytesPerTokenMilli);
      && ratio * tokens >= bytes * 1_000
      && (tokens > 0 ==> ratio * (tokens - 1) < bytes * 1_000)
      && tokens <= bytes
  {
    var ratio := Clamp(bytesPerTokenMilli, 1_000, 3_000);
    var tokens := CeilingDiv(bytes * 1_000, ratio);
    AtLeastOneByteAToken(bytes, ratio, tokens);
    assert TokensFromBytes(bytes, bytesPerTokenMilli) == tokens;
  }

  // ----- turns ------------------------------------------------------------------------

  function Texts(parts: seq<Part>): seq<string> {
    if parts == [] then [] else (if parts[0].TextPart? then [parts[0].text] else []) + Texts(parts[1..])
  }

  function JoinLines(texts: seq<string>): string {
    if texts == [] then "" else if |texts| == 1 then texts[0] else texts[0] + "\n" + JoinLines(texts[1..])
  }

  function AsText(content: Content): string {
    match content
    case Words(text) => text
    case Parts(parts) => JoinLines(Texts(parts))
  }

  predicate IsCompactionReceipt(m: Message) {
    m.role == User && m.content.Some? && StartsWith(AsText(m.content.value), "Untrusted history summary ")
  }

  /** A user message that opens a turn. */
  predicate OpensTurn(m: Message) {
    m.role == User && !IsCompactionReceipt(m)
  }

  type Opening = Message -> bool
  type Excess = seq<Message> -> bool

  /** The proofs below hold for any notion of what opens a turn; this is the one in use. */
  const OPENS: Opening := m => OpensTurn(m)

  /** The first turn at or after `from`. */
  function FindTurn(opens: Opening, messages: seq<Message>, from: nat): (r: Option<nat>)
    requires from <= |messages|
    ensures r.Some? ==> from <= r.value < |messages| && opens(messages[r.value])
    ensures r.Some? ==> forall i :: from <= i < r.value ==> !opens(messages[i])
    ensures r.None? ==> forall i :: from <= i < |messages| ==> !opens(messages[i])
    decreases |messages| - from
  {
    if from == |messages| then None
    else if opens(messages[from]) then Some(from)
    else FindTurn(opens, messages, from + 1)
  }

  /** Everything before the first turn, and the turns from position `j` on. */
  function Cut(messages: seq<Message>, first: nat, j: nat): seq<Message>
    requires first <= j <= |messages|
  {
    messages[..first] + messages[j..]
  }

  datatype FitError = NotSerializable | OverBudget(estimate: nat, budget: nat)

  /**
   Dropping the oldest turns up to the one at `j` is the least trimming that can
   help: every turn start before `j` gives a list that is still over budget.
  */
  ghost predicate EarlierCutsTooLong(opens: Opening, messages: seq<Message>, first: nat, j: nat, tooLong: Excess)
    requires first <= j <= |messages|
  {
    forall i {:trigger Cut(messages, first, i)} :: first <= i < j && opens(messages[i]) ==>
      tooLong(Cut(messages, first, i))
  }

  /** The shortened list: a turn-aligned cut, or the list itself when no turn opens. */
  ghost predicate LeastTrimming(opens: Opening, before: seq<Message>, after: seq<Message>, tooLong: Excess)
  {
    match FindTurn(opens, before, 0)
    case None => after == before
    case Some(first) =>
      exists j :: first <= j < |before| && opens(before[j])
                  && after == Cut(before, first, j) && EarlierCutsTooLong(opens, before, first, j, tooLong)
  }

  /** No further whole turn can be dropped. */
  ghost predicate Irreducible(opens: Opening, messages: seq<Message>) {
    |messages| <= 2 || forall i, k :: 0 <= i < k < |messages| && opens(messages[i]) ==> !opens(messages[k])
  }

  lemma FindTurnIs(opens: Opening, messages: seq<Message>, from: nat, k: nat)
    requires from <= k < |messages| && opens(messages[k])
    requires forall i :: from <= i < k ==> !opens(messages[i])
    ensures FindTurn(opens, messages, from) == Some(k)
  {
  }

  lemma CutItems(messages: seq<Message>, first: nat, j: nat)
    requires first <= j <= |messages|
    ensures
      var cut := Cut(messages, first, j);
      && |cut| == |messages| - j + first
      && (forall i :: 0 <= i < first ==> cut[i] == messages[i])
      && (forall i :: first <= i < |cut| ==> cut[i] == messages[i - first + j])
  {
  }

  lemma FirstTurnOfCut(opens: Opening, messages: seq<Message>, first: nat, j: nat)
    requires FindTurn(opens, messages, 0) == Some(first) && first <= j < |messages| && opens(messages[j])
    ensures FindTurn(opens, Cut(messages, first, j), 0) == Some(first)
  {
    var cut := Cut(messages, first, j);
    CutItems(messages, first, j);
    assert forall i :: 0 <= i < first ==> !opens(cut[i]);
    FindTurnIs(opens, cut, 0, first);
  }

  /** In a cut list the second turn is the next turn of the original list. */
  lemma NextTurnOfCut(opens: Opening, messages: seq<Message>, first: nat, j: nat)
    requires first <= j < |messages|
    ensures
      match FindTurn(opens, Cut(messages, first, j), first + 1)
      case None => forall n :: j < n < |messages| ==> !opens(messages[n])
      case Some(k) =>
        && first < k && k - first + j < |messages| && opens(messages[k - first + j])
        && (forall i :: j < i < k - first + j ==> !opens(messages[i]))
  {
    CutItems(messages, first, j);
    var cut := Cut(messages, first, j);
    var next := FindTurn(opens, cut, first + 1);
    if next.Some? {
      assert cut[next.value] == messages[next.value - first + j];
      NoTurnBetween(opens, messages, first, j, next.value);
    } else {
      NoTurnBetween(opens, messages, first, j, |cut|);
    }
  }

  lemma NoTurnBetween(opens: Opening, messages: seq<Message>, first: nat, j: nat, end: nat)
    requires first <= j < |messages| && first < end <= |Cut(messages, first, j)|
    requires forall i :: first < i < end ==> !opens(Cut(messages, first, j)[i])
    ensures forall i :: j < i < end - first + j ==> !opens(messages[i])
  {
    forall i | j < i < end - first + j ensures !opens(messages[i]) {
      assert Cut(messages, first, j)[i - j + first] == messages[i];
    }
  }

  lemma CutOfCut(messages: seq<Message>, first: nat, j: nat, k: nat)
    requires first <= j <= |messages| && first <= k && k - first + j <= |messages|
    ensures
      var cut := Cut(messages, first, j);
      k <= |cut| && cut[..first] + cut[k..] == Cut(messages, first, k - first + j)
  {
    var cut := Cut(messages, first, j);
    assert cut[..first] == messages[..first];
    assert cut[k..] == messages[k - first + j..];
  }

  /** The list is the cut at `j`, and every earlier cut was too long. */
  ghost predicate CutSoFar(opens: Opening, before: seq<Message>, messages: seq<Message>, j: nat, tooLong: Excess)
  {
    match FindTurn(opens, before, 0)
    case None => messages == before
    case Some(first) =>
      && first <= j < |before| && opens(before[j])
      && messages == Cut(before, first, j) && EarlierCutsTooLong(opens, before, first, j, tooLong)
  }

  lemma NothingCutYet(opens: Opening, before: seq<Message>, tooLong: Excess) returns (j: nat)
    ensures CutSoFar(opens, before, before, j, tooLong)
  {
    var first := FindTurn(opens, before, 0);
    j := if first.Some? then first.value else 0;
    if first.Some? {
      assert Cut(before, j, j) == before;
    }
  }

  lemma LaterCutsTooLong(opens: Opening, before: seq<Message>, first: nat, j: nat, j': nat, tooLong: Excess)
    requires first <= j <= j' <= |before|
    requires EarlierCutsTooLong(opens, before, first, j, tooLong)
    requires forall i :: j < i < j' ==> !opens(before[i])
    requires tooLong(Cut(before, first, j))
    ensures EarlierCutsTooLong(opens, before, first, j', tooLong)
  {
  }

  /** Cutting a cut list at its second turn is one cut of the original list. */
  lemma CutAgain(opens: Opening, messages: seq<Message>, first: nat, j: nat, next: nat)
    requires FindTurn(opens, messages, 0) == Some(first) && first <= j < |messages| && opens(messages[j])
    requires FindTurn(opens, Cut(messages, first, j), first + 1) == Some(next)
    ensures
      var j' := next - first + j;
      && j < j' < |messages| && opens(messages[j'])
      && (forall i :: j < i < j' ==> !opens(messages[i]))
      && Cut(messages, first, j)[..first] + Cut(messages, first, j)[next..] == Cut(messages, first, j')
    ensures FindTurn(opens, Cut(messages, first, j), 0) == Some(first)
  {
    FirstTurnOfCut(opens, messages, first, j);
    NextTurnOfCut(opens, messages, first, j);
    CutOfCut(messages, first, j, next);
  }

  lemma SameFirstTurn(opens: Opening, before: seq<Message>, messages: seq<Message>, j: nat, tooLong: Excess)
    requires CutSoFar(opens, before, messages, j, tooLong)
    ensures FindTurn(opens, messages, 0) == FindTurn(opens, before, 0)
  {
    if FindTurn(opens, before, 0).Some? {
      FirstTurnOfCut(opens, before, FindTurn(opens, before, 0).value, j);
    }
  }

  lemma CutFurther(opens: Opening, before: seq<Message>, first: nat, j: nat, next: nat, tooLong: Excess)
    requires FindTurn(opens, before, 0) == Some(first) && first <= j < |before| && opens(before[j])
    requires EarlierCutsTooLong(opens, before, first, j, tooLong)
    requires FindTurn(opens, Cut(before, first, j), first + 1) == Some(next) && tooLong(Cut(before, first, j))
    ensures next <= |Cut(before, first, j)| && j < next - first + j
    ensures CutSoFar(opens, before, Cut(before, first, j)[..first] + Cut(before, first, j)[next..], next - first + j, tooLong)
  {
    CutAgain(opens, before, first, j, next);
    LaterCutsTooLong(opens, before, first, j, next - first + j, tooLong);
  }

  lemma CutOneTurn(opens: Opening, before: seq<Message>, messages: seq<Message>, j: nat, tooLong: Excess,
      first: nat, next: nat) returns (j': nat)
    requires CutSoFar(opens, before, messages, j, tooLong)
    requires FindTurn(opens, messages, 0) == Some(first) && FindTurn(opens, messages, first + 1) == Some(next)
    requires tooLong(messages)
    ensures CutSoFar(opens, before, messages[..first] + messages[next..], j', tooLong)
  {
    SameFirstTurn(opens, before, messages, j, tooLong);
    CutFurther(opens, before, first, j, next, tooLong);
    j' := next - first + j;
  }

  lemma NoSecondTurn(opens: Opening, messages: seq<Message>)
    requires
      match FindTurn(opens, messages, 0)
      case None => true
      case Some(first) => FindTurn(opens, messages, first + 1).None?
    ensures Irreducible(opens, messages)
  {
  }

  /** Over budget and not yet down to two messages. */
  function Exceeds(estimate: seq<Message> -> Option<nat>, budget: nat): seq<Message> -> bool {
    messages => estimate(messages).Some? && estimate(messages).value > budget && |messages| > 2
  }

  /** The reported outcome is that of the list left behind. */
  ghost predicate Fitted(
      opens: Opening, messages: seq<Message>, r: Result<nat, FitError>, estimate: seq<Message> -> Option<nat>, budget: nat)
  {
    match r
    case Ok(tokens) => estimate(messages) == Some(tokens) && tokens <= budget
    case Err(OverBudget(tokens, limit)) =>
      estimate(messages) == Some(tokens) && tokens > budget == limit && Irreducible(opens, messages)
    case Err(NotSerializable) => estimate(messages).None?
  }

  class MessageList {
    var messages: seq<Message>

    constructor (messages: seq<Message>)
      ensures this.messages == messages
    {
      this.messages := messages;
    }

    /** Drop oldest whole turns until the estimate fits or nothing more can be dropped. */
    method FitTurns(estimate: seq<Message> -> Option<nat>, budget: nat) returns (r: Result<nat, FitError>)
      modifies this
      ensures LeastTrimming(OPENS, old(messages), messages, Exceeds(estimate, budget))
      ensures Fitted(OPENS, messages, r, estimate, budget)
    {
      ghost var before := messages;
      ghost var j := NothingCutYet(OPENS, before, Exceeds(estimate, budget));
      while true
        invariant CutSoFar(OPENS, before, messages, j, Exceeds(estimate, budget))
        decreases |messages|
      {
        var tokens := estimate(messages);
        if tokens.None? {
          return Err(NotSerializable);
        }
        if !(tokens.value > budget && |messages| > 2) {
          break;
        }
        var first := FindTurn(OPENS, messages, 0);
        if first.None? {
          NoSecondTurn(OPENS, messages);
          break;
        }
        var next := FindTurn(OPENS, messages, first.value + 1);
        if next.None? {
          NoSecondTurn(OPENS, messages);
          break;
        }
        j := CutOneTurn(OPENS, before, messages, j, Exceeds(estimate, budget), first.value, next.value);
        messages := messages[..first.value] + messages[next.value..];
      }
      var final := estimate(messages);
      if final.None? {
        return Err(NotSerializable);
      }
      if final.value > budget {
        return Err(OverBudget(final.value, budget));
      }
      r := Ok(final.value);
    }

    /** The estimate covers the whole serialized request around the messages. */
    method FitChatRequest(
        requestBytes: seq<Message> -> Option<nat>, contextTokens: nat, outputReserve: nat, bytesPerTokenMilli: nat)
      returns (r: Result<nat, FitError>)
      modifies this
      ensures r.Ok? ==> r.value == 0 || r.value + outputReserve <= contextTokens
      ensures r.Err? && r.error.OverBudget? ==> r.error.estimate > 0 && r.error.estimate + outputReserve > contextTokens
      ensures LeastTrimming(OPENS, old(messages), messages,
                         Exceeds(Estimator(requestBytes, bytesPerTokenMilli), SaturatingSub(contextTokens, outputReserve)))
      ensures Fitted(OPENS, messages, r, Estimator(requestBytes, bytesPerTokenMilli),
                     SaturatingSub(contextTokens, outputReserve))
    {
      r := FitTurns(Estimator(requestBytes, bytesPerTokenMilli), SaturatingSub(contextTokens, outputReserve));
    }

    /** The estimate covers the messages and the tool declarations. */
    method FitModelRound(
        messageBytes: seq<Message> -> Option<nat>, toolBytes: Option<nat>,
        contextTokens: nat, outputReserve: nat, bytesPerTokenMilli: nat)
      returns (r: Result<nat, FitError>)
      modifies this
      ensures r.Ok? ==> r.value == 0 || r.value + outputReserve <= contextTokens
      ensures r.Err? && r.error.OverBudget? ==> r.error.estimate > 0 && r.error.estimate + outputReserve > contextTokens
      ensures
        var bytes := RoundBytes(messageBytes, toolBytes);
        && LeastTrimming(OPENS, old(messages), messages,
                         Exceeds(Estimator(bytes, bytesPerTokenMilli), SaturatingSub(contextTokens, outputReserve)))
        && Fitted(OPENS, messages, r, Estimator(bytes, bytesPerTokenMilli), SaturatingSub(contextTokens, outputReserve))
    {
      r := FitTurns(Estimator(RoundBytes(messageBytes, toolBytes), bytesPerTokenMilli),
                    SaturatingSub(contextTokens, outputReserve));
    }
  }

  function Estimator(bytes: seq<Message> -> Option<nat>, bytesPerTokenMilli: nat): seq<Message> -> Option<nat> {
    messages =>
      if bytes(messages).None? then None else Some(TokensFromBytes(bytes(messages).value, bytesPerTokenMilli))
  }

  function RoundBytes(messageBytes: seq<Message> -> Option<nat>, toolBytes: Option<nat>): seq<Message> -> Option<nat> {
    messages =>
      if messageBytes(messages).None? || toolBytes.None? then None
      else Some(Min(messageBytes(messages).value + toolBytes.value, USIZE_MAX))
  }

  /** The newest turn, and everything before the first one, survive any trimming. */
  lemma NewestTurnKept(opens: Opening, before: seq<Message>, after: seq<Message>, tooLong: Excess, newest: nat)
    requires LeastTrimming(opens, before, after, tooLong)
    requires newest < |before| && opens(before[newest])
    requires forall i :: newest < i < |before| ==> !opens(before[i])
    ensures EndsWithItems(after, before[newest..])
    ensures FindTurn(opens, before, 0).Some? && before[..FindTurn(opens, before, 0).value] <= after
  {
    assert FindTurn(opens, before, 0).Some?;
    var first := FindTurn(opens, before, 0).value;
    var j :| first <= j < |before| && opens(before[j]) && after == Cut(before, first, j);
    assert j <= newest;
    CutKeepsTail(before, first, j, newest);
  }

  lemma CutKeepsTail(messages: seq<Message>, first: nat, j: nat, newest: nat)
    requires first <= j <= newest <= |messages|
    ensures EndsWithItems(Cut(messages, first, j), messages[newest..])
    ensures messages[..first] <= Cut(messages, first, j)
  {
    var cut := Cut(messages, first, j);
    assert cut[first + (newest - j)..] == messages[j..][newest - j..] == messages[newest..];
  }

  predicate EndsWithItems(messages: seq<Message>, tail: seq<Message>) {
    |tail| <= |messages| && messages[|messages| - |tail|..] == tail
  }

  // ----- what opens a turn, and what counts ---------------------------------------------------

  /** The receipt a compaction leaves behind, in place of the turns it summed up. */
  predicate Receipt(m: Message) {
    && m.role == User && m.content.Some?
    && match m.content.value
       case Words(text) => "Untrusted history summary " <= text
       case Parts(parts) => "Untrusted history summary " <= JoinLines(Texts(parts))
  }

  lemma OpensIff(m: Message)
    ensures OPENS(m) <==> m.role == User && !Receipt(m)
  {
  }

  /** Images say nothing; texts follow each other on lines of their own. */
  lemma {:induction false} TextOfParts(images: seq<Part>, text: string, rest: seq<Part>)
    requires forall part <- images :: part.ImageUrl?
    ensures
      var all := images + [TextPart(text)] + rest;
      AsText(Parts(all)) ==
        if exists part :: part in rest && part.TextPart? then text + "\n" + AsText(Parts(rest)) else text
  {
    var all := images + [TextPart(text)] + rest;
    if images != [] {
      TextOfParts(images[1..], text, rest);
      assert all[0] == images[0] && images[0] in images;
      assert all[1..] == images[1..] + [TextPart(text)] + rest;
      assert Texts(all) == [] + Texts(all[1..]) == Texts(all[1..]);
    } else {
      assert all == [TextPart(text)] + rest && all[0] == TextPart(text) && all[1..] == rest;
      TextsEmptyIff(rest);
      var texts := [text] + Texts(rest);
      assert Texts(all) == texts && texts[1..] == Texts(rest) && (texts == [text] <==> Texts(rest) == []);
      assert JoinLines(texts) == if Texts(rest) == [] then text else text + "\n" + JoinLines(Texts(rest));
    }
  }

  lemma {:induction false} TextsEmptyIff(parts: seq<Part>)
    ensures Texts(parts) != [] <==> exists part :: part in parts && part.TextPart?
  {
    if parts != [] {
      TextsEmptyIff(parts[1..]);
      assert parts == [parts[0]] + parts[1..];
    }
  }

  /** Everything before the first user message that is not a receipt stays, receipts included. */
  lemma ReceiptsStay(before: seq<Message>, after: seq<Message>, tooLong: Excess, n: nat)
    requires LeastTrimming(OPENS, before, after, tooLong) && n <= |before|
    requires forall i :: 0 <= i < n ==> before[i].role != User || Receipt(before[i])
    ensures before[..n] <= after
  {
    forall i | 0 <= i < n ensures !OPENS(before[i]) {
      OpensIff(before[i]);
    }
    var first := FindTurn(OPENS, before, 0);
    if first.Some? {
      assert first.value >= n;
      var j :| first.value <= j < |before| && OPENS(before[j]) && after == Cut(before, first.value, j);
      assert before[..n] <= before[..first.value] <= after;
    }
  }

  /** The estimate of a round: the least number of tokens that cover the bytes of messages and tool declarations. */
  lemma RoundEstimate(
      messageBytes: seq<Message> -> Option<nat>, toolBytes: nat, bytesPerTokenMilli: nat, messages: seq<Message>, sum: nat)
    requires messageBytes(messages).Some? && sum == messageBytes(messages).value + toolBytes <= USIZE_MAX
    ensures
      var ratio := if bytesPerTokenMilli < 1_000 then 1_000 else if bytesPerTokenMilli > 3_000 then 3_000 else bytesPerTokenMilli;
      var tokens := Estimator(RoundBytes(messageBytes, Some(toolBytes)), bytesPerTokenMilli)(messages);
      tokens.Some? && ratio * tokens.value >= sum * 1_000
      && (tokens.value > 0 ==> ratio * (tokens.value - 1) < sum * 1_000)
  {
    TokensAreExactCeiling(sum, bytesPerTokenMilli);
  }

  /** Without the tool declarations' bytes, or the messages', there is no estimate. */
  lemma NoRoundEstimate(
      messageBytes: seq<Message> -> Option<nat>, toolBytes: Option<nat>, bytesPerTokenMilli: nat, messages: seq<Message>)
    ensures Estimator(RoundBytes(messageBytes, toolBytes), bytesPerTokenMilli)(messages).None? <==>
      messageBytes(messages).None? || toolBytes.None?
  {
  }
}
