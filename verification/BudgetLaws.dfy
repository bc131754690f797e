/** What a token budget keeps, with the estimate told by the bytes of the texts. */
module BudgetLaws {
  import opened Wrappers
  import opened Text
  import opened Utf8
  import opened ContextWindow
  import opened HistoryPolicy

  /** A text counts its bytes, an image 256. */
  function PartWeight(part: Part): nat {
    match part
    case TextPart(text) => |Encode(text)|
    case ImageUrl(_) => 256
  }

  function PartsWeight(parts: seq<Part>): nat {
    if parts == [] then 0 else PartsWeight(parts[..|parts| - 1]) + PartWeight(parts[|parts| - 1])
  }

  lemma {:induction false} PartCharsAppend(a: seq<Part>, b: seq<Part>)
    ensures PartChars(a + b) == PartChars(a) + PartChars(b)
  {
    if a == [] {
      assert a + b == b;
    } else {
      assert (a + b)[1..] == a[1..] + b;
      PartCharsAppend(a[1..], b);
    }
  }

  lemma {:induction false} PartsWeighed(parts: seq<Part>)
    ensures PartChars(parts) == PartsWeight(parts)
  {
    if parts != [] {
      var front, last := parts[..|parts| - 1], parts[|parts| - 1];
      PartsWeighed(front);
      PartCharsAppend(front, [last]);
      assert front + [last] == parts;
      if last.TextPart? {
        LengthIsEncoded(last.text);
      }
    }
  }

  function ContentWeight(content: Content): nat {
    match content
    case Words(text) => |Encode(text)|
    case Parts(parts) => PartsWeight(parts)
  }

  /** A message is estimated at four tokens and one for every four bytes. */
  lemma MessageEstimate(m: Message)
    ensures MessageTokens(m) == 4 + (if m.content.Some? then ContentWeight(m.content.value) else 0) / 4
  {
    if m.content.Some? {
      match m.content.value
      case Words(text) => LengthIsEncoded(text);
      case Parts(parts) => PartsWeighed(parts);
    }
  }

  /** The estimate of a list is the sum over its messages. */
  function Estimate(messages: seq<Message>): nat {
    if messages == [] then 0
    else
      var last := messages[|messages| - 1];
      Estimate(messages[..|messages| - 1])
      + 4 + (if last.content.Some? then ContentWeight(last.content.value) else 0) / 4
  }

  lemma {:induction false} Estimated(messages: seq<Message>)
    ensures Tokens(messages) == Estimate(messages)
  {
    if messages != [] {
      var front, last := messages[..|messages| - 1], messages[|messages| - 1];
      Estimated(front);
      TokensAppend(front, [last]);
      assert front + [last] == messages;
      MessageEstimate(last);
    }
  }

  /** The first `n` messages are System messages, and no more. */
  predicate SystemFront(messages: seq<Message>, n: nat) {
    && n <= |messages| && (forall i :: 0 <= i < n ==> messages[i].role == System)
    && (n < |messages| ==> messages[n].role != System)
  }

  /** What is kept from `k` on fits beside the System messages and the reserve. */
  predicate Fits(messages: seq<Message>, n: nat, k: nat, max: nat, reserve: nat)
    requires n <= k <= |messages|
  {
    var tokens := Estimate(messages[..n] + messages[k..]);
    tokens == 0 || tokens + reserve <= max
  }

  /**
   A token budget keeps the System messages in front and the longest end of the rest that fits, or the last message
   if not even that one does.
  */
  lemma BudgetKeepsLongestEnd(messages: seq<Message>, max: nat, reserve: nat) returns (n: nat, k: nat)
    ensures SystemFront(messages, n) && n <= k <= |messages|
    ensures Kept(TokenBudget(max, reserve), messages) == messages[..n] + messages[k..]
    ensures Fits(messages, n, k, max, reserve) || k + 1 >= |messages|
    ensures forall j :: n <= j < k ==> !Fits(messages, n, j, max, reserve)
    ensures n < |messages| ==> k < |messages|
  {
    n := SystemRun(messages);
    var fixed, rest, budget := messages[..n], messages[n..], SaturatingSub(max, reserve);
    KeptByBudget(messages, max, reserve);
    var cut := KeepBudgetIsLongest(fixed, rest, budget);
    k := n + cut;
    assert rest[cut..] == messages[k..];
    Estimated(fixed + messages[k..]);
    forall j | n <= j < k ensures !Fits(messages, n, j, max, reserve) {
      assert rest[j - n..] == messages[j..];
      Estimated(fixed + messages[j..]);
    }
  }

  /** A sliding window of no turns keeps the first message only. */
  lemma NoTurnsKept(messages: seq<Message>)
    ensures Kept(SlidingTurns(0), messages) == if messages == [] then [] else [messages[0]]
    ensures Kept(FullReplay, messages) == messages
  {
    if messages != [] {
      assert messages[..1] == [messages[0]];
    }
  }
}
