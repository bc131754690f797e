/**
 The history policies: which messages of a conversation are replayed to the
 model. `Apply` works in place on a message list; the functions beside it say
 what each policy keeps.
*/
module HistoryPolicy {
  import opened Wrappers
  import opened Text
  import opened ContextWindow

  datatype Policy =
    | FullReplay
    | SlidingTurns(turns: nat)
    | TokenBudget(maxTokens: nat, reserveForReply: nat)

  // ----- token estimate --------------------------------------------------------------

  const IMAGE_CHARS: nat := 256

  function PartChars(parts: seq<Part>): nat {
    if parts == [] then 0
    else (if parts[0].TextPart? then Utf8Len(parts[0].text) else IMAGE_CHARS) + PartChars(parts[1..])
  }

  function MessageTokens(m: Message): nat {
    var chars :=
      if m.content.None? then 0
      else if m.content.value.Words? then Utf8Len(m.content.value.text)
      else PartChars(m.content.value.parts);
    4 + chars / 4
  }

  function Tokens(messages: seq<Message>): nat {
    if messages == [] then 0 else MessageTokens(messages[0]) + Tokens(messages[1..])
  }

  // ----- what each policy keeps --------------------------------------------------------

  /** Length of the leading run of System messages. */
  function SystemRun(messages: seq<Message>): (n: nat)
    ensures n <= |messages|
    ensures forall i :: 0 <= i < n ==> messages[i].role == System
    ensures n < |messages| ==> messages[n].role != System
  {
    if messages == [] || messages[0].role != System then 0 else 1 + SystemRun(messages[1..])
  }

  function Users(messages: seq<Message>): nat {
    if messages == [] then 0 else (if messages[0].role == User then 1 else 0) + Users(messages[1..])
  }

  /** Position of the `n`-th last user message at or after `from`. */
  function NthLastUser(messages: seq<Message>, from: nat, n: nat): (r: Option<nat>)
    requires from <= |messages| && n > 0
    ensures r.Some? ==> from <= r.value < |messages| && messages[r.value].role == User && Users(messages[r.value..]) == n
    ensures r.None? ==> Users(messages[from..]) < n
    decreases |messages| - from
  {
    if from == |messages| then None
    else
      var later := NthLastUser(messages, from + 1, n);
      if later.Some? then later
      else if messages[from].role == User && Users(messages[from + 1..]) == n - 1 then
        assert messages[from..][1..] == messages[from + 1..];
        Some(from)
      else
        assert messages[from..][1..] == messages[from + 1..];
        None
  }

  /** Where trimming starts: after the System run, or at 0 in a list of System messages only. */
  function ConversationStart(messages: seq<Message>): (n: nat)
    ensures n <= |messages|
  {
    if SystemRun(messages) == |messages| then 0 else SystemRun(messages)
  }

  function KeepTurns(messages: seq<Message>, turns: nat): seq<Message>
    requires turns > 0
  {
    var start := ConversationStart(messages);
    match NthLastUser(messages, start, turns)
    case None => messages
    case Some(i) => messages[..start] + messages[i..]
  }

  /** Drop `conversation` items from the front until it fits behind `fixed` or one is left. */
  function KeepBudget(fixed: seq<Message>, conversation: seq<Message>, budget: nat): seq<Message> {
    if Tokens(fixed + conversation) <= budget || |conversation| <= 1 then fixed + conversation
    else KeepBudget(fixed, conversation[1..], budget)
  }

  function Kept(policy: Policy, messages: seq<Message>): seq<Message> {
    if |messages| <= 1 then messages
    else
      match policy
      case FullReplay => messages
      case SlidingTurns(turns) => if turns == 0 then messages[..1] else KeepTurns(messages, turns)
      case TokenBudget(max, reserve) =>
        var n := SystemRun(messages);
        KeepBudget(messages[..n], messages[n..], SaturatingSub(max, reserve))
  }

  // ----- in place -----------------------------------------------------------------------

  lemma UsersFrom(messages: seq<Message>, i: nat)
    requires i < |messages|
    ensures Users(messages[i..]) == (if messages[i].role == User then 1 else 0) + Users(messages[i + 1..])
  {
    assert messages[i..][1..] == messages[i + 1..];
  }

  lemma {:induction false} UsersShrink(messages: seq<Message>, i: nat, j: nat)
    requires i <= j <= |messages|
    ensures Users(messages[i..]) >= Users(messages[j..])
    decreases j - i
  {
    if i < j {
      UsersFrom(messages, i);
      UsersShrink(messages, i + 1, j);
    }
  }

  /** The position is determined by its role and the users behind it. */
  lemma NthLastUserIs(messages: seq<Message>, from: nat, n: nat, i: nat)
    requires from <= i < |messages| && n > 0
    requires messages[i].role == User && Users(messages[i..]) == n
    ensures NthLastUser(messages, from, n) == Some(i)
  {
    UsersShrink(messages, from, i);
    var found := NthLastUser(messages, from, n).value;
    if found < i {
      UsersFrom(messages, found);
      UsersShrink(messages, found + 1, i);
    } else if i < found {
      UsersFrom(messages, i);
      UsersShrink(messages, i + 1, found);
    }
  }

  method Apply(policy: Policy, list: MessageList)
    modifies list
    ensures list.messages == Kept(policy, old(list.messages))
  {
    if |list.messages| <= 1 {
      return;
    }
    match policy {
      case FullReplay =>
      case SlidingTurns(turns) =>
        if turns == 0 {
          list.messages := list.messages[..1];
          return;
        }
        SlideTo(list, turns);
      case TokenBudget(max, reserve) =>
        TrimToBudget(list, SaturatingSub(max, reserve));
    }
  }

  /** Walks back from the newest message until enough user messages have been seen. */
  method SlideTo(list: MessageList, turns: nat)
    requires turns > 0
    modifies list
    ensures list.messages == KeepTurns(old(list.messages), turns)
  {
    var messages := list.messages;
    var start := ConversationStart(messages);
    var counted, keepFrom, i := 0, |messages|, |messages|;
    while i > start && counted < turns
      modifies {}
      invariant start <= i <= |messages|
      invariant counted == Users(messages[i..]) <= turns
      invariant if counted < turns then keepFrom == |messages|
                else keepFrom == i < |messages| && messages[i].role == User
    {
      i := i - 1;
      UsersFrom(messages, i);
      if messages[i].role == User {
        counted := counted + 1;
      }
      if counted == turns {
        keepFrom := i;
      }
    }
    if counted == turns {
      NthLastUserIs(messages, start, turns, keepFrom);
      assert keepFrom == start ==> messages[..start] + messages[keepFrom..] == messages;
    } else {
      assert NthLastUser(messages, start, turns).None? by {
        if NthLastUser(messages, start, turns).Some? {
          UsersShrink(messages, start, NthLastUser(messages, start, turns).value);
        }
      }
    }
    if keepFrom > start && counted >= turns {
      list.messages := messages[..start] + messages[keepFrom..];
    }
  }

  /** Removes the oldest conversation message until the estimate fits or one message is left. */
  method TrimToBudget(list: MessageList, budget: nat)
    requires list.messages != []
    modifies list
    ensures
      var n := SystemRun(old(list.messages));
      list.messages == KeepBudget(old(list.messages)[..n], old(list.messages)[n..], budget)
  {
    var trimAt := SystemRun(list.messages);
    ghost var fixed := list.messages[..trimAt];
    assert fixed + list.messages[trimAt..] == list.messages;
    while true
      invariant list.messages != [] && trimAt <= |list.messages| && list.messages[..trimAt] == fixed
      invariant KeepBudget(fixed, list.messages[trimAt..], budget)
        == KeepBudget(fixed, old(list.messages)[trimAt..], budget)
      decreases |list.messages|
    {
      assert fixed + list.messages[trimAt..] == list.messages;
      if Tokens(list.messages) <= budget || trimAt >= |list.messages| - 1 {
        break;
      }
      ghost var conversation := list.messages[trimAt..];
      list.messages := list.messages[..trimAt] + list.messages[trimAt + 1..];
      assert list.messages[trimAt..] == conversation[1..];
    }
  }

  // ----- sliding turns ----------------------------------------------------------------------

  lemma SystemRunIs(messages: seq<Message>, n: nat)
    requires n < |messages| && messages[n].role != System
    requires forall i :: 0 <= i < n ==> messages[i].role == System
    ensures SystemRun(messages) == n
  {
  }

  lemma NoUsersInSystemRun(messages: seq<Message>, start: nat, i: nat)
    requires i < |messages| && messages[i].role == User && start == ConversationStart(messages)
    ensures start == SystemRun(messages) && start <= i
  {
  }

  /** Sliding turns keeps the leading System run and everything from the `turns`-th last user message. */
  lemma KeepTurnsIsExact(messages: seq<Message>, turns: nat)
    requires turns > 0
    ensures
      var kept, start := KeepTurns(messages, turns), SystemRun(messages);
      if Users(messages) < turns then kept == messages
      else
        exists i :: start <= i < |messages| && messages[i].role == User && Users(messages[i..]) == turns
                    && kept == messages[..start] + messages[i..]
  {
    var start := ConversationStart(messages);
    UsersOfRun(messages, start);
    var i := NthLastUser(messages, start, turns);
    if i.Some? {
      UsersShrink(messages, start, i.value);
      NoUsersInSystemRun(messages, start, i.value);
    }
  }

  /** The messages before the conversation hold no user message. */
  lemma {:induction false} UsersOfRun(messages: seq<Message>, start: nat)
    requires start <= |messages| && forall i :: 0 <= i < start ==> messages[i].role != User
    ensures Users(messages) == Users(messages[start..])
  {
    if start > 0 {
      UsersOfRun(messages[1..], start - 1);
      assert messages[1..][start - 1..] == messages[start..];
    } else {
      assert messages[0..] == messages;
    }
  }

  /** A list cut at a user message starts its conversation there, with the same messages behind every position. */
  lemma CutAtUser(messages: seq<Message>, i: nat)
    requires i < |messages| && messages[i].role == User
    ensures
      var start := ConversationStart(messages);
      var kept := messages[..start] + messages[i..];
      && start <= i && ConversationStart(kept) == start
      && forall k :: i <= k < |messages| ==> kept[k - i + start] == messages[k] && kept[k - i + start..] == messages[k..]
  {
    CutStart(messages, i);
  }

  lemma CutStart(messages: seq<Message>, i: nat)
    requires i < |messages| && messages[i].role == User
    ensures
      var start := ConversationStart(messages);
      start <= i && ConversationStart(messages[..start] + messages[i..]) == start
  {
    var start := ConversationStart(messages);
    NoUsersInSystemRun(messages, start, i);
    var kept := messages[..start] + messages[i..];
    assert kept[start] == messages[i];
    SystemRunIs(kept, start);
  }

  /** Sliding to `m` turns and then to `n` is sliding to the smaller of the two. */
  lemma SlidingComposes(messages: seq<Message>, m: nat, n: nat)
    requires m > 0 && n > 0
    ensures KeepTurns(KeepTurns(messages, m), n) == KeepTurns(messages, Min(m, n))
  {
    var i := NthLastUser(messages, ConversationStart(messages), m);
    if i.None? {
      if n > m {
        SlidingKeepsFew(messages, n);
      }
    } else if n > m {
      CutAtUser(messages, i.value);
      SlidingKeepsFew(KeepTurns(messages, m), n);
    } else {
      SlidingToFewer(messages, m, n, i.value);
    }
  }

  lemma SlidingToFewer(messages: seq<Message>, m: nat, n: nat, i: nat)
    requires 0 < n <= m && NthLastUser(messages, ConversationStart(messages), m) == Some(i)
    ensures KeepTurns(KeepTurns(messages, m), n) == KeepTurns(messages, n)
  {
    var start := ConversationStart(messages);
    SlidingFinds(messages, start, n, i);
    var k := NthLastUser(messages, start, n).value;
    NthLastNotBefore(messages, i, k);
    FewerOfCut(messages, i, n, k);
  }

  /** In a list cut at `i`, a later user message is found again, and what is behind it with it. */
  lemma FewerOfCut(messages: seq<Message>, i: nat, n: nat, k: nat)
    requires ConversationStart(messages) <= i < |messages| && messages[i].role == User
    requires n > 0 && NthLastUser(messages, ConversationStart(messages), n) == Some(k) && i <= k
    ensures
      var start := ConversationStart(messages);
      KeepTurns(messages[..start] + messages[i..], n) == messages[..start] + messages[k..]
  {
    CutStart(messages, i);
    FewerBehindCut(messages, ConversationStart(messages), i, n, k);
  }

  lemma FewerBehindCut(messages: seq<Message>, start: nat, i: nat, n: nat, k: nat)
    requires start <= i <= k < |messages| && ConversationStart(messages[..start] + messages[i..]) == start
    requires n > 0 && messages[k].role == User && Users(messages[k..]) == n
    ensures KeepTurns(messages[..start] + messages[i..], n) == messages[..start] + messages[k..]
  {
    BehindCut(messages, start, i, k);
    KeepTurnsFrom(messages[..start] + messages[i..], start, n, k - i + start);
  }

  lemma KeepTurnsFrom(messages: seq<Message>, start: nat, n: nat, i: nat)
    requires n > 0 && start == ConversationStart(messages) <= i < |messages|
    requires messages[i].role == User && Users(messages[i..]) == n
    ensures KeepTurns(messages, n) == messages[..start] + messages[i..]
  {
    NthLastUserIs(messages, start, n, i);
  }

  lemma BehindCut(messages: seq<Message>, start: nat, i: nat, k: nat)
    requires start <= i <= k < |messages|
    ensures
      var kept, k' := messages[..start] + messages[i..], k - i + start;
      && k' < |kept| && kept[k'] == messages[k] && kept[k'..] == messages[k..]
      && kept[..start] == messages[..start]
  {
  }

  lemma SlidingKeepsFew(messages: seq<Message>, n: nat)
    requires n > 0 && Users(messages[ConversationStart(messages)..]) < n
    ensures KeepTurns(messages, n) == messages
  {
    var start := ConversationStart(messages);
    if NthLastUser(messages, start, n).Some? {
      UsersShrink(messages, start, NthLastUser(messages, start, n).value);
    }
  }

  lemma {:induction false} SlidingFinds(messages: seq<Message>, from: nat, n: nat, i: nat)
    requires from <= i <= |messages| && 0 < n <= Users(messages[i..])
    ensures NthLastUser(messages, from, n).Some?
  {
    UsersShrink(messages, from, i);
  }

  /** With no fewer users behind it, a user message is not after one with at least as many. */
  lemma NthLastNotBefore(messages: seq<Message>, i: nat, k: nat)
    requires i < |messages| && k < |messages| && messages[k].role == User && messages[i].role == User
    requires Users(messages[k..]) <= Users(messages[i..])
    ensures i <= k
  {
    if k < i {
      UsersFrom(messages, k);
      UsersShrink(messages, k + 1, i);
    }
  }

  // ----- token budget ---------------------------------------------------------------------------

  /** The budget keeps the longest conversation suffix that fits, or its last message. */
  lemma {:induction false} KeepBudgetIsLongest(fixed: seq<Message>, conversation: seq<Message>, budget: nat) returns (k: nat)
    ensures k <= |conversation| && KeepBudget(fixed, conversation, budget) == fixed + conversation[k..]
    ensures forall i :: 0 <= i < k ==> Tokens(fixed + conversation[i..]) > budget
    ensures Tokens(fixed + conversation[k..]) <= budget || |conversation[k..]| <= 1
    ensures conversation != [] ==> k < |conversation|
  {
    assert conversation[0..] == conversation;
    if Tokens(fixed + conversation) <= budget || |conversation| <= 1 {
      k := 0;
    } else {
      k := KeepBudgetIsLongest(fixed, conversation[1..], budget);
      k := k + 1;
      assert conversation[1..][k - 1..] == conversation[k..];
      forall i | 0 < i < k ensures Tokens(fixed + conversation[i..]) > budget {
        assert conversation[1..][i - 1..] == conversation[i..];
      }
    }
  }

  /** A list that fits, or has one message behind its System run, is left alone. */
  lemma BudgetLeavesAlone(messages: seq<Message>, budget: nat)
    requires Tokens(messages) <= budget || |messages| - SystemRun(messages) <= 1
    ensures KeepBudget(messages[..SystemRun(messages)], messages[SystemRun(messages)..], budget) == messages
  {
    assert messages[..SystemRun(messages)] + messages[SystemRun(messages)..] == messages;
  }

  // ----- the documented budget ----------------------------------------------------------------

  /** The documented rule: the first `left` messages of the System run, the prompt, are not estimated. */
  function DocumentedBudget(fixed: seq<Message>, conversation: seq<Message>, budget: nat, left: nat): seq<Message>
    requires left <= |fixed|
  {
    if Tokens(fixed[left..] + conversation) <= budget || |conversation| <= 1 then fixed + conversation
    else DocumentedBudget(fixed, conversation[1..], budget, left)
  }

  lemma {:induction false} TokensAppend(a: seq<Message>, b: seq<Message>)
    ensures Tokens(a + b) == Tokens(a) + Tokens(b)
  {
    if a == [] {
      assert a + b == b;
    } else {
      assert (a + b)[1..] == a[1..] + b;
      TokensAppend(a[1..], b);
    }
  }

  /** What the prompt costs: at least four tokens for each message left out. */
  lemma LeftOut(fixed: seq<Message>, left: nat, conversation: seq<Message>)
    requires left <= |fixed|
    ensures Tokens(fixed + conversation) == Tokens(fixed[..left]) + Tokens(fixed[left..] + conversation)
    ensures left > 0 ==> Tokens(fixed[..left]) >= 4
  {
    assert fixed + conversation == fixed[..left] + (fixed[left..] + conversation);
    TokensAppend(fixed[..left], fixed[left..] + conversation);
  }

  lemma {:induction false} KeepBudgetLength(fixed: seq<Message>, conversation: seq<Message>, budget: nat)
    ensures |KeepBudget(fixed, conversation, budget)| <= |fixed| + |conversation|
  {
    if !(Tokens(fixed + conversation) <= budget || |conversation| <= 1) {
      KeepBudgetLength(fixed, conversation[1..], budget);
    }
  }

  /** For one budget: the code keeps what is documented exactly when that still fits with the prompt, or cannot be cut. */
  lemma {:induction false} DocumentedBudgetKeptIff(
      fixed: seq<Message>, conversation: seq<Message>, budget: nat, left: nat)
    requires left <= |fixed|
    ensures
      var documented := DocumentedBudget(fixed, conversation, budget, left);
      KeepBudget(fixed, conversation, budget) == documented <==>
        Tokens(documented) <= budget || |documented| <= |fixed| + 1
  {
    LeftOut(fixed, left, conversation);
    if Tokens(fixed + conversation) <= budget || |conversation| <= 1 {
    } else if Tokens(fixed[left..] + conversation) <= budget {
      KeepBudgetLength(fixed, conversation[1..], budget);
    } else {
      DocumentedBudgetKeptIff(fixed, conversation[1..], budget, left);
    }
  }

  /** The messages of the prompt: the first of the System run, if there is one. */
  function Prompt(messages: seq<Message>): (n: nat)
    ensures n <= SystemRun(messages)
  {
    if SystemRun(messages) > 0 then 1 else 0
  }

  function DocumentedKept(messages: seq<Message>, budget: nat): seq<Message> {
    var n := SystemRun(messages);
    DocumentedBudget(messages[..n], messages[n..], budget, Prompt(messages))
  }

  /** With a prompt and two messages behind it, some budget tells the two apart. */
  lemma PromptCounts(fixed: seq<Message>, conversation: seq<Message>, left: nat) returns (budget: nat)
    requires 0 < left <= |fixed| && |conversation| > 1
    ensures KeepBudget(fixed, conversation, budget) != DocumentedBudget(fixed, conversation, budget, left)
  {
    LeftOut(fixed, left, conversation);
    budget := Tokens(fixed[left..] + conversation);
    DocumentedBudgetKeptIff(fixed, conversation, budget, left);
  }

  ghost predicate BudgetAsDocumented(messages: seq<Message>) {
    forall max, reserve ::
      Kept(TokenBudget(max, reserve), messages) == DocumentedKept(messages, SaturatingSub(max, reserve))
  }

  /**
   Whatever the budget, the code keeps what is documented exactly for the lists without a System message
   in front, or with at most one message behind the System run.
  */
  lemma TokenBudgetAsDocumentedIff(messages: seq<Message>)
    ensures BudgetAsDocumented(messages) <==> SystemRun(messages) == 0 || |messages| - SystemRun(messages) <= 1
  {
    var n, left := SystemRun(messages), Prompt(messages);
    if n == 0 || |messages| - n <= 1 {
      forall max, reserve
        ensures Kept(TokenBudget(max, reserve), messages) == DocumentedKept(messages, SaturatingSub(max, reserve))
      {
        SameWithoutPrompt(messages[..n], messages[n..], SaturatingSub(max, reserve), left);
        KeptByBudget(messages, max, reserve);
      }
    } else {
      var budget := PromptCounts(messages[..n], messages[n..], left);
      KeptByBudget(messages, budget, 0);
      assert Kept(TokenBudget(budget, 0), messages) != DocumentedKept(messages, SaturatingSub(budget, 0));
    }
  }

  /** The shortcut for lists of at most one message makes no difference. */
  lemma KeptByBudget(messages: seq<Message>, max: nat, reserve: nat)
    ensures
      var n := SystemRun(messages);
      Kept(TokenBudget(max, reserve), messages) == KeepBudget(messages[..n], messages[n..], SaturatingSub(max, reserve))
  {
    assert messages[..SystemRun(messages)] + messages[SystemRun(messages)..] == messages;
  }

  lemma {:induction false} SameWithoutPrompt(fixed: seq<Message>, conversation: seq<Message>, budget: nat, left: nat)
    requires left <= |fixed| && (fixed == [] || |conversation| <= 1)
    ensures KeepBudget(fixed, conversation, budget) == DocumentedBudget(fixed, conversation, budget, left)
  {
    if fixed == [] && |conversation| > 1 {
      assert fixed[left..] + conversation == fixed + conversation;
      SameWithoutPrompt(fixed, conversation[1..], budget, left);
    }
  }

  /** A prompt and two messages under a budget that the two fit exactly: one of them is dropped. */
  lemma PromptCostsAMessage(a: Message, b: Message, c: Message)
    requires a.role == System && b.role == User && c.role == User
    ensures
      var budget := Tokens([b, c]);
      && DocumentedKept([a, b, c], budget) == [a, b, c]
      && Kept(TokenBudget(budget, 0), [a, b, c]) == [a, c]
  {
    var messages, budget := [a, b, c], Tokens([b, c]);
    assert messages[1..] == [b, c] && messages[..1] == [a];
    assert SystemRun(messages[1..]) == 0 && SystemRun(messages) == 1;
    assert [a][1..] + [b, c] == [b, c];
    assert [a] + [b, c] == messages;
    LeftOut([a], 1, [b, c]);
    assert [b, c][1..] == [c] && [a] + [c] == [a, c];
    assert KeepBudget([a], [b, c], budget) == KeepBudget([a], [c], budget);
  }

  lemma {:induction false} SystemRunOfAppend(fixed: seq<Message>, tail: seq<Message>)
    requires forall i :: 0 <= i < |fixed| ==> fixed[i].role == System
    ensures SystemRun(fixed + tail) >= |fixed|
  {
    if fixed != [] {
      assert (fixed + tail)[1..] == fixed[1..] + tail;
      SystemRunOfAppend(fixed[1..], tail);
    }
  }

  // ----- every policy -----------------------------------------------------------------------------

  /** Applying a policy twice is applying it once. */
  lemma KeptIsIdempotent(policy: Policy, messages: seq<Message>)
    ensures Kept(policy, Kept(policy, messages)) == Kept(policy, messages)
  {
    var kept := Kept(policy, messages);
    if |messages| > 1 && |kept| > 1 {
      match policy {
        case FullReplay =>
        case SlidingTurns(turns) => SlidingComposes(messages, turns, turns);
        case TokenBudget(max, reserve) =>
          var n, budget := SystemRun(messages), SaturatingSub(max, reserve);
          var k := KeepBudgetIsLongest(messages[..n], messages[n..], budget);
          SystemRunOfAppend(messages[..n], messages[n..][k..]);
          BudgetLeavesAlone(kept, budget);
      }
    }
  }

  lemma SlidIsOneGap(messages: seq<Message>, turns: nat) returns (front: nat, back: nat)
    requires |messages| > 1
    ensures front <= back <= |messages| && Kept(SlidingTurns(turns), messages) == messages[..front] + messages[back..]
    ensures turns > 0 && front < back ==> front == SystemRun(messages)
  {
    front, back := 0, 0;
    if turns == 0 {
      front, back := 1, |messages|;
      assert messages[..1] + messages[|messages|..] == messages[..1];
    } else if NthLastUser(messages, ConversationStart(messages), turns).Some? {
      front := ConversationStart(messages);
      back := NthLastUser(messages, front, turns).value;
      NoUsersInSystemRun(messages, front, back);
    } else {
      assert messages[..0] + messages[0..] == messages;
    }
  }

  lemma BudgetIsOneGap(messages: seq<Message>, max: nat, reserve: nat) returns (front: nat, back: nat)
    requires |messages| > 1
    ensures front <= back <= |messages| && front == SystemRun(messages)
    ensures Kept(TokenBudget(max, reserve), messages) == messages[..front] + messages[back..]
  {
    front := SystemRun(messages);
    var k := KeepBudgetIsLongest(messages[..front], messages[front..], SaturatingSub(max, reserve));
    back := front + k;
    assert messages[front..][k..] == messages[back..];
  }

  /** Nothing is added or reordered: one stretch is removed, starting at the end of the kept front. */
  lemma KeptIsOneGap(policy: Policy, messages: seq<Message>) returns (front: nat, back: nat)
    ensures front <= back <= |messages| && Kept(policy, messages) == messages[..front] + messages[back..]
    ensures policy != SlidingTurns(0) && front < back ==> front == SystemRun(messages)
  {
    if |messages| > 1 && policy.SlidingTurns? {
      front, back := SlidIsOneGap(messages, policy.turns);
    } else if |messages| > 1 && policy.TokenBudget? {
      front, back := BudgetIsOneGap(messages, policy.maxTokens, policy.reserveForReply);
    } else {
      front, back := 0, 0;
      assert messages[..0] + messages[0..] == messages;
    }
  }

  lemma LeadingSystemSurvives(policy: Policy, messages: seq<Message>)
    requires messages != [] && messages[0].role == System
    ensures Kept(policy, messages) != [] && Kept(policy, messages)[0] == messages[0]
  {
    var front, back := KeptIsOneGap(policy, messages);
    if front == 0 && back > 0 {
      assert SystemRun(messages) > 0;
    }
  }

  /** The first System message of the list. */
  ghost predicate IsSystemPrompt(messages: seq<Message>, p: nat) {
    p < |messages| && messages[p].role == System && forall i :: 0 <= i < p ==> messages[i].role != System
  }

  /**
   The documented promise that the system prompt is never removed holds, over all
   policies, exactly for the lists that open with it (or have none).
  */
  lemma SystemPromptKeptIff(messages: seq<Message>, p: nat)
    requires IsSystemPrompt(messages, p)
    ensures (forall policy :: messages[p] in Kept(policy, messages)) <==> p == 0
  {
    if p == 0 {
      forall policy ensures messages[p] in Kept(policy, messages) {
        LeadingSystemSurvives(policy, messages);
      }
    } else {
      assert Kept(SlidingTurns(0), messages) == [messages[0]];
    }
  }
}
