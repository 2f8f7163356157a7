/** The retrieve-then-read chat (`Chat`): prompt assembly under a token budget,
    the choice of the search query, the source lines given to the model, the
    extraction of follow-up questions and the diversion of the streamed answer
    once follow-up questions start. The model calls, the search and the
    tokenizer are inputs. */
module Chat {
  import opened Strings
  import opened Messages
  import Utils

  /** `max_history_tokens`. */
  const MaxHistoryTokens: nat := 32000

  /** What the model answers when it cannot produce a search query. */
  const NoResponse: string := "0"

  // ---------------------------------------------------------------------------
  // get_messages_from_history

  /** The token count of one message: 2 for the keys plus the encoded
      lengths of its role and content, which is what `TokenCount` adds up
      (`MessageTokenCount`). */
  function Count(tokens: string -> nat, m: Message): nat
  {
    2 + tokens(m.role) + tokens(m.content)
  }

  /** The token counts of a list of messages, added up. */
  function SumTokens(tokens: string -> nat, ms: seq<Message>): nat
    decreases |ms|
  {
    if ms == [] then 0 else Count(tokens, ms[0]) + SumTokens(tokens, ms[1..])
  }

  lemma {:induction false} SumTokensConcat(tokens: string -> nat, a: seq<Message>, b: seq<Message>)
    ensures SumTokens(tokens, a + b) == SumTokens(tokens, a) + SumTokens(tokens, b)
    decreases |a|
  {
    if a != [] {
      assert (a + b)[0] == a[0];
      assert (a + b)[1..] == a[1..] + b;
      SumTokensConcat(tokens, a[1..], b);
    } else {
      assert a + b == b;
    }
  }

  /** How many of the newest messages of `prior[..n]` are kept: they are
      taken newest first while the running count stays within `budget`,
      stopping at the first one that would overflow it. */
  function Kept(tokens: string -> nat, prior: seq<Message>, n: nat, total: nat, budget: nat): (k: nat)
    requires n <= |prior|
    ensures k <= n
    decreases n
  {
    if n == 0 then 0
    else
      var c := Count(tokens, prior[n - 1]);
      if total + c > budget then 0 else 1 + Kept(tokens, prior, n - 1, total + c, budget)
  }

  /** The kept messages fit: with any message kept, the running count plus
      theirs stays within the budget. */
  lemma {:induction false} KeptWithinBudget(tokens: string -> nat, prior: seq<Message>, n: nat, total: nat, budget: nat)
    requires n <= |prior|
    ensures var k := Kept(tokens, prior, n, total, budget);
      k > 0 ==> total + SumTokens(tokens, prior[n - k..n]) <= budget
    decreases n
  {
    var k := Kept(tokens, prior, n, total, budget);
    if k > 0 {
      KeptWithinBudget(tokens, prior, n - 1, total + Count(tokens, prior[n - 1]), budget);
      SumSliceLast(tokens, prior, n - k, n);
    }
  }

  /** The count of `prior[i..n]` is that of `prior[i..n - 1]` plus the last
      one's. */
  lemma SumSliceLast(tokens: string -> nat, prior: seq<Message>, i: nat, n: nat)
    requires i < n <= |prior|
    ensures SumTokens(tokens, prior[i..n]) == SumTokens(tokens, prior[i..n - 1]) + Count(tokens, prior[n - 1])
  {
    assert prior[i..n] == prior[i..n - 1] + [prior[n - 1]];
    SumTokensConcat(tokens, prior[i..n - 1], [prior[n - 1]]);
    assert [prior[n - 1]][1..] == [];
  }

  /** The kept messages are as many as fit: the next older message would
      overflow the budget. */
  lemma {:induction false} KeptIsMaximal(tokens: string -> nat, prior: seq<Message>, n: nat, total: nat, budget: nat)
    requires n <= |prior|
    ensures var k := Kept(tokens, prior, n, total, budget);
      k < n ==> total + SumTokens(tokens, prior[n - k..n]) + Count(tokens, prior[n - k - 1]) > budget
    decreases n
  {
    var k := Kept(tokens, prior, n, total, budget);
    if k < n {
      var c := Count(tokens, prior[n - 1]);
      if total + c > budget {
        assert k == 0 && prior[n - k..n] == [];
        assert SumTokens(tokens, []) == 0;
      } else {
        KeptIsMaximal(tokens, prior, n - 1, total + c, budget);
        MaximalStep(tokens, prior, n, total, budget);
      }
    }
  }

  /** The bound of the count after one message carries over to the count
      with that message. */
  lemma MaximalStep(tokens: string -> nat, prior: seq<Message>, n: nat, total: nat, budget: nat)
    requires 0 < n <= |prior| && total + Count(tokens, prior[n - 1]) <= budget
    requires var c := Count(tokens, prior[n - 1]);
      var k := Kept(tokens, prior, n - 1, total + c, budget);
      k < n - 1 ==> total + c + SumTokens(tokens, prior[n - 1 - k..n - 1]) + Count(tokens, prior[n - 1 - k - 1]) > budget
    ensures var k := Kept(tokens, prior, n, total, budget);
      k < n ==> total + SumTokens(tokens, prior[n - k..n]) + Count(tokens, prior[n - k - 1]) > budget
  {
    var k := Kept(tokens, prior, n, total, budget);
    if k < n {
      var k' := Kept(tokens, prior, n - 1, total + Count(tokens, prior[n - 1]), budget);
      assert k == k' + 1;
      assert n - 1 - k' == n - k;
      SumSliceLast(tokens, prior, n - k, n);
    }
  }

  /** The messages with their contents normalized, roles unchanged. */
  function Normalized(normalize: string -> string, ms: seq<Message>): (r: seq<Message>)
    ensures |r| == |ms|
    decreases |ms|
  {
    if ms == [] then [] else [Message(ms[0].role, normalize(ms[0].content))] + Normalized(normalize, ms[1..])
  }

  lemma NormalizedCons(normalize: string -> string, ms: seq<Message>, i: nat)
    requires 0 < i <= |ms|
    ensures Normalized(normalize, ms[i - 1..]) == [Message(ms[i - 1].role, normalize(ms[i - 1].content))] + Normalized(normalize, ms[i..])
  {
    assert ms[i - 1..][1..] == ms[i..];
  }

  /** `history[:-1]`: every message but the new question. */
  function Prior(history: seq<Message>): seq<Message>
  {
    if history == [] then [] else history[..|history| - 1]
  }

  /** The list `get_messages_from_history` returns: the system message, the
      examples in their order, the kept history oldest first, and the user
      message last. The user message is counted after normalization and the
      history messages as given. */
  function HistoryMessages(normalize: string -> string, tokens: string -> nat, systemPrompt: string, history: seq<Message>,
                           userContent: string, fewShots: seq<Message>): seq<Message>
  {
    var prior := Prior(history);
    var user := Message(UserRole, normalize(userContent));
    var k := Kept(tokens, prior, |prior|, Count(tokens, user), MaxHistoryTokens);
    [Message(SystemRole, normalize(systemPrompt))] + Normalized(normalize, fewShots) + Normalized(normalize, prior[|prior| - k..]) + [user]
  }

  /** The examples, inserted in reverse right after the system message,
      end up in their order. */
  method AddFewShots(builder: MessageBuilder, fewShots: seq<Message>)
    requires |builder.messages| == 1
    modifies builder
    ensures builder.messages == old(builder.messages) + Normalized(builder.normalize, fewShots)
  {
    var i := |fewShots|;
    while i > 0
      invariant 0 <= i <= |fewShots|
      invariant builder.messages == old(builder.messages) + Normalized(builder.normalize, fewShots[i..])
    {
      NormalizedCons(builder.normalize, fewShots, i);
      InsertAfter(old(builder.messages), Message(fewShots[i - 1].role, builder.normalize(fewShots[i - 1].content)),
                  Normalized(builder.normalize, fewShots[i..]));
      builder.InsertMessage(fewShots[i - 1].role, fewShots[i - 1].content, 1);
      i := i - 1;
    }
    assert fewShots[0..] == fewShots;
  }

  /** The earlier history, taken newest first while the running count stays
      within the budget and each inserted in front of those already taken,
      ends up oldest first between `head` and the user message. */
  method AddHistory(builder: MessageBuilder, head: seq<Message>, user: Message, prior: seq<Message>, userTokens: nat)
    requires builder.messages == head + [user]
    modifies builder
    ensures var k := Kept(builder.tokens, prior, |prior|, userTokens, MaxHistoryTokens);
      builder.messages == head + (Normalized(builder.normalize, prior[|prior| - k..]) + [user])
  {
    var totalTokenCount: nat := userTokens;
    var j := |prior|;
    ghost var tokens := builder.tokens;
    ghost var normalize := builder.normalize;
    ghost var kept := Kept(tokens, prior, |prior|, userTokens, MaxHistoryTokens);
    assert prior[j..] == [];
    while j > 0
      invariant 0 <= j <= |prior|
      invariant builder.messages == head + (Normalized(normalize, prior[j..]) + [user])
      invariant KeptSoFar(tokens, prior, j, totalTokenCount, kept)
    {
      var message := prior[j - 1];
      var potentialMessageCount := builder.CountTokensForMessage(message);
      if totalTokenCount + potentialMessageCount > MaxHistoryTokens {
        break;
      }
      InsertOlder(builder, head, user, prior, j);
      KeptAdvance(tokens, prior, j, totalTokenCount, potentialMessageCount, kept);
      totalTokenCount := totalTokenCount + potentialMessageCount;
      j := j - 1;
    }
  }

  /** `kept` messages of `prior` fit in all: the `|prior| - j` newest already
      taken, and as many more as fit after `total` tokens. */
  ghost predicate KeptSoFar(tokens: string -> nat, prior: seq<Message>, j: nat, total: nat, kept: nat)
    requires j <= |prior|
  {
    kept == (|prior| - j) + Kept(tokens, prior, j, total, MaxHistoryTokens)
  }

  /** A message that fits is kept, and the count goes on from the one
      before it. */
  lemma KeptAdvance(tokens: string -> nat, prior: seq<Message>, j: nat, total: nat, c: nat, kept: nat)
    requires 0 < j <= |prior| && c == Count(tokens, prior[j - 1]) && total + c <= MaxHistoryTokens
    requires KeptSoFar(tokens, prior, j, total, kept)
    ensures KeptSoFar(tokens, prior, j - 1, total + c, kept)
  {
  }

  /** The insert of one older history message, right after `head`. */
  method InsertOlder(builder: MessageBuilder, head: seq<Message>, user: Message, prior: seq<Message>, j: nat)
    requires 0 < j <= |prior|
    requires builder.messages == head + (Normalized(builder.normalize, prior[j..]) + [user])
    modifies builder
    ensures builder.messages == head + (Normalized(builder.normalize, prior[j - 1..]) + [user])
  {
    InsertHistoryStep(builder.normalize, head, prior, j, user);
    builder.InsertMessage(prior[j - 1].role, prior[j - 1].content, |head|);
  }

  /** Inserting the next older message right after `head` extends the kept
      history at its old end. */
  lemma InsertHistoryStep(normalize: string -> string, head: seq<Message>, prior: seq<Message>, j: nat, user: Message)
    requires 0 < j <= |prior|
    ensures InsertAt(head + (Normalized(normalize, prior[j..]) + [user]),
                     InsertPosition(|head + (Normalized(normalize, prior[j..]) + [user])|, |head|),
                     Message(prior[j - 1].role, normalize(prior[j - 1].content)))
         == head + (Normalized(normalize, prior[j - 1..]) + [user])
  {
    NormalizedCons(normalize, prior, j);
    InsertAfter(head, Message(prior[j - 1].role, normalize(prior[j - 1].content)), Normalized(normalize, prior[j..]) + [user]);
  }

  /** `get_messages_from_history`, on a `MessageBuilder`: the examples are
      inserted after the system message in reverse, the user message after
      them, and the history newest first at that same position. */
  method GetMessagesFromHistory(normalize: string -> string, tokens: string -> nat, systemPrompt: string,
                                history: seq<Message>, userContent: string, fewShots: seq<Message>)
    returns (messages: seq<Message>)
    ensures messages == HistoryMessages(normalize, tokens, systemPrompt, history, userContent, fewShots)
  {
    var builder := StartPrompt(normalize, tokens, systemPrompt, userContent, fewShots);
    var head := [Message(SystemRole, normalize(systemPrompt))] + Normalized(normalize, fewShots);
    var user := builder.messages[|builder.messages| - 1];
    assert user == Message(UserRole, normalize(userContent));
    var totalTokenCount := builder.CountTokensForMessage(user);
    var prior := if history == [] then [] else history[..|history| - 1];
    assert prior == Prior(history);
    AddHistory(builder, head, user, prior, totalTokenCount);
    messages := builder.messages;
    PromptAssembled(messages, builder.normalize, builder.tokens, systemPrompt, history, userContent, fewShots, head, user, prior,
                    totalTokenCount);
  }

  /** The list the builder ends with is the prompt `HistoryMessages`
      describes. */
  lemma PromptAssembled(messages: seq<Message>, normalize: string -> string, tokens: string -> nat, systemPrompt: string,
                        history: seq<Message>, userContent: string, fewShots: seq<Message>,
                        head: seq<Message>, user: Message, prior: seq<Message>, userTokens: nat)
    requires head == [Message(SystemRole, normalize(systemPrompt))] + Normalized(normalize, fewShots)
    requires user == Message(UserRole, normalize(userContent)) && userTokens == Count(tokens, user)
    requires prior == Prior(history)
    requires var k := Kept(tokens, prior, |prior|, userTokens, MaxHistoryTokens);
      messages == head + (Normalized(normalize, prior[|prior| - k..]) + [user])
    ensures messages == HistoryMessages(normalize, tokens, systemPrompt, history, userContent, fewShots)
  {
    HistoryMessagesParts(normalize, tokens, systemPrompt, history, userContent, fewShots);
  }

  /** The builder before the history goes in: the system message, the
      examples and the user message. */
  method StartPrompt(normalize: string -> string, tokens: string -> nat, systemPrompt: string, userContent: string,
                     fewShots: seq<Message>)
    returns (builder: MessageBuilder)
    ensures fresh(builder) && builder.normalize == normalize && builder.tokens == tokens
    ensures builder.messages == [Message(SystemRole, normalize(systemPrompt))] + Normalized(normalize, fewShots)
                                + [Message(UserRole, normalize(userContent))]
  {
    builder := new MessageBuilder(systemPrompt, normalize, tokens);
    AddFewShots(builder, fewShots);
    var head := builder.messages;
    var appendIndex := |fewShots| + 1;
    InsertAfter(head, Message(UserRole, normalize(userContent)), []);
    builder.InsertMessage(UserRole, userContent, appendIndex);
  }

  /** The prompt as the builder assembles it: the system message and the
      examples, then the kept history and the user message. */
  lemma HistoryMessagesParts(normalize: string -> string, tokens: string -> nat, systemPrompt: string, history: seq<Message>,
                             userContent: string, fewShots: seq<Message>)
    ensures var prior := Prior(history);
      var user := Message(UserRole, normalize(userContent));
      var k := Kept(tokens, prior, |prior|, Count(tokens, user), MaxHistoryTokens);
      HistoryMessages(normalize, tokens, systemPrompt, history, userContent, fewShots)
        == ([Message(SystemRole, normalize(systemPrompt))] + Normalized(normalize, fewShots))
           + (Normalized(normalize, prior[|prior| - k..]) + [user])
  {
  }

  lemma Parts<T>(a: seq<T>, b: seq<T>, c: seq<T>, d: T)
    ensures var r := a + b + c + [d];
      && |r| == |a| + |b| + |c| + 1
      && r[..|a|] == a && r[|a|..|a| + |b|] == b && r[|a| + |b|..|r| - 1] == c && r[|r| - 1] == d
  {
    var r := a + b + c + [d];
    assert r[..|a|] == a;
    assert r[|a|..|a| + |b|] == b;
    assert r[|a| + |b|..|r| - 1] == c;
  }

  /** The prompt keeps the system message first, the examples next in their
      order and the user message last; between them is a contiguous newest
      part of the earlier history, oldest first. */
  lemma HistoryMessagesShape(normalize: string -> string, tokens: string -> nat, systemPrompt: string, history: seq<Message>,
                             userContent: string, fewShots: seq<Message>)
    ensures var r := HistoryMessages(normalize, tokens, systemPrompt, history, userContent, fewShots);
      var prior := Prior(history);
      var k := |r| - |fewShots| - 2;
      && 0 <= k <= |prior|
      && r[0] == Message(SystemRole, normalize(systemPrompt))
      && r[1..1 + |fewShots|] == Normalized(normalize, fewShots)
      && r[1 + |fewShots|..|r| - 1] == Normalized(normalize, prior[|prior| - k..])
      && r[|r| - 1] == Message(UserRole, normalize(userContent))
  {
    var prior := Prior(history);
    var user := Message(UserRole, normalize(userContent));
    var k := Kept(tokens, prior, |prior|, Count(tokens, user), MaxHistoryTokens);
    var shots := Normalized(normalize, fewShots);
    var kept := Normalized(normalize, prior[|prior| - k..]);
    Parts([Message(SystemRole, normalize(systemPrompt))], shots, kept, user);
  }

  /** The number of history messages in the prompt is `Kept`. */
  lemma HistoryMessagesLength(normalize: string -> string, tokens: string -> nat, systemPrompt: string, history: seq<Message>,
                              userContent: string, fewShots: seq<Message>)
    ensures |HistoryMessages(normalize, tokens, systemPrompt, history, userContent, fewShots)| - |fewShots| - 2
         == Kept(tokens, Prior(history), |Prior(history)|, Count(tokens, Message(UserRole, normalize(userContent))), MaxHistoryTokens)
  {
  }

  /** The kept history together with the user message fits into 32000
      tokens whenever any of it is kept, and the next older message would not
      have fitted. */
  lemma HistoryWithinBudget(normalize: string -> string, tokens: string -> nat, systemPrompt: string, history: seq<Message>,
                            userContent: string, fewShots: seq<Message>)
    ensures var r := HistoryMessages(normalize, tokens, systemPrompt, history, userContent, fewShots);
      var prior := Prior(history);
      var user := Message(UserRole, normalize(userContent));
      var k := |r| - |fewShots| - 2;
      && (k > 0 ==> Count(tokens, user) + SumTokens(tokens, prior[|prior| - k..]) <= MaxHistoryTokens)
      && (0 <= k < |prior| ==> Count(tokens, user) + SumTokens(tokens, prior[|prior| - k..]) + Count(tokens, prior[|prior| - k - 1]) > MaxHistoryTokens)
  {
    var user := Message(UserRole, normalize(userContent));
    var prior := Prior(history);
    HistoryMessagesLength(normalize, tokens, systemPrompt, history, userContent, fewShots);
    KeptWithinBudget(tokens, prior, |prior|, Count(tokens, user), MaxHistoryTokens);
    KeptIsMaximal(tokens, prior, |prior|, Count(tokens, user), MaxHistoryTokens);
    var k := Kept(tokens, prior, |prior|, Count(tokens, user), MaxHistoryTokens);
    assert prior[|prior| - k..] == prior[|prior| - k..|prior|];
  }

  // ---------------------------------------------------------------------------
  // get_search_query

  /** A `search_sources` function call, with its `search_query` argument if
      it has one. */
  datatype FunctionCall = FunctionCall(name: string, searchQuery: Option<string>)

  /** The first choice's message of the query completion. */
  datatype ResponseMessage = ResponseMessage(functionCall: Option<FunctionCall>, content: Option<string>)

  /** `get_search_query`: the function call's query, else the message text,
      else the user's question; "0" from the model means no query. */
  function GetSearchQuery(response: ResponseMessage, userQuery: string): (r: string)
    ensures response.functionCall.Some? && response.functionCall.value.name == "search_sources"
            && response.functionCall.value.searchQuery.Some? && response.functionCall.value.searchQuery.value != NoResponse
            ==> r == response.functionCall.value.searchQuery.value
    ensures response.functionCall.None? && response.content.Some? && response.content.value != ""
            && Strip(response.content.value) != NoResponse
            ==> r == response.content.value
    ensures response.functionCall.Some?
            && (|| response.functionCall.value.name != "search_sources"
                || response.functionCall.value.searchQuery.None?
                || response.functionCall.value.searchQuery.value == NoResponse)
            ==> r == userQuery
    ensures response.functionCall.None?
            && (response.content.None? || response.content.value == "" || Strip(response.content.value) == NoResponse)
            ==> r == userQuery
  {
    match response.functionCall
    case Some(call) =>
      var query := if call.searchQuery.Some? then call.searchQuery.value else NoResponse;
      if call.name == "search_sources" && query != NoResponse then query else userQuery
    case None =>
      if response.content.Some? && response.content.value != "" && Strip(response.content.value) != NoResponse
      then response.content.value
      else userQuery
  }

  /** The model's "0" is never searched for, unless the user asked exactly "0". */
  lemma SearchQueryIsNeverNoResponse(response: ResponseMessage, userQuery: string)
    ensures GetSearchQuery(response, userQuery) == NoResponse ==> userQuery == NoResponse
  {
    if response.functionCall.None? && response.content.Some? && response.content.value == NoResponse {
      assert Strip(NoResponse) == NoResponse;
    }
  }

  // ---------------------------------------------------------------------------
  // Sources in the prompt

  /** One search result as given to the model: its source page, then its
      captions joined by " . " with line breaks blanked. */
  function SourceLine(sourcepage: string, captions: seq<string>): string
  {
    sourcepage + ": " + Utils.NonNewlines(Join(captions, " . "))
  }

  /** The final user message: the question, then the source lines one per line. */
  function UserContent(originalQuery: string, lines: seq<string>): string
  {
    originalQuery + "\n\nSources:\n" + Join(lines, "\n")
  }

  /** A source line is one line when its source page is. */
  lemma SourceLineIsOneLine(sourcepage: string, captions: seq<string>)
    requires NoChar(sourcepage, '\n')
    ensures NoChar(SourceLine(sourcepage, captions), '\n')
    ensures StartsWith(SourceLine(sourcepage, captions), sourcepage + ": ")
  {
    var text := Utils.NonNewlines(Join(captions, " . "));
    var line := SourceLine(sourcepage, captions);
    forall j | 0 <= j < |line| ensures line[j] != '\n' {
      if j >= |sourcepage| + 2 {
        assert line[j] == text[j - |sourcepage| - 2];
      }
    }
  }

  /** The sources part of the user message splits back, line by line, into
      the source lines. */
  lemma SourcesSplitBack(originalQuery: string, sourcepages: seq<string>, captions: seq<seq<string>>)
    requires |sourcepages| == |captions| >= 1
    requires forall k :: 0 <= k < |sourcepages| ==> NoChar(sourcepages[k], '\n')
    ensures var lines := seq(|sourcepages|, k requires 0 <= k < |sourcepages| => SourceLine(sourcepages[k], captions[k]));
      && EndsWith(UserContent(originalQuery, lines), Join(lines, "\n"))
      && Split(Join(lines, "\n"), '\n') == lines
  {
    var lines := seq(|sourcepages|, k requires 0 <= k < |sourcepages| => SourceLine(sourcepages[k], captions[k]));
    forall k | 0 <= k < |lines| ensures NoChar(lines[k], '\n') {
      SourceLineIsOneLine(sourcepages[k], captions[k]);
    }
    SplitJoin(lines, '\n');
    var content := UserContent(originalQuery, lines);
    assert content[|content| - |Join(lines, "\n")|..] == Join(lines, "\n");
  }

  // ---------------------------------------------------------------------------
  // extract_followup_questions

  const Open: string := "<<"
  const Close: string := ">>"

  /** `content.split("<<")[0]`: the text before the first "<<". */
  function TextBeforeFollowups(content: string): (r: string)
    ensures StartsWith(content, r)
    ensures !Contains(r, Open)
    ensures r == content || OccursAt(content, Open, |r|)
    ensures !Contains(content, Open) ==> r == content
  {
    var i := IndexOf(content, Open);
    if i < 0 then content
    else
      var r := content[..i];
      assert forall j :: OccursAt(r, Open, j) ==> OccursAt(content, Open, j);
      r
  }

  /** Where a match of `<<([^>]+)>>` at `i` ends its group: at the first '>'
      after the "<<", which must leave the group non-empty and begin ">>". */
  function MatchAt(s: string, i: nat): (e: Option<nat>)
    ensures e.Some? ==> i + 2 < e.value && e.value + 2 <= |s| && OccursAt(s, Open, i) && OccursAt(s, Close, e.value)
  {
    if !OccursAt(s, Open, i) then None
    else
      var e := IndexFrom(s, ">", i + 2);
      if e > i + 2 && OccursAt(s, Close, e) then Some(e) else None
  }

  /** A match's group holds no '>'. */
  lemma MatchGroupHasNoClose(s: string, i: nat)
    requires MatchAt(s, i).Some?
    ensures NoChar(s[i + 2..MatchAt(s, i).value], '>')
  {
    var e := MatchAt(s, i).value;
    forall j | i + 2 <= j < e ensures s[j] != '>' {
      OccursAtChar(s, '>', j);
    }
  }

  /** `re.findall(r"<<([^>>]+)>>", s)`: the groups of the non-overlapping
      matches, left to right; after a match the scan goes on behind its
      ">>", and elsewhere one character further. */
  function FindFollowups(s: string): (r: seq<string>)
    ensures forall k :: 0 <= k < |r| ==> |r[k]| > 0 && NoChar(r[k], '>')
    decreases |s|
  {
    if s == [] then []
    else
      match MatchAt(s, 0)
      case Some(e) =>
        MatchGroupHasNoClose(s, 0);
        [s[2..e]] + FindFollowups(s[e + 2..])
      case None => FindFollowups(s[1..])
  }

  /** `extract_followup_questions`. */
  function ExtractFollowupQuestions(content: string): (string, seq<string>)
  {
    (TextBeforeFollowups(content), FindFollowups(content))
  }

  /** The text the model is asked to end with: each question in double angle
      brackets. */
  function Questions(qs: seq<string>): string
  {
    if qs == [] then "" else Open + qs[0] + Close + Questions(qs[1..])
  }

  /** Questions written in double angle brackets are found again, in order,
      when none is empty or holds a '>'. */
  lemma {:induction false} FollowupsRoundTrip(qs: seq<string>)
    requires forall k :: 0 <= k < |qs| ==> |qs[k]| > 0 && NoChar(qs[k], '>')
    ensures FindFollowups(Questions(qs)) == qs
    decreases |qs|
  {
    if qs != [] {
      assert forall k :: 0 <= k < |qs| - 1 ==> qs[1..][k] == qs[k + 1];
      FollowupsRoundTrip(qs[1..]);
      RoundTripStep(qs[0], Questions(qs[1..]), qs[1..]);
      assert qs == [qs[0]] + qs[1..];
    }
  }

  /** One more question in front is found first, before the others. */
  lemma RoundTripStep(q: string, rest: string, found: seq<string>)
    requires |q| > 0 && NoChar(q, '>')
    requires FindFollowups(rest) == found
    ensures FindFollowups(Open + q + Close + rest) == [q] + found
  {
    var s := Open + q + Close + rest;
    QuestionMatch(q, rest);
    assert s[|q| + 4..] == rest;
  }

  /** A question in double angle brackets is matched at the start, its group
      being the question. */
  lemma QuestionMatch(q: string, rest: string)
    requires |q| > 0 && NoChar(q, '>')
    ensures var s := Open + q + Close + rest;
      MatchAt(s, 0) == Some(|q| + 2) && s[2..|q| + 2] == q
  {
    var s := Open + q + Close + rest;
    assert OccursAt(s, Open, 0) by {
      assert s[0..2] == Open;
    }
    var e := |q| + 2;
    assert forall j :: 2 <= j < e ==> !OccursAt(s, ">", j) by {
      forall j | 2 <= j < e ensures !OccursAt(s, ">", j) {
        assert s[j] == q[j - 2];
        OccursAtChar(s, '>', j);
      }
    }
    assert OccursAt(s, ">", e) by {
      assert s[e] == '>';
      OccursAtChar(s, '>', e);
    }
    assert IndexFrom(s, ">", 2) == e;
    assert OccursAt(s, Close, e) by {
      assert s[e..e + 2] == Close;
    }
    assert s[2..e] == q;
  }

  /** Without a "<<" there is nothing before the questions to cut and no
      question. */
  lemma NoMarkerNoQuestions(content: string)
    requires !Contains(content, Open)
    ensures ExtractFollowupQuestions(content) == (content, [])
  {
    NoMatchFrom(content);
  }

  lemma {:induction false} NoMatchFrom(s: string)
    requires forall j :: !OccursAt(s, Open, j)
    ensures FindFollowups(s) == []
    decreases |s|
  {
    if s != [] {
      forall j ensures !OccursAt(s[1..], Open, j) {
        OccursAtTail(s, Open, j);
      }
      NoMatchFrom(s[1..]);
    }
  }

  /** An occurrence in the tail is one position further in the whole. */
  lemma OccursAtTail(s: string, pat: string, j: int)
    requires s != []
    ensures OccursAt(s[1..], pat, j) ==> OccursAt(s, pat, j + 1)
  {
    if 0 <= j && j + |pat| <= |s| - 1 {
      assert s[1..][j..j + |pat|] == s[j + 1..j + 1 + |pat|];
    }
  }

  // ---------------------------------------------------------------------------
  // run_with_streaming

  /** A streamed completion event: the `delta.content` of each of its choices. */
  datatype ChatEvent = ChatEvent(choices: seq<Option<string>>)

  /** What `run_until_final_call` reports alongside the answer. */
  datatype ExtraInfo = ExtraInfo(dataPoints: seq<string>, thoughts: string)

  /** What the stream yields: the opening context event (role "assistant",
      finish_reason None), a completion event passed on, or the closing
      follow-up questions event. */
  datatype StreamEvent =
    | ContextEvent(context: ExtraInfo, sessionState: Option<string>)
    | Forwarded(event: ChatEvent)
    | FollowupEvent(questions: seq<string>)

  /** `event.choices[0].delta.content or ""`. */
  function Content(e: ChatEvent): string
    requires e.choices != []
  {
    if e.choices[0].Some? then e.choices[0].value else ""
  }

  /** The event with its first choice's content replaced. */
  function WithContent(e: ChatEvent, content: string): (r: ChatEvent)
    requires e.choices != []
    ensures r.choices != [] && Content(r) == content
  {
    ChatEvent(e.choices[0 := Some(content)])
  }

  /** The loop state: the events passed on so far, whether follow-up
      questions have started, and the text held back for them. */
  datatype Diversion = Diversion(forwarded: seq<ChatEvent>, started: bool, followup: string)

  /** One turn of the loop over the completion events. */
  function Step(d: Diversion, e: ChatEvent, suggestFollowups: bool): Diversion
  {
    if e.choices == [] then d
    else
      var content := Content(e);
      if suggestFollowups && Contains(content, Open) then
        var i := IndexOf(content, Open);
        var earlier := content[..i];
        Diversion(d.forwarded + (if earlier != "" then [WithContent(e, earlier)] else []), true, d.followup + content[i..])
      else if d.started then Diversion(d.forwarded, true, d.followup + content)
      else Diversion(d.forwarded + [e], d.started, d.followup)
  }

  /** The loop state after all the events. */
  function Divert(events: seq<ChatEvent>, suggestFollowups: bool): Diversion
    decreases |events|
  {
    if events == [] then Diversion([], false, "")
    else Step(Divert(events[..|events| - 1], suggestFollowups), events[|events| - 1], suggestFollowups)
  }

  /** Everything the stream yields. */
  function Stream(extra: ExtraInfo, sessionState: Option<string>, events: seq<ChatEvent>, suggestFollowups: bool): seq<StreamEvent>
  {
    var d := Divert(events, suggestFollowups);
    [ContextEvent(extra, sessionState)]
      + ForwardedEvents(d.forwarded)
      + (if d.followup != "" then [FollowupEvent(ExtractFollowupQuestions(d.followup).1)] else [])
  }

  /** The completion events passed on, in order. */
  function ForwardedEvents(forwarded: seq<ChatEvent>): (r: seq<StreamEvent>)
    ensures |r| == |forwarded| && forall k :: 0 <= k < |r| ==> r[k] == Forwarded(forwarded[k])
  {
    seq(|forwarded|, k requires 0 <= k < |forwarded| => Forwarded(forwarded[k]))
  }

  lemma ForwardedEventsAppend(forwarded: seq<ChatEvent>, passed: seq<ChatEvent>)
    ensures ForwardedEvents(forwarded + passed) == ForwardedEvents(forwarded) + ForwardedEvents(passed)
  {
    assert forall k :: 0 <= k < |passed| ==> (forwarded + passed)[|forwarded| + k] == passed[k];
  }

  /** `run_with_streaming` after the final call: the context event, then the
      completion events with the follow-up questions held back, then the
      questions. */
  method RunWithStreaming(extra: ExtraInfo, sessionState: Option<string>, events: seq<ChatEvent>, suggestFollowups: bool)
    returns (out: seq<StreamEvent>)
    ensures out == Stream(extra, sessionState, events, suggestFollowups)
  {
    out := [ContextEvent(extra, sessionState)];
    var followupQuestionsStarted := false;
    var followupContent := "";
    ghost var forwarded: seq<ChatEvent> := [];
    for i := 0 to |events|
      invariant Divert(events[..i], suggestFollowups) == Diversion(forwarded, followupQuestionsStarted, followupContent)
      invariant out == [ContextEvent(extra, sessionState)] + ForwardedEvents(forwarded)
    {
      assert events[..i + 1][..i] == events[..i];
      var passed;
      passed, followupQuestionsStarted, followupContent :=
        NextEvent(forwarded, followupQuestionsStarted, followupContent, events[i], suggestFollowups);
      ForwardedEventsAppend(forwarded, passed);
      out := out + ForwardedEvents(passed);
      forwarded := forwarded + passed;
    }
    assert events[..|events|] == events;
    if followupContent != "" {
      var questions := ExtractFollowupQuestions(followupContent).1;
      out := out + [FollowupEvent(questions)];
    }
  }

  /** One turn of the loop: the event passed on, if any, and the new state of
      the follow-up text. */
  method NextEvent(ghost forwarded: seq<ChatEvent>, followupQuestionsStarted: bool, followupContent: string,
                   event: ChatEvent, suggestFollowups: bool)
    returns (passed: seq<ChatEvent>, started: bool, followup: string)
    ensures |passed| <= 1
    ensures Step(Diversion(forwarded, followupQuestionsStarted, followupContent), event, suggestFollowups)
         == Diversion(forwarded + passed, started, followup)
  {
    passed, started, followup := [], followupQuestionsStarted, followupContent;
    if event.choices != [] {
      var content := if event.choices[0].Some? then event.choices[0].value else "";
      if suggestFollowups && Contains(content, Open) {
        started := true;
        var earlierContent := content[..IndexOf(content, Open)];
        if earlierContent != "" {
          passed := [ChatEvent(event.choices[0 := Some(earlierContent)])];
        }
        followup := followupContent + content[IndexOf(content, Open)..];
      } else if followupQuestionsStarted {
        followup := followupContent + content;
      } else {
        passed := [event];
      }
    }
  }

  /** The stream opens with its only context event, carrying the session
      state, and closes with a follow-up event, its only one, exactly when
      some text was held back. */
  lemma StreamFraming(extra: ExtraInfo, sessionState: Option<string>, events: seq<ChatEvent>, suggestFollowups: bool)
    ensures var out := Stream(extra, sessionState, events, suggestFollowups);
      var d := Divert(events, suggestFollowups);
      && out[0] == ContextEvent(extra, sessionState)
      && (forall k :: 0 < k < |out| ==> !out[k].ContextEvent?)
      && (out[|out| - 1].FollowupEvent? <==> d.followup != "")
      && (forall k :: 0 <= k < |out| - 1 ==> !out[k].FollowupEvent?)
      && |out| == 1 + |d.forwarded| + (if d.followup != "" then 1 else 0)
  {
  }

  /** Diversion inserts nothing: an event without choices is dropped. */
  lemma EventWithoutChoicesIsDropped(d: Diversion, e: ChatEvent, suggestFollowups: bool)
    requires e.choices == []
    ensures Step(d, e, suggestFollowups) == d
  {
  }

  /** Once follow-up questions have started, an event without "<<" is held
      back, not passed on. */
  lemma HeldBackOnceStarted(d: Diversion, e: ChatEvent, suggestFollowups: bool)
    requires d.started && e.choices != [] && !Contains(Content(e), Open)
    ensures Step(d, e, suggestFollowups).forwarded == d.forwarded
    ensures Step(d, e, suggestFollowups).followup == d.followup + Content(e)
  {
  }

  /** An event with "<<" passes on only its text before the first "<<", and
      only when that text is not empty; the rest is held back. */
  lemma MarkerCutsEvent(d: Diversion, e: ChatEvent)
    requires e.choices != [] && Contains(Content(e), Open)
    ensures var next := Step(d, e, true);
      var before := TextBeforeFollowups(Content(e));
      && next.started
      && next.forwarded == d.forwarded + (if before != "" then [WithContent(e, before)] else [])
      && next.followup == d.followup + Content(e)[|before|..]
  {
  }

  lemma {:induction false} EventsWithChoicesOrder(events: seq<ChatEvent>)
    ensures |WithChoices(events)| <= |events|
    decreases |events|
  {
    if events != [] {
      EventsWithChoicesOrder(events[..|events| - 1]);
    }
  }

  /** The events that have choices, in order. */
  function WithChoices(events: seq<ChatEvent>): seq<ChatEvent>
    decreases |events|
  {
    if events == [] then []
    else WithChoices(events[..|events| - 1]) + (if events[|events| - 1].choices != [] then [events[|events| - 1]] else [])
  }

  /** With follow-up suggestions off, every event with choices is passed on
      unchanged and nothing is held back. */
  lemma {:induction false} NoSuggestionsForwardsAll(events: seq<ChatEvent>)
    ensures Divert(events, false) == Diversion(WithChoices(events), false, "")
    decreases |events|
  {
    if events != [] {
      NoSuggestionsForwardsAll(events[..|events| - 1]);
    }
  }

  /** With follow-up suggestions on, no event passed on shows a "<<". */
  lemma {:induction false} ForwardedShowNoMarker(events: seq<ChatEvent>)
    ensures forall k :: 0 <= k < |Divert(events, true).forwarded| ==>
      Divert(events, true).forwarded[k].choices != [] && !Contains(Content(Divert(events, true).forwarded[k]), Open)
    decreases |events|
  {
    if events != [] {
      var e := events[|events| - 1];
      ForwardedShowNoMarker(events[..|events| - 1]);
      if e.choices != [] && Contains(Content(e), Open) {
        var before := TextBeforeFollowups(Content(e));
        assert before == Content(e)[..IndexOf(Content(e), Open)];
      }
    }
  }
}
