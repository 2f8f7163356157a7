/** The chat message list builder (`MessageBuilder`). The tokenizer and the
    NFC normalizer are abstract: `tokens(s)` is the length of the encoding of
    `s` for the builder's model, and `normalize` stands for
    `unicodedata.normalize("NFC", ·)`. */
module Messages {

  /** One chat message: the values of its "role" and "content" keys. */
  datatype Message = Message(role: string, content: string)

  const SystemRole: string := "system"
  const UserRole: string := "user"
  const AssistantRole: string := "assistant"

  /** The position `list.insert(index, x)` puts `x` at in a list of length `n`:
      a negative index counts from the end and is clamped at 0, and an index
      past the end appends. */
  function InsertPosition(n: nat, index: int): (r: nat)
    ensures r <= n
    ensures 0 <= index <= n ==> r == index
    ensures index > n ==> r == n
    ensures index < 0 && n + index >= 0 ==> r == n + index
    ensures n + index < 0 ==> r == 0
  {
    if index < 0 then (if n + index < 0 then 0 else n + index)
    else if index > n then n
    else index
  }

  /** The list with `x` inserted at position `p`: one longer, `x` at `p`, and
      the other elements in their order around it. */
  function InsertAt<T>(s: seq<T>, p: nat, x: T): (r: seq<T>)
    requires p <= |s|
    ensures |r| == |s| + 1 && r[p] == x
    ensures r[..p] == s[..p] && r[p + 1..] == s[p..]
  {
    s[..p] + [x] + s[p..]
  }

  /** The list without the element at position `p`. */
  function RemoveAt<T>(s: seq<T>, p: nat): (r: seq<T>)
    requires p < |s|
    ensures |r| == |s| - 1
  {
    s[..p] + s[p + 1..]
  }

  /** Removing what was inserted gives the list back: every other element
      keeps its relative order. */
  lemma RemoveInserted<T>(s: seq<T>, p: nat, x: T)
    requires p <= |s|
    ensures RemoveAt(InsertAt(s, p, x), p) == s
  {
    var r := InsertAt(s, p, x);
    assert r[..p] + r[p + 1..] == s[..p] + s[p..];
    assert s[..p] + s[p..] == s;
  }

  /** Inserting right after a prefix puts the element between the prefix and
      the rest. */
  lemma InsertAfter<T>(head: seq<T>, x: T, tail: seq<T>)
    ensures InsertAt(head + tail, |head|, x) == head + ([x] + tail)
  {
    assert (head + tail)[..|head|] == head;
    assert (head + tail)[|head|..] == tail;
  }

  /** An insert at a position of at least 1 leaves the first element first. */
  lemma InsertKeepsFirst<T>(s: seq<T>, index: int, x: T)
    requires |s| >= 1 && index >= 1
    ensures InsertAt(s, InsertPosition(|s|, index), x)[0] == s[0]
  {
    var r := InsertAt(s, InsertPosition(|s|, index), x);
    assert r[..InsertPosition(|s|, index)][0] == s[..InsertPosition(|s|, index)][0];
  }

  /** The token count of a message as `num_tokens_from_messages` computes
      it: 2 for the keys, plus the encoded length of every value. */
  function TokenCount(tokens: string -> nat, values: seq<string>): (r: nat)
    ensures r >= 2
    decreases |values|
  {
    if values == [] then 2 else TokenCount(tokens, values[..|values| - 1]) + tokens(values[|values| - 1])
  }

  /** The values of a message, in key order. */
  function Values(m: Message): seq<string>
  {
    [m.role, m.content]
  }

  /** A message's count is 2 plus the encoded lengths of its role and content. */
  lemma MessageTokenCount(tokens: string -> nat, m: Message)
    ensures TokenCount(tokens, Values(m)) == 2 + tokens(m.role) + tokens(m.content)
  {
    assert Values(m)[..1] == [m.role];
    assert [m.role][..0] == [];
    assert TokenCount(tokens, [m.role]) == 2 + tokens(m.role);
  }

  /** `num_tokens_from_messages`: the sum over the message's values. */
  method NumTokensFromMessage(tokens: string -> nat, m: Message) returns (numTokens: nat)
    ensures numTokens == TokenCount(tokens, Values(m))
    ensures numTokens >= 2
  {
    var values := Values(m);
    numTokens := 2;
    for k := 0 to |values|
      invariant numTokens == TokenCount(tokens, values[..k])
    {
      assert values[..k + 1][..k] == values[..k];
      numTokens := numTokens + tokens(values[k]);
    }
    assert values[..|values|] == values;
  }

  class MessageBuilder {
    var messages: seq<Message>
    const normalize: string -> string
    const tokens: string -> nat

    /** A new builder holds exactly the system message, its content
        normalized. */
    constructor (systemContent: string, normalize: string -> string, tokens: string -> nat)
      ensures messages == [Message(SystemRole, normalize(systemContent))]
      ensures this.normalize == normalize && this.tokens == tokens
    {
      this.normalize := normalize;
      this.tokens := tokens;
      messages := [Message(SystemRole, normalize(systemContent))];
    }

    /** `insert_message`: the role as given and the content normalized, at
        the position `list.insert` uses for `index`. */
    method InsertMessage(role: string, content: string, index: int)
      modifies this
      ensures messages == InsertAt(old(messages), InsertPosition(|old(messages)|, index), Message(role, normalize(content)))
    {
      var p := InsertPosition(|messages|, index);
      messages := messages[..p] + [Message(role, normalize(content))] + messages[p..];
    }

    /** `count_tokens_for_message`, with the builder's model: 2 plus the
        encoded lengths of the role and the content. */
    method CountTokensForMessage(m: Message) returns (numTokens: nat)
      ensures numTokens == 2 + tokens(m.role) + tokens(m.content)
    {
      numTokens := NumTokensFromMessage(tokens, m);
      MessageTokenCount(tokens, m);
    }
  }
}
