/**
 * The chat bookkeeping and the source display of the web front end: the
 * session's ordered chat history with its current chat, the label each chat
 * gets in the sidebar, and the abstract snippet shown for a source.
 */
module App {
  import opened Text

  /** One stored chat message; `role` and `content` may be missing. */
  datatype Message = Message(role: Option<string>, content: Option<string>)

  /** A dict from chat id to messages, keeping its insertion order. */
  datatype History = History(order: seq<string>, chats: map<string, seq<Message>>)

  predicate Distinct(xs: seq<string>) {
    forall i, j :: 0 <= i < j < |xs| ==> xs[i] != xs[j]
  }

  /** The order lists each key of the dict exactly once. */
  ghost predicate WellFormed(h: History) {
    Distinct(h.order) && forall k :: k in h.chats <==> k in h.order
  }

  /** The dict `{"chat_1": []}`. */
  const FirstChat: History := History(["chat_1"], map["chat_1" := []])

  /** `h[k] = v`: a new key goes last, an existing key keeps its place and
      loses its old value. */
  function Put(h: History, k: string, v: seq<Message>): (r: History)
    ensures WellFormed(h) ==> WellFormed(r)
    ensures k in r.chats && r.chats[k] == v
    ensures forall c :: c != k ==> (c in r.chats <==> c in h.chats) && (c in h.chats ==> r.chats[c] == h.chats[c])
    ensures h.order <= r.order && (k in h.order ==> r.order == h.order)
  {
    History(if k in h.order then h.order else h.order + [k], h.chats[k := v])
  }

  /** The place of `k` in `xs`. */
  function IndexOf(xs: seq<string>, k: string): (i: nat)
    requires k in xs
    ensures i < |xs| && xs[i] == k && forall j :: 0 <= j < i ==> xs[j] != k
  {
    if xs[0] == k then 0 else 1 + IndexOf(xs[1..], k)
  }

  /** Dropping the element at `i` of a list without repeats drops exactly
      that element. */
  lemma DropAt(xs: seq<string>, i: nat)
    requires Distinct(xs) && i < |xs|
    ensures Distinct(xs[..i] + xs[i + 1..])
    ensures forall c :: c in xs[..i] + xs[i + 1..] <==> c in xs && c != xs[i]
  {
    var ys := xs[..i] + xs[i + 1..];
    assert forall j :: 0 <= j < |ys| ==> ys[j] == if j < i then xs[j] else xs[j + 1];
    forall c | c in xs && c != xs[i]
      ensures c in ys
    {
      var j :| 0 <= j < |xs| && xs[j] == c;
      assert ys[if j < i then j else j - 1] == c;
    }
  }

  /** `del h[k]`: the other keys keep their values and their order. */
  function Remove(h: History, k: string): (r: History)
    requires k in h.order
    ensures r.chats == h.chats - {k} && |r.order| == |h.order| - 1
  {
    var i := IndexOf(h.order, k);
    History(h.order[..i] + h.order[i + 1..], h.chats - {k})
  }

  /** Removing a key keeps the dict well formed and drops just that key
      from the order. */
  lemma RemoveWellFormed(h: History, k: string)
    requires WellFormed(h) && k in h.order
    ensures WellFormed(Remove(h, k))
    ensures forall c :: c in Remove(h, k).order <==> c in h.order && c != k
  {
    DropAt(h.order, IndexOf(h.order, k));
  }

  /** The first key after a removal: the old first key unless it was the
      one removed, and then the second. */
  lemma FirstAfterRemove(h: History, k: string)
    requires WellFormed(h) && k in h.order && |h.order| >= 2
    ensures Remove(h, k).order[0] == if h.order[0] == k then h.order[1] else h.order[0]
  {
    var i := IndexOf(h.order, k);
    assert i == 0 <==> h.order[0] == k;
  }

  /** The id `create_new_chat` gives: one more than the number of chats. */
  function NewChatId(h: History): string {
    "chat_" + Decimal(|h.order| + 1)
  }

  /** The ids are chat_1, chat_2, ... in order, as when no chat was deleted. */
  predicate Numbered(h: History) {
    forall i :: 0 <= i < |h.order| ==> h.order[i] == "chat_" + Decimal(i + 1)
  }

  /** Without deletions the new id is fresh. */
  lemma NewChatIdFresh(h: History)
    requires Numbered(h)
    ensures NewChatId(h) !in h.order
  {
    if NewChatId(h) in h.order {
      var i :| 0 <= i < |h.order| && h.order[i] == NewChatId(h);
      var p := "chat_";
      assert (p + Decimal(i + 1))[|p|..] == Decimal(i + 1);
      assert (p + Decimal(|h.order| + 1))[|p|..] == Decimal(|h.order| + 1);
      DecimalInjective(i + 1, |h.order| + 1);
    }
  }

  /** On an empty dict the new chat is `{"chat_1": []}`. */
  lemma NewChatOnEmpty(h: History)
    requires WellFormed(h) && h.order == []
    ensures NewChatId(h) == "chat_1" && Put(h, NewChatId(h), []) == FirstChat
  {
    assert Decimal(1) == "1";
    assert h.chats == map[];
  }

  /** After a deletion the count can name a chat that still exists; the new
      chat then takes over its id and its messages are lost. */
  lemma NewChatIdCollides(m: Message)
    ensures var h := History(["chat_1", "chat_3"], map["chat_1" := [], "chat_3" := [m]]);
      && NewChatId(h) == "chat_3"
      && Put(h, NewChatId(h), []) == History(["chat_1", "chat_3"], map["chat_1" := [], "chat_3" := []])
  {
    assert Decimal(3) == "3";
  }

  /**
   * The chat part of the session state: `chat_history`, `current_chat_id`
   * and the four results of the last operation, which the model keeps as
   * optional texts.
   */
  class ChatSession {
    var chatHistory: History
    var currentChatId: string
    var lastOperation: Option<string>
    var lastResults: Option<string>
    var lastSources: Option<string>
    var lastRawHypotheses: Option<string>

    /** The current chat is one of the chats. */
    ghost predicate Valid()
      reads this
    {
      WellFormed(chatHistory) && currentChatId in chatHistory.chats
    }

    /** No result of a last operation is kept. */
    predicate Cleared()
      reads this
    {
      lastOperation.None? && lastResults.None? && lastSources.None? && lastRawHypotheses.None?
    }

    /** `init_chat_history` on a fresh session. `stored` is the dict read
        from the history file; None when the file is missing, empty or
        unreadable. */
    constructor InitChatHistory(stored: Option<History>)
      requires stored.Some? ==> WellFormed(stored.value)
      ensures Valid() && Cleared()
      ensures stored.None? || stored.value.order == [] ==> chatHistory == FirstChat
      ensures stored.Some? && stored.value.order != [] ==> chatHistory == stored.value
      ensures currentChatId == chatHistory.order[0]
    {
      var history := if stored.Some? then stored.value else FirstChat;
      if history.order != [] {
        currentChatId := history.order[0];
      } else {
        currentChatId := "chat_1";
        history := Put(history, "chat_1", []);
        assert history.order == ["chat_1"];
      }
      chatHistory := history;
      lastOperation := None;
      lastResults := None;
      lastSources := None;
      lastRawHypotheses := None;
    }

    /** `create_new_chat`: a chat `chat_{n+1}` with no messages becomes
        current, overwriting a chat that already has that id. */
    method CreateNewChat()
      modifies this
      requires WellFormed(chatHistory)
      ensures Valid() && Cleared()
      ensures currentChatId == NewChatId(old(chatHistory))
      ensures chatHistory == Put(old(chatHistory), currentChatId, [])
    {
      lastOperation := None;
      lastResults := None;
      lastSources := None;
      lastRawHypotheses := None;
      var newId := NewChatId(chatHistory);
      chatHistory := Put(chatHistory, newId, []);
      currentChatId := newId;
    }

    /** `delete_chat`: an absent id changes nothing and gives false. A
        present one is removed; when it was current, the first remaining
        chat becomes current, or a new chat is created when none remains. */
    method DeleteChat(chatId: string) returns (deleted: bool)
      modifies this
      requires Valid()
      ensures Valid()
      ensures deleted <==> chatId in old(chatHistory.chats)
      ensures !deleted ==> unchanged(this)
      ensures deleted ==> Cleared()
      ensures deleted && old(currentChatId) != chatId ==>
        chatHistory == Remove(old(chatHistory), chatId) && currentChatId == old(currentChatId)
      ensures deleted && old(currentChatId) == chatId && Remove(old(chatHistory), chatId).order != [] ==>
        chatHistory == Remove(old(chatHistory), chatId) && currentChatId == chatHistory.order[0]
      ensures deleted && old(currentChatId) == chatId && Remove(old(chatHistory), chatId).order == [] ==>
        chatHistory == FirstChat && currentChatId == "chat_1"
    {
      if chatId !in chatHistory.chats {
        return false;
      }
      var rest := Remove(chatHistory, chatId);
      RemoveWellFormed(chatHistory, chatId);
      chatHistory := rest;
      if currentChatId == chatId {
        if chatHistory.order != [] {
          currentChatId := chatHistory.order[0];
        } else {
          NewChatOnEmpty(chatHistory);
          CreateNewChat();
          assert chatHistory == FirstChat;
        }
      } else {
        assert currentChatId in rest.order;
      }
      lastOperation := None;
      lastResults := None;
      lastSources := None;
      lastRawHypotheses := None;
      return true;
    }
  }

  // ---------------------------------------------------------------------
  // The chat label in the sidebar

  const LabelLength: nat := 30

  /** The first message whose role is "user". */
  function FirstUser(messages: seq<Message>): (r: Option<nat>)
    ensures r.Some? ==> FirstFromUser(messages, r.value)
    ensures r.None? ==> forall j :: 0 <= j < |messages| ==> messages[j].role != Some("user")
  {
    if messages == [] then None
    else if messages[0].role == Some("user") then Some(0)
    else
      var r := FirstUser(messages[1..]);
      if r.None? then None else Some(r.value + 1)
  }

  /** The name a chat gets: "..." without messages, "Пустой чат" without a
      user message, otherwise the first user message cut to 30 characters
      and marked "..." when it was longer. */
  function ChatLabel(messages: seq<Message>): (caption: string)
    ensures |caption| <= LabelLength + 3
  {
    if messages == [] then "..."
    else
      var first := FirstUser(messages);
      if first.None? then "Пустой чат"
      else
        var m := messages[first.value];
        var name := Take(Get(m.content, "Чат"), LabelLength);
        if |Get(m.content, "")| > LabelLength then name + "..." else name
  }

  /** Message `i` is the first one from the user. */
  predicate FirstFromUser(messages: seq<Message>, i: nat) {
    i < |messages| && messages[i].role == Some("user")
      && forall j :: 0 <= j < i ==> messages[j].role != Some("user")
  }

  /** There is only one first message from the user. */
  lemma FirstFromUserUnique(messages: seq<Message>, i: nat, j: nat)
    requires FirstFromUser(messages, i) && FirstFromUser(messages, j)
    ensures i == j
  {
  }

  /** The label in every case: a content of at most 30 characters is the
      label itself, a longer one is cut to 30 and gets "...", a missing one
      reads "Чат". */
  lemma ChatLabelSpec(messages: seq<Message>)
    ensures messages == [] ==> ChatLabel(messages) == "..."
    ensures messages != [] && (forall j :: 0 <= j < |messages| ==> messages[j].role != Some("user"))
      ==> ChatLabel(messages) == "Пустой чат"
    ensures forall i: nat :: FirstFromUser(messages, i) ==>
      var c := messages[i].content;
      && (c.None? ==> ChatLabel(messages) == "Чат")
      && (c.Some? && |c.value| <= LabelLength ==> ChatLabel(messages) == c.value)
      && (c.Some? && |c.value| > LabelLength ==> ChatLabel(messages) == c.value[..LabelLength] + "...")
  {
    forall i: nat | FirstFromUser(messages, i)
      ensures FirstUser(messages) == Some(i)
    {
      FirstFromUserUnique(messages, i, FirstUser(messages).value);
    }
  }

  // ---------------------------------------------------------------------
  // The abstract snippet of a source

  const AbstractMarker: string := "Abstract:"
  const AuthorsMarker: string := "Authors:"
  const FragmentLength: nat := 300

  /** `s.split(sep)[1]`, when the split gives more than one part. */
  function SecondPart(s: string, sep: string): (r: Option<string>)
    requires sep != []
  {
    var i := Find(s, sep);
    if i == -1 then None
    else
      var j := FindFrom(s, sep, i + |sep|);
      Some(s[i + |sep| .. if j == -1 then |s| else j])
  }

  /** `s.split(sep)[0]`, when the split gives more than one part. */
  function FirstPart(s: string, sep: string): (r: Option<string>)
    requires sep != []
  {
    var i := Find(s, sep);
    if i == -1 then None else Some(s[..i])
  }

  /** The fragment shown when no marked abstract is found. */
  function Fragment(text: string): string {
    Take(text, FragmentLength) + "..."
  }

  /** The text shown for a source: the abstract between "Abstract:" and
      "Authors:", stripped, or the first 300 characters and "...". */
  function AbstractSnippet(text: string): string {
    var after := SecondPart(text, AbstractMarker);
    if after.None? then Fragment(text)
    else
      var before := FirstPart(after.value, AuthorsMarker);
      if before.None? then Fragment(text) else Strip(before.value)
  }

  /** The first "Abstract:" starts at `a`, and the first "Authors:" after
      it starts at `u`, ending before any second "Abstract:". */
  predicate MarkedAbstract(text: string, a: int, u: int) {
    && OccursAt(text, AbstractMarker, a)
    && (forall j :: 0 <= j < a ==> !OccursAt(text, AbstractMarker, j))
    && a + |AbstractMarker| <= u
    && OccursAt(text, AuthorsMarker, u)
    && (forall j :: a + |AbstractMarker| <= j < u ==> !OccursAt(text, AuthorsMarker, j))
    && (forall j :: a + |AbstractMarker| <= j < u + |AuthorsMarker| ==> !OccursAt(text, AbstractMarker, j))
  }

  /** An occurrence in a slice is an occurrence in the whole that fits in
      the slice. */
  lemma OccursInSlice(s: string, lo: nat, hi: nat, pat: string, j: int)
    requires lo <= hi <= |s|
    ensures OccursAt(s[lo..hi], pat, j) <==> 0 <= j && lo + j + |pat| <= hi && OccursAt(s, pat, lo + j)
  {
    if 0 <= j && lo + j + |pat| <= hi {
      var inSlice, inWhole := s[lo..hi][j..j + |pat|], s[lo + j..lo + j + |pat|];
      forall q | 0 <= q < |pat|
        ensures inSlice[q] == inWhole[q]
      {
      }
      assert inSlice == inWhole;
    }
  }

  /** With a marked abstract, the snippet is the stripped text between the
      markers. */
  lemma MarkedSnippet(text: string, a: int, u: int)
    requires MarkedAbstract(text, a, u)
    ensures AbstractSnippet(text) == Strip(text[a + |AbstractMarker|..u])
  {
    var la, lu := |AbstractMarker|, |AuthorsMarker|;
    assert Find(text, AbstractMarker) == a;
    var j := FindFrom(text, AbstractMarker, a + la);
    var end := if j == -1 then |text| else j;
    assert u + lu <= end;
    var after := text[a + la..end];
    assert SecondPart(text, AbstractMarker) == Some(after);
    var k := Find(after, AuthorsMarker);
    OccursInSlice(text, a + la, end, AuthorsMarker, u - (a + la));
    if 0 <= k < u - (a + la) {
      OccursInSlice(text, a + la, end, AuthorsMarker, k);
    }
    assert k == u - (a + la);
    assert after[..k] == text[a + la..u];
  }

  /** When the text after the first "Abstract:" holds an "Authors:", the
      two positions found mark the abstract. */
  lemma FoundMarkers(text: string, i: nat, end: nat)
    requires Find(text, AbstractMarker) == i
    requires end == (var j := FindFrom(text, AbstractMarker, i + |AbstractMarker|); if j == -1 then |text| else j)
    requires i + |AbstractMarker| <= end <= |text|
    requires Find(text[i + |AbstractMarker|..end], AuthorsMarker) != -1
    ensures MarkedAbstract(text, i, i + |AbstractMarker| + Find(text[i + |AbstractMarker|..end], AuthorsMarker))
  {
    var la, lu := |AbstractMarker|, |AuthorsMarker|;
    var k := Find(text[i + la..end], AuthorsMarker);
    var u := i + la + k;
    OccursInSlice(text, i + la, end, AuthorsMarker, k);
    assert u + lu <= end;
    forall q | i + la <= q < u
      ensures !OccursAt(text, AuthorsMarker, q)
    {
      OccursInSlice(text, i + la, end, AuthorsMarker, q - (i + la));
    }
    assert forall q :: i + la <= q < u + lu ==> !OccursAt(text, AbstractMarker, q);
  }

  /** The snippet is the fragment unless there is a marked abstract. */
  lemma FragmentUnlessMarked(text: string)
    ensures AbstractSnippet(text) == Fragment(text) || exists a, u :: MarkedAbstract(text, a, u)
  {
    var la := |AbstractMarker|;
    var i := Find(text, AbstractMarker);
    if i != -1 {
      var j := FindFrom(text, AbstractMarker, i + la);
      var end := if j == -1 then |text| else j;
      var after := text[i + la..end];
      assert SecondPart(text, AbstractMarker) == Some(after);
      var k := Find(after, AuthorsMarker);
      if k != -1 {
        FoundMarkers(text, i, end);
      }
    }
  }
}
