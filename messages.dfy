/** The inbox of src/pages/MessagesPage.jsx: conversations and their search filter, the open
    conversation's messages kept current by realtime inserts and updates, the unread counters, the day
    grouping of messages, and the send and delete actions. Queries and realtime payloads are inputs;
    the day label of a message (a locale-formatted date) is a given function. */
module Messages {
  import opened Wrappers
  import Seqs
  import Text

  datatype Message = Message(id: string, content: string, createdAt: string, senderId: string, isRead: bool)

  datatype Profile = Profile(id: string, fullName: Option<string>)

  /** A conversation row with its joined buyer and seller profiles and listing title. */
  datatype Conversation = Conversation(
    id: string, buyerId: string, sellerId: string,
    buyer: Option<Profile>, seller: Option<Profile>, listingTitle: Option<string>)

  // Realtime list updates

  /** An UPDATE payload: `prev.map(msg => msg.id === updated.id ? updated : msg)`. */
  function ReplaceById(messages: seq<Message>, updated: Message): (r: seq<Message>)
    ensures |r| == |messages|
    ensures forall i :: 0 <= i < |r| ==> r[i] == (if messages[i].id == updated.id then updated else messages[i])
  {
    Seqs.Map(messages, (m: Message) => if m.id == updated.id then updated else m)
  }

  /** An update keeps every message's id and position, and applying the same payload twice changes
      nothing more. */
  lemma ReplaceByIdStable(messages: seq<Message>, updated: Message)
    ensures forall i :: 0 <= i < |messages| ==> ReplaceById(messages, updated)[i].id == messages[i].id
    ensures ReplaceById(ReplaceById(messages, updated), updated) == ReplaceById(messages, updated)
    ensures (forall i :: 0 <= i < |messages| ==> messages[i].id != updated.id) ==> ReplaceById(messages, updated) == messages
  {
    var once := ReplaceById(messages, updated);
    assert |ReplaceById(once, updated)| == |once|;
    forall i | 0 <= i < |once|
      ensures ReplaceById(once, updated)[i] == once[i]
    {
    }
  }

  /** Deleting conversation `id`: `prev.filter(c => c.id !== id)`. */
  function WithoutConversation(conversations: seq<Conversation>, id: string): (r: seq<Conversation>)
  {
    Seqs.Filter(conversations, (c: Conversation) => c.id != id)
  }

  /** After a delete no conversation has that id, every other conversation is still there, and the
      survivors keep their relative order. */
  lemma WithoutConversationExact(conversations: seq<Conversation>, id: string, front: seq<Conversation>, back: seq<Conversation>)
    ensures forall c :: c in WithoutConversation(conversations, id) <==> c in conversations && c.id != id
    ensures conversations == front + back ==>
              WithoutConversation(conversations, id) == WithoutConversation(front, id) + WithoutConversation(back, id)
  {
    if conversations == front + back {
      Seqs.FilterAppend(front, back, (c: Conversation) => c.id != id);
    }
  }

  // Unread counters

  /** The `unreadCounts` object as the list of its entries, in insertion order. */
  type Counts = seq<(string, nat)>

  predicate UniqueKeys(counts: Counts)
  {
    forall i, j :: 0 <= i < j < |counts| ==> counts[i].0 != counts[j].0
  }

  /** `counts[id]`, with an absent key read as 0. */
  function CountOf(counts: Counts, id: string): nat
  {
    if counts == [] then 0
    else if counts[0].0 == id then counts[0].1
    else CountOf(counts[1..], id)
  }

  /** The keys of the entries. */
  function Keys(counts: Counts): set<string>
  {
    set e | e in counts :: e.0
  }

  /** `{ ...prev, [id]: value }`: an existing key keeps its place, a new key goes last. */
  function SetCount(counts: Counts, id: string, value: nat): (r: Counts)
    ensures Keys(r) == Keys(counts) + {id}
  {
    if counts == [] then [(id, value)]
    else if counts[0].0 == id then
      assert counts == [counts[0]] + counts[1..];
      [(id, value)] + counts[1..]
    else
      assert counts == [counts[0]] + counts[1..];
      KeysCons(counts[0], counts[1..]);
      KeysCons(counts[0], SetCount(counts[1..], id, value));
      [counts[0]] + SetCount(counts[1..], id, value)
  }

  lemma KeysCons(e: (string, nat), rest: Counts)
    ensures Keys([e] + rest) == {e.0} + Keys(rest)
  {
    forall k | k in Keys([e] + rest)
      ensures k in {e.0} + Keys(rest)
    {
      var x :| x in [e] + rest && x.0 == k;
      if x != e {
        assert x in rest;
      }
    }
    forall k | k in Keys(rest)
      ensures k in Keys([e] + rest)
    {
      var x :| x in rest && x.0 == k;
      assert x in [e] + rest;
    }
  }

  /** Setting a counter keeps one entry per key. */
  lemma {:induction false} SetCountUnique(counts: Counts, id: string, value: nat)
    requires UniqueKeys(counts)
    ensures UniqueKeys(SetCount(counts, id, value))
    decreases |counts|
  {
    if counts != [] && counts[0].0 != id {
      var rest := SetCount(counts[1..], id, value);
      SetCountUnique(counts[1..], id, value);
      assert counts[0].0 !in Keys(counts[1..]) by {
        forall e | e in counts[1..]
          ensures e.0 != counts[0].0
        {
          var j :| 0 <= j < |counts[1..]| && counts[1..][j] == e;
          assert counts[j + 1] == e;
        }
      }
      forall j | 0 <= j < |rest|
        ensures rest[j].0 != counts[0].0
      {
        assert rest[j] in rest;
        assert rest[j].0 in Keys(rest);
      }
    }
  }

  /** `Object.values(unreadCounts).reduce((sum, count) => sum + count, 0)`. */
  function Total(counts: Counts): nat
  {
    if counts == [] then 0 else counts[0].1 + Total(counts[1..])
  }

  /** Setting one counter changes that counter only. */
  lemma {:induction false} SetCountOnly(counts: Counts, id: string, value: nat, other: string)
    ensures CountOf(SetCount(counts, id, value), id) == value
    ensures other != id ==> CountOf(SetCount(counts, id, value), other) == CountOf(counts, other)
    decreases |counts|
  {
    if counts != [] && counts[0].0 != id {
      SetCountOnly(counts[1..], id, value, other);
    }
  }

  /** With one entry per conversation, setting a counter moves the total by the difference. */
  lemma {:induction false} TotalAfterSet(counts: Counts, id: string, value: nat)
    requires UniqueKeys(counts)
    ensures Total(SetCount(counts, id, value)) == Total(counts) - CountOf(counts, id) + value
    decreases |counts|
  {
    if counts != [] {
      if counts[0].0 == id {
        assert CountOf(counts[1..], id) == 0 by {
          ZeroWhenAbsent(counts[1..], id);
        }
      } else {
        TotalAfterSet(counts[1..], id, value);
      }
    }
  }

  lemma {:induction false} ZeroWhenAbsent(counts: Counts, id: string)
    requires forall e :: e in counts ==> e.0 != id
    ensures CountOf(counts, id) == 0
    decreases |counts|
  {
    if counts != [] {
      ZeroWhenAbsent(counts[1..], id);
    }
  }

  /** `count || 0`: a missing count (`null`) reads as 0. */
  function CountOrZero(count: Option<nat>): (r: nat)
    ensures count.Some? ==> r == count.value
    ensures count.None? ==> r == 0
  {
    if count.Some? then count.value else 0
  }

  /** The `counts` object that `fetchUnreadCountsAndLastMessages` builds, given the count fetched for
      each conversation: one `counts[conv.id] = count || 0` per conversation, in list order. */
  function LoadedCounts(convs: seq<Conversation>, fetched: seq<Option<nat>>): Counts
    requires |fetched| == |convs|
    decreases |convs|
  {
    if |convs| == 0 then []
    else
      var n := |convs| - 1;
      SetCount(LoadedCounts(convs[..n], fetched[..n]), convs[n].id, CountOrZero(fetched[n]))
  }

  /** The loaded counters hold one entry per conversation id. */
  lemma {:induction false} LoadedCountsUnique(convs: seq<Conversation>, fetched: seq<Option<nat>>)
    requires |fetched| == |convs|
    ensures UniqueKeys(LoadedCounts(convs, fetched))
    decreases |convs|
  {
    if |convs| > 0 {
      var n := |convs| - 1;
      var before := LoadedCounts(convs[..n], fetched[..n]);
      LoadedCountsUnique(convs[..n], fetched[..n]);
      SetCountUnique(before, convs[n].id, CountOrZero(fetched[n]));
      assert LoadedCounts(convs, fetched) == SetCount(before, convs[n].id, CountOrZero(fetched[n]));
    }
  }

  /** Each conversation's counter is the count fetched for it (the last one, should an id repeat). */
  lemma {:induction false} LoadedCountOf(convs: seq<Conversation>, fetched: seq<Option<nat>>, i: nat)
    requires |fetched| == |convs| && i < |convs|
    requires forall j :: i < j < |convs| ==> convs[j].id != convs[i].id
    ensures CountOf(LoadedCounts(convs, fetched), convs[i].id) == CountOrZero(fetched[i])
    decreases |convs|
  {
    var n := |convs| - 1;
    var before := LoadedCounts(convs[..n], fetched[..n]);
    assert LoadedCounts(convs, fetched) == SetCount(before, convs[n].id, CountOrZero(fetched[n]));
    SetCountOnly(before, convs[n].id, CountOrZero(fetched[n]), convs[i].id);
    if i < n {
      assert convs[..n][i] == convs[i] && fetched[..n][i] == fetched[i];
      assert forall j :: i < j < n ==> convs[..n][j] == convs[j];
      LoadedCountOf(convs[..n], fetched[..n], i);
    }
  }

  /** A conversation that is not in the list has no unread message counted. */
  lemma {:induction false} LoadedCountAbsent(convs: seq<Conversation>, fetched: seq<Option<nat>>, id: string)
    requires |fetched| == |convs|
    requires forall i :: 0 <= i < |convs| ==> convs[i].id != id
    ensures CountOf(LoadedCounts(convs, fetched), id) == 0
    decreases |convs|
  {
    if |convs| > 0 {
      var n := |convs| - 1;
      SetCountOnly(LoadedCounts(convs[..n], fetched[..n]), convs[n].id, CountOrZero(fetched[n]), id);
      LoadedCountAbsent(convs[..n], fetched[..n], id);
    }
  }

  // Looking up the other participant and filtering the list

  /** `getOtherUser`: the seller when the current user is the buyer, the buyer otherwise. */
  function OtherUser(conversation: Option<Conversation>, userId: string): (r: Option<Profile>)
    ensures conversation.None? ==> r.None?
    ensures conversation.Some? && conversation.value.buyerId == userId ==> r == conversation.value.seller
    ensures conversation.Some? && conversation.value.buyerId != userId ==> r == conversation.value.buyer
  {
    match conversation
    case None => None
    case Some(c) => if c.buyerId == userId then c.seller else c.buyer
  }

  /** `otherUser?.full_name?.toLowerCase() || ''`. */
  function SearchableName(c: Conversation, userId: string): string
  {
    var other := OtherUser(Some(c), userId);
    if other.Some? && other.value.fullName.Some? then Text.ToLower(other.value.fullName.value) else ""
  }

  /** `conv.annonces?.title?.toLowerCase() || ''`. */
  function SearchableTitle(c: Conversation): string
  {
    if c.listingTitle.Some? then Text.ToLower(c.listingTitle.value) else ""
  }

  /** Whether a conversation answers a non-empty search. */
  predicate Matches(c: Conversation, userId: string, query: string)
  {
    var q := Text.ToLower(query);
    Text.Includes(SearchableName(c, userId), q) || Text.Includes(SearchableTitle(c), q)
  }

  /** `filteredConversations`: everything for an empty query, otherwise the conversations whose other
      participant's name or listing title contains the query, ignoring case, in their order. */
  function FilterConversations(conversations: seq<Conversation>, userId: string, query: string): (r: seq<Conversation>)
    ensures query == "" ==> r == conversations
    ensures query != "" ==> forall c :: c in r <==> c in conversations && Matches(c, userId, query)
    ensures |r| <= |conversations|
  {
    if query == "" then conversations
    else Seqs.Filter(conversations, (c: Conversation) => Matches(c, userId, query))
  }

  /** The search is case-insensitive on both sides: a title holding the query in any case matches. */
  lemma TitleMatchIgnoresCase(c: Conversation, userId: string, query: string, before: string, after: string)
    requires c.listingTitle == Some(before + query + after)
    ensures Matches(c, userId, query)
  {
    var q := Text.ToLower(query);
    Text.ToLowerAppend(before + query, after);
    Text.ToLowerAppend(before, query);
    assert SearchableTitle(c) == Text.ToLower(before) + q + Text.ToLower(after);
    Text.IncludesMiddle(Text.ToLower(before), q, Text.ToLower(after));
  }

  // Grouping by day

  /** The distinct labels of `labels`, in order of first appearance. */
  function FirstOccurrences(labels: seq<string>): (r: seq<string>)
    ensures forall x :: x in r <==> x in labels
    ensures forall i, j :: 0 <= i < j < |r| ==> r[i] != r[j]
  {
    if labels == [] then []
    else
      var seen := FirstOccurrences(labels[..|labels| - 1]);
      var last := labels[|labels| - 1];
      assert labels == labels[..|labels| - 1] + [last];
      if last in seen then seen else seen + [last]
  }

  /** The messages carrying label `l`, in their order. */
  function WithLabel(messages: seq<Message>, dayOf: Message -> string, l: string): (r: seq<Message>)
    ensures forall m :: m in r <==> m in messages && dayOf(m) == l
  {
    if messages == [] then []
    else
      var last := messages[|messages| - 1];
      assert messages == messages[..|messages| - 1] + [last];
      WithLabel(messages[..|messages| - 1], dayOf, l) + (if dayOf(last) == l then [last] else [])
  }

  /** The grouping the page renders: one group per label, groups in order of each label's first message,
      and each group holding that label's messages in their order. */
  predicate IsGrouping(groups: seq<(string, seq<Message>)>, messages: seq<Message>, dayOf: Message -> string)
  {
    |groups| == |FirstOccurrences(Seqs.Map(messages, dayOf))| &&
    forall i :: 0 <= i < |groups| ==>
      groups[i].0 == FirstOccurrences(Seqs.Map(messages, dayOf))[i] &&
      groups[i].1 == WithLabel(messages, dayOf, groups[i].0)
  }

  /** Within a grouping, every message sits in exactly one group: the one of its label. */
  lemma GroupingPartitions(groups: seq<(string, seq<Message>)>, messages: seq<Message>, dayOf: Message -> string, m: Message)
    requires IsGrouping(groups, messages, dayOf)
    requires m in messages
    ensures exists i :: 0 <= i < |groups| && groups[i].0 == dayOf(m) && m in groups[i].1
    ensures forall i :: 0 <= i < |groups| && m in groups[i].1 ==> groups[i].0 == dayOf(m)
    ensures forall i, j :: 0 <= i < j < |groups| ==> groups[i].0 != groups[j].0
  {
    var labels := Seqs.Map(messages, dayOf);
    var k :| 0 <= k < |messages| && messages[k] == m;
    assert labels[k] == dayOf(m);
    assert dayOf(m) in FirstOccurrences(labels);
    var i :| 0 <= i < |FirstOccurrences(labels)| && FirstOccurrences(labels)[i] == dayOf(m);
    assert groups[i].0 == dayOf(m) && m in groups[i].1;
  }

  /** The index of the group labelled `l`, or the number of groups. */
  function GroupIndex(groups: seq<(string, seq<Message>)>, l: string): (r: nat)
    ensures r <= |groups|
    ensures r < |groups| ==> groups[r].0 == l
    ensures r == |groups| ==> forall i :: 0 <= i < |groups| ==> groups[i].0 != l
  {
    if groups == [] then 0
    else if groups[0].0 == l then 0
    else 1 + GroupIndex(groups[1..], l)
  }

  lemma FirstOccurrencesSnoc(labels: seq<string>, x: string)
    ensures FirstOccurrences(labels + [x]) ==
              if x in FirstOccurrences(labels) then FirstOccurrences(labels) else FirstOccurrences(labels) + [x]
  {
    assert (labels + [x])[..|labels|] == labels;
  }

  lemma WithLabelSnoc(messages: seq<Message>, dayOf: Message -> string, l: string, m: Message)
    ensures WithLabel(messages + [m], dayOf, l) == WithLabel(messages, dayOf, l) + (if dayOf(m) == l then [m] else [])
  {
    assert (messages + [m])[..|messages|] == messages;
  }

  /** A label seen before: the labels in order of first appearance do not change. */
  lemma SeenLabelKeepsOrder(messages: seq<Message>, dayOf: Message -> string, m: Message)
    requires dayOf(m) in FirstOccurrences(Seqs.Map(messages, dayOf))
    ensures FirstOccurrences(Seqs.Map(messages + [m], dayOf)) == FirstOccurrences(Seqs.Map(messages, dayOf))
  {
    Seqs.MapAppend(messages, [m], dayOf);
    assert Seqs.Map(messages + [m], dayOf) == Seqs.Map(messages, dayOf) + [dayOf(m)];
    FirstOccurrencesSnoc(Seqs.Map(messages, dayOf), dayOf(m));
  }

  /** A message whose label already has a group joins the end of that group. */
  lemma GroupingStepExisting(groups: seq<(string, seq<Message>)>, messages: seq<Message>, dayOf: Message -> string, m: Message, k: nat)
    requires IsGrouping(groups, messages, dayOf)
    requires k < |groups| && groups[k].0 == dayOf(m)
    ensures IsGrouping(groups[k := (groups[k].0, groups[k].1 + [m])], messages + [m], dayOf)
  {
    var seen := FirstOccurrences(Seqs.Map(messages, dayOf));
    assert seen[k] == dayOf(m);
    SeenLabelKeepsOrder(messages, dayOf, m);
    var after := groups[k := (groups[k].0, groups[k].1 + [m])];
    forall i | 0 <= i < |after|
      ensures after[i].0 == seen[i]
      ensures after[i].1 == WithLabel(messages + [m], dayOf, after[i].0)
    {
      WithLabelSnoc(messages, dayOf, after[i].0, m);
      if i != k {
        assert after[i] == groups[i];
        assert seen[i] != seen[k];
      }
    }
  }

  /** A label that no message carries has no messages. */
  lemma UnseenLabelEmpty(messages: seq<Message>, dayOf: Message -> string, l: string)
    requires l !in FirstOccurrences(Seqs.Map(messages, dayOf))
    ensures WithLabel(messages, dayOf, l) == []
  {
    var labels := Seqs.Map(messages, dayOf);
    forall x | x in messages
      ensures dayOf(x) != l
    {
      var j :| 0 <= j < |messages| && messages[j] == x;
      assert labels[j] == dayOf(x);
    }
    var none := WithLabel(messages, dayOf, l);
    assert forall x :: x !in none;
  }

  /** A message with a label not seen before opens a new group at the end. */
  lemma GroupingStepNew(groups: seq<(string, seq<Message>)>, messages: seq<Message>, dayOf: Message -> string, m: Message)
    requires IsGrouping(groups, messages, dayOf)
    requires forall i :: 0 <= i < |groups| ==> groups[i].0 != dayOf(m)
    ensures IsGrouping(groups + [(dayOf(m), [m])], messages + [m], dayOf)
  {
    var labels := Seqs.Map(messages, dayOf);
    var seen := FirstOccurrences(labels);
    Seqs.MapAppend(messages, [m], dayOf);
    assert Seqs.Map(messages + [m], dayOf) == labels + [dayOf(m)];
    FirstOccurrencesSnoc(labels, dayOf(m));
    assert dayOf(m) !in seen;
    UnseenLabelEmpty(messages, dayOf, dayOf(m));
    assert FirstOccurrences(Seqs.Map(messages + [m], dayOf)) == seen + [dayOf(m)];
    var after := groups + [(dayOf(m), [m])];
    forall i | 0 <= i < |after|
      ensures after[i].0 == (seen + [dayOf(m)])[i]
      ensures after[i].1 == WithLabel(messages + [m], dayOf, after[i].0)
    {
      WithLabelSnoc(messages, dayOf, after[i].0, m);
      if i < |groups| {
        assert after[i] == groups[i];
        assert groups[i].0 == seen[i];
      }
    }
  }

  /** One turn of the grouping loop, on the first `i` messages. */
  lemma GroupingStepAt(groups: seq<(string, seq<Message>)>, messages: seq<Message>, dayOf: Message -> string, i: nat)
    requires i < |messages| && IsGrouping(groups, messages[..i], dayOf)
    ensures var m := messages[i];
      var k := GroupIndex(groups, dayOf(m));
      IsGrouping(if k < |groups| then groups[k := (groups[k].0, groups[k].1 + [m])] else groups + [(dayOf(m), [m])],
                 messages[..i + 1], dayOf)
  {
    var m := messages[i];
    assert messages[..i + 1] == messages[..i] + [m];
    var k := GroupIndex(groups, dayOf(m));
    if k < |groups| {
      GroupingStepExisting(groups, messages[..i], dayOf, m, k);
    } else {
      GroupingStepNew(groups, messages[..i], dayOf, m);
    }
  }

  /** `groupMessagesByDate`: walks the messages once, appending each to the group of its label and
      opening a new group the first time a label is seen. */
  method GroupMessagesByDate(messages: seq<Message>, dayOf: Message -> string) returns (groups: seq<(string, seq<Message>)>)
    ensures IsGrouping(groups, messages, dayOf)
  {
    groups := [];
    var i := 0;
    while i < |messages|
      invariant 0 <= i <= |messages|
      invariant IsGrouping(groups, messages[..i], dayOf)
    {
      var m := messages[i];
      var k := GroupIndex(groups, dayOf(m));
      GroupingStepAt(groups, messages, dayOf, i);
      if k < |groups| {
        groups := groups[k := (groups[k].0, groups[k].1 + [m])];
      } else {
        groups := groups + [(dayOf(m), [m])];
      }
      i := i + 1;
    }
    assert messages[..i] == messages;
  }

  // Sending

  /** What `handleSendMessage` inserts: nothing when the trimmed text is empty or no conversation is
      open, otherwise the trimmed text for the open conversation. */
  function OutgoingMessage(text: string, selected: Option<Conversation>): (r: Option<(string, string)>)
    ensures r.None? <==> Text.Trim(text) == [] || selected.None?
    ensures r.Some? ==> r.value == (selected.value.id, Text.Trim(text))
  {
    if Text.Trim(text) == [] || selected.None? then None else Some((selected.value.id, Text.Trim(text)))
  }

  /** A draft of blanks only is never sent, whatever is open. */
  lemma BlankDraftNotSent(text: string, selected: Option<Conversation>)
    requires forall i :: 0 <= i < |text| ==> Text.IsJsSpace(text[i])
    ensures OutgoingMessage(text, selected).None?
  {
    Text.TrimEmpty(text);
  }

  /** The page's state hooks that these handlers touch. */
  class Inbox {
    const userId: string
    var conversations: seq<Conversation>
    var selected: Option<Conversation>
    var messages: seq<Message>
    var newMessage: string
    var unreadCounts: Counts

    predicate Valid()
      reads this
    {
      UniqueKeys(unreadCounts)
    }

    constructor(userId: string)
      ensures Valid()
      ensures this.userId == userId && conversations == [] && selected.None? && messages == []
      ensures newMessage == "" && unreadCounts == []
    {
      this.userId := userId;
      conversations := [];
      selected := None;
      messages := [];
      newMessage := "";
      unreadCounts := [];
    }

    /** The conversation list arrived (`None` for an error): it replaces the list. */
    method ConversationsLoaded(data: Option<seq<Conversation>>)
      modifies this
      ensures conversations == (if data.Some? then data.value else old(conversations))
      ensures selected == old(selected) && messages == old(messages)
      ensures newMessage == old(newMessage) && unreadCounts == old(unreadCounts)
    {
      if data.Some? {
        conversations := data.value;
      }
    }

    /** `fetchUnreadCountsAndLastMessages`, with the count fetched for each conversation as input: the
        counters are built one conversation at a time and then replace the whole `unreadCounts`. */
    method CountsLoaded(convs: seq<Conversation>, fetched: seq<Option<nat>>)
      requires |fetched| == |convs|
      modifies this
      ensures Valid()
      ensures unreadCounts == LoadedCounts(convs, fetched)
      ensures conversations == old(conversations) && selected == old(selected)
      ensures messages == old(messages) && newMessage == old(newMessage)
    {
      var counts: Counts := [];
      var i := 0;
      while i < |convs|
        invariant 0 <= i <= |convs|
        invariant counts == LoadedCounts(convs[..i], fetched[..i])
        invariant UniqueKeys(counts)
        modifies {}
      {
        var count := CountOrZero(fetched[i]);
        SetCountUnique(counts, convs[i].id, count);
        assert convs[..i + 1][..i] == convs[..i] && fetched[..i + 1][..i] == fetched[..i];
        counts := SetCount(counts, convs[i].id, count);
        i := i + 1;
      }
      assert convs[..i] == convs && fetched[..i] == fetched;
      unreadCounts := counts;
    }

    /** A click on a conversation in the list opens it. */
    method Select(c: Conversation)
      modifies this
      ensures selected == Some(c)
      ensures conversations == old(conversations) && messages == old(messages)
      ensures newMessage == old(newMessage) && unreadCounts == old(unreadCounts)
    {
      selected := Some(c);
    }

    /** A realtime INSERT on the open conversation: the new message goes last. */
    method OnInsert(m: Message)
      modifies this
      ensures messages == old(messages) + [m]
      ensures conversations == old(conversations) && selected == old(selected)
      ensures newMessage == old(newMessage) && unreadCounts == old(unreadCounts)
    {
      messages := messages + [m];
    }

    /** A realtime UPDATE on the open conversation. */
    method OnUpdate(m: Message)
      modifies this
      ensures messages == ReplaceById(old(messages), m)
      ensures conversations == old(conversations) && selected == old(selected)
      ensures newMessage == old(newMessage) && unreadCounts == old(unreadCounts)
    {
      messages := ReplaceById(messages, m);
    }

    /** The open conversation's messages arrived (`None` for an error): they replace the list and the
        conversation's unread counter drops to 0. */
    method MessagesLoaded(data: Option<seq<Message>>)
      requires Valid() && selected.Some?
      modifies this
      ensures Valid()
      ensures data.None? ==> messages == old(messages) && unreadCounts == old(unreadCounts)
      ensures data.Some? ==> messages == data.value && unreadCounts == SetCount(old(unreadCounts), old(selected).value.id, 0)
      ensures conversations == old(conversations) && selected == old(selected) && newMessage == old(newMessage)
    {
      if data.Some? {
        messages := data.value;
        SetCountUnique(unreadCounts, selected.value.id, 0);
        unreadCounts := SetCount(unreadCounts, selected.value.id, 0);
      }
    }

    /** `handleDeleteConversation`: only once confirmed and deleted on the server; the selection is
        cleared exactly when it was the deleted conversation. */
    method DeleteConversation(id: string, confirmed: bool, deleteOk: bool)
      modifies this
      ensures confirmed && deleteOk ==>
                conversations == WithoutConversation(old(conversations), id) &&
                selected == (if old(selected).Some? && old(selected).value.id == id then None else old(selected))
      ensures !(confirmed && deleteOk) ==> conversations == old(conversations) && selected == old(selected)
      ensures messages == old(messages) && newMessage == old(newMessage) && unreadCounts == old(unreadCounts)
    {
      if !confirmed || !deleteOk {
        return;
      }
      conversations := WithoutConversation(conversations, id);
      if selected.Some? && selected.value.id == id {
        selected := None;
      }
    }

    /** `handleSendMessage`, with the insert's success as an input: the draft is cleared only once the
        message is stored. */
    method Send(insertOk: bool) returns (sent: Option<(string, string)>)
      modifies this
      ensures sent == OutgoingMessage(old(newMessage), selected)
      ensures newMessage == (if sent.Some? && insertOk then "" else old(newMessage))
      ensures conversations == old(conversations) && selected == old(selected)
      ensures messages == old(messages) && unreadCounts == old(unreadCounts)
    {
      sent := OutgoingMessage(newMessage, selected);
      if sent.Some? && insertOk {
        newMessage := "";
      }
    }

    /** `filteredConversations` for the current search text. */
    function Visible(query: string): seq<Conversation>
      reads this
    {
      FilterConversations(conversations, userId, query)
    }
  }
}
