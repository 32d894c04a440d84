/**
 * The messages list's tab and name filter, the contacts list's search, and
 * the chat view's send box. The mock lists are parameters.
 */
module Messaging {
  import opened Wrappers
  import opened Seqs
  import Text

  datatype Chat = Chat(id: int, name: string, lastMsg: string, time: string, unread: bool, fav: bool, group: bool)

  /** The tab's selection: three tabs keep one flag; `all` and every other tab keep everything. */
  predicate InTab(c: Chat, tab: string) {
    if tab == "unread" then c.unread
    else if tab == "fav" then c.fav
    else if tab == "groups" then c.group
    else true
  }

  /** The name filter applies when the term is present and not blank after trimming. */
  predicate NameFilterOn(term: Option<string>) {
    term.Some? && Text.Trim(term.value) != ""
  }

  /** The untrimmed, lowercased term is a substring of the lowercased name. */
  predicate NameMatches(c: Chat, term: string) {
    Text.Includes(Text.Lower(c.name), Text.Lower(term))
  }

  /** `filterChats(tab, searchTerm)`: the tab's selection, then the name filter. */
  function FilterChats(chats: seq<Chat>, tab: string, term: Option<string>): seq<Chat> {
    var byTab := Filter(chats, TabPred(tab));
    if NameFilterOn(term) then Filter(byTab, NamePred(term.value)) else byTab
  }

  function TabPred(tab: string): Chat -> bool {
    c => InTab(c, tab)
  }

  function NamePred(term: string): Chat -> bool {
    c => NameMatches(c, term)
  }

  function ListedPred(tab: string, term: Option<string>): Chat -> bool {
    c => Listed(c, tab, term)
  }

  /** What a chat must satisfy to be listed. */
  predicate Listed(c: Chat, tab: string, term: Option<string>) {
    InTab(c, tab) && (NameFilterOn(term) ==> NameMatches(c, term.value))
  }

  function BothPred(tab: string, name: string): Chat -> bool {
    c => InTab(c, tab) && NameMatches(c, name)
  }

  lemma {:induction false} TabThenName(chats: seq<Chat>, tab: string, name: string)
    ensures Filter(Filter(chats, TabPred(tab)), NamePred(name)) == Filter(chats, BothPred(tab, name))
  {
    if chats != [] {
      TabThenName(chats[1..], tab, name);
    }
  }

  /** The two filters are one filter on both conditions. */
  lemma FilterChatsIsOneFilter(chats: seq<Chat>, tab: string, term: Option<string>)
    ensures FilterChats(chats, tab, term) == Filter(chats, ListedPred(tab, term))
  {
    if NameFilterOn(term) {
      TabThenName(chats, tab, term.value);
      FilterExt(chats, BothPred(tab, term.value), ListedPred(tab, term));
    } else {
      FilterExt(chats, TabPred(tab), ListedPred(tab, term));
    }
  }

  /** So the list is an order-preserving subsequence holding exactly the chats that pass both. */
  lemma FilterChatsMeaning(chats: seq<Chat>, tab: string, term: Option<string>)
    ensures IsSubseq(FilterChats(chats, tab, term), chats)
    ensures forall c :: c in FilterChats(chats, tab, term) <==> c in chats && Listed(c, tab, term)
  {
    FilterChatsIsOneFilter(chats, tab, term);
    FilterIsSubseq(chats, ListedPred(tab, term));
    var r := Filter(chats, ListedPred(tab, term));
    forall c | c in r ensures c in chats && Listed(c, tab, term) {
      var i :| 0 <= i < |r| && r[i] == c;
    }
    forall c | c in chats && Listed(c, tab, term) ensures c in r {
      var i :| 0 <= i < |chats| && chats[i] == c;
      assert ListedPred(tab, term)(chats[i]);
    }
  }

  /** On the `all` tab, and on any tab outside the three flagged ones, with no term, every chat is listed. */
  lemma OtherTabsKeepAll(chats: seq<Chat>, tab: string)
    requires tab != "unread" && tab != "fav" && tab != "groups"
    ensures FilterChats(chats, tab, Some("")) == chats
  {
    assert !NameFilterOn(Some(""));
    FilterAll(chats, TabPred(tab));
  }

  /** A blank term, however many spaces, leaves the tab's selection alone. */
  lemma BlankTermKeepsTab(chats: seq<Chat>, tab: string, term: string)
    requires Text.AllSpace(term)
    ensures FilterChats(chats, tab, Some(term)) == Filter(chats, TabPred(tab))
  {
    Text.TrimEmptyIff(term);
  }

  /** The list's empty state. */
  function ChatsEmptyState(chats: seq<Chat>, tab: string, term: Option<string>): (m: Option<string>)
    ensures m.Some? <==> forall i :: 0 <= i < |chats| ==> !Listed(chats[i], tab, term)
    ensures m.Some? ==> m.value == "No conversations to show."
  {
    FilterChatsMeaning(chats, tab, term);
    var r := FilterChats(chats, tab, term);
    if r == [] then Some("No conversations to show.")
    else
      assert r[0] in r;
      None
  }

  // --------------------------------------------------------------- contacts

  datatype Contact = Contact(id: int, name: string, email: string, online: bool)

  predicate ContactMatches(c: Contact, term: string) {
    Text.Includes(Text.Lower(c.name), Text.Lower(term)) || Text.Includes(Text.Lower(c.email), Text.Lower(term))
  }

  /** The contacts list's search over name and email. */
  function FilterContacts(contacts: seq<Contact>, term: string): (r: seq<Contact>)
    ensures IsSubseq(r, contacts)
    ensures forall c :: c in r <==> c in contacts && ContactMatches(c, term)
  {
    FilterIsSubseq(contacts, (c: Contact) => ContactMatches(c, term));
    Filter(contacts, (c: Contact) => ContactMatches(c, term))
  }

  /** An empty term keeps every contact, in order. */
  lemma EmptyTermKeepsContacts(contacts: seq<Contact>)
    ensures FilterContacts(contacts, "") == contacts
  {
    forall i | 0 <= i < |contacts| ensures ContactMatches(contacts[i], "") {
      Text.IncludesEmpty(Text.Lower(contacts[i].name));
    }
    FilterAll(contacts, (c: Contact) => ContactMatches(c, ""));
  }

  function ContactsEmptyState(contacts: seq<Contact>, term: string): (m: Option<string>)
    ensures m.Some? <==> forall i :: 0 <= i < |contacts| ==> !ContactMatches(contacts[i], term)
    ensures m.Some? ==> m.value == "No contacts found."
  {
    var r := FilterContacts(contacts, term);
    if r == [] then Some("No contacts found.")
    else
      assert r[0] in r;
      None
  }

  // -------------------------------------------------------------- chat view

  datatype Message = Message(from: string, text: string)

  const Greeting: seq<Message> := [Message("them", "Hey there \U{1F44B}"), Message("you", "Hey! How\U{2019}s it going?")]

  class ChatView {
    var input: string
    var messages: seq<Message>

    constructor ()
      ensures input == "" && messages == Greeting && |messages| == 2
    {
      input, messages := "", Greeting;
    }

    method SetInput(value: string)
      modifies this
      ensures input == value && messages == old(messages)
    {
      input := value;
    }

    /**
     * `handleSend`: a blank input changes nothing; otherwise the input, as
     * typed, is appended as the user's message and the box is cleared.
     */
    method HandleSend()
      modifies this
      ensures Text.AllSpace(old(input)) ==> input == old(input) && messages == old(messages)
      ensures !Text.AllSpace(old(input)) ==> (
        && messages == old(messages) + [Message("you", old(input))]
        && input == "")
      ensures old(messages) <= messages && |messages| <= |old(messages)| + 1
    {
      Text.TrimEmptyIff(input);
      if Text.Trim(input) == "" {
        return;
      }
      messages := messages + [Message("you", input)];
      input := "";
    }
  }
}
