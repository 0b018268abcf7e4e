/** The chat and meetings page: the coworker search, its result count, sending a
    message, and the header of the open chat. */
module ChatMeetings {
  import opened Wrappers
  import opened Text
  import Seqs

  datatype Contact = Contact(id: int, name: string, department: string, lastMessage: string)

  /** A contact matches when its lowercased name or department includes the lowercased
      query. */
  predicate Matches(c: Contact, query: string) {
    Contains(Lower(c.name), Lower(query)) || Contains(Lower(c.department), Lower(query))
  }

  /** `filteredContacts`. */
  function FilteredContacts(contacts: seq<Contact>, query: string): seq<Contact> {
    Seqs.Filter(contacts, (c: Contact) => Matches(c, query))
  }

  /** The query, lowercased, occurs at some position of the lowercased name or
      department. */
  ghost predicate MatchesSomewhere(c: Contact, query: string) {
    (exists i :: OccursAt(Lower(c.name), Lower(query), i)) ||
    (exists i :: OccursAt(Lower(c.department), Lower(query), i))
  }

  lemma MatchesAt(c: Contact, query: string)
    ensures Matches(c, query) <==> MatchesSomewhere(c, query)
  {
    ContainsAt(Lower(c.name), Lower(query));
    ContainsAt(Lower(c.department), Lower(query));
  }

  /** The search keeps the order of the contacts and keeps exactly the matching ones; a
      contact is kept exactly when the lowercased query occurs somewhere in its
      lowercased name or department. */
  lemma SearchSelects(contacts: seq<Contact>, query: string)
    ensures Seqs.IsSubsequence(FilteredContacts(contacts, query), contacts)
    ensures forall c :: c in FilteredContacts(contacts, query) <==> c in contacts && MatchesSomewhere(c, query)
  {
    var p := (c: Contact) => Matches(c, query);
    Seqs.FilterIsSubsequence(contacts, p);
    forall c ensures c in FilteredContacts(contacts, query) <==> c in contacts && p(c) {
      Seqs.FilterMembership(contacts, p, c);
    }
    forall c: Contact ensures Matches(c, query) <==> MatchesSomewhere(c, query) {
      MatchesAt(c, query);
    }
  }

  /** An empty query keeps every contact. */
  lemma EmptyQueryKeepsAll(contacts: seq<Contact>)
    ensures FilteredContacts(contacts, "") == contacts
  {
    forall i | 0 <= i < |contacts| ensures Matches(contacts[i], "") {
      ContainsEmpty(Lower(contacts[i].name));
    }
    Seqs.FilterAll(contacts, (c: Contact) => Matches(c, ""));
  }

  /** The search ignores the case of the query. */
  lemma SearchIgnoresQueryCase(contacts: seq<Contact>, query: string)
    ensures FilteredContacts(contacts, query) == FilteredContacts(contacts, Lower(query))
  {
    LowerIdempotent(query);
    Seqs.FilterEquiv(contacts, (c: Contact) => Matches(c, query), (c: Contact) => Matches(c, Lower(query)));
  }

  /** The count line under the search box, shown only while the query is not empty:
      `<n> result found` for one contact and `<n> results found` otherwise. */
  function ResultLine(query: string, count: nat): (line: Option<string>)
    ensures line.Some? <==> query != ""
    ensures line.Some? ==> var digits := NatToString(count);
              |line.value| > |digits| && line.value[..|digits|] == digits &&
              DigitsValue(line.value[..|digits|]) == count &&
              line.value[|digits|..] == (if count == 1 then " result found" else " results found")
  {
    if query == "" then None
    else
      var digits := NatToString(count);
      var rest := " result" + (if count != 1 then "s" else "") + " found";
      DigitsValueOfNatToString(count);
      assert (digits + rest)[..|digits|] == digits;
      assert (digits + rest)[|digits|..] == rest;
      Some(digits + rest)
  }

  /** The draft after `handleSendMessage`: cleared when its trimmed text is not empty,
      unchanged otherwise. */
  function DraftAfterSend(draft: string): (r: string)
    ensures r == "" <==> (exists i :: 0 <= i < |draft| && !IsSpace(draft[i])) || draft == ""
    ensures r != "" ==> r == draft
    ensures (forall i :: 0 <= i < |draft| ==> IsSpace(draft[i])) ==> r == draft
  {
    TrimEmpty(draft);
    if Trim(draft) != "" then "" else draft
  }

  /** The state of the message box. */
  class ChatState {
    var newMessage: string

    constructor()
      ensures newMessage == ""
    {
      newMessage := "";
    }

    method HandleSendMessage()
      modifies this
      ensures newMessage == DraftAfterSend(old(newMessage))
    {
      if Trim(newMessage) != "" {
        newMessage := "";
      }
    }
  }

  /** `chatContacts.find(c => c.id === selectedChat)?.name`. */
  function HeaderName(contacts: seq<Contact>, selected: int): (name: Option<string>)
    ensures name.None? <==> forall i :: 0 <= i < |contacts| ==> contacts[i].id != selected
    ensures name.Some? ==>
              (exists i :: 0 <= i < |contacts| && contacts[i].id == selected &&
                 name.value == contacts[i].name &&
                 forall j :: 0 <= j < i ==> contacts[j].id != selected)
  {
    if contacts == [] then None
    else if contacts[0].id == selected then Some(contacts[0].name)
    else
      var rest := HeaderName(contacts[1..], selected);
      if rest.Some? then
        var i :| 0 <= i < |contacts[1..]| && contacts[1..][i].id == selected &&
                 rest.value == contacts[1..][i].name &&
                 forall j :: 0 <= j < i ==> contacts[1..][j].id != selected;
        assert contacts[i + 1] == contacts[1..][i];
        rest
      else rest
  }
}
