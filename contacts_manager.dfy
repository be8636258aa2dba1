/**
 * The contact cache of the call manager: the full contact list, the result of
 * the last number search, the loops that fill them and the caller-name lookup.
 * The two background tasks appear as the state change their worker step makes.
 */
module ContactsManagement {
  import opened Wrappers
  import opened Text
  import opened ContactLists

  /** Status the contacts updater reports when loading threw. */
  const UpdateFailedStatus: string := "Something went wrong, try again later"

  /** Status the contact lookup reports when the search completed. */
  const LookupDoneStatus: string := "1"

  /**
   * `getCallerName`: without permission to read contacts, or when the reverse lookup
   * gives no cursor or no row, there is no name; otherwise the first row's name.
   * `lookup` is what the provider's phone-lookup query returns for the number.
   */
  function CallerName(permitted: bool, lookup: Option<seq<string>>): (r: Option<string>)
    ensures r.Some? <==> permitted && lookup.Some? && |lookup.value| > 0
    ensures r.Some? ==> r.value == lookup.value[0]
  {
    if !permitted then None
    else if lookup.None? then None
    else if |lookup.value| == 0 then None
    else Some(lookup.value[0])
  }

  /**
   * A denied permission, a missing cursor and an empty answer all give the same
   * outcome; a denied permission gives it whatever the provider holds.
   */
  lemma CallerNameFailuresAgree(lookup: Option<seq<string>>)
    ensures CallerName(false, lookup) == CallerName(true, None) == CallerName(true, Some([])) == None
  {
  }

  /** The cache: `contacts` is the primary list, `currentContacts` the last search's result. */
  class ContactsManager {
    var contacts: seq<Contact>
    var currentContacts: seq<Contact>
    /** The number most recently searched for, if any. */
    ghost var lastSearch: Option<string>

    /** The cached search result only holds contacts whose number contains the last search. */
    ghost predicate Valid()
      reads this
    {
      match lastSearch
      case None => currentContacts == []
      case Some(num) => forall c :: c in currentContacts ==> IsSubstring(num, c.number)
    }

    /** Both lists start empty. */
    constructor ()
      ensures Valid()
      ensures contacts == [] && currentContacts == [] && lastSearch == None
    {
      contacts := [];
      currentContacts := [];
      lastSearch := None;
    }

    /** `getContacts`: the primary list. */
    method GetContacts() returns (r: seq<Contact>)
      ensures r == contacts
    {
      r := contacts;
    }

    /** `getCurrentContacts`: the list from the last search. */
    method GetCurrentContacts() returns (r: seq<Contact>)
      ensures r == currentContacts
    {
      r := currentContacts;
    }

    /**
     * `getContactList`: walk the provider's rows and, for each row with a positive
     * phone flag, walk its phone cursor and add one entry per number.
     */
    method GetContactList(source: Option<seq<ContactRow>>) returns (r: Result<seq<Contact>, LoadError>)
      ensures r == ContactList(source)
    {
      if source.None? {
        return Success([]);
      }
      var rows := source.value;
      var list: seq<Contact> := [];
      var i := 0;
      while i < |rows|
        invariant 0 <= i <= |rows|
        invariant CollectRows(rows[..i]) == Success(list)
      {
        var row := rows[i];
        assert rows[..i + 1][..i] == rows[..i];
        if row.hasPhone > 0 {
          if row.phones.None? {
            assert rows[..i + 1][i] == row;
            CollectRowsFailurePersists(rows, i + 1);
            assert CollectRows(rows).error == PhoneCursorMissing;
            return Failure(PhoneCursorMissing);
          }
          var numbers := row.phones.value;
          ghost var before := list;
          var j := 0;
          while j < |numbers|
            invariant 0 <= j <= |numbers|
            invariant list == before + Expand(row.name, numbers[..j])
          {
            assert numbers[..j + 1][..j] == numbers[..j];
            list := list + [Contact(row.name, numbers[j])];
            j := j + 1;
          }
          assert numbers[..j] == numbers;
        }
        i := i + 1;
      }
      assert rows[..i] == rows;
      return Success(list);
    }

    /** `getContactsByNum`: the cached contacts whose number contains `num`, in order. */
    method GetContactsByNum(num: string) returns (r: seq<Contact>)
      ensures r == FilterByNumber(contacts, num)
    {
      r := [];
      var i := 0;
      while i < |contacts|
        invariant 0 <= i <= |contacts|
        invariant r == FilterByNumber(contacts[..i], num)
      {
        assert contacts[..i + 1][..i] == contacts[..i];
        var contact := contacts[i];
        if Contains(contact.number, num) {
          r := r + [contact];
        }
        i := i + 1;
      }
      assert contacts[..i] == contacts;
    }

    /**
     * The worker step of the contacts updater: reload the primary list. When loading
     * throws, the list is kept and the failure status returned; on success the status
     * is unset. The search result is never touched.
     */
    method UpdateContacts(source: Option<seq<ContactRow>>) returns (status: Option<string>)
      requires Valid()
      modifies this`contacts
      ensures Valid()
      ensures currentContacts == old(currentContacts)
      ensures match ContactList(source)
              case Success(list) => contacts == list && status == None
              case Failure(_) => contacts == old(contacts) && status == Some(UpdateFailedStatus)
    {
      var loaded := GetContactList(source);
      match loaded
      case Success(list) =>
        contacts := list;
        status := None;
      case Failure(_) =>
        status := Some(UpdateFailedStatus);
    }

    /**
     * The worker step of the contact lookup: replace the search result by the cached
     * contacts whose number contains `num` and report success. The primary list is
     * never touched.
     */
    method LookupContacts(num: string) returns (status: string)
      requires Valid()
      modifies this`currentContacts, this`lastSearch
      ensures Valid()
      ensures contacts == old(contacts)
      ensures currentContacts == FilterByNumber(contacts, num) && lastSearch == Some(num)
      ensures status == LookupDoneStatus
    {
      var found := GetContactsByNum(num);
      currentContacts := found;
      lastSearch := Some(num);
      forall c | c in currentContacts
        ensures IsSubstring(num, c.number)
      {
        FilterMembership(contacts, num, c);
      }
      status := LookupDoneStatus;
    }
  }
}
