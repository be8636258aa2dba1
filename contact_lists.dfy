/**
 * The values the contact cache works on, and the two list computations of
 * `ContactsManager` written as functions: the substring filter behind
 * `getContactsByNum` and the row expansion behind `getContactList`.
 * Both recurse on the last element, the order in which the source appends.
 */
module ContactLists {
  import opened Wrappers
  import opened Text

  /** A contact entry: one display name paired with one phone number. */
  datatype Contact = Contact(name: string, number: string)

  /**
   * One row of the contacts provider: its id, display name and phone flag,
   * with the numbers the per-contact phone query returns (`None` when that
   * query gives back no cursor at all).
   */
  datatype ContactRow = ContactRow(id: string, name: string, hasPhone: int, phones: Option<seq<string>>)

  /** Reading the phone cursor of a row failed because the query returned none. */
  datatype LoadError = PhoneCursorMissing

  /** The test `getContactsByNum` applies to each cached contact. */
  predicate Matches(c: Contact, num: string)
  {
    Contains(c.number, num)
  }

  /** The contacts of `cs` whose number contains `num`, in their order in `cs`. */
  function FilterByNumber(cs: seq<Contact>, num: string): seq<Contact>
  {
    if cs == [] then []
    else
      var last := cs[|cs| - 1];
      FilterByNumber(cs[..|cs| - 1], num) + (if Matches(last, num) then [last] else [])
  }

  /** `r` is `s` with some elements deleted, the rest kept in order. */
  ghost predicate IsSubsequence<T>(r: seq<T>, s: seq<T>)
    decreases |s|
  {
    if r == [] then true
    else if s == [] then false
    else
      (r[|r| - 1] == s[|s| - 1] && IsSubsequence(r[..|r| - 1], s[..|s| - 1]))
      || IsSubsequence(r, s[..|s| - 1])
  }

  /** The filter of a concatenation is the concatenation of the filters. */
  lemma {:induction false} FilterConcat(a: seq<Contact>, b: seq<Contact>, num: string)
    ensures FilterByNumber(a + b, num) == FilterByNumber(a, num) + FilterByNumber(b, num)
    decreases |b|
  {
    if b != [] {
      var b' := b[..|b| - 1];
      assert (a + b)[..|a + b| - 1] == a + b';
      FilterConcat(a, b', num);
    } else {
      assert a + b == a;
    }
  }

  /**
   * Every contact is kept exactly as many times as it occurs in the input when
   * its number contains `num`, and not at all otherwise: nothing is invented,
   * nothing matching is dropped, duplicates survive.
   */
  lemma {:induction false} FilterCounts(cs: seq<Contact>, num: string)
    ensures forall c :: multiset(FilterByNumber(cs, num))[c] == if Matches(c, num) then multiset(cs)[c] else 0
  {
    if cs != [] {
      var init, last := cs[..|cs| - 1], cs[|cs| - 1];
      FilterCounts(init, num);
      assert cs == init + [last];
    }
  }

  /** A contact is in the result exactly when it is cached and its number contains `num`. */
  lemma FilterMembership(cs: seq<Contact>, num: string, c: Contact)
    ensures c in FilterByNumber(cs, num) <==> c in cs && IsSubstring(num, c.number)
  {
    FilterCounts(cs, num);
    ContainsIsSubstring(c.number, num);
    assert c in FilterByNumber(cs, num) <==> multiset(FilterByNumber(cs, num))[c] > 0;
    assert c in cs <==> multiset(cs)[c] > 0;
  }

  /** The result keeps the input's order: it is a subsequence of it. */
  lemma {:induction false} FilterIsSubsequence(cs: seq<Contact>, num: string)
    ensures IsSubsequence(FilterByNumber(cs, num), cs)
  {
    if cs != [] {
      var init, last := cs[..|cs| - 1], cs[|cs| - 1];
      FilterIsSubsequence(init, num);
      var r := FilterByNumber(cs, num);
      if Matches(last, num) {
        assert r[..|r| - 1] == FilterByNumber(init, num);
      } else {
        assert r == FilterByNumber(init, num);
        SubsequenceOfPrefix(r, cs);
      }
    }
  }

  /** A subsequence of `s` minus its last element is a subsequence of `s`. */
  lemma SubsequenceOfPrefix<T>(r: seq<T>, s: seq<T>)
    requires s != [] && IsSubsequence(r, s[..|s| - 1])
    ensures IsSubsequence(r, s)
  {
  }

  /** Searching for the empty string returns the cached list unchanged. */
  lemma {:induction false} FilterEmptyNeedle(cs: seq<Contact>)
    ensures FilterByNumber(cs, "") == cs
  {
    if cs != [] {
      FilterEmptyNeedle(cs[..|cs| - 1]);
    }
  }

  /** Searching the result of a search again with the same string changes nothing. */
  lemma {:induction false} FilterIdempotent(cs: seq<Contact>, num: string)
    ensures FilterByNumber(FilterByNumber(cs, num), num) == FilterByNumber(cs, num)
  {
    if cs != [] {
      var init, last := cs[..|cs| - 1], cs[|cs| - 1];
      FilterIdempotent(init, num);
      var tail := if Matches(last, num) then [last] else [];
      FilterConcat(FilterByNumber(init, num), tail, num);
      if Matches(last, num) {
        assert tail == [last] + [];
      }
    }
  }

  /** The entries one row with a positive phone flag contributes: one per number, in order. */
  function Expand(name: string, numbers: seq<string>): seq<Contact>
  {
    if numbers == [] then []
    else Expand(name, numbers[..|numbers| - 1]) + [Contact(name, numbers[|numbers| - 1])]
  }

  /** The row flag `getContactList` tests before querying a contact's numbers. */
  predicate HasPhone(row: ContactRow)
  {
    row.hasPhone > 0
  }

  /**
   * Walks the provider rows in order, expanding each flagged row into its numbers and
   * skipping the others; a flagged row whose phone query returned no cursor fails.
   */
  function CollectRows(rows: seq<ContactRow>): Result<seq<Contact>, LoadError>
  {
    if rows == [] then Success([])
    else
      match CollectRows(rows[..|rows| - 1])
      case Failure(e) => Failure(e)
      case Success(acc) =>
        var row := rows[|rows| - 1];
        if !HasPhone(row) then Success(acc)
        else if row.phones.None? then Failure(PhoneCursorMissing)
        else Success(acc + Expand(row.name, row.phones.value))
  }

  /** `getContactList`: a missing contacts cursor gives the empty list. */
  function ContactList(source: Option<seq<ContactRow>>): Result<seq<Contact>, LoadError>
  {
    match source
    case None => Success([])
    case Some(rows) => CollectRows(rows)
  }

  /** The number of numbers the flagged rows carry. */
  function PhoneCount(rows: seq<ContactRow>): nat
  {
    if rows == [] then 0
    else
      var row := rows[|rows| - 1];
      PhoneCount(rows[..|rows| - 1]) + (if HasPhone(row) && row.phones.Some? then |row.phones.value| else 0)
  }

  /** `Expand` gives exactly one entry per number, all with the row's name, in number order. */
  lemma {:induction false} ExpandLayout(name: string, numbers: seq<string>)
    ensures |Expand(name, numbers)| == |numbers|
    ensures forall j :: 0 <= j < |numbers| ==> Expand(name, numbers)[j] == Contact(name, numbers[j])
  {
    if numbers != [] {
      ExpandLayout(name, numbers[..|numbers| - 1]);
    }
  }

  /** Loading fails exactly when some flagged row has no phone cursor. */
  lemma {:induction false} CollectRowsFails(rows: seq<ContactRow>)
    ensures CollectRows(rows).Failure? <==> exists i :: 0 <= i < |rows| && HasPhone(rows[i]) && rows[i].phones.None?
  {
    if rows != [] {
      var init := rows[..|rows| - 1];
      CollectRowsFails(init);
      if exists i :: 0 <= i < |init| && HasPhone(init[i]) && init[i].phones.None? {
        var i :| 0 <= i < |init| && HasPhone(init[i]) && init[i].phones.None?;
        assert rows[i] == init[i];
      }
      if exists i :: 0 <= i < |rows| && HasPhone(rows[i]) && rows[i].phones.None? {
        var i :| 0 <= i < |rows| && HasPhone(rows[i]) && rows[i].phones.None?;
        if i < |init| {
          assert init[i] == rows[i];
        }
      }
    }
  }

  /** Once a prefix of the rows fails, loading all of them fails too. */
  lemma {:induction false} CollectRowsFailurePersists(rows: seq<ContactRow>, k: nat)
    requires k <= |rows| && CollectRows(rows[..k]).Failure?
    ensures CollectRows(rows).Failure?
    decreases |rows| - k
  {
    if k < |rows| {
      assert rows[..k + 1][..k] == rows[..k];
      CollectRowsFailurePersists(rows, k + 1);
    } else {
      assert rows[..k] == rows;
    }
  }

  /** A successful load has exactly as many entries as the flagged rows have numbers. */
  lemma {:induction false} CollectRowsLength(rows: seq<ContactRow>)
    requires CollectRows(rows).Success?
    ensures |CollectRows(rows).value| == PhoneCount(rows)
  {
    if rows != [] {
      var init, row := rows[..|rows| - 1], rows[|rows| - 1];
      CollectRowsLength(init);
      if HasPhone(row) {
        ExpandLayout(row.name, row.phones.value);
      }
    }
  }

  /**
   * In a successful load, number `j` of flagged row `i` sits right after the entries
   * of the rows before `i`, paired with row `i`'s name. So each flagged row
   * contributes a contiguous block in number order, and unflagged rows none.
   */
  lemma {:induction false} CollectRowsEntry(rows: seq<ContactRow>, i: nat, j: nat)
    requires CollectRows(rows).Success?
    requires i < |rows| && HasPhone(rows[i]) && rows[i].phones.Some? && j < |rows[i].phones.value|
    ensures PhoneCount(rows[..i]) + j < |CollectRows(rows).value|
    ensures CollectRows(rows).value[PhoneCount(rows[..i]) + j] == Contact(rows[i].name, rows[i].phones.value[j])
  {
    var init, row := rows[..|rows| - 1], rows[|rows| - 1];
    var acc := CollectRows(init).value;
    CollectRowsLength(init);
    if HasPhone(row) {
      ExpandLayout(row.name, row.phones.value);
      assert CollectRows(rows).value == acc + Expand(row.name, row.phones.value);
    } else {
      assert CollectRows(rows).value == acc;
    }
    if i < |init| {
      assert rows[..i] == init[..i];
      assert init[i] == rows[i];
      CollectRowsEntry(init, i, j);
    } else {
      assert rows[..i] == init;
    }
  }

  /** Every loaded entry pairs the name of a flagged row with one of that row's numbers. */
  lemma {:induction false} CollectRowsSound(rows: seq<ContactRow>, c: Contact)
    requires CollectRows(rows).Success? && c in CollectRows(rows).value
    ensures exists i :: 0 <= i < |rows| && HasPhone(rows[i]) && rows[i].phones.Some?
                        && c.name == rows[i].name && c.number in rows[i].phones.value
  {
    var init, row := rows[..|rows| - 1], rows[|rows| - 1];
    var acc := CollectRows(init).value;
    if c in acc {
      CollectRowsSound(init, c);
      var i :| 0 <= i < |init| && HasPhone(init[i]) && init[i].phones.Some?
               && c.name == init[i].name && c.number in init[i].phones.value;
      assert rows[i] == init[i];
    } else {
      var numbers := row.phones.value;
      ExpandLayout(row.name, numbers);
      var j :| 0 <= j < |numbers| && Expand(row.name, numbers)[j] == c;
      assert rows[|rows| - 1] == row;
    }
  }

  /** Loading an absent or empty provider gives the empty list, not an error. */
  lemma EmptySourceLoadsNothing(rows: seq<ContactRow>)
    requires forall i :: 0 <= i < |rows| ==> !HasPhone(rows[i])
    ensures ContactList(None) == Success([])
    ensures ContactList(Some(rows)) == Success([])
  {
    CollectRowsFails(rows);
    CollectRowsLength(rows);
    NoFlaggedRowsCountZero(rows);
  }

  /** Rows that are all unflagged carry no numbers. */
  lemma {:induction false} NoFlaggedRowsCountZero(rows: seq<ContactRow>)
    requires forall i :: 0 <= i < |rows| ==> !HasPhone(rows[i])
    ensures PhoneCount(rows) == 0
  {
    if rows != [] {
      NoFlaggedRowsCountZero(rows[..|rows| - 1]);
    }
  }

  /** The provider of the worked example: one contact, Alice, with two numbers. */
  function AliceRows(): seq<ContactRow>
  {
    [ContactRow("1", "Alice", 1, Some(["555-1000", "555-2000"]))]
  }

  /** Loading the worked example gives one entry per number of Alice's, in order. */
  lemma AliceLoads()
    ensures ContactList(Some(AliceRows())) == Success([Contact("Alice", "555-1000"), Contact("Alice", "555-2000")])
  {
    var rows, numbers := AliceRows(), ["555-1000", "555-2000"];
    assert rows[..0] == [];
    assert numbers[..1] == ["555-1000"];
    assert ["555-1000"][..0] == [];
    assert Expand("Alice", ["555-1000"]) == [Contact("Alice", "555-1000")];
    assert Expand("Alice", numbers) == [Contact("Alice", "555-1000"), Contact("Alice", "555-2000")];
    assert CollectRows(rows) == Success([] + Expand("Alice", numbers));
    assert [] + Expand("Alice", numbers) == Expand("Alice", numbers);
    assert ContactList(Some(rows)) == CollectRows(rows);
  }

  /** Searching the worked example for "1000" finds only the entry with that number. */
  lemma AliceSearchOne()
    ensures FilterByNumber([Contact("Alice", "555-1000"), Contact("Alice", "555-2000")], "1000") == [Contact("Alice", "555-1000")]
  {
    var a1, a2 := Contact("Alice", "555-1000"), Contact("Alice", "555-2000");
    assert [a1, a2][..1] == [a1];
    assert [a1][..0] == [];
    OccursInside("555-1000", "1000", 4);
    FirstCharAbsent(a2.number, "1000");
  }

  /** Searching the worked example for "555" finds both entries. */
  lemma AliceSearchBoth()
    ensures FilterByNumber([Contact("Alice", "555-1000"), Contact("Alice", "555-2000")], "555") == [Contact("Alice", "555-1000"), Contact("Alice", "555-2000")]
  {
  }

  /** Searching the worked example for "9999" finds nothing. */
  lemma AliceSearchNone()
    ensures FilterByNumber([Contact("Alice", "555-1000"), Contact("Alice", "555-2000")], "9999") == []
  {
    var a1, a2 := Contact("Alice", "555-1000"), Contact("Alice", "555-2000");
    assert [a1, a2][..1] == [a1];
    assert [a1][..0] == [];
    FirstCharAbsent(a1.number, "9999");
    FirstCharAbsent(a2.number, "9999");
  }
}
