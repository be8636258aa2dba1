# Contact cache of the call manager, modelled in Dafny

`ContactsManager` keeps two in-memory lists of contacts for the call screens. Each
contact is a display name paired with one phone number.

- The primary list (`mContacts`) is rebuilt wholesale from the device's contacts provider.
- The current list (`mCurrentContacts`) holds the result of the last search by number.

The class also resolves a single number to a caller name through the provider's
reverse lookup. This project models the following:

- `Contact` as a value (`ContactLists.Contact`).
- The provider as plain data. The contacts cursor is `Option<seq<ContactRow>>`; `None` is a
  null cursor. Each row carries its id, display name, phone flag and the numbers its phone
  query returns. A phone query with no cursor is `None`.
- `getContactList` as the function `ContactList` plus a method with the source's nested loops.
- `getContactsByNum` as the function `FilterByNumber` plus a method with the source's loop.
- `getCallerName` as a function of the permission flag and the rows of the reverse lookup.
- The class `ContactsManagement.ContactsManager`, with the two lists as mutable `seq` fields.
- The worker steps of the two background tasks as methods that reassign those fields.

`String.contains` is modelled by `Text.Contains` and proved equal to "occurs at some
position" (`Text.IsSubstring`).

Files: `wrappers.dfy` (Option, Result), `text.dfy` (substring search),
`contact_lists.dfy` (values, specification functions, lemmas), `contacts_manager.dfy`
(the class, its loops and `CallerName`).

## Model

| member | source | states |
|---|---|---|
| `Text.ContainsIsSubstring` | app/src/main/java/com/chooloo/www/callmanager/ContactsManager.java:102 | the number test holds exactly when the search string occurs at some position of the number (literal, case-sensitive; the empty string occurs everywhere) |
| `ContactsManagement.ContactsManager.GetContactsByNum` | app/src/main/java/com/chooloo/www/callmanager/ContactsManager.java:99-108 | the loop returns exactly `FilterByNumber(contacts, num)`; it has no `modifies` clause, so neither list changes |
| `ContactLists.FilterMembership` | app/src/main/java/com/chooloo/www/callmanager/ContactsManager.java:101-105 | a contact is in the search result iff it is in the primary list and its number contains the search string |
| `ContactLists.FilterCounts` | app/src/main/java/com/chooloo/www/callmanager/ContactsManager.java:100-107 | each matching contact appears as often as in the primary list, each non-matching one never: duplicates are kept, nothing is added or dropped |
| `ContactLists.FilterIsSubsequence` | app/src/main/java/com/chooloo/www/callmanager/ContactsManager.java:100-107 | the search result keeps the primary list's order (it is a subsequence of it) |
| `ContactLists.FilterEmptyNeedle` | app/src/main/java/com/chooloo/www/callmanager/ContactsManager.java:102 | searching for the empty string returns the primary list unchanged |
| `ContactLists.FilterIdempotent` | app/src/main/java/com/chooloo/www/callmanager/ContactsManager.java:99-108 | searching a search result again with the same string returns it unchanged |
| `ContactLists.FilterConcat` | app/src/main/java/com/chooloo/www/callmanager/ContactsManager.java:101-106 | the search over a concatenation is the concatenation of the searches, so each contact is judged on its own |
| `ContactsManagement.ContactsManager.GetContactList` | app/src/main/java/com/chooloo/www/callmanager/ContactsManager.java:37-72 | the nested row and number loops return exactly `ContactList(source)`, including the failure when a flagged row has no phone cursor |
| `ContactLists.ExpandLayout` | app/src/main/java/com/chooloo/www/callmanager/ContactsManager.java:57-63 | a row's k numbers give exactly k entries; entry j is the row's name with number j |
| `ContactLists.CollectRowsLength` | app/src/main/java/com/chooloo/www/callmanager/ContactsManager.java:43-71 | a successful load has as many entries as the flagged rows have numbers in total |
| `ContactLists.CollectRowsEntry` | app/src/main/java/com/chooloo/www/callmanager/ContactsManager.java:50-63 | number j of flagged row i is at position (numbers of the flagged rows before i) + j, paired with row i's name; unflagged rows take no positions |
| `ContactLists.CollectRowsSound` | app/src/main/java/com/chooloo/www/callmanager/ContactsManager.java:44-66 | every loaded entry pairs a flagged row's name with one of that row's numbers |
| `ContactLists.CollectRowsFails` | app/src/main/java/com/chooloo/www/callmanager/ContactsManager.java:50-64 | loading fails iff some flagged row's phone query returned no cursor |
| `ContactLists.CollectRowsFailurePersists` | app/src/main/java/com/chooloo/www/callmanager/ContactsManager.java:44-66 | a failure on a row ends the whole load with a failure; no partial list is returned |
| `ContactLists.EmptySourceLoadsNothing` | app/src/main/java/com/chooloo/www/callmanager/ContactsManager.java:43-71 | a null cursor, an empty cursor or one whose rows are all unflagged loads the empty list, not an error |
| `ContactLists.AliceLoads` | app/src/main/java/com/chooloo/www/callmanager/ContactsManager.java:37-72 | a provider holding Alice with numbers 555-1000 and 555-2000 loads exactly those two entries, in that order |
| `ContactLists.AliceSearchOne` | app/src/main/java/com/chooloo/www/callmanager/ContactsManager.java:99-108 | in that list, searching "1000" finds only Alice's 555-1000 entry |
| `ContactLists.AliceSearchBoth` | app/src/main/java/com/chooloo/www/callmanager/ContactsManager.java:99-108 | in that list, searching "555" finds both entries |
| `ContactLists.AliceSearchNone` | app/src/main/java/com/chooloo/www/callmanager/ContactsManager.java:99-108 | in that list, searching "9999" finds nothing |
| `ContactsManagement.CallerName` | app/src/main/java/com/chooloo/www/callmanager/ContactsManager.java:115-136 | a name is returned iff permission is granted and the lookup returned a cursor with at least one row; the name is the first row's |
| `ContactsManagement.CallerNameFailuresAgree` | app/src/main/java/com/chooloo/www/callmanager/ContactsManager.java:117-132 | no permission, no cursor and no row all give the same empty outcome; with no permission the provider's content does not matter |
| `ContactsManagement.ContactsManager.constructor` | app/src/main/java/com/chooloo/www/callmanager/ContactsManager.java:28-29 | both lists start empty; the cache invariant holds |
| `ContactsManagement.ContactsManager.GetContacts` | app/src/main/java/com/chooloo/www/callmanager/ContactsManager.java:79-81 | returns the primary list |
| `ContactsManagement.ContactsManager.GetCurrentContacts` | app/src/main/java/com/chooloo/www/callmanager/ContactsManager.java:88-90 | returns the list from the last search |
| `ContactsManagement.ContactsManager.UpdateContacts` | app/src/main/java/com/chooloo/www/callmanager/ContactsManager.java:171-180 | on a successful load the primary list becomes the loaded list and the status is unset (null); on a failure the primary list is kept and the status is the error message; the search result is untouched and the cache invariant is kept |
| `ContactsManagement.ContactsManager.LookupContacts` | app/src/main/java/com/chooloo/www/callmanager/ContactsManager.java:216-226 | the search result becomes the search of the primary list for the number, the status is "1", the primary list is untouched, and afterwards every cached search result contains the number searched for |

## Left out

- Threading: `AsyncTask` scheduling, `execute()`, and the two launchers `getContactByNumInBackground` and `updateContactsInBackground` (lines 141-156). They only start a task. The lookup launcher returns the old search result before the task has run, which is a concurrency effect. Each task's worker step is modelled as one sequential method call.
- Progress dialogs, toasts, `publishProgress`/`onProgressUpdate` and `onPostExecute` (including its `s == "0"` reference comparison) are user interface.
- Timber logging has no effect on the lists.
- The Android provider queries, column lookups, `Uri.encode`, cursor closing and the `getCount()` call are not modelled. Their results are plain input data (rows, numbers, lookup names). A cursor that throws while being read is not modelled; the only failure modelled is a phone query that returns no cursor, where `moveToNext` on null throws.
- The permission check (`ActivityCompat.checkSelfPermission`) is the boolean input `permitted` of `CallerName`.
- LookupContacts: always reports "1". Strings in the model are never null, so `getContactsByNum` cannot throw, and the "0" branch (lines 222-224) cannot be reached.
- Null strings (a null name, number or search string) are not modelled; all strings are `seq<char>`.
- Aliasing is not modelled. `getContacts` and `getCurrentContacts` return the live `ArrayList`, which a caller could mutate; the model returns the sequence value.
- app/src/main/java/com/chooloo/www/koler/interactor/contacts/ContactsInteractorImpl.kt: provider deletes and updates, intents, and callbacks into interactors whose code is not part of this model.
