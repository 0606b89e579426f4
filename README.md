# SafePass: credential records, the entry store and the JSON reader

SafePass is a local password manager. This project models the part of it that
holds and reloads credentials:

- **Entry** (`src/main/model/Entry.java`): an immutable record of a name,
  username, password, url and notes. It is a Dafny datatype. Its constructor is
  the Java constructor and its destructors are the five getters, so each getter
  returns exactly what was passed in and nothing can change an entry afterwards.
  The constructor's documented precondition (non-empty name, username, url and
  notes) is the predicate `Entry.Valid`. Java does not check it, so the datatype
  does not either. `toJson` is `Entry.ToJson`.
- **Password** (`src/main/model/Password.java`): modelled by its text alone.
- **JSON**: an abstract tree of null, booleans, numbers, strings, arrays and
  objects. `Json.GetString` and `Json.GetArray` are org.json's `getString` and
  `getJSONArray`. Each fails on a missing key or a value of the wrong type.
- **Reader** (`src/main/persistence/JsonReader.java`): `parseFile`,
  `addEntries` and `addEntry` are the methods `ParseFile`, `AddEntries` and
  `AddEntry`. They fill a `File` in place, as the Java does. Each is proved
  against a pure function (`ReadVault`, `ReadEntries`, `ParseEntry`). The
  properties are proved about those functions: the name comes from `"name"`,
  there is one entry per array element, order is kept, the five fields come
  from the element's strings, the first bad key or element is the error, and
  reading back `toJson` recovers the entry.
- **ListOfEntries**: an ordered, append-only store, modelled as a class over
  a `seq<Entry>`. ListOfEntries.java is not part of this model. The class
  follows the contract `src/test/model/ListOfEntriesTest.java` exercises, and
  the test's scenarios are client methods in `list_of_entries_test.dfy`. The
  out-of-bounds error of `GetEntryAtIndex` is taken from `ArrayList.get`; the
  test does not exercise it.
- **File** (`model.File`): its class is not part of this model. The reader only
  uses `new File(name)` and `addEntry`, so it is modelled as a name plus a
  `ListOfEntries`.

The reader builds entries without checking the constructor's precondition. An
entry read from JSON meets it exactly when its four plain strings are non-empty
(`JsonReader.ParseEntryValidIff`).

SafePass is meant to store its vault encrypted (salts, key derivation,
per-field ciphertext). The code modelled here reads and writes plaintext
strings, and no cipher, key derivation or byte codec appears in it. The model
follows the code, so it has no crypto layer.

## Model

| member | source | states |
|---|---|---|
| `Json.GetString` | src/main/persistence/JsonReader.java:64-68 | succeeds exactly when the key is present and holds a string, and returns that string; otherwise fails with "not found" (key absent) or "not a string" |
| `Json.GetArray` | src/main/persistence/JsonReader.java:54 | succeeds exactly when the key is present and holds an array, and returns its elements; otherwise fails with "not found" or "not an array" |
| `EntryModel.Entry.ToJson` | src/main/model/Entry.java:48-57 | an object whose key set is exactly {name, username, password, url, notes}; name, username, url and notes map to the entry's strings, and password maps to the password's own JSON form |
| `JsonReader.ParseEntry` | src/main/persistence/JsonReader.java:63-70 | succeeds exactly when all five keys hold strings; the built entry's name, username, url, notes and password text are those strings; a failure is the error of the first key, in the order name, username, password, url, notes, that is missing or not a string |
| `JsonReader.ElementToEntry` | src/main/persistence/JsonReader.java:55-57 | succeeds exactly when the element is an object whose five entry keys all hold strings, and the built entry's fields are those strings; the cast failure is the error exactly when the element is not an object |
| `JsonReader.ReadEntries` | src/main/persistence/JsonReader.java:53-59 | succeeds exactly when every element can be read; then there is one entry per element, and the i-th entry comes from the i-th element; otherwise the error is that of the first unreadable element |
| `JsonReader.ReadVault` | src/main/persistence/JsonReader.java:44-49 | succeeds exactly when "name" is a string, "entries" is an array and every element reads; the name is the "name" string; the entry count is the array length; the order is kept; a bad "name" is reported before a bad "entries", and otherwise the error is that of the first unreadable element |
| `JsonReader.ReadEntriesSnoc` | src/main/persistence/JsonReader.java:55-58 | reading one more readable element appends exactly that element's entry to a successful read |
| `JsonReader.ReadEntriesFirstFailure` | src/main/persistence/JsonReader.java:55-58 | an unreadable element after a readable prefix makes its error the error of the whole array |
| `JsonReader.ToJsonRoundTrip` | src/main/model/Entry.java:51-55 | reading back `toJson` recovers name, username, url and notes for any JSON form of the password; it succeeds exactly when that form is a string, which becomes the password text, and it fails on "password" otherwise; written with the password's text, the entry comes back unchanged |
| `JsonReader.ReadEntriesOfToJson` | src/main/persistence/JsonReader.java:55-71 | an array of `toJson` objects (passwords as text) reads back as the same entries in the same order |
| `JsonReader.ParseEntryValidIff` | src/main/persistence/JsonReader.java:64-70 | an entry read from JSON meets the Entry constructor's precondition exactly when its name, username, url and notes strings are non-empty |
| `JsonReader.AddEntry` | src/main/persistence/JsonReader.java:63-72 | appends the entry `ParseEntry` builds to the file and touches nothing else; on a bad field it fails with that error and leaves the file unchanged |
| `JsonReader.AddEntries` | src/main/persistence/JsonReader.java:53-59 | on a missing or non-array "entries" it fails and leaves the file unchanged; otherwise it appends the `ReadEntries` result in order; on a bad element it fails with that element's error after appending the entries of the elements before it |
| `JsonReader.ParseFile` | src/main/persistence/JsonReader.java:44-49 | returns a new File exactly when `ReadVault` succeeds, with `ReadVault`'s name and entries; otherwise it returns `ReadVault`'s error and no File |
| `EntryCollections.ListOfEntries.constructor` | src/test/model/ListOfEntriesTest.java:29-32 | a new store is empty |
| `EntryCollections.ListOfEntries.FromList` | src/test/model/ListOfEntriesTest.java:34-42 | a store built from a list holds exactly its elements in its order |
| `EntryCollections.ListOfEntries.AddEntry` | src/test/model/ListOfEntriesTest.java:58-64 | appends: the size grows by one, the new entry is last, and every earlier entry keeps its index |
| `EntryCollections.ListOfEntries.GetSizeOfEntries` | src/test/model/ListOfEntriesTest.java:29-32 | the number of stored entries |
| `EntryCollections.ListOfEntries.GetEntryAtIndex` | src/test/model/ListOfEntriesTest.java:44-56 | the entry at the index when 0 <= index < size, and an out-of-bounds error for every other index |
| `EntryCollections.ListOfEntries.GetEntries` | src/test/model/ListOfEntriesTest.java:34-42 | the stored entries, same length, same elements, same order |
| `EntryCollections.File.constructor` | src/main/persistence/JsonReader.java:46 | a new File has the given name and an empty, freshly allocated store |
| `EntryCollections.File.AddEntry` | src/main/persistence/JsonReader.java:71 | appends the entry to the file's store |

## Left out

- Password strength estimation: `Password`'s constructor runs the nbvcxz estimator, and its `Result`/`Feedback` objects belong to that library. A password here is only its text.
- Password setters: `Password.setPassword`, `setResult` and `setFeedback` can change a password object that an `Entry` shares. The model's password is an immutable value.
- `Password.toJson`: `Entry.toJson` calls it, but Password.java does not define it. `EntryModel.Entry.ToJson` therefore takes the password's JSON form as a parameter. The round trip is stated for every such form.
- `JsonReader.read` and `readFile`: reading the file from disk and parsing the JSON text with org.json are I/O and library code. The model starts from an already parsed JSON object.
- `JsonWriter` is not part of this model. Only `Entry.toJson` is modelled on the write side.
- `File.viewEntry`, `File.removeEntry` and the rest of `File`: the File class is not part of this model.
- ListOfEntries.java is not part of this model. The class's contract comes from ListOfEntriesTest.java, except the out-of-bounds error of `GetEntryAtIndex`, which follows `ArrayList.get` and which no test exercises.
- Aliasing: Java's `ListOfEntries(list)` and `getEntries()` may share the caller's `ArrayList`. The model copies sequence values, so no aliasing is captured.
- `EntryCollections.ListOfEntries.GetSizeOfEntries`: the size is an unbounded integer; Java's `int` limit of 2^31 - 1 entries is not modelled.
- The interactive menu of `src/main/ui/PasswordManager.java`, its prompts, password and passphrase generation, and the event log are user interface code and foreign library calls.
- Encryption, key derivation, salts and byte encoding: no such code exists in the modelled sources.
