/**
 * Rebuilding a vault from a parsed JSON object (src/main/persistence/JsonReader.java:
 * `parseFile`, `addEntries`, `addEntry`). The pure lookups are functions that
 * specify the methods, which mutate the `File` being filled as the Java does.
 */
module JsonReader {
  import opened Wrappers
  import opened Json
  import opened EntryModel
  import opened EntryCollections

  const FileNameKey: string := "name"
  const EntriesKey: string := "entries"

  /** The value a successful read denotes: the vault's name and its entries in order. */
  datatype VaultContents = VaultContents(name: string, entries: seq<Entry>)

  /**
   * The entry `addEntry` builds from one JSON object: its five keys are read in
   * the order name, username, password, url, notes, and the first that is
   * missing or not a string is the error.
   */
  function ParseEntry(obj: map<string, JsonValue>): (r: Result<Entry, JsonError>)
    ensures r.Success? <==> forall k :: k in EntryKeys ==> k in obj && obj[k].JString?
    ensures r.Success? ==>
      && obj[NameKey] == JString(r.value.name)
      && obj[UsernameKey] == JString(r.value.username)
      && obj[PasswordKey] == JString(r.value.password.text)
      && obj[UrlKey] == JString(r.value.url)
      && obj[NotesKey] == JString(r.value.notes)
    ensures r.Failure? ==>
      exists i :: 0 <= i < |EntryKeyOrder| && GetString(obj, EntryKeyOrder[i]) == Failure(r.error)
                  && forall j :: 0 <= j < i ==> GetString(obj, EntryKeyOrder[j]).Success?
  {
    assert EntryKeyOrder[0] == NameKey && EntryKeyOrder[1] == UsernameKey && EntryKeyOrder[2] == PasswordKey
        && EntryKeyOrder[3] == UrlKey && EntryKeyOrder[4] == NotesKey;
    var name :- GetString(obj, NameKey);
    var username :- GetString(obj, UsernameKey);
    var password :- GetString(obj, PasswordKey);
    var url :- GetString(obj, UrlKey);
    var notes :- GetString(obj, NotesKey);
    Success(Entry(name, username, Password(password), url, notes))
  }

  /** One element of the "entries" array: cast to an object, then `addEntry`'s read. */
  function ElementToEntry(j: JsonValue): (r: Result<Entry, JsonError>)
    ensures r.Success? <==> j.JObject? && forall k :: k in EntryKeys ==> k in j.members && j.members[k].JString?
    ensures r.Success? ==>
      && j.members[NameKey] == JString(r.value.name)
      && j.members[UsernameKey] == JString(r.value.username)
      && j.members[PasswordKey] == JString(r.value.password.text)
      && j.members[UrlKey] == JString(r.value.url)
      && j.members[NotesKey] == JString(r.value.notes)
    ensures r.Failure? ==> (r.error == NotAnObject <==> !j.JObject?)
  {
    match j
    case JObject(members) => ParseEntry(members)
    case _ => Failure(NotAnObject)
  }

  /**
   * The entries `addEntries` appends for the array `items`: one per element, in
   * order, and the error of the first element that cannot be read otherwise.
   */
  function ReadEntries(items: seq<JsonValue>): (r: Result<seq<Entry>, JsonError>)
    ensures r.Success? <==> forall i :: 0 <= i < |items| ==> ElementToEntry(items[i]).Success?
    ensures r.Success? ==> |r.value| == |items|
    ensures r.Success? ==> forall i :: 0 <= i < |items| ==> ElementToEntry(items[i]) == Success(r.value[i])
    ensures r.Failure? ==>
      exists k :: 0 <= k < |items| && ElementToEntry(items[k]) == Failure(r.error)
                  && forall i :: 0 <= i < k ==> ElementToEntry(items[i]).Success?
  {
    if items == [] then Success([])
    else
      var first :- ElementToEntry(items[0]);
      var rest :- ReadEntries(items[1..]);
      Success([first] + rest)
  }

  /**
   * What `parseFile` reads from the top-level object: the string under "name",
   * then the entries of the array under "entries".
   */
  function ReadVault(obj: map<string, JsonValue>): (r: Result<VaultContents, JsonError>)
    ensures r.Success? <==>
      && GetString(obj, FileNameKey).Success?
      && GetArray(obj, EntriesKey).Success?
      && ReadEntries(obj[EntriesKey].items).Success?
    ensures r.Success? ==> obj[FileNameKey] == JString(r.value.name)
    ensures r.Success? ==> |r.value.entries| == |obj[EntriesKey].items|
    ensures r.Success? ==> forall i :: 0 <= i < |r.value.entries| ==>
      ElementToEntry(obj[EntriesKey].items[i]) == Success(r.value.entries[i])
    ensures GetString(obj, FileNameKey).Failure? ==> r == Failure(GetString(obj, FileNameKey).error)
    ensures GetString(obj, FileNameKey).Success? && GetArray(obj, EntriesKey).Failure? ==>
      r == Failure(GetArray(obj, EntriesKey).error)
    ensures GetString(obj, FileNameKey).Success? && GetArray(obj, EntriesKey).Success?
            && ReadEntries(obj[EntriesKey].items).Failure? ==>
      r == Failure(ReadEntries(obj[EntriesKey].items).error)
  {
    var name :- GetString(obj, FileNameKey);
    var items :- GetArray(obj, EntriesKey);
    var entries :- ReadEntries(items);
    Success(VaultContents(name, entries))
  }

  /** Reading one more element extends a successful read by that element's entry. */
  lemma {:induction false} ReadEntriesSnoc(items: seq<JsonValue>, j: JsonValue)
    requires ReadEntries(items).Success? && ElementToEntry(j).Success?
    ensures ReadEntries(items + [j]) == Success(ReadEntries(items).value + [ElementToEntry(j).value])
  {
    if items == [] {
      assert items + [j] == [j];
      var e := ElementToEntry(j).value;
      assert [j][1..] == [];
      assert [e] + [] == [e];
      assert ReadEntries(items).value + [e] == [e];
    } else {
      assert (items + [j])[0] == items[0];
      assert (items + [j])[1..] == items[1..] + [j];
      var first := ElementToEntry(items[0]).value;
      var rest := ReadEntries(items[1..]).value;
      assert ReadEntries(items).value == [first] + rest;
      ReadEntriesSnoc(items[1..], j);
      assert [first] + (rest + [ElementToEntry(j).value]) == ([first] + rest) + [ElementToEntry(j).value];
    }
  }

  /** A failing element at `k` after a readable prefix is the error of the whole array. */
  lemma ReadEntriesFirstFailure(items: seq<JsonValue>, k: nat)
    requires k < |items|
    requires ReadEntries(items[..k]).Success? && ElementToEntry(items[k]).Failure?
    ensures ReadEntries(items) == Failure(ElementToEntry(items[k]).error)
  {
    forall i | 0 <= i < k ensures ElementToEntry(items[i]).Success? {
      assert items[..k][i] == items[i];
    }
    var r := ReadEntries(items);
    var k' :| 0 <= k' < |items| && ElementToEntry(items[k']) == Failure(r.error)
               && forall i :: 0 <= i < k' ==> ElementToEntry(items[i]).Success?;
    assert k' == k;
  }

  /**
   * Reading back what `toJson` writes recovers the entry's name, username, url
   * and notes whatever the password's JSON form is; the read succeeds exactly
   * when that form is a string, whose text becomes the password. Written with
   * the password's text, the entry comes back unchanged.
   */
  lemma ToJsonRoundTrip(e: Entry, passwordJson: JsonValue)
    ensures ElementToEntry(e.ToJson(passwordJson)).Success? <==> passwordJson.JString?
    ensures ElementToEntry(e.ToJson(passwordJson)).Success? ==>
      var back := ElementToEntry(e.ToJson(passwordJson)).value;
      && back.name == e.name && back.username == e.username
      && back.url == e.url && back.notes == e.notes
      && JString(back.password.text) == passwordJson
    ensures ElementToEntry(e.ToJson(passwordJson)).Failure? ==>
      ElementToEntry(e.ToJson(passwordJson)).error == NotAString(PasswordKey)
    ensures ElementToEntry(e.ToJson(JString(e.password.text))) == Success(e)
  {
  }

  /** An array of entries written by `toJson` (passwords as their text) reads back as the same entries, in order. */
  lemma {:induction false} ReadEntriesOfToJson(es: seq<Entry>)
    ensures ReadEntries(seq(|es|, i requires 0 <= i < |es| => es[i].ToJson(JString(es[i].password.text)))) == Success(es)
  {
    var items := seq(|es|, i requires 0 <= i < |es| => es[i].ToJson(JString(es[i].password.text)));
    forall i | 0 <= i < |es| ensures ElementToEntry(items[i]) == Success(es[i]) {
      ToJsonRoundTrip(es[i], JString(es[i].password.text));
    }
    var r := ReadEntries(items);
    assert r.Success?;
    assert r.value == es;
  }

  /**
   * The reader calls the Entry constructor without checking its precondition:
   * an entry read from JSON meets it exactly when its name, username, url and
   * notes strings are non-empty.
   */
  lemma ParseEntryValidIff(obj: map<string, JsonValue>)
    requires ParseEntry(obj).Success?
    ensures ParseEntry(obj).value.Valid() <==>
      forall k :: k in {NameKey, UsernameKey, UrlKey, NotesKey} ==> obj[k] != JString("")
  {
  }

  /**
   * `addEntry(f, jsonObject)`: reads the five fields and appends the entry to
   * `f`; a missing or non-string field fails before `f` is touched.
   */
  method AddEntry(f: File, obj: map<string, JsonValue>) returns (outcome: Outcome<JsonError>)
    modifies f.list
    ensures outcome.Pass? <==> ParseEntry(obj).Success?
    ensures outcome.Pass? ==> f.list.entries == old(f.list.entries) + [ParseEntry(obj).value]
    ensures outcome.Fail? ==> outcome.error == ParseEntry(obj).error && f.list.entries == old(f.list.entries)
  {
    var name := GetString(obj, NameKey);
    if name.Failure? { return Fail(name.error); }
    var username := GetString(obj, UsernameKey);
    if username.Failure? { return Fail(username.error); }
    var password := GetString(obj, PasswordKey);
    if password.Failure? { return Fail(password.error); }
    var url := GetString(obj, UrlKey);
    if url.Failure? { return Fail(url.error); }
    var notes := GetString(obj, NotesKey);
    if notes.Failure? { return Fail(notes.error); }
    var entry := Entry(name.value, username.value, Password(password.value), url.value, notes.value);
    f.AddEntry(entry);
    outcome := Pass;
  }

  /**
   * `addEntries(f, jsonObject)`: appends one entry per element of the "entries"
   * array, in order. When an element cannot be read, the entries of the
   * elements before it have already been appended.
   */
  method AddEntries(f: File, obj: map<string, JsonValue>) returns (outcome: Outcome<JsonError>)
    modifies f.list
    ensures GetArray(obj, EntriesKey).Failure? ==>
      outcome == Fail(GetArray(obj, EntriesKey).error) && f.list.entries == old(f.list.entries)
    ensures GetArray(obj, EntriesKey).Success? ==>
      var items := GetArray(obj, EntriesKey).value;
      && (outcome.Pass? <==> ReadEntries(items).Success?)
      && (outcome.Pass? ==> f.list.entries == old(f.list.entries) + ReadEntries(items).value)
      && (outcome.Fail? ==> outcome.error == ReadEntries(items).error)
      && (outcome.Fail? ==>
            exists k :: 0 <= k < |items| && ReadEntries(items[..k]).Success?
                        && ElementToEntry(items[k]) == Failure(outcome.error)
                        && f.list.entries == old(f.list.entries) + ReadEntries(items[..k]).value)
  {
    var found := GetArray(obj, EntriesKey);
    if found.Failure? { return Fail(found.error); }
    var items := found.value;
    var i := 0;
    while i < |items|
      invariant 0 <= i <= |items|
      invariant ReadEntries(items[..i]).Success?
      invariant f.list.entries == old(f.list.entries) + ReadEntries(items[..i]).value
    {
      assert items[..i + 1] == items[..i] + [items[i]];
      match items[i] {
        case JObject(members) =>
          var added := AddEntry(f, members);
          if added.Fail? {
            ReadEntriesFirstFailure(items, i);
            return added;
          }
          ReadEntriesSnoc(items[..i], items[i]);
        case _ =>
          ReadEntriesFirstFailure(items, i);
          return Fail(NotAnObject);
      }
      i := i + 1;
    }
    assert items[..i] == items;
    outcome := Pass;
  }

  /**
   * `parseFile(jsonObject)`: a new File named by the "name" string and holding
   * the entries of the "entries" array, or the error that stopped the read, in
   * which case no File is returned.
   */
  method ParseFile(obj: map<string, JsonValue>) returns (r: Result<File, JsonError>)
    ensures r.Success? <==> ReadVault(obj).Success?
    ensures r.Success? ==> fresh(r.value) && fresh(r.value.list)
    ensures r.Success? ==> r.value.name == ReadVault(obj).value.name
    ensures r.Success? ==> r.value.list.entries == ReadVault(obj).value.entries
    ensures r.Failure? ==> r.error == ReadVault(obj).error
  {
    var name := GetString(obj, FileNameKey);
    if name.Failure? { return Failure(name.error); }
    var f := new File(name.value);
    var added := AddEntries(f, obj);
    if added.Fail? { return Failure(added.error); }
    r := Success(f);
  }
}
