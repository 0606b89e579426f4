/**
 * A credential record (src/main/model/Entry.java). The Java class sets its five
 * fields once, in the constructor, and has no mutators, so it is a value here:
 * the datatype constructor is the Java constructor and its destructors are the
 * getters `getName`, `getUsername`, `getPassword`, `getUrl` and `getNotes`.
 */
module EntryModel {
  import opened Json

  /** A password, modelled by its text alone (`Password.getPassword`). */
  datatype Password = Password(text: string)

  const NameKey: string := "name"
  const UsernameKey: string := "username"
  const PasswordKey: string := "password"
  const UrlKey: string := "url"
  const NotesKey: string := "notes"

  /** The five keys of a serialised entry, in the order the reader looks them up. */
  const EntryKeyOrder: seq<string> := [NameKey, UsernameKey, PasswordKey, UrlKey, NotesKey]

  /** The five keys of a serialised entry. */
  const EntryKeys: set<string> := {NameKey, UsernameKey, PasswordKey, UrlKey, NotesKey}

  datatype Entry = Entry(name: string, username: string, password: Password, url: string, notes: string) {

    /**
     * The constructor's documented precondition: name, username, url and notes
     * are non-empty (a password is never null here). Java does not check it and
     * neither does this datatype; it is a caller obligation.
     */
    predicate Valid() {
      |name| > 0 && |username| > 0 && |url| > 0 && |notes| > 0
    }

    /**
     * `toJson`: a fresh object with exactly the five entry keys. `passwordJson`
     * stands for `password.toJson()`, which Password.java does not define; it is
     * stored under "password" as given.
     */
    function ToJson(passwordJson: JsonValue): (j: JsonValue)
      ensures j.JObject? && j.members.Keys == EntryKeys
      ensures j.members[NameKey] == JString(name)
      ensures j.members[UsernameKey] == JString(username)
      ensures j.members[PasswordKey] == passwordJson
      ensures j.members[UrlKey] == JString(url)
      ensures j.members[NotesKey] == JString(notes)
    {
      JObject(map[
        NameKey := JString(name),
        UsernameKey := JString(username),
        PasswordKey := passwordJson,
        UrlKey := JString(url),
        NotesKey := JString(notes)])
    }
  }
}
