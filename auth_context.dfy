/**
 * The simulated sign-in of the web client (context/AuthContext.tsx): the user derived from a
 * user name, sign-out, and the user restored from browser storage when the provider starts.
 */
module AuthContext {
  import opened Wrappers
  import opened JsText

  datatype User = User(name: string, email: string, picture: string)

  /**
   * What storage holds under 'foodie-user': text that parses as a user, or text that does not
   * (`JSON.parse` throws).
   */
  datatype StoredValue = Parsed(user: User) | Unparsable(raw: string)

  const EMAIL_DOMAIN: string := "@example.com"
  const AVATAR_URL: string := "https://i.pravatar.cc/150?u="

  /** Lower-casing neither creates nor removes a space, so the first space stays where it was. */
  lemma LowerKeepsFirstSpace(s: string)
    ensures IndexOfChar(Lower(s), ' ') == IndexOfChar(s, ' ')
  {
    var l := Lower(s);
    assert forall j :: 0 <= j < |s| ==> (l[j] == ' ' <==> s[j] == ' ');
  }

  /**
   * The user `login(username)` makes: the name as given; the e-mail is the lower-cased name with
   * its first space (only) turned into '.', then "@example.com"; the avatar URL ends in the name
   * as given.
   */
  function MockUser(username: string): (u: User)
    ensures u.name == username
    ensures |u.email| == |username| + |EMAIL_DOMAIN| && u.email[|username|..] == EMAIL_DOMAIN
    ensures forall i :: 0 <= i < |username| ==>
              u.email[i] == (if i == IndexOfChar(username, ' ') then '.' else LowerChar(username[i]))
    ensures forall i :: 0 <= i < |username| ==> !IsAsciiUpper(u.email[i])
    ensures u.picture == AVATAR_URL + username
  {
    LowerKeepsFirstSpace(username);
    User(username, ReplaceFirst(Lower(username), ' ', '.') + EMAIL_DOMAIN, AVATAR_URL + username)
  }

  /** The user the start-up effect adopts from storage, if any. */
  function RestoredUser(stored: Option<StoredValue>): (u: Option<User>)
    ensures u.Some? <==> stored.Some? && stored.value.Parsed?
    ensures u.Some? ==> u.value == stored.value.user
  {
    if stored.Some? && stored.value.Parsed? then Some(stored.value.user) else None
  }

  /**
   * Storage after the start-up effect: unparsable non-empty text is removed; anything else
   * (nothing stored, a user, or the empty string, which is falsy and never parsed) stays.
   */
  function StoredAfterStart(stored: Option<StoredValue>): (r: Option<StoredValue>)
    ensures stored.Some? && stored.value.Unparsable? && stored.value.raw != "" ==> r == None
    ensures !(stored.Some? && stored.value.Unparsable? && stored.value.raw != "") ==> r == stored
  {
    if stored.Some? && stored.value.Unparsable? && stored.value.raw != "" then None else stored
  }

  class AuthProvider {
    var user: Option<User>
    var loading: bool
    /** localStorage['foodie-user']. */
    var stored: Option<StoredValue>

    /** Storage holds exactly the signed-in user. */
    ghost predicate InSync()
      reads this
    {
      stored == (if user.Some? then Some(Parsed(user.value)) else None)
    }

    constructor (storage: Option<StoredValue>)
      ensures user == None && loading && stored == storage
    {
      user, loading, stored := None, true, storage;
    }

    /** The start-up effect: adopt a stored user, drop unparsable text, and stop loading. */
    method Start()
      modifies this
      ensures !loading
      ensures user == (if RestoredUser(old(stored)).Some? then RestoredUser(old(stored)) else old(user))
      ensures stored == StoredAfterStart(old(stored))
      ensures old(user) == None && old(stored) != Some(Unparsable("")) ==> InSync()
    {
      match stored {
        case None =>
        case Some(value) =>
          if value.Parsed? {
            user := Some(value.user);
          } else if value.raw != "" {
            stored := None;
          }
      }
      loading := false;
    }

    method Login(username: string)
      modifies this
      ensures user == Some(MockUser(username))
      ensures stored == Some(Parsed(MockUser(username)))
      ensures loading == old(loading)
      ensures InSync()
    {
      var mockUser := MockUser(username);
      stored := Some(Parsed(mockUser));
      user := Some(mockUser);
    }

    method Logout()
      modifies this
      ensures user == None && stored == None
      ensures loading == old(loading)
      ensures InSync()
    {
      stored := None;
      user := None;
    }
  }

  /** A provider started on the storage that a sign-in left behind is signed in as that user. */
  method RestartAfterLogin(username: string) returns (restored: Option<User>)
    ensures restored == Some(MockUser(username))
  {
    var first := new AuthProvider(None);
    first.Login(username);
    var second := new AuthProvider(first.stored);
    second.Start();
    restored := second.user;
  }
}
