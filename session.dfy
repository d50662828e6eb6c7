/**
 * The browser session kept in `localStorage` under two keys, `token` and `user`, and the
 * helpers that read it, clear it, and (on the login page) write it.
 */
module Session {
  import opened Wrappers
  import opened JsValues

  const TokenKey: string := "token"
  const UserKey: string := "user"

  /** Both keys hold a non-empty string (`!!(token && user)`). */
  predicate SignedIn(items: map<string, string>) {
    TokenKey in items && items[TokenKey] != "" && UserKey in items && items[UserKey] != ""
  }

  /**
   * What `getUser` yields from a store: the parsed user text, or `null` when the text is
   * missing, empty or not parseable. `parse` stands for `JSON.parse`, None where it throws.
   */
  function StoredUser(items: map<string, string>, parse: string -> Option<JsValue>): (u: JsValue)
    ensures u != Null ==> UserKey in items && items[UserKey] != "" && parse(items[UserKey]) == Some(u)
    ensures UserKey in items && items[UserKey] != "" && parse(items[UserKey]).Some? ==>
      u == parse(items[UserKey]).value
  {
    if UserKey !in items || items[UserKey] == "" then Null
    else match parse(items[UserKey])
      case Some(v) => v
      case None => Null
  }

  /** Removing the two keys always signs out, whatever else the store holds. */
  lemma RemovalSignsOut(items: map<string, string>)
    ensures !SignedIn(items - {TokenKey, UserKey})
    ensures forall k :: k in items && k != TokenKey && k != UserKey ==>
      k in items - {TokenKey, UserKey} && (items - {TokenKey, UserKey})[k] == items[k]
  {
    assert TokenKey !in items - {TokenKey, UserKey};
  }

  /** Writing both keys signs in exactly when both written values are non-empty. */
  lemma WritesSignIn(items: map<string, string>, token: string, user: string)
    ensures SignedIn(items[TokenKey := token][UserKey := user]) <==> token != "" && user != ""
  {
    assert TokenKey != UserKey;
  }

  /** A user written as the text of `ser` is read back by a `parse` that inverts it. */
  lemma UserRoundTrip(items: map<string, string>, token: string, user: JsValue,
                      ser: JsValue -> string, parse: string -> Option<JsValue>)
    requires ser(user) != "" && parse(ser(user)) == Some(user)
    ensures StoredUser(items[TokenKey := token][UserKey := ser(user)], parse) == user
  {
  }

  class SessionStore {
    /** False during server rendering, where `typeof window === "undefined"`. */
    const isClient: bool
    var items: map<string, string>

    predicate Authenticated()
      reads this
    {
      isClient && SignedIn(items)
    }

    constructor (isClient: bool, items: map<string, string>)
      ensures this.isClient == isClient && this.items == items
    {
      this.isClient := isClient;
      this.items := items;
    }

    /** `isAuthenticated`: false outside the browser, else both keys hold non-empty text. */
    method IsAuthenticated() returns (b: bool)
      ensures b == Authenticated()
    {
      if !isClient {
        return false;
      }
      var token := if TokenKey in items then Some(items[TokenKey]) else None;
      var user := if UserKey in items then Some(items[UserKey]) else None;
      b := token.Some? && token.value != "" && user.Some? && user.value != "";
    }

    /** `getAuthToken`: the stored token as it is, or null. */
    method GetAuthToken() returns (t: Option<string>)
      ensures t.Some? <==> isClient && TokenKey in items
      ensures t.Some? ==> t.value == items[TokenKey]
    {
      if !isClient {
        return None;
      }
      t := if TokenKey in items then Some(items[TokenKey]) else None;
    }

    /** `getUser`: null outside the browser, else the parsed user; it never throws. */
    method GetUser(parse: string -> Option<JsValue>) returns (u: JsValue)
      ensures !isClient ==> u == Null
      ensures isClient ==> u == StoredUser(items, parse)
    {
      if !isClient {
        return Null;
      }
      if UserKey !in items || items[UserKey] == "" {
        return Null;
      }
      var parsed := parse(items[UserKey]);
      u := if parsed.Some? then parsed.value else Null;
    }

    /** `logout`: removes the two keys and nothing else; outside the browser it does nothing. */
    method Logout()
      modifies this
      ensures isClient ==> items == old(items) - {TokenKey, UserKey}
      ensures !isClient ==> items == old(items)
      ensures !Authenticated()
    {
      if !isClient {
        return;
      }
      items := items - {TokenKey, UserKey};
      RemovalSignsOut(old(items));
    }

    /**
     * The login page's two writes after a successful sign-in: the token as it came and the
     * user as JSON text (`ser` stands for `JSON.stringify`). That page only runs in the browser.
     */
    method Login(token: string, user: JsValue, ser: JsValue -> string)
      requires isClient
      modifies this
      ensures items == old(items)[TokenKey := token][UserKey := ser(user)]
      ensures Authenticated() <==> token != "" && ser(user) != ""
    {
      items := items[TokenKey := token];
      items := items[UserKey := ser(user)];
      WritesSignIn(old(items), token, ser(user));
    }
  }
}
