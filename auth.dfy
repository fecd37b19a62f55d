/**
 * The `Auth` session manager. Every operation reads and writes its
 * AuthDataStorage one key at a time, in the order the source does, and is
 * proved to end in the state the matching step of module Session
 * describes. Network replies, the parsed redirect fragment, the browser's
 * presence and page URL, `encodeURI` and the random draws are inputs.
 */
module Auth {
  import opened Wrappers
  import opened Json
  import opened Storage
  import opened Session
  import Codec

  /**
   * The 62 symbols a redirect state is drawn from, in the source's order:
   * `A`-`Z`, then `a`-`z`, then `0`-`9`.
   */
  const Alphabet := Symbols('A', 26) + Symbols('a', 26) + Symbols('0', 10)
  const StateLength := 64

  /** n consecutive characters starting at first. */
  function Symbols(first: char, n: nat): (r: string)
    requires first as int + n <= 0xD800
    ensures |r| == n
    ensures forall i :: 0 <= i < n ==> r[i] as int == first as int + i
  {
    seq(n, i requires 0 <= i < n => (first as int + i) as char)
  }

  predicate IsStateChar(c: char) {
    'A' <= c <= 'Z' || 'a' <= c <= 'z' || '0' <= c <= '9'
  }

  /** Where a letter or digit sits in the alphabet. */
  function AlphabetIndex(c: char): nat
    requires IsStateChar(c)
  {
    if 'A' <= c <= 'Z' then c as int - 'A' as int
    else if 'a' <= c <= 'z' then 26 + (c as int - 'a' as int)
    else 52 + (c as int - '0' as int)
  }

  /** A request as `fetch` receives it; the headers `makeFetchArgs` adds are not modelled. */
  /** Which login continuation runs: `anonymousAuth`, `apiKeyAuth` or `localAuth`. */
  datatype Login = Anonymous | ApiKey | Local

  datatype Request = Request(httpMethod: string, url: string, body: Option<string>)

  function AnonymousRequest(rootUrl: string): Request {
    Request("GET", rootUrl + "/anon/user", None)
  }

  function ApiKeyRequest(rootUrl: string, key: string): Request {
    Request("POST", rootUrl + "/api/key", Some(Codec.Encode([Field("key", Str(key))])))
  }

  function LocalRequest(rootUrl: string, username: string, password: string): Request {
    Request("POST", rootUrl + "/local/userpass",
            Some(Codec.Encode([Field("username", Str(username)), Field("password", Str(password))])))
  }

  /** The credentials a login request carries read back as exactly the object that was sent. */
  lemma CredentialBodies(rootUrl: string, key: string, username: string, password: string)
    ensures Codec.Decode(ApiKeyRequest(rootUrl, key).body.value) == Some([Field("key", Str(key))])
    ensures Codec.Decode(LocalRequest(rootUrl, username, password).body.value)
            == Some([Field("username", Str(username)), Field("password", Str(password))])
    ensures AnonymousRequest(rootUrl).body == None
  {
    Codec.DecodeEncode([Field("key", Str(key))]);
    Codec.DecodeEncode([Field("username", Str(username)), Field("password", Str(password))]);
  }

  class Auth {
    const rootUrl: string
    const storage: AuthDataStorage
    /** The last error a redirect reported (`this._error`). */
    var error: Option<string>

    ghost predicate Valid()
      reads this, storage
    {
      Wf(storage.data)
    }

    /** Outside a browser the source falls back to the in-memory store. */
    constructor (rootUrl: string)
      ensures Valid() && fresh(storage)
      ensures this.rootUrl == rootUrl && storage.data == map[] && error == None
    {
      this.rootUrl := rootUrl;
      storage := new AuthDataStorage();
      error := None;
    }

    /**
     * `set(json)`: the refresh token goes under its own key, the rest of
     * the object as a blob. The argument loses its refresh token; `rest`
     * is the object the caller holds afterwards.
     */
    method Set(json: Payload) returns (rest: Payload)
      requires Valid()
      modifies storage
      ensures Valid()
      ensures storage.data == SetStore(old(storage.data), json)
      ensures rest == Without(json, RefreshTokenField)
    {
      var rt := Lookup(json, RefreshTokenField);
      rest := Without(json, RefreshTokenField);
      storage.SetItem(UserAuthKey, Some(Str(Codec.Encode(rest))));
      storage.SetItem(RefreshTokenKey, rt);
      WfSet(old(storage.data), json);
    }

    method SetAccessToken(token: string) returns (r: Result<(), Failure>)
      requires Valid()
      modifies storage
      ensures Valid()
      ensures Step(r, storage.data) == SetAccessTokenStep(old(storage.data), token)
    {
      match Get(storage.data)
      case NoSession =>
        r := Err(TypeError);
      case Unreadable =>
        r := Err(ParseError);
      case Session(s) =>
        var currAuth := Put(s, AccessTokenField, Str(token));
        var rt := storage.GetItem(RefreshTokenKey);
        currAuth := SpliceRefresh(currAuth, rt);
        var _ := Set(currAuth);
        r := Ok(());
    }

    method ClearImpersonation()
      modifies storage
      ensures storage.data == ClearImpersonationStore(old(storage.data))
      ensures old(Valid()) ==> Valid()
    {
      var _ := storage.RemoveItem(ImpersonationActiveKey);
      var _ := storage.RemoveItem(ImpersonationUserKey);
      var _ := storage.RemoveItem(ImpersonationRealUserAuthKey);
    }

    method Clear()
      modifies storage
      ensures Valid()
      ensures storage.data == ClearStore(old(storage.data))
    {
      var _ := storage.RemoveItem(UserAuthKey);
      var _ := storage.RemoveItem(RefreshTokenKey);
      ClearImpersonation();
    }

    method StopImpersonation() returns (r: Result<(), Failure>)
      requires Valid()
      modifies storage
      ensures Valid()
      ensures Step(r, storage.data) == StopStep(old(storage.data))
    {
      if !IsImpersonatingUser(storage.data) {
        r := Err(BaasError(NotImpersonating));
        return;
      }
      var blob := storage.GetItem(ImpersonationRealUserAuthKey);
      if blob == None {
        r := Err(ParseError);
        return;
      }
      match Codec.Decode(blob.value)
      case None =>
        r := Err(ParseError);
      case Some(realUserAuth) =>
        var _ := Set(realUserAuth);
        ClearImpersonation();
        r := Ok(());
    }

    /**
     * The continuations of the impersonation request. A throw from
     * `stopImpersonation` inside the failure handler becomes the rejection.
     */
    method RefreshImpersonation(reply: Reply) returns (r: Result<(), Failure>)
      requires Valid()
      modifies storage
      ensures Valid()
      ensures Step(r, storage.data) == RefreshStep(old(storage.data), reply)
    {
      match reply
      case Replied(json) =>
        var rt := storage.GetItem(RefreshTokenKey);
        var _ := Set(SpliceRefresh(json, rt));
        r := Ok(());
      case Failed(e) =>
        var stopped := StopImpersonation();
        if stopped == Err(BaasError(NotImpersonating)) {
          r := stopped;
        } else {
          r := Err(TransportError(e));
        }
    }

    method StartImpersonation(userId: string, reply: Reply) returns (r: Result<(), Failure>)
      requires Valid()
      modifies storage
      ensures Valid()
      ensures Step(r, storage.data) == StartStep(old(storage.data), userId, reply)
    {
      var current := Get(storage.data);
      if current == NoSession {
        r := Err(BaasError(MustAuthFirst));
        return;
      }
      if current == Unreadable {
        r := Err(ParseError);
        return;
      }
      if IsImpersonatingUser(storage.data) {
        r := Err(BaasError(AlreadyImpersonating));
        return;
      }
      storage.SetItem(ImpersonationActiveKey, Some(Str("true")));
      storage.SetItem(ImpersonationUserKey, Some(Str(userId)));
      var blob := storage.GetItem(UserAuthKey);
      var realUserAuth := Codec.Decode(blob.value).value;
      var rt := storage.GetItem(RefreshTokenKey);
      realUserAuth := SpliceRefresh(realUserAuth, rt);
      storage.SetItem(ImpersonationRealUserAuthKey, Some(Str(Codec.Encode(realUserAuth))));
      WfStartSnapshot(old(storage.data), userId);
      r := RefreshImpersonation(reply);
    }

    /**
     * `handleRedirect`, given the parser's verdict on the URL fragment;
     * `scrubbed` says whether the fragment was replaced out of the address bar.
     */
    method HandleRedirect(hasWindow: bool, fragment: RedirectFragment) returns (scrubbed: bool)
      requires Valid()
      modifies this, storage
      ensures Valid()
      ensures RedirectEffect(storage.data, error, scrubbed) == RedirectStep(old(storage.data), old(error), hasWindow, fragment)
    {
      scrubbed := false;
      if !hasWindow {
        return;
      }
      if HasError(fragment) {
        error := fragment.lastError;
        scrubbed := true;
        return;
      }
      if !fragment.found {
        return;
      }
      var _ := storage.RemoveItem(StateKey);
      if !fragment.stateValid {
        scrubbed := true;
        return;
      }
      if fragment.ua == None {
        return;
      }
      var _ := Set(fragment.ua.value);
      scrubbed := true;
    }

    /**
     * `generateState`: one symbol per draw, where draw i stands for
     * `Math.floor(Math.random() * 62)`.
     */
    static method GenerateState(draws: seq<nat>) returns (state: string)
      requires |draws| == StateLength
      requires forall i :: 0 <= i < |draws| ==> draws[i] < |Alphabet|
      ensures |state| == StateLength
      ensures forall i :: 0 <= i < |state| ==> state[i] == Alphabet[draws[i]]
      ensures forall i :: 0 <= i < |state| ==> IsStateChar(state[i])
    {
      state := "";
      for i := 0 to StateLength
        invariant |state| == i
        invariant forall j :: 0 <= j < i ==> state[j] == Alphabet[draws[j]]
      {
        var pos := draws[i];
        state := state + Alphabet[pos..pos + 1];
      }
      AlphabetSymbols();
    }

    /**
     * `getOAuthLoginURL`: a fresh state replaces any pending one and is
     * embedded in the provider URL; the target defaults to the page URL.
     */
    method GetOAuthLoginURL(providerName: string, redirectUrl: Option<string>, pageRootUrl: string,
                            encodeUri: string -> string, draws: seq<nat>) returns (url: string)
      requires Valid()
      requires |draws| == StateLength
      requires forall i :: 0 <= i < |draws| ==> draws[i] < |Alphabet|
      modifies storage
      ensures Valid()
      ensures StateKey in storage.data
      ensures storage.data == old(storage.data)[StateKey := storage.data[StateKey]]
      ensures |storage.data[StateKey]| == StateLength
      ensures forall i :: 0 <= i < StateLength ==> storage.data[StateKey][i] == Alphabet[draws[i]]
      ensures url == rootUrl + "/oauth2/" + providerName + "?redirect=" + encodeUri(redirectUrl.GetOr(pageRootUrl))
                     + "&state=" + storage.data[StateKey]
    {
      var target := redirectUrl.GetOr(pageRootUrl);
      var state := GenerateState(draws);
      storage.SetItem(StateKey, Some(Str(state)));
      url := rootUrl + "/oauth2/" + providerName + "?redirect=" + encodeUri(target) + "&state=" + state;
    }

    /**
     * The continuation shared by `anonymousAuth`, `apiKeyAuth` and
     * `localAuth`: adopt the reply, or pass the failure on. `localAuth`
     * resolves with the reply object as `set` leaves it, without its
     * refresh token; the other two resolve with nothing.
     */
    method CompleteLogin(via: Login, reply: Reply) returns (r: Result<Option<Payload>, Failure>)
      requires Valid()
      modifies storage
      ensures Valid()
      ensures reply.Replied? ==>
        storage.data == SetStore(old(storage.data), reply.json) &&
        r == Ok(if via == Local then Some(Without(reply.json, RefreshTokenField)) else None)
      ensures reply.Failed? ==>
        r == Err(TransportError(reply.reason)) && storage.data == old(storage.data)
    {
      match reply
      case Replied(json) =>
        var rest := Set(json);
        r := Ok(if via == Local then Some(rest) else None);
      case Failed(e) =>
        r := Err(TransportError(e));
    }
  }

  /**
   * The alphabet is exactly the ASCII letters and digits, each once: every
   * position holds a letter or digit, and every letter or digit sits at
   * exactly one position.
   */
  lemma AlphabetSymbols()
    ensures |Alphabet| == 62
    ensures forall i :: 0 <= i < |Alphabet| ==> IsStateChar(Alphabet[i]) && AlphabetIndex(Alphabet[i]) == i
    ensures forall c :: IsStateChar(c) ==> AlphabetIndex(c) < |Alphabet| && Alphabet[AlphabetIndex(c)] == c
  {
  }
}
