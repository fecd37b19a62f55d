/**
 * The session manager's behaviour on the contents of its store. Each
 * operation of `Auth` is a step from the store it finds to the store it
 * leaves, paired with how its promise (or its synchronous call) settles.
 * The class in module Auth performs the same steps one `setItem` or
 * `removeItem` at a time and proves that it ends where these functions say.
 */
module Session {
  import opened Wrappers
  import opened Json
  import opened Storage
  import Codec

  /*
   * The store keys. Their values come from the shared constants module,
   * which is not part of this model; only their distinctness matters here.
   */
  const StateKey := "_baas_state"
  const UserAuthKey := "_baas_ua"
  const RefreshTokenKey := "_baas_rt"
  const ImpersonationActiveKey := "_baas_impers_active"
  const ImpersonationUserKey := "_baas_impers_user"
  const ImpersonationRealUserAuthKey := "_baas_impers_real_ua"

  /** The payload fields the manager itself touches. */
  const RefreshTokenField := "refreshToken"
  const AccessTokenField := "accessToken"

  const MustAuthFirst := "Must auth first"
  const AlreadyImpersonating := "Already impersonating a user"
  const NotImpersonating := "Not impersonating a user"

  /** How a call or a promise fails. */
  datatype Failure =
    | BaasError(message: string)    // a guard of the manager itself
    | TransportError(reason: string)  // a failed request or an unreadable reply, passed through
    | TypeError                     // a property written on `null`
    | ParseError                    // a stored blob that does not decode

  /** Where an operation leaves the store, and how it settles. */
  datatype Step<+T> = Step(result: Result<T, Failure>, store: Store)

  /** A server reply as the continuation of a request receives it. */
  datatype Reply = Replied(json: Payload) | Failed(reason: string)

  /** What `get()` yields: null, the decoded session, or a throw from the decoder. */
  datatype Fetched = NoSession | Session(payload: Payload) | Unreadable

  /* ---------------- reads ---------------- */

  /** `get`: an absent or empty blob is no session; otherwise the decoded blob. */
  function Get(d: Store): (r: Fetched)
    ensures r == NoSession <==> UserAuthKey !in d || d[UserAuthKey] == ""
    ensures r.Session? ==> Codec.Encode(r.payload) == d[UserAuthKey]
  {
    if UserAuthKey !in d || d[UserAuthKey] == "" then NoSession
    else
      match Codec.Decode(d[UserAuthKey])
      case None => Unreadable
      case Some(p) =>
        Codec.EncodeDecoded(d[UserAuthKey]);
        Session(p)
  }

  /** `getRefreshToken`: the stored text under the refresh-token key, if any. */
  function GetRefreshToken(d: Store): (r: Option<string>)
    ensures r.Some? <==> RefreshTokenKey in d
    ensures r.Some? ==> r.value == d[RefreshTokenKey]
  {
    Item(d, RefreshTokenKey)
  }

  /** `authedId`: `{"$oid": id}` for a truthy `user._id` of the session, else nothing. */
  function AuthedId(d: Store): (r: Option<Json>)
    ensures !Get(d).Session? ==> r == None
    ensures r.Some? ==>
      Get(d).Session? && Lookup(Get(d).payload, "user").Some? && Lookup(Get(d).payload, "user").value.Obj? &&
      exists id :: Lookup(Lookup(Get(d).payload, "user").value.fields, "_id") == Some(id) && Truthy(id) &&
                   r.value == Obj([Field("$oid", id)])
  {
    match Get(d)
    case Session(p) =>
      (match Lookup(p, "user")
       case Some(Obj(user)) =>
         (match Lookup(user, "_id")
          case Some(id) => if Truthy(id) then Some(Obj([Field("$oid", id)])) else None
          case None => None)
       case _ => None)
    case _ => None
  }

  /** `isImpersonatingUser`: the flag is stored as exactly the text "true". */
  function IsImpersonatingUser(d: Store): (b: bool)
    ensures b <==> ImpersonationActiveKey in d && d[ImpersonationActiveKey] == "true"
  {
    Item(d, ImpersonationActiveKey) == Some("true")
  }

  /**
   * The path of the impersonation request, built from the stored target
   * user; a missing user id reads as "undefined".
   */
  function ImpersonationPath(d: Store): string {
    "/admin/users/" + JsString(if ImpersonationUserKey in d then Some(Str(d[ImpersonationUserKey])) else None) + "/impersonate"
  }

  /* ---------------- writes ---------------- */

  /**
   * `json['refreshToken'] = getItem(REFRESH_TOKEN_KEY)`. Assigning undefined
   * leaves a field that both `JSON.stringify` and the `delete` in `set`
   * treat as absent, so that case is the object without the field.
   */
  function SpliceRefresh(p: Payload, rt: Option<string>): Payload {
    match rt
    case None => Without(p, RefreshTokenField)
    case Some(t) => Put(p, RefreshTokenField, Str(t))
  }

  /** `set(json)`: the session blob without its refresh token, and the token under its own key. */
  function SetStore(d: Store, json: Payload): Store {
    d[UserAuthKey := Codec.Encode(Without(json, RefreshTokenField))]
     [RefreshTokenKey := JsString(Lookup(json, RefreshTokenField))]
  }

  function ClearImpersonationStore(d: Store): Store {
    d - {ImpersonationActiveKey, ImpersonationUserKey, ImpersonationRealUserAuthKey}
  }

  function ClearStore(d: Store): Store {
    ClearImpersonationStore(d - {UserAuthKey, RefreshTokenKey})
  }

  /** `setAccessToken(token)`: writing a field of a null session throws. */
  function SetAccessTokenStep(d: Store, token: string): Step<()> {
    match Get(d)
    case NoSession => Step(Err(TypeError), d)
    case Unreadable => Step(Err(ParseError), d)
    case Session(s) =>
      Step(Ok(()), SetStore(d, SpliceRefresh(Put(s, AccessTokenField, Str(token)), Item(d, RefreshTokenKey))))
  }

  /** `stopImpersonation`: throws unless active; otherwise restores the snapshot and clears the overlay. */
  function StopStep(d: Store): Step<()> {
    if !IsImpersonatingUser(d) then Step(Err(BaasError(NotImpersonating)), d)
    else if ImpersonationRealUserAuthKey !in d then Step(Err(ParseError), d)
    else
      match Codec.Decode(d[ImpersonationRealUserAuthKey])
      case None => Step(Err(ParseError), d)
      case Some(snapshot) => Step(Ok(()), ClearImpersonationStore(SetStore(d, snapshot)))
  }

  /**
   * The continuations of `refreshImpersonation`: on a reply, keep the
   * stored refresh token and adopt the reply; on a failure, run
   * `stopImpersonation` and reject with the original error, or with the
   * error `stopImpersonation` throws when no impersonation is active.
   */
  function RefreshStep(d: Store, reply: Reply): Step<()> {
    match reply
    case Replied(json) => Step(Ok(()), SetStore(d, SpliceRefresh(json, Item(d, RefreshTokenKey))))
    case Failed(e) =>
      var stop := StopStep(d);
      if !IsImpersonatingUser(d) then stop else Step(Err(TransportError(e)), stop.store)
  }

  /**
   * `startImpersonation`: both guards come before any write; then the flag,
   * the target user and the snapshot of the real session with its refresh
   * token, then `refreshImpersonation`.
   */
  function StartStep(d: Store, userId: string, reply: Reply): Step<()> {
    match Get(d)
    case NoSession => Step(Err(BaasError(MustAuthFirst)), d)
    case Unreadable => Step(Err(ParseError), d)
    case Session(s) =>
      if IsImpersonatingUser(d) then Step(Err(BaasError(AlreadyImpersonating)), d)
      else
        var d1 := d[ImpersonationActiveKey := "true"][ImpersonationUserKey := userId];
        var snapshot := SpliceRefresh(s, Item(d1, RefreshTokenKey));
        RefreshStep(d1[ImpersonationRealUserAuthKey := Codec.Encode(snapshot)], reply)
  }

  /** The result of `common.parseRedirectFragment`, taken as given. */
  datatype RedirectFragment = RedirectFragment(lastError: Option<string>, found: bool, stateValid: bool, ua: Option<Payload>)

  /** What `handleRedirect` leaves behind: the store, the recorded error, and whether the URL was scrubbed. */
  datatype RedirectEffect = RedirectEffect(store: Store, error: Option<string>, scrubbed: bool)

  predicate HasError(f: RedirectFragment) {
    f.lastError.Some? && Truthy(Str(f.lastError.value))
  }

  function RedirectStep(d: Store, error: Option<string>, hasWindow: bool, f: RedirectFragment): RedirectEffect {
    if !hasWindow then RedirectEffect(d, error, false)
    else if HasError(f) then RedirectEffect(d, f.lastError, true)
    else if !f.found then RedirectEffect(d, error, false)
    else
      var d1 := d - {StateKey};
      if !f.stateValid then RedirectEffect(d1, error, true)
      else
        match f.ua
        case None => RedirectEffect(d1, error, false)
        case Some(ua) => RedirectEffect(SetStore(d1, ua), error, true)
  }

  /* ---------------- the invariant ---------------- */

  /**
   * The state every operation keeps: a stored session decodes, has no
   * refresh-token field and has a refresh token beside it; the three
   * impersonation keys are present together, with the flag `"true"`, a
   * readable snapshot, and a session underneath.
   */
  predicate Wf(d: Store) {
    && (UserAuthKey in d ==>
          RefreshTokenKey in d &&
          Codec.Decode(d[UserAuthKey]).Some? &&
          Lookup(Codec.Decode(d[UserAuthKey]).value, RefreshTokenField) == None)
    && (ImpersonationActiveKey in d <==> ImpersonationUserKey in d)
    && (ImpersonationActiveKey in d <==> ImpersonationRealUserAuthKey in d)
    && (ImpersonationActiveKey in d ==>
          d[ImpersonationActiveKey] == "true" &&
          UserAuthKey in d &&
          Codec.Decode(d[ImpersonationRealUserAuthKey]).Some?)
  }

  lemma WfReadable(d: Store)
    requires Wf(d)
    ensures Get(d) != Unreadable
    ensures Get(d).Session? <==> UserAuthKey in d
    ensures IsImpersonatingUser(d) <==> ImpersonationActiveKey in d
    ensures IsImpersonatingUser(d) ==> Get(d).Session?
  {
    if UserAuthKey in d {
      assert Codec.Decode("") == None;
    }
  }

  lemma WfSet(d: Store, json: Payload)
    requires Wf(d)
    ensures Wf(SetStore(d, json))
  {
    Codec.DecodeEncode(Without(json, RefreshTokenField));
    LookupWithout(json, RefreshTokenField, RefreshTokenField);
  }

  lemma WfClear(d: Store)
    requires Wf(d)
    ensures Wf(ClearImpersonationStore(d))
    ensures Wf(ClearStore(d))
  {
  }

  lemma WfSetAccessToken(d: Store, token: string)
    requires Wf(d)
    ensures Wf(SetAccessTokenStep(d, token).store)
  {
    if Get(d).Session? {
      WfSet(d, SpliceRefresh(Put(Get(d).payload, AccessTokenField, Str(token)), Item(d, RefreshTokenKey)));
    }
  }

  lemma WfStop(d: Store)
    requires Wf(d)
    ensures Wf(StopStep(d).store)
  {
    if IsImpersonatingUser(d) {
      var snapshot := Codec.Decode(d[ImpersonationRealUserAuthKey]).value;
      WfSet(d, snapshot);
      WfClear(SetStore(d, snapshot));
    }
  }

  lemma WfRefresh(d: Store, reply: Reply)
    requires Wf(d)
    ensures Wf(RefreshStep(d, reply).store)
  {
    match reply
    case Replied(json) => WfSet(d, SpliceRefresh(json, Item(d, RefreshTokenKey)));
    case Failed(_) => WfStop(d);
  }

  /** The store `startImpersonation` hands to `refreshImpersonation` already keeps the invariant. */
  lemma WfStartSnapshot(d: Store, userId: string)
    requires Wf(d) && Get(d).Session? && !IsImpersonatingUser(d)
    ensures
      var d1 := d[ImpersonationActiveKey := "true"][ImpersonationUserKey := userId];
      Wf(d1[ImpersonationRealUserAuthKey := Codec.Encode(SpliceRefresh(Get(d).payload, Item(d1, RefreshTokenKey)))])
  {
    var d1 := d[ImpersonationActiveKey := "true"][ImpersonationUserKey := userId];
    Codec.DecodeEncode(SpliceRefresh(Get(d).payload, Item(d1, RefreshTokenKey)));
  }

  lemma WfStart(d: Store, userId: string, reply: Reply)
    requires Wf(d)
    ensures Wf(StartStep(d, userId, reply).store)
  {
    WfReadable(d);
    if Get(d).Session? && !IsImpersonatingUser(d) {
      var d1 := d[ImpersonationActiveKey := "true"][ImpersonationUserKey := userId];
      WfStartSnapshot(d, userId);
      WfRefresh(d1[ImpersonationRealUserAuthKey := Codec.Encode(SpliceRefresh(Get(d).payload, Item(d1, RefreshTokenKey)))], reply);
    }
  }

  lemma WfRedirect(d: Store, error: Option<string>, hasWindow: bool, f: RedirectFragment)
    requires Wf(d)
    ensures Wf(RedirectStep(d, error, hasWindow, f).store)
  {
    if f.ua.Some? {
      WfSet(d - {StateKey}, f.ua.value);
    }
  }
}
