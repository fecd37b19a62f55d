/**
 * What the session manager promises, stated on the steps of module Session:
 * the set/get round trip, the narrow effect of setAccessToken, a clear that
 * leaves nothing behind, the impersonation guards and restore, and the
 * decisions of the redirect handler.
 */
module SessionProperties {
  import opened Wrappers
  import opened Json
  import opened Storage
  import opened Session
  import Codec

  /* ---------------- set / get ---------------- */

  /**
   * After `set(P)`, `get()` is P without its refresh token and
   * `getRefreshToken()` is `String(P.refreshToken)`; no other key changes.
   */
  lemma SetThenGet(d: Store, json: Payload)
    ensures Get(SetStore(d, json)) == Session(Without(json, RefreshTokenField))
    ensures GetRefreshToken(SetStore(d, json)) == Some(JsString(Lookup(json, RefreshTokenField)))
    ensures forall k :: k != UserAuthKey && k != RefreshTokenKey ==> Item(SetStore(d, json), k) == Item(d, k)
  {
    Codec.DecodeEncode(Without(json, RefreshTokenField));
  }

  /** A string refresh token comes back unchanged. */
  lemma SetThenGetRefreshToken(d: Store, json: Payload, token: string)
    requires Lookup(json, RefreshTokenField) == Some(Str(token))
    ensures GetRefreshToken(SetStore(d, json)) == Some(token)
  {
  }

  /**
   * Storing a session that was just read rewrites the very same blob: a
   * session without a refresh-token field, re-stored with the current
   * token, leaves the store as it was.
   */
  lemma SetWhatWasRead(d: Store)
    requires Wf(d) && Get(d).Session?
    ensures SetStore(d, SpliceRefresh(Get(d).payload, Item(d, RefreshTokenKey))) == d
  {
    var s := Get(d).payload;
    var t := d[RefreshTokenKey];
    LookupPut(s, RefreshTokenField, Str(t), RefreshTokenField);
    WithoutPut(s, RefreshTokenField, Str(t));
    WithoutAbsent(s, RefreshTokenField);
    Codec.EncodeDecoded(d[UserAuthKey]);
  }

  /* ---------------- setAccessToken ---------------- */

  /**
   * `setAccessToken(t)` replaces the access token of the stored session
   * and nothing else: every other field, their order and the stored
   * refresh token are as before.
   */
  lemma SetAccessTokenOnlyToken(d: Store, token: string)
    requires Wf(d) && Get(d).Session?
    ensures SetAccessTokenStep(d, token).result == Ok(())
    ensures Get(SetAccessTokenStep(d, token).store) == Session(Put(Get(d).payload, AccessTokenField, Str(token)))
    ensures forall k :: k != AccessTokenField ==>
      Lookup(Get(SetAccessTokenStep(d, token).store).payload, k) == Lookup(Get(d).payload, k)
    ensures Lookup(Get(SetAccessTokenStep(d, token).store).payload, AccessTokenField) == Some(Str(token))
    ensures GetRefreshToken(SetAccessTokenStep(d, token).store) == GetRefreshToken(d)
    ensures forall k :: k != UserAuthKey ==> Item(SetAccessTokenStep(d, token).store, k) == Item(d, k)
  {
    var s := Get(d).payload;
    var t := d[RefreshTokenKey];
    var s1 := Put(s, AccessTokenField, Str(token));
    LookupPut(s1, RefreshTokenField, Str(t), RefreshTokenField);
    WithoutPut(s1, RefreshTokenField, Str(t));
    LookupPut(s, AccessTokenField, Str(token), RefreshTokenField);
    WithoutAbsent(s1, RefreshTokenField);
    SetThenGet(d, SpliceRefresh(s1, Some(t)));
    forall k | k != AccessTokenField
      ensures Lookup(s1, k) == Lookup(s, k)
    {
      LookupPut(s, AccessTokenField, Str(token), k);
    }
    LookupPut(s, AccessTokenField, Str(token), AccessTokenField);
  }

  /** Without a session, `setAccessToken` throws and writes nothing. */
  lemma SetAccessTokenWithoutSession(d: Store, token: string)
    requires Get(d) == NoSession
    ensures SetAccessTokenStep(d, token) == Step(Err(TypeError), d)
  {
  }

  /* ---------------- clear ---------------- */

  /**
   * `clear()` removes the session, its refresh token and the whole
   * impersonation overlay, and keeps every other key.
   */
  lemma ClearLeavesNothing(d: Store)
    ensures var c := ClearStore(d);
      && UserAuthKey !in c && RefreshTokenKey !in c
      && ImpersonationActiveKey !in c && ImpersonationUserKey !in c && ImpersonationRealUserAuthKey !in c
      && Get(c) == NoSession && AuthedId(c) == None && GetRefreshToken(c) == None
      && !IsImpersonatingUser(c)
      && Item(c, StateKey) == Item(d, StateKey)
  {
  }

  /* ---------------- authedId ---------------- */

  /** A session whose user document has a truthy `_id` yields `{"$oid": _id}`. */
  lemma AuthedIdAfterSet(d: Store, json: Payload, user: Payload, id: Json)
    requires Lookup(json, "user") == Some(Obj(user))
    requires Lookup(user, "_id") == Some(id) && Truthy(id)
    ensures AuthedId(SetStore(d, json)) == Some(Obj([Field("$oid", id)]))
  {
    SetThenGet(d, json);
    LookupWithout(json, RefreshTokenField, "user");
  }

  /** Without a user document there is no id, and that is not an error. */
  lemma AuthedIdWithoutUser(d: Store, json: Payload)
    requires Lookup(json, "user") == None
    ensures AuthedId(SetStore(d, json)) == None
  {
    SetThenGet(d, json);
    LookupWithout(json, RefreshTokenField, "user");
  }

  /* ---------------- impersonation ---------------- */

  /** Both guards of `startImpersonation` reject before any write. */
  lemma StartGuards(d: Store, userId: string, reply: Reply)
    ensures Get(d) == NoSession ==>
      StartStep(d, userId, reply) == Step(Err(BaasError(MustAuthFirst)), d)
    ensures Get(d).Session? && IsImpersonatingUser(d) ==>
      StartStep(d, userId, reply) == Step(Err(BaasError(AlreadyImpersonating)), d)
  {
  }

  /** `stopImpersonation` without an active impersonation throws and writes nothing. */
  lemma StopWhenNotImpersonating(d: Store)
    requires !IsImpersonatingUser(d)
    ensures StopStep(d) == Step(Err(BaasError(NotImpersonating)), d)
  {
  }

  /**
   * A successful `refreshImpersonation` adopts the reply but keeps the
   * stored refresh token, whatever token the reply carries.
   */
  lemma RefreshKeepsRefreshToken(d: Store, json: Payload)
    requires RefreshTokenKey in d
    ensures RefreshStep(d, Replied(json)).result == Ok(())
    ensures GetRefreshToken(RefreshStep(d, Replied(json)).store) == GetRefreshToken(d)
    ensures Get(RefreshStep(d, Replied(json)).store) == Session(Without(json, RefreshTokenField))
    ensures IsImpersonatingUser(RefreshStep(d, Replied(json)).store) == IsImpersonatingUser(d)
  {
    var t := d[RefreshTokenKey];
    LookupPut(json, RefreshTokenField, Str(t), RefreshTokenField);
    WithoutPut(json, RefreshTokenField, Str(t));
    SetThenGet(d, Put(json, RefreshTokenField, Str(t)));
  }

  /**
   * A failed `refreshImpersonation` unwinds through `stopImpersonation` and
   * rejects with the original error; with nothing to unwind, the throw of
   * `stopImpersonation` replaces that error.
   */
  lemma RefreshFailureUnwinds(d: Store, e: string)
    ensures IsImpersonatingUser(d) ==>
      RefreshStep(d, Failed(e)) == Step(Err(TransportError(e)), StopStep(d).store)
    ensures Wf(d) && IsImpersonatingUser(d) ==>
      StopStep(d).result == Ok(()) && !IsImpersonatingUser(RefreshStep(d, Failed(e)).store)
    ensures !IsImpersonatingUser(d) ==>
      RefreshStep(d, Failed(e)) == Step(Err(BaasError(NotImpersonating)), d)
  {
  }

  /**
   * `stopImpersonation` puts back the snapshot taken at the start: the
   * session without its refresh token, the token under its own key, and
   * no impersonation key left.
   */
  lemma StopRestoresSnapshot(d: Store)
    requires Wf(d) && IsImpersonatingUser(d)
    ensures var snapshot := Codec.Decode(d[ImpersonationRealUserAuthKey]).value;
      var stop := StopStep(d);
      && stop.result == Ok(())
      && Get(stop.store) == Session(Without(snapshot, RefreshTokenField))
      && GetRefreshToken(stop.store) == Some(JsString(Lookup(snapshot, RefreshTokenField)))
      && ImpersonationActiveKey !in stop.store
      && ImpersonationUserKey !in stop.store
      && ImpersonationRealUserAuthKey !in stop.store
  {
    var snapshot := Codec.Decode(d[ImpersonationRealUserAuthKey]).value;
    SetThenGet(d, snapshot);
  }

  /** Entering impersonation: the flag, the target user, the reply as session, the real refresh token kept. */
  lemma StartEnters(d: Store, userId: string, json: Payload)
    requires Wf(d) && Get(d).Session? && !IsImpersonatingUser(d)
    ensures var start := StartStep(d, userId, Replied(json));
      && start.result == Ok(())
      && IsImpersonatingUser(start.store)
      && Item(start.store, ImpersonationUserKey) == Some(userId)
      && ImpersonationPath(start.store) == "/admin/users/" + userId + "/impersonate"
      && Get(start.store) == Session(Without(json, RefreshTokenField))
      && GetRefreshToken(start.store) == GetRefreshToken(d)
  {
    var d1 := d[ImpersonationActiveKey := "true"][ImpersonationUserKey := userId];
    var snapshot := SpliceRefresh(Get(d).payload, Item(d1, RefreshTokenKey));
    RefreshKeepsRefreshToken(d1[ImpersonationRealUserAuthKey := Codec.Encode(snapshot)], json);
  }

  /**
   * `startImpersonation` followed by `stopImpersonation` gives back exactly
   * the store it started from: the same session blob, the same refresh
   * token, and no impersonation key.
   */
  lemma StartThenStopRestores(d: Store, userId: string, json: Payload)
    requires Wf(d) && Get(d).Session? && !IsImpersonatingUser(d)
    ensures StartStep(d, userId, Replied(json)).result == Ok(())
    ensures StopStep(StartStep(d, userId, Replied(json)).store) == Step(Ok(()), d)
  {
    WfReadable(d);
    var s := Get(d).payload;
    var t := d[RefreshTokenKey];
    var d1 := d[ImpersonationActiveKey := "true"][ImpersonationUserKey := userId];
    var snapshot := Put(s, RefreshTokenField, Str(t));
    assert SpliceRefresh(s, Item(d1, RefreshTokenKey)) == snapshot;
    var d2 := d1[ImpersonationRealUserAuthKey := Codec.Encode(snapshot)];
    var d3 := StartStep(d, userId, Replied(json)).store;
    assert d3 == SetStore(d2, SpliceRefresh(json, Some(t)));
    assert d3[ImpersonationRealUserAuthKey] == Codec.Encode(snapshot);
    Codec.DecodeEncode(snapshot);
    var d4 := SetStore(d3, snapshot);
    LookupPut(s, RefreshTokenField, Str(t), RefreshTokenField);
    WithoutPut(s, RefreshTokenField, Str(t));
    WithoutAbsent(s, RefreshTokenField);
    Codec.EncodeDecoded(d[UserAuthKey]);
    assert d4[UserAuthKey] == d[UserAuthKey];
    assert d4[RefreshTokenKey] == d[RefreshTokenKey];
    var d5 := ClearImpersonationStore(d4);
    assert StopStep(d3) == Step(Ok(()), d5);
    assert d5.Keys == d.Keys;
    assert forall k | k in d :: d5[k] == d[k];
  }

  /**
   * When the impersonation request fails, `startImpersonation` rejects with
   * that failure and the store is back where it started.
   */
  lemma StartFailureRestores(d: Store, userId: string, e: string)
    requires Wf(d) && Get(d).Session? && !IsImpersonatingUser(d)
    ensures StartStep(d, userId, Failed(e)) == Step(Err(TransportError(e)), d)
  {
    WfReadable(d);
    var s := Get(d).payload;
    var t := d[RefreshTokenKey];
    var d1 := d[ImpersonationActiveKey := "true"][ImpersonationUserKey := userId];
    var snapshot := Put(s, RefreshTokenField, Str(t));
    assert SpliceRefresh(s, Item(d1, RefreshTokenKey)) == snapshot;
    var d2 := d1[ImpersonationRealUserAuthKey := Codec.Encode(snapshot)];
    Codec.DecodeEncode(snapshot);
    var d4 := SetStore(d2, snapshot);
    LookupPut(s, RefreshTokenField, Str(t), RefreshTokenField);
    WithoutPut(s, RefreshTokenField, Str(t));
    WithoutAbsent(s, RefreshTokenField);
    Codec.EncodeDecoded(d[UserAuthKey]);
    var d5 := ClearImpersonationStore(d4);
    assert StopStep(d2) == Step(Ok(()), d5);
    assert d5.Keys == d.Keys;
    assert forall k | k in d :: d5[k] == d[k];
  }

  /** A second `startImpersonation` rejects and leaves the first impersonation as it was. */
  lemma StartTwiceRejected(d: Store, userId: string, json: Payload, userId': string, reply: Reply)
    requires Wf(d) && Get(d).Session? && !IsImpersonatingUser(d)
    ensures var first := StartStep(d, userId, Replied(json)).store;
      StartStep(first, userId', reply) == Step(Err(BaasError(AlreadyImpersonating)), first)
  {
    StartEnters(d, userId, json);
  }

  /* ---------------- handleRedirect ---------------- */

  /** A reported error is recorded and the URL scrubbed; the store, state key included, is untouched. */
  lemma RedirectErrorKeepsStore(d: Store, error: Option<string>, f: RedirectFragment)
    requires HasError(f)
    ensures RedirectStep(d, error, true, f) == RedirectEffect(d, f.lastError, true)
  {
  }

  /** No auth parameters in the fragment: nothing changes. */
  lemma RedirectNotFoundChangesNothing(d: Store, error: Option<string>, f: RedirectFragment)
    requires !HasError(f) && !f.found
    ensures RedirectStep(d, error, true, f) == RedirectEffect(d, error, false)
  {
  }

  /** Once the fragment is found and carries no error, the pending state is consumed whatever follows. */
  lemma RedirectConsumesState(d: Store, error: Option<string>, f: RedirectFragment)
    requires !HasError(f) && f.found
    ensures StateKey !in RedirectStep(d, error, true, f).store
  {
  }

  /**
   * The session is adopted exactly when the state matched and a session
   * came back: then `get()` is that session; otherwise every key but the
   * state key keeps its value.
   */
  lemma RedirectAdoptsOnlyValidState(d: Store, error: Option<string>, hasWindow: bool, f: RedirectFragment)
    ensures var e := RedirectStep(d, error, hasWindow, f);
      if hasWindow && !HasError(f) && f.found && f.stateValid && f.ua.Some? then
        Get(e.store) == Session(Without(f.ua.value, RefreshTokenField)) &&
        GetRefreshToken(e.store) == Some(JsString(Lookup(f.ua.value, RefreshTokenField))) &&
        e.scrubbed
      else
        forall k :: k != StateKey ==> Item(e.store, k) == Item(d, k)
  {
    if hasWindow && !HasError(f) && f.found && f.stateValid && f.ua.Some? {
      SetThenGet(d - {StateKey}, f.ua.value);
    }
  }

  /** The URL is scrubbed on an error, a state mismatch and an adoption, and left alone otherwise. */
  lemma RedirectScrubs(d: Store, error: Option<string>, f: RedirectFragment)
    ensures RedirectStep(d, error, true, f).scrubbed <==>
      HasError(f) || (f.found && (!f.stateValid || f.ua.Some?))
  {
  }

  /* ---------------- a session from end to end ---------------- */

  /**
   * An API-key login whose reply is
   * `{accessToken: "a1", refreshToken: "r1", user: {_id: "u1"}}` leaves
   * `authedId()` at `{"$oid": "u1"}` and the token at "r1"; a `clear()`
   * afterwards leaves no session and no id.
   */
  lemma ApiKeyLoginThenClear(d: Store)
    ensures var reply := [Field("accessToken", Str("a1")), Field("refreshToken", Str("r1")),
                          Field("user", Obj([Field("_id", Str("u1"))]))];
      var d1 := SetStore(d, reply);
      && AuthedId(d1) == Some(Obj([Field("$oid", Str("u1"))]))
      && GetRefreshToken(d1) == Some("r1")
      && Get(ClearStore(d1)) == NoSession
      && AuthedId(ClearStore(d1)) == None
  {
    var reply := [Field("accessToken", Str("a1")), Field("refreshToken", Str("r1")),
                  Field("user", Obj([Field("_id", Str("u1"))]))];
    AuthedIdAfterSet(d, reply, [Field("_id", Str("u1"))], Str("u1"));
  }
}
