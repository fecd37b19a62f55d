# Auth session manager: a verified model

This project models the client-side session manager of the BaaS JavaScript
SDK (`distribution/auth.js`): the `Auth` class and its in-memory key-value
backend `AuthDataStorage`. `Auth` keeps the current session in a string store:
an access token and user document as one blob, and the refresh token under its
own key. It also keeps a one-level impersonation overlay that remembers the
real session so it can be restored. It persists a random state token before an
OAuth redirect and checks it when the redirect comes back.

Layout, leaf first:

- `wrappers.dfy` (`Wrappers`): `Option` and `Result`.
- `json.dfy` (`Json`): JSON values. An object is an insertion-ordered field list. It defines `obj[k]` (`Lookup`), `obj[k] = v` (`Put`), `delete obj[k]` (`Without`), JavaScript truthiness and `String(v)` (`JsString`).
- `codec.dfy` (`Codec`): the stored blob's text form. A canonical JSON writer and a parser that accepts exactly its output. It stands in for `base64(JSON.stringify(...))` and `JSON.parse(atob(...))`. Both round trips are proved.
- `storage.dfy` (`Storage`): the class `AuthDataStorage` over a `map<string, string>` field.
- `session.dfy` (`Session`): the store keys. `get`, `getRefreshToken`, `authedId` and `isImpersonatingUser` as functions of the store contents. One step function per state-changing operation, mapping the store before to the store after and how the call settles. The invariant `Wf` and its preservation.
- `session_properties.dfy` (`SessionProperties`): what the manager promises, as lemmas about those steps.
- `auth.dfy` (`Auth`): the class `Auth`. Each method performs the source's `setItem`/`removeItem` calls in the source's order. Its `ensures` ties the new store and the result to the matching step of `Session`. `generateState` is a `for` loop over the given random draws.

Inputs stand in for everything outside the file. A network reply is `Reply`: `Replied(json)` or `Failed(reason)`. The verdict of `common.parseRedirectFragment` is `RedirectFragment`. Whether a browser window exists is `hasWindow`. The page URL is `pageRootUrl`. `encodeURI` is a function parameter. `Math.floor(Math.random() * 62)` is a sequence of draws below 62.

Where the code and the component's documented design differ, the model follows the code:

- `removeItem` returns `true` whether or not the key was there. That is what `delete` on an object property returns.
- A redirect that reports an error does not remove the pending state key.
- A redirect with a valid state but no `ua` payload does not scrub the URL.
- A failed impersonation refresh calls `stopImpersonation`. That call throws when no impersonation is active, so the rejection then carries "Not impersonating a user" instead of the request's error.
- `get` treats an empty stored blob as no session.
- `set` deletes `refreshToken` from the object it is given, so `localAuth` resolves with the reply minus its refresh token.
- An absent refresh token is stored as the string `"undefined"`.

## Model

| member | source | states |
|---|---|---|
| Storage.AuthDataStorage.constructor | distribution/auth.js:23-27 | a new backend holds no item |
| Storage.AuthDataStorage.SetItem | distribution/auth.js:30-33 | `getItem(id)` afterwards is `String(val)`; every other key keeps its value |
| Storage.AuthDataStorage.GetItem | distribution/auth.js:35-38 | a value is returned exactly when the key is stored, and it is the stored string |
| Storage.AuthDataStorage.RemoveItem | distribution/auth.js:40-43 | only `id` is removed, and the call reports `true` |
| Storage.AuthDataStorage.Clear | distribution/auth.js:45-48 | afterwards every `getItem` is absent |
| Json.LookupPut | distribution/auth.js:85-86 | after `obj[k] = v`, `obj[k]` is `v` and every other field reads as before |
| Json.LookupWithout | distribution/auth.js:199-200 | after `delete obj[k]`, `obj[k]` is undefined and every other field reads as before |
| Json.WithoutAbsent | distribution/auth.js:199-200 | deleting a field the object lacks leaves the object unchanged |
| Json.WithoutPut | distribution/auth.js:235-236 | setting `refreshToken` and then deleting it, as `set` does, equals deleting it |
| Codec.ParseSerialized | distribution/auth.js:17-20 | parsing a serialized value, whatever text follows it, yields that value and exactly the following text |
| Codec.SerializeParsed | distribution/auth.js:17-20 | any text the parser accepts is the serialization of what it read, followed by the rest |
| Codec.DecodeEncode | distribution/auth.js:202-212 | the blob `set` writes decodes in `get` to the object that was written |
| Codec.EncodeDecoded | distribution/auth.js:256-258 | a blob that decodes is exactly the encoding of its decoded object |
| Session.Get | distribution/auth.js:206-213 | null exactly when the user-auth blob is absent or empty; a session read back is the object whose encoding is the stored blob |
| Session.GetRefreshToken | distribution/auth.js:192-195 | the stored text under the refresh-token key, present exactly when that key is stored |
| Session.AuthedId | distribution/auth.js:215-221 | nothing without a session; when present, `{"$oid": id}` for the truthy `_id` of the session's `user` object |
| Session.IsImpersonatingUser | distribution/auth.js:223-226 | true exactly when the impersonation flag is stored as the text `"true"` |
| Session.WfReadable | distribution/auth.js:207-226 | under the invariant, `get` never fails to decode, returns a session iff the user-auth key is stored, and an active impersonation has a session beneath it |
| Session.WfSet | distribution/auth.js:198-204 | `set` keeps the invariant: readable blob without `refreshToken`, refresh token stored beside it |
| Session.WfClear | distribution/auth.js:186-190 | `clear` and `clearImpersonation` keep the invariant |
| Session.WfSetAccessToken | distribution/auth.js:83-88 | `setAccessToken` keeps the invariant |
| Session.WfStop | distribution/auth.js:263-275 | `stopImpersonation` keeps the invariant |
| Session.WfRefresh | distribution/auth.js:229-243 | `refreshImpersonation` keeps the invariant on success and on failure |
| Session.WfStartSnapshot | distribution/auth.js:253-258 | the store `startImpersonation` hands to `refreshImpersonation` has all three impersonation keys and a readable snapshot |
| Session.WfStart | distribution/auth.js:246-260 | `startImpersonation` keeps the invariant on every path |
| Session.WfRedirect | distribution/auth.js:96-127 | `handleRedirect` keeps the invariant |
| SessionProperties.SetThenGet | distribution/auth.js:198-213 | after `set(P)`, `get()` is P without `refreshToken`, `getRefreshToken()` is `String(P.refreshToken)`, and no other key changes |
| SessionProperties.SetThenGetRefreshToken | distribution/auth.js:192-204 | a string refresh token comes back from `getRefreshToken` unchanged |
| SessionProperties.SetWhatWasRead | distribution/auth.js:198-213 | re-storing the session `get` read, with the stored refresh token spliced in, leaves the store exactly as it was |
| SessionProperties.SetAccessTokenOnlyToken | distribution/auth.js:83-88 | `setAccessToken(t)` succeeds; the new session is the old one with `accessToken` set to t; every other field and the stored refresh token are unchanged |
| SessionProperties.SetAccessTokenWithoutSession | distribution/auth.js:84-85 | without a session, `setAccessToken` throws (property write on null) and writes nothing |
| SessionProperties.ClearLeavesNothing | distribution/auth.js:186-190 | after `clear()`, the user-auth, refresh-token and three impersonation keys are gone; `get()` is null, `authedId()` is nothing, `isImpersonatingUser()` is false, and the state key is kept |
| SessionProperties.AuthedIdAfterSet | distribution/auth.js:216-221 | a session whose `user._id` is truthy gives `{"$oid": _id}` |
| SessionProperties.AuthedIdWithoutUser | distribution/auth.js:216-221 | a session without `user` gives nothing, not an error |
| SessionProperties.StartGuards | distribution/auth.js:247-252 | with no session `startImpersonation` rejects "Must auth first"; while impersonating it rejects "Already impersonating a user"; neither writes |
| SessionProperties.StopWhenNotImpersonating | distribution/auth.js:266-268 | `stopImpersonation` when not active throws "Not impersonating a user" and writes nothing |
| SessionProperties.RefreshKeepsRefreshToken | distribution/auth.js:233-238 | a successful refresh adopts the reply as the session but keeps the stored refresh token, whatever token the reply carries |
| SessionProperties.RefreshFailureUnwinds | distribution/auth.js:239-242 | a failed refresh while impersonating runs `stopImpersonation` and rejects with the request's error; when not impersonating it rejects with the throw of `stopImpersonation` and writes nothing |
| SessionProperties.StopRestoresSnapshot | distribution/auth.js:269-274 | `stopImpersonation` restores the snapshot as the session, its refresh token under its key, and removes all three impersonation keys |
| SessionProperties.StartEnters | distribution/auth.js:253-259 | a successful start sets the flag and target user, adopts the reply, keeps the real refresh token, and later refreshes target that user |
| SessionProperties.StartThenStopRestores | distribution/auth.js:246-275 | `startImpersonation` then `stopImpersonation` returns the store to exactly its state before the start |
| SessionProperties.StartFailureRestores | distribution/auth.js:239-259 | a start whose request fails rejects with that failure and leaves the store exactly as it was |
| SessionProperties.StartTwiceRejected | distribution/auth.js:250-252 | a second start during an impersonation rejects and leaves the first impersonation's store unchanged |
| SessionProperties.RedirectErrorKeepsStore | distribution/auth.js:105-110 | a reported error is recorded and the URL scrubbed; the store, including the state key, is untouched |
| SessionProperties.RedirectNotFoundChangesNothing | distribution/auth.js:111-113 | a fragment without auth parameters changes nothing and does not scrub |
| SessionProperties.RedirectConsumesState | distribution/auth.js:114 | once the fragment is found without error, the state key is removed, whatever follows |
| SessionProperties.RedirectAdoptsOnlyValidState | distribution/auth.js:115-126 | the session is adopted, via `set(ua)`, only when the state is valid and `ua` is present; otherwise every key but the state key keeps its value |
| SessionProperties.RedirectScrubs | distribution/auth.js:105-126 | the URL is scrubbed exactly on an error, a state mismatch, or an adoption |
| SessionProperties.ApiKeyLoginThenClear | distribution/auth.js:154-166 | an API-key login replying `{accessToken:"a1", refreshToken:"r1", user:{_id:"u1"}}` gives `authedId()` `{"$oid":"u1"}` and token "r1"; after `clear()`, no session and no id |
| Auth.CredentialBodies | distribution/auth.js:140-183 | the API-key and user/password request bodies read back as exactly `{key}` and `{username, password}`; the anonymous request has no body |
| Auth.AlphabetSymbols | distribution/auth.js:286 | the state alphabet is the 62 ASCII letters and digits, each at exactly one position |
| Auth.Auth.GenerateState | distribution/auth.js:285-294 | the state has 64 characters; character i is the alphabet symbol of draw i, so each is a letter or digit |
| Auth.Auth.GetOAuthLoginURL | distribution/auth.js:130-138 | a 64-symbol state replaces any pending state and no other key changes; the URL is `rootUrl/oauth2/provider?redirect=encodeURI(target)&state=state`, with the page URL as default target |
| Auth.Auth.constructor | distribution/auth.js:55-64 | a new manager starts with an empty store that satisfies the invariant |
| Auth.Auth.Set | distribution/auth.js:198-204 | writes the blob, then the refresh token; the caller's object loses `refreshToken` |
| Auth.Auth.SetAccessToken | distribution/auth.js:83-88 | performs the `setAccessToken` step and keeps the invariant |
| Auth.Auth.ClearImpersonation | distribution/auth.js:278-282 | removes exactly the three impersonation keys |
| Auth.Auth.Clear | distribution/auth.js:186-190 | removes the session keys and the impersonation keys, leaving a valid store |
| Auth.Auth.StopImpersonation | distribution/auth.js:263-275 | performs the `stopImpersonation` step: guard, restore through `set`, then clear the overlay |
| Auth.Auth.RefreshImpersonation | distribution/auth.js:229-243 | performs the refresh step on a reply or a failure |
| Auth.Auth.StartImpersonation | distribution/auth.js:246-260 | guards, then flag, user and snapshot writes, then the refresh, ending in the start step's store and result |
| Auth.Auth.HandleRedirect | distribution/auth.js:96-127 | store, recorded error and URL scrub end as the redirect step says; nothing happens outside a browser |
| Auth.Auth.CompleteLogin | distribution/auth.js:140-182 | a reply is adopted through `set`; `localAuth` resolves with the reply minus `refreshToken`, `anonymousAuth` and `apiKeyAuth` with nothing; a failure propagates and writes nothing |

## Left out

- HTTP: `fetch`, `common.makeFetchArgs`, `common.checkStatus` and `client._do` are I/O. Each continuation takes the reply as input. `Request` records only the method, URL and body. Headers, `cors`, and the `useRefreshToken`/`refreshOnFailure` options of the impersonation request are not modelled.
- The shared constants module (`./common`) is not part of this model. The six store keys are distinct placeholder strings, and `parseRedirectFragment` is replaced by its result.
- Browser surface: `window.location`, `pageRootUrl`, `window.history.replaceState` and `console.error`. The page URL is an input, the scrub is the `scrubbed` result, and log lines are dropped.
- Auth.Auth.GetOAuthLoginURL: always stores a state and returns a URL. Outside a browser, with no redirect URL given, the source calls `pageRootUrl` (distribution/auth.js:132), which reads `window.location` and throws a ReferenceError before any state is stored.
- Storage.AuthDataStorage.SetItem: treats every key as a map key. In the source the backend is a plain object (distribution/auth.js:26). `setItem("__proto__", v)` runs the built-in `__proto__` setter with a string, which ignores it, so nothing is stored. `setItem("hasOwnProperty", v)` shadows the method that `getItem` calls. The manager's six keys are neither.
- Storage.AuthDataStorage.GetItem: returns the stored value for every state. In the source, `getItem("__proto__")` always returns undefined, since that key is never an own property. Once `"hasOwnProperty"` is stored, every later `getItem` throws a TypeError (distribution/auth.js:37).
- Backend selection between `window.localStorage` and `AuthDataStorage` is environment detection. The model has the one map-backed store.
- Base64 and JSON: replaced by a canonical JSON text codec. JSON numbers and the escaping of control characters are not modelled.
- Codec.Encode: always succeeds. The source's `Base64.btoa` throws on any character above U+00FF, so `set` (distribution/auth.js:202) and the snapshot in `startImpersonation` (distribution/auth.js:258) throw for such a session and write no blob.
- `Math.random`: replaced by the given draws in [0, 62). Their distribution is not modelled.
- `encodeURI`: a function parameter. Its percent-encoding is not modelled.
- Promises: every call runs to completion in order. A synchronous throw and a rejected promise are both `Err`.
- `error()`: a plain getter of the `error` field.
- `localAuth`'s unused `options` argument has nothing to model.
- Replies and redirect payloads that are not JSON objects are not modelled. Session payloads are objects.
- Session.Get: a stored blob that does not decode to an object reads as `Unreadable`. The source would throw from the parse, or return the bare value. No write in this model stores such a blob (the invariant `Wf`).
- Session.AuthedId: yields nothing on an unreadable blob, where the source throws. `Wf` rules that state out.
