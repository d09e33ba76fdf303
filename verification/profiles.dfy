/** Signup, profile read and profile merge-update
    (src/supabase/functions/server/index.tsx:80-167). The identity provider's
    account creation is a parameter, `createUser`; the clock is `now`. */
module Profiles {
  import opened Wrappers
  import opened Json
  import opened Records
  import Kv

  /** The JSON body of a signup request; a field is None when it is missing. */
  datatype SignupRequest = SignupRequest(email: Option<string>, password: Option<string>, name: Option<string>)

  /** The identity provider's `admin.createUser(email, password, name)`. */
  type CreateUser = (string, string, string) -> Result<AuthUser, string>

  /** A request field is truthy: present and non-empty. */
  predicate Filled(v: Option<string>) {
    v.Some? && |v.value| > 0
  }

  /** The profile record written at signup, from what the provider returned. */
  function NewProfile(u: AuthUser, now: nat): (m: map<string, Json>)
    ensures m.Keys == {"id", "email", "name", "addresses", "createdAt"}
    ensures m["id"] == JStr(u.id) && m["email"] == JStr(u.email) && m["name"] == JStr(u.name)
    ensures m["addresses"] == JArr([]) && m["createdAt"] == JNum(now)
  {
    map["id" := JStr(u.id), "email" := JStr(u.email), "name" := JStr(u.name),
        "addresses" := JArr([]), "createdAt" := JNum(now)]
  }

  /** `POST /auth/signup`. */
  function Signup(store: Store, req: SignupRequest, createUser: CreateUser, now: nat): (r: Reply)
    // a missing field is rejected before the provider is asked or anything is written
    ensures !(Filled(req.email) && Filled(req.password) && Filled(req.name)) ==>
              r.response.status == BAD_REQUEST && r.store == store
    // the provider's refusal is passed on with its message, and nothing is written
    ensures Filled(req.email) && Filled(req.password) && Filled(req.name)
            && createUser(req.email.value, req.password.value, req.name.value).Failure? ==>
              r == Fail(store, BAD_REQUEST, createUser(req.email.value, req.password.value, req.name.value).error)
    // a complete request the provider accepts succeeds
    ensures Filled(req.email) && Filled(req.password) && Filled(req.name)
            && createUser(req.email.value, req.password.value, req.name.value).Success? ==>
              r.response.status == OK
    // on success exactly the new user's profile key is written, with an empty address list
    ensures r.response.status == OK ==>
              && Filled(req.email) && Filled(req.password) && Filled(req.name)
              && var u := createUser(req.email.value, req.password.value, req.name.value).value;
              && r.store.Keys == store.Keys + {ProfileKey(u.id)}
              && (forall k :: k in store && k != ProfileKey(u.id) ==> r.store[k] == store[k])
              && AsProfile(Kv.Get(r.store, ProfileKey(u.id))) == Some(NewProfile(u, now))
              && r.response.body == SignedUp(u.id, u.email, u.name)
  {
    if !(Filled(req.email) && Filled(req.password) && Filled(req.name)) then
      Fail(store, BAD_REQUEST, "Missing required fields")
    else
      match createUser(req.email.value, req.password.value, req.name.value)
      case Failure(message) => Fail(store, BAD_REQUEST, message)
      case Success(u) =>
        var store' := Kv.Set(store, ProfileKey(u.id), ProfileVal(NewProfile(u, now)));
        Reply(Response(OK, SignedUp(u.id, u.email, u.name)), store')
  }

  /** `GET /user/profile`. */
  function GetProfile(store: Store, caller: Option<AuthUser>): (r: Reply)
    ensures r.store == store
    ensures caller.None? ==> r.response.status == UNAUTHORIZED
    ensures caller.Some? ==>
              (r.response.status == NOT_FOUND <==> AsProfile(Kv.Get(store, ProfileKey(caller.value.id))).None?)
    ensures r.response.status == OK ==>
              caller.Some? && r.response.body == Profile(store[ProfileKey(caller.value.id)].fields)
    ensures caller.Some? && AsProfile(Kv.Get(store, ProfileKey(caller.value.id))).Some? ==>
              r.response == Response(OK, Profile(AsProfile(Kv.Get(store, ProfileKey(caller.value.id))).value))
  {
    if caller.None? then Unauthorized(store)
    else
      match AsProfile(Kv.Get(store, ProfileKey(caller.value.id)))
      case None => Fail(store, NOT_FOUND, "User not found")
      case Some(fields) => Reply(Response(OK, Profile(fields)), store)
  }

  /** `{ ...existing, ...updates, id }`: a shallow merge in which the payload
      overrides stored fields and the caller's id overrides both. */
  function Merge(existing: map<string, Json>, updates: map<string, Json>, id: string): (m: map<string, Json>)
    ensures m.Keys == existing.Keys + updates.Keys + {"id"}
    ensures m["id"] == JStr(id)
    ensures forall k :: k in updates && k != "id" ==> m[k] == updates[k]
    ensures forall k :: k in existing && k !in updates && k != "id" ==> m[k] == existing[k]
  {
    existing + updates + map["id" := JStr(id)]
  }

  /** `PUT /user/profile`. */
  function UpdateProfile(store: Store, caller: Option<AuthUser>, updates: map<string, Json>): (r: Reply)
    ensures caller.None? ==> r.response.status == UNAUTHORIZED && r.store == store
    ensures caller.Some? && AsProfile(Kv.Get(store, ProfileKey(caller.value.id))).None? ==>
              r.response.status == NOT_FOUND && r.store == store
    // a caller with a stored profile gets the merge back
    ensures caller.Some? && AsProfile(Kv.Get(store, ProfileKey(caller.value.id))).Some? ==>
              r.response == Response(OK, Profile(Merge(AsProfile(Kv.Get(store, ProfileKey(caller.value.id))).value,
                                                       updates, caller.value.id)))
    ensures r.response.status == OK ==>
              && caller.Some?
              && var key := ProfileKey(caller.value.id);
              && key in store && store[key].ProfileVal?
              && r.store == Kv.Set(store, key, ProfileVal(Merge(store[key].fields, updates, caller.value.id)))
              && r.response.body == Profile(r.store[key].fields)
              && r.store[key].fields["id"] == JStr(caller.value.id)
  {
    if caller.None? then Unauthorized(store)
    else
      var key := ProfileKey(caller.value.id);
      match AsProfile(Kv.Get(store, key))
      case None => Fail(store, NOT_FOUND, "User not found")
      case Some(existing) =>
        var merged := Merge(existing, updates, caller.value.id);
        Reply(Response(OK, Profile(merged)), Kv.Set(store, key, ProfileVal(merged)))
  }

  /** A complete signup the provider accepts, followed by a profile read with
      the new identity, returns the record signup wrote. */
  lemma SignupThenGetProfile(store: Store, req: SignupRequest, createUser: CreateUser, now: nat)
    requires Filled(req.email) && Filled(req.password) && Filled(req.name)
    requires createUser(req.email.value, req.password.value, req.name.value).Success?
    ensures var u := createUser(req.email.value, req.password.value, req.name.value).value;
      GetProfile(Signup(store, req, createUser, now).store, Some(u)).response
        == Response(OK, Profile(NewProfile(u, now)))
  {
  }

  /** The concrete signup of `a@x.com` / `secret1` / `A` stores
      `{id, email: "a@x.com", name: "A", addresses: []}`. */
  lemma SignupExample(store: Store, createUser: CreateUser, now: nat)
    requires createUser("a@x.com", "secret1", "A") == Success(AuthUser("u1", "a@x.com", "A"))
    ensures var r := Signup(store, SignupRequest(Some("a@x.com"), Some("secret1"), Some("A")), createUser, now);
      && r.response == Response(OK, SignedUp("u1", "a@x.com", "A"))
      && r.store[ProfileKey("u1")].fields["email"] == JStr("a@x.com")
      && r.store[ProfileKey("u1")].fields["name"] == JStr("A")
      && r.store[ProfileKey("u1")].fields["addresses"] == JArr([])
  {
  }

  /** Whatever id the payload carries, the stored profile keeps the caller's. */
  lemma UpdateCannotChangeId(store: Store, u: AuthUser, updates: map<string, Json>)
    requires UpdateProfile(store, Some(u), updates).response.status == OK
    ensures UpdateProfile(store, Some(u), updates).store[ProfileKey(u.id)].fields["id"] == JStr(u.id)
  {
  }

  /** An update of a stored profile is what the owner reads next: the stored
      fields overridden by the payload, with the caller's id. Without a stored
      profile the update is refused and the store is unchanged. */
  lemma UpdateThenGet(store: Store, u: AuthUser, updates: map<string, Json>)
    ensures var r := UpdateProfile(store, Some(u), updates);
      match AsProfile(Kv.Get(store, ProfileKey(u.id)))
      case None => r.response.status == NOT_FOUND && r.store == store
      case Some(existing) =>
        && r.response.status == OK
        && GetProfile(r.store, Some(u)).response == Response(OK, Profile(Merge(existing, updates, u.id)))
        && GetProfile(r.store, Some(u)).response.body.fields["id"] == JStr(u.id)
  {
  }
}
