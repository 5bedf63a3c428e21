/** The user-management routes (api/users.py) over an abstract user table.
    Every route sits behind `admin_required`, and create and delete also
    behind `log_activity`; those wrappers are `Auth.AdminRequired` and
    `Auth.LogActivity`, whose lemmas cover the gate for any handler. */
module UsersApi {
  import opened Values
  import opened Http
  import opened UserModel
  import CampaignModel

  type UserStore = map<int, User>

  /** Every stored user sits under its own id. */
  predicate WellFormed(store: UserStore) {
    forall id :: id in store ==> store[id].id == id
  }

  /** The `unique=True` constraint on `users.email`. */
  predicate UniqueEmails(store: UserStore) {
    forall i, j :: i in store && j in store && store[i].email == store[j].email ==> i == j
  }

  predicate EmailTaken(store: UserStore, email: string) {
    exists id :: id in store && store[id].email == email
  }

  /** The JSON object the routes return for a user. */
  datatype UserView = UserView(id: int, email: string, isAdmin: bool)

  /** `list_users`: every user, by id (the query has no ORDER BY). */
  function ListUsers(store: UserStore): (r: map<int, UserView>)
    requires WellFormed(store)
    ensures r.Keys == store.Keys
    ensures forall id :: id in r ==>
      r[id] == UserView(id, store[id].email, store[id].isAdmin)
  {
    map id | id in store :: UserView(store[id].id, store[id].email, store[id].isAdmin)
  }

  /** `create_user`. `freshId` is the id the database assigns. A truthy
      `email` that is not a string fails inside the validator, as the
      non-matching string does. */
  method CreateUser(store: UserStore, body: map<string, Value>, freshId: int)
    returns (out: Outcome<UserView>, store': UserStore)
    requires freshId !in store
    ensures !PyTruthy(Prop(body, "email")) ==>
      out == Returned(Reply(400, "message", "Email required")) && store' == store
    ensures (Prop(body, "email").Str? && PyTruthy(Prop(body, "email"))
             && EmailTaken(store, Prop(body, "email").s)) ==>
      out == Returned(Reply(400, "message", "User exists")) && store' == store
    ensures out.Raised? ==> store' == store
    ensures store' != store ==>
      && Prop(body, "email").Str?
      && var email := Prop(body, "email").s;
      && !EmailTaken(store, email) && PatternMatches(email)
      && store' == store[freshId := User(freshId, email, "", PyTruthy(Prop(body, "is_admin")))]
      && out == Returned(Response(201, Payload(UserView(freshId, email, PyTruthy(Prop(body, "is_admin"))))))
    ensures (Prop(body, "email").Str? && Prop(body, "email").s != ""
             && !EmailTaken(store, Prop(body, "email").s)) ==>
      (freshId in store' <==> PatternMatches(Prop(body, "email").s))
    ensures (Prop(body, "email").Str? && Prop(body, "email").s != ""
             && !EmailTaken(store, Prop(body, "email").s) && !PatternMatches(Prop(body, "email").s)) ==>
      out == Raised("ValueError")
    ensures WellFormed(store) ==> WellFormed(store')
    ensures UniqueEmails(store) ==> UniqueEmails(store')
    ensures out.Returned? && out.response.status == 201 ==> out.response.body.Payload?
    ensures WellFormed(store) && out.Returned? && out.response.status == 201 && out.response.body.Payload? ==>
      ListUsers(store') == ListUsers(store)[freshId := out.response.body.value]
    ensures WellFormed(store) && !(out.Returned? && out.response.status == 201) ==>
      ListUsers(store') == ListUsers(store)
  {
    var email := Prop(body, "email");
    var isAdmin := PyTruthy(Prop(body, "is_admin"));
    if !PyTruthy(email) {
      return Returned(Reply(400, "message", "Email required")), store;
    }
    if email.Str? && EmailTaken(store, email.s) {
      return Returned(Reply(400, "message", "User exists")), store;
    }
    if !email.Str? {
      return Raised("TypeError"), store;
    }
    var checked := ValidateEmail(email.s);
    if checked.Rejected? {
      return Raised("ValueError"), store;
    }
    var user := User(freshId, email.s, "", isAdmin);
    store' := store[freshId := user];
    out := Returned(Response(201, Payload(UserView(freshId, email.s, isAdmin))));
    assert freshId in store' && freshId !in store;
  }

  /** A sequence of `create_user` requests, the i-th getting `ids[i]` if it
      is stored: the table never holds two users with one e-mail address. */
  method CreateUsers(store: UserStore, bodies: seq<map<string, Value>>, ids: seq<int>)
    returns (store': UserStore)
    requires |ids| == |bodies|
    requires forall i :: 0 <= i < |ids| ==> ids[i] !in store
    requires forall i, j :: 0 <= i < j < |ids| ==> ids[i] != ids[j]
    requires UniqueEmails(store)
    ensures UniqueEmails(store')
    ensures store.Keys <= store'.Keys
    ensures forall id :: id in store' && id !in store ==> id in ids
  {
    store' := store;
    var i := 0;
    while i < |bodies|
      invariant 0 <= i <= |bodies|
      invariant UniqueEmails(store')
      invariant store.Keys <= store'.Keys
      invariant forall id :: id in store' && id !in store ==> id in ids[..i]
    {
      assert ids[i] !in store' by {
        if ids[i] in store' {
          var k :| 0 <= k < i && ids[k] == ids[i];
        }
      }
      var out;
      out, store' := CreateUser(store', bodies[i], ids[i]);
      i := i + 1;
    }
    assert ids[..i] == ids;
  }

  /** Some campaign in the table belongs to the user. */
  predicate OwnsCampaign(campaigns: map<int, CampaignModel.Campaign>, userId: int) {
    exists id :: id in campaigns && campaigns[id].userId == userId
  }

  /** `delete_user(user_id)` on behalf of `current`, over the campaign table
      `campaigns`. The `Campaign.user` backref carries no delete cascade, so
      deleting an owner makes the flush set the owned campaigns' `user_id`
      to NULL; that column is NOT NULL, so the commit raises and nothing is
      deleted. */
  function DeleteUser(store: UserStore, userId: int, current: User, campaigns: map<int, CampaignModel.Campaign>)
    : (r: (Outcome<string>, UserStore))
  {
    if userId !in store then (Aborted(404), store)
    else if store[userId].id == current.id then (Returned(Reply(400, "message", "Cannot delete yourself")), store)
    else if OwnsCampaign(campaigns, userId) then (Raised("IntegrityError"), store)
    else (Returned(Reply(200, "message", "User deleted")), map id | id in store && id != userId :: store[id])
  }

  /** A missing id is a 404 and one's own id a 400; a user who owns a
      campaign cannot be deleted (the commit raises); all three leave the
      table alone. Any other id removes exactly that user. */
  lemma DeleteUserSpec(store: UserStore, userId: int, current: User, campaigns: map<int, CampaignModel.Campaign>)
    requires WellFormed(store)
    ensures var (out, store') := DeleteUser(store, userId, current, campaigns);
      && (userId !in store ==> out == Aborted(404) && store' == store)
      && (userId in store && userId == current.id ==>
            out == Returned(Reply(400, "message", "Cannot delete yourself")) && store' == store)
      && (userId in store && userId != current.id && OwnsCampaign(campaigns, userId) ==>
            out == Raised("IntegrityError") && store' == store)
      && (userId in store && userId != current.id && !OwnsCampaign(campaigns, userId) ==>
            && out == Returned(Reply(200, "message", "User deleted"))
            && store'.Keys == store.Keys - {userId}
            && (forall id :: id in store' ==> store'[id] == store[id]))
      && (store' != store <==> out == Returned(Reply(200, "message", "User deleted")))
      && WellFormed(store')
      && (UniqueEmails(store) ==> UniqueEmails(store'))
  {
    var (out, store') := DeleteUser(store, userId, current, campaigns);
    if userId in store && userId != current.id && !OwnsCampaign(campaigns, userId) {
      assert userId !in store';
    }
  }

  /** The listing after a delete: a 200 drops exactly that user from
      `list_users`, any other answer leaves the listing as it was. */
  lemma DeleteUpdatesListing(store: UserStore, userId: int, current: User, campaigns: map<int, CampaignModel.Campaign>)
    requires WellFormed(store)
    ensures var (out, store') := DeleteUser(store, userId, current, campaigns);
      && WellFormed(store')
      && (out == Returned(Reply(200, "message", "User deleted")) ==>
            userId in ListUsers(store) && ListUsers(store') == ListUsers(store) - {userId})
      && (out != Returned(Reply(200, "message", "User deleted")) ==> ListUsers(store') == ListUsers(store))
  {
    DeleteUserSpec(store, userId, current, campaigns);
  }

  /** The current admin is never removed by a delete request. */
  lemma DeleteKeepsCurrentUser(store: UserStore, userId: int, current: User, campaigns: map<int, CampaignModel.Campaign>)
    requires WellFormed(store) && current.id in store
    ensures current.id in DeleteUser(store, userId, current, campaigns).1
  {
    DeleteUserSpec(store, userId, current, campaigns);
  }
}
