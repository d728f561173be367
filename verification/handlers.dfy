/** The write side of the server: the three collections as one database object
    whose handlers check a request body, then insert or overwrite documents.
    Each source variant of a handler is its own method. A handler behind
    `protect` receives the decoded claims `req.user`; `RateEndpoint` shows the
    guard and a handler composed. Fresh ObjectIds are the `newId` parameter and
    bcrypt's `hash` is a parameter. */
module Handlers {
  import opened Models
  import opened Validation
  import opened Guard
  import opened Ledger
  import opened Http
  import opened Auth

  const PasswordRuleApp := "Password must be 8-16 chars, 1 uppercase, 1 special char"
  const RegisteredApp := "Registration successful"
  const NameRuleController := "Name must be 20-60 characters long."
  const UserExists := "User already exists"
  const UserRegistered := "User registered successfully"
  const PasswordRulePolicyFirst :=
    "Password must be 8-16 chars, include 1 uppercase letter and 1 special character."
  const EmailExists := "Email already exists"
  const NameRuleAddUser := "Name 20-60 chars required"
  const PasswordRuleAddUser := "Invalid Password format"
  const UserCreated := "User created successfully"
  const StoreNameRule := "Store Name must be between 20 and 60 characters."
  const StoreAddressRule := "Address is too long (Max 400 chars)."
  const StoreExists := "A store with this email already exists."
  const StoreAdded := "Store added successfully!"
  const InvalidRole := "Invalid role"
  const RoleUpdated := "Role updated successfully"
  const PasswordUpdatedApp := "Password updated"
  const PasswordRuleController :=
    "Password must be 8-16 chars, include 1 uppercase and 1 special character."
  const PasswordUpdatedController := "Password updated successfully"

  /** Every saved user satisfies the schema; `_id` and the unique `email` index hold. */
  ghost predicate UsersValid(users: seq<UserRecord>)
  {
    && (forall i :: 0 <= i < |users| ==> UserSchemaOk(users[i]))
    && (forall i, j :: 0 <= i < j < |users| ==> users[i].id != users[j].id && users[i].email != users[j].email)
  }

  /** Every saved store satisfies the schema; `_id` and the unique `email` index hold. */
  ghost predicate StoresValid(stores: seq<StoreRecord>)
  {
    && (forall i :: 0 <= i < |stores| ==> StoreSchemaOk(stores[i]))
    && (forall i, j :: 0 <= i < j < |stores| ==> stores[i].id != stores[j].id && stores[i].email != stores[j].email)
  }

  /** Every store's `rating` is the rounded mean of its ledger rows (0 before the first). */
  ghost predicate RatingsCurrent(stores: seq<StoreRecord>, ledger: seq<RatingRow>)
  {
    forall i :: 0 <= i < |stores| ==> stores[i].rating == Aggregate(ledger, stores[i].id)
  }

  /** What `save()` of a user draft reports: the schema validators run first,
      then the unique email index; None is a successful insert. */
  function UserSaveError(users: seq<UserRecord>, draft: Option<UserRecord>): (e: Option<SaveError>)
    ensures e.None? <==> draft.Some? && UserWithEmail(users, draft.value.email).None?
    ensures e == Some(ValidationFailed) <==> draft.None?
  {
    if draft.None? then Some(ValidationFailed)
    else if UserWithEmail(users, draft.value.email).Some? then Some(DuplicateKey)
    else None
  }

  /** The three copies of the rate handler: server.js, the inline route of
      userRoutes.js, and `submitRating` of userController.js. */
  datatype RateVariant = AppRate | RouteRate | ControllerRate

  /** The success reply of each rate variant; only the controller echoes the average. */
  function RateReply(variant: RateVariant, average: int): (r: Response)
    ensures r.status == 200
    ensures r.body.Rated? <==> variant == ControllerRate
    ensures r.body.Rated? ==> r.body.averageRating == average
  {
    match variant
    case AppRate => Response(200, Message("Rating updated"))
    case RouteRate => Response(200, Message("Rating submitted"))
    case ControllerRate => Response(200, Rated("Rating saved successfully", average))
  }

  /** server.js uses its own `protect`; the route file uses authMiddleware.js. */
  function RateGuardMessages(variant: RateVariant): Messages
  {
    if variant == AppRate then AppMessages else MiddlewareMessages
  }

  /** Writing the new aggregate into the rated store keeps the store table valid
      and every store's rating current; other stores keep theirs. */
  lemma RateKeepsStoresValid(before: seq<StoreRecord>, ledger: seq<RatingRow>, u: Id, s: Id, v: int,
                             now: nat, after: seq<StoreRecord>)
    requires StoresValid(before) && RatingsCurrent(before, ledger)
    requires |after| == |before|
    requires forall k :: 0 <= k < |after| ==>
               after[k] == if before[k].id == s then before[k].(rating := Aggregate(Upsert(ledger, u, s, v, now), s))
                           else before[k]
    ensures StoresValid(after) && RatingsCurrent(after, Upsert(ledger, u, s, v, now))
  {
    forall k | 0 <= k < |after| && after[k].id != s
      ensures after[k].rating == Aggregate(Upsert(ledger, u, s, v, now), after[k].id)
    {
      UpsertKeepsOtherStores(ledger, u, s, v, now, after[k].id);
    }
  }

  /** The mean the handler computes from the `find` and the `reduce` is the aggregate. */
  lemma MeanIsAggregate(ledger: seq<RatingRow>, s: Id, total: int)
    requires RowsOf(ledger, s) != [] && total == Total(RowsOf(ledger, s))
    ensures RoundTenths(total, |RowsOf(ledger, s)|) == Aggregate(ledger, s)
  {
  }

  class Database {
    var users: seq<UserRecord>
    var stores: seq<StoreRecord>
    var ledger: seq<RatingRow>

    ghost predicate Valid()
      reads this
    {
      UsersValid(users) && StoresValid(stores) && UniquePairs(ledger) && RatingsCurrent(stores, ledger)
    }

    /** No document mentions the id yet: what a newly generated ObjectId guarantees. */
    ghost predicate Unused(id: Id)
      reads this
    {
      && (forall i :: 0 <= i < |users| ==> users[i].id != id)
      && (forall i :: 0 <= i < |stores| ==> stores[i].id != id)
      && (forall i :: 0 <= i < |ledger| ==> ledger[i].user != id && ledger[i].store != id)
    }

    constructor ()
      ensures Valid() && users == [] && stores == [] && ledger == []
    {
      users, stores, ledger := [], [], [];
    }

    /** `new User({...}).save()`: inserts the draft when the schema and the
        unique email index admit it. */
    method InsertUser(newId: Id, name: Option<string>, email: string, digest: Digest,
                      address: Option<string>, role: Option<string>) returns (error: Option<SaveError>)
      requires Valid() && Unused(newId)
      modifies this
      ensures Valid() && stores == old(stores) && ledger == old(ledger)
      ensures var draft := NewUser(newId, name, email, digest, address, role);
              && error == UserSaveError(old(users), draft)
              && users == if error.None? then old(users) + [draft.value] else old(users)
    {
      var draft := NewUser(newId, name, email, digest, address, role);
      error := UserSaveError(users, draft);
      if error.None? {
        users := users + [draft.value];
      }
    }

    /** `/api/auth/register` of server.js: the password policy, then the save;
        any save error is a 400 carrying the error. */
    method RegisterApp(newId: Id, name: Option<string>, email: string, password: string,
                       address: Option<string>, role: Option<string>, hash: string -> Digest)
      returns (resp: Response)
      requires Valid() && Unused(newId)
      modifies this
      ensures Valid() && stores == old(stores) && ledger == old(ledger)
      ensures !PasswordAccepted(password) ==>
                resp == Response(400, Message(PasswordRuleApp)) && users == old(users)
      ensures PasswordAccepted(password) ==>
                var draft := NewUser(newId, name, email, hash(password), address, role);
                var e := UserSaveError(old(users), draft);
                && (e.None? ==> resp == Response(201, Message(RegisteredApp)) && users == old(users) + [draft.value])
                && (e.Some? ==> resp == Response(400, SaveFailed(e.value)) && users == old(users))
    {
      if !PasswordAccepted(password) {
        return Response(400, Message(PasswordRuleApp));
      }
      var error := InsertUser(newId, name, email, hash(password), address, role);
      if error.None? {
        resp := Response(201, Message(RegisteredApp));
      } else {
        resp := Response(400, SaveFailed(error.value));
      }
    }

    /** `register` of authController.js: the name check, then the email lookup;
        no password policy, and the body's role is passed on as given. */
    method RegisterController(newId: Id, name: Option<string>, email: string, password: string,
                              address: Option<string>, role: Option<string>, hash: string -> Digest)
      returns (resp: Response)
      requires Valid() && Unused(newId)
      modifies this
      ensures Valid() && stores == old(stores) && ledger == old(ledger)
      ensures !NameAccepted(name) ==>
                resp == Response(400, Message(NameRuleController)) && users == old(users)
      ensures NameAccepted(name) && UserWithEmail(old(users), email).Some? ==>
                resp == Response(400, Message(UserExists)) && users == old(users)
      ensures NameAccepted(name) && UserWithEmail(old(users), email).None? ==>
                var draft := NewUser(newId, name, email, hash(password), address, role);
                && (draft.Some? ==> resp == Response(201, Message(UserRegistered)) && users == old(users) + [draft.value])
                && (draft.None? ==> resp == Response(500, SaveFailed(ValidationFailed)) && users == old(users))
    {
      if !NameAccepted(name) {
        return Response(400, Message(NameRuleController));
      }
      if UserWithEmail(users, email).Some? {
        return Response(400, Message(UserExists));
      }
      var error := InsertUser(newId, name, email, hash(password), address, role);
      if error.None? {
        resp := Response(201, Message(UserRegistered));
      } else {
        resp := Response(500, SaveFailed(error.value));
      }
    }

    /** `register` of authControllers.js: the password policy, then the email
        lookup, then the save. */
    method RegisterPolicyFirst(newId: Id, name: Option<string>, email: string, password: string,
                               address: Option<string>, role: Option<string>, hash: string -> Digest)
      returns (resp: Response)
      requires Valid() && Unused(newId)
      modifies this
      ensures Valid() && stores == old(stores) && ledger == old(ledger)
      ensures !PasswordAccepted(password) ==>
                resp == Response(400, Message(PasswordRulePolicyFirst)) && users == old(users)
      ensures PasswordAccepted(password) && UserWithEmail(old(users), email).Some? ==>
                resp == Response(400, Message(EmailExists)) && users == old(users)
      ensures PasswordAccepted(password) && UserWithEmail(old(users), email).None? ==>
                var draft := NewUser(newId, name, email, hash(password), address, role);
                && (draft.Some? ==> resp == Response(201, Message(UserRegistered)) && users == old(users) + [draft.value])
                && (draft.None? ==> resp == Response(500, SaveFailed(ValidationFailed)) && users == old(users))
    {
      if !PasswordAccepted(password) {
        return Response(400, Message(PasswordRulePolicyFirst));
      }
      if UserWithEmail(users, email).Some? {
        return Response(400, Message(EmailExists));
      }
      var error := InsertUser(newId, name, email, hash(password), address, role);
      if error.None? {
        resp := Response(201, Message(UserRegistered));
      } else {
        resp := Response(500, SaveFailed(error.value));
      }
    }

    /** Registering through `/api/auth/register` of server.js and then logging in
        with the same email and password: when bcrypt's `compare` accepts a
        password against its own digest, a 201 registration is followed by a
        200 login in both login variants. */
    method RegisterAppThenLogIn(newId: Id, name: Option<string>, email: string, password: string,
                                address: Option<string>, role: Option<string>, hash: string -> Digest,
                                compare: (string, string) -> bool, sign: (Claims, nat) -> string)
      returns (registered: Response, login: Response)
      requires Valid() && Unused(newId)
      requires forall p :: compare(p, hash(p))
      modifies this
      ensures Valid() && stores == old(stores) && ledger == old(ledger)
      ensures var draft := NewUser(newId, name, email, hash(password), address, role);
              && (registered.status == 201 <==> PasswordAccepted(password) && UserSaveError(old(users), draft).None?)
              && (registered.status == 201 ==> users == old(users) + [draft.value])
              && (registered.status != 201 ==> users == old(users))
      ensures login == LoginApp(users, email, password, compare, sign)
      ensures registered.status == 201 ==>
                login.status == 200 && LoginController(users, email, password, compare, sign).status == 200
    {
      var before := users;
      registered := RegisterApp(newId, name, email, password, address, role, hash);
      if registered.status == 201 {
        var draft := NewUser(newId, name, email, hash(password), address, role);
        assert users == before + [draft.value];
        RegisteredUserCanLogIn(before, draft.value, password, compare, sign);
      }
      login := LoginApp(users, email, password, compare, sign);
    }

    /** The same for `register` of authControllers.js. */
    method RegisterPolicyFirstThenLogIn(newId: Id, name: Option<string>, email: string, password: string,
                                        address: Option<string>, role: Option<string>, hash: string -> Digest,
                                        compare: (string, string) -> bool, sign: (Claims, nat) -> string)
      returns (registered: Response, login: Response)
      requires Valid() && Unused(newId)
      requires forall p :: compare(p, hash(p))
      modifies this
      ensures Valid() && stores == old(stores) && ledger == old(ledger)
      ensures var draft := NewUser(newId, name, email, hash(password), address, role);
              && (registered.status == 201 <==>
                    PasswordAccepted(password) && UserWithEmail(old(users), email).None? && draft.Some?)
              && (registered.status == 201 ==> users == old(users) + [draft.value])
              && (registered.status != 201 ==> users == old(users))
      ensures login == LoginController(users, email, password, compare, sign)
      ensures registered.status == 201 ==>
                login.status == 200 && LoginApp(users, email, password, compare, sign).status == 200
    {
      var before := users;
      registered := RegisterPolicyFirst(newId, name, email, password, address, role, hash);
      if registered.status == 201 {
        var draft := NewUser(newId, name, email, hash(password), address, role);
        assert users == before + [draft.value];
        RegisteredUserCanLogIn(before, draft.value, password, compare, sign);
      }
      login := LoginController(users, email, password, compare, sign);
    }

    /** `/api/admin/add-user` of server.js: name length (a missing name throws),
        then the password policy, then the email lookup, then the save. */
    method AddUser(newId: Id, name: Option<string>, email: string, password: string,
                   address: Option<string>, role: Option<string>, hash: string -> Digest)
      returns (resp: Response)
      requires Valid() && Unused(newId)
      modifies this
      ensures Valid() && stores == old(stores) && ledger == old(ledger)
      ensures name.None? ==> resp == Response(500, TypeErrorThrown) && users == old(users)
      ensures name.Some? && !NameLengthOk(name.value) ==>
                resp == Response(400, Message(NameRuleAddUser)) && users == old(users)
      ensures NameAccepted(name) && !PasswordAccepted(password) ==>
                resp == Response(400, Message(PasswordRuleAddUser)) && users == old(users)
      ensures NameAccepted(name) && PasswordAccepted(password) && UserWithEmail(old(users), email).Some? ==>
                resp == Response(400, Message(EmailExists)) && users == old(users)
      ensures NameAccepted(name) && PasswordAccepted(password) && UserWithEmail(old(users), email).None? ==>
                var draft := NewUser(newId, name, email, hash(password), address, role);
                && (draft.Some? ==> resp == Response(201, Message(UserCreated)) && users == old(users) + [draft.value])
                && (draft.None? ==> resp == Response(500, SaveFailed(ValidationFailed)) && users == old(users))
    {
      if name.None? {
        return Response(500, TypeErrorThrown);
      }
      if !NameLengthOk(name.value) {
        return Response(400, Message(NameRuleAddUser));
      }
      if !PasswordAccepted(password) {
        return Response(400, Message(PasswordRuleAddUser));
      }
      if UserWithEmail(users, email).Some? {
        return Response(400, Message(EmailExists));
      }
      var error := InsertUser(newId, name, email, hash(password), address, role);
      if error.None? {
        resp := Response(201, Message(UserCreated));
      } else {
        resp := Response(500, SaveFailed(error.value));
      }
    }

    /** `/api/admin/add-store` of server.js: name, then address, then the email
        lookup, then the save; a new store has rating 0 and no owner. */
    method AddStore(newId: Id, name: Option<string>, email: string, address: Option<string>)
      returns (resp: Response)
      requires Valid() && Unused(newId)
      modifies this
      ensures Valid() && users == old(users) && ledger == old(ledger)
      ensures !NameAccepted(name) ==>
                resp == Response(400, Message(StoreNameRule)) && stores == old(stores)
      ensures NameAccepted(name) && !AddressAccepted(address) ==>
                resp == Response(400, Message(StoreAddressRule)) && stores == old(stores)
      ensures NameAccepted(name) && AddressAccepted(address) && StoreWithEmail(old(stores), email).Some? ==>
                resp == Response(400, Message(StoreExists)) && stores == old(stores)
      ensures NameAccepted(name) && AddressAccepted(address) && StoreWithEmail(old(stores), email).None? ==>
                && (email != "" ==>
                      resp == Response(201, Message(StoreAdded))
                      && stores == old(stores) + [StoreRecord(newId, name.value, email, address.value, DefaultStoreRating, None)])
                && (email == "" ==> resp == Response(500, SaveFailed(ValidationFailed)) && stores == old(stores))
    {
      if !NameAccepted(name) {
        return Response(400, Message(StoreNameRule));
      }
      if !AddressAccepted(address) {
        return Response(400, Message(StoreAddressRule));
      }
      if StoreWithEmail(stores, email).Some? {
        return Response(400, Message(StoreExists));
      }
      var draft := NewStore(newId, name.value, email, address.value);
      if draft.None? {
        return Response(500, SaveFailed(ValidationFailed));
      }
      UnratedStoreHasDefault(ledger, newId);
      stores := stores + [draft.value];
      resp := Response(201, Message(StoreAdded));
    }

    /** `PATCH /api/admin/users/:id/role`: a role outside the enum is refused;
        otherwise the target's role is overwritten, and success is reported
        whether or not a user has that id. */
    method ChangeRole(target: Id, role: Option<string>) returns (resp: Response)
      requires Valid()
      modifies this
      ensures Valid() && stores == old(stores) && ledger == old(ledger)
      ensures !RoleAccepted(role) ==> resp == Response(400, Message(InvalidRole)) && users == old(users)
      ensures RoleAccepted(role) ==>
                && resp == Response(200, Message(RoleUpdated))
                && |users| == |old(users)|
                && forall i :: 0 <= i < |users| ==>
                     users[i] == if old(users)[i].id == target then old(users)[i].(role := ParseRole(role.value).value)
                                 else old(users)[i]
      ensures RoleAccepted(role) && UserWithId(old(users), target).None? ==>
                resp.status == 200 && users == old(users)
    {
      if !RoleAccepted(role) {
        return Response(400, Message(InvalidRole));
      }
      var r := ParseRole(role.value).value;
      var before := users;
      users := seq(|before|, i requires 0 <= i < |before| =>
                 if before[i].id == target then before[i].(role := r) else before[i]);
      resp := Response(200, Message(RoleUpdated));
    }

    /** `/api/auth/update-password` of server.js: no policy; the caller's digest is replaced. */
    method UpdatePasswordApp(caller: Claims, newPassword: string, hash: string -> Digest)
      returns (resp: Response)
      requires Valid()
      modifies this
      ensures Valid() && stores == old(stores) && ledger == old(ledger)
      ensures resp == Response(200, Message(PasswordUpdatedApp))
      ensures |users| == |old(users)|
      ensures forall i :: 0 <= i < |users| ==>
                users[i] == if old(users)[i].id == caller.id then old(users)[i].(password := hash(newPassword))
                            else old(users)[i]
    {
      var digest := hash(newPassword);
      var before := users;
      users := seq(|before|, i requires 0 <= i < |before| =>
                 if before[i].id == caller.id then before[i].(password := digest) else before[i]);
      resp := Response(200, Message(PasswordUpdatedApp));
    }

    /** `updatePassword` of authController.js: the policy first; only the
        caller's record is written. */
    method UpdatePasswordController(caller: Claims, newPassword: string, hash: string -> Digest)
      returns (resp: Response)
      requires Valid()
      modifies this
      ensures Valid() && stores == old(stores) && ledger == old(ledger)
      ensures !PasswordAccepted(newPassword) ==>
                resp == Response(400, Message(PasswordRuleController)) && users == old(users)
      ensures PasswordAccepted(newPassword) ==>
                && resp == Response(200, Message(PasswordUpdatedController))
                && |users| == |old(users)|
                && forall i :: 0 <= i < |users| ==>
                     users[i] == if old(users)[i].id == caller.id then old(users)[i].(password := hash(newPassword))
                                 else old(users)[i]
    {
      if !PasswordAccepted(newPassword) {
        return Response(400, Message(PasswordRuleController));
      }
      var digest := hash(newPassword);
      var before := users;
      users := seq(|before|, i requires 0 <= i < |before| =>
                 if before[i].id == caller.id then before[i].(password := digest) else before[i]);
      resp := Response(200, Message(PasswordUpdatedController));
    }

    /** The rate handler: upsert the (caller, store) row, read the store's rows,
        sum them, round the mean to tenths and write it to the store. Neither
        the value's range nor the store's existence is checked. */
    method Rate(caller: Claims, storeId: Id, value: int, now: nat, variant: RateVariant)
      returns (resp: Response)
      requires Valid()
      modifies this
      ensures Valid() && users == old(users)
      ensures ledger == Upsert(old(ledger), caller.id, storeId, value, now)
      ensures |stores| == |old(stores)|
      ensures forall i :: 0 <= i < |stores| ==>
                stores[i] == if old(stores)[i].id == storeId then old(stores)[i].(rating := Aggregate(ledger, storeId))
                             else old(stores)[i]
      ensures resp == RateReply(variant, Aggregate(ledger, storeId))
      ensures resp.body.Rated? ==>
                forall i :: 0 <= i < |stores| && stores[i].id == storeId ==> stores[i].rating == resp.body.averageRating
    {
      var i := FindPair(ledger, caller.id, storeId);
      var updated;
      if i < |ledger| {
        updated := ledger[i := ledger[i].(value := value, updatedAt := now)];
      } else {
        updated := ledger + [RatingRow(caller.id, storeId, value, now, now)];
      }
      assert updated == Upsert(ledger, caller.id, storeId, value, now);
      RatedStoreHasRows(ledger, caller.id, storeId, value, now);
      var rows := RowsOf(updated, storeId);
      var total := Reduce(rows);
      var average := RoundTenths(total, |rows|);
      MeanIsAggregate(updated, storeId, total);
      var before := stores;
      var after := seq(|before|, k requires 0 <= k < |before| =>
                     if before[k].id == storeId then before[k].(rating := average) else before[k]);
      UpsertKeepsPairsUnique(ledger, caller.id, storeId, value, now);
      RateKeepsStoresValid(before, ledger, caller.id, storeId, value, now, after);
      ledger, stores := updated, after;
      resp := RateReply(variant, average);
    }

    /** `POST .../rate` behind `protect(["User"])`: a refused request changes
        nothing and gets the guard's reply; an admitted one is rated for the
        caller named by the token. */
    method RateEndpoint(header: Option<string>, verify: string -> Option<Claims>,
                        storeId: Id, value: int, now: nat, variant: RateVariant)
      returns (resp: Response)
      requires Valid()
      modifies this
      ensures Valid()
      ensures var d := Decide(header, verify, ["User"], RateGuardMessages(variant));
              && (d.Halt? ==> resp == Response(d.status, Message(d.message))
                              && users == old(users) && stores == old(stores) && ledger == old(ledger))
              && (d.Proceed? ==> ledger == Upsert(old(ledger), d.user.id, storeId, value, now)
                                 && users == old(users)
                                 && |stores| == |old(stores)|
                                 && (forall i :: 0 <= i < |stores| ==>
                                       stores[i] == if old(stores)[i].id == storeId
                                                    then old(stores)[i].(rating := Aggregate(ledger, storeId))
                                                    else old(stores)[i])
                                 && resp == RateReply(variant, Aggregate(ledger, storeId)))
    {
      var d := Decide(header, verify, ["User"], RateGuardMessages(variant));
      if d.Halt? {
        return Response(d.status, Message(d.message));
      }
      resp := Rate(d.user, storeId, value, now, variant);
    }
  }
}
