/** The three persistent entities of the store-rating server (users, stores and
    ratings), their schema constraints, and how a new document is built from a
    request body and validated when it is saved. */
module Models {

  /** An ObjectId. Identifiers are opaque; only equality matters. */
  type Id = nat

  datatype Option<T> = None | Some(value: T)

  /** The closed role set of the user schema's `enum`. */
  datatype Role = Admin | User | StoreOwner

  function RoleName(r: Role): string
  {
    match r
    case Admin => "Admin"
    case User => "User"
    case StoreOwner => "StoreOwner"
  }

  /** Reads a role string, accepting exactly the three enum values. */
  function ParseRole(s: string): (r: Option<Role>)
    ensures r.Some? ==> RoleName(r.value) == s
    ensures r.None? ==> s != "Admin" && s != "User" && s != "StoreOwner"
  {
    if s == "Admin" then Some(Admin)
    else if s == "User" then Some(User)
    else if s == "StoreOwner" then Some(StoreOwner)
    else None
  }

  /** Role names and parsing are inverse to each other. */
  lemma ParseRoleName(r: Role)
    ensures ParseRole(RoleName(r)) == Some(r)
  {
  }

  /** The role a new user gets: the schema default when the body has none,
      otherwise the body's value if it is one of the enum values. */
  function RoleField(role: Option<string>): (r: Option<Role>)
    ensures role.None? ==> r == Some(User)
    ensures role.Some? ==> (r.Some? <==> role.value in {"Admin", "User", "StoreOwner"})
    ensures r.Some? && role.Some? ==> RoleName(r.value) == role.value
  {
    match role
    case None => Some(User)
    case Some(s) => ParseRole(s)
  }

  /** What `bcrypt.hash(password, 12)` yields: a 60-character digest. */
  type Digest = s: string | |s| == 60
    witness "$2a$12$abcdefghijklmnopqrstuvwxyzABCDEFGHIJKLMNOPQRSTUVWXYZ0"

  /** A user document. `password` holds the bcrypt digest, never the plain text. */
  datatype UserRecord = UserRecord(
    id: Id, name: string, email: string, password: string, address: string, role: Role)

  /** A store document. `rating` is the stored average in tenths (4.3 is 43).
      `owner` exists only in the schema of server.js. */
  datatype StoreRecord = StoreRecord(
    id: Id, name: string, email: string, address: string, rating: int, owner: Option<Id>)

  /** A rating document; `createdAt` and `updatedAt` are the schema's timestamps. */
  datatype RatingRow = RatingRow(
    user: Id, store: Id, value: int, createdAt: nat, updatedAt: nat)

  /** `minlength: 20, maxlength: 60` on names. */
  predicate NameLengthOk(name: string)
  {
    20 <= |name| <= 60
  }

  /** `required: true, maxlength: 400` on addresses; a required string may not be empty. */
  predicate AddressLengthOk(address: string)
  {
    address != "" && |address| <= 400
  }

  /** Every constraint of the user schema that a saved document satisfies. */
  predicate UserSchemaOk(u: UserRecord)
  {
    NameLengthOk(u.name) && u.email != "" && u.password != "" && AddressLengthOk(u.address)
  }

  /** Every constraint of the store schema that a saved document satisfies. */
  predicate StoreSchemaOk(s: StoreRecord)
  {
    NameLengthOk(s.name) && s.email != "" && AddressLengthOk(s.address)
  }

  /** The rating schema's `min: 1, max: 5`. */
  predicate RatingSchemaOk(r: RatingRow)
  {
    1 <= r.value <= 5
  }

  /** The default rating of a new store. */
  const DefaultStoreRating: int := 0

  /** `new User({...}).save()` up to the unique index: the document that schema
      validation lets through, or None when a constraint fails. */
  function NewUser(id: Id, name: Option<string>, email: string, password: string,
                   address: Option<string>, role: Option<string>): (r: Option<UserRecord>)
    ensures r.Some? <==>
              name.Some? && NameLengthOk(name.value) && email != "" && password != ""
              && address.Some? && AddressLengthOk(address.value) && RoleField(role).Some?
    ensures r.Some? ==> UserSchemaOk(r.value)
    ensures r.Some? ==> r.value.id == id && r.value.name == name.value && r.value.email == email
                        && r.value.password == password && r.value.address == address.value
                        && r.value.role == RoleField(role).value
  {
    if name.Some? && address.Some? && RoleField(role).Some? then
      var u := UserRecord(id, name.value, email, password, address.value, RoleField(role).value);
      if UserSchemaOk(u) then Some(u) else None
    else None
  }

  /** `new Store({name, email, address}).save()` up to the unique index. */
  function NewStore(id: Id, name: string, email: string, address: string): (r: Option<StoreRecord>)
    ensures r.Some? <==> NameLengthOk(name) && email != "" && AddressLengthOk(address)
    ensures r.Some? ==> StoreSchemaOk(r.value) && r.value.rating == DefaultStoreRating
                        && r.value.owner.None? && r.value.id == id && r.value.email == email
                        && r.value.name == name && r.value.address == address
  {
    var s := StoreRecord(id, name, email, address, DefaultStoreRating, None);
    if StoreSchemaOk(s) then Some(s) else None
  }

  /** The position of the first document whose `key` is k, or the length
      when there is none. */
  function FirstIndexWithKey<T, K(==)>(docs: seq<T>, key: T -> K, k: K): (n: nat)
    ensures n <= |docs|
    ensures forall j :: 0 <= j < n ==> key(docs[j]) != k
    ensures n < |docs| ==> key(docs[n]) == k
  {
    if docs == [] || key(docs[0]) == k then 0 else 1 + FirstIndexWithKey(docs[1..], key, k)
  }

  /** `Model.findOne({field: k})` over documents in natural order: the first
      document whose `key` is k. */
  function FirstWithKey<T, K(==)>(docs: seq<T>, key: T -> K, k: K): (r: Option<T>)
    ensures r.Some? ==> r.value in docs && key(r.value) == k
    ensures r.None? <==> forall i :: 0 <= i < |docs| ==> key(docs[i]) != k
    ensures r.Some? ==> exists n :: 0 <= n < |docs| && docs[n] == r.value
                                   && forall j :: 0 <= j < n ==> key(docs[j]) != k
  {
    var n := FirstIndexWithKey(docs, key, k);
    if n < |docs| then Some(docs[n]) else None
  }

  /** `findOne` answers with a leading document that has the key ... */
  lemma FirstWithKeyHead<T, K>(d: T, docs: seq<T>, key: T -> K)
    ensures FirstWithKey([d] + docs, key, key(d)) == Some(d)
  {
  }

  /** ... and looks past one that does not. */
  lemma FirstWithKeySkip<T, K>(d: T, docs: seq<T>, key: T -> K, k: K)
    requires key(d) != k
    ensures FirstWithKey([d] + docs, key, k) == FirstWithKey(docs, key, k)
  {
    assert ([d] + docs)[1..] == docs;
  }

  /** A document appended behind documents whose key differs from its own is
      what `findOne` on that key then finds. */
  lemma {:induction false} FirstWithKeyAfterAppend<T, K>(docs: seq<T>, d: T, key: T -> K)
    requires forall i :: 0 <= i < |docs| ==> key(docs[i]) != key(d)
    ensures FirstWithKey(docs + [d], key, key(d)) == Some(d)
  {
    if docs == [] {
      assert docs + [d] == [d];
    } else {
      assert (docs + [d])[0] == docs[0];
      assert (docs + [d])[1..] == docs[1..] + [d];
      FirstWithKeyAfterAppend(docs[1..], d, key);
    }
  }

  /** The keys the handlers look documents up by. */
  function EmailOf(u: UserRecord): string { u.email }
  function IdOf(u: UserRecord): Id { u.id }
  function StoreEmailOf(s: StoreRecord): string { s.email }

  /** `User.findOne({email})`. */
  function UserWithEmail(users: seq<UserRecord>, email: string): (r: Option<UserRecord>)
    ensures r.Some? ==> r.value in users && r.value.email == email
    ensures r.None? <==> forall i :: 0 <= i < |users| ==> users[i].email != email
  {
    FirstWithKey(users, EmailOf, email)
  }

  /** `User.findById(id)`. */
  function UserWithId(users: seq<UserRecord>, id: Id): (r: Option<UserRecord>)
    ensures r.Some? ==> r.value in users && r.value.id == id
    ensures r.None? <==> forall i :: 0 <= i < |users| ==> users[i].id != id
  {
    FirstWithKey(users, IdOf, id)
  }

  /** `Store.findOne({email})`. */
  function StoreWithEmail(stores: seq<StoreRecord>, email: string): (r: Option<StoreRecord>)
    ensures r.Some? ==> r.value in stores && r.value.email == email
    ensures r.None? <==> forall i :: 0 <= i < |stores| ==> stores[i].email != email
  {
    FirstWithKey(stores, StoreEmailOf, email)
  }

  /** A user appended behind users that do not share its email is what
      `findOne({email})` then finds. */
  lemma FoundAfterAppend(users: seq<UserRecord>, u: UserRecord)
    requires forall i :: 0 <= i < |users| ==> users[i].email != u.email
    ensures UserWithEmail(users + [u], u.email) == Some(u)
  {
    assert forall i :: 0 <= i < |users| ==> EmailOf(users[i]) != EmailOf(u);
    FirstWithKeyAfterAppend(users, u, EmailOf);
  }
}
