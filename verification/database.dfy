/**
 * The document store the handlers talk to: one collection per model, each in natural
 * (insertion) order, with the unique indexes of the schemas enforced on insert and save.
 */
module Database {
  import opened Wrappers
  import opened JsStrings
  import opened Schema
  import opened UserModel
  import opened LocationModel
  import opened OrderModel
  import Seqs

  datatype Store = Store(users: seq<User>, locations: seq<Location>, orders: seq<Order>)

  /**
   * The unique index two users would collide on, if any: `_id`, `email`, then the
   * sparse `username` and `googleId` indexes, which ignore documents lacking the path.
   */
  function UserIndexClash(a: User, b: User): (r: Option<string>)
    ensures r.None? <==> !Clash(a, b)
  {
    if a.id == b.id then Some("_id_")
    else if a.email == b.email then Some("email_1")
    else if a.username.Some? && a.username == b.username then Some("username_1")
    else if a.googleId.Some? && a.googleId == b.googleId then Some("googleId_1")
    else None
  }

  /** Two users that no unique index of the collection admits side by side. */
  predicate Clash(a: User, b: User) {
    || a.id == b.id || a.email == b.email
    || (a.username.Some? && a.username == b.username)
    || (a.googleId.Some? && a.googleId == b.googleId)
  }

  /** Every unique index of the users collection holds. */
  predicate UniqueUsers(users: seq<User>) {
    forall i, j :: 0 <= i < j < |users| ==> !Clash(users[i], users[j])
  }

  /** The error of a write that breaks a unique index. */
  function DuplicateKey(collection: string, index: string): (r: string)
    ensures StartsWith(r, DuplicateKeyPrefix)
  {
    var r := DuplicateKeyPrefix + collection + " index: " + index;
    assert r[..|DuplicateKeyPrefix|] == DuplicateKeyPrefix;
    r
  }

  const DuplicateKeyPrefix := "E11000 duplicate key error collection: "

  /** The first user from index `k` on, other than the one at `skip`, that `u` would collide with. */
  function FirstClash(users: seq<User>, u: User, skip: int, k: nat): (r: Option<nat>)
    requires k <= |users|
    ensures r.Some? ==> k <= r.value < |users| && r.value != skip && Clash(users[r.value], u)
    ensures r.None? ==> forall j :: k <= j < |users| && j != skip ==> !Clash(users[j], u)
    decreases |users| - k
  {
    if k == |users| then None
    else if k != skip && Clash(users[k], u) then Some(k)
    else FirstClash(users, u, skip, k + 1)
  }

  /** `User.create` reaching the store: appended, unless a unique index rejects it. */
  function InsertUser(st: Store, u: User): (r: Result<Store>)
    ensures r.Ok? <==> forall k :: 0 <= k < |st.users| ==> !Clash(st.users[k], u)
    ensures r.Ok? ==> r.value == st.(users := st.users + [u])
    ensures r.Ok? && UniqueUsers(st.users) ==> UniqueUsers(r.value.users)
    ensures r.Err? ==> StartsWith(r.error, DuplicateKeyPrefix)
  {
    match FirstClash(st.users, u, -1, 0)
    case Some(k) => Err(DuplicateKey("users", UserIndexClash(st.users[k], u).value))
    case None =>
      var us := st.users + [u];
      assert forall i, j :: 0 <= i < j < |us| && j == |st.users| ==> !Clash(us[i], us[j]);
      Ok(st.(users := us))
  }

  /** `save` of the user at index `i` reaching the store: replaced, unless a unique index rejects it. */
  function ReplaceUser(st: Store, i: nat, u: User): (r: Result<Store>)
    requires i < |st.users|
    ensures r.Ok? <==> forall k :: 0 <= k < |st.users| && k != i ==> !Clash(st.users[k], u)
    ensures r.Ok? ==> r.value == st.(users := st.users[i := u])
    ensures r.Ok? && UniqueUsers(st.users) ==> UniqueUsers(r.value.users)
    ensures r.Err? ==> StartsWith(r.error, DuplicateKeyPrefix)
  {
    match FirstClash(st.users, u, i, 0)
    case Some(k) => Err(DuplicateKey("users", UserIndexClash(st.users[k], u).value))
    case None =>
      var us := st.users[i := u];
      assert forall a, b :: 0 <= a < b < |us| && (a == i || b == i) ==> !Clash(us[a], us[b]);
      Ok(st.(users := us))
  }

  /** `LunchLocation.create` reaching the store: appended, unless its `_id` is taken. */
  function InsertLocation(st: Store, l: Location): (r: Result<Store>)
    ensures r.Ok? <==> forall k :: 0 <= k < |st.locations| ==> st.locations[k].id != l.id
    ensures r.Ok? ==> r.value == st.(locations := st.locations + [l])
    ensures r.Err? ==> StartsWith(r.error, DuplicateKeyPrefix)
  {
    if exists k :: 0 <= k < |st.locations| && st.locations[k].id == l.id then
      Err(DuplicateKey("lunchlocations", "_id_"))
    else Ok(st.(locations := st.locations + [l]))
  }

  /** `LunchOrder.create` reaching the store: appended, unless its `_id` is taken. */
  function InsertOrder(st: Store, o: Order): (r: Result<Store>)
    ensures r.Ok? <==> forall k :: 0 <= k < |st.orders| ==> st.orders[k].id != o.id
    ensures r.Ok? ==> r.value == st.(orders := st.orders + [o])
    ensures r.Err? ==> StartsWith(r.error, DuplicateKeyPrefix)
  {
    if exists k :: 0 <= k < |st.orders| && st.orders[k].id == o.id then
      Err(DuplicateKey("lunchorders", "_id_"))
    else Ok(st.(orders := st.orders + [o]))
  }

  /** Two versions of a user that agree on every uniquely indexed path. */
  predicate SameKeys(a: User, b: User) {
    a.id == b.id && a.email == b.email && a.username == b.username && a.googleId == b.googleId
  }

  /** Replacing a user by a version with the same keys cannot break a unique index. */
  lemma ReplaceSameKeys(st: Store, i: nat, u: User)
    requires i < |st.users|
    ensures UniqueUsers(st.users) && SameKeys(st.users[i], u) ==> ReplaceUser(st, i, u) == Ok(st.(users := st.users[i := u]))
  {
    forall k | 0 <= k < |st.users| && k != i && UniqueUsers(st.users) && SameKeys(st.users[i], u)
      ensures !Clash(st.users[k], u) {
      if k < i {
        assert !Clash(st.users[k], st.users[i]);
      } else {
        assert !Clash(st.users[i], st.users[k]);
      }
    }
  }

  /** `save` of a loaded user: the document is validated and hashed, then written back over index `i`. */
  function SaveUser(st: Store, i: nat, u: User, passwordModified: bool): (r: Result<Store>)
    requires i < |st.users|
    ensures r.Ok? ==> Save(u, passwordModified).Ok? && r.value == st.(users := st.users[i := Save(u, passwordModified).value])
    ensures r.Ok? && UniqueUsers(st.users) ==> UniqueUsers(r.value.users)
    ensures UniqueUsers(st.users) && SameKeys(st.users[i], u) && ValidUser(u) && (passwordModified ==> u.password.Some?)
            ==> r.Ok?
    ensures (forall k :: 0 <= k < |st.users| && k != i ==> !Clash(st.users[k], u))
            && ValidUser(u) && (passwordModified ==> u.password.Some?)
            ==> r.Ok?
  {
    match Save(u, passwordModified)
    case Err(e) => Err(e)
    case Ok(saved) =>
      ReplaceSameKeys(st, i, saved);
      ReplaceUser(st, i, saved)
  }

  /** `findOne` on the users collection: the first user satisfying the filter. */
  function FindUser(st: Store, filter: User -> bool): (r: Option<nat>)
    ensures r.Some? ==> r.value < |st.users| && filter(st.users[r.value])
    ensures r.Some? ==> forall k :: 0 <= k < r.value ==> !filter(st.users[k])
    ensures r.None? ==> forall k :: 0 <= k < |st.users| ==> !filter(st.users[k])
  {
    Seqs.FirstIndex(st.users, filter)
  }
}
