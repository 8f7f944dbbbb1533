/**
 * `/api/lunch-locations`: the listing of active locations ranked by today's votes,
 * and the creation of a location by a signed-in user.
 */
module LocationsRoute {
  import opened Wrappers
  import opened JsStrings
  import opened Schema
  import opened LocationModel
  import opened UserModel
  import opened Database
  import opened Http
  import opened Auth
  import opened DateUtils
  import opened Handler
  import Seqs

  /** The history entries dated within the window, both ends included. */
  function TodayVotes(l: Location, range: DayRange): (r: seq<Vote>)
    ensures forall v :: multiset(r)[v] == if InRange(range, v.voteDate) then multiset(l.votesHistory)[v] else 0
    ensures forall k :: 0 <= k < |r| ==> InRange(range, r[k].voteDate)
  {
    Seqs.Filter(l.votesHistory, (v: Vote) => InRange(range, v.voteDate))
  }

  /** The user ids of a list of votes, in order. */
  function VoterIds(votes: seq<Vote>): (r: seq<Id>)
    ensures |r| == |votes|
    ensures forall k :: 0 <= k < |votes| ==> r[k] == votes[k].userId
  {
    seq(|votes|, k requires 0 <= k < |votes| => votes[k].userId)
  }

  /** A user with `username` and `email` selected. */
  function RefOf(u: User): UserRef {
    UserRef(u.id, u.username, u.email)
  }

  /** The filter `{ _id: { $in: ids } }`. */
  function IdIn(ids: seq<Id>): User -> bool {
    (u: User) => u.id in ids
  }

  /**
   * `User.find({ _id: { $in: ids } })`: each stored user whose id is listed, once, in store
   * order, with its stored username and email.
   */
  function UsersAmong(users: seq<User>, ids: seq<Id>): (r: seq<UserRef>)
    ensures r == Seqs.Map(Seqs.Filter(users, IdIn(ids)), RefOf)
    ensures |r| <= |users|
    ensures forall k :: 0 <= k < |r| ==> exists u :: (u in users && u.id in ids && r[k] == RefOf(u))
    ensures forall u :: u in users && u.id in ids ==> RefOf(u) in r
  {
    if |users| == 0 then []
    else
      var rest := UsersAmong(users[1..], ids);
      var r := if users[0].id in ids then [RefOf(users[0])] + rest else rest;
      assert users == [users[0]] + users[1..];
      assert forall u :: u in users && u != users[0] ==> u in users[1..];
      assert r == Seqs.Map(Seqs.Filter(users, IdIn(ids)), RefOf) by {
        Seqs.MapFilterCons(users, IdIn(ids), RefOf);
      }
      ListedUsersStored(users, ids, r);
      r
  }

  /** Every ref of the reference definition is a listed stored user's. */
  lemma ListedUsersStored(users: seq<User>, ids: seq<Id>, r: seq<UserRef>)
    requires r == Seqs.Map(Seqs.Filter(users, IdIn(ids)), RefOf)
    ensures forall k :: 0 <= k < |r| ==> exists u :: (u in users && u.id in ids && r[k] == RefOf(u))
  {
    var chosen := Seqs.Filter(users, IdIn(ids));
    forall k | 0 <= k < |r| ensures exists u :: (u in users && u.id in ids && r[k] == RefOf(u)) {
      assert chosen[k] in multiset(chosen);
      assert IdIn(ids)(chosen[k]);
      assert r[k] == RefOf(chosen[k]);
    }
  }

  /**
   * A location as listed: today's vote count, and as voters each stored user who voted
   * today, once, in store order, with the stored username and email.
   */
  function View(st: Store, l: Location, range: DayRange): (v: LocationView)
    ensures v.location == l
    ensures v.votes == |TodayVotes(l, range)|
    ensures v.voters == Seqs.Map(Seqs.Filter(st.users, IdIn(VoterIds(TodayVotes(l, range)))), RefOf)
    ensures forall k :: 0 <= k < |v.voters| ==>
      exists u :: (u in st.users && u.id in VoterIds(TodayVotes(l, range)) && v.voters[k] == RefOf(u))
    ensures forall u :: u in st.users && u.id in VoterIds(TodayVotes(l, range)) ==> RefOf(u) in v.voters
  {
    var today := TodayVotes(l, range);
    LocationView(l, |today|, UsersAmong(st.users, VoterIds(today)))
  }

  /** Every location of `ls` as listed, in order. */
  function Views(st: Store, ls: seq<Location>, range: DayRange): (r: seq<LocationView>)
    ensures |r| == |ls|
    ensures forall k :: 0 <= k < |ls| ==> r[k] == View(st, ls[k], range)
  {
    Seqs.Map(ls, (l: Location) => View(st, l, range))
  }

  /**
   * GET: the active locations in the store's order (stored votes, then creation time, both
   * descending), each with today's votes, re-ranked by today's votes, then creation time.
   */
  function ListLocations(st: Store, now: int, wall: int -> int, offset: int): (r: Response)
    ensures r.status == 200 && Succeeded(r) && r.body.data.Some? && r.body.data.value.LocationList?
    ensures var views := r.body.data.value.views;
      var range := GetTrinidadDateRange(now, wall, offset);
      && (forall k :: 0 <= k < |views| ==> views[k].location.isActive && views[k] == View(st, views[k].location, range))
      && (forall l :: l in st.locations && l.isActive ==> View(st, l, range) in views)
      && multiset(views) == multiset(Views(st, Seqs.Filter(st.locations, (l: Location) => l.isActive), range))
      && Seqs.SortedDesc(views, (v: LocationView) => v.votes, (v: LocationView) => v.location.createdAt)
  {
    var range := GetTrinidadDateRange(now, wall, offset);
    var active := Seqs.Filter(st.locations, (l: Location) => l.isActive);
    var stored := Seqs.SortDesc(active, (l: Location) => l.votes, (l: Location) => l.createdAt);
    var views := Views(st, stored, range);
    var ranked := Seqs.SortDesc(views, (v: LocationView) => v.votes, (v: LocationView) => v.location.createdAt);
    ListedAreActive(st, range, active, stored, views, ranked);
    Success(200, None, Some(LocationList(ranked)))
  }

  /** The views of the active locations: each is an active location's view, and every active location has one. */
  lemma ActiveViews(st: Store, range: DayRange, active: seq<Location>)
    requires active == Seqs.Filter(st.locations, (l: Location) => l.isActive)
    ensures var va := Views(st, active, range);
      && (forall k :: 0 <= k < |va| ==> va[k].location.isActive && va[k] == View(st, va[k].location, range))
      && (forall l :: l in st.locations && l.isActive ==> View(st, l, range) in va)
  {
    var va := Views(st, active, range);
    forall l | l in st.locations && l.isActive ensures View(st, l, range) in va {
      assert multiset(active)[l] == multiset(st.locations)[l] > 0;
      var i :| 0 <= i < |active| && active[i] == l;
      assert va[i] == View(st, l, range);
    }
  }

  /** The listing is the active locations' views, each once, in some order. */
  lemma ListedAreActive(st: Store, range: DayRange, active: seq<Location>, stored: seq<Location>,
                        views: seq<LocationView>, ranked: seq<LocationView>)
    requires active == Seqs.Filter(st.locations, (l: Location) => l.isActive)
    requires multiset(stored) == multiset(active)
    requires views == Views(st, stored, range)
    requires multiset(ranked) == multiset(views)
    ensures forall k :: 0 <= k < |ranked| ==> ranked[k].location.isActive && ranked[k] == View(st, ranked[k].location, range)
    ensures forall l :: l in st.locations && l.isActive ==> View(st, l, range) in ranked
    ensures multiset(ranked) == multiset(Views(st, active, range))
  {
    Seqs.MapPermute(stored, active, (l: Location) => View(st, l, range));
    var va := Views(st, active, range);
    assert multiset(ranked) == multiset(va);
    ActiveViews(st, range, active);
    forall k | 0 <= k < |ranked|
      ensures ranked[k].location.isActive && ranked[k] == View(st, ranked[k].location, range)
    {
      assert ranked[k] in multiset(va);
    }
    forall l | l in st.locations && l.isActive ensures View(st, l, range) in ranked {
      assert View(st, l, range) in multiset(ranked);
    }
  }

  /** The body of a POST: every member may be missing. */
  datatype LocationRequest = LocationRequest(
    name: Option<string>, description: Option<string>, logoUrl: Option<string>, emoji: Option<string>)

  /** The fields handed to `create`: an empty logo becomes `null`, an empty emoji the plate. */
  function DraftOf(req: LocationRequest, userId: Id): (d: LocationDraft)
    ensures d.name == req.name && d.description == req.description && d.createdBy == Some(userId)
    ensures d.logoUrl == (if Filled(req.logoUrl) then req.logoUrl else None)
    ensures d.emoji == Some(if Filled(req.emoji) then req.emoji.value else DefaultEmoji)
  {
    LocationDraft(req.name, req.description, if Filled(req.logoUrl) then req.logoUrl else None,
                  Some(if Filled(req.emoji) then req.emoji.value else DefaultEmoji), Some(userId))
  }

  /**
   * POST: authentication, a non-empty name, then creation; a failed validation or write is
   * 400 with its message, success is 201 with the new location.
   */
  function CreateLocation(st: Store, header: Option<string>, verify: string -> Option<Claims>,
                          req: LocationRequest, id: Id, now: int): (r: Reply)
    ensures r.mail.None?
    ensures AuthenticateRequest(header, verify).Rejected? ==> r == Answer(st, AuthenticateRequest(header, verify).response)
    ensures AuthenticateRequest(header, verify).Authenticated? && !Filled(req.name) ==>
      r == Answer(st, Fail(400, "Restaurant name is required"))
    ensures r.store != st ==> r.response.status == 201
    ensures r.response.status == 201 <==>
      && AuthenticateRequest(header, verify).Authenticated?
      && Filled(req.name) && Trim(req.name.value) != ""
      && AuthenticateRequest(header, verify).user.userId != ""
      && forall k :: 0 <= k < |st.locations| ==> st.locations[k].id != id
    ensures r.response.status == 201 ==> var l := NewLocation(DraftOf(req, AuthenticateRequest(header, verify).user.userId), id, now).value;
      && r.store == st.(locations := st.locations + [l])
      && r.response == Success(201, Some("Restaurant added successfully"), Some(CreatedLocation(l)))
      && l.createdBy == AuthenticateRequest(header, verify).user.userId
      && l.logoUrl == (if Filled(req.logoUrl) then req.logoUrl else None)
      && l.emoji == (if Filled(req.emoji) then req.emoji.value else DefaultEmoji)
      && l.votes == 0 && l.voters == [] && l.isActive
  {
    match AuthenticateRequest(header, verify)
    case Rejected(resp) => Answer(st, resp)
    case Authenticated(user) =>
      if !Filled(req.name) then Answer(st, Fail(400, "Restaurant name is required"))
      else
        match NewLocation(DraftOf(req, user.userId), id, now)
        case Err(e) => Answer(st, Fail(400, e))
        case Ok(l) =>
          match InsertLocation(st, l)
          case Err(e) => Answer(st, Fail(400, e))
          case Ok(st2) => Answer(st2, Success(201, Some("Restaurant added successfully"), Some(CreatedLocation(l))))
  }
}
