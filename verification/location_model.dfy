/** The lunch-location (restaurant candidate) document and its schema. */
module LocationModel {
  import opened Wrappers
  import opened JsStrings
  import opened Schema

  /** One entry of a location's vote history: who voted, and when (ms since the epoch). */
  datatype Vote = Vote(userId: Id, voteDate: int)

  /** A stored location. */
  datatype Location = Location(
    id: Id,
    name: string,
    description: Option<string>,
    logoUrl: Option<string>,
    emoji: string,
    votes: int,
    voters: seq<Id>,
    votesHistory: seq<Vote>,
    isActive: bool,
    createdBy: Id,
    createdAt: int)

  /** The fields handed to `create`; `None` is a field left undefined. */
  datatype LocationDraft = LocationDraft(
    name: Option<string>,
    description: Option<string>,
    logoUrl: Option<string>,
    emoji: Option<string>,
    createdBy: Option<Id>)

  /** The plate-with-cutlery emoji, U+1F37D followed by the emoji presentation selector. */
  const DefaultEmoji: string := "\U{1F37D}\U{FE0F}"

  /** The validators of the schema, in path order, over the values after the setters ran. */
  function LocationErrors(name: Option<string>, createdBy: Option<Id>): seq<FieldError> {
    RequireString("name", name, "Please provide a location name")
    + RequireString("createdBy", createdBy, RequiredMessage("createdBy"))
  }

  /**
   * `LunchLocation.create`: trims `name` and `description`, applies the defaults
   * (no logo, the plate emoji, no votes, no voters, active) and validates.
   */
  function NewLocation(d: LocationDraft, id: Id, now: int): (r: Result<Location>)
    ensures r.Ok? <==> d.name.Some? && Trim(d.name.value) != "" && Filled(d.createdBy)
    ensures r.Ok? ==> var l := r.value;
      && l.id == id && l.createdAt == now
      && l.name == Trim(d.name.value) && l.description == TrimOpt(d.description)
      && l.logoUrl == d.logoUrl && l.emoji == d.emoji.GetOr(DefaultEmoji)
      && l.votes == 0 && l.voters == [] && l.votesHistory == []
      && l.isActive && l.createdBy == d.createdBy.value
    ensures r.Err? ==> StartsWith(r.error, FailureHead("LunchLocation"))
  {
    var name := TrimOpt(d.name);
    var errs := LocationErrors(name, d.createdBy);
    assert errs == [] <==> Filled(name) && Filled(d.createdBy);
    var loc := Location(id, name.GetOr(""), TrimOpt(d.description), d.logoUrl, d.emoji.GetOr(DefaultEmoji),
                        0, [], [], true, d.createdBy.GetOr(""), now);
    Validated("LunchLocation", errs, loc)
  }
}
