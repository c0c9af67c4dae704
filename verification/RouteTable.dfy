/** The declared routes: one verb and one path pattern per operation, matched segment by segment. */
module RouteTable {
  import opened Text

  datatype Operation =
    | Login | Logout
    | GetEvents | CreateEvent | GetEvent | PatchEvent | DislikeEvent | LikeEvent
    | GetEventReviews | CreateEventReview | UpdateEventReview
    | Health | GetRecommendations | Session
    | GetUsers | Register | GetUser | GetUserEvents

  datatype Segment = Literal(text: string) | Parameter(index: nat)

  /** A row of the table; `params` is how many segments are parameters. */
  datatype Route = Route(verb: string, pattern: seq<Segment>, params: nat)

  function RouteOf(op: Operation): Route {
    match op
    case Login => Route("POST", [Literal("auth"), Literal("login")], 0)
    case Logout => Route("POST", [Literal("auth"), Literal("logout")], 0)
    case GetEvents => Route("GET", [Literal("events")], 0)
    case CreateEvent => Route("POST", [Literal("events")], 0)
    case GetEvent => Route("GET", [Literal("events"), Parameter(0)], 1)
    case PatchEvent => Route("PATCH", [Literal("events"), Parameter(0)], 1)
    case DislikeEvent => Route("POST", [Literal("events"), Parameter(0), Literal("dislike")], 1)
    case LikeEvent => Route("POST", [Literal("events"), Parameter(0), Literal("like")], 1)
    case GetEventReviews => Route("GET", [Literal("events"), Parameter(0), Literal("reviews")], 1)
    case CreateEventReview => Route("POST", [Literal("events"), Parameter(0), Literal("reviews")], 1)
    case UpdateEventReview => Route("PATCH", [Literal("events"), Parameter(0), Literal("reviews"), Parameter(1)], 2)
    case Health => Route("GET", [Literal("health")], 0)
    case GetRecommendations => Route("GET", [Literal("recommendations")], 0)
    case Session => Route("POST", [Literal("session")], 0)
    case GetUsers => Route("GET", [Literal("users")], 0)
    case Register => Route("POST", [Literal("users")], 0)
    case GetUser => Route("GET", [Literal("users"), Parameter(0)], 1)
    case GetUserEvents => Route("GET", [Literal("users"), Parameter(0), Literal("events")], 1)
  }

  /** Literals equal their segment; a parameter takes any segment, the empty one included. */
  ghost predicate Fits(r: Route, segs: seq<string>, args: seq<string>) {
    && |segs| == |r.pattern| && |args| == r.params
    && forall i :: 0 <= i < |segs| ==>
         match r.pattern[i]
         case Literal(text) => segs[i] == text
         case Parameter(k) => k < |args| && segs[i] == args[k]
  }

  /** The path without its leading slash, cut at every slash. */
  function Segments(path: string): Option<seq<string>> {
    if |path| > 0 && path[0] == '/' then Some(Split(path[1..], '/')) else None
  }

  /** The table says: this verb and path are this operation with these arguments. */
  ghost predicate Routes(verb: string, path: string, op: Operation, args: seq<string>) {
    Segments(path).Some? && RouteOf(op).verb == verb && Fits(RouteOf(op), Segments(path).value, args)
  }

  // ---- The places of the tree -----------------------------------------------------------

  /** The nodes of the compiled tree that answer requests. */
  datatype Node =
    | LoginNode | LogoutNode | EventsNode | EventNode | DislikeNode | LikeNode | ReviewsNode | ReviewNode
    | HealthNode | RecommendationsNode | SessionNode | UsersNode | UserNode | UserEventsNode

  datatype Place = Place(node: Node, args: seq<string>)

  /** The operation a node dispatches a verb to. */
  function OperationAt(n: Node, verb: string): Option<Operation> {
    match n
    case LoginNode => if verb == "POST" then Some(Login) else None
    case LogoutNode => if verb == "POST" then Some(Logout) else None
    case EventsNode => if verb == "GET" then Some(GetEvents) else if verb == "POST" then Some(CreateEvent) else None
    case EventNode => if verb == "GET" then Some(GetEvent) else if verb == "PATCH" then Some(PatchEvent) else None
    case DislikeNode => if verb == "POST" then Some(DislikeEvent) else None
    case LikeNode => if verb == "POST" then Some(LikeEvent) else None
    case ReviewsNode => if verb == "GET" then Some(GetEventReviews)
      else if verb == "POST" then Some(CreateEventReview) else None
    case ReviewNode => if verb == "PATCH" then Some(UpdateEventReview) else None
    case HealthNode => if verb == "GET" then Some(Health) else None
    case RecommendationsNode => if verb == "GET" then Some(GetRecommendations) else None
    case SessionNode => if verb == "POST" then Some(Session) else None
    case UsersNode => if verb == "GET" then Some(GetUsers) else if verb == "POST" then Some(Register) else None
    case UserNode => if verb == "GET" then Some(GetUser) else None
    case UserEventsNode => if verb == "GET" then Some(GetUserEvents) else None
  }

  function AllowedAt(n: Node): string {
    match n
    case EventsNode => "GET,POST"
    case EventNode => "GET,PATCH"
    case ReviewsNode => "GET,POST"
    case UsersNode => "GET,POST"
    case ReviewNode => "PATCH"
    case LoginNode => "POST"
    case LogoutNode => "POST"
    case DislikeNode => "POST"
    case LikeNode => "POST"
    case SessionNode => "POST"
    case _ => "GET"
  }

  /** What follows "/events/{id}/". */
  function EventTail(a: string, rest: seq<string>): Option<Place> {
    if rest == ["dislike"] then Some(Place(DislikeNode, [a]))
    else if rest == ["like"] then Some(Place(LikeNode, [a]))
    else if rest == ["reviews"] then Some(Place(ReviewsNode, [a]))
    else if |rest| == 2 && rest[0] == "reviews" then Some(Place(ReviewNode, [a, rest[1]]))
    else None
  }

  /** What follows "/events/". */
  function EventPlaces(rest: seq<string>): Option<Place>
    requires |rest| > 0
  {
    if |rest| == 1 then Some(Place(EventNode, rest)) else EventTail(rest[0], rest[1..])
  }

  /** What follows "/users/". */
  function UserPlaces(rest: seq<string>): Option<Place>
    requires |rest| > 0
  {
    if |rest| == 1 then Some(Place(UserNode, rest))
    else if rest[1..] == ["events"] then Some(Place(UserEventsNode, [rest[0]]))
    else None
  }

  function PlaceOf(segs: seq<string>): Option<Place>
    requires |segs| > 0
  {
    var first, rest := segs[0], segs[1..];
    if first == "auth" then
      (if rest == ["login"] then Some(Place(LoginNode, []))
       else if rest == ["logout"] then Some(Place(LogoutNode, [])) else None)
    else if first == "events" then
      (if rest == [] then Some(Place(EventsNode, [])) else EventPlaces(rest))
    else if first == "users" then
      (if rest == [] then Some(Place(UsersNode, [])) else UserPlaces(rest))
    else if rest != [] then None
    else if first == "health" then Some(Place(HealthNode, []))
    else if first == "recommendations" then Some(Place(RecommendationsNode, []))
    else if first == "session" then Some(Place(SessionNode, []))
    else None
  }

  /** Whether an operation's route fits, segment by segment, spelled out. */
  lemma FitsByCases(op: Operation, segs: seq<string>, args: seq<string>)
    ensures Fits(RouteOf(op), segs, args) <==>
      match op
      case Login => segs == ["auth", "login"] && args == []
      case Logout => segs == ["auth", "logout"] && args == []
      case GetEvents => segs == ["events"] && args == []
      case CreateEvent => segs == ["events"] && args == []
      case GetEvent => |segs| == 2 && segs[0] == "events" && args == [segs[1]]
      case PatchEvent => |segs| == 2 && segs[0] == "events" && args == [segs[1]]
      case DislikeEvent => |segs| == 3 && segs[0] == "events" && args == [segs[1]] && segs[2] == "dislike"
      case LikeEvent => |segs| == 3 && segs[0] == "events" && args == [segs[1]] && segs[2] == "like"
      case GetEventReviews => |segs| == 3 && segs[0] == "events" && args == [segs[1]] && segs[2] == "reviews"
      case CreateEventReview => |segs| == 3 && segs[0] == "events" && args == [segs[1]] && segs[2] == "reviews"
      case UpdateEventReview => |segs| == 4 && segs[0] == "events" && args == [segs[1], segs[3]] && segs[2] == "reviews"
      case Health => segs == ["health"] && args == []
      case GetRecommendations => segs == ["recommendations"] && args == []
      case Session => segs == ["session"] && args == []
      case GetUsers => segs == ["users"] && args == []
      case Register => segs == ["users"] && args == []
      case GetUser => |segs| == 2 && segs[0] == "users" && args == [segs[1]]
      case GetUserEvents => |segs| == 3 && segs[0] == "users" && args == [segs[1]] && segs[2] == "events"
  {
    hide Fits;
    var r := RouteOf(op);
    match |r.pattern|
    case 1 => FitsOne(r, r.pattern[0].text, segs, args);
    case 2 =>
      if r.params == 0 { FitsTwo(r, r.pattern[0].text, r.pattern[1].text, segs, args); }
      else { FitsParameter(r, r.pattern[0].text, segs, args); }
    case 3 => FitsThree(r, r.pattern[0].text, r.pattern[2].text, segs, args);
    case _ => FitsFour(r, r.pattern[0].text, r.pattern[2].text, segs, args);
  }

  lemma FitsOne(r: Route, x: string, segs: seq<string>, args: seq<string>)
    requires r.pattern == [Literal(x)] && r.params == 0
    ensures Fits(r, segs, args) <==> segs == [x] && args == []
  {
  }

  lemma FitsTwo(r: Route, x: string, y: string, segs: seq<string>, args: seq<string>)
    requires r.pattern == [Literal(x), Literal(y)] && r.params == 0
    ensures Fits(r, segs, args) <==> segs == [x, y] && args == []
  {
  }

  lemma FitsParameter(r: Route, x: string, segs: seq<string>, args: seq<string>)
    requires r.pattern == [Literal(x), Parameter(0)] && r.params == 1
    ensures Fits(r, segs, args) <==> |segs| == 2 && segs[0] == x && args == [segs[1]]
  {
  }

  lemma FitsThree(r: Route, x: string, y: string, segs: seq<string>, args: seq<string>)
    requires r.pattern == [Literal(x), Parameter(0), Literal(y)] && r.params == 1
    ensures Fits(r, segs, args) <==> |segs| == 3 && segs[0] == x && args == [segs[1]] && segs[2] == y
  {
  }

  lemma FitsFour(r: Route, x: string, y: string, segs: seq<string>, args: seq<string>)
    requires r.pattern == [Literal(x), Parameter(0), Literal(y), Parameter(1)] && r.params == 2
    ensures Fits(r, segs, args) <==> |segs| == 4 && segs[0] == x && args == [segs[1], segs[3]] && segs[2] == y
  {
  }

  lemma AuthTable(segs: seq<string>, verb: string, op: Operation, args: seq<string>)
    requires |segs| > 0 && segs[0] == "auth"
    ensures RouteOf(op).verb == verb && Fits(RouteOf(op), segs, args) <==>
      PlaceOf(segs).Some? && OperationAt(PlaceOf(segs).value.node, verb) == Some(op) && PlaceOf(segs).value.args == args
  {
    hide Fits;
    FitsByCases(op, segs, args);
    Cases(segs);
  }

  lemma EventTable(segs: seq<string>, verb: string, op: Operation, args: seq<string>)
    requires |segs| > 0 && segs[0] == "events" && |segs| <= 3
    ensures RouteOf(op).verb == verb && Fits(RouteOf(op), segs, args) <==>
      PlaceOf(segs).Some? && OperationAt(PlaceOf(segs).value.node, verb) == Some(op) && PlaceOf(segs).value.args == args
  {
    hide Fits;
    FitsByCases(op, segs, args);
    Cases(segs);
  }

  lemma ReviewTable(segs: seq<string>, verb: string, op: Operation, args: seq<string>)
    requires |segs| > 0 && segs[0] == "events" && |segs| > 3
    ensures RouteOf(op).verb == verb && Fits(RouteOf(op), segs, args) <==>
      PlaceOf(segs).Some? && OperationAt(PlaceOf(segs).value.node, verb) == Some(op) && PlaceOf(segs).value.args == args
  {
    hide Fits;
    FitsByCases(op, segs, args);
    Cases(segs);
  }

  lemma UserTable(segs: seq<string>, verb: string, op: Operation, args: seq<string>)
    requires |segs| > 0 && segs[0] == "users"
    ensures RouteOf(op).verb == verb && Fits(RouteOf(op), segs, args) <==>
      PlaceOf(segs).Some? && OperationAt(PlaceOf(segs).value.node, verb) == Some(op) && PlaceOf(segs).value.args == args
  {
    hide Fits;
    FitsByCases(op, segs, args);
    Cases(segs);
  }

  lemma LeafTable(segs: seq<string>, verb: string, op: Operation, args: seq<string>)
    requires |segs| > 0 && segs[0] !in ["auth", "events", "users"]
    ensures RouteOf(op).verb == verb && Fits(RouteOf(op), segs, args) <==>
      PlaceOf(segs).Some? && OperationAt(PlaceOf(segs).value.node, verb) == Some(op) && PlaceOf(segs).value.args == args
  {
    hide Fits;
    FitsByCases(op, segs, args);
    Cases(segs);
  }

  /** A place serves exactly the operations whose routes fit its segments. */
  lemma PlaceIsTable(segs: seq<string>, verb: string, op: Operation, args: seq<string>)
    requires |segs| > 0
    ensures RouteOf(op).verb == verb && Fits(RouteOf(op), segs, args) <==>
      PlaceOf(segs).Some? && OperationAt(PlaceOf(segs).value.node, verb) == Some(op) && PlaceOf(segs).value.args == args
  {
    hide Fits, PlaceOf, OperationAt;
    if segs[0] == "auth" { AuthTable(segs, verb, op, args); }
    else if segs[0] == "events" && |segs| <= 3 { EventTable(segs, verb, op, args); }
    else if segs[0] == "events" { ReviewTable(segs, verb, op, args); }
    else if segs[0] == "users" { UserTable(segs, verb, op, args); }
    else { LeafTable(segs, verb, op, args); }
  }

  lemma Cases(segs: seq<string>)
    requires |segs| > 0
    ensures |segs| == 1 ==> segs == [segs[0]] && segs[1..] == []
    ensures |segs| == 2 ==> segs == [segs[0], segs[1]] && segs[1..] == [segs[1]]
    ensures |segs| == 3 ==> segs[1..][1..] == [segs[2]]
    ensures |segs| == 4 ==> segs[1..][1..] == [segs[2], segs[3]]
  {
  }
}
