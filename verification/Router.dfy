/**
 * The compiled route trees: ServeHTTP dispatches a request and FindPath names its route. Both walk
 * the same radix tree in separate code, cutting `elem` at every edge. The path is the normalised one.
 */
module Router {
  import opened Text
  import opened RouteTable

  datatype Outcome = NotFound | NotAllowed(allowed: string) | Handled(op: Operation, args: seq<string>)

  datatype Found = Found(op: Operation, args: seq<string>)

  /** Server.cutPrefix */
  function CutPrefix(prefix: string, path: string): Option<string> {
    if prefix <= path then Some(path[|prefix|..]) else None
  }

  /** strings.IndexByte(s, '/') */
  function IndexSlash(s: string): (i: int)
    ensures -1 <= i < |s|
    ensures i >= 0 ==> s[i] == '/' && '/' !in s[..i]
    ensures i < 0 ==> '/' !in s
  {
    if |s| == 0 then -1
    else if s[0] == '/' then 0
    else
      var i := IndexSlash(s[1..]);
      if i < 0 then -1 else i + 1
  }

  // ---- What the walks compute -----------------------------------------------------------

  function Serve(p: Option<Place>, verb: string): Outcome {
    if p.None? then NotFound
    else match OperationAt(p.value.node, verb)
      case Some(op) => Handled(op, p.value.args)
      case None => NotAllowed(AllowedAt(p.value.node))
  }

  function Find(p: Option<Place>, verb: string): Option<Found> {
    if p.None? then None
    else match OperationAt(p.value.node, verb)
      case Some(op) => Some(Found(op, p.value.args))
      case None => None
  }

  function Located(prefix: string, path: string): Option<Place> {
    match CutPrefix(prefix, path)
    case None => None
    case Some(elem) => (match Segments(elem) case None => None case Some(segs) => PlaceOf(segs))
  }

  // ---- Cutting a path at a literal edge -------------------------------------------------

  lemma AtSlash(s: string)
    ensures var i := IndexSlash(s);
            Split(s, '/') == if i < 0 then [s] else [s[..i]] + Split(s[i + 1..], '/')
  {
    var i := IndexSlash(s);
    if i < 0 {
      SplitOne(s, '/');
    } else {
      SplitCons(s[..i], s[i + 1..], '/');
      assert s == s[..i] + ['/'] + s[i + 1..];
    }
  }

  /** The first segment is the literal exactly when the literal is cut off whole. */
  lemma AtLiteral(s: string, lit: string)
    requires '/' !in lit
    ensures s == lit ==> Split(s, '/') == [lit]
    ensures lit <= s && |s| > |lit| && s[|lit|] == '/' ==> Split(s, '/') == [lit] + Split(s[|lit| + 1..], '/')
    ensures s != lit && !(lit <= s && |s| > |lit| && s[|lit|] == '/') ==> Split(s, '/')[0] != lit
  {
    hide Split, IndexSlash;
    AtSlash(s);
    if s == lit {
      SplitOne(s, '/');
    } else if lit <= s && |s| > |lit| && s[|lit|] == '/' {
      SplitCons(lit, s[|lit| + 1..], '/');
      assert s == lit + ['/'] + s[|lit| + 1..];
    }
  }

  lemma OneSegment(s: string, lit: string)
    requires '/' !in lit
    ensures Split(s, '/') == [lit] <==> s == lit
  {
    AtSlash(s);
    if s == lit { SplitOne(s, '/'); }
  }

  lemma TwoSegments(s: string, x: string, y: string)
    requires '/' !in x && '/' !in y
    ensures Split(s, '/') == [x, y] <==> s == x + ['/'] + y
  {
    if Split(s, '/') == [x, y] {
      JoinSplit(s, '/');
      assert [x, y][1..] == [y];
    }
    if s == x + ['/'] + y {
      SplitCons(x, y, '/');
      SplitOne(y, '/');
    }
  }

  lemma FirstLetter(s: string)
    requires |s| > 0 && s[0] != '/'
    ensures |Split(s, '/')[0]| > 0 && Split(s, '/')[0][0] == s[0]
  {
  }

  lemma OneIfNoSlash(s: string)
    ensures |Split(s, '/')| == 1 <==> '/' !in s
    ensures '/' !in s ==> Split(s, '/') == [s]
  {
    AtSlash(s);
    var i := IndexSlash(s);
    if i >= 0 {
      assert s[i] == '/';
    }
  }

  // ---- Places in terms of the remaining text --------------------------------------------

  lemma HeadAndRest(segs: seq<string>)
    requires |segs| > 0
    ensures segs == [segs[0]] + segs[1..]
  {
  }

  lemma AuthPlace(segs: seq<string>)
    requires |segs| > 0 && |segs[0]| > 0 && segs[0][0] == 'a'
    ensures PlaceOf(segs) ==
      if segs == ["auth", "login"] then Some(Place(LoginNode, []))
      else if segs == ["auth", "logout"] then Some(Place(LogoutNode, []))
      else None
  {
    HeadAndRest(segs);
  }

  lemma AuthPaths(s: string)
    requires |s| > 0 && s[0] == 'a'
    ensures PlaceOf(Split(s, '/')) ==
      if s == "auth/login" then Some(Place(LoginNode, []))
      else if s == "auth/logout" then Some(Place(LogoutNode, []))
      else None
  {
    hide Split, PlaceOf;
    FirstLetter(s);
    AuthPlace(Split(s, '/'));
    TwoSegments(s, "auth", "login");
    TwoSegments(s, "auth", "logout");
    assert "auth" + ['/'] + "login" == "auth/login";
    assert "auth" + ['/'] + "logout" == "auth/logout";
  }

  lemma LeafPlace(segs: seq<string>)
    requires |segs| > 0 && |segs[0]| > 0 && (segs[0][0] == 'h' || segs[0][0] == 'r' || segs[0][0] == 's')
    ensures PlaceOf(segs) ==
      if segs == ["health"] then Some(Place(HealthNode, []))
      else if segs == ["recommendations"] then Some(Place(RecommendationsNode, []))
      else if segs == ["session"] then Some(Place(SessionNode, []))
      else None
  {
    hide EventPlaces, UserPlaces;
    HeadAndRest(segs);
  }

  lemma LeafPaths(s: string)
    requires |s| > 0 && (s[0] == 'h' || s[0] == 'r' || s[0] == 's')
    ensures PlaceOf(Split(s, '/')) ==
      if s == "health" then Some(Place(HealthNode, []))
      else if s == "recommendations" then Some(Place(RecommendationsNode, []))
      else if s == "session" then Some(Place(SessionNode, []))
      else None
  {
    hide Split, PlaceOf;
    FirstLetter(s);
    OneSegment(s, "health");
    OneSegment(s, "recommendations");
    OneSegment(s, "session");
    LeafPlace(Split(s, '/'));
  }

  lemma EventsPlace(segs: seq<string>)
    requires |segs| > 0 && |segs[0]| > 0 && segs[0][0] == 'e'
    ensures PlaceOf(segs) ==
      if segs[0] != "events" then None
      else if segs[1..] == [] then Some(Place(EventsNode, []))
      else EventPlaces(segs[1..])
  {
    hide EventPlaces;
  }

  lemma EventsPaths(s: string)
    requires |s| > 0 && s[0] == 'e'
    ensures PlaceOf(Split(s, '/')) ==
      if s == "events" then Some(Place(EventsNode, []))
      else if "events/" <= s then EventPlaces(Split(s[7..], '/'))
      else None
  {
    hide Split, EventPlaces, PlaceOf;
    FirstLetter(s);
    EventsPlace(Split(s, '/'));
    AtLiteral(s, "events");
    CutOff(s, "events", "events/");
  }

  lemma UsersPlace(segs: seq<string>)
    requires |segs| > 0 && |segs[0]| > 0 && segs[0][0] == 'u'
    ensures PlaceOf(segs) ==
      if segs[0] != "users" then None
      else if segs[1..] == [] then Some(Place(UsersNode, []))
      else UserPlaces(segs[1..])
  {
    hide UserPlaces, EventPlaces;
  }

  lemma UsersPaths(s: string)
    requires |s| > 0 && s[0] == 'u'
    ensures PlaceOf(Split(s, '/')) ==
      if s == "users" then Some(Place(UsersNode, []))
      else if "users/" <= s then UserPlaces(Split(s[6..], '/'))
      else None
  {
    hide Split, EventPlaces, UserPlaces, PlaceOf;
    FirstLetter(s);
    UsersPlace(Split(s, '/'));
    AtLiteral(s, "users");
    CutOff(s, "users", "users/");
  }

  lemma CutOff(s: string, lit: string, withSlash: string)
    requires withSlash == lit + ['/']
    ensures withSlash <= s <==> lit <= s && |s| > |lit| && s[|lit|] == '/'
  {
  }

  lemma EventParam(s: string)
    ensures var i := IndexSlash(s);
            EventPlaces(Split(s, '/')) ==
            if i < 0 then Some(Place(EventNode, [s])) else EventTail(s[..i], Split(s[i + 1..], '/'))
  {
    hide Split, EventTail;
    AtSlash(s);
  }

  /** The same in terms of the cut the walk makes. */
  lemma EventCut(s: string)
    ensures var i := if IndexSlash(s) < 0 then |s| else IndexSlash(s);
            && (i < |s| ==> s[i..][0] == '/')
            && EventPlaces(Split(s, '/')) ==
               if |s[i..]| == 0 then Some(Place(EventNode, [s[..i]])) else EventTail(s[..i], Split(s[i..][1..], '/'))
  {
    hide Split, EventTail, EventPlaces;
    EventParam(s);
    var i := IndexSlash(s);
    if i < 0 {
      assert s[..|s|] == s;
    } else {
      assert s[i..][1..] == s[i + 1..];
    }
  }

  lemma EventTailPaths(a: string, s: string)
    ensures EventTail(a, Split(s, '/')) ==
      if s == "dislike" then Some(Place(DislikeNode, [a]))
      else if s == "like" then Some(Place(LikeNode, [a]))
      else if s == "reviews" then Some(Place(ReviewsNode, [a]))
      else if "reviews/" <= s && '/' !in s[8..] then Some(Place(ReviewNode, [a, s[8..]]))
      else None
  {
    hide Split;
    OneSegment(s, "dislike");
    OneSegment(s, "like");
    OneSegment(s, "reviews");
    AtLiteral(s, "reviews");
    CutOff(s, "reviews", "reviews/");
    if "reviews/" <= s { OneIfNoSlash(s[8..]); }
  }

  lemma WholeLiteral(t: string, lit: string)
    ensures t == lit <==> lit <= t && |t| == |lit|
  {
  }

  lemma AfterSlash(t: string, lit: string, withSlash: string)
    requires |t| > 0 && t[0] == '/' && withSlash == ['/'] + lit
    ensures t[1..] == lit <==> t == withSlash
  {
    assert t == ['/'] + t[1..];
    assert withSlash[1..] == lit;
  }

  lemma UserParam(s: string)
    ensures var i := IndexSlash(s);
            UserPlaces(Split(s, '/')) ==
            if i < 0 then Some(Place(UserNode, [s]))
            else if s[i..] == "/events" then Some(Place(UserEventsNode, [s[..i]]))
            else None
  {
    hide Split;
    AtSlash(s);
    var i := IndexSlash(s);
    if i >= 0 {
      OneSegment(s[i + 1..], "events");
      AfterSlash(s[i..], "events", "/events");
      assert s[i..][1..] == s[i + 1..];
    }
  }

  // ---- ServeHTTP ------------------------------------------------------------------------

  method ServeHTTP(prefix: string, path: string, verb: string) returns (r: Outcome)
    ensures r == Serve(Located(prefix, path), verb)
  {
    var cut := CutPrefix(prefix, path);
    if cut.None? || |cut.value| == 0 { return NotFound; }
    var elem := cut.value;
    if elem[0] == '/' {
      elem := elem[1..];
      if |elem| == 0 { return NotFound; }
      if elem[0] != '/' { FirstLetter(elem); }
      if elem[0] == 'a' {
        r := ServeAuth(elem, verb);
        return;
      } else if elem[0] == 'e' {
        r := ServeEvents(elem, verb);
        return;
      } else if elem[0] == 'h' || elem[0] == 'r' || elem[0] == 's' {
        r := ServeLeaf(elem, verb);
        return;
      } else if elem[0] == 'u' {
        r := ServeUsers(elem, verb);
        return;
      }
    }
    return NotFound;
  }

  method ServeAuth(path: string, verb: string) returns (r: Outcome)
    requires |path| > 0 && path[0] == 'a'
    ensures r == Serve(PlaceOf(Split(path, '/')), verb)
  {
    hide PlaceOf, EventPlaces, EventTail, UserPlaces, Split;
    AuthPaths(path);
    var elem := path;
    if "auth/log" <= elem {
      elem := elem[|"auth/log"|..];
      if |elem| == 0 { return NotFound; }
      if elem[0] == 'i' {
        if "in" <= elem {
          elem := elem[|"in"|..];
          if |elem| == 0 {
            assert path == "auth/login";
            return if verb == "POST" then Handled(Login, []) else NotAllowed("POST");
          }
        }
      } else if elem[0] == 'o' {
        if "out" <= elem {
          elem := elem[|"out"|..];
          if |elem| == 0 {
            assert path == "auth/logout";
            return if verb == "POST" then Handled(Logout, []) else NotAllowed("POST");
          }
        }
      }
    }
    return NotFound;
  }

  method ServeLeaf(path: string, verb: string) returns (r: Outcome)
    requires |path| > 0 && (path[0] == 'h' || path[0] == 'r' || path[0] == 's')
    ensures r == Serve(PlaceOf(Split(path, '/')), verb)
  {
    hide PlaceOf, EventPlaces, EventTail, UserPlaces, Split;
    LeafPaths(path);
    var elem := path;
    if elem[0] == 'h' {
      if "health" <= elem {
        elem := elem[|"health"|..];
        if |elem| == 0 {
          assert path == "health";
          return if verb == "GET" then Handled(Health, []) else NotAllowed("GET");
        }
      }
    } else if elem[0] == 'r' {
      if "recommendations" <= elem {
        elem := elem[|"recommendations"|..];
        if |elem| == 0 {
          assert path == "recommendations";
          return if verb == "GET" then Handled(GetRecommendations, []) else NotAllowed("GET");
        }
      }
    } else if elem[0] == 's' {
      if "session" <= elem {
        elem := elem[|"session"|..];
        if |elem| == 0 {
          assert path == "session";
          return if verb == "POST" then Handled(Session, []) else NotAllowed("POST");
        }
      }
    }
    return NotFound;
  }

  method ServeEvents(path: string, verb: string) returns (r: Outcome)
    requires |path| > 0 && path[0] == 'e'
    ensures r == Serve(PlaceOf(Split(path, '/')), verb)
  {
    hide PlaceOf, EventPlaces, EventTail, UserPlaces, Split;
    EventsPaths(path);
    var elem := path;
    if "events" <= elem {
      elem := elem[|"events"|..];
      if |elem| == 0 {
        assert path == "events";
        return if verb == "GET" then Handled(GetEvents, [])
               else if verb == "POST" then Handled(CreateEvent, [])
               else NotAllowed("GET,POST");
      }
      if elem[0] == '/' {
        elem := elem[1..];
        assert elem == path[7..];
        r := ServeEvent(elem, verb);
        return;
      }
    }
    return NotFound;
  }

  method ServeEvent(path: string, verb: string) returns (r: Outcome)
    ensures r == Serve(EventPlaces(Split(path, '/')), verb)
  {
    hide PlaceOf, EventPlaces, EventTail, UserPlaces, Split, IndexSlash;
    EventCut(path);
    var args, elem := ["", ""], path;
    var idx := IndexSlash(elem);
    if idx < 0 { idx := |elem|; }
    args := args[0 := elem[..idx]];
    elem := elem[idx..];
    if |elem| == 0 {
      return if verb == "GET" then Handled(GetEvent, [args[0]])
             else if verb == "PATCH" then Handled(PatchEvent, [args[0]])
             else NotAllowed("GET,PATCH");
    }
    if elem[0] == '/' {
      elem := elem[1..];
      r := ServeEventTail(elem, args, verb);
      return;
    }
    return NotFound;
  }

  method ServeEventTail(path: string, args0: seq<string>, verb: string) returns (r: Outcome)
    requires |args0| == 2
    ensures r == Serve(EventTail(args0[0], Split(path, '/')), verb)
  {
    hide PlaceOf, EventPlaces, EventTail, UserPlaces, Split;
    EventTailPaths(args0[0], path);
    var args, elem := args0, path;
    if |elem| == 0 { return NotFound; }
    if elem[0] == 'd' {
      if "dislike" <= elem {
        elem := elem[|"dislike"|..];
        if |elem| == 0 {
          assert path == "dislike";
          return if verb == "POST" then Handled(DislikeEvent, [args[0]]) else NotAllowed("POST");
        }
      }
    } else if elem[0] == 'l' {
      if "like" <= elem {
        elem := elem[|"like"|..];
        if |elem| == 0 {
          assert path == "like";
          return if verb == "POST" then Handled(LikeEvent, [args[0]]) else NotAllowed("POST");
        }
      }
    } else if elem[0] == 'r' {
      if "reviews" <= elem {
        elem := elem[|"reviews"|..];
        if |elem| == 0 {
          assert path == "reviews";
          return if verb == "GET" then Handled(GetEventReviews, [args[0]])
                 else if verb == "POST" then Handled(CreateEventReview, [args[0]])
                 else NotAllowed("GET,POST");
        }
        if elem[0] == '/' {
          elem := elem[1..];
          assert elem == path[8..];
          var idx := IndexSlash(elem);
          if idx >= 0 { return NotFound; }
          args := args[1 := elem];
          return if verb == "PATCH" then Handled(UpdateEventReview, [args[0], args[1]]) else NotAllowed("PATCH");
        }
      }
    }
    return NotFound;
  }

  method ServeUsers(path: string, verb: string) returns (r: Outcome)
    requires |path| > 0 && path[0] == 'u'
    ensures r == Serve(PlaceOf(Split(path, '/')), verb)
  {
    hide PlaceOf, EventPlaces, EventTail, UserPlaces, Split;
    UsersPaths(path);
    var elem := path;
    if "users" <= elem {
      elem := elem[|"users"|..];
      if |elem| == 0 {
        assert path == "users";
        return if verb == "GET" then Handled(GetUsers, [])
               else if verb == "POST" then Handled(Register, [])
               else NotAllowed("GET,POST");
      }
      if elem[0] == '/' {
        elem := elem[1..];
        assert elem == path[6..];
        r := ServeUser(elem, verb);
        return;
      }
    }
    return NotFound;
  }

  method ServeUser(path: string, verb: string) returns (r: Outcome)
    ensures r == Serve(UserPlaces(Split(path, '/')), verb)
  {
    hide PlaceOf, EventPlaces, EventTail, UserPlaces, Split;
    UserParam(path);
    var args, elem := ["", ""], path;
    var idx := IndexSlash(elem);
    if idx < 0 { idx := |elem|; }
    args := args[0 := elem[..idx]];
    elem := elem[idx..];
    if |elem| == 0 {
      assert path[..idx] == path;
      return if verb == "GET" then Handled(GetUser, [args[0]]) else NotAllowed("GET");
    }
    WholeLiteral(elem, "/events");
    if elem[0] == '/' {
      if "/events" <= elem {
        elem := elem[|"/events"|..];
        if |elem| == 0 {
          return if verb == "GET" then Handled(GetUserEvents, [args[0]]) else NotAllowed("GET");
        }
      }
    }
    return NotFound;
  }

  // ---- FindPath -------------------------------------------------------------------------

  method FindPath(prefix: string, path: string, verb: string) returns (r: Option<Found>)
    ensures r == Find(Located(prefix, path), verb)
  {
    var cut := CutPrefix(prefix, path);
    if cut.None? { return None; }
    var elem := cut.value;
    if |elem| == 0 { return None; }
    if elem[0] == '/' {
      elem := elem[1..];
      if |elem| == 0 { return None; }
      if elem[0] != '/' { FirstLetter(elem); }
      if elem[0] == 'a' {
        r := FindAuth(elem, verb);
        return;
      } else if elem[0] == 'e' {
        r := FindEvents(elem, verb);
        return;
      } else if elem[0] == 'h' || elem[0] == 'r' || elem[0] == 's' {
        r := FindLeaf(elem, verb);
        return;
      } else if elem[0] == 'u' {
        r := FindUsers(elem, verb);
        return;
      }
    }
    return None;
  }

  method FindAuth(path: string, verb: string) returns (r: Option<Found>)
    requires |path| > 0 && path[0] == 'a'
    ensures r == Find(PlaceOf(Split(path, '/')), verb)
  {
    hide PlaceOf, EventPlaces, EventTail, UserPlaces, Split;
    AuthPaths(path);
    var elem := path;
    if "auth/log" <= elem {
      elem := elem[|"auth/log"|..];
      if |elem| == 0 { return None; }
      if elem[0] == 'i' {
        if "in" <= elem {
          elem := elem[|"in"|..];
          if |elem| == 0 {
            assert path == "auth/login";
            return if verb == "POST" then Some(Found(Login, [])) else None;
          }
        }
      } else if elem[0] == 'o' {
        if "out" <= elem {
          elem := elem[|"out"|..];
          if |elem| == 0 {
            assert path == "auth/logout";
            return if verb == "POST" then Some(Found(Logout, [])) else None;
          }
        }
      }
    }
    return None;
  }

  method FindLeaf(path: string, verb: string) returns (r: Option<Found>)
    requires |path| > 0 && (path[0] == 'h' || path[0] == 'r' || path[0] == 's')
    ensures r == Find(PlaceOf(Split(path, '/')), verb)
  {
    hide PlaceOf, EventPlaces, EventTail, UserPlaces, Split;
    LeafPaths(path);
    var elem := path;
    if elem[0] == 'h' {
      if "health" <= elem {
        elem := elem[|"health"|..];
        if |elem| == 0 {
          assert path == "health";
          return if verb == "GET" then Some(Found(Health, [])) else None;
        }
      }
    } else if elem[0] == 'r' {
      if "recommendations" <= elem {
        elem := elem[|"recommendations"|..];
        if |elem| == 0 {
          assert path == "recommendations";
          return if verb == "GET" then Some(Found(GetRecommendations, [])) else None;
        }
      }
    } else if elem[0] == 's' {
      if "session" <= elem {
        elem := elem[|"session"|..];
        if |elem| == 0 {
          assert path == "session";
          return if verb == "POST" then Some(Found(Session, [])) else None;
        }
      }
    }
    return None;
  }

  method FindEvents(path: string, verb: string) returns (r: Option<Found>)
    requires |path| > 0 && path[0] == 'e'
    ensures r == Find(PlaceOf(Split(path, '/')), verb)
  {
    hide PlaceOf, EventPlaces, EventTail, UserPlaces, Split;
    EventsPaths(path);
    var elem := path;
    if "events" <= elem {
      elem := elem[|"events"|..];
      if |elem| == 0 {
        assert path == "events";
        return if verb == "GET" then Some(Found(GetEvents, []))
               else if verb == "POST" then Some(Found(CreateEvent, []))
               else None;
      }
      if elem[0] == '/' {
        elem := elem[1..];
        assert elem == path[7..];
        r := FindEvent(elem, verb);
        return;
      }
    }
    return None;
  }

  method FindEvent(path: string, verb: string) returns (r: Option<Found>)
    ensures r == Find(EventPlaces(Split(path, '/')), verb)
  {
    hide PlaceOf, EventPlaces, EventTail, UserPlaces, Split, IndexSlash;
    EventCut(path);
    var args, elem := ["", ""], path;
    var idx := IndexSlash(elem);
    if idx < 0 { idx := |elem|; }
    args := args[0 := elem[..idx]];
    assert args[..1] == [args[0]];
    elem := elem[idx..];
    if |elem| == 0 {
      return if verb == "GET" then Some(Found(GetEvent, args[..1]))
             else if verb == "PATCH" then Some(Found(PatchEvent, args[..1]))
             else None;
    }
    if elem[0] == '/' {
      elem := elem[1..];
      r := FindEventTail(elem, args, verb);
      return;
    }
    return None;
  }

  method FindEventTail(path: string, args0: seq<string>, verb: string) returns (r: Option<Found>)
    requires |args0| == 2
    ensures r == Find(EventTail(args0[0], Split(path, '/')), verb)
  {
    hide PlaceOf, EventPlaces, EventTail, UserPlaces, Split;
    EventTailPaths(args0[0], path);
    var args, elem := args0, path;
    assert args[..1] == [args[0]];
    if |elem| == 0 { return None; }
    if elem[0] == 'd' {
      if "dislike" <= elem {
        elem := elem[|"dislike"|..];
        if |elem| == 0 {
          assert path == "dislike";
          return if verb == "POST" then Some(Found(DislikeEvent, args[..1])) else None;
        }
      }
    } else if elem[0] == 'l' {
      if "like" <= elem {
        elem := elem[|"like"|..];
        if |elem| == 0 {
          assert path == "like";
          return if verb == "POST" then Some(Found(LikeEvent, args[..1])) else None;
        }
      }
    } else if elem[0] == 'r' {
      if "reviews" <= elem {
        elem := elem[|"reviews"|..];
        if |elem| == 0 {
          assert path == "reviews";
          return if verb == "GET" then Some(Found(GetEventReviews, args[..1]))
                 else if verb == "POST" then Some(Found(CreateEventReview, args[..1]))
                 else None;
        }
        if elem[0] == '/' {
          elem := elem[1..];
          assert elem == path[8..];
          var idx := IndexSlash(elem);
          if idx >= 0 { return None; }
          args := args[1 := elem];
          assert args[..2] == [args[0], elem];
          return if verb == "PATCH" then Some(Found(UpdateEventReview, args[..2])) else None;
        }
      }
    }
    return None;
  }

  method FindUsers(path: string, verb: string) returns (r: Option<Found>)
    requires |path| > 0 && path[0] == 'u'
    ensures r == Find(PlaceOf(Split(path, '/')), verb)
  {
    hide PlaceOf, EventPlaces, EventTail, UserPlaces, Split;
    UsersPaths(path);
    var elem := path;
    if "users" <= elem {
      elem := elem[|"users"|..];
      if |elem| == 0 {
        assert path == "users";
        return if verb == "GET" then Some(Found(GetUsers, []))
               else if verb == "POST" then Some(Found(Register, []))
               else None;
      }
      if elem[0] == '/' {
        elem := elem[1..];
        assert elem == path[6..];
        r := FindUser(elem, verb);
        return;
      }
    }
    return None;
  }

  method FindUser(path: string, verb: string) returns (r: Option<Found>)
    ensures r == Find(UserPlaces(Split(path, '/')), verb)
  {
    hide PlaceOf, EventPlaces, EventTail, UserPlaces, Split;
    UserParam(path);
    var args, elem := ["", ""], path;
    var idx := IndexSlash(elem);
    if idx < 0 { idx := |elem|; }
    args := args[0 := elem[..idx]];
    assert args[..1] == [args[0]];
    elem := elem[idx..];
    if |elem| == 0 {
      assert path[..idx] == path;
      return if verb == "GET" then Some(Found(GetUser, args[..1])) else None;
    }
    WholeLiteral(elem, "/events");
    if elem[0] == '/' {
      if "/events" <= elem {
        elem := elem[|"/events"|..];
        if |elem| == 0 {
          return if verb == "GET" then Some(Found(GetUserEvents, args[..1])) else None;
        }
      }
    }
    return None;
  }

  // ---- The trees refine the table -------------------------------------------------------

  /** For every verb, prefix and path, both trees pick exactly what the table routes, so they agree. */
  lemma TreesAreTable(prefix: string, path: string, verb: string, op: Operation, args: seq<string>)
    ensures Serve(Located(prefix, path), verb) == Handled(op, args) <==>
      prefix <= path && Routes(verb, path[|prefix|..], op, args)
    ensures Find(Located(prefix, path), verb) == Some(Found(op, args)) <==>
      prefix <= path && Routes(verb, path[|prefix|..], op, args)
  {
    var cut := CutPrefix(prefix, path);
    if cut.Some? && Segments(cut.value).Some? {
      PlaceIsTable(Segments(cut.value).value, verb, op, args);
    }
  }

  /** The table never routes one request two ways. */
  lemma RouteUnique(verb: string, path: string, op: Operation, args: seq<string>, op': Operation, args': seq<string>)
    requires Routes(verb, path, op, args) && Routes(verb, path, op', args')
    ensures op == op' && args == args'
  {
    PlaceIsTable(Segments(path).value, verb, op, args);
    PlaceIsTable(Segments(path).value, verb, op', args');
  }

  /** The methods a not-allowed reply lists are exactly those FindPath accepts for the path. */
  lemma AllowedAreAccepted(prefix: string, path: string, verb: string, other: string)
    requires Serve(Located(prefix, path), verb).NotAllowed?
    ensures other in Split(Serve(Located(prefix, path), verb).allowed, ',') <==>
            Find(Located(prefix, path), other).Some?
  {
    hide Split, Located;
    SplitAllowed();
  }

  /** A path nobody serves is not found; a path someone serves under another verb is not allowed. */
  lemma NotFoundExactly(prefix: string, path: string, verb: string)
    ensures Serve(Located(prefix, path), verb) == NotFound <==>
      forall other: string :: Find(Located(prefix, path), other).None?
  {
    hide Located;
    var p := Located(prefix, path);
    if p.Some? {
      assert Find(p, "GET").Some? || Find(p, "POST").Some? || Find(p, "PATCH").Some?;
    }
  }

  lemma SplitAllowed()
    ensures Split("GET", ',') == ["GET"] && Split("POST", ',') == ["POST"] && Split("PATCH", ',') == ["PATCH"]
    ensures Split("GET,POST", ',') == ["GET", "POST"] && Split("GET,PATCH", ',') == ["GET", "PATCH"]
  {
    hide Split;
    SplitOne("GET", ',');
    SplitOne("POST", ',');
    SplitOne("PATCH", ',');
    SplitCons("GET", "POST", ',');
    SplitCons("GET", "PATCH", ',');
    assert "GET" + [','] + "POST" == "GET,POST" && "GET" + [','] + "PATCH" == "GET,PATCH";
  }
}
