/**
 * The demo of loony-router/src/main.rs: four templates compiled in order,
 * and the test paths matched against them.
 *
 * Each fact about a literal path is proved in two steps: first about the
 * path spelled from its segments (`Paths.PathOf`), then that this spelling
 * is the literal.
 */
module TemplateDemo {
  import opened Wrappers
  import Paths
  import opened TemplateMatcher

  const Templates: seq<string> := ["/", "/user/all", "/user/get/:user_id", "/user/get/:user_id/:user_name"]

  const UserAllPattern: Pattern := [MLit("user"), MLit("all")]
  const UserIdPattern: Pattern := [MLit("user"), MLit("get"), MCapture("user_id")]
  const UserNamePattern: Pattern := [MLit("user"), MLit("get"), MCapture("user_id"), MCapture("user_name")]

  /** What `build_routes` produces for the demo templates. */
  const Routes: seq<Route> := [
    Route("/", [MLit("")], []),
    Route("/user/all", UserAllPattern, []),
    Route("/user/get/:user_id", UserIdPattern, ["user_id"]),
    Route("/user/get/:user_id/:user_name", UserNamePattern, ["user_id", "user_name"])
  ]

  // ---------------------------------------------------------------------
  // Spellings

  lemma UserAllSpelling()
    ensures Paths.PathOf(["user", "all"]) == "/user/all"
  {
    assert ["user", "all"][1..] == ["all"];
  }

  lemma UserIdSpelling()
    ensures Paths.PathOf(["user", "get", ":user_id"]) == "/user/get/:user_id"
  {
    var segs := ["user", "get", ":user_id"];
    assert segs[1..][1..] == [":user_id"];
    assert segs[1..] == ["get", ":user_id"];
  }

  lemma UserNameSpelling()
    ensures Paths.PathOf(["user", "get", ":user_id", ":user_name"]) == "/user/get/:user_id/:user_name"
  {
    var segs := ["user", "get", ":user_id", ":user_name"];
    assert segs[1..][1..][1..] == [":user_name"];
    assert segs[1..][1..] == [":user_id", ":user_name"];
    assert segs[1..] == ["get", ":user_id", ":user_name"];
  }

  lemma UserGetAllSpelling()
    ensures Paths.PathOf(["user", "get", "all"]) == "/user/get/all"
  {
    var segs := ["user", "get", "all"];
    assert segs[1..][1..] == ["all"];
    assert segs[1..] == ["get", "all"];
  }

  lemma UserGetSpelling()
    ensures Paths.PathOf(["user", "get"]) == "/user/get"
  {
    assert ["user", "get"][1..] == ["get"];
  }

  lemma TrailingSlashSpelling()
    ensures Paths.PathOf(["user", "all", ""]) == "/user/all/"
  {
    var segs := ["user", "all", ""];
    assert segs[1..][1..] == [""];
    assert segs[1..] == ["all", ""];
  }

  lemma LongPathSpelling()
    ensures Paths.PathOf(["user", "get", "42", "extra", "segment"]) == "/user/get/42/extra/segment"
  {
    var segs := ["user", "get", "42", "extra", "segment"];
    assert segs[1..][1..][1..][1..] == ["segment"];
    assert segs[1..][1..][1..] == ["extra", "segment"];
    assert segs[1..][1..] == ["42", "extra", "segment"];
    assert segs[1..] == ["get", "42", "extra", "segment"];
  }

  // ---------------------------------------------------------------------
  // Compilation

  lemma DemoNames()
    ensures TrimSigils(":user_id") == "user_id"
    ensures TrimSigils(":user_name") == "user_name"
  {
    TrimOneSigil("user_id");
    TrimOneSigil("user_name");
  }

  lemma TrimOneSigil(name: string)
    requires |name| > 0 && name[0] != Sigil
    ensures TrimSigils([Sigil] + name) == name
  {
    assert ([Sigil] + name)[1..] == name;
  }

  lemma DemoCaptureNames()
    ensures CaptureNames(UserAllPattern) == []
    ensures CaptureNames(UserIdPattern) == ["user_id"]
    ensures CaptureNames(UserNamePattern) == ["user_id", "user_name"]
  {
    assert UserAllPattern[1..][1..] == [];
    assert UserIdPattern[1..][1..][1..] == [];
    assert UserNamePattern[1..][1..][1..] == [MCapture("user_name")];
    assert UserNamePattern[1..][1..][1..][1..] == [];
  }

  lemma CompileUserAllSegments()
    ensures CompileSegments(["user", "all"]) == (UserAllPattern, [])
  {
    var r := CompileSegments(["user", "all"]);
    assert r.0[0] == MLit("user");
    assert r.0[1] == MLit("all");
    assert r.0 == UserAllPattern;
    DemoCaptureNames();
  }

  lemma CompileUserIdSegments()
    ensures CompileSegments(["user", "get", ":user_id"]) == (UserIdPattern, ["user_id"])
  {
    var r := CompileSegments(["user", "get", ":user_id"]);
    DemoNames();
    assert r.0[0] == MLit("user");
    assert r.0[1] == MLit("get");
    assert r.0[2] == MCapture("user_id");
    assert r.0 == UserIdPattern;
    DemoCaptureNames();
  }

  lemma CompileUserNameSegments()
    ensures CompileSegments(["user", "get", ":user_id", ":user_name"]) == (UserNamePattern, ["user_id", "user_name"])
  {
    var r := CompileSegments(["user", "get", ":user_id", ":user_name"]);
    DemoNames();
    assert r.0[0] == MLit("user");
    assert r.0[1] == MLit("get");
    assert r.0[2] == MCapture("user_id");
    assert r.0[3] == MCapture("user_name");
    assert r.0 == UserNamePattern;
    DemoCaptureNames();
  }

  lemma CompileUserAllPath()
    ensures TemplateToRegex(Paths.PathOf(["user", "all"])) == (UserAllPattern, [])
  {
    assert Paths.ProperSegments(["user", "all"]);
    TemplateOfPath(["user", "all"]);
    CompileUserAllSegments();
  }

  lemma CompileUserIdPath()
    ensures TemplateToRegex(Paths.PathOf(["user", "get", ":user_id"])) == (UserIdPattern, ["user_id"])
  {
    assert Paths.ProperSegments(["user", "get", ":user_id"]);
    TemplateOfPath(["user", "get", ":user_id"]);
    CompileUserIdSegments();
  }

  lemma CompileUserNamePath()
    ensures TemplateToRegex(Paths.PathOf(["user", "get", ":user_id", ":user_name"])) == (UserNamePattern, ["user_id", "user_name"])
  {
    assert Paths.ProperSegments(["user", "get", ":user_id", ":user_name"]);
    TemplateOfPath(["user", "get", ":user_id", ":user_name"]);
    CompileUserNameSegments();
  }

  lemma CompileUserAll()
    ensures CompileRoute("/user/all") == Routes[1]
  {
    CompileUserAllPath();
    UserAllSpelling();
  }

  lemma CompileUserId()
    ensures CompileRoute("/user/get/:user_id") == Routes[2]
  {
    CompileUserIdPath();
    UserIdSpelling();
  }

  lemma CompileUserName()
    ensures CompileRoute("/user/get/:user_id/:user_name") == Routes[3]
  {
    CompileUserNamePath();
    UserNameSpelling();
  }

  lemma CompileRoot()
    ensures CompileRoute("/") == Routes[0]
  {
    RootTemplateMatchesOnlyRoot("/");
  }

  lemma BuildFourRoutes(a: string, b: string, c: string, d: string)
    ensures BuildRoutes([a, b, c, d]) == [CompileRoute(a), CompileRoute(b), CompileRoute(c), CompileRoute(d)]
  {
  }

  /** The demo templates compile, in order, to the expected routes. */
  lemma BuildDemoRoutes()
    ensures BuildRoutes(Templates) == Routes
  {
    BuildFourRoutes("/", "/user/all", "/user/get/:user_id", "/user/get/:user_id/:user_name");
    CompileRoot();
    CompileUserAll();
    CompileUserId();
    CompileUserName();
  }

  lemma RoutesAligned()
    ensures forall i :: 0 <= i < |Routes| ==> Routes[i].paramNames == CaptureNames(Routes[i].pattern)
  {
    BuildDemoRoutes();
    BuiltRoutesAligned(Templates);
  }

  // ---------------------------------------------------------------------
  // Matching

  lemma UserGetAllParts()
    ensures var path := Paths.PathOf(["user", "get", "all"]);
            && Paths.Split(path[1..]) == ["user", "get", "all"]
            && !MatchesPattern(Routes[0].pattern, path)
            && !MatchesPattern(Routes[1].pattern, path)
            && MatchesPattern(Routes[2].pattern, path)
  {
    var segs := ["user", "get", "all"];
    MatchesPathOf(Routes[0].pattern, segs);
    MatchesPathOf(Routes[1].pattern, segs);
    MatchesPathOf(Routes[2].pattern, segs);
    PiecesOfPath(segs);
  }

  lemma UserGetAllCaptures()
    ensures InsertAll(["user_id"], Captured(UserIdPattern, ["user", "get", "all"]), map[]) == map["user_id" := "all"]
  {
    var segs := ["user", "get", "all"];
    assert Captured(UserIdPattern, segs) == ["all"] by {
      assert UserIdPattern[1..] == [MLit("get"), MCapture("user_id")];
      assert UserIdPattern[1..][1..] == [MCapture("user_id")];
      assert segs[1..] == ["get", "all"];
      assert segs[1..][1..] == ["all"];
    }
    assert InsertAll(["user_id"], ["all"], map[]) == map["user_id" := "all"];
  }

  lemma MatchUserGetAll()
    ensures MatchPath(Routes, Paths.PathOf(["user", "get", "all"])) == Some(("/user/get/:user_id", map["user_id" := "all"]))
  {
    var path := Paths.PathOf(["user", "get", "all"]);
    RoutesAligned();
    UserGetAllParts();
    UserGetAllCaptures();
    var tail := Routes[2..];
    assert MatchPath(tail, path) == Some(("/user/get/:user_id", map["user_id" := "all"]));
    assert Routes[1..][1..] == tail;
  }

  /** No demo route matches the path spelled by `segs`. */
  predicate NoDemoMatch(segs: seq<string>) {
    |segs| >= 1 && forall i :: 0 <= i < |Routes| ==> !MatchesPattern(Routes[i].pattern, Paths.PathOf(segs))
  }

  lemma NoDemoMatchIsNone(segs: seq<string>)
    requires NoDemoMatch(segs)
    ensures MatchPath(Routes, Paths.PathOf(segs)) == None
  {
    RoutesAligned();
    MatchPathFirst(Routes, Paths.PathOf(segs));
  }

  /**
   * A slash-free segment list matches no demo route when it differs from
   * every route in length or in a literal part.
   */
  lemma NoDemoMatchWhen(segs: seq<string>)
    requires |segs| >= 1 && forall i :: 0 <= i < |segs| ==> Paths.Slash !in segs[i]
    requires |segs| == 1 ==> segs[0] != ""
    requires |segs| == 2 ==> segs[1] != "all"
    requires |segs| == 3 || |segs| == 4 ==> segs[1] != "get"
    ensures NoDemoMatch(segs)
  {
    var path := Paths.PathOf(segs);
    forall i | 0 <= i < |Routes|
      ensures !MatchesPattern(Routes[i].pattern, path)
    {
      MatchesPathOf(Routes[i].pattern, segs);
      if |segs| == |Routes[i].pattern| {
        assert !PieceMatches(Routes[i].pattern[|segs| - 1], segs[|segs| - 1]) || !PieceMatches(Routes[i].pattern[1], segs[1]);
      }
    }
  }

  /** `/user/get/all` skips `/user/all` and matches `/user/get/:user_id` with `user_id = all`. */
  lemma DemoMatchesCapture()
    ensures MatchPath(BuildRoutes(Templates), "/user/get/all") == Some(("/user/get/:user_id", map["user_id" := "all"]))
  {
    BuildDemoRoutes();
    MatchUserGetAll();
    UserGetAllSpelling();
  }

  lemma NoMatchTooShort()
    ensures MatchPath(Routes, Paths.PathOf(["user", "get"])) == None
  {
    NoDemoMatchWhen(["user", "get"]);
    NoDemoMatchIsNone(["user", "get"]);
  }

  lemma NoMatchTooLong()
    ensures MatchPath(Routes, Paths.PathOf(["user", "get", "42", "extra", "segment"])) == None
  {
    NoDemoMatchWhen(["user", "get", "42", "extra", "segment"]);
    NoDemoMatchIsNone(["user", "get", "42", "extra", "segment"]);
  }

  lemma NoMatchTrailingSlash()
    ensures MatchPath(Routes, Paths.PathOf(["user", "all", ""])) == None
  {
    NoDemoMatchWhen(["user", "all", ""]);
    NoDemoMatchIsNone(["user", "all", ""]);
  }

  /** Anchoring: too few segments, too many, or a trailing slash match none of the demo templates. */
  lemma DemoAnchored()
    ensures MatchPath(BuildRoutes(Templates), "/user/get") == None
    ensures MatchPath(BuildRoutes(Templates), "/user/get/42/extra/segment") == None
    ensures MatchPath(BuildRoutes(Templates), "/user/all/") == None
  {
    BuildDemoRoutes();
    NoMatchTooShort();
    UserGetSpelling();
    NoMatchTooLong();
    LongPathSpelling();
    NoMatchTrailingSlash();
    TrailingSlashSpelling();
  }
}
