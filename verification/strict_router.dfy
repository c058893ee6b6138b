/**
 * loony-router/src/router.rs: the same segment tree with handlers as
 * payloads, and a lookup that answers only from the node reached after
 * consuming every path segment.
 *
 * A handler there is a `fn() -> String` with no arguments; the worked
 * examples stand each one in by the string it returns.
 */
module StrictRouter {
  import opened Wrappers
  import Paths
  import opened SegmentTree

  /** `find_route`: the handler found for the path's segments, and the parameters bound on the way. */
  function FindRoute<T>(router: Node<T>, path: string): (r: Option<(T, Params)>)
    ensures r.Some? ==> FindInNode(router, Paths.Segments(path), map[], true).0.Some?
  {
    var segments := Paths.Segments(path);
    var (found, params) := FindInNode(router, segments, map[], false);
    match found
    case Some(handler) =>
      assert FindInNode(router, segments, map[], true).0.Some? by {
        FindSound(router, segments, map[], false);
        var key :| Explains(router, segments, map[], false, key);
        FindComplete(router, segments, map[], true, key);
      }
      Some((handler, params))
    case None => None
  }

  /** An empty or `/` template attaches the handler to the root and changes nothing else. */
  lemma RootTemplate<T>(router: Node<T>, handler: T)
    ensures AddRoute(router, "/", handler) == Success(router.(payload := Some(handler)))
    ensures AddRoute(router, "", handler) == Success(router.(payload := Some(handler)))
  {
    Paths.EmptyPiecesDropped();
  }

  /**
   * Strictness and soundness: a returned handler is stored under a template
   * key as long as the path whose segments it matches one for one; with no
   * repeated parameter name along the tree's paths, the parameters are
   * exactly the ones that key binds, each to the segment at its position.
   */
  lemma FindRouteSound<T>(router: Node<T>, path: string)
    requires FindRoute(router, path).Some?
    ensures var (handler, params) := FindRoute(router, path).value;
            var segments := Paths.Segments(path);
            exists key :: && At(router, key) == Some(handler)
                          && |key| == |segments|
                          && PrefixMatches(key, segments)
                          && (NamesAvoid(router, {}) ==> params == Bind(map[], key, segments))
  {
    var segments := Paths.Segments(path);
    FindSound(router, segments, map[], false);
    var key :| Explains(router, segments, map[], false, key);
    var empty: Params := map[];
    assert empty.Keys == {};
  }

  /** Completeness: when a stored key matches the path segment for segment, lookup succeeds. */
  lemma FindRouteComplete<T>(router: Node<T>, path: string, key: seq<Seg>)
    requires At(router, key).Some?
    requires |key| == |Paths.Segments(path)| && PrefixMatches(key, Paths.Segments(path))
    ensures FindRoute(router, path).Some?
  {
    FindComplete(router, Paths.Segments(path), map[], false, key);
  }

  /** For a built router: lookup succeeds exactly when some registered template matches the path segment for segment. */
  lemma FindRouteRegistered<T>(routes: seq<(string, T)>, path: string)
    requires AddAll(Empty(), routes).Success?
    ensures var segments := Paths.Segments(path);
            var found := FindRoute(AddAll(Empty(), routes).value, path).Some?;
            found <==> exists i :: && 0 <= i < |routes|
                                   && |TemplateKey(routes[i].0)| == |segments|
                                   && PrefixMatches(TemplateKey(routes[i].0), segments)
  {
    var router := AddAll(Empty(), routes).value;
    var segments := Paths.Segments(path);
    FindSomeIff(router, segments, map[], false);
    if FindRoute(router, path).Some? {
      var key :| At(router, key).Some? && PrefixMatches(key, segments) && |key| == |segments|;
      AddAllRegistered(routes, key);
    }
    if exists i :: 0 <= i < |routes| && |TemplateKey(routes[i].0)| == |segments| && PrefixMatches(TemplateKey(routes[i].0), segments) {
      var i :| 0 <= i < |routes| && |TemplateKey(routes[i].0)| == |segments| && PrefixMatches(TemplateKey(routes[i].0), segments);
      AddAllRegistered(routes, TemplateKey(routes[i].0));
      FindRouteComplete(router, path, TemplateKey(routes[i].0));
    }
  }

  // ---------------------------------------------------------------------
  // Worked example: the demo route set of loony-router/src/bin/main.rs

  const DemoRoutes: seq<(string, string)> := [
    ("/", "root"),
    ("/user", "user"),
    ("/user/:id", "user_id"),
    ("/user/:id/get/:username", "user_id")
  ]

  const UsernameNode: Node<string> := Node(map[], Some(("username", Node(map[], None, Some("user_id")))), None)
  const IdNode: Node<string> := Node(map["get" := UsernameNode], None, Some("user_id"))
  const UserNode: Node<string> := Node(map[], Some(("id", IdNode)), Some("user"))
  const DemoTree: Node<string> := Node(map["user" := UserNode], None, Some("root"))

  lemma TemplateSegments()
    ensures Paths.Segments("/") == []
    ensures Paths.Segments("/user") == ["user"]
  {
    Paths.SegmentsOfPathOf([]);
    assert Paths.PathOf([]) == "/";
    Paths.SegmentsOfPathOf(["user"]);
    assert Paths.PathOf(["user"]) == "/user";
  }

  lemma UserIdSpelling()
    ensures Paths.PathOf(["user", ":id"]) == "/user/:id"
  {
    assert ["user", ":id"][1..] == [":id"];
  }

  lemma UsernameSpelling()
    ensures Paths.PathOf(["user", ":id", "get", ":username"]) == "/user/:id/get/:username"
  {
    var segs := ["user", ":id", "get", ":username"];
    assert segs[1..][1..][1..] == [":username"];
    assert segs[1..][1..] == ["get", ":username"];
    assert segs[1..] == [":id", "get", ":username"];
  }

  lemma UserIdTemplateSegments()
    ensures Paths.Segments("/user/:id") == ["user", ":id"]
  {
    assert Paths.ProperSegments(["user", ":id"]);
    Paths.SegmentsOfPathOf(["user", ":id"]);
    UserIdSpelling();
  }

  lemma UsernameTemplateSegments()
    ensures Paths.Segments("/user/:id/get/:username") == ["user", ":id", "get", ":username"]
  {
    assert Paths.ProperSegments(["user", ":id", "get", ":username"]);
    Paths.SegmentsOfPathOf(["user", ":id", "get", ":username"]);
    UsernameSpelling();
  }

  lemma ParamTemplateSegments()
    ensures Paths.Segments("/user/:id") == ["user", ":id"]
    ensures Paths.Segments("/user/:id/get/:username") == ["user", ":id", "get", ":username"]
  {
    UserIdTemplateSegments();
    UsernameTemplateSegments();
  }

  lemma ShortPathSegments()
    ensures Paths.Segments("/unknown") == ["unknown"]
    ensures Paths.Segments("/user/42") == ["user", "42"]
  {
    Paths.SegmentsOfPathOf(["unknown"]);
    assert Paths.PathOf(["unknown"]) == "/unknown";
    Paths.SegmentsOfPathOf(["user", "42"]);
    assert Paths.PathOf(["user", "42"]) == "/user/42";
  }

  lemma LongPathSpelling()
    ensures Paths.PathOf(["user", "231", "get", "sankar"]) == "/user/231/get/sankar"
  {
    var segs := ["user", "231", "get", "sankar"];
    assert segs[1..][1..][1..] == ["sankar"];
    assert segs[1..][1..] == ["get", "sankar"];
    assert segs[1..] == ["231", "get", "sankar"];
  }

  lemma LongPathSegments()
    ensures Paths.Segments("/user/231/get/sankar") == ["user", "231", "get", "sankar"]
  {
    assert Paths.ProperSegments(["user", "231", "get", "sankar"]);
    Paths.SegmentsOfPathOf(["user", "231", "get", "sankar"]);
    LongPathSpelling();
  }

  lemma DemoParseSegments()
    ensures ParseSegment("user") == Lit("user")
    ensures ParseSegment("get") == Lit("get")
    ensures ParseSegment(":id") == Param("id")
    ensures ParseSegment(":username") == Param("username")
  {
    assert ":id"[1..] == "id";
    assert ":username"[1..] == "username";
  }

  /** The tree after the first two demo routes, and the `user` node after the third. */
  const Tree2: Node<string> := Node(map["user" := Node(map[], None, Some("user"))], None, Some("root"))
  const UserNode3: Node<string> := Node(map[], Some(("id", Node(map[], None, Some("user_id")))), Some("user"))

  lemma BuildDemoFirstTwo()
    ensures AddAll(Empty(), DemoRoutes[..2]) == Success(Tree2)
  {
    TemplateSegments();
    DemoParseSegments();
    assert DemoRoutes[..2][..1] == [("/", "root")];
    assert [("/", "root")][..0] == [];
  }

  lemma AddDemoThird()
    ensures AddToNode(Tree2, ["user", ":id"], "user_id") == Success(Node(map["user" := UserNode3], None, Some("root")))
  {
    DemoParseSegments();
    assert ["user", ":id"][1..] == [":id"];
    assert [":id"][1..] == [];
    var leaf := Node(map[], None, Some("user_id"));
    assert AddToNode<string>(Empty(), [], "user_id") == Success(leaf);
    assert AddToNode(Tree2.statics["user"], [":id"], "user_id") == Success(UserNode3);
    assert Tree2.statics["user" := UserNode3] == map["user" := UserNode3];
  }

  lemma AddDemoThirdRoute()
    ensures AddRoute(Tree2, "/user/:id", "user_id") == Success(Node(map["user" := UserNode3], None, Some("root")))
  {
    UserIdTemplateSegments();
    AddDemoThird();
  }

  lemma BuildDemoThird()
    ensures AddAll(Empty(), DemoRoutes[..3]) == Success(Node(map["user" := UserNode3], None, Some("root")))
  {
    var routes := DemoRoutes[..3];
    assert routes[..2] == DemoRoutes[..2];
    assert routes[2] == ("/user/:id", "user_id");
    BuildDemoFirstTwo();
    AddDemoThirdRoute();
  }

  lemma AddDemoFourth()
    ensures AddToNode(UserNode3, [":id", "get", ":username"], "user_id") == Success(UserNode)
  {
    DemoParseSegments();
    assert [":id", "get", ":username"][1..] == ["get", ":username"];
    assert ["get", ":username"][1..] == [":username"];
    assert [":username"][1..] == [];
    var leaf := Node(map[], None, Some("user_id"));
    assert AddToNode(Empty(), [":username"], "user_id") == Success(UsernameNode) by {
      assert AddToNode<string>(Empty(), [], "user_id") == Success(leaf);
    }
    assert AddToNode(Empty(), ["get", ":username"], "user_id") == Success(Node(map["get" := UsernameNode], None, None));
    assert AddToNode(leaf, ["get", ":username"], "user_id") == Success(IdNode);
  }

  /** The demo routes build without conflict into the expected tree. */
  lemma AddDemoFourthAtRoot()
    ensures AddToNode(Node(map["user" := UserNode3], None, Some("root")), ["user", ":id", "get", ":username"], "user_id")
         == Success(DemoTree)
  {
    var t3 := Node(map["user" := UserNode3], None, Some("root"));
    assert ParseSegment("user") == Lit("user");
    AddDemoFourth();
    assert ["user", ":id", "get", ":username"][1..] == [":id", "get", ":username"];
    assert t3.statics["user" := UserNode] == DemoTree.statics;
  }

  lemma BuildDemo()
    ensures AddAll(Empty(), DemoRoutes) == Success(DemoTree)
  {
    var t3 := Node(map["user" := UserNode3], None, Some("root"));
    assert AddAll(Empty(), DemoRoutes[..3]) == Success(t3) by {
      BuildDemoThird();
    }
    assert AddRoute(t3, DemoRoutes[3].0, DemoRoutes[3].1) == Success(DemoTree) by {
      ParamTemplateSegments();
      AddDemoFourthAtRoot();
    }
    assert DemoRoutes[..3] == DemoRoutes[..|DemoRoutes| - 1];
  }

  /** `/unknown` matches no template, so the demo prints 404 for it. */
  lemma DemoUnknown()
    ensures var t := AddAll(Empty(), DemoRoutes);
            t.Success? && FindRoute(t.value, "/unknown") == None
  {
    BuildDemo();
    ShortPathSegments();
    assert "unknown" != "user";
  }

  /** `/`, `/user` and `/user/42` reach their own handlers. */
  lemma DemoShortPaths()
    ensures var t := AddAll(Empty(), DemoRoutes);
            && t.Success?
            && FindRoute(t.value, "/") == Some(("root", map[]))
            && FindRoute(t.value, "/user") == Some(("user", map[]))
            && FindRoute(t.value, "/user/42") == Some(("user_id", map["id" := "42"]))
  {
    BuildDemo();
    FindDemoRoot();
    FindDemoUser();
    FindDemoUserId();
  }

  lemma FindDemoRoot()
    ensures FindRoute(DemoTree, "/") == Some(("root", map[]))
  {
    TemplateSegments();
  }

  lemma FindDemoUser()
    ensures FindRoute(DemoTree, "/user") == Some(("user", map[]))
  {
    TemplateSegments();
    assert ["user"][1..] == [];
  }

  lemma FindDemoUserId()
    ensures FindRoute(DemoTree, "/user/42") == Some(("user_id", map["id" := "42"]))
  {
    ShortPathSegments();
    assert ["user", "42"][1..] == ["42"];
    assert "42" !in UserNode.statics;
    assert FindInNode(IdNode, [], map["id" := "42"], false) == (Some("user_id"), map["id" := "42"]);
  }

  lemma FindUnderUser()
    ensures FindInNode(UserNode, ["231", "get", "sankar"], map[], false)
         == (Some("user_id"), map["id" := "231", "username" := "sankar"])
  {
    var p1: Params := map["id" := "231"];
    var p2: Params := p1["username" := "sankar"];
    var leaf := Node(map[], None, Some("user_id"));
    assert FindInNode(UsernameNode, ["sankar"], p1, false) == (Some("user_id"), p2) by {
      assert ["sankar"][1..] == [];
      assert FindInNode(leaf, [], p2, false) == (Some("user_id"), p2);
    }
    assert FindInNode(IdNode, ["get", "sankar"], p1, false) == (Some("user_id"), p2) by {
      assert ["get", "sankar"][1..] == ["sankar"];
    }
    assert ["231", "get", "sankar"][1..] == ["get", "sankar"];
    assert "231" !in UserNode.statics;
    assert p2 == map["id" := "231", "username" := "sankar"];
  }

  /** `/user/231/get/sankar` reaches the last template with both parameters bound. */
  lemma DemoTwoParameters()
    ensures var t := AddAll(Empty(), DemoRoutes);
            t.Success? && FindRoute(t.value, "/user/231/get/sankar") == Some(("user_id", map["id" := "231", "username" := "sankar"]))
  {
    BuildDemo();
    LongPathSegments();
    FindUnderUser();
    assert ["user", "231", "get", "sankar"][1..] == ["231", "get", "sankar"];
  }

  // ---------------------------------------------------------------------
  // Worked example: a template that repeats a parameter name

  /** The tree for `/:a/w/:a/z` (handler "first") and `/:a/:b/:c` (handler "second"). */
  const RepeatTree: Node<string> :=
    Node(map[], Some(("a",
      Node(map["w" := Node(map[], Some(("a", Node(map["z" := Node(map[], None, Some("first"))], None, None))), None)],
           Some(("b", Node(map[], Some(("c", Node(map[], None, Some("second")))), None))),
           None))), None)

  /**
   * Rolling back a failed parameter branch removes the name instead of
   * restoring what it was bound to before: on `/x/w/y` the inner `:a` branch
   * fails, its removal erases the outer binding `a = x`, and the handler that
   * does match is returned without it.
   */
  lemma RepeatedNameLosesBinding()
    ensures FindInNode(RepeatTree, ["x", "w", "y"], map[], false) == (Some("second"), map["b" := "w", "c" := "y"])
  {
    var a := RepeatTree.param.value.1;
    var w := a.statics["w"];
    var b := a.param.value.1;
    var ax: Params := map["a" := "x"];
    assert ["x", "w", "y"][1..] == ["w", "y"];
    assert ["w", "y"][1..] == ["y"];
    assert ["y"][1..] == [];
    assert FindInNode(w.param.value.1, [], ax["a" := "y"], false) == (None, ax["a" := "y"]);
    assert FindInNode(w, ["y"], ax, false) == (None, map[]) by {
      assert "y" !in w.statics;
      assert ax["a" := "y"] - {"a"} == map[];
    }
    var bw: Params := map["b" := "w"];
    assert FindInNode(b.param.value.1, [], bw["c" := "y"], false) == (Some("second"), bw["c" := "y"]);
    assert FindInNode(b, ["y"], bw, false) == (Some("second"), bw["c" := "y"]);
    assert FindInNode(a, ["w", "y"], ax, false) == (Some("second"), bw["c" := "y"]) by {
      var none: Params := map[];
      assert none["b" := "w"] == bw;
    }
    assert bw["c" := "y"] == map["b" := "w", "c" := "y"];
  }
}
