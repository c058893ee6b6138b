/**
 * loony-router/src/radix.rs: the segment tree with service indices as
 * payloads and a lookup that falls back to the deepest node on the explored
 * path that has an index of its own.
 */
module RadixRouter {
  import opened Wrappers
  import Paths
  import opened SegmentTree

  /** `RadixRouter`: the root of a tree of service indices. */
  type Router = Node<nat>

  function New(): (r: Router)
    ensures forall key :: At(r, key) == None
  {
    var r := Empty();
    assert forall key :: At(r, key) == None by {
      forall key { AtEmpty<nat>(key); }
    }
    r
  }

  /** `find_route`: the index found for the path's segments, and the parameters bound on the way. */
  function FindRoute(router: Router, path: string): (r: Option<(nat, Params)>)
    ensures router.payload.Some? ==> r.Some?
  {
    var (found, params) := FindInNode(router, Paths.Segments(path), map[], true);
    match found
    case Some(index) => Some((index, params))
    case None => None
  }

  /**
   * A returned index is stored under a template key whose segments match a
   * prefix of the path; with no repeated parameter name along the tree's
   * paths, the parameters are exactly those that key binds.
   */
  lemma FindRouteSound(router: Router, path: string)
    requires FindRoute(router, path).Some?
    ensures var (index, params) := FindRoute(router, path).value;
            exists key :: && At(router, key) == Some(index)
                          && PrefixMatches(key, Paths.Segments(path))
                          && (NamesAvoid(router, {}) ==> params == Bind(map[], key, Paths.Segments(path)))
  {
    var segments := Paths.Segments(path);
    FindSound(router, segments, map[], true);
    var key :| Explains(router, segments, map[], true, key);
    var empty: Params := map[];
    assert empty.Keys == {};
  }

  /** Any stored key that matches a prefix of the path makes lookup succeed. */
  lemma FindRouteComplete(router: Router, path: string, key: seq<Seg>)
    requires At(router, key).Some?
    requires PrefixMatches(key, Paths.Segments(path))
    ensures FindRoute(router, path).Some?
  {
    FindComplete(router, Paths.Segments(path), map[], true, key);
  }

  /** Lookup reads only the path's segments, so redundant slashes make no difference. */
  lemma FindRouteIgnoresEmptyPieces(router: Router)
    ensures FindRoute(router, "") == FindRoute(router, "/") == FindRoute(router, "//")
    ensures FindRoute(router, "/a//b/") == FindRoute(router, "/a/b")
  {
    Paths.EmptyPiecesDropped();
  }

  lemma UserIdSpelling()
    ensures Paths.PathOf(["user", ":id"]) == "/user/:id"
  {
    assert ["user", ":id"][1..] == [":id"];
  }

  lemma UserAllSpelling()
    ensures Paths.PathOf(["user", "all"]) == "/user/all"
  {
    assert ["user", "all"][1..] == ["all"];
  }

  lemma ExtraPathSpelling()
    ensures Paths.PathOf(["user", "42", "extra"]) == "/user/42/extra"
  {
    var segs := ["user", "42", "extra"];
    assert segs[1..][1..] == ["extra"];
    assert segs[1..] == ["42", "extra"];
  }

  lemma UserIdSegments()
    ensures Paths.Segments("/user/:id") == ["user", ":id"]
  {
    assert Paths.ProperSegments(["user", ":id"]);
    Paths.SegmentsOfPathOf(["user", ":id"]);
    UserIdSpelling();
  }

  lemma UserAllSegments()
    ensures Paths.Segments("/user/all") == ["user", "all"]
  {
    assert Paths.ProperSegments(["user", "all"]);
    Paths.SegmentsOfPathOf(["user", "all"]);
    UserAllSpelling();
  }

  lemma ExtraPathSegments()
    ensures Paths.Segments("/user/42/extra") == ["user", "42", "extra"]
  {
    assert Paths.ProperSegments(["user", "42", "extra"]);
    Paths.SegmentsOfPathOf(["user", "42", "extra"]);
    ExtraPathSpelling();
  }

  // ---------------------------------------------------------------------
  // Worked examples

  /** The tree after registering `/user/:id` as service 0. */
  const UserIdTree: Router := Node(map["user" := Node(map[], Some(("id", Node(map[], None, Some(0)))), None)], None, None)

  /** The `user` node after also registering `/user/all` as service 1. */
  const UserNode: Router := Node(map["all" := Node(map[], None, Some(1))], Some(("id", Node(map[], None, Some(0)))), None)

  lemma BuildUserIdTree()
    ensures AddAll(New(), [("/user/:id", 0)]) == Success(UserIdTree)
  {
    UserIdSegments();
    assert ParseSegment(":id") == Param("id") by { assert ":id"[1..] == "id"; }
    assert [("/user/:id", 0)][..0] == [];
  }

  lemma AddUserAll()
    ensures AddToNode(UserIdTree, ["user", "all"], 1) == Success(Node(map["user" := UserNode], None, None))
  {
    assert ParseSegment("user") == Lit("user");
    assert ParseSegment("all") == Lit("all");
    assert ["user", "all"][1..] == ["all"];
    var allLeaf: Router := Node(map[], None, Some(1));
    assert AddToNode<nat>(Empty(), [], 1) == Success(allLeaf);
    assert AddToNode(UserIdTree.statics["user"], ["all"], 1) == Success(UserNode);
    assert UserIdTree.statics["user" := UserNode] == map["user" := UserNode];
  }

  /** Prefix fallback: with only `/user/:id` registered, `/user/42/extra` resolves to it with `id = 42`. */
  lemma FallbackToShorterTemplate()
    ensures var t := AddAll(New(), [("/user/:id", 0)]);
            t.Success? && FindRoute(t.value, "/user/42/extra") == Some((0, map["id" := "42"]))
  {
    BuildUserIdTree();
    ExtraPathSegments();
    var leaf: Router := Node(map[], None, Some(0));
    assert FindInNode(leaf, ["extra"], map["id" := "42"], true) == (Some(0), map["id" := "42"]);
  }

  lemma AddUserAllRoute()
    ensures AddRoute(UserIdTree, "/user/all", 1) == Success(Node(map["user" := UserNode], None, None))
  {
    UserAllSegments();
    AddUserAll();
  }

  lemma BuildUserTree()
    ensures AddAll(New(), [("/user/:id", 0), ("/user/all", 1)]) == Success(Node(map["user" := UserNode], None, None))
  {
    BuildUserIdTree();
    AddUserAllRoute();
    var first: seq<(string, nat)> := [("/user/:id", 0)];
    var second: (string, nat) := ("/user/all", 1);
    assert [("/user/:id", 0), ("/user/all", 1)] == first + [second];
    AddAllSnoc(New(), first, second, UserIdTree);
  }

  lemma FindAllUnderUser()
    ensures FindInNode(UserNode, ["all"], map[], true) == (Some(1), map[])
  {
    var allLeaf: Router := Node(map[], None, Some(1));
    assert FindInNode(allLeaf, [], map[], true) == (Some(1), map[]);
    assert ["all"][1..] == [];
  }

  /** Static before parameter: `/user/all` wins over `/user/:id` for the path `/user/all`. */
  lemma StaticBeatsParameter()
    ensures var t := AddAll(New(), [("/user/:id", 0), ("/user/all", 1)]);
            t.Success? && FindRoute(t.value, "/user/all") == Some((1, map[]))
  {
    BuildUserTree();
    UserAllSegments();
    FindAllUnderUser();
    assert ["user", "all"][1..] == ["all"];
  }
}
