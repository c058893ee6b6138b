/**
 * How the three routers of loony-router relate: the prefix-fallback tree
 * (radix.rs), the strict tree (router.rs) and the ordered template matcher
 * (main.rs).
 */
module RouterComparison {
  import opened Wrappers
  import Paths
  import opened SegmentTree
  import RadixRouter
  import StrictRouter
  import TemplateMatcher

  // ---------------------------------------------------------------------
  // Fallback against strict lookup

  /** The tree for `/a/b` (index 0) and `/a/:x/c` (index 1). */
  const ANode: Node<nat> :=
    Node(map["b" := Node(map[], None, Some(0))], Some(("x", Node(map["c" := Node(map[], None, Some(1))], None, None))), None)
  const Tree: Node<nat> := Node(map["a" := ANode], None, None)

  const Routes: seq<(string, nat)> := [("/a/b", 0), ("/a/:x/c", 1)]
  const FirstRoute: seq<(string, nat)> := [("/a/b", 0)]

  lemma SegmentsAB()
    ensures Paths.Segments("/a/b") == ["a", "b"]
  {
    assert Paths.ProperSegments(["a", "b"]);
    Paths.SegmentsOfPathOf(["a", "b"]);
    Paths.PlainPathSpelling();
  }

  lemma SpellingAXC()
    ensures Paths.PathOf(["a", ":x", "c"]) == "/a/:x/c"
  {
    assert ["a", ":x", "c"][1..][1..] == ["c"];
    assert ["a", ":x", "c"][1..] == [":x", "c"];
  }

  lemma SegmentsAXC()
    ensures Paths.Segments("/a/:x/c") == ["a", ":x", "c"]
  {
    assert Paths.ProperSegments(["a", ":x", "c"]);
    Paths.SegmentsOfPathOf(["a", ":x", "c"]);
    SpellingAXC();
  }

  lemma SpellingABC()
    ensures Paths.PathOf(["a", "b", "c"]) == "/a/b/c"
  {
    assert ["a", "b", "c"][1..][1..] == ["c"];
    assert ["a", "b", "c"][1..] == ["b", "c"];
  }

  lemma SegmentsABC()
    ensures Paths.Segments("/a/b/c") == ["a", "b", "c"]
  {
    assert Paths.ProperSegments(["a", "b", "c"]);
    Paths.SegmentsOfPathOf(["a", "b", "c"]);
    SpellingABC();
  }

  const FirstTree: Node<nat> := Node(map["a" := Node(map["b" := Node(map[], None, Some(0))], None, None)], None, None)

  lemma AddFirst()
    ensures AddAll(Empty(), FirstRoute) == Success(FirstTree)
  {
    SegmentsAB();
    assert FirstRoute[..0] == [];
    assert ["a", "b"][1..] == ["b"];
    assert ["b"][1..] == [];
  }

  lemma AddSecond()
    ensures AddToNode(FirstTree, ["a", ":x", "c"], 1) == Success(Tree)
  {
    assert ParseSegment(":x") == Param("x") by { assert ":x"[1..] == "x"; }
    assert ["a", ":x", "c"][1..] == [":x", "c"];
    assert [":x", "c"][1..] == ["c"];
    assert ["c"][1..] == [];
    var cLeaf: Node<nat> := Node(map[], None, Some(1));
    assert AddToNode<nat>(Empty(), [], 1) == Success(cLeaf);
    assert AddToNode<nat>(Empty(), ["c"], 1) == Success(Node(map["c" := cLeaf], None, None));
    var before := Node(map["b" := Node(map[], None, Some(0))], None, None);
    assert AddToNode(before, [":x", "c"], 1) == Success(ANode);
    assert map["a" := before]["a" := ANode] == map["a" := ANode];
  }

  lemma AddSecondRoute()
    ensures AddRoute(FirstTree, "/a/:x/c", 1) == Success(Tree)
  {
    SegmentsAXC();
    AddSecond();
  }

  lemma BuildTree()
    ensures AddAll(Empty(), Routes) == Success(Tree)
  {
    AddFirst();
    AddSecondRoute();
    var second: (string, nat) := ("/a/:x/c", 1);
    assert Routes == FirstRoute + [second];
    AddAllSnoc(Empty(), FirstRoute, second, FirstTree);
  }

  lemma FindUnderA()
    ensures FindInNode(ANode, ["b", "c"], map[], true) == (Some(0), map[])
    ensures FindInNode(ANode, ["b", "c"], map[], false) == (Some(1), map["x" := "b"])
  {
    var bLeaf: Node<nat> := Node(map[], None, Some(0));
    var cLeaf: Node<nat> := Node(map[], None, Some(1));
    var xNode := ANode.param.value.1;
    var none: Params := map[];
    var bound: Params := none["x" := "b"];
    assert ["b", "c"][1..] == ["c"];
    assert ["c"][1..] == [];
    assert FindInNode(bLeaf, ["c"], none, true) == (Some(0), none);
    assert FindInNode(bLeaf, ["c"], none, false) == (None, none);
    assert FindInNode(cLeaf, [], bound, false) == (Some(1), bound);
    assert FindInNode(xNode, ["c"], bound, false) == (Some(1), bound);
    assert bound == map["x" := "b"];
  }

  lemma RadixStopsAtB()
    ensures RadixRouter.FindRoute(Tree, "/a/b/c") == Some((0, map[]))
  {
    SegmentsABC();
    FindUnderA();
    assert ["a", "b", "c"][1..] == ["b", "c"];
  }

  lemma StrictReachesC()
    ensures StrictRouter.FindRoute(Tree, "/a/b/c") == Some((1, map["x" := "b"]))
  {
    SegmentsABC();
    FindUnderA();
    assert ["a", "b", "c"][1..] == ["b", "c"];
  }

  /**
   * The routers disagree: with `/a/b` and `/a/:x/c` registered (`Routes`), the path
   * `/a/b/c` stops at `/a/b` in the prefix-fallback router (its static branch
   * answers with its own index once `c` leads nowhere) but reaches `/a/:x/c`,
   * with `x = b`, in the strict router (its static branch fails and lookup
   * backtracks into the parameter branch).
   */
  lemma FallbackSeparatesRouters()
    ensures var t := AddAll(Empty(), Routes);
            && t.Success?
            && RadixRouter.FindRoute(t.value, "/a/b/c") == Some((0, map[]))
            && StrictRouter.FindRoute(t.value, "/a/b/c") == Some((1, map["x" := "b"]))
  {
    BuildTree();
    RadixStopsAtB();
    StrictReachesC();
  }

  /** A strict answer is never lost by falling back: the fallback lookup also finds something. */
  lemma StrictImpliesFallback(router: Node<nat>, path: string)
    requires StrictRouter.FindRoute(router, path).Some?
    ensures RadixRouter.FindRoute(router, path).Some?
  {
  }

  // ---------------------------------------------------------------------
  // Strict tree against ordered templates

  /**
   * A template both routers read the same way: its trimmed text is empty
   * (the root), or splitting it on `/` gives no empty piece.
   */
  predicate WellFormedTemplate(t: string) {
    var trimmed := Paths.Trim(t);
    trimmed == "" || forall i :: 0 <= i < |Paths.Split(trimmed)| ==> Paths.Split(trimmed)[i] != ""
  }

  /** A template segment and its compiled part accept the same non-empty, slash-free path segments. */
  lemma SegmentReadings(x: string, s: string)
    requires s != "" && Paths.Slash !in s
    ensures SegMatches(ParseSegment(x), s) <==> TemplateMatcher.PieceMatches(TemplateMatcher.CompileSegment(x), s)
  {
  }

  /** The tree key of a well-formed template is read off the same pieces the matcher compiles. */
  lemma WellFormedPieces(t: string)
    requires WellFormedTemplate(t)
    requires Paths.Trim(t) != ""
    ensures TemplateKey(t) == Key(Paths.Split(Paths.Trim(t)))
    ensures TemplateMatcher.TemplateToRegex(t) == TemplateMatcher.CompileSegments(Paths.Split(Paths.Trim(t)))
  {
    Paths.SegmentsTrim(t);
    Paths.NonEmptyOfNonEmpty(Paths.Split(Paths.Trim(t)));
    assert Paths.Trim([Paths.Slash]) == "" by {
      var root := [Paths.Slash];
      assert Paths.TrimStart(root) == Paths.TrimStart(root[1..]);
      assert root[1..] == "";
    }
  }

  /** A template whose trimmed text is empty is the root in both routers. */
  lemma RootPieces(t: string)
    requires Paths.Trim(t) == ""
    ensures TemplateKey(t) == []
    ensures TemplateMatcher.TemplateToRegex(t).0 == [TemplateMatcher.MLit("")]
  {
    Paths.SegmentsTrim(t);
    assert Paths.Split("") == [""];
    assert Paths.NonEmpty([""]) == [] by { assert [""][1..] == []; }
  }

  /** The root path `/`: only a template whose trimmed text is empty matches it. */
  lemma TemplateAgreesAtRoot(t: string)
    requires WellFormedTemplate(t)
    ensures var key := TemplateKey(t);
            var matched := |key| == 0 && PrefixMatches(key, []);
            matched <==> TemplateMatcher.MatchesPattern(TemplateMatcher.TemplateToRegex(t).0, Paths.PathOf([]))
  {
    var path := Paths.PathOf([]);
    var p := TemplateMatcher.TemplateToRegex(t).0;
    assert path == "/";
    assert path[1..] == "";
    assert Paths.Split("") == [""];
    if Paths.Trim(t) == "" {
      RootPieces(t);
    } else {
      WellFormedPieces(t);
      var pieces := Paths.Split(Paths.Trim(t));
      assert !TemplateMatcher.PieceMatches(p[0], "") by {
        assert p[0] == TemplateMatcher.CompileSegment(pieces[0]);
        assert pieces[0] != "";
      }
    }
  }

  /** A path with segments: the pattern and the key compare them part by part in the same way. */
  lemma TemplateAgreesBelowRoot(t: string, segs: seq<string>)
    requires WellFormedTemplate(t)
    requires Paths.ProperSegments(segs) && |segs| > 0
    ensures var key := TemplateKey(t);
            var matched := |key| == |segs| && PrefixMatches(key, segs);
            matched <==> TemplateMatcher.MatchesPattern(TemplateMatcher.TemplateToRegex(t).0, Paths.PathOf(segs))
  {
    var p := TemplateMatcher.TemplateToRegex(t).0;
    TemplateMatcher.MatchesPathOf(p, segs);
    if Paths.Trim(t) == "" {
      RootPieces(t);
      assert segs[0] != "";
    } else {
      WellFormedPieces(t);
      var pieces := Paths.Split(Paths.Trim(t));
      var key := TemplateKey(t);
      if |key| == |segs| {
        forall i | 0 <= i < |segs|
          ensures SegMatches(key[i], segs[i]) <==> TemplateMatcher.PieceMatches(p[i], segs[i])
        {
          SegmentReadings(pieces[i], segs[i]);
        }
      }
    }
  }

  /**
   * One template, one proper path: the strict tree's key matches the path
   * segment for segment exactly when the compiled pattern matches it.
   */
  lemma TemplateAgrees(t: string, segs: seq<string>)
    requires WellFormedTemplate(t)
    requires Paths.ProperSegments(segs)
    ensures var key := TemplateKey(t);
            var matched := |key| == |segs| && PrefixMatches(key, segs);
            matched <==> TemplateMatcher.MatchesPattern(TemplateMatcher.TemplateToRegex(t).0, Paths.PathOf(segs))
  {
    if |segs| == 0 {
      TemplateAgreesAtRoot(t);
    } else {
      TemplateAgreesBelowRoot(t, segs);
    }
  }

  /** The templates of a route list, in order. */
  function TemplatesOf<T>(routes: seq<(string, T)>): (ts: seq<string>)
    ensures |ts| == |routes|
    ensures forall i :: 0 <= i < |routes| ==> ts[i] == routes[i].0
  {
    seq(|routes|, i requires 0 <= i < |routes| => routes[i].0)
  }

  /**
   * On a path of non-empty segments, the strict router built from a route
   * list finds a handler exactly when the template matcher built from the
   * same templates finds a match, provided every template is well formed.
   */
  lemma StrictAgreesWithTemplates<T>(routes: seq<(string, T)>, segs: seq<string>)
    requires AddAll(Empty(), routes).Success?
    requires forall i :: 0 <= i < |routes| ==> WellFormedTemplate(routes[i].0)
    requires Paths.ProperSegments(segs)
    ensures var path := Paths.PathOf(segs);
            var compiled := TemplateMatcher.BuildRoutes(TemplatesOf(routes));
            StrictRouter.FindRoute(AddAll(Empty(), routes).value, path).Some?
            <==> TemplateMatcher.MatchPath(compiled, path).Some?
  {
    var path := Paths.PathOf(segs);
    var templates := TemplatesOf(routes);
    var compiled := TemplateMatcher.BuildRoutes(templates);
    TemplateMatcher.BuiltRoutesAligned(templates);
    Paths.SegmentsOfPathOf(segs);
    StrictRouter.FindRouteRegistered(routes, path);
    TemplateMatcher.MatchPathFirst(compiled, path);
    forall i | 0 <= i < |routes|
      ensures (|TemplateKey(routes[i].0)| == |segs| && PrefixMatches(TemplateKey(routes[i].0), segs))
              <==> TemplateMatcher.MatchesPattern(compiled[i].pattern, path)
    {
      TemplateAgrees(routes[i].0, segs);
    }
  }
}
