/**
 * loony-router/src/main.rs: templates compiled to anchored regular
 * expressions and tried in order.
 *
 * The compiled regex `^/p1/p2/.../pn$` is modelled by its list of parts:
 * an escaped literal matches exactly its own text, and a capture `([^/]+)`
 * matches one non-empty run without `/`. The special regex `^/$` for the
 * template `/` is the one-part pattern whose only part is the empty literal.
 */
module TemplateMatcher {
  import opened Wrappers
  import Paths

  const Sigil: char := ':'

  datatype Matcher = MLit(text: string) | MCapture(name: string)

  /** The parts of a compiled regex between `^/` and `$`, separated by `/`. */
  type Pattern = seq<Matcher>

  /** One compiled template: the original string, its pattern, and the capture names in group order. */
  datatype Route = Route(template: string, pattern: Pattern, paramNames: seq<string>)

  /** `trim_start_matches(':')`: every leading sigil removed. */
  function TrimSigils(s: string): (r: string)
    ensures |r| == 0 || r[0] != Sigil
    ensures |r| <= |s| && r == s[|s| - |r|..]
    ensures forall i :: 0 <= i < |s| - |r| ==> s[i] == Sigil
    decreases |s|
  {
    if |s| > 0 && s[0] == Sigil then TrimSigils(s[1..]) else s
  }

  /** A template segment starting with `:` becomes a capture named by the segment without its leading sigils; any other is a literal. */
  function CompileSegment(segment: string): (m: Matcher)
    ensures m.MCapture? <==> |segment| > 0 && segment[0] == Sigil
    ensures m.MLit? ==> m.text == segment
    ensures m.MCapture? ==> m.name == TrimSigils(segment)
  {
    if |segment| > 0 && segment[0] == Sigil then MCapture(TrimSigils(segment)) else MLit(segment)
  }

  /** The capture names of a pattern, in order. */
  function CaptureNames(p: Pattern): seq<string>
    decreases |p|
  {
    if |p| == 0 then []
    else (if p[0].MCapture? then [p[0].name] else []) + CaptureNames(p[1..])
  }

  /** The loop of `template_to_regex`: one part per segment, and each parameter's name pushed in order. */
  function CompileSegments(segments: seq<string>): (r: (Pattern, seq<string>))
    ensures |r.0| == |segments|
    ensures forall i :: 0 <= i < |segments| ==> r.0[i] == CompileSegment(segments[i])
    ensures r.1 == CaptureNames(r.0)
    decreases |segments|
  {
    if |segments| == 0 then ([], [])
    else
      var (parts, names) := CompileSegments(segments[1..]);
      var m := CompileSegment(segments[0]);
      var names' := if m.MCapture? then [m.name] + names else names;
      assert ([m] + parts)[1..] == parts;
      ([m] + parts, names')
  }

  /** `template_to_regex`. */
  function TemplateToRegex(template: string): (r: (Pattern, seq<string>))
    ensures |r.0| >= 1
    ensures r.1 == CaptureNames(r.0)
    ensures forall i :: 0 <= i < |r.0| ==> r.0[i].MLit? ==> Paths.Slash !in r.0[i].text
  {
    if template == [Paths.Slash] then ([MLit("")], [])
    else CompileSegments(Paths.Split(Paths.Trim(template)))
  }

  /** One compiled template. */
  function CompileRoute(template: string): (route: Route)
    ensures route.template == template
    ensures route.paramNames == CaptureNames(route.pattern)
  {
    var (pattern, names) := TemplateToRegex(template);
    Route(template, pattern, names)
  }

  /** `build_routes`: every template compiled, in the given order. */
  function BuildRoutes(templates: seq<string>): (routes: seq<Route>)
    ensures |routes| == |templates|
    ensures forall i :: 0 <= i < |templates| ==> routes[i] == CompileRoute(templates[i])
  {
    seq(|templates|, i requires 0 <= i < |templates| => CompileRoute(templates[i]))
  }

  /** Leading and trailing slashes of a template are trimmed before it is split. */
  lemma TemplateIgnoresOuterSlashes(t: string)
    ensures TemplateToRegex([Paths.Slash] + t + [Paths.Slash]) == TemplateToRegex(t)
  {
    Paths.TrimWrap(t);
    if t == [Paths.Slash] {
      assert Paths.TrimStart(t) == Paths.TrimStart(t[1..]);
      assert t[1..] == "";
      assert Paths.Trim(t) == "";
      assert Paths.Split("") == [""];
      assert CompileSegments([""]) == ([MLit("")], []) by {
        assert [""][1..] == [];
        assert CompileSegments([]) == ([], []);
        assert CompileSegment("") == MLit("");
        assert [MLit("")] + [] == [MLit("")];
      }
    }
  }

  /** A template spelled `/s1/.../sn` compiles segment by segment. */
  lemma TemplateOfPath(segs: seq<string>)
    requires |segs| >= 1 && Paths.ProperSegments(segs)
    ensures TemplateToRegex(Paths.PathOf(segs)) == CompileSegments(segs)
  {
    Paths.TrimPathOf(segs);
    Paths.SplitJoin(segs);
    assert |Paths.PathOf(segs)| >= 2 by {
      assert segs[0][0] in segs[0];
      Paths.JoinEnds(segs);
    }
  }

  /** The pieces of a path spelled `/s1/.../sn`, for slash-free pieces. */
  lemma PiecesOfPath(segs: seq<string>)
    requires |segs| >= 1
    requires forall i :: 0 <= i < |segs| ==> Paths.Slash !in segs[i]
    ensures Paths.Split(Paths.PathOf(segs)[1..]) == segs
  {
    Paths.SplitJoin(segs);
    assert Paths.PathOf(segs)[1..] == Paths.Join(segs);
  }

  // ---------------------------------------------------------------------
  // Matching

  predicate PieceMatches(m: Matcher, piece: string) {
    match m
    case MLit(text) => piece == text
    case MCapture(_) => piece != "" && Paths.Slash !in piece
  }

  /** The path's pieces after its leading `/`, one per pattern part. */
  predicate MatchesPattern(p: Pattern, path: string) {
    && |path| >= 1
    && path[0] == Paths.Slash
    && var pieces := Paths.Split(path[1..]);
       && |pieces| == |p|
       && forall i :: 0 <= i < |p| ==> PieceMatches(p[i], pieces[i])
  }

  /** `pieces` fill the pattern's parts and spell the path as `/` followed by the pieces joined with `/`. */
  predicate Spells(p: Pattern, pieces: seq<string>, path: string) {
    && |pieces| == |p|
    && (forall i :: 0 <= i < |p| ==> PieceMatches(p[i], pieces[i]))
    && path == [Paths.Slash] + Paths.Join(pieces)
  }

  /**
   * The regex reading: a path matches `^/p1/.../pn$` exactly when it is `/`
   * followed by pieces, joined by `/`, each matching its part. Parts never
   * match a `/`, so the split of the path is the only candidate.
   */
  lemma MatchesPatternIff(p: Pattern, path: string)
    requires |p| >= 1
    requires forall i :: 0 <= i < |p| ==> p[i].MLit? ==> Paths.Slash !in p[i].text
    ensures MatchesPattern(p, path) <==> exists pieces :: Spells(p, pieces, path)
  {
    if MatchesPattern(p, path) {
      var pieces := Paths.Split(path[1..]);
      Paths.JoinSplit(path[1..]);
      assert path == [Paths.Slash] + path[1..];
      assert Spells(p, pieces, path);
    }
    if exists pieces :: Spells(p, pieces, path) {
      var pieces :| Spells(p, pieces, path);
      assert forall i :: 0 <= i < |pieces| ==> Paths.Slash !in pieces[i] by {
        forall i | 0 <= i < |pieces|
          ensures Paths.Slash !in pieces[i]
        {
          assert PieceMatches(p[i], pieces[i]);
        }
      }
      Paths.SplitJoin(pieces);
      assert path[1..] == Paths.Join(pieces);
    }
  }

  /** The template `/` compiles to `^/$`, which matches the path `/` and nothing else. */
  lemma RootTemplateMatchesOnlyRoot(path: string)
    ensures TemplateToRegex("/") == ([MLit("")], [])
    ensures MatchesPattern(TemplateToRegex("/").0, path) <==> path == "/"
  {
    if MatchesPattern([MLit("")], path) {
      var pieces := Paths.Split(path[1..]);
      Paths.JoinSplit(path[1..]);
      assert path == [Paths.Slash] + path[1..];
    }
    if path == "/" {
      assert path[1..] == "";
    }
  }

  /** The values of the capture groups, in group order. */
  function Captured(p: Pattern, pieces: seq<string>): (values: seq<string>)
    requires |pieces| == |p|
    ensures |values| == |CaptureNames(p)|
    decreases |p|
  {
    if |p| == 0 then []
    else (if p[0].MCapture? then [pieces[0]] else []) + Captured(p[1..], pieces[1..])
  }

  /** The loop over `param_names`: insert each name with its group's text, in order, a later name overwriting an earlier one. */
  function InsertAll(names: seq<string>, values: seq<string>, params: map<string, string>): map<string, string>
    requires |names| == |values|
    decreases |names|
  {
    if |names| == 0 then params
    else InsertAll(names[1..], values[1..], params[names[0] := values[0]])
  }

  lemma {:induction false} InsertAllKeys(names: seq<string>, values: seq<string>, params: map<string, string>)
    requires |names| == |values|
    ensures forall k :: k in InsertAll(names, values, params) <==> k in params || k in names
    decreases |names|
  {
    if |names| > 0 {
      InsertAllKeys(names[1..], values[1..], params[names[0] := values[0]]);
      assert names == [names[0]] + names[1..];
    }
  }

  lemma {:induction false} InsertAllOther(names: seq<string>, values: seq<string>, params: map<string, string>, k: string)
    requires |names| == |values|
    requires k !in names && k in params
    ensures k in InsertAll(names, values, params)
    ensures InsertAll(names, values, params)[k] == params[k]
    decreases |names|
  {
    InsertAllKeys(names, values, params);
    if |names| > 0 {
      assert names[0] != k;
      assert k !in names[1..];
      InsertAllOther(names[1..], values[1..], params[names[0] := values[0]], k);
    }
  }

  lemma {:induction false} CaptureNamesMember(p: Pattern, k: string)
    ensures k in CaptureNames(p) <==> exists i :: 0 <= i < |p| && p[i] == MCapture(k)
    decreases |p|
  {
    if |p| > 0 {
      CaptureNamesMember(p[1..], k);
      if exists i :: 0 <= i < |p| && p[i] == MCapture(k) {
        var i :| 0 <= i < |p| && p[i] == MCapture(k);
        if i > 0 {
          assert p[1..][i - 1] == p[i];
        }
      }
      if exists i :: 0 <= i < |p[1..]| && p[1..][i] == MCapture(k) {
        var i :| 0 <= i < |p[1..]| && p[1..][i] == MCapture(k);
        assert p[i + 1] == MCapture(k);
      }
    }
  }

  /** No two captures of the pattern share a name. */
  predicate DistinctCaptures(p: Pattern) {
    forall i, j :: 0 <= i < j < |p| && p[i].MCapture? && p[j].MCapture? ==> p[i].name != p[j].name
  }

  /**
   * The parameters of a match: the incoming map extended by every capture
   * name; with distinct names each is bound to the piece at its own position.
   */
  lemma {:induction false} CapturesBound(p: Pattern, pieces: seq<string>, params: map<string, string>)
    requires |pieces| == |p|
    ensures var r := InsertAll(CaptureNames(p), Captured(p, pieces), params);
            forall k :: k in r <==> k in params || k in CaptureNames(p)
    ensures var r := InsertAll(CaptureNames(p), Captured(p, pieces), params);
            DistinctCaptures(p) ==>
              forall i :: 0 <= i < |p| && p[i].MCapture? ==> p[i].name in r && r[p[i].name] == pieces[i]
    decreases |p|
  {
    InsertAllKeys(CaptureNames(p), Captured(p, pieces), params);
    if |p| > 0 && DistinctCaptures(p) {
      var tail := p[1..];
      assert DistinctCaptures(tail) by {
        forall i, j | 0 <= i < j < |tail| && tail[i].MCapture? && tail[j].MCapture?
          ensures tail[i].name != tail[j].name
        {
          assert tail[i] == p[i + 1] && tail[j] == p[j + 1];
        }
      }
      var params' := if p[0].MCapture? then params[p[0].name := pieces[0]] else params;
      CapturesBound(tail, pieces[1..], params');
      var r := InsertAll(CaptureNames(p), Captured(p, pieces), params);
      assert r == InsertAll(CaptureNames(tail), Captured(tail, pieces[1..]), params') by {
        var names := CaptureNames(p);
        var values := Captured(p, pieces);
        if p[0].MCapture? {
          assert names == [p[0].name] + CaptureNames(tail);
          assert values == [pieces[0]] + Captured(tail, pieces[1..]);
          assert names[1..] == CaptureNames(tail);
          assert values[1..] == Captured(tail, pieces[1..]);
        } else {
          assert names == [] + CaptureNames(tail) == CaptureNames(tail);
          assert values == [] + Captured(tail, pieces[1..]) == Captured(tail, pieces[1..]);
        }
      }
      forall i | 0 <= i < |p| && p[i].MCapture?
        ensures p[i].name in r && r[p[i].name] == pieces[i]
      {
        if i == 0 {
          assert p[0].name !in CaptureNames(tail) by {
            CaptureNamesMember(tail, p[0].name);
            forall j | 0 <= j < |tail|
              ensures tail[j] != MCapture(p[0].name)
            {
              assert tail[j] == p[j + 1];
            }
          }
          InsertAllOther(CaptureNames(tail), Captured(tail, pieces[1..]), params', p[0].name);
        } else {
          assert tail[i - 1] == p[i];
        }
      }
    }
  }

  /** `match_path`: the first route in list order whose regex matches, with its parameters. */
  function MatchPath(routes: seq<Route>, path: string): Option<(string, map<string, string>)>
    requires forall i :: 0 <= i < |routes| ==> routes[i].paramNames == CaptureNames(routes[i].pattern)
    decreases |routes|
  {
    if |routes| == 0 then None
    else
      var route := routes[0];
      if MatchesPattern(route.pattern, path) then
        var values := Captured(route.pattern, Paths.Split(path[1..]));
        Some((route.template, InsertAll(route.paramNames, values, map[])))
      else MatchPath(routes[1..], path)
  }

  /** Built routes keep each pattern's names beside it. */
  lemma BuiltRoutesAligned(templates: seq<string>)
    ensures var routes := BuildRoutes(templates);
            forall i :: 0 <= i < |routes| ==> routes[i].paramNames == CaptureNames(routes[i].pattern)
  {
  }

  /**
   * First match: the result is the template of the earliest route that
   * matches, bound to that route's captures; None when no route matches.
   */
  lemma {:induction false} MatchPathFirst(routes: seq<Route>, path: string)
    requires forall i :: 0 <= i < |routes| ==> routes[i].paramNames == CaptureNames(routes[i].pattern)
    ensures MatchPath(routes, path).None? <==> forall i :: 0 <= i < |routes| ==> !MatchesPattern(routes[i].pattern, path)
    ensures MatchPath(routes, path).Some? ==>
      exists i :: && 0 <= i < |routes|
                  && MatchesPattern(routes[i].pattern, path)
                  && (forall j :: 0 <= j < i ==> !MatchesPattern(routes[j].pattern, path))
                  && MatchPath(routes, path).value
                     == (routes[i].template,
                         InsertAll(routes[i].paramNames, Captured(routes[i].pattern, Paths.Split(path[1..])), map[]))
    decreases |routes|
  {
    if |routes| > 0 && !MatchesPattern(routes[0].pattern, path) {
      var rest := routes[1..];
      MatchPathFirst(rest, path);
      assert forall i :: 1 <= i < |routes| ==> routes[i] == rest[i - 1];
      if MatchPath(rest, path).Some? {
        var i :| && 0 <= i < |rest|
                 && MatchesPattern(rest[i].pattern, path)
                 && (forall j :: 0 <= j < i ==> !MatchesPattern(rest[j].pattern, path))
                 && MatchPath(rest, path).value
                    == (rest[i].template, InsertAll(rest[i].paramNames, Captured(rest[i].pattern, Paths.Split(path[1..])), map[]));
        assert routes[i + 1] == rest[i];
      }
    }
  }

  /** For a path spelled from slash-free pieces, matching compares the pieces part by part. */
  lemma MatchesPathOf(p: Pattern, segs: seq<string>)
    requires |segs| >= 1
    requires forall i :: 0 <= i < |segs| ==> Paths.Slash !in segs[i]
    ensures MatchesPattern(p, Paths.PathOf(segs)) <==>
            |segs| == |p| && forall i :: 0 <= i < |p| ==> PieceMatches(p[i], segs[i])
  {
    PiecesOfPath(segs);
  }
}
