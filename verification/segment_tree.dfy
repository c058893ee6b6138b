/**
 * The segment tree shared by both tree routers (loony-router/src/radix.rs and
 * loony-router/src/router.rs): each node has static children keyed by a
 * literal segment, at most one named parameter child, and an optional payload
 * (a service index in radix.rs, a handler in router.rs).
 *
 * Insertion is identical in the two files. Lookup differs only in what a node
 * answers when neither child matches the remaining segments: radix.rs falls
 * back to the node's own payload, router.rs answers None. `FindInNode` takes
 * that choice as its `fallback` flag.
 */
module SegmentTree {
  import opened Wrappers
  import Paths

  /** One segment of a route template: a literal, or a parameter named by what follows the sigil. */
  datatype Seg = Lit(text: string) | Param(name: string)

  const ParamSigil: char := ':'

  /** A segment starting with `:` is a parameter; its name is the segment with exactly one `:` removed. */
  function ParseSegment(s: string): (g: Seg)
    ensures g.Param? <==> |s| > 0 && s[0] == ParamSigil
    ensures RenderSegment(g) == s
  {
    if |s| > 0 && s[0] == ParamSigil then Param(s[1..]) else Lit(s)
  }

  function RenderSegment(g: Seg): string {
    match g
    case Lit(text) => text
    case Param(name) => [ParamSigil] + name
  }

  /** The template segments as tree edges. */
  function Key(segments: seq<string>): (key: seq<Seg>)
    ensures |key| == |segments|
  {
    seq(|segments|, i requires 0 <= i < |segments| => ParseSegment(segments[i]))
  }

  function TemplateKey(template: string): seq<Seg> {
    Key(Paths.Segments(template))
  }

  lemma KeyTail(segments: seq<string>)
    requires |segments| > 0
    ensures Key(segments) == [ParseSegment(segments[0])] + Key(segments[1..])
  {
    assert Key(segments)[1..] == Key(segments[1..]);
  }

  datatype Node<T> = Node(statics: map<string, Node<T>>, param: Option<(string, Node<T>)>, payload: Option<T>)

  /** `RadixNode::default()`. */
  function Empty<T>(): Node<T> {
    Node(map[], None, None)
  }

  /** The build-time failure: the `panic!("Conflicting parameter names")`. */
  datatype BuildError = ConflictingParameterNames

  // ---------------------------------------------------------------------
  // Insertion

  /** `add_to_node`: walk or create one node per segment and store the payload at the last one. */
  function AddToNode<T>(node: Node<T>, segments: seq<string>, payload: T): Result<Node<T>, BuildError>
    decreases |segments|
  {
    if |segments| == 0 then Success(node.(payload := Some(payload)))
    else
      var rest := segments[1..];
      match ParseSegment(segments[0])
      case Param(name) =>
        if node.param.Some? && node.param.value.0 != name then Failure(ConflictingParameterNames)
        else
          var child := if node.param.Some? then node.param.value.1 else Empty();
          (match AddToNode(child, rest, payload)
           case Success(c) => Success(node.(param := Some((name, c))))
           case Failure(e) => Failure(e))
      case Lit(text) =>
        var child := if text in node.statics then node.statics[text] else Empty();
        match AddToNode(child, rest, payload)
        case Success(c) => Success(node.(statics := node.statics[text := c]))
        case Failure(e) => Failure(e)
  }

  /** `add_route`: insert a template string. */
  function AddRoute<T>(root: Node<T>, template: string, payload: T): Result<Node<T>, BuildError> {
    AddToNode(root, Paths.Segments(template), payload)
  }

  /** Adding a list of routes in order, stopping at the first conflict. */
  function AddAll<T>(root: Node<T>, routes: seq<(string, T)>): Result<Node<T>, BuildError>
    decreases |routes|
  {
    if |routes| == 0 then Success(root)
    else
      match AddAll(root, routes[..|routes| - 1])
      case Failure(e) => Failure(e)
      case Success(t) => AddRoute(t, routes[|routes| - 1].0, routes[|routes| - 1].1)
  }

  /** Registering one more route after a list that built into `t`. */
  lemma AddAllSnoc<T>(root: Node<T>, routes: seq<(string, T)>, route: (string, T), t: Node<T>)
    requires AddAll(root, routes) == Success(t)
    ensures AddAll(root, routes + [route]) == AddRoute(t, route.0, route.1)
  {
    assert (routes + [route])[..|routes|] == routes;
  }

  // ---------------------------------------------------------------------
  // What a tree stores, addressed by template keys

  /** The child one template segment leads to; a parameter edge only under its own name. */
  function Step<T>(node: Node<T>, g: Seg): Option<Node<T>> {
    match g
    case Lit(text) => if text in node.statics then Some(node.statics[text]) else None
    case Param(name) => if node.param.Some? && node.param.value.0 == name then Some(node.param.value.1) else None
  }

  function Reach<T>(node: Node<T>, key: seq<Seg>): Option<Node<T>>
    decreases |key|
  {
    if |key| == 0 then Some(node)
    else
      match Step(node, key[0])
      case Some(child) => Reach(child, key[1..])
      case None => None
  }

  /** The payload stored for a template key. */
  function At<T>(node: Node<T>, key: seq<Seg>): Option<T> {
    match Reach(node, key)
    case Some(n) => n.payload
    case None => None
  }

  lemma {:induction false} AtEmpty<T>(key: seq<Seg>)
    ensures At(Empty<T>(), key) == None
  {
  }

  lemma AtCons<T>(node: Node<T>, g: Seg, key: seq<Seg>)
    ensures At(node, [g] + key) == match Step(node, g) case Some(c) => At(c, key) case None => None
  {
    assert ([g] + key)[1..] == key;
  }

  /**
   * Adding a route stores its payload at the node its key reaches, overwriting
   * an earlier payload for the same key, and leaves every other key's payload
   * as it was.
   */
  lemma {:induction false} AddToNodeAt<T>(node: Node<T>, segments: seq<string>, payload: T, key: seq<Seg>)
    requires AddToNode(node, segments, payload).Success?
    ensures At(AddToNode(node, segments, payload).value, key)
         == if key == Key(segments) then Some(payload) else At(node, key)
    decreases |segments|
  {
    var node' := AddToNode(node, segments, payload).value;
    if |segments| == 0 {
      assert Key(segments) == [];
      if |key| > 0 {
        assert Step(node', key[0]) == Step(node, key[0]);
      }
    } else if |key| == 0 {
      assert Key(segments) != key;
    } else {
      var rest := segments[1..];
      var g := ParseSegment(segments[0]);
      KeyTail(segments);
      assert key == [key[0]] + key[1..];
      AtCons(node, key[0], key[1..]);
      AtCons(node', key[0], key[1..]);
      match g
      case Param(name) =>
        var child := if node.param.Some? then node.param.value.1 else Empty();
        AddToNodeAt(child, rest, payload, key[1..]);
        if key[0] == Param(name) {
          if node.param.None? {
            AtEmpty<T>(key[1..]);
          }
        } else {
          assert Step(node', key[0]) == Step(node, key[0]);
        }
      case Lit(text) =>
        var child := if text in node.statics then node.statics[text] else Empty();
        AddToNodeAt(child, rest, payload, key[1..]);
        if key[0] == Lit(text) {
          if text !in node.statics {
            AtEmpty<T>(key[1..]);
          }
        } else {
          assert Step(node', key[0]) == Step(node, key[0]);
        }
    }
  }

  /** The payload of the last route in the list whose template has the given key. */
  function LastPayload<T>(routes: seq<(string, T)>, key: seq<Seg>): Option<T>
    decreases |routes|
  {
    if |routes| == 0 then None
    else if TemplateKey(routes[|routes| - 1].0) == key then Some(routes[|routes| - 1].1)
    else LastPayload(routes[..|routes| - 1], key)
  }

  lemma {:induction false} LastPayloadSome<T>(routes: seq<(string, T)>, key: seq<Seg>)
    ensures LastPayload(routes, key).Some? <==> exists i :: 0 <= i < |routes| && TemplateKey(routes[i].0) == key
    decreases |routes|
  {
    if |routes| > 0 {
      var init := routes[..|routes| - 1];
      LastPayloadSome(init, key);
      if exists i :: 0 <= i < |routes| && TemplateKey(routes[i].0) == key {
        var i :| 0 <= i < |routes| && TemplateKey(routes[i].0) == key;
        if i < |routes| - 1 {
          assert init[i] == routes[i];
        }
      }
      if exists i :: 0 <= i < |init| && TemplateKey(init[i].0) == key {
        var i :| 0 <= i < |init| && TemplateKey(init[i].0) == key;
        assert routes[i] == init[i];
      }
    }
  }

  /** Building from an empty tree: every key holds the payload of the last route registered under it (last writer wins). */
  lemma {:induction false} AddAllAt<T>(routes: seq<(string, T)>, key: seq<Seg>)
    requires AddAll(Empty(), routes).Success?
    ensures At(AddAll(Empty(), routes).value, key) == LastPayload(routes, key)
    decreases |routes|
  {
    if |routes| == 0 {
      AtEmpty<T>(key);
    } else {
      var init := routes[..|routes| - 1];
      AddAllAt(init, key);
      var t := AddAll(Empty(), init).value;
      AddToNodeAt(t, Paths.Segments(routes[|routes| - 1].0), routes[|routes| - 1].1, key);
    }
  }

  /** A built tree stores a payload under exactly the keys of the registered templates. */
  lemma AddAllRegistered<T>(routes: seq<(string, T)>, key: seq<Seg>)
    requires AddAll(Empty(), routes).Success?
    ensures At(AddAll(Empty(), routes).value, key).Some?
        <==> exists i :: 0 <= i < |routes| && TemplateKey(routes[i].0) == key
  {
    AddAllAt(routes, key);
    LastPayloadSome(routes, key);
  }

  // ---------------------------------------------------------------------
  // When insertion fails

  /** Position `i` of `key` is a parameter whose node already has a parameter child of another name. */
  ghost predicate ConflictAt<T>(node: Node<T>, key: seq<Seg>, i: nat) {
    && i < |key|
    && key[i].Param?
    && match Reach(node, key[..i])
       case Some(m) => m.param.Some? && m.param.value.0 != key[i].name
       case None => false
  }

  lemma ConflictShift<T>(node: Node<T>, key: seq<Seg>, i: nat)
    requires 1 <= i < |key|
    ensures ConflictAt(node, key, i)
        <==> match Step(node, key[0]) case Some(c) => ConflictAt(c, key[1..], i - 1) case None => false
  {
    assert key[..i][0] == key[0];
    assert key[..i][1..] == key[1..][..i - 1];
  }

  lemma {:induction false} NoConflictInEmpty<T>(key: seq<Seg>, i: nat)
    ensures !ConflictAt(Empty<T>(), key, i)
  {
    if i >= 1 && i < |key| {
      ConflictShift(Empty<T>(), key, i);
    }
  }

  /**
   * Past a first segment without a conflict, the conflicts of a key are
   * those of its tail below the child insertion descends into (a fresh
   * node when there is no edge yet).
   */
  lemma ConflictBelow<T>(node: Node<T>, key: seq<Seg>, child: Node<T>)
    requires |key| > 0 && !ConflictAt(node, key, 0)
    requires Step(node, key[0]).Some? ==> Step(node, key[0]).value == child
    requires Step(node, key[0]).None? ==> child == Empty()
    ensures (exists i: nat :: ConflictAt(node, key, i)) <==> (exists j: nat :: ConflictAt(child, key[1..], j))
  {
    if exists i: nat :: ConflictAt(node, key, i) {
      var i: nat :| ConflictAt(node, key, i);
      ConflictShift(node, key, i);
      assert ConflictAt(child, key[1..], i - 1);
    }
    if exists j: nat :: ConflictAt(child, key[1..], j) {
      var j: nat :| ConflictAt(child, key[1..], j);
      if Step(node, key[0]).None? {
        NoConflictInEmpty<T>(key[1..], j);
      }
      ConflictShift(node, key, j + 1);
      assert ConflictAt(node, key, j + 1);
    }
  }

  /**
   * Insertion fails exactly when some parameter segment of the template meets
   * a node whose existing parameter child has a different name.
   */
  lemma {:induction false} AddFailsIffConflict<T>(node: Node<T>, segments: seq<string>, payload: T)
    ensures AddToNode(node, segments, payload).Failure?
        <==> exists i: nat :: ConflictAt(node, Key(segments), i)
    decreases |segments|
  {
    var key := Key(segments);
    if |segments| > 0 {
      var rest := segments[1..];
      KeyTail(segments);
      assert key[1..] == Key(rest);
      var g := key[0];
      var viaEdge := Step(node, g);
      var child := match g
        case Param(name) => if node.param.Some? then node.param.value.1 else Empty()
        case Lit(text) => if text in node.statics then node.statics[text] else Empty();
      var conflictHere := g.Param? && node.param.Some? && node.param.value.0 != g.name;
      assert ConflictAt(node, key, 0) <==> conflictHere by {
        assert key[..0] == [];
      }
      if !conflictHere {
        AddFailsIffConflict(child, rest, payload);
        ConflictBelow(node, key, child);
      }
    }
  }

  // ---------------------------------------------------------------------
  // Parameter names along tree paths

  /** No parameter name repeats along any path from this node, nor repeats one in `used`. */
  ghost predicate NamesAvoid<T>(node: Node<T>, used: set<string>)
    decreases node
  {
    && (forall text | text in node.statics :: NamesAvoid(node.statics[text], used))
    && (node.param.Some? ==>
          node.param.value.0 !in used && NamesAvoid(node.param.value.1, used + {node.param.value.0}))
  }

  /** The parameter names of a template key are pairwise distinct and avoid `used`. */
  ghost predicate DistinctParams(key: seq<Seg>, used: set<string>)
    decreases |key|
  {
    if |key| == 0 then true
    else
      match key[0]
      case Param(name) => name !in used && DistinctParams(key[1..], used + {name})
      case Lit(_) => DistinctParams(key[1..], used)
  }

  lemma NamesAvoidEmpty<T>(used: set<string>)
    ensures NamesAvoid(Empty<T>(), used)
  {
  }

  lemma {:induction false} AddKeepsNamesAvoid<T>(node: Node<T>, segments: seq<string>, payload: T, used: set<string>)
    requires NamesAvoid(node, used)
    requires DistinctParams(Key(segments), used)
    requires AddToNode(node, segments, payload).Success?
    ensures NamesAvoid(AddToNode(node, segments, payload).value, used)
    decreases |segments|
  {
    if |segments| > 0 {
      var rest := segments[1..];
      KeyTail(segments);
      var node' := AddToNode(node, segments, payload).value;
      match ParseSegment(segments[0])
      case Param(name) =>
        var child := if node.param.Some? then node.param.value.1 else Empty();
        NamesAvoidEmpty<T>(used + {name});
        AddKeepsNamesAvoid(child, rest, payload, used + {name});
      case Lit(text) =>
        var child := if text in node.statics then node.statics[text] else Empty();
        NamesAvoidEmpty<T>(used);
        AddKeepsNamesAvoid(child, rest, payload, used);
        assert forall t | t in node'.statics :: NamesAvoid(node'.statics[t], used);
    }
  }

  /** A tree built from templates that each repeat no parameter name repeats none along any path. */
  lemma {:induction false} AddAllNamesAvoid<T>(routes: seq<(string, T)>)
    requires forall i :: 0 <= i < |routes| ==> DistinctParams(TemplateKey(routes[i].0), {})
    requires AddAll(Empty(), routes).Success?
    ensures NamesAvoid(AddAll(Empty(), routes).value, {})
    decreases |routes|
  {
    if |routes| == 0 {
      NamesAvoidEmpty<T>({});
    } else {
      var init := routes[..|routes| - 1];
      assert forall i :: 0 <= i < |init| ==> init[i] == routes[i];
      AddAllNamesAvoid(init);
      var t := AddAll(Empty(), init).value;
      AddKeepsNamesAvoid(t, Paths.Segments(routes[|routes| - 1].0), routes[|routes| - 1].1, {});
    }
  }

  // ---------------------------------------------------------------------
  // Lookup

  type Params = map<string, string>

  /**
   * `find_in_node`: try the static child for the first segment, then the
   * parameter child with the segment bound to its name (the binding is
   * removed again when that branch fails), then, in fallback mode only, the
   * node's own payload. The parameter map is threaded through exactly as the
   * `&mut HashMap` is.
   */
  function FindInNode<T>(node: Node<T>, segments: seq<string>, params: Params, fallback: bool): (r: (Option<T>, Params))
    ensures fallback && node.payload.Some? ==> r.0.Some?
    decreases |segments|
  {
    if |segments| == 0 then (node.payload, params)
    else
      var segment := segments[0];
      var rest := segments[1..];
      var (viaStatic, afterStatic) :=
        if segment in node.statics then FindInNode(node.statics[segment], rest, params, fallback)
        else (None, params);
      if viaStatic.Some? then (viaStatic, afterStatic)
      else if node.param.Some? then
        var (name, child) := node.param.value;
        var (viaParam, afterParam) := FindInNode(child, rest, afterStatic[name := segment], fallback);
        if viaParam.Some? then (viaParam, afterParam)
        else (if fallback then node.payload else None, afterParam - {name})
      else (if fallback then node.payload else None, afterStatic)
  }

  /** A template segment accepts a path segment: a literal only itself, a parameter anything. */
  predicate SegMatches(g: Seg, segment: string) {
    match g
    case Lit(text) => text == segment
    case Param(_) => true
  }

  /** The key matches the first |key| path segments. */
  predicate PrefixMatches(key: seq<Seg>, segments: seq<string>) {
    |key| <= |segments| && forall i :: 0 <= i < |key| ==> SegMatches(key[i], segments[i])
  }

  /** The bindings a successful walk along `key` adds to `params`, in path order. */
  function Bind(params: Params, key: seq<Seg>, segments: seq<string>): Params
    requires |key| <= |segments|
    decreases |key|
  {
    if |key| == 0 then params
    else
      var params' := if key[0].Param? then params[key[0].name := segments[0]] else params;
      Bind(params', key[1..], segments[1..])
  }

  /** What a successful lookup promises: a stored key that matches the path (all of it unless falling back) and the bindings along it. */
  ghost predicate Explains<T>(node: Node<T>, segments: seq<string>, params: Params, fallback: bool, key: seq<Seg>) {
    var r := FindInNode(node, segments, params, fallback);
    && At(node, key) == r.0
    && PrefixMatches(key, segments)
    && (!fallback ==> |key| == |segments|)
    && (NamesAvoid(node, params.Keys) ==> r.1 == Bind(params, key, segments))
  }

  /**
   * A miss leaves the parameter map as it was on entry, provided no name
   * repeats along the explored paths: every binding made is removed again.
   */
  lemma {:induction false} FindMissRestores<T>(node: Node<T>, segments: seq<string>, params: Params, fallback: bool)
    requires NamesAvoid(node, params.Keys)
    requires FindInNode(node, segments, params, fallback).0.None?
    ensures FindInNode(node, segments, params, fallback).1 == params
    decreases |segments|
  {
    if |segments| > 0 {
      var segment := segments[0];
      var rest := segments[1..];
      if segment in node.statics {
        FindMissRestores(node.statics[segment], rest, params, fallback);
      }
      if node.param.Some? {
        var (name, child) := node.param.value;
        var params' := params[name := segment];
        assert params'.Keys == params.Keys + {name};
        FindMissRestores(child, rest, params', fallback);
        assert params' - {name} == params;
      }
    }
  }

  lemma BindCons(params: Params, g: Seg, key: seq<Seg>, segments: seq<string>)
    requires |segments| > 0 && |key| < |segments|
    ensures Bind(params, [g] + key, segments)
         == Bind(if g.Param? then params[g.name := segments[0]] else params, key, segments[1..])
  {
    assert ([g] + key)[1..] == key;
  }

  /**
   * Soundness: a payload found for a path is stored under a key that matches
   * the path, all of it in strict mode; and, when no parameter name repeats
   * along the tree's paths, the returned map holds exactly the bindings along
   * that key.
   */
  lemma {:induction false} FindSound<T>(node: Node<T>, segments: seq<string>, params: Params, fallback: bool)
    requires FindInNode(node, segments, params, fallback).0.Some?
    ensures exists key :: Explains(node, segments, params, fallback, key)
    decreases |segments|, 2
  {
    if |segments| == 0 {
      assert Explains(node, segments, params, fallback, []);
    } else {
      var segment := segments[0];
      if segment in node.statics && FindInNode(node.statics[segment], segments[1..], params, fallback).0.Some? {
        FindSoundStatic(node, segments, params, fallback);
      } else {
        FindSoundParam(node, segments, params, fallback);
      }
    }
  }

  /** The static branch found the payload. */
  lemma {:induction false} FindSoundStatic<T>(node: Node<T>, segments: seq<string>, params: Params, fallback: bool)
    requires |segments| > 0 && segments[0] in node.statics
    requires FindInNode(node.statics[segments[0]], segments[1..], params, fallback).0.Some?
    ensures exists key :: Explains(node, segments, params, fallback, key)
    decreases |segments|, 0
  {
    var segment := segments[0];
    var rest := segments[1..];
    var child := node.statics[segment];
    FindSound(child, rest, params, fallback);
    var key' :| Explains(child, rest, params, fallback, key');
    var key := [Lit(segment)] + key';
    AtCons(node, Lit(segment), key');
    BindCons(params, Lit(segment), key', segments);
    assert NamesAvoid(node, params.Keys) ==> NamesAvoid(child, params.Keys);
    assert Explains(node, segments, params, fallback, key);
  }

  /** The static branch missed: the parameter branch or the node's own payload answers. */
  lemma {:induction false} FindSoundParam<T>(node: Node<T>, segments: seq<string>, params: Params, fallback: bool)
    requires |segments| > 0
    requires segments[0] in node.statics ==> FindInNode(node.statics[segments[0]], segments[1..], params, fallback).0.None?
    requires FindInNode(node, segments, params, fallback).0.Some?
    ensures exists key :: Explains(node, segments, params, fallback, key)
    decreases |segments|, 1
  {
    var segment := segments[0];
    var rest := segments[1..];
    var afterStatic := if segment in node.statics then FindInNode(node.statics[segment], rest, params, fallback).1 else params;
    if segment in node.statics && NamesAvoid(node, params.Keys) {
      FindMissRestores(node.statics[segment], rest, params, fallback);
    }
    assert NamesAvoid(node, params.Keys) ==> afterStatic == params;
    if node.param.Some? {
      var (name, child) := node.param.value;
      if FindInNode(child, rest, afterStatic[name := segment], fallback).0.Some? {
        FindSoundViaParam(node, segments, params, fallback, afterStatic);
      } else {
        var params' := afterStatic[name := segment];
        if NamesAvoid(node, params.Keys) {
          assert params'.Keys == params.Keys + {name};
          FindMissRestores(child, rest, params', fallback);
          assert params' - {name} == params;
        }
        assert Explains(node, segments, params, fallback, []);
      }
    } else {
      assert Explains(node, segments, params, fallback, []);
    }
  }

  /** The parameter branch found the payload, starting from the bindings the static branch left. */
  lemma {:induction false} FindSoundViaParam<T>(node: Node<T>, segments: seq<string>, params: Params, fallback: bool, afterStatic: Params)
    requires |segments| > 0 && node.param.Some?
    requires segments[0] in node.statics ==> FindInNode(node.statics[segments[0]], segments[1..], params, fallback).0.None?
    requires afterStatic == if segments[0] in node.statics then FindInNode(node.statics[segments[0]], segments[1..], params, fallback).1 else params
    requires NamesAvoid(node, params.Keys) ==> afterStatic == params
    requires FindInNode(node.param.value.1, segments[1..], afterStatic[node.param.value.0 := segments[0]], fallback).0.Some?
    ensures exists key :: Explains(node, segments, params, fallback, key)
    decreases |segments|, 0
  {
    var segment := segments[0];
    var rest := segments[1..];
    var (name, child) := node.param.value;
    var params' := afterStatic[name := segment];
    FindSound(child, rest, params', fallback);
    var key' :| Explains(child, rest, params', fallback, key');
    var key := [Param(name)] + key';
    AtCons(node, Param(name), key');
    BindCons(params, Param(name), key', segments);
    if NamesAvoid(node, params.Keys) {
      assert params'.Keys == params.Keys + {name};
    }
    assert Explains(node, segments, params, fallback, key);
  }

  /**
   * Completeness: when a stored key matches the path (all of it in strict
   * mode), lookup finds a payload, whatever the incoming bindings; a failed
   * static branch backtracks into the parameter branch.
   */
  lemma {:induction false} FindComplete<T>(node: Node<T>, segments: seq<string>, params: Params, fallback: bool, key: seq<Seg>)
    requires At(node, key).Some?
    requires PrefixMatches(key, segments)
    requires !fallback ==> |key| == |segments|
    ensures FindInNode(node, segments, params, fallback).0.Some?
    decreases |segments|
  {
    if |key| > 0 {
      var segment := segments[0];
      var rest := segments[1..];
      assert key == [key[0]] + key[1..];
      AtCons(node, key[0], key[1..]);
      var child := Step(node, key[0]).value;
      assert PrefixMatches(key[1..], rest);
      match key[0]
      case Lit(text) =>
        FindComplete(child, rest, params, fallback, key[1..]);
      case Param(name) =>
        var (viaStatic, afterStatic) :=
          if segment in node.statics then FindInNode(node.statics[segment], rest, params, fallback)
          else (None, params);
        FindComplete(child, rest, afterStatic[name := segment], fallback, key[1..]);
    }
  }

  /** Lookup succeeds exactly when some stored key matches the path (all of it in strict mode). */
  lemma FindSomeIff<T>(node: Node<T>, segments: seq<string>, params: Params, fallback: bool)
    ensures FindInNode(node, segments, params, fallback).0.Some?
        <==> exists key :: At(node, key).Some? && PrefixMatches(key, segments) && (!fallback ==> |key| == |segments|)
  {
    if FindInNode(node, segments, params, fallback).0.Some? {
      FindSound(node, segments, params, fallback);
      var key :| Explains(node, segments, params, fallback, key);
    }
    if exists key :: At(node, key).Some? && PrefixMatches(key, segments) && (!fallback ==> |key| == |segments|) {
      var key :| At(node, key).Some? && PrefixMatches(key, segments) && (!fallback ==> |key| == |segments|);
      FindComplete(node, segments, params, fallback, key);
    }
  }
}
