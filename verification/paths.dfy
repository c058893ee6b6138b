/**
 * Path strings as the routers see them: Rust's `split('/')`, the filter that
 * drops empty pieces (loony-router/src/radix.rs:24), and `trim_matches('/')`
 * (loony-router/src/main.rs:24).
 */
module Paths {

  const Slash: char := '/'

  /** `s.split('/')`: the pieces between separators, empty pieces included, so there is always one more piece than separators. */
  function Split(s: string): (r: seq<string>)
    ensures |r| >= 1
    ensures forall i :: 0 <= i < |r| ==> Slash !in r[i]
    decreases |s|
  {
    if |s| == 0 then [""]
    else
      var rest := Split(s[1..]);
      if s[0] == Slash then [""] + rest
      else [[s[0]] + rest[0]] + rest[1..]
  }

  /** `pieces.join("/")`. */
  function Join(pieces: seq<string>): string
    decreases |pieces|
  {
    if |pieces| == 0 then ""
    else if |pieces| == 1 then pieces[0]
    else pieces[0] + [Slash] + Join(pieces[1..])
  }

  /** The pieces that are not empty, in order: `.filter(|s| !s.is_empty())`. */
  function NonEmpty(pieces: seq<string>): (r: seq<string>)
    ensures forall i :: 0 <= i < |r| ==> r[i] != ""
    ensures forall i :: 0 <= i < |r| ==> r[i] in pieces
    ensures |r| <= |pieces|
    decreases |pieces|
  {
    if |pieces| == 0 then []
    else if pieces[0] == "" then NonEmpty(pieces[1..])
    else [pieces[0]] + NonEmpty(pieces[1..])
  }

  /** The segments both tree routers split a path or template into (radix.rs:24, 63; router.rs:22, 61). */
  function Segments(path: string): seq<string> {
    NonEmpty(Split(path))
  }

  /** A segment list a router can be asked about: no segment is empty or contains a slash. */
  predicate ProperSegments(segs: seq<string>) {
    forall i :: 0 <= i < |segs| ==> segs[i] != "" && Slash !in segs[i]
  }

  /** The canonical path spelling a segment list: `/a/b/c`, and `/` for no segments. */
  function PathOf(segs: seq<string>): string {
    [Slash] + Join(segs)
  }

  function TrimStart(s: string): (r: string)
    ensures |r| == 0 || r[0] != Slash
    decreases |s|
  {
    if |s| > 0 && s[0] == Slash then TrimStart(s[1..]) else s
  }

  function TrimEnd(s: string): (r: string)
    ensures |r| == 0 || r[|r| - 1] != Slash
    decreases |s|
  {
    if |s| > 0 && s[|s| - 1] == Slash then TrimEnd(s[..|s| - 1]) else s
  }

  /** `s.trim_matches('/')`. */
  function Trim(s: string): (r: string)
    ensures |r| == 0 || (r[0] != Slash && r[|r| - 1] != Slash)
  {
    var t := TrimStart(s);
    var r := TrimEnd(t);
    assert |r| > 0 ==> r[0] != Slash by {
      TrimEndKeepsStart(t);
    }
    r
  }

  /** Trimming the front removes a run of slashes and nothing else. */
  lemma {:induction false} TrimStartCuts(s: string)
    ensures |TrimStart(s)| <= |s| && TrimStart(s) == s[|s| - |TrimStart(s)|..]
    ensures forall k :: 0 <= k < |s| - |TrimStart(s)| ==> s[k] == Slash
    decreases |s|
  {
    if |s| > 0 && s[0] == Slash {
      TrimStartCuts(s[1..]);
    }
  }

  /** Trimming the back removes a run of slashes and nothing else. */
  lemma {:induction false} TrimEndCuts(s: string)
    ensures |TrimEnd(s)| <= |s| && TrimEnd(s) == s[..|TrimEnd(s)|]
    ensures forall k :: |TrimEnd(s)| <= k < |s| ==> s[k] == Slash
    decreases |s|
  {
    if |s| > 0 && s[|s| - 1] == Slash {
      TrimEndCuts(s[..|s| - 1]);
    }
  }

  /** Everything of `s` before position `i` and from position `j` on is a slash. */
  predicate SlashesOutside(s: string, i: int, j: int) {
    && 0 <= i <= j <= |s|
    && (forall k :: 0 <= k < i ==> s[k] == Slash)
    && (forall k :: j <= k < |s| ==> s[k] == Slash)
  }

  /** Slashes cut from the back of a suffix are slashes of the whole text. */
  lemma SuffixSlashes(s: string, i: nat, t: string, n: nat)
    requires i <= |s| && t == s[i..] && n <= |t|
    requires forall k :: n <= k < |t| ==> t[k] == Slash
    ensures forall k :: i + n <= k < |s| ==> s[k] == Slash
  {
    forall k | i + n <= k < |s|
      ensures s[k] == Slash
    {
      assert s[k] == t[k - i];
    }
  }

  /**
   * `trim_matches('/')` keeps the text between the first and the last
   * character that is not a slash: the result is a slice of the input,
   * everything cut before and after it is a slash, and it neither starts
   * nor ends with one. These facts pin the result down.
   */
  lemma TrimCutsOuterSlashes(s: string)
    ensures var r := Trim(s);
      && (|r| == 0 || (r[0] != Slash && r[|r| - 1] != Slash))
      && exists i, j :: SlashesOutside(s, i, j) && r == s[i..j]
  {
    var t := TrimStart(s);
    var r := TrimEnd(t);
    assert Trim(s) == r;
    TrimStartCuts(s);
    TrimEndCuts(t);
    var i := |s| - |t|;
    var j := i + |r|;
    SuffixSlashes(s, i, t, |r|);
    assert r == s[i..j];
    assert SlashesOutside(s, i, j);
  }

  lemma {:induction false} TrimEndKeepsStart(s: string)
    requires |s| == 0 || s[0] != Slash
    ensures |TrimEnd(s)| == 0 || TrimEnd(s)[0] == s[0]
    decreases |s|
  {
    if |s| > 0 && s[|s| - 1] == Slash {
      var s' := s[..|s| - 1];
      assert |s'| == 0 || s'[0] == s[0];
      TrimEndKeepsStart(s');
    }
  }

  lemma {:induction false} TrimStartAppend(x: string, y: string)
    ensures TrimStart(x + y) == if TrimStart(x) == "" then TrimStart(y) else TrimStart(x) + y
    decreases |x|
  {
    if |x| == 0 {
      assert x + y == y;
    } else if x[0] == Slash {
      assert (x + y)[1..] == x[1..] + y;
      TrimStartAppend(x[1..], y);
    }
  }

  /** Extra slashes around a string make no difference to `trim_matches('/')`. */
  lemma TrimWrap(t: string)
    ensures Trim([Slash] + t + [Slash]) == Trim(t)
  {
    var w := [Slash] + t + [Slash];
    assert w[1..] == t + [Slash];
    TrimStartAppend(t, [Slash]);
    if TrimStart(t) == "" {
      assert TrimStart([Slash]) == TrimStart([Slash][1..]);
    } else {
      var u := TrimStart(t) + [Slash];
      assert u[..|u| - 1] == TrimStart(t);
    }
  }

  // ---------------------------------------------------------------------
  // Split and Join are inverse

  lemma {:induction false} JoinSplit(s: string)
    ensures Join(Split(s)) == s
    decreases |s|
  {
    if |s| > 0 {
      var rest := Split(s[1..]);
      JoinSplit(s[1..]);
      if s[0] == Slash {
        assert Split(s) == [""] + rest;
        assert ([""] + rest)[1..] == rest;
      } else {
        var r := Split(s);
        assert r == [[s[0]] + rest[0]] + rest[1..];
        if |rest| > 1 {
          assert r[1..] == rest[1..];
        }
      }
    }
  }

  /** Splitting a slash-free prefix in front of `t` glues it to the first piece of `t`. */
  lemma {:induction false} SplitSlashFreePrefix(a: string, t: string)
    requires Slash !in a
    ensures Split(a + t) == [a + Split(t)[0]] + Split(t)[1..]
    decreases |a|
  {
    if |a| > 0 {
      var a' := a[1..];
      assert (a + t)[1..] == a' + t;
      SplitSlashFreePrefix(a', t);
      assert [a[0]] + (a' + Split(t)[0]) == a + Split(t)[0];
    } else {
      assert a + t == t;
      assert a + Split(t)[0] == Split(t)[0];
      assert [Split(t)[0]] + Split(t)[1..] == Split(t);
    }
  }

  lemma {:induction false} SplitJoin(pieces: seq<string>)
    requires |pieces| >= 1
    requires forall i :: 0 <= i < |pieces| ==> Slash !in pieces[i]
    ensures Split(Join(pieces)) == pieces
    decreases |pieces|
  {
    if |pieces| == 1 {
      SplitSlashFreePrefix(pieces[0], "");
      assert pieces[0] + "" == pieces[0];
    } else {
      var rest := pieces[1..];
      var j := Join(rest);
      SplitJoin(rest);
      assert Join(pieces) == pieces[0] + ([Slash] + j);
      SplitSlashFreePrefix(pieces[0], [Slash] + j);
      assert ([Slash] + j)[1..] == j;
      assert Split([Slash] + j) == [""] + rest;
      assert pieces[0] + "" == pieces[0];
      assert [pieces[0]] + rest == pieces;
    }
  }

  lemma {:induction false} JoinEnds(pieces: seq<string>)
    requires |pieces| >= 1
    requires forall i :: 0 <= i < |pieces| ==> pieces[i] != ""
    ensures |Join(pieces)| > 0
    ensures Join(pieces)[0] == pieces[0][0]
    ensures Join(pieces)[|Join(pieces)| - 1] == pieces[|pieces| - 1][|pieces[|pieces| - 1]| - 1]
    decreases |pieces|
  {
    if |pieces| > 1 {
      JoinEnds(pieces[1..]);
    }
  }

  /** The canonical path of a non-empty proper segment list trims to the segments joined. */
  lemma TrimPathOf(segs: seq<string>)
    requires |segs| >= 1 && ProperSegments(segs)
    ensures Trim(PathOf(segs)) == Join(segs)
  {
    var j := Join(segs);
    JoinEnds(segs);
    assert segs[0][0] in segs[0];
    var last := segs[|segs| - 1];
    assert last[|last| - 1] in last;
    assert TrimStart(PathOf(segs)) == TrimStart(j) by {
      assert PathOf(segs)[1..] == j;
    }
    assert TrimStart(j) == j;
    assert TrimEnd(j) == j;
  }

  // ---------------------------------------------------------------------
  // Segments

  lemma {:induction false} NonEmptyAppend(a: seq<string>, b: seq<string>)
    ensures NonEmpty(a + b) == NonEmpty(a) + NonEmpty(b)
    decreases |a|
  {
    if |a| > 0 {
      assert (a + b)[1..] == a[1..] + b;
      NonEmptyAppend(a[1..], b);
    } else {
      assert a + b == b;
    }
  }

  lemma {:induction false} NonEmptyOfNonEmpty(pieces: seq<string>)
    requires forall i :: 0 <= i < |pieces| ==> pieces[i] != ""
    ensures NonEmpty(pieces) == pieces
    decreases |pieces|
  {
    if |pieces| > 0 {
      NonEmptyOfNonEmpty(pieces[1..]);
    }
  }

  lemma SplitLeadingSlash(s: string)
    ensures Split([Slash] + s) == [""] + Split(s)
  {
    assert ([Slash] + s)[1..] == s;
  }

  lemma {:induction false} SplitTrailingSlash(s: string)
    ensures Split(s + [Slash]) == Split(s) + [""]
    decreases |s|
  {
    if |s| == 0 {
      assert s + [Slash] == [Slash] + "";
      SplitLeadingSlash("");
    } else {
      assert (s + [Slash])[1..] == s[1..] + [Slash];
      SplitTrailingSlash(s[1..]);
      var rest := Split(s[1..]);
      var rest' := Split(s[1..] + [Slash]);
      assert rest' == rest + [""];
      if s[0] != Slash {
        assert rest'[0] == rest[0];
        assert rest'[1..] == rest[1..] + [""];
      }
    }
  }

  /** Every segment of a path is non-empty and slash-free. */
  lemma SegmentsAreProper(path: string)
    ensures ProperSegments(Segments(path))
  {
    var segs := Segments(path);
    forall i | 0 <= i < |segs|
      ensures segs[i] != "" && Slash !in segs[i]
    {
      var pieces := Split(path);
      assert segs[i] in pieces;
      var j :| 0 <= j < |pieces| && pieces[j] == segs[i];
    }
  }

  /** Segments and PathOf are inverse on proper segment lists: `/a/b` splits back into `[a, b]`, `/` into `[]`. */
  lemma {:induction false} SegmentsOfPathOf(segs: seq<string>)
    requires ProperSegments(segs)
    ensures Segments(PathOf(segs)) == segs
  {
    SplitLeadingSlash(Join(segs));
    if |segs| == 0 {
      assert Split(PathOf(segs)) == ["", ""];
      assert NonEmpty(["", ""]) == NonEmpty([""]);
    } else {
      SplitJoin(segs);
      NonEmptyAppend([""], segs);
      NonEmptyOfNonEmpty(segs);
    }
  }

  lemma {:induction false} SegmentsTrimStart(s: string)
    ensures Segments(TrimStart(s)) == Segments(s)
    decreases |s|
  {
    if |s| > 0 && s[0] == Slash {
      SegmentsTrimStart(s[1..]);
      assert s == [Slash] + s[1..];
      SplitLeadingSlash(s[1..]);
      NonEmptyAppend([""], Split(s[1..]));
    }
  }

  lemma {:induction false} SegmentsTrimEnd(s: string)
    ensures Segments(TrimEnd(s)) == Segments(s)
    decreases |s|
  {
    if |s| > 0 && s[|s| - 1] == Slash {
      var s' := s[..|s| - 1];
      SegmentsTrimEnd(s');
      assert s == s' + [Slash];
      SplitTrailingSlash(s');
      NonEmptyAppend(Split(s'), [""]);
    }
  }

  /** Trimming the outer slashes does not change a path's segments. */
  lemma SegmentsTrim(s: string)
    ensures Segments(Trim(s)) == Segments(s)
  {
    SegmentsTrimStart(s);
    SegmentsTrimEnd(TrimStart(s));
  }

  lemma RootSpellingsEmpty()
    ensures Segments("") == []
    ensures Segments("/") == []
    ensures Segments("//") == []
  {
    SegmentsOfPathOf([]);
    assert "//" == [Slash] + [Slash];
    SplitLeadingSlash("/");
    assert Split("/") == ["", ""];
    assert Segments("//") == NonEmpty(["", "", ""]);
  }

  lemma InnerEmptyPieceDropped()
    ensures Segments("/a//b/") == ["a", "b"]
  {
    var pieces := ["", "a", "", "b", ""];
    assert Join(pieces) == "/a//b/" by {
      assert pieces[1..][1..][1..][1..] == [""];
      assert pieces[1..][1..][1..] == ["b", ""];
      assert pieces[1..][1..] == ["", "b", ""];
      assert pieces[1..] == ["a", "", "b", ""];
    }
    SplitJoin(pieces);
  }

  lemma PlainPathSpelling()
    ensures PathOf(["a", "b"]) == "/a/b"
  {
    assert ["a", "b"][1..] == ["b"];
  }

  lemma PlainPathSegments()
    ensures Segments("/a/b") == ["a", "b"]
  {
    assert ProperSegments(["a", "b"]);
    SegmentsOfPathOf(["a", "b"]);
    PlainPathSpelling();
  }

  /** Empty pieces are dropped: `""`, `/` and `//` all address the root, and `/a//b/` is `/a/b`. */
  lemma EmptyPiecesDropped()
    ensures Segments("") == []
    ensures Segments("/") == []
    ensures Segments("//") == []
    ensures Segments("/a//b/") == Segments("/a/b") == ["a", "b"]
  {
    RootSpellingsEmpty();
    InnerEmptyPieceDropped();
    PlainPathSegments();
  }
}
