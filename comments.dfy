/** Comment normalisation: tidyComment, parseComment and extractComments (parse.go:430-477). */
module Comments {
  import opened Wrappers
  import opened GoStrings
  import opened HclAst
  import opened TfDocs

  // The comment without its markers: a leading `//`, or a leading `/*` together with a
  // trailing `*/`; the first two steps of tidyComment.
  function StripMarkers(comment: string): string
  {
    var result := if HasPrefix(comment, "//") then TrimPrefix(comment, "//") else comment;
    if HasPrefix(comment, "/*") then TrimSuffix(TrimPrefix(result, "/*"), "*/") else result
  }

  /** Removing the markers keeps the contiguous piece after a two-character marker, or the whole comment. */
  lemma StripMarkersInfix(comment: string)
    ensures InfixAt(StripMarkers(comment), comment, if HasPrefix(comment, "//") || HasPrefix(comment, "/*") then 2 else 0)
    ensures HasPrefix(comment, "//") ==> StripMarkers(comment) == comment[2..]
    ensures !HasPrefix(comment, "//") && !HasPrefix(comment, "/*") ==> StripMarkers(comment) == comment
  {
    if HasPrefix(comment, "/*") {
      assert !HasPrefix(comment, "//") by { assert comment[1] == '*'; }
      var t := TrimPrefix(comment, "/*");
      InfixTransitive(TrimSuffix(t, "*/"), t, comment, 0, 2);
    }
  }

  // tidyComment: the comment without its markers and without the white space around what is left.
  function TidyComment(comment: string): (r: string)
    ensures NoOuterSpace(r)
  {
    TrimSpace(StripMarkers(comment))
  }

  /** Tidying keeps one contiguous piece of the comment, so line breaks inside it survive. */
  lemma TidyCommentInfix(comment: string)
    ensures exists i :: InfixAt(TidyComment(comment), comment, i)
  {
    var m := StripMarkers(comment);
    var r := TrimSpace(m);
    TrimSpaceTrims(m);
    StripMarkersInfix(comment);
    var i :| TrimmedAt(m, r, i);
    var offset := if HasPrefix(comment, "//") || HasPrefix(comment, "/*") then 2 else 0;
    InfixTransitive(r, m, comment, i, offset);
    assert InfixAt(TidyComment(comment), comment, i + offset);
  }

  /** A line comment loses its marker and the white space around its text. */
  lemma TidyLineComment(text: string)
    ensures TidyComment("//" + text) == TrimSpace(text)
  {
    var c := "//" + text;
    assert HasPrefix(c, "//") && c[1] == '/';
    assert c[2..] == text;
  }

  /** A block comment loses both markers and the white space around its text. */
  lemma TidyBlockComment(text: string)
    ensures TidyComment("/*" + text + "*/") == TrimSpace(text)
  {
    StripBlockMarkers(text);
  }

  lemma StripBlockMarkers(text: string)
    ensures StripMarkers("/*" + text + "*/") == text
  {
    var c := "/*" + text + "*/";
    assert !HasPrefix(c, "//") by { assert c[1] == '*'; }
    assert HasPrefix(c, "/*") by { assert c[..2] == "/*"; }
    var t := TrimPrefix(c, "/*");
    assert t == text + "*/" by { assert c[2..] == text + "*/"; }
    assert HasSuffix(t, "*/") by { assert t[|t| - 2..] == "*/"; }
    assert TrimSuffix(t, "*/") == text by { assert t[..|t| - 2] == text; }
  }

  // Neither marker is touched unless the comment starts with `//` or `/*`.
  lemma TidyUnmarked(comment: string)
    requires !HasPrefix(comment, "//") && !HasPrefix(comment, "/*")
    ensures TidyComment(comment) == TrimSpace(comment)
  {
  }

  /** A line comment is its text, whatever white space surrounds it. */
  lemma TidyLineExact(a: string, x: string, b: string)
    requires AllSpace(a) && AllSpace(b) && NoOuterSpace(x)
    ensures TidyComment("//" + (a + x + b)) == x
  {
    TidyLineComment(a + x + b);
    TrimSpaceExact(a, x, b);
  }

  /** A block comment is its text, whatever white space surrounds it; line breaks inside the text are kept. */
  lemma TidyBlockExact(a: string, x: string, b: string)
    requires AllSpace(a) && AllSpace(b) && NoOuterSpace(x)
    ensures TidyComment("/*" + (a + x + b) + "*/") == x
  {
    TidyBlockComment(a + x + b);
    TrimSpaceExact(a, x, b);
  }

  /** TestTidyComment: "// Trailing space   " becomes "Trailing space". */
  lemma TidyTrailingSpace()
    ensures TidyComment("// Trailing space   ") == "Trailing space"
  {
    assert "// Trailing space   " == "//" + (" " + "Trailing space" + "   ");
    TidyLineExact(" ", "Trailing space", "   ");
  }

  /** The entries of a comment group, each tidied, in order. */
  function Tidied(list: seq<string>): (r: seq<string>)
    ensures |r| == |list|
  {
    seq(|list|, k requires 0 <= k < |list| => TidyComment(list[k]))
  }

  /** The Comment parseComment builds for a group. */
  function CommentOfGroup(g: CommentGroup): Comment {
    Comment(Join(Tidied(g.list), " "), g.col, g.line)
  }

  /** A group of one comment reads as that comment tidied. */
  lemma GroupOfOne(c: string, line: int, col: int)
    ensures CommentOfGroup(CommentGroup([c], line, col)) == Comment(TidyComment(c), col, line)
  {
  }

  /** A group of two comments reads as both tidied, with one space between them. */
  lemma GroupOfTwo(c1: string, c2: string, line: int, col: int)
    ensures CommentOfGroup(CommentGroup([c1, c2], line, col)).text == TidyComment(c1) + " " + TidyComment(c2)
  {
    var g := CommentGroup([c1, c2], line, col);
    var ts := Tidied(g.list);
    assert ts == [TidyComment(c1), TidyComment(c2)];
    assert ts[1..] == [TidyComment(c2)];
    assert CommentOfGroup(g).text == Join(ts, " ");
  }

  /** Two line comments "// x" and "// y" read "x y" (TestParseComment: "Hello World"). */
  lemma GroupOfTwoLines(x: string, y: string, line: int, col: int)
    requires NoOuterSpace(x) && NoOuterSpace(y)
    ensures CommentOfGroup(CommentGroup(["// " + x, "// " + y], line, col)) == Comment(x + " " + y, col, line)
  {
    assert "// " + x == "//" + (" " + x + "");
    assert "// " + y == "//" + (" " + y + "");
    TidyLineExact(" ", x, "");
    TidyLineExact(" ", y, "");
    GroupOfTwo("// " + x, "// " + y, line, col);
  }

  /**
   * parseComment: an error and the zero Comment for a nil group; otherwise the group's entries
   * tidied and joined by single spaces, at the group's position.
   */
  method ParseComment(rawComment: Option<CommentGroup>) returns (comment: Comment, err: Option<ParseError>)
    ensures rawComment.None? ==> comment == ZeroComment && err == Some(NilComment)
    ensures rawComment.Some? ==> err == None
    ensures rawComment.Some? ==> comment.line == rawComment.value.line && comment.col == rawComment.value.col
    ensures rawComment.Some? ==> comment.text == Join(Tidied(rawComment.value.list), " ")
  {
    if rawComment.None? {
      return ZeroComment, Some(NilComment);
    }
    var comments := TidyEntries(rawComment.value.list);
    var commentString := Join(comments, " ");
    comment := Comment(commentString, rawComment.value.col, rawComment.value.line);
    err := None;
  }

  /** The loop of parseComment over the group's entries (parse.go:464-468). */
  method TidyEntries(list: seq<string>) returns (comments: seq<string>)
    ensures comments == Tidied(list)
  {
    comments := [];
    for i := 0 to |list|
      invariant |comments| == i
      invariant forall j :: 0 <= j < i ==> comments[j] == TidyComment(list[j])
    {
      var commentText := TidyComment(list[i]);
      comments := comments + [commentText];
    }
  }

  /** The comments extractComments collects: one per non-nil group, in order. */
  function GroupComments(groups: seq<Option<CommentGroup>>): (r: seq<Comment>)
    ensures |r| <= |groups|
  {
    if |groups| == 0 then []
    else
      var rest := GroupComments(groups[..|groups| - 1]);
      match groups[|groups| - 1]
      case None => rest
      case Some(g) => rest + [CommentOfGroup(g)]
  }

  /** Without nil groups, extractComments yields exactly one Comment per group, in order. */
  lemma {:induction false} GroupCommentsOfPresent(groups: seq<Option<CommentGroup>>)
    requires forall k :: 0 <= k < |groups| ==> groups[k].Some?
    ensures |GroupComments(groups)| == |groups|
    ensures forall k :: 0 <= k < |groups| ==> GroupComments(groups)[k] == CommentOfGroup(groups[k].value)
  {
    if |groups| > 0 {
      var front := groups[..|groups| - 1];
      GroupCommentsOfPresent(front);
      var r := GroupComments(groups);
      assert r == GroupComments(front) + [CommentOfGroup(groups[|groups| - 1].value)];
      forall k | 0 <= k < |groups| ensures r[k] == CommentOfGroup(groups[k].value) {
        if k < |groups| - 1 {
          assert groups[k] == front[k];
        }
      }
    }
  }

  /** Nil groups contribute nothing. */
  lemma {:induction false} GroupCommentsSkipNil(groups: seq<Option<CommentGroup>>, more: seq<Option<CommentGroup>>)
    requires forall k :: 0 <= k < |more| ==> more[k].None?
    ensures GroupComments(groups + more) == GroupComments(groups)
  {
    if |more| > 0 {
      var all := groups + more;
      assert all[..|all| - 1] == groups + more[..|more| - 1];
      GroupCommentsSkipNil(groups, more[..|more| - 1]);
    } else {
      assert groups + more == groups;
    }
  }

  /** One more group adds its Comment at the end, or nothing for a nil group. */
  lemma GroupCommentsSnoc(groups: seq<Option<CommentGroup>>, last: Option<CommentGroup>)
    ensures GroupComments(groups + [last]) == GroupComments(groups) + (if last.Some? then [CommentOfGroup(last.value)] else [])
  {
    var all := groups + [last];
    assert all[..|all| - 1] == groups && all[|all| - 1] == last;
  }

  /** Collecting two runs of groups collects each run, in turn. */
  lemma {:induction false} GroupCommentsConcat(a: seq<Option<CommentGroup>>, b: seq<Option<CommentGroup>>)
    ensures GroupComments(a + b) == GroupComments(a) + GroupComments(b)
  {
    if |b| == 0 {
      assert a + b == a;
    } else {
      var front, last := b[..|b| - 1], b[|b| - 1];
      assert b == front + [last];
      assert a + b == (a + front) + [last];
      GroupCommentsConcat(a, front);
      GroupCommentsSnoc(a + front, last);
      GroupCommentsSnoc(front, last);
    }
  }

  /** A nil group anywhere among the others contributes nothing. */
  lemma GroupCommentsSkipNilBetween(a: seq<Option<CommentGroup>>, b: seq<Option<CommentGroup>>)
    ensures GroupComments(a + [None] + b) == GroupComments(a + b)
  {
    GroupCommentsConcat(a + [None], b);
    GroupCommentsConcat(a, [None]);
    GroupCommentsConcat(a, b);
    var nil: seq<Option<CommentGroup>> := [None];
    assert GroupComments(nil) == [] by { assert nil[..0] == []; }
  }

  /** extractComments: the Comment of every non-nil group, in order; nil groups are skipped. */
  method ExtractComments(commentGroup: seq<Option<CommentGroup>>) returns (comments: seq<Comment>)
    ensures comments == GroupComments(commentGroup)
  {
    comments := [];
    for i := 0 to |commentGroup|
      invariant comments == GroupComments(commentGroup[..i])
    {
      var comment, err := ParseComment(commentGroup[i]);
      assert commentGroup[..i + 1][..i] == commentGroup[..i];
      if err.Some? {
        continue;
      }
      comments := comments + [comment];
    }
    assert commentGroup[..|commentGroup|] == commentGroup;
  }
}
