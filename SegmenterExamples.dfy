/**
 * Worked inputs for the `<think>` scan of components/MessageBubble.tsx.
 *
 * Each input is written as the concatenation of its tags and the pieces
 * between them; its pieces are located first, and the scan is then followed
 * piece by piece.
 */
module SegmenterExamples {
  import opened Common
  import opened Text
  import opened Types
  import opened Segmenter

  lemma OpenTagLowerCase()
    ensures Lower(OpenTag) == OpenTag
  {
    LowerAt(OpenTag);
  }

  lemma CloseTagLowerCase()
    ensures Lower(CloseTag) == CloseTag
  {
    LowerAt(CloseTag);
  }

  /** A piece of `s` that folds to `tag` is an occurrence of `tag`. */
  lemma TagAtPiece(s: string, i: nat, w: string, tag: string)
    requires i + |w| <= |s| && s[i..i + |w|] == w && Lower(w) == tag
    ensures TagAt(s, i, tag)
  {
    assert |w| == |tag|;
    assert s[i..i + |tag|] == w;
  }

  /** The opening tag, spelled in lower case, at `i`. */
  lemma OpenTagAt(s: string, i: nat)
    requires i + |OpenTag| <= |s| && s[i..i + |OpenTag|] == OpenTag
    ensures TagAt(s, i, OpenTag)
  {
    OpenTagLowerCase();
    TagAtPiece(s, i, OpenTag, OpenTag);
  }

  /** The closing tag, spelled in lower case, at `i`. */
  lemma CloseTagAt(s: string, i: nat)
    requires i + |CloseTag| <= |s| && s[i..i + |CloseTag|] == CloseTag
    ensures TagAt(s, i, CloseTag)
  {
    CloseTagLowerCase();
    TagAtPiece(s, i, CloseTag, CloseTag);
  }

  /** The search for a tag passes over a piece of `s` holding no `<`. */
  lemma FindTagPastPiece(s: string, tag: string, from: nat, w: string)
    requires tag != [] && tag[0] == '<'
    requires from + |w| <= |s| && s[from..from + |w|] == w && '<' !in w
    ensures FindTag(s, tag, from) == FindTag(s, tag, from + |w|)
  {
    forall j | from <= j < from + |w|
      ensures s[j] != '<'
    {
      assert s[j] == w[j - from];
    }
    FindTagSkip(s, tag, from, from + |w|);
  }

  /** The scan for a match passes over a piece of `s` holding no `<`. */
  lemma NextMatchPastPiece(s: string, from: nat, w: string)
    requires from + |w| <= |s| && s[from..from + |w|] == w && '<' !in w
    ensures NextMatch(s, from) == NextMatch(s, from + |w|)
  {
    forall j | from <= j < from + |w|
      ensures s[j] != '<'
    {
      assert s[j] == w[j - from];
    }
    NextMatchSkip(s, from, from + |w|);
  }

  lemma PlainPairPieces(s: string)
    requires s == "A" + OpenTag + "B" + CloseTag + "C"
    ensures |s| == 18 && s[0..1] == "A" && s[1..8] == OpenTag && s[8..9] == "B"
    ensures s[9..17] == CloseTag && s[17..] == "C"
  {
  }

  lemma PlainPairMatch(s: string)
    requires |s| == 18 && s[0..1] == "A" && s[1..8] == OpenTag && s[8..9] == "B"
    requires s[9..17] == CloseTag
    ensures NextMatch(s, 0) == Some(Span(1, 9))
  {
    NextMatchPastPiece(s, 0, "A");
    OpenTagAt(s, 1);
    FindTagPastPiece(s, CloseTag, 8, "B");
    CloseTagAt(s, 9);
  }

  /** `A<think>B</think>C` is scanned as text A, thought B, text C. */
  lemma PlainPair(s: string)
    requires s == "A" + OpenTag + "B" + CloseTag + "C"
    ensures Segments(s, 0) == [Text("A"), Think("B"), Text("C")]
  {
    PlainPairPieces(s);
    PlainPairMatch(s);
    SegmentsAtMatch(s, 0, Span(1, 9));
    assert NextMatch(s, 17) == None;
    SegmentsAtEnd(s, 17);
  }

  lemma NestedPieces(s: string)
    requires s == OpenTag + "a" + OpenTag + "b" + CloseTag + "c" + CloseTag
    ensures |s| == 33 && s[0..7] == OpenTag && s[7..8] == "a" && s[9] == 't'
    ensures s[9..16] == "think>b" && s[16..24] == CloseTag
    ensures s[24..25] == "c" && s[26] == '/' && s[26..27] == "/"
    ensures s[7..16] == "a" + OpenTag + "b" && s[24..] == "c" + CloseTag
  {
  }

  lemma NestedInnerClose(s: string)
    requires |s| == 33 && s[9..16] == "think>b" && s[16..24] == CloseTag
    ensures FindTag(s, CloseTag, 9) == Some(16)
  {
    FindTagPastPiece(s, CloseTag, 9, "think>b");
    CloseTagAt(s, 16);
  }

  lemma NestedClose(s: string)
    requires |s| == 33 && s[7..8] == "a" && s[9] == 't'
    requires s[9..16] == "think>b" && s[16..24] == CloseTag
    ensures FindTag(s, CloseTag, 7) == Some(16)
  {
    NestedInnerClose(s);
    FindTagPastPiece(s, CloseTag, 7, "a");
    NoTagAt(s, 8, CloseTag, 1);
  }

  lemma NestedMatch(s: string)
    requires |s| == 33 && s[0..7] == OpenTag && s[7..8] == "a" && s[9] == 't'
    requires s[9..16] == "think>b" && s[16..24] == CloseTag
    ensures NextMatch(s, 0) == Some(Span(0, 16))
  {
    OpenTagAt(s, 0);
    NestedClose(s);
  }

  lemma NestedRest(s: string)
    requires |s| == 33 && s[24..25] == "c" && s[26] == '/' && s[26..27] == "/"
    ensures NextMatch(s, 24) == None
  {
    NextMatchPastPiece(s, 24, "c");
    NoTagAt(s, 25, OpenTag, 1);
    NextMatchPastPiece(s, 26, "/");
  }

  /**
   * Matching is shortest and does not nest: `<think>a<think>b</think>c</think>`
   * is scanned as thought `a<think>b`, then text `c</think>`.
   */
  lemma NestedTags(s: string)
    requires s == OpenTag + "a" + OpenTag + "b" + CloseTag + "c" + CloseTag
    ensures Segments(s, 0) == [Think("a" + OpenTag + "b"), Text("c" + CloseTag)]
  {
    NestedPieces(s);
    NestedMatch(s);
    NestedRest(s);
    SegmentsAtMatch(s, 0, Span(0, 16));
    SegmentsAtEnd(s, 24);
  }

  lemma AdjacentPieces(s: string)
    requires s == OpenTag + "a" + CloseTag + OpenTag + "b" + CloseTag
    ensures |s| == 32 && s[0..7] == OpenTag && s[7..8] == "a" && s[8..16] == CloseTag
    ensures s[16..23] == OpenTag && s[23..24] == "b" && s[24..32] == CloseTag
  {
  }

  lemma AdjacentFirst(s: string)
    requires |s| == 32 && s[0..7] == OpenTag && s[7..8] == "a" && s[8..16] == CloseTag
    ensures NextMatch(s, 0) == Some(Span(0, 8))
  {
    OpenTagAt(s, 0);
    FindTagPastPiece(s, CloseTag, 7, "a");
    CloseTagAt(s, 8);
  }

  lemma AdjacentSecond(s: string)
    requires |s| == 32 && s[16..23] == OpenTag && s[23..24] == "b" && s[24..32] == CloseTag
    ensures NextMatch(s, 16) == Some(Span(16, 24))
  {
    OpenTagAt(s, 16);
    FindTagPastPiece(s, CloseTag, 23, "b");
    CloseTagAt(s, 24);
  }

  /**
   * Adjacent pairs `<think>a</think><think>b</think>` give adjacent thoughts
   * with no text between them.
   */
  lemma AdjacentPairs(s: string)
    requires s == OpenTag + "a" + CloseTag + OpenTag + "b" + CloseTag
    ensures Segments(s, 0) == [Think("a"), Think("b")]
  {
    AdjacentPieces(s);
    AdjacentFirst(s);
    AdjacentSecond(s);
    SegmentsAtMatch(s, 0, Span(0, 8));
    SegmentsAtMatch(s, 16, Span(16, 24));
    assert NextMatch(s, 32) == None;
    SegmentsAtEnd(s, 32);
  }

  lemma MixedCasePieces(s: string)
    requires s == "<THINK>" + "x" + "</Think>"
    ensures |s| == 16 && s[0..7] == "<THINK>" && s[7..8] == "x" && s[8..16] == "</Think>"
  {
  }

  lemma UpperOpenTag()
    ensures Lower("<THINK>") == OpenTag
  {
    LowerAt("<THINK>");
  }

  lemma MixedCloseTag()
    ensures Lower("</Think>") == CloseTag
  {
    LowerAt("</Think>");
  }

  lemma MixedCaseClose(s: string)
    requires |s| == 16 && s[7..8] == "x" && s[8..16] == "</Think>"
    ensures FindTag(s, CloseTag, 7) == Some(8)
  {
    MixedCloseTag();
    FindTagPastPiece(s, CloseTag, 7, "x");
    TagAtPiece(s, 8, "</Think>", CloseTag);
  }

  lemma MixedCaseMatch(s: string)
    requires |s| == 16 && s[0..7] == "<THINK>" && s[7..8] == "x" && s[8..16] == "</Think>"
    ensures NextMatch(s, 0) == Some(Span(0, 8))
  {
    UpperOpenTag();
    TagAtPiece(s, 0, "<THINK>", OpenTag);
    MixedCaseClose(s);
  }

  /** Tags match in any case: `<THINK>x</Think>` is one thought. */
  lemma MixedCaseTags(s: string)
    requires s == "<THINK>" + "x" + "</Think>"
    ensures Segments(s, 0) == [Think("x")]
  {
    MixedCasePieces(s);
    MixedCaseMatch(s);
    SegmentsAtMatch(s, 0, Span(0, 8));
    assert NextMatch(s, 16) == None;
    SegmentsAtEnd(s, 16);
  }

  lemma UnclosedPieces(s: string)
    requires s == "a" + OpenTag + "b"
    ensures |s| == 9 && s[0..1] == "a" && s[1..8] == OpenTag
  {
  }

  /**
   * An opening tag with no closing tag after it, as in `a<think>b`, stays
   * verbatim in the text.
   */
  lemma UnclosedTag(s: string)
    requires s == "a" + OpenTag + "b"
    ensures Segments(s, 0) == [Text(s)]
  {
    UnclosedPieces(s);
    NextMatchPastPiece(s, 0, "a");
    OpenTagAt(s, 1);
    assert FindTag(s, CloseTag, 8) == None;
    SegmentsAtEnd(s, 0);
    assert s[0..] == s;
  }
}
