/**
 * How an assistant message is split into plain-text parts and `<think>`
 * parts before rendering (components/MessageBubble.tsx, `processedContent`).
 *
 * The source scans with the regular expression /<think>([\s\S]*?)<\/think>/gi
 * and `exec`. A match starts at the first opening tag at or after `lastIndex`
 * and ends with the first closing tag after that opening tag; the tags match
 * with ASCII case folding (a non-Unicode regular expression never folds a
 * non-ASCII character onto an ASCII one).
 */
module Segmenter {
  import opened Common
  import opened Text
  import opened Types

  const OpenTag: string := "<think>"
  const CloseTag: string := "</think>"

  /** The escaped spellings the fallback branch looks for (backslash, `u003C`, ...). */
  const EscapedOpen: string := "\\u003Cthink\\u003E"
  const EscapedClose: string := "\\u003C/think\\u003E"

  /** A rendered piece of a message: Markdown text, or a collapsible thought. */
  datatype Part = Text(content: string) | Think(content: string)

  /** One regular-expression match: the opening tag at `start`, the closing tag at `close`. */
  datatype Span = Span(start: nat, close: nat)

  /** `tag` (lower case) occurs at `i` in `s` when compared case-insensitively. */
  predicate TagAt(s: string, i: nat, tag: string) {
    i + |tag| <= |s| && Lower(s[i..i + |tag|]) == tag
  }

  /** The first index at or after `from` where `tag` occurs case-insensitively. */
  function FindTag(s: string, tag: string, from: nat): (r: Option<nat>)
    decreases |s| - from
    ensures r.Some? ==> from <= r.value && r.value + |tag| <= |s|
  {
    if |s| < from + |tag| then None
    else if TagAt(s, from, tag) then Some(from)
    else FindTag(s, tag, from + 1)
  }

  /** `FindTag` finds the first occurrence, and finds one whenever there is one. */
  lemma {:induction false} FindTagFirst(s: string, tag: string, from: nat)
    decreases |s| - from
    ensures FindTag(s, tag, from).Some? ==>
      && TagAt(s, FindTag(s, tag, from).value, tag)
      && forall j :: from <= j < FindTag(s, tag, from).value ==> !TagAt(s, j, tag)
    ensures FindTag(s, tag, from).None? ==> forall j :: from <= j ==> !TagAt(s, j, tag)
  {
    if |s| >= from + |tag| && !TagAt(s, from, tag) {
      FindTagFirst(s, tag, from + 1);
    }
  }

  /**
   * What the global think-tag regular expression finds from index `from`: the
   * first opening tag at or after `from`, closed by the first closing tag after
   * it. When that opening tag has no closing tag, no later one has either.
   */
  function NextMatch(s: string, from: nat): (r: Option<Span>)
    decreases |s| - from
    ensures r.Some? ==> from <= r.value.start && r.value.start + |OpenTag| <= r.value.close
                        && r.value.close + |CloseTag| <= |s|
  {
    if |s| < from + |OpenTag| then None
    else if TagAt(s, from, OpenTag) then
      match FindTag(s, CloseTag, from + |OpenTag|)
      case None => None
      case Some(q) => Some(Span(from, q))
    else NextMatch(s, from + 1)
  }

  /** A case-insensitive `<think>...</think>` pair starts at `p` and closes at `q`. */
  predicate PairAt(s: string, p: nat, q: nat) {
    TagAt(s, p, OpenTag) && p + |OpenTag| <= q && TagAt(s, q, CloseTag)
  }

  /** A match is a tag pair, no opening tag precedes it and no closing tag interrupts it. */
  lemma {:induction false} NextMatchIsPair(s: string, from: nat)
    decreases |s| - from
    ensures NextMatch(s, from).Some? ==>
      var m := NextMatch(s, from).value;
      && PairAt(s, m.start, m.close)
      && (forall p :: from <= p < m.start ==> !TagAt(s, p, OpenTag))
      && (forall q :: m.start + |OpenTag| <= q < m.close ==> !TagAt(s, q, CloseTag))
  {
    if |s| >= from + |OpenTag| {
      if TagAt(s, from, OpenTag) {
        FindTagFirst(s, CloseTag, from + |OpenTag|);
      } else {
        NextMatchIsPair(s, from + 1);
      }
    }
  }

  lemma {:induction false} NextMatchNone(s: string, from: nat)
    decreases |s| - from
    ensures NextMatch(s, from).None? <==> forall p, q :: from <= p ==> !PairAt(s, p, q)
  {
    if |s| < from + |OpenTag| {
    } else if TagAt(s, from, OpenTag) {
      var close := FindTag(s, CloseTag, from + |OpenTag|);
      FindTagFirst(s, CloseTag, from + |OpenTag|);
      if close.Some? {
        assert PairAt(s, from, close.value);
      }
    } else {
      NextMatchNone(s, from + 1);
      NextMatchIsPair(s, from + 1);
      if NextMatch(s, from + 1).Some? {
        var m := NextMatch(s, from + 1).value;
        assert PairAt(s, m.start, m.close);
      }
    }
  }

  /**
   * `NextMatch` is the regular expression's leftmost, shortest match: it is a
   * pair, no pair starts earlier, no closing tag comes before its own, and
   * when it finds nothing there is no pair at or after `from` at all.
   */
  lemma NextMatchLeftmostShortest(s: string, from: nat)
    ensures NextMatch(s, from).Some? ==>
      var m := NextMatch(s, from).value;
      && PairAt(s, m.start, m.close)
      && (forall p, q :: from <= p < m.start ==> !PairAt(s, p, q))
      && (forall q :: m.start + |OpenTag| <= q < m.close ==> !TagAt(s, q, CloseTag))
    ensures NextMatch(s, from).None? <==> forall p, q :: from <= p ==> !PairAt(s, p, q)
  {
    NextMatchIsPair(s, from);
    NextMatchNone(s, from);
  }

  /**
   * The parts the scan produces from index `from` on: the text before each
   * match (only when non-empty), the match's inner text, and the non-empty
   * remainder after the last match.
   */
  function Segments(s: string, from: nat): seq<Part>
    requires from <= |s|
    decreases |s| - from
  {
    match NextMatch(s, from)
    case None => if from < |s| then [Text(s[from..])] else []
    case Some(m) =>
      var rest := [Think(s[m.start + |OpenTag|..m.close])] + Segments(s, m.close + |CloseTag|);
      if m.start > from then [Text(s[from..m.start])] + rest else rest
  }

  /** The scan at a match: the text before it, its inner text, then the rest. */
  lemma SegmentsAtMatch(s: string, from: nat, m: Span)
    requires from <= |s| && NextMatch(s, from) == Some(m)
    ensures m.start > from ==>
              Segments(s, from) == [Text(s[from..m.start])]
                                   + ([Think(s[m.start + |OpenTag|..m.close])] + Segments(s, m.close + |CloseTag|))
    ensures m.start == from ==>
              Segments(s, from) == [Think(s[m.start + |OpenTag|..m.close])] + Segments(s, m.close + |CloseTag|)
  {
  }

  lemma AppendAssoc<T>(a: seq<T>, b: seq<T>, c: seq<T>)
    ensures a + (b + c) == (a + b) + c
  {
  }

  /** The scan past the last match: the remainder, when there is one. */
  lemma SegmentsAtEnd(s: string, from: nat)
    requires from <= |s| && NextMatch(s, from).None?
    ensures Segments(s, from) == if from < |s| then [Text(s[from..])] else []
  {
  }

  /** `processedContent` as the source computes it, escape branch included. */
  function ProcessedContent(message: Message): Option<seq<Part>> {
    if message.role == User then None
    else
      var parts := Segments(message.content, 0);
      if |parts| == 0 && Contains(message.content, EscapedOpen) then
        Some([Text(ReplaceAll(ReplaceAll(message.content, EscapedOpen, OpenTag), EscapedClose, CloseTag))])
      else if |parts| > 0 then Some(parts)
      else Some([Text(message.content)])
  }

  /**
   * The `exec` loop of `processedContent`: pushes the text before each match
   * (when non-empty) and the match's inner text, then the non-empty rest.
   */
  method ScanParts(content: string) returns (parts: seq<Part>)
    ensures parts == Segments(content, 0)
  {
    parts := [];
    var lastIndex: nat := 0;
    var found := NextMatch(content, lastIndex);
    assert parts + Segments(content, lastIndex) == Segments(content, 0);
    while found.Some?
      invariant lastIndex <= |content|
      invariant found == NextMatch(content, lastIndex)
      invariant Segments(content, 0) == parts + Segments(content, lastIndex)
      decreases |content| - lastIndex
    {
      var m := found.value;
      var next := m.close + |CloseTag|;
      ghost var think := [Think(content[m.start + |OpenTag|..m.close])];
      SegmentsAtMatch(content, lastIndex, m);
      if m.start > lastIndex {
        AppendAssoc(parts, [Text(content[lastIndex..m.start])], think + Segments(content, next));
        parts := parts + [Text(content[lastIndex..m.start])];
      }
      AppendAssoc(parts, think, Segments(content, next));
      parts := parts + [Think(content[m.start + |OpenTag|..m.close])];
      lastIndex := next;
      found := NextMatch(content, lastIndex);
    }
    SegmentsAtEnd(content, lastIndex);
    if lastIndex < |content| {
      parts := parts + [Text(content[lastIndex..])];
    }
  }

  /**
   * The `useMemo` body of MessageBubble: user messages are not segmented;
   * otherwise the scan's parts, with the escape branch and the whole-content
   * fallback of the source.
   */
  method ProcessContent(message: Message) returns (result: Option<seq<Part>>)
    ensures result == ProcessedContent(message)
    ensures result.None? <==> message.role == User
  {
    if message.role == User {
      return None;
    }
    var content := message.content;
    var parts := ScanParts(content);
    if |parts| == 0 && Contains(content, EscapedOpen) {
      var decoded := ReplaceAll(ReplaceAll(content, EscapedOpen, OpenTag), EscapedClose, CloseTag);
      return Some([Text(decoded)]);
    }
    result := if |parts| > 0 then Some(parts) else Some([Text(content)]);
  }

  /** The scan yields nothing exactly when nothing is left to scan. */
  lemma SegmentsEmptyIff(s: string, from: nat)
    requires from <= |s|
    ensures Segments(s, from) == [] <==> from == |s|
  {
    match NextMatch(s, from)
    case None => SegmentsAtEnd(s, from);
    case Some(m) => SegmentsAtMatch(s, from, m);
  }

  /**
   * The escape branch (`parts.length === 0` and the content holds the escaped
   * opening tag) never fires: the scan yields no part only for empty content,
   * which holds no escaped tag. So the result is the scan's parts, or the whole
   * content as one text part when it is empty.
   */
  lemma EscapeBranchUnreachable(message: Message)
    requires message.role == Ai
    ensures |Segments(message.content, 0)| == 0 ==> !Contains(message.content, EscapedOpen)
    ensures ProcessedContent(message)
              == Some(if message.content == [] then [Text(message.content)] else Segments(message.content, 0))
  {
    SegmentsEmptyIff(message.content, 0);
  }

  /** User messages are not segmented; every other message is. */
  lemma UserMessagesNotSegmented(message: Message)
    ensures ProcessedContent(message).None? <==> message.role == User
  {
  }

  /** The scan yields a thought part exactly when the remaining text holds a tag pair. */
  lemma {:induction false} SegmentsHaveThinkIff(s: string, from: nat)
    requires from <= |s|
    ensures (exists i :: 0 <= i < |Segments(s, from)| && Segments(s, from)[i].Think?)
              <==> NextMatch(s, from).Some?
  {
    match NextMatch(s, from)
    case None =>
      SegmentsAtEnd(s, from);
    case Some(m) =>
      SegmentsAtMatch(s, from, m);
      var r := Segments(s, from);
      if m.start > from {
        assert r[1].Think?;
      } else {
        assert r[0].Think?;
      }
  }

  /**
   * An assistant message holding no case-insensitive `<think>...</think>` pair
   * is shown as one text part equal to the whole content (the empty content
   * included), and a message holding a pair is not.
   */
  lemma NoPairYieldsWholeText(message: Message)
    requires message.role == Ai
    ensures (ProcessedContent(message) == Some([Text(message.content)]))
              <==> forall p, q :: !PairAt(message.content, p, q)
  {
    var s := message.content;
    EscapeBranchUnreachable(message);
    NextMatchNone(s, 0);
    SegmentsHaveThinkIff(s, 0);
    if NextMatch(s, 0).None? {
      SegmentsAtEnd(s, 0);
    } else {
      assert Segments(s, 0) != [Text(s)] by {
        var i :| 0 <= i < |Segments(s, 0)| && Segments(s, 0)[i].Think?;
      }
    }
  }

  /** The tags a match consumed, spelled as they appear in the content. */
  datatype TagPair = TagPair(open: string, close: string)

  /** The tags of every match from `from` on, in scan order. */
  function MatchedTags(s: string, from: nat): seq<TagPair>
    requires from <= |s|
    decreases |s| - from
  {
    match NextMatch(s, from)
    case None => []
    case Some(m) =>
      [TagPair(s[m.start..m.start + |OpenTag|], s[m.close..m.close + |CloseTag|])]
      + MatchedTags(s, m.close + |CloseTag|)
  }

  /**
   * The text parts concatenated with every thought wrapped in its tags, taken
   * in order from `tags` (plain lower-case tags once `tags` runs out).
   */
  function Rebuild(parts: seq<Part>, tags: seq<TagPair>): string
    decreases |parts|
  {
    if parts == [] then []
    else match parts[0]
      case Text(c) => c + Rebuild(parts[1..], tags)
      case Think(c) =>
        var t := if tags == [] then TagPair(OpenTag, CloseTag) else tags[0];
        t.open + c + t.close + Rebuild(parts[1..], if tags == [] then [] else tags[1..])
  }

  lemma RebuildText(c: string, rest: seq<Part>, tags: seq<TagPair>)
    ensures Rebuild([Text(c)] + rest, tags) == c + Rebuild(rest, tags)
  {
    assert ([Text(c)] + rest)[1..] == rest;
  }

  lemma RebuildThink(c: string, rest: seq<Part>, t: TagPair, tags: seq<TagPair>)
    ensures Rebuild([Think(c)] + rest, [t] + tags) == t.open + c + t.close + Rebuild(rest, tags)
  {
    assert ([Think(c)] + rest)[1..] == rest;
    assert ([t] + tags)[1..] == tags;
  }

  /** Cutting `s[a..]` at `b`. */
  lemma SliceCut(s: string, a: nat, b: nat)
    requires a <= b <= |s|
    ensures s[a..] == s[a..b] + s[b..]
  {
  }

  /** Cutting `s[a..]` at `b`, `c`, `d` and `e`. */
  lemma SliceFive(s: string, a: nat, b: nat, c: nat, d: nat, e: nat)
    requires a <= b <= c <= d <= e <= |s|
    ensures s[a..] == s[a..b] + (s[b..c] + s[c..d] + s[d..e] + s[e..])
  {
    SliceCut(s, a, b);
    SliceCut(s, b, c);
    SliceCut(s, c, d);
    SliceCut(s, d, e);
    var p, q, r, u, v := s[a..b], s[b..c], s[c..d], s[d..e], s[e..];
    assert q + (r + (u + v)) == q + r + u + v;
  }

  lemma MatchIsPair(s: string, from: nat, m: Span)
    requires NextMatch(s, from) == Some(m)
    ensures TagAt(s, m.start, OpenTag) && TagAt(s, m.close, CloseTag)
  {
    NextMatchIsPair(s, from);
  }

  /** `t` spells `<think>` and `</think>` up to case. */
  predicate Tagged(t: TagPair) {
    Lower(t.open) == OpenTag && Lower(t.close) == CloseTag
  }

  /** The tags at a match: the ones it consumed, then those of the rest. */
  lemma MatchedTagsAtMatch(s: string, from: nat, m: Span)
    requires from <= |s| && NextMatch(s, from) == Some(m)
    ensures MatchedTags(s, from)
              == [TagPair(s[m.start..m.start + |OpenTag|], s[m.close..m.close + |CloseTag|])]
                 + MatchedTags(s, m.close + |CloseTag|)
  {
  }

  /** Every tag a match consumed is `<think>` or `</think>` up to case. */
  lemma {:induction false} MatchedTagsAreTags(s: string, from: nat)
    requires from <= |s|
    decreases |s| - from
    ensures forall i :: 0 <= i < |MatchedTags(s, from)| ==> Tagged(MatchedTags(s, from)[i])
  {
    if NextMatch(s, from).Some? {
      var m := NextMatch(s, from).value;
      var next := m.close + |CloseTag|;
      MatchIsPair(s, from, m);
      MatchedTagsAreTags(s, next);
      MatchedTagsAtMatch(s, from, m);
      TaggedCons(TagPair(s[m.start..m.start + |OpenTag|], s[m.close..next]), MatchedTags(s, next));
    }
  }

  lemma TaggedCons(t: TagPair, rest: seq<TagPair>)
    requires Tagged(t) && forall i :: 0 <= i < |rest| ==> Tagged(rest[i])
    ensures forall i :: 0 <= i < |[t] + rest| ==> Tagged(([t] + rest)[i])
  {
  }

  /**
   * Reconstruction: the parts, with every thought wrapped again in the tags
   * its match consumed, give back the scanned text exactly and in order.
   */
  lemma {:induction false} Reconstruct(s: string, from: nat)
    requires from <= |s|
    decreases |s| - from
    ensures Rebuild(Segments(s, from), MatchedTags(s, from)) == s[from..]
  {
    match NextMatch(s, from)
    case None =>
      SegmentsAtEnd(s, from);
      if from < |s| {
        RebuildText(s[from..], [], []);
      }
    case Some(m) =>
      var next := m.close + |CloseTag|;
      Reconstruct(s, next);
      SegmentsAtMatch(s, from, m);
      MatchedTagsAtMatch(s, from, m);
      var t := TagPair(s[m.start..m.start + |OpenTag|], s[m.close..next]);
      var inner := s[m.start + |OpenTag|..m.close];
      var rest := Segments(s, next);
      var tags := MatchedTags(s, next);
      RebuildThink(inner, rest, t, tags);
      SliceFive(s, from, m.start, m.start + |OpenTag|, m.close, next);
      if m.start > from {
        RebuildText(s[from..m.start], [Think(inner)] + rest, [t] + tags);
      } else {
        assert s[from..m.start] == [];
      }
  }

  /** No text part is empty, and a text part is always followed by a thought or ends the list. */
  predicate Tidy(parts: seq<Part>) {
    && (forall i :: 0 <= i < |parts| && parts[i].Text? ==> parts[i].content != [])
    && (forall i :: 0 <= i < |parts| - 1 && parts[i].Text? ==> parts[i + 1].Think?)
  }

  lemma TidyThink(c: string, rest: seq<Part>)
    requires Tidy(rest)
    ensures Tidy([Think(c)] + rest)
  {
    var r := [Think(c)] + rest;
    forall i | 0 <= i < |r| - 1 && r[i].Text?
      ensures r[i + 1].Think?
    {
      assert r[i] == rest[i - 1] && r[i + 1] == rest[i];
    }
  }

  lemma TidyText(c: string, rest: seq<Part>)
    requires c != [] && Tidy(rest) && rest != [] && rest[0].Think?
    ensures Tidy([Text(c)] + rest)
  {
    var r := [Text(c)] + rest;
    forall i | 0 <= i < |r| - 1 && r[i].Text?
      ensures r[i + 1].Think?
    {
      if i > 0 {
        assert r[i] == rest[i - 1] && r[i + 1] == rest[i];
      }
    }
  }

  /**
   * No text part the scan yields is empty, and two text parts are never
   * adjacent: consecutive matches give consecutive thoughts.
   */
  lemma {:induction false} SegmentsTidy(s: string, from: nat)
    requires from <= |s|
    decreases |s| - from
    ensures Tidy(Segments(s, from))
  {
    if NextMatch(s, from).None? {
      SegmentsAtEnd(s, from);
    } else {
      var m := NextMatch(s, from).value;
      var next := m.close + |CloseTag|;
      var inner := s[m.start + |OpenTag|..m.close];
      SegmentsTidy(s, next);
      SegmentsAtMatch(s, from, m);
      TidyThink(inner, Segments(s, next));
      if m.start > from {
        TidyText(s[from..m.start], [Think(inner)] + Segments(s, next));
      }
    }
  }

  /** `t` holds no closing tag in any case. */
  ghost predicate NoCloseTag(t: string) {
    forall j: nat :: !TagAt(t, j, CloseTag)
  }

  /** No thought holds a closing tag in any case. */
  ghost predicate ThoughtsUnclosed(parts: seq<Part>) {
    forall i :: 0 <= i < |parts| && parts[i].Think? ==> NoCloseTag(parts[i].content)
  }

  lemma UnclosedCons(p: Part, rest: seq<Part>)
    requires p.Think? ==> NoCloseTag(p.content)
    requires ThoughtsUnclosed(rest)
    ensures ThoughtsUnclosed([p] + rest)
  {
    var r := [p] + rest;
    forall i | 0 <= i < |r| && r[i].Think?
      ensures NoCloseTag(r[i].content)
    {
      if i > 0 {
        assert r[i] == rest[i - 1];
      }
    }
  }

  /** The text between a match's tags holds no closing tag: the match is the shortest one. */
  lemma InnerUnclosed(s: string, from: nat, m: Span)
    requires NextMatch(s, from) == Some(m)
    ensures NoCloseTag(s[m.start + |OpenTag|..m.close])
  {
    NextMatchIsPair(s, from);
    var a := m.start + |OpenTag|;
    var inner := s[a..m.close];
    forall j: nat
      ensures !TagAt(inner, j, CloseTag)
    {
      if j + |CloseTag| <= |inner| {
        TagAtSlice(s, a, m.close, j, CloseTag);
      }
    }
  }

  lemma TagAtSlice(s: string, a: nat, b: nat, j: nat, tag: string)
    requires a <= b <= |s| && j + |tag| <= b - a
    ensures TagAt(s[a..b], j, tag) <==> TagAt(s, a + j, tag)
  {
    var u, v := s[a..b][j..j + |tag|], s[a + j..a + j + |tag|];
    assert forall k :: 0 <= k < |tag| ==> u[k] == v[k];
    assert u == v;
  }

  /** Matching does not nest: no thought the scan yields holds `</think>` in any case. */
  lemma {:induction false} ThinkHasNoCloseTag(s: string, from: nat)
    requires from <= |s|
    decreases |s| - from
    ensures ThoughtsUnclosed(Segments(s, from))
  {
    if NextMatch(s, from).None? {
      SegmentsAtEnd(s, from);
    } else {
      var m := NextMatch(s, from).value;
      var next := m.close + |CloseTag|;
      var inner := s[m.start + |OpenTag|..m.close];
      ThinkHasNoCloseTag(s, next);
      SegmentsAtMatch(s, from, m);
      InnerUnclosed(s, from, m);
      UnclosedCons(Think(inner), Segments(s, next));
      if m.start > from {
        UnclosedCons(Text(s[from..m.start]), [Think(inner)] + Segments(s, next));
      }
    }
  }

  /**
   * The converse of `NextMatchIsPair`: a pair with no opening tag before it
   * and no closing tag inside it is the match the scan finds.
   */
  lemma {:induction false} NextMatchAt(s: string, from: nat, p: nat, q: nat)
    requires from <= p && PairAt(s, p, q)
    requires forall i :: from <= i < p ==> !TagAt(s, i, OpenTag)
    requires forall i :: p + |OpenTag| <= i < q ==> !TagAt(s, i, CloseTag)
    decreases p - from
    ensures NextMatch(s, from) == Some(Span(p, q))
  {
    if from < p {
      NextMatchAt(s, from + 1, p, q);
    } else {
      FindTagFirst(s, CloseTag, p + |OpenTag|);
    }
  }
  /** A tag occurs where every character folds to the tag's character. */
  lemma TagAtChars(s: string, i: nat, tag: string)
    requires i + |tag| <= |s|
    requires forall k :: 0 <= k < |tag| ==> LowerChar(s[i + k]) == tag[k]
    ensures TagAt(s, i, tag)
  {
    var w := s[i..i + |tag|];
    LowerAt(w);
    assert forall k :: 0 <= k < |tag| ==> Lower(w)[k] == tag[k];
  }

  /** No tag occurs where one character does not fold to the tag's character. */
  lemma NoTagAt(s: string, i: nat, tag: string, k: nat)
    requires k < |tag| && i + k < |s| && LowerChar(s[i + k]) != tag[k]
    ensures !TagAt(s, i, tag)
  {
    if i + |tag| <= |s| {
      var w := s[i..i + |tag|];
      LowerAt(w);
      assert Lower(w)[k] == LowerChar(s[i + k]);
    }
  }

  /** No tag starts at a character other than `<`, so the search passes over it. */
  lemma {:induction false} FindTagSkip(s: string, tag: string, from: nat, stop: nat)
    requires tag != [] && tag[0] == '<' && from <= stop <= |s|
    requires forall j :: from <= j < stop ==> s[j] != '<'
    decreases stop - from
    ensures FindTag(s, tag, from) == FindTag(s, tag, stop)
  {
    if from < stop {
      NoTagAt(s, from, tag, 0);
      FindTagSkip(s, tag, from + 1, stop);
    }
  }

  /** No match starts at a character other than `<`, so the scan passes over it. */
  lemma {:induction false} NextMatchSkip(s: string, from: nat, stop: nat)
    requires from <= stop <= |s|
    requires forall j :: from <= j < stop ==> s[j] != '<'
    decreases stop - from
    ensures NextMatch(s, from) == NextMatch(s, stop)
  {
    if from < stop {
      NoTagAt(s, from, OpenTag, 0);
      NextMatchSkip(s, from + 1, stop);
    }
  }
}
