/**
 * The sidebar's list of conversations (components/Sidebar.tsx): the sessions
 * whose title contains the search term, ignoring ASCII case, most recently
 * modified first. `Array.prototype.sort` is stable, so sessions modified at
 * the same instant keep their stored order; the sort is modelled as a stable
 * insertion sort on values.
 */
module Sidebar {
  import opened Types
  import opened Text
  import opened Seqs

  /** The search filter: the lower-cased title contains the lower-cased term. */
  function Matches(term: string): ChatSession -> bool {
    (s: ChatSession) => Contains(Lower(s.title), Lower(term))
  }

  /** The sessions last modified at instant `k`: the sort's equivalence classes. */
  function ModifiedAt(k: int): ChatSession -> bool {
    (s: ChatSession) => s.lastModified == k
  }

  /** Most recent first. */
  ghost predicate NewestFirst(s: seq<ChatSession>) {
    forall i, j :: 0 <= i < j < |s| ==> s[i].lastModified >= s[j].lastModified
  }

  /**
   * Places `x` in front of the first session no newer than it, so `x` ends up
   * ahead of every session that ties with it.
   */
  function Insert(x: ChatSession, t: seq<ChatSession>): (r: seq<ChatSession>)
    ensures multiset(r) == multiset(t) + multiset{x}
    ensures |r| == |t| + 1
  {
    if t == [] then [x]
    else if x.lastModified >= t[0].lastModified then [x] + t
    else
      assert t == [t[0]] + t[1..];
      [t[0]] + Insert(x, t[1..])
  }

  /** A stable sort, newest `lastModified` first. */
  function SortByRecency(s: seq<ChatSession>): (r: seq<ChatSession>)
    ensures multiset(r) == multiset(s)
    ensures |r| == |s|
  {
    if s == [] then []
    else
      assert s == [s[0]] + s[1..];
      Insert(s[0], SortByRecency(s[1..]))
  }

  /** What the sidebar lists for a given search term: stored sessions whose title matches it. */
  function FilteredSessions(sessions: seq<ChatSession>, term: string): (r: seq<ChatSession>)
    ensures multiset(r) <= multiset(sessions)
    ensures forall x :: x in r ==> Matches(term)(x)
  {
    var r := SortByRecency(Filter(sessions, Matches(term)));
    FilterKept(sessions, Matches(term));
    assert forall x :: x in r ==> x in multiset(Filter(sessions, Matches(term)));
    r
  }

  /** Inserting into a newest-first list keeps it newest-first. */
  lemma {:induction false} InsertNewestFirst(x: ChatSession, t: seq<ChatSession>)
    requires NewestFirst(t)
    ensures NewestFirst(Insert(x, t))
  {
    if t != [] && x.lastModified < t[0].lastModified {
      InsertNewestFirst(x, t[1..]);
      var r := Insert(x, t[1..]);
      assert multiset(r) == multiset(t[1..]) + multiset{x};
      forall j | 0 <= j < |r|
        ensures t[0].lastModified >= r[j].lastModified
      {
        assert r[j] in multiset(r);
        if r[j] != x {
          assert r[j] in multiset(t[1..]);
          var m :| 0 <= m < |t[1..]| && t[1..][m] == r[j];
          assert t[m + 1] == r[j];
        }
      }
      assert Insert(x, t) == [t[0]] + r;
    }
  }

  /** The sort's output is newest first. */
  lemma {:induction false} SortNewestFirst(s: seq<ChatSession>)
    ensures NewestFirst(SortByRecency(s))
  {
    if s != [] {
      SortNewestFirst(s[1..]);
      InsertNewestFirst(s[0], SortByRecency(s[1..]));
    }
  }

  /**
   * Inserting `x` leaves the sessions of each instant `k` in the same order,
   * with `x` ahead of those that tie with it.
   */
  lemma {:induction false} InsertStable(x: ChatSession, t: seq<ChatSession>, k: int)
    ensures Filter(Insert(x, t), ModifiedAt(k))
         == (if x.lastModified == k then [x] else []) + Filter(t, ModifiedAt(k))
  {
    var p := ModifiedAt(k);
    if t == [] {
      FilterCons(x, [], p);
      assert [x] + [] == [x];
    } else if x.lastModified >= t[0].lastModified {
      FilterCons(x, t, p);
    } else {
      InsertStable(x, t[1..], k);
      InsertStableStep(x, t, k);
    }
  }

  /** The step of `InsertStable` where `x` moves past the newer head of `t`. */
  lemma InsertStableStep(x: ChatSession, t: seq<ChatSession>, k: int)
    requires t != [] && x.lastModified < t[0].lastModified
    requires Filter(Insert(x, t[1..]), ModifiedAt(k))
          == (if x.lastModified == k then [x] else []) + Filter(t[1..], ModifiedAt(k))
    ensures Filter(Insert(x, t), ModifiedAt(k))
         == (if x.lastModified == k then [x] else []) + Filter(t, ModifiedAt(k))
  {
    var p := ModifiedAt(k);
    var ins := Insert(x, t[1..]);
    var head: seq<ChatSession> := if p(t[0]) then [t[0]] else [];
    var mine: seq<ChatSession> := if x.lastModified == k then [x] else [];
    var rest := Filter(t[1..], p);
    assert Insert(x, t) == [t[0]] + ins;
    FilterCons(t[0], ins, p);
    FilterCons(t[0], t[1..], p);
    HeadTail(t);
    // `x` is strictly older than `t[0]`, so at most one of them was modified at `k`.
    assert head == [] || mine == [];
    SwapEmpty(head, mine, rest);
  }

  /** Two sequences one of which is empty commute in front of a third. */
  lemma SwapEmpty<T>(a: seq<T>, b: seq<T>, c: seq<T>)
    requires a == [] || b == []
    ensures a + (b + c) == b + (a + c)
  {
  }

  /**
   * Stability: for every instant `k`, the sessions modified at `k` appear in
   * the sorted list in the order they had before sorting.
   */
  lemma {:induction false} SortStable(s: seq<ChatSession>, k: int)
    ensures Filter(SortByRecency(s), ModifiedAt(k)) == Filter(s, ModifiedAt(k))
  {
    if s != [] {
      SortStable(s[1..], k);
      InsertStable(s[0], SortByRecency(s[1..]), k);
      FilterCons(s[0], s[1..], ModifiedAt(k));
      HeadTail(s);
    }
  }

  /** A list already newest first, with no ties out of order, is left as it is. */
  lemma {:induction false} SortKeepsSorted(s: seq<ChatSession>)
    requires forall i, j :: 0 <= i < j < |s| ==> s[i].lastModified >= s[j].lastModified
    ensures SortByRecency(s) == s
  {
    if s != [] {
      SortKeepsSorted(s[1..]);
    }
  }

  /** A session is listed exactly when it is stored and its title matches the term. */
  lemma ListedIffMatches(sessions: seq<ChatSession>, term: string, x: ChatSession)
    ensures x in FilteredSessions(sessions, term) <==> x in sessions && Matches(term)(x)
  {
    var f := Filter(sessions, Matches(term));
    var r := FilteredSessions(sessions, term);
    assert x in r <==> x in multiset(r);
    assert x in f <==> x in multiset(f);
    FilterMember(sessions, Matches(term), x);
  }

  /**
   * The list holds each matching session as often as it is stored, newest
   * first, and sessions modified at the same instant keep their stored order.
   */
  lemma FilteredSessionsSpec(sessions: seq<ChatSession>, term: string, k: int)
    ensures multiset(FilteredSessions(sessions, term)) == multiset(Filter(sessions, Matches(term)))
    ensures NewestFirst(FilteredSessions(sessions, term))
    ensures Filter(FilteredSessions(sessions, term), ModifiedAt(k))
         == Filter(Filter(sessions, Matches(term)), ModifiedAt(k))
  {
    SortNewestFirst(Filter(sessions, Matches(term)));
    SortStable(Filter(sessions, Matches(term)), k);
  }

  /** The empty search term matches every title. */
  lemma EmptyTermMatchesAll(s: ChatSession)
    ensures Matches([])(s)
  {
    assert SubstringAt(Lower(s.title), Lower([]), 0);
  }

  /** With an empty search box the sidebar lists every session, newest first. */
  lemma EmptyTermListsAll(sessions: seq<ChatSession>)
    ensures FilteredSessions(sessions, []) == SortByRecency(sessions)
    ensures multiset(FilteredSessions(sessions, [])) == multiset(sessions)
  {
    forall i | 0 <= i < |sessions|
      ensures Matches([])(sessions[i])
    {
      EmptyTermMatchesAll(sessions[i]);
    }
    FilterKeepsAll(sessions, Matches([]));
  }

  /** A search term that is a title's own text (in any ASCII case) lists that session. */
  lemma OwnTitleFindsSession(sessions: seq<ChatSession>, i: int)
    requires 0 <= i < |sessions|
    ensures sessions[i] in FilteredSessions(sessions, sessions[i].title)
  {
    var t := Lower(sessions[i].title);
    assert t[0..|t|] == t;
    assert SubstringAt(t, t, 0);
    ListedIffMatches(sessions, sessions[i].title, sessions[i]);
  }
}
