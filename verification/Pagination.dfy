/** Cursor pagination in the Go, TypeScript and PHP clients against an arbitrary server. */
module Pagination {
  import opened Prelude

  datatype Page<T> = Page(items: seq<T>, next: Option<string>)

  datatype Reply<T> = Failed(error: string) | Got(page: Page<T>)

  /** A server answers by the number of the fetch and the cursor asked for; nothing binds it. */
  type Server<!T> = (nat, Option<string>) -> Reply<T>

  datatype Error = FetchError(error: string) | RepeatedCursor

  // ---------------------------------------------------------------- Go: PageIterator

  /** The iterator's fields, and the cursors it asked for and the pages it handed out. */
  datatype GoState<T> = GoState(
    next: string, started: bool, done: bool, err: Option<Error>, seen: set<string>,
    asked: seq<Option<string>>, pages: seq<Page<T>>)

  function GoStart<T>(): GoState<T> { GoState("", false, false, None, {}, [], []) }

  function Text(cursor: Option<string>): string { if cursor.Some? then cursor.value else "" }

  function Asking(next: string): Option<string> { if next == "" then None else Some(next) }

  function GoStep<T>(server: Server<T>, s: GoState<T>): GoState<T> {
    if s.done || s.err.Some? then s
    else if s.started && s.next == "" then s.(done := true)
    else
      var reply := server(|s.asked|, Asking(s.next));
      var fetched := s.(started := true, asked := s.asked + [Asking(s.next)]);
      if reply.Failed? then fetched.(err := Some(FetchError(reply.error)))
      else
        var cursor := Text(reply.page.next);
        if cursor != "" && cursor in s.seen then fetched.(err := Some(RepeatedCursor))
        else fetched.(
          seen := if cursor != "" then s.seen + {cursor} else s.seen,
          next := cursor, pages := s.pages + [reply.page])
  }

  function GoRun<T>(server: Server<T>, n: nat): GoState<T> {
    if n == 0 then GoStart() else GoStep(server, GoRun(server, n - 1))
  }

  class PageIterator<T> {
    var next: string
    var current: Option<Page<T>>
    var err: Option<Error>
    var started: bool
    var done: bool
    var seen: set<string>
    var fetches: nat
    ghost var asked: seq<Option<string>>
    ghost var pages: seq<Page<T>>

    ghost function State(): GoState<T>
      reads this
    {
      GoState(next, started, done, err, seen, asked, pages)
    }

    ghost predicate Valid()
      reads this
    {
      fetches == |asked| && current == if pages == [] then None else Some(pages[|pages| - 1])
    }

    constructor ()
      ensures Valid() && State() == GoStart()
    {
      next, current, err, started, done, seen, fetches := "", None, None, false, false, {}, 0;
      asked, pages := [], [];
    }

    method Next(server: Server<T>) returns (more: bool)
      requires Valid()
      modifies this
      ensures Valid() && State() == GoStep(server, old(State()))
      ensures more <==> |pages| == |old(pages)| + 1
      ensures more ==> current == Some(pages[|pages| - 1]) && err.None?
    {
      if done || err.Some? {
        return false;
      }
      if started && next == "" {
        done := true;
        return false;
      }
      started := true;
      var reply := server(fetches, Asking(next));
      fetches := fetches + 1;
      asked := asked + [Asking(next)];
      if reply.Failed? {
        err := Some(FetchError(reply.error));
        return false;
      }
      var cursor := Text(reply.page.next);
      if cursor != "" {
        if cursor in seen {
          err := Some(RepeatedCursor);
          return false;
        }
        seen := seen + {cursor};
      }
      current, next := Some(reply.page), cursor;
      pages := pages + [reply.page];
      return true;
    }
  }

  // ---------------------------------------------------------------- TypeScript and PHP: generators

  datatype Ending = Finished | Threw(error: Error)

  /** A generator: the page it is suspended on, what it has seen, asked and yielded, and its end. */
  datatype Walk<T> = Walk(
    suspended: Option<Page<T>>, seen: set<string>, asked: seq<Option<string>>, pages: seq<Page<T>>,
      ending: Option<Ending>)

  function Start<T>(): Walk<T> { Walk(None, {}, [], [], None) }

  predicate Falsy(cursor: Option<string>) { cursor.None? || cursor.value == "" }

  function See(seen: set<string>, cursor: Option<string>): set<string> {
    if cursor.Some? then seen + {cursor.value} else seen
  }

  function TsResume<T>(server: Server<T>, s: Walk<T>): Walk<T> {
    var cursor := if s.suspended.Some? then s.suspended.value.next else None;
    if s.ending.Some? then s
    else if s.suspended.Some? && Falsy(cursor) then s.(ending := Some(Finished))
    else
      var reply := server(|s.asked|, cursor);
      var fetched := s.(asked := s.asked + [cursor]);
      if reply.Failed? then fetched.(ending := Some(Threw(FetchError(reply.error))))
      else if !Falsy(reply.page.next) && reply.page.next.value in s.seen then
        fetched.(ending := Some(Threw(RepeatedCursor)))
      else fetched.(
        seen := if Falsy(reply.page.next) then s.seen else See(s.seen, reply.page.next),
        suspended := Some(reply.page), pages := s.pages + [reply.page])
  }

  function TsRun<T>(server: Server<T>, n: nat): Walk<T> {
    if n == 0 then Start() else TsResume(server, TsRun(server, n - 1))
  }

  /** PHP yields before it looks at the cursor, and only `null` ends the walk. */
  function PhpResume<T>(server: Server<T>, s: Walk<T>): Walk<T> {
    var cursor := if s.suspended.Some? then s.suspended.value.next else None;
    if s.ending.Some? then s
    else if s.suspended.Some? && cursor.Some? && cursor.value in s.seen then s.(ending := Some(Threw(RepeatedCursor)))
    else if s.suspended.Some? && cursor.None? then s.(ending := Some(Finished))
    else
      var reply := server(|s.asked|, cursor);
      var fetched := s.(seen := See(s.seen, cursor), asked := s.asked + [cursor]);
      if reply.Failed? then fetched.(ending := Some(Threw(FetchError(reply.error))))
      else fetched.(suspended := Some(reply.page), pages := s.pages + [reply.page])
  }

  function PhpRun<T>(server: Server<T>, n: nat): Walk<T> {
    if n == 0 then Start() else PhpResume(server, PhpRun(server, n - 1))
  }

  lemma {:induction false} EndedStays<T>(server: Server<T>, n: nat, m: nat)
    requires n <= m
    ensures TsRun(server, n).ending.Some? ==> TsRun(server, m) == TsRun(server, n)
    ensures PhpRun(server, n).ending.Some? ==> PhpRun(server, m) == PhpRun(server, n)
    decreases m
  {
    if n < m {
      EndedStays(server, n, m - 1);
    }
  }

  /** Resumed with a cursor that does not end it, the TypeScript generator fetches and checks. */
  lemma {:induction false} TsFetches<T>(server: Server<T>, s: Walk<T>, cursor: Option<string>)
    requires s.ending.None? && cursor == if s.suspended.Some? then s.suspended.value.next else None
    requires s.suspended.Some? ==> !Falsy(cursor)
    ensures var reply, fetched := server(|s.asked|, cursor), s.(asked := s.asked + [cursor]);
      TsResume(server, s) ==
        if reply.Failed? then fetched.(ending := Some(Threw(FetchError(reply.error))))
        else if Falsy(reply.page.next) then fetched.(suspended := Some(reply.page), pages := s.pages + [reply.page])
        else if reply.page.next.value in s.seen then fetched.(ending := Some(Threw(RepeatedCursor)))
        else fetched.(
          seen := s.seen + {reply.page.next.value}, suspended := Some(reply.page), pages := s.pages + [reply.page])
  {
  }

  /** What the TypeScript generator does between two suspensions: fetch a page and check its cursor. */
  method TsPull<T>(server: Server<T>, walk: Walk<T>, cursor: Option<string>) returns (s: Walk<T>)
    requires walk.ending.None? && cursor == if walk.suspended.Some? then walk.suspended.value.next else None
    requires walk.suspended.Some? ==> !Falsy(cursor)
    ensures s == TsResume(server, walk)
    ensures s.ending.None? ==> s.suspended.Some? && |s.pages| == |walk.pages| + 1
  {
    TsFetches(server, walk, cursor);
    var reply := server(|walk.asked|, cursor);
    s := walk.(asked := walk.asked + [cursor]);
    if reply.Failed? {
      return s.(ending := Some(Threw(FetchError(reply.error))));
    }
    var nextCursor := reply.page.next;
    if !Falsy(nextCursor) {
      if nextCursor.value in s.seen {
        return s.(ending := Some(Threw(RepeatedCursor)));
      }
      s := s.(seen := s.seen + {nextCursor.value});
    }
    s := s.(suspended := Some(reply.page), pages := s.pages + [reply.page]);
  }

  /** The TypeScript generator's loop, for a consumer that pulls `pulls` times. */
  method TsPages<T>(server: Server<T>, pulls: nat) returns (s: Walk<T>)
    ensures s == TsRun(server, pulls)
  {
    s := Start();
    if pulls == 0 {
      return;
    }
    var cursor: Option<string> := None;
    while true
      invariant |s.pages| < pulls && s == TsRun(server, |s.pages|) && s.ending.None?
      invariant cursor == if s.suspended.Some? then s.suspended.value.next else None
      invariant s.suspended.Some? ==> !Falsy(cursor)
      decreases pulls - |s.pages|
    {
      ghost var pull := |s.pages| + 1;
      s := TsPull(server, s, cursor);
      assert s == TsRun(server, pull);
      if s.ending.Some? {
        EndedStays(server, pull, pulls);
        return;
      }
      if |s.pages| == pulls {
        return;
      }
      cursor := s.suspended.value.next;
      if Falsy(cursor) {
        s := s.(ending := Some(Finished));
        EndedStays(server, pull + 1, pulls);
        return;
      }
    }
  }

  /** Resumed with a cursor it has not seen, the PHP generator notes it and fetches. */
  lemma {:induction false} PhpFetches<T>(server: Server<T>, s: Walk<T>, cursor: Option<string>)
    requires s.ending.None? && cursor == if s.suspended.Some? then s.suspended.value.next else None
    requires s.suspended.Some? ==> cursor.Some? && cursor.value !in s.seen
    ensures var reply, fetched := server(|s.asked|, cursor),
      s.(seen := See(s.seen, cursor), asked := s.asked + [cursor]);
      PhpResume(server, s) ==
        if reply.Failed? then fetched.(ending := Some(Threw(FetchError(reply.error))))
        else fetched.(suspended := Some(reply.page), pages := s.pages + [reply.page])
  {
  }

  /** The PHP generator's loop, for a consumer that pulls `pulls` times. */
  method PhpPages<T>(server: Server<T>, pulls: nat) returns (s: Walk<T>)
    ensures s == PhpRun(server, pulls)
  {
    s := Start();
    if pulls == 0 {
      return;
    }
    var cursor: Option<string>, seen: set<string> := None, {};
    while true
      invariant |s.pages| < pulls && s == PhpRun(server, |s.pages|) && s.ending.None?
      invariant cursor == if s.suspended.Some? then s.suspended.value.next else None
      invariant s.suspended.Some? ==> cursor.Some? && cursor.value !in s.seen
      invariant seen == See(s.seen, cursor)
      decreases pulls - |s.pages|
    {
      ghost var pull := |s.pages| + 1;
      PhpFetches(server, s, cursor);
      var reply := server(|s.asked|, cursor);
      s := s.(seen := seen, asked := s.asked + [cursor]);
      if reply.Failed? {
        s := s.(ending := Some(Threw(FetchError(reply.error))));
        EndedStays(server, pull, pulls);
        return;
      }
      s := s.(suspended := Some(reply.page), pages := s.pages + [reply.page]);
      assert s == PhpRun(server, pull);
      if |s.pages| == pulls {
        return;
      }
      cursor := reply.page.next;
      if cursor.Some? && cursor.value in seen {
        s := s.(ending := Some(Threw(RepeatedCursor)));
        EndedStays(server, pull + 1, pulls);
        return;
      }
      if cursor.Some? {
        seen := seen + {cursor.value};
      }
      if cursor.None? {
        s := s.(ending := Some(Finished));
        EndedStays(server, pull + 1, pulls);
        return;
      }
    }
  }

  // ---------------------------------------------------------------- safety against any server

  /** What every reachable Go iterator keeps: each cursor asked for is new, and the next one is too. */
  ghost predicate GoInvariant<T>(s: GoState<T>) {
    && Distinct(s.asked)
    && (s.started <==> s.asked != [])
    && (!s.started ==> s.next == "" && s.pages == [])
    && (s.started ==> s.asked[0] == None)
    && (forall i :: 1 <= i < |s.asked| ==> s.asked[i].Some? && s.asked[i].value != "" && s.asked[i].value in s.seen)
    && (!s.done && s.err.None? && s.next != "" ==> s.next in s.seen && Some(s.next) !in s.asked)
    && "" !in s.seen
  }

  lemma {:induction false} GoInvariantHolds<T>(server: Server<T>, n: nat)
    ensures GoInvariant(GoRun(server, n))
  {
    if n > 0 {
      GoInvariantHolds(server, n - 1);
      var s, t := GoRun(server, n - 1), GoRun(server, n);
      if t.asked != s.asked {
        assert Asking(s.next) !in s.asked;
        var reply := server(|s.asked|, Asking(s.next));
        if reply.Got? && Text(reply.page.next) != "" && Text(reply.page.next) !in s.seen {
          assert forall i :: 1 <= i < |t.asked| ==> t.asked[i].value in s.seen;
        }
      }
    }
  }

  ghost predicate WalkInvariant<T>(s: Walk<T>) {
    && Distinct(s.asked)
    && (s.asked != [] ==> s.asked[0] == None)
    && (s.suspended.Some? ==> s.asked != [])
    && (s.asked == [] ==> s.suspended.None? && s.ending.None?)
    && (s.ending.None? && s.suspended.None? ==> s.asked == [])
    && (forall i :: 1 <= i < |s.asked| ==> s.asked[i].Some? && s.asked[i].value in s.seen)
  }

  lemma {:induction false} TsInvariantHolds<T>(server: Server<T>, n: nat)
    ensures WalkInvariant(TsRun(server, n))
    ensures var s := TsRun(server, n); s.ending.None? && s.suspended.Some? && !Falsy(s.suspended.value.next) ==>
              s.suspended.value.next.value in s.seen && s.suspended.value.next !in s.asked
    ensures "" !in TsRun(server, n).seen
  {
    if n > 0 {
      TsInvariantHolds(server, n - 1);
    }
  }

  lemma {:induction false} PhpInvariantHolds<T>(server: Server<T>, n: nat)
    ensures WalkInvariant(PhpRun(server, n))
    ensures forall c :: c in PhpRun(server, n).seen ==> Some(c) in PhpRun(server, n).asked
  {
    if n > 0 {
      PhpInvariantHolds(server, n - 1);
    }
  }

  /** No client asks for the same cursor twice, however the server behaves and however long it runs. */
  lemma {:induction false} NoCursorAskedTwice<T>(server: Server<T>, n: nat)
    ensures Distinct(GoRun(server, n).asked)
    ensures Distinct(TsRun(server, n).asked)
    ensures Distinct(PhpRun(server, n).asked)
  {
    GoInvariantHolds(server, n);
    TsInvariantHolds(server, n);
    PhpInvariantHolds(server, n);
  }

  /** Every cursor the server hands out is one of `cursors`. */
  ghost predicate Within<T>(server: Server<T>, cursors: set<string>) {
    forall i, c :: server(i, c).Got? && server(i, c).page.next.Some? ==> server(i, c).page.next.value in cursors
  }

  ghost predicate SuspendedWithin<T>(s: Walk<T>, cursors: set<string>) {
    && (s.suspended.Some? && s.suspended.value.next.Some? ==> s.suspended.value.next.value in cursors)
    && CursorsWithin(s.asked, cursors)
  }

  ghost predicate CursorsWithin(asked: seq<Option<string>>, cursors: set<string>) {
    forall i :: 1 <= i < |asked| ==> asked[i].Some? && asked[i].value in cursors
  }

  lemma {:induction false} GoAskedWithin<T>(server: Server<T>, cursors: set<string>, n: nat)
    requires Within(server, cursors)
    ensures GoRun(server, n).next != "" ==> GoRun(server, n).next in cursors
    ensures CursorsWithin(GoRun(server, n).asked, cursors)
  {
    if n > 0 {
      GoAskedWithin(server, cursors, n - 1);
      GoInvariantHolds(server, n - 1);
    }
  }

  lemma {:induction false} TsAskedWithin<T>(server: Server<T>, cursors: set<string>, n: nat)
    requires Within(server, cursors)
    ensures SuspendedWithin(TsRun(server, n), cursors)
  {
    if n > 0 {
      TsAskedWithin(server, cursors, n - 1);
      TsInvariantHolds(server, n - 1);
    }
  }

  lemma {:induction false} PhpAskedWithin<T>(server: Server<T>, cursors: set<string>, n: nat)
    requires Within(server, cursors)
    ensures SuspendedWithin(PhpRun(server, n), cursors)
  {
    if n > 0 {
      PhpAskedWithin(server, cursors, n - 1);
      PhpInvariantHolds(server, n - 1);
    }
  }

  lemma {:induction false} DistinctTailBound(asked: seq<Option<string>>, cursors: set<string>)
    requires Distinct(asked)
    requires forall i :: 1 <= i < |asked| ==> asked[i].Some? && asked[i].value in cursors
    ensures |asked| <= |cursors| + 1
  {
    if |asked| > 1 {
      var last := |asked| - 1;
      var rest := cursors - {asked[last].value};
      forall i | 1 <= i < last ensures asked[i].value in rest {
        assert asked[i] != asked[last];
      }
      DistinctTailBound(asked[..last], rest);
    }
  }

  /** With N possible cursors a client makes at most N + 1 fetches, so it ends. */
  lemma {:induction false} FetchesBounded<T>(server: Server<T>, cursors: set<string>, n: nat)
    requires Within(server, cursors)
    ensures |GoRun(server, n).asked| <= |cursors| + 1
    ensures |TsRun(server, n).asked| <= |cursors| + 1
    ensures |PhpRun(server, n).asked| <= |cursors| + 1
  {
    NoCursorAskedTwice(server, n);
    GoAskedWithin(server, cursors, n);
    TsAskedWithin(server, cursors, n);
    PhpAskedWithin(server, cursors, n);
    DistinctTailBound(GoRun(server, n).asked, cursors);
    DistinctTailBound(TsRun(server, n).asked, cursors);
    DistinctTailBound(PhpRun(server, n).asked, cursors);
  }

  lemma {:induction false} EachPullAsksOrEnds<T>(server: Server<T>, n: nat)
    ensures TsRun(server, n).ending.Some? || |TsRun(server, n).asked| == n
    ensures PhpRun(server, n).ending.Some? || |PhpRun(server, n).asked| == n
    ensures GoRun(server, n).done || GoRun(server, n).err.Some? || |GoRun(server, n).asked| == n
  {
    if n > 0 {
      EachPullAsksOrEnds(server, n - 1);
    }
  }

  /** A consumer that keeps pulling reaches the end within N + 2 pulls. */
  lemma {:induction false} PaginationTerminates<T>(server: Server<T>, cursors: set<string>)
    requires Within(server, cursors)
    ensures var n := |cursors| + 2;
      && (GoRun(server, n).done || GoRun(server, n).err.Some?)
      && TsRun(server, n).ending.Some?
      && PhpRun(server, n).ending.Some?
  {
    FetchesBounded(server, cursors, |cursors| + 2);
    EachPullAsksOrEnds(server, |cursors| + 2);
  }

  // ---------------------------------------------------------------- the clients compared

  function ErrorOf(ending: Option<Ending>): Option<Error> {
    match ending
    case Some(Threw(e)) => Some(e)
    case _ => None
  }

  /** A Go iterator and a TypeScript generator in corresponding states. */
  ghost predicate Alike<T>(g: GoState<T>, t: Walk<T>) {
    && g.asked == t.asked && g.pages == t.pages && g.seen == t.seen
    && (g.started <==> t.asked != [])
    && (g.done <==> t.ending == Some(Finished))
    && g.err == ErrorOf(t.ending)
    && (t.suspended.Some? ==> g.started && g.next == Text(t.suspended.value.next))
    && (t.suspended.None? ==> g.next == "")
    && (t.ending.None? && t.suspended.None? ==> t.asked == [])
  }

  /** Go and TypeScript hand out the same pages, ask the same cursors and end the same way. */
  lemma {:induction false} GoAndTsAgree<T>(server: Server<T>, n: nat)
    ensures Alike(GoRun(server, n), TsRun(server, n))
  {
    if n > 0 {
      GoAndTsAgree(server, n - 1);
    }
  }

  /** The walk is not suspended on a page whose cursor is the empty string; earlier pages never are. */
  predicate NoEmptyMet<T>(s: Walk<T>) { s.suspended.Some? ==> s.suspended.value.next != Some("") }

  /**
   * PHP against TypeScript after equally many pulls: the same pages until TypeScript meets a
   * repeated cursor; then PHP has yielded that one page more, and fails at the following pull.
   */
  ghost predicate PhpTrails<T>(t: Walk<T>, p: Walk<T>) {
    if t.ending == Some(Threw(RepeatedCursor)) then
      && |p.pages| > 0 && p.asked == t.asked && p.pages == t.pages + [p.pages[|p.pages| - 1]]
      && p.suspended == Some(p.pages[|p.pages| - 1])
      && p.suspended.value.next.Some? && p.suspended.value.next.value in p.seen
      && p.ending in {None, Some(Threw(RepeatedCursor))}
    else
      && p.asked == t.asked && p.pages == t.pages && p.suspended == t.suspended && p.ending == t.ending
      && (t.suspended.Some? ==> t.suspended.value.next != Some(""))
      && (p.ending.None? ==> t.seen == See(p.seen, if t.suspended.Some? then t.suspended.value.next else None))
      && (p.ending.None? && p.suspended.Some? && p.suspended.value.next.Some? ==>
        p.suspended.value.next.value !in p.seen)
  }

  /** A walk that met an empty cursor is over, so one that has not met it now never did. */
  lemma {:induction false} NoEmptyBefore<T>(server: Server<T>, n: nat)
    requires n > 0 && NoEmptyMet(TsRun(server, n))
    ensures NoEmptyMet(TsRun(server, n - 1))
  {
  }

  lemma {:induction false} PhpTrailsTs<T>(server: Server<T>, n: nat)
    requires NoEmptyMet(TsRun(server, n))
    ensures PhpTrails(TsRun(server, n), PhpRun(server, n))
  {
    if n > 0 {
      NoEmptyBefore(server, n);
      PhpTrailsTs(server, n - 1);
      PhpInvariantHolds(server, n - 1);
      TsInvariantHolds(server, n - 1);
    }
  }

  /**
   * While the walk has met no empty cursor PHP has yielded exactly the Go pages, plus one exactly
   * when Go ended in the repeated-cursor error.
   */
  lemma {:induction false} PhpPagesAgainstGo<T>(server: Server<T>, n: nat)
    requires NoEmptyMet(TsRun(server, n))
    ensures var g, p := GoRun(server, n), PhpRun(server, n);
      && g.asked == p.asked
      && g.pages <= p.pages
      && |p.pages| == |g.pages| + (if g.err == Some(RepeatedCursor) then 1 else 0)
      && (g.err == Some(RepeatedCursor) ==> PhpRun(server, n + 1).ending == Some(Threw(RepeatedCursor)))
      && (g.err != Some(RepeatedCursor) ==> (g.done <==> p.ending == Some(Finished)) && g.err == ErrorOf(p.ending))
  {
    GoAndTsAgree(server, n);
    PhpTrailsTs(server, n);
    var t := TsRun(server, n);
    match t.ending
    case Some(Threw(e)) =>
    case Some(Finished) =>
    case None =>
  }

  /** The pull that brings a page with an empty cursor is the last one the clients agree on. */
  lemma {:induction false} FirstEmptyMet<T>(server: Server<T>, n: nat)
    requires n > 0 && NoEmptyMet(TsRun(server, n - 1)) && !NoEmptyMet(TsRun(server, n))
    ensures TsRun(server, n + 1).asked == TsRun(server, n).asked
    ensures PhpRun(server, n + 1).asked == TsRun(server, n).asked + [Some("")]
  {
    var t, p := TsRun(server, n - 1), PhpRun(server, n - 1);
    PhpTrailsTs(server, n - 1);
    PhpInvariantHolds(server, n);
    TsInvariantHolds(server, n);
    assert t.ending.None? && p.ending.None? && p.asked == t.asked && p.suspended == t.suspended;
    assert PhpRun(server, n).suspended == TsRun(server, n).suspended &&
      PhpRun(server, n).asked == TsRun(server, n).asked;
    assert Some("") !in PhpRun(server, n).asked;
  }

  /** Once the empty cursor was met, PHP has asked for more than TypeScript ever will. */
  lemma {:induction false} EmptyMetSeparates<T>(server: Server<T>, n: nat)
    requires !NoEmptyMet(TsRun(server, n))
    ensures |PhpRun(server, n + 1).asked| > |TsRun(server, n + 1).asked|
  {
    if NoEmptyMet(TsRun(server, n - 1)) {
      FirstEmptyMet(server, n);
    } else {
      EmptyMetSeparates(server, n - 1);
      TsEndsOnEmpty(server, n - 1);
      PhpAskedGrows(server, n);
    }
  }

  lemma {:induction false} TsEndsOnEmpty<T>(server: Server<T>, n: nat)
    requires !NoEmptyMet(TsRun(server, n))
    ensures TsRun(server, n + 1).ending.Some? && TsRun(server, n + 2) == TsRun(server, n + 1)
  {
  }

  lemma {:induction false} PhpAskedGrows<T>(server: Server<T>, n: nat)
    ensures |PhpRun(server, n).asked| <= |PhpRun(server, n + 1).asked|
  {
  }

  ghost predicate SameCursors<T>(server: Server<T>, n: nat) { GoRun(server, n).asked == PhpRun(server, n).asked }

  ghost predicate NoEmptyAt<T>(server: Server<T>, n: nat) { NoEmptyMet(TsRun(server, n)) }

  /** After one pull more, Go and PHP have asked for the same cursors exactly when no empty cursor was met. */
  lemma {:induction false} SameCursorsIff<T>(server: Server<T>, n: nat)
    ensures SameCursors(server, n + 1) <==> NoEmptyMet(TsRun(server, n))
  {
    GoAndTsAgree(server, n + 1);
    if NoEmptyMet(TsRun(server, n)) {
      SameCursorsAsked(server, n);
    } else {
      EmptyMetSeparates(server, n);
    }
  }

  lemma {:induction false} SameCursorsAsked<T>(server: Server<T>, n: nat)
    requires NoEmptyMet(TsRun(server, n))
    ensures TsRun(server, n + 1).asked == PhpRun(server, n + 1).asked
  {
    PhpTrailsTs(server, n);
    PhpInvariantHolds(server, n);
    TsInvariantHolds(server, n);
  }

  /**
   * Go and PHP ask for the same cursors for ever if and only if no page the walk is suspended on
   * names the empty string, which ends Go and TypeScript, while PHP sends it back to the server.
   */
  lemma {:induction false} EmptyCursorDiverges<T>(server: Server<T>)
    ensures (forall n: nat :: SameCursors(server, n)) <==> (forall n: nat :: NoEmptyAt(server, n))
  {
    assert SameCursors(server, 0) by {
      assert GoRun(server, 0) == GoStart() && PhpRun(server, 0) == Start();
    }
    forall n: nat ensures SameCursors(server, n + 1) <==> NoEmptyAt(server, n) {
      SameCursorsIff(server, n);
    }
    if forall n: nat :: NoEmptyAt(server, n) {
      forall n: nat ensures SameCursors(server, n) {
        assert n > 0 ==> NoEmptyAt(server, n - 1) && SameCursors(server, (n - 1) + 1);
      }
    }
    if forall n: nat :: SameCursors(server, n) {
      forall n: nat ensures NoEmptyAt(server, n) {
        assert SameCursors(server, n + 1);
      }
    }
  }

  /** A server that answers every fetch with one page of an empty cursor: Go and TypeScript are done, PHP is not. */
  lemma {:induction false} EmptyCursorExample<T>(page: Page<T>)
    requires page.next == Some("")
    ensures var server: Server<T> := (i: nat, c: Option<string>) => Got(page);
      && GoRun(server, 2).done && GoRun(server, 2).pages == [page]
      && TsRun(server, 2).ending == Some(Finished)
      && PhpRun(server, 2).ending.None? && PhpRun(server, 2).asked == [None, Some("")]
  {
    var server: Server<T> := (i: nat, c: Option<string>) => Got(page);
    assert GoRun(server, 1).pages == [page];
    assert PhpRun(server, 1).asked == [None] && PhpRun(server, 1).seen == {};
  }

  // ---------------------------------------------------------------- honest chains

  /** Page `i` names cursor `i`; the cursors differ, and the last page names none. */
  ghost predicate Chain<T>(server: Server<T>, pages: seq<Page<T>>) {
    && |pages| > 0
    && (forall i, c :: 0 <= i < |pages| ==> server(i, c) == Got(pages[i]))
    && (forall i :: 0 <= i < |pages| - 1 ==> !Falsy(pages[i].next))
    && (forall i, j :: 0 <= i < j < |pages| - 1 ==> pages[i].next != pages[j].next)
    && pages[|pages| - 1].next.None?
  }

  /** The cursors that fetching the first `n` pages asks for. */
  function ChainCursors<T>(pages: seq<Page<T>>, n: nat): seq<Option<string>>
    requires n <= |pages|
  {
    seq(n, i requires 0 <= i < n => if i == 0 then None else pages[i - 1].next)
  }

  /** The walk after the first `n` pages of a chain. */
  ghost predicate OnChain<T>(pages: seq<Page<T>>, n: nat, s: Walk<T>)
    requires 1 <= n <= |pages|
  {
    && s.pages == pages[..n] && s.suspended == Some(pages[n - 1]) && s.ending.None?
    && s.asked == ChainCursors(pages, n)
    && forall c :: c in s.seen ==> Some(c) in s.asked || Some(c) == pages[n - 1].next
  }

  /** A page with a new cursor, or none, extends the walk. */
  lemma {:induction false} PageArrives<T>(server: Server<T>, s: Walk<T>, cursor: Option<string>, page: Page<T>)
    requires s.ending.None? && (s.suspended.Some? ==> !Falsy(cursor))
    requires cursor == if s.suspended.Some? then s.suspended.value.next else None
    requires server(|s.asked|, cursor) == Got(page)
    requires Falsy(page.next) || page.next.value !in s.seen
    ensures TsResume(server, s) == s.(
      asked := s.asked + [cursor], seen := if Falsy(page.next) then s.seen else See(s.seen, page.next),
      suspended := Some(page), pages := s.pages + [page])
  {
  }

  lemma {:induction false} ChainProgress<T>(server: Server<T>, pages: seq<Page<T>>, n: nat)
    requires Chain(server, pages) && 1 <= n <= |pages|
    ensures OnChain(pages, n, TsRun(server, n))
  {
    var s, page := TsRun(server, n - 1), pages[n - 1];
    assert pages[..n] == pages[..n - 1] + [page];
    if n == 1 {
      assert s == Start() && ChainCursors(pages, 1) == [None];
      PageArrives(server, s, None, page);
    } else {
      ChainProgress(server, pages, n - 1);
      var cursor := pages[n - 2].next;
      assert ChainCursors(pages, n) == s.asked + [cursor];
      ChainCursorNew(server, pages, n);
      assert page.next.Some? ==> page.next !in s.asked && (s.asked + [cursor])[n - 1] != page.next;
      PageArrives(server, s, cursor, page);
    }
  }

  lemma {:induction false} ChainCursorNew<T>(server: Server<T>, pages: seq<Page<T>>, n: nat)
    requires Chain(server, pages) && 1 <= n <= |pages|
    ensures pages[n - 1].next.Some? ==> pages[n - 1].next !in ChainCursors(pages, n)
  {
    if pages[n - 1].next.Some? {
      forall i | 0 <= i < n ensures ChainCursors(pages, n)[i] != pages[n - 1].next {
        if i > 0 {
          assert pages[i - 1].next != pages[n - 1].next;
        }
      }
    }
  }

  /** On a chain of different cursors every page arrives once, in order, and the walk ends cleanly. */
  lemma {:induction false} ChainDelivered<T>(server: Server<T>, pages: seq<Page<T>>)
    requires Chain(server, pages)
    ensures var n := |pages| + 1;
      && GoRun(server, n).pages == pages && GoRun(server, n).done && GoRun(server, n).err.None?
      && TsRun(server, n).pages == pages && TsRun(server, n).ending == Some(Finished)
      && TsRun(server, n).asked == ChainCursors(pages, |pages|)
      && PhpRun(server, n).pages == pages && PhpRun(server, n).ending == Some(Finished)
      && PhpRun(server, n).asked == ChainCursors(pages, |pages|)
  {
    ChainProgress(server, pages, |pages|);
    assert pages[..|pages|] == pages;
    GoAndTsAgree(server, |pages| + 1);
    PhpTrailsTs(server, |pages| + 1);
  }
}
