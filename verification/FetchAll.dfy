/** The admin console's `fetchAll`: follow cursors for at most `maxPages` pages. */
module FetchAll {
  import opened Prelude
  import opened Pagination

  datatype Collection<T> =
    | Collected(data: seq<T>, complete: bool, fetches: nat)
    | Rejected(error: string, fetches: nat)

  function Items<T>(pages: seq<Page<T>>): seq<T> {
    if |pages| == 0 then [] else Items(pages[..|pages| - 1]) + pages[|pages| - 1].items
  }

  /** What the loop still does with `data` collected, at fetch `i`, holding `cursor`. */
  function Collect<T>(server: Server<T>, maxPages: nat, i: nat, cursor: Option<string>, data: seq<T>): Collection<T>
    requires i <= maxPages
    decreases maxPages - i
  {
    if i == maxPages then Collected(data, false, i)
    else
      var reply := server(i, cursor);
      if reply.Failed? then Rejected(reply.error, i + 1)
      else if Falsy(reply.page.next) then Collected(data + reply.page.items, true, i + 1)
      else Collect(server, maxPages, i + 1, reply.page.next, data + reply.page.items)
  }

  method Fetch<T>(server: Server<T>, maxPages: nat) returns (c: Collection<T>)
    ensures c == Collect(server, maxPages, 0, None, [])
    ensures c.fetches <= maxPages
  {
    var data: seq<T>, cursor: Option<string> := [], None;
    for i := 0 to maxPages
      invariant Collect(server, maxPages, 0, None, []) == Collect(server, maxPages, i, cursor, data)
    {
      var reply := server(i, cursor);
      if reply.Failed? {
        return Rejected(reply.error, i + 1);
      }
      data := data + reply.page.items;
      if Falsy(reply.page.next) {
        return Collected(data, true, i + 1);
      }
      cursor := reply.page.next;
    }
    c := Collected(data, false, maxPages);
  }

  lemma {:induction false} PageAdded<T>(server: Server<T>, before: Walk<T>)
    requires before.ending.None? && TsResume(server, before).ending.None?
    ensures var s := TsResume(server, before);
      && s.suspended.Some? && s.pages == before.pages + [s.suspended.value]
      && Items(s.pages) == Items(before.pages) + s.suspended.value.items
  {
    var s := TsResume(server, before);
    assert s.pages[..|s.pages| - 1] == before.pages;
  }

  /** The cursor the walk holds when it is resumed. */
  function Held<T>(s: Walk<T>): Option<string> { if s.suspended.Some? then s.suspended.value.next else None }

  /** `fetchAll` still has to do what is left after `k` fetches that collected the pages of the walk. */
  ghost predicate Reached<T>(server: Server<T>, maxPages: nat, s: Walk<T>, k: nat)
    requires k <= maxPages
  {
    Collect(server, maxPages, 0, None, []) == Collect(server, maxPages, k, Held(s), Items(s.pages))
  }

  lemma {:induction false} ReachedNext<T>(server: Server<T>, maxPages: nat, before: Walk<T>, k: nat)
    requires k < maxPages && |before.asked| == k && before.ending.None? && TsResume(server, before).ending.None?
    requires !Falsy(Held(TsResume(server, before))) && Reached(server, maxPages, before, k)
    ensures Reached(server, maxPages, TsResume(server, before), k + 1)
  {
    PageAdded(server, before);
  }

  lemma {:induction false} PullBefore<T>(server: Server<T>, k: nat)
    requires k > 0 && TsRun(server, k).ending.None?
    ensures TsRun(server, k - 1).ending.None? && TsRun(server, k) == TsResume(server, TsRun(server, k - 1))
    ensures k > 1 ==> !Falsy(Held(TsRun(server, k - 1)))
    ensures |TsRun(server, k - 1).asked| == k - 1 && |TsRun(server, k).asked| == k
  {
    EachPullAsksOrEnds(server, k - 1);
    EachPullAsksOrEnds(server, k);
  }

  /** While `pages()` runs without an error, `fetchAll` is `k` fetches along the same walk. */
  lemma {:induction false} CollectFollowsWalk<T>(server: Server<T>, maxPages: nat, k: nat)
    requires k <= maxPages && TsRun(server, k).ending.None?
    requires k > 0 ==> !Falsy(Held(TsRun(server, k)))
    ensures |TsRun(server, k).asked| == k && Reached(server, maxPages, TsRun(server, k), k)
  {
    if k > 0 {
      PullBefore(server, k);
      CollectFollowsWalk(server, maxPages, k - 1);
      ReachedNext(server, maxPages, TsRun(server, k - 1), k - 1);
    }
  }

  /** `fetchAll` agrees with `maxPages` pulls of `pages()`. */
  ghost predicate MeetsPages<T>(server: Server<T>, maxPages: nat) {
    var c, s := Collect(server, maxPages, 0, None, []), TsRun(server, maxPages);
    && c.fetches == |s.asked| <= maxPages
    && (c.Rejected? <==> s.ending.Some? && s.ending.value.Threw?)
    && (c.Rejected? ==> s.ending == Some(Threw(FetchError(c.error))))
    && (c.Collected? ==> c.data == Items(s.pages))
    && (c.Collected? ==> (c.complete <==> TsRun(server, maxPages + 1).ending == Some(Finished)))
  }

  /** After `k` pulls the walk is suspended on a page that names another one. */
  ghost predicate Continues<T>(server: Server<T>, k: nat) {
    TsRun(server, k).ending.None? &&
      (k > 0 ==> TsRun(server, k).suspended.Some? && !Falsy(TsRun(server, k).suspended.value.next))
  }

  lemma {:induction false} OutOfPages<T>(server: Server<T>, maxPages: nat)
    requires Continues(server, maxPages)
    ensures MeetsPages(server, maxPages)
  {
    CollectFollowsWalk(server, maxPages, maxPages);
    assert TsRun(server, maxPages + 1) == TsResume(server, TsRun(server, maxPages));
  }

  lemma {:induction false} LastPage<T>(server: Server<T>, maxPages: nat, k: nat)
    requires k < maxPages && Continues(server, k)
    requires TsRun(server, k + 1).ending.None? && !Continues(server, k + 1)
    ensures MeetsPages(server, maxPages)
  {
    var next := TsRun(server, k + 1);
    LastPageCollected(server, maxPages, k);
    assert TsRun(server, k + 2) == TsResume(server, next) == next.(ending := Some(Finished));
    EndedStays(server, k + 2, maxPages + 1);
    if k + 2 <= maxPages {
      EndedStays(server, k + 2, maxPages);
    }
  }

  lemma {:induction false} LastPageCollected<T>(server: Server<T>, maxPages: nat, k: nat)
    requires k < maxPages && Continues(server, k)
    requires TsRun(server, k + 1).ending.None? && !Continues(server, k + 1)
    ensures var next := TsRun(server, k + 1);
      && next.suspended.Some? && Falsy(next.suspended.value.next) && |next.asked| == k + 1
      && Collect(server, maxPages, 0, None, []) == Collected(Items(next.pages), true, k + 1)
  {
    var s, next := TsRun(server, k), TsRun(server, k + 1);
    CollectFollowsWalk(server, maxPages, k);
    assert next == TsResume(server, s);
    assert next.pages == s.pages + [next.suspended.value] && next.pages[..|next.pages| - 1] == s.pages;
  }

  lemma {:induction false} FetchFails<T>(server: Server<T>, maxPages: nat, k: nat)
    requires k < maxPages && Continues(server, k)
    requires TsRun(server, k + 1).ending.Some? && TsRun(server, k + 1).ending != Some(Threw(RepeatedCursor))
    ensures MeetsPages(server, maxPages)
  {
    CollectFollowsWalk(server, maxPages, k);
    assert TsRun(server, k + 1) == TsResume(server, TsRun(server, k));
    EndedStays(server, k + 1, maxPages);
  }

  lemma {:induction false} MeetsPagesFrom<T>(server: Server<T>, maxPages: nat, k: nat)
    requires k <= maxPages && Continues(server, k)
    requires TsRun(server, maxPages).ending != Some(Threw(RepeatedCursor))
    ensures MeetsPages(server, maxPages)
    decreases maxPages - k
  {
    if k == maxPages {
      OutOfPages(server, maxPages);
    } else if TsRun(server, k + 1).ending.Some? {
      EndedStays(server, k + 1, maxPages);
      FetchFails(server, maxPages, k);
    } else if Continues(server, k + 1) {
      MeetsPagesFrom(server, maxPages, k + 1);
    } else {
      LastPage(server, maxPages, k);
    }
  }

  /**
   * `fetchAll` does what the first `maxPages` pulls of `pages()` do exactly when those meet no
   * repeated cursor: as many fetches, exactly those pages' items, `complete` exactly when the walk
   * is over by then, and a rejection exactly with the error that ended it.
   */
  lemma {:induction false} FetchAllMeetsPages<T>(server: Server<T>, maxPages: nat)
    ensures MeetsPages(server, maxPages) <==> TsRun(server, maxPages).ending != Some(Threw(RepeatedCursor))
  {
    if TsRun(server, maxPages).ending != Some(Threw(RepeatedCursor)) {
      MeetsPagesFrom(server, maxPages, 0);
    }
  }

  lemma {:induction false} ChainFits<T>(server: Server<T>, pages: seq<Page<T>>, maxPages: nat)
    requires Chain(server, pages) && |pages| <= maxPages
    ensures var s := TsRun(server, maxPages);
      && s.pages == pages && s.ending in {None, Some(Finished)}
      && TsRun(server, maxPages + 1).ending == Some(Finished)
  {
    ChainDelivered(server, pages);
    ChainProgress(server, pages, |pages|);
    assert pages[..|pages|] == pages;
    EndedStays(server, |pages| + 1, maxPages + 1);
    if |pages| < maxPages {
      EndedStays(server, |pages| + 1, maxPages);
    }
  }

  lemma {:induction false} ChainIsCut<T>(server: Server<T>, pages: seq<Page<T>>, maxPages: nat)
    requires Chain(server, pages) && maxPages < |pages|
    ensures var s := TsRun(server, maxPages);
      && s.pages == pages[..maxPages] && s.ending.None? && TsRun(server, maxPages + 1).ending.None?
  {
    ChainProgress(server, pages, maxPages + 1);
    if maxPages > 0 {
      ChainProgress(server, pages, maxPages);
    }
  }

  /** On a chain of different cursors: everything when it fits, the first `maxPages` pages otherwise. */
  lemma {:induction false} ChainCollected<T>(server: Server<T>, pages: seq<Page<T>>, maxPages: nat)
    requires Chain(server, pages)
    ensures var c := Collect(server, maxPages, 0, None, []);
      && c.Collected?
      && (c.complete <==> |pages| <= maxPages)
      && c.data == Items(if |pages| <= maxPages then pages else pages[..maxPages])
  {
    if |pages| <= maxPages {
      ChainFits(server, pages, maxPages);
    } else {
      ChainIsCut(server, pages, maxPages);
    }
    FetchAllMeetsPages(server, maxPages);
  }
}
