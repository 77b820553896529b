/**
 * What both navigation services do to a navigation stack, the attached handlers and the
 * trace, stated on values: the outcome of a push that replaces pages, of a modal close, and
 * the state after each pass of the removal loops, with the index arithmetic behind them.
 */
module StackSteps {
  import opened Wrappers
  import opened PageLifecycle

  /** Where a removal loop starts: the container's stack and Popped wiring, the attached
      handlers and the trace. */
  datatype Start = Start(stack: seq<Page>, poppedHooked: bool, hooks: Hooks, trace: seq<Notice>)

  /** The top modal page is gone from the modal stack and reported once. */
  ghost predicate ModalClosed(modals: seq<Page>, hooks: Hooks, trace: seq<Notice>,
                              modals': seq<Page>, hooks': Hooks, trace': seq<Notice>)
    requires modals != []
  {
    var top := modals[|modals| - 1];
    modals' == modals[..|modals| - 1] && hooks' == Unhook(hooks, top) && trace' == trace + Report(top)
  }

  /** The pages a push with the pop count `k` of 1 to |s| reports: the old pages from index
      |s|-k up, without the old top when the Popped handler is detached. */
  function ReplacedPages(s: seq<Page>, k: int, poppedHooked: bool): seq<Page>
    requires 1 <= k <= |s|
  {
    if poppedHooked then s[|s| - k..] else s[|s| - k..|s| - 1]
  }

  /** The kept pages and the reported ones together are the old stack, without the old top
      when the Popped handler is detached. */
  lemma ReplacedPagesSplit(s: seq<Page>, k: int, poppedHooked: bool)
    requires 1 <= k <= |s|
    ensures s[..|s| - k] + ReplacedPages(s, k, poppedHooked) == if poppedHooked then s else s[..|s| - 1]
  {
    if poppedHooked {
      assert s[..|s| - k] + s[|s| - k..] == s;
    } else {
      assert s[..|s| - k] + s[|s| - k..|s| - 1] == s[..|s| - 1];
    }
  }

  /** What a push does to the stack, the hooks and the trace once the page `p` was created,
      for the old stack `s` and the pop count `k`. */
  ghost predicate ReplacedTop(s: seq<Page>, p: Page, k: int, poppedHooked: bool, hooks: Hooks, trace: seq<Notice>,
                              s': seq<Page>, hooks': Hooks, trace': seq<Notice>)
  {
    var n := |s|;
    if k == 0 then
      s' == s + [p] && hooks' == Hook(hooks, p) && trace' == trace
    else if 1 <= k <= n then
      // the top k pages are replaced by p; the pages under the old top are reported, and so
      // is the old top when the Popped handler is attached
      var removed := ReplacedPages(s, k, poppedHooked);
      s' == s[..n - k] + [p] && trace' == trace + Reports(removed) && hooks' == Unhooked(Hook(hooks, p), removed)
    else
      // an index out of range: the exception is swallowed after p was hooked and inserted
      s' == (if n == 0 then s else s[..n - 1] + [p, s[n - 1]]) && hooks' == Hook(hooks, p) && trace' == trace
  }

  /** The state of a pop loop after the top `done` pages of the start stack were removed,
      topmost first, each reported. */
  ghost predicate Popping(st: Start, done: nat, nav: Option<NavigationPage>, hooks: Hooks, trace: seq<Notice>)
  {
    var s := st.stack;
    done <= |s| &&
    nav == Some(NavigationPage(s[..|s| - done], st.poppedHooked)) &&
    trace == st.trace + Reports(Reversed(s[|s| - done..])) && hooks == Unhooked(st.hooks, Reversed(s[|s| - done..]))
  }

  /** The state of the removal loop of a replacing push, for the new page `p` and the pop
      count `k` of 1 to |s|, when `left` passes remain: the pages under the old top from index
      |s|-k up are removed one by one, and the last pass pops the old top. */
  ghost predicate Replacing(st: Start, p: Page, k: int, left: int, nav: Option<NavigationPage>, hooks: Hooks, trace: seq<Notice>)
  {
    var s, n := st.stack, |st.stack|;
    1 <= k <= n && 0 <= left <= k &&
    if left >= 1 then
      nav == Some(NavigationPage(s[..n - k] + s[n - left..n - 1] + [p, s[n - 1]], st.poppedHooked)) &&
      trace == st.trace + Reports(s[n - k..n - left]) && hooks == Unhooked(st.hooks, s[n - k..n - left])
    else
      var removed := ReplacedPages(s, k, st.poppedHooked);
      nav == Some(NavigationPage(s[..n - k] + [p], st.poppedHooked)) &&
      trace == st.trace + Reports(removed) && hooks == Unhooked(st.hooks, removed)
  }

  /** One pass of a pop loop: the top of what is left of `s` is the next page to
      report, and the reported pages grow by it at the end. */
  lemma PopOneStep(s: seq<Page>, done: int)
    requires 0 <= done < |s|
    ensures var left := s[..|s| - done];
            left[|left| - 1] == s[|s| - done - 1] && left[..|left| - 1] == s[..|s| - (done + 1)]
    ensures Reversed(s[|s| - (done + 1)..]) == Reversed(s[|s| - done..]) + [s[|s| - done - 1]]
  {
    ReversedExtend(s, |s| - done);
  }

  /** One pass of the removal loop of a replacing push: the page at the fixed index n-k is the
      lowest page still to be replaced, and removing it leaves the rest in order. */
  lemma RemovalStep(s: seq<Page>, n: int, k: int, popCount: int, p: Page, stack: seq<Page>)
    requires 1 <= k <= n == |s| && 2 <= popCount <= k
    requires stack == s[..n - k] + s[n - popCount..n - 1] + [p, s[n - 1]]
    ensures n - k < |stack| && stack[n - k] == s[n - popCount]
    ensures stack[..n - k] + stack[n - k + 1..] == s[..n - k] + s[n - (popCount - 1)..n - 1] + [p, s[n - 1]]
    ensures s[n - k..n - (popCount - 1)] == s[n - k..n - popCount] + [s[n - popCount]]
  {
    assert stack[..n - k] == s[..n - k];
    assert stack[n - k + 1..] == s[n - (popCount - 1)..n - 1] + [p, s[n - 1]];
  }

  /** The last pass of the removal loop of a replacing push: only the old top is above the new page. */
  lemma PopStep(s: seq<Page>, n: int, k: int, p: Page, stack: seq<Page>)
    requires 1 <= k <= n == |s|
    requires stack == s[..n - k] + s[n - 1..n - 1] + [p, s[n - 1]]
    ensures |stack| >= 2 && stack[|stack| - 1] == s[n - 1]
    ensures stack[..|stack| - 1] == s[..n - k] + [p]
    ensures s[n - k..] == s[n - k..n - 1] + [s[n - 1]]
  {
    assert s[n - 1..n - 1] == [];
  }

  /** A pass of the removal loop of a replacing push other than the last: removing the
      page at the fixed index |s|-k and reporting it moves to the next state. */
  lemma RemovalPass(st: Start, p: Page, k: int, left: int, stack: seq<Page>, hooks: Hooks, trace: seq<Notice>)
    requires left >= 2 && Replacing(st, p, k, left, Some(NavigationPage(stack, st.poppedHooked)), hooks, trace)
    ensures |st.stack| - k < |stack|
    ensures var i := |st.stack| - k;
            Replacing(st, p, k, left - 1, Some(NavigationPage(stack[..i] + stack[i + 1..], st.poppedHooked)),
                      Unhook(hooks, stack[i]), trace + Report(stack[i]))
  {
    var s, n := st.stack, |st.stack|;
    RemovalStep(s, n, k, left, p, stack);
    var removed := s[n - k..n - left];
    ReportsSnoc(removed, s[n - left]);
    UnhookedSnoc(st.hooks, removed, s[n - left]);
  }

  /** The last pass of the removal loop of a replacing push: PopAsync takes the old top off,
      and it is reported only while the Popped handler is attached. */
  lemma PopPass(st: Start, p: Page, k: int, stack: seq<Page>, hooks: Hooks, trace: seq<Notice>)
    requires Replacing(st, p, k, 1, Some(NavigationPage(stack, st.poppedHooked)), hooks, trace)
    ensures |stack| >= 2
    ensures var top := stack[|stack| - 1];
            var rest := Some(NavigationPage(stack[..|stack| - 1], st.poppedHooked));
            if st.poppedHooked then Replacing(st, p, k, 0, rest, Unhook(hooks, top), trace + Report(top))
            else Replacing(st, p, k, 0, rest, hooks, trace)
  {
    var s, n := st.stack, |st.stack|;
    PopStep(s, n, k, p, stack);
    var below, top := s[n - k..n - 1], s[n - 1];
    assert trace == st.trace + Reports(below) && hooks == Unhooked(st.hooks, below);
    if st.poppedHooked {
      assert ReplacedPages(s, k, true) == below + [top];
      ReportsSnoc(below, top);
      UnhookedSnoc(st.hooks, below, top);
      assert trace + Report(top) == st.trace + Reports(below + [top]);
    } else {
      assert ReplacedPages(s, k, false) == below;
    }
  }

  /** A pass of a pop loop: removing the top page and reporting it moves to the next state. */
  lemma PopNextPass(st: Start, done: nat, stack: seq<Page>, hooks: Hooks, trace: seq<Notice>)
    requires done < |st.stack| && Popping(st, done, Some(NavigationPage(stack, st.poppedHooked)), hooks, trace)
    ensures stack != []
    ensures var top := stack[|stack| - 1];
            Popping(st, done + 1, Some(NavigationPage(stack[..|stack| - 1], st.poppedHooked)),
                    Unhook(hooks, top), trace + Report(top))
  {
    var s := st.stack;
    var popped, top := Reversed(s[|s| - done..]), s[|s| - done - 1];
    PopOneStep(s, done);
    assert stack == s[..|s| - done];
    ReportsSnoc(popped, top);
    UnhookedSnoc(st.hooks, popped, top);
    assert trace + Report(top) == st.trace + Reports(popped + [top]);
  }

  /** A replacing push accounts for every page of the old stack: the pages under the new
      top are the kept ones, PageRemoved is raised once for each replaced page, and only the
      old top goes unreported, and only when the Popped handler is detached. The trace just
      grows. */
  lemma ReplacedTopAccountsForEveryPage(s: seq<Page>, p: Page, k: int, poppedHooked: bool, hooks: Hooks,
                                        trace: seq<Notice>, s': seq<Page>, hooks': Hooks, trace': seq<Notice>)
    requires 1 <= k <= |s| && ReplacedTop(s, p, k, poppedHooked, hooks, trace, s', hooks', trace')
    ensures s' != [] && s'[|s'| - 1] == p && |s'| == |s| - k + 1
    ensures |trace| <= |trace'| && trace'[..|trace|] == trace
    ensures s'[..|s'| - 1] + RemovedPages(trace'[|trace|..]) == (if poppedHooked then s else s[..|s| - 1])
  {
    var removed := ReplacedPages(s, k, poppedHooked);
    assert trace'[|trace|..] == Reports(removed);
    ReportsRaiseEachOnce(removed);
    ReplacedPagesSplit(s, k, poppedHooked);
  }
}
