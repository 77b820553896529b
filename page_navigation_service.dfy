/**
 * PageNavigationService: the older twin of the presentation service. It owns only a
 * navigation container (no stand-alone main page), pushes content pages on it in one of two
 * open modes, pops them, opens and closes modal pages behind a binary lock, and reports every
 * removed page exactly as the presentation service does.
 */
module PageNavigation {
  import opened Wrappers
  import opened PageLifecycle
  import opened StackSteps
  import Resources

  /** How OpenContentPage places the new page. */
  datatype OpenMode = PushToStack | ReplaceCurrent

  class PageNavigationService {
    // The environment the service reads: Application.Current, whether
    // Application.Current.Windows is non-empty, and Windows[0].Page.
    var app: Option<Resources.App>
    var hasWindow: bool
    var windowPage: Option<Root>

    // The service's state.
    var navigationPage: Option<NavigationPage>
    /** The window's modal stack, bottom first. */
    var modalStack: seq<Page>
    /** The attached pairs of Appearing/Disappearing handlers, per page. */
    var hooked: Hooks
    /** Everything the service made observable, in order. */
    var trace: seq<Notice>
    /** The count of the SemaphoreSlim(1, 1) guarding modal open and close. */
    var modalLock: nat

    ghost predicate Valid()
      reads this
    {
      modalLock == 1
    }

    constructor (app: Option<Resources.App>, hasWindow: bool, windowPage: Option<Root>)
      ensures Valid()
      ensures this.app == app && this.hasWindow == hasWindow && this.windowPage == windowPage
      ensures navigationPage.None? && modalStack == []
      ensures hooked == map[] && trace == []
    {
      this.app := app;
      this.hasWindow := hasWindow;
      this.windowPage := windowPage;
      navigationPage := None;
      modalStack := [];
      hooked := map[];
      trace := [];
      modalLock := 1;
    }

    // -------------------------------------------------------------------------------------
    // Lifecycle bookkeeping
    // -------------------------------------------------------------------------------------

    /** `page.Appearing += OnPageAppearing; page.Disappearing += OnPageDisappearing`. */
    method HookPageLifecycleEvents(page: Page)
      modifies this`hooked
      ensures hooked == Hook(old(hooked), page)
    {
      hooked := Hook(hooked, page);
    }

    /** The matching `-=`, which removes one attached pair and does nothing when none is. */
    method UnhookPageLifecycleEvents(page: Page)
      modifies this`hooked
      ensures hooked == Unhook(old(hooked), page)
    {
      hooked := Unhook(hooked, page);
    }

    /** The Popped handler, which every removal goes through: unhook, dispose, raise
        PageRemoved. */
    method OnNavigationPagePopped(page: Page)
      modifies this`hooked, this`trace
      ensures hooked == Unhook(old(hooked), page)
      ensures trace == old(trace) + Report(page)
    {
      UnhookPageLifecycleEvents(page);
      if page.autoDisposable {
        trace := trace + [Disposed(page)];
      }
      trace := trace + [PageRemoved(page)];
    }

    /** The `foreach` over the navigation stack that reports every page, bottom to top. */
    method ReportStack(pages: seq<Page>)
      modifies this`hooked, this`trace
      ensures hooked == Unhooked(old(hooked), pages)
      ensures trace == old(trace) + Reports(pages)
    {
      ghost var h1, t1 := hooked, trace;
      var i := 0;
      while i < |pages|
        invariant 0 <= i <= |pages|
        invariant hooked == Unhooked(h1, pages[..i]) && trace == t1 + Reports(pages[..i])
      {
        ReportNextPage(pages, i, h1, t1);
        i := i + 1;
      }
      assert pages[..i] == pages;
    }

    /** One pass of the `foreach`. */
    method ReportNextPage(pages: seq<Page>, i: nat, ghost h1: Hooks, ghost t1: seq<Notice>)
      requires i < |pages| && hooked == Unhooked(h1, pages[..i]) && trace == t1 + Reports(pages[..i])
      modifies this`hooked, this`trace
      ensures hooked == Unhooked(h1, pages[..i + 1]) && trace == t1 + Reports(pages[..i + 1])
    {
      ReportedPrefix(h1, pages, i);
      OnNavigationPagePopped(pages[i]);
    }

    /** OnPageAppearing, run once for each attached handler when the framework raises
        Appearing on `page`. */
    method RaisePageAppearing(page: Page)
      modifies this`trace
      ensures trace == old(trace) + Callbacks(NavigatedTo(page), page.lifecycleAware, HookCount(hooked, page))
    {
      var i := 0;
      while i < HookCount(hooked, page)
        invariant 0 <= i <= HookCount(hooked, page)
        invariant trace == old(trace) + Callbacks(NavigatedTo(page), page.lifecycleAware, i)
      {
        if page.lifecycleAware {
          trace := trace + [NavigatedTo(page)];
        }
        i := i + 1;
      }
    }

    /** OnPageDisappearing, run once for each attached handler when the framework raises
        Disappearing on `page`. */
    method RaisePageDisappearing(page: Page)
      modifies this`trace
      ensures trace == old(trace) + Callbacks(NavigatedFrom(page), page.lifecycleAware, HookCount(hooked, page))
    {
      var i := 0;
      while i < HookCount(hooked, page)
        invariant 0 <= i <= HookCount(hooked, page)
        invariant trace == old(trace) + Callbacks(NavigatedFrom(page), page.lifecycleAware, i)
      {
        if page.lifecycleAware {
          trace := trace + [NavigatedFrom(page)];
        }
        i := i + 1;
      }
    }

    // -------------------------------------------------------------------------------------
    // Replacing the root
    // -------------------------------------------------------------------------------------

    /** Replaces the root by a new navigation container whose stack is the created page,
        after reporting the old container's pages bottom to top. Throws without an
        application (changing nothing) and when the page cannot be created, in which case the
        old container stays referenced with its handlers detached. */
    method OpenMainPage(created: Option<Page>) returns (r: Outcome)
      requires Valid()
      modifies this`navigationPage, this`hooked, this`trace, this`windowPage
      ensures Valid()
      ensures app.None? ==> r == Threw(ApplicationMissing) && unchanged(this)
      ensures app.Some? ==>
                var removed := StackOf(old(navigationPage));
                trace == old(trace) + Reports(removed) &&
                hooked == (if created.Some? then Hook(Unhooked(old(hooked), removed), created.value)
                           else Unhooked(old(hooked), removed))
      ensures app.Some? && created.None? ==>
                r == Threw(CreationFailed) && navigationPage == Detached(old(navigationPage)) &&
                windowPage == old(windowPage)
      ensures app.Some? && created.Some? ==>
                r == Completed && navigationPage == Some(NavigationPage([created.value], true)) &&
                windowPage == (if hasWindow then Some(NavigationRoot) else old(windowPage))
    {
      if app.None? {
        return Threw(ApplicationMissing);
      }
      ReportStack(StackOf(navigationPage));
      navigationPage := Detached(navigationPage);
      if created.None? {
        return Threw(CreationFailed);
      }
      navigationPage := Some(NavigationPage([created.value], true));
      HookPageLifecycleEvents(created.value);
      if hasWindow {
        windowPage := Some(NavigationRoot);
      }
      r := Completed;
    }

    // -------------------------------------------------------------------------------------
    // The navigation stack
    // -------------------------------------------------------------------------------------

    /** ReplaceCurrent does nothing. PushToStack pushes the created page, first closing every
        modal page; with a non-zero `pagesToPopCount` k the page replaces the top k pages
        instead: it is inserted below the top, the pages at the fixed index n-k are removed
        and reported, and finally the old top is popped, which the framework reports through
        the Popped handler when that is attached. Every exception is swallowed. */
    method OpenContentPage(mode: OpenMode, created: Option<Page>, pagesToPopCount: int)
      requires Valid()
      modifies this`navigationPage, this`modalStack, this`hooked, this`trace
      ensures Valid()
      ensures mode == ReplaceCurrent || old(navigationPage).None? ==>
                navigationPage == old(navigationPage) && modalStack == old(modalStack) &&
                hooked == old(hooked) && trace == old(trace)
      ensures mode == PushToStack && old(navigationPage).Some? ==>
                modalStack == [] && navigationPage.Some? &&
                navigationPage.value.poppedHooked == old(navigationPage).value.poppedHooked
      ensures mode == PushToStack && old(navigationPage).Some? && created.None? ==>
                navigationPage == old(navigationPage) && hooked == old(hooked) && trace == old(trace)
      ensures mode == PushToStack && old(navigationPage).Some? && created.Some? ==>
                var s, p, k := old(navigationPage).value.stack, created.value, pagesToPopCount;
                ReplacedTop(s, p, k, old(navigationPage).value.poppedHooked, old(hooked), old(trace),
                            navigationPage.value.stack, hooked, trace)
    {
      match mode {
        case ReplaceCurrent =>
        case PushToStack =>
          if navigationPage.None? {
            return;
          }
          while |modalStack| != 0
            invariant navigationPage == old(navigationPage) && hooked == old(hooked) && trace == old(trace)
            decreases |modalStack|
          {
            modalStack := modalStack[..|modalStack| - 1];   // PopModalAsync(animated: false)
          }
          if created.None? {
            return;
          }
          var newPage := created.value;
          HookPageLifecycleEvents(newPage);
          if pagesToPopCount != 0 {
            ReplaceTopPages(newPage, pagesToPopCount);
          } else {
            // PushAsync(newPage)
            navigationPage := Some(navigationPage.value.(stack := navigationPage.value.stack + [newPage]));
          }
      }
    }

    /** The part of OpenContentPage with a non-zero pop count, after the new page is hooked. */
    method ReplaceTopPages(newPage: Page, pagesToPopCount: int)
      requires navigationPage.Some? && pagesToPopCount != 0
      modifies this`navigationPage, this`hooked, this`trace
      ensures navigationPage.Some? &&
              navigationPage.value.poppedHooked == old(navigationPage).value.poppedHooked
      ensures var s, n, k := old(navigationPage).value.stack, |old(navigationPage).value.stack|, pagesToPopCount;
              if 1 <= k <= n then
                var removed := ReplacedPages(s, k, old(navigationPage).value.poppedHooked);
                navigationPage.value.stack == s[..n - k] + [newPage] &&
                trace == old(trace) + Reports(removed) && hooked == Unhooked(old(hooked), removed)
              else
                navigationPage.value.stack == (if n == 0 then s else s[..n - 1] + [newPage, s[n - 1]]) &&
                hooked == old(hooked) && trace == old(trace)
    {
      ghost var st := Start(navigationPage.value.stack, navigationPage.value.poppedHooked, hooked, trace);
      ghost var s, n, k := st.stack, |st.stack|, pagesToPopCount;
      ghost var valid := 1 <= k <= n;
      var popCount := pagesToPopCount;
      var navStackCount := |navigationPage.value.stack|;
      if navStackCount == 0 {
        return;   // NavigationStack[-1] throws
      }
      // InsertPageBefore(newPage, NavigationStack[navStackCount - 1])
      var before := navigationPage.value.stack;
      navigationPage := Some(navigationPage.value.(stack := before[..navStackCount - 1] + [newPage, before[navStackCount - 1]]));
      if valid {
        assert s[n - k..n - k] == [] && s[..n - k] + s[n - k..n - 1] == s[..n - 1];
      }
      var index := navStackCount - pagesToPopCount;
      while popCount != 0 && |navigationPage.value.stack| != 1
        invariant navigationPage.Some?
        invariant valid ==> Replacing(st, newPage, k, popCount, navigationPage, hooked, trace)
        invariant !valid ==>
                    popCount == k && navigationPage == Some(NavigationPage(s[..n - 1] + [newPage, s[n - 1]], st.poppedHooked)) &&
                    hooked == st.hooks && trace == st.trace
        decreases if popCount < 0 then 0 else popCount
      {
        if popCount != 1 {
          if index < 0 || index >= |navigationPage.value.stack| {
            return;   // ArgumentOutOfRangeException
          }
          RemoveReplacedPage(index, st, newPage, k, popCount);
        } else {
          PopReplacedTop(st, newPage, k);
        }
        popCount := popCount - 1;
      }
    }

    /** A pass of the removal loop of OpenContentPage other than the last: RemovePage of the page at
        the fixed index, reported through OnNavigationPagePopped. */
    method RemoveReplacedPage(index: int, ghost st: Start, ghost p: Page, ghost k: int, ghost left: int)
      requires Replacing(st, p, k, left, navigationPage, hooked, trace) && left >= 2 && index == |st.stack| - k
      modifies this`navigationPage, this`hooked, this`trace
      ensures Replacing(st, p, k, left - 1, navigationPage, hooked, trace)
    {
      var stack := navigationPage.value.stack;
      RemovalPass(st, p, k, left, stack, hooked, trace);
      var pageToRemove := stack[index];
      navigationPage := Some(navigationPage.value.(stack := stack[..index] + stack[index + 1..]));
      OnNavigationPagePopped(pageToRemove);
    }

    /** The last pass of the removal loop of OpenContentPage: PopAsync takes the old top off the
        stack, and the framework's Popped event reports it only while the handler is attached. */
    method PopReplacedTop(ghost st: Start, ghost p: Page, ghost k: int)
      requires Replacing(st, p, k, 1, navigationPage, hooked, trace)
      modifies this`navigationPage, this`hooked, this`trace
      ensures Replacing(st, p, k, 0, navigationPage, hooked, trace)
    {
      var stack := navigationPage.value.stack;
      PopPass(st, p, k, stack, hooked, trace);
      var poppedPage := stack[|stack| - 1];
      navigationPage := Some(navigationPage.value.(stack := stack[..|stack| - 1]));
      if navigationPage.value.poppedHooked {
        OnNavigationPagePopped(poppedPage);   // OnNavigationPagePopped, raised through Popped
      }
    }

    /** Pops `nrofPagesToPop` pages, topmost first, reporting each; stops with an exception
        when the stack runs out. Without a navigation container it does nothing. */
    method CloseContentPage(nrofPagesToPop: int) returns (r: Outcome)
      requires Valid()
      modifies this`navigationPage, this`hooked, this`trace
      ensures Valid()
      ensures old(navigationPage).None? ==>
                r == Completed && navigationPage == old(navigationPage) &&
                hooked == old(hooked) && trace == old(trace)
      ensures old(navigationPage).Some? ==>
                var s := old(navigationPage).value.stack;
                var popped := Reversed(s[|s| - PopCount(nrofPagesToPop, |s|)..]);
                navigationPage == Some(old(navigationPage).value.(stack := s[..|s| - PopCount(nrofPagesToPop, |s|)])) &&
                trace == old(trace) + Reports(popped) && hooked == Unhooked(old(hooked), popped) &&
                r == (if nrofPagesToPop > |s| then Threw(StackEmpty) else Completed)
    {
      if navigationPage.None? {
        return Completed;
      }
      ghost var st := Start(navigationPage.value.stack, navigationPage.value.poppedHooked, hooked, trace);
      ghost var s, done := st.stack, 0;
      var remaining := nrofPagesToPop;
      assert s[..|s|] == s && s[|s|..] == [];
      while remaining > 0
        invariant 0 <= done <= |s|
        invariant remaining == nrofPagesToPop - done
        invariant nrofPagesToPop <= 0 ==> done == 0
        invariant nrofPagesToPop > 0 ==> done <= nrofPagesToPop
        invariant Popping(st, done, navigationPage, hooked, trace)
      {
        if |navigationPage.value.stack| == 0 {
          return Threw(StackEmpty);   // NavigationStack.Last()
        }
        PopNextPage(st, done);
        done := done + 1;
        remaining := remaining - 1;
      }
      r := Completed;
    }

    /** One pass of the loop of CloseContentPage: RemovePage of the top page, which the service
        reports through OnNavigationPagePopped. */
    method PopNextPage(ghost st: Start, ghost done: nat)
      requires Popping(st, done, navigationPage, hooked, trace) && done < |st.stack|
      modifies this`navigationPage, this`hooked, this`trace
      ensures Popping(st, done + 1, navigationPage, hooked, trace)
    {
      var stack := navigationPage.value.stack;
      PopNextPass(st, done, stack, hooked, trace);
      var pageToRemove := stack[|stack| - 1];
      navigationPage := Some(navigationPage.value.(stack := stack[..|stack| - 1]));
      OnNavigationPagePopped(pageToRemove);
    }

    /** Hooks the page, then pushes it on the window's modal stack; throws when there is no
        application (before taking the lock), no window or no window page (the page stays
        hooked). The lock is released in every case. */
    method OpenModalPage(modalPage: Page) returns (r: Outcome)
      requires Valid()
      modifies this`modalStack, this`hooked, this`modalLock
      ensures Valid()
      ensures app.None? ==> r == Threw(ApplicationMissing) && modalStack == old(modalStack) && hooked == old(hooked)
      ensures app.Some? ==> hooked == Hook(old(hooked), modalPage)
      ensures app.Some? && !hasWindow ==> r == Threw(WindowMissing) && modalStack == old(modalStack)
      ensures app.Some? && hasWindow && windowPage.None? ==>
                r == Threw(WindowPageMissing) && modalStack == old(modalStack)
      ensures app.Some? && hasWindow && windowPage.Some? ==>
                r == Completed && modalStack == old(modalStack) + [modalPage]
    {
      if app.None? {
        return Threw(ApplicationMissing);
      }
      modalLock := modalLock - 1;   // WaitAsync
      HookPageLifecycleEvents(modalPage);
      if !hasWindow {
        r := Threw(WindowMissing);
      } else if windowPage.None? {
        r := Threw(WindowPageMissing);
      } else {
        modalStack := modalStack + [modalPage];   // PushModalAsync
        r := Completed;
      }
      modalLock := modalLock + 1;   // Release, in the finally block
    }

    /** Closes the top modal page, if the window has a page and the modal stack is not
        empty; throws without an application (before taking the lock) or without a window.
        The lock is released in every case. */
    method CloseModalPage() returns (r: Outcome)
      requires Valid()
      modifies this`modalStack, this`hooked, this`trace, this`modalLock
      ensures Valid()
      ensures app.None? ==> r == Threw(ApplicationMissing)
      ensures app.Some? && !hasWindow ==> r == Threw(WindowMissing)
      ensures app.Some? && hasWindow ==> r == Completed
      ensures var closes := app.Some? && hasWindow && windowPage.Some? && old(modalStack) != [];
              if closes then ModalClosed(old(modalStack), old(hooked), old(trace), modalStack, hooked, trace)
              else modalStack == old(modalStack) && hooked == old(hooked) && trace == old(trace)
    {
      if app.None? {
        return Threw(ApplicationMissing);
      }
      modalLock := modalLock - 1;   // WaitAsync
      r := Completed;
      if !hasWindow {
        r := Threw(WindowMissing);
      } else if windowPage.Some? && |modalStack| > 0 {
        CloseTopModalPage();
      }
      modalLock := modalLock + 1;   // Release, in the finally block
    }

    /** The body of CloseModalPage once a top modal page exists: unhook, dispose, pop, and
        then raise PageRemoved. */
    method CloseTopModalPage()
      requires modalStack != []
      modifies this`modalStack, this`hooked, this`trace
      ensures ModalClosed(old(modalStack), old(hooked), old(trace), modalStack, hooked, trace)
    {
      var modalPage := modalStack[|modalStack| - 1];
      UnhookPageLifecycleEvents(modalPage);
      if modalPage.autoDisposable {
        trace := trace + [Disposed(modalPage)];
      }
      modalStack := modalStack[..|modalStack| - 1];   // PopModalAsync
      trace := trace + [PageRemoved(modalPage)];
    }
  }
}
