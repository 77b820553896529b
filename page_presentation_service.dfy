/**
 * PagePresentationService: the navigation and lifecycle coordinator. It owns at most one
 * navigation container or one stand-alone main page, pushes and pops pages on the
 * container's stack, opens and closes modal pages behind a binary lock, and reports every
 * removed page: its lifecycle handlers are unhooked, its view-model is disposed when it is
 * auto-disposable, and PageRemoved is raised.
 */
module PagePresentation {
  import opened Wrappers
  import opened PageLifecycle
  import opened StackSteps
  import Resources

  class PagePresentationService {
    // The environment the service reads: Application.Current, whether
    // Application.Current.Windows is non-empty, and Windows[0].Page.
    var app: Option<Resources.App>
    var hasWindow: bool
    var windowPage: Option<Root>

    // The service's state.
    var mainNavigationPage: Option<NavigationPage>
    var mainPage: Option<Page>
    /** The window's modal stack, bottom first. */
    var modalStack: seq<Page>
    /** The attached pairs of Appearing/Disappearing handlers, per page. */
    var hooked: Hooks
    /** Everything the service made observable, in order. */
    var trace: seq<Notice>
    /** The count of the SemaphoreSlim(1, 1) guarding modal open and close. */
    var modalLock: nat

    ghost predicate Valid()
      reads this
    {
      modalLock == 1 && (mainNavigationPage.None? || mainPage.None?)
    }

    constructor (app: Option<Resources.App>, hasWindow: bool, windowPage: Option<Root>)
      ensures Valid()
      ensures this.app == app && this.hasWindow == hasWindow && this.windowPage == windowPage
      ensures mainNavigationPage.None? && mainPage.None? && modalStack == []
      ensures hooked == map[] && trace == []
    {
      this.app := app;
      this.hasWindow := hasWindow;
      this.windowPage := windowPage;
      mainNavigationPage := None;
      mainPage := None;
      modalStack := [];
      hooked := map[];
      trace := [];
      modalLock := 1;
    }

    // -------------------------------------------------------------------------------------
    // Lifecycle bookkeeping
    // -------------------------------------------------------------------------------------

    /** `page.Appearing += OnPageAppearing; page.Disappearing += OnPageDisappearing`. */
    method HookPageLifecycleEvents(page: Page)
      modifies this`hooked
      ensures hooked == Hook(old(hooked), page)
    {
      hooked := Hook(hooked, page);
    }

    /** The matching `-=`, which removes one attached pair and does nothing when none is. */
    method UnhookPageLifecycleEvents(page: Page)
      modifies this`hooked
      ensures hooked == Unhook(old(hooked), page)
    {
      hooked := Unhook(hooked, page);
    }

    /** The single routine every removal goes through: unhook, dispose, raise PageRemoved. */
    method HandlePageRemoved(page: Page)
      modifies this`hooked, this`trace
      ensures hooked == Unhook(old(hooked), page)
      ensures trace == old(trace) + Report(page)
    {
      UnhookPageLifecycleEvents(page);
      if page.autoDisposable {
        trace := trace + [Disposed(page)];
      }
      trace := trace + [PageRemoved(page)];
    }

    /** The `foreach` over a navigation stack that reports every page, bottom to top. */
    method ReportStack(pages: seq<Page>)
      modifies this`hooked, this`trace
      ensures hooked == Unhooked(old(hooked), pages)
      ensures trace == old(trace) + Reports(pages)
    {
      ghost var h1, t1 := hooked, trace;
      var i := 0;
      while i < |pages|
        invariant 0 <= i <= |pages|
        invariant hooked == Unhooked(h1, pages[..i]) && trace == t1 + Reports(pages[..i])
      {
        ReportNextPage(pages, i, h1, t1);
        i := i + 1;
      }
      assert pages[..i] == pages;
    }

    /** One pass of the `foreach`. */
    method ReportNextPage(pages: seq<Page>, i: nat, ghost h1: Hooks, ghost t1: seq<Notice>)
      requires i < |pages| && hooked == Unhooked(h1, pages[..i]) && trace == t1 + Reports(pages[..i])
      modifies this`hooked, this`trace
      ensures hooked == Unhooked(h1, pages[..i + 1]) && trace == t1 + Reports(pages[..i + 1])
    {
      ReportedPrefix(h1, pages, i);
      HandlePageRemoved(pages[i]);
    }

    /** OnPageAppearing, run once for each attached handler when the framework raises
        Appearing on `page`. */
    method RaisePageAppearing(page: Page)
      modifies this`trace
      ensures trace == old(trace) + Callbacks(NavigatedTo(page), page.lifecycleAware, HookCount(hooked, page))
    {
      var i := 0;
      while i < HookCount(hooked, page)
        invariant 0 <= i <= HookCount(hooked, page)
        invariant trace == old(trace) + Callbacks(NavigatedTo(page), page.lifecycleAware, i)
      {
        if page.lifecycleAware {
          trace := trace + [NavigatedTo(page)];
        }
        i := i + 1;
      }
    }

    /** OnPageDisappearing, run once for each attached handler when the framework raises
        Disappearing on `page`. */
    method RaisePageDisappearing(page: Page)
      modifies this`trace
      ensures trace == old(trace) + Callbacks(NavigatedFrom(page), page.lifecycleAware, HookCount(hooked, page))
    {
      var i := 0;
      while i < HookCount(hooked, page)
        invariant 0 <= i <= HookCount(hooked, page)
        invariant trace == old(trace) + Callbacks(NavigatedFrom(page), page.lifecycleAware, i)
      {
        if page.lifecycleAware {
          trace := trace + [NavigatedFrom(page)];
        }
        i := i + 1;
      }
    }

    // -------------------------------------------------------------------------------------
    // Replacing the root
    // -------------------------------------------------------------------------------------

    /** Makes `created` the stand-alone main page, after reporting every page of the old
        navigation container (which is dropped) and the old main page. Without an
        application, setting the window's page dereferences null. */
    method OpenMainPage(created: Option<Page>) returns (r: Outcome)
      requires Valid()
      modifies this`mainNavigationPage, this`mainPage, this`hooked, this`trace, this`windowPage
      ensures Valid()
      ensures mainNavigationPage.None? && mainPage == created
      ensures var removed := StackOf(old(mainNavigationPage)) + PageList(old(mainPage));
              trace == old(trace) + Reports(removed) &&
              hooked == (if created.Some? then Hook(Unhooked(old(hooked), removed), created.value)
                         else Unhooked(old(hooked), removed))
      ensures r == (if created.Some? && app.None? then Threw(ApplicationMissing) else Completed)
      ensures windowPage == (if created.Some? && app.Some? && hasWindow then Some(PageRoot(created.value))
                             else old(windowPage))
    {
      ReportRoot();
      mainNavigationPage := None;   // its Popped/PoppedToRoot handlers are removed with it
      if created.Some? {
        HookPageLifecycleEvents(created.value);
      }
      mainPage := created;
      r := Completed;
      if mainPage.Some? {
        if app.None? {
          return Threw(ApplicationMissing);
        }
        if hasWindow {
          windowPage := Some(PageRoot(mainPage.value));
        }
      }
    }

    /** The cleanup both root replacements begin with: report the stack of the navigation
        container, bottom to top, then the stand-alone main page, and forget the latter. */
    method ReportRoot()
      modifies this`mainPage, this`hooked, this`trace
      ensures mainPage.None?
      ensures var removed := StackOf(mainNavigationPage) + PageList(old(mainPage));
              trace == old(trace) + Reports(removed) && hooked == Unhooked(old(hooked), removed)
    {
      var pages := StackOf(mainNavigationPage);
      ReportStack(pages);
      if mainPage.Some? {
        var p := mainPage.value;
        ghost var h1, t1 := hooked, trace;
        HandlePageRemoved(p);
        assert hooked == Unhook(h1, p) && trace == t1 + Report(p);
        ReportsSnoc(pages, p);
        UnhookedSnoc(old(hooked), pages, p);
        assert PageList(old(mainPage)) == [p];
        mainPage := None;
      } else {
        assert pages + PageList(old(mainPage)) == pages;
      }
    }

    /** Replaces the root by a new navigation container whose stack is the created page:
        reports the old container's pages bottom to top, then the old main page. Throws
        without an application (changing nothing) and when the page cannot be created, in
        which case the old container stays referenced with its handlers detached. */
    method OpenMainNavigationPage(created: Option<Page>) returns (r: Outcome)
      requires Valid()
      modifies this`mainNavigationPage, this`mainPage, this`hooked, this`trace, this`windowPage
      ensures Valid()
      ensures app.None? ==> r == Threw(ApplicationMissing) && unchanged(this)
      ensures app.Some? ==>
                var removed := StackOf(old(mainNavigationPage)) + PageList(old(mainPage));
                mainPage.None? && trace == old(trace) + Reports(removed) &&
                hooked == (if created.Some? then Hook(Unhooked(old(hooked), removed), created.value)
                           else Unhooked(old(hooked), removed))
      ensures app.Some? && created.None? ==>
                r == Threw(CreationFailed) && mainNavigationPage == Detached(old(mainNavigationPage)) &&
                windowPage == old(windowPage)
      ensures app.Some? && created.Some? ==>
                r == Completed && mainNavigationPage == Some(NavigationPage([created.value], true)) &&
                windowPage == (if hasWindow then Some(NavigationRoot) else old(windowPage))
    {
      if app.None? {
        return Threw(ApplicationMissing);
      }
      ReportRoot();
      mainNavigationPage := Detached(mainNavigationPage);
      if created.None? {
        return Threw(CreationFailed);
      }
      mainNavigationPage := Some(NavigationPage([created.value], true));
      HookPageLifecycleEvents(created.value);
      if hasWindow {
        windowPage := Some(NavigationRoot);
      }
      r := Completed;
    }

    // -------------------------------------------------------------------------------------
    // The navigation stack
    // -------------------------------------------------------------------------------------

    /** Pushes the created page, first closing every modal page. With a non-zero
        `pagesToPopCount` k the page replaces the top k pages instead: it is inserted below
        the top, the pages at the fixed index n-k are removed and reported, and finally the
        old top is popped, which the framework reports through the Popped handler when that
        is attached. Every exception is swallowed. */
    method PushPage(created: Option<Page>, pagesToPopCount: int)
      requires Valid()
      modifies this`mainNavigationPage, this`modalStack, this`hooked, this`trace
      ensures Valid()
      ensures old(mainNavigationPage).None? ==>
                mainNavigationPage == old(mainNavigationPage) && modalStack == old(modalStack) &&
                hooked == old(hooked) && trace == old(trace)
      ensures old(mainNavigationPage).Some? ==>
                modalStack == [] && mainNavigationPage.Some? &&
                mainNavigationPage.value.poppedHooked == old(mainNavigationPage).value.poppedHooked
      ensures old(mainNavigationPage).Some? && created.None? ==>
                mainNavigationPage == old(mainNavigationPage) && hooked == old(hooked) && trace == old(trace)
      ensures old(mainNavigationPage).Some? && created.Some? ==>
                var s, p, k := old(mainNavigationPage).value.stack, created.value, pagesToPopCount;
                ReplacedTop(s, p, k, old(mainNavigationPage).value.poppedHooked, old(hooked), old(trace),
                            mainNavigationPage.value.stack, hooked, trace)
    {
      if mainNavigationPage.None? {
        return;
      }
      while |modalStack| != 0
        invariant mainNavigationPage == old(mainNavigationPage) && hooked == old(hooked) && trace == old(trace)
        decreases |modalStack|
      {
        modalStack := modalStack[..|modalStack| - 1];   // PopModalAsync(animated: false)
      }
      if created.None? {
        return;
      }
      var newPage := created.value;
      HookPageLifecycleEvents(newPage);
      if pagesToPopCount != 0 {
        ReplaceTopPages(newPage, pagesToPopCount);
      } else {
        // PushAsync(newPage)
        mainNavigationPage := Some(mainNavigationPage.value.(stack := mainNavigationPage.value.stack + [newPage]));
      }
    }

    /** The part of PushPage with a non-zero pop count, after the new page is hooked. */
    method ReplaceTopPages(newPage: Page, pagesToPopCount: int)
      requires mainNavigationPage.Some? && pagesToPopCount != 0
      modifies this`mainNavigationPage, this`hooked, this`trace
      ensures mainNavigationPage.Some? &&
              mainNavigationPage.value.poppedHooked == old(mainNavigationPage).value.poppedHooked
      ensures var s, n, k := old(mainNavigationPage).value.stack, |old(mainNavigationPage).value.stack|, pagesToPopCount;
              if 1 <= k <= n then
                var removed := ReplacedPages(s, k, old(mainNavigationPage).value.poppedHooked);
                mainNavigationPage.value.stack == s[..n - k] + [newPage] &&
                trace == old(trace) + Reports(removed) && hooked == Unhooked(old(hooked), removed)
              else
                mainNavigationPage.value.stack == (if n == 0 then s else s[..n - 1] + [newPage, s[n - 1]]) &&
                hooked == old(hooked) && trace == old(trace)
    {
      ghost var st := Start(mainNavigationPage.value.stack, mainNavigationPage.value.poppedHooked, hooked, trace);
      ghost var s, n, k := st.stack, |st.stack|, pagesToPopCount;
      ghost var valid := 1 <= k <= n;
      var popCount := pagesToPopCount;
      var navStackCount := |mainNavigationPage.value.stack|;
      if navStackCount == 0 {
        return;   // NavigationStack[-1] throws
      }
      // InsertPageBefore(newPage, NavigationStack[navStackCount - 1])
      var before := mainNavigationPage.value.stack;
      mainNavigationPage := Some(mainNavigationPage.value.(stack := before[..navStackCount - 1] + [newPage, before[navStackCount - 1]]));
      if valid {
        assert s[n - k..n - k] == [] && s[..n - k] + s[n - k..n - 1] == s[..n - 1];
      }
      var index := navStackCount - pagesToPopCount;
      while popCount != 0 && |mainNavigationPage.value.stack| != 1
        invariant mainNavigationPage.Some?
        invariant valid ==> Replacing(st, newPage, k, popCount, mainNavigationPage, hooked, trace)
        invariant !valid ==>
                    popCount == k && mainNavigationPage == Some(NavigationPage(s[..n - 1] + [newPage, s[n - 1]], st.poppedHooked)) &&
                    hooked == st.hooks && trace == st.trace
        decreases if popCount < 0 then 0 else popCount
      {
        if popCount != 1 {
          if index < 0 || index >= |mainNavigationPage.value.stack| {
            return;   // ArgumentOutOfRangeException
          }
          RemoveReplacedPage(index, st, newPage, k, popCount);
        } else {
          PopReplacedTop(st, newPage, k);
        }
        popCount := popCount - 1;
      }
    }

    /** A pass of the removal loop of PushPage other than the last: RemovePage of the page at
        the fixed index, reported through OnNavigationPagePopped. */
    method RemoveReplacedPage(index: int, ghost st: Start, ghost p: Page, ghost k: int, ghost left: int)
      requires Replacing(st, p, k, left, mainNavigationPage, hooked, trace) && left >= 2 && index == |st.stack| - k
      modifies this`mainNavigationPage, this`hooked, this`trace
      ensures Replacing(st, p, k, left - 1, mainNavigationPage, hooked, trace)
    {
      var stack := mainNavigationPage.value.stack;
      RemovalPass(st, p, k, left, stack, hooked, trace);
      var pageToRemove := stack[index];
      mainNavigationPage := Some(mainNavigationPage.value.(stack := stack[..index] + stack[index + 1..]));
      HandlePageRemoved(pageToRemove);
    }

    /** The last pass of the removal loop of PushPage: PopAsync takes the old top off the
        stack, and the framework's Popped event reports it only while the handler is attached. */
    method PopReplacedTop(ghost st: Start, ghost p: Page, ghost k: int)
      requires Replacing(st, p, k, 1, mainNavigationPage, hooked, trace)
      modifies this`mainNavigationPage, this`hooked, this`trace
      ensures Replacing(st, p, k, 0, mainNavigationPage, hooked, trace)
    {
      var stack := mainNavigationPage.value.stack;
      PopPass(st, p, k, stack, hooked, trace);
      var poppedPage := stack[|stack| - 1];
      mainNavigationPage := Some(mainNavigationPage.value.(stack := stack[..|stack| - 1]));
      if mainNavigationPage.value.poppedHooked {
        HandlePageRemoved(poppedPage);   // OnNavigationPagePopped, raised through Popped
      }
    }

    /** Pops `nrofPagesToPop` pages, topmost first, reporting each; stops with an exception
        when the stack runs out. Without a navigation container it does nothing. */
    method PopPage(nrofPagesToPop: int) returns (r: Outcome)
      requires Valid()
      modifies this`mainNavigationPage, this`hooked, this`trace
      ensures Valid()
      ensures old(mainNavigationPage).None? ==>
                r == Completed && mainNavigationPage == old(mainNavigationPage) &&
                hooked == old(hooked) && trace == old(trace)
      ensures old(mainNavigationPage).Some? ==>
                var s := old(mainNavigationPage).value.stack;
                var popped := Reversed(s[|s| - PopCount(nrofPagesToPop, |s|)..]);
                mainNavigationPage == Some(old(mainNavigationPage).value.(stack := s[..|s| - PopCount(nrofPagesToPop, |s|)])) &&
                trace == old(trace) + Reports(popped) && hooked == Unhooked(old(hooked), popped) &&
                r == (if nrofPagesToPop > |s| then Threw(StackEmpty) else Completed)
    {
      if mainNavigationPage.None? {
        return Completed;
      }
      ghost var st := Start(mainNavigationPage.value.stack, mainNavigationPage.value.poppedHooked, hooked, trace);
      ghost var s, done := st.stack, 0;
      var remaining := nrofPagesToPop;
      assert s[..|s|] == s && s[|s|..] == [];
      while remaining > 0
        invariant 0 <= done <= |s|
        invariant remaining == nrofPagesToPop - done
        invariant nrofPagesToPop <= 0 ==> done == 0
        invariant nrofPagesToPop > 0 ==> done <= nrofPagesToPop
        invariant Popping(st, done, mainNavigationPage, hooked, trace)
      {
        if |mainNavigationPage.value.stack| == 0 {
          return Threw(StackEmpty);   // NavigationStack.Last()
        }
        PopNextPage(st, done);
        done := done + 1;
        remaining := remaining - 1;
      }
      r := Completed;
    }

    /** One pass of the loop of PopPage: RemovePage of the top page, which the service
        reports through OnNavigationPagePopped. */
    method PopNextPage(ghost st: Start, ghost done: nat)
      requires Popping(st, done, mainNavigationPage, hooked, trace) && done < |st.stack|
      modifies this`mainNavigationPage, this`hooked, this`trace
      ensures Popping(st, done + 1, mainNavigationPage, hooked, trace)
    {
      var stack := mainNavigationPage.value.stack;
      PopNextPass(st, done, stack, hooked, trace);
      var pageToRemove := stack[|stack| - 1];
      mainNavigationPage := Some(mainNavigationPage.value.(stack := stack[..|stack| - 1]));
      HandlePageRemoved(pageToRemove);
    }

    // -------------------------------------------------------------------------------------
    // Modal pages
    // -------------------------------------------------------------------------------------

    /** Hooks the page, then pushes it on the window's modal stack; throws when there is no
        application (before taking the lock), no window or no window page (the page stays
        hooked). The lock is released in every case. */
    method OpenModalPage(modalPage: Page) returns (r: Outcome)
      requires Valid()
      modifies this`modalStack, this`hooked, this`modalLock
      ensures Valid()
      ensures app.None? ==> r == Threw(ApplicationMissing) && modalStack == old(modalStack) && hooked == old(hooked)
      ensures app.Some? ==> hooked == Hook(old(hooked), modalPage)
      ensures app.Some? && !hasWindow ==> r == Threw(WindowMissing) && modalStack == old(modalStack)
      ensures app.Some? && hasWindow && windowPage.None? ==>
                r == Threw(WindowPageMissing) && modalStack == old(modalStack)
      ensures app.Some? && hasWindow && windowPage.Some? ==>
                r == Completed && modalStack == old(modalStack) + [modalPage]
    {
      if app.None? {
        return Threw(ApplicationMissing);
      }
      modalLock := modalLock - 1;   // WaitAsync
      HookPageLifecycleEvents(modalPage);
      if !hasWindow {
        r := Threw(WindowMissing);
      } else if windowPage.None? {
        r := Threw(WindowPageMissing);
      } else {
        modalStack := modalStack + [modalPage];   // PushModalAsync
        r := Completed;
      }
      modalLock := modalLock + 1;   // Release, in the finally block
    }

    /** Closes the top modal page, if the window has a page and the modal stack is not
        empty; throws without an application (before taking the lock) or without a window.
        The lock is released in every case. */
    method CloseModalPage() returns (r: Outcome)
      requires Valid()
      modifies this`modalStack, this`hooked, this`trace, this`modalLock
      ensures Valid()
      ensures app.None? ==> r == Threw(ApplicationMissing)
      ensures app.Some? && !hasWindow ==> r == Threw(WindowMissing)
      ensures app.Some? && hasWindow ==> r == Completed
      ensures var closes := app.Some? && hasWindow && windowPage.Some? && old(modalStack) != [];
              if closes then ModalClosed(old(modalStack), old(hooked), old(trace), modalStack, hooked, trace)
              else modalStack == old(modalStack) && hooked == old(hooked) && trace == old(trace)
    {
      if app.None? {
        return Threw(ApplicationMissing);
      }
      modalLock := modalLock - 1;   // WaitAsync
      r := Completed;
      if !hasWindow {
        r := Threw(WindowMissing);
      } else if windowPage.Some? && |modalStack| > 0 {
        CloseTopModalPage();
      }
      modalLock := modalLock + 1;   // Release, in the finally block
    }

    /** The body of CloseModalPage once a top modal page exists: unhook, dispose, pop, and
        then raise PageRemoved. */
    method CloseTopModalPage()
      requires modalStack != []
      modifies this`modalStack, this`hooked, this`trace
      ensures ModalClosed(old(modalStack), old(hooked), old(trace), modalStack, hooked, trace)
    {
      var modalPage := modalStack[|modalStack| - 1];
      UnhookPageLifecycleEvents(modalPage);
      if modalPage.autoDisposable {
        trace := trace + [Disposed(modalPage)];
      }
      modalStack := modalStack[..|modalStack| - 1];   // PopModalAsync
      trace := trace + [PageRemoved(modalPage)];
    }
  }
}
