/**
 * What both navigation services share: pages, the notices the services make observable
 * (view-model disposal, the PageRemoved event, the lifecycle callbacks), the framework's
 * navigation container as a value, and the report that every page removal produces.
 */
module PageLifecycle {
  import opened Wrappers

  /** A page, identified by its id. The two flags say which marker interfaces the page's
      binding context (its view-model) implements: IAutoDisposableOnPageClosed and
      IPageLifecycleAware. A page without a view-model has both flags false. */
  datatype Page = Page(id: nat, autoDisposable: bool, lifecycleAware: bool)

  /** An observable effect of the services, in the order they happen. */
  datatype Notice =
    | Disposed(page: Page)        // Dispose() called on the page's view-model
    | PageRemoved(page: Page)     // the PageRemoved event raised for the page
    | NavigatedTo(page: Page)     // IPageLifecycleAware.OnNavigatedTo() called
    | NavigatedFrom(page: Page)   // IPageLifecycleAware.OnNavigatedFrom() called

  /** The framework's NavigationPage: its navigation stack, bottom first, and whether the
      service's Popped/PoppedToRoot handlers are attached to it. */
  datatype NavigationPage = NavigationPage(stack: seq<Page>, poppedHooked: bool)

  /** What a window shows: a navigation container or a stand-alone page. */
  datatype Root = NavigationRoot | PageRoot(page: Page)

  /** The attached ModalPageProperties.Mode of a page. */
  datatype ModalPageMode = FullScreen | Overlay

  /** Why a call threw. */
  datatype Failure =
    | ApplicationMissing   // Application.Current is null
    | WindowMissing        // Application.Current.Windows[0] with no window
    | WindowPageMissing    // Application.Current.Windows[0].Page is null
    | CreationFailed       // the page instance could not be created
    | StackEmpty           // NavigationStack.Last() on an empty stack
    | InvalidCast          // a resource cast `(Color)val` on a value that is not a colour

  datatype Outcome = Completed | Threw(failure: Failure)

  /** The notices of one removal, in order: the view-model is disposed when it is
      auto-disposable, then PageRemoved is raised. */
  function Report(p: Page): (r: seq<Notice>)
    ensures |r| == (if p.autoDisposable then 2 else 1)
    ensures r[|r| - 1] == PageRemoved(p)
  {
    (if p.autoDisposable then [Disposed(p)] else []) + [PageRemoved(p)]
  }

  /** The notices of removing the pages of `ps` one after the other, first to last. */
  function Reports(ps: seq<Page>): seq<Notice>
  {
    if ps == [] then [] else Reports(ps[..|ps| - 1]) + Report(ps[|ps| - 1])
  }

  /** The pages for which PageRemoved was raised, in the order it was raised. */
  function RemovedPages(t: seq<Notice>): seq<Page>
  {
    if t == [] then []
    else RemovedPages(t[..|t| - 1]) + (if t[|t| - 1].PageRemoved? then [t[|t| - 1].page] else [])
  }

  /** The pages whose view-model was disposed, in the order of disposal. */
  function DisposedPages(t: seq<Notice>): seq<Page>
  {
    if t == [] then []
    else DisposedPages(t[..|t| - 1]) + (if t[|t| - 1].Disposed? then [t[|t| - 1].page] else [])
  }

  /** The pages of `ps` whose view-model is auto-disposable, in order. */
  function AutoDisposable(ps: seq<Page>): seq<Page>
  {
    if ps == [] then []
    else AutoDisposable(ps[..|ps| - 1]) + (if ps[|ps| - 1].autoDisposable then [ps[|ps| - 1]] else [])
  }

  /** `s` last element first. */
  function Reversed(s: seq<Page>): (r: seq<Page>)
    ensures |r| == |s|
  {
    if s == [] then [] else Reversed(s[1..]) + [s[0]]
  }

  /** The lifecycle callbacks a raised Appearing/Disappearing event produces: one per attached
      handler, and none when the view-model is not lifecycle-aware. */
  function Callbacks(n: Notice, lifecycleAware: bool, handlers: nat): (r: seq<Notice>)
    ensures |r| == (if lifecycleAware then handlers else 0)
    ensures forall i :: 0 <= i < |r| ==> r[i] == n
  {
    if !lifecycleAware || handlers == 0 then [] else [n] + Callbacks(n, lifecycleAware, handlers - 1)
  }

  /** The stack a navigation container holds, empty when there is none. */
  function StackOf(nav: Option<NavigationPage>): seq<Page>
  {
    if nav.Some? then nav.value.stack else []
  }

  /** A stand-alone main page as the list of pages it contributes to a removal. */
  function PageList(p: Option<Page>): (r: seq<Page>)
    ensures |r| <= 1
    ensures forall q :: q in r <==> p == Some(q)
  {
    if p.Some? then [p.value] else []
  }

  /** How many pages `while (nrofPagesToPop-- > 0)` takes off a stack of `len` pages before
      it either finishes or finds the stack empty. */
  function PopCount(nrofPagesToPop: int, len: nat): (k: nat)
    ensures k <= len
    ensures nrofPagesToPop <= 0 ==> k == 0
    ensures 0 <= nrofPagesToPop <= len ==> k == nrofPagesToPop
    ensures nrofPagesToPop > len ==> k == len
  {
    if nrofPagesToPop <= 0 then 0 else if nrofPagesToPop > len then len else nrofPagesToPop
  }

  /** A container whose Popped/PoppedToRoot handlers have been removed. */
  function Detached(nav: Option<NavigationPage>): (r: Option<NavigationPage>)
    ensures r.Some? <==> nav.Some?
    ensures r.Some? ==> r.value.stack == nav.value.stack && !r.value.poppedHooked
  {
    if nav.Some? then Some(nav.value.(poppedHooked := false)) else nav
  }

  // ---------------------------------------------------------------------------------------
  // Lemmas about the report
  // ---------------------------------------------------------------------------------------

  lemma ReportsSnoc(ps: seq<Page>, p: Page)
    ensures Reports(ps + [p]) == Reports(ps) + Report(p)
  {
    assert (ps + [p])[..|ps|] == ps;
  }

  lemma {:induction false} ReportsAppend(a: seq<Page>, b: seq<Page>)
    ensures Reports(a + b) == Reports(a) + Reports(b)
    decreases |b|
  {
    if b == [] {
      assert a + b == a;
    } else {
      var b' := b[..|b| - 1];
      var x := b[|b| - 1];
      assert a + b == (a + b') + [x];
      calc {
        Reports(a + b);
        { ReportsSnoc(a + b', x); }
        Reports(a + b') + Report(x);
        { ReportsAppend(a, b'); }
        Reports(a) + Reports(b') + Report(x);
        Reports(a) + Reports(b);
      }
    }
  }

  lemma {:induction false} RemovedPagesAppend(a: seq<Notice>, b: seq<Notice>)
    ensures RemovedPages(a + b) == RemovedPages(a) + RemovedPages(b)
    decreases |b|
  {
    if b == [] {
      assert a + b == a;
    } else {
      var b' := b[..|b| - 1];
      assert (a + b)[..|a + b| - 1] == a + b';
      RemovedPagesAppend(a, b');
    }
  }

  lemma {:induction false} DisposedPagesAppend(a: seq<Notice>, b: seq<Notice>)
    ensures DisposedPages(a + b) == DisposedPages(a) + DisposedPages(b)
    decreases |b|
  {
    if b == [] {
      assert a + b == a;
    } else {
      var b' := b[..|b| - 1];
      assert (a + b)[..|a + b| - 1] == a + b';
      DisposedPagesAppend(a, b');
    }
  }

  /** One removal raises PageRemoved for its page once, and disposes the page's view-model
      only when it is auto-disposable. */
  lemma ReportOfOnePage(p: Page)
    ensures RemovedPages(Report(p)) == [p]
    ensures DisposedPages(Report(p)) == if p.autoDisposable then [p] else []
  {
    var r := Report(p);
    assert [PageRemoved(p)][..0] == [];
    if p.autoDisposable {
      assert r[..1] == [Disposed(p)] && [Disposed(p)][..0] == [];
      assert RemovedPages(r[..1]) == [] && DisposedPages(r[..1]) == [p];
      assert RemovedPages(r) == RemovedPages(r[..1]) + [p];
      assert DisposedPages(r) == DisposedPages(r[..1]);
    } else {
      assert r == [PageRemoved(p)];
    }
  }

  /** Removing the pages of `ps` raises PageRemoved exactly once per page, in removal order. */
  lemma {:induction false} ReportsRaiseEachOnce(ps: seq<Page>)
    ensures RemovedPages(Reports(ps)) == ps
    decreases |ps|
  {
    if ps != [] {
      var ps' := ps[..|ps| - 1];
      var p := ps[|ps| - 1];
      calc {
        RemovedPages(Reports(ps));
        RemovedPages(Reports(ps') + Report(p));
        { RemovedPagesAppend(Reports(ps'), Report(p)); }
        RemovedPages(Reports(ps')) + RemovedPages(Report(p));
        { ReportsRaiseEachOnce(ps'); ReportOfOnePage(p); }
        ps' + [p];
      }
      assert ps == ps' + [p];
    }
  }

  /** Removing the pages of `ps` disposes exactly the auto-disposable view-models, in order. */
  lemma {:induction false} ReportsDisposeAutoDisposable(ps: seq<Page>)
    ensures DisposedPages(Reports(ps)) == AutoDisposable(ps)
    decreases |ps|
  {
    if ps != [] {
      var ps' := ps[..|ps| - 1];
      var p := ps[|ps| - 1];
      assert Reports(ps) == Reports(ps') + Report(p);
      ReportsDisposeAutoDisposable(ps');
      DisposedPagesAppend(Reports(ps'), Report(p));
      ReportOfOnePage(p);
    }
  }

  /** Taking the element just below a suffix prepends it to the suffix and appends it to
      the suffix reversed (topmost first). */
  lemma ReversedExtend(s: seq<Page>, j: int)
    requires 0 < j <= |s|
    ensures s[j - 1..] == [s[j - 1]] + s[j..]
    ensures Reversed(s[j - 1..]) == Reversed(s[j..]) + [s[j - 1]]
  {
    assert s[j - 1..][1..] == s[j..];
  }

  lemma {:induction false} ReversedAppend(a: seq<Page>, b: seq<Page>)
    ensures Reversed(a + b) == Reversed(b) + Reversed(a)
    decreases |a|
  {
    if a == [] {
      assert a + b == b;
    } else {
      assert (a + b)[1..] == a[1..] + b;
      ReversedAppend(a[1..], b);
    }
  }

  /** Reporting twice in reverse gives the original order back. */
  lemma {:induction false} ReversedTwice(s: seq<Page>)
    ensures Reversed(Reversed(s)) == s
    decreases |s|
  {
    if s != [] {
      ReversedTwice(s[1..]);
      ReversedAppend(Reversed(s[1..]), [s[0]]);
      assert [s[0]][1..] == [];
      assert s == [s[0]] + s[1..];
    }
  }

  /** Popping the top `k` pages topmost first and listing the pages PageRemoved was raised
      for, last one first, below the kept pages gives back the stack as it was: every popped
      page is reported once, and no kept page is. */
  lemma PoppedPagesAreTheTop(s: seq<Page>, k: nat)
    requires k <= |s|
    ensures s[..|s| - k] + Reversed(RemovedPages(Reports(Reversed(s[|s| - k..])))) == s
  {
    ReportsRaiseEachOnce(Reversed(s[|s| - k..]));
    ReversedTwice(s[|s| - k..]);
    assert s[..|s| - k] + s[|s| - k..] == s;
  }

  // ---------------------------------------------------------------------------------------
  // Attached lifecycle handlers
  // ---------------------------------------------------------------------------------------

  /** How many Appearing/Disappearing handler pairs of the service each page has. */
  type Hooks = map<Page, nat>

  function HookCount(h: Hooks, p: Page): nat
  {
    if p in h then h[p] else 0
  }

  /** `page.Appearing += …; page.Disappearing += …`: one more pair, even when one is attached. */
  function Hook(h: Hooks, p: Page): (r: Hooks)
    ensures HookCount(r, p) == HookCount(h, p) + 1
  {
    h[p := HookCount(h, p) + 1]
  }

  /** The matching `-=`: one pair fewer, and nothing when none is attached. */
  function Unhook(h: Hooks, p: Page): (r: Hooks)
    ensures HookCount(r, p) == if HookCount(h, p) == 0 then 0 else HookCount(h, p) - 1
  {
    if HookCount(h, p) == 0 then h else h[p := HookCount(h, p) - 1]
  }

  /** Unhooking the pages of `ps` one after the other. */
  function Unhooked(h: Hooks, ps: seq<Page>): Hooks
  {
    if ps == [] then h else Unhook(Unhooked(h, ps[..|ps| - 1]), ps[|ps| - 1])
  }

  lemma UnhookedSnoc(h: Hooks, ps: seq<Page>, p: Page)
    ensures Unhooked(h, ps + [p]) == Unhook(Unhooked(h, ps), p)
  {
    assert (ps + [p])[..|ps|] == ps;
  }

  /** A removal undoes one push: unhooking a page after hooking it restores every count. */
  lemma UnhookUndoesHook(h: Hooks, p: Page, q: Page)
    ensures HookCount(Unhook(Hook(h, p), p), q) == HookCount(h, q)
  {
    if p != q {
      HookLeavesOthers(Hook(h, p), p, q);
      HookLeavesOthers(h, p, q);
    }
  }

  /** Reporting one more page of a sequence extends both the report and the unhooking. */
  lemma ReportedPrefix(h: Hooks, pages: seq<Page>, i: nat)
    requires i < |pages|
    ensures Reports(pages[..i + 1]) == Reports(pages[..i]) + Report(pages[i])
    ensures Unhooked(h, pages[..i + 1]) == Unhook(Unhooked(h, pages[..i]), pages[i])
  {
    assert pages[..i + 1] == pages[..i] + [pages[i]];
    ReportsSnoc(pages[..i], pages[i]);
    UnhookedSnoc(h, pages[..i], pages[i]);
  }

  /** Hooking or unhooking one page leaves every other page's count alone. */
  lemma HookLeavesOthers(h: Hooks, p: Page, q: Page)
    requires p != q
    ensures HookCount(Hook(h, p), q) == HookCount(h, q)
    ensures HookCount(Unhook(h, p), q) == HookCount(h, q)
  {
  }

  /** After unhooking the pages of `ps`, a page has lost one pair per occurrence in `ps`, down
      to none: the count is the multiset difference of the attached pairs and `ps`. */
  lemma {:induction false} UnhookedCount(h: Hooks, ps: seq<Page>, q: Page)
    ensures HookCount(Unhooked(h, ps), q) ==
            if HookCount(h, q) >= multiset(ps)[q] then HookCount(h, q) - multiset(ps)[q] else 0
    decreases |ps|
  {
    if ps != [] {
      var ps' := ps[..|ps| - 1];
      var p := ps[|ps| - 1];
      assert ps == ps' + [p];
      assert multiset(ps) == multiset(ps') + multiset{p};
      UnhookedCount(h, ps', q);
      if p != q {
        HookLeavesOthers(Unhooked(h, ps'), p, q);
      }
    }
  }
}
