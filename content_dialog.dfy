/**
 * ContentDialog<TResult>: a modal overlay page that `ShowAsync` opens through the
 * presentation service and whose awaited result is the value the dialog was closed with,
 * delivered when the page disappears. A tap on the background closes it with the default
 * result unless CloseOnBackgroundTap is off.
 */
module ContentDialogs {
  import opened Wrappers
  import opened PageLifecycle
  import opened StackSteps
  import Resources
  import PagePresentation

  /** The TaskCompletionSource behind ShowAsync: none yet, waiting, or completed with a value. */
  datatype TaskState<T> = NoTask | Pending | Done(value: T)

  /** The resource key ShowAsync looks the overlay colour up under: the dark key exactly
      when the application's requested theme is dark. */
  function OverlayKey(app: Option<Resources.App>): (key: string)
    ensures key == (if Resources.IsDark(app) then Resources.ContentDialogBackgroundOverlayDarkKey
                    else Resources.ContentDialogBackgroundOverlayKey)
  {
    Resources.ThemeKey(Resources.IsDark(app), Resources.ContentDialogBackgroundOverlayKey,
                       Resources.ContentDialogBackgroundOverlayDarkKey)
  }

  /** The overlay colour used when the key is not in the resources: 0.5 alpha black under
      the dark theme, 0.55 otherwise. */
  function OverlayFallback(app: Option<Resources.App>): Resources.Color
  {
    if Resources.IsDark(app) then Resources.OverlayFallbackDark else Resources.OverlayFallbackLight
  }

  /** The overlay colour ShowAsync gives the dialog under the application's current theme,
      looked up with the GetColor of ResourcesHelper as written: it fails exactly when the
      theme's key holds a value that is not a colour, and otherwise agrees with the
      documented lookup. */
  function OverlayColor(app: Option<Resources.App>): (r: Resources.Result<Resources.Color>)
    ensures var key := OverlayKey(app);
            r.Failure? <==> app.Some? && key in app.value.resources && !app.value.resources[key].ColorValue?
    ensures r.Ok? ==> r.value == Resources.GetColorOrFallback(app, OverlayKey(app), OverlayFallback(app))
  {
    Resources.GetColor(app, OverlayKey(app), OverlayFallback(app))
  }

  class ContentDialog<TResult> {
    /** The dialog as a page of the modal stack. */
    const page: Page
    /** `default(TResult)`, what a background tap closes the dialog with. */
    const defaultResult: TResult

    var closeOnBackgroundTap: bool
    /** The attached ModalPageProperties.Mode. */
    var mode: ModalPageMode
    var backgroundColor: Option<Resources.Color>
    /** How many times OnPageDisappearing is attached to the page's Disappearing event. */
    var disappearingHandlers: nat
    var tcs: TaskState<TResult>
    var closedWithResult: TResult

    constructor (page: Page, defaultResult: TResult)
      ensures this.page == page && this.defaultResult == defaultResult
      ensures closeOnBackgroundTap && mode == Overlay && backgroundColor.None?
      ensures disappearingHandlers == 0 && tcs == NoTask && closedWithResult == defaultResult
    {
      this.page := page;
      this.defaultResult := defaultResult;
      closeOnBackgroundTap := true;
      mode := Overlay;
      backgroundColor := None;
      disappearingHandlers := 0;
      tcs := NoTask;
      closedWithResult := defaultResult;
    }

    /** Sets the overlay colour, attaches OnPageDisappearing, starts a new pending result and
        opens the dialog as a modal page; the service's exception, if any, faults the task
        ShowAsync returns. A failed colour cast throws before anything changes. The awaited
        result is `tcs` once it is Done. */
    method ShowAsync(svc: PagePresentation.PagePresentationService) returns (r: Outcome)
      requires svc.Valid()
      modifies this`backgroundColor, this`disappearingHandlers, this`tcs
      modifies svc`modalStack, svc`hooked, svc`modalLock
      ensures svc.Valid()
      ensures OverlayColor(svc.app).Failure? ==> r == Threw(InvalidCast) && unchanged(this) && unchanged(svc)
      ensures OverlayColor(svc.app).Ok? ==>
                backgroundColor == Some(OverlayColor(svc.app).value) &&
                disappearingHandlers == old(disappearingHandlers) + 1 && tcs == Pending
      ensures OverlayColor(svc.app).Ok? && svc.app.None? ==>
                r == Threw(ApplicationMissing) && svc.modalStack == old(svc.modalStack) && svc.hooked == old(svc.hooked)
      ensures OverlayColor(svc.app).Ok? && svc.app.Some? ==> svc.hooked == Hook(old(svc.hooked), page)
      ensures OverlayColor(svc.app).Ok? && svc.app.Some? && !svc.hasWindow ==>
                r == Threw(WindowMissing) && svc.modalStack == old(svc.modalStack)
      ensures OverlayColor(svc.app).Ok? && svc.app.Some? && svc.hasWindow && svc.windowPage.None? ==>
                r == Threw(WindowPageMissing) && svc.modalStack == old(svc.modalStack)
      ensures OverlayColor(svc.app).Ok? && svc.app.Some? && svc.hasWindow && svc.windowPage.Some? ==>
                r == Completed && svc.modalStack == old(svc.modalStack) + [page]
    {
      var color := OverlayColor(svc.app);
      if color.Failure? {
        return Threw(InvalidCast);
      }
      backgroundColor := Some(color.value);
      disappearingHandlers := disappearingHandlers + 1;
      tcs := Pending;
      r := svc.OpenModalPage(page);
    }

    /** The Disappearing handler: detaches itself and completes a pending result with the
        value the dialog was closed with; a completed result stays as it is. */
    method OnPageDisappearing()
      modifies this`disappearingHandlers, this`tcs
      ensures disappearingHandlers == (if old(disappearingHandlers) == 0 then 0 else old(disappearingHandlers) - 1)
      ensures tcs == (if old(tcs).Pending? then Done(closedWithResult) else old(tcs))
    {
      if disappearingHandlers != 0 {
        disappearingHandlers := disappearingHandlers - 1;
      }
      if tcs.Pending? {
        tcs := Done(closedWithResult);
      }
    }

    /** Records the result, then asks the service to close the top modal page. */
    method CloseWithResultAsync(svc: PagePresentation.PagePresentationService, result: TResult) returns (r: Outcome)
      requires svc.Valid()
      modifies this`closedWithResult
      modifies svc`modalStack, svc`hooked, svc`trace, svc`modalLock
      ensures svc.Valid() && closedWithResult == result
      ensures svc.app.None? ==> r == Threw(ApplicationMissing)
      ensures svc.app.Some? && !svc.hasWindow ==> r == Threw(WindowMissing)
      ensures svc.app.Some? && svc.hasWindow ==> r == Completed
      ensures var closes := svc.app.Some? && svc.hasWindow && svc.windowPage.Some? && old(svc.modalStack) != [];
              if closes then ModalClosed(old(svc.modalStack), old(svc.hooked), old(svc.trace), svc.modalStack, svc.hooked, svc.trace)
              else svc.modalStack == old(svc.modalStack) && svc.hooked == old(svc.hooked) && svc.trace == old(svc.trace)
    {
      closedWithResult := result;
      r := svc.CloseModalPage();
    }

    /** A tap on the background: closes with the default result when CloseOnBackgroundTap is
        on. The handler is `async void`: no caller awaits it, so an exception of the close
        (`r`) is not caught by the library and is raised unhandled on the UI thread. */
    method BackgroundTapped(svc: PagePresentation.PagePresentationService) returns (r: Outcome)
      requires svc.Valid()
      modifies this`closedWithResult
      modifies svc`modalStack, svc`hooked, svc`trace, svc`modalLock
      ensures svc.Valid()
      ensures !closeOnBackgroundTap ==>
                r == Completed && closedWithResult == old(closedWithResult) && svc.modalStack == old(svc.modalStack) &&
                svc.hooked == old(svc.hooked) && svc.trace == old(svc.trace)
      ensures closeOnBackgroundTap ==> closedWithResult == defaultResult
      ensures closeOnBackgroundTap && svc.app.None? ==> r == Threw(ApplicationMissing)
      ensures closeOnBackgroundTap && svc.app.Some? && !svc.hasWindow ==> r == Threw(WindowMissing)
      ensures closeOnBackgroundTap && svc.app.Some? && svc.hasWindow ==> r == Completed
      ensures var closes := svc.app.Some? && svc.hasWindow && svc.windowPage.Some? && old(svc.modalStack) != [];
              closeOnBackgroundTap ==>
                if closes then ModalClosed(old(svc.modalStack), old(svc.hooked), old(svc.trace), svc.modalStack, svc.hooked, svc.trace)
                else svc.modalStack == old(svc.modalStack) && svc.hooked == old(svc.hooked) && svc.trace == old(svc.trace)
    {
      r := Completed;
      if closeOnBackgroundTap {
        r := CloseWithResultAsync(svc, defaultResult);
      }
    }

    /** A tap on the content: the handler is empty, so that the tap does not reach the
        background and nothing changes. */
    method ContentContainerTapped(svc: PagePresentation.PagePresentationService)
      ensures unchanged(this) && unchanged(svc)
    {
    }
  }

  /** A dialog shown over a window with a page and closed with `v` leaves the modal stack as
      it was, reports the dialog page once, and, when the framework then raises Disappearing
      on it, completes the awaited result with `v`. When the overlay colour cast fails,
      ShowAsync throws and the dialog is never shown. */
  method ShowThenClose<T>(d: ContentDialog<T>, svc: PagePresentation.PagePresentationService, v: T)
    requires svc.Valid() && svc.app.Some? && svc.hasWindow && svc.windowPage.Some?
    modifies d, svc
    ensures svc.Valid()
    ensures OverlayColor(svc.app).Failure? ==> unchanged(d) && unchanged(svc)
    ensures OverlayColor(svc.app).Ok? ==>
              svc.modalStack == old(svc.modalStack) && svc.trace == old(svc.trace) + Report(d.page) &&
              HookCount(svc.hooked, d.page) == HookCount(old(svc.hooked), d.page) &&
              d.tcs == Done(v) && d.disappearingHandlers == old(d.disappearingHandlers)
  {
    var shown := d.ShowAsync(svc);
    if shown == Threw(InvalidCast) {
      return;   // the awaited ShowAsync throws
    }
    assert svc.modalStack == old(svc.modalStack) + [d.page];
    var closed := d.CloseWithResultAsync(svc, v);
    assert (old(svc.modalStack) + [d.page])[..|old(svc.modalStack)|] == old(svc.modalStack);
    d.OnPageDisappearing();   // the framework raises Disappearing on the popped page
  }
}
