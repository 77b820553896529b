/**
 * The XAML ContentDialog: the same modal overlay as ContentDialog<TResult>, with the result
 * fixed to ContentDialogResult, None until the dialog is closed with another value, and a
 * background tap that always closes it with None.
 */
module ContentDialogPage {
  import opened Wrappers
  import opened PageLifecycle
  import opened StackSteps
  import Resources
  import PagePresentation
  import opened ContentDialogs

  datatype ContentDialogResult = None | Primary | Secondary

  class ContentDialog {
    /** The dialog as a page of the modal stack. */
    const page: Page

    /** The attached ModalPageProperties.Mode. */
    var mode: ModalPageMode
    var backgroundColor: Option<Resources.Color>
    /** How many times OnPageDisappearing is attached to the page's Disappearing event. */
    var disappearingHandlers: nat
    var tcs: TaskState<ContentDialogResult>
    var closedWithResult: ContentDialogResult

    constructor (page: Page)
      ensures this.page == page && mode == Overlay && backgroundColor == Option.None
      ensures disappearingHandlers == 0 && tcs == NoTask && closedWithResult == ContentDialogResult.None
    {
      this.page := page;
      mode := Overlay;
      backgroundColor := Option.None;
      disappearingHandlers := 0;
      tcs := NoTask;
      closedWithResult := ContentDialogResult.None;
    }

    /** Sets the overlay colour, attaches OnPageDisappearing, starts a new pending result and
        opens the dialog as a modal page; the service's exception, if any, faults the task
        ShowAsync returns. A failed colour cast throws before anything changes. */
    method ShowAsync(svc: PagePresentation.PagePresentationService) returns (r: Outcome)
      requires svc.Valid()
      modifies this`backgroundColor, this`disappearingHandlers, this`tcs
      modifies svc`modalStack, svc`hooked, svc`modalLock
      ensures svc.Valid()
      ensures OverlayColor(svc.app).Failure? ==> r == Threw(InvalidCast) && unchanged(this) && unchanged(svc)
      ensures OverlayColor(svc.app).Ok? ==>
                backgroundColor == Some(OverlayColor(svc.app).value) &&
                disappearingHandlers == old(disappearingHandlers) + 1 && tcs == Pending
      ensures OverlayColor(svc.app).Ok? && svc.app.None? ==>
                r == Threw(ApplicationMissing) && svc.modalStack == old(svc.modalStack) && svc.hooked == old(svc.hooked)
      ensures OverlayColor(svc.app).Ok? && svc.app.Some? ==> svc.hooked == Hook(old(svc.hooked), page)
      ensures OverlayColor(svc.app).Ok? && svc.app.Some? && !svc.hasWindow ==>
                r == Threw(WindowMissing) && svc.modalStack == old(svc.modalStack)
      ensures OverlayColor(svc.app).Ok? && svc.app.Some? && svc.hasWindow && svc.windowPage.None? ==>
                r == Threw(WindowPageMissing) && svc.modalStack == old(svc.modalStack)
      ensures OverlayColor(svc.app).Ok? && svc.app.Some? && svc.hasWindow && svc.windowPage.Some? ==>
                r == Completed && svc.modalStack == old(svc.modalStack) + [page]
    {
      var color := OverlayColor(svc.app);
      if color.Failure? {
        return Threw(InvalidCast);
      }
      backgroundColor := Some(color.value);
      disappearingHandlers := disappearingHandlers + 1;
      tcs := Pending;
      r := svc.OpenModalPage(page);
    }

    /** The Disappearing handler: detaches itself and completes a pending result with the
        value the dialog was closed with. */
    method OnPageDisappearing()
      modifies this`disappearingHandlers, this`tcs
      ensures disappearingHandlers == (if old(disappearingHandlers) == 0 then 0 else old(disappearingHandlers) - 1)
      ensures tcs == (if old(tcs).Pending? then Done(closedWithResult) else old(tcs))
    {
      if disappearingHandlers != 0 {
        disappearingHandlers := disappearingHandlers - 1;
      }
      if tcs.Pending? {
        tcs := Done(closedWithResult);
      }
    }

    /** Records the result, then asks the service to close the top modal page. */
    method CloseWithResultAsync(svc: PagePresentation.PagePresentationService, result: ContentDialogResult) returns (r: Outcome)
      requires svc.Valid()
      modifies this`closedWithResult
      modifies svc`modalStack, svc`hooked, svc`trace, svc`modalLock
      ensures svc.Valid() && closedWithResult == result
      ensures svc.app.None? ==> r == Threw(ApplicationMissing)
      ensures svc.app.Some? && !svc.hasWindow ==> r == Threw(WindowMissing)
      ensures svc.app.Some? && svc.hasWindow ==> r == Completed
      ensures var closes := svc.app.Some? && svc.hasWindow && svc.windowPage.Some? && old(svc.modalStack) != [];
              if closes then ModalClosed(old(svc.modalStack), old(svc.hooked), old(svc.trace), svc.modalStack, svc.hooked, svc.trace)
              else svc.modalStack == old(svc.modalStack) && svc.hooked == old(svc.hooked) && svc.trace == old(svc.trace)
    {
      closedWithResult := result;
      r := svc.CloseModalPage();
    }

    /** A tap on the background always closes the dialog with None. The handler is
        `async void`: no caller awaits it, so an exception of the close (`r`) is not caught
        by the library and is raised unhandled on the UI thread. */
    method BackgroundTapped(svc: PagePresentation.PagePresentationService) returns (r: Outcome)
      requires svc.Valid()
      modifies this`closedWithResult
      modifies svc`modalStack, svc`hooked, svc`trace, svc`modalLock
      ensures svc.Valid() && closedWithResult == ContentDialogResult.None
      ensures svc.app.None? ==> r == Threw(ApplicationMissing)
      ensures svc.app.Some? && !svc.hasWindow ==> r == Threw(WindowMissing)
      ensures svc.app.Some? && svc.hasWindow ==> r == Completed
      ensures var closes := svc.app.Some? && svc.hasWindow && svc.windowPage.Some? && old(svc.modalStack) != [];
              if closes then ModalClosed(old(svc.modalStack), old(svc.hooked), old(svc.trace), svc.modalStack, svc.hooked, svc.trace)
              else svc.modalStack == old(svc.modalStack) && svc.hooked == old(svc.hooked) && svc.trace == old(svc.trace)
    {
      r := CloseWithResultAsync(svc, ContentDialogResult.None);
    }

    /** A tap on the content: the handler is empty, and nothing changes. */
    method ContentContainerTapped(svc: PagePresentation.PagePresentationService)
      ensures unchanged(this) && unchanged(svc)
    {
    }
  }

  /** Dismissing a shown dialog by tapping the background yields None as the awaited result,
      whatever the dialog was closed with before it was shown. When the overlay colour cast
      fails, ShowAsync throws and the dialog is never shown. */
  method ShowThenTapBackground(d: ContentDialog, svc: PagePresentation.PagePresentationService)
    requires svc.Valid() && svc.app.Some? && svc.hasWindow && svc.windowPage.Some?
    modifies d, svc
    ensures svc.Valid()
    ensures OverlayColor(svc.app).Failure? ==> unchanged(d) && unchanged(svc)
    ensures OverlayColor(svc.app).Ok? ==>
              svc.modalStack == old(svc.modalStack) && svc.trace == old(svc.trace) + Report(d.page) &&
              d.tcs == Done(ContentDialogResult.None)
  {
    var shown := d.ShowAsync(svc);
    if shown == Threw(InvalidCast) {
      return;   // the awaited ShowAsync throws
    }
    assert svc.modalStack == old(svc.modalStack) + [d.page];
    var tapped := d.BackgroundTapped(svc);
    assert (old(svc.modalStack) + [d.page])[..|old(svc.modalStack)|] == old(svc.modalStack);
    d.OnPageDisappearing();   // the framework raises Disappearing on the popped page
  }
}
