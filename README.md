# cw.MauiExtensions.Services — navigation, modal and dialog core in Dafny

This project models the navigation core of the .NET MAUI extension library
cw.MauiExtensions.Services and proves properties about it. The modelled parts are:

- **PagePresentationService.** It owns either one navigation container (a MAUI
  `NavigationPage`) or one stand-alone main page. It pushes pages on the container's
  stack, pops them, and can replace the top *k* pages by a new one. It opens and closes
  modal pages behind a binary semaphore.
- **Page reporting.** Every page the service removes is reported in three steps: its
  Appearing/Disappearing handlers are unhooked, its view-model is disposed when it
  implements `IAutoDisposableOnPageClosed`, and `PageRemoved` is raised.
- **PageNavigationService.** The older twin of the presentation service. It has only a
  navigation container and two open modes; `ReplaceCurrent` does nothing.
- **The two ContentDialog pages.** Each is a modal overlay. Its `ShowAsync` resolves to
  the value the dialog was closed with, once the page disappears.
- **ResourcesHelper.** It covers colour lookup with a fallback and the two memoised
  AlertDialog styles.

How each part is modelled:

- **Services as classes.** The services and dialogs are classes whose methods change
  their fields in place.
- **The environment as fields.** The framework objects the services read are fields of
  the service, not calls:
  - `app` stands for `Application.Current`, its theme and its resource dictionary;
  - `hasWindow` says whether `Windows` is non-empty;
  - `windowPage` stands for `Windows[0].Page`;
  - `modalStack` is the window's modal stack.
- **The container as a value.** A navigation container is a value, `PageLifecycle.NavigationPage`.
  It holds its stack, bottom first, and whether the service's `Popped` handler is attached.
- **Attached handlers as counts.** The attached lifecycle handlers are a count per page.
  `+=` adds one pair. `-=` removes one pair, or does nothing when none is attached.
- **Observable effects as a trace.** Everything the services make observable goes into
  `trace`, in order: Dispose calls, `PageRemoved`, `OnNavigatedTo` and `OnNavigatedFrom`.
- **Page creation as an input.** The page `Activator.CreateInstance` would create is an
  input `created: Option<Page>`. `None` means the instance could not be created.
- **Exceptions as outcomes.** Exceptions become an `Outcome` value, `Completed` or
  `Threw(failure)`.
- **Swallowed outcomes.** `PushPageAsync` and `OpenContentPageAsync` swallow every
  exception, so they have no outcome. The background-tap handlers are `async void`: no
  caller awaits them, so an exception of the close they start is not caught by the library
  and is raised, unhandled, on the UI thread. Their models return that outcome.
- **The dialogs' result.** A dialog's `TaskCompletionSource` is the field `tcs`. The
  framework's raising of `Disappearing` on a popped dialog is a call to its
  `OnPageDisappearing`.
- **Content taps.** A tap on the dialog's content is swallowed, by the no-op
  `ContentContainerTapped`.
- **The overlay colour.** The dialogs look their overlay colour up with GetColor as it is
  written, so a theme key bound to a value that is not a colour makes `ShowAsync` throw
  before it changes anything.

The main results:

- Every removal path goes through one report: `Report` for one page, `Reports` for a
  sequence. Within each removal, `PageRemoved` is raised exactly once per removed page, in
  removal order (`ReportsRaiseEachOnce`), and exactly the auto-disposable view-models are
  disposed. Separate removals can report the same page again: see the stale container under
  "## Left out".
- A pop hands back exactly the top of the stack.
- A replacing push accounts for every old page. The one exception is the old top when the
  `Popped` handler is detached.
- Attached handlers behave as a multiset difference.
- A dialog closed with `v` resolves to `v`. A background tap on the XAML dialog resolves to
  `None`.

## Model

| member | source | states |
|---|---|---|
| PageLifecycle.ReportOfOnePage | src/cw.MauiExtensions.Services/Core/PagePresentationService.cs:377-394 | one removal raises PageRemoved for its page exactly once, and disposes the view-model exactly when it is auto-disposable |
| PageLifecycle.ReportsRaiseEachOnce | src/cw.MauiExtensions.Services/Core/PagePresentationService.cs:364-394 | removing pages ps one after the other raises PageRemoved exactly once per page, in the order ps |
| PageLifecycle.ReportsDisposeAutoDisposable | src/cw.MauiExtensions.Services/Core/PagePresentationService.cs:384-389 | those removals dispose exactly the auto-disposable view-models, in removal order |
| PageLifecycle.ReportsAppend | src/cw.MauiExtensions.Services/Core/PagePresentationService.cs:62-78 | the report of two removal runs in sequence is the concatenation of their reports |
| PageLifecycle.PoppedPagesAreTheTop | src/cw.MauiExtensions.Services/Core/PagePresentationService.cs:309-315 | popping k pages topmost first reports exactly the top k pages: the kept pages followed by the reported pages in reverse are the old stack |
| PageLifecycle.ReversedTwice | src/cw.MauiExtensions.Services/Core/PagePresentationService.cs:309-315 | the topmost-first order of popped pages, reversed, is the stack order again |
| PageLifecycle.Hook | src/cw.MauiExtensions.Services/Core/PagePresentationService.cs:401-407 | `+=` attaches one more handler pair to the page, even when one is attached |
| PageLifecycle.Unhook | src/cw.MauiExtensions.Services/Core/PagePresentationService.cs:413-419 | `-=` detaches one pair, and nothing when none is attached |
| PageLifecycle.UnhookedCount | src/cw.MauiExtensions.Services/Core/PagePresentationService.cs:413-419 | after unhooking a sequence of pages, each page's pair count is its old count minus its occurrences in the sequence, floored at 0 |
| PageLifecycle.UnhookUndoesHook | src/cw.MauiExtensions.Services/Core/PagePresentationService.cs:401-419 | hooking a page and then unhooking it restores every page's pair count |
| PageLifecycle.Callbacks | src/cw.MauiExtensions.Services/Core/PagePresentationService.cs:424-441 | a raised Appearing/Disappearing makes one OnNavigatedTo/From call per attached pair, and none when the view-model is not lifecycle-aware |
| PageLifecycle.Detached | src/cw.MauiExtensions.Services/Core/PagePresentationService.cs:128-131 | removing the Popped handlers keeps the container and its stack and leaves Popped detached |
| PageLifecycle.PopCount | src/cw.MauiExtensions.Services/Core/PagePresentationService.cs:309-311 | `while (n-- > 0)` takes at most the whole stack, nothing for n <= 0, and n pages when n fits |
| StackSteps.ReplacedTopAccountsForEveryPage | src/cw.MauiExtensions.Services/Core/PagePresentationService.cs:220-246 | after a replacing push with 1 <= k <= n, the new page is on top of the n-k kept pages, the trace only grows, and the kept pages plus the pages reported PageRemoved are the old stack (without its top when Popped is detached) |
| StackSteps.RemovalPass | src/cw.MauiExtensions.Services/Core/PagePresentationService.cs:233-239 | while more than one pass remains, the page at the fixed index n-k is the lowest page still to replace, and removing and reporting it reaches the next loop state |
| StackSteps.PopPass | src/cw.MauiExtensions.Services/Core/PagePresentationService.cs:240-243 | the last pass pops the old top, which is reported only while Popped is attached, leaving the kept pages plus the new page |
| StackSteps.ReplacedPagesSplit | src/cw.MauiExtensions.Services/Core/PagePresentationService.cs:228-243 | the pages kept below the new page followed by the pages a replacing push reports are the old stack, without its top when Popped is detached |
| StackSteps.PopNextPass | src/cw.MauiExtensions.Services/Core/PagePresentationService.cs:309-315 | each pass of the pop loop removes and reports the next page from the top |
| PagePresentation.PagePresentationService.constructor | src/cw.MauiExtensions.Services/Core/PagePresentationService.cs:34-45 | a new service has no container, no main page, no modal page, nothing hooked and the semaphore free |
| PagePresentation.PagePresentationService.HookPageLifecycleEvents | src/cw.MauiExtensions.Services/Core/PagePresentationService.cs:401-407 | one more handler pair on the page |
| PagePresentation.PagePresentationService.UnhookPageLifecycleEvents | src/cw.MauiExtensions.Services/Core/PagePresentationService.cs:413-419 | one pair fewer on the page, saturating at none |
| PagePresentation.PagePresentationService.HandlePageRemoved | src/cw.MauiExtensions.Services/Core/PagePresentationService.cs:377-394 | unhooks the page and appends its report to the trace |
| PagePresentation.PagePresentationService.ReportNextPage | src/cw.MauiExtensions.Services/Core/PagePresentationService.cs:65-68 | one pass of the `foreach` extends the report and the unhooking by the next page of the stack |
| PagePresentation.PagePresentationService.ReportStack | src/cw.MauiExtensions.Services/Core/PagePresentationService.cs:65-68 | reporting a whole stack bottom to top appends Reports(stack) and unhooks every page of it |
| PagePresentation.PagePresentationService.RaisePageAppearing | src/cw.MauiExtensions.Services/Core/PagePresentationService.cs:424-430 | Appearing runs OnPageAppearing once per attached pair, calling OnNavigatedTo each time for a lifecycle-aware view-model |
| PagePresentation.PagePresentationService.RaisePageDisappearing | src/cw.MauiExtensions.Services/Core/PagePresentationService.cs:435-441 | the same for Disappearing and OnNavigatedFrom |
| PagePresentation.PagePresentationService.ReportRoot | src/cw.MauiExtensions.Services/Core/PagePresentationService.cs:62-78 | the root cleanup reports the container's stack bottom to top, then the main page, and forgets the main page |
| PagePresentation.PagePresentationService.OpenMainPage | src/cw.MauiExtensions.Services/Core/PagePresentationService.cs:60-96 | the old root is reported and dropped, the created page (if any) is hooked and becomes the main page and the window's page; without an application this throws after the state change |
| PagePresentation.PagePresentationService.OpenMainNavigationPage | src/cw.MauiExtensions.Services/Core/PagePresentationService.cs:111-169 | throws without an application, changing nothing; otherwise reports the old root, and either throws for an uncreatable page (old container kept, detached) or installs a fresh container holding only the hooked new page, shown in the window when there is one |
| PagePresentation.PagePresentationService.PushPage | src/cw.MauiExtensions.Services/Core/PagePresentationService.cs:186-256 | without a container nothing changes; otherwise every modal page is closed, and a created page is pushed (k = 0) or replaces the top k pages as ReplacedTop describes, including the swallowed out-of-range cases |
| PagePresentation.PagePresentationService.ReplaceTopPages | src/cw.MauiExtensions.Services/Core/PagePresentationService.cs:220-246 | with 1 <= k <= n the stack becomes the n-k kept pages plus the new page, the replaced pages are reported in stack order (the old top only while Popped is attached); otherwise the page is inserted below the top and nothing is reported |
| PagePresentation.PagePresentationService.RemoveReplacedPage | src/cw.MauiExtensions.Services/Core/PagePresentationService.cs:233-239 | one removal pass preserves the loop's state description |
| PagePresentation.PagePresentationService.PopReplacedTop | src/cw.MauiExtensions.Services/Core/PagePresentationService.cs:240-243 | the final PopAsync reaches the loop's final state |
| PagePresentation.PagePresentationService.PopPage | src/cw.MauiExtensions.Services/Core/PagePresentationService.cs:302-316 | without a container nothing happens; otherwise the top min(n, stack) pages are removed topmost first and reported in that order, and the call throws when it asked for more pages than there were |
| PagePresentation.PagePresentationService.PopNextPage | src/cw.MauiExtensions.Services/Core/PagePresentationService.cs:309-315 | one pop pass preserves the loop's state description |
| PagePresentation.PagePresentationService.OpenModalPage | src/cw.MauiExtensions.Services/Core/PagePresentationService.cs:267-292 | throws without an application before any change; otherwise hooks the page, pushes it on the modal stack when the window has a page and throws otherwise; the semaphore is released on every path |
| PagePresentation.PagePresentationService.CloseModalPage | src/cw.MauiExtensions.Services/Core/PagePresentationService.cs:327-361 | throws without an application or window; closes the top modal page exactly when the window has a page and the modal stack is non-empty, and otherwise changes nothing; the semaphore is released on every path |
| PagePresentation.PagePresentationService.CloseTopModalPage | src/cw.MauiExtensions.Services/Core/PagePresentationService.cs:340-354 | the top modal page is unhooked, its view-model disposed if auto-disposable, popped, and PageRemoved raised for it |
| PageNavigation.PageNavigationService.constructor | src/cw.MauiExtensions.Services/Core/PageNavigationService.cs:31-47 | a new service has no container, no modal page, nothing hooked and the semaphore free |
| PageNavigation.PageNavigationService.HookPageLifecycleEvents | src/cw.MauiExtensions.Services/Core/PageNavigationService.cs:310-316 | one more handler pair on the page |
| PageNavigation.PageNavigationService.UnhookPageLifecycleEvents | src/cw.MauiExtensions.Services/Core/PageNavigationService.cs:322-328 | one pair fewer on the page, saturating at none |
| PageNavigation.PageNavigationService.OnNavigationPagePopped | src/cw.MauiExtensions.Services/Core/PageNavigationService.cs:279-298 | unhooks the page and appends its report to the trace |
| PageNavigation.PageNavigationService.ReportNextPage | src/cw.MauiExtensions.Services/Core/PageNavigationService.cs:62-65 | one pass of the `foreach` extends the report and the unhooking by the next page of the stack |
| PageNavigation.PageNavigationService.ReportStack | src/cw.MauiExtensions.Services/Core/PageNavigationService.cs:62-65 | reporting a whole stack bottom to top appends Reports(stack) and unhooks every page of it |
| PageNavigation.PageNavigationService.RaisePageAppearing | src/cw.MauiExtensions.Services/Core/PageNavigationService.cs:333-339 | Appearing runs OnPageAppearing once per attached pair |
| PageNavigation.PageNavigationService.RaisePageDisappearing | src/cw.MauiExtensions.Services/Core/PageNavigationService.cs:344-350 | Disappearing runs OnPageDisappearing once per attached pair |
| PageNavigation.PageNavigationService.OpenMainPage | src/cw.MauiExtensions.Services/Core/PageNavigationService.cs:49-102 | throws without an application, changing nothing; otherwise reports the old stack, and either throws for an uncreatable page (old container kept, detached) or installs a fresh container holding only the hooked new page |
| PageNavigation.PageNavigationService.OpenContentPage | src/cw.MauiExtensions.Services/Core/PageNavigationService.cs:104-185 | ReplaceCurrent and a missing container change nothing; PushToStack closes every modal page and pushes or replaces the top k pages as ReplacedTop describes |
| PageNavigation.PageNavigationService.ReplaceTopPages | src/cw.MauiExtensions.Services/Core/PageNavigationService.cs:146-172 | as in the presentation service: the top k pages are replaced and reported, or the page is inserted below the top when k is out of range |
| PageNavigation.PageNavigationService.RemoveReplacedPage | src/cw.MauiExtensions.Services/Core/PageNavigationService.cs:159-165 | one removal pass preserves the loop's state description |
| PageNavigation.PageNavigationService.PopReplacedTop | src/cw.MauiExtensions.Services/Core/PageNavigationService.cs:166-169 | the final PopAsync reaches the loop's final state |
| PageNavigation.PageNavigationService.CloseContentPage | src/cw.MauiExtensions.Services/Core/PageNavigationService.cs:226-240 | the top min(n, stack) pages are removed topmost first and reported, throwing when more were asked for than there were |
| PageNavigation.PageNavigationService.PopNextPage | src/cw.MauiExtensions.Services/Core/PageNavigationService.cs:233-239 | one pop pass preserves the loop's state description |
| PageNavigation.PageNavigationService.OpenModalPage | src/cw.MauiExtensions.Services/Core/PageNavigationService.cs:198-223 | as in the presentation service: application check, hook, push when the window has a page, semaphore released |
| PageNavigation.PageNavigationService.CloseModalPage | src/cw.MauiExtensions.Services/Core/PageNavigationService.cs:242-276 | as in the presentation service: the top modal page is closed and reported exactly when there is one on a window page |
| PageNavigation.PageNavigationService.CloseTopModalPage | src/cw.MauiExtensions.Services/Core/PageNavigationService.cs:255-269 | unhook, dispose if auto-disposable, pop, raise PageRemoved |
| Resources.ThemeKey | src/cw.MauiExtensions.Services/Helpers/ResourcesHelper.cs:158 | the dark key is chosen exactly under the dark theme (when the keys differ) |
| Resources.GetColor | src/cw.MauiExtensions.Services/Helpers/ResourcesHelper.cs:67-75 | as written: the stored colour, the fallback when the key or the application is missing, and an invalid cast when the stored value is not a colour |
| Resources.GetColorOrFallback | src/cw.MauiExtensions.Services/Helpers/ResourcesHelper.cs:57-66 | as documented: the stored colour when there is one, the fallback in every other case |
| Resources.GetColorAgreesWhenItSucceeds | src/cw.MauiExtensions.Services/Helpers/ResourcesHelper.cs:57-75 | where the written GetColor does not throw, it returns what the documented one returns |
| Resources.GetColorThrowsOnNonColour | src/cw.MauiExtensions.Services/Helpers/ResourcesHelper.cs:67-75 | a key bound to a style makes the written GetColor throw where the documented one yields the fallback |
| Resources.GetColorResource | src/cw.MauiExtensions.Services/Helpers/ResourcesHelper.cs:154-167 | the colour under the theme's key; MissingResource naming that key when it is absent or not a colour; ApplicationMissing exactly when there is no application |
| Resources.GetColorResourceAgreesWithFallbackLookup | src/cw.MauiExtensions.Services/Helpers/ResourcesHelper.cs:57-75 | GetColorResource succeeds exactly where the fallback lookup finds a colour under the theme's key, and then both agree |
| Resources.ConfiguredStyle | src/cw.MauiExtensions.Services/Helpers/ResourcesHelper.cs:18-29 | the resource under the key when it is a style, an invalid cast when it is not, the default style when the key or application is missing |
| Resources.ResourcesHelper.constructor | src/cw.MauiExtensions.Services/Helpers/ResourcesHelper.cs:9-10 | both style caches start empty |
| Resources.ResourcesHelper.GetAlertDialogBorderStyle | src/cw.MauiExtensions.Services/Helpers/ResourcesHelper.cs:15-32 | a filled cache is returned unchanged, whatever the application; an empty one is filled with the configured or default border style on success and left empty on a failed cast |
| Resources.ResourcesHelper.GetAlertDialogButtonStyle | src/cw.MauiExtensions.Services/Helpers/ResourcesHelper.cs:37-54 | the same for the button style and its own cache |
| Resources.CachedStylesAreStable | src/cw.MauiExtensions.Services/Helpers/ResourcesHelper.cs:15-54 | once a style getter succeeded, its next call returns the same style whatever the application has become, and the cache holds it |
| ContentDialogs.OverlayKey | src/cw.MauiExtensions.Services/Views/ContentDialog.cs:65-68 | the dark overlay key exactly under the dark theme; no application counts as not dark |
| ContentDialogs.OverlayColor | src/cw.MauiExtensions.Services/Views/ContentDialog.cs:65-70 | GetColor as written under the theme's overlay key: an invalid cast exactly when that key holds a value that is not a colour, and otherwise the documented lookup's colour (the stored colour or the theme's fallback) |
| ContentDialogs.ContentDialog.constructor | src/cw.MauiExtensions.Services/Views/ContentDialog.cs:10-53 | a new dialog closes on background taps, is an Overlay modal page, has no task and the default result |
| ContentDialogs.ContentDialog.ShowAsync | src/cw.MauiExtensions.Services/Views/ContentDialog.cs:62-78 | throws an invalid cast and changes nothing when the overlay colour lookup fails; otherwise sets the overlay colour, attaches one more Disappearing handler, starts a pending result and opens the dialog page as a modal page with the service's outcomes |
| ContentDialogs.ContentDialog.OnPageDisappearing | src/cw.MauiExtensions.Services/Views/ContentDialog.cs:81-88 | detaches one handler and completes a pending result with the recorded value; a completed one is kept |
| ContentDialogs.ContentDialog.CloseWithResultAsync | src/cw.MauiExtensions.Services/Views/ContentDialog.cs:90-94 | records the result, then closes the top modal page as CloseModalPage does |
| ContentDialogs.ContentDialog.BackgroundTapped | src/cw.MauiExtensions.Services/Views/ContentDialog.cs:96-102 | when CloseOnBackgroundTap is off, completes and changes nothing; when it is on, records the default result and closes the top modal page with CloseModalPage's outcome, which escapes the handler, and changes nothing else when there is nothing to close |
| ContentDialogs.ContentDialog.ContentContainerTapped | src/cw.MauiExtensions.Services/Views/ContentDialog.cs:104-107 | a tap on the content changes neither the dialog nor the service |
| ContentDialogs.ShowThenClose | src/cw.MauiExtensions.Services/Views/ContentDialog.cs:62-94 | showing a dialog over a window page and closing it with v restores the modal stack and handler count, reports the dialog page once, and the awaited result is v; when the overlay lookup fails nothing changes |
| ContentDialogPage.ContentDialog.constructor | src/cw.MauiExtensions.Services/Views/ContentDialog.xaml.cs:17-34 | a new dialog is an Overlay modal page with no task and the result None |
| ContentDialogPage.ContentDialog.ShowAsync | src/cw.MauiExtensions.Services/Views/ContentDialog.xaml.cs:45-60 | as for the generic dialog: an invalid cast with nothing changed when the overlay lookup fails, otherwise the colour, the handler, a pending result and the modal push |
| ContentDialogPage.ContentDialog.OnPageDisappearing | src/cw.MauiExtensions.Services/Views/ContentDialog.xaml.cs:62-69 | detaches one handler and completes a pending result with the recorded value |
| ContentDialogPage.ContentDialog.CloseWithResultAsync | src/cw.MauiExtensions.Services/Views/ContentDialog.xaml.cs:71-75 | records the result, then closes the top modal page |
| ContentDialogPage.ContentDialog.BackgroundTapped | src/cw.MauiExtensions.Services/Views/ContentDialog.xaml.cs:77-80 | a background tap always records None and closes the top modal page with CloseModalPage's outcome, which escapes the handler; nothing changes when there is nothing to close |
| ContentDialogPage.ContentDialog.ContentContainerTapped | src/cw.MauiExtensions.Services/Views/ContentDialog.xaml.cs:82-84 | a tap on the content changes neither the dialog nor the service |
| ContentDialogPage.ShowThenTapBackground | src/cw.MauiExtensions.Services/Views/ContentDialog.xaml.cs:45-80 | dismissing a shown dialog by a background tap restores the modal stack, reports the page once and resolves to None; when the overlay lookup fails nothing changes |

## Left out

- The singletons (`Instance`), concurrency and the awaiting of tasks are not modelled. Every
  asynchronous call runs to completion in one step. The semaphore is a counter that each
  modal method takes and releases.
- UpdateNavigationBarColors and the theme-change handler (`OnRequestedThemeChanged`) only
  set colours on the native navigation bar, so they are not modelled. With them goes the
  invalid cast that GetColor can raise from inside OpenMainNavigationPage and OpenMainPage
  of the navigation service. The navigation service's version reads resource-key properties
  that MauiExtensionsResourceKeys does not declare.
- DeriveOverlayColor and the default style contents are not modelled. They are
  floating-point colour arithmetic and style setters, so styles and colours are opaque values.
- The native chrome services (DialogFragmentService, SystemBarsService,
  WindowsTitleBarService), AlertDialog, the startup wiring of MauiAppBuilderExtensions and
  the Android status-bar use of ModalPageProperties are not part of this model.
- The framework's MAUI navigation is reduced to plain sequences:
  - RemovePage of a page is a removal at that page's index;
  - the framework's own refusal to remove a root page is not modelled;
  - the window and a navigation container share a single modal stack;
  - the Appearing/Disappearing events the framework raises during pushes and pops are not
    placed in the trace (RaisePageAppearing and RaisePageDisappearing model one raised event).
- Null pages are absent from the model. Because of that, the null checks in
  HandlePageRemoved, HookPageLifecycleEvents and PageRemovedEventArgs are not needed.
- PushPage: the modal pages it closes first are popped without being unhooked, disposed or
  reported. This is what the code does.
- PagePresentation.PagePresentationService.OpenMainNavigationPage and
  PageNavigation.PageNavigationService.OpenMainPage: when the page cannot be created, the old
  container stays referenced with its handlers detached, after its pages were already
  reported. The code never clears it (the presentation service's OpenMainPage does), so the
  next of these calls reports, and disposes, every page of that stale container a second
  time. The model does what the code does; no contract promises one report per page across
  calls.
- OpenMainPage returns an outcome instead of the created page. The page is `mainPage` afterwards.
- ContentDialogs.ShowThenClose and ContentDialogPage.ShowThenTapBackground call
  OnPageDisappearing after the close returns. In the framework, the Disappearing event fires
  inside PopModalAsync, so before PageRemoved.

## Findings

| source | as written | input that shows it | evidently intended | confidence | as-written member | corrected member |
|---|---|---|---|---|---|---|
| src/cw.MauiExtensions.Services/Helpers/ResourcesHelper.cs:67-75 | `(Color)val` throws InvalidCastException when the key is bound to a value that is not a Color | an application whose resources bind "Accent" to a Style, `GetColor("Accent", fallback)` | the fallback, as the method's documentation says for a key "not associated with a color" (lines 61-63) | not executed | Resources.GetColor, Resources.GetColorThrowsOnNonColour | Resources.GetColorOrFallback (ContentDialogs.OverlayColor states that it agrees with it wherever the written lookup succeeds) |
