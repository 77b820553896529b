/**
 * ResourcesHelper: theme-dependent resource keys, colour lookup in the application's
 * resource dictionary with a fallback or a distinguished error, and the two memoised
 * AlertDialog style getters. Colours and styles are opaque values.
 */
module Resources {
  import opened Wrappers

  datatype Theme = Unspecified | Light | Dark      // AppTheme

  /** An opaque colour; the fallback RGBA literals of the library are named constants. */
  datatype Color = Color(id: nat)

  /** An opaque style: one found in the resources, or one of the library's default styles,
      whose colours depend on whether dark mode was on when it was created. */
  datatype Style = ResourceStyle(id: nat) | DefaultBorderStyle(dark: bool) | DefaultButtonStyle(dark: bool)

  /** A value in the application's resource dictionary. */
  datatype Resource = ColorValue(color: Color) | StyleValue(style: Style) | OtherValue(id: nat)

  /** Application.Current: its requested theme and its resource dictionary. */
  datatype App = App(theme: Theme, resources: map<string, Resource>)

  datatype Error =
    | InvalidCast(key: string)                // a cast `(Color)val` or `(Style)val` that fails
    | MissingResource(resourceKey: string)    // MissingResourceException
    | ApplicationMissing                      // InvalidOperationException("Application.Current is null.")

  datatype Result<+T> = Ok(value: T) | Failure(error: Error)

  // Default resource keys of MauiExtensionsResourceKeys
  const AlertDialogBorderStyleKey: string := "ContentDialogBorder"
  const AlertDialogButtonStyleKey: string := "TextOnlyButton"
  const ContentDialogBackgroundOverlayKey: string := "ContentDialogBackgroundOverlay"
  const ContentDialogBackgroundOverlayDarkKey: string := "ContentDialogBackgroundOverlayDark"

  // The overlay fallbacks Color.FromRgba(0, 0, 0, 0.55) (light) and (0, 0, 0, 0.5) (dark)
  const OverlayFallbackLight: Color := Color(0)
  const OverlayFallbackDark: Color := Color(1)

  /** `Application.Current?.RequestedTheme == AppTheme.Dark`: false without an application. */
  predicate IsDark(app: Option<App>)
  {
    app.Some? && app.value.theme == Dark
  }

  /** The key to use under the current theme. */
  function ThemeKey(dark: bool, lightKey: string, darkKey: string): (key: string)
    ensures key == darkKey || key == lightKey
    ensures lightKey != darkKey ==> (key == darkKey <==> dark)
  {
    if dark then darkKey else lightKey
  }

  /** GetColor as written: the stored value when the key is present, the fallback when the
      key is absent or there is no application, and a failed cast when the stored value is
      not a colour. */
  function GetColor(app: Option<App>, key: string, fallback: Color): (r: Result<Color>)
    ensures app.None? || key !in app.value.resources ==> r == Ok(fallback)
    ensures app.Some? && key in app.value.resources ==>
              match app.value.resources[key]
              case ColorValue(c) => r == Ok(c)
              case _ => r == Failure(InvalidCast(key))
  {
    if app.Some? && key in app.value.resources then
      match app.value.resources[key]
      case ColorValue(c) => Ok(c)
      case _ => Failure(InvalidCast(key))
    else Ok(fallback)
  }

  /** The application exists and stores a colour under `key`. */
  predicate HoldsColor(app: Option<App>, key: string)
  {
    app.Some? && key in app.value.resources && app.value.resources[key].ColorValue?
  }

  /** GetColor as its documentation describes it: a stored value that is not a colour also
      yields the fallback. */
  function GetColorOrFallback(app: Option<App>, key: string, fallback: Color): (c: Color)
    ensures HoldsColor(app, key) ==> c == app.value.resources[key].color
    ensures !HoldsColor(app, key) ==> c == fallback
  {
    if HoldsColor(app, key) then
      app.value.resources[key].color
    else fallback
  }

  /** Both readings agree wherever the written code does not throw. */
  lemma GetColorAgreesWhenItSucceeds(app: Option<App>, key: string, fallback: Color)
    requires GetColor(app, key, fallback).Ok?
    ensures GetColor(app, key, fallback).value == GetColorOrFallback(app, key, fallback)
  {
  }

  /** The input on which the written GetColor breaks its documented promise: a key bound to
      a style throws an invalid cast instead of yielding the fallback. */
  lemma GetColorThrowsOnNonColour(fallback: Color)
    ensures var app := Some(App(Light, map["Accent" := StyleValue(ResourceStyle(7))]));
            GetColor(app, "Accent", fallback) == Failure(InvalidCast("Accent")) &&
            GetColorOrFallback(app, "Accent", fallback) == fallback
  {
  }

  /** GetColorResource: the colour stored under the theme's key, a MissingResourceException
      carrying that key when it is absent or not a colour, and an InvalidOperationException
      without an application. */
  function GetColorResource(app: Option<App>, lightKey: string, darkKey: string): (r: Result<Color>)
    ensures app.None? <==> r == Failure(ApplicationMissing)
    ensures app.Some? ==>
              var key := if app.value.theme == Dark then darkKey else lightKey;
              if key in app.value.resources && app.value.resources[key].ColorValue?
              then r == Ok(app.value.resources[key].color)
              else r == Failure(MissingResource(key))
  {
    if app.Some? then
      var key := ThemeKey(app.value.theme == Dark, lightKey, darkKey);
      if key in app.value.resources && app.value.resources[key].ColorValue? then
        Ok(app.value.resources[key].color)
      else
        Failure(MissingResource(key))
    else
      Failure(ApplicationMissing)
  }

  /** The throwing lookup GetColorResource succeeds exactly where the fallback lookup finds
      a colour under the theme's key, and then both give that colour. */
  lemma GetColorResourceAgreesWithFallbackLookup(app: Option<App>, lightKey: string, darkKey: string, fallback: Color)
    ensures var key := ThemeKey(IsDark(app), lightKey, darkKey);
            var r := GetColorResource(app, lightKey, darkKey);
            (r.Ok? <==> HoldsColor(app, key)) && (r.Ok? ==> r.value == GetColorOrFallback(app, key, fallback))
  {
  }

  /** The style a getter computes on its first call: the resource under `key` (a failed cast
      when that resource is not a style), otherwise the default style. */
  function ConfiguredStyle(app: Option<App>, key: string, default: Style): (r: Result<Style>)
    ensures app.None? || key !in app.value.resources ==> r == Ok(default)
    ensures app.Some? && key in app.value.resources ==>
              if app.value.resources[key].StyleValue? then r == Ok(app.value.resources[key].style)
              else r == Failure(InvalidCast(key))
  {
    if app.Some? && key in app.value.resources then
      match app.value.resources[key]
      case StyleValue(s) => Ok(s)
      case _ => Failure(InvalidCast(key))
    else Ok(default)
  }

  /** The static style caches of ResourcesHelper. */
  class ResourcesHelper {
    var alertDialogBorderStyle: Option<Style>
    var alertDialogButtonStyle: Option<Style>

    constructor ()
      ensures alertDialogBorderStyle.None? && alertDialogButtonStyle.None?
    {
      alertDialogBorderStyle := None;
      alertDialogButtonStyle := None;
    }

    /** Returns the cached border style; on the first successful call fills the cache from
        the resources under the configured key, or with the default border style. */
    method GetAlertDialogBorderStyle(app: Option<App>) returns (r: Result<Style>)
      modifies this`alertDialogBorderStyle
      ensures old(alertDialogBorderStyle).Some? ==>
                r == Ok(old(alertDialogBorderStyle).value) && alertDialogBorderStyle == old(alertDialogBorderStyle)
      ensures old(alertDialogBorderStyle).None? ==>
                r == ConfiguredStyle(app, AlertDialogBorderStyleKey, DefaultBorderStyle(IsDark(app)))
      ensures r.Ok? ==> alertDialogBorderStyle == Some(r.value)
      ensures r.Failure? ==> alertDialogBorderStyle == old(alertDialogBorderStyle)
    {
      if alertDialogBorderStyle.None? {
        if app.Some? && AlertDialogBorderStyleKey in app.value.resources {
          var val := app.value.resources[AlertDialogBorderStyleKey];
          if !val.StyleValue? {
            return Failure(InvalidCast(AlertDialogBorderStyleKey));
          }
          alertDialogBorderStyle := Some(val.style);
        } else {
          alertDialogBorderStyle := Some(DefaultBorderStyle(IsDark(app)));
        }
      }
      r := Ok(alertDialogBorderStyle.value);
    }

    /** Same as GetAlertDialogBorderStyle, for the button style and its own cache. */
    method GetAlertDialogButtonStyle(app: Option<App>) returns (r: Result<Style>)
      modifies this`alertDialogButtonStyle
      ensures old(alertDialogButtonStyle).Some? ==>
                r == Ok(old(alertDialogButtonStyle).value) && alertDialogButtonStyle == old(alertDialogButtonStyle)
      ensures old(alertDialogButtonStyle).None? ==>
                r == ConfiguredStyle(app, AlertDialogButtonStyleKey, DefaultButtonStyle(IsDark(app)))
      ensures r.Ok? ==> alertDialogButtonStyle == Some(r.value)
      ensures r.Failure? ==> alertDialogButtonStyle == old(alertDialogButtonStyle)
    {
      if alertDialogButtonStyle.None? {
        if app.Some? && AlertDialogButtonStyleKey in app.value.resources {
          var val := app.value.resources[AlertDialogButtonStyleKey];
          if !val.StyleValue? {
            return Failure(InvalidCast(AlertDialogButtonStyleKey));
          }
          alertDialogButtonStyle := Some(val.style);
        } else {
          alertDialogButtonStyle := Some(DefaultButtonStyle(IsDark(app)));
        }
      }
      r := Ok(alertDialogButtonStyle.value);
    }
  }

  /** Once a getter succeeded, the next call returns the same style whatever the application,
      its theme or its resources have become, and the cache keeps it. */
  method CachedStylesAreStable(h: ResourcesHelper, first: Option<App>, later: Option<App>)
    returns (border1: Result<Style>, border2: Result<Style>, button1: Result<Style>, button2: Result<Style>)
    modifies h
    ensures border1.Ok? ==> border2 == border1 && h.alertDialogBorderStyle == Some(border1.value)
    ensures button1.Ok? ==> button2 == button1 && h.alertDialogButtonStyle == Some(button1.value)
  {
    border1 := h.GetAlertDialogBorderStyle(first);
    border2 := h.GetAlertDialogBorderStyle(later);
    button1 := h.GetAlertDialogButtonStyle(first);
    button2 := h.GetAlertDialogButtonStyle(later);
  }
}
