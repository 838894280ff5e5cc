/**
 * The block's attribute record (what the editor persists) and the settings
 * changes the inspector panels make to it.  Every change replaces one field,
 * except the two hover toggles, which also clear each other.
 */
module BlockAttributes {
  import opened Wrappers

  /** A media-library attachment id, or the creation time stamp of a pasted SVG (`svg-<time>`). */
  datatype LogoId = MediaId(attachment: int) | SvgId(createdAt: int)

  /**
   * Where a logo's image comes from: a media-library URL, or pasted SVG
   * markup that is shipped as a base64 `data:image/svg+xml` URL.
   */
  datatype ImageRef = MediaUrl(url: string) | SvgDataUrl(markup: string)

  /** One logo; `height` and `gap` are per-logo overrides, `None` standing for `null`. */
  datatype LogoEntry = LogoEntry(
    id: LogoId,
    image: ImageRef,
    alt: string,
    height: Option<int>,
    gap: Option<int>,
    invert: bool,
    isSvg: bool)

  /** The persisted settings of one slider.  The fractional values are carried through unchanged. */
  datatype Attributes = Attributes(
    logos: seq<LogoEntry>,
    title: string,
    subtitle: string,
    showTitle: bool,
    showSubtitle: bool,
    animationSpeed: int,
    logoHeight: int,
    logoGap: int,
    grayscale: bool,
    pauseOnHover: bool,
    enableShadow: bool,
    backgroundColor: string,
    backgroundOpacity: real,
    grayscaleOpacity: real,
    forceTrueGap: bool,
    slowdownOnHover: bool,
    slowdownRatio: real)

  /** Pause-on-hover and slowdown-on-hover are never both on. */
  predicate HoverExclusive(a: Attributes) {
    !(a.pauseOnHover && a.slowdownOnHover)
  }

  /** One `onChange` of an inspector control, with the value the control reports. */
  datatype Setting =
    | ShowTitle(show: bool)
    | ShowSubtitle(show: bool)
    | Title(text: string)
    | Subtitle(text: string)
    | AnimationSpeed(seconds: int)
    | PauseOnHover(on: bool)
    | SlowdownOnHover(on: bool)
    | SlowdownRatio(ratio: real)
    | LogoHeight(pixels: int)
    | LogoGap(pixels: int)
    | Grayscale(on: bool)
    | GrayscaleOpacity(opacity: real)
    | ForceTrueGap(on: bool)
    | EnableShadow(on: bool)
    | BackgroundColor(color: string)
    | BackgroundOpacity(opacity: real)
  {
    predicate IsHoverToggle() {
      PauseOnHover? || SlowdownOnHover?
    }
  }

  /**
   * The attributes after the control's handler has run.  Switching one hover
   * behaviour on switches the other off; switching it off leaves the other alone.
   */
  function Apply(a: Attributes, change: Setting): (r: Attributes)
    ensures r.logos == a.logos
    ensures HoverExclusive(a) ==> HoverExclusive(r)
    ensures change.IsHoverToggle() ==> HoverExclusive(r)
    ensures change.PauseOnHover? ==> r.pauseOnHover == change.on
    ensures change.PauseOnHover? && !change.on ==> r.slowdownOnHover == a.slowdownOnHover
    ensures change.SlowdownOnHover? ==> r.slowdownOnHover == change.on
    ensures change.SlowdownOnHover? && !change.on ==> r.pauseOnHover == a.pauseOnHover
    ensures !change.IsHoverToggle() ==>
      r.pauseOnHover == a.pauseOnHover && r.slowdownOnHover == a.slowdownOnHover
  {
    match change
    case ShowTitle(v) => a.(showTitle := v)
    case ShowSubtitle(v) => a.(showSubtitle := v)
    case Title(t) => a.(title := t)
    case Subtitle(t) => a.(subtitle := t)
    case AnimationSpeed(n) => a.(animationSpeed := n)
    case PauseOnHover(v) => a.(pauseOnHover := v, slowdownOnHover := !v && a.slowdownOnHover)
    case SlowdownOnHover(v) => a.(slowdownOnHover := v, pauseOnHover := !v && a.pauseOnHover)
    case SlowdownRatio(x) => a.(slowdownRatio := x)
    case LogoHeight(n) => a.(logoHeight := n)
    case LogoGap(n) => a.(logoGap := n)
    case Grayscale(v) => a.(grayscale := v)
    case GrayscaleOpacity(x) => a.(grayscaleOpacity := x)
    case ForceTrueGap(v) => a.(forceTrueGap := v)
    case EnableShadow(v) => a.(enableShadow := v)
    case BackgroundColor(c) => a.(backgroundColor := c)
    case BackgroundOpacity(x) => a.(backgroundOpacity := x)
  }

  /** A session of settings changes, applied in order. */
  function ApplyAll(a: Attributes, changes: seq<Setting>): Attributes
    decreases |changes|
  {
    if changes == [] then a else ApplyAll(Apply(a, changes[0]), changes[1..])
  }

  /**
   * Once either hover toggle has been used, or if the record started out
   * consistent, the two hover behaviours are exclusive after any session.
   */
  lemma {:induction false} ApplyAllHoverExclusive(a: Attributes, changes: seq<Setting>)
    requires HoverExclusive(a) || exists i :: 0 <= i < |changes| && changes[i].IsHoverToggle()
    ensures HoverExclusive(ApplyAll(a, changes))
    ensures ApplyAll(a, changes).logos == a.logos
    decreases |changes|
  {
    if changes != [] {
      var b := Apply(a, changes[0]);
      if !HoverExclusive(b) {
        var i :| 0 <= i < |changes| && changes[i].IsHoverToggle();
        assert i != 0;
        assert changes[1..][i - 1].IsHoverToggle();
      }
      ApplyAllHoverExclusive(b, changes[1..]);
    }
  }
}
