# Infinite logo slider block: a verified model of its settings logic

This project models the settings logic of the infinite logo slider, a WordPress block that shows an endlessly scrolling row of client logos.
The model covers three parts of `src/index.js`:

- **Logo-list handlers of the edit view.** These add, remove, move and edit logos, and accept pasted SVG markup.
- **Inspector settings handlers.** The pause-on-hover and slowdown-on-hover toggles clear each other.
- **The renderer shared by the editor's live preview and `save`.** It covers `hexToRgba`, the CSS custom properties, the class attributes, per-logo styles and the doubled `logo-slide` groups.

Modules, one per concern:

| file | module | what it holds |
|---|---|---|
| `wrappers.dfy` | `Wrappers` | `Option`, standing for `null`/`undefined` |
| `text.dfy` | `Text` | The JavaScript string operations the block uses (`trim`, `toLowerCase`, `includes`, `${n}` interpolation, `filter(Boolean).join(' ')`), with the readings that invert them |
| `attributes.dfy` | `BlockAttributes` | The logo entry and attribute records, the inspector's settings changes, and the hover-exclusion invariant |
| `logo_list.dfy` | `LogoList` | Specification functions for every logo-list handler, and lemmas about them |
| `editor.dfy` | `Editor` | Class `BlockEditor`. Its field `attributes` is the stored attribute record. Each handler copies the list into a fresh array (`[...logos]`), writes into the copy and stores it (`setAttributes`). Each handler is proved against the specification function. |
| `render.dfy` | `Render` | `parseInt(…, 16)`, `hexToRgba`, the style variables, the class attributes, the per-logo element, the slider and `save` |
| `scenarios.dfy` | `Scenarios` | Two end-to-end runs, from settings to saved markup |

The edit view repeats the renderer's code. Lines 118-142 reappear at 570-594, and the live-preview slider at 304-358 repeats the saved slider at 607-662. Each is modelled once (`Render.HexToRgba`, `Render.SliderClass`, `Render.Slider`). Lines 118-142 and 570-594 agree line for line. The two sliders agree except for two details. The preview slider carries an extra inline style, `width: fit-content; display: flex` (line 306). The saved slider declares a `nextLogo` variable that nothing reads (line 623).

Two points about the code:
- The SVG check is a substring test. It asks only whether `<svg` occurs anywhere in the trimmed, lower-cased text (`src/index.js:90`). `LogoList.AcceptsSvgIff` states exactly that. The emptiness test and the trim change nothing.
- Both render paths emit `data-slowdown-ratio` only when `slowdownOnHover` is on (`src/index.js:307`, `src/index.js:609`). `Render.Slider` states the same.

## Model

| member | source | states |
|---|---|---|
| `BlockAttributes.Apply` | src/index.js:159-297 | After any control's change, the logos are unchanged. Switching pause (or slowdown) on also switches the other off. Switching one off leaves the other as it was. Other controls leave both flags alone. The hover flags are never both on after a hover toggle, and exclusion is never lost. |
| `BlockAttributes.ApplyAllHoverExclusive` | src/index.js:183-196 | After any sequence of setting changes, pause and slowdown are never both on. This needs the record to start out consistent, or one of the changes to be a hover toggle. The logos are untouched. |
| `LogoList.MediaLogo` | src/index.js:39-46 | A picked attachment becomes an entry with its id and URL. Its alt is `media.alt` or `''`. `height` and `gap` are null, `invert` is false, and it is not an SVG. |
| `LogoList.AddLogo` | src/index.js:38-48 | Appends exactly one entry at the end and keeps every earlier entry in place. |
| `LogoList.RemoveLogoSpec` | src/index.js:50-53 | The filter by index removes exactly the entry at `index` and keeps the others in order. The length drops by one, and the entries lost form exactly `{logos[index]}`. An index outside the list leaves the list unchanged. |
| `LogoList.RemoveUndoesAdd` | src/index.js:38-53 | Removing the entry just added gives back the previous list. |
| `LogoList.MoveLeftSwaps` | src/index.js:73-76 | Moving left from a position above 0 swaps the entry with its left neighbour. Every other position is unchanged. |
| `LogoList.MoveRightSwaps` | src/index.js:73-79 | Moving right from a position below the last swaps the entry with its right neighbour. Every other position is unchanged. |
| `LogoList.MovePermutes` | src/index.js:73-81 | Every move keeps the length and the multiset of entries. |
| `LogoList.MoveAtEdgeIsNoOp` | src/index.js:73-81 | A left move from index 0 or below leaves the list unchanged. So does a right move from the last index or beyond. Both fail the bound check at lines 75 and 77. |
| `LogoList.MoveRightThenLeft` | src/index.js:73-81 | Moving `i` right and then `i+1` left restores the list. |
| `LogoList.MoveLeftThenRight` | src/index.js:73-81 | Moving `i` left and then `i-1` right restores the list. |
| `LogoList.Edited` | src/index.js:55-87 | An alt, height, gap or invert edit changes only its own field of the entry. Invert is negated. Id, image and SVG flag are kept. |
| `LogoList.EditedAt` | src/index.js:55-87 | An edit at `index` changes only that entry. Every other entry and the length stay the same. |
| `LogoList.EditUndone` | src/index.js:55-87 | Every edit is undone by writing back the field's old value, or by toggling invert again. |
| `LogoList.ToggleInvertTwice` | src/index.js:83-87 | Toggling the inversion twice restores the list. |
| `LogoList.SvgLogo` | src/index.js:97-106 | Accepted markup becomes an entry. Its id comes from the paste time, its image is the trimmed markup, and its alt is `'SVG Logo'`. `isSvg` is true, `invert` is false, and `height`/`gap` are null. |
| `LogoList.AddLogoFromSvg` | src/index.js:89-110 | Markup is refused (`None`, list unchanged) unless it is non-empty and its trimmed, lower-cased form contains `<svg`. Accepted markup appends exactly one SVG entry after the unchanged earlier entries. |
| `LogoList.AcceptsSvgIff` | src/index.js:90 | The check accepts exactly the markup in which `<svg` occurs in any letter case. The emptiness test and the trim never change the outcome. |
| `LogoList.AcceptsSvgIgnoresCase` | src/index.js:90 | Lower-casing the markup first does not change the outcome. |
| `Text.TrimKeepsContains` | src/index.js:90 | Trimming does not change whether a pattern occurs in the lower-cased text, as long as the pattern neither starts nor ends with whitespace. |
| `Text.ContainsAt` | src/index.js:90 | `includes` holds exactly when the pattern occurs at some index. |
| `Text.TrimStart` | src/index.js:90 | Leading trim returns the suffix after a run of whitespace, and that suffix does not start with whitespace. |
| `Text.TrimEnd` | src/index.js:90 | Trailing trim returns the prefix before a run of whitespace, and that prefix does not end with whitespace. |
| `Text.WithUnitRoundTrip` | src/index.js:125-130 | A number printed with its unit (`${n}s`, `${n}px`) reads back as the same number. |
| `Text.TokensOfJoin` | src/index.js:137-142 | Class names joined with spaces read back as the same names in the same order. |
| `Editor.BlockEditor.AddLogo` | src/index.js:38-48 | The stored attributes change only in `logos`, which becomes `LogoList.AddLogo` of the old list. |
| `Editor.BlockEditor.RemoveLogo` | src/index.js:50-53 | The stored attributes change only in `logos`, which becomes the old list filtered by index. |
| `Editor.BlockEditor.UpdateLogoAlt` | src/index.js:55-59 | After the array copy and field write, `logos` is `EditedAt(old, index, SetAlt(alt))`. Nothing else changes. |
| `Editor.BlockEditor.UpdateLogoHeight` | src/index.js:61-65 | After the array copy and field write, `logos` is `EditedAt(old, index, SetHeight(height))`. Nothing else changes. |
| `Editor.BlockEditor.UpdateLogoGap` | src/index.js:67-71 | After the array copy and field write, `logos` is `EditedAt(old, index, SetGap(gap))`. Nothing else changes. |
| `Editor.BlockEditor.MoveLogo` | src/index.js:73-81 | After the destructuring swap in the copy, `logos` is `Moved(old, index, direction)`. Nothing else changes. This holds for every index on which the source stays inside the list, including the do-nothing calls beyond either end. |
| `Editor.BlockEditor.ToggleLogoInvert` | src/index.js:83-87 | After the copy and negation, `logos` is `EditedAt(old, index, ToggleInvert)`. Nothing else changes. |
| `Editor.BlockEditor.AddLogoFromSvg` | src/index.js:89-115 | The alert fires exactly when the markup is refused, and the attributes are then unchanged. Otherwise `logos` gains the SVG entry. |
| `Editor.BlockEditor.OnSettingChange` | src/index.js:159-297 | The two-step handler (set the flag, then clear the other when switching on) gives exactly `Apply` of the old attributes. |
| `Render.ParsePair` | src/index.js:119-121 | `parseInt` of two hex digits, base 16, is the byte they denote. |
| `Render.HexToRgbaChannels` | src/index.js:118-123 | On `#rrggbb`, in either case, r, g and b are the bytes at positions 1-2, 3-4 and 5-6, each in 0..255. The alpha is passed through. |
| `Render.HexColorRoundTrip` | src/index.js:118-123 | Writing three bytes as `#rrggbb` and converting back gives the same bytes. |
| `Render.ShortHexBlueIsNaN` | src/index.js:118-123 | A three-digit colour `#fff` is not expanded. Red reads `ff` = 255 and blue is `NaN`. |
| `Render.SliderStyle` | src/index.js:125-130 | `--animation-speed` reads back as the speed in seconds. `--logo-height` and `--logo-gap` read back as the defaults in pixels. The grayscale opacity is passed through. |
| `Render.ContainerStyle` | src/index.js:132-135 | The background alpha is the background opacity. For a `#rrggbb` colour the channels are its bytes. There is a shadow exactly when it is enabled, and it is then `0 2px 8px rgba(0, 0, 0, 0.1)`. |
| `Render.SliderClass` | src/index.js:137-142 | The class attribute starts with `logo-slider`. Its names, in order, are `logo-slider`, `pause-on-hover` iff pause ∧ ¬slowdown, `has-slowdown-hover` iff slowdown, and `force-true-gap` iff forceTrueGap. |
| `Render.SliderClassMembers` | src/index.js:589-594 | Each class is present exactly when its condition holds. The two hover classes never appear together. |
| `Render.PauseClassFollowsSetting` | src/index.js:137-142 | While the hover settings are exclusive, `pause-on-hover` is present exactly when pausing is on. |
| `Render.LogoClasses` | src/index.js:613-617 | A logo's classes are `logo-item`, then `grayscale` iff grayscale, then `inverted` iff invert. |
| `Render.LogoStyle` | src/index.js:619-628 | A logo sets `height` only when its override is truthy, so 0 falls back to the default. It sets `marginRight` whenever its gap is non-null, 0 included. Each value reads back as the override in pixels. |
| `Render.RenderedSizesMatchEditor` | src/index.js:619-626 | The rendered height and gap equal the values the editor grid shows (`logo.height \|\| logoHeight`, line 386, and `logo.gap !== null ? logo.gap : logoGap`, line 451). An override wins whatever the default. The fallback to the slider variables is assumed to come from the stylesheet (see `Render.ResolvedHeight` under Left out). |
| `Render.RenderLogo` | src/index.js:612-635 | The element keeps the logo's id as key (suffixed `-duplicate` in the second copy), its image and its alt. Its class attribute is `LogoClasses` and its style is `LogoStyle`, so `grayscale` and `inverted` follow their flags and the height and margin are present exactly when the overrides set them. |
| `Render.RenderSlide` | src/index.js:611-636 | One group has one element per logo, in list order. The duplicate group is `aria-hidden`. |
| `Render.Slider` | src/index.js:607-662 | There are exactly two groups. The first is visible and the second `aria-hidden`. Item `i` of each group is `RenderLogo` of logo `i`, so its class, style, image and alt all come from that logo. The two groups are identical but for keys. `data-slowdown-ratio` is present iff slowdown is on and then equals the ratio. |
| `Render.Save` | src/index.js:565-664 | Nothing is saved for an empty list. Otherwise title and subtitle appear iff shown and non-empty. The container carries `SliderStyle` and `ContainerStyle`, and the slider is `Slider`. |
| `Scenarios.TwoLogosPausing` | src/index.js:589-664 | Two logos with defaults height 60 and gap 50 and pausing on give a saved slider with `pause-on-hover` and two groups of two. A logo without overrides resolves to 60px high with a 50px gap, under the stylesheet fallback that `Render.ResolvedHeight` assumes. |
| `Scenarios.SlowdownReplacesPause` | src/index.js:190-198 | Switching slowdown on while pausing is on, then setting ratio 0.3, turns pausing off. It gives `has-slowdown-hover` without `pause-on-hover`, and the slider carries ratio 0.3. |

## Left out

- `src/view.js` is not part of this model. It is the hover (mouseenter/mouseleave) handler that sets the playback rate of running animations through the browser's Web Animations API.
- `infinite-logo-slider.php` is not part of this model. It only registers the block with WordPress.
- JSX element trees, the inspector panels and their widgets are host UI. The editor grid's own markup is left out too: badges, the `is-svg` class and the `invert(1)` filter at line 387. So is component-local UI state (`isSvgModalOpen`, `svgCode`, `expandedLogo`, `isLivePreview`). The pasted `svgCode` is a parameter instead.
- Base64 encoding of pasted SVG (`btoa(unescape(encodeURIComponent(…)))`) is a foreign call. The entry carries the trimmed markup it encodes (`SvgDataUrl`). The `data:` URL text itself is not produced.
- The `try`/`catch` at lines 95-114 and `console.error` are left out. `encodeURIComponent` throws only on a lone UTF-16 surrogate, and Dafny strings cannot hold one.
- `Date.now()` and `alert` are treated as outside effects. The time arrives as parameter `now`, and the alert is the `alerted` result.
- `toLowerCase` is modelled on ASCII letters only. No other character lower-cases to `<`, `s`, `v` or `g`, so the SVG check decides the same.
- Floating-point attributes (`backgroundOpacity`, `grayscaleOpacity`, `slowdownRatio`, the rgba alpha) are Dafny `real` values, carried through unchanged. Number formatting is modelled for integers only. `Text.IntToString` matches `${n}` only for |n| < 10^21. From 10^21 on, JavaScript prints exponent form, and above 2^53 a JavaScript number is not an exact integer. Every number the block prints this way comes from a range control bounded by 300 (lines 176-177, 217-218, 225-226, 444-445, 453-454), far below either limit.
- `Render.HexToRgba` returns the channel values and alpha as a record, not the `rgba(...)` text.
- `LogoList.Moved` takes the direction as `Left | Right`. The source compares strings, but it is only ever called with `'left'` and `'right'` (lines 408 and 415).
- `Editor.BlockEditor.UpdateLogoAlt` requires `0 <= index < |logos|`. So do `UpdateLogoHeight`, `UpdateLogoGap` and `ToggleLogoInvert`. On an out-of-range index these source helpers read a field of `undefined` and throw a `TypeError`.
- `Editor.BlockEditor.MoveLogo` requires `LogoList.MoveInBounds`. `moveLogo` checks the bound only on the side the entry moves to (lines 75 and 77). `moveLogo(-1, 'left')` and `moveLogo(logos.length, 'right')` fail that check and store an unchanged copy, and the model covers them (`LogoList.MoveAtEdgeIsNoOp`). It leaves out the two calls that corrupt the copy. A left move from an index at or past the end writes past the end (line 76). A right move from index -1 puts `undefined` at position 0 (line 78).
- No caller reaches these excluded indices. The height, gap and invert controls and the move buttons pass only `logos.map` indices (lines 405-463). `updateLogoAlt` is never called in `src/index.js`: the settings panel at lines 440-463 edits only height, gap and invert.
- `Render.ResolvedHeight` and `Render.ResolvedGap` assume part of the block's stylesheet (`style.scss`, imported at line 7). The script only decides which inline `height` and `marginRight` a logo gets (lines 619-628). A logo without them takes its size from the stylesheet. The model assumes that the stylesheet sizes `.logo-item` by `var(--logo-height)` and spaces logos by a `margin-right` of `var(--logo-gap)`. The stylesheet is not part of this model. `Render.RenderedSizesMatchEditor` and `Scenarios.TwoLogosPausing` hold under that assumption. Under a different stylesheet, such as one using a flex `gap` on `.logo-slide`, an override would add to the default instead of replacing it.
- `Option` merges `null` and `undefined`. The gap control (line 451) tests only `!== null`, so for an entry with no `gap` field it shows `undefined`, while the saved slider falls back to `--logo-gap` (line 624). `Render.RenderedSizesMatchEditor` states the equality only for `null` or a number, which covers every entry this code creates: both `gap: null` (lines 44 and 103).
- Aliasing is not modelled. The update helpers copy the array shallowly, so `newLogos[index].alt = …` also changes the entry object the old array shares. The model keeps value semantics: the old list is left as it was.
- `BlockAttributes.Apply` states only each change's effect on `logos` and on the two hover flags. Its body writes exactly one field for each non-hover control, but no ensures clause says so.
- HTML text of the saved markup (tag names, wrapper class names, attribute serialisation) is not modelled. The model keeps the structure those carry.
