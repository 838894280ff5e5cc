/**
 * What the editor's logo-list handlers do to the ordered list of logos,
 * stated as functions on sequences: append from the media library, delete
 * by position, swap with a neighbour, overwrite one field of one entry, and
 * append pasted SVG markup after validating it.
 */
module LogoList {
  import opened Wrappers
  import opened BlockAttributes
  import opened Text

  // ---------------------------------------------------------------------
  // Adding from the media library
  // ---------------------------------------------------------------------

  /** The media descriptor the upload picker hands back; `alt` may be missing. */
  datatype Media = Media(id: int, url: string, alt: Option<string>)

  /** The entry made for a picked attachment: no overrides, not inverted, alt text or `''`. */
  function MediaLogo(media: Media): (e: LogoEntry)
    ensures e.id == MediaId(media.id) && e.image == MediaUrl(media.url)
    ensures e.alt == (if media.alt.Some? then media.alt.value else "")
    ensures e.height == None && e.gap == None && !e.invert && !e.isSvg
  {
    LogoEntry(MediaId(media.id), MediaUrl(media.url), media.alt.GetOr(""), None, None, false, false)
  }

  /** `[...logos, entry]`: one new entry at the end, every earlier entry where it was. */
  function AddLogo(logos: seq<LogoEntry>, media: Media): (r: seq<LogoEntry>)
    ensures |r| == |logos| + 1 && r[..|logos|] == logos && r[|logos|] == MediaLogo(media)
  {
    logos + [MediaLogo(media)]
  }

  // ---------------------------------------------------------------------
  // Removing by position
  // ---------------------------------------------------------------------

  /** `logos.filter((_, i) => i !== index)`, walking the list with `from` the position of its head. */
  function KeepOthers(logos: seq<LogoEntry>, index: int, from: int): seq<LogoEntry>
    decreases |logos|
  {
    if logos == [] then []
    else (if from == index then [] else [logos[0]]) + KeepOthers(logos[1..], index, from + 1)
  }

  function RemoveLogo(logos: seq<LogoEntry>, index: int): seq<LogoEntry> {
    KeepOthers(logos, index, 0)
  }

  lemma {:induction false} KeepOthersDropsIndex(logos: seq<LogoEntry>, index: int, from: int)
    ensures KeepOthers(logos, index, from) ==
      if from <= index < from + |logos| then logos[..index - from] + logos[index - from + 1..]
      else logos
    decreases |logos|
  {
    if logos != [] {
      var rest := KeepOthers(logos[1..], index, from + 1);
      assert KeepOthers(logos, index, from) == (if from == index then [] else [logos[0]]) + rest;
      KeepOthersDropsIndex(logos[1..], index, from + 1);
      if index == from {
        assert rest == logos[1..];
        assert logos[index - from + 1..] == logos[1..];
      } else if from < index < from + |logos| {
        var j := index - from;
        assert rest == logos[1..][..j - 1] + logos[1..][j..];
        assert logos[..j] == [logos[0]] + logos[1..][..j - 1];
        assert logos[j + 1..] == logos[1..][j..];
      } else {
        assert rest == logos[1..];
        assert logos == [logos[0]] + logos[1..];
      }
    }
  }

  /**
   * Removing position `index` leaves exactly the other entries in their order;
   * a position outside the list leaves the list as it was.
   */
  lemma RemoveLogoSpec(logos: seq<LogoEntry>, index: int)
    ensures RemoveLogo(logos, index) ==
      if 0 <= index < |logos| then logos[..index] + logos[index + 1..] else logos
    ensures 0 <= index < |logos| ==> |RemoveLogo(logos, index)| == |logos| - 1
    ensures 0 <= index < |logos| ==>
      multiset(RemoveLogo(logos, index)) + multiset{logos[index]} == multiset(logos)
  {
    KeepOthersDropsIndex(logos, index, 0);
    if 0 <= index < |logos| {
      var pre, post := logos[..index], logos[index + 1..];
      assert logos == pre + [logos[index]] + post;
      assert multiset(logos) == multiset(pre) + multiset{logos[index]} + multiset(post);
    }
  }

  /** Removing the entry just added gives back the list before the add. */
  lemma RemoveUndoesAdd(logos: seq<LogoEntry>, media: Media)
    ensures RemoveLogo(AddLogo(logos, media), |logos|) == logos
  {
    RemoveLogoSpec(AddLogo(logos, media), |logos|);
  }

  // ---------------------------------------------------------------------
  // Moving one step left or right
  // ---------------------------------------------------------------------

  /** The two arrow buttons under each logo in the editor grid. */
  datatype Direction = Left | Right

  /**
   * The indices on which a move reads and writes only entries of the list:
   * each direction checks the bound on its own side only, so a left move
   * past the end, or a right move from below 0, would run off the list.
   * A left move from 0 or below and a right move from the last position or
   * beyond fail their check and leave the list as it is.
   */
  predicate MoveInBounds(logos: seq<LogoEntry>, index: int, direction: Direction) {
    (direction == Left && index > 0 ==> index < |logos|) &&
    (direction == Right && index < |logos| - 1 ==> 0 <= index)
  }

  /**
   * The list after moving the entry at `index` one step in `direction`;
   * at either end nothing moves.
   */
  function Moved(logos: seq<LogoEntry>, index: int, direction: Direction): seq<LogoEntry>
    requires MoveInBounds(logos, index, direction)
  {
    if direction == Left && index > 0 then
      logos[..index - 1] + [logos[index], logos[index - 1]] + logos[index + 1..]
    else if direction == Right && index < |logos| - 1 then
      logos[..index] + [logos[index + 1], logos[index]] + logos[index + 2..]
    else
      logos
  }

  /** Moving left swaps the entry with its left neighbour and leaves every other position alone. */
  lemma MoveLeftSwaps(logos: seq<LogoEntry>, index: int)
    requires 0 < index < |logos|
    ensures var r := Moved(logos, index, Left);
      |r| == |logos| && r[index - 1] == logos[index] && r[index] == logos[index - 1] &&
      forall j :: 0 <= j < |r| && j != index - 1 && j != index ==> r[j] == logos[j]
  {
  }

  /** Moving right swaps the entry with its right neighbour and leaves every other position alone. */
  lemma MoveRightSwaps(logos: seq<LogoEntry>, index: int)
    requires 0 <= index < |logos| - 1
    ensures var r := Moved(logos, index, Right);
      |r| == |logos| && r[index + 1] == logos[index] && r[index] == logos[index + 1] &&
      forall j :: 0 <= j < |r| && j != index && j != index + 1 ==> r[j] == logos[j]
  {
  }

  /** A move keeps the same entries, each as many times as before. */
  lemma MovePermutes(logos: seq<LogoEntry>, index: int, direction: Direction)
    requires MoveInBounds(logos, index, direction)
    ensures |Moved(logos, index, direction)| == |logos|
    ensures multiset(Moved(logos, index, direction)) == multiset(logos)
  {
    if direction == Left && index > 0 {
      SwapAdjacentPermutes(logos, index - 1);
    } else if direction == Right && index < |logos| - 1 {
      SwapAdjacentPermutes(logos, index);
    }
  }

  /** Swapping the entries at `i` and `i + 1` keeps the multiset of entries. */
  lemma SwapAdjacentPermutes(logos: seq<LogoEntry>, i: int)
    requires 0 <= i < |logos| - 1
    ensures multiset(logos[..i] + [logos[i + 1], logos[i]] + logos[i + 2..]) == multiset(logos)
  {
    var pre, x, y, post := logos[..i], logos[i], logos[i + 1], logos[i + 2..];
    assert logos == pre + [x, y] + post;
    SwapPermutes(pre, x, y, post);
  }

  lemma SwapPermutes(pre: seq<LogoEntry>, x: LogoEntry, y: LogoEntry, post: seq<LogoEntry>)
    ensures multiset(pre + [y, x] + post) == multiset(pre + [x, y] + post)
  {
    assert multiset([y, x]) == multiset([x, y]);
  }

  /**
   * The first entry cannot move left, the last cannot move right; nor can
   * any index beyond those ends in that direction.
   */
  lemma MoveAtEdgeIsNoOp(logos: seq<LogoEntry>, index: int, direction: Direction)
    requires (direction == Left && index <= 0) || (direction == Right && index >= |logos| - 1)
    ensures Moved(logos, index, direction) == logos
  {
  }

  /** Moving right and then moving the same entry back left restores the list. */
  lemma MoveRightThenLeft(logos: seq<LogoEntry>, index: int)
    requires 0 <= index < |logos| - 1
    ensures Moved(Moved(logos, index, Right), index + 1, Left) == logos
  {
    var once := Moved(logos, index, Right);
    assert once[..index] == logos[..index];
    assert once[index + 2..] == logos[index + 2..];
    assert logos == logos[..index] + [logos[index], logos[index + 1]] + logos[index + 2..];
  }

  /** Moving left and then moving the same entry back right restores the list. */
  lemma MoveLeftThenRight(logos: seq<LogoEntry>, index: int)
    requires 0 < index < |logos|
    ensures Moved(Moved(logos, index, Left), index - 1, Right) == logos
  {
    var once := Moved(logos, index, Left);
    assert once[..index - 1] == logos[..index - 1];
    assert once[index + 1..] == logos[index + 1..];
    assert logos == logos[..index - 1] + [logos[index - 1], logos[index]] + logos[index + 1..];
  }

  // ---------------------------------------------------------------------
  // Editing one entry
  // ---------------------------------------------------------------------

  /** The per-logo edits of the expanded settings panel. */
  datatype LogoEdit = SetAlt(alt: string) | SetHeight(height: Option<int>) | SetGap(gap: Option<int>) | ToggleInvert

  /** An entry after an edit: the named field changes, every other field stays. */
  function Edited(e: LogoEntry, edit: LogoEdit): (r: LogoEntry)
    ensures r.id == e.id && r.image == e.image && r.isSvg == e.isSvg
    ensures r.alt == (if edit.SetAlt? then edit.alt else e.alt)
    ensures r.height == (if edit.SetHeight? then edit.height else e.height)
    ensures r.gap == (if edit.SetGap? then edit.gap else e.gap)
    ensures r.invert == (if edit.ToggleInvert? then !e.invert else e.invert)
  {
    match edit
    case SetAlt(alt) => e.(alt := alt)
    case SetHeight(h) => e.(height := h)
    case SetGap(g) => e.(gap := g)
    case ToggleInvert => e.(invert := !e.invert)
  }

  /** The list with the entry at `index` edited and every other entry left as it was. */
  function EditedAt(logos: seq<LogoEntry>, index: int, edit: LogoEdit): (r: seq<LogoEntry>)
    requires 0 <= index < |logos|
    ensures |r| == |logos| && r[index] == Edited(logos[index], edit)
    ensures forall j :: 0 <= j < |logos| && j != index ==> r[j] == logos[j]
  {
    logos[index := Edited(logos[index], edit)]
  }

  /** The edit that puts the field an edit touches back to its value in `e`. */
  function Undo(e: LogoEntry, edit: LogoEdit): LogoEdit {
    match edit
    case SetAlt(_) => SetAlt(e.alt)
    case SetHeight(_) => SetHeight(e.height)
    case SetGap(_) => SetGap(e.gap)
    case ToggleInvert => ToggleInvert
  }

  /**
   * Every edit can be undone: restoring the old value of the field (for the
   * invert flag, toggling a second time) gives back the original list.
   */
  lemma EditUndone(logos: seq<LogoEntry>, index: int, edit: LogoEdit)
    requires 0 <= index < |logos|
    ensures EditedAt(EditedAt(logos, index, edit), index, Undo(logos[index], edit)) == logos
  {
    var twice := EditedAt(EditedAt(logos, index, edit), index, Undo(logos[index], edit));
    assert twice[index] == logos[index];
  }

  /** Toggling the inversion twice restores the list. */
  lemma ToggleInvertTwice(logos: seq<LogoEntry>, index: int)
    requires 0 <= index < |logos|
    ensures EditedAt(EditedAt(logos, index, ToggleInvert), index, ToggleInvert) == logos
  {
    EditUndone(logos, index, ToggleInvert);
  }

  // ---------------------------------------------------------------------
  // Adding pasted SVG markup
  // ---------------------------------------------------------------------

  /**
   * Pasted markup is accepted when it is non-empty and its trimmed,
   * lower-cased form contains `<svg`.
   */
  predicate AcceptsSvg(svgCode: string) {
    svgCode != "" && Contains(Lower(Trim(svgCode)), "<svg")
  }

  /** The entry made for accepted markup pasted at time `now`. */
  function SvgLogo(svgCode: string, now: int): (e: LogoEntry)
    ensures e.id == SvgId(now) && e.image == SvgDataUrl(Trim(svgCode))
    ensures e.alt == "SVG Logo" && e.isSvg && !e.invert && e.height == None && e.gap == None
  {
    LogoEntry(SvgId(now), SvgDataUrl(Trim(svgCode)), "SVG Logo", None, None, false, true)
  }

  /**
   * The list after pasting `svgCode`: `None` when the markup is refused (the
   * list is unchanged and the user is alerted), otherwise the list with one
   * SVG entry appended.
   */
  function AddLogoFromSvg(logos: seq<LogoEntry>, svgCode: string, now: int): (r: Option<seq<LogoEntry>>)
    ensures r.Some? <==> AcceptsSvg(svgCode)
    ensures r.Some? ==>
      |r.value| == |logos| + 1 && r.value[..|logos|] == logos && r.value[|logos|] == SvgLogo(svgCode, now)
  {
    if AcceptsSvg(svgCode) then Some(logos + [SvgLogo(svgCode, now)]) else None
  }

  /**
   * Neither the emptiness test nor the trim decides anything on its own: the
   * markup is accepted exactly when `<svg` occurs in it, in any letter case.
   */
  lemma AcceptsSvgIff(svgCode: string)
    ensures AcceptsSvg(svgCode) <==> Contains(Lower(svgCode), "<svg")
  {
    var tag := "<svg";
    assert !IsWhitespace(tag[0]) && !IsWhitespace(tag[|tag| - 1]);
    TrimKeepsContains(svgCode, tag);
    if svgCode == "" {
      assert Lower(svgCode) == [];
      assert !(tag <= []);
    }
  }

  /** The test ignores letter case: `<SVG` is accepted like `<svg`. */
  lemma AcceptsSvgIgnoresCase(svgCode: string)
    ensures AcceptsSvg(Lower(svgCode)) <==> AcceptsSvg(svgCode)
  {
    AcceptsSvgIff(svgCode);
    AcceptsSvgIff(Lower(svgCode));
    LowerIdempotent(svgCode);
  }
}
