/**
 * The edit view's handlers.  The attribute record is held by the editor and
 * replaced through `setAttributes`; each logo handler copies the list
 * (`[...logos]`), writes into the copy and hands it back.
 */
module Editor {
  import opened Wrappers
  import opened BlockAttributes
  import opened LogoList

  class BlockEditor {
    /** The block's attributes as the editor currently stores them. */
    var attributes: Attributes

    constructor (initial: Attributes)
      ensures attributes == initial
    {
      attributes := initial;
    }

    /** `[...logos]`: a fresh array holding the current list. */
    method CopyLogos() returns (copy: array<LogoEntry>)
      ensures fresh(copy) && copy[..] == attributes.logos
    {
      var logos := attributes.logos;
      copy := new LogoEntry[|logos|](i requires 0 <= i < |logos| => logos[i]);
    }

    /** `setAttributes({ logos })`. */
    method SetLogos(logos: seq<LogoEntry>)
      modifies this
      ensures attributes == old(attributes).(logos := logos)
    {
      attributes := attributes.(logos := logos);
    }

    /** A picked attachment is appended. */
    method AddLogo(media: Media)
      modifies this
      ensures attributes == old(attributes).(logos := LogoList.AddLogo(old(attributes.logos), media))
    {
      SetLogos(attributes.logos + [MediaLogo(media)]);
    }

    /** The entry at `index` is filtered out. */
    method RemoveLogo(index: int)
      modifies this
      ensures attributes == old(attributes).(logos := LogoList.RemoveLogo(old(attributes.logos), index))
    {
      SetLogos(KeepOthers(attributes.logos, index, 0));
    }

    method UpdateLogoAlt(index: int, alt: string)
      requires 0 <= index < |attributes.logos|
      modifies this
      ensures attributes == old(attributes).(logos := EditedAt(old(attributes.logos), index, SetAlt(alt)))
    {
      var newLogos := CopyLogos();
      newLogos[index] := newLogos[index].(alt := alt);
      SetLogos(newLogos[..]);
    }

    method UpdateLogoHeight(index: int, height: Option<int>)
      requires 0 <= index < |attributes.logos|
      modifies this
      ensures attributes == old(attributes).(logos := EditedAt(old(attributes.logos), index, SetHeight(height)))
    {
      var newLogos := CopyLogos();
      newLogos[index] := newLogos[index].(height := height);
      SetLogos(newLogos[..]);
    }

    method UpdateLogoGap(index: int, gap: Option<int>)
      requires 0 <= index < |attributes.logos|
      modifies this
      ensures attributes == old(attributes).(logos := EditedAt(old(attributes.logos), index, SetGap(gap)))
    {
      var newLogos := CopyLogos();
      newLogos[index] := newLogos[index].(gap := gap);
      SetLogos(newLogos[..]);
    }

    /** Swaps the entry with its neighbour in the copy; at either end the copy is handed back as it is. */
    method MoveLogo(index: int, direction: Direction)
      requires MoveInBounds(attributes.logos, index, direction)
      modifies this
      ensures attributes == old(attributes).(logos := Moved(old(attributes.logos), index, direction))
    {
      var newLogos := CopyLogos();
      ghost var before := newLogos[..];
      if direction == Left && index > 0 {
        newLogos[index - 1], newLogos[index] := newLogos[index], newLogos[index - 1];
        MoveLeftSwaps(before, index);
      } else if direction == Right && index < newLogos.Length - 1 {
        newLogos[index + 1], newLogos[index] := newLogos[index], newLogos[index + 1];
        MoveRightSwaps(before, index);
      }
      assert newLogos[..] == Moved(before, index, direction);
      SetLogos(newLogos[..]);
    }

    method ToggleLogoInvert(index: int)
      requires 0 <= index < |attributes.logos|
      modifies this
      ensures attributes == old(attributes).(logos := EditedAt(old(attributes.logos), index, ToggleInvert))
    {
      var newLogos := CopyLogos();
      newLogos[index] := newLogos[index].(invert := !newLogos[index].invert);
      SetLogos(newLogos[..]);
    }

    /**
     * Pasting SVG markup at time `now`.  Refused markup raises the alert
     * (`alerted`) and leaves the attributes untouched.
     */
    method AddLogoFromSvg(svgCode: string, now: int) returns (alerted: bool)
      modifies this
      ensures alerted <==> !AcceptsSvg(svgCode)
      ensures alerted ==> attributes == old(attributes)
      ensures !alerted ==>
        attributes == old(attributes).(logos := LogoList.AddLogoFromSvg(old(attributes.logos), svgCode, now).value)
    {
      if !AcceptsSvg(svgCode) {
        return true;
      }
      SetLogos(attributes.logos + [SvgLogo(svgCode, now)]);
      alerted := false;
    }

    /**
     * An inspector control's `onChange`.  The hover toggles make two
     * `setAttributes` calls: the flag first, then, when it was switched on,
     * the opposite flag off.
     */
    method OnSettingChange(change: Setting)
      modifies this
      ensures attributes == Apply(old(attributes), change)
    {
      match change
      case PauseOnHover(value) =>
        attributes := attributes.(pauseOnHover := value);
        if value {
          attributes := attributes.(slowdownOnHover := false);
        }
      case SlowdownOnHover(value) =>
        attributes := attributes.(slowdownOnHover := value);
        if value {
          attributes := attributes.(pauseOnHover := false);
        }
      case _ =>
        attributes := Apply(attributes, change);
    }
  }
}
