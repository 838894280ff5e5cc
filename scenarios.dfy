/** Two end-to-end runs of the block, from settings to saved markup. */
module Scenarios {
  import opened Wrappers
  import opened BlockAttributes
  import opened Text
  import opened Render

  /**
   * Two logos, default gap 50 and height 60, pausing on hover: the saved
   * slider pauses on hover, shows both logos in each of its two groups, and a
   * logo without overrides takes the default 60px height and 50px gap.
   */
  lemma TwoLogosPausing(a: Attributes, first: LogoEntry, second: LogoEntry)
    requires a.logos == [first, second]
    requires a.logoHeight == 60 && a.logoGap == 50
    requires a.pauseOnHover && !a.slowdownOnHover
    requires second.height == None && second.gap == None
    ensures Save(a).Some?
    ensures var saved := Save(a).value;
      "pause-on-hover" in Tokens(saved.slider.className) &&
      |saved.slider.slides| == 2 &&
      |saved.slider.slides[0].items| == 2 && |saved.slider.slides[1].items| == 2 &&
      ReadWithUnit(ResolvedHeight(saved.slider.slides[1].items[1].style, saved.vars), "px") == Some(60) &&
      ReadWithUnit(ResolvedGap(saved.slider.slides[1].items[1].style, saved.vars), "px") == Some(50)
  {
    SliderClassMembers(a.pauseOnHover, a.slowdownOnHover, a.forceTrueGap);
    RenderedSizesMatchEditor(second, a);
  }

  /**
   * Switching slowdown on while pausing is on, then choosing the ratio 0.3:
   * pausing is switched off, the slider slows down instead of pausing, and the
   * ratio 0.3 is handed to the hover script.
   */
  lemma SlowdownReplacesPause(a: Attributes)
    requires a.pauseOnHover
    ensures var b := ApplyAll(a, [SlowdownOnHover(true), SlowdownRatio(0.3)]);
      !b.pauseOnHover && b.slowdownOnHover &&
      Slider(b).slowdownRatio == Some(0.3) &&
      "has-slowdown-hover" in Tokens(Slider(b).className) &&
      !("pause-on-hover" in Tokens(Slider(b).className))
  {
    var changes := [SlowdownOnHover(true), SlowdownRatio(0.3)];
    var once := Apply(a, changes[0]);
    var b := Apply(once, changes[1]);
    assert ApplyAll(a, changes) == b by {
      assert ApplyAll(a, changes) == ApplyAll(once, changes[1..]);
      assert changes[1..] == [changes[1]] && changes[1..][1..] == [];
    }
    assert !b.pauseOnHover && b.slowdownOnHover && b.slowdownRatio == 0.3;
    SliderClassMembers(false, true, b.forceTrueGap);
  }
}
