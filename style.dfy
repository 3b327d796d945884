/**
 * The immutable text style of fsel/lib/tui/style.py; fsel/lib/rich_text.py
 * declares the same class with the same two methods, and this one
 * datatype stands for both.
 */
module Style {
  import opened Wrappers
  import opened Bits

  /**
   * A colour as the palettes hold it: a named terminal colour constant
   * (whose numeric value lives in a colour table outside this model) or
   * an RGB triple.
   */
  datatype Color = Named(name: string) | Rgb(r: int, g: int, b: int)

  /** `Style(attr, fg, bg)`; `attr` is a word of attribute flags. */
  datatype Style = Style(attr: nat, fg: Option<Color>, bg: Option<Color>) {

    /** A new style with attribute word `a` and this style's colours. */
    function WithAttr(a: nat): (r: Style)
      ensures r.attr == a && r.fg == fg && r.bg == bg
    {
      Style(a, fg, bg)
    }

    /** A new style whose attribute word also carries `flag`. */
    function WithAttrFlag(flag: nat): (r: Style)
      ensures r == WithAttr(BitOr(attr, flag))
    {
      WithAttr(BitOr(attr, flag))
    }
  }

  /** `Style()`: no attributes, no colours. */
  const PLAIN: Style := Style(0, None, None)

  /** Adding the same flag twice is the same as adding it once. */
  lemma {:induction false} WithAttrFlagIdempotent(s: Style, flag: nat)
    ensures s.WithAttrFlag(flag).WithAttrFlag(flag) == s.WithAttrFlag(flag)
  {
    BitOrIdempotent(s.attr, flag);
  }

  /** Adding two flags in either order gives the same style. */
  lemma {:induction false} WithAttrFlagCommutes(s: Style, f: nat, g: nat)
    ensures s.WithAttrFlag(f).WithAttrFlag(g) == s.WithAttrFlag(g).WithAttrFlag(f)
  {
    BitOrSwap(s.attr, f, g);
  }

  /** The flag is set afterwards, and every flag that was set stays set. */
  lemma {:induction false} WithAttrFlagSetsBits(s: Style, flag: nat, k: nat)
    ensures TestBit(s.WithAttrFlag(flag).attr, k) <==> TestBit(s.attr, k) || TestBit(flag, k)
  {
    BitOrTest(s.attr, flag, k);
  }
}
