/**
 * Rich text (fsel/lib/tui/rich_text.py): a list of `(text, style)` spans,
 * its visible length and its plain text.
 */
module TuiRichText {
  import opened Style

  type RichText = seq<(string, Style)>

  /** `sum(len(text) for text, _ in rich_text)`. */
  function RichTextLength(rt: RichText): nat {
    if |rt| == 0 then 0 else |rt[0].0| + RichTextLength(rt[1..])
  }

  /** `''.join(text for text, _ in rich_text)`. */
  function RichTextToPlain(rt: RichText): string {
    if |rt| == 0 then "" else rt[0].0 + RichTextToPlain(rt[1..])
  }

  /** The visible length is the length of the plain text. */
  lemma {:induction false} PlainTextHasRichTextLength(rt: RichText)
    ensures |RichTextToPlain(rt)| == RichTextLength(rt)
  {
    if |rt| > 0 { PlainTextHasRichTextLength(rt[1..]); }
  }

  /** Both are additive over concatenation of span lists. */
  lemma {:induction false} RichTextAdditive(a: RichText, b: RichText)
    ensures RichTextLength(a + b) == RichTextLength(a) + RichTextLength(b)
    ensures RichTextToPlain(a + b) == RichTextToPlain(a) + RichTextToPlain(b)
  {
    if |a| > 0 {
      assert (a + b)[1..] == a[1..] + b;
      RichTextAdditive(a[1..], b);
    } else {
      assert a + b == b;
    }
  }

  /** Styles do not matter: restyling every span changes neither length nor text. */
  lemma {:induction false} StylesIgnored(rt: RichText, st: Style)
    ensures var plain := seq(|rt|, i requires 0 <= i < |rt| => (rt[i].0, st));
      RichTextLength(plain) == RichTextLength(rt) && RichTextToPlain(plain) == RichTextToPlain(rt)
  {
    var plain := seq(|rt|, i requires 0 <= i < |rt| => (rt[i].0, st));
    if |rt| > 0 {
      StylesIgnored(rt[1..], st);
      assert plain[1..] == seq(|rt[1..]|, i requires 0 <= i < |rt[1..]| => (rt[1..][i].0, st));
    }
  }
}
