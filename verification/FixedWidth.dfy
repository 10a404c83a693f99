/** Texts of fixed-width decimal fields, each closed by one separator. */
module FixedWidth {
  import opened Text

  /** Fields of fixed width, each closed by one separator. */
  datatype Slot = Slot(width: nat, separator: CodeUnit)

  type Layout = seq<Slot>

  predicate Fits(key: seq<nat>, layout: Layout) {
    |key| == |layout| && forall i :: 0 <= i < |key| ==> key[i] < Pow10(layout[i].width)
  }

  function Render(key: seq<nat>, layout: Layout): (t: Text)
    requires |key| == |layout|
  {
    if key == [] then [] else
      Padded(key[0], layout[0].width) + ([layout[0].separator] + Render(key[1..], layout[1..]))
  }

  /** The regular expression match for a layout, anchored at both ends. */
  predicate Matches(t: Text, layout: Layout) {
    if layout == [] then t == [] else
      var w := layout[0].width;
      && |t| > w
      && (forall i :: 0 <= i < w ==> IsDigit(t[i]))
      && t[w] == layout[0].separator
      && Matches(t[w + 1..], layout[1..])
  }

  function Fields(t: Text, layout: Layout): (key: seq<nat>)
    requires Matches(t, layout)
    ensures |key| == |layout|
  {
    if layout == [] then [] else
      var w := layout[0].width;
      [Denoted(t[..w])] + Fields(t[w + 1..], layout[1..])
  }

  lemma {:induction false} RenderMatches(key: seq<nat>, layout: Layout)
    requires Fits(key, layout)
    ensures Matches(Render(key, layout), layout)
    ensures Fields(Render(key, layout), layout) == key
  {
    if key != [] {
      var w, t := layout[0].width, Render(key, layout);
      assert Fits(key[1..], layout[1..]);
      RenderMatches(key[1..], layout[1..]);
      PaddedDenotes(key[0], w);
      assert t[..w] == Padded(key[0], w);
      assert t[w + 1..] == Render(key[1..], layout[1..]);
    }
  }

  /** Fixed-width rendering turns the order of keys into the order of texts. */
  lemma {:induction false} RenderOrder(k: seq<nat>, l: seq<nat>, layout: Layout)
    requires Fits(k, layout) && Fits(l, layout) && Less(k, l)
    ensures Less(Render(k, layout), Render(l, layout))
  {
    var w, s := layout[0].width, layout[0].separator;
    var rest, rest' := Render(k[1..], layout[1..]), Render(l[1..], layout[1..]);
    LessConcat(Padded(k[0], w), [s] + rest, Padded(l[0], w), [s] + rest');
    if k[0] < l[0] {
      PaddedOrder(k[0], l[0], w);
    } else {
      assert Fits(k[1..], layout[1..]) && Fits(l[1..], layout[1..]);
      RenderOrder(k[1..], l[1..], layout[1..]);
      LessConcat([s], rest, [s], rest');
    }
  }
}
