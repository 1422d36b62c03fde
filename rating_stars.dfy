/**
 * The star widget (src/components/ui/RatingStars.tsx): which of the stars
 * 1..maxRating are lit for a rating and a hovered star, when a click is passed
 * on, and the label beside an interactive widget.
 */
module RatingStars {
  import opened Wrappers

  /** Line 16. */
  const DefaultMaxRating: nat := 5

  /** Line 44: the star positions 1..maxRating. */
  function Stars(maxRating: nat): (r: seq<nat>)
    ensures |r| == maxRating
    ensures forall i :: 0 <= i < |r| ==> r[i] == i + 1
  {
    if maxRating == 0 then [] else Stars(maxRating - 1) + [maxRating]
  }

  /** Line 45, `hoverRating || rating`: the hovered star when there is one, else the rating. */
  function Effective(hoverRating: nat, rating: real): real {
    if hoverRating != 0 then hoverRating as real else rating
  }

  /** Line 45: a star is lit when its position does not exceed the effective rating. */
  predicate IsActive(position: nat, hoverRating: nat, rating: real) {
    position as real <= Effective(hoverRating, rating)
  }

  /** Whether each star, from the first, is lit. */
  function Lit(maxRating: nat, hoverRating: nat, rating: real): (lit: seq<bool>)
    ensures |lit| == maxRating
    ensures forall i :: 0 <= i < maxRating ==> (lit[i] <==> IsActive(i + 1, hoverRating, rating))
  {
    if maxRating == 0 then [] else Lit(maxRating - 1, hoverRating, rating) + [IsActive(maxRating, hoverRating, rating)]
  }

  function Clamp(n: int, lo: int, hi: int): int {
    if n < lo then lo else if n > hi then hi else n
  }

  /**
   * The lit stars are the first `floor(effective rating)` ones, at most all
   * of them and none for a rating below 1: a fractional rating such as 4.7
   * lights four stars.
   */
  lemma LitIsPrefix(maxRating: nat, hoverRating: nat, rating: real)
    ensures var n := Clamp(Effective(hoverRating, rating).Floor, 0, maxRating);
      forall i :: 0 <= i < maxRating ==> (Lit(maxRating, hoverRating, rating)[i] <==> i < n)
  {
    var e := Effective(hoverRating, rating);
    var n := Clamp(e.Floor, 0, maxRating);
    forall i | 0 <= i < maxRating
      ensures Lit(maxRating, hoverRating, rating)[i] <==> i < n
    {
      assert (i + 1) as real <= e <==> i + 1 <= e.Floor;
    }
  }

  /** Hovering a star lights exactly the stars up to it, whatever the rating. */
  lemma HoverLightsUpTo(maxRating: nat, hoverRating: nat, rating: real)
    requires 1 <= hoverRating <= maxRating
    ensures forall i :: 0 <= i < maxRating ==> (Lit(maxRating, hoverRating, rating)[i] <==> i < hoverRating)
  {
  }

  /** Lines 36-40, 56: a click on a star is passed on only by an interactive widget with a handler. */
  function Clicked(interactive: bool, hasHandler: bool, position: nat): (forwarded: Option<nat>)
    ensures forwarded.Some? <==> interactive && hasHandler
    ensures forwarded.Some? ==> forwarded.value == position
  {
    if interactive && hasHandler then Some(position) else None
  }

  /** What the label shows before the slash: the hovered star, else the rating, else the word "Rate". */
  datatype LabelValue = HoverValue(star: nat) | RatingValue(value: real) | RateText

  datatype Label = Label(value: LabelValue, outOf: nat)

  /** Lines 68-69, `hoverRating || rating || "Rate"`. */
  function ShownValue(hoverRating: nat, rating: real): (v: LabelValue)
    ensures v.HoverValue? <==> hoverRating != 0
    ensures v.RatingValue? <==> hoverRating == 0 && rating != 0.0
    ensures v == RateText <==> hoverRating == 0 && rating == 0.0
  {
    if hoverRating != 0 then HoverValue(hoverRating)
    else if rating != 0.0 then RatingValue(rating)
    else RateText
  }

  /** Lines 66-70 as written: shown only when interactive, and always out of 5. */
  function LabelAsWritten(interactive: bool, maxRating: nat, hoverRating: nat, rating: real): (l: Option<Label>)
    ensures l.Some? <==> interactive
    ensures l.Some? ==> l.value == Label(ShownValue(hoverRating, rating), 5)
  {
    if interactive then Some(Label(ShownValue(hoverRating, rating), 5)) else None
  }

  /** The label with the widget's own number of stars after the slash. */
  function LabelOutOfMax(interactive: bool, maxRating: nat, hoverRating: nat, rating: real): (l: Option<Label>)
    ensures l.Some? <==> interactive
    ensures l.Some? ==> l.value == Label(ShownValue(hoverRating, rating), maxRating)
  {
    if interactive then Some(Label(ShownValue(hoverRating, rating), maxRating)) else None
  }

  /** Hovering star 7 of 10 reads "7/5" as written. */
  lemma LabelAsWrittenExceedsDenominator()
    ensures LabelAsWritten(true, 10, 7, 0.0) == Some(Label(HoverValue(7), 5))
  {
  }

  /** With the widget's own star count, a hovered star never exceeds the denominator. */
  lemma LabelOutOfMaxBounded(maxRating: nat, position: nat)
    requires 1 <= position <= maxRating
    ensures var l := LabelOutOfMax(true, maxRating, position, 0.0).value;
      l.value.HoverValue? && l.value.star <= l.outOf
  {
  }

  /** With five stars, the only count any page uses, both labels agree. */
  lemma LabelsAgreeAtDefault(interactive: bool, hoverRating: nat, rating: real)
    ensures LabelAsWritten(interactive, DefaultMaxRating, hoverRating, rating)
      == LabelOutOfMax(interactive, DefaultMaxRating, hoverRating, rating)
  {
  }

  /** The widget: its properties and the hovered star. */
  class StarsWidget {
    const rating: real
    const maxRating: nat
    const interactive: bool
    const hasHandler: bool
    var hoverRating: nat

    constructor (rating: real, maxRating: Option<nat>, interactive: Option<bool>, hasHandler: bool)
      ensures this.rating == rating && this.maxRating == maxRating.GetOr(DefaultMaxRating)
      ensures this.interactive == interactive.GetOr(false) && this.hasHandler == hasHandler
      ensures hoverRating == 0
    {
      this.rating := rating;
      this.maxRating := maxRating.GetOr(DefaultMaxRating);
      this.interactive := interactive.GetOr(false);
      this.hasHandler := hasHandler;
      hoverRating := 0;
    }

    function LitStars(): (lit: seq<bool>)
      reads this
      ensures |lit| == maxRating
    {
      Lit(maxRating, hoverRating, rating)
    }

    /** Lines 66-70 as the widget renders them: the denominator is always 5. */
    function ShownLabel(): (l: Option<Label>)
      reads this
      ensures l.Some? <==> interactive
      ensures l.Some? ==> l.value == Label(ShownValue(hoverRating, rating), 5)
    {
      LabelAsWritten(interactive, maxRating, hoverRating, rating)
    }

    /** Line 57: only an interactive widget follows the pointer. */
    method MouseEnter(position: nat)
      modifies this
      ensures hoverRating == if interactive then position else old(hoverRating)
    {
      if interactive {
        hoverRating := position;
      }
    }

    /** Line 58: leaving a star of an interactive widget clears the hover. */
    method MouseLeave()
      modifies this
      ensures hoverRating == if interactive then 0 else old(hoverRating)
    {
      if interactive {
        hoverRating := 0;
      }
    }
  }
}
