/** The per-skeleton privacy decision of the detection loop: while an event is
    active every bystander's head is blurred and the offender's head is framed
    in red; otherwise every head gets the neutral green frame. */
module Redaction {
  import opened Wrappers
  import opened Geometry

  /** What the loop does with one skeleton's head. */
  datatype Decision =
    | NoHead                            // no head box: nothing is drawn
    | Blurred(box: Box)                 // Gaussian blur and the "Privacy" label
    | Framed(box: Box, offender: bool)  // red frame and confidence label for the offender, green otherwise

  /** The decision `d` the loop makes for skeleton number `i`, `kps`. */
  ghost predicate Decided(kps: Skeleton, i: int, offender: int, active: bool, w: int, h: int, d: Decision) {
    var hb := HeadBox(kps, w, h);
    // only skeletons with a head box are drawn, and always on that box
    && (d.NoHead? <==> hb.None?)
    && (!d.NoHead? ==> d.box == hb.value)
    // while an event is active every head but the offender's is blurred;
    // the offender is never blurred, and nothing is blurred when idle
    && (d.Blurred? <==> hb.Some? && active && i != offender)
    // the red offender frame appears exactly on the offender during an event
    && (d.Framed? ==> (d.offender <==> active && i == offender))
  }

  /** The decisions `ds` the loop makes for `batch`. */
  ghost predicate Redacted(batch: seq<Skeleton>, offender: int, active: bool, w: int, h: int, ds: seq<Decision>) {
    |ds| == |batch| &&
    forall i :: 0 <= i < |ds| ==> Decided(batch[i], i, offender, active, w, h, ds[i])
  }

  method Redact(batch: seq<Skeleton>, offender: int, active: bool, w: int, h: int) returns (ds: seq<Decision>)
    ensures Redacted(batch, offender, active, w, h, ds)
  {
    ds := [];
    var i := 0;
    while i < |batch|
      invariant 0 <= i <= |batch|
      invariant Redacted(batch[..i], offender, active, w, h, ds)
    {
      var d := NoHead;
      match HeadBox(batch[i], w, h) {
        case None =>
        case Some(b) =>
          if active && i != offender {
            d := Blurred(b);
          } else {
            d := Framed(b, active && i == offender);
          }
      }
      assert Decided(batch[i], i, offender, active, w, h, d);
      assert batch[..i + 1] == batch[..i] + [batch[i]];
      ds := ds + [d];
      i := i + 1;
    }
    assert batch[..i] == batch;
  }
}
