/**
 * Label collision avoidance (rendermaps/tile.go `LabelBuffer.WriteIfPossible`).
 *
 * The label R-tree is the sequence of accepted boxes in acceptance order; a
 * query reports a collision whenever some stored box overlaps the padded box
 * of the new label. The display width of the text is a parameter.
 */
module Labels {

  import opened Geometry

  /** The box a label of `width` cells at character cell (x, y) claims: one cell of padding on every side. */
  function LabelBox(x: int, y: int, width: nat): (b: Box)
    ensures b.maxX - b.minX == width as real + 2.0 && b.maxY - b.minY == 2.0
  {
    Box((x - 1) as real, (y - 1) as real, (x + width + 1) as real, (y + 1) as real)
  }

  datatype Placed = Placed(box: Box, text: string)

  predicate Collides(placed: seq<Placed>, b: Box) {
    exists i | 0 <= i < |placed| :: Intersects(placed[i].box, b)
  }

  predicate PairwiseDisjoint(placed: seq<Placed>) {
    forall i, j | 0 <= i < j < |placed| :: !Intersects(placed[i].box, placed[j].box)
  }

  /** The buffer after offering a label: it is added exactly when it overlaps nothing placed. */
  function Offer(placed: seq<Placed>, text: string, b: Box): (r: (seq<Placed>, bool))
    ensures r.1 <==> !Collides(placed, b)
    ensures |r.0| == |placed| + (if r.1 then 1 else 0) && r.0[..|placed|] == placed
    ensures r.1 ==> r.0[|placed|] == Placed(b, text)
  {
    if Collides(placed, b) then (placed, false) else (placed + [Placed(b, text)], true)
  }

  /** Accepted labels never overlap, whatever the order of the offers. */
  lemma OfferKeepsDisjoint(placed: seq<Placed>, text: string, b: Box)
    requires PairwiseDisjoint(placed)
    ensures PairwiseDisjoint(Offer(placed, text, b).0)
  {
    if !Collides(placed, b) {
      var after := placed + [Placed(b, text)];
      forall i, j | 0 <= i < j < |after|
        ensures !Intersects(after[i].box, after[j].box)
      {
        if j == |placed| {
          IntersectsSymmetric(after[i].box, b);
          assert !Intersects(placed[i].box, b);
        }
      }
    }
  }

  /** Offers in sequence, as consecutive `WriteIfPossible` calls make them. */
  function OfferAll(placed: seq<Placed>, offers: seq<(string, Box)>): seq<Placed>
    decreases |offers|
  {
    if offers == [] then placed
    else OfferAll(Offer(placed, offers[0].0, offers[0].1).0, offers[1..])
  }

  lemma {:induction false} OfferAllKeepsDisjoint(placed: seq<Placed>, offers: seq<(string, Box)>)
    requires PairwiseDisjoint(placed)
    ensures PairwiseDisjoint(OfferAll(placed, offers))
    decreases |offers|
  {
    if offers != [] {
      OfferKeepsDisjoint(placed, offers[0].0, offers[0].1);
      OfferAllKeepsDisjoint(Offer(placed, offers[0].0, offers[0].1).0, offers[1..]);
    }
  }

  /** Two overlapping labels: whichever is offered first is the one kept. */
  lemma OutcomeDependsOnOrder()
    ensures var a := ("Central", LabelBox(10, 5, 7));
      var b := ("Town Hall", LabelBox(14, 5, 9));
      OfferAll([], [a, b]) == [Placed(a.1, a.0)] &&
      OfferAll([], [b, a]) == [Placed(b.1, b.0)]
  {
    var a := ("Central", LabelBox(10, 5, 7));
    var b := ("Town Hall", LabelBox(14, 5, 9));
    var pa := [Placed(a.1, a.0)];
    var pb := [Placed(b.1, b.0)];
    var none: seq<Placed> := [];
    assert !Collides(none, a.1) && none + pa == pa;
    assert Offer([], a.0, a.1) == (pa, true);
    assert Intersects(pa[0].box, b.1);
    assert Offer(pa, b.0, b.1) == (pa, false);
    assert [a, b][1..] == [b] && [b][1..] == [];
    assert OfferAll(pa, [b]) == OfferAll(pa, []);
    assert !Collides(none, b.1) && none + pb == pb;
    assert Offer([], b.0, b.1) == (pb, true);
    assert Intersects(pb[0].box, a.1);
    assert Offer(pb, a.0, a.1) == (pb, false);
    assert [b, a][1..] == [a] && [a][1..] == [];
    assert OfferAll(pb, [a]) == OfferAll(pb, []);
  }

  class LabelBuffer {
    var placed: seq<Placed>

    ghost predicate Valid()
      reads this
    {
      PairwiseDisjoint(placed)
    }

    constructor()
      ensures Valid() && placed == []
    {
      placed := [];
    }

    /** `WriteIfPossible`: claim the padded box unless something already placed overlaps it. */
    method WriteIfPossible(text: string, width: nat, x: int, y: int) returns (accepted: bool)
      requires Valid()
      modifies this
      ensures Valid()
      ensures (placed, accepted) == Offer(old(placed), text, LabelBox(x, y, width))
      ensures accepted <==> !Collides(old(placed), LabelBox(x, y, width))
      ensures !accepted ==> placed == old(placed)
    {
      var bounds := LabelBox(x, y, width);
      var collision := false;
      var i := 0;
      while i < |placed| && !collision
        invariant 0 <= i <= |placed|
        invariant collision <==> exists k | 0 <= k < i :: Intersects(placed[k].box, bounds)
      {
        if Intersects(placed[i].box, bounds) {
          collision := true;
        }
        i := i + 1;
      }
      OfferKeepsDisjoint(placed, text, bounds);
      if !collision {
        placed := placed + [Placed(bounds, text)];
        return true;
      }
      return false;
    }
  }
}
