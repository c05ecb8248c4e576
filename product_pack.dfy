/** `product_pack/models/product_template.py`: a pack is a product made of
    component lines. How many packs can be assembled is limited by the component
    that runs out first, and the pack's list price is the sum of its components'
    prices. */
module ProductPack {

  /** A `product.pack.line`: a component product and how many of it go in one pack. */
  datatype PackLine = PackLine(product: nat, quantity: real)

  /** `qty_available // quantity` for a positive quantity: Python's floor division on
      floats. */
  function Sets(line: PackLine, onHand: nat -> real): real
    requires line.quantity > 0.0
  {
    (onHand(line.product) / line.quantity).Floor as real
  }

  /** As many whole sets of a component as the stock holds, and not one more. */
  lemma SetsBound(line: PackLine, onHand: nat -> real)
    requires line.quantity > 0.0
    ensures Covers(Sets(line, onHand), line, onHand)
    ensures RunsShort(Sets(line, onHand), line, onHand)
  {
    FloorBounds(onHand(line.product), line.quantity);
  }

  /** `(held // q) * q <= held < (held // q + 1) * q` for a positive `q`. */
  lemma FloorBounds(held: real, q: real)
    requires q > 0.0
    ensures var f := (held / q).Floor as real; f * q <= held && held < (f + 1.0) * q
  {
    var x := held / q;
    var f := x.Floor as real;
    assert f <= x < f + 1.0;
    assert x * q == held;
    ScaleBelow(f, x, q);
    ScaleStrictlyBelow(x, f + 1.0, q);
    assert f * q <= held;
    assert held < (f + 1.0) * q;
  }

  /** The stock holds `packs` packs' worth of `line`'s component. */
  predicate Covers(packs: real, line: PackLine, onHand: nat -> real)
  {
    packs * line.quantity <= onHand(line.product)
  }

  lemma ScaleStrictlyBelow(a: real, b: real, q: real)
    requires a < b && q > 0.0
    ensures a * q < b * q
  {
    assert b * q - a * q == (b - a) * q;
  }

  /** `qty_possible`: the sets of each component with a positive quantity, in line
      order. */
  function Possible(lines: seq<PackLine>, onHand: nat -> real): (r: seq<real>)
    ensures |r| <= |lines|
    decreases |lines|
  {
    if lines == [] then []
    else
      var front := Possible(lines[..|lines| - 1], onHand);
      var line := lines[|lines| - 1];
      if line.quantity > 0.0 then front + [Sets(line, onHand)] else front
  }

  /** Each entry of `qty_possible` comes from a positive line, and each positive line
      gives one. */
  lemma {:induction false} PossibleExactly(lines: seq<PackLine>, onHand: nat -> real, x: real)
    ensures x in Possible(lines, onHand) <==>
      exists line :: line in lines && line.quantity > 0.0 && x == Sets(line, onHand)
    decreases |lines|
  {
    if lines != [] {
      var front := lines[..|lines| - 1];
      assert lines == front + [lines[|lines| - 1]];
      PossibleExactly(front, onHand, x);
    }
  }

  /** `min` of a non-empty list. */
  function Min(s: seq<real>): (m: real)
    requires s != []
    ensures m in s
    ensures forall i :: 0 <= i < |s| ==> m <= s[i]
    decreases |s|
  {
    if |s| == 1 then s[0]
    else
      var rest := Min(s[..|s| - 1]);
      if s[|s| - 1] < rest then s[|s| - 1] else rest
  }

  /** `_compute_pack_availability` for one product. */
  function Availability(isPack: bool, lines: seq<PackLine>, onHand: nat -> real): real
  {
    if !isPack || lines == [] then 0.0
    else
      var possible := Possible(lines, onHand);
      if possible != [] then Min(possible) else 0.0
  }

  /** Something that is not a pack, or a pack without components, has availability
      0; so has a pack none of whose lines asks for a positive quantity. */
  lemma AvailabilityZero(isPack: bool, lines: seq<PackLine>, onHand: nat -> real)
    requires !isPack || forall line :: line in lines ==> line.quantity <= 0.0
    ensures Availability(isPack, lines, onHand) == 0.0
  {
    if isPack && lines != [] {
      NoPositiveLines(lines, onHand);
    }
  }

  lemma {:induction false} NoPositiveLines(lines: seq<PackLine>, onHand: nat -> real)
    requires forall line :: line in lines ==> line.quantity <= 0.0
    ensures Possible(lines, onHand) == []
    decreases |lines|
  {
    if lines != [] {
      var front := lines[..|lines| - 1];
      assert forall line :: line in front ==> line in lines;
      assert lines[|lines| - 1] in lines;
      NoPositiveLines(front, onHand);
    }
  }

  /** With some positive line, the availability is the least number of sets over
      the positive lines: no more than any of them, and equal to one of them. */
  lemma AvailabilityIsLimitingComponent(lines: seq<PackLine>, onHand: nat -> real)
    requires exists line :: line in lines && line.quantity > 0.0
    ensures forall line :: line in lines && line.quantity > 0.0 ==>
      Availability(true, lines, onHand) <= Sets(line, onHand)
    ensures exists line :: line in lines && line.quantity > 0.0 && Availability(true, lines, onHand) == Sets(line, onHand)
  {
    var line :| line in lines && line.quantity > 0.0;
    PossibleExactly(lines, onHand, Sets(line, onHand));
    var m := Min(Possible(lines, onHand));
    forall l | l in lines && l.quantity > 0.0 ensures m <= Sets(l, onHand) {
      PossibleExactly(lines, onHand, Sets(l, onHand));
    }
    PossibleExactly(lines, onHand, m);
  }

  /** The stock holds every component of `Availability` packs. */
  lemma AvailabilityCanBeAssembled(lines: seq<PackLine>, onHand: nat -> real)
    requires exists line :: line in lines && line.quantity > 0.0
    ensures forall line :: line in lines && line.quantity > 0.0 ==> Covers(Availability(true, lines, onHand), line, onHand)
  {
    var a := Availability(true, lines, onHand);
    AvailabilityIsLimitingComponent(lines, onHand);
    forall line | line in lines && line.quantity > 0.0 ensures Covers(a, line, onHand) {
      StockCovers(a, line, onHand);
    }
  }

  /** One pack more than `Availability` would run out of the limiting component. */
  lemma OneMorePackRunsShort(lines: seq<PackLine>, onHand: nat -> real)
    requires exists line :: line in lines && line.quantity > 0.0
    ensures exists line :: line in lines && line.quantity > 0.0 && RunsShort(Availability(true, lines, onHand), line, onHand)
  {
    var a := Availability(true, lines, onHand);
    AvailabilityIsLimitingComponent(lines, onHand);
    var limiting :| limiting in lines && limiting.quantity > 0.0 && a == Sets(limiting, onHand);
    SetsBound(limiting, onHand);
    assert RunsShort(a, limiting, onHand);
  }

  /** Assembling `packs + 1` packs would need more of `line`'s component than is
      on hand. */
  predicate RunsShort(packs: real, line: PackLine, onHand: nat -> real)
  {
    (packs + 1.0) * line.quantity > onHand(line.product)
  }

  lemma StockCovers(a: real, line: PackLine, onHand: nat -> real)
    requires line.quantity > 0.0 && a <= Sets(line, onHand)
    ensures Covers(a, line, onHand)
  {
    var sets, q := Sets(line, onHand), line.quantity;
    SetsBound(line, onHand);
    ScaleBelow(a, sets, q);
    assert a * q <= sets * q <= onHand(line.product);
  }

  lemma ScaleBelow(a: real, b: real, q: real)
    requires a <= b && q > 0.0
    ensures a * q <= b * q
  {
    assert b * q - a * q == (b - a) * q;
  }

  /** `sum(line.product_id.lst_price * line.quantity for line in pack_line_ids)`. */
  function PackPrice(lines: seq<PackLine>, lstPrice: nat -> real): real
    decreases |lines|
  {
    if lines == [] then 0.0
    else PackPrice(lines[..|lines| - 1], lstPrice) + lstPrice(lines[|lines| - 1].product) * lines[|lines| - 1].quantity
  }

  /** The price of two lists of components together is the sum of their prices. */
  lemma {:induction false} PackPriceConcat(a: seq<PackLine>, b: seq<PackLine>, lstPrice: nat -> real)
    ensures PackPrice(a + b, lstPrice) == PackPrice(a, lstPrice) + PackPrice(b, lstPrice)
    decreases |b|
  {
    if b != [] {
      var front := b[..|b| - 1];
      var last := b[|b| - 1];
      assert a + b != [];
      assert (a + b)[..|a + b| - 1] == a + front;
      assert (a + b)[|a + b| - 1] == last;
      PackPriceConcat(a, front, lstPrice);
      assert PackPrice(a + b, lstPrice) == PackPrice(a + front, lstPrice) + lstPrice(last.product) * last.quantity;
      assert PackPrice(b, lstPrice) == PackPrice(front, lstPrice) + lstPrice(last.product) * last.quantity;
    } else {
      assert a + b == a;
    }
  }

  /** Scaling every component's quantity by `k` scales the pack's price by `k`. */
  lemma {:induction false} PackPriceScales(lines: seq<PackLine>, k: real, lstPrice: nat -> real)
    ensures PackPrice(Scaled(lines, k), lstPrice) == k * PackPrice(lines, lstPrice)
    decreases |lines|
  {
    if lines != [] {
      var front := lines[..|lines| - 1];
      var scaled := Scaled(lines, k);
      assert |scaled[..|lines| - 1]| == |Scaled(front, k)|;
      forall i | 0 <= i < |front| ensures scaled[..|lines| - 1][i] == Scaled(front, k)[i] {
        assert front[i] == lines[i];
      }
      assert scaled[..|lines| - 1] == Scaled(front, k);
      PackPriceScales(front, k, lstPrice);
      var l := lines[|lines| - 1];
      assert lstPrice(l.product) * (k * l.quantity) == k * (lstPrice(l.product) * l.quantity);
    }
  }

  function Scaled(lines: seq<PackLine>, k: real): (r: seq<PackLine>)
    ensures |r| == |lines|
    ensures forall i :: 0 <= i < |lines| ==> r[i] == PackLine(lines[i].product, k * lines[i].quantity)
  {
    seq(|lines|, i requires 0 <= i < |lines| => PackLine(lines[i].product, k * lines[i].quantity))
  }

  /** The fields of a `product.template` that the two operations read or write. */
  class PackTemplate {
    var isPack: bool
    var lines: seq<PackLine>
    var availability: real
    var listPrice: real

    constructor(isPack: bool, lines: seq<PackLine>, listPrice: real)
      ensures this.isPack == isPack && this.lines == lines && this.listPrice == listPrice
      ensures availability == 0.0
    {
      this.isPack := isPack;
      this.lines := lines;
      this.listPrice := listPrice;
      availability := 0.0;
    }

    /** `_compute_pack_availability`. */
    method ComputePackAvailability(onHand: nat -> real)
      modifies this
      ensures availability == Availability(isPack, lines, onHand)
      ensures isPack == old(isPack) && lines == old(lines) && listPrice == old(listPrice)
    {
      if !isPack || lines == [] {
        availability := 0.0;
        return;
      }
      var qtyPossible: seq<real> := [];
      for i := 0 to |lines|
        invariant qtyPossible == Possible(lines[..i], onHand)
      {
        assert lines[..i + 1][..i] == lines[..i];
        var line := lines[i];
        if line.quantity > 0.0 {
          var maxSets := (onHand(line.product) / line.quantity).Floor as real;
          qtyPossible := qtyPossible + [maxSets];
        }
      }
      assert lines[..|lines|] == lines;
      if qtyPossible != [] {
        availability := MinLoop(qtyPossible);
      } else {
        availability := 0.0;
      }
    }

    /** `action_compute_pack_price`. */
    method ActionComputePackPrice(lstPrice: nat -> real)
      modifies this
      ensures listPrice == PackPrice(lines, lstPrice)
      ensures isPack == old(isPack) && lines == old(lines) && availability == old(availability)
    {
      listPrice := PackPrice(lines, lstPrice);
    }
  }

  /** Python's `min`, which keeps the first of equal values. */
  method MinLoop(s: seq<real>) returns (m: real)
    requires s != []
    ensures m == Min(s)
  {
    m := s[0];
    for i := 1 to |s|
      invariant m == Min(s[..i])
    {
      assert s[..i + 1][..i] == s[..i];
      if s[i] < m {
        m := s[i];
      }
    }
    assert s[..|s|] == s;
  }
}
