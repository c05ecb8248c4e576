/** `stock_transfer_to_po/wizard/stock_transfer_po_wizard.py`: from the selected
    internal transfers, propose one line per waiting move that is short of stock,
    with the product's main vendor; then raise purchase orders from the lines, one
    per vendor, each naming the transfers it serves. */
module TransferToPurchase {
  import opened Wrappers
  import opened Text
  import Sorting

  // ---------------------------------------------------------------- records

  /** The `state` selection of `stock.move`. */
  datatype MoveState = Draft | Waiting | Confirmed | PartiallyAvailable | Assigned | Done | Cancel

  /** A `stock.move`: demand is `product_uom_qty`, reserved is `quantity`. */
  datatype Move = Move(product: nat, state: MoveState, isPackMove: bool, demand: real, reserved: real)

  /** A `stock.picking` with its type's code and its moves. */
  datatype Picking = Picking(id: nat, name: string, typeCode: string, moves: seq<Move>)

  /** A `stock.transfer.po.wizard.line`; ids are 0 for `False`. */
  datatype WizardLine = WizardLine(product: nat, quantity: real, vendor: nat, picking: nat)

  // ---------------------------------------------------------------- default_get

  /** Confirmed or partially available, and not the move of a pack. */
  predicate Short(m: Move)
  {
    (m.state == Confirmed || m.state == PartiallyAvailable) && !m.isPackMove
  }

  /** `picking.move_ids.filtered(...)`. */
  function ShortMoves(moves: seq<Move>): (r: seq<Move>)
    ensures forall m :: m in r <==> m in moves && Short(m)
    decreases |moves|
  {
    if moves == [] then []
    else
      var front := moves[..|moves| - 1];
      var m := moves[|moves| - 1];
      assert moves == front + [m];
      if Short(m) then ShortMoves(front) + [m] else ShortMoves(front)
  }

  /** `seller_ids[:1].partner_id`: the first vendor by sequence, or none. */
  function MainVendor(sellers: seq<nat>): nat
  {
    if sellers != [] then sellers[0] else 0
  }

  /** The proposed line for a move: the missing quantity, from the main vendor. */
  function ShortageLine(p: Picking, m: Move, sellers: nat -> seq<nat>): WizardLine
  {
    WizardLine(m.product, m.demand - m.reserved, MainVendor(sellers(m.product)), p.id)
  }

  /** The inner loop over the filtered moves of one picking. */
  function MoveLines(p: Picking, moves: seq<Move>, sellers: nat -> seq<nat>): (r: seq<WizardLine>)
    ensures forall l :: l in r <==>
      exists m :: m in moves && m.demand - m.reserved > 0.0 && l == ShortageLine(p, m, sellers)
    decreases |moves|
  {
    if moves == [] then []
    else
      var front := moves[..|moves| - 1];
      var m := moves[|moves| - 1];
      assert moves == front + [m];
      if m.demand - m.reserved > 0.0 then MoveLines(p, front, sellers) + [ShortageLine(p, m, sellers)]
      else MoveLines(p, front, sellers)
  }

  /** The lines of one picking: none unless it is an internal transfer. */
  function PickingLines(p: Picking, sellers: nat -> seq<nat>): seq<WizardLine>
  {
    if p.typeCode != "internal" then [] else MoveLines(p, ShortMoves(p.moves), sellers)
  }

  /** The outer loop over the active pickings. */
  function ShortageLines(pickings: seq<Picking>, sellers: nat -> seq<nat>): seq<WizardLine>
    decreases |pickings|
  {
    if pickings == [] then []
    else ShortageLines(pickings[..|pickings| - 1], sellers) + PickingLines(pickings[|pickings| - 1], sellers)
  }

  /** A line is proposed exactly for a short move of an internal picking that misses
      stock, and it asks for the missing quantity from the product's main vendor. */
  lemma {:induction false} ShortageLinesExactly(pickings: seq<Picking>, sellers: nat -> seq<nat>, l: WizardLine)
    ensures l in ShortageLines(pickings, sellers) <==>
      exists p, m :: p in pickings && p.typeCode == "internal" && m in p.moves && Short(m)
        && m.demand - m.reserved > 0.0 && l == ShortageLine(p, m, sellers)
    decreases |pickings|
  {
    if pickings != [] {
      var front := pickings[..|pickings| - 1];
      var p := pickings[|pickings| - 1];
      assert pickings == front + [p];
      ShortageLinesExactly(front, sellers, l);
    }
  }

  /** Every proposed line asks for a positive quantity. */
  lemma ShortagesPositive(pickings: seq<Picking>, sellers: nat -> seq<nat>)
    ensures forall l :: l in ShortageLines(pickings, sellers) ==> l.quantity > 0.0
  {
    forall l | l in ShortageLines(pickings, sellers) ensures l.quantity > 0.0 {
      ShortageLinesExactly(pickings, sellers, l);
    }
  }

  lemma PickingsStep(pickings: seq<Picking>, i: nat, sellers: nat -> seq<nat>)
    requires i < |pickings|
    ensures ShortageLines(pickings[..i + 1], sellers) == ShortageLines(pickings[..i], sellers) + PickingLines(pickings[i], sellers)
  {
    assert pickings[..i + 1][..i] == pickings[..i];
  }

  lemma MovesStep(p: Picking, moves: seq<Move>, j: nat, sellers: nat -> seq<nat>)
    requires j < |moves|
    ensures MoveLines(p, moves[..j + 1], sellers) ==
      MoveLines(p, moves[..j], sellers)
      + (if moves[j].demand - moves[j].reserved > 0.0 then [ShortageLine(p, moves[j], sellers)] else [])
  {
    assert moves[..j + 1][..j] == moves[..j];
  }

  /** `default_get`: the lines are filled in only when they are asked for and the
      wizard was opened from transfers. */
  method DefaultGet(fieldsList: seq<string>, activeModel: string, pickings: seq<Picking>, sellers: nat -> seq<nat>)
    returns (lineIds: Option<seq<WizardLine>>)
    ensures lineIds.Some? <==> "line_ids" in fieldsList && activeModel == "stock.picking"
    ensures lineIds.Some? ==> lineIds.value == ShortageLines(pickings, sellers)
  {
    if "line_ids" in fieldsList && activeModel == "stock.picking" {
      var lines: seq<WizardLine> := [];
      for i := 0 to |pickings|
        invariant lines == ShortageLines(pickings[..i], sellers)
      {
        PickingsStep(pickings, i, sellers);
        var picking := pickings[i];
        if picking.typeCode == "internal" {
          var found := MoveShortages(picking, ShortMoves(picking.moves), sellers);
          lines := lines + found;
        }
      }
      assert pickings[..|pickings|] == pickings;
      lineIds := Some(lines);
    } else {
      lineIds := None;
    }
  }

  /** Opened from a move (`active_model` is `stock.move`, as the module's test opens
      it), `default_get` proposes no line, whatever transfers exist: only transfers
      are read. */
  method DefaultGetFromMove(pickings: seq<Picking>, sellers: nat -> seq<nat>)
    returns (lineIds: Option<seq<WizardLine>>)
    ensures lineIds == None
  {
    lineIds := DefaultGet(["line_ids"], "stock.move", pickings, sellers);
  }

  /** The inner loop of `default_get`: one line per move that misses stock. */
  method MoveShortages(picking: Picking, moves: seq<Move>, sellers: nat -> seq<nat>) returns (lines: seq<WizardLine>)
    ensures lines == MoveLines(picking, moves, sellers)
  {
    lines := [];
    for j := 0 to |moves|
      invariant lines == MoveLines(picking, moves[..j], sellers)
    {
      MovesStep(picking, moves, j, sellers);
      var move := moves[j];
      var shortage := move.demand - move.reserved;
      if shortage > 0.0 {
        var sellerIds := sellers(move.product);
        var vendor := if sellerIds != [] then sellerIds[0] else 0;
        lines := lines + [WizardLine(move.product, shortage, vendor, picking.id)];
      }
    }
    assert moves[..|moves|] == moves;
  }

  // ---------------------------------------------------------------- action_create_po

  /** What the wizard reads of products and transfers: `display_name`,
      `standard_price`, the price `_select_seller` finds for a vendor, product and
      quantity, and a transfer's `name`. */
  datatype Catalogue = Catalogue(
    displayName: nat -> string,
    standardPrice: nat -> real,
    supplierPrice: (nat, nat, real) -> Option<real>,
    pickingName: nat -> string)

  datatype PoLine = PoLine(product: nat, quantity: real, name: string, priceUnit: real)

  datatype PurchaseOrder = PurchaseOrder(vendor: nat, origin: string, lines: seq<PoLine>)

  /** The `UserError` raised for a line without a vendor, naming its product. */
  datatype PoError = VendorMissing(product: string)

  /** `display_name or _("Unknown Product")`. */
  function ProductLabel(product: nat, cat: Catalogue): string
  {
    if cat.displayName(product) != "" then cat.displayName(product) else "Unknown Product"
  }

  /** The first line without a vendor: the one the grouping loop raises on. */
  function FirstWithoutVendor(lines: seq<WizardLine>): (r: Option<nat>)
    ensures r.None? <==> forall i :: 0 <= i < |lines| ==> lines[i].vendor != 0
    ensures r.Some? ==>
      r.value < |lines| && lines[r.value].vendor == 0 && forall j :: 0 <= j < r.value ==> lines[j].vendor != 0
    decreases |lines|
  {
    if lines == [] then None
    else if lines[0].vendor == 0 then Some(0)
    else
      var rest := FirstWithoutVendor(lines[1..]);
      assert forall i :: 1 <= i < |lines| ==> lines[i] == lines[1..][i - 1];
      if rest.None? then None else Some(rest.value + 1)
  }

  /** The keys of `grouped`: each vendor once, in order of first appearance. */
  function Vendors(lines: seq<WizardLine>): (r: seq<nat>)
    ensures Distinct(r)
    decreases |lines|
  {
    if lines == [] then []
    else
      var front := Vendors(lines[..|lines| - 1]);
      var v := lines[|lines| - 1].vendor;
      if v in front then front else front + [v]
  }

  /** A vendor is a key of `grouped` exactly when one of the lines names it. */
  lemma {:induction false} VendorsExactly(lines: seq<WizardLine>, v: nat)
    ensures v in Vendors(lines) <==> exists l :: l in lines && l.vendor == v
    decreases |lines|
  {
    if lines != [] {
      var front := lines[..|lines| - 1];
      assert lines == front + [lines[|lines| - 1]];
      VendorsExactly(front, v);
    }
  }

  /** `grouped[vendor]`: the vendor's lines in wizard order. */
  function LinesOf(lines: seq<WizardLine>, v: nat): seq<WizardLine>
    decreases |lines|
  {
    if lines == [] then []
    else
      var front := LinesOf(lines[..|lines| - 1], v);
      var l := lines[|lines| - 1];
      if l.vendor == v then front + [l] else front
  }

  /** A vendor's group holds exactly the lines that name it. */
  lemma {:induction false} LinesOfExactly(lines: seq<WizardLine>, v: nat, l: WizardLine)
    ensures l in LinesOf(lines, v) <==> l in lines && l.vendor == v
    decreases |lines|
  {
    if lines != [] {
      var front := lines[..|lines| - 1];
      assert lines == front + [lines[|lines| - 1]];
      LinesOfExactly(front, v, l);
    }
  }

  /** The names of the transfers the lines come from, one per line that has one. */
  function PickingNames(lines: seq<WizardLine>, cat: Catalogue): seq<string>
    decreases |lines|
  {
    if lines == [] then []
    else
      var front := PickingNames(lines[..|lines| - 1], cat);
      var l := lines[|lines| - 1];
      if l.picking != 0 then front + [cat.pickingName(l.picking)] else front
  }

  lemma {:induction false} PickingNamesExactly(lines: seq<WizardLine>, cat: Catalogue, n: string)
    ensures n in PickingNames(lines, cat) <==> exists l :: l in lines && l.picking != 0 && n == cat.pickingName(l.picking)
    decreases |lines|
  {
    if lines != [] {
      var front := lines[..|lines| - 1];
      assert lines == front + [lines[|lines| - 1]];
      PickingNamesExactly(front, cat, n);
    }
  }

  /** The purchase order's `origin`: the distinct transfer names in sorted order,
      separated by a comma and a space. */
  function Origin(lines: seq<WizardLine>, cat: Catalogue): string
  {
    Join(", ", SortedSet(PickingNames(lines, cat)))
  }

  /** The origin lists each transfer of the vendor's lines once, in ascending order,
      and nothing else. */
  lemma OriginNames(lines: seq<WizardLine>, cat: Catalogue)
    ensures var names := SortedSet(PickingNames(lines, cat));
      Origin(lines, cat) == Join(", ", names)
      && Sorting.Ascending(names, StrLeq) && Distinct(names)
      && forall n :: n in names <==> exists l :: l in lines && l.picking != 0 && n == cat.pickingName(l.picking)
  {
    forall n ensures n in PickingNames(lines, cat) <==> exists l :: l in lines && l.picking != 0 && n == cat.pickingName(l.picking) {
      PickingNamesExactly(lines, cat, n);
    }
  }

  /** The supplier's price when `_select_seller` finds one, the standard price
      otherwise. */
  function UnitPrice(l: WizardLine, v: nat, cat: Catalogue): real
  {
    match cat.supplierPrice(v, l.product, l.quantity)
    case Some(price) => price
    case None => cat.standardPrice(l.product)
  }

  function PoLineOf(l: WizardLine, v: nat, cat: Catalogue): PoLine
  {
    PoLine(l.product, l.quantity, cat.displayName(l.product), UnitPrice(l, v, cat))
  }

  /** How many of the lines have a product. */
  function WithProduct(lines: seq<WizardLine>): nat
    decreases |lines|
  {
    if lines == [] then 0
    else WithProduct(lines[..|lines| - 1]) + (if lines[|lines| - 1].product != 0 then 1 else 0)
  }

  /** The order lines of one vendor's purchase order: a line without a product is
      skipped. */
  function OrderLines(lines: seq<WizardLine>, v: nat, cat: Catalogue): (r: seq<PoLine>)
    ensures |r| == WithProduct(lines)
    decreases |lines|
  {
    if lines == [] then []
    else
      var front := OrderLines(lines[..|lines| - 1], v, cat);
      var l := lines[|lines| - 1];
      if l.product != 0 then front + [PoLineOf(l, v, cat)] else front
  }

  /** An order holds the lines with a product, and nothing else. */
  lemma {:induction false} OrderLinesExactly(lines: seq<WizardLine>, v: nat, cat: Catalogue, x: PoLine)
    ensures x in OrderLines(lines, v, cat) <==> exists l :: l in lines && l.product != 0 && x == PoLineOf(l, v, cat)
    decreases |lines|
  {
    if lines != [] {
      var front := lines[..|lines| - 1];
      assert lines == front + [lines[|lines| - 1]];
      OrderLinesExactly(front, v, cat, x);
    }
  }

  /** The purchase order raised for one vendor. */
  function OrderFor(lines: seq<WizardLine>, v: nat, cat: Catalogue): PurchaseOrder
  {
    var mine := LinesOf(lines, v);
    PurchaseOrder(v, Origin(mine, cat), OrderLines(mine, v, cat))
  }

  /** The orders for the vendors `vs`, in that order. */
  function OrdersFor(lines: seq<WizardLine>, vs: seq<nat>, cat: Catalogue): (r: seq<PurchaseOrder>)
    ensures |r| == |vs|
    ensures forall i :: 0 <= i < |vs| ==> r[i] == OrderFor(lines, vs[i], cat)
    decreases |vs|
  {
    if vs == [] then []
    else OrdersFor(lines, vs[..|vs| - 1], cat) + [OrderFor(lines, vs[|vs| - 1], cat)]
  }

  /** `action_create_po`: nothing for an empty wizard, the error of the first line
      without a vendor, or one purchase order per vendor in order of first
      appearance. */
  function CreatePo(lines: seq<WizardLine>, cat: Catalogue): Result<Option<seq<PurchaseOrder>>, PoError>
  {
    if lines == [] then Ok(None)
    else match FirstWithoutVendor(lines)
      case Some(i) => Err(VendorMissing(ProductLabel(lines[i].product, cat)))
      case None => Ok(Some(OrdersFor(lines, Vendors(lines), cat)))
  }

  /** The three outcomes: an empty wizard does nothing; a line without a vendor
      anywhere stops everything and names the first such line's product; otherwise
      orders are raised. */
  lemma CreatePoOutcome(lines: seq<WizardLine>, cat: Catalogue)
    ensures CreatePo(lines, cat) == Ok(None) <==> lines == []
    ensures CreatePo(lines, cat).Err? <==> exists l :: l in lines && l.vendor == 0
    ensures CreatePo(lines, cat).Err? ==>
      exists i :: (0 <= i < |lines| && lines[i].vendor == 0
        && CreatePo(lines, cat).error == VendorMissing(ProductLabel(lines[i].product, cat))
        && forall j :: 0 <= j < i ==> lines[j].vendor != 0)
  {
    if exists l :: l in lines && l.vendor == 0 {
      var l :| l in lines && l.vendor == 0;
      var k :| 0 <= k < |lines| && lines[k] == l;
    }
  }

  /** Some order is for vendor `v`. */
  predicate HasOrderFor(os: seq<PurchaseOrder>, v: nat)
  {
    exists i :: 0 <= i < |os| && os[i].vendor == v
  }

  /** Exactly one purchase order per vendor of the lines, and none for any other. */
  lemma OnePoPerVendor(lines: seq<WizardLine>, cat: Catalogue)
    requires CreatePo(lines, cat).Ok? && CreatePo(lines, cat).value.Some?
    ensures var os := CreatePo(lines, cat).value.value;
      forall i, j :: 0 <= i < j < |os| ==> os[i].vendor != os[j].vendor
    ensures forall l :: l in lines ==> HasOrderFor(CreatePo(lines, cat).value.value, l.vendor)
    ensures var os := CreatePo(lines, cat).value.value;
      forall i :: 0 <= i < |os| ==> os[i].vendor != 0 && exists l :: l in lines && l.vendor == os[i].vendor
  {
    CreatedOrders(lines, cat);
    var vs := Vendors(lines);
    OrdersForVendors(lines, vs, cat);
    EveryVendorOrdered(lines, vs, cat);
    NoStrayOrder(lines, vs, cat);
  }

  lemma EveryVendorOrdered(lines: seq<WizardLine>, vs: seq<nat>, cat: Catalogue)
    requires vs == Vendors(lines)
    ensures forall l :: l in lines ==> HasOrderFor(OrdersFor(lines, vs, cat), l.vendor)
  {
    forall l | l in lines ensures HasOrderFor(OrdersFor(lines, vs, cat), l.vendor) {
      LineVendorListed(lines, l);
      var i :| 0 <= i < |vs| && vs[i] == l.vendor;
      OrdersForVendors(lines, vs, cat);
      assert OrdersFor(lines, vs, cat)[i].vendor == l.vendor;
    }
  }

  lemma LineVendorListed(lines: seq<WizardLine>, l: WizardLine)
    requires l in lines
    ensures l.vendor in Vendors(lines)
  {
    VendorsExactly(lines, l.vendor);
  }

  lemma NoStrayOrder(lines: seq<WizardLine>, vs: seq<nat>, cat: Catalogue)
    requires vs == Vendors(lines)
    ensures var os := OrdersFor(lines, vs, cat);
      forall i :: 0 <= i < |os| ==> exists l :: l in lines && l.vendor == os[i].vendor
  {
    var os := OrdersFor(lines, vs, cat);
    OrdersForVendors(lines, vs, cat);
    forall i | 0 <= i < |os| ensures exists l :: l in lines && l.vendor == os[i].vendor {
      assert vs[i] in vs;
      VendorsExactly(lines, vs[i]);
    }
  }

  /** A successful run orders for the vendors of the lines, none of which is
      missing. */
  lemma CreatedOrders(lines: seq<WizardLine>, cat: Catalogue)
    requires CreatePo(lines, cat).Ok? && CreatePo(lines, cat).value.Some?
    ensures CreatePo(lines, cat).value.value == OrdersFor(lines, Vendors(lines), cat)
    ensures forall l :: l in lines ==> l.vendor != 0
  {
  }

  lemma OrdersForVendors(lines: seq<WizardLine>, vs: seq<nat>, cat: Catalogue)
    ensures forall i :: 0 <= i < |vs| ==> OrdersFor(lines, vs, cat)[i].vendor == vs[i]
  {
  }

  /** Each line with a product is ordered, at its unit price, in the purchase order of
      its own vendor; every order line comes from a line of that vendor; and the
      order's origin is that vendor's transfers. */
  lemma LineInItsVendorsPo(lines: seq<WizardLine>, cat: Catalogue, i: nat)
    requires CreatePo(lines, cat).Ok? && CreatePo(lines, cat).value.Some?
    requires i < |CreatePo(lines, cat).value.value|
    ensures var o := CreatePo(lines, cat).value.value[i];
      (forall l :: l in lines && l.vendor == o.vendor && l.product != 0 ==> PoLineOf(l, o.vendor, cat) in o.lines)
      && (forall x :: x in o.lines ==> exists l :: l in lines && l.vendor == o.vendor && l.product != 0 && x == PoLineOf(l, o.vendor, cat))
      && o.origin == Origin(LinesOf(lines, o.vendor), cat)
  {
    var os := OrdersFor(lines, Vendors(lines), cat);
    assert CreatePo(lines, cat).value.value == os;
    var o := os[i];
    var mine := LinesOf(lines, o.vendor);
    assert o == OrderFor(lines, o.vendor, cat);
    forall l | l in lines && l.vendor == o.vendor && l.product != 0 ensures PoLineOf(l, o.vendor, cat) in o.lines {
      LinesOfExactly(lines, o.vendor, l);
      OrderLinesExactly(mine, o.vendor, cat, PoLineOf(l, o.vendor, cat));
    }
    forall x | x in o.lines
      ensures exists l :: l in lines && l.vendor == o.vendor && l.product != 0 && x == PoLineOf(l, o.vendor, cat)
    {
      OrderLinesExactly(mine, o.vendor, cat, x);
      var l :| l in mine && l.product != 0 && x == PoLineOf(l, o.vendor, cat);
      LinesOfExactly(lines, o.vendor, l);
    }
  }

  /** The price of an order line is the vendor's supplier price for the product and
      quantity when there is one, and the product's standard price otherwise. */
  lemma PriceOfLine(l: WizardLine, v: nat, cat: Catalogue)
    ensures cat.supplierPrice(v, l.product, l.quantity).Some? ==>
      PoLineOf(l, v, cat).priceUnit == cat.supplierPrice(v, l.product, l.quantity).value
    ensures cat.supplierPrice(v, l.product, l.quantity).None? ==>
      PoLineOf(l, v, cat).priceUnit == cat.standardPrice(l.product)
    ensures PoLineOf(l, v, cat).product == l.product && PoLineOf(l, v, cat).quantity == l.quantity
  {
  }

  /** The number of order lines over a list of orders. */
  function TotalPoLines(os: seq<PurchaseOrder>): nat
    decreases |os|
  {
    if os == [] then 0 else TotalPoLines(os[..|os| - 1]) + |os[|os| - 1].lines|
  }

  /** Every line with a product lands in exactly one order: the orders hold as many
      lines as the wizard has lines with a product. */
  lemma EveryLineOrderedOnce(lines: seq<WizardLine>, cat: Catalogue)
    requires CreatePo(lines, cat).Ok? && CreatePo(lines, cat).value.Some?
    ensures TotalPoLines(CreatePo(lines, cat).value.value) == WithProduct(lines)
  {
    forall l | l in lines ensures l.vendor in Vendors(lines) {
      VendorsExactly(lines, l.vendor);
    }
    Partition(lines, Vendors(lines), cat);
  }

  /** Over distinct vendors that cover every line, the orders hold each line with a
      product once. */
  lemma {:induction false} Partition(lines: seq<WizardLine>, vs: seq<nat>, cat: Catalogue)
    requires Distinct(vs) && forall l :: l in lines ==> l.vendor in vs
    ensures TotalPoLines(OrdersFor(lines, vs, cat)) == WithProduct(lines)
    decreases |lines|
  {
    if lines == [] {
      NoLinesNoOrderLines(vs, cat);
    } else {
      var front := lines[..|lines| - 1];
      var l := lines[|lines| - 1];
      assert lines == front + [l];
      Partition(front, vs, cat);
      PartitionStep(front, l, vs, cat);
    }
  }

  lemma {:induction false} NoLinesNoOrderLines(vs: seq<nat>, cat: Catalogue)
    ensures TotalPoLines(OrdersFor([], vs, cat)) == 0
    decreases |vs|
  {
    if vs != [] {
      var os := OrdersFor([], vs, cat);
      assert os[..|vs| - 1] == OrdersFor([], vs[..|vs| - 1], cat);
      NoLinesNoOrderLines(vs[..|vs| - 1], cat);
    }
  }

  /** One more line adds one order line, to its vendor's order, when it has a
      product. */
  lemma {:induction false} PartitionStep(lines: seq<WizardLine>, l: WizardLine, vs: seq<nat>, cat: Catalogue)
    requires Distinct(vs)
    ensures TotalPoLines(OrdersFor(lines + [l], vs, cat)) ==
      TotalPoLines(OrdersFor(lines, vs, cat)) + (if l.product != 0 && l.vendor in vs then 1 else 0)
    decreases |vs|
  {
    if vs != [] {
      var front := vs[..|vs| - 1];
      var v := vs[|vs| - 1];
      assert Distinct(front);
      assert vs == front + [v];
      PartitionStep(lines, l, front, cat);
      var after := OrdersFor(lines + [l], vs, cat);
      var before := OrdersFor(lines, vs, cat);
      assert after[..|vs| - 1] == OrdersFor(lines + [l], front, cat);
      assert before[..|vs| - 1] == OrdersFor(lines, front, cat);
      LinesOfStep(lines, l, v);
      assert l.vendor in vs <==> l.vendor in front || l.vendor == v;
      assert l.vendor == v ==> l.vendor !in front;
    }
  }

  lemma LinesOfStep(lines: seq<WizardLine>, l: WizardLine, v: nat)
    ensures LinesOf(lines + [l], v) == LinesOf(lines, v) + (if l.vendor == v then [l] else [])
    ensures WithProduct(LinesOf(lines, v) + [l]) == WithProduct(LinesOf(lines, v)) + (if l.product != 0 then 1 else 0)
  {
    assert (lines + [l])[..|lines|] == lines;
    assert (LinesOf(lines, v) + [l])[..|LinesOf(lines, v)|] == LinesOf(lines, v);
  }

  // ---------------------------------------------------------------- the wizard

  /** The purchase orders created so far. */
  class PurchaseBook {
    var orders: seq<PurchaseOrder>

    constructor()
      ensures orders == []
    {
      orders := [];
    }
  }

  class TransferPoWizard {
    var lineIds: seq<WizardLine>

    constructor(lines: seq<WizardLine>)
      ensures lineIds == lines
    {
      lineIds := lines;
    }

    /** `action_create_po`: the grouping loop raises on a line without a vendor before
        any order exists; otherwise one order per vendor is created in turn. */
    method ActionCreatePo(book: PurchaseBook, cat: Catalogue) returns (r: Result<Option<seq<PurchaseOrder>>, PoError>)
      modifies book
      ensures r == CreatePo(lineIds, cat)
      ensures r.Ok? && r.value.Some? ==> book.orders == old(book.orders) + r.value.value
      ensures !(r.Ok? && r.value.Some?) ==> book.orders == old(book.orders)
    {
      if lineIds == [] {
        return Ok(None);
      }
      var missing, grouped, vendors := GroupByVendor(lineIds);
      if missing.Some? {
        return Err(VendorMissing(ProductLabel(lineIds[missing.value].product, cat)));
      }
      var created := CreateOrders(book, lineIds, grouped, vendors, cat);
      r := Ok(Some(created));
    }

    /** The order loop: one order per vendor, in the order of `vendors`. */
    method CreateOrders(book: PurchaseBook, lines: seq<WizardLine>, grouped: map<nat, seq<WizardLine>>, vendors: seq<nat>,
                        cat: Catalogue) returns (created: seq<PurchaseOrder>)
      requires Grouped(lines, grouped, vendors)
      modifies book
      ensures created == OrdersFor(lines, vendors, cat)
      ensures book.orders == old(book.orders) + created
    {
      created := [];
      for k := 0 to |vendors|
        invariant created == OrdersFor(lines, vendors[..k], cat)
        invariant book.orders == old(book.orders) + created
      {
        assert vendors[k] in vendors;
        ghost var orders := book.orders;
        var po := CreateOrder(book, grouped[vendors[k]], vendors[k], cat);
        OrdersNext(lines, grouped, vendors, k, cat, created, po);
        AppendOne(orders, old(book.orders), created, po);
        created := created + [po];
      }
      assert vendors[..|vendors|] == vendors;
    }

    /** The grouping loop: it stops at the first line without a vendor, which the
        caller raises on; otherwise it gives each vendor's lines and the vendors in
        order of first appearance. */
    method GroupByVendor(lines: seq<WizardLine>) returns (missing: Option<nat>, grouped: map<nat, seq<WizardLine>>, vendors: seq<nat>)
      ensures missing == FirstWithoutVendor(lines)
      ensures missing.None? ==> Grouped(lines, grouped, vendors)
    {
      grouped, vendors := map[], [];
      for i := 0 to |lines|
        invariant forall j :: 0 <= j < i ==> lines[j].vendor != 0
        invariant Grouped(lines[..i], grouped, vendors)
      {
        var line := lines[i];
        if line.vendor == 0 {
          FirstWithoutVendorAt(lines, i);
          return Some(i), grouped, vendors;
        }
        ghost var before, seen := grouped, vendors;
        if line.vendor !in grouped {
          grouped := grouped[line.vendor := []];
          vendors := vendors + [line.vendor];
        }
        grouped := grouped[line.vendor := grouped[line.vendor] + [line]];
        GroupingStep(lines, i, before, seen, grouped, vendors);
      }
      assert lines[..|lines|] == lines;
      missing := None;
    }

    /** One turn of the order loop: the order of vendor `partner` over its lines. */
    method CreateOrder(book: PurchaseBook, lines: seq<WizardLine>, partner: nat, cat: Catalogue) returns (po: PurchaseOrder)
      modifies book
      ensures po == PurchaseOrder(partner, Origin(lines, cat), OrderLines(lines, partner, cat))
      ensures book.orders == old(book.orders) + [po]
    {
      var origin := Join(", ", SortedSet(PickingNames(lines, cat)));
      var poLines := CreateOrderLines(lines, partner, cat);
      po := PurchaseOrder(partner, origin, poLines);
      book.orders := book.orders + [po];
    }

    /** The loop creating one order's lines. */
    method CreateOrderLines(lines: seq<WizardLine>, partner: nat, cat: Catalogue) returns (poLines: seq<PoLine>)
      ensures poLines == OrderLines(lines, partner, cat)
    {
      poLines := [];
      for j := 0 to |lines|
        invariant poLines == OrderLines(lines[..j], partner, cat)
      {
        assert lines[..j + 1][..j] == lines[..j];
        var line := lines[j];
        if line.product != 0 {
          var supplierInfo := cat.supplierPrice(partner, line.product, line.quantity);
          var price := if supplierInfo.Some? then supplierInfo.value else cat.standardPrice(line.product);
          poLines := poLines + [PoLine(line.product, line.quantity, cat.displayName(line.product), price)];
        }
      }
      assert lines[..|lines|] == lines;
    }
  }

  /** `grouped` and its keys in insertion order, for the given lines. */
  ghost predicate Grouped(lines: seq<WizardLine>, grouped: map<nat, seq<WizardLine>>, vendors: seq<nat>)
  {
    vendors == Vendors(lines)
    && (forall v :: v in grouped <==> v in vendors)
    && forall v :: v in grouped ==> grouped[v] == LinesOf(lines, v)
  }

  /** One turn of the grouping loop keeps `grouped` right: a new vendor gets an
      empty group and a place at the end of the keys, then the line joins its
      vendor's group. */
  lemma GroupingStep(lines: seq<WizardLine>, i: nat, grouped: map<nat, seq<WizardLine>>, vendors: seq<nat>,
                     grouped': map<nat, seq<WizardLine>>, vendors': seq<nat>)
    requires i < |lines| && Grouped(lines[..i], grouped, vendors)
    requires var v := lines[i].vendor;
      && vendors' == (if v in grouped then vendors else vendors + [v])
      && grouped' == grouped[v := (if v in grouped then grouped[v] else []) + [lines[i]]]
    ensures Grouped(lines[..i + 1], grouped', vendors')
  {
    GroupStep(lines, i);
    var v := lines[i].vendor;
    if v !in grouped {
      NewVendorHasNoLines(lines[..i], v);
    }
    assert (if v in grouped then grouped[v] else []) == LinesOf(lines[..i], v);
    assert vendors' == Vendors(lines[..i + 1]);
    forall w ensures w in grouped' <==> w in vendors' {
    }
    forall w | w in grouped' ensures grouped'[w] == LinesOf(lines[..i + 1], w) {
    }
  }

  /** The grouping loop over one more line. */
  lemma GroupStep(lines: seq<WizardLine>, i: nat)
    requires i < |lines|
    ensures Vendors(lines[..i + 1]) ==
      if lines[i].vendor in Vendors(lines[..i]) then Vendors(lines[..i]) else Vendors(lines[..i]) + [lines[i].vendor]
    ensures forall v :: LinesOf(lines[..i + 1], v) == LinesOf(lines[..i], v) + (if lines[i].vendor == v then [lines[i]] else [])
  {
    assert lines[..i + 1] == lines[..i] + [lines[i]];
    forall v ensures LinesOf(lines[..i + 1], v) == LinesOf(lines[..i], v) + (if lines[i].vendor == v then [lines[i]] else []) {
      LinesOfStep(lines[..i], lines[i], v);
    }
  }

  lemma NewVendorHasNoLines(lines: seq<WizardLine>, v: nat)
    requires v !in Vendors(lines)
    ensures LinesOf(lines, v) == []
  {
    VendorsExactly(lines, v);
    NoLinesOf(lines, v);
  }

  lemma {:induction false} NoLinesOf(lines: seq<WizardLine>, v: nat)
    requires forall l :: l in lines ==> l.vendor != v
    ensures LinesOf(lines, v) == []
    decreases |lines|
  {
    if lines != [] {
      var front := lines[..|lines| - 1];
      assert forall l :: l in front ==> l in lines;
      assert lines[|lines| - 1] in lines;
      NoLinesOf(front, v);
    }
  }

  /** The first line without a vendor is the one after a run of lines that all have
      one. */
  lemma {:induction false} FirstWithoutVendorAt(lines: seq<WizardLine>, i: nat)
    requires i < |lines| && lines[i].vendor == 0
    requires forall j :: 0 <= j < i ==> lines[j].vendor != 0
    ensures FirstWithoutVendor(lines) == Some(i)
    decreases i
  {
    if i > 0 {
      assert forall j :: 0 <= j < i - 1 ==> lines[1..][j] == lines[j + 1];
      FirstWithoutVendorAt(lines[1..], i - 1);
    }
  }

  /** The order of the `k`-th vendor is built from that vendor's group. */
  lemma OrderFromGroup(lines: seq<WizardLine>, grouped: map<nat, seq<WizardLine>>, vendors: seq<nat>, k: nat, cat: Catalogue)
    requires Grouped(lines, grouped, vendors) && k < |vendors|
    ensures vendors[k] in grouped
    ensures OrderFor(lines, vendors[k], cat) ==
      PurchaseOrder(vendors[k], Origin(grouped[vendors[k]], cat), OrderLines(grouped[vendors[k]], vendors[k], cat))
  {
    assert vendors[k] in vendors;
  }

  /** One turn of the order loop extends the orders by the next vendor's. */
  lemma OrdersNext(lines: seq<WizardLine>, grouped: map<nat, seq<WizardLine>>, vendors: seq<nat>, k: nat, cat: Catalogue,
                   created: seq<PurchaseOrder>, po: PurchaseOrder)
    requires Grouped(lines, grouped, vendors) && k < |vendors| && vendors[k] in grouped
    requires created == OrdersFor(lines, vendors[..k], cat)
    requires po == PurchaseOrder(vendors[k], Origin(grouped[vendors[k]], cat), OrderLines(grouped[vendors[k]], vendors[k], cat))
    ensures created + [po] == OrdersFor(lines, vendors[..k + 1], cat)
  {
    OrdersStep(lines, vendors, k, cat);
    OrderFromGroup(lines, grouped, vendors, k, cat);
  }

  /** Appending to a sequence that extends `start` by `added`. */
  lemma AppendOne<T>(now: seq<T>, start: seq<T>, added: seq<T>, x: T)
    requires now == start + added
    ensures now + [x] == start + (added + [x])
  {
  }

  lemma OrdersStep(lines: seq<WizardLine>, vs: seq<nat>, k: nat, cat: Catalogue)
    requires k < |vs|
    ensures OrdersFor(lines, vs[..k + 1], cat) == OrdersFor(lines, vs[..k], cat) + [OrderFor(lines, vs[k], cat)]
  {
    assert vs[..k + 1][..k] == vs[..k];
  }

  /** A transfer scenario: one internal transfer waiting for 10 units of a product
      whose only vendor is `vendor` gives one line for the full 10 units from that
      vendor. */
  lemma TransferScenarioLines(p: Picking, product: nat, vendor: nat, sellers: nat -> seq<nat>)
    requires p.typeCode == "internal" && p.moves == [Move(product, Confirmed, false, 10.0, 0.0)]
    requires sellers(product) == [vendor]
    ensures ShortageLines([p], sellers) == [WizardLine(product, 10.0, vendor, p.id)]
  {
    var m := p.moves[0];
    assert [m][..0] == [];
    assert ShortMoves([m]) == [m];
    assert MoveLines(p, [m], sellers) == [ShortageLine(p, m, sellers)];
    assert [p][..0] == [];
  }

  /** That line then becomes one order for its vendor, at the supplier's price
      of 10.0, whose origin is the transfer's name. */
  lemma TransferScenarioOrder(l: WizardLine, cat: Catalogue)
    requires l.product != 0 && l.vendor != 0 && l.picking != 0 && l.quantity == 10.0
    requires cat.supplierPrice(l.vendor, l.product, 10.0) == Some(10.0)
    ensures CreatePo([l], cat) ==
      Ok(Some([PurchaseOrder(l.vendor, cat.pickingName(l.picking), [PoLine(l.product, 10.0, cat.displayName(l.product), 10.0)])]))
  {
    SingleLineCreatePo(l, cat);
    ScenarioOrderFor(l, cat);
  }

  /** A single line with a vendor gives that vendor's order alone. */
  lemma SingleLineCreatePo(l: WizardLine, cat: Catalogue)
    requires l.vendor != 0
    ensures CreatePo([l], cat) == Ok(Some([OrderFor([l], l.vendor, cat)]))
  {
    assert [l][1..] == [];
    assert [l][..0] == [];
    assert Vendors([l]) == [l.vendor];
    assert [l.vendor][..0] == [];
    assert FirstWithoutVendor([l]) == None;
    assert OrdersFor([l], [l.vendor], cat) == [OrderFor([l], l.vendor, cat)];
  }

  lemma ScenarioOrderFor(l: WizardLine, cat: Catalogue)
    requires l.product != 0 && l.vendor != 0 && l.picking != 0 && l.quantity == 10.0
    requires cat.supplierPrice(l.vendor, l.product, 10.0) == Some(10.0)
    ensures OrderFor([l], l.vendor, cat) ==
      PurchaseOrder(l.vendor, cat.pickingName(l.picking), [PoLine(l.product, 10.0, cat.displayName(l.product), 10.0)])
  {
    assert [l][..0] == [];
    assert LinesOf([l], l.vendor) == [l];
    assert PickingNames([l], cat) == [cat.pickingName(l.picking)];
    SingleName(cat.pickingName(l.picking));
    assert Origin([l], cat) == cat.pickingName(l.picking);
    assert OrderLines([l], l.vendor, cat) == [PoLineOf(l, l.vendor, cat)];
    assert PoLineOf(l, l.vendor, cat) == PoLine(l.product, 10.0, cat.displayName(l.product), 10.0);
  }

  lemma SingleName(n: string)
    ensures SortedSet([n]) == [n]
  {
    var r := SortedSet([n]);
    assert forall i :: 0 <= i < |r| ==> r[i] == n;
    assert n in r;
  }
}
