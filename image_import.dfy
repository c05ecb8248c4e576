/** `product_bulk_image_import/models/import_wizard.py`: a wizard that reads the
    pictures of a ZIP archive, shrinks each one towards 200 KB, finds the product
    whose internal reference the file is named after, and stores the picture as
    that product's main image or as an extra image. */
module BulkImageImport {
  import opened Wrappers
  import opened Hex
  import opened Text

  type Data = seq<Byte>

  /** Width and height of a picture, in pixels. */
  datatype Size = Size(width: nat, height: nat)

  /** A JPEG encoding of the picture: the quality and size it was saved with and
      the bytes it produced. */
  datatype Encoded = Encoded(quality: int, size: Size, bytes: Data)

  /** `target_size_kb` as `action_import_images` passes it. */
  const TargetKb: nat := 200

  function Limit(targetKb: nat): nat
  {
    targetKb * 1024
  }

  /** `int(side * 0.8)`. */
  function Shrunk(side: nat): (r: nat)
    ensures side > 400 ==> 320 <= r < side
  {
    side * 4 / 5
  }

  /** The first loop of `_resize_image`: while the encoding is over the limit and
      the quality above 30, save again ten quality points lower. `save(q, size)` is
      the picture saved as JPEG at quality `q` and `size`; `None` where the imaging
      library raises. */
  function LowerQuality(e: Encoded, limit: nat, save: (int, Size) -> Option<Data>): (r: Option<Encoded>)
    ensures r.Some? ==> r.value.size == e.size
    ensures r.Some? ==> r.value.quality <= e.quality && (e.quality - r.value.quality) % 10 == 0
    ensures r.Some? ==> r.value == e || r.value.quality > 20
    ensures r.Some? ==> |r.value.bytes| <= limit || r.value.quality <= 30
    decreases e.quality
  {
    if |e.bytes| > limit && e.quality > 30 then
      match save(e.quality - 10, e.size)
      case None => None
      case Some(b) => LowerQuality(Encoded(e.quality - 10, e.size, b), limit, save)
    else Some(e)
  }

  /** The second loop of `_resize_image`: while the encoding is still over the
      limit, scale both sides by 0.8, unless one of them is already 400 pixels or
      less. */
  function Shrink(e: Encoded, limit: nat, save: (int, Size) -> Option<Data>): (r: Option<Encoded>)
    ensures r.Some? ==> r.value.quality == e.quality
    ensures r.Some? ==> |r.value.bytes| <= limit || r.value.size.width <= 400 || r.value.size.height <= 400
    ensures r.Some? ==> r.value == e || (r.value.size.width >= 320 && r.value.size.height >= 320)
    ensures r.Some? ==> r.value.size.width <= e.size.width && r.value.size.height <= e.size.height
    decreases e.size.width
  {
    if |e.bytes| > limit && e.size.width > 400 && e.size.height > 400 then
      var smaller := Size(Shrunk(e.size.width), Shrunk(e.size.height));
      match save(e.quality, smaller)
      case None => None
      case Some(b) => Shrink(Encoded(e.quality, smaller, b), limit, save)
    else Some(e)
  }

  /** The path `_resize_image` takes through the imaging library: `None` where it
      returns its input unchanged (small enough already, or an exception). `open`
      gives the size of a readable picture; `save` encodes that picture. */
  function Recompressed(data: Data, targetKb: nat, open: Data -> Option<Size>,
                        save: (Data, int, Size) -> Option<Data>): Option<Encoded>
  {
    if |data| == 0 || |data| <= Limit(targetKb) then None
    else
      match open(data)
      case None => None
      case Some(size) =>
        var saveThis := (q, s) => save(data, q, s);
        match saveThis(95, size)
        case None => None
        case Some(first) =>
          match LowerQuality(Encoded(95, size, first), Limit(targetKb), saveThis)
          case None => None
          case Some(lowered) => Shrink(lowered, Limit(targetKb), saveThis)
  }

  /** `_resize_image`. */
  function Resize(data: Data, targetKb: nat, open: Data -> Option<Size>,
                  save: (Data, int, Size) -> Option<Data>): Data
  {
    match Recompressed(data, targetKb, open, save)
    case None => data
    case Some(e) => e.bytes
  }

  /** Data that is empty or already within the target comes back unchanged. */
  lemma SmallImageUnchanged(data: Data, targetKb: nat, open: Data -> Option<Size>,
                            save: (Data, int, Size) -> Option<Data>)
    requires |data| <= Limit(targetKb)
    ensures Resize(data, targetKb, open, save) == data
  {
  }

  /** A recompressed picture is saved at one of the qualities 95, 85, ..., 25, at
      its own size or shrunk to no side below 320 pixels; and it is within the
      target unless the quality reached its floor and a side its minimum. */
  lemma RecompressedSchedule(data: Data, targetKb: nat, open: Data -> Option<Size>,
                             save: (Data, int, Size) -> Option<Data>)
    requires Recompressed(data, targetKb, open, save).Some?
    ensures var e := Recompressed(data, targetKb, open, save).value;
      && e.quality in {95, 85, 75, 65, 55, 45, 35, 25}
      && (e.size == open(data).value || (e.size.width >= 320 && e.size.height >= 320))
      && (|e.bytes| <= Limit(targetKb) || (e.quality <= 30 && (e.size.width <= 400 || e.size.height <= 400)))
    ensures Resize(data, targetKb, open, save) == Recompressed(data, targetKb, open, save).value.bytes
  {
    var size := open(data).value;
    var saveThis := (q, s) => save(data, q, s);
    var first := saveThis(95, size).value;
    var lowered := LowerQuality(Encoded(95, size, first), Limit(targetKb), saveThis).value;
    assert lowered.quality in {95, 85, 75, 65, 55, 45, 35, 25} by {
      var d := 95 - lowered.quality;
      assert 0 <= d && d % 10 == 0 && (d == 0 || d < 75);
    }
  }

  /** `_resize_image` as a loop: the quality loop and then the size loop, each
      saving the picture anew. */
  method ResizeImage(data: Data, targetKb: nat, open: Data -> Option<Size>,
                     save: (Data, int, Size) -> Option<Data>) returns (r: Data)
    ensures r == Resize(data, targetKb, open, save)
  {
    var limit := targetKb * 1024;
    if |data| == 0 || |data| <= limit {
      return data;
    }
    var picture := open(data);
    if picture.None? {
      return data;
    }
    var size := picture.value;
    var saveThis := (q, s) => save(data, q, s);
    var quality := 95;
    var output := saveThis(quality, size);
    if output.None? {
      return data;
    }
    ghost var start := Encoded(95, size, output.value);
    while |output.value| > limit && quality > 30
      invariant output.Some?
      invariant LowerQuality(Encoded(quality, size, output.value), limit, saveThis) == LowerQuality(start, limit, saveThis)
      decreases quality
    {
      quality := quality - 10;
      output := saveThis(quality, size);
      if output.None? {
        return data;
      }
    }
    ghost var lowered := Encoded(quality, size, output.value);
    while |output.value| > limit
      invariant output.Some?
      invariant Shrink(Encoded(quality, size, output.value), limit, saveThis) == Shrink(lowered, limit, saveThis)
      decreases size.width
    {
      if size.width <= 400 || size.height <= 400 {
        break;
      }
      size := Size(size.width * 4 / 5, size.height * 4 / 5);
      output := saveThis(quality, size);
      if output.None? {
        return data;
      }
    }
    return output.value;
  }

  /** The fields of a `product.product` the import reads or writes. */
  datatype Product = Product(tmplId: nat, defaultCode: Option<string>, image: Option<Data>)

  /** A `product.image` record: an extra picture of a product template. */
  datatype ExtraImage = ExtraImage(tmplId: nat, name: string, image: Data)

  /** A member of the archive: its name in `namelist()` and what `read` gives. */
  datatype Entry = Entry(name: string, data: Data)

  /** Directories and files without a `.jpg`, `.jpeg` or `.png` suffix, in any case,
      are passed over. */
  predicate IsImageName(name: string)
  {
    var lower := Lower(name);
    !EndsWith(name, "/") && (EndsWith(lower, ".jpg") || EndsWith(lower, ".jpeg") || EndsWith(lower, ".png"))
  }

  /** `file_name.split('/')[-1]`. */
  function BaseName(name: string): string
  {
    AfterLast(name, '/')
  }

  /** `base_name.rsplit('.', 1)[0]`: the reference the file is named after. */
  function Reference(name: string): string
  {
    BeforeLast(BaseName(name), '.')
  }

  /** The reference is the file's own name, without folders, cut before its last
      dot: what was cut is empty or a dot followed by a dot-free extension. */
  lemma ReferenceShape(name: string)
    ensures '/' !in Reference(name)
    ensures EndsWith(name, BaseName(name)) && StartsWith(BaseName(name), Reference(name))
    ensures var rest := BaseName(name)[|Reference(name)|..];
      rest == [] || (rest[0] == '.' && '.' !in rest[1..])
  {
    var base, r := BaseName(name), Reference(name);
    assert forall i :: 0 <= i < |r| ==> r[i] == base[i];
    if |r| < |base| {
      assert base[|r|..][1..] == base[|r| + 1..];
    }
  }

  /** An upper-case extension still marks a picture; a folder entry does not. */
  lemma ImageNameExample()
    ensures IsImageName("folder/FURN001_1.JPG")
    ensures !IsImageName("folder/")
  {
    var name := "folder/FURN001_1.JPG";
    assert Lower(name)[|name| - 4..] == ".jpg";
  }

  /** `folder/FURN001_1.JPG` is a picture named after `FURN001_1`. */
  lemma ReferenceExample()
    ensures Reference("folder/FURN001_1.JPG") == "FURN001_1"
  {
    BaseNameExample();
    var base := "FURN001_1.JPG";
    assert base[9] == '.' && base[10..] == "JPG" && base[..9] == "FURN001_1";
    RFindAt(base, '.', 9);
  }

  lemma BaseNameExample()
    ensures BaseName("folder/FURN001_1.JPG") == "FURN001_1.JPG"
  {
    var name := "folder/FURN001_1.JPG";
    assert name[6] == '/' && name[7..] == "FURN001_1.JPG";
    assert '/' !in "FURN001_1.JPG";
    RFindAt(name, '/', 6);
  }

  /** With no product named `FURN001_1`, the search falls back to `FURN001`. */
  lemma FallbackExample()
    ensures '_' in "FURN001_1" && BeforeLast("FURN001_1", '_') == "FURN001"
  {
    var reference := "FURN001_1";
    assert reference[7] == '_' && reference[8..] == "1" && reference[..7] == "FURN001";
    RFindAt(reference, '_', 7);
  }

  /** `search([('default_code', '=', code)], limit=1)`, with `products` in search
      order. */
  function Search(products: seq<Product>, code: string): (r: Option<nat>)
    ensures r.None? <==> forall k :: 0 <= k < |products| ==> products[k].defaultCode != Some(code)
    ensures r.Some? ==> (r.value < |products| && products[r.value].defaultCode == Some(code)
      && forall k :: 0 <= k < r.value ==> products[k].defaultCode != Some(code))
    decreases |products|
  {
    if products == [] then None
    else if products[0].defaultCode == Some(code) then Some(0)
    else
      match Search(products[1..], code)
      case None => None
      case Some(k) => Some(k + 1)
  }

  /** The product a reference names: the one with that internal reference, or,
      failing that and when the reference holds an underscore, the one with the
      text before its last underscore. */
  function FindProduct(products: seq<Product>, reference: string): (r: Option<nat>)
    ensures r.Some? ==> r.value < |products|
    ensures r.Some? ==> (products[r.value].defaultCode == Some(reference)
      || ('_' in reference && Search(products, reference).None?
          && products[r.value].defaultCode == Some(BeforeLast(reference, '_'))))
    ensures r.None? <==> (Search(products, reference).None?
      && ('_' !in reference || Search(products, BeforeLast(reference, '_')).None?))
  {
    match Search(products, reference)
    case Some(k) => Some(k)
    case None => if '_' in reference then Search(products, BeforeLast(reference, '_')) else None
  }

  /** The products and extra images, and the wizard's `success_count`,
      `skipped_count` and `not_found_refs`, as the import loop goes. */
  datatype Tally = Tally(products: seq<Product>, extras: seq<ExtraImage>, success: nat, skipped: nat, notFound: seq<string>)

  /** `_resize_image` with the target the import uses. */
  function Shrinker(open: Data -> Option<Size>, save: (Data, int, Size) -> Option<Data>): Data -> Data
  {
    data => Resize(data, TargetKb, open, save)
  }

  /** One pass of the import loop: pictures are shrunk by `shrink`, then placed. */
  function Step(t: Tally, entry: Entry, shrink: Data -> Data): Tally
  {
    if !IsImageName(entry.name) then t
    else Place(t, BaseName(entry.name), FindProduct(t.products, Reference(entry.name)), shrink(entry.data))
  }

  /** `product.image_1920` read as a condition: set only when it holds bytes. An
      empty picture is stored as empty data, which reads as no image. */
  predicate MainImageSet(p: Product)
  {
    p.image.Some? && p.image.value != []
  }

  /** Placing a picture matched to the product at `found`, if any. One for a
      product whose main image is not set becomes its main image; otherwise it is
      added as an extra image of the product's template. An unmatched one is
      counted and its name kept. */
  function Place(t: Tally, base: string, found: Option<nat>, data: Data): Tally
    requires found.Some? ==> found.value < |t.products|
  {
    match found
    case None => t.(skipped := t.skipped + 1, notFound := t.notFound + [base])
    case Some(k) =>
      if !MainImageSet(t.products[k]) then
        t.(products := t.products[k := t.products[k].(image := Some(data))], success := t.success + 1)
      else
        t.(extras := t.extras + [ExtraImage(t.products[k].tmplId, base, data)], success := t.success + 1)
  }

  /** Placing a picture for product `k` writes its main image when that is not set,
      and otherwise adds one extra image of its template and leaves the products
      be. The main image is then set iff the picture is not empty. */
  lemma PlaceMatched(t: Tally, base: string, k: nat, data: Data)
    requires k < |t.products|
    ensures var u := Place(t, base, Some(k), data);
      && u.success == t.success + 1 && u.skipped == t.skipped && u.notFound == t.notFound
      && (!MainImageSet(t.products[k]) ==>
            u.products == t.products[k := Product(t.products[k].tmplId, t.products[k].defaultCode, Some(data))]
            && u.extras == t.extras
            && (MainImageSet(u.products[k]) <==> data != []))
      && (MainImageSet(t.products[k]) ==>
            u.products == t.products && u.extras == t.extras + [ExtraImage(t.products[k].tmplId, base, data)])
  {
  }

  /** An empty picture leaves the main image unset, so the next picture for the same
      product still becomes its main image rather than an extra one. */
  lemma EmptyPictureThenPicture()
    ensures var t0 := Tally([Product(7, Some("FURN001"), None)], [], 0, 0, []);
      var t1 := Place(t0, "FURN001.jpg", Some(0), []);
      var t2 := Place(t1, "FURN001_1.jpg", Some(0), [1, 2, 3]);
      && !MainImageSet(t1.products[0]) && t1.success == 1
      && t2.products[0].image == Some([1, 2, 3]) && t2.extras == [] && t2.success == 2
  {
    var t0 := Tally([Product(7, Some("FURN001"), None)], [], 0, 0, []);
    PlaceMatched(t0, "FURN001.jpg", 0, []);
    var t1 := Place(t0, "FURN001.jpg", Some(0), []);
    PlaceMatched(t1, "FURN001_1.jpg", 0, [1, 2, 3]);
  }

  /** The import loop over the entries in archive order. */
  function Run(entries: seq<Entry>, t: Tally, shrink: Data -> Data): Tally
    decreases |entries|
  {
    if entries == [] then t
    else Step(Run(entries[..|entries| - 1], t, shrink), entries[|entries| - 1], shrink)
  }

  /** The entries the loop does not pass over. */
  function ImageCount(entries: seq<Entry>): nat
    decreases |entries|
  {
    if entries == [] then 0
    else ImageCount(entries[..|entries| - 1]) + (if IsImageName(entries[|entries| - 1].name) then 1 else 0)
  }

  /** The names of the pictures no product matches, in archive order. */
  function Unmatched(entries: seq<Entry>, products: seq<Product>): seq<string>
    decreases |entries|
  {
    if entries == [] then []
    else
      var e := entries[|entries| - 1];
      Unmatched(entries[..|entries| - 1], products)
        + (if IsImageName(e.name) && FindProduct(products, Reference(e.name)).None? then [BaseName(e.name)] else [])
  }

  /** No picture of the archive is empty once shrunk. */
  predicate NoEmptyPictures(entries: seq<Entry>, shrink: Data -> Data)
  {
    forall i :: 0 <= i < |entries| && IsImageName(entries[i].name) ==> shrink(entries[i].data) != []
  }

  /** Two product lists that differ at most in their images. */
  predicate SameCatalogue(a: seq<Product>, b: seq<Product>)
  {
    |a| == |b| && forall k :: 0 <= k < |a| ==> a[k].defaultCode == b[k].defaultCode && a[k].tmplId == b[k].tmplId
  }

  lemma {:induction false} SearchSameCatalogue(a: seq<Product>, b: seq<Product>, code: string)
    requires SameCatalogue(a, b)
    ensures Search(a, code) == Search(b, code)
    decreases |a|
  {
    if a != [] {
      assert SameCatalogue(a[1..], b[1..]) by {
        forall k | 0 <= k < |a| - 1 ensures a[1..][k].defaultCode == b[1..][k].defaultCode && a[1..][k].tmplId == b[1..][k].tmplId {
          assert a[1..][k] == a[k + 1] && b[1..][k] == b[k + 1];
        }
      }
      SearchSameCatalogue(a[1..], b[1..], code);
    }
  }

  /** The loop assigns images only, so the product a file is matched to does not
      depend on what the files before it did. */
  lemma FindSameCatalogue(a: seq<Product>, b: seq<Product>, reference: string)
    requires SameCatalogue(a, b)
    ensures FindProduct(a, reference) == FindProduct(b, reference)
  {
    SearchSameCatalogue(a, b, reference);
    SearchSameCatalogue(a, b, BeforeLast(reference, '_'));
  }

  /** Main images set before the loop, or by an earlier file, stay set. */
  predicate KeepsImages(before: seq<Product>, after: seq<Product>)
    requires |before| == |after|
  {
    forall k :: 0 <= k < |before| && MainImageSet(before[k]) ==> MainImageSet(after[k])
  }

  /** The products whose main image the import set. */
  function NewMainImages(before: seq<Product>, after: seq<Product>): set<nat>
  {
    set k: nat | k < |before| && k < |after| && !MainImageSet(before[k]) && MainImageSet(after[k])
  }

  /** What the loop has done after the entries of `entries`, starting from
      `products` and `extras`: the catalogue is the same and no main image is
      cleared; every picture was either imported or skipped; the skipped ones are
      exactly the unmatched ones, listed by name; every extra image is appended
      after the existing ones; and every import either wrote one product's main
      image or added one extra image. An empty picture written as a main image
      leaves it unset, so new main images and extra images together make up the
      imports exactly when no picture is empty. */
  ghost predicate Accounted(entries: seq<Entry>, products: seq<Product>, extras: seq<ExtraImage>, t: Tally,
                            shrink: Data -> Data)
  {
    && SameCatalogue(products, t.products)
    && KeepsImages(products, t.products)
    && t.success + t.skipped == ImageCount(entries)
    && t.skipped == |t.notFound|
    && t.notFound == Unmatched(entries, products)
    && |extras| <= |t.extras| && t.extras[..|extras|] == extras
    && |t.extras| - |extras| + |NewMainImages(products, t.products)| <= t.success
    && (NoEmptyPictures(entries, shrink) ==> t.success == |t.extras| - |extras| + |NewMainImages(products, t.products)|)
  }

  /** The import loop accounts for every entry. */
  lemma {:induction false} RunAccounted(entries: seq<Entry>, products: seq<Product>, extras: seq<ExtraImage>,
                                        shrink: Data -> Data)
    ensures Accounted(entries, products, extras, Run(entries, Tally(products, extras, 0, 0, []), shrink), shrink)
    decreases |entries|
  {
    var start := Tally(products, extras, 0, 0, []);
    if entries == [] {
      assert NewMainImages(products, products) == {};
    } else {
      var front := entries[..|entries| - 1];
      var last := entries[|entries| - 1];
      var t := Run(front, start, shrink);
      assert entries == front + [last];
      assert Run(entries, start, shrink) == Step(t, last, shrink);
      RunAccounted(front, products, extras, shrink);
      StepAccounted(front, last, products, extras, t, shrink);
    }
  }

  lemma StepAccounted(front: seq<Entry>, e: Entry, products: seq<Product>, extras: seq<ExtraImage>, t: Tally,
                      shrink: Data -> Data)
    requires Accounted(front, products, extras, t, shrink)
    ensures Accounted(front + [e], products, extras, Step(t, e, shrink), shrink)
  {
    ImageCountSnoc(front, e);
    UnmatchedSnoc(front, e, products);
    NoEmptySnoc(front, e, shrink);
    if IsImageName(e.name) {
      var found := FindProduct(t.products, Reference(e.name));
      FindSameCatalogue(products, t.products, Reference(e.name));
      PlaceAccounted(front, e, products, extras, t, found, shrink);
    }
  }

  lemma NoEmptySnoc(front: seq<Entry>, e: Entry, shrink: Data -> Data)
    ensures NoEmptyPictures(front + [e], shrink) ==>
      NoEmptyPictures(front, shrink) && (IsImageName(e.name) ==> shrink(e.data) != [])
  {
    if NoEmptyPictures(front + [e], shrink) {
      forall i | 0 <= i < |front| && IsImageName(front[i].name) ensures shrink(front[i].data) != [] {
        assert (front + [e])[i] == front[i];
      }
      assert (front + [e])[|front|] == e;
    }
  }

  lemma PlaceAccounted(front: seq<Entry>, e: Entry, products: seq<Product>, extras: seq<ExtraImage>, t: Tally,
                       found: Option<nat>, shrink: Data -> Data)
    requires Accounted(front, products, extras, t, shrink)
    requires IsImageName(e.name)
    requires found.Some? ==> found.value < |t.products|
    requires ImageCount(front + [e]) == ImageCount(front) + 1
    requires Unmatched(front + [e], products) == Unmatched(front, products) + if found.None? then [BaseName(e.name)] else []
    requires NoEmptyPictures(front + [e], shrink) ==> NoEmptyPictures(front, shrink) && shrink(e.data) != []
    ensures Accounted(front + [e], products, extras, Place(t, BaseName(e.name), found, shrink(e.data)), shrink)
  {
    if found.None? {
      assert Unmatched(front + [e], products) == Unmatched(front, products) + [BaseName(e.name)];
    } else if !MainImageSet(t.products[found.value]) {
      PlaceMain(front, e, products, extras, t, found.value, shrink);
    } else {
      PlaceExtra(front, e, products, extras, t, found.value, shrink);
    }
  }

  lemma PlaceMain(front: seq<Entry>, e: Entry, products: seq<Product>, extras: seq<ExtraImage>, t: Tally, k: nat,
                  shrink: Data -> Data)
    requires Accounted(front, products, extras, t, shrink)
    requires k < |t.products| && !MainImageSet(t.products[k])
    requires ImageCount(front + [e]) == ImageCount(front) + 1
    requires Unmatched(front + [e], products) == Unmatched(front, products)
    requires NoEmptyPictures(front + [e], shrink) ==> NoEmptyPictures(front, shrink) && shrink(e.data) != []
    ensures Accounted(front + [e], products, extras, Place(t, BaseName(e.name), Some(k), shrink(e.data)), shrink)
  {
    var data := shrink(e.data);
    PlaceMatched(t, BaseName(e.name), k, data);
    NewMainImage(products, t.products, k, data);
    SetImageKeeps(products, t.products, k, data);
  }

  lemma PlaceExtra(front: seq<Entry>, e: Entry, products: seq<Product>, extras: seq<ExtraImage>, t: Tally, k: nat,
                   shrink: Data -> Data)
    requires Accounted(front, products, extras, t, shrink)
    requires k < |t.products| && MainImageSet(t.products[k])
    requires ImageCount(front + [e]) == ImageCount(front) + 1
    requires Unmatched(front + [e], products) == Unmatched(front, products)
    requires NoEmptyPictures(front + [e], shrink) ==> NoEmptyPictures(front, shrink)
    ensures Accounted(front + [e], products, extras, Place(t, BaseName(e.name), Some(k), shrink(e.data)), shrink)
  {
    var u := Place(t, BaseName(e.name), Some(k), shrink(e.data));
    PlaceMatched(t, BaseName(e.name), k, shrink(e.data));
    assert u.products == t.products && |u.extras| == |t.extras| + 1 && u.success == t.success + 1;
    AppendKeepsPrefix(t.extras, ExtraImage(t.products[k].tmplId, BaseName(e.name), shrink(e.data)), |extras|);
    assert NewMainImages(products, u.products) == NewMainImages(products, t.products);
  }

  lemma AppendKeepsPrefix<T>(a: seq<T>, x: T, n: nat)
    requires n <= |a|
    ensures (a + [x])[..n] == a[..n]
  {
  }

  lemma ImageCountSnoc(front: seq<Entry>, e: Entry)
    ensures ImageCount(front + [e]) == ImageCount(front) + if IsImageName(e.name) then 1 else 0
  {
    assert (front + [e])[..|front|] == front;
  }

  lemma UnmatchedSnoc(front: seq<Entry>, e: Entry, products: seq<Product>)
    ensures Unmatched(front + [e], products) == Unmatched(front, products)
      + if IsImageName(e.name) && FindProduct(products, Reference(e.name)).None? then [BaseName(e.name)] else []
  {
    assert (front + [e])[..|front|] == front;
  }

  /** Writing the main image of a product whose image was not set adds it to the
      products that got one iff the picture is not empty. */
  lemma NewMainImage(products: seq<Product>, ps: seq<Product>, k: nat, data: Data)
    requires |products| == |ps| && KeepsImages(products, ps) && k < |ps| && !MainImageSet(ps[k])
    ensures var qs := ps[k := ps[k].(image := Some(data))];
      |NewMainImages(products, qs)| == |NewMainImages(products, ps)| + (if data != [] then 1 else 0)
  {
    var qs := ps[k := ps[k].(image := Some(data))];
    var before := NewMainImages(products, ps);
    assert k !in before;
    if data != [] {
      assert NewMainImages(products, qs) == before + {k};
    } else {
      assert NewMainImages(products, qs) == before;
    }
  }

  lemma SetImageKeeps(products: seq<Product>, ps: seq<Product>, k: nat, data: Data)
    requires SameCatalogue(products, ps) && KeepsImages(products, ps) && k < |ps| && !MainImageSet(ps[k])
    ensures var qs := ps[k := ps[k].(image := Some(data))];
      SameCatalogue(products, qs) && KeepsImages(products, qs)
  {
  }

  /** The picture `e` is matched to the product at `k` of `products`. */
  predicate MatchedTo(products: seq<Product>, e: Entry, k: nat)
  {
    IsImageName(e.name) && FindProduct(products, Reference(e.name)) == Some(k)
  }

  /** The product at `k` has its main image set. */
  predicate HasImage(products: seq<Product>, k: nat)
  {
    k < |products| && MainImageSet(products[k])
  }

  /** A picture that is not empty once shrunk leaves the product it is matched to
      with its main image set. */
  lemma {:induction false} MatchedHaveImages(entries: seq<Entry>, products: seq<Product>, extras: seq<ExtraImage>,
                                             shrink: Data -> Data, i: nat, k: nat)
    requires i < |entries| && MatchedTo(products, entries[i], k) && shrink(entries[i].data) != []
    ensures HasImage(Run(entries, Tally(products, extras, 0, 0, []), shrink).products, k)
    decreases |entries|
  {
    var start := Tally(products, extras, 0, 0, []);
    var front := entries[..|entries| - 1];
    var last := entries[|entries| - 1];
    var t := Run(front, start, shrink);
    assert Run(entries, start, shrink) == Step(t, last, shrink);
    if i < |front| {
      assert front[i] == entries[i];
      MatchedHaveImages(front, products, extras, shrink, i, k);
      ImageStays(t, last, k, shrink);
    } else {
      assert i == |entries| - 1;
      assert MatchedTo(products, last, k);
      RunCatalogue(front, products, extras, shrink);
      MatchedNow(t, last, products, k, shrink);
    }
  }

  lemma {:induction false} RunCatalogue(entries: seq<Entry>, products: seq<Product>, extras: seq<ExtraImage>,
                                        shrink: Data -> Data)
    ensures SameCatalogue(products, Run(entries, Tally(products, extras, 0, 0, []), shrink).products)
    decreases |entries|
  {
    if entries != [] {
      var front := entries[..|entries| - 1];
      var t := Run(front, Tally(products, extras, 0, 0, []), shrink);
      RunCatalogue(front, products, extras, shrink);
      StepKeepsImages(t, entries[|entries| - 1], shrink);
    }
  }

  lemma ImageStays(t: Tally, e: Entry, k: nat, shrink: Data -> Data)
    requires HasImage(t.products, k)
    ensures HasImage(Step(t, e, shrink).products, k)
  {
    StepKeepsImages(t, e, shrink);
  }

  lemma MatchedNow(t: Tally, e: Entry, products: seq<Product>, k: nat, shrink: Data -> Data)
    requires SameCatalogue(products, t.products) && MatchedTo(products, e, k) && shrink(e.data) != []
    ensures HasImage(Step(t, e, shrink).products, k)
  {
    FindSameCatalogue(products, t.products, Reference(e.name));
    PlaceMatched(t, BaseName(e.name), k, shrink(e.data));
  }

  lemma StepKeepsImages(t: Tally, e: Entry, shrink: Data -> Data)
    ensures var u := Step(t, e, shrink);
      SameCatalogue(t.products, u.products) && KeepsImages(t.products, u.products)
  {
    if IsImageName(e.name) {
      var found := FindProduct(t.products, Reference(e.name));
      PlaceKeepsImages(t, BaseName(e.name), found, shrink(e.data));
    }
  }

  lemma PlaceKeepsImages(t: Tally, base: string, found: Option<nat>, data: Data)
    requires found.Some? ==> found.value < |t.products|
    ensures var u := Place(t, base, found, data);
      SameCatalogue(t.products, u.products) && KeepsImages(t.products, u.products)
  {
    if found.Some? {
      PlaceMatched(t, base, found.value, data);
    }
  }

  /** The notification `action_import_images` returns. */
  datatype Notification = Notification(title: string, message: string, kind: string, sticky: bool)

  /** How many unmatched names the summary lists. */
  const MaxListed: nat := 20

  /** The summary message: the number imported, then, when some files matched no
      product, their number and the first 20 of their names, with `...` when there
      were more. */
  function Summary(success: nat, notFound: seq<string>): string
  {
    var head := "Import completed. " + Decimal(success) + " images imported.";
    if notFound == [] then head
    else
      var shown := if |notFound| > MaxListed then notFound[..MaxListed] else notFound;
      head + "\n\n" + Decimal(|notFound|) + " files skipped (product not found):\n" + Join(", ", shown)
        + (if |notFound| > MaxListed then "..." else "")
  }

  function NotificationOf(t: Tally): Notification
  {
    Notification("Import Result", Summary(t.success, t.notFound), if t.notFound == [] then "success" else "warning", true)
  }

  /** Every one of the first 20 unmatched names appears in the summary. */
  lemma SummaryListsNames(success: nat, notFound: seq<string>, i: nat)
    requires i < |notFound| && i < MaxListed
    ensures Contains(Summary(success, notFound), notFound[i])
  {
    var shown := if |notFound| > MaxListed then notFound[..MaxListed] else notFound;
    JoinContains(", ", shown, i);
    var head := "Import completed. " + Decimal(success) + " images imported." + "\n\n" + Decimal(|notFound|)
      + " files skipped (product not found):\n";
    var tail := if |notFound| > MaxListed then "..." else "";
    ContainsAppend(head, Join(", ", shown), notFound[i]);
    ContainsAppend(head + Join(", ", shown), tail, notFound[i]);
  }

  lemma {:induction false} JoinContains(sep: string, parts: seq<string>, i: nat)
    requires i < |parts|
    ensures Contains(Join(sep, parts), parts[i])
    decreases |parts|
  {
    if |parts| == 1 {
      ContainsSelf(parts[0]);
    } else {
      var front := parts[..|parts| - 1];
      var last := parts[|parts| - 1];
      if i < |front| {
        JoinContains(sep, front, i);
        ContainsAppend(Join(sep, front), sep + last, parts[i]);
        assert Join(sep, front) + (sep + last) == Join(sep, parts);
      } else {
        ContainsSelf(last);
        ContainsAppend(Join(sep, front) + sep, last, last);
      }
    }
  }

  /** The notification is a success exactly when every picture matched a product;
      otherwise it is a warning. */
  lemma NotificationKind(entries: seq<Entry>, products: seq<Product>, extras: seq<ExtraImage>,
                         shrink: Data -> Data)
    ensures var n := NotificationOf(Run(entries, Tally(products, extras, 0, 0, []), shrink));
      (n.kind == "success" <==> Unmatched(entries, products) == []) && n.sticky
  {
    RunAccounted(entries, products, extras, shrink);
  }

  /** Why the wizard refuses to start: no file, a file that is not valid base64, or
      one that is not a ZIP archive. */
  datatype ImportError = NoZipFile | InvalidZip | NotAZipFile

  /** Reading the uploaded file: its entries, or the error `action_import_images`
      raises. */
  type Unzip = Data -> Result<seq<Entry>, ImportError>

  /** `action_import_images` as a whole: the final products, extra images and
      counts, or the error raised before anything is written. */
  function Import(zipFile: Data, unzip: Unzip, products: seq<Product>, extras: seq<ExtraImage>,
                  open: Data -> Option<Size>, save: (Data, int, Size) -> Option<Data>): Result<Tally, ImportError>
  {
    if zipFile == [] then Err(NoZipFile)
    else
      match unzip(zipFile)
      case Err(_) => Err(if unzip(zipFile).error == NotAZipFile then NotAZipFile else InvalidZip)
      case Ok(entries) => Ok(Run(entries, Tally(products, extras, 0, 0, []), Shrinker(open, save)))
  }

  /** The products, and their extra images, in the database. */
  class ProductStore {
    var products: seq<Product>
    var extraImages: seq<ExtraImage>

    constructor(products: seq<Product>, extraImages: seq<ExtraImage>)
      ensures this.products == products && this.extraImages == extraImages
    {
      this.products := products;
      this.extraImages := extraImages;
    }
  }

  /** The `product.bulk.image.import` wizard. */
  class ImportWizard {
    var zipFile: Data

    constructor(zipFile: Data)
      ensures this.zipFile == zipFile
    {
      this.zipFile := zipFile;
    }

    /** `action_import_images`. */
    method ActionImportImages(store: ProductStore, unzip: Unzip, open: Data -> Option<Size>,
                              save: (Data, int, Size) -> Option<Data>) returns (r: Result<Notification, ImportError>)
      modifies store
      ensures var outcome := Import(zipFile, unzip, old(store.products), old(store.extraImages), open, save);
        && (outcome.Err? ==> r == Err(outcome.error) && unchanged(store))
        && (outcome.Ok? ==> (r == Ok(NotificationOf(outcome.value))
              && store.products == outcome.value.products && store.extraImages == outcome.value.extras))
    {
      if zipFile == [] {
        return Err(NoZipFile);
      }
      var archive := unzip(zipFile);
      if archive.Err? {
        return Err(if archive.error == NotAZipFile then NotAZipFile else InvalidZip);
      }
      var entries := archive.value;
      ghost var start := Tally(store.products, store.extraImages, 0, 0, []);
      var success, skipped, notFound := 0, 0, [];
      for i := 0 to |entries|
        invariant Tally(store.products, store.extraImages, success, skipped, notFound)
          == Run(entries[..i], start, Shrinker(open, save))
      {
        RunStep(entries, i, start, Shrinker(open, save));
        success, skipped, notFound := ImportEntry(store, entries[i], success, skipped, notFound, open, save);
      }
      assert entries[..|entries|] == entries;
      return Ok(NotificationOf(Tally(store.products, store.extraImages, success, skipped, notFound)));
    }
  }

  /** One pass of the import loop, on the store and the wizard's counters. */
  method ImportEntry(store: ProductStore, entry: Entry, success: nat, skipped: nat, notFound: seq<string>,
                     open: Data -> Option<Size>, save: (Data, int, Size) -> Option<Data>)
      returns (success': nat, skipped': nat, notFound': seq<string>)
    modifies store
    ensures Tally(store.products, store.extraImages, success', skipped', notFound')
      == Step(Tally(old(store.products), old(store.extraImages), success, skipped, notFound), entry, Shrinker(open, save))
  {
    success', skipped', notFound' := success, skipped, notFound;
    if !IsImageName(entry.name) {
      return;
    }
    var data := ResizeImage(entry.data, TargetKb, open, save);
    var base := BaseName(entry.name);
    var product := LookUp(store.products, Reference(entry.name));
    success', skipped', notFound' := PlaceImage(store, base, product, data, success, skipped, notFound);
  }

  /** The two searches of the import loop: by the reference, then by the text
      before its last underscore. */
  method LookUp(products: seq<Product>, reference: string) returns (product: Option<nat>)
    ensures product == FindProduct(products, reference)
  {
    product := Search(products, reference);
    if product.None? && '_' in reference {
      product := Search(products, BeforeLast(reference, '_'));
    }
  }

  /** Storing a shrunk picture: as the main image, as an extra image, or not at
      all when no product matched. */
  method PlaceImage(store: ProductStore, base: string, product: Option<nat>, data: Data,
                    success: nat, skipped: nat, notFound: seq<string>)
      returns (success': nat, skipped': nat, notFound': seq<string>)
    requires product.Some? ==> product.value < |store.products|
    modifies store
    ensures Tally(store.products, store.extraImages, success', skipped', notFound')
      == Place(Tally(old(store.products), old(store.extraImages), success, skipped, notFound), base, product, data)
  {
    success', skipped', notFound' := success, skipped, notFound;
    if product.None? {
      notFound' := notFound + [base];
      skipped' := skipped + 1;
      return;
    }
    var k := product.value;
    if !MainImageSet(store.products[k]) {
      store.products := store.products[k := store.products[k].(image := Some(data))];
    } else {
      store.extraImages := store.extraImages + [ExtraImage(store.products[k].tmplId, base, data)];
    }
    success' := success + 1;
  }

  lemma RunStep(entries: seq<Entry>, i: nat, t: Tally, shrink: Data -> Data)
    requires i < |entries|
    ensures Run(entries[..i + 1], t, shrink) == Step(Run(entries[..i], t, shrink), entries[i], shrink)
  {
    assert entries[..i + 1][..i] == entries[..i];
  }
}
