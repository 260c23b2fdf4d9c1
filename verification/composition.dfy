/**
 * The geometry of `ImageGenerator.generate_product_image`: the layout is computed, the table
 * is drawn at the top, the photo is pushed down by the height the table returned, scaled to
 * fit the product box, and the texts start 30 px below it. Only the numbers are modelled.
 */
module Composition {
  import opened SizeColors
  import opened Layout
  import opened TableDrawing

  /**
   * Where everything lands on the final canvas. `productBox` is the box `calculate_layout`
   * planned; `photo` is the photo resized into it, which truncation can leave smaller than
   * the box.
   */
  datatype Composite = Composite(
    canvasWidth: int,
    canvasHeight: int,
    tableHeight: nat,
    productBox: Size,
    photoX: int,
    photoY: int,
    photo: Size,
    textStartY: int)

  /**
   * The canvas of an image `w` x `h` with its size/colour table. The photo is the image
   * resized into the planned box and pasted at the planned `x`, on the planned canvas; it
   * keeps 50 px on both sides and at least 150 px below it, never outgrows the box or the
   * image, and starts 40 px
   * below the table. The texts start 30 px below the planned box (`draw_texts` is given the
   * box, not the pasted photo), so at least 30 px below the photo and at least 120 px above
   * the bottom of the canvas.
   */
  function ComposeProductImage(w: int, h: int, m: SizeColorMatrix): (c: Composite)
    requires w > 0 && h > 0
    ensures var plan := CalculateLayout(w, h, m);
      c.canvasWidth == plan.canvasWidth && c.canvasHeight == plan.canvasHeight &&
      c.productBox == plan.product && c.photoX == plan.x
    ensures c.tableHeight == DrawnTableHeight(m)
    ensures c.photo == ResizeProductImage(Size(w, h), c.productBox)
    ensures 50 <= c.photoX && c.photoX + c.photo.width <= c.canvasWidth - 50
    ensures 0 <= c.photo.width <= c.productBox.width && 0 <= c.photo.height <= c.productBox.height
    ensures c.photoY + c.photo.height <= c.canvasHeight - 150
    ensures HasTable(m) ==> c.photoY == RowTop(|m.colors| + 1) + 40
    ensures !HasTable(m) ==> c.photoY == 50
    ensures c.textStartY == c.photoY + c.productBox.height + 30
    ensures c.photoY + c.photo.height + 30 <= c.textStartY <= c.canvasHeight - 120
    ensures c.photo.width <= w && c.photo.height <= h
  {
    var plan := CalculateLayout(w, h, m);
    var drawn := DrawnTableHeight(m);
    DrawnWithinReserved(m);
    var photo := ResizeProductImage(Size(w, h), plan.product);
    var y := plan.y + drawn;
    Composite(plan.canvasWidth, plan.canvasHeight, drawn, plan.product, plan.x, y, photo, y + plan.product.height + 30)
  }

  /**
   * A photo whose planned box is its own size (every photo over 800x600, every one under
   * 300 px on a side that fits the 800-wide room, and every one in between) is pasted at
   * its own size: resizing into an equal box changes nothing.
   */
  lemma NativePhotoUnscaled(w: int, h: int, m: SizeColorMatrix)
    requires w > 0 && h > 0
    requires CalculateLayout(w, h, m).product == Size(w, h)
    ensures ComposeProductImage(w, h, m).photo == Size(w, h)
  {
    var r := ResizeProductImage(Size(w, h), Size(w, h));
    assert r.width >= w && r.height >= h;
  }

  /**
   * A 251 x 599 photo without a table gets a 167 x 400 box, but resizing into that box
   * truncates the height to 398: the texts start at 480, 32 px below the photo.
   */
  lemma TruncatedPhotoExample()
    ensures var c := ComposeProductImage(251, 599, NoMatrix);
      c.productBox == Size(167, 400) && c.photo == Size(167, 398) && c.textStartY == 480
  {
    var plan := CalculateLayout(251, 599, NoMatrix);
    assert FitRatio(Size(251, 599), Size(700, 400)) == 400.0 / 599.0;
    assert (251.0 * (400.0 / 599.0)).Floor == 167;
    assert plan.product == Size(167, 400);
    assert FitRatio(Size(251, 599), Size(167, 400)) == 167.0 / 251.0;
    assert (599.0 * (167.0 / 251.0)).Floor == 398;
  }
}
