/**
 * The crop-rectangle state of DIPSoftware/ImgWidget.cpp: the pixmap item
 * that follows a left-button drag, and the image widget that shows the
 * dashed rectangle item and tells the main window whether cropping is
 * possible (signal `setCropActionEnabled`, connected to the crop action,
 * which starts disabled).  Event coordinates are the integers the source
 * stores after truncating the pointer position.
 */
module ImgWidgets {
  import opened Wrappers
  import opened Numeric

  /** `QRect(left, top, width, height)`. */
  datatype Rect = Rect(left: int, top: int, width: int, height: int)

  datatype Button = LeftButton | RightButton | MiddleButton

  /** The rectangle spanned by the drag origin and the pointer, as
      `mouseMoveEvent` builds it: the top-left corner is the componentwise
      minimum, the size the absolute difference, so both points are corners. */
  function NormalizedRect(originX: int, originY: int, px: int, py: int): (r: Rect)
    ensures r.left == Min(originX, px) && r.top == Min(originY, py)
    ensures r.width == Abs(px - originX) && r.height == Abs(py - originY)
    ensures r.width >= 0 && r.height >= 0
    ensures {r.left, r.left + r.width} == {originX, px}
    ensures {r.top, r.top + r.height} == {originY, py}
  {
    var (leftUpX, w) := if originX < px then (originX, px - originX) else (px, originX - px);
    var (leftUpY, h) := if originY < py then (originY, py - originY) else (py, originY - py);
    Rect(leftUpX, leftUpY, w, h)
  }

  /** `EditPixmapItem`: the pixmap on which the user drags a crop rectangle. */
  class EditPixmapItem {
    var isDrag: bool
    var originX: int
    var originY: int
    var cropRect: Rect

    /** A new item is not dragging and holds the null rectangle `QRect()`. */
    constructor ()
      ensures !isDrag && cropRect == Rect(0, 0, 0, 0)
    {
      isDrag := false;
      originX, originY := 0, 0;
      cropRect := Rect(0, 0, 0, 0);
    }

    /** `mousePressEvent`: the left button starts a drag at (px, py); any
        other button changes nothing. */
    method MousePress(button: Button, px: int, py: int)
      modifies this
      ensures button == LeftButton ==> isDrag && originX == px && originY == py && cropRect == old(cropRect)
      ensures button != LeftButton ==> unchanged(this)
    {
      if button == LeftButton {
        isDrag := true;
        originX := px;
        originY := py;
      }
    }

    /** `mouseMoveEvent`: while dragging, the crop rectangle becomes the one
        spanned by the origin and (px, py) and `updateCropRectSignal` is
        emitted (`emitted`); otherwise nothing changes. */
    method MouseMove(px: int, py: int) returns (emitted: bool)
      modifies this
      ensures emitted == old(isDrag)
      ensures isDrag == old(isDrag) && originX == old(originX) && originY == old(originY)
      ensures cropRect == if old(isDrag) then NormalizedRect(originX, originY, px, py) else old(cropRect)
    {
      emitted := false;
      if isDrag {
        var leftUpX, leftUpY, w, h;
        if originX < px {
          leftUpX := originX;
          w := px - originX;
        } else {
          leftUpX := px;
          w := originX - leftUpX;
        }
        if originY < py {
          leftUpY := originY;
          h := py - leftUpY;
        } else {
          leftUpY := py;
          h := originY - leftUpY;
        }
        cropRect := Rect(leftUpX, leftUpY, w, h);
        emitted := true;
      }
    }

    /** `mouseReleaseEvent`: the left button ends the drag and keeps the
        rectangle; any other button changes nothing. */
    method MouseRelease(button: Button)
      modifies this
      ensures button == LeftButton ==> !isDrag && originX == old(originX) && originY == old(originY) && cropRect == old(cropRect)
      ensures button != LeftButton ==> unchanged(this)
    {
      if button == LeftButton {
        isDrag := false;
      }
    }
  }

  /** The value the crop action holds after the given `setCropActionEnabled`
      emissions: the last one emitted, or disabled before any. */
  function CropActionEnabled(emitted: seq<bool>): bool {
    if emitted == [] then false else emitted[|emitted| - 1]
  }

  /** `ImgWidget`: the scene holding the pixmap item and at most one
      rectangle item. */
  class ImgWidget {
    var pixmapItem: EditPixmapItem
    var rectItem: Option<Rect>
    var cropSignals: seq<bool>

    /** The crop action is enabled exactly when a rectangle item is shown. */
    ghost predicate Valid()
      reads this
    {
      CropActionEnabled(cropSignals) == rectItem.Some?
    }

    constructor ()
      ensures Valid() && fresh(pixmapItem)
      ensures rectItem == None && cropSignals == [] && !CropActionEnabled(cropSignals)
    {
      pixmapItem := new EditPixmapItem();
      rectItem := None;
      cropSignals := [];
    }

    /** `updateRectItem`: replaces any rectangle item by one equal to the
        item's crop rectangle and signals the crop action as enabled. */
    method UpdateRectItem()
      requires Valid()
      modifies this
      ensures Valid() && pixmapItem == old(pixmapItem)
      ensures rectItem == Some(pixmapItem.cropRect)
      ensures cropSignals == old(cropSignals) + [true] && CropActionEnabled(cropSignals)
    {
      rectItem := Some(pixmapItem.cropRect);
      cropSignals := cropSignals + [true];
    }

    /** `removeLastItem`: removes the rectangle item and signals disabled;
        without an item it does nothing, so a second call changes nothing. */
    method RemoveLastItem()
      requires Valid()
      modifies this
      ensures Valid() && pixmapItem == old(pixmapItem)
      ensures rectItem == None && !CropActionEnabled(cropSignals)
      ensures old(rectItem).Some? ==> cropSignals == old(cropSignals) + [false]
      ensures old(rectItem).None? ==> unchanged(this)
    {
      if rectItem.Some? {
        rectItem := None;
        cropSignals := cropSignals + [false];
      }
    }

    /** A pointer move delivered to the pixmap item; its
        `updateCropRectSignal` is connected to `updateRectItem`. */
    method PixmapItemMouseMove(px: int, py: int)
      requires Valid()
      modifies this, pixmapItem
      ensures Valid() && pixmapItem == old(pixmapItem)
      ensures pixmapItem.isDrag == old(pixmapItem.isDrag)
      ensures pixmapItem.originX == old(pixmapItem.originX) && pixmapItem.originY == old(pixmapItem.originY)
      ensures old(pixmapItem.isDrag) ==> pixmapItem.cropRect == NormalizedRect(old(pixmapItem.originX), old(pixmapItem.originY), px, py)
      ensures old(pixmapItem.isDrag) ==> rectItem == Some(pixmapItem.cropRect) && cropSignals == old(cropSignals) + [true]
      ensures !old(pixmapItem.isDrag) ==> pixmapItem.cropRect == old(pixmapItem.cropRect) && rectItem == old(rectItem) && cropSignals == old(cropSignals)
    {
      var emitted := pixmapItem.MouseMove(px, py);
      if emitted {
        UpdateRectItem();
      }
    }
  }
}
