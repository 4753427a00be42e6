/**
 * The parts of the main window (DIPSoftware/dipsoftware.cpp) that decide
 * something: the two flips, the largest kernel size offered by the median
 * and Gaussian filter dialogs, and the cancel / accept / accept-as-previewed
 * rule of the interactive adjustments.
 */
module DipSoftware {
  import DiagramWidgets
  import opened Numeric

  // ---------------------------------------------------------------------
  // Flips
  // ---------------------------------------------------------------------

  /** `b` is `a` with its columns in reverse order. */
  ghost predicate IsHorizontalFlipOf<T>(b: array2<T>, a: array2<T>)
    reads a, b
  {
    && b.Length0 == a.Length0 && b.Length1 == a.Length1
    && forall i, j :: 0 <= i < b.Length0 && 0 <= j < b.Length1 ==> b[i, j] == a[i, a.Length1 - 1 - j]
  }

  /** `b` is `a` with its rows in reverse order. */
  ghost predicate IsVerticalFlipOf<T>(b: array2<T>, a: array2<T>)
    reads a, b
  {
    && b.Length0 == a.Length0 && b.Length1 == a.Length1
    && forall i, j :: 0 <= i < b.Length0 && 0 <= j < b.Length1 ==> b[i, j] == a[a.Length0 - 1 - i, j]
  }

  /** `DIPSoftware::horizontalFlipImage`: a new image of the same size whose
      column j is a copy of column cols - j - 1 of the current image. */
  method HorizontalFlipImage<T(0)>(img: array2<T>) returns (image: array2<T>)
    ensures fresh(image)
    ensures IsHorizontalFlipOf(image, img)
  {
    image := new T[img.Length0, img.Length1];
    for j := 0 to image.Length1
      invariant forall i, k :: 0 <= i < image.Length0 && 0 <= k < j ==> image[i, k] == img[i, image.Length1 - k - 1]
    {
      forall i | 0 <= i < image.Length0 {
        image[i, j] := img[i, image.Length1 - j - 1];
      }
    }
  }

  /** `DIPSoftware::verticalFlipImage`: a new image of the same size whose
      row i is a copy of row rows - i - 1 of the current image. */
  method VerticalFlipImage<T(0)>(img: array2<T>) returns (image: array2<T>)
    ensures fresh(image)
    ensures IsVerticalFlipOf(image, img)
  {
    image := new T[img.Length0, img.Length1];
    for i := 0 to image.Length0
      invariant forall k, j :: 0 <= k < i && 0 <= j < image.Length1 ==> image[k, j] == img[image.Length0 - k - 1, j]
    {
      forall j | 0 <= j < image.Length1 {
        image[i, j] := img[image.Length0 - i - 1, j];
      }
    }
  }

  /** Flipping the flip horizontally gives back the original image exactly. */
  lemma HorizontalFlipInvolution<T>(a: array2<T>, b: array2<T>, c: array2<T>)
    requires IsHorizontalFlipOf(b, a) && IsHorizontalFlipOf(c, b)
    ensures c.Length0 == a.Length0 && c.Length1 == a.Length1
    ensures forall i, j :: 0 <= i < c.Length0 && 0 <= j < c.Length1 ==> c[i, j] == a[i, j]
  {
  }

  /** Flipping the flip vertically gives back the original image exactly. */
  lemma VerticalFlipInvolution<T>(a: array2<T>, b: array2<T>, c: array2<T>)
    requires IsVerticalFlipOf(b, a) && IsVerticalFlipOf(c, b)
    ensures c.Length0 == a.Length0 && c.Length1 == a.Length1
    ensures forall i, j :: 0 <= i < c.Length0 && 0 <= j < c.Length1 ==> c[i, j] == a[i, j]
  {
  }

  // ---------------------------------------------------------------------
  // Largest kernel size
  // ---------------------------------------------------------------------

  predicate IsOdd(k: int) {
    k % 2 == 1
  }

  /** `maxKernel` of `medianFilterImage` and `gaussianFilterImage`:
      `(m / 2) * 2 - 1` with `m = min(rows, cols)` is the largest odd
      number strictly below `m`. */
  function MaxKernel(rows: nat, cols: nat): (k: int)
    ensures IsOdd(k) && k < Min(rows, cols)
    ensures forall j :: IsOdd(j) && j < Min(rows, cols) ==> j <= k
  {
    (Min(rows, cols) / 2) * 2 - 1
  }

  // ---------------------------------------------------------------------
  // Interactive adjustments: changeImage and linearConvertImage
  // ---------------------------------------------------------------------

  /** `EditImageCommand`: the image before and after one edit. */
  datatype EditImageCommand<M> = EditImageCommand(originMat: M, newMat: M)

  /** What `EditImageCommand::redo` shows (also run once by the push). */
  function Redo<M>(c: EditImageCommand<M>): M {
    c.newMat
  }

  /** What `EditImageCommand::undo` shows. */
  function Undo<M>(c: EditImageCommand<M>): M {
    c.originMat
  }

  /** The effect of a dialog on the main window: either the image widget
      is reset to the given image, or a command is pushed on the undo stack. */
  datatype Effect<M> = Restore(image: M) | Push(command: EditImageCommand<M>)

  /** The image shown once the effect has taken place. */
  function Shown<M>(e: Effect<M>): M {
    match e
    case Restore(m) => m
    case Push(c) => Redo(c)
  }

  /** The rule shared by both dialogs: on cancel restore `originMat`; on
      accept with parameters push (originMat, apply(params)); on accept
      without parameters push (originMat, the image the preview left). */
  function Decide<M, Q>(ok: bool, params: seq<Q>, originMat: M, previewed: M, apply: seq<Q> -> M): Effect<M> {
    if !ok then Restore(originMat)
    else if |params| > 0 then Push(EditImageCommand(originMat, apply(params)))
    else Push(EditImageCommand(originMat, previewed))
  }

  /** `DIPSoftware::changeImage` after the dialog returned `deltas` and `ok`. */
  function ChangeImage<M>(ok: bool, deltas: seq<real>, originMat: M, previewed: M,
                          lambdaFunc: seq<real> -> M): (e: Effect<M>)
    ensures !ok ==> e == Restore(originMat)
    ensures ok ==> e.Push? && Undo(e.command) == originMat
    ensures ok && deltas != [] ==> Shown(e) == lambdaFunc(deltas)
    ensures ok && deltas == [] ==> Shown(e) == previewed
    ensures Shown(e) == originMat || (e.Push? && Undo(e.command) == originMat)
  {
    Decide(ok, deltas, originMat, previewed, lambdaFunc)
  }

  /** `DIPSoftware::linearConvertImage` after the dialog returned the vertex
      list and `ok`; the list is empty when the preview was left on. */
  function LinearConvertImage<M>(ok: bool, vertices: seq<DiagramWidgets.Vertex>, originMat: M, previewed: M,
                                 linearConvert: seq<DiagramWidgets.Vertex> -> M): (e: Effect<M>)
    ensures !ok ==> e == Restore(originMat)
    ensures ok ==> e.Push? && Undo(e.command) == originMat
    ensures ok && vertices != [] ==> Shown(e) == linearConvert(vertices)
    ensures ok && vertices == [] ==> Shown(e) == previewed
    ensures Shown(e) == originMat || (e.Push? && Undo(e.command) == originMat)
  {
    Decide(ok, vertices, originMat, previewed, linearConvert)
  }
}
