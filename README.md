# DIPSoftware: a verified model of its sequential core

DIPSoftware is a Qt/OpenCV desktop image editor. Most of what it does to pixels is
floating-point colour maths. This project models the parts whose behaviour is
decided by integer indices, ordered keys and small state machines, and proves
what they promise:

- **Utils** (`utils.dfy`). `getExtension` returns what follows the last `'.'`.
  The size_t wrap-around of `npos + 1` is written out. The model also covers the fan-out
  used by the lightness, saturation and hue adjustments: the image is cut into
  4 row bands × 2 column halves, whose bounds are `{0, r/4, r/2, 3r/4, r}` and
  `{0, c/2, c}`, and tile `(i, j)` goes in slot `i + i + j`. The worker fills its
  own rectangle of the result. The per-pixel formula is an uninterpreted function
  `f`. The model proves that the tiles partition the grid and that running all
  eight workers, in any order, yields the pointwise map of `f`.
- **DipSoftware** (`dipsoftware.dfy`). This covers the horizontal and vertical flips, each a
  column or row reversal copy; flipping twice gives back the image. It also covers the
  largest kernel size offered by the median and Gaussian dialogs, `(m/2)*2-1`,
  which is proved to be the largest odd number below `m = min(rows, cols)`.
  Finally, it covers the cancel / accept / accept-as-previewed rule of `changeImage` and
  `linearConvertImage`, stated through the undo command (`EditImageCommand`) that
  is pushed.
- **ImgWidgets** (`img_widget.dfy`). The pixmap item follows a left-button drag and keeps
  a normalised crop rectangle. The image widget shows at most one dashed rectangle item
  and signals whether cropping is possible. Its invariant is that the crop action is
  enabled exactly when a rectangle item is shown.
- **DiagramWidgets** (`diagram_widget.dfy`). The tone-curve editor keeps an x-ordered list
  of control points. A press snaps to a near vertex, then updates a vertex or inserts one.
  A drag edits the selected vertex, and the two endpoints keep their x. Its invariant is that
  the curve keeps x = 0 and x = 1 at its ends and that a vertex is selected
  while the button is held.
- **Wrappers** (`wrappers.dfy`): `Option`, used for nullable pointers and unset iterators.
- **Numeric** (`numeric.dfy`): `Min` and absolute value, shared by the modules above.

The model follows the code's own form. Event handlers and in-place workers are
classes and methods with `modifies` clauses. The decisions are functions.
A drag that moves an interior vertex of the tone curve can break the x order
(`MoveMayBreakOrder`): the code does not clamp the moved vertex between its
neighbours, so the "x strictly increasing" property holds after presses
(`PressKeepsOrder`) but not after drags.

## Model

| member | source | states |
|---|---|---|
| `Utils.FindLastOf` | DIPSoftware/Utils.cpp:13 | the result is `npos` exactly when the character is absent; otherwise it is an index holding the character with no occurrence after it |
| `Utils.GetExtension` | DIPSoftware/Utils.cpp:12-19 | the result is the suffix after the last `'.'`: it is a suffix of the name, contains no `'.'`, and is preceded by a `'.'` when the name has one; with no `'.'` the whole name is returned (npos + 1 wraps to 0); a name ending in `'.'` gives the empty string |
| `Utils.RowBounds` | DIPSoftware/Utils.cpp:199 | the five band bounds start at 0, end at `rows` and never decrease |
| `Utils.ColBounds` | DIPSoftware/Utils.cpp:200 | the three half bounds start at 0, end at `cols` and never decrease |
| `Utils.Slot` | DIPSoftware/Utils.cpp:202-203 | slot `i + i + j` lies in [0, 8), and the band and half are recovered from it as `k / 2` and `k % 2`, so no two tiles share a future |
| `Utils.TileOf` | DIPSoftware/Utils.cpp:202-203 | the tile launched in slot `k` is a rectangle inside the grid |
| `Utils.BandOf` | DIPSoftware/Utils.cpp:199 | every row lies in one of the four bands |
| `Utils.HalfOf` | DIPSoftware/Utils.cpp:200 | every column lies in one of the two halves |
| `Utils.CellSlot` | DIPSoftware/Utils.cpp:199-203 | every cell has a slot in [0, 8) |
| `Utils.TilesPartition` | DIPSoftware/Utils.cpp:199-203 | a cell lies in the tile of slot `k` exactly when `k` is its slot, so the 8 tiles cover every cell exactly once |
| `Utils.ChangePartialImageMat` | DIPSoftware/Utils.cpp:213-227 | the worker sets `res` to `f(mat)` at the same cell for every cell of [x0,x1)×[y0,y1) and leaves every other cell of `res`, and all of `mat`, unchanged (the saturation and hue workers at 245-268 and 286-298 have the same shape) |
| `Utils.ChangeImageMat` | DIPSoftware/Utils.cpp:196-211 | the driver returns a fresh image of the input's size equal to the pointwise map of `f`, whatever order the 8 workers run in (the saturation and hue drivers at 229-243 and 270-284 are the same) |
| `DipSoftware.HorizontalFlipImage` | DIPSoftware/dipsoftware.cpp:227-234 | the new image has the same rows and cols, and its column `j` is input column `cols-1-j` |
| `DipSoftware.VerticalFlipImage` | DIPSoftware/dipsoftware.cpp:236-243 | the new image has the same rows and cols, and its row `i` is input row `rows-1-i` |
| `DipSoftware.HorizontalFlipInvolution` | DIPSoftware/dipsoftware.cpp:227-234 | the horizontal flip of a horizontal flip equals the original image cell for cell |
| `DipSoftware.VerticalFlipInvolution` | DIPSoftware/dipsoftware.cpp:236-243 | the vertical flip of a vertical flip equals the original image cell for cell |
| `DipSoftware.MaxKernel` | DIPSoftware/dipsoftware.cpp:305-306 | `(m/2)*2-1` is odd, below `m = min(rows, cols)`, and no odd number below `m` exceeds it (the same computation is at 316-317) |
| `DipSoftware.ChangeImage` | DIPSoftware/dipsoftware.cpp:245-257 | cancel restores `originMat` and pushes nothing; accept pushes a command whose undo shows `originMat`; it shows `lambdaFunc(deltas)` when deltas are non-empty and the previewed image otherwise; in every case `originMat` is shown or one undo away |
| `DipSoftware.LinearConvertImage` | DIPSoftware/dipsoftware.cpp:264-276 | the same three-way rule, keyed on the returned vertex list being empty |
| `ImgWidgets.NormalizedRect` | DIPSoftware/ImgWidget.cpp:32-48 | the corner is the componentwise minimum of origin and pointer; width and height are the absolute differences, never negative; origin and pointer are opposite corners |
| `ImgWidgets.EditPixmapItem.constructor` | DIPSoftware/ImgWidget.cpp:12-14 | a new item is not dragging and holds the null rectangle |
| `ImgWidgets.EditPixmapItem.MousePress` | DIPSoftware/ImgWidget.cpp:20-27 | the left button sets `isDrag` and records the origin; any other button changes nothing |
| `ImgWidgets.EditPixmapItem.MouseMove` | DIPSoftware/ImgWidget.cpp:29-51 | while dragging, `cropRect` becomes the normalised rectangle and the update signal is emitted; otherwise nothing changes |
| `ImgWidgets.EditPixmapItem.MouseRelease` | DIPSoftware/ImgWidget.cpp:53-57 | the left button clears `isDrag` and keeps `cropRect`; any other button changes nothing |
| `ImgWidgets.ImgWidget.constructor` | DIPSoftware/ImgWidget.cpp:59-79 | a new widget has no rectangle item, and the crop action is disabled (dipsoftware.cpp:45) |
| `ImgWidgets.ImgWidget.UpdateRectItem` | DIPSoftware/ImgWidget.cpp:125-135 | exactly one rectangle item remains, equal to the crop rectangle, and `true` is signalled; it keeps the invariant that the action is enabled exactly when an item is shown |
| `ImgWidgets.ImgWidget.RemoveLastItem` | DIPSoftware/ImgWidget.cpp:107-115 | afterwards there is no item and the action is disabled; `false` is signalled only if an item existed; with no item nothing changes, so a second call is a no-op |
| `ImgWidgets.ImgWidget.PixmapItemMouseMove` | DIPSoftware/ImgWidget.cpp:98 | a drag move keeps the item's press origin, sets the crop rectangle to the one spanned by that origin and the pointer, and, through the connected signal, shows an item equal to it and signals the crop action enabled; a move without a drag changes neither |
| `DiagramWidgets.Point2Pair` | DIPSoftware/DiagramWidget.cpp:8-10 | the point is `(x/w, (h-y)/h)`, and a pixel inside the widget maps into [0,1]² |
| `DiagramWidgets.FirstNearFrom` | DIPSoftware/DiagramWidget.cpp:34-39 | the result is the first index from `k` on whose x is within 0.05 of the pressed x, or none when no vertex is near |
| `DiagramWidgets.SnapX` | DIPSoftware/DiagramWidget.cpp:34-39 | the pressed x takes the x of the first near vertex in list order; with none near it is kept; either way it is the pressed x or some vertex's x |
| `DiagramWidgets.LocateFrom` | DIPSoftware/DiagramWidget.cpp:41-61 | an update lands on a vertex with exactly that x; an insertion lands strictly between two consecutive vertices; a miss means no vertex has that x and the x is not in (first x, last x] |
| `DiagramWidgets.PressEffect` | DIPSoftware/DiagramWidget.cpp:45-59 | an equal x changes only that vertex's y and keeps the length; an x in between inserts exactly one vertex, growing the list by one; the selected vertex is the one written |
| `DiagramWidgets.PressKeepsOrder` | DIPSoftware/DiagramWidget.cpp:50-54 | a press keeps strictly increasing x strictly increasing |
| `DiagramWidgets.PressKeepsEndpoints` | DIPSoftware/DiagramWidget.cpp:41-61 | a press never shortens the list, and it keeps the x of the first and last vertex |
| `DiagramWidgets.PressInsideSelects` | DIPSoftware/DiagramWidget.cpp:30-61 | with endpoints at x = 0 and x = 1, a press inside the widget always selects a vertex, whatever the order of the others |
| `DiagramWidgets.DiagramWidget.constructor` | DIPSoftware/DiagramWidget.h:17 | a new widget holds `[(0,0),(1,1)]`, is not pressed and has no selection |
| `DiagramWidgets.DiagramWidget.SnapPosition` | DIPSoftware/DiagramWidget.cpp:34-39 | the snapping loop returns the pressed position with x replaced by `SnapX` |
| `DiagramWidgets.DiagramWidget.UpdateOrInsert` | DIPSoftware/DiagramWidget.cpp:41-61 | the scan loop leaves the list and selection described by `PressVertices` and `PressSelection`; when the scan falls off the end with no hit, the list and the selection are unchanged |
| `DiagramWidgets.DiagramWidget.MousePress` | DIPSoftware/DiagramWidget.cpp:30-63 | sets `isPressed`, snaps, then updates or inserts; it keeps the endpoints at 0 and 1 and always leaves a vertex selected |
| `DiagramWidgets.DiagramWidget.MouseMove` | DIPSoftware/DiagramWidget.cpp:65-78 | while pressed, the list becomes `MoveVertices` of the old list at the selected vertex: an endpoint vertex (x ≤ FLT_EPSILON or x ≥ 1 − FLT_EPSILON) takes only the new y and any other selected vertex becomes the pointer position; no other vertex changes; when not pressed nothing changes |
| `DiagramWidgets.DiagramWidget.MouseRelease` | DIPSoftware/DiagramWidget.cpp:80-82 | clears `isPressed` and keeps the vertices, so later moves leave them unchanged |
| `DiagramWidgets.MoveVertices` | DIPSoftware/DiagramWidget.cpp:69-73 | the length is kept and only the selected vertex changes: an endpoint vertex keeps its x and takes the new y, any other becomes the pointer position |
| `DiagramWidgets.MoveMayBreakOrder` | DIPSoftware/DiagramWidget.cpp:72 | for every strictly increasing list, dragging an interior vertex to an x at or past its right neighbour's breaks the strictly increasing x order |
| `DiagramWidgets.MoveBreaksOrderExample` | DIPSoftware/DiagramWidget.cpp:72 | on a 4×4 widget with vertices at x = 0, 0.25, 0.5, 1, dragging the vertex at 0.25 to pixel (3, 1) leaves the list out of order |

## Left out

- Floating-point pixel maths is not modelled, because it is floats and trigonometry. This covers `RGB2HSL`, `HSL2RGB`, the lightness, saturation and hue formulas, `rotateImageMat`, `biLinearInterpolation`, `mat8U2Mat32F`, `mat32F2Mat8U` and `mat2QImage`. In the fan-out the formula is the function parameter `f`, with its delta already bound; this includes the `exp(-delta)` the lightness driver passes on.
- Utils.ChangeImageMat: `std::async`/`future` threads are not modelled. The eight workers run one after another in a caller-given order (`schedule`, any permutation of the slots). Because the workers write disjoint tiles, every interleaving has the effect of some such order.
- Utils.RowBounds: rows and columns are unbounded naturals. The C++ `int` product `rows * 3` could overflow for more than about 715 million rows, and that is not modelled.
- Utils.GetExtension: `QString::append` of a `char` goes through a character-set conversion. The model copies characters unchanged. Names are assumed shorter than `npos`.
- DipSoftware.HorizontalFlipImage: the pixel element type is abstract. The source allocates the flip with 8-bit pixels while the transforms produce float pixels; only the index reversal is stated. In OpenCV, copying a float column into a column header of an 8-bit image does not write into that image, so the stated reversal describes the source only when the element types of input and result match.
- DipSoftware.ChangeImage: the dialogs are inputs (`ok`, the returned deltas or vertices, the image the preview left). The effect of the push is given by `EditImageCommand::redo`/`undo`. The `QUndoStack` itself is not modelled, and neither is the shared-pointer aliasing of `originMat`.
- These routines are not part of this model: histogram equalisation and specification, median, Gaussian, sharpen and frequency filters, `linearConvert`, `changeImageMat`, and the remaining adjustments (gamma, log, power).
- Qt and I/O plumbing is not modelled: menus, actions other than the crop action, the dialogs, painting, `repaint`, the `valueChanged` signal, `QFileDialog`, `imread`/`imwrite`, `DebugUtils`, `cropImage`, `contextMenuEvent` and `ImgWidget::setImageMat`, which replaces the pixmap item.
- ImgWidgets.EditPixmapItem.MouseMove: event positions are the integers the source stores after truncating `qreal` coordinates. The uninitialised `originX`/`originY` of a new item start at 0.
- DiagramWidgets.DiagramWidget.MousePress: requires the press to lie inside the widget, which Qt guarantees for press events. Coordinates are `real` rather than `float`, and the widget size is positive; the preview dialog fixes it at 300×200.
- DiagramWidgets.DiagramWidget.MouseMove: the list iterator `vertexIt` is an index. An index, unlike a `std::list` iterator, shifts when a vertex is inserted before it. The model is still sound: every press that inserts also reassigns `vertexIt` (DiagramWidget.cpp:52-53), and under `Valid()` a press never misses, so a stale index is never used.
- ImgWidgets.ImgWidget.constructor: the model's widget owns one pixmap item from construction, while the source starts with `pixmapItem = nullptr` (ImgWidget.cpp:65), and `setImageMat` (ImgWidget.cpp:85-101) replaces the item on every image change without touching `rectItem`. The single `pixmapItem` stands for the current item after the first `setImageMat`.
