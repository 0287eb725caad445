# Whole-slide image viewer: verified model of its computational core

This project models, in Dafny, the parts of `wsi_viewer.py` that compute rather
than draw:

- the bounded least-recently-used tile cache `LRUCache`;
- the visible-tile enumeration `TileManager.get_tile_coordinates`;
- the choice of pyramid level when a slide is opened and when it is saved;
- the zoom clamp of `set_zoom` and the zoom buttons that call it;
- the red overlay box that `update_thumbnail_box` draws on the thumbnail;
- the grouping of slide properties by vendor, in `display_metadata` and in
  `generate_metadata_text`, and the sorted listing of the text export;
- the image format chosen from the save dialog's filter string.

Modules, one per piece:

- `Lru` is a class. It has the dictionary `cache` and the recency list `order` as
  fields, and its methods update them the way the Python methods do. Two ghost
  fields give "least recently used" a meaning: a `clock` counting read hits and successful writes,
  and `lastUse`, the clock value of each key's last use. `Valid()` says that `order`
  lists exactly the keys of `cache`, once each, in increasing `lastUse`, and that
  there are at most `capacity` of them.
- `TileGrid` keeps the two nested loops. It proves which tiles they produce:
  membership, row-major order, no duplicates, the count, and when the result is empty.
- `LevelSelect` models Python's `min(range(n), key=...)` as a running argmin. It
  proves that this is the first closest level.
- `ViewGeometry` computes with exact reals.
- `Metadata` keeps the grouping loop. The loop is proved against two reference
  functions: the first-seen vendor order and the per-vendor filter. `Sorting` stands
  in for `sorted()` with an insertion sort under Python's string order.
- `SaveFormat` models the `in` cascade over the filter string.
- `Seqs` and `Wrappers` hold the shared list helpers and `Option`.

Python exceptions become `None` or a `false` result:

| exception | where | model |
|---|---|---|
| `KeyError` | read of an absent key | `Get` returns `None` |
| `IndexError` | cache with no room at all | `Set` returns `false` |
| `ValueError` | `min` over an empty level list | `ClosestLevel` returns `None` |
| `ZeroDivisionError` | slide dimension of 0 | `ScaledBox` returns `None` |

The model follows what the code does, including where one might expect otherwise:

- The code never checks that the cache capacity is at least 1. With a capacity below
  1, `Set` of a new key fails (the `IndexError` above) and nothing changes.
- Coverage of the level is not complete. The end index `int((x + w) // ts) + 1` does
  include the tile under the view's far edge, but the clip `level_size // tile_size`
  counts whole tiles of the level only. So a partial tile at the right or bottom edge
  of a level is never listed (`TileGrid.PartialEdgeTileDropped`). Coverage holds only
  inside the whole-tile part of the level (`TileGrid.PixelCovered`).
- Only `set_zoom` clamps the zoom factor. `fitInView` stores `transform.m11()`
  unclamped at lines 715, 993 and 1027.
- The minimum box size does not always keep the overlay visible. A side is raised to
  5 only when it lies strictly between 0 and 5. A box whose clamped side is 0 or
  negative is not drawn at all (`ViewGeometry.DrawnIffClampedPositive`). The raise to
  5 can push the box up to 5 pixels past the thumbnail edge, which the clamp above
  it had prevented (`ViewGeometry.MinimumSizeOvershootExample`).
- The code has no background scheduler, no generation counter and no set of pending
  requests. The level is decoded synchronously.

## Model

| member | source | states |
|---|---|---|
| Lru.LruCache.constructor | wsi_viewer.py:23-26 | a new cache is empty (dictionary and recency list) and satisfies the invariant |
| Lru.LruCache.Get | wsi_viewer.py:28-34 | a hit returns the stored value, leaves the dictionary unchanged, moves the key to the back of `order` and stamps it as the most recent use; a miss returns `None` and changes nothing |
| Lru.LruCache.Set | wsi_viewer.py:36-46 | the write succeeds exactly when the key is present or the capacity is at least 1; afterwards the key maps to the value and the size is at most the capacity; an existing key is only replaced and moved to the back, without eviction; a new key with room is appended; a new key at capacity evicts exactly `order[0]`, the key whose last use is the oldest, and keeps the other keys in their relative order; a failed write changes nothing; the invariant is kept |
| Lru.LruCache.Contains | wsi_viewer.py:48-49 | `key in cache` holds exactly when the key is in the recency list |
| Lru.LruCache.Len | wsi_viewer.py:51-52 | the size equals the length of the recency list and never exceeds the capacity (a cache that never admitted a key is empty) |
| Lru.LruCache.Clear | wsi_viewer.py:54-56 | dictionary and recency list are both emptied, and the invariant holds |
| Lru.LruCache.Pop | wsi_viewer.py:58-62 | a present key is removed from both the dictionary and the list and its value returned; an absent key returns the default with no change; no use is recorded |
| Lru.LruCache.Items | wsi_viewer.py:64-65 | the entries returned have exactly the listed keys and the stored values |
| Lru.StampedDistinct | wsi_viewer.py:36-46 | a recency list ordered by strictly increasing last use names each key once |
| Lru.HeadIsLeastRecent | wsi_viewer.py:39-41 | the head of the recency list is the cached key used least recently |
| Lru.StampedAfterRemove | wsi_viewer.py:31 | `order.remove(key)` keeps the remaining keys in recency order |
| Lru.StampedAfterAppend | wsi_viewer.py:32 | appending a key just used keeps the list in recency order |
| Lru.InvariantAfterTouch | wsi_viewer.py:28-46 | re-using a present key (read hit or overwrite: remove, then append) keeps the invariant |
| Lru.InvariantAfterInsert | wsi_viewer.py:36-46 | adding a new key while there is room keeps the invariant and the capacity bound |
| Lru.InvariantAfterEvict | wsi_viewer.py:40-46 | popping `order[0]`, deleting it and adding a new key keeps the invariant and the size |
| Lru.InvariantAfterRemove | wsi_viewer.py:58-62 | removing a present key from both structures keeps the invariant |
| Lru.InvariantSize | wsi_viewer.py:51-52 | the dictionary has one entry per listed key |
| Lru.AddNew | wsi_viewer.py:36-46 | writing an absent key while there is room appends it to the recency list |
| Lru.FilledCache | wsi_viewer.py:23-46 | a capacity-3 cache after writing A, B and C lists them in that order |
| Lru.ReadA | wsi_viewer.py:28-34 | reading A from that cache makes the order B, C, A |
| Lru.WriteD | wsi_viewer.py:36-46 | then writing D evicts B and makes the order C, A, D |
| Seqs.IndexOf | wsi_viewer.py:31 | the position `list.remove` uses: the first occurrence of the element |
| Seqs.RemoveFirst | wsi_viewer.py:31 | Python `order.remove(key)`, also at lines 39 and 60: the list loses exactly one copy of the element and keeps everything else (length one less, multiset minus the element); `IndexOf` fixes the removed position as the first occurrence, and `RemoveFirstDistinct` gives the members left in a list without repetitions |
| Seqs.RemovedMember | wsi_viewer.py:31 | cutting one position out of a list without repetitions removes that element and keeps every other |
| Seqs.RemoveFirstDistinct | wsi_viewer.py:31 | in a list without repetitions, `remove(x)` leaves exactly the other elements, still without repetitions |
| Seqs.MapSizeFromDistinctList | wsi_viewer.py:51-52 | a dictionary whose keys are listed once each by a list has as many entries as the list |
| TileGrid.FloorDiv | wsi_viewer.py:151-154 | Python `int(v // ts)` on a float: the index `q` of the tile holding `v`, with `q * ts <= v < (q + 1) * ts` |
| TileGrid.StartIndex | wsi_viewer.py:151-152 | `max(0, int(v // ts))`; `TileCoordinates` states it as the lower end of the listed range and `PixelCovered` shows that the view's first point lies at or above it |
| TileGrid.EndIndex | wsi_viewer.py:153-154 | `min(L // ts, int((v + w) // ts) + 1)`; `TileCoordinates` states it as the exclusive upper end of the listed range, `PixelCovered` shows it is past every spanned point of the whole-tile part, and `PartialEdgeTileDropped` shows the clip at the level's partial tile |
| TileGrid.TileCoordinates | wsi_viewer.py:145-160 | a tile is listed exactly when its column lies in `[max(0, x // ts), min(W // ts, (x + w) // ts + 1))` and its row in the same range for y; the list is in row-major order, has no duplicates, has the product of the two range widths as length, and is empty exactly when one end is not above its start |
| TileGrid.Enumerate | wsi_viewer.py:156-158 | the nested loops list exactly the index rectangle `[startX, endX) x [startY, endY)`, row-major, once each, and nothing when either range is empty |
| TileGrid.AppendRow | wsi_viewer.py:157-158 | the inner loop appends row `y`, columns `startX` up to `endX`, behind the rows already listed, in order |
| TileGrid.PixelCovered | wsi_viewer.py:151-154 | a point the view spans (real coordinates, as in a `QRectF`) that lies in a whole tile of the level falls in a listed column or row |
| TileGrid.PartialEdgeTileDropped | wsi_viewer.py:153 | on a 1000-pixel level with 512-pixel tiles, a full-width view lists column 0 only, so pixel 600 is in no listed tile |
| LevelSelect.Distance | wsi_viewer.py:621-622 | the `key` of the `min`, `abs(downsamples[i] - ideal)`, also at lines 1066-1067: a non-negative distance equal to the difference taken one way or the other; `FirstClosest` and `ArgminPrefix` minimise it |
| LevelSelect.ArgminPrefix | wsi_viewer.py:621-622 | the running minimum over the first `n` levels is a closest level among them and no lower level is as close (ties go to the lower index) |
| LevelSelect.ClosestLevel | wsi_viewer.py:620-622 | no level exists exactly when the level list is empty; otherwise the result is the first level whose downsample is closest to the ideal |
| LevelSelect.FirstClosestUnique | wsi_viewer.py:621-622 | the first closest level is unique, so the selection is fully determined by the criterion |
| LevelSelect.SingleLevel | wsi_viewer.py:621-622 | a single-level slide always selects level 0 |
| LevelSelect.SaveLevel | wsi_viewer.py:1059-1067 | no level exists exactly when the level list is empty; otherwise the saved level is the first level closest to the saving ideal: 1.0 within the 2048 x 2048 budget, else the given square root (line 1062) |
| LevelSelect.FullResolutionWhenSmall | wsi_viewer.py:1066-1067 | with level 0 at downsample 1 and no finer level, an ideal of at most 1 selects level 0 |
| LevelSelect.SmallSlideSavedAtFullResolution | wsi_viewer.py:1060-1067 | a slide within the saving budget is saved from level 0 |
| LevelSelect.OpeningLevelExample | wsi_viewer.py:613-622 | a 100000 x 80000 slide with downsamples 1, 4, 16, 64, 256 opens at level 3 |
| ViewGeometry.ClampZoom | wsi_viewer.py:944 | the stored factor lies in `[0.01, 10.0]`, equals the request inside that range and the nearer bound outside it |
| ViewGeometry.ClampZoomIdempotent | wsi_viewer.py:944 | clamping a clamped factor changes nothing |
| ViewGeometry.ClampZoomMonotone | wsi_viewer.py:944 | a larger request never yields a smaller factor |
| ViewGeometry.SetZoom | wsi_viewer.py:939-955 | with a slide loaded and the window open the stored factor is the clamped request; otherwise it stays as it was |
| ViewGeometry.ZoomOutUndoesZoomIn | wsi_viewer.py:925-937 | zooming out after zooming in restores the factor while the range bounds are not reached |
| ViewGeometry.ZoomInGrows | wsi_viewer.py:925-930 | zooming in from inside the range never lowers the factor and stays in range |
| ViewGeometry.ZoomIn | wsi_viewer.py:925-930 | when active, the new factor lies in the zoom range and is 1.2 times the old one whenever that product is in range; when closing or without a slide nothing changes; `ZoomInGrows` and `ZoomOutUndoesZoomIn` relate it to the current factor and to `ZoomOut` |
| ViewGeometry.ZoomOut | wsi_viewer.py:932-937 | when active, the new factor lies in the zoom range and is the old one divided by 1.2 whenever that quotient is in range; otherwise nothing changes; `ZoomOutUndoesZoomIn` shows it undoes `ZoomIn` away from the bounds |
| ViewGeometry.ToLevel0 | wsi_viewer.py:818-821 | the view in level-0 units, each coordinate times the level downsample; `InsideViewUnclamped` shows that a level-0 view inside the slide maps inside the thumbnail |
| ViewGeometry.ScaledBox | wsi_viewer.py:818-831 | the box cannot be computed exactly when a slide dimension is 0 (division by zero) |
| ViewGeometry.ClampBox | wsi_viewer.py:834-837 | after the clamps the corner lies on the thumbnail and the far edges do not pass it; a corner already on the thumbnail is kept, one before it moves to 0 and one past it moves to the far edge, on each axis; a side is only ever shortened, and only to end at the edge |
| ViewGeometry.EnforceMinSize | wsi_viewer.py:840-844 | a side strictly between 0 and 5 becomes 5, every other side and the corner stay; afterwards no side is strictly between 0 and 5 and positivity of each side is unchanged |
| ViewGeometry.OverlayBox | wsi_viewer.py:824-844 | the adjusted box exists exactly when both slide dimensions are non-zero; its corner lies on the thumbnail and no side is strictly between 0 and 5; `OverlayBounds` bounds how far its far edges can pass the thumbnail |
| ViewGeometry.Trunc | wsi_viewer.py:850 | Python `int()` on a float truncates toward zero: a non-negative value keeps its whole part, a negative one rounds up |
| ViewGeometry.DrawnRect | wsi_viewer.py:847-850 | a drawn rectangle has its corner on the thumbnail and both sides at least 5 pixels |
| ViewGeometry.OverlayBounds | wsi_viewer.py:833-844 | the final box has its corner on the thumbnail; a far edge passes the thumbnail only where that side was raised to 5, and by less than 5 |
| ViewGeometry.DrawnIffClampedPositive | wsi_viewer.py:833-847 | the box is drawn exactly when the slide has non-zero dimensions and both clamped sides are positive |
| ViewGeometry.InsideViewUnclamped | wsi_viewer.py:817-837 | when the level-0 view lies inside the slide, the scaled box lies inside the thumbnail and the clamps leave it as it is |
| ViewGeometry.ClampInside | wsi_viewer.py:834-837 | a box already inside the thumbnail is unchanged by the clamps |
| ViewGeometry.ScaleInside | wsi_viewer.py:824-831 | scaling an interval of the slide by thumbnail size over slide size lands inside the thumbnail |
| ViewGeometry.MinimumSizeOvershootExample | wsi_viewer.py:840-844 | a 1-pixel view 2 pixels from the right edge of a 190-pixel thumbnail is drawn 5 pixels wide, 3 pixels past the edge |
| Sorting.StrLe | wsi_viewer.py:1221 | Python `<=` on `str`, code point by code point with a proper prefix first; `StrLeIsOrder` proves it a total order |
| Sorting.PairLe | wsi_viewer.py:1223 | Python `<=` on a `(key, value)` tuple, by key and then by value; `PairLeIsOrder` proves it a total order |
| Sorting.SortedHeadLeast | wsi_viewer.py:1221-1223 | the head of a list sorted under a total, transitive order is at most every element |
| Sorting.SortedPermutationUnique | wsi_viewer.py:1221-1223 | under a total, antisymmetric, transitive order two sorted permutations of the same list are equal |
| Sorting.SortIsTheSortedPermutation | wsi_viewer.py:1221-1223 | every sorted permutation of a list is `Sort` of it, so the insertion sort returns what `sorted()` returns |
| Sorting.StrLeTransitive | wsi_viewer.py:1221 | the string order is transitive |
| Sorting.StrLeIsOrder | wsi_viewer.py:1221 | the string order is total, antisymmetric and transitive |
| Sorting.PairLeIsOrder | wsi_viewer.py:1223 | the tuple order is total, antisymmetric and transitive |
| Sorting.Insert | wsi_viewer.py:1221-1223 | inserting into a sorted list gives a sorted list with the element added |
| Sorting.Sort | wsi_viewer.py:1221-1223 | `sorted()` returns an ordered permutation of its input |
| Sorting.StrLeTotal | wsi_viewer.py:1221 | Python's string order relates every two strings |
| Sorting.StrLeAntisymmetric | wsi_viewer.py:1221 | two strings each at most the other are equal |
| Sorting.StrLeIsTotal | wsi_viewer.py:1221 | the string order is total |
| Sorting.PairLeIsTotal | wsi_viewer.py:1223 | the `(key, value)` tuple order is total |
| Metadata.VendorOf | wsi_viewer.py:409 | a dotted key's vendor is its text before the first dot; a key without a dot belongs to "Other" |
| Metadata.VendorOfQualified | wsi_viewer.py:409 | `vendor.rest` belongs to `vendor` when `vendor` has no dot |
| Metadata.VendorOrder | wsi_viewer.py:407-411 | the key order of `vendor_props`: the vendors in first-seen order; `VendorOrderDistinct` shows each once, `VendorListed` and `ListedIffNonEmpty` show exactly the vendors that occur |
| Metadata.Filter | wsi_viewer.py:412 | the list `vendor_props[vendor]`: that vendor's properties in input order; `FilterMembers` gives its members, `ExactlyOneGroup` and `GroupSizesTotal` show the groups partition the properties |
| Metadata.GroupByVendor | wsi_viewer.py:407-412 | the loop lists the vendors in first-seen order, has a group for exactly the listed vendors, and each group holds that vendor's properties in input order |
| Metadata.GroupStep | wsi_viewer.py:410-412 | one iteration creates the group of a new vendor and appends the property to its own vendor's group only |
| Metadata.VendorOrderDistinct | wsi_viewer.py:410-411 | each vendor appears once in the dictionary's key order |
| Metadata.FilterSnoc | wsi_viewer.py:412 | appending a property extends exactly its own vendor's group |
| Metadata.ListedIffNonEmpty | wsi_viewer.py:410-412 | a vendor is listed exactly when its group is not empty |
| Metadata.VendorListed | wsi_viewer.py:409-411 | the vendor of every property is listed |
| Metadata.FilterMembers | wsi_viewer.py:412 | a group holds exactly the properties of that vendor |
| Metadata.ExactlyOneGroup | wsi_viewer.py:408-412 | every property lies in the group of its own vendor and in no other: the groups partition the properties |
| Metadata.GroupSizesTotal | wsi_viewer.py:408-412 | the group sizes add up to the number of properties |
| Metadata.GroupSizesAppend | wsi_viewer.py:412 | appending a property grows the total over distinct vendors by one exactly when its vendor is among them |
| Metadata.GroupSizesSnoc | wsi_viewer.py:410-411 | listing one more vendor adds its group's size |
| Metadata.ListGroups | wsi_viewer.py:1221-1224 | one entry per vendor in the given order, each group sorted by key then value and a permutation of the vendor's properties |
| Metadata.SortedListing | wsi_viewer.py:1221-1224 | the export lists the given vendors, with their multiplicities, in string order; each has a group, its properties are sorted by key then value, and none is lost or added |
| Metadata.PermutationKeepsGroups | wsi_viewer.py:1221 | sorting the vendors keeps only vendors that have a group |
| Metadata.ListingOfSorted | wsi_viewer.py:1221 | listing vendors that are already in string order keeps that order |
| Metadata.ListingStrictlyOrdered | wsi_viewer.py:1221 | for the distinct vendors the grouping produces, the exported names strictly increase |
| SaveFormat.FormatFromFilter | wsi_viewer.py:1132-1141 | the chosen format is named in the filter, or PNG when the filter names none; the cascade checks every other format the filter names after it |
| SaveFormat.Occurs | wsi_viewer.py:1132-1138 | Python `name in selected_filter`: the name occurs at some index of the filter, case-sensitive; `LeadingOccurrence` and `AbsentCharacter` decide it for the dialog's filters |
| SaveFormat.SoleNameSelects | wsi_viewer.py:1132-1141 | a filter that names exactly one format selects it |
| SaveFormat.AbsentCharacter | wsi_viewer.py:1132 | a name holding a character the filter lacks does not occur in it |
| SaveFormat.LeadingOccurrence | wsi_viewer.py:1132 | a filter that starts with a name contains it |
| SaveFormat.PngFilterSelectsPng | wsi_viewer.py:1127-1133 | the dialog's PNG filter selects PNG |
| SaveFormat.JpegFilterSelectsJpeg | wsi_viewer.py:1127-1135 | the dialog's JPEG filter selects JPEG |
| SaveFormat.BmpFilterSelectsBmp | wsi_viewer.py:1127-1137 | the dialog's BMP filter selects BMP |
| SaveFormat.TiffFilterSelectsTiff | wsi_viewer.py:1127-1139 | the dialog's TIFF filter selects TIFF |
| SaveFormat.AllFilesFilterSelectsPng | wsi_viewer.py:1127-1141 | "All Files" falls back to PNG |
| SaveFormat.ExtensionAloneIsIgnored | wsi_viewer.py:1132-1141 | the match is case-sensitive on the capitalised name: a lower-case extension alone selects nothing and gives PNG |

`Lru.EvictionScenario` chains `FilledCache`, `ReadA` and `WriteD`. It then checks
that B is no longer cached and A still is.

## Left out

- Qt widgets, dialogs, the painter and the scene are inputs, not code here. The view
  rectangle, thumbnail size, zoom factor, filter string and "slide loaded / window
  closing" flag are parameters.
- OpenSlide calls (`dimensions`, `level_downsamples`, `properties`, `read_region`) are
  external decoding. Their results are parameters.
- `TileLoader` and `TileManager.clear` are left out. They exist for threads and
  cancellation flags.
- `add_tile_to_queue` and `clean_invisible_tiles` are left out. They are stubs with
  `pass` bodies.
- The `** 0.5` of the ideal downsample (lines 617 and 1062) is left out as floating
  point. The ideal, or its square root for saving, is an input.
- Floating-point rounding is not modelled. Zoom factors and overlay coordinates are
  exact reals, so `ViewGeometry.ZoomOutUndoesZoomIn` holds in the model while
  `(z * 1.2) / 1.2` may differ slightly from `z` in floats.
- The `int()` truncation of the drawn rectangle is modelled (`Trunc`). The pixel
  effect of drawing is not.
- File writing, timestamps and text layout are output, not logic. This covers
  `save_thumbnail`, `save_metadata`, the `f"..."` export text and the
  `key.split('.')[-1]` display names.
- The stability of `sorted()` is not modelled. It cannot be observed here.
  `Sorting.Sort` is an insertion sort. The string order and the tuple order are total,
  antisymmetric and transitive (`Sorting.StrLeIsOrder`, `Sorting.PairLeIsOrder`). Under
  such an order a list has only one sorted permutation
  (`Sorting.SortIsTheSortedPermutation`), so any correct sort, `sorted()` included,
  returns the same list.
- The order of `items()` is left out. `Lru.LruCache.Items` returns a map; Python's `dict.items()` lists keys in dictionary insertion order, which an overwrite keeps (line 45) and which is not the recency order. Nothing in `wsi_viewer.py` calls `items()` on the cache, so no behaviour depends on it.
- `pop`'s `default=None` is an explicit argument. Dafny has no `None` of an arbitrary value type.
- The guard of `update_thumbnail_box` (no slide, no thumbnail, window closing) is left out. It returns before any box is computed. So is the printed message of its `except` branch; the model gives `None` where that branch is taken.
- Concurrent access to the cache is not modelled. The model's methods run one at a time.
- The code has no background scheduler, no deduplicated pending requests and no
  generation counter, so the model has none either.
- The zoom factor that `fitInView` stores (lines 715, 993 and 1027) is left out. It is
  a value Qt returns, and the code does not clamp it.
- Non-positive tile edges are left out. `TileGrid.TileCoordinates` requires a positive
  edge. The code never checks the edge: `TileManager.__init__` defaults it to 512
  (line 138), and Python's `//` would also accept a negative divisor.
