# StackedSlider: thumbs to category ranges

This project models the logic of gradio's `StackedSlider` component, a slider
over the fixed axis 0-100 whose movable thumbs split the axis into contiguous,
labelled categories. Three things are modelled:

- **Postprocessing** (`postprocess`): a list of thumb positions becomes the list of
  category ranges `(start, end)`. The caller's list is sorted ascending in place.
  Then 0 is put in front and 100 at the end, and every position is paired with
  the next one. The list is an `array<real>`, so the in-place sort is a visible
  side effect (`StackedSlider.Postprocess`). The pairing loop is
  `StackedSlider.PairNeighbours`. The meaning of the result is the reference
  function `RangePartition.Partition`. The meaning of the sort is
  `ThumbOrder.SortedOf`.
- **The default layout** (`get_random_values`): `n - 1` evenly spaced integer
  thumbs for `n` category labels (`DefaultLayout.GetRandomValues`). Thumb `i` is
  `DefaultLayout.EvenThumb(n, i)`, that is `((i + 1) * 100) / n`, truncated. With no labels the source divides by zero;
  the model returns `Err(ZeroDivisionError)`.
- **Construction**: the constructor's effect on the fields `values`,
  `cleared_value` and `test_input` (`StackedSlider.constructor`). `test_input`
  is the caller's own list object, which the constructor has just sorted.

Modules: `ThumbOrder` (thumb_order.dfy), `RangePartition` (range_partition.dfy),
`DefaultLayout` (default_layout.dfy), and `StackedSliderComponent`
(stacked_slider.dfy). The last one holds the class and the lemmas that relate
the parts.

Behaviour of the code that its comments or a reader might not expect:

- Default thumbs are truncated by `int(...)`, although the comment on
  gradio/components/stacked_slider.py:76 speaks of rounding. Three labels give
  `[33, 66]`, not `[33, 67]` (`GetRandomValuesTruncates`).
- `postprocess` mutates the caller's list: it sorts it in place.
- Up to 101 labels the default thumbs strictly increase (`GetRandomValuesLayout`); with 101 labels they
  are 0, 1, ..., 99 (`GetRandomValuesHundredOne`). From 102 labels on, some
  thumbs can repeat: with 102 labels thumbs 50 and 51 are both 50
  (`GetRandomValuesHundredTwo`). From 201 labels on, the first two thumbs are
  both 0 (`GetRandomValuesDuplicates`). A default thumb lies in [0, 100).
- With no labels the failure is the division's own `ZeroDivisionError`.
- Nothing clamps or rejects thumbs outside [0, 100], although the docstring says
  the value is set "as long as it is within range"
  (gradio/components/stacked_slider.py:30). A thumb at 150 yields a last range
  `(150, 100)` (`PartitionDoesNotClamp`). The well-formedness of the ranges is
  proved only for thumbs on the axis.

## Model

| member | source | states |
|---|---|---|
| `StackedSliderComponent.StackedSlider.Postprocess` | gradio/components/stacked_slider.py:94-111 | the caller's list is left as the ascending arrangement of its old contents (sorted, same multiset); the result is `Partition` of the sorted list, has one range more than there are thumbs, starts at 0, ends at 100, and each range ends where the next starts |
| `StackedSliderComponent.StackedSlider.PairNeighbours` | gradio/components/stacked_slider.py:104-109 | the loop emits exactly the ranges `(p[i], p[i+1])` of neighbouring positions, in order (the recursive reference `Adjacent`) |
| `StackedSliderComponent.StackedSlider.constructor` | gradio/components/stacked_slider.py:54-56 | `values` is the partition of the sorted initial thumbs, `cleared_value` is `[0, 10]`, `test_input` is the caller's list object itself, now sorted and a permutation of what was passed |
| `ThumbOrder.SortInPlace` | gradio/components/stacked_slider.py:102 | after the in-place sort the list is ascending, is a permutation of the old list, and equals `SortedOf` of it |
| `ThumbOrder.SortedOf` | gradio/components/stacked_slider.py:102 | the reference arrangement is ascending and has the same multiset of elements as its input |
| `ThumbOrder.SortedUnique` | gradio/components/stacked_slider.py:102 | two ascending sequences with the same elements are equal, so the sorted list is determined by its elements alone |
| `ThumbOrder.SortedOfPermutation` | gradio/components/stacked_slider.py:102 | inputs with the same elements, in any order, sort to the same list |
| `ThumbOrder.SortedOfSorted` | gradio/components/stacked_slider.py:102 | sorting an ascending list leaves it unchanged |
| `RangePartition.PartitionAt` | gradio/components/stacked_slider.py:103-109 | range i runs from the i-th to the (i+1)-th position of `[0] + thumbs + [100]` |
| `RangePartition.PartitionCount` | gradio/components/stacked_slider.py:103-109 | k thumbs give k + 1 ranges |
| `RangePartition.PartitionOfNoThumbs` | gradio/components/stacked_slider.py:103-109 | no thumbs give the single range `(0, 100)` |
| `RangePartition.PartitionCoversAxis` | gradio/components/stacked_slider.py:103 | the first range starts at 0 and the last ends at 100, for any thumbs |
| `RangePartition.PartitionContiguous` | gradio/components/stacked_slider.py:106-109 | each range ends where the next one starts, and the inner boundaries are the thumbs themselves |
| `RangePartition.PartitionWellFormed` | gradio/components/stacked_slider.py:102-109 | for ascending thumbs on the axis every range lies in [0, 100] with start <= end, and ranges are ordered by start |
| `RangePartition.PartitionDoesNotClamp` | gradio/components/stacked_slider.py:103-109 | a thumb at 150 is kept, giving the inverted last range `(150, 100)` |
| `StackedSliderComponent.PostprocessOrderInsensitive` | gradio/components/stacked_slider.py:102-111 | any two thumb lists with the same elements, whatever their order, give the same ranges |
| `StackedSliderComponent.PostprocessWellFormed` | gradio/components/stacked_slider.py:102-109 | thumbs on the axis, in any order, give ranges that lie on the axis with start <= end, ordered by start |
| `StackedSliderComponent.PostprocessUnorderedExample` | gradio/components/stacked_slider.py:102-111 | thumbs `[b, a, c]` with a <= b <= c (such as `[30, 10, 70]`) give `[(0, a), (a, b), (b, c), (c, 100)]` |
| `StackedSliderComponent.PostprocessSingleThumbExample` | gradio/components/stacked_slider.py:103-109 | one thumb x (such as 50) gives `[(0, x), (x, 100)]` |
| `StackedSliderComponent.DefaultLayoutPartition` | gradio/components/stacked_slider.py:72-77 | the default layout is already ascending (postprocessing does not reorder it) and yields exactly one range per category label, each with start <= end |
| `DefaultLayout.GetRandomValues` | gradio/components/stacked_slider.py:72-77 | it fails exactly when there are no labels; otherwise it gives one thumb fewer than there are labels |
| `DefaultLayout.GetRandomValuesLayout` | gradio/components/stacked_slider.py:74-76 | thumb i is `((i + 1) * 100) / n`, lies in [0, 100), the thumbs never decrease, and they strictly increase when n <= 101 |
| `DefaultLayout.EvenThumbBounds` | gradio/components/stacked_slider.py:76 | each default thumb lies in [0, 100) |
| `DefaultLayout.EvenThumbMonotone` | gradio/components/stacked_slider.py:76 | a later default thumb is never smaller than an earlier one |
| `DefaultLayout.EvenThumbStrict` | gradio/components/stacked_slider.py:76 | with at most 100 categories a later default thumb is strictly larger |
| `DefaultLayout.GetRandomValuesOneCategory` | gradio/components/stacked_slider.py:73-76 | one label gives no thumbs |
| `DefaultLayout.GetRandomValuesTruncates` | gradio/components/stacked_slider.py:76 | three labels give `[33, 66]`: truncation, not rounding |
| `DefaultLayout.GetRandomValuesFourCategories` | gradio/components/stacked_slider.py:74-76 | four labels give `[25, 50, 75]` |
| `DefaultLayout.GetRandomValuesDuplicates` | gradio/components/stacked_slider.py:76 | with 201 or more labels the first two thumbs are both 0 |
| `DefaultLayout.GetRandomValuesHundredOne` | gradio/components/stacked_slider.py:74-76 | with 101 labels the thumbs are exactly 0, 1, ..., 99, so they still strictly increase |
| `DefaultLayout.GetRandomValuesHundredTwo` | gradio/components/stacked_slider.py:74-76 | with 102 labels thumbs 50 and 51 are both 50, so the thumbs no longer strictly increase |

## Left out

- `IOComponent.__init__`, `get_config`, the static `update` and the
  `Changeable`/`Inputable`/`Releaseable` mixins are framework registration,
  serialisation and event wiring. They are defined elsewhere and are not part
  of this model. The same goes for the documentation decorators and
  `set_documentation_group`.
- `category_labels` is stored by `IOComponent.__init__`, which is not part of
  this model. `GetRandomValues` therefore takes the labels as a parameter
  instead of reading an attribute.
- The `Callable` and `None` forms of the constructor's `values`. The model
  takes a concrete list. `postprocess(None)` would fail on `.sort()`.
- Floating point: thumbs are exact reals. `100 / n_categories` followed by
  `int(...)` is modelled as the exact integer quotient `((i + 1) * 100) / n`.
  IEEE rounding of the intermediate float is not modelled. NaN thumbs, which
  Python's sort does not order, are not modelled.
- The mix of Python `int` and `float`: the range boundaries 0 and 100 are `int`
  in the source and `0.0`/`100.0` here. The reset value `cleared_value` is the
  `int` list `[0, 10]` in the source and `[0.0, 10.0]` here, as a list of thumb
  positions. Integer default thumbs are converted to reals (`AsPositions`) before
  they are partitioned.
- The sorting algorithm of Python's `list.sort` (Timsort) is not modelled,
  only its effect. `SortInPlace` is an insertion sort proved to have that
  effect. Stability is unobservable on reals, so it is not stated.
- The `ranges` list computed and never used in `get_random_values`
  (gradio/components/stacked_slider.py:75), and the unused `math` and `random`
  imports.
