# Poll dashboard core, modelled in Dafny

The dashboard reads a sheet of poll results: one row per pollster ("Encuestadora"),
period ("Periodo"), candidate ("Candidato") and value ("Valor"). It indexes the rows into
one series per pollster. A series holds the pollster's periods in first-seen order and,
per candidate, an array of values indexed by period, with holes. Three views are derived
from the index:

- the ranking of one pollster: each candidate's last value and its trend, highest first;
- the evolution chart of one pollster: one point per period;
- the comparison across pollsters: one row per selected candidate, sorted by mean.

A candidate selection is toggled by buttons. When the data arrives, it defaults to the
first five candidates met.

The project has these modules:

- `Seqs` and `Sorting` (`seqs.dfy`) stand for the array built-ins the code uses:
  - `indexOf`, the first-seen de-duplication of a `Set`, `map` + `filter`;
  - a stable descending sort, which is what `Array.prototype.sort` with a consistent
    comparator produces.
- `Rows` (`rows.dfy`) covers the per-row trim and the rejection test.
- `Indexer` (`indexer.dfy`) is the index:
  - the pure fold `Index` states what it is;
  - the class `Accumulator` updates it in place, as the code's `processed` object;
  - the method `IndexRows` loops over the rows and is proved equal to `Index`.
- `Views` (`views.dfy`) holds the ranking, evolution and comparison. The plain objects
  the views build are maps from keys to a label or a possibly absent number.
- `Selection` (`selection.dfy`) holds the toggle and the initial-selection effect. The
  effect is a method with the code's nested loops filling a set.
- `Scenario` (`scenario.dfy`) is a worked example with pollster DATUM. It proves the
  index, ranking, evolution and comparison of three rows, and that a row whose value
  reads "abc" is dropped.

Points where the code's behaviour is easy to misread:

- **Ranking ties.** `b.value - a.value` under the stable `Array.prototype.sort` keeps
  equal values in their original order. The model proves non-strict descending order
  and stability (`Views.RankingTiesKeepOrder`).
- **Holes in evolution points.** `point[candidate] = data.data[candidate][idx]` creates
  the key even when the entry is a hole. The model keeps it as `Number(None)`
  (`Views.PointSpec`).
- **Key collisions.** A selected candidate named `name` overwrites an evolution point's
  label, and a pollster named `candidate` overwrites a comparison row's name. Both
  happen in the code as written and are modelled as such.

## Model

| member | source | states |
|---|---|---|
| Seqs.IndexOf | src/App.jsx:118 | -1 exactly when the element is absent; otherwise a slot holding it with no earlier occurrence |
| Seqs.AppendNew | src/App.jsx:110-112 | a period is appended only when not already listed; the list stays free of duplicates |
| Seqs.Dedup | src/App.jsx:478-482 | the set holds exactly the elements met, none twice |
| Seqs.DedupFirstSeen | src/App.jsx:478-482 | the set lists its elements in the order of their first occurrence |
| Sorting.SortDesc | src/App.jsx:227 | the sort yields a descending permutation of its input |
| Sorting.SortDescStable | src/App.jsx:227 | elements with equal keys keep their input order |
| Rows.TrimSpec | src/App.jsx:94-96 | trimming removes exactly the leading and trailing whitespace and keeps the middle |
| Rows.Normalize | src/App.jsx:94-99 | a row is accepted iff pollster, period and candidate are non-blank after trimming and the value parses; the accepted row carries the trimmed fields and the parsed value |
| Indexer.Put | src/App.jsx:119 | writing past the end pads with holes; only the written slot changes and it holds the value |
| Indexer.AddToSeriesValid | src/App.jsx:101-119 | adding a row keeps a series valid: distinct periods and candidates, no array longer than the periods |
| Indexer.AddToSeriesSlot | src/App.jsx:118-119 | after a row, its period and candidate read its value and every other slot is unchanged |
| Indexer.AddRowWellFormed | src/App.jsx:101-119 | adding a row keeps the whole index well formed |
| Indexer.AddRowWritesOneSlot | src/App.jsx:118-119 | a row changes exactly one slot of the index; every other lookup is unchanged |
| Indexer.IndexIsFoldOfAccepted | src/App.jsx:93-99 | indexing the sheet equals folding the accepted rows in order |
| Indexer.RejectedRowIgnored | src/App.jsx:99 | inserting a rejected row anywhere in a sheet leaves the index unchanged |
| Indexer.FoldWellFormed | src/App.jsx:93-120 | an index built from any rows is well formed |
| Indexer.FoldSlotIsLastWrite | src/App.jsx:118-119 | each slot of the index holds the value of the last row for that pollster, period and candidate |
| Indexer.FoldKeysFirstSeen | src/App.jsx:101-108 | the pollsters are the distinct pollsters of the rows in first-seen order |
| Indexer.FoldSeriesFirstSeen | src/App.jsx:110-116 | a pollster's periods and candidates are the distinct ones of its rows in first-seen order |
| Indexer.Accumulator.constructor | src/App.jsx:91 | the accumulator starts empty |
| Indexer.Accumulator.Add | src/App.jsx:101-119 | the in-place update of the accumulator equals the pure step on its old contents |
| Indexer.IndexRows | src/App.jsx:91-120 | the loop over the sheet builds exactly the index of the sheet, which is well formed |
| Views.LastPresentAt | src/App.jsx:213-216 | the last value is the last non-hole; the trend is it minus the previous non-hole, or 0 |
| Views.LastPresentNone | src/App.jsx:213-214 | there is no last value iff the array is all holes |
| Views.Ranking | src/App.jsx:206-228 | the ranking is sorted by value, highest first, and empty for an absent pollster |
| Views.EntriesMember | src/App.jsx:211-226 | an entry is kept iff its candidate has a value, with that last value and its trend |
| Views.RankingSpec | src/App.jsx:207-227 | the ranking holds exactly the candidates with a value, once each, with last value and trend |
| Views.RankingTiesKeepOrder | src/App.jsx:227 | candidates with equal values keep the order of their first row |
| Views.RankingListsEveryCandidate | src/App.jsx:211-226 | on an indexed sheet every candidate of the pollster is ranked, with the value at the end of its array |
| Views.Evolution | src/App.jsx:300-303 | one point per period of the pollster; none when the pollster is absent |
| Views.PointSpec | src/App.jsx:304-309 | a point has `name` plus a key per selected candidate with an array, holding that array's entry (or hole) at its index |
| Views.EvolutionSpec | src/App.jsx:303-311 | point `i` is labelled with period `i` and carries each selected candidate's entry at `i` |
| Views.EvolutionReadsSlot | src/App.jsx:307 | on a well-formed index, the point reads the value stored for its period |
| Views.EvolutionReportsLastWrite | src/App.jsx:307 | on an indexed sheet, the point reports the last row written for that period and candidate |
| Views.Comparison | src/App.jsx:358-371 | one row per selected candidate, a permutation of the unsorted rows, sorted by mean |
| Views.RowOverSpec | src/App.jsx:359-363 | a row has `candidate` plus one key per pollster holding that pollster's last value or null |
| Views.RowForSpec | src/App.jsx:361-362 | each pollster key of a candidate's row holds that pollster's last value for it |
| Views.ComparisonRows | src/App.jsx:358-364 | every selected candidate's row is present and every row belongs to a selected candidate |
| Views.ComparisonTiesKeepOrder | src/App.jsx:365-371 | rows with equal means keep the selection order |
| Views.AverageBounds | src/App.jsx:368-369 | an average lies between a lower and an upper bound of its values |
| Views.MeanBounds | src/App.jsx:366-369 | a row's mean lies between bounds of its present entries |
| Selection.Without | src/App.jsx:186 | the candidate is gone and every other candidate keeps its number of occurrences |
| Selection.WithoutAppend | src/App.jsx:186 | removal keeps the order of what stays |
| Selection.Toggle | src/App.jsx:185-189 | the candidate's membership flips; an unselected candidate is appended at the end; others keep their counts; no duplicate is introduced |
| Selection.ToggleTwiceAbsent | src/App.jsx:185-189 | clicking an unselected candidate twice restores the selection |
| Selection.ToggleTwicePresent | src/App.jsx:185-189 | clicking a selected candidate twice moves it to the end |
| Selection.Take | src/App.jsx:482 | the slice is the prefix of length `n`, or the whole list when it is no longer than `n` |
| Selection.InitialSelection | src/App.jsx:470-483 | the first pollster is chosen when none is; with no selection, the first five distinct candidates are |
| Selection.DefaultCandidatesSpec | src/App.jsx:477-483 | exactly the first min(5, n) of the n distinct candidates met, each of some pollster, in first-seen order, all of them when there are at most five |
| Scenario.SheetIndex | src/App.jsx:93-120 | the DATUM sheet indexes to periods M1, M2 with A = [10, 12] and B = [8] |
| Scenario.MalformedDropped | src/App.jsx:97-99 | a row whose value is "abc" leaves the index unchanged |
| Scenario.SheetRanking | src/App.jsx:206-228 | DATUM ranks A at 12 with trend 2, then B at 8 with trend 0 |
| Scenario.SheetEvolution | src/App.jsx:300-312 | the DATUM points are {M1, A: 10, B: 8} and {M2, A: 12, B: hole} |
| Scenario.SheetComparison | src/App.jsx:355-372 | comparing B and A lists A (12) before B (8) |

## Left out

- Fetching the sheet over HTTP, the error and loading state, and the refetch (src/App.jsx:70-89, 122-141): they are I/O. The model starts from the parsed rows.
- CSV parsing with papaparse (header mapping, empty lines): it is a foreign library. A raw row is a record of four optional strings.
- `parseFloat` is a parameter from strings to an optional real, with `None` for NaN. `Infinity` results cannot be represented. `Scenario.DemoParse` is a digits-only stand-in, used only by the example.
- Floating point: values, trends and means are exact reals, with no rounding and no overflow.
- The `color` of a series, the `party` and `color` of a ranking entry, `getCandidateColor`, and the colour and party tables: presentation only.
- `toFixed`, bar widths, labels and the rest of the rendering, React state, hooks and `useMemo`: presentation only.
- The views before the data has loaded (`pollData` null, which gives an empty view): the model takes a loaded index.
- A ranking with no pollster selected: the code looks up the key "null". The model takes the pollster as a string.
- Object key order: keys that look like array indices (JavaScript lists them first) and keys that name `Object.prototype` members (`constructor`, `__proto__`, ...) are assumed absent from the sheet. Key order inside a point or row object is not modelled (maps).
- Selection.InitialSelection: models one run of the effect. When React re-runs it is not modelled.
