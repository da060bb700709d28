# Seat service: a verified model

This project models the parts of the seat service whose correctness is not visible from one function body, and proves
properties of the model. `dafny verify dfyconfig.toml` checks everything. Paths below are relative to the root of the
service's repository.

| area | files |
|---|---|
| raster recognition: threshold, labelling, contour flood, shape fit | `Raster`, `Reachability`, `FloodQueue`, `Labelling`, `Components`, `Silhouette`, `Contour`, `GridSums`, `ShapeFit`, `FitProperties`, `ContourFitting`, `Extraction`, `SymbolPlacement`, `PixelClasses`, `Otsu`, `DarkWeight` |
| interpretation of shapes: containment, roles, parents, seat counts, review | `StableSort`, `Interpreter`, `ShapeRelations`, `Elements`, `ElementProperties`, `InterpretationProperties`, `Recognizer` |
| seat assignment: rows, log and outbox, one operation at a time and interleaved | `SeatRows`, `SeatStore`, `SeatProperties`, `SeatOutcomes`, `SeatProtocol`, `SeatInterleaving`, `SeatReleases`, `SeatSweeps`, `SeatRefinement` |
| layout versions: snapshot, restore | `LayoutRows`, `Snapshots`, `SnapshotProperties`, `RestoreProperties` |
| layout generation and copying | `Geometry`, `Placement`, `GeometryWriting`, `GenerationProperties`, `GeneratedRows`, `SeatMapProperties`, `Cloning` |
| the layout service over its rows, and runs of its operations | `LayoutWriteService`, `LayoutRuns` |
| layout operations and assignments over the same seats, one at a time and interleaved | `SeatingSystem`, `SeatingInterleaving` |
| analytics outbox | `Outbox`, `OutboxProtocol` |
| access projection, metadata merge | `AccessProjection`, `MetaDefaults` |
| shared | `Results`, `Sequences`, `Numbers`, `Decimal` |

How the model reads the code:

- Code that changes arrays or rows step by step is a method or a class over those arrays or rows. Each such method is
  proved to compute a specification function, and the properties are lemmas about that function.
- A database table is a sequence or map of rows. A transaction that fails leaves the rows as they were. The unique
  constraints, foreign keys, cascades and enum columns are those of the schema in
  `src/prisma/generated/internal/class.ts`.
- Numbers are exact: pixel counts are integers, coordinates, moments and confidences are reals.
- Row ids, generated ids and clock readings that the database, the runtime or the clock would supply are fresh values
  or parameters.

Where the code does less than its comments or its names suggest, the code is modelled and a lemma says so:

- `MetaDefaults.MergeIdempotentIff`: merging twice is merging once exactly when the override is truthy, the base is an
  object, or the base is falsy. `StringIsNotIdempotent` is a case where it is not.
- `SeatInterleaving.CreatedStuck` and `StuckUntilDeleted`: a seat that is cloned or restored as ASSIGNED has no holder
  and can never be assigned or freed again; it can only be deleted.
- `SeatReleases.ReleaseNamesIff`: the rows that a release is logged from were read before the write, so the log entry
  names the holder whom the log had seated exactly when the seat still had the holder that was read. All releases name
  the right holder in runs where no commit, creation or deletion touches a row between its read and its release
  (`FreshReleasesAreNamed`). An unassignment, an assignment to nobody and the clearing of a conflicting seat can each
  free the seat of a guest who came later while logging the earlier one (`StaleUnassignFreesAnother`,
  `StaleAssignNobodyFreesAnother`, `StaleClearingFreesAnother`).
- `SeatSweeps.VisitFreesGuestIff`: freeing all seats of a guest reads the list of seats first and then unassigns one seat
  after another, each in its own transaction. A listed seat is freed from the guest, and logged so, exactly when the row
  that its transaction reads still has the guest and keeps that holder up to the write. `StaleSweepFreesAnother` is a run
  in which a seat on the list passes to another guest first, who is then freed and logged instead.
- `OutboxProtocol.SlowPublisherSettlesTwice`: a publisher that outlives its lease can leave a record both published and
  dead-lettered.
- `OutboxProtocol.BackoffSkippedIff`: a claim does not look at the next attempt time again, so a publisher comes to a
  record inside its backoff delay exactly when a failure of the record, recorded since the publisher queried its batch,
  is still being waited for. `OlderBatchSkipsBackoff` is such a run.
- `RestoreProperties.SeatsAreKeptIff`: restoring keeps all seats exactly when each hangs on a table and section of its
  own event; `StandingSeatIsLost` is a layout that loses one. Seat types other than RESERVED come back as STANDARD, and
  seat shapes come back as the default one.
- `GenerationProperties.SeatsLandOnTheirTableIff`: tables are found again by name over the whole event, so seats land
  on their own table exactly when no earlier table of the configuration has its name. With the configuration of
  `SecondTableStaysEmpty` all seats land on the first of two tables.
- `GenerationProperties.GeneratedIff`: generating succeeds exactly when no two tables of sections with one name have one
  name and every table with seats names a seat shape of the column's enum; otherwise it leaves the event without any
  rows. `RepeatedTableFails` has a repeated name, and `GridOfSeatsFails` asks for the seat arrangement "grid", which the
  engine knows and the column does not.
- `SeatMapProperties.SeatMapIsLaidOut`: a seat map gives each of its tables the same number of seats, rounded up, so it
  stores the number of seats asked for exactly when the number of tables divides it.
- `AccessProjection.ConvergesIffLatestIsUnique`: delivery order does not matter exactly when, per key, one message has
  the greatest time; `TiedRolesDiverge` is a pair of messages for which it does.
- `LayoutWriteService.UndoHasNoCursor`: undoing twice restores the same version twice, and redoing never restores
  anything.
- `Cloning.DuplicateOnlyOnce`: a table can be duplicated only once while its copy keeps its name.
- `Cloning.CloneHasAllSeatsIff`: seats that stand at no table are not cloned with their section, so the clone has as many
  seats as the section exactly when, seats following their tables, every seat of the section has a table.

## Model

| member | source | states |
|---|---|---|
| Labelling.ScanNeighbours | src/layout-import/recognizers/raster-components.ts:128-141 | visiting the eight neighbours queues and labels exactly the dark unlabelled ones, within the queue's bounds |
| Labelling.Expand | src/layout-import/recognizers/raster-components.ts:119-142 | one queue step keeps the flood invariant, and size and box are those of the pixels taken so far |
| Labelling.FloodComponent | src/layout-import/recognizers/raster-components.ts:107-142 | the flood from a seed labels exactly the pixels joined to it by 8-adjacent dark paths, and the component's size and box are exact and tight |
| FloodQueue.FloodIsRegion | src/layout-import/recognizers/raster-components.ts:115-142 | a drained queue has seen all of a region and nothing else |
| FloodQueue.RoomInQueue | src/layout-import/recognizers/raster-components.ts:95-138 | a set of pixel indices has no more elements than there are pixels, so the queue never overruns |
| Components.LabelComponents | src/layout-import/recognizers/raster-components.ts:93-163 | the labelling loop ends with the surveyed components or with exactly the error the survey calls for, after labelling as `Labelled` says |
| Components.LabelsAreComponents | src/layout-import/recognizers/raster-components.ts:94-142 | a pixel has a label iff it is at most the threshold, and two dark pixels share one iff a dark 8-adjacent path joins them |
| Components.DescriptionIsUnique | src/layout-import/recognizers/raster-components.ts:107-127 | size and box of a region determine the component's description |
| Components.ComponentsPartitionDarkPixels | src/layout-import/recognizers/raster-components.ts:123-143 | the component sizes add up to the number of dark pixels |
| DarkWeight.SizesAreLowerWeight | src/layout-import/recognizers/raster-components.ts:64-143 | the component sizes add up to the weight of the threshold's lower class |
| Silhouette.RingIsExterior | src/layout-import/recognizers/raster-components.ts:198-231 | the whole padding ring is reached from the corner |
| Silhouette.PaddingIsEnough | src/layout-import/recognizers/raster-components.ts:198-231 | a cell is reached inside the padded box iff it can escape to infinity in the unbounded plane |
| Silhouette.FillIsClosure | src/layout-import/recognizers/raster-components.ts:191-231 | filling contains the cells, fills nothing twice and grows with the cells |
| Silhouette.EscapeAvoidsHoles | src/layout-import/recognizers/raster-components.ts:212-231 | an escape path never enters a filled hole |
| Contour.MaskFloodIsExterior | src/layout-import/recognizers/raster-components.ts:212-231 | reachability between mask indices is reachability between cells of the padded box |
| Contour.FloodExterior | src/layout-import/recognizers/raster-components.ts:212-231 | the flood marks with 2 exactly the exterior cells of the padded box and leaves the rest of the mask |
| ContourFitting.MaskComponent | src/layout-import/recognizers/raster-components.ts:199-211 | the mask marks exactly the box cells with the component's own label |
| ContourFitting.SumMoments | src/layout-import/recognizers/raster-components.ts:232-247 | the five running sums are the moments of the filled silhouette |
| ContourFitting.CountOverlaps | src/layout-import/recognizers/raster-components.ts:260-288 | the four counters are the intersections and unions of the silhouette with both ellipses |
| ContourFitting.FitContour | src/layout-import/recognizers/raster-components.ts:192-305 | the fit is the fit of the component's own cells with their enclosed holes |
| ContourFitting.FitDependsOnOwnPixels | src/layout-import/recognizers/raster-components.ts:191-247 | other labels inside the box do not change the fit |
| ShapeFit.VarianceNotNegative | src/layout-import/recognizers/raster-components.ts:232-259 | n times the sum of squares is at least the square of the sum, so neither variance is negative |
| ShapeFit.FitInUnit | src/layout-import/recognizers/raster-components.ts:289-304 | rectangle fit, ellipse fit and quality lie between 0 and 1 |
| FitProperties.ShapeOfFit | src/layout-import/recognizers/raster-components.ts:289-304 | a fit names the rectangle iff its share of the box is at least 0.8 and 0.06 more than the ellipse's, a round shape or an oval iff the ellipse's is, round iff the width is between 0.85 and 1.18 times the height, and nothing otherwise |
| FitProperties.FullBoxIsNoEllipse | src/layout-import/recognizers/raster-components.ts:289-304 | a silhouette of any size that fills its box is never round or oval |
| FitProperties.BoxEllipseIsNoRectangle | src/layout-import/recognizers/raster-components.ts:263-304 | a silhouette of any size that is the ellipse of its box is never a rectangle |
| FitProperties.BoxEllipseIs | src/layout-import/recognizers/raster-components.ts:263-269 | a cell is in the ellipse of the box iff, in whole numbers, its centre is in the ellipse that touches all four sides |
| FitProperties.MomentEllipseIs | src/layout-import/recognizers/raster-components.ts:250-274 | the moment ellipse is the one around the centroid with twice the standard deviation, at least a pixel, as radius along each axis, stated from the five sums |
| Extraction.ExtractShapes | src/layout-import/recognizers/raster-components.ts:89-182 | the shapes are one fitted symbol per candidate component in order, or exactly the error that applies |
| Extraction.OwnCellsAreRegion | src/layout-import/recognizers/raster-components.ts:202-211 | the cells a label marks in its box are the component's connected region |
| Extraction.ExtractedShapesAreSound | src/layout-import/recognizers/raster-components.ts:165-181 | extracted symbols have distinct ids, boxes inside the raster and quality between 0 and 1 |
| SymbolPlacement.SymbolsDepictComponents | src/layout-import/recognizers/raster-components.ts:93-181 | the symbols are, in order of first pixels and one each, the connected regions of dark pixels at least six wide and high, of at least twelve pixels and with no side over twenty times the other; each box covers its region, touches it on all four sides and has the fit of the region with its holes filled |
| Otsu.Tally | src/layout-import/recognizers/raster-components.ts:40-49 | histogram, sum, minimum and maximum are those of the pixels |
| Otsu.RunningScore | src/layout-import/recognizers/raster-components.ts:64-71 | from the running sums, both classes are non-empty and the variance is the between-class score of the split |
| Otsu.SearchThreshold | src/layout-import/recognizers/raster-components.ts:59-77 | the result is the least threshold in [minimum, maximum) with the greatest between-class score |
| Otsu.BinaryThreshold | src/layout-import/recognizers/raster-components.ts:22-78 | errors, the empty plan and the best threshold each occur exactly when they should |
| PixelClasses.BetweenComplementsWithin | src/layout-import/recognizers/raster-components.ts:66-75 | between-class score and within-class scatter of any split add up to a constant |
| PixelClasses.MeanIsBestCentre | src/layout-import/recognizers/raster-components.ts:66-75 | the class mean minimises the squared deviations of a class |
| Otsu.BestThresholdHasLeastScatter | src/layout-import/recognizers/raster-components.ts:59-77 | no other threshold has less within-class scatter |
| Otsu.BestThresholdIsOptimal | src/layout-import/recognizers/raster-components.ts:59-77 | no division of the pixels into two classes at all, by threshold or not, has less within-class scatter |
| Interpreter.ContainmentIsStrictOrder | src/layout-import/recognizers/layout-interpreter.ts:9-20 | containment is irreflexive and transitive over any mix of rectangles and ellipses, and a container has the larger area |
| ShapeRelations.ContainsIff | src/layout-import/recognizers/layout-interpreter.ts:13-20 | a round or oval symbol contains another iff every point of the other's box is strictly inside its ellipse, any other symbol iff every such point is strictly inside its box |
| ShapeRelations.BodyGapIsDistance | src/layout-import/recognizers/layout-interpreter.ts:30-44 | by Euclidean length, a seat whose centre is on a body has no gap; otherwise the gap is the distance to the closest point of the box, or to the point where the line between the centres leaves the ellipse |
| ShapeRelations.SimilarSizeIff | src/layout-import/recognizers/layout-interpreter.ts:22-27 | similar size is widths and heights within a factor of 1.35 both ways |
| ShapeRelations.EligibleIff | src/layout-import/recognizers/layout-interpreter.ts:94-99 | a table is eligible for a seat iff it has four times its area and a gap of at most two and a half times its longer side |
| Interpreter.RolesAreDisjoint | src/layout-import/recognizers/layout-interpreter.ts:70-110 | no candidate is two of section, table and seat, and the kind of a candidate is its role |
| Interpreter.SeatsAreLargestFamily | src/layout-import/recognizers/layout-interpreter.ts:82-90 | the seats of the classification are the family of a body that no body beats in family size, nor at equal size in smaller area; there are none when no family has three members |
| InterpretationProperties.SectionIff | src/layout-import/recognizers/layout-interpreter.ts:67-80 | a candidate is a section iff it has a shape, contains three candidates with shapes, one of at most a quarter of its area, and covers 8 percent of the raster |
| InterpretationProperties.TableIff | src/layout-import/recognizers/layout-interpreter.ts:81-101 | a candidate is a table iff it has a shape, is no section and no seat, and at least three seats are eligible for it |
| InterpretationProperties.SeatsAreFirstBest | src/layout-import/recognizers/layout-interpreter.ts:82-90 | the seats are the family of the first body that none beats in family size or, at equal size, in smaller area, when it has three members |
| StableSort.SortIsStable | src/layout-import/recognizers/layout-interpreter.ts:87-89 | sorting keeps every item once and the old order of items that compare equal |
| Elements.InterpretShapes | src/layout-import/recognizers/layout-interpreter.ts:47-197 | elements, parents, seat counts and warnings are those of the classification, one element per candidate |
| ElementProperties.SectionParentIsSmallest | src/layout-import/recognizers/layout-interpreter.ts:118-133 | the enclosing section chosen as parent has the least area of those that contain the candidate |
| InterpretationProperties.SectionParentIsFirst | src/layout-import/recognizers/layout-interpreter.ts:118-133 | of several enclosing sections of the least area the first is the parent |
| ElementProperties.ParentExists | src/layout-import/recognizers/layout-interpreter.ts:118-172 | every parent id is that of a section, or for a seat of a table |
| ElementProperties.ParentIsLarger | src/layout-import/recognizers/layout-interpreter.ts:118-172 | a parent has more area than its child, a table at least four times its seat's |
| ElementProperties.ParentsFormForest | src/layout-import/recognizers/layout-interpreter.ts:103-183 | no chain of parent links visits an element twice |
| ElementProperties.LinkedIffClearlyNearest | src/layout-import/recognizers/layout-interpreter.ts:140-172 | a seat is linked to a table iff every other eligible table is farther by half the seat's diameter and by more than a quarter |
| ElementProperties.SeatParentIsClearlyNearest | src/layout-import/recognizers/layout-interpreter.ts:140-172 | a table named as a seat's parent is its clearly nearest table |
| ElementProperties.SeatCountIsExact | src/layout-import/recognizers/layout-interpreter.ts:168-188 | a table's seat count is the number of seat elements that name it as parent |
| ElementProperties.ElementsInUnitSquare | src/layout-import/recognizers/layout-interpreter.ts:111-117 | every normalised box lies inside the unit square |
| InterpretationProperties.ElementSays | src/layout-import/recognizers/layout-interpreter.ts:103-183 | an element needs review iff its kind is unknown or it is a seat with eligible tables none of which is clearly nearest; confidences and the shape follow the kind and the link |
| InterpretationProperties.OneWarningPerReview | src/layout-import/recognizers/layout-interpreter.ts:60-196 | after the general warning there is exactly one for each element to review, in order, naming the unknown object or the seat and its two nearest tables; with no candidates there is just the notice |
| Recognizer.Analyze | src/layout-import/recognizers/geometry-layout.recognizer.ts:9-23 | the result is the interpretation of the symbols at the best threshold, or exactly the error that a stage calls for; its elements are sound whatever the raster, and scaled to pixels they depict the connected dark regions |
| Recognizer.InterpretationIsSound | src/layout-import/recognizers/layout-interpreter.ts:103-196 | the elements of every recognised plan have distinct ids, proper parents, exact counts and boxes in the unit square |
| Recognizer.ElementsDepictComponents | src/layout-import/recognizers/layout-interpreter.ts:103-133 | scaled by the raster's sides, the elements' boxes and shapes are those of the connected dark regions, one element each and none missing |
| SeatWriteService.SeatWrites.AssignSeat | src/seat/services/seat-write.service.ts:168-365 | result and rows are those of the assignment function; a failure leaves seats, log and outbox as they were |
| SeatWriteService.SeatWrites.ClearConflicts | src/seat/services/seat-write.service.ts:204-267 | every other seat of the event that the holder has is freed, logged and published once, in order |
| SeatWriteService.SeatWrites.AssignSeatToGuest | src/seat/services/seat-write.service.ts:367-457 | result and rows are those of the guest assignment function; a failure changes nothing |
| SeatWriteService.SeatWrites.UnassignSeat | src/seat/services/seat-write.service.ts:476-539 | a held seat is freed with its log entry and fact, a free or missing one is left alone |
| SeatWriteService.SeatWrites.UnassignSeatsByGuestId | src/seat/services/seat-write.service.ts:541-546 | every seat found for the guest is unassigned in turn |
| SeatProperties.AssignSeatIsSound | src/seat/services/seat-write.service.ts:184-365 | an assignment keeps every invariant, never trips a unique constraint and changes nothing when it fails |
| SeatProperties.ClearedHasRoom | src/seat/services/seat-write.service.ts:204-299 | after the clearing loop the target row clashes with no other |
| SeatProperties.AssignSeatMovesHolder | src/seat/services/seat-write.service.ts:204-303 | a successful assignment gives the holder this seat and no other of the event, and changes no seat of anyone else |
| SeatOutcomes.AssignSeatAnswers | src/seat/services/seat-write.service.ts:168-365 | each error occurs exactly under its condition; a success frees the holder's other seats of the event in order of creation, gives the seat, and adds one log entry and one fact for each, field by field, and changes nothing else |
| SeatProperties.AssignSeatToGuestIsSound | src/seat/services/seat-write.service.ts:371-457 | a guest assignment keeps every invariant and changes nothing when it fails |
| SeatOutcomes.GuestGetsOldestSeat | src/seat/services/seat-write.service.ts:383-428 | without a seat id and a seat of the guest, the seat given is available and free and every other such seat of the event was created later; none is available iff the event has no such seat; it is refused iff the guest or invitation is seated elsewhere in the event |
| SeatOutcomes.AskedSeatAnswers | src/seat/services/seat-write.service.ts:371-457 | with a seat id, the guest's seat is returned unchanged if there is one; otherwise each error occurs exactly under its condition, and a success writes the seat, one entry and one fact, field by field |
| SeatProperties.AssignSeatToGuestTakesNothing | src/seat/services/seat-write.service.ts:402-428 | a seat with a guest keeps its row, and a reserved one keeps its invitation |
| SeatProperties.SeatedElsewhereAborts | src/seat/services/seat-write.service.ts:372-428 | a guest or invitation already on another seat of the event aborts on the unique constraint instead of moving, and only that does |
| SeatProperties.RedeliveryIsNoOp | src/seat/services/seat-write.service.ts:372-381 | in any sound state in which the guest still has the seat, repeating the guest assignment returns that seat and writes no row, log entry or fact |
| SeatProperties.RedeliveredAfterRun | src/seat/services/seat-write.service.ts:371-457 | so does a second delivery after any run that left the guest on the seat |
| SeatProperties.UnassignSeatsByGuestIdFrees | src/seat/services/seat-write.service.ts:541-546 | when nothing happens between reading the list and the last unassignment, exactly the guest's seats are freed, in every event |
| SeatProperties.RunsAreSound | src/seat/services/seat-write.service.ts:168-546 | in every state of every run of atomic operations, creations and deletions holders are unique, held seats are assigned, the log replays to the rows and each entry has its fact |
| SeatProperties.AssignedIffHeld | src/seat/services/seat-write.service.ts:293-298 | in runs that create no assigned seat, the assigned seats are exactly the held ones |
| SeatRows.ExactlyOneFact | src/seat/services/seat-write.service.ts:316-351 | exactly one outbox fact comes from a log entry's transaction for its seat, and it states the same change, event and subject |
| SeatRows.OneWinner | src/seat/services/seat-write.service.ts:402-428 | in a fair log, two assignments of a seat to different holders have a release between them |
| SeatInterleaving.EveryInterleaving | src/seat/services/seat-write.service.ts:184-529 | in every state of every interleaving with stale reads the log replays to the rows, holders are unique, held seats are assigned, no assignment displaces another and facts pair with entries |
| SeatInterleaving.HolderNeverSwaps | src/seat/services/seat-write.service.ts:272-504 | no step turns a seat's guest or invitation directly into a different one |
| SeatInterleaving.RaceHasOneWinner | src/seat/services/seat-write.service.ts:272-303 | of several claimers racing for one free seat at most one succeeds |
| SeatInterleaving.StuckUntilDeleted | src/seat/services/seat-write.service.ts:223-303 | a free seat that is not available is never changed by any interleaving of assignments |
| SeatInterleaving.CreatedStuck | src/layout/services/layout-write.service.ts:704-718 | a seat created other than available is stuck from the start |
| SeatInterleaving.AvailableCanBeAssigned | src/seat/services/seat-write.service.ts:372-457 | an available free unlocked seat can be given to any guest without one, with exactly one entry and fact |
| SeatReleases.ReleaseNamesIff | src/seat/services/seat-write.service.ts:215-529 | in every run, the log entry of a committed release names the holder of the seat's entry before it iff the seat still had the holder that was read, on all three release paths |
| SeatReleases.StandingReleasesAreNamed | src/seat/services/seat-write.service.ts:215-529 | in every run whose releases each free the holder they read, every release in the log carries guest and invitation of the assignment before it |
| SeatReleases.FreshReleasesAreNamed | src/seat/services/seat-write.service.ts:215-529 | the same in every run in which no commit, creation or deletion touches a row between its read and its release |
| SeatReleases.StaleUnassignFreesAnother | src/seat/services/seat-write.service.ts:479-529 | a run in which an unassignment frees a later guest's seat and logs the earlier guest |
| SeatReleases.StaleAssignNobodyFreesAnother | src/seat/services/seat-write.service.ts:184-351 | a run in which an assignment to nobody does so |
| SeatReleases.StaleClearingFreesAnother | src/seat/services/seat-write.service.ts:215-251 | a run in which clearing a conflicting seat does so |
| SeatSweeps.VisitFreesGuestIff | src/seat/services/seat-write.service.ts:476-546 | whatever happens in between, a listed seat that is freed is freed from the guest and logged so iff the row read for it still has the guest and keeps that holder up to the write |
| SeatSweeps.UndisturbedSweepFreesGuest | src/seat/services/seat-write.service.ts:476-546 | a listed seat that nothing else touches since the list was read is freed, and its log entry names the guest |
| SeatSweeps.StaleSweepFreesAnother | src/seat/services/seat-write.service.ts:476-546 | a run in which a listed seat passes to another guest, who is freed and logged |
| SeatRefinement.AssignSeatAlone | src/seat/services/seat-write.service.ts:184-364 | an assignment of a holder that succeeds, run alone through the interleaved protocol, ends with the rows, log and outbox of the assignment function |
| SeatRefinement.AssignSeatClaimsIff | src/seat/services/seat-write.service.ts:184-303 | run alone to its claim it can claim the seat iff the assignment function succeeds, and where it cannot, aborting leaves what the function leaves |
| SeatRefinement.AssignNobodyAlone | src/seat/services/seat-write.service.ts:184-364 | an assignment to nobody does so, too |
| SeatRefinement.UnassignSeatAlone | src/seat/services/seat-write.service.ts:476-529 | an unassignment run alone ends with the rows, log and outbox of its function |
| SeatRefinement.AssignSeatToGuestAlone | src/seat/services/seat-write.service.ts:371-457 | a guest assignment that takes a seat, run alone, ends with the rows, log and outbox of its function |
| SeatRefinement.UnassignGuestAlone | src/seat/services/seat-write.service.ts:541-546 | a sweep over a guest's seats that nothing interrupts ends with the rows, log and outbox of its function |
| LayoutWriteService.LayoutWrites.SaveLayoutVersion | src/layout/services/layout-write.service.ts:73-113 | a version with a new number is appended with the event's serialised rows, otherwise nothing changes |
| LayoutRows.SurvivesIff | src/layout/services/layout-write.service.ts:191-194 | deleting an event's seats, tables and sections leaves a row exactly when neither it nor any row it hangs below is the event's |
| LayoutWriteService.LayoutWrites.RestoreSections | src/layout/services/layout-write.service.ts:198-218 | sections are created in order with the id map of the last one per old id; it fails iff two share a name |
| LayoutWriteService.LayoutWrites.RestoreTables | src/layout/services/layout-write.service.ts:224-244 | tables of known sections are created in order with their id map; it fails iff two of one section share a name |
| LayoutWriteService.LayoutWrites.RestoreVersion | src/layout/services/layout-write.service.ts:188-280 | rows and ids are those of the restoring function, and nothing changes when a row is refused |
| LayoutWriteService.LayoutWrites.Undo | src/layout/services/layout-write.service.ts:130-157 | the version before the latest one is restored, if there is one and its rows are admitted; otherwise nothing changes |
| LayoutWriteService.LayoutWrites.Redo | src/layout/services/layout-write.service.ts:159-186 | the version after the latest one is restored, if there is one; otherwise nothing changes |
| LayoutWriteService.UndoHasNoCursor | src/layout/services/layout-write.service.ts:115-186 | undoing finds the version just before the latest whenever there are two, and redoing never finds any |
| LayoutRows.WipedIsValid | src/layout/services/layout-write.service.ts:192-194 | deleting an event's rows leaves every constraint intact |
| RestoreProperties.RestoreKeepsValid | src/layout/services/layout-write.service.ts:188-280 | whatever data is restored, no row dangles, names and ids stay unique, and restored seats have no holder |
| RestoreProperties.SaveThenRestore | src/layout/services/layout-write.service.ts:73-280 | saving and later restoring gives back the rows that hang together, in normal form, up to an injective renaming that the links follow |
| RestoreProperties.RestoreTwice | src/layout/services/layout-write.service.ts:188-280 | a second save and restore only renames ids again |
| RestoreProperties.SeatsAreKeptIff | src/layout/services/layout-write.service.ts:250-273 | the number of seats survives iff every seat of the event is anchored within it |
| RestoreProperties.StandingSeatIsLost | src/layout/services/layout-write.service.ts:250-273 | a valid layout whose one seat stands at no table loses it when saved and restored |
| RestoreProperties.SeatTypeSurvives | src/layout/utils/snapshot-serializer.ts:150-152 | of the seat types only RESERVED passes the filter by status values |
| RestoreProperties.SavedShows | src/layout/utils/snapshot-serializer.ts:60-160 | normalising a serialised layout keeps ids, links and fields, fills in defaults and gives a table-less seat a new table id |
| SnapshotProperties.AnyDataNormalises | src/layout/utils/snapshot-serializer.ts:107-162 | of any stored data every item is kept with its fields and metadata; missing metadata becomes an empty object, an unknown status AVAILABLE, a seat type that is no status value nothing, and a missing id a new one |
| SnapshotProperties.NewIdsDiffer | src/layout/utils/snapshot-serializer.ts:117-145 | no two missing ids get the same new one |
| SeatPlan.BuildAutoGenerateInputFromMaxSeats | src/layout/services/layout-write.service.ts:875-926 | the loops build the plan: table k counted across sections has min(10, n - 10k) seats |
| SeatPlan.TablesWhileSeatsRemain | src/layout/services/layout-write.service.ts:879-897 | a table exists exactly while seats remain for it |
| GeometryEngine.Generate | src/layout/utils/geometry-engine.ts:75-99 | sections, tables and seats, with ids, names, order and counts, are those of the configuration, and every table id can be read back |
| GeometryEngine.TableIdReadsBack | src/layout/utils/geometry-engine.ts:252-406 | splitting a table id gives back the indices printed into it |
| GeometryEngine.TableIdIndexed | src/layout/utils/geometry-engine.ts:397-443 | the seats generated for a table id are exactly those of the table at its place, numbered from one and available |
| GeometryEngine.TableIdsDiffer | src/layout/utils/geometry-engine.ts:251-252 | different places have different table ids |
| Decimal.ParsePrint | src/layout/utils/geometry-engine.ts:404-406 | a printed number reads back as itself |
| Decimal.NumberedNamesDiffer | src/layout/services/layout-write.service.ts:899-915 | numbered names with one prefix are equal only for equal numbers |
| LayoutWriteService.LayoutWrites.WriteGeometry | src/layout/services/layout-write.service.ts:389-534 | rows are those of the writing function, and nothing changes when a table name is taken in its section or a seat shape is not of the enum |
| LayoutWriteService.LayoutWrites.AutoGenerate | src/layout/services/layout-write.service.ts:302-342 | the event is wiped, the geometry written and a version saved; when writing fails the wipe stays, and when the version number is taken the rows stay |
| LayoutWriteService.LayoutWrites.AutoGenerateFromMaxSeats | src/layout/services/layout-write.service.ts:344-356 | the same for the plan for the number of seats |
| LayoutWriteService.LayoutWrites.AutoGenerateSeatMap | src/layout/services/layout-write.service.ts:358-384 | the same for one section of tables that share the seats |
| SeatMapProperties.SeatMapIsLaidOut | src/layout/services/layout-write.service.ts:358-384 | generating a seat map succeeds with its section, tables and equally many available seats at each, which are as many as asked for iff the tables divide them |
| GenerationProperties.GeneratedIff | src/layout/services/layout-write.service.ts:302-480 | generating succeeds iff no two tables of same-named sections of the configuration get one name and every table with seats names a seat shape of the enum |
| GenerationProperties.RepeatedTableFails | src/layout/services/layout-write.service.ts:482-497 | a section with two tables of one name: nothing is generated |
| GenerationProperties.GridOfSeatsFails | src/layout/utils/geometry-engine.ts:410-438 | a table of seats of the shape "grid": nothing is generated although the names fit |
| GenerationProperties.GenerateKeepsValid | src/layout/services/layout-write.service.ts:302-534 | whatever is generated, no row dangles, names and ids stay unique and enums are respected |
| GenerationProperties.SeatLandsOnFirst | src/layout/services/layout-write.service.ts:482-533 | each generated seat is stored on the first table of the configuration that has its table's name |
| GeneratedRows.SectionsAreAsDrawn | src/layout/services/layout-write.service.ts:396-442 | each name of the configuration has exactly one section, with place, size, order and metadata of the first section of that name |
| GeneratedRows.TablesAreAsDrawn | src/layout/services/layout-write.service.ts:444-477 | each table is stored with its name, order, capacity and the place and metadata drawn for it, in the section that has its section's name |
| GeneratedRows.SeatsAreAsDrawn | src/layout/services/layout-write.service.ts:495-531 | each seat is stored with its number, the place, rotation and shape drawn for it, and a label made of the names of its section and table and its number |
| GenerationProperties.SeatsLandOnTheirTableIff | src/layout/services/layout-write.service.ts:482-533 | it lands on its own table iff no earlier table has the same name |
| GenerationProperties.SecondTableStaysEmpty | src/layout/services/layout-write.service.ts:482-533 | two sections that each hold a table of one name: all seats land on the first table |
| GenerationProperties.MaxSeatsAreLaidOut | src/layout/services/layout-write.service.ts:344-534 | generating for n seats succeeds with exactly n available seats on ceil(n/10) tables in ceil(ceil(n/10)/5) sections, each seat on the table and section planned for it |
| Placement.PlaceTablesU | src/layout/utils/geometry-engine.ts:309-330 | one position per table in two rows, every two tables 200 apart |
| Placement.PlaceTablesHorseshoe | src/layout/utils/geometry-engine.ts:332-354 | one position per table, the lower row shifted by half a step, every two tables 200 apart |
| Placement.PlaceSeatsGridBankStyle | src/layout/utils/geometry-engine.ts:462-486 | one position per seat in two centred banks that face each other, every two seats 44 apart |
| Placement.GridIsSpread | src/layout/utils/geometry-engine.ts:299-307 | tables on the grid are a full cell apart and fill no more rows than columns |
| Placement.SeatRowIsSpread | src/layout/utils/geometry-engine.ts:488-504 | seats in a row are 44 apart |
| LayoutWriteService.LayoutWrites.DuplicateTable | src/layout/services/layout-write.service.ts:677-733 | result, rows and the version saved afterwards are those of the duplicating function; a taken version number is reported with the copy in place |
| LayoutWriteService.LayoutWrites.CloneSection | src/layout/services/layout-write.service.ts:739-813 | result, rows and the version saved afterwards are those of the section cloning function; a taken version number is reported with the copy in place |
| Cloning.DuplicateCopiesTable | src/layout/services/layout-write.service.ts:691-718 | one copy of the table with its section, order, capacity and prepared metadata under the copied name, and one clone per seat with status, type and prepared metadata kept and no holder, are added; no other row changes |
| Cloning.DuplicatesIff | src/layout/services/layout-write.service.ts:677-702 | a table is duplicated unless a table of its section has the copy's name |
| Cloning.ClonesIff | src/layout/services/layout-write.service.ts:739-768 | a section is cloned unless a section of its event has the copy's name |
| Cloning.CloneCopiesSection | src/layout/services/layout-write.service.ts:753-797 | one section with the copied name, order and prepared metadata is added, each of its tables is copied once in order, each seat is cloned once below its table's copy, and not a row more |
| Cloning.CloneHasAllSeatsIff | src/layout/services/layout-write.service.ts:739-797 | the clone of a section has as many seats as the section iff as many of its seats stand at no table of it as its tables have seats of other sections; with seats that follow their tables, iff every seat has a table |
| Cloning.DuplicateKeepsValid | src/layout/services/layout-write.service.ts:677-718 | duplicating leaves every constraint intact |
| Cloning.CloneKeepsValid | src/layout/services/layout-write.service.ts:739-797 | cloning a section leaves every constraint intact, so no copied name clashes |
| Cloning.DuplicateOnlyOnce | src/layout/services/layout-write.service.ts:691-702 | duplicating the same table again fails on the name of the copy |
| LayoutRuns.RunsKeepValid | src/layout/services/layout-write.service.ts:188-870 | over every run of deletions, restores, generations, duplications and clonings no row dangles, names and ids are unique and enums are respected |
| LayoutRuns.PerformGrows | src/layout/services/layout-write.service.ts:188-870 | whatever a layout operation does to the seats is deleting some and creating others that nobody holds |
| SeatingSystem.LayoutIsDeletesAndCreates | src/layout/services/layout-write.service.ts:188-870 | to the assignments every layout operation is a deletion of seats and a creation of seats with unused ids and no holder |
| SeatingSystem.AssignmentIsItself | src/seat/services/seat-write.service.ts:168-546 | on the layout's rows an assignment operation does what it does on its own view of the seats |
| SeatingSystem.RunsAreSound | src/seat/services/seat-write.service.ts:168-546 | over every run of layout and assignment operations on the same rows the layout's constraints hold, holders are unique, held seats are assigned, the log replays to the rows and each entry has its fact |
| SeatingSystem.RunsFromEmptyAreSound | src/layout/services/layout-write.service.ts:188-870 | in particular over every such run that starts with nothing stored |
| SeatingInterleaving.LayoutIsSteps | src/layout/services/layout-write.service.ts:188-870 | to open assignment transactions a layout operation is the deletion of seats that none of them has written and the creation of seats with unused ids and no holder |
| SeatingInterleaving.RunIsActions | src/layout/services/layout-write.service.ts:188-870 | every run of transaction steps and layout operations on the same rows is a run of the assignment protocol |
| SeatingInterleaving.EveryMixedRun | src/seat/services/seat-write.service.ts:184-529 | in every such run from nothing stored the layout's constraints hold and, with stale reads, the log replays to the rows, holders are unique, held seats are assigned, no assignment displaces another and facts pair with entries |
| Outbox.AnalyticsOutboxPublisher.PublishReady | src/analytics/analytics-outbox.publisher.ts:31-70 | an undisturbed batch gives each of the first 50 ready records its turn, unless one is running |
| Outbox.AnalyticsOutboxPublisher.Publish | src/analytics/analytics-outbox.publisher.ts:72-122 | delivery marks the record published, failure counts on from the attempts read and backs off or dead-letters |
| Outbox.TurnReleases | src/analytics/analytics-outbox.publisher.ts:51-121 | an undisturbed turn leaves no lock: the record is settled or waits at most five minutes |
| Outbox.BatchTurns | src/analytics/analytics-outbox.publisher.ts:50-66 | every candidate of a batch gets exactly one turn and nothing else changes |
| Outbox.BatchIsOldest | src/analytics/analytics-outbox.publisher.ts:37-49 | a batch is the first fifty due records in order of creation: a record that is due and left out is younger than all fifty taken |
| Outbox.BackoffDoubles | src/analytics/analytics-outbox.publisher.ts:103-120 | the delay starts from one second and doubles with each attempt up to five minutes |
| OutboxProtocol.SettledForever | src/analytics/analytics-outbox.publisher.ts:51-121 | over every run a publication or dead-letter mark stays set |
| OutboxProtocol.NeverClaimedAgain | src/analytics/analytics-outbox.publisher.ts:51-65 | no claim of a settled record takes, at any later time |
| OutboxProtocol.RunsPublishOnlySent | src/analytics/analytics-outbox.publisher.ts:76-102 | over every run a published record was sent at least once |
| OutboxProtocol.NothingIsStranded | src/analytics/analytics-outbox.publisher.ts:37-66 | from any state an idle publisher can publish any unsettled record once its lease and backoff are over |
| OutboxProtocol.ExclusiveUnlessStolen | src/analytics/analytics-outbox.publisher.ts:51-121 | single ownership and exact attempts survive a step iff it is not a claim on the expired lease of a working publisher |
| OutboxProtocol.TimelyRuns | src/analytics/analytics-outbox.publisher.ts:51-121 | while publishes end within the lease, one publisher holds a record, attempts are its failures, it is dead-lettered at exactly the tenth and never published as well |
| OutboxProtocol.SlowPublisherSettlesTwice | src/analytics/analytics-outbox.publisher.ts:94-120 | a run without that bound that leaves a record published and dead-lettered |
| OutboxProtocol.BackoffSkippedIff | src/analytics/analytics-outbox.publisher.ts:37-120 | in any run a publisher comes to a record inside its backoff iff the latest delay recorded since its query is not over |
| OutboxProtocol.BackoffIsRespected | src/analytics/analytics-outbox.publisher.ts:37-120 | with no failure of the record since the query, its next attempt is due when the publisher claims it |
| OutboxProtocol.OlderBatchSkipsBackoff | src/analytics/analytics-outbox.publisher.ts:51-62 | a run in which a record is taken up inside its backoff delay |
| AccessProjection.EventRoleHandler.HandleUserAccessChanged | src/handlers/event-role.handler.ts:53-111 | a message replaces the row of its key unless the row is newer |
| AccessProjection.LatestRowStays | src/handlers/event-role.handler.ts:66-97 | after any deliveries a row is that of its latest message, the last delivered of several at one time |
| AccessProjection.ConvergesIffLatestIsUnique | src/handlers/event-role.handler.ts:66-97 | all orders of the same messages, with duplicates, leave the same row iff per key the messages of the greatest time agree |
| AccessProjection.TiedRolesDiverge | src/handlers/event-role.handler.ts:66-97 | two messages of one moment with different roles leave the roles of whichever was delivered last |
| MetaDefaults.DeepMergeMeta | src/utils/meta-defaults.ts:27-48 | the recursive loop computes the merge |
| MetaDefaults.OverrideWins | src/utils/meta-defaults.ts:34-45 | the override's value stands at every path where it is not an object |
| MetaDefaults.BaseIsKept | src/utils/meta-defaults.ts:32-45 | the base's value stands at every path the override is silent about |
| MetaDefaults.MergeAddsNothing | src/utils/meta-defaults.ts:32-45 | every value of the merge that is not an object stands at its path in the override or in the base |
| MetaDefaults.MergeTwice | src/utils/meta-defaults.ts:27-48 | merging a truthy override a second time changes nothing, whatever the base |
| MetaDefaults.MergeIdempotentIff | src/utils/meta-defaults.ts:27-48 | merging is idempotent iff the override is truthy, the base is an object, or the base is falsy |
| MetaDefaults.StringIsNotIdempotent | src/utils/meta-defaults.ts:27-48 | a string base with no override, merged twice, becomes an object |
| MetaDefaults.PreparedIsStable | src/utils/meta-defaults.ts:53-55 | preparing prepared metadata changes nothing |
| MetaDefaults.PreparedFills | src/utils/meta-defaults.ts:53-55 | prepared metadata has the input's values where it has any, the defaults where it is silent, and only the defaults when it is falsy |
| MetaDefaults.FalsyValues | src/utils/meta-defaults.ts:28-30 | everything is truthy but a missing value, false, zero and the empty string |
| MetaDefaults.SpreadByPosition | src/utils/meta-defaults.ts:32-34 | arrays and strings spread into their items and characters by position, numbers and booleans into nothing |

## Left out

- Floating-point rounding: sums, moments, ratios and coordinates are exact reals, and `Math.hypot` is any function of the gap computation, Euclidean length where a property of gaps needs it.
- Raster preparation, PDF and image decoding, streaming and worker threads: recognition starts from a prepared raster.
- Warning and error texts, log lines, GraphQL, Kafka and Prisma wiring, encryption and health checks.
- Positions on circles, rings and VIP arcs, section bounds and radii. The rotation of a row table's offset is not modelled.
- The layout change log and the diffs it stores, and single-entity create, rename and move operations.
- Role-assigned and role-removed handlers, which compare with a time the database writes.
- The order that queries without an ordering return rows in: it is the order of creation here. Equal creation times do not occur.
- Ids are non-empty: an id that is the empty string, which the code would treat as missing, is not modelled.
- SeatWriteService.SeatWrites.AssignSeat: assumes the tenant context that the outbox demands; without it every assignment that writes would abort.
- SeatProtocol.Do: deletes an event's seats and log entries in one step, and log order is commit order, not the creation time stamped at the start of a transaction.
- Outbox.AnalyticsOutboxPublisher.PublishReady: reads the clock once per batch; the interleaved protocol reads it at every step.
- LayoutWriteService.LayoutWrites.RestoreVersion: a snapshot's fields other than ids, enums, metadata and optional values are taken to have the types they were saved with.
- GeometryEngine.Generate: what the engine draws for an id, its coordinates, size and rotation, is a parameter when the geometry is written.
- LayoutWriteService.LayoutWrites.WriteGeometry: takes coordinates, sizes, rotations and the metadata of sections and tables as drawn.
- GenerationProperties.GeneratedIff: limits of time, memory and argument counts, and text that the database cannot store, are not modelled as failures.
- Columns that no modelled rule depends on: shape, capacity and rotation of a section; shape, size and rotation of a table; size, radius, stacking order, lock and visibility of a seat. Creating a single table writes some of them; restoring, duplicating and cloning lose them, so a copy states only the modelled columns.
- LayoutWriteService.LayoutWrites.AutoGenerate: does not write the change log; the time it saves the version under is a parameter.
- LayoutWriteService.LayoutWrites.AutoGenerateFromMaxSeats: does not write the change log; the time is a parameter.
- LayoutWriteService.LayoutWrites.AutoGenerateSeatMap: does not write the change log; the time is a parameter.
- LayoutWriteService.LayoutWrites.DuplicateTable: does not write the change log; the time is a parameter.
- LayoutWriteService.LayoutWrites.CloneSection: does not write the change log; the time is a parameter.
- LayoutWriteService.LayoutWrites.Undo: reports a version whose rows are refused as not restored, where the code throws; Redo likewise.
- SeatingSystem.PerformLayout: deletes the seats, tables, sections and log entries of one event at a time, and leaves stored versions alone.
- SeatingInterleaving.Take: a layout operation reads and writes the layout in one step, although the service spreads some of them over several transactions.
- MetaDefaults.Merge: keys named like object prototype members and strings outside the basic plane are not treated specially.
